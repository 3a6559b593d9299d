# A verified model of the Nexus zkVM proof system

The Nexus zkVM runs RISC-V programs, records their execution, and proves it with a stack of interactive arguments made
non-interactive by a transcript. This project models the parts of that stack where correctness is hardest to see from
the code, and proves what each of them is for. Dafny is the only language; `dafny verify dfyconfig.toml` checks it all.

**The Spartan proof system** (`spartan/src`). Everything is over an arbitrary prime field above 3, an arbitrary
transcript hash and an arbitrary polynomial commitment that appends to the transcript and whose honest openings verify
(constants without a value: each theorem holds for every choice).

* `Field`, `Vectors`, `Powers`, `Multilinear`: the field, inner products, powers of two, and the reference definition
  `Mle` of a multilinear extension against which every faster evaluation is measured.
* `DensePolynomial`, `Merging`, `UniPoly`, `Combiners`: the tables and univariate polynomials as the source computes
  them, in place.
* `Transcript`, `Sumcheck`, `SumcheckVerifier`, `SumcheckProver`, `BatchedProver`: sum-check, complete and sound.
* `UnluckyPoints`: how few challenges hide a difference between two tables.
* `ProductCircuit`, `ProductArgument`, `ProductProver`, `ProductSoundness`: the batched product argument.
* `SparseMatrix`, `MemoryChecking`, `Fingerprint`, `SparseNetwork`, `SparseEvalVerifier`, `SparseEvalProver`,
  `JointOpenings`, `SparseEvalSoundness`, `UncheckedLengths`: evaluating committed sparse matrices by offline memory
  checking.
* `R1CS`, `Padding`, `Commitments`, `Crr1csVerifier`, `Crr1csProver`, `Crr1csSoundness`, `Snark`, `SnarkSoundness`:
  committed relaxed R1CS, up to the whole SNARK.
* `Histories`: what the transcript held when each challenge was drawn.

For each argument two theorems are proved about every run. *Completeness*: a prover method's contract says that the
verifier's specification, started from the same transcript, accepts what it returns and ends in the same transcript.
*Deterministic soundness*: if the verifier accepts and the values opened to it are true of some tables, then the claim is
true of these tables, or one of a list of explicit accidents happened - and each accident is shown to need one of few
values of a challenge drawn after the prover was committed. That it was drawn after is a theorem too: every challenge is
the hash of the transcript up to its squeeze, and equal transcripts come from equal messages (`Histories`). This holds for whatever the prover sent, with one condition
that the source does not check: in an evaluation proof the lists of addresses and timestamps must hold one value per
matrix. `UncheckedLengths` shows why the condition is needed.

**The virtual machine** (`Rv32`, `Rv32Encoding`, `Vm`, `VmLaws`, `VmTrace`): the interpreter, an assembler inverse to its
parser, the laws of its instructions, the trace recorder, and the replay that turns a recorded block into witnesses. **The proof tree** (`PcdTree`): which step each proof of the parallel prover covers.
**Folding** (`Csr`, `BitReversal`, `CcsFolding`, `CcsPolynomials`): the algebra of folding constraint systems.
**The parallel tree** (`BlockPool`, `LeafDistribution`): buffer ids and the distribution of leaves. **Stable matching**
(`GaleShapley`): the example program.

Where the source updates objects in place the model has a class or a method with loops, proved against a function on
values; a failed assertion, an index error or an `Err` is a `None` (or named error) result.

## Findings

Places where the code does not do what its comments or its purpose suggest; the model follows the code.

* Replay is not faithful to EBREAK. `translate_nexus` gives the plain EBREAK word the return register x10, evaluation
  does not write it, and replay writes 0 to it (`VmTrace.EbreakIsNotReplayed`). `VmTrace.StepReplays` and
  `VmTrace.BlockReplays` state exactly when replay agrees: no EBREAK or UNIMP word names a register with a nonzero value.
* A jump or a taken branch to address 0 falls through, because 0 stands for "no jump" in `eval_inst`. The target is
  reached if and only if it is not 0 or the jump is the last word of memory (`VmLaws.JumpsReachTarget`);
  `VmLaws.JumpToZeroFallsThrough` is a machine at `jalr x0, 0(x0)`.
* `split_by` numbers chunks from zero, so it keeps `block(n)` only for traces that start at zero
  (`VmTrace.SplitKeepsBlocks`).
* `trace` with padding stops at 2^m - 1 blocks, at least 3, not at a power of two (`VmTrace.TreeSizes`).
* The hash layer does not check how many values it was sent. `verify_helper` compares as many reads and writes as there
  are addresses in the proof, and a read or write is compared if and only if its index is below that number
  (`UncheckedLengths.ComparedIffAddressed`); the joint opening sees only the concatenation of the lists. With the row
  addresses, the column addresses or both moved into the list of timestamps the verifier accepts, for every choice of
  challenges, evaluations computed from any tables in place of the dereferenced ones, although all it opens is true
  (`UncheckedLengths.AcceptsAnyTables`). So it can be made to accept 0 for any matrices at any point
  (`UncheckedLengths.AcceptsZero`), for example for a matrix whose value is 1 (`UncheckedLengths.AcceptsWrongValue`).
  The guard that shuts this out is `SparseEvalSoundness.WellCut`: the row and column lists of addresses and timestamps
  have one entry for each evaluation. Under it the proof is sound (`SparseEvalSoundness.Soundness`,
  `SnarkSoundness.Soundness`). The guard is sufficient and not necessary: a list cut early, but not at its start, leaves
  the later entries uncompared in the same way, yet its remaining addresses are compared with timestamps that have moved,
  and these comparisons pass only when the base of the hash is 0 or the moved values happen to be equal
  (`UncheckedLengths.EarlierCutPasses`, which is an if-and-only-if).
* `Instance::new` promises at least two constraints in a comment. It keeps the promise if and only if there was a
  constraint to begin with (`Padding.AtLeastTwoConstraints`); with none it pads to one constraint and one entry per matrix
  (`Padding.NoConstraints`). A matrix with one entry cannot be proved: `ProductCircuit::new` fails exactly on inputs of
  one entry, because splitting them builds an empty polynomial, whose logarithm is refused (`ProductCircuit.NewCircuit`).
  `Padding.EnoughEntriesAfterPadding` says when padding provides a second entry.
* In the sum-check verifier the check g(0) + g(1) = e can never fail, because decompression chooses the linear term to
  meet it; only the length of a message is ever rejected (`SumcheckVerifier.RoundRejectsOnlyLength`).
* `BlockPool::new` queues ids downwards into a first-in-first-out queue, so the first id handed out is the highest, not
  0 as its comment says (`BlockPool.BlockPool.constructor`).
* `is_free` reverses the queue although its comment says that it preserves the order. The order survives if and only if
  the id is out of range or at most one id is free (`BlockPool.BlockPool.IsFree`); `BlockPool.OrderIsLost` is a pool of
  two free ids where it does not.
* `claim` accepts any id in range, also one whose slot is free or in use. Claiming an id and dropping the handle keeps
  the pool valid if and only if the id was published and not yet claimed (`BlockPool.ClaimThenDrop`). An id claimed while
  its owner still holds it is freed twice and ends up in the queue twice (`BlockPool.ClaimedWhileHeld`,
  `BlockPool.FreedTwice`); in a pool of one core the next allocations then return two live handles for one slot
  (`BlockPool.HandedOutTwice`). `BlockPool.KeptUnlessHarmful` lists exactly which operations break a valid pool.
* The evaluation proof and the network proof inside it announce the same protocol name.
* The combined polynomial of two satisfied constraint systems need not sum to zero. It does for every beta and gamma if
  and only if the number of constraints is a power of two or the coefficients of the terms without factors cancel
  (`CcsPolynomials.CombinedSumsToZero`, from the exact value in `CcsPolynomials.CombinedSum`);
  `CcsPolynomials.ConstantTermsFail` is a shape of three constraints where it does not.
* `safe_loglike!` gives one variable for a single constraint, whose extension has none. The lengths fit if and only if the
  number of constraints is not one, and with one constraint no folded instance is satisfied
  (`CcsFolding.PointSize`, `CcsFolding.FoldedFitsUnlessOne`).

## Model

| member | source | states |
|---|---|---|
| `Powers.NextPow2IsLeast` | spartan/src/math.rs:27-35 | `log_2` rounds up: the power it names is at least the number, the one below it is not |
| `Powers.NoSmallerPower` | spartan/src/math.rs:27-35 | no smaller power of two is at least the number |
| `UniPoly.Interpolates4` | spartan/src/unipoly.rs:35-52 | interpolation from the values at 0..3 recovers the coefficients of every cubic |
| `UniPoly.Interpolates3` | spartan/src/unipoly.rs:26-34 | the same for quadratics |
| `UniPoly.Evaluate` | spartan/src/unipoly.rs:72-80 | the power-accumulating loop computes the Horner value |
| `UniPoly.DecompressLoop` | spartan/src/unipoly.rs:98-110 | the loop solves for the linear term as the specification does |
| `UniPoly.DecompressMeetsHint` | spartan/src/unipoly.rs:96-110 | any decompressed polynomial has g(0) + g(1) equal to the hint |
| `UniPoly.CompressRoundTrip` | spartan/src/unipoly.rs:82-110 | decompressing a compressed polynomial with its own g(0) + g(1) gives it back |
| `UniPoly.FewAgreements` | spartan/src/unipoly.rs:72-80 | two different polynomials with n coefficients agree at fewer than n points (used to count bad challenges) |
| `DensePolynomial.EqEvals` | spartan/src/dense_mlpoly.rs:79-95 | the backward in-place doubling produces exactly the table of eq(r, .) |
| `DensePolynomial.DensePolynomial.BoundPolyVarTop` | spartan/src/dense_mlpoly.rs:219-227 | overwriting in place fixes the first variable |
| `DensePolynomial.DensePolynomial.BoundPolyVarBot` | spartan/src/dense_mlpoly.rs:229-237 | overwriting in place fixes the last variable |
| `DensePolynomial.DensePolynomial.Evaluate` | spartan/src/dense_mlpoly.rs:240-249 | the inner product with the eq table is the multilinear extension |
| `Multilinear.MleIsDot` | spartan/src/dense_mlpoly.rs:240-249 | extension = inner product with the eq table, for every table and point |
| `Multilinear.MleBindAll` | spartan/src/dense_mlpoly.rs:219-227 | binding a prefix of the point from the top leaves a polynomial whose extension at the rest is the value |
| `Multilinear.MleBindLast` | spartan/src/dense_mlpoly.rs:229-237 | binding from the bottom is evaluation at the last coordinate |
| `Multilinear.MleEqTable` | spartan/src/dense_mlpoly.rs:72-77 | `EqPolynomial::evaluate` is the extension of the eq table |
| `Merging.EqTableFactors` | spartan/src/dense_mlpoly.rs:97-110 | the eq table is the outer product of its two factored tables, at any split |
| `Merging.EqTableSumsToOne` | spartan/src/dense_mlpoly.rs:79-95 | the entries of every eq table add up to 1 |
| `Merging.FactoredEvaluation` | spartan/src/dense_mlpoly.rs:209-249 | `bound` by the left factor dotted with the right factor is the value, for odd and even splits |
| `Merging.Merge` | spartan/src/dense_mlpoly.rs:266-276 | concatenation padded with zeros to the next power of two |
| `Merging.MergedAt` | spartan/src/sparse_mlpoly.rs:93-129 | n-to-1 reduction is exact: the merged polynomial at (c, r) is the padded list of values at r, bound by c, for any number of polynomials |
| `Merging.BindReverse` | spartan/src/sparse_mlpoly.rs:106-124 | binding from the bottom in reverse order evaluates the list of values |
| `Transcript.Transcript.ChallengeVector` | spartan/src/transcript.rs:56-61 | the challenges are the successive answers of the hash to the growing history |
| `SumcheckVerifier.VerifyProof` | spartan/src/sumcheck.rs:29-67 | the loop decides acceptance and ends with the value, challenges and transcript of the specification |
| `SumcheckVerifier.RoundRejectsOnlyLength` | spartan/src/sumcheck.rs:44-51 | a round is rejected exactly when its message has the wrong length |
| `SumcheckVerifier.Run.Soundness` | spartan/src/sumcheck.rs:29-67 | a false claim with a matching final value means that in some round the polynomial sent differs from the true one and agrees with it at the challenge |
| `SumcheckVerifier.Run.FewDeceptions` | spartan/src/sumcheck.rs:29-67 | in such a round at most `degree` challenges let the prover through |
| `Combiners.RelaxedIsCubic` | spartan/src/crr1csproof.rs:201-207 | the relaxed R1CS expression lies on a cubic along every line |
| `Combiners.Product3IsCubic` | spartan/src/product_tree.rs:318-320 | so does the product of three tables |
| `SumcheckProver.Prove` | spartan/src/crr1csproof.rs:41-180 | the quadratic, cubic and five-term provers: accepted, same challenges and transcript, claims are the extensions at r, and the final value is the combination plus the exact error of a wrong claim |
| `SumcheckProver.ProveRound` | spartan/src/sumcheck.rs:205-254 | one round keeps: value = hypercube sum of the bound tables plus the propagated error |
| `BatchedProver.ProveBatched` | spartan/src/sumcheck.rs:263-430 | the batched prover: accepted with the weighted sum of products of the tables' values at r |
| `ProductCircuit.NewCircuit` | spartan/src/product_tree.rs:40-60 | the lists hold both halves of every layer; it fails exactly on an input of one entry |
| `ProductCircuit.EvaluateCircuit` | spartan/src/product_tree.rs:62-67 | the circuit evaluates to the product of all its inputs |
| `ProductCircuit.LayerClaim` | spartan/src/product_tree.rs:309-332 | the extension of a layer is an eq-weighted sum over the layer below |
| `ProductArgument.VerifyBatchProof` | spartan/src/product_tree.rs:447-575 | the verifier loop computes the specification `VerifyBatch` |
| `ProductProver.ProveLayer` | spartan/src/product_tree.rs:309-430 | one layer is accepted and leaves the extensions of the joined halves as claims |
| `ProductProver.ProveBatch` | spartan/src/product_tree.rs:291-445 | completeness: for all equal-size circuits and dot products the verifier accepts and returns the extensions of every input vector and of the unsplit dot-product tables |
| `ProductSoundness.LayerSound` | spartan/src/product_tree.rs:464-548 | backwards through one layer: true values below give true claims above, or an accident |
| `ProductSoundness.Soundness` | spartan/src/product_tree.rs:447-575 | an accepted batch whose returned claims are true of some tables started from the true products and dot products, or some layer saw an accident |
| `ProductSoundness.TrimmedBatch` | spartan/src/product_tree.rs:447-575 | surplus dot-product claims in a proof change nothing |
| `ProductSoundness.LinesMeetOnce` | spartan/src/product_tree.rs:542-548 | two different lines meet at one challenge at most |
| `ProductSoundness.OneUnluckyJoin` | spartan/src/product_tree.rs:542-548 | at most one layer challenge joins wrong values of the halves to right values of the layer |
| `ProductSoundness.CoefficientIsPinned` | spartan/src/product_tree.rs:469-479 | a layer coefficient that hides a wrong claim is unique, given the others |
| `SparseMatrix.MultiplyVec` | spartan/src/sparse_mlpoly.rs:511-525 | the fold computes matrix times vector |
| `SparseMatrix.ComputeEvalTable` | spartan/src/sparse_mlpoly.rs:527-537 | the loop computes vector times matrix |
| `SparseMatrix.Evaluate` | spartan/src/sparse_mlpoly.rs:488-509 | `multi_evaluate` is the bilinear form of the two eq tables |
| `SparseMatrix.EvalTableAt` | spartan/src/sparse_mlpoly.rs:488-537 | the eval table of rx, extended at ry, is the matrix polynomial at (rx, ry) |
| `SparseMatrix.TimesAt` | spartan/src/sparse_mlpoly.rs:511-537 | the extension of Mz at rx is z dotted with the eval table of rx |
| `SparseMatrix.ChiIsEqTable` | spartan/src/sparse_mlpoly.rs:1794-1805 | the product over the bits of an index is that entry of the eq table |
| `SparseMatrix.SparseEvaluation` | spartan/src/sparse_mlpoly.rs:1808-1817 | a sparse polynomial evaluates like its zero-padded dense table |
| `MemoryChecking.StampBatch` | spartan/src/sparse_mlpoly.rs:242-275 | accesses are stamped with the number of earlier ones to the same cell, across instances; the audit counts them |
| `MemoryChecking.BalancedIffSequential` | spartan/src/sparse_mlpoly.rs:594-667 | Init + Writes = Reads + Audit as multisets if and only if every value read is right and the stamps of each address are 0, 1, ..., audit - 1, each once |
| `MemoryChecking.ReadsAreRight` | spartan/src/sparse_mlpoly.rs:594-667 | a balanced memory returned only right values, by descent on timestamps |
| `MemoryChecking.WritesNeverRepeat` | spartan/src/sparse_mlpoly.rs:253-263 | init and write tuples form a set |
| `MemoryChecking.HonestBalanced` | spartan/src/sparse_mlpoly.rs:242-275 | the stamps of `AddrTimestamps::new` balance for every memory and access sequence |
| `Fingerprint.BalancedPasses` | spartan/src/sparse_mlpoly.rs:695-706 | a balanced memory passes init * writes = reads * audit for every pair of hash challenges |
| `Fingerprint.ProductCheckSound` | spartan/src/sparse_mlpoly.rs:695-706 | if the product equation holds at more points than there are accesses, the fingerprints are equal multisets |
| `Fingerprint.ProductCheckBalances` | spartan/src/sparse_mlpoly.rs:695-706 | and if the base makes no two accesses collide, the memory is balanced |
| `Fingerprint.FewCollisions` | spartan/src/sparse_mlpoly.rs:609-611 | two different accesses collide for at most two bases |
| `Fingerprint.HashIsPolynomial` | spartan/src/sparse_mlpoly.rs:605-613 | the hash is the polynomial address + value * base + timestamp * base^2, less the point |
| `Fingerprint.FewUnluckyBases` | spartan/src/sparse_mlpoly.rs:594-706 | on an unbalanced memory with N cells and accesses, all but 2 (2N)^2 bases pass the product check at N points at most |
| `SparseNetwork.ToDense` | spartan/src/sparse_mlpoly.rs:413-425 | zero-padded row, column and value vectors |
| `SparseNetwork.EqualizedForm` | spartan/src/sparse_mlpoly.rs:1644-1663 | leading zeros for the shorter point do not change the value |
| `SparseNetwork.DenseEvaluation` | spartan/src/sparse_mlpoly.rs:1254-1285 | the dot product of the dereferenced, padded, equalized vectors is the matrix polynomial at (rx, ry) |
| `SparseNetwork.MleHash` | spartan/src/sparse_mlpoly.rs:609-611 | the extension of a table of hashes is the hash of the extensions |
| `SparseNetwork.MleIndices` | spartan/src/dense_mlpoly.rs:121-127 | `IdentityPolynomial` is the extension of the address table |
| `SparseNetwork.HonestProducts` | spartan/src/sparse_mlpoly.rs:1181-1186 | the prover's subset assertion holds for honest timestamps, any batch and any challenges |
| `SparseEvalVerifier.VerifyProductLayerProof` | spartan/src/sparse_mlpoly.rs:1388-1520 | the product-layer verifier computes its specification |
| `SparseEvalVerifier.VerifyJointProof` | spartan/src/sparse_mlpoly.rs:157-191 | the n-to-1 verifier computes its specification |
| `SparseEvalVerifier.CheckHashes` | spartan/src/sparse_mlpoly.rs:921-976 | the four families of assertions decide `HashesMatch` |
| `SparseEvalVerifier.VerifySparseEvalProof` | spartan/src/sparse_mlpoly.rs:1566-1770 | the network and hash-layer verifiers together compute `VerifySparseEval` |
| `SparseEvalProver.ProveJoint` | spartan/src/sparse_mlpoly.rs:93-129 | opening a merged polynomial at the combined values is accepted |
| `SparseEvalProver.NumOps` | spartan/src/sparse_mlpoly.rs:436-440 | the number of operations is the least power of two that holds every matrix |
| `SparseEvalProver.BuildDense` | spartan/src/sparse_mlpoly.rs:427-486 | the dense form has honest timestamps for rows and columns |
| `SparseEvalProver.CommitDense` | spartan/src/sparse_mlpoly.rs:539-562 | commitments to the merged operation and memory polynomials |
| `SparseEvalProver.ProveProductLayer` | spartan/src/sparse_mlpoly.rs:1156-1386 | accepted, and the claims left are the true values of all hashed tables |
| `SparseEvalProver.HonestHashesMatch` | spartan/src/sparse_mlpoly.rs:921-976 | all four families of assertions hold for honest tables at every point |
| `SparseEvalProver.OpenAll` | spartan/src/sparse_mlpoly.rs:788-918 | the three joint openings are accepted |
| `SparseEvalProver.ProveNetwork` | spartan/src/sparse_mlpoly.rs:1534-1564 | the network proof is accepted |
| `SparseEvalProver.ProveSparseEval` | spartan/src/sparse_mlpoly.rs:1665-1727 | completeness: for in-range matrices, one with two entries, every point and every challenge stream, the verifier accepts and follows the same transcript |
| `JointOpenings.JointSoundness` | spartan/src/sparse_mlpoly.rs:157-191 | if the one joint value is true of the merged polynomial, the whole padded list of values is true, or the combining challenges are a root of the difference |
| `JointOpenings.TrueListOpensTruly` | spartan/src/sparse_mlpoly.rs:93-129 | and a list of true values has a true joint value |
| `SparseEvalSoundness.HashesPinClaims` | spartan/src/sparse_mlpoly.rs:921-976 | passing hash checks pin the claims to the tables hashed with the prover's values, as far as the list of addresses goes |
| `SparseEvalSoundness.SetsMatchIsProductCheck` | spartan/src/sparse_mlpoly.rs:1406-1414 | the subset check on true products is the product check of the memory |
| `SparseEvalSoundness.FewUnluckyKeys` | spartan/src/sparse_mlpoly.rs:1406-1414 | all but 2 (2N)^2 bases have at most N points that hide wrong values in a memory of N cells and accesses |
| `SparseEvalSoundness.OneUnluckyHalves` | spartan/src/product_tree.rs:550-566 | at most one challenge joins wrong halves of the dot products to right values |
| `SparseEvalSoundness.ListsTrue` | spartan/src/sparse_mlpoly.rs:1009-1108 | three true joint values and lists of the right lengths give true values throughout, or an accident |
| `SparseEvalSoundness.AcceptedOpeningsTrue` | spartan/src/sparse_mlpoly.rs:1009-1108 | accepted openings of digests that belong to known tables have true joint values |
| `SparseEvalSoundness.Soundness` | spartan/src/sparse_mlpoly.rs:1730-1770 | accepted evaluations are those of the matrices, or a listed accident happened, whatever derefs the prover committed to, given true joint values and well-cut lists |
| `UncheckedLengths.ComparedIffAddressed` | spartan/src/sparse_mlpoly.rs:951-966 | a claimed read or write is checked if and only if its index is below the number of addresses |
| `UncheckedLengths.EarlierCutPasses` | spartan/src/sparse_mlpoly.rs:938-975 | with the addresses cut earlier, everything from the cut on is uncompared, and the checks pass if and only if the base is 0 or the moved timestamps equal the true ones |
| `UncheckedLengths.AcceptsAnyTables` | spartan/src/sparse_mlpoly.rs:921-1070 | with the row or column addresses (or both) moved into the timestamps, evaluations from any tables on that side are accepted under all challenges, with true openings |
| `UncheckedLengths.ZeroRowsGiveZero` | spartan/src/sparse_mlpoly.rs:921-976 | with zero row tables these evaluations are 0 for every matrix |
| `UncheckedLengths.AcceptsZero` | spartan/src/sparse_mlpoly.rs:1566-1770 | for all matrices and points there is an accepted proof that every value is 0 |
| `UncheckedLengths.AcceptsWrongValue` | spartan/src/sparse_mlpoly.rs:1566-1770 | a matrix of value 1 with an accepted proof that it is 0 |
| `R1CS.RelaxedIsSat` | spartan/src/crr1cs.rs:61-143 | decides the relaxed relation on padded witnesses; both error cases and the assertion |
| `R1CS.IsSat` | spartan/src/r1csinstance.rs:261-291 | plain satisfaction is the relaxed relation with u = 1 and no error |
| `Padding.NewInstance` | spartan/src/lib.rs:115-212 | succeeds exactly on in-range entries and builds the padded instance |
| `Padding.PaddedIsShaped` | spartan/src/r1csinstance.rs:134-141 | the built instance meets the size assertions of `R1CSInstance::new` |
| `Padding.SizesAreLeast` | spartan/src/lib.rs:128-150 | the padded sizes are the least powers of two that will do, one constraint being padded to two |
| `Padding.EntriesOfPadded` | spartan/src/lib.rs:151-212 | every entry of every padded matrix, and how many zero entries are added and where |
| `Padding.PaddingPreservesSatisfaction` | spartan/src/lib.rs:115-244 | the padded instance is satisfied by the zero-padded witness and error if and only if the original one was |
| `Padding.NoConstraints` | spartan/src/lib.rs:138-150 | without constraints there is one dummy constraint and one entry per matrix |
| `Padding.AtLeastTwoConstraints` | spartan/src/lib.rs:138-150 | at least two constraints if and only if there was one |
| `Padding.EnoughEntriesAfterPadding` | spartan/src/lib.rs:176-184 | exactly when some padded matrix has two entries |
| `Commitments.Check` | spartan/src/crr1csproof.rs:498-518 | checking an opening follows the scheme and its transcript |
| `Crr1csVerifier.VerifyCrr1csProof` | spartan/src/crr1csproof.rs:421-544 | the verifier computes its specification, with the same points |
| `Crr1csProver.ProvePhaseOne` | spartan/src/crr1csproof.rs:187-222 | for satisfied constraints phase one is accepted with claims the extensions at rx |
| `Crr1csProver.ProvePhaseTwo` | spartan/src/crr1csproof.rs:226-245 | phase two ends with the product of the two extensions at ry |
| `Crr1csProver.PhaseTwoSum` | spartan/src/crr1csproof.rs:351-377 | the mixed matrix table summed against z is the mixed claim of phase one |
| `Crr1csProver.EvalZIsMle` | spartan/src/crr1csproof.rs:520-534 | the verifier's split evaluation of z is its extension |
| `Crr1csProver.ProveCrr1cs` | spartan/src/crr1csproof.rs:251-418 | completeness: for every satisfied instance the verifier, given the true matrix values, passes both checks and returns the same (rx, ry) |
| `Crr1csSoundness.SoundUnlessCheated` | spartan/src/sumcheck.rs:29-67 | for one instance: the claim is the true sum, or a round was deceived |
| `Crr1csSoundness.Soundness` | spartan/src/crr1csproof.rs:421-544 | an accepted proof with true openings and matrix values means satisfied constraints, or one of four accidents |
| `UnluckyPoints.UnluckyCoordinate` | spartan/src/crr1csproof.rs:453-458 | a point that hides a nonzero table (tau and the residual, or combining challenges and a wrong list) has a coordinate that turns a nonzero table into zero |
| `UnluckyPoints.OneUnluckyChallenge` | spartan/src/crr1csproof.rs:453-458 | at most one value of a coordinate does that |
| `Crr1csSoundness.MixerIsPinned` | spartan/src/crr1csproof.rs:484-490 | a mixing challenge that hides a wrong claim is unique, given the other two |
| `Snark.Encode` | spartan/src/committed_relaxed_snark.rs:82-96 | encodes the three matrices; the number of operations is two or more exactly when some matrix has two entries |
| `Snark.ProveSnark` | spartan/src/committed_relaxed_snark.rs:99-196 | completeness of the whole SNARK on zero-padded satisfied witnesses |
| `Snark.VerifySnarkProof` | spartan/src/committed_relaxed_snark.rs:199-245 | the verifier computes its specification |
| `SnarkSoundness.Soundness` | spartan/src/committed_relaxed_snark.rs:199-245 | an accepted proof with true openings and well-cut lists means that W and E satisfy the relaxed constraints, or an accident happened |
| `SnarkSoundness.BindingSoundness` | spartan/src/committed_relaxed_snark.rs:199-245 | the same from the commitments: it is enough that the five digests belong to W, E, the derefs and the encoded shape |
| `Histories.RoundsHeard` | spartan/src/sumcheck.rs:37-66 | the transcript alternates between the polynomials and the squeezes, and each challenge is the hash of the transcript up to its squeeze |
| `Histories.RoundsPinned` | spartan/src/sumcheck.rs:37-66 | if two runs from the same start heard the same up to the squeeze of challenge k, their first k messages and challenges are the same |
| `Histories.LayerHeard` | spartan/src/product_tree.rs:447-560 | a layer appends its sum-check and all its claims before the challenge that joins them, which is the hash of all this |
| `Histories.BatchPinned` | spartan/src/product_tree.rs:447-578 | equal transcripts after a batched product argument come from equal proofs, as far as they are read |
| `Histories.ProductLayerPinned` | spartan/src/sparse_mlpoly.rs:1388-1526 | equal transcripts after the product layer come from equal claimed products, halves and product arguments |
| `Histories.JointHeard` | spartan/src/sparse_mlpoly.rs:157-191 | the combining challenges are answers to a transcript that holds all values to be combined; the combined value is appended before its opening is checked |
| `Histories.OpeningsPinned` | spartan/src/sparse_mlpoly.rs:1000-1115 | equal transcripts come from equal opened lists, each list being fixed before its own challenges |
| `Histories.KeysHeard` | spartan/src/sparse_mlpoly.rs:1739-1768 | the keys of the memory check are answers to a transcript that ends with the commitment to the derefs, and the network proof is checked with these keys |
| `Histories.SparseEvalPinned` | spartan/src/sparse_mlpoly.rs:1739-1768 | different commitments to the derefs mean different transcripts when the keys are drawn |
| `Histories.TauHeard` | spartan/src/crr1csproof.rs:430-478 | when tau is drawn the transcript holds the inputs, the scaling factor and both commitments, and nothing was squeezed before; phase one is checked with the answers to this transcript |
| `Histories.PhaseOnePinned` | spartan/src/crr1csproof.rs:430-478 | two instances whose transcripts agree when tau is drawn are equal; after phase one, messages and claims too |
| `Histories.MixersHeard` | spartan/src/crr1csproof.rs:484-490 | each mixing challenge is the hash of the transcript up to its own squeeze |
| `Histories.Crr1csPinned` | spartan/src/crr1csproof.rs:407-540 | equal transcripts of accepted proofs come from the same instance and the same messages |
| `Histories.SnarkHeard` | spartan/src/committed_relaxed_snark.rs:199-245 | the encoding is appended first, and the evaluation proof starts from the transcript with the claimed matrix values |
| `Histories.SnarkPinned` | spartan/src/committed_relaxed_snark.rs:199-245 | when the keys of the memory check are drawn, the encoding, the instance, the satisfiability proof, the matrix values and the derefs are fixed |
| `Vm.NexusVM.EvalInst` | vm/src/eval.rs:240-364 | one instruction: the new registers, memory and counters, or an error |
| `Vm.ZeroStaysZero` | vm/src/eval.rs:81-94 | x0 is never written |
| `Rv32Encoding.ParseEncode` | vm/src/rv32/parse.rs:192-251 | parsing the word of any encodable instruction gives the instruction back |
| `Rv32Encoding.EncodeParse` | vm/src/rv32/parse.rs:192-251 | every word that parses is the word of its instruction, except that FENCE and UNIMP ignore parts of theirs |
| `Rv32Encoding.DecodeIsParse` | vm/src/rv32/parse.rs:256-312 | decoding fails exactly on words that do not parse, and only gives the plain ECALL and EBREAK the register 10 |
| `VmLaws.AddAndSubtract` | vm/src/eval.rs:162-186 | addition and subtraction wrap around and undo each other |
| `VmLaws.Comparisons` | vm/src/eval.rs:181-187 | SLT and SLTU decide the signed and the unsigned order, which differ by half the range |
| `VmLaws.Branches` | vm/src/eval.rs:170-179 | the six conditions are three pairs of opposites and agree with subtraction and comparison |
| `VmLaws.Shifts` | vm/src/eval.rs:182-190 | shifts multiply and divide by powers of two, SRA on the signed value |
| `VmLaws.Logic` | vm/src/eval.rs:191-193 | AND, OR and XOR work bit by bit |
| `VmLaws.Loads` | vm/src/memory/cacheline.rs:89-150 | a load fails exactly when misaligned; its bytes are those of memory, lowest first, extended by sign or zero |
| `VmLaws.StoreThenLoad` | vm/src/memory/cacheline.rs:100-181 | loading after a store gives the value cut to its width, and other bytes stay |
| `VmLaws.Evaluated` | vm/src/eval.rs:240-364 | what evaluating each instruction does to its destination, the other registers, the pc and memory |
| `VmLaws.EvaluationFails` | vm/src/eval.rs:240-364 | evaluation fails on the limit, a misaligned pc, an unknown word, a misaligned access or a failing system call, and on nothing else |
| `VmLaws.JumpsReachTarget` | vm/src/eval.rs:355-358 | a jump reaches its target if and only if the target is not 0 or the jump is the last word of memory |
| `VmLaws.JumpToZeroFallsThrough` | vm/src/eval.rs:355-358 | a concrete jump to 0 that goes on at the next word |
| `VmTrace.TakeStep` | vm/src/trace.rs:118-134 | records the step that was taken, or fails exactly on an error or an overflowing pc + 4 |
| `VmTrace.KStep` | vm/src/trace.rs:137-145 | a block records k consecutive steps of a run |
| `VmTrace.BlockIter.Next` | vm/src/trace.rs:232-261 | yields the witness for the next step and moves the register file; when it panics |
| `VmTrace.StepReplays` | vm/src/trace.rs:232-261 | one step replays to the machine's registers if and only if it is not an EBREAK or UNIMP naming a nonzero register |
| `VmTrace.BlockReplays` | vm/src/trace.rs:229-318 | the witnesses of a block carry the machine's registers and pc before every step if and only if no step but the last diverges |
| `VmTrace.FieldsAreOperands` | vm/src/trace.rs:265-318 | the fields read by opcode alone are the operands of the parsed instruction, for every instruction |
| `VmTrace.WitnessIsRight` | vm/src/trace.rs:240-256 | every witness holds the source registers, immediate, shift amount and destination of the instruction that was executed, its result and the machine's next pc |
| `VmTrace.ZeroThroughout` | vm/src/eval.rs:240-364 | x0 is zero throughout every run |
| `VmTrace.EbreakIsNotReplayed` | vm/src/rv32/parse.rs:277-283 | a concrete machine at a plain EBREAK whose x10 replay clears |
| `VmTrace.BlocksChain` | vm/src/trace.rs:151-170 | each block starts where the replay of the previous one ended |
| `VmTrace.TraceVm` | vm/src/trace.rs:151-170 | on every machine on which the loop ends: succeeds if and only if there is a chain of recorded blocks up to the first at which the loop may stop, and returns it; otherwise the machine got stuck on an error, the length limit or an overflowing pc + 4 |
| `VmTrace.StuckIsIncomplete` | vm/src/trace.rs:118-170 | a machine that gets stuck before a stopping block has no complete trace |
| `VmTrace.LimitedMachinesEnd` | vm/src/trace.rs:151-170 | the loop ends on every machine with a trace length limit |
| `VmTrace.TracedMachinesEnd` | vm/src/trace.rs:151-170 | with or without a limit, it ends if there is a complete trace or the machine gets stuck |
| `VmTrace.TreeSizes` | vm/src/trace.rs:158-167 | the stopping sizes are the numbers 2^m - 1 from 3 on |
| `VmTrace.TraceEnds` | vm/src/trace.rs:151-170 | the trace ends with the first block that ends in UNIMP, or when padding with the first such of number 2^m - 1 |
| `VmTrace.PaddingStays` | vm/src/eval.rs:325-358 | after UNIMP at a nonzero pc, registers and memory never change |
| `VmTrace.PaddedToTree` | vm/src/trace.rs:151-170 | the padded trace has the least 2^m - 1 >= 3 blocks covering the run, and ends in the halting state |
| `VmTrace.SplitBy` | vm/src/trace.rs:68-75 | the chunks with their numbers |
| `VmTrace.ChunkHolds` | vm/src/trace.rs:68-75 | subtrace i holds the n blocks from i * n on, the last one what is left, which is at least one |
| `VmTrace.SplitKeepsBlocks` | vm/src/trace.rs:68-83 | every block stays where it was if and only if the trace starts at zero or is empty |
| `PcdTree.OnStepIsInOrder` | cli/src/command/prove.rs:188-193 | iteration i of level a is shown as i * 2^(a+1) + 2^a - 1; nothing underflows |
| `PcdTree.LabelsAreLevels` | cli/src/command/prove.rs:194-200 | "leaf" is shown exactly at the lowest level, and the last iteration is the only one at the top |
| `PcdTree.InOrderInjective` | cli/src/command/prove.rs:193 | different places have different numbers |
| `PcdTree.InOrderSurjective` | cli/src/command/prove.rs:193 | every step has a place |
| `PcdTree.LocalProve` | cli/src/command/prove.rs:242-271 | pairs are always complete, 2^b - 1 proofs are made, the t-th proves exactly the step shown for it, the root covers everything |
| `PcdTree.EachStepOnce` | cli/src/command/prove.rs:188-271 | every step is proved exactly once |
| `Csr.New` | nova/src/sparse.rs:42-70 | stores exactly the given rows, and refuses exactly unsorted ones |
| `Csr.MultiplyVec` | nova/src/sparse.rs:82-102 | entry i is the inner product of row i with the vector |
| `Csr.RowDotIsDense` | nova/src/sparse.rs:90-102 | the stored row multiplies like the dense row |
| `Csr.DenseEntries` | nova/src/sparse.rs:42-70 | the dense row holds the stored values and zeros elsewhere |
| `Csr.Iter.Next` | nova/src/sparse.rs:140-166 | the iterator yields exactly the entries, in order |
| `BitReversal.VecToArkMle` | nova/src/ccs/mle.rs:48-79 | the bit-reversed, zero-padded table |
| `BitReversal.ArkEvaluatesAlike` | nova/src/ccs/mle.rs:48-79 | the little-endian value of the reversed table is the big-endian value of the table |
| `BitReversal.DotReversed` | nova/src/ccs/lccs_fold.rs:91-143 | reversing two tables keeps their inner product |
| `CcsFolding.ComputeThetas` | nova/src/ccs/linearization.rs:770-789 | the values of every M z at r; fails if and only if there is a matrix without rows |
| `CcsFolding.FoldingPreserves` | nova/src/ccs/mod.rs:472-530 | folding with any two weights preserves linearized satisfaction at the common point |
| `CcsFolding.FoldAndLinearize` | nova/src/ccs/linearization.rs:831-948 | the folded instance and witness under the oracle's challenge; exactly when it succeeds, and which error it gives otherwise |
| `CcsFolding.VerifyConsistency` | nova/src/ccs/ccs_fold.rs:339-428 | accepts exactly the instance that folding under the same oracle gives |
| `CcsFolding.FoldHonestly` | nova/src/ccs/linearization.rs:770-948 | folding true values gives a satisfied linearized instance, and the consistency check passes; there are no values to fold if and only if there is a matrix without rows |
| `Histories.ThetasPinned` | nova/src/ccs/linearization.rs:866-876 | the folding challenge depends on both lists of values |
| `CcsFolding.PointSize` | nova/src/utils.rs:48-56 | the point length fits the padded number of constraints if and only if that number is not one |
| `CcsFolding.FoldedFitsUnlessOne` | nova/src/ccs/linearization.rs:831-948 | a folded instance has values at its point if and only if there is not exactly one constraint |
| `CcsPolynomials.CombinedSum` | nova/src/ccs/ccs_fold.rs:284-325 | for any two instances the combined polynomial sums to the extension of the gamma-weighted rows at beta |
| `CcsPolynomials.CombinedIsPolynomial` | nova/src/ccs/ccs_fold.rs:284-325 | the sum is a quadratic in gamma without constant term; its coefficients are the rows of the two instances, extended at beta |
| `CcsPolynomials.CombinedSumsToZero` | nova/src/ccs/ccs_fold.rs:284-325 | for two satisfied instances it sums to zero for every beta and gamma if and only if there is no padding row or the constant terms cancel |
| `CcsPolynomials.ConstantTermsFail` | nova/src/ccs/ccs_fold.rs:284-325 | a satisfied shape of three constraints whose combined polynomial does not sum to zero |
| `CcsPolynomials.PaddedRowsHold` | nova/src/ccs/mod.rs:117-155 | a padding row holds exactly when the constant terms cancel |
| `CcsPolynomials.ConstructCombined` | nova/src/ccs/ccs_fold.rs:284-325 | the loops build that polynomial |
| `CcsPolynomials.LinearizedClaimHolds` | nova/src/ccs/lccs_fold.rs:91-217 | the polynomial of two linearized instances sums to the verifier's gamma-weighted claim |
| `CcsPolynomials.ConstructLinearized` | nova/src/ccs/lccs_fold.rs:91-143 | the loop builds that polynomial |
| `CcsPolynomials.ClaimedSum` | nova/src/ccs/lccs_fold.rs:209-217 | the verifier's loop computes the claim |
| `CcsPolynomials.ClaimedIsPolynomial` | nova/src/ccs/lccs_fold.rs:211-218 | the claimed sum is the polynomial in gamma with the targets of the first instance and then of the second as coefficients |
| `BlockPool.ApplyKeepsValid` | nova/src/parallel_tree/block_pool.rs:52-199 | every allowed operation keeps free, held and published ids a partition without duplicates; a new handle sees an empty slot |
| `BlockPool.RunsStayValid` | nova/src/parallel_tree/block_pool.rs:27-199 | from a valid pool every run of allowed operations passes through valid pools only |
| `BlockPool.KeptUnlessHarmful` | nova/src/parallel_tree/block_pool.rs:52-199 | an operation on a valid pool breaks it if and only if it frees an id that is not held or writes, publishes or claims one that is free |
| `BlockPool.FreeKeepsIffHeld` | nova/src/parallel_tree/block_pool.rs:104-113 | freeing an id in range keeps the pool valid if and only if the id is held |
| `BlockPool.FreedTwice` | nova/src/parallel_tree/block_pool.rs:104-113 | freeing a held id twice always breaks the pool and leaves the id in the queue twice |
| `BlockPool.IdsArePartitioned` | nova/src/parallel_tree/block_pool.rs:27-199 | in every state of every run on a new pool the free, held and published ids are disjoint, add up to the ids below 2 * cores, and number 2 * cores |
| `BlockPool.LastWriteStays` | nova/src/parallel_tree/block_pool.rs:158-191 | a claimed read returns the last write, whatever happened to other slots |
| `BlockPool.BlockPool.constructor` | nova/src/parallel_tree/block_pool.rs:27-42 | two slots per core, all free, the highest id first |
| `BlockPool.BlockPool.Allocate` | nova/src/parallel_tree/block_pool.rs:52-54 | implements the allocation step with a fresh live handle |
| `BlockPool.BlockPool.IntoId` | nova/src/parallel_tree/block_pool.rs:169-172 | publishes the id without freeing it |
| `BlockPool.BlockPool.ClaimId` | nova/src/parallel_tree/block_pool.rs:124-130 | refuses exactly ids out of range; the handle owns its slot if and only if the id was published |
| `BlockPool.BlockPool.Drop` | nova/src/parallel_tree/block_pool.rs:193-199 | does nothing for a released handle and frees the slot of any other, in range; the pool stays valid if and only if the handle was released or owned its slot |
| `BlockPool.BlockPool.IsFree` | nova/src/parallel_tree/block_pool.rs:74-100 | answers correctly and reverses the queue; the order is kept if and only if the id is out of range or at most one id is free |
| `BlockPool.OrderIsLost` | nova/src/parallel_tree/block_pool.rs:74-100 | a pool of two free ids whose order changes |
| `BlockPool.ClaimThenDrop` | nova/src/parallel_tree/block_pool.rs:124-130 | claiming an id and dropping the handle keeps the pool valid if and only if the id was published |
| `BlockPool.ClaimedWhileHeld` | nova/src/parallel_tree/block_pool.rs:124-199 | an id claimed while its owner holds it is queued twice and the pool is no longer valid |
| `BlockPool.HandedOutTwice` | nova/src/parallel_tree/block_pool.rs:52-199 | a pool of one core that hands out two live handles for one slot |
| `LeafDistribution.WorkerIsChunk` | nova/src/parallel_tree/scheduler.rs:47-52 | a worker's leaves are one contiguous chunk, in order of workers |
| `LeafDistribution.ChunkSizes` | nova/src/parallel_tree/scheduler.rs:47-52 | chunk sizes differ by at most one |
| `LeafDistribution.ChunksCover` | nova/src/parallel_tree/scheduler.rs:47-52 | the chunks follow one another from the first to the last leaf |
| `LeafDistribution.Distribute` | nova/src/parallel_tree/scheduler.rs:34-78 | every leaf is queued once with its node index |
| `GaleShapley.StableMatching` | examples/src/bin/galeshapley.rs:11-50 | terminates, never fails an unwrap or assertion, and returns a stable matching in which every employer does at least as well as in any stable matching |
| `GaleShapley.Market.RejectedIsUnachievable` | examples/src/bin/galeshapley.rs:24-46 | a candidate that turns an employer down is matched with it in no stable matching |
| `GaleShapley.Market.CandidatePessimal` | examples/src/bin/galeshapley.rs:11-50 | and every candidate does at least as badly as in any stable matching |

## Left out

- Zero-knowledge sum-check, `r1csproof.rs`, the NIZK and the hiding SNARK of `lib.rs`: they rest on Pedersen commitments and proofs of knowledge.
- Polynomial commitment schemes themselves: one arbitrary scheme whose honest openings verify stands for all; binding is not modelled, so soundness speaks of opened values that are true of some tables.
- Probabilities: the accidents are stated and counted one challenge at a time, not summed into an error bound.
- The bytes of the transcript: one message stands for each append call, and labels are symbols.
- SumcheckProver.Prove: one method over a list of tables stands for the three provers with two, three and five tables.
- ProductProver.ProveBatch: copies each layer into fresh polynomials where the source consumes the circuit's own, so the emptied circuit is not modelled.
- SparseEvalSoundness.Soundness: only for well-cut lists, because without that guard the statement is false of the code (`UncheckedLengths.AcceptsAnyTables`); and the joint values opened are taken as true of the committed tables, because binding is not modelled.
- Crr1csSoundness.Soundness: takes the two opened values as true of the committed witness and error, because binding is not modelled.
- SnarkSoundness.Soundness: inherits both; SnarkSoundness.BindingSoundness replaces true openings by digests that belong to known tables.
- `ProductCircuitEvalProof` (the unbatched product argument): the batched one is the one in use.
- `DensePolynomial::split` and `extend`, `produce_synthetic_r1cs` and `produce_synthetic_crr1cs`: easy members.
- `matrix_to_mle`, `linearize_ccs`, `verify_linearization`, `prove_folding` and the sum-check library they call: the folding theorems define the hypercube sums directly.
- VmTrace.TraceVm: only machines on which the loop ends, since on the others nothing is returned; a trace length limit is one way to make it end (`VmTrace.LimitedMachinesEnd`).
- Memory proofs and Merkle paths of the trace, cycle counts and profiling, the instruction index J of a witness, and the paging of memory: the model has a byte map with the same alignment errors.
- System calls: an arbitrary function of time, pc, registers and memory.
- Machine integer overflow of `usize` counters: sizes are unbounded.
- Thread interleavings below the granularity of one pool operation, full queues and the stop flag of the leaf producer.
- Csr.Iter.Next: the iterator is built only for matrices with an entry; on an empty one the source runs off its row pointers.
- SparseEvalProver.ProveSparseEval: stated for any batch of matrices where the source's prover asserts a batch of three, and only for two or more operations, since the source's product circuit cannot be built over one.
- The cryptography of the proof tree nodes: a node is the range of steps it covers.
