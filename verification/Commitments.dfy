/** Polynomial commitments (spartan/src/polycommitments), as an arbitrary scheme whose honest openings
    verify and which only appends to the transcript. Nothing is assumed about binding or hiding. */
module Commitments {
  import opened Wrappers
  import opened Field
  import opened Powers
  import opened Multilinear
  import opened Transcript

  type Digest = int

  type Opening = int

  datatype Scheme = Scheme(
    commit: Table -> Digest,
    prove: (Table, seq<F>, F, Log) -> Opening,
    proved: (Table, seq<F>, F, Log) -> Log,
    verify: (Digest, Opening, seq<F>, F, Log) -> Option<Log>
  )

  /** An opening of a committed table at its true value is accepted, and prover and verifier leave the
      transcript in the same state. */
  ghost predicate HonestOpeningsVerify(s: Scheme) {
    forall T: Table, r: seq<F>, log: Log {:trigger s.prove(T, r, Mle(T, r), log)} ::
      |T| == Pow2(|r|) ==>
        s.verify(s.commit(T), s.prove(T, r, Mle(T, r), log), r, Mle(T, r), log) == Some(s.proved(T, r, Mle(T, r), log))
  }

  /** Checking an opening leaves what was in the transcript before. */
  ghost predicate AppendsOnly(s: Scheme) {
    forall c: Digest, opening: Opening, r: seq<F>, v: F, log: Log {:trigger s.verify(c, opening, r, v, log)} ::
      s.verify(c, opening, r, v, log).Some? ==> log <= s.verify(c, opening, r, v, log).value
  }

  type PolyCommitmentScheme = s: Scheme | HonestOpeningsVerify(s) && AppendsOnly(s)
    witness Scheme(_ => 0, (_, _, _, _) => 0, (_, _, _, log) => log, (_, _, _, _, log) => Some(log))

  /** Any such scheme. */
  const PCS: PolyCommitmentScheme

  /** Every accepted opening of the digest is true of the table: what a binding scheme gives for a digest whose
      table is known. */
  ghost predicate BelongsTo(c: Digest, T: Table) {
    forall opening: Opening, r: seq<F>, v: F, log: Log {:trigger PCS.verify(c, opening, r, v, log)} ::
      PCS.verify(c, opening, r, v, log).Some? ==> |T| == Pow2(|r|) && Mle(T, r) == v
  }

  method Open(T: Table, r: seq<F>, v: F, transcript: Transcript) returns (opening: Opening)
    modifies transcript
    ensures opening == PCS.prove(T, r, v, old(transcript.log))
    ensures transcript.log == PCS.proved(T, r, v, old(transcript.log))
  {
    opening := PCS.prove(T, r, v, transcript.log);
    transcript.log := PCS.proved(T, r, v, transcript.log);
  }

  method Check(c: Digest, opening: Opening, r: seq<F>, v: F, transcript: Transcript) returns (ok: bool)
    modifies transcript
    ensures match PCS.verify(c, opening, r, v, old(transcript.log))
            case None => !ok
            case Some(log) => ok && transcript.log == log
  {
    match PCS.verify(c, opening, r, v, transcript.log) {
      case None =>
        ok := false;
      case Some(log) =>
        ok := true;
        transcript.log := log;
    }
  }

  lemma HonestOpening(T: Table, r: seq<F>, log: Log)
    requires |T| == Pow2(|r|)
    ensures PCS.verify(PCS.commit(T), PCS.prove(T, r, Mle(T, r), log), r, Mle(T, r), log)
         == Some(PCS.proved(T, r, Mle(T, r), log))
  {
  }

  lemma OpeningAppends(c: Digest, opening: Opening, r: seq<F>, v: F, log: Log)
    requires PCS.verify(c, opening, r, v, log).Some?
    ensures log <= PCS.verify(c, opening, r, v, log).value
  {
  }
}
