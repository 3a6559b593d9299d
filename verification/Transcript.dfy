/** The Fiat-Shamir transcript (spartan/src/transcript.rs).

    Its state is the list of everything appended and squeezed so far, and a challenge is an arbitrary
    but fixed function of that list. Two parties obtain the same challenge when their lists agree;
    nothing else is assumed of the hash. */
module Transcript {
  import opened Field

  /** The row or the column memory of a sparse matrix. */
  datatype Side = RowSide | ColSide

  /** The three merged polynomials opened by the hash layer. */
  datatype Joint = DerefsPoly | OpsPoly | MemPoly

  /** Protocol names; the evaluation proof and the network proof inside it share one. */
  datatype Name = Crr1csName | SnarkName | SparseEvalName | ProductLayerName | HashLayerName | DerefsName

  datatype Tag =
    | RoundChallenge
    | ProdLeft | ProdRight | LayerChallenge | LayerCoefficients
    | DotLeft | DotRight | DotWeight
    | Input | Scaling | CommitW | CommitE | Tau
    | AzClaim | BzClaim | CzClaim | ErrorClaim | AzChallenge | BzChallenge | CzChallenge
    | InitClaim(side: Side) | ReadClaim(side: Side) | WriteClaim(side: Side) | AuditClaim(side: Side)
    | DotHalfLeft | DotHalfRight
    | NumCons | NumVars | NumInputs | BatchSize | NumOps | NumCells | CommitOps | CommitMem | MatrixClaim
    | CommitDerefs | HashChallenge
    | Thetas | FoldingChallenge
    | JointEvals(of: Joint) | JointClaim(of: Joint) | CombineNToOne | CombineTwoToOne

  datatype Message =
    | Protocol(name: Name)
    | Number(tag: Tag, n: nat)
    | Scalar(tag: Tag, x: F)
    | Scalars(tag: Tag, xs: seq<F>)
    | Polynomial(coefficients: seq<F>)
    | Commitment(tag: Tag, digest: int)
    | Squeeze(tag: Tag)

  type Log = seq<Message>

  type Oracle = h: Log -> F | true witness (_ => 0)

  /** The hash behind the challenges; any function. */
  const HASH: Oracle

  function Squeezes(tag: Tag, n: nat): Log {
    seq(n, _ => Squeeze(tag))
  }

  /** The challenge squeezed from a transcript with this log. */
  function Challenge(log: Log, tag: Tag): F {
    HASH(log + [Squeeze(tag)])
  }

  function Challenges(log: Log, tag: Tag, n: nat): (cs: seq<F>)
    ensures |cs| == n
  {
    seq<F>(n, i requires 0 <= i < n => HASH(log + Squeezes(tag, i + 1)))
  }

  class Transcript {
    var log: Log

    constructor (initial: Log)
      ensures log == initial
    {
      log := initial;
    }

    method Append(m: Message)
      modifies this
      ensures log == old(log) + [m]
    {
      log := log + [m];
    }

    method ChallengeScalar(tag: Tag) returns (c: F)
      modifies this
      ensures c == Challenge(old(log), tag)
      ensures log == old(log) + [Squeeze(tag)]
    {
      log := log + [Squeeze(tag)];
      c := HASH(log);
    }

    method ChallengeVector(tag: Tag, n: nat) returns (cs: seq<F>)
      modifies this
      ensures cs == Challenges(old(log), tag, n)
      ensures log == old(log) + Squeezes(tag, n)
    {
      cs := [];
      assert Squeezes(tag, 0) == [];
      for i := 0 to n
        invariant cs == Challenges(old(log), tag, i)
        invariant log == old(log) + Squeezes(tag, i)
      {
        assert Squeezes(tag, i + 1) == Squeezes(tag, i) + [Squeeze(tag)];
        assert log + [Squeeze(tag)] == old(log) + Squeezes(tag, i + 1);
        var c := ChallengeScalar(tag);
        cs := cs + [c];
      }
    }
  }
}
