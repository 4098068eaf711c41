/** The error stack: a ring of 32 entries in which a new error displaces the oldest. */
module ErrorStack {

  datatype ErrKind = FluxaError | FfiError | ReloadError | HandoverError

  const CAP: nat := 32

  /** The newest `CAP` of a sequence. */
  function Newest<T>(s: seq<T>): (r: seq<T>)
    ensures |r| == if |s| < 32 then |s| else 32
    ensures forall k | 0 <= k < |r| :: r[k] == s[|s| - |r| + k]
  {
    if |s| <= CAP then s else s[|s| - CAP..]
  }

  /** The entries a ring of `count` live slots starting at `base` denotes, oldest first. */
  function Ring(a: seq<ErrKind>, base: nat, count: nat): (s: seq<ErrKind>)
    requires |a| == CAP && base < CAP && count <= CAP
    ensures |s| == count
  {
    seq(count, k requires 0 <= k < count => a[(base + k) % CAP])
  }

  lemma RingGrows(a: seq<ErrKind>, base: nat, count: nat, e: ErrKind)
    requires |a| == CAP && base < CAP && count < CAP
    ensures Ring(a[(base + count) % CAP := e], base, count + 1) == Ring(a, base, count) + [e]
  {
    var s, t := Ring(a[(base + count) % CAP := e], base, count + 1), Ring(a, base, count);
    forall k | 0 <= k < count ensures s[k] == t[k] {
      assert (base + k) % CAP != (base + count) % CAP;
    }
  }

  lemma RingTurns(a: seq<ErrKind>, base: nat, e: ErrKind)
    requires |a| == CAP && base < CAP
    ensures Ring(a[base := e], (base + 1) % CAP, CAP) == (Ring(a, base, CAP) + [e])[1..]
  {
    var s, t := Ring(a[base := e], (base + 1) % CAP, CAP), (Ring(a, base, CAP) + [e])[1..];
    forall k | 0 <= k < CAP ensures s[k] == t[k] {
      assert ((base + 1) % CAP + k) % CAP == (base + (k + 1)) % CAP;
      if k < CAP - 1 {
        assert (base + (k + 1)) % CAP != base;
      } else {
        assert (base + (k + 1)) % CAP == base;
      }
    }
  }

  class ErrStack {
    const entries: array<ErrKind>
    var base: nat
    var count: nat

    ghost predicate Valid()
      reads this
    {
      entries.Length == CAP && base < CAP && count <= CAP
    }

    /** Oldest first. */
    ghost function Contents(): (s: seq<ErrKind>)
      requires Valid()
      reads this, entries
      ensures |s| == count
    {
      Ring(entries[..], base, count)
    }

    constructor ()
      ensures Valid() && Contents() == [] && fresh(entries)
    {
      entries := new ErrKind[CAP](_ => FluxaError);
      base, count := 0, 0;
    }

    method Clear()
      requires Valid()
      modifies this
      ensures Valid() && Contents() == []
    {
      base, count := 0, 0;
    }

    method Push(kind: ErrKind)
      requires Valid()
      modifies this, entries
      ensures Valid() && Contents() == Newest(old(Contents()) + [kind])
    {
      hide Ring;
      var slot: nat;
      if count < CAP {
        RingGrows(entries[..], base, count, kind);
        slot := (base + count) % CAP;
        count := count + 1;
      } else {
        RingTurns(entries[..], base, kind);
        slot := base;
        base := (base + 1) % CAP;
      }
      entries[slot] := kind;
    }

    /** `0` is the most recent entry. */
    method Get(i: int) returns (found: bool, kind: ErrKind)
      requires Valid()
      ensures found <==> 0 <= i < count
      ensures found ==> kind == Contents()[count - 1 - i]
    {
      if i < 0 || i >= count { return false, FluxaError; }
      var slot := (base + count - 1 - i + CAP * 2) % CAP;
      return true, entries[slot];
    }
  }
}
