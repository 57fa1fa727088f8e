/** 32-bit wrapping sequence numbers and their conversion to absolute 64-bit ones
    (libsponge/wrapping_integers.cc). */
module WrappingIntegers {
  import opened Machine

  function Wrap(n: nat, isn: U32): U32 {
    (n + isn) % TWO32
  }

  /** The code's branches in order. `checkpoint` is an unsigned 64-bit number; the last
      addition is a 64-bit one and wraps around. */
  function Unwrap(n: U32, isn: U32, checkpoint: nat): nat {
    var low := (n - isn) % TWO32;
    if checkpoint <= low then low
    else
      var a := low + (checkpoint / TWO32) * TWO32;
      if Max(checkpoint, a) - Min(checkpoint, a) <= TWO32 / 2 then a
      else if checkpoint <= a then (if a >= TWO32 then a - TWO32 else a)
      else (a + TWO32) % TWO64
  }

  ghost predicate Closest(v: nat, n: U32, isn: U32, checkpoint: nat) {
    && Wrap(v, isn) == n
    && v < TWO64
    && forall w: nat | w < TWO64 && Wrap(w, isn) == n ::
         Max(v, checkpoint) - Min(v, checkpoint) <= Max(w, checkpoint) - Min(w, checkpoint)
  }

  /** The addition that would be needed leaves the 64-bit range. A caller can test this. */
  predicate Overflows(n: U32, isn: U32, checkpoint: nat) {
    checkpoint >= TWO64 - TWO32 && checkpoint % TWO32 - (n - isn) % TWO32 > TWO31
  }

  /** Numbers that wrap alike differ by a multiple of 2^32. */
  lemma SameWrap(v: nat, w: nat, isn: U32) returns (k: int)
    requires Wrap(v, isn) == Wrap(w, isn)
    ensures w == v + k * TWO32
  {
    k := (w + isn) / TWO32 - (v + isn) / TWO32;
  }

  lemma WrapShift(v: nat, k: int, isn: U32)
    requires 0 <= v + k * TWO32
    ensures Wrap(v + k * TWO32, isn) == Wrap(v, isn)
  {
    var q := (v + isn) / TWO32;
    assert v + k * TWO32 + isn == (q + k) * TWO32 + (v + isn) % TWO32;
  }

  lemma LowWraps(n: U32, isn: U32)
    ensures Wrap((n - isn) % TWO32, isn) == n
  {
  }

  /** The numbers on the wire count up from the initial one and start again at zero after the last. */
  lemma WrapCounts(n: nat, isn: U32)
    ensures Wrap(0, isn) == isn
    ensures Wrap(n + 1, isn) == if Wrap(n, isn) == 0xffff_ffff then 0 else Wrap(n, isn) + 1
  {
  }

  /** `Unwrap` never leaves the residue class, on every input. */
  lemma UnwrapWraps(n: U32, isn: U32, checkpoint: nat)
    requires checkpoint < TWO64
    ensures Unwrap(n, isn, checkpoint) < TWO64
    ensures Wrap(Unwrap(n, isn, checkpoint), isn) == n
  {
    var low := (n - isn) % TWO32;
    LowWraps(n, isn);
    var q := checkpoint / TWO32;
    WrapShift(low, q, isn);
    if low + q * TWO32 >= TWO32 {
      WrapShift(low, q - 1, isn);
    }
    WrapShift(low, q + 1, isn);
    assert (low + q * TWO32 + TWO32) % TWO64 == low + (q + 1) * TWO32
        || (low + q * TWO32 + TWO32) % TWO64 == low;
  }

  /** Away from the overflow the result is within half a period, or is the smallest candidate. */
  lemma UnwrapIsNear(n: U32, isn: U32, checkpoint: nat)
    requires checkpoint < TWO64
    requires !Overflows(n, isn, checkpoint)
    ensures var v := Unwrap(n, isn, checkpoint);
            Max(v, checkpoint) - Min(v, checkpoint) <= TWO31 || (checkpoint <= v < TWO32)
  {
  }

  lemma UnwrapClosest(n: U32, isn: U32, checkpoint: nat)
    requires checkpoint < TWO64
    requires !Overflows(n, isn, checkpoint)
    ensures Closest(Unwrap(n, isn, checkpoint), n, isn, checkpoint)
  {
    UnwrapWraps(n, isn, checkpoint);
    UnwrapIsNear(n, isn, checkpoint);
    var v := Unwrap(n, isn, checkpoint);
    forall w: nat | w < TWO64 && Wrap(w, isn) == n
      ensures Max(v, checkpoint) - Min(v, checkpoint) <= Max(w, checkpoint) - Min(w, checkpoint)
    {
      var k := SameWrap(v, w, isn);
      NearestMultiple(v, w, k, checkpoint);
    }
  }

  lemma NearestMultiple(v: nat, w: nat, k: int, checkpoint: nat)
    requires w == v + k * TWO32
    requires Max(v, checkpoint) - Min(v, checkpoint) <= TWO31 || (checkpoint <= v < TWO32)
    ensures Max(v, checkpoint) - Min(v, checkpoint) <= Max(w, checkpoint) - Min(w, checkpoint)
  {
    if k >= 1 {
      assert w >= v + TWO32;
    } else if k <= -1 {
      assert w <= v - TWO32;
    }
  }

  /** When the addition overflows, the result is a whole number of periods too small. */
  lemma OverflowIsNotClosest(n: U32, isn: U32, checkpoint: nat)
    requires checkpoint < TWO64
    requires Overflows(n, isn, checkpoint)
    ensures Unwrap(n, isn, checkpoint) == (n - isn) % TWO32
    ensures !Closest(Unwrap(n, isn, checkpoint), n, isn, checkpoint)
  {
    var low := (n - isn) % TWO32;
    var q := checkpoint / TWO32;
    assert q == TWO32 - 1;
    var w := low + q * TWO32;
    LowWraps(n, isn);
    WrapShift(low, q, isn);
    assert w < TWO64 && Wrap(w, isn) == n;
    assert (w + TWO32) % TWO64 == low;
  }

  /** The documented contract holds exactly when the addition stays in range. */
  lemma UnwrapClosestIff(n: U32, isn: U32, checkpoint: nat)
    requires checkpoint < TWO64
    ensures Closest(Unwrap(n, isn, checkpoint), n, isn, checkpoint) <==> !Overflows(n, isn, checkpoint)
  {
    if Overflows(n, isn, checkpoint) {
      OverflowIsNotClosest(n, isn, checkpoint);
    } else {
      UnwrapClosest(n, isn, checkpoint);
    }
  }

  /** A value within half a period of the checkpoint survives the round trip. */
  lemma UnwrapWrap(v: nat, isn: U32, checkpoint: nat)
    requires v < TWO64 && checkpoint < TWO64 - TWO32
    requires -TWO31 < v - checkpoint < TWO31
    ensures Unwrap(Wrap(v, isn), isn, checkpoint) == v
  {
    var n := Wrap(v, isn);
    UnwrapWraps(n, isn, checkpoint);
    UnwrapClosestIff(n, isn, checkpoint);
    var u := Unwrap(n, isn, checkpoint);
    var k := SameWrap(v, u, isn);
    assert Max(u, checkpoint) - Min(u, checkpoint) <= Max(v, checkpoint) - Min(v, checkpoint);
  }

  /** However far a number lies behind the checkpoint, it is never unwrapped to a smaller one. */
  lemma UnwrapNotBelow(v: nat, isn: U32, checkpoint: nat)
    requires v <= checkpoint < TWO64 - TWO32
    ensures Unwrap(Wrap(v, isn), isn, checkpoint) >= v
  {
    var n := Wrap(v, isn);
    UnwrapWraps(n, isn, checkpoint);
    UnwrapClosestIff(n, isn, checkpoint);
    var u := Unwrap(n, isn, checkpoint);
    var k := SameWrap(v, u, isn);
    assert Max(u, checkpoint) - Min(u, checkpoint) <= Max(v, checkpoint) - Min(v, checkpoint);
  }
}
