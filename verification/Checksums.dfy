/** The Internet checksum (libsponge/util/util.cc, RFC 1071). */
module Checksums {
  import opened Machine

  /** Whether an odd number of bytes has gone by after `n` more. */
  predicate Odd(start: bool, n: nat) {
    start != (n % 2 == 1)
  }

  /** The byte's share of the sum: the high half of a 16-bit word, then the low half. */
  function Place(b: Byte, odd: bool): nat {
    if odd then b else 256 * b
  }

  /** The sum of the big-endian 16-bit words of `data`, without any bound. */
  function Weight(data: seq<Byte>, odd: bool): (w: nat)
    ensures w <= 65280 * |data|
  {
    if data == [] then 0 else
      var n := |data| - 1;
      Weight(data[..n], odd) + Place(data[n], Odd(odd, n))
  }

  lemma Congruent(x: int, y: int, k: int)
    requires x == y + 65535 * k
    ensures x % 65535 == y % 65535
  {
    var q := y / 65535;
    assert x == 65535 * (q + k) + y % 65535;
  }

  lemma AddMod32(s: nat, t: nat)
    ensures (s % TWO32 + t) % TWO32 == (s + t) % TWO32
  {
    var q := s / TWO32;
    var u := s % TWO32 + t;
    assert s + t == TWO32 * (q + u / TWO32) + u % TWO32;
  }

  lemma OddSum(start: bool, m: nat, n: nat)
    ensures Odd(Odd(start, m), n) == Odd(start, m + n)
  {
  }

  /** Adding the carries back in until 16 bits are left. */
  function Fold(x: nat): (r: U16)
    ensures r == if x == 0 then 0 else 1 + (x - 1) % 65535
  {
    if x > 0xffff then
      Congruent(x - 1, x / 65536 + x % 65536 - 1, x / 65536);
      Fold(x / 65536 + x % 65536)
    else x
  }

  /** The value of a checksum started at `initial` and fed `data`; the running sum has 32 bits. */
  function Checksum(initial: U32, data: seq<Byte>): U16 {
    0xffff - Fold((initial + Weight(data, false)) % TWO32)
  }

  lemma {:induction false} WeightSplits(a: seq<Byte>, b: seq<Byte>, odd: bool)
    ensures Weight(a + b, odd) == Weight(a, odd) + Weight(b, Odd(odd, |a|))
    decreases |b|
  {
    hide Odd, Place;
    if b == [] {
      assert a + b == a;
    } else {
      var n := |b| - 1;
      WeightSplits(a, b[..n], odd);
      OddSum(odd, |a|, n);
      assert (a + b)[..|a| + n] == a + b[..n];
    }
  }

  /** A message with the 16-bit field `v` between `a` and `c`. */
  function WithField(a: seq<Byte>, v: U16, c: seq<Byte>): seq<Byte> {
    a + [v / 256, v % 256] + c
  }

  /** The word that stands between `a` and `c` simply adds its value. */
  lemma WeightOfField(a: seq<Byte>, v: U16, c: seq<Byte>)
    requires |a| % 2 == 0
    ensures Weight(WithField(a, v, c), false) == Weight(a, false) + v + Weight(c, false)
  {
    var field := [v / 256, v % 256];
    WeightSplits(a + field, c, false);
    WeightSplits(a, field, false);
    assert field[..1] == [v / 256];
    assert field[..1][..0] == [];
    assert Weight(field, false) == v;
  }

  lemma Total(initial: U32, data: seq<Byte>)
    requires initial + Weight(data, false) < TWO32
    ensures Checksum(initial, data) == 0xffff - Fold(initial + Weight(data, false))
  {
    hide Weight, Fold;
  }

  /** A checksum comes out as zero exactly when the sum is a positive multiple of 65535. */
  lemma ChecksumIsZeroIff(initial: U32, data: seq<Byte>)
    requires initial + Weight(data, false) < TWO32
    ensures Checksum(initial, data) == 0 <==>
            initial + Weight(data, false) > 0 && (initial + Weight(data, false)) % 65535 == 0
  {
    hide Weight, Fold, Checksum;
    Total(initial, data);
    FoldIsFull(initial + Weight(data, false));
  }

  lemma FoldIsFull(x: nat)
    ensures Fold(x) == 0xffff <==> x > 0 && x % 65535 == 0
  {
    hide Fold;
    if x > 0 {
      var q := (x - 1) / 65535;
      assert x == 65535 * q + (x - 1) % 65535 + 1;
      if Fold(x) == 0xffff {
        Congruent(x, 0, q + 1);
      } else {
        Congruent(x, Fold(x), q);
      }
    }
  }

  /** The complement of a folded sum is what the sum lacks to a multiple of 65535. */
  lemma ComplementCongruent(x: nat)
    ensures (x + (0xffff - Fold(x))) % 65535 == 0
  {
    hide Fold;
    if x == 0 {
    } else {
      Congruent(x + (0xffff - Fold(x)), 0, (x - 1) / 65535 + 1);
    }
  }

  lemma SameResidue(rest: nat, u: U16, v: U16)
    requires (rest + u) % 65535 == 0
    ensures (rest + v) % 65535 == 0 <==> v % 65535 == u % 65535
  {
    var k := (rest + u) / 65535;
    Congruent(rest + v, v - u, k);
    if v % 65535 == u % 65535 {
      Congruent(v - u, 0, v / 65535 - u / 65535);
    } else if (v - u) % 65535 == 0 {
      Congruent(v, u, (v - u) / 65535);
    }
  }

  lemma Complements(rest: nat, v: U16, complement: U16)
    requires complement == 0xffff - Fold(rest)
    ensures (rest + v) % 65535 == 0 <==> v % 65535 == complement % 65535
  {
    hide Fold;
    ComplementCongruent(rest);
    SameResidue(rest, complement, v);
  }

  /** Which values of the checksum field are accepted: the one computed with the field at zero, up
      to the two one's complement spellings of zero. */
  lemma FieldAcceptedIff(initial: U32, a: seq<Byte>, v: U16, c: seq<Byte>)
    requires |a| % 2 == 0 && initial + 65280 * (|a| + 2 + |c|) < TWO32
    ensures Checksum(initial, WithField(a, v, c)) == 0 <==>
            && v % 65535 == Checksum(initial, WithField(a, 0, c)) % 65535
            && initial + Weight(a, false) + v + Weight(c, false) > 0
  {
    hide Weight, Fold, Checksum, WithField;
    WeightOfField(a, v, c);
    WeightOfField(a, 0, c);
    var rest := initial + Weight(a, false) + Weight(c, false);
    ChecksumIsZeroIff(initial, WithField(a, v, c));
    Total(initial, WithField(a, 0, c));
    Complements(rest, v, Checksum(initial, WithField(a, 0, c)));
    assert initial + Weight(WithField(a, v, c), false) == rest + v;
  }

  /** The filled-in checksum makes the whole sum check. */
  lemma FilledInChecks(initial: U32, a: seq<Byte>, c: seq<Byte>, v: U16)
    requires |a| % 2 == 0 && initial + 65280 * (|a| + 2 + |c|) < TWO32
    requires v == Checksum(initial, WithField(a, 0, c))
    ensures Checksum(initial, WithField(a, v, c)) == 0
  {
    hide Weight, Fold, Checksum, WithField;
    FieldAcceptedIff(initial, a, v, c);
    WeightOfField(a, 0, c);
    Total(initial, WithField(a, 0, c));
  }

  /** Whatever checks does not check any more once a single byte is changed. */
  lemma OneByteErrorDetected(initial: U32, a: seq<Byte>, x: Byte, y: Byte, c: seq<Byte>)
    requires x != y && initial + 65280 * (|a| + 1 + |c|) < TWO32
    requires Checksum(initial, a + [x] + c) == 0
    ensures Checksum(initial, a + [y] + c) != 0
  {
    hide Weight, Fold, Checksum;
    WeightOfByte(a, x, c);
    WeightOfByte(a, y, c);
    ChecksumIsZeroIff(initial, a + [x] + c);
    ChecksumIsZeroIff(initial, a + [y] + c);
    var rest := initial + Weight(a, false) + Weight(c, Odd(false, |a| + 1));
    NotCongruent(rest, Place(x, Odd(false, |a|)), Place(y, Odd(false, |a|)));
  }

  lemma WeightOfByte(a: seq<Byte>, x: Byte, c: seq<Byte>)
    ensures Weight(a + [x] + c, false) ==
            Weight(a, false) + Place(x, Odd(false, |a|)) + Weight(c, Odd(false, |a| + 1))
  {
    WeightSplits(a + [x], c, false);
    WeightSplits(a, [x], false);
    assert [x][..0] == [];
  }

  lemma WeightGrows(data: seq<Byte>, x: Byte)
    ensures Weight(data + [x], false) == Weight(data, false) + Place(x, Odd(false, |data|))
    ensures Odd(false, |data| + 1) == !Odd(false, |data|)
  {
    assert (data + [x])[..|data|] == data;
  }

  lemma NotCongruent(rest: nat, x: nat, y: nat)
    requires x != y && x < 65535 && y < 65535
    requires (rest + x) % 65535 == 0
    ensures (rest + y) % 65535 != 0
  {
    Congruent(rest + y, y - x, (rest + x) / 65535);
  }

  /** The checksum object; `fed` is everything added so far, in however many calls. */
  class InternetChecksum {
    var sum: U32
    var parity: bool
    ghost const initial: U32
    ghost var fed: seq<Byte>

    ghost predicate Valid()
      reads this
    {
      && sum == (initial + Weight(fed, false)) % TWO32
      && parity == Odd(false, |fed|)
    }

    constructor (initialSum: U32)
      ensures Valid() && initial == initialSum && fed == []
    {
      sum, parity := initialSum, false;
      initial, fed := initialSum, [];
    }

    method Add(data: seq<Byte>)
      requires Valid()
      modifies this
      ensures Valid() && fed == old(fed) + data
    {
      hide Weight, Odd, Place;
      var i := 0;
      assert fed + data[..0] == fed;
      while i < |data|
        invariant 0 <= i <= |data|
        invariant sum == (initial + Weight(old(fed) + data[..i], false)) % TWO32
        invariant parity == Odd(false, |old(fed)| + i)
        invariant fed == old(fed)
      {
        ghost var seen := old(fed) + data[..i];
        assert old(fed) + data[..i + 1] == seen + [data[i]];
        WeightGrows(seen, data[i]);
        AddMod32(initial + Weight(seen, false), Place(data[i], parity));
        sum := (sum + Place(data[i], parity)) % TWO32;
        parity := !parity;
        i := i + 1;
      }
      assert data[..i] == data;
      fed := fed + data;
    }

    method Value() returns (v: U16)
      requires Valid()
      ensures v == Checksum(initial, fed)
    {
      var ret: nat := sum;
      while ret > 0xffff
        invariant Fold(ret) == Fold(sum)
      {
        ret := ret / 65536 + ret % 65536;
      }
      v := 0xffff - ret;
    }
  }
}
