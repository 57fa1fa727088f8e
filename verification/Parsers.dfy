/** Integers in network byte order (libsponge/util/parser.cc). */
module Parsers {
  import opened Machine

  datatype ParseResult =
    NoError | BadChecksum | PacketTooShort | WrongIPVersion | HeaderTooShort | TruncatedPacket | Unsupported

  function Pow256(n: nat): (p: nat)
    ensures p > 0
  {
    if n == 0 then 1 else 256 * Pow256(n - 1)
  }

  function BigEndian(bytes: seq<Byte>): (v: nat)
    ensures v < Pow256(|bytes|)
  {
    if bytes == [] then 0 else 256 * BigEndian(bytes[..|bytes| - 1]) + bytes[|bytes| - 1]
  }

  function Bytes(width: nat, v: nat): (bytes: seq<Byte>)
    ensures |bytes| == width
  {
    if width == 0 then [] else Bytes(width - 1, v / 256) + [v % 256]
  }

  lemma {:induction false} BigEndianBytes(width: nat, v: nat)
    requires v < Pow256(width)
    ensures BigEndian(Bytes(width, v)) == v
  {
    if width > 0 {
      BigEndianBytes(width - 1, v / 256);
      assert Bytes(width, v)[..width - 1] == Bytes(width - 1, v / 256);
    }
  }

  lemma {:induction false} BytesBigEndian(bytes: seq<Byte>)
    ensures Bytes(|bytes|, BigEndian(bytes)) == bytes
  {
    if bytes != [] {
      var n := |bytes| - 1;
      BytesBigEndian(bytes[..n]);
      assert bytes == bytes[..n] + [bytes[n]];
    }
  }

  /** A byte of the encoding is found by shifting the value right. */
  lemma {:induction false} ByteAt(width: nat, v: nat, i: nat)
    requires i < width
    ensures Bytes(width, v)[i] == v / Pow256(width - 1 - i) % 256
  {
    if i < width - 1 {
      var p := Pow256(width - 2 - i);
      ByteAt(width - 1, v / 256, i);
      DivDiv(v, p);
    }
  }

  lemma DivDiv(v: nat, p: nat)
    requires p > 0
    ensures v / 256 / p == v / (256 * p)
  {
    var q := v / 256 / p;
    var r := v / 256 % p;
    assert v == 256 * (q * p + r) + v % 256;
    assert 256 * (q * p) == q * (256 * p);
    DivModUnique(v, 256 * p, q, 256 * r + v % 256);
  }

  /** The integer of `width` bytes at offset `at`; past the end it reads as 0. */
  function Field(bytes: seq<Byte>, at: nat, width: nat): (v: nat)
    ensures v < Pow256(width)
  {
    if at + width <= |bytes| then BigEndian(bytes[at..at + width]) else 0
  }

  /** Reading back an integer that stands at `at`, and what then comes next. */
  lemma FieldThenRest(bytes: seq<Byte>, at: nat, width: nat, v: nat, rest: seq<Byte>)
    requires at <= |bytes| && bytes[at..] == Bytes(width, v) + rest && v < Pow256(width)
    ensures Field(bytes, at, width) == v
    ensures at + width <= |bytes| && bytes[at + width..] == rest
  {
    BigEndianBytes(width, v);
    assert bytes[at..at + width] == bytes[at..][..width] == Bytes(width, v);
    assert bytes[at + width..] == bytes[at..][width..] == rest;
  }

  lemma Widths()
    ensures Pow256(1) == 0x100 && Pow256(2) == 0x1_0000 && Pow256(4) == 0x1_0000_0000
  {
    assert Pow256(2) == 256 * Pow256(1);
  }

  /** A consuming parser. `whole` is what it was given and `offset` how far it was asked to go: up to
      the end of the input it stands there, and beyond it is in error. An error sticks: from then on
      every integer read is 0 and nothing is consumed. */
  class NetParser {
    var buffer: seq<Byte>
    var error: ParseResult
    ghost const whole: seq<Byte>
    ghost var offset: nat

    ghost predicate Valid()
      reads this
    {
      if offset <= |whole| then error == NoError && buffer == whole[offset..] else error == PacketTooShort
    }

    constructor (bytes: seq<Byte>)
      ensures Valid() && whole == bytes && offset == 0 && buffer == bytes
    {
      buffer, error := bytes, NoError;
      whole, offset := bytes, 0;
    }

    method CheckSize(size: nat)
      modifies this`error
      ensures error == if size > |buffer| then PacketTooShort else old(error)
    {
      if size > |buffer| {
        error := PacketTooShort;
      }
    }

    method ParseInt(len: nat) returns (v: nat)
      requires Valid()
      modifies this
      ensures Valid() && offset == old(offset) + len
      ensures v == Field(whole, old(offset), len) && v < Pow256(len)
    {
      CheckSize(len);
      offset := offset + len;
      if error != NoError {
        return 0;
      }
      v := 0;
      var i := 0;
      while i < len
        invariant 0 <= i <= len
        invariant v == BigEndian(buffer[..i])
      {
        assert buffer[..i + 1][..i] == buffer[..i];
        v := v * 256 + buffer[i];
        i := i + 1;
      }
      assert buffer[..len] == whole[old(offset)..offset];
      buffer := buffer[len..];
    }

    method U8() returns (v: Byte)
      requires Valid()
      modifies this
      ensures Valid() && offset == old(offset) + 1
      ensures v == Field(whole, old(offset), 1)
    {
      Widths();
      v := ParseInt(1);
    }

    method U16() returns (v: U16)
      requires Valid()
      modifies this
      ensures Valid() && offset == old(offset) + 2
      ensures v == Field(whole, old(offset), 2)
    {
      Widths();
      v := ParseInt(2);
    }

    method U32() returns (v: U32)
      requires Valid()
      modifies this
      ensures Valid() && offset == old(offset) + 4
      ensures v == Field(whole, old(offset), 4)
    {
      Widths();
      v := ParseInt(4);
    }

    method RemovePrefix(n: nat)
      requires Valid()
      modifies this
      ensures Valid() && offset == old(offset) + n
    {
      CheckSize(n);
      offset := offset + n;
      if error != NoError {
        return;
      }
      buffer := buffer[n..];
    }
  }

  /** Appends an integer in network byte order. */
  method UnparseInt(s: seq<Byte>, width: nat, v: nat) returns (t: seq<Byte>)
    ensures t == s + Bytes(width, v)
  {
    t := s;
    var i := 0;
    while i < width
      invariant 0 <= i <= width
      invariant t == s + Bytes(width, v)[..i]
    {
      ByteAt(width, v, i);
      t := t + [v / Pow256(width - i - 1) % 256];
      i := i + 1;
    }
  }
}
