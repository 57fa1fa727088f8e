/** TCP and IPv4 headers on the wire (libsponge/tcp_helpers/tcp_header.cc, ipv4_header.cc; section 3.1
    of RFC 793 and of RFC 791). */
module Headers {
  import opened Machine
  import opened Segments
  import opened Checksums
  import opened Parsers

  function Zeros(n: nat): seq<Byte> {
    seq(n, _ => 0)
  }

  // ---- TCP ----

  function Flags(h: TcpHeader): (b: Byte)
    ensures (b / 32 % 2 == 1) == h.urg && (b / 16 % 2 == 1) == h.ack && (b / 8 % 2 == 1) == h.psh
    ensures (b / 4 % 2 == 1) == h.rst && (b / 2 % 2 == 1) == h.syn && (b % 2 == 1) == h.fin
  {
    32 * BoolToNat(h.urg) + 16 * BoolToNat(h.ack) + 8 * BoolToNat(h.psh) +
    4 * BoolToNat(h.rst) + 2 * BoolToNat(h.syn) + BoolToNat(h.fin)
  }

  /** The data offset in the high half of a byte: shifting left drops its other bits. */
  function Offset(doff: Byte): (b: Byte)
    ensures b / 16 == doff % 16
  {
    16 * (doff % 16)
  }

  /** The header's fields at their places in front of `rest`, padded to the size it advertises. */
  function TcpBytes(h: TcpHeader, rest: seq<Byte>): seq<Byte>
    requires h.doff >= 5
  {
    Bytes(2, h.sport) + (Bytes(2, h.dport) + (Bytes(4, h.seqno) + (Bytes(4, h.ackno) +
    (Bytes(1, Offset(h.doff)) + (Bytes(1, Flags(h)) + (Bytes(2, h.win) + (Bytes(2, h.cksum) +
    (Bytes(2, h.uptr) + (Zeros(4 * h.doff - 20) + rest)))))))))
  }

  /** The header that the bytes spell; a field past the end is 0. */
  function TcpLayout(b: seq<Byte>): TcpHeader {
    Widths();
    var flags := Field(b, 13, 1);
    TcpHeader(Field(b, 0, 2), Field(b, 2, 2), Field(b, 4, 4), Field(b, 8, 4), Field(b, 12, 1) / 16,
              flags / 32 % 2 == 1, flags / 16 % 2 == 1, flags / 8 % 2 == 1,
              flags / 4 % 2 == 1, flags / 2 % 2 == 1, flags % 2 == 1,
              Field(b, 14, 2), Field(b, 16, 2), Field(b, 18, 2))
  }

  /** Where the parser stands after a TCP header. */
  function TcpSkip(h: TcpHeader): nat {
    if h.doff < 5 then 20 else 4 * h.doff
  }

  /** Writing and reading back changes nothing but the data offset, of which 4 bits survive. */
  lemma TcpLayoutOfBytes(h: TcpHeader, rest: seq<Byte>)
    requires h.doff >= 5
    ensures TcpLayout(TcpBytes(h, rest)) == h.(doff := h.doff % 16)
    ensures |TcpBytes(h, rest)| == 4 * h.doff + |rest| && TcpBytes(h, rest)[4 * h.doff..] == rest
  {
    hide Bytes, Field, Flags, Offset;
    Widths();
    var b := TcpBytes(h, rest);
    var r9 := Zeros(4 * h.doff - 20) + rest;
    var r8 := Bytes(2, h.uptr) + r9;
    var r7 := Bytes(2, h.cksum) + r8;
    var r6 := Bytes(2, h.win) + r7;
    var r5 := Bytes(1, Flags(h)) + r6;
    var r4 := Bytes(1, Offset(h.doff)) + r5;
    var r3 := Bytes(4, h.ackno) + r4;
    var r2 := Bytes(4, h.seqno) + r3;
    var r1 := Bytes(2, h.dport) + r2;
    FieldThenRest(b, 0, 2, h.sport, r1);
    FieldThenRest(b, 2, 2, h.dport, r2);
    FieldThenRest(b, 4, 4, h.seqno, r3);
    FieldThenRest(b, 8, 4, h.ackno, r4);
    FieldThenRest(b, 12, 1, Offset(h.doff), r5);
    FieldThenRest(b, 13, 1, Flags(h), r6);
    FieldThenRest(b, 14, 2, h.win, r7);
    FieldThenRest(b, 16, 2, h.cksum, r8);
    FieldThenRest(b, 18, 2, h.uptr, r9);
    assert b[4 * h.doff..] == b[20..][4 * h.doff - 20..] == rest;
  }

  /** The number that the `width` bytes from `offset` on spell. */
  function NumberAt(b: seq<Byte>, offset: nat, width: nat): nat
    requires offset + width <= |b|
  {
    BigEndian(b[offset..offset + width])
  }

  /** The picture in section 3.1 of RFC 793, for a data offset that fits its 4 bits. */
  lemma TcpWireFormat(h: TcpHeader, rest: seq<Byte>)
    requires 5 <= h.doff <= 15
    ensures var b := TcpBytes(h, rest);
            && |b| >= 20
            && NumberAt(b, 0, 2) == h.sport && NumberAt(b, 2, 2) == h.dport
            && NumberAt(b, 4, 4) == h.seqno && NumberAt(b, 8, 4) == h.ackno
            && b[12] == 16 * h.doff
            && b[13] == 32 * BoolToNat(h.urg) + 16 * BoolToNat(h.ack) + 8 * BoolToNat(h.psh)
                        + 4 * BoolToNat(h.rst) + 2 * BoolToNat(h.syn) + BoolToNat(h.fin)
            && NumberAt(b, 14, 2) == h.win && NumberAt(b, 16, 2) == h.cksum && NumberAt(b, 18, 2) == h.uptr
  {
    hide BigEndian, Flags, Offset, Bytes;
    var b := TcpBytes(h, rest);
    SpelledAt(b, 0, 2, h.sport);
    SpelledAt(b, 2, 2, h.dport);
    SpelledAt(b, 4, 4, h.seqno);
    SpelledAt(b, 8, 4, h.ackno);
    SpelledAt(b, 14, 2, h.win);
    SpelledAt(b, 16, 2, h.cksum);
    SpelledAt(b, 18, 2, h.uptr);
    OneByte(Offset(h.doff));
    OneByte(Flags(h));
    OffsetFlags(h);
  }

  lemma SpelledAt(b: seq<Byte>, offset: nat, width: nat, v: nat)
    requires offset + width <= |b| && b[offset..offset + width] == Bytes(width, v) && v < TWO32 && (width == 4 || (width == 2 && v < TWO16))
    ensures NumberAt(b, offset, width) == v
  {
    Widths();
    BigEndianBytes(width, v);
  }

  lemma OneByte(v: Byte)
    ensures Bytes(1, v) == [v]
  {
    assert Bytes(0, v / 256) == [];
  }

  lemma OffsetFlags(h: TcpHeader)
    requires h.doff <= 15
    ensures Offset(h.doff) == 16 * h.doff
    ensures Flags(h) == 32 * BoolToNat(h.urg) + 16 * BoolToNat(h.ack) + 8 * BoolToNat(h.psh)
                        + 4 * BoolToNat(h.rst) + 2 * BoolToNat(h.syn) + BoolToNat(h.fin)
  {
  }

  method ParseTcpHeader(p: NetParser) returns (h: TcpHeader, verdict: ParseResult)
    requires p.Valid() && p.offset == 0
    modifies p
    ensures p.Valid() && h == TcpLayout(p.whole) && p.offset == TcpSkip(h)
    ensures verdict == if h.doff < 5 then HeaderTooShort else p.error
  {
    hide Field;
    Widths();
    var sport := p.U16();
    var dport := p.U16();
    var seqno := p.U32();
    var ackno := p.U32();
    var offset := p.U8();
    var flags := p.U8();
    var win := p.U16();
    var cksum := p.U16();
    var uptr := p.U16();
    h := TcpHeader(sport, dport, seqno, ackno, offset / 16,
                   flags / 32 % 2 == 1, flags / 16 % 2 == 1, flags / 8 % 2 == 1,
                   flags / 4 % 2 == 1, flags / 2 % 2 == 1, flags % 2 == 1, win, cksum, uptr);
    if h.doff < 5 {
      return h, HeaderTooShort;
    }
    p.RemovePrefix(h.doff * 4 - 20);
    verdict := p.error;
  }

  /** A header length below the minimum is an exception. */
  method SerializeTcpHeader(h: TcpHeader) returns (r: Option<seq<Byte>>)
    ensures r == if h.doff < 5 then None else Some(TcpBytes(h, []))
  {
    hide Bytes, Flags, Offset;
    if h.doff < 5 {
      return None;
    }
    var s := UnparseInt([], 2, h.sport);
    s := UnparseInt(s, 2, h.dport);
    s := UnparseInt(s, 4, h.seqno);
    s := UnparseInt(s, 4, h.ackno);
    s := UnparseInt(s, 1, Offset(h.doff));
    s := UnparseInt(s, 1, Flags(h));
    s := UnparseInt(s, 2, h.win);
    s := UnparseInt(s, 2, h.cksum);
    s := UnparseInt(s, 2, h.uptr);
    s := s + Zeros(4 * h.doff - |s|);
    assert s == TcpBytes(h, []);
    r := Some(s);
  }

  // ---- IPv4 ----

  datatype Ipv4Header = Ipv4Header(
    ver: Byte, hlen: Byte, tos: Byte, len: U16, id: U16, df: bool, mf: bool, offset: U16,
    ttl: Byte, proto: Byte, cksum: U16, src: U32, dst: U32)
  {
    /** The length of the payload, in 16 bits. */
    function PayloadLength(): U16 {
      (len - 4 * hlen) % TWO16
    }

    /** The addresses, the protocol and the payload length, added up for the TCP checksum. */
    function PseudoChecksum(): (sum: U32)
      ensures sum <= 5 * 0xffff + 0xff
    {
      src / TWO16 + src % TWO16 + dst / TWO16 + dst % TWO16 + proto + PayloadLength()
    }
  }

  const PROTO_TCP: Byte := 6
  const DEFAULT_IPV4: Ipv4Header := Ipv4Header(4, 5, 0, 0, 0, true, false, 0, 128, PROTO_TCP, 0, 0, 0)

  /** The version in the high half of a byte and the header length in the low half. */
  function VersionByte(ver: Byte, hlen: Byte): (b: Byte)
    ensures b / 16 == ver % 16 && b % 16 == hlen % 16
  {
    16 * (ver % 16) + hlen % 16
  }

  function Fragment(h: Ipv4Header): (v: U16)
    ensures (v / 0x4000 % 2 == 1) == h.df && (v / 0x2000 % 2 == 1) == h.mf && v % 0x2000 == h.offset % 0x2000
  {
    0x4000 * BoolToNat(h.df) + 0x2000 * BoolToNat(h.mf) + h.offset % 0x2000
  }

  function Ipv4Bytes(h: Ipv4Header, rest: seq<Byte>): seq<Byte>
    requires h.ver == 4 && h.hlen >= 5
  {
    Bytes(1, VersionByte(h.ver, h.hlen)) + (Bytes(1, h.tos) + (Bytes(2, h.len) + (Bytes(2, h.id) +
    (Bytes(2, Fragment(h)) + (Bytes(1, h.ttl) + (Bytes(1, h.proto) + (Bytes(2, h.cksum) +
    (Bytes(4, h.src) + (Bytes(4, h.dst) + (Zeros(4 * h.hlen - 20) + rest))))))))))
  }

  function Ipv4Layout(b: seq<Byte>): Ipv4Header {
    Widths();
    var first := Field(b, 0, 1);
    var fragment := Field(b, 6, 2);
    Ipv4Header(first / 16, first % 16, Field(b, 1, 1), Field(b, 2, 2), Field(b, 4, 2),
               fragment / 0x4000 % 2 == 1, fragment / 0x2000 % 2 == 1, fragment % 0x2000,
               Field(b, 8, 1), Field(b, 9, 1), Field(b, 10, 2), Field(b, 12, 4), Field(b, 16, 4))
  }

  /** The parser's opinion of an IPv4 header. */
  function Ipv4Verdict(b: seq<Byte>): ParseResult {
    var h := Ipv4Layout(b);
    if |b| < 20 || |b| < 4 * h.hlen then PacketTooShort
    else if h.ver != 4 then WrongIPVersion
    else if h.hlen < 5 then HeaderTooShort
    else if |b| != h.len then TruncatedPacket
    else if Checksum(0, b[..4 * h.hlen]) != 0 then BadChecksum
    else NoError
  }

  /** Where the parser stands afterwards: it skips the options only once it likes the fields. */
  function Ipv4Skip(b: seq<Byte>): (n: nat)
    ensures n <= |b|
  {
    if |b| < 20 then 0
    else if Ipv4Verdict(b) in {BadChecksum, NoError} then 4 * Ipv4Layout(b).hlen
    else 20
  }

  /** Writing and reading back keeps 4 bits of the header length and 13 of the fragment offset. */
  lemma Ipv4LayoutOfBytes(h: Ipv4Header, rest: seq<Byte>)
    requires h.ver == 4 && h.hlen >= 5
    ensures Ipv4Layout(Ipv4Bytes(h, rest)) == h.(hlen := h.hlen % 16, offset := h.offset % 0x2000)
    ensures |Ipv4Bytes(h, rest)| == 4 * h.hlen + |rest| && Ipv4Bytes(h, rest)[4 * h.hlen..] == rest
  {
    hide Bytes, Field, Fragment, VersionByte;
    Widths();
    var b := Ipv4Bytes(h, rest);
    var ra := Zeros(4 * h.hlen - 20) + rest;
    var r9 := Bytes(4, h.dst) + ra;
    var r8 := Bytes(4, h.src) + r9;
    var r7 := Bytes(2, h.cksum) + r8;
    var r6 := Bytes(1, h.proto) + r7;
    var r5 := Bytes(1, h.ttl) + r6;
    var r4 := Bytes(2, Fragment(h)) + r5;
    var r3 := Bytes(2, h.id) + r4;
    var r2 := Bytes(2, h.len) + r3;
    var r1 := Bytes(1, h.tos) + r2;
    FieldThenRest(b, 0, 1, VersionByte(h.ver, h.hlen), r1);
    FieldThenRest(b, 1, 1, h.tos, r2);
    FieldThenRest(b, 2, 2, h.len, r3);
    FieldThenRest(b, 4, 2, h.id, r4);
    FieldThenRest(b, 6, 2, Fragment(h), r5);
    FieldThenRest(b, 8, 1, h.ttl, r6);
    FieldThenRest(b, 9, 1, h.proto, r7);
    FieldThenRest(b, 10, 2, h.cksum, r8);
    FieldThenRest(b, 12, 4, h.src, r9);
    FieldThenRest(b, 16, 4, h.dst, ra);
    assert b[4 * h.hlen..] == b[20..][4 * h.hlen - 20..] == rest;
  }

  /** The picture in section 3.1 of RFC 791, for a header length and a fragment offset that fit their bits. */
  lemma Ipv4WireFormat(h: Ipv4Header, rest: seq<Byte>)
    requires h.ver == 4 && 5 <= h.hlen <= 15 && h.offset < 0x2000
    ensures var b := Ipv4Bytes(h, rest);
            && |b| >= 20
            && b[0] == 0x40 + h.hlen && b[1] == h.tos && NumberAt(b, 2, 2) == h.len && NumberAt(b, 4, 2) == h.id
            && NumberAt(b, 6, 2) == 0x4000 * BoolToNat(h.df) + 0x2000 * BoolToNat(h.mf) + h.offset
            && b[8] == h.ttl && b[9] == h.proto && NumberAt(b, 10, 2) == h.cksum
            && NumberAt(b, 12, 4) == h.src && NumberAt(b, 16, 4) == h.dst
  {
    hide BigEndian, Fragment, VersionByte, Bytes;
    var b := Ipv4Bytes(h, rest);
    OneByte(VersionByte(h.ver, h.hlen));
    OneByte(h.tos);
    OneByte(h.ttl);
    OneByte(h.proto);
    SpelledAt(b, 2, 2, h.len);
    SpelledAt(b, 4, 2, h.id);
    SpelledAt(b, 6, 2, Fragment(h));
    SpelledAt(b, 10, 2, h.cksum);
    SpelledAt(b, 12, 4, h.src);
    SpelledAt(b, 16, 4, h.dst);
    VersionFragment(h);
  }

  lemma VersionFragment(h: Ipv4Header)
    requires h.ver == 4 && h.hlen <= 15 && h.offset < 0x2000
    ensures VersionByte(h.ver, h.hlen) == 0x40 + h.hlen
    ensures Fragment(h) == 0x4000 * BoolToNat(h.df) + 0x2000 * BoolToNat(h.mf) + h.offset
  {
  }

  method ParseIpv4Header(p: NetParser) returns (h: Ipv4Header, verdict: ParseResult)
    requires p.Valid() && p.offset == 0
    modifies p
    ensures h == if |p.whole| < 20 then DEFAULT_IPV4 else Ipv4Layout(p.whole)
    ensures p.Valid() && p.offset == Ipv4Skip(p.whole) && verdict == Ipv4Verdict(p.whole)
  {
    hide Field;
    Widths();
    var original := p.buffer;
    if |original| < 20 {
      return DEFAULT_IPV4, PacketTooShort;
    }
    var first := p.U8();
    var tos := p.U8();
    var len := p.U16();
    var id := p.U16();
    var fragment := p.U16();
    var ttl := p.U8();
    var proto := p.U8();
    var cksum := p.U16();
    var src := p.U32();
    var dst := p.U32();
    h := Ipv4Header(first / 16, first % 16, tos, len, id, fragment / 0x4000 % 2 == 1, fragment / 0x2000 % 2 == 1,
                    fragment % 0x2000, ttl, proto, cksum, src, dst);
    assert original == p.whole && h == Ipv4Layout(original);
    if |original| < 4 * h.hlen {
      return h, PacketTooShort;
    }
    if h.ver != 4 {
      return h, WrongIPVersion;
    }
    if h.hlen < 5 {
      return h, HeaderTooShort;
    }
    if |original| != h.len {
      return h, TruncatedPacket;
    }
    p.RemovePrefix(h.hlen * 4 - 20);
    assert p.error == NoError;
    var check := new InternetChecksum(0);
    check.Add(original[..4 * h.hlen]);
    assert check.fed == original[..4 * h.hlen];
    var value := check.Value();
    if value != 0 {
      return h, BadChecksum;
    }
    return h, NoError;
  }

  /** The wrong version or a header length below the minimum is an exception. */
  method SerializeIpv4Header(h: Ipv4Header) returns (r: Option<seq<Byte>>)
    ensures r == if h.ver != 4 || h.hlen < 5 then None else Some(Ipv4Bytes(h, []))
  {
    hide Bytes, Fragment, VersionByte;
    if h.ver != 4 {
      return None;
    }
    if 4 * h.hlen < 20 {
      return None;
    }
    var s := UnparseInt([], 1, VersionByte(h.ver, h.hlen));
    s := UnparseInt(s, 1, h.tos);
    s := UnparseInt(s, 2, h.len);
    s := UnparseInt(s, 2, h.id);
    s := UnparseInt(s, 2, Fragment(h));
    s := UnparseInt(s, 1, h.ttl);
    s := UnparseInt(s, 1, h.proto);
    s := UnparseInt(s, 2, h.cksum);
    s := UnparseInt(s, 4, h.src);
    s := UnparseInt(s, 4, h.dst);
    s := s + Zeros(4 * h.hlen - |s|);
    assert s == Ipv4Bytes(h, []);
    r := Some(s);
  }
}
