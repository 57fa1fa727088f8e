/** TCP segments and IPv4 datagrams on the wire (libsponge/tcp_helpers/tcp_segment.cc, ipv4_datagram.cc). */
module Datagrams {
  import opened Machine
  import opened Segments
  import opened Checksums
  import opened Parsers
  import opened Headers

  datatype Outcome<+T> = Parsed(value: T) | Failed(error: ParseResult)

  // ---- Segments ----

  /** The checksum field of an outgoing segment, given the lower layer's share. */
  function SegmentChecksum(seg: TcpSegment, pseudo: U32): U16
    requires seg.header.doff >= 5
  {
    Checksum(pseudo, TcpBytes(seg.header.(cksum := 0), seg.payload))
  }

  /** The segment with its checksum filled in. */
  function Sealed(seg: TcpSegment, pseudo: U32): TcpSegment
    requires seg.header.doff >= 5
  {
    TcpSegment(seg.header.(cksum := SegmentChecksum(seg, pseudo)), seg.payload)
  }

  function SegmentBytes(seg: TcpSegment, pseudo: U32): Option<seq<Byte>> {
    if seg.header.doff < 5 then None
    else Some(TcpBytes(Sealed(seg, pseudo).header, seg.payload))
  }

  /** What parsing makes of the bytes: only the checksum and the parser's own error are looked at. */
  function SegmentOf(b: seq<Byte>, pseudo: U32): Outcome<TcpSegment> {
    var h := TcpLayout(b);
    if Checksum(pseudo, b) != 0 then Failed(BadChecksum)
    else if |b| < TcpSkip(h) then Failed(PacketTooShort)
    else Parsed(TcpSegment(h, b[TcpSkip(h)..]))
  }

  lemma TwoBytes(v: U16)
    ensures Bytes(2, v) == [v / 256, v % 256]
  {
    assert Bytes(1, v / 256) == Bytes(0, v / 256 / 256) + [v / 256 % 256];
  }

  /** Changing the checksum changes bytes 16 and 17. */
  lemma TcpChecksumField(h: TcpHeader, v: U16, rest: seq<Byte>, b: seq<Byte>)
    requires h.doff >= 5 && b == TcpBytes(h.(cksum := 0), rest)
    ensures |b| == 4 * h.doff + |rest|
    ensures b == WithField(b[..16], 0, b[18..])
    ensures TcpBytes(h.(cksum := v), rest) == WithField(b[..16], v, b[18..])
  {
    hide Bytes, Flags, Offset;
    TwoBytes(v);
    TwoBytes(0);
    SameFlags(h, v);
    var whole := TcpBytes(h.(cksum := v), rest);
    assert whole[..16] == b[..16] && whole[16..18] == Bytes(2, v) && whole[18..] == b[18..];
    assert b[16..18] == Bytes(2, 0);
  }

  lemma SameFlags(h: TcpHeader, v: U16)
    ensures Flags(h.(cksum := v)) == Flags(h.(cksum := 0))
  {
  }

  /** The bytes of a segment check: whatever was filled in folds to zero. */
  lemma SegmentChecks(seg: TcpSegment, pseudo: U32)
    requires seg.header.doff >= 5 && pseudo + 65280 * (4 * seg.header.doff + |seg.payload|) < TWO32
    ensures Checksum(pseudo, TcpBytes(Sealed(seg, pseudo).header, seg.payload)) == 0
  {
    hide TcpBytes, Checksum, WithField;
    var b := TcpBytes(seg.header.(cksum := 0), seg.payload);
    var v := SegmentChecksum(seg, pseudo);
    TcpChecksumField(seg.header, v, seg.payload, b);
    FilledInChecks(pseudo, b[..16], b[18..], v);
  }

  /** Parsing undoes serializing exactly when the data offset fits its 4 bits. */
  lemma SegmentRoundTripIff(seg: TcpSegment, pseudo: U32)
    requires seg.header.doff >= 5 && pseudo + 65280 * (4 * seg.header.doff + |seg.payload|) < TWO32
    ensures SegmentOf(SegmentBytes(seg, pseudo).value, pseudo) == Parsed(Sealed(seg, pseudo)) <==>
            seg.header.doff <= 15
  {
    hide TcpBytes, TcpLayout, Checksum;
    SegmentChecks(seg, pseudo);
    TcpLayoutOfBytes(Sealed(seg, pseudo).header, seg.payload);
  }

  /** A segment that reaches the parser with one wrong byte, anywhere, is turned away. */
  lemma CorruptSegmentRejected(seg: TcpSegment, pseudo: U32, b: seq<Byte>, i: nat, y: Byte)
    requires seg.header.doff >= 5 && pseudo + 65280 * (4 * seg.header.doff + |seg.payload|) < TWO32
    requires b == SegmentBytes(seg, pseudo).value && i < |b| && y != b[i]
    ensures SegmentOf(b[i := y], pseudo) == Failed(BadChecksum)
  {
    hide TcpBytes, TcpLayout, Checksum;
    SegmentChecks(seg, pseudo);
    TcpLayoutOfBytes(Sealed(seg, pseudo).header, seg.payload);
    assert b == b[..i] + [b[i]] + b[i + 1..] && b[i := y] == b[..i] + [y] + b[i + 1..];
    OneByteErrorDetected(pseudo, b[..i], b[i], y, b[i + 1..]);
  }

  method ParseSegment(b: seq<Byte>, pseudo: U32) returns (r: Outcome<TcpSegment>)
    ensures r == SegmentOf(b, pseudo)
  {
    hide TcpLayout, Checksum;
    var check := new InternetChecksum(pseudo);
    check.Add(b);
    assert check.fed == b;
    var value := check.Value();
    if value != 0 {
      return Failed(BadChecksum);
    }
    var p := new NetParser(b);
    var h, _ := ParseTcpHeader(p);
    if p.error != NoError {
      return Failed(p.error);
    }
    r := Parsed(TcpSegment(h, p.buffer));
  }

  method SerializeSegment(seg: TcpSegment, pseudo: U32) returns (r: Option<seq<Byte>>)
    ensures r == SegmentBytes(seg, pseudo)
  {
    hide TcpBytes, Checksum;
    var h := seg.header.(cksum := 0);
    var zeroed := SerializeTcpHeader(h);
    if zeroed == None {
      return None;
    }
    var check := new InternetChecksum(pseudo);
    check.Add(zeroed.value);
    check.Add(seg.payload);
    TcpBytesThen(h, seg.payload);
    assert check.fed == TcpBytes(h, seg.payload);
    var value := check.Value();
    h := h.(cksum := value);
    var bytes := SerializeTcpHeader(h);
    TcpBytesThen(h, seg.payload);
    r := Some(bytes.value + seg.payload);
  }

  lemma TcpBytesThen(h: TcpHeader, rest: seq<Byte>)
    requires h.doff >= 5
    ensures TcpBytes(h, []) + rest == TcpBytes(h, rest)
  {
    hide Bytes, Flags, Offset;
  }

  // ---- Datagrams ----

  datatype Datagram = Datagram(header: Ipv4Header, payload: seq<Byte>) {
    /** What serializing demands; otherwise it throws. */
    predicate Sendable() {
      |payload| == header.PayloadLength() && header.ver == 4 && header.hlen >= 5
    }

    /** The datagram with its header checksum filled in. */
    function Sealed(): Datagram
      requires Sendable()
    {
      Datagram(header.(cksum := Checksum(0, Ipv4Bytes(header.(cksum := 0), []))), payload)
    }

    function Bytes(): (r: Option<seq<Byte>>)
      ensures r.Some? <==> Sendable()
    {
      if Sendable() then Some(Ipv4Bytes(Sealed().header, payload)) else None
    }
  }

  /** What parsing makes of the bytes: of the header's verdict only the resulting position is used. */
  function DatagramOf(b: seq<Byte>): Outcome<Datagram> {
    var h := if |b| < 20 then DEFAULT_IPV4 else Ipv4Layout(b);
    var payload := b[Ipv4Skip(b)..];
    if |payload| != h.PayloadLength() then Failed(PacketTooShort) else Parsed(Datagram(h, payload))
  }

  /** Changing the checksum changes bytes 10 and 11. */
  lemma Ipv4ChecksumField(h: Ipv4Header, v: U16, b: seq<Byte>)
    requires h.ver == 4 && h.hlen >= 5 && b == Ipv4Bytes(h.(cksum := 0), [])
    ensures |b| == 4 * h.hlen
    ensures b == WithField(b[..10], 0, b[12..])
    ensures Ipv4Bytes(h.(cksum := v), []) == WithField(b[..10], v, b[12..])
  {
    hide Parsers.Bytes, Fragment, VersionByte;
    TwoBytes(v);
    TwoBytes(0);
    SameFragment(h, v);
    var whole := Ipv4Bytes(h.(cksum := v), []);
    assert whole[..10] == b[..10] && whole[10..12] == Parsers.Bytes(2, v) && whole[12..] == b[12..];
    assert b[10..12] == Parsers.Bytes(2, 0);
  }

  lemma SameFragment(h: Ipv4Header, v: U16)
    ensures Fragment(h.(cksum := v)) == Fragment(h.(cksum := 0))
  {
  }

  lemma Ipv4BytesThen(h: Ipv4Header, rest: seq<Byte>)
    requires h.ver == 4 && h.hlen >= 5
    ensures Ipv4Bytes(h, []) + rest == Ipv4Bytes(h, rest)
  {
    hide Parsers.Bytes, Fragment, VersionByte;
  }

  /** A sealed header checks. */
  lemma HeaderChecks(d: Datagram)
    requires d.Sendable()
    ensures Checksum(0, Ipv4Bytes(d.Sealed().header, [])) == 0
  {
    hide Ipv4Bytes, Checksum, WithField;
    var b := Ipv4Bytes(d.header.(cksum := 0), []);
    var v := Checksum(0, b);
    Ipv4ChecksumField(d.header, v, b);
    FilledInChecks(0, b[..10], b[12..], v);
  }

  /** The header parser's verdict on a datagram of ours: it dislikes only a datagram too long for its
      16-bit length, or a header length too long for its 4 bits. */
  lemma VerdictOnOurs(d: Datagram, b: seq<Byte>)
    requires d.Sendable() && d.header.hlen <= 15 && b == d.Bytes().value
    ensures Ipv4Verdict(b) == if |b| <= 0xffff then NoError else TruncatedPacket
    ensures |b| <= 0xffff <==> |b| == d.header.len
  {
    hide Ipv4Bytes, Ipv4Layout, Checksum;
    var h := d.Sealed().header;
    Ipv4LayoutOfBytes(h, d.payload);
    Ipv4LayoutOfBytes(h, []);
    Ipv4BytesThen(h, d.payload);
    assert b[..4 * h.hlen] == Ipv4Bytes(h, []);
    HeaderChecks(d);
  }

  /** Parsing undoes serializing exactly when the header length and the fragment offset fit their bits
      and the datagram fits in 65535 bytes; without options the last is not even needed. */
  lemma DatagramRoundTripIff(d: Datagram, b: seq<Byte>)
    requires d.Sendable() && b == d.Bytes().value
    ensures DatagramOf(b) == Parsed(d.Sealed()) <==>
            d.header.hlen <= 15 && d.header.offset < 0x2000 && (d.header.hlen == 5 || |b| <= 0xffff)
  {
    hide Ipv4Bytes, Ipv4Layout, Ipv4Verdict, Checksum;
    var h := d.Sealed().header;
    Ipv4LayoutOfBytes(h, d.payload);
    if h.hlen <= 15 {
      VerdictOnOurs(d, b);
    }
  }

  /** The header checksum of a datagram is not enforced: with any value in its place the datagram is
      still accepted, although the header parser itself says BadChecksum unless that value checks. */
  lemma HeaderChecksumIgnored(d: Datagram, v: U16, b: seq<Byte>)
    requires d.Sendable() && d.header.hlen <= 15 && d.header.offset < 0x2000 && 4 * d.header.hlen + |d.payload| <= 0xffff
    requires b == Ipv4Bytes(d.header.(cksum := v), d.payload)
    ensures DatagramOf(b) == Parsed(Datagram(d.header.(cksum := v), d.payload))
    ensures Ipv4Verdict(b) == NoError <==> Checksum(0, Ipv4Bytes(d.header.(cksum := v), [])) == 0
  {
    hide Ipv4Bytes, Ipv4Layout, Checksum;
    var h := d.header.(cksum := v);
    Ipv4LayoutOfBytes(h, d.payload);
    Ipv4LayoutOfBytes(h, []);
    Ipv4BytesThen(h, d.payload);
    assert b[..4 * h.hlen] == Ipv4Bytes(h, []);
  }

  /** What parses can be serialized again exactly when it is of version 4 with a header of 5 words or more:
      parsing does not look at either. */
  lemma ParsedSendableIff(b: seq<Byte>)
    requires DatagramOf(b).Parsed?
    ensures var d := DatagramOf(b).value;
            d.Sendable() <==> d.header.ver == 4 && d.header.hlen >= 5
  {
    hide Ipv4Layout, Ipv4Skip;
  }

  /** Twenty bytes that parse, as a datagram of version 5 with 64 hops to live, and cannot be serialized. */
  lemma UnserializableArrives() returns (b: seq<Byte>)
    ensures b == [0x55, 0, 0, 20, 0, 0, 0, 0, 64, 6, 0, 0, 10, 0, 0, 1, 10, 0, 0, 2]
    ensures DatagramOf(b).Parsed? && !DatagramOf(b).value.Sendable()
    ensures DatagramOf(b).value.header.ver == 5 && DatagramOf(b).value.header.ttl == 64
  {
    b := [0x55, 0, 0, 20, 0, 0, 0, 0, 64, 6, 0, 0, 10, 0, 0, 1, 10, 0, 0, 2];
    hide Ipv4Skip, Field;
    VersionFive(b);
  }

  lemma VersionFive(b: seq<Byte>)
    requires |b| == 20 && b[0] == 0x55 && b[2] == 0 && b[3] == 20 && b[8] == 64
    ensures var h := Ipv4Layout(b); h.ver == 5 && h.hlen == 5 && h.len == 20 && h.ttl == 64
    ensures Ipv4Skip(b) == 20
  {
    assert b[0..1] == [0x55] && [0x55][..0] == [];
    assert b[2..4] == [0, 20] && [0, 20][..1] == [0] && [0][..0] == [];
    assert b[8..9] == [64] && [64][..0] == [];
    assert BigEndian([0, 20]) == 256 * BigEndian([0]) + 20;
    assert Field(b, 0, 1) == 0x55 && Field(b, 2, 2) == 20 && Field(b, 8, 1) == 64;
    hide Field;
  }

  method ParseDatagram(b: seq<Byte>) returns (r: Outcome<Datagram>)
    ensures r == DatagramOf(b)
  {
    hide Ipv4Layout, Ipv4Verdict;
    var p := new NetParser(b);
    var h, _ := ParseIpv4Header(p);
    if |p.buffer| != h.PayloadLength() {
      return Failed(PacketTooShort);
    }
    r := Parsed(Datagram(h, p.buffer));
  }

  method SerializeDatagram(d: Datagram) returns (r: Option<seq<Byte>>)
    ensures r == d.Bytes()
  {
    hide Ipv4Bytes, Checksum;
    if |d.payload| != d.header.PayloadLength() {
      return None;
    }
    var h := d.header.(cksum := 0);
    var zeroed := SerializeIpv4Header(h);
    if zeroed == None {
      return None;
    }
    var check := new InternetChecksum(0);
    check.Add(zeroed.value);
    assert check.fed == zeroed.value;
    var value := check.Value();
    h := h.(cksum := value);
    var bytes := SerializeIpv4Header(h);
    Ipv4BytesThen(h, d.payload);
    r := Some(bytes.value + d.payload);
  }
}
