/** Carrying TCP segments in IPv4 datagrams (libsponge/tcp_helpers/tcp_over_ip.cc). */
module Adapters {
  import opened Machine
  import opened Segments
  import opened Checksums
  import opened Parsers
  import opened Headers
  import opened Datagrams

  datatype Endpoint = Endpoint(address: U32, port: U16)

  /** The two ends of the connection and whether the near one still waits for the far one. */
  datatype Adapter = Adapter(source: Endpoint, destination: Endpoint, listening: bool) {
    /** The segment as it leaves: with the connection's port numbers. */
    function Addressed(seg: TcpSegment): TcpSegment {
      TcpSegment(seg.header.(sport := source.port, dport := destination.port), seg.payload)
    }

    /** The header of the datagram around a segment; the length is cut to 16 bits. */
    function Envelope(seg: TcpSegment): Ipv4Header {
      DEFAULT_IPV4.(src := source.address, dst := destination.address,
                    len := (20 + 4 * seg.header.doff + |seg.payload|) % TWO16)
    }

    function Wrap(seg: TcpSegment): Option<Datagram> {
      var h := Envelope(seg);
      match SegmentBytes(Addressed(seg), h.PseudoChecksum())
      case None => None
      case Some(bytes) => Some(Datagram(h, bytes))
    }

    /** The segment in the datagram, if there is one. */
    function Content(d: Datagram): Outcome<TcpSegment> {
      SegmentOf(d.payload, d.header.PseudoChecksum())
    }

    predicate Concerns(d: Datagram) {
      && (listening || (d.header.dst == source.address && d.header.src == destination.address))
      && d.header.proto == PROTO_TCP
      && Content(d).Parsed?
      && Content(d).value.header.dport == source.port
    }

    function Unwrap(d: Datagram): (Adapter, Option<TcpSegment>) {
      if !Concerns(d) then (this, None) else
        var seg := Content(d).value;
        if listening then
          if seg.header.syn && !seg.header.rst then
            (Adapter(Endpoint(d.header.dst, source.port), Endpoint(d.header.src, seg.header.sport), false), Some(seg))
          else (this, None)
        else if seg.header.sport != destination.port then (this, None)
        else (this, Some(seg))
    }
  }

  /** The peer that a segment of `a` is meant for: the same connection seen from the other end. */
  predicate Mirrored(a: Adapter, peer: Adapter) {
    !peer.listening && peer.source == a.destination && peer.destination == a.source
  }

  /** What a segment from `a` looks like when it arrives: ports set and checksum filled in. */
  function Carried(a: Adapter, seg: TcpSegment): TcpSegment
    requires seg.header.doff >= 5
  {
    Sealed(a.Addressed(seg), a.Envelope(seg).PseudoChecksum())
  }

  /** What the peer's parser makes of the bytes that `a` sends for a segment. */
  function Received(a: Adapter, seg: TcpSegment): Outcome<Datagram> {
    if a.Wrap(seg).Some? && a.Wrap(seg).value.Bytes().Some? then DatagramOf(a.Wrap(seg).value.Bytes().value)
    else Failed(PacketTooShort)
  }

  /** Wrapping and serializing succeed exactly when the segment, header included, fits in 65535 bytes. */
  lemma WrapSerializesIff(a: Adapter, seg: TcpSegment)
    ensures a.Wrap(seg) == None <==> seg.header.doff < 5
    ensures seg.header.doff >= 5 ==>
              (a.Wrap(seg).value.Sendable() <==> 4 * seg.header.doff + |seg.payload| <= 0xffff)
  {
    hide TcpBytes, TcpLayout;
    if seg.header.doff >= 5 {
      TcpLayoutOfBytes(Carried(a, seg).header, seg.payload);
    }
  }

  /** The bytes that go over the wire parse back to the datagram that was wrapped, with the segment in
      it, for every segment that can be serialized at all. */
  lemma WireCarriesSegment(a: Adapter, seg: TcpSegment)
    requires 5 <= seg.header.doff <= 15 && 4 * seg.header.doff + |seg.payload| <= 0xffff
    ensures var d := a.Wrap(seg).value;
            && d.Sendable() && DatagramOf(d.Bytes().value) == Parsed(d.Sealed())
            && a.Content(d.Sealed()) == Parsed(Carried(a, seg))
  {
    var d := a.Wrap(seg).value;
    hide TcpBytes, TcpLayout, SegmentOf, DatagramOf, SegmentBytes;
    hide Ipv4Header.PseudoChecksum;
    WrapSerializesIff(a, seg);
    DatagramRoundTripIff(d, d.Bytes().value);
    SamePseudo(d);
    SegmentRoundTripIff(a.Addressed(seg), d.header.PseudoChecksum());
  }

  lemma SamePseudo(d: Datagram)
    requires d.Sendable()
    ensures d.Sealed().header.PseudoChecksum() == d.header.PseudoChecksum()
  {
  }

  // ---- The pseudo header ----

  /** What the TCP checksum covers besides the segment (section 3.1 of RFC 793): both addresses, a zero byte, the
      protocol and the length of the segment. */
  function PseudoHeader(h: Ipv4Header): seq<Byte> {
    Bytes(4, h.src) + Bytes(4, h.dst) + [0, h.proto] + Bytes(2, h.PayloadLength())
  }

  lemma WeightOfTwo(v: U16)
    ensures |Bytes(2, v)| == 2 && Weight(Bytes(2, v), false) == v
  {
    TwoBytes(v);
    var b := [v / 256, v % 256];
    assert b[..1] == [v / 256];
    assert b[..1][..0] == [];
  }

  lemma WeightOfFour(v: U32)
    ensures |Bytes(4, v)| == 4 && Weight(Bytes(4, v), false) == v / TWO16 + v % TWO16
  {
    var (hi, lo) := (Bytes(2, v / TWO16), Bytes(2, v % TWO16));
    FourBytes(v);
    WeightOfTwo(v / TWO16);
    WeightOfTwo(v % TWO16);
    WeightSplits(hi, lo, false);
  }

  lemma FourBytes(v: U32)
    ensures Bytes(4, v) == Bytes(2, v / TWO16) + Bytes(2, v % TWO16)
  {
    var w := v / TWO16;
    TwoBytes(w);
    TwoBytes(v % TWO16);
    assert v / 256 / 256 == w && v / 256 % 256 == v % TWO16 / 256 && v % 256 == v % TWO16 % 256;
    assert Bytes(4, v) == Bytes(3, v / 256) + [v % 256];
    assert Bytes(3, v / 256) == Bytes(2, w) + [v / 256 % 256];
  }

  lemma WeightOfPseudo(h: Ipv4Header)
    ensures |PseudoHeader(h)| == 12 && Weight(PseudoHeader(h), false) == h.PseudoChecksum()
  {
    hide Bytes, Weight;
    var (src, dst, len) := (Bytes(4, h.src), Bytes(4, h.dst), Bytes(2, h.PayloadLength()));
    WeightOfFour(h.src);
    WeightOfFour(h.dst);
    WeightOfTwo(h.PayloadLength());
    WeightOfTwo(h.proto);
    TwoBytes(h.proto);
    WeightSplits(src, dst, false);
    WeightSplits(src + dst, [0, h.proto], false);
    WeightSplits(src + dst + [0, h.proto], len, false);
  }

  /** Starting from the lower layer's share is the same as adding up the pseudo header first. */
  lemma PseudoChecksumCovers(h: Ipv4Header, b: seq<Byte>)
    ensures Checksum(h.PseudoChecksum(), b) == Checksum(0, PseudoHeader(h) + b)
  {
    hide PseudoHeader, Weight, Ipv4Header.PseudoChecksum, Fold;
    WeightOfPseudo(h);
    WeightSplits(PseudoHeader(h), b, false);
  }

  /** A segment that reaches another header is turned away if that differs in one byte of the pseudo header. */
  lemma OneByteOffIsRefused(a: Adapter, seg: TcpSegment, h: Ipv4Header, i: nat, y: Byte)
    requires 5 <= seg.header.doff && 4 * seg.header.doff + |seg.payload| <= 0xffff
    requires var p := PseudoHeader(a.Envelope(seg)); i < |p| && y != p[i] && PseudoHeader(h) == p[i := y]
    ensures a.Wrap(seg).Some? && a.Content(Datagram(h, a.Wrap(seg).value.payload)) == Failed(BadChecksum)
  {
    hide TcpBytes, TcpLayout, Checksum, PseudoHeader, Ipv4Header.PseudoChecksum;
    var e := a.Envelope(seg);
    var p, b := PseudoHeader(e), a.Wrap(seg).value.payload;
    SegmentChecks(a.Addressed(seg), e.PseudoChecksum());
    TcpLayoutOfBytes(Carried(a, seg).header, seg.payload);
    WeightOfPseudo(e);
    PseudoChecksumCovers(e, b);
    PseudoChecksumCovers(h, b);
    assert p + b == p[..i] + [p[i]] + (p[i + 1..] + b);
    assert p[i := y] + b == p[..i] + [y] + (p[i + 1..] + b);
    OneByteErrorDetected(0, p[..i], p[i], y, p[i + 1..] + b);
  }

  /** So a segment under a header with another protocol, or with an address that is wrong in one byte, never comes out. */
  lemma WrongHeaderIsRefused(a: Adapter, peer: Adapter, seg: TcpSegment, h: Ipv4Header, i: nat, y: Byte)
    requires 5 <= seg.header.doff && 4 * seg.header.doff + |seg.payload| <= 0xffff
    requires || (h == a.Envelope(seg).(proto := y) && y != PROTO_TCP)
             || (i < 4 && y != Bytes(4, a.source.address)[i] &&
                 h == a.Envelope(seg).(src := h.src) && Bytes(4, h.src) == Bytes(4, a.source.address)[i := y])
             || (i < 4 && y != Bytes(4, a.destination.address)[i] &&
                 h == a.Envelope(seg).(dst := h.dst) && Bytes(4, h.dst) == Bytes(4, a.destination.address)[i := y])
    ensures a.Wrap(seg).Some? && peer.Content(Datagram(h, a.Wrap(seg).value.payload)) == Failed(BadChecksum)
    ensures peer.Unwrap(Datagram(h, a.Wrap(seg).value.payload)) == (peer, None)
  {
    hide Bytes, SegmentOf, SegmentBytes, Ipv4Header.PseudoChecksum;
    var e := a.Envelope(seg);
    WeightOfFour(e.src);
    WeightOfFour(e.dst);
    WeightOfTwo(e.PayloadLength());
    var k := if h.proto != e.proto then 9 else if h.src != e.src then i else 4 + i;
    assert PseudoHeader(h) == PseudoHeader(e)[k := y];
    OneByteOffIsRefused(a, seg, h, k, y);
    SameContent(a, peer, Datagram(h, a.Wrap(seg).value.payload));
  }

  /** The datagram that arrives says whence it came, where it was to go, that it holds TCP, and how long it is, if that
      fits 16 bits. */
  lemma WireHeader(a: Adapter, seg: TcpSegment)
    requires 5 <= seg.header.doff <= 15 && 4 * seg.header.doff + |seg.payload| <= 0xffff
    ensures Received(a, seg).Parsed?
    ensures var h := Received(a, seg).value.header;
            && h.src == a.source.address && h.dst == a.destination.address && h.proto == 6
            && (20 + 4 * seg.header.doff + |seg.payload| <= 0xffff ==> h.len == 20 + 4 * seg.header.doff + |seg.payload|)
  {
    hide Adapter.Content, DatagramOf, TcpBytes, Ipv4Bytes, Checksum, Ipv4Header.PseudoChecksum, Adapter.Envelope, Datagram.Sealed;
    WireCarriesSegment(a, seg);
    SealedHeader(a.Wrap(seg).value);
    EnvelopeFields(a, seg);
  }

  lemma SealedHeader(d: Datagram)
    requires d.Sendable()
    ensures d.Sealed().header == d.header.(cksum := d.Sealed().header.cksum)
  {
    hide Checksum, Ipv4Bytes;
  }

  lemma EnvelopeFields(a: Adapter, seg: TcpSegment)
    ensures var h := a.Envelope(seg);
            && h.src == a.source.address && h.dst == a.destination.address && h.proto == 6
            && (20 + 4 * seg.header.doff + |seg.payload| <= 0xffff ==> h.len == 20 + 4 * seg.header.doff + |seg.payload|)
  {
  }

  /** Wire round trip. At the mirrored peer the segment comes out with the same header fields and the same
      payload; a listening peer takes it, and turns into the mirrored one, exactly when it opens a
      connection. */
  lemma WireRoundTrip(a: Adapter, peer: Adapter, seg: TcpSegment)
    requires 5 <= seg.header.doff <= 15 && 4 * seg.header.doff + |seg.payload| <= 0xffff
    ensures Carried(a, seg).payload == seg.payload
    ensures Carried(a, seg).header ==
            seg.header.(sport := a.source.port, dport := a.destination.port, cksum := Carried(a, seg).header.cksum)
    ensures a.Wrap(seg).Some? && a.Wrap(seg).value.Bytes().Some? && Received(a, seg).Parsed?
    ensures Mirrored(a, peer) ==> peer.Unwrap(Received(a, seg).value) == (peer, Some(Carried(a, seg)))
    ensures peer.listening && peer.source.port == a.destination.port ==>
              var (after, taken) := peer.Unwrap(Received(a, seg).value);
              if seg.header.syn && !seg.header.rst then taken == Some(Carried(a, seg)) && Mirrored(a, after)
              else taken == None && after == peer
  {
    hide Adapter.Content, DatagramOf;
    WireCarriesSegment(a, seg);
    SameContent(a, peer, Received(a, seg).value);
  }

  lemma SameContent(a: Adapter, peer: Adapter, d: Datagram)
    ensures a.Content(d) == peer.Content(d)
  {
  }

  /** Whatever datagram arrives, a segment comes out only if it checks and belongs to the connection as
      it stands afterwards; and a connection that has been set up never changes its ends. */
  lemma UnwrapFilters(a: Adapter, d: Datagram)
    ensures var (b, seg) := a.Unwrap(d);
            && (seg.Some? ==>
                  && !b.listening && a.Content(d) == Parsed(seg.value) && d.header.proto == PROTO_TCP
                  && b.source == Endpoint(d.header.dst, seg.value.header.dport)
                  && b.destination == Endpoint(d.header.src, seg.value.header.sport))
            && (seg.None? || !a.listening ==> b == a)
    ensures !a.listening && a.Content(d).Parsed? && d.header.proto == PROTO_TCP &&
            a.source == Endpoint(d.header.dst, a.Content(d).value.header.dport) &&
            a.destination == Endpoint(d.header.src, a.Content(d).value.header.sport) ==>
              a.Unwrap(d) == (a, Some(a.Content(d).value))
  {
    hide Adapter.Content;
  }

  class TcpOverIpv4Adapter {
    var source: Endpoint
    var destination: Endpoint
    var listening: bool

    function State(): Adapter
      reads this
    {
      Adapter(source, destination, listening)
    }

    constructor (source: Endpoint, destination: Endpoint, listening: bool)
      ensures State() == Adapter(source, destination, listening)
    {
      this.source, this.destination, this.listening := source, destination, listening;
    }

    /** `out` is the caller's segment afterwards. */
    method WrapTcpInIp(seg: TcpSegment) returns (out: TcpSegment, d: Option<Datagram>)
      ensures out == State().Addressed(seg) && d == State().Wrap(seg)
    {
      out := TcpSegment(seg.header.(sport := source.port, dport := destination.port), seg.payload);
      var h := DEFAULT_IPV4.(src := source.address, dst := destination.address);
      h := h.(len := (h.hlen * 4 + out.header.doff * 4 + |out.payload|) % TWO16);
      var bytes := SerializeSegment(out, h.PseudoChecksum());
      if bytes == None {
        return out, None;
      }
      d := Some(Datagram(h, bytes.value));
    }

    method UnwrapTcpInIp(d: Datagram) returns (r: Option<TcpSegment>)
      modifies this
      ensures (State(), r) == old(State()).Unwrap(d)
    {
      hide SegmentOf, Ipv4Header.PseudoChecksum;
      if !listening && d.header.dst != source.address {
        return None;
      }
      if !listening && d.header.src != destination.address {
        return None;
      }
      if d.header.proto != PROTO_TCP {
        return None;
      }
      var parsed := ParseSegment(d.payload, d.header.PseudoChecksum());
      if parsed.Failed? {
        return None;
      }
      var seg := parsed.value;
      if seg.header.dport != source.port {
        return None;
      }
      if listening {
        if seg.header.syn && !seg.header.rst {
          source := Endpoint(d.header.dst, source.port);
          destination := Endpoint(d.header.src, seg.header.sport);
          listening := false;
        } else {
          return None;
        }
      }
      if seg.header.sport != destination.port {
        return None;
      }
      r := Some(seg);
    }
  }
}
