/** TCP headers and segments (libsponge/tcp_helpers/tcp_header.hh, tcp_segment.hh). */
module Segments {
  import opened Machine
  import opened WrappingIntegers

  datatype TcpHeader = TcpHeader(
    sport: U16, dport: U16, seqno: U32, ackno: U32, doff: Byte,
    urg: bool, ack: bool, psh: bool, rst: bool, syn: bool, fin: bool,
    win: U16, cksum: U16, uptr: U16)

  datatype TcpSegment = TcpSegment(header: TcpHeader, payload: seq<Byte>) {
    /** The sequence numbers a segment occupies: SYN and FIN count for one each. */
    function Length(): nat {
      |payload| + BoolToNat(header.syn) + BoolToNat(header.fin)
    }
  }

  const DEFAULT_HEADER: TcpHeader :=
    TcpHeader(0, 0, 0, 0, 5, false, false, false, false, false, false, 0, 0, 0)

  const EMPTY_SEGMENT: TcpSegment := TcpSegment(DEFAULT_HEADER, [])

  /** What a sender has put on the wire so far: whether its SYN and its FIN went out, and the
      bytes of its stream that did. */
  datatype Sent = Sent(isn: U32, syn: bool, bytes: seq<Byte>, fin: bool) {
    /** The absolute number after the last one used. */
    function Next(): nat {
      BoolToNat(syn) + |bytes| + BoolToNat(fin)
    }

    /** A later state of the same sender. */
    ghost predicate GrowsTo(later: Sent) {
      && isn == later.isn
      && (syn ==> later.syn)
      && bytes <= later.bytes
      && (fin ==> later.fin && later.bytes == bytes)
    }
  }

  /** The segment, numbered `abs`, is a piece of what was sent. */
  ghost predicate Genuine(seg: TcpSegment, abs: nat, sent: Sent) {
    && seg.header.seqno == Wrap(abs, sent.isn)
    && if seg.header.syn then
         abs == 0 && seg.payload == [] && !seg.header.fin && sent.syn
       else if seg.Length() == 0 then
         abs <= sent.Next()
       else
         && sent.syn
         && 1 <= abs && abs - 1 + |seg.payload| <= |sent.bytes|
         && seg.payload == sent.bytes[abs - 1..abs - 1 + |seg.payload|]
         && (seg.header.fin ==> sent.fin && abs - 1 + |seg.payload| == |sent.bytes|)
  }

  lemma GenuineGrows(seg: TcpSegment, abs: nat, sent: Sent, later: Sent)
    requires Genuine(seg, abs, sent) && sent.GrowsTo(later)
    ensures Genuine(seg, abs, later)
  {
  }
}
