/** What a receiver holds, position by position: after one segment, and after every history of arrivals and reads. */
module ReceiverRuns {
  import opened Machine
  import opened WrappingIntegers
  import opened Segments
  import opened Reassembly
  import opened Receivers

  /** The position has been written to the output or waits for those before it. */
  predicate Holds(r: Receiver, p: nat) {
    p < r.reasm.Written() || p in r.reasm.pending
  }

  // ---------------------------------------------------------------------------------------
  // One segment, from anyone
  // ---------------------------------------------------------------------------------------

  /** The stream position of the first payload byte, as the receiver makes it out. */
  function Placed(r: Receiver, seg: TcpSegment): nat {
    var isn := if seg.header.syn then seg.header.seqno else r.isn;
    var seqno := if seg.header.syn then (seg.header.seqno + 1) % TWO32 else seg.header.seqno;
    Sub64(Unwrap(seqno, isn, r.reasm.Written()), 1)
  }

  /** A segment is taken by a receiver that has seen a SYN, or brings the first one itself; but not a second FIN. */
  predicate Takes(r: Receiver, seg: TcpSegment) {
    r.syn != seg.header.syn && !(seg.header.fin && r.fin)
  }

  /** Before the end of the stream, an arbitrary segment adds exactly the positions of its payload below the
      capacity, be they in order or not, and loses none. */
  lemma SegmentPositions(r: Receiver, seg: TcpSegment, p: nat)
    requires r.Valid() && !r.reasm.out.ended && r.reasm.Limit() < TWO64
    ensures Holds(r.SegmentReceived(seg), p) <==>
            || Holds(r, p)
            || (Takes(r, seg) && Placed(r, seg) <= p < Placed(r, seg) + |seg.payload| && p < r.reasm.Limit())
    ensures var r' := r.SegmentReceived(seg);
            && r'.syn == (r.syn || seg.header.syn)
            && r'.fin == (r.fin || (Takes(r, seg) && seg.header.fin))
  {
    hide Reassembler.Push, Unwrap;
    if Takes(r, seg) {
      var started := if seg.header.syn then r.(syn := true, isn := seg.header.seqno, recvBase := 1) else r;
      var seqno := if seg.header.syn then (seg.header.seqno + 1) % TWO32 else seg.header.seqno;
      assert r.SegmentReceived(seg) == if seg.header.syn && seg.Length() == 1 then started else started.Data(seg, seqno);
      DataPositions(started, seg, seqno, p);
    }
  }

  lemma DataPositions(r: Receiver, seg: TcpSegment, seqno: U32, p: nat)
    requires r.Valid() && r.syn && !r.reasm.out.ended && r.reasm.Limit() < TWO64 && !(seg.header.fin && r.fin)
    ensures var i := Sub64(Unwrap(seqno, r.isn, r.reasm.Written()), 1);
            Holds(r.Data(seg, seqno), p) <==> Holds(r, p) || (i <= p < i + |seg.payload| && p < r.reasm.Limit())
    ensures r.Data(seg, seqno).fin == (r.fin || seg.header.fin) && r.Data(seg, seqno).syn
  {
    hide Reassembler.Push, Unwrap, Sub64;
    var abs := Unwrap(seqno, r.isn, r.reasm.Written());
    PushedPositions(r.reasm, seg.payload, Sub64(abs, 1), seg.header.fin, p);
    UnwrapWraps(seqno, r.isn, r.reasm.Written());
    if r.OutsideWindow(seg, abs) || seg.Length() == 0 {
      PositionsOutside(r, seg, abs, p);
    }
  }

  lemma PushedPositions(r: Reassembler, data: seq<Byte>, index: nat, fin: bool, p: nat)
    requires r.Valid()
    ensures var r' := r.Push(data, index, fin);
            p < r'.Written() || p in r'.pending <==>
            p < r.Written() || p in r.pending || (index <= p < index + |data| && p < r.Limit())
  {
    hide Reassembler.Push, Reassembler.Accept, Reassembler.Valid;
    PushSplits(r, data, index, fin);
    AcceptAt(r, data, index, p);
  }

  /** What the window test turns away has no position to add. */
  lemma PositionsOutside(r: Receiver, seg: TcpSegment, abs: nat, p: nat)
    requires r.Valid() && r.syn && !r.reasm.out.ended && r.reasm.Limit() < TWO64 && abs < TWO64
    requires r.OutsideWindow(seg, abs) || seg.Length() == 0
    ensures var i := Sub64(abs, 1); i <= p < i + |seg.payload| && p < r.reasm.Limit() ==> Holds(r, p)
  {
  }

  // ---------------------------------------------------------------------------------------
  // One genuine segment
  // ---------------------------------------------------------------------------------------

  /** The positions that a genuine segment brings to a receiver with `limit` as its capacity. */
  function Brings(seg: TcpSegment, abs: nat, limit: nat): set<nat> {
    if seg.payload == [] || abs == 0 then {} else Interval(abs - 1, Min(abs - 1 + |seg.payload|, limit))
  }

  /** A genuine, recent segment is kept position by position: with it the receiver holds what it held and
      what the segment brings, and its output is the longest contiguous run of it. Only a FIN after a FIN, and
      whatever comes before the SYN, is turned away. */
  lemma GenuinePositions(r: Receiver, held: set<nat>, seg: TcpSegment, abs: nat, sent: Sent)
    requires r.Valid() && r.Follows(sent) && |sent.bytes| < TWO64 - TWO32 && HoldsPositions(r.reasm, held, sent.bytes, r.fin)
    requires Genuine(seg, abs, sent) && (seg.header.syn || Recent(r, abs))
    ensures var r' := r.SegmentReceived(seg);
            var held' := if r.syn && !(seg.header.fin && r.fin) then held + Brings(seg, abs, r.reasm.Limit()) else held;
            && r'.Valid() && r'.Follows(sent) && r'.syn == (r.syn || seg.header.syn)
            && r'.fin == (r.fin || (r.syn && seg.header.fin))
            && HoldsPositions(r'.reasm, held', sent.bytes, r'.fin)
  {
    hide Reassembler.Push, Genuine, Receiver.Follows, HoldsPositions, Recent, Interval, Reassembler.Valid, Unwrap;
    ReceivedValid(r, seg);
    ReceivedFollows(r, seg, abs, sent);
    if r.syn && !seg.header.syn && !(seg.header.fin && r.fin) && seg.Length() > 0 {
      KeptPositions(r, held, seg, abs, sent);
    } else {
      Ignored(r, seg, abs, sent);
      assert held + {} == held;
    }
  }

  lemma Ignored(r: Receiver, seg: TcpSegment, abs: nat, sent: Sent)
    requires r.Valid() && Genuine(seg, abs, sent)
    requires !(r.syn && !seg.header.syn && !(seg.header.fin && r.fin) && seg.Length() > 0)
    ensures var r' := r.SegmentReceived(seg);
            && r'.reasm == r.reasm && r'.fin == r.fin && r'.syn == (r.syn || seg.header.syn)
            && (r.syn && seg.header.fin ==> r.fin)
    ensures r.syn && !(seg.header.fin && r.fin) ==> seg.payload == []
  {
    hide Reassembler.Push, Unwrap;
  }

  lemma KeptPositions(r: Receiver, held: set<nat>, seg: TcpSegment, abs: nat, sent: Sent)
    requires r.Valid() && r.syn && r.Follows(sent) && |sent.bytes| < TWO64 - TWO32
    requires HoldsPositions(r.reasm, held, sent.bytes, r.fin)
    requires Genuine(seg, abs, sent) && !seg.header.syn && seg.Length() > 0 && !(seg.header.fin && r.fin) && Recent(r, abs)
    ensures var r' := r.SegmentReceived(seg);
            && r'.fin == (r.fin || seg.header.fin)
            && HoldsPositions(r'.reasm, held + Brings(seg, abs, r.reasm.Limit()), sent.bytes, r'.fin)
  {
    hide Reassembler.Push, HoldsPositions, Interval, Reassembler.Valid, Unwrap, Sub64;
    UnwrapWrap(abs, r.isn, r.reasm.Written());
    BringsInterval(seg, abs, r.reasm.Limit());
    if !seg.header.fin && r.OutsideWindow(seg, abs) {
      BringsNothing(r, held, seg, abs, sent);
    } else {
      ArriveHoldsPositions(r.reasm, held, sent.bytes, r.fin, Arrive(abs - 1, |seg.payload|, seg.header.fin));
    }
  }

  lemma BringsInterval(seg: TcpSegment, abs: nat, limit: nat)
    requires 1 <= abs
    ensures Brings(seg, abs, limit) == Interval(abs - 1, Min(abs - 1 + |seg.payload|, limit))
  {
  }

  lemma BringsNothing(r: Receiver, held: set<nat>, seg: TcpSegment, abs: nat, sent: Sent)
    requires r.Valid() && r.syn && r.Follows(sent) && HoldsPositions(r.reasm, held, sent.bytes, r.fin)
    requires 1 <= abs && abs - 1 + |seg.payload| <= |sent.bytes|
    requires !seg.header.syn && !seg.header.fin && r.OutsideWindow(seg, abs)
    ensures held + Brings(seg, abs, r.reasm.Limit()) == held
  {
    forall p | p in Brings(seg, abs, r.reasm.Limit()) ensures p in held {
      IntervalAt(abs - 1, Min(abs - 1 + |seg.payload|, r.reasm.Limit()), p);
    }
  }

  // ---------------------------------------------------------------------------------------
  // Every history of arrivals and reads
  // ---------------------------------------------------------------------------------------

  /** A segment, with the absolute number it was sent under, or a read. */
  datatype Event = Comes(seg: TcpSegment, abs: nat) | Reads(n: nat)

  function Live(cap: nat, events: seq<Event>): (r: Receiver)
    ensures r.Valid()
  {
    if events == [] then NewReceiver(cap)
    else
      var r := Live(cap, events[..|events| - 1]);
      match events[|events| - 1]
      case Comes(seg, abs) => Step(r, Incoming(seg))
      case Reads(n) => Step(r, Reading(n))
  }

  /** The segments all come from the peer that sent `sent`, none of them too late. */
  ghost predicate FromPeer(cap: nat, events: seq<Event>, sent: Sent) {
    events == [] ||
    var before, e := events[..|events| - 1], events[|events| - 1];
    && FromPeer(cap, before, sent)
    && (e.Comes? ==> Genuine(e.seg, e.abs, sent) && (e.seg.header.syn || Recent(Live(cap, before), e.abs)))
  }

  predicate SynCame(events: seq<Event>) {
    events != [] && (SynCame(events[..|events| - 1]) || (events[|events| - 1].Comes? && events[|events| - 1].seg.header.syn))
  }

  /** A FIN has come after the SYN. */
  predicate FinCame(events: seq<Event>) {
    events != [] &&
    var before, e := events[..|events| - 1], events[|events| - 1];
    FinCame(before) || (e.Comes? && e.seg.header.fin && SynCame(before))
  }

  /** The positions that have come after the SYN and inside the capacity, except with a further FIN. */
  function Came(cap: nat, events: seq<Event>): set<nat> {
    if events == [] then {}
    else
      var before, e := events[..|events| - 1], events[|events| - 1];
      if e.Comes? && SynCame(before) && !(e.seg.header.fin && FinCame(before))
      then Came(cap, before) + Brings(e.seg, e.abs, Live(cap, before).reasm.Limit())
      else Came(cap, before)
  }

  /** Whatever the order, the gaps and the repetitions: the output is the longest contiguous prefix of the positions
      that have come, the rest of them is pending with the right bytes, and the output has ended exactly if a FIN
      has come and everything before it. */
  lemma {:induction false} LiveHoldsPositions(cap: nat, events: seq<Event>, sent: Sent)
    requires FromPeer(cap, events, sent) && |sent.bytes| < TWO64 - TWO32
    ensures var r := Live(cap, events);
            && HoldsPositions(r.reasm, Came(cap, events), sent.bytes, FinCame(events))
            && r.syn == SynCame(events) && r.fin == FinCame(events) && r.Follows(sent)
  {
    hide HoldsPositions, Genuine, Recent, Receiver.SegmentReceived, Brings, Receiver.Follows, Receiver.Valid;
    if events == [] {
      NewHolds(cap, sent);
    } else {
      var before, e := events[..|events| - 1], events[|events| - 1];
      LiveHoldsPositions(cap, before, sent);
      var r := Live(cap, before);
      match e {
        case Comes(seg, abs) => GenuinePositions(r, Came(cap, before), seg, abs, sent);
        case Reads(n) => ReadHolds(r, Came(cap, before), n, sent);
      }
    }
  }

  lemma NewHolds(cap: nat, sent: Sent)
    ensures var r := NewReceiver(cap);
            HoldsPositions(r.reasm, {}, sent.bytes, false) && !r.syn && !r.fin && r.Follows(sent)
  {
  }

  lemma ReadHolds(r: Receiver, held: set<nat>, n: nat, sent: Sent)
    requires r.Valid() && r.Follows(sent) && HoldsPositions(r.reasm, held, sent.bytes, r.fin)
    ensures var r' := r.Read(n);
            HoldsPositions(r'.reasm, held, sent.bytes, r.fin) && r'.syn == r.syn && r'.fin == r.fin && r'.Follows(sent)
  {
    TakeHoldsPositions(r.reasm, held, sent.bytes, r.fin, n);
  }

  /** The acknowledgment is the number after the first position that has not come, and one more after the end. */
  lemma AcknowledgesWhatCame(cap: nat, events: seq<Event>, sent: Sent)
    requires FromPeer(cap, events, sent) && |sent.bytes| < TWO64 - TWO32 && SynCame(events)
    ensures var n := Live(cap, events).AbsAck() - 1 - BoolToNat(Live(cap, events).reasm.out.ended);
            && 0 <= n && n !in Came(cap, events) && (forall p: nat | p < n :: p in Came(cap, events))
            && Live(cap, events).Ackno() == Some(Wrap(Live(cap, events).AbsAck(), sent.isn))
            && (Live(cap, events).reasm.out.ended <==> FinCame(events) && n == |sent.bytes|)
  {
    LiveHoldsPositions(cap, events, sent);
  }
}
