/** The receiving half of a connection (libsponge/tcp_receiver.cc): what a segment does to it,
    the acknowledgment and the window it advertises. */
module Receivers {
  import opened Machine
  import opened WrappingIntegers
  import opened Segments
  import opened ByteStreams
  import opened Reassembly

  datatype Receiver = Receiver(reasm: Reassembler, isn: U32, syn: bool, fin: bool, recvBase: nat) {
    ghost predicate Valid() {
      && reasm.Valid()
      && reasm.eof == fin
      && (syn ==> recvBase == AbsAck())
      && (!syn ==> Untouched())
    }

    ghost predicate Untouched() {
      reasm.out.all == [] && reasm.pending == map[] && !reasm.out.ended && !fin
    }

    /** The first absolute sequence number not yet received in order. */
    function AbsAck(): nat {
      reasm.Written() + 1 + BoolToNat(reasm.out.ended)
    }

    function Ackno(): Option<U32> {
      if syn then Some(Wrap(AbsAck(), isn)) else None
    }

    function WindowSize(): int {
      reasm.out.cap - reasm.out.Buffered()
    }

    function SegmentReceived(seg: TcpSegment): Receiver
      requires Valid()
    {
      if seg.header.syn && syn then this
      else if seg.header.syn then
        var started := this.(syn := true, isn := seg.header.seqno, recvBase := 1);
        if seg.Length() == 1 then started else started.Data(seg, (seg.header.seqno + 1) % TWO32)
      else if !syn then this
      else Data(seg, seg.header.seqno)
    }

    /** Everything after the SYN was dealt with; `seqno` numbers the first payload byte. */
    function Data(seg: TcpSegment, seqno: U32): Receiver
      requires reasm.Valid()
    {
      var abs := Unwrap(seqno, isn, reasm.Written());
      if seg.header.fin then
        if fin then this else Keep(seg, abs)
      else if seg.Length() == 0 || OutsideWindow(seg, abs) then this
      else Keep(seg, abs)
    }

    predicate OutsideWindow(seg: TcpSegment, abs: nat) {
      abs >= recvBase + WindowSize() || abs + seg.Length() <= recvBase
    }

    function Keep(seg: TcpSegment, abs: nat): Receiver
      requires reasm.Valid()
    {
      var r := this.(reasm := reasm.Push(seg.payload, Sub64(abs, 1), seg.header.fin), fin := fin || seg.header.fin);
      r.(recvBase := r.AbsAck())
    }

    /** The payload, placed where it will be pushed, does not contradict bytes already stored. */
    predicate Accepts(seg: TcpSegment) {
      var start := if seg.header.syn && !syn then seg.header.seqno else isn;
      var seqno := if seg.header.syn then (seg.header.seqno + 1) % TWO32 else seg.header.seqno;
      reasm.Agrees(seg.payload, Sub64(Unwrap(seqno, start, reasm.Written()), 1))
    }

    function Read(n: nat): Receiver
      requires Valid()
    {
      this.(reasm := reasm.Read(n))
    }

    function SetError(): Receiver {
      this.(reasm := reasm.(out := reasm.out.SetError()))
    }

    /** The first number beyond what the last acknowledgment allows, with the 16-bit window field. */
    function RightEdge(): int {
      AbsAck() + Min(WindowSize(), TWO16 - 1)
    }

    /** Everything held comes from the peer that sent `sent`. */
    ghost predicate Follows(sent: Sent) {
      && (syn ==> sent.syn && isn == sent.isn)
      && reasm.Matches(sent.bytes)
      && (fin ==> sent.fin && reasm.posEof == |sent.bytes|)
      && (reasm.out.ended <==> fin && reasm.Written() == |sent.bytes|)
    }
  }

  function NewReceiver(cap: nat): (r: Receiver)
    ensures r.Valid()
  {
    Receiver(NewReassembler(cap), 0, false, false, 0)
  }

  lemma KeepValid(r: Receiver, seg: TcpSegment, abs: nat)
    requires r.syn && r.reasm.Valid() && r.reasm.eof == r.fin
    ensures var r' := r.Keep(seg, abs);
            && r'.Valid() && r'.syn && r'.isn == r.isn
            && r.reasm.out.all <= r'.reasm.out.all && (r.reasm.out.ended ==> r'.reasm.out.ended)
            && r'.reasm.Limit() == r.reasm.Limit()
            && r'.reasm.out == r.reasm.out.(all := r'.reasm.out.all, ended := r'.reasm.out.ended)
  {
    hide RunEnd, Run;
    PushValid(r.reasm, seg.payload, Sub64(abs, 1), seg.header.fin);
  }

  /** Whatever arrives, the receiver stays well formed and its output only grows. */
  lemma ReceivedValid(r: Receiver, seg: TcpSegment)
    requires r.Valid()
    ensures var r' := r.SegmentReceived(seg);
            && r'.Valid() && (r.syn ==> r'.syn && r'.isn == r.isn) && (seg.header.syn ==> r'.syn)
            && r.reasm.out.all <= r'.reasm.out.all && (r.reasm.out.ended ==> r'.reasm.out.ended)
            && r'.reasm.Limit() == r.reasm.Limit()
            && r'.reasm.out == r.reasm.out.(all := r'.reasm.out.all, ended := r'.reasm.out.ended)
            && (r.fin ==> r'.fin)
            && (r'.fin ==> r.fin || seg.header.fin)
  {
    hide Reassembler.Push;
    var started := r.(syn := true, isn := seg.header.seqno, recvBase := 1);
    if seg.header.syn && !r.syn {
      KeepValid(started, seg, Unwrap((seg.header.seqno + 1) % TWO32, started.isn, 0));
    } else if r.syn {
      KeepValid(r, seg, Unwrap(seg.header.seqno, r.isn, r.reasm.Written()));
    }
  }

  // ---------------------------------------------------------------------------------------
  // The advertised window
  // ---------------------------------------------------------------------------------------

  datatype Input = Incoming(seg: TcpSegment) | Reading(n: nat)

  function Step(r: Receiver, e: Input): (r': Receiver)
    requires r.Valid()
    ensures r'.Valid()
  {
    match e
    case Incoming(seg) => ReceivedValid(r, seg); r.SegmentReceived(seg)
    case Reading(n) => r.Read(n)
  }

  function After(r: Receiver, events: seq<Input>): (r': Receiver)
    requires r.Valid()
    ensures r'.Valid()
    decreases |events|
  {
    if events == [] then r else After(Step(r, events[0]), events[1..])
  }

  /** Over any mix of arrivals and reads the right edge never moves left. */
  lemma {:induction false} RightEdgeNeverShrinks(r: Receiver, events: seq<Input>)
    requires r.Valid() && r.syn
    ensures After(r, events).syn
    ensures r.AbsAck() <= After(r, events).AbsAck()
    ensures r.RightEdge() <= After(r, events).RightEdge()
    decreases |events|
  {
    hide Receiver.SegmentReceived, Receiver.Valid;
    if events != [] {
      StepEdge(r, events[0]);
      RightEdgeNeverShrinks(Step(r, events[0]), events[1..]);
    }
  }

  lemma StepEdge(r: Receiver, e: Input)
    requires r.Valid() && r.syn
    ensures Step(r, e).syn
    ensures r.AbsAck() <= Step(r, e).AbsAck()
    ensures r.RightEdge() <= Step(r, e).RightEdge()
  {
    hide Receiver.SegmentReceived;
    if e.Incoming? {
      ReceivedValid(r, e.seg);
    }
  }

  /** The ranges from `a` to `b` and from `c` to `d` have a position in common. */
  ghost predicate Meet(a: int, b: int, c: int, d: int) {
    exists p :: Between(a, p, b) && Between(c, p, d)
  }

  /** The window test turns away only data without a position in the window; while the window is open it
      turns away exactly that. The window is what the reassembler can use, moved up by one once
      the stream has ended. The first payload may come with the SYN. */
  lemma WindowTestIsTight(r: Receiver, seg: TcpSegment, abs: nat)
    requires r.Valid() && r.syn && !seg.header.fin && seg.payload != [] && 1 <= abs < TWO64
    requires seg.header.syn ==> abs == 1 && r.reasm.Written() == 0 && !r.reasm.out.ended
    ensures var e := BoolToNat(r.reasm.out.ended);
            var usable := Meet(abs - 1, abs - 1 + |seg.payload|, r.reasm.Written() + e, r.reasm.Limit() + e);
            && (r.OutsideWindow(seg, abs) ==> !usable)
            && (r.WindowSize() > 0 ==> (r.OutsideWindow(seg, abs) <==> !usable))
    ensures !r.reasm.out.ended ==> (r.OutsideWindow(seg, abs) ==> r.reasm.Offered(seg.payload, abs - 1) == map[])
    ensures !r.reasm.out.ended && r.WindowSize() > 0 ==>
              (r.OutsideWindow(seg, abs) <==> r.reasm.Offered(seg.payload, abs - 1) == map[])
  {
    var e := BoolToNat(r.reasm.out.ended);
    var offered := r.reasm.Offered(seg.payload, abs - 1);
    var lo := Max(abs - 1, r.reasm.Written() + e);
    var hi := Min(abs - 1 + |seg.payload|, r.reasm.Limit() + e);
    if r.OutsideWindow(seg, abs) {
      assert forall q: nat :: !Between(lo, q, hi);
    } else if r.WindowSize() > 0 {
      assert Between(lo, lo, hi);
      assert Between(abs - 1, lo, abs - 1 + |seg.payload|) && Between(r.reasm.Written() + e, lo, r.reasm.Limit() + e);
      assert !r.reasm.out.ended ==> lo in offered;
    }
  }

  /** What the test turns away would have left the reassembler as it was. */
  lemma DroppedWouldChangeNothing(r: Receiver, seg: TcpSegment, abs: nat, sent: Sent)
    requires r.Valid() && r.syn && r.Follows(sent) && r.reasm.Limit() < TWO64
    requires Genuine(seg, abs, sent) && !seg.header.syn && !seg.header.fin && seg.payload != []
    requires abs < TWO64 && r.OutsideWindow(seg, abs)
    ensures r.reasm.Push(seg.payload, abs - 1, false) == r.reasm
  {
    PushNothing(r.reasm, seg.payload, abs - 1);
  }

  // ---------------------------------------------------------------------------------------
  // Genuine segments
  // ---------------------------------------------------------------------------------------

  /** The lifetime assumption: the segment's number is within half the sequence space of what the
      receiver has assembled, so that unwrapping recovers it. */
  predicate Recent(r: Receiver, abs: nat) {
    && -TWO31 < abs - r.reasm.Written() < TWO31
    && abs < TWO64 && r.reasm.Written() < TWO64 - TWO32
  }

  lemma KeepFollows(r: Receiver, seg: TcpSegment, abs: nat, sent: Sent)
    requires r.Valid() && r.syn && r.Follows(sent) && |sent.bytes| < TWO64 - TWO32
    requires Genuine(seg, abs, sent) && !seg.header.syn && 0 < seg.Length() && abs < TWO64
    ensures r.Keep(seg, abs).Follows(sent)
    ensures r.reasm.Agrees(seg.payload, abs - 1)
  {
    hide Reassembler.Push, Reassembler.Agrees, Reassembler.Matches, Reassembler.Valid, Sub64;
    PushMatches(r.reasm, seg.payload, abs - 1, seg.header.fin, sent.bytes);
    PushValid(r.reasm, seg.payload, abs - 1, seg.header.fin);
    PushEnds(r.reasm, seg.payload, abs - 1, seg.header.fin);
    MatchesWithin(r.reasm.Push(seg.payload, abs - 1, seg.header.fin), sent.bytes);
  }

  /** What a push does to the end mark. */
  lemma PushEnds(r: Reassembler, data: seq<Byte>, index: nat, fin: bool)
    requires r.Valid() && index + |data| < TWO64
    ensures var r' := r.Push(data, index, fin);
            && r'.eof == (r.eof || fin) && r'.posEof == (if fin then index + |data| else r.posEof)
            && (r'.out.ended <==> r.out.ended || (r'.eof && r'.Written() == r'.posEof))
  {
    hide RunEnd, Run, Reassembler.Accept;
  }

  lemma MatchesWithin(r: Reassembler, s: seq<Byte>)
    requires r.Matches(s)
    ensures r.Written() <= |s|
  {
  }

  /** A genuine, recent segment keeps the receiver a follower of its peer. */
  lemma ReceivedFollows(r: Receiver, seg: TcpSegment, abs: nat, sent: Sent)
    requires r.Valid() && r.Follows(sent) && |sent.bytes| < TWO64 - TWO32
    requires Genuine(seg, abs, sent) && (seg.header.syn || Recent(r, abs))
    ensures r.SegmentReceived(seg).Follows(sent)
  {
    hide Reassembler.Push;
    if r.syn && !seg.header.syn {
      UnwrapWrap(abs, r.isn, r.reasm.Written());
      if seg.Length() > 0 {
        KeepFollows(r, seg, abs, sent);
      }
    }
  }

  /** Segments of one peer never contradict each other. */
  lemma GenuineAccepted(r: Receiver, seg: TcpSegment, abs: nat, sent: Sent)
    requires r.Valid() && r.Follows(sent) && |sent.bytes| < TWO64 - TWO32
    requires Genuine(seg, abs, sent) && (seg.header.syn || Recent(r, abs))
    ensures r.Accepts(seg)
  {
    hide Reassembler.Push;
    if r.syn && !seg.header.syn && seg.Length() > 0 {
      UnwrapWrap(abs, r.isn, r.reasm.Written());
      KeepFollows(r, seg, abs, sent);
    }
  }

  lemma FollowsGrows(r: Receiver, sent: Sent, later: Sent)
    requires r.Valid() && r.Follows(sent) && sent.GrowsTo(later)
    ensures r.Follows(later)
  {
  }

  lemma AckBounded(r: Receiver, sent: Sent)
    requires r.Valid() && r.syn && r.Follows(sent)
    ensures 1 <= r.AbsAck() <= sent.Next()
  {
  }

  /** Delivery of a segment that starts at or before the acknowledged point and fits the window
      moves that point to the segment's end -- for a FIN exactly when no FIN was taken before, or
      nothing was left to acknowledge. */
  lemma DeliveryProgress(r: Receiver, seg: TcpSegment, abs: nat, sent: Sent)
    requires r.Valid() && r.syn && r.Follows(sent) && |sent.bytes| < TWO64 - TWO32
    requires Genuine(seg, abs, sent) && !seg.header.syn && 0 < seg.Length() && Recent(r, abs)
    requires abs <= r.AbsAck() && abs + |seg.payload| <= r.AbsAck() + r.WindowSize()
    ensures !seg.header.fin ==> r.SegmentReceived(seg).AbsAck() >= abs + seg.Length()
    ensures seg.header.fin ==>
              (r.SegmentReceived(seg).AbsAck() >= abs + seg.Length()
               <==> !r.fin || r.AbsAck() >= abs + seg.Length())
  {
    hide Reassembler.Push;
    UnwrapWrap(abs, r.isn, r.reasm.Written());
    KeepFollows(r, seg, abs, sent);
    KeepValid(r, seg, abs);
    if !r.reasm.out.ended {
      PushProgress(r.reasm, seg.payload, abs - 1, seg.header.fin);
    }
    if seg.header.fin && !r.fin {
      AckBounded(r.Keep(seg, abs), sent);
    }
  }

  /** A FIN whose payload overran the window is taken once; its retransmission is refused even
      when the window has opened, and the acknowledged point never reaches its end. The history
      that leads there: SYN, FIN with two bytes for a window of one, the reader takes that byte. */
  lemma RefusedFinStalls(isn: U32, a: Byte, b: Byte)
    ensures var sent := Sent(isn, true, [a, b], true);
            var syn := TcpSegment(DEFAULT_HEADER.(seqno := isn, syn := true), []);
            var fin := TcpSegment(DEFAULT_HEADER.(seqno := Wrap(1, isn), fin := true), [a, b]);
            var r := Step(Step(Step(NewReceiver(1), Incoming(syn)), Incoming(fin)), Reading(1));
            && Genuine(syn, 0, sent) && Genuine(fin, 1, sent) && r.syn && r.Follows(sent) && Recent(r, 1)
            && 1 <= r.AbsAck() && 1 + |fin.payload| <= r.AbsAck() + r.WindowSize()
            && r.SegmentReceived(fin) == r && r.AbsAck() < 1 + fin.Length()
  {
    hide Reassembler.Push;
    var sent := Sent(isn, true, [a, b], true);
    var syn := TcpSegment(DEFAULT_HEADER.(seqno := isn, syn := true), []);
    var fin := TcpSegment(DEFAULT_HEADER.(seqno := Wrap(1, isn), fin := true), [a, b]);
    var r1 := Receiver(NewReassembler(1), isn, true, false, 1);
    assert Step(NewReceiver(1), Incoming(syn)) == r1;
    UnwrapWrap(1, isn, 0);
    FirstByteKept(a, b);
    var r2 := Step(r1, Incoming(fin));
    assert r2.reasm == Reassembler(Stream([a], 0, 1, false, false), map[], true, 2);
    assert sent.bytes[0..2] == [a, b] && [a] <= [a, b];
  }

  lemma FirstByteKept(a: Byte, b: Byte)
    ensures NewReassembler(1).Push([a, b], 0, true) == Reassembler(Stream([a], 0, 1, false, false), map[], true, 2)
  {
    var r := NewReassembler(1);
    var acc := r.Accept([a, b], 0);
    assert forall p: nat :: Between(0, p, 1) <==> p == 0;
    assert acc == map[0 := a];
    RunEndUnique(acc.Keys, 0, 1);
    assert Run(acc, 0, 1) == [a];
  }
}
