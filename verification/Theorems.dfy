/** What holds in every state that two endpoints can reach over an unreliable network. */
module Theorems {
  import opened Machine
  import opened Segments
  import opened Receivers
  import opened Senders
  import opened Connections
  import opened ConnectionSteps
  import opened ConnectionEffects
  import opened Protocol

  /** The bytes that have come out at `y` are a prefix of those written at `x`. The output has ended only if
      the input has and the FIN is out, and then nothing is missing that was written before the FIN; it is
      the whole stream exactly if nothing was accepted after the FIN. */
  ghost predicate Delivers(x: Connection, y: Connection) {
    && y.receiver.reasm.out.all <= x.sender.stream.all
    && (y.receiver.reasm.out.ended ==>
          && x.sender.stream.ended && x.sender.fin
          && x.sender.stream.taken <= |x.sender.stream.all|
          && y.receiver.reasm.out.all == x.sender.stream.all[..x.sender.stream.taken]
          && (y.receiver.reasm.out.all == x.sender.stream.all <==> !x.sender.Late()))
  }

  lemma LinkDelivers(x: Connection, y: Connection, nx: set<Packet>, ny: set<Packet>)
    requires Endpoint(x) && Link(x, y, nx, ny)
    ensures Delivers(x, y)
  {
    hide AllFrom, AcksTrue, FinsCover, FinTaken, Meek, Receiver.Valid, Chain, AllSent, Reaches, AllGenuine, GoodStanding;
    CoreBounds(x.sender);
  }

  /** End-to-end safety, in both directions, in every state of every run. */
  lemma EndToEndSafety(s: System)
    requires Reachable(s)
    ensures Delivers(s.a, s.b) && Delivers(s.b, s.a)
  {
    hide Reachable, Endpoint, Link, Delivers;
    ReachableInv(s);
    LinkDelivers(s.a, s.b, s.fromA, s.fromB);
    LinkDelivers(s.b, s.a, s.fromB, s.fromA);
  }

  /** What arrives never contradicts what is stored: the reassembler's precondition is met. */
  lemma ArrivalsAgree(s: System, p: Packet)
    requires Reachable(s) && p in s.fromB && Timely(s.a, p) && s.b.sender.next < TWO64 - TWO32
    ensures s.a.receiver.Accepts(p.seg)
  {
    hide Reachable, AcksTrue, FinsCover, FinTaken, Meek, Receiver.Follows, Receiver.Accepts, Genuine, Sender.Core, Sender.TimerOk,
         AllGenuine, GoodStanding, Receiver.Valid;
    ReachableInv(s);
    CoreBounds(s.b.sender);
    GenuineAccepted(s.a.receiver, p.seg, p.abs, s.b.sender.Sent());
  }

  // ---------------------------------------------------------------------------------------
  // Acknowledgment
  // ---------------------------------------------------------------------------------------

  /** The sender at `x` and the receiver at `y` agree on how far the stream has come: everything
      the peer has not acknowledged in order is still kept for retransmission. */
  ghost predicate Sandwich(x: Connection, y: Connection) {
    && x.sender.base <= Acknowledged(y.receiver) <= x.sender.next
    && forall n: nat | Acknowledged(y.receiver) <= n < x.sender.next :: Kept(x.sender.copies, n)
  }

  ghost predicate Kept(copies: seq<Slot>, n: nat) {
    exists i :: 0 <= i < |copies| && copies[i].abs <= n < copies[i].End()
  }

  lemma {:induction false} ChainCovers(copies: seq<Slot>, next: nat, n: nat)
    requires Chain(copies, next) && copies != [] && copies[0].abs <= n < next
    ensures Kept(copies, n)
    decreases |copies|
  {
    ChainTail(copies, next);
    if n < copies[0].End() {
      assert copies[0].abs <= n < copies[0].End();
    } else {
      ChainCovers(copies[1..], next, n);
      var i :| 0 <= i < |copies[1..]| && copies[1..][i].abs <= n < copies[1..][i].End();
      assert copies[i + 1] == copies[1..][i];
    }
  }

  lemma LinkSandwich(x: Connection, y: Connection, nx: set<Packet>, ny: set<Packet>)
    requires Endpoint(x) && Endpoint(y) && Link(x, y, nx, ny)
    ensures Sandwich(x, y)
  {
    hide AllFrom, AcksTrue, FinsCover, FinTaken, Meek, Receiver.Valid, Receiver.Follows, Chain, AllSent, AllGenuine, GoodStanding, Kept;
    if y.receiver.syn {
      AckBounded(y.receiver, x.sender.Sent());
    }
    forall n: nat | Acknowledged(y.receiver) <= n < x.sender.next
      ensures Kept(x.sender.copies, n)
    {
      ChainCovers(x.sender.copies, x.sender.next, n);
    }
  }

  lemma AckSandwich(s: System)
    requires Reachable(s)
    ensures Sandwich(s.a, s.b) && Sandwich(s.b, s.a)
  {
    hide Reachable, Endpoint, Link, Sandwich;
    ReachableInv(s);
    LinkSandwich(s.a, s.b, s.fromA, s.fromB);
    LinkSandwich(s.b, s.a, s.fromB, s.fromA);
  }

  /** The packet `p` carries the oldest unacknowledged segment. */
  predicate CarriesFront(s: Sender, p: Packet) {
    && s.copies != []
    && p.abs == s.copies[0].abs && p.seg.Length() == s.copies[0].seg.Length()
  }

  /** As long as anything is unacknowledged, a packet with the oldest unacknowledged segment is on the wire, without
      a reset as long as the sender is active. */
  lemma FrontIsOnTheWire(s: System) returns (p: Packet)
    requires Reachable(s) && s.a.sender.copies != []
    ensures p in s.fromA && CarriesFront(s.a.sender, p) && (s.a.active ==> !p.seg.header.rst)
  {
    hide Reachable, Endpoint, AllFrom, AcksTrue, FinsCover, FinTaken, Meek, Receiver.Follows;
    ReachableInv(s);
    assert s.a.sender.copies[0] in s.a.sender.copies;
    assert InSome(s.a.sender.copies[0], s.fromA);
    p :| p in s.fromA && Carries(p, s.a.sender.copies[0]);
  }

  /** And whenever the timer of an active endpoint runs out, another one is sent; without a reset, unless the
      endpoint has then retransmitted more than 8 times in a row. */
  lemma TimeoutRetransmits(s: System, ms: nat)
    requires Reachable(s) && s.a.Wf() && s.a.active && s.a.sender.copies != []
    requires s.a.sender.timer.total + ms >= s.a.sender.timer.rto
    ensures var c := s.a.Tick(ms);
            && Carried(s.a.sender.copies[0], c.out)
            && (s.a.sender.Tick(ms).retx <= MAX_RETX_ATTEMPTS ==> NoReset(c.out))
  {
    hide Reachable, Link, Endpoint, Carried, NoReset, Connection.Tick, Sender.Tick;
    ReachableInv(s);
    TickCarries(s.a, ms);
  }

  lemma TickCarries(c: Connection, ms: nat)
    requires Endpoint(c) && c.Wf() && c.active && c.sender.copies != [] && c.out == []
    requires c.sender.timer.total + ms >= c.sender.timer.rto
    ensures Carried(c.sender.copies[0], c.Tick(ms).out)
    ensures c.sender.Tick(ms).retx <= MAX_RETX_ATTEMPTS ==> NoReset(c.Tick(ms).out)
  {
    hide Prepared, Connection.PushSegmentOut, Connection.UncleanShutdown, SStateOf, RStateOf, Later, PacketsOk, Advances, Sender.Tick,
         Posted, GoodStanding, Backed, Carried, NoReset;
    var d := c.(sinceLast := c.sinceLast + ms, sender := c.sender.Tick(ms));
    TickQueues(c, ms);
    PreparedWf(d);
    if d.sender.retx > MAX_RETX_ATTEMPTS {
      UncleanCarries(d, c.sender.copies[0]);
    } else {
      PushKeeps(d, false);
      assert d.PushSegmentOut(false).out[|d.out|..] == d.PushSegmentOut(false).out;
    }
  }

  /** The reset after too many retransmissions goes out with the segment. */
  lemma UncleanCarries(d: Connection, slot: Slot)
    requires Prepared(d) && d.Wf() && d.sender.queue == [slot] && d.out == []
    ensures d.UncleanShutdown(true).Wf() && Carried(slot, d.UncleanShutdown(true).PushSegmentOut(false).out)
  {
    hide Prepared, Connection.PushSegmentOut, SStateOf, RStateOf, Later, PacketsOk, Posted, Backed, Carried, Receiver.Valid;
    UncleanWf(d, true);
    FailReadied(d);
    RstReadied(d, Fail(d));
    var e := Fail(d).(sendRst := true);
    PreparedWf(e);
    PushKeeps(e, false);
    var f := e.PushSegmentOut(false);
    assert f == d.UncleanShutdown(true) && f.out[|e.out|..] == f.out;
    assert slot in e.sender.queue;
    SettledPrepared(f);
    PushKeeps(f, false);
    CarriedGrows(slot, f.out, f.PushSegmentOut(false).out);
  }

  lemma SettledPrepared(c: Connection)
    requires Settled(c)
    ensures Prepared(c)
  {
  }

  lemma CarriedGrows(slot: Slot, packets: seq<Packet>, more: seq<Packet>)
    requires Carried(slot, packets) && packets <= more
    ensures Carried(slot, more)
  {
    hide Carries;
    var i :| 0 <= i < |packets| && Carries(packets[i], slot);
    assert Carries(more[i], slot);
  }

  /** The window at `r` has room for the payload of `p`. */
  predicate Fits(r: Receiver, p: Packet) {
    p.seg.header.syn || (r.syn && p.abs + |p.seg.payload| <= r.AbsAck() + r.WindowSize())
  }

  /** Delivering the oldest unacknowledged segment, if it fits the window, moves the peer's
      acknowledgment to its end. For a FIN this is so exactly when the peer had not taken a FIN
      before, or had already acknowledged it. */
  lemma FrontMakesProgress(s: System, p: Packet)
    requires Reachable(s) && s.b.Wf() && s.b.sender.next < TWO64 - TWO32 && s.a.sender.next < TWO64 - TWO32
    requires p in s.fromA && CarriesFront(s.a.sender, p) && Timely(s.b, p) && Took(s.b, p.seg) && Fits(s.b.receiver, p)
    ensures var r := s.b.receiver;
            var r' := s.b.SegmentReceived(p.seg).receiver;
            && (!p.seg.header.fin ==> Acknowledged(r') >= p.abs + p.seg.Length())
            && (p.seg.header.fin ==>
                  (Acknowledged(r') >= p.abs + p.seg.Length()
                   <==> !r.fin || Acknowledged(r) >= p.abs + p.seg.Length()))
  {
    hide Reachable, Connection.SegmentReceived, Sender.TimerOk, AllGenuine, GoodStanding, AcksTrue, FinsCover, FinTaken, Meek, Chain,
         Sender.AckReceived, Receiver.SegmentReceived, Connection.Absorb, Receiver.Valid, Receiver.Follows, Genuine, SStateOf, RStateOf;
    ReachableInv(s);
    DeliverHas(s.b, p.seg);
    ClockedAbsorbed(s.b, p.seg);
    CoreBounds(s.a.sender);
    FrontReceived(s.b.receiver, s.a.sender, p);
    AbsorbedReceiver(s.b, p.seg);
  }

  lemma AbsorbedReceiver(y: Connection, seg: TcpSegment)
    requires y.Wf()
    ensures y.Absorb(seg).receiver == y.receiver.SegmentReceived(seg)
  {
    hide Sender.AckReceived, Receiver.SegmentReceived;
  }

  lemma FrontReceived(r: Receiver, s: Sender, p: Packet)
    requires r.Valid() && s.stream.Valid() && r.Follows(s.Sent()) && |s.Sent().bytes| < TWO64 - TWO32
    requires s.copies != [] && s.copies[0].abs <= s.base <= Acknowledged(r)
    requires Genuine(p.seg, p.abs, s.Sent()) && 0 < p.seg.Length() && p.abs == s.copies[0].abs
    requires (p.seg.header.syn || Recent(r, p.abs)) && Fits(r, p)
    ensures var r' := r.SegmentReceived(p.seg);
            && (!p.seg.header.fin ==> Acknowledged(r') >= p.abs + p.seg.Length())
            && (p.seg.header.fin ==>
                  (Acknowledged(r') >= p.abs + p.seg.Length()
                   <==> !r.fin || Acknowledged(r) >= p.abs + p.seg.Length()))
  {
    ReceivedValid(r, p.seg);
    if !p.seg.header.syn {
      DeliveryProgress(r, p.seg, p.abs, s.Sent());
    }
    hide Receiver.Follows;
  }

  /** Some packet sent by the step from `c` to `c'` acknowledges everything below `n`. */
  ghost predicate Answers(c: Connection, c': Connection, n: nat) {
    exists i :: |c.out| <= i < |c'.out| && c'.out[i].seg.header.ack && c'.out[i].ackAbs >= n
  }

  /** The retransmission loop closes, first half: delivering the oldest unacknowledged segment, if it is no
      FIN and fits the window, makes the peer send an acknowledgment that covers it. */
  lemma FrontIsAnswered(s: System, p: Packet)
    requires Reachable(s) && s.b.Wf() && s.b.sender.next < TWO64 - TWO32 && s.a.sender.next < TWO64 - TWO32
    requires p in s.fromA && CarriesFront(s.a.sender, p) && Timely(s.b, p) && Took(s.b, p.seg) && Fits(s.b.receiver, p)
    requires !p.seg.header.fin
    ensures Answers(s.b, s.b.SegmentReceived(p.seg), p.abs + p.seg.Length())
  {
    hide Reachable, Connection.SegmentReceived, Sender.TimerOk, AllGenuine, GoodStanding, AcksTrue, FinsCover, FinTaken, Meek, Chain,
         Receiver.Valid, Receiver.Follows, Genuine, SStateOf, RStateOf, Later, AllFrom, Sender.Core;
    ReachableInv(s);
    FrontMakesProgress(s, p);
    FrontCounts(s.a.sender);
    AnswersData(s.b, p.seg);
    DeliverKeeps(s.b, p.seg);
    var c' := s.b.SegmentReceived(p.seg);
    var first := c'.out[|s.b.out|..][0];
    assert c'.out[|s.b.out|] == first;
  }

  lemma FrontCounts(s: Sender)
    requires s.Core() && s.copies != []
    ensures s.copies[0].seg.Length() > 0
  {
  }

  /** Second half: delivering a packet with an acknowledgment moves the base exactly as far as it says. */
  lemma AckMakesProgress(s: System, p: Packet)
    requires Reachable(s) && s.a.Wf() && s.a.sender.next < TWO64 - TWO32
    requires p in s.fromB && p.seg.header.ack && Timely(s.a, p) && Took(s.a, p.seg)
    ensures s.a.SegmentReceived(p.seg).sender.base == Max(s.a.sender.base, p.ackAbs)
  {
    hide Reachable, Connection.SegmentReceived, Connection.Absorb, AllGenuine, GoodStanding, FinsCover, FinTaken, Meek, Sender.Core,
         Receiver.Valid, Receiver.Follows, Genuine, SStateOf, RStateOf, Timely, AllFrom, Sender.TimerOk;
    ReachableInv(s);
    AckTaken(s.a, s.b, p);
    DeliverHas(s.a, p.seg);
    ClockedAbsorbed(s.a, p.seg);
  }

  // ---------------------------------------------------------------------------------------
  // Closing
  // ---------------------------------------------------------------------------------------

  /** An endpoint that gives up lingering and has its own FIN acknowledged leaves a peer that
      knows its whole stream, FIN included, to be received. */
  lemma LinkCloses(x: Connection, y: Connection, nx: set<Packet>, ny: set<Packet>)
    requires Endpoint(x) && Endpoint(y) && Link(x, y, nx, ny) && Link(y, x, ny, nx)
    requires !x.linger && !x.sender.Late() && FinDone(x.sender)
    ensures FinDone(y.sender)
  {
    hide AllFrom, AcksTrue, Meek, Chain, AllSent, Reaches, AllGenuine, GoodStanding, SStateOf, Sender.TimerOk, Genuine, OnTheWire;
    AckBounded(y.receiver, x.sender.Sent());
    assert y.receiver.reasm.out.ended;
    EndedAck(x.receiver, y.sender.Sent());
    var p :| p in nx && p.seg.header.fin && (p.seg.header.ack ==> p.ackAbs <= y.sender.base);
    assert p.ackAbs == x.receiver.AbsAck();
  }

  /** Closing without lingering is safe: when a move takes an endpoint out of service without failure and
      without lingering, the peer's FIN is acknowledged at the peer, and both streams have been delivered
      in full: all of ours, and of the peer's all that it wrote before its FIN. */
  lemma CloseWithoutLingering(s: System, op: Op, p: Packet, s': System)
    requires Reachable(s) && Moves(s, op, p, s')
    requires s.a.active && !s'.a.active && !Failed(s'.a) && !s'.a.linger
    ensures FinDone(s'.b.sender) && (s'.b.SState() == FinAcked <==> !s'.b.sender.Late())
    ensures s'.b.receiver.reasm.out.ended && s'.b.receiver.reasm.out.all == s'.a.sender.stream.all
    ensures s'.a.receiver.reasm.out.ended && s'.b.sender.stream.taken <= |s'.b.sender.stream.all|
    ensures s'.a.receiver.reasm.out.all == s'.b.sender.stream.all[..s'.b.sender.stream.taken]
  {
    hide Reachable, Link, Endpoint, SStateOf, RStateOf, Do, Permitted, Timely;
    ReachableInv(s);
    MovesReach(s, op, p, s');
    ReachableInv(s');
    ClosesIf(s.a, op);
    EndpointValid(s'.b);
    SenderStateMeaning(s'.b.sender);
    CloseIsSafe(s');
  }

  lemma CloseIsSafe(s: System)
    requires Reachable(s) && Inv(s) && !s.a.linger && !s.a.sender.Late() && FinDone(s.a.sender)
    ensures FinDone(s.b.sender)
    ensures s.b.receiver.reasm.out.ended && s.b.receiver.reasm.out.all == s.a.sender.stream.all
    ensures s.a.receiver.reasm.out.ended && s.b.sender.stream.taken <= |s.b.sender.stream.all|
    ensures s.a.receiver.reasm.out.all == s.b.sender.stream.all[..s.b.sender.stream.taken]
  {
    hide Reachable, Endpoint, AllFrom, AcksTrue, FinsCover, FinTaken, OnTheWire, Receiver.Follows, Meek;
    LinkCloses(s.a, s.b, s.fromA, s.fromB);
    EndToEndSafety(s);
    PeerEnded(s.a, s.b, s.fromA, s.fromB);
  }

  lemma MovesReach(s: System, op: Op, p: Packet, s': System)
    requires Reachable(s) && Moves(s, op, p, s')
    ensures Reachable(s')
  {
    hide Moves, Init;
    var run: seq<System>, i :| IsRun(run) && 0 <= i < |run| && (s == run[i] || s == run[i].Swap());
    var t' := if s == run[i] then s' else s'.Swap();
    assert Next(run[i], t') by {
      if s != run[i] {
        assert run[i].Swap() == s && t'.Swap() == s';
      }
    }
    var longer := run[..i + 1] + [t'];
    forall k | 0 < k < |longer| ensures Next(longer[k - 1], longer[k]) {
      hide Next;
      assert k <= i ==> longer[k - 1] == run[k - 1] && longer[k] == run[k];
    }
    assert IsRun(longer) && longer[i + 1] == t';
  }

  lemma PeerEnded(x: Connection, y: Connection, nx: set<Packet>, ny: set<Packet>)
    requires Endpoint(x) && Endpoint(y) && Link(x, y, nx, ny) && FinDone(x.sender)
    ensures y.receiver.reasm.out.ended
  {
    hide AllFrom, AcksTrue, Meek, Chain, AllSent, Reaches, AllGenuine, GoodStanding, SStateOf, Sender.TimerOk, FinTaken, FinsCover;
    AckBounded(y.receiver, x.sender.Sent());
  }
}
