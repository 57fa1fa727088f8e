/** Flow control between two endpoints: when a sender stays within what its peer's receiver has room for. */
module Windows {
  import opened Machine
  import opened Segments
  import opened Receivers
  import opened Senders
  import opened Connections
  import opened ConnectionSteps
  import opened ConnectionEffects
  import opened SenderEffects
  import opened Protocol
  import opened Theorems

  /** The window that `x` works with lies within the right edge of `y`, apart from one number to probe a
      closed window with; and what is in flight lies within the window. */
  predicate Within(x: Connection, y: Connection) {
    && Fitted(x.sender)
    && x.sender.base + x.sender.window <= Max(y.receiver.RightEdge(), x.sender.base + 1)
  }

  /** Taking the acknowledgment in `p` neither takes back room that is in use nor opens the window further
      than `y` has room. */
  predicate Fair(x: Connection, y: Connection, p: Packet) {
    var base := Max(x.sender.base, p.ackAbs);
    x.sender.next <= base + Max(1, p.seg.header.win) <= Max(y.receiver.RightEdge(), base + 1)
  }

  /** The operation gets as far as the sender with an acknowledgment. */
  predicate TakesAck(c: Connection, op: Op) {
    op.Deliver? && Took(c, op.seg) && op.seg.header.ack
  }

  // ---------------------------------------------------------------------------------------
  // The peer's edge
  // ---------------------------------------------------------------------------------------

  /** No acknowledgment in `packets` promises more than `r` has room for. */
  ghost predicate Promised(packets: set<Packet>, r: Receiver) {
    forall p | p in packets && p.seg.header.ack :: r.syn && p.ackAbs + p.seg.header.win <= r.RightEdge()
  }

  lemma EdgeGrows(c: Connection, op: Op)
    requires Endpoint(c) && c.Wf() && Permitted(c, op)
    ensures c.receiver.RightEdge() <= Do(c, op).receiver.RightEdge()
    ensures c.receiver.syn ==> Do(c, op).receiver.syn
  {
    hide Endpoint, Connection.SegmentReceived, Connection.Tick, Connection.Write, Connection.EndInputStream, Connection.Connect,
         Connection.Destroy, Sender.AckReceived, Connection.Absorb, SStateOf, RStateOf, Receiver.SegmentReceived;
    match op {
      case Deliver(seg) =>
        DeliverHas(c, seg);
        AbsorbedReceiver(Clocked(c, op), seg);
        SegmentEdge(c.receiver, seg);
      case Read(n) =>
      case _ => OpQuiet(c, op);
    }
  }

  lemma SegmentEdge(r: Receiver, seg: TcpSegment)
    requires r.Valid()
    ensures r.RightEdge() <= r.SegmentReceived(seg).RightEdge()
    ensures r.syn ==> r.SegmentReceived(seg).syn
  {
    ReceivedValid(r, seg);
  }

  lemma PromisedStep(s: System, op: Op, p: Packet, s': System)
    requires Inv(s) && Moves(s, op, p, s') && Promised(s.fromA, s.a.receiver)
    ensures Promised(s'.fromA, s'.a.receiver)
  {
    hide Endpoint, Link, Do, SStateOf, Later, Posted, NoReset, Genuine, Timely, Permitted, Receiver.RightEdge;
    EdgeGrows(s.a, op);
    OpKeeps(s.a, op);
    var c := Do(s.a, op);
    assert c.out[|s.a.out|..] == c.out;
    forall q | q in s'.fromA && q.seg.header.ack
      ensures s'.a.receiver.syn && q.ackAbs + q.seg.header.win <= s'.a.receiver.RightEdge()
    {
      if q !in s.fromA {
        var i :| 0 <= i < |c.out| && c.out[i] == q;
        assert AckOk(c.out[i], c.receiver);
      }
    }
  }

  lemma {:induction false} PromisedRun(run: seq<System>, i: nat)
    requires IsRun(run) && i < |run|
    ensures Promised(run[i].fromA, run[i].a.receiver) && Promised(run[i].fromB, run[i].b.receiver)
  {
    hide Moves, Inv, Promised, Fresh;
    if i == 0 {
      PromisedNone(run[0].a.receiver);
      PromisedNone(run[0].b.receiver);
    } else {
      PromisedRun(run, i - 1);
      RunInv(run, i - 1);
      var s, s' := run[i - 1], run[i];
      if op, p :| Moves(s, op, p, s') {
        PromisedStep(s, op, p, s');
        MovesFrame(s, op, p, s');
      } else {
        var op, p :| Moves(s.Swap(), op, p, s'.Swap());
        SwapInv(s);
        PromisedStep(s.Swap(), op, p, s'.Swap());
        MovesFrame(s.Swap(), op, p, s'.Swap());
      }
    }
  }

  lemma PromisedNone(r: Receiver)
    ensures Promised({}, r)
  {
  }

  lemma MovesFrame(s: System, op: Op, p: Packet, s': System)
    requires Moves(s, op, p, s')
    ensures s'.b == s.b && s'.fromB == s.fromB
  {
    hide Do, Timely, Permitted;
  }

  /** In every reachable state the peer has room for everything that it has ever promised. */
  lemma PromisesAreKept(s: System)
    requires Reachable(s)
    ensures Promised(s.fromA, s.a.receiver) && Promised(s.fromB, s.b.receiver)
  {
    hide IsRun, Promised;
    var run: seq<System>, i :| IsRun(run) && 0 <= i < |run| && (s == run[i] || s == run[i].Swap());
    PromisedRun(run, i);
  }

  // ---------------------------------------------------------------------------------------
  // One move
  // ---------------------------------------------------------------------------------------

  /** The sender notes the acknowledgment as it was meant. */
  lemma NotedIs(x: Connection, y: Connection, nx: set<Packet>, ny: set<Packet>, p: Packet)
    requires Endpoint(x) && Endpoint(y) && Link(x, y, nx, ny) && x.sender.next < TWO64 - TWO32
    requires p in ny && p.seg.header.ack && Timely(x, p)
    ensures var s := Noted(x.sender, p.seg.header.ackno, p.seg.header.win);
            s.base == Max(x.sender.base, p.ackAbs) && s.window == Max(1, p.seg.header.win) && s.next == x.sender.next
  {
    hide AllFrom, FinsCover, FinTaken, Meek, OnTheWire, NoneReset, Recent, Receiver.Valid, Sender.Core, Sender.TimerOk, AllGenuine,
         GoodStanding, Receiver.Follows, PopAcked, Sender.Acked;
    EndpointValid(x);
    AckBounded(y.receiver, x.sender.Sent());
    CoreBounds(x.sender);
    AckedIs(x.sender, p);
  }

  /** A move of the sender's endpoint leaves it within the peer's edge exactly if an acknowledgment that it
      takes is fair. */
  lemma WithinStepIff(s: System, op: Op, p: Packet, s': System)
    requires Reachable(s) && Moves(s, op, p, s') && Within(s.a, s.b)
    ensures Within(s'.a, s'.b) <==> (TakesAck(s.a, op) ==> Fair(s.a, s.b, p))
  {
    hide Reachable, Endpoint, Link, Do, SStateOf, Noted, Sender.Late, Timely, Receiver.RightEdge;
    ReachableInv(s);
    OpGrew(s.a, op);
    if TakesAck(s.a, op) {
      NotedIs(s.a, s.b, s.fromA, s.fromB, p);
    }
  }

  /** A move of the peer always does. */
  lemma WithinPeerStep(s: System, op: Op, p: Packet, s': System)
    requires Reachable(s) && Moves(s.Swap(), op, p, s'.Swap()) && Within(s.a, s.b)
    ensures Within(s'.a, s'.b)
  {
    hide Reachable, Endpoint, Link, Do, Timely, Receiver.RightEdge, Fitted;
    ReachableInv(s);
    EdgeGrows(s.b, op);
  }

  /** An acknowledgment that is up to date is always fair. */
  lemma LatestIsFair(s: System, p: Packet)
    requires Reachable(s) && Within(s.a, s.b) && s.b.receiver.syn
    requires p.ackAbs == s.b.receiver.AbsAck() && p.ackAbs + p.seg.header.win == s.b.receiver.RightEdge()
    ensures Fair(s.a, s.b, p)
  {
    hide Reachable, Endpoint, AllFrom, FinsCover, FinTaken, Meek, OnTheWire, NoneReset, AcksTrue, Receiver.Follows;
    ReachableInv(s);
  }

  /** One that is not older than the base is fair exactly if it takes back no room that is in use. */
  lemma NewIsFairIff(s: System, p: Packet)
    requires Reachable(s) && p in s.fromB && p.seg.header.ack && s.a.sender.base <= p.ackAbs
    ensures Fair(s.a, s.b, p) <==> s.a.sender.next <= p.ackAbs + Max(1, p.seg.header.win)
  {
    hide Reachable, Receiver.RightEdge;
    PromisesAreKept(s);
  }

  // ---------------------------------------------------------------------------------------
  // Every run
  // ---------------------------------------------------------------------------------------

  predicate WithinUntil(run: seq<System>, n: nat)
    requires n < |run|
  {
    forall i | 0 <= i <= n :: Within(run[i].a, run[i].b)
  }

  predicate FairUntil(run: seq<System>, moves: seq<Move>, n: nat)
    requires n <= |moves| && n <= |run|
  {
    forall i | 0 <= i < n && moves[i].byA && TakesAck(run[i].a, moves[i].op) :: Fair(run[i].a, run[i].b, moves[i].p)
  }

  /** Over every history, a sender has stayed within its peer's right edge up to some moment exactly if every
      acknowledgment it took until then was fair. */
  lemma {:induction false} WithinIff(run: seq<System>, moves: seq<Move>, n: nat)
    requires IsHistory(run, moves) && n < |run|
    ensures WithinUntil(run, n) <==> FairUntil(run, moves, n)
  {
    hide Within, Fair, TakesAck, Makes, Init;
    if n == 0 {
      WithinAtFirst(run[0]);
    } else {
      WithinIff(run, moves, n - 1);
      HistoryReach(run, moves, n - 1);
      var s, m, s' := run[n - 1], moves[n - 1], run[n];
      if WithinUntil(run, n - 1) {
        assert Within(s.a, s.b);
        WithinMove(s, m, s');
      }
    }
  }

  lemma WithinMove(s: System, m: Move, s': System)
    requires Reachable(s) && Makes(s, m, s') && Within(s.a, s.b)
    ensures Within(s'.a, s'.b) <==> (m.byA && TakesAck(s.a, m.op) ==> Fair(s.a, s.b, m.p))
  {
    hide Within, Fair, TakesAck, Moves, Reachable;
    if m.byA {
      WithinStepIff(s, m.op, m.p, s');
    } else {
      WithinPeerStep(s, m.op, m.p, s');
    }
  }

  lemma WithinAtFirst(s: System)
    requires Init(s)
    ensures Within(s.a, s.b)
  {
  }

  // ---------------------------------------------------------------------------------------
  // What it is for
  // ---------------------------------------------------------------------------------------

  /** Within the edge, every packet ever sent fits the peer's window, unless it is the one number that probes
      a closed window. */
  lemma WithinFits(s: System, p: Packet)
    requires Reachable(s) && Within(s.a, s.b) && s.b.receiver.syn && p in s.fromA
    ensures s.a.sender.next <= Max(s.b.receiver.RightEdge(), s.a.sender.base + 1)
    ensures Fits(s.b.receiver, p) ||
            s.b.receiver.RightEdge() == s.b.receiver.AbsAck() == s.a.sender.base == s.a.sender.next - 1
  {
    hide Reachable, FinsCover, FinTaken, Meek, OnTheWire, NoneReset, AcksTrue, Receiver.Follows, AllGenuine, GoodStanding, Chain,
         AllSent, Reaches, Sender.TimerOk;
    ReachableInv(s);
    CoreBounds(s.a.sender);
    assert Genuine(p.seg, p.abs, s.a.sender.Sent());
  }
}
