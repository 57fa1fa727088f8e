/** The retransmission loop as a whole: timeout, delivery, and delivery of the answer. */
module Retransmissions {
  import opened Machine
  import opened Segments
  import opened Receivers
  import opened Senders
  import opened Connections
  import opened ConnectionSteps
  import opened ConnectionEffects
  import opened Protocol
  import opened Theorems

  /** Both senders' numbers stay clear of 2^64. */
  predicate Roomy(s: System) {
    s.a.sender.next < TWO64 - TWO32 && s.b.sender.next < TWO64 - TWO32
  }

  /** The oldest segment of `c` is overdue after `ms`, is no FIN, and has not been retransmitted too often. */
  predicate Overdue(c: Connection, ms: nat) {
    && c.sender.copies != [] && c.sender.base < c.sender.copies[0].End() && !c.sender.copies[0].seg.header.fin
    && c.sender.timer.total + ms >= c.sender.timer.rto && c.sender.Tick(ms).retx <= MAX_RETX_ATTEMPTS
  }

  /** Between active endpoints, in every reachable state with an overdue segment: the tick sends it again; if
      that packet is delivered in time and fits the peer's window, the peer answers; and if the answer is
      delivered in time, the segment is acknowledged. Each of the three is a move of the system. */
  lemma RetransmissionLoop(s: System, ms: nat) returns (p: Packet, s1: System, q: Packet, s2: System, s3: System)
    requires Reachable(s) && Roomy(s) && s.a.active && s.b.active && Overdue(s.a, ms)
    ensures var front := s.a.sender.copies[0];
            && Moves(s, Tick(ms), p, s1) && p in s1.fromA && Carries(p, front)
            && (Roomy(s1) && Timely(s1.b, p) && Fits(s1.b.receiver, p) ==>
                  && Moves(s1.Swap(), Deliver(p.seg), p, s2.Swap()) && q in s2.fromB
                  && (Roomy(s2) && Timely(s2.a, q) ==>
                        Moves(s2, Deliver(q.seg), q, s3) && s3.a.sender.base >= front.End()))
  {
    hide Reachable, Moves, Timely, Fits, Roomy, Sender.Tick;
    p, s1 := TimeoutMove(s, ms);
    q, s2, s3 := p, s1, s1;
    if Roomy(s1) && Timely(s1.b, p) && Fits(s1.b.receiver, p) {
      q, s2 := DeliveryMove(s1, p);
      if Roomy(s2) && Timely(s2.a, q) {
        s3 := AnswerMove(s2, q);
      }
    }
  }

  lemma TimeoutMove(s: System, ms: nat) returns (p: Packet, s1: System)
    requires Reachable(s) && Roomy(s) && s.a.active && Overdue(s.a, ms)
    ensures Moves(s, Tick(ms), p, s1) && Reachable(s1) && s1.b == s.b && s1.a.active
    ensures s1.a.sender.copies != [] && s1.a.sender.copies[0] == s.a.sender.copies[0]
    ensures p in s1.fromA && Carries(p, s.a.sender.copies[0]) && !p.seg.header.rst
  {
    hide Reachable, Link, Endpoint, Connection.Tick, Sender.Tick, Carries;
    ReachableInv(s);
    EndpointValid(s.a);
    TimeoutRetransmits(s, ms);
    var c := s.a.Tick(ms);
    var i :| 0 <= i < |c.out| && Carries(c.out[i], s.a.sender.copies[0]);
    p := c.out[i];
    s1 := Moved(s, Tick(ms));
    MovesReach(s, Tick(ms), p, s1);
    TickFront(s.a, ms);
  }

  /** A tick that does not give up keeps the oldest segment at the front, and the endpoint active. */
  lemma TickFront(c: Connection, ms: nat)
    requires Endpoint(c) && c.Wf() && c.active && Overdue(c, ms)
    ensures var c' := c.Tick(ms); c'.active && c'.sender.copies != [] && c'.sender.copies[0] == c.sender.copies[0]
  {
    hide Prepared, Connection.PushSegmentOut, RStateOf, SStateOf, Sender.Tick, Advances, Sender.Core, Sender.TimerOk, Emits,
         PacketsOk, Posted, NoReset, AllCarried, Later, GoodStanding;
    EndpointValid(c);
    var _ := TickAdvances(c.sender, ms);
    var d := c.(sinceLast := c.sinceLast + ms, sender := c.sender.Tick(ms));
    TickQueues(c, ms);
    PreparedWf(d);
    PushSender(d, false);
    PushKeeps(d, false);
    var added := FillWindowKeeps(d.sender);
    EmitsFrame(d.sender, d.sender.FillWindow(), added);
    StillOut(c.sender, d.PushSegmentOut(false));
  }

  /** With its oldest segment unacknowledged a sender is not done. */
  lemma StillOut(s: Sender, c': Connection)
    requires s.Core() && s.copies != [] && s.base < s.copies[0].End()
    requires Settled(c') && s.next <= c'.sender.next && c'.sender.base == s.base
    ensures c'.SState() != FinAcked
  {
    hide AllSent, Reaches, SStateOf;
    FrontWithin(s.copies, s.next);
    PreparedWf(c');
    SenderStateMeaning(c'.sender);
  }

  /** The peer takes the segment and answers it. */
  lemma DeliveryMove(s: System, p: Packet) returns (q: Packet, s': System)
    requires Reachable(s) && Roomy(s) && s.b.active && s.a.sender.copies != [] && !s.a.sender.copies[0].seg.header.fin
    requires p in s.fromA && Carries(p, s.a.sender.copies[0]) && !p.seg.header.rst && Timely(s.b, p) && Fits(s.b.receiver, p)
    ensures Moves(s.Swap(), Deliver(p.seg), p, s'.Swap()) && Reachable(s') && s'.a == s.a
    ensures q in s'.fromB && q.seg.header.ack && q.ackAbs >= s.a.sender.copies[0].End() && !q.seg.header.rst
  {
    hide Reachable, Link, Endpoint, Connection.SegmentReceived, Timely, Fits, SStateOf;
    ReachableInv(s);
    EndpointValid(s.b);
    PeerOpened(s, p);
    FrontIsAnswered(s, p);
    var c := s.b.SegmentReceived(p.seg);
    var i :| |s.b.out| <= i < |c.out| && c.out[i].seg.header.ack && c.out[i].ackAbs >= p.abs + p.seg.Length();
    q := c.out[i];
    DeliverPlain(s.b, p.seg);
    assert c.out[|s.b.out|..][i - |s.b.out|] == q;
    var t := Moved(s.Swap(), Deliver(p.seg));
    s' := t.Swap();
    SwapReach(s);
    MovesReach(s.Swap(), Deliver(p.seg), p, t);
    SwapReach(t);
  }

  lemma SwapReach(s: System)
    requires Reachable(s)
    ensures Reachable(s.Swap())
  {
    hide IsRun;
    var run: seq<System>, i :| IsRun(run) && 0 <= i < |run| && (s == run[i] || s == run[i].Swap());
    assert s.Swap() == run[i].Swap() || s.Swap() == run[i];
  }

  /** A packet with an acknowledgment comes from an endpoint that has seen the SYN of its peer. */
  lemma PeerOpened(s: System, p: Packet)
    requires Reachable(s) && p in s.fromA
    ensures p.seg.header.ack ==> s.b.SState() != Closed
  {
    hide Reachable, AllFrom, FinsCover, FinTaken, Meek, GoodStanding, SStateOf, OnTheWire, NoneReset;
    ReachableInv(s);
    EndpointValid(s.b);
    SenderStateMeaning(s.b.sender);
  }

  /** Nothing sent in answer to a segment that was taken carries a reset. */
  lemma DeliverPlain(c: Connection, seg: TcpSegment)
    requires Endpoint(c) && c.Wf() && Took(c, seg) && c.sender.next < TWO64 - TWO32
    ensures |c.out| <= |c.SegmentReceived(seg).out| && NoReset(c.SegmentReceived(seg).out[|c.out|..])
  {
    hide Prepared, Connection.Reply, SStateOf, RStateOf, Later, Receiver.SegmentReceived, Sender.AckReceived, Connection.Absorb,
         NoReset, GoodStanding, Connection.UncleanShutdown;
    AbsorbReadied(c, seg);
    ReplyPlain(c.(sinceLast := 0).Absorb(seg), seg);
  }

  lemma ReplyPlain(d: Connection, seg: TcpSegment)
    requires Prepared(d) && d.Wf() && !d.sendRst
    ensures |d.out| <= |d.Reply(seg).out| && NoReset(d.Reply(seg).out[|d.out|..])
  {
    hide Prepared, Connection.PushSegmentOut, SStateOf, RStateOf, Later, PacketsOk, Posted, AllCarried, NoReset, Sender.SendEmpty;
    EmptyPrepared(d);
    PushKeeps(d, true);
    PushKeeps(d, false);
    PushKeeps(d.(sender := d.sender.SendEmpty()), false);
  }

  /** The sender takes the answer. */
  lemma AnswerMove(s: System, q: Packet) returns (s': System)
    requires Reachable(s) && Roomy(s) && s.a.active && s.a.sender.copies != []
    requires q in s.fromB && q.seg.header.ack && !q.seg.header.rst && Timely(s.a, q)
    ensures Moves(s, Deliver(q.seg), q, s') && s'.a.sender.base == Max(s.a.sender.base, q.ackAbs)
  {
    hide Reachable, Link, Endpoint, Connection.SegmentReceived, Timely, SStateOf;
    ReachableInv(s);
    EndpointValid(s.a);
    SwapReach(s);
    PeerOpened(s.Swap(), q);
    AckMakesProgress(s, q);
    s' := Moved(s, Deliver(q.seg));
  }
}
