/** What an endpoint sends and when: exactly what a segment or a tick calls for. */
module Answers {
  import opened Machine
  import opened Segments
  import opened Receivers
  import opened Senders
  import SenderRuns
  import opened SenderTimers
  import opened Connections
  import opened ConnectionSteps
  import opened ConnectionEffects
  import opened ConnectionRuns
  import opened EndpointCalls

  /** What was sent after `before`. */
  function Since(c': Connection, before: seq<Packet>): seq<Packet> {
    if |before| <= |c'.out| then c'.out[|before|..] else []
  }

  /** Every packet carries something, and none of it was sent before. */
  predicate FirstTime(packets: seq<Packet>, next: nat) {
    forall i | 0 <= i < |packets| :: packets[i].abs >= next && packets[i].seg.Length() > 0
  }

  predicate AllAbove(slots: seq<Slot>, next: nat) {
    forall i | 0 <= i < |slots| :: slots[i].abs >= next && slots[i].seg.Length() > 0
  }

  lemma {:induction false} ChainRises(copies: seq<Slot>, next: nat, i: nat, j: nat)
    requires Chain(copies, next) && i <= j < |copies|
    ensures copies[i].abs <= copies[j].abs
    decreases j
  {
    if i < j {
      ChainRises(copies, next, i, j - 1);
      assert copies[j - 1].End() == Following(copies, j - 1, next);
    }
  }

  /** What a call of `fill_window` sends has not been sent before. */
  lemma FillAbove(s: Sender, n: nat)
    requires s.Core() && n <= s.next && AllAbove(s.queue, n)
    ensures s.stream.Valid() && AllAbove(s.FillWindow().queue, n)
  {
    hide AllSent, Reaches, Sender.FillWindow;
    var added := FillWindowKeeps(s);
    EmitsFrame(s, s.FillWindow(), added);
    forall i | 0 <= i < |added| ensures added[i].abs >= n && added[i].seg.Length() > 0 {
      AddedAbove(s, s.FillWindow(), added, i);
    }
  }

  lemma AddedAbove(s: Sender, s': Sender, added: seq<Slot>, i: nat)
    requires s'.Core() && Emits(s, s', added) && i < |added|
    ensures added[i].abs >= s.next && added[i].seg.Length() > 0
  {
    hide Reaches, Payloads, Genuine, Chain, Sender.Core;
    CoreChain(s');
    ChainRises(s'.copies, s'.next, |s.copies|, |s.copies| + i);
    assert s'.copies[|s.copies|] == added[0] && s'.copies[|s.copies| + i] == added[i];
  }

  lemma CoreChain(s: Sender)
    requires s.Core()
    ensures Chain(s.copies, s.next)
  {
    hide AllSent, Reaches, Chain;
  }

  lemma PushFirstTime(c: Connection, sendSyn: bool, n: nat)
    requires Prepared(c) && c.Wf() && n <= c.sender.next && AllAbove(c.sender.queue, n)
    ensures FirstTime(Since(c.PushSegmentOut(sendSyn), c.out), n)
  {
    hide Connection.PushSegmentOut, Sender.FillWindow, Sender.Core, Sender.TimerOk, AllGenuine, SStateOf, RStateOf, Receiver.Valid;
    FillAbove(c.sender, n);
    var queue := if sendSyn || c.SState() != Closed || c.RState() != Listening then c.sender.FillWindow().queue else c.sender.queue;
    PushSendsAll(c, sendSyn, queue);
    var c' := c.PushSegmentOut(sendSyn);
    forall i | 0 <= i < |Since(c', c.out)| ensures Since(c', c.out)[i].abs >= n && Since(c', c.out)[i].seg.Length() > 0 {
      assert Carries(c'.out[|c.out| + i], queue[i]);
    }
  }

  // ---------------------------------------------------------------------------------------
  // Segments
  // ---------------------------------------------------------------------------------------

  /** Nothing but new data, or one empty segment before it; the empty one only in answer to sequence numbers. */
  predicate Modest(packets: seq<Packet>, next: nat, seg: TcpSegment) {
    || FirstTime(packets, next)
    || (seg.Length() > 0 && packets != [] && packets[0].seg.Length() == 0 && packets[0].abs >= next && FirstTime(packets[1..], next))
  }

  lemma AckAbove(s: Sender, ackno: U32, win: U16)
    requires s.Valid() && s.stream.Valid() && s.queue == [] && s.next < TWO64 - TWO32
    ensures AllAbove(s.AckReceived(ackno, win).queue, s.next) && s.next <= s.AckReceived(ackno, win).next
  {
    hide Sender.Core, Sender.TimerOk, Sender.FillWindow, PopAcked, Sender.Acked;
    var _ := AckAdvances(s, ackno, win);
    var abs := s.Acked(ackno);
    if s.base < abs <= s.next {
      TakeAckKeeps(s, abs, win);
      FillAbove(TakeAck(s, abs, win), s.next);
    }
  }

  lemma ReplyModest(d: Connection, seg: TcpSegment, n: nat)
    requires Prepared(d) && d.Wf() && n <= d.sender.next && AllAbove(d.sender.queue, n)
    ensures Modest(Since(d.Reply(seg), d.out), n, seg)
  {
    hide Connection.PushSegmentOut, SStateOf, RStateOf, Sender.Core, Sender.TimerOk, AllGenuine, Receiver.Valid, FirstTime, Sender.SendEmpty;
    PushFirstTime(d, true, n);
    PushFirstTime(d, false, n);
    if seg.Length() > 0 && d.sender.queue == [] {
      EmptyModest(d, n);
    }
  }

  lemma EmptyModest(d: Connection, n: nat)
    requires Prepared(d) && d.Wf() && n <= d.sender.next && d.sender.queue == []
    ensures var e := d.(sender := d.sender.SendEmpty());
            && e.Wf()
            && var packets := Since(e.PushSegmentOut(false), d.out);
               packets != [] && packets[0].seg.Length() == 0 && packets[0].abs >= n && FirstTime(packets[1..], n)
  {
    hide Prepared, Connection.PushSegmentOut, Sender.FillWindow, SStateOf, RStateOf, Receiver.Valid, FirstTime;
    var e := d.(sender := d.sender.SendEmpty());
    EmptyPrepared(d);
    EmptyThenNew(e, n);
  }

  lemma EmptyThenNew(e: Connection, n: nat)
    requires Prepared(e) && e.Wf() && |e.sender.queue| == 1 && n <= e.sender.queue[0].abs && n <= e.sender.next
    requires e.sender.queue[0].seg.Length() == 0
    ensures var packets := Since(e.PushSegmentOut(false), e.out);
            packets != [] && packets[0].seg.Length() == 0 && packets[0].abs >= n && FirstTime(packets[1..], n)
  {
    hide Connection.PushSegmentOut, Sender.FillWindow, Sender.Core, Sender.TimerOk, AllGenuine, SStateOf, RStateOf, Receiver.Valid, Emits;
    var added := FillWindowKeeps(e.sender);
    EmitsFrame(e.sender, e.sender.FillWindow(), added);
    var queue := if e.SState() != Closed || e.RState() != Listening then e.sender.FillWindow().queue else e.sender.queue;
    PushSendsAll(e, false, queue);
    var e' := e.PushSegmentOut(false);
    var packets := Since(e', e.out);
    assert Carries(e'.out[|e.out|], queue[0]);
    forall i | 0 <= i < |packets[1..]| ensures packets[1..][i].abs >= n && packets[1..][i].seg.Length() > 0 {
      assert Carries(e'.out[|e.out| + i + 1], queue[i + 1]);
      AddedAbove(e.sender, e.sender.FillWindow(), added, i);
    }
  }

  /** What a segment makes an endpoint send. Out of service, or before any SYN of its own for an acknowledgment: nothing.
      A reset: nothing, and both streams fail. Anything else: new data as far as the window allows, and at most one
      empty segment, only in answer to a segment that uses sequence numbers. */
  lemma SegmentOutcome(c: Connection, seg: TcpSegment)
    requires Endpoint(c) && c.Wf() && c.sender.next < TWO64 - TWO32
    ensures var c' := c.SegmentReceived(seg);
            && c.out <= c'.out
            && (!c.active ==> c' == c)
            && (c.active && seg.header.ack && !c.sender.syn ==> c' == c.(sinceLast := 0))
            && (c.active && !(seg.header.ack && !c.sender.syn) && seg.header.rst ==>
                  !c'.active && c'.sender.stream.error && c'.receiver.reasm.out.error && c'.out == c.out)
            && (c.active && !(seg.header.ack && !c.sender.syn) && !seg.header.rst ==>
                  Modest(Since(c', c.out), c.sender.next, seg))
  {
    hide Endpoint, Connection.Reply, SStateOf, Sender.AckReceived, Receiver.SegmentReceived, Modest, Sender.Core, SenderSummary,
         PacketsOk, Posted, NoReset, Later;
    EndpointValid(c);
    SenderStateMeaning(c.sender);
    DeliverKeeps(c, seg);
    if c.active && !(seg.header.ack && !c.sender.syn) && !seg.header.rst {
      Absorbs(c, seg);
      QueueEmpty(c);
      var d := c.(sinceLast := 0).Absorb(seg);
      AckAbove(c.sender, seg.header.ackno, seg.header.win);
      ReplyModest(d, seg, c.sender.next);
    }
  }

  lemma QueueEmpty(c: Connection)
    requires Endpoint(c)
    ensures c.sender.queue == []
  {
    hide Prepared, GoodStanding;
  }

  // ---------------------------------------------------------------------------------------
  // Ticks
  // ---------------------------------------------------------------------------------------

  /** Some packet carries a number that was sent before. */
  ghost predicate Repeats(packets: seq<Packet>, next: nat) {
    exists i :: 0 <= i < |packets| && packets[i].abs < next
  }

  lemma QuietTickRepeatsNothing(c: Connection, ms: nat)
    requires Endpoint(c) && c.Wf() && c.active && (c.sender.copies == [] || c.sender.timer.total + ms < c.sender.timer.rto)
    ensures !Repeats(Since(c.Tick(ms), c.out), c.sender.next)
  {
    hide Prepared, Connection.PushSegmentOut, Connection.UncleanShutdown, GoodStanding, Later, Advances, Backed, Sender.Tick;
    SelfReadied(c);
    PreparedWf(c);
    ClockReadied(c, c, c.sinceLast + ms);
    var out := TickAdvances(c.sender, ms);
    var k := c.(sinceLast := c.sinceLast + ms);
    SenderReadied(c, k, c.sender.Tick(ms), out);
    var d := k.(sender := c.sender.Tick(ms));
    PreparedWf(d);
    QuietTick(c.sender, ms);
    PushFirstTime(d, false, c.sender.next);
  }

  lemma QuietTick(s: Sender, ms: nat)
    requires s.Valid() && (s.copies == [] || s.timer.total + ms < s.timer.rto)
    ensures s.Tick(ms).queue == s.queue && s.Tick(ms).retx == s.retx
  {
    hide Chain, AllSent, Reaches, Pow2;
  }

  lemma DueTickRepeats(c: Connection, ms: nat)
    requires Endpoint(c) && c.Wf() && c.active && c.sender.copies != [] && c.sender.timer.total + ms >= c.sender.timer.rto
    ensures Repeats(Since(c.Tick(ms), c.out), c.sender.next)
  {
    hide Prepared, Connection.PushSegmentOut, SStateOf, RStateOf, GoodStanding, Sender.Tick, Repeats, PacketsOk, Posted, NoReset, Later;
    EndpointValid(c);
    TickQueues(c, ms);
    FrontBelow(c.sender);
    var d := c.(sinceLast := c.sinceLast + ms, sender := c.sender.Tick(ms));
    PreparedWf(d);
    if d.sender.retx > MAX_RETX_ATTEMPTS {
      FailReadied(d);
      RstReadied(d, Fail(d));
      var e := Fail(d).(sendRst := true);
      PreparedWf(e);
      PushRepeats(e, c.sender.next);
      var f := e.PushSegmentOut(false);
      assert f == d.UncleanShutdown(true);
      PushKeeps(e, false);
      Unsettles(f);
      PushKeeps(f, false);
      RepeatsGrow(Since(f, c.out), Since(f.PushSegmentOut(false), c.out), c.sender.next);
    } else {
      PushRepeats(d, c.sender.next);
    }
  }

  lemma Unsettles(c: Connection)
    requires Settled(c)
    ensures Prepared(c) && c.Wf()
  {
    PreparedWf(c);
  }

  lemma FrontBelow(s: Sender)
    requires s.Core() && s.copies != []
    ensures s.copies[0].abs < s.next
  {
    hide Reaches;
    FrontWithin(s.copies, s.next);
  }

  lemma PushRepeats(c: Connection, next: nat)
    requires Prepared(c) && c.Wf() && c.sender.queue != [] && c.sender.queue[0].abs < next
    ensures Repeats(Since(c.PushSegmentOut(false), c.out), next)
  {
    hide Prepared, Connection.PushSegmentOut, SStateOf, RStateOf, Sender.FillWindow;
    var queue := if c.SState() != Closed || c.RState() != Listening then c.sender.FillWindow().queue else c.sender.queue;
    PushSendsAll(c, false, queue);
    var c' := c.PushSegmentOut(false);
    assert Carries(c'.out[|c.out|], queue[0]);
    assert Since(c', c.out)[0].abs < next;
  }

  lemma RepeatsGrow(packets: seq<Packet>, more: seq<Packet>, next: nat)
    requires Repeats(packets, next) && packets <= more
    ensures Repeats(more, next)
  {
    var i :| 0 <= i < |packets| && packets[i].abs < next;
    assert more[i].abs < next;
  }

  /** At any moment of any run of an endpoint in service, a tick sends something again if and only if something is
      outstanding and the ticks since the clock last started afresh, with this one, add up to the configured timeout
      doubled once per backoff. */
  lemma EndpointTimesOutIff(run: seq<Clock>, ops: seq<Op>, n: nat, rto: U16, sendCap: nat, recvCap: nat, isn: U32, ms: nat)
    requires IsRun(run, ops) && n < |run| && run[0].c == NewConnection(rto, sendCap, recvCap, isn)
    requires run[n].c.active && run[n].c.Wf()
    ensures var c := run[n].c;
            var w := Watched(NewSender(sendCap, rto, isn), AllCalls(run, ops, n), START);
            Repeats(Since(c.Tick(ms), c.out), c.sender.next) <==> c.sender.copies != [] && w.since + ms >= Due(rto, w)
  {
    hide Advance, Permitted, Endpoint, Repeats, Watched, AllCalls, Connection.Tick, Sender.Tick, Pow2, SenderRuns.Run, SenderRuns.Conserves,
         Sender.Core;
    RunInv(run, ops, n);
    var c := run[n].c;
    EndpointValid(c);
    var calls := AllCalls(run, ops, n);
    var log := EndpointIsSenderRun(run, ops, n, rto, sendCap, recvCap, isn);
    SenderRuns.NewSenderConserves(sendCap, rto, isn);
    RunInStep(NewSender(sendCap, rto, isn), calls, [], c.sender, log, START);
    if c.sender.copies != [] && c.sender.timer.total + ms >= c.sender.timer.rto {
      DueTickRepeats(c, ms);
    } else {
      QuietTickRepeatsNothing(c, ms);
    }
  }
}
