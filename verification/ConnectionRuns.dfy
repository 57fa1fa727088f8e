/** Whole runs of one endpoint, against any peer at all: every segment it receives is arbitrary. */
module ConnectionRuns {
  import opened Machine
  import opened Segments
  import opened Receivers
  import opened Senders
  import opened Connections
  import opened ConnectionSteps
  import opened ConnectionEffects

  /** An endpoint with the clock that its owner ticks: the time now, when the last segment came in
      while it was active, and when both streams were first finished. */
  datatype Clock = Clock(c: Connection, now: nat, lastSegment: nat, finishedAt: Option<nat>)

  function Advance(k: Clock, op: Op): Clock
    requires k.c.Wf()
  {
    var c' := Do(k.c, op);
    var now' := k.now + if op.Tick? then op.ms else 0;
    Clock(c', now',
          if op.Deliver? && k.c.active then now' else k.lastSegment,
          if k.finishedAt.None? && Finished(c') then Some(now') else k.finishedAt)
  }

  ghost predicate IsRun(run: seq<Clock>, ops: seq<Op>) {
    && |run| == |ops| + 1
    && (exists rto, sendCap, recvCap, isn :: run[0] == Clock(NewConnection(rto, sendCap, recvCap, isn), 0, 0, None))
    && forall i | 0 <= i < |ops| ::
         run[i].c.Wf() && Permitted(run[i].c, ops[i]) && run[i + 1] == Advance(run[i], ops[i])
  }

  ghost predicate Inv(k: Clock) {
    && Endpoint(k.c)
    && k.lastSegment <= k.now
    && (k.c.active ==> k.c.sinceLast == k.now - k.lastSegment)
    && (Finished(k.c) <==> k.finishedAt.Some?)
    && (k.finishedAt.Some? ==> k.finishedAt.value <= k.lastSegment)
  }

  /** Only a segment can finish the streams. */
  lemma FinishedBySegment(s: Sender, s': Sender)
    requires s.Core() && s'.Core() && Later(s, s') && s'.base == s.base
    requires FinDone(s')
    ensures FinDone(s)
  {
    hide Chain, AllSent, Reaches;
  }

  lemma QuietFinished(c: Connection, op: Op)
    requires Endpoint(c) && c.Wf() && Permitted(c, op) && !op.Deliver?
    ensures var c' := Do(c, op);
            && (Finished(c') <==> Finished(c))
            && (c.active ==> c'.sinceLast == c.sinceLast + if op.Tick? then op.ms else 0)
  {
    hide Sender.Core, Sender.TimerOk, AllGenuine, SStateOf, Receiver.Valid, Later, PacketsOk;
    var c' := Do(c, op);
    OpKeeps(c, op);
    if op.Read? {
    } else {
      OpQuiet(c, op);
    }
    if Finished(c') {
      FinishedBySegment(c.sender, c'.sender);
    }
  }

  lemma DeliverFinished(c: Connection, seg: TcpSegment)
    requires Endpoint(c) && c.Wf() && Permitted(c, Deliver(seg))
    ensures var c' := c.SegmentReceived(seg);
            && (Finished(c) ==> Finished(c'))
            && (c.active ==> c'.sinceLast == 0)
            && (!c.active ==> c' == c)
  {
    hide Sender.Core, Sender.TimerOk, AllGenuine, SStateOf, Receiver.Valid, PacketsOk, Later, Receiver.SegmentReceived, Sender.AckReceived,
         Connection.SegmentReceived;
    var c' := c.SegmentReceived(seg);
    DeliverKeeps(c, seg);
    StepForward(c, c');
    DeliverHas(c, seg);
    ReceivedValid(c.receiver, seg);
    InactiveIgnores(c, seg);
  }

  lemma InactiveIgnores(c: Connection, seg: TcpSegment)
    requires c.Wf()
    ensures !c.active ==> c.SegmentReceived(seg) == c
  {
  }

  lemma AdvanceKeeps(k: Clock, op: Op)
    requires Inv(k) && k.c.Wf() && Permitted(k.c, op)
    ensures Inv(Advance(k, op))
  {
    hide Endpoint, Finished, Connection.SegmentReceived;
    OpKeeps(k.c, op);
    if op.Deliver? {
      DeliverFinished(k.c, op.seg);
    } else {
      QuietFinished(k.c, op);
    }
    StayInactive(k.c, op);
  }

  lemma StayInactive(c: Connection, op: Op)
    requires Endpoint(c) && c.Wf() && Permitted(c, op)
    ensures Do(c, op).active ==> c.active
  {
    hide Endpoint, PacketsOk, Later, Failed;
    OpKeeps(c, op);
  }

  lemma NewInv(rto: U16, sendCap: nat, recvCap: nat, isn: U32)
    ensures Inv(Clock(NewConnection(rto, sendCap, recvCap, isn), 0, 0, None))
  {
  }

  lemma {:induction false} RunInv(run: seq<Clock>, ops: seq<Op>, i: nat)
    requires IsRun(run, ops) && i < |run|
    ensures Inv(run[i])
  {
    hide Inv, Permitted, Advance;
    if i == 0 {
      var rto, sendCap, recvCap, isn :| run[0] == Clock(NewConnection(rto, sendCap, recvCap, isn), 0, 0, None);
      NewInv(rto, sendCap, recvCap, isn);
    } else {
      RunInv(run, ops, i - 1);
      AdvanceKeeps(run[i - 1], ops[i - 1]);
    }
  }

  /** In every run, an inactive endpoint has failed on both sides or has finished both streams; the
      count of consecutive retransmissions is at most nine; and the timeout, while the timer runs,
      is the configured one doubled that many times, at most 512 times the configured one. */
  lemma EveryStateIsSound(run: seq<Clock>, ops: seq<Op>, i: nat)
    requires IsRun(run, ops) && i < |run|
    ensures var c := run[i].c;
            && (c.active || Failed(c) || Finished(c))
            && (c.SState() == FinAcked <==> FinDone(c.sender) && !c.sender.Late())
            && c.sender.retx <= MAX_RETX_ATTEMPTS + 1 && (c.active ==> c.sender.retx <= MAX_RETX_ATTEMPTS)
            && (c.sender.timer.running <==> c.sender.copies != [])
            && (c.sender.timer.running ==> c.sender.timer.rto == c.rto * Pow2(c.sender.retx) <= 512 * c.rto)
  {
    hide IsRun, Sender.Core, SStateOf, RStateOf, AllGenuine, Receiver.Valid;
    RunInv(run, ops, i);
    var c := run[i].c;
    EndpointValid(c);
    SenderStateMeaning(c.sender);
    Pow2Nine(c.sender.retx);
    MulMono(c.rto, Pow2(c.sender.retx), 512);
  }

  lemma MulMono(a: nat, x: nat, y: nat)
    requires x <= y
    ensures a * x <= a * y
  {
  }

  lemma Pow2Nine(n: nat)
    requires n <= 9
    ensures Pow2(n) <= 512
  {
    hide Pow2;
    Pow2Values();
  }

  lemma Pow2Values()
    ensures Pow2(0) == 1 && Pow2(1) == 2 && Pow2(2) == 4 && Pow2(3) == 8 && Pow2(4) == 16
    ensures Pow2(5) == 32 && Pow2(6) == 64 && Pow2(7) == 128 && Pow2(8) == 256 && Pow2(9) == 512
  {
  }

  /** When a lingering endpoint closes cleanly, ten times the configured timeout has passed since
      both streams were finished, and since the last segment came in. */
  lemma LingersLongEnough(run: seq<Clock>, ops: seq<Op>, i: nat)
    requires IsRun(run, ops) && i < |ops|
    requires run[i].c.active && !run[i + 1].c.active && !Failed(run[i + 1].c) && run[i + 1].c.linger
    ensures var k := run[i + 1];
            && k.finishedAt.Some?
            && k.now - k.finishedAt.value >= 10 * k.c.rto
            && k.now - k.lastSegment >= 10 * k.c.rto
  {
    hide Endpoint, Finished, Failed, Permitted;
    RunInv(run, ops, i);
    RunInv(run, ops, i + 1);
    ClosingTime(run[i], ops[i]);
  }

  lemma ClosingTime(k: Clock, op: Op)
    requires Inv(k) && k.c.Wf() && Permitted(k.c, op)
    requires var k' := Advance(k, op); k.c.active && !k'.c.active && !Failed(k'.c) && k'.c.linger
    ensures var k' := Advance(k, op);
            Finished(k'.c) && k'.c.sinceLast >= 10 * k'.c.rto && k'.now - k'.lastSegment == k'.c.sinceLast
  {
    hide Endpoint, Finished, Failed, Receiver.SegmentReceived, Sender.AckReceived, Connection.SegmentReceived;
    if op.Deliver? {
      DeliverHas(k.c, op.seg);
    } else if !op.Read? {
      OpQuiet(k.c, op);
    }
  }

  /** Conversely, once both streams are finished and nothing is in flight, a tick takes the endpoint out of
      service exactly when it does not linger or the time is up, unless bytes were accepted after the FIN:
      then it never goes out of service by ticks. It does not fail by them either. */
  lemma TimeWaitEndsIff(c: Connection, ms: nat)
    requires Endpoint(c) && c.Wf() && c.active && Finished(c) && c.sender.copies == []
    ensures var c' := c.Tick(ms);
            && (c'.active <==> c.sender.Late() || (c.linger && c.sinceLast + ms < 10 * c.rto))
            && Finished(c') && (c'.linger <==> c.linger && !c.sender.Late())
            && c'.receiver == c.receiver && c'.sender.stream.error == c.sender.stream.error
  {
    hide Sender.Core, Sender.TimerOk, AllGenuine, SStateOf, RStateOf, Receiver.Valid, Later, PacketsOk, Connection.PushSegmentOut;
    var d := c.(sinceLast := c.sinceLast + ms, sender := c.sender.Tick(ms));
    IdleTick(c, ms);
    PushKeeps(d, false);
    PushQuiet(d, false);
    FinishedStays(d);
  }

  /** An endpoint whose FIN is out sends nothing more, late bytes included. */
  lemma FinishedStays(d: Connection)
    requires Prepared(d) && d.Wf() && FinDone(d.sender)
    ensures var c' := d.PushSegmentOut(false);
            c'.sender == d.sender.(queue := []) && (c'.SState() == FinAcked <==> !d.sender.Late())
            && (c'.SState() == SynAcked <==> d.sender.Late())
  {
    hide Chain, AllSent, Reaches, AllGenuine, Receiver.Valid, StampAll;
    SenderStateMeaning(d.sender);
  }

  lemma IdleTick(c: Connection, ms: nat)
    requires Endpoint(c) && c.Wf() && c.sender.copies == []
    ensures var d := c.(sinceLast := c.sinceLast + ms, sender := c.sender.Tick(ms));
            Prepared(d) && d.Wf() && d.sender == c.sender.(timer := d.sender.timer) && d.SState() == c.SState()
  {
    hide Chain, AllSent, Reaches, AllGenuine, Receiver.Valid;
  }

  /** Over every run the derived states are never unknown and agree with the documented summaries. The
      receiver's only moves forward, and the sender's does between two moments exactly unless it had reached
      FinSent and bytes have been accepted after the FIN. */
  lemma StatesMoveForward(run: seq<Clock>, ops: seq<Op>, i: nat, j: nat)
    requires IsRun(run, ops) && i <= j < |run|
    ensures var c, d := run[i].c, run[j].c;
            && c.SState() == SenderSummary(c.sender) && c.RState() == ReceiverSummary(c.receiver)
            && c.SState() != Unknown
            && (Rank(c.SState()) <= Rank(d.SState()) <==> !(d.sender.Late() && Rank(c.SState()) >= Rank(FinSent)))
            && ReceiverRank(c.RState()) <= ReceiverRank(d.RState())
  {
    hide IsRun, Endpoint, SStateOf, SenderSummary, ReceiverRank, Later, Sender.Core;
    RunInv(run, ops, i);
    RunInv(run, ops, j);
    EndpointValid(run[i].c);
    EndpointValid(run[j].c);
    SenderStateMeaning(run[i].c.sender);
    RunLater(run, ops, i, j);
    SenderStateForward(run[i].c.sender, run[j].c.sender);
  }

  lemma {:induction false} RunLater(run: seq<Clock>, ops: seq<Op>, i: nat, j: nat)
    requires IsRun(run, ops) && i <= j < |run|
    ensures Later(run[i].c.sender, run[j].c.sender) && ReceiverRank(run[i].c.RState()) <= ReceiverRank(run[j].c.RState())
    decreases j - i
  {
    hide Endpoint, Permitted, Do, SStateOf, ReceiverRank, PacketsOk, Posted, Later, NoReset;
    RunInv(run, ops, i);
    EndpointValid(run[i].c);
    if i < j {
      RunLater(run, ops, i + 1, j);
      OpKeeps(run[i].c, ops[i]);
      ReceiverForward(run[i].c, ops[i]);
      assert run[i + 1].c == Do(run[i].c, ops[i]);
      LaterTrans(run[i].c.sender, run[i + 1].c.sender, run[j].c.sender);
    } else {
      LaterSelf(run[i].c.sender);
    }
  }

  lemma LaterSelf(s: Sender)
    requires s.Core()
    ensures Later(s, s)
  {
    hide Chain, AllSent, Reaches;
  }

  function ReceiverRank(r: ReceiverState): nat {
    match r
    case Listening => 0
    case SynReceived => 1
    case FinRecv => 2
  }

  lemma ReceiverForward(c: Connection, op: Op)
    requires Endpoint(c) && c.Wf() && Permitted(c, op)
    ensures ReceiverRank(c.RState()) <= ReceiverRank(Do(c, op).RState())
  {
    hide Endpoint, SStateOf, Receiver.SegmentReceived, Sender.AckReceived, Connection.SegmentReceived;
    if op.Deliver? {
      DeliverHas(c, op.seg);
      ReceivedValid(c.receiver, op.seg);
    } else if !op.Read? {
      OpQuiet(c, op);
    }
  }
}
