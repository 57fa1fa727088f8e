/** Which half of an endpoint an operation touches, and what that means for closing. */
module ConnectionEffects {
  import opened Machine
  import opened Segments
  import opened ByteStreams
  import opened Receivers
  import opened Senders
  import opened Connections
  import opened ConnectionSteps

  /** Before the first acknowledgment no more than the SYN is out. */
  predicate Meek(s: Sender) {
    s.base == 0 ==> s.window == 1 && s.next <= 1
  }

  lemma FillMeek(s: Sender)
    requires s.Valid() && s.stream.Valid() && Meek(s)
    ensures Meek(s.FillWindow())
  {
    hide Chain, AllSent, Reaches, Sender.FillWindow, Emits, Sender.TimerOk;
    var added := FillWindowKeeps(s);
    EmitsFrame(s, s.FillWindow(), added);
    if s.base == 0 {
      FillWindowStaysInside(s);
    }
  }

  lemma AckMeek(s: Sender, ackno: U32, win: U16)
    requires s.Valid() && s.stream.Valid() && s.next < TWO64 - TWO32 && Meek(s) && 1 <= s.Acked(ackno)
    ensures Meek(s.AckReceived(ackno, win))
  {
    hide Sender.FillWindow, PopAcked, Sender.Core, Sender.TimerOk, Advances;
    var _ := AckAdvances(s, ackno, win);
  }

  /** Both streams are finished: the state that RFC 793 calls TIME-WAIT, if the endpoint lingers. */
  predicate Finished(c: Connection) {
    c.RState() == FinRecv && FinDone(c.sender)
  }

  /** The endpoint with its clock advanced as `op` does first. */
  function Clocked(c: Connection, op: Op): Connection {
    if !c.active then c
    else match op
      case Deliver(_) => c.(sinceLast := 0)
      case Tick(ms) => c.(sinceLast := c.sinceLast + ms)
      case _ => c
  }

  /** The part of a step that `push_segment_out` and a failure leave alone, and why a step may
      leave the endpoint inactive. */
  ghost predicate Quiet(d: Connection, c': Connection) {
    && c'.rto == d.rto && c'.sinceLast == d.sinceLast
    && (Failed(d) ==> Failed(c')) && (Finished(d) ==> Finished(c'))
    && (d.active && !c'.active ==>
          Failed(c') || (Finished(c') && !c'.sender.Late() && (!c'.linger || c'.sinceLast >= 10 * c'.rto)))
    && SameButError(d.receiver, c'.receiver)
    && c'.sender.base == d.sender.base
    && (d.sender.fin ==> c'.sender.fin) && (d.sender.Late() ==> c'.sender.Late())
    && (Meek(d.sender) ==> Meek(c'.sender))
    && (c'.linger ==> d.linger)
    && (d.linger && !c'.linger && Meek(d.sender) && !c'.sender.Late() ==> d.receiver.reasm.out.ended && !d.sender.fin)
  }

  lemma QuietTrans(c: Connection, d: Connection, e: Connection)
    requires Quiet(c, d) && Quiet(d, e) && (c.active && !d.active ==> Failed(d))
    ensures Quiet(c, e)
  {
    hide SStateOf, RStateOf;
  }

  lemma MeekUnfinished(s: Sender)
    requires s.Core() && Meek(s)
    ensures Rank(SStateOf(s)) < Rank(FinSent) && !s.Late() ==> !s.fin
  {
    hide Chain, AllSent, Reaches, SStateOf;
    SenderStateMeaning(s);
  }

  lemma PushQuiet(c: Connection, sendSyn: bool)
    requires Prepared(c) && c.Wf()
    ensures Quiet(c, c.PushSegmentOut(sendSyn))
  {
    hide Sender.Core, Sender.TimerOk, AllGenuine, Receiver.Valid, Sender.FillWindow, PacketsOk, SStateOf, StampAll, Posted, AllCarried,
         NoReset, SenderSummary;
    PushKeeps(c, sendSyn);
    var c' := c.PushSegmentOut(sendSyn);
    LaterGrows(c.sender, c'.sender);
    SenderStateMeaning(c'.sender);
    LateStays(c.sender, c'.sender);
    if Meek(c.sender) {
      FillMeek(c.sender);
      MeekUnfinished(c'.sender);
    }
  }

  lemma UncleanQuiet(c: Connection, rst: bool)
    requires Prepared(c) && c.Wf()
    ensures Quiet(c, c.UncleanShutdown(rst))
  {
    hide Prepared, Connection.PushSegmentOut, Quiet, Sender.SendEmpty;
    FailReadied(c);
    var d := Fail(c);
    FailQuiet(c);
    if rst {
      var e := d.(sendRst := true);
      RstReadied(c, d);
      RstQuiet(d);
      QuietTrans(c, d, e);
      if c.sender.queue == [] {
        EmptyReadied(c, e);
        EmptyQuiet(e);
        QuietTrans(c, e, e.(sender := e.sender.SendEmpty()));
        e := e.(sender := e.sender.SendEmpty());
      }
      PreparedWf(e);
      PushQuiet(e, false);
      QuietTrans(c, e, e.PushSegmentOut(false));
    }
  }

  lemma FailQuiet(c: Connection)
    ensures Quiet(c, Fail(c))
  {
  }

  lemma RstQuiet(c: Connection)
    ensures Quiet(c, c.(sendRst := true))
  {
  }

  lemma EmptyQuiet(c: Connection)
    ensures Quiet(c, c.(sender := c.sender.SendEmpty()))
  {
    EmptyFrame(c.sender);
  }

  lemma ReplyQuiet(c: Connection, seg: TcpSegment)
    requires Prepared(c) && c.Wf()
    ensures Quiet(c, c.Reply(seg))
  {
    hide Prepared, Connection.PushSegmentOut, Quiet, Sender.SendEmpty;
    PushQuiet(c, true);
    PushQuiet(c, false);
    var d := c.(sender := c.sender.SendEmpty());
    EmptyQuiet(c);
    SelfReadied(c);
    EmptyReadied(c, c);
    PreparedWf(d);
    PushQuiet(d, false);
    QuietTrans(c, d, d.PushSegmentOut(false));
  }

  lemma SelfReadied(c: Connection)
    requires Prepared(c)
    ensures Readied(c, c)
  {
    hide Chain, AllSent, Reaches, AllGenuine, Receiver.Valid;
  }

  /** The effect of a segment: the receiver takes it and the sender takes its acknowledgment, or
      neither does. */
  lemma DeliverHas(c: Connection, seg: TcpSegment)
    requires Endpoint(c) && c.Wf() && c.sender.next < TWO64 - TWO32
    ensures var d := Clocked(c, Deliver(seg));
            Quiet(if Took(c, seg) then d.Absorb(seg) else d, c.SegmentReceived(seg))
  {
    hide Prepared, Connection.Reply, Connection.UncleanShutdown, Quiet, SStateOf, RStateOf, Receiver.Valid, GoodStanding,
         Receiver.SegmentReceived, Sender.AckReceived;
    var d := Clocked(c, Deliver(seg));
    SelfQuiet(d);
    SelfReadied(c);
    ClockReadied(c, c, 0);
    if Took(c, seg) {
      AbsorbReadied(c, seg);
      ReplyQuiet(d.Absorb(seg), seg);
    } else if c.active && seg.header.rst && !(seg.header.ack && c.SState() == Closed) {
      UncleanQuiet(d, false);
    }
  }

  /** A segment that uses sequence numbers is always answered, once a SYN has been seen. */
  lemma AnswersData(c: Connection, seg: TcpSegment)
    requires Endpoint(c) && c.Wf() && c.sender.next < TWO64 - TWO32
    requires Took(c, seg) && seg.Length() > 0 && (c.receiver.syn || seg.header.syn)
    ensures |c.SegmentReceived(seg).out| > |c.out|
  {
    hide Prepared, Connection.PushSegmentOut, SStateOf, Receiver.SegmentReceived, Sender.AckReceived, Connection.Absorb,
         Connection.UncleanShutdown, GoodStanding, Later, PacketsOk;
    AbsorbReadied(c, seg);
    var d := c.(sinceLast := 0).Absorb(seg);
    AbsorbsSyn(c, seg);
    ReplyAnswers(d, seg);
  }

  lemma AbsorbsSyn(c: Connection, seg: TcpSegment)
    requires c.Wf() && (c.receiver.syn || seg.header.syn)
    ensures c.(sinceLast := 0).Absorb(seg).receiver.syn && c.(sinceLast := 0).Absorb(seg).out == c.out
  {
    hide Sender.AckReceived, Receiver.SegmentReceived;
    ReceivedValid(c.receiver, seg);
  }

  lemma ReplyAnswers(d: Connection, seg: TcpSegment)
    requires Prepared(d) && d.Wf() && d.receiver.syn && seg.Length() > 0
    ensures |d.Reply(seg).out| > |d.out|
  {
    hide Prepared, Connection.PushSegmentOut, SStateOf, Sender.SendEmpty, Sender.FillWindow;
    if d.sender.queue != [] {
      PushSendsAll(d, false, d.sender.FillWindow().queue);
    } else if seg.header.syn && !seg.header.ack && d.SState() == Closed {
      FirstSyn(d);
      PushSendsAll(d, false, d.sender.FillWindow().queue);
    } else {
      var e := d.(sender := d.sender.SendEmpty());
      EmptyPrepared(d);
      PushSendsAll(e, false, e.sender.FillWindow().queue);
    }
  }

  lemma EmptyPrepared(d: Connection)
    requires Prepared(d) && d.Wf()
    ensures var e := d.(sender := d.sender.SendEmpty());
            Prepared(e) && e.Wf() && e.sender.queue != []
  {
    hide Prepared, Sender.SendEmpty, Later;
    SelfReadied(d);
    EmptyReadied(d, d);
    PreparedWf(d.(sender := d.sender.SendEmpty()));
    EmptyQueued(d.sender);
  }

  lemma EmptyQueued(s: Sender)
    ensures s.SendEmpty().queue != []
  {
  }

  /** An unclean shutdown with a reset always gets the reset out, and once only. */
  lemma ResetGoesOut(c: Connection)
    requires Prepared(c) && c.Wf()
    ensures var c' := c.UncleanShutdown(true);
            && Failed(c') && !c'.active && !c'.sendRst
            && |c'.out| > |c.out| && c'.out[|c.out|].seg.header.rst
            && forall i | |c.out| < i < |c'.out| :: !c'.out[i].seg.header.rst
  {
    hide Prepared, Connection.PushSegmentOut, Sender.SendEmpty, Receiver.Valid;
    SelfReadied(c);
    FailReadied(c);
    var e := Fail(c).(sendRst := true);
    RstReadied(c, Fail(c));
    PreparedWf(e);
    if c.sender.queue == [] {
      EmptyPrepared(e);
      e := e.(sender := e.sender.SendEmpty());
      EmptyFrame(Fail(c).sender);
    }
    PushResets(e);
  }

  lemma PushResets(c: Connection)
    requires Prepared(c) && c.Wf() && c.sendRst && c.sender.queue != [] && !c.active && Failed(c)
    ensures var c' := c.PushSegmentOut(false);
            && Failed(c') && !c'.active && !c'.sendRst
            && |c'.out| > |c.out| && c'.out[|c.out|].seg.header.rst
            && forall i | |c.out| < i < |c'.out| :: !c'.out[i].seg.header.rst
  {
    hide Sender.Core, Sender.TimerOk, AllGenuine, Sender.FillWindow, SStateOf, RStateOf, Connection.CleanShutdown, Connection.Flush,
         Receiver.Valid, Advances;
    PushKeeps(c, false);
    var d := if c.SState() != Closed || c.RState() != Listening then c.(sender := c.sender.FillWindow()) else c;
    var added := FillWindowAdvances(c.sender);
    QueueAdvances(c.sender, c.sender.FillWindow(), added);
    FillWindowWf(c.sender);
    AdvancePrepared(c, c.sender.FillWindow(), added);
    FlushResets(d);
    SameOut(d.Flush());
  }

  lemma FlushResets(c: Connection)
    requires Prepared(c) && c.Wf() && c.sendRst && c.sender.queue != []
    ensures var c' := c.Flush();
            && !c'.sendRst && !c'.CleanShutdown().sendRst
            && |c'.out| > |c.out| && c'.out[|c.out|].seg.header.rst
            && forall i | |c.out| < i < |c'.out| :: !c'.out[i].seg.header.rst
  {
    hide Sender.Core, Sender.TimerOk, Genuine, SStateOf, RStateOf, Receiver.Valid;
    var packets := StampAll(c.sender.queue, c.receiver, true);
    forall i | |c.out| < i < |c.Flush().out|
      ensures !c.Flush().out[i].seg.header.rst
    {
      var j := i - |c.out|;
      assert c.sender.queue[j].Plain();
      assert c.Flush().out[i] == packets[j];
    }
  }

  /** A sender that has sent nothing answers with its SYN. */
  lemma FirstSyn(d: Connection)
    requires Prepared(d) && d.SState() == Closed
    ensures d.sender.stream.Valid() && d.sender.FillWindow().queue != []
  {
    hide Chain, AllSent, Reaches, AllGenuine, SStateOf;
    SenderStateMeaning(d.sender);
  }

  lemma SelfQuiet(c: Connection)
    ensures Quiet(c, c)
  {
  }

  lemma TickQuiet(c: Connection, ms: nat)
    requires Endpoint(c) && c.Wf()
    ensures Quiet(Clocked(c, Tick(ms)), c.Tick(ms))
  {
    hide Prepared, Connection.PushSegmentOut, Connection.UncleanShutdown, Quiet, SStateOf, RStateOf, GoodStanding, Later, Advances,
         Sender.Tick;
    if !c.active {
      SelfQuiet(c);
    } else {
      SelfReadied(c);
      PreparedWf(c);
      ClockReadied(c, c, c.sinceLast + ms);
      var out := TickAdvances(c.sender, ms);
      var k := Clocked(c, Tick(ms));
      SenderReadied(c, k, c.sender.Tick(ms), out);
      var d := k.(sender := c.sender.Tick(ms));
      PreparedWf(d);
      TickedQuiet(k, ms);
      if d.sender.retx > MAX_RETX_ATTEMPTS {
        UncleanQuiet(d, true);
        var e := d.UncleanShutdown(true);
        UncleanKeeps(c, d, true);
        PreparedWf(e);
        PushQuiet(e, false);
        QuietTrans(k, d, e);
        QuietTrans(k, e, e.PushSegmentOut(false));
      } else {
        PushQuiet(d, false);
        QuietTrans(k, d, d.PushSegmentOut(false));
      }
    }
  }

  lemma TickedQuiet(c: Connection, ms: nat)
    ensures Quiet(c, c.(sender := c.sender.Tick(ms)))
  {
  }

  /** Operations other than a delivery or a read leave the receiver's contents and the
      acknowledged base alone. */
  lemma OpQuiet(c: Connection, op: Op)
    requires Endpoint(c) && c.Wf() && Permitted(c, op) && !op.Deliver? && !op.Read?
    ensures Quiet(Clocked(c, op), Do(c, op))
  {
    hide Prepared, Connection.PushSegmentOut, Connection.UncleanShutdown, Connection.Tick, Quiet, SStateOf, RStateOf, GoodStanding;
    match op {
      case Tick(ms) => TickQuiet(c, ms);
      case Write(data) =>
        StreamReadied(c, c.sender.stream.Write(data));
        StreamPushQuiet(c, c.sender.stream.Write(data));
      case End =>
        StreamReadied(c, c.sender.stream.EndInput());
        StreamPushQuiet(c, c.sender.stream.EndInput());
      case Connect => PushQuiet(c, true);
      case Destroy =>
        SelfQuiet(c);
        UncleanQuiet(c, true);
    }
  }

  lemma StreamPushQuiet(c: Connection, t: Stream)
    requires Settled(c) && Readied(c, c.(sender := c.sender.(stream := t))) && (c.sender.stream.error ==> t.error)
    ensures var d := c.(sender := c.sender.(stream := t));
            d.Wf() && Quiet(c, d.PushSegmentOut(false))
  {
    hide Prepared, Connection.PushSegmentOut, Quiet;
    var d := c.(sender := c.sender.(stream := t));
    PreparedWf(d);
    PushQuiet(d, false);
    StreamQuiet(c, t);
    QuietTrans(c, d, d.PushSegmentOut(false));
  }

  lemma StreamQuiet(c: Connection, t: Stream)
    requires Settled(c) && Readied(c, c.(sender := c.sender.(stream := t))) && (c.sender.stream.error ==> t.error)
    ensures Quiet(c, c.(sender := c.sender.(stream := t)))
  {
    hide Sender.Core, Sender.TimerOk, AllGenuine, SStateOf, Receiver.Valid, Later;
    LateStays(c.sender, c.sender.(stream := t));
  }

  lemma AbsorbActive(c: Connection, seg: TcpSegment)
    requires c.Wf()
    ensures c.Absorb(seg).active == c.active
  {
    hide Receiver.SegmentReceived, Sender.AckReceived;
  }

  /** An operation takes an endpoint out of service only by failure, or when everything is done and nothing
      is late; and one that has failed stays so. */
  lemma ClosesIf(c: Connection, op: Op)
    requires Endpoint(c) && c.Wf() && Permitted(c, op)
    ensures var c' := Do(c, op);
            && (c.active && !c'.active && !Failed(c') ==> Finished(c') && !c'.sender.Late())
            && (!c.active ==> !c'.active) && (!c.active && Failed(c) ==> Failed(c'))
  {
    hide Endpoint, SStateOf, RStateOf, Connection.SegmentReceived, Connection.Tick, Connection.Write, Connection.EndInputStream,
         Connection.Connect, Connection.Destroy, Receiver.SegmentReceived, Sender.AckReceived, Connection.Absorb, Sender.Late;
    OpKeeps(c, op);
    if op.Deliver? {
      DeliverHas(c, op.seg);
      AbsorbActive(Clocked(c, op), op.seg);
    } else if !op.Read? {
      OpQuiet(c, op);
    }
  }

  lemma TickQueues(c: Connection, ms: nat)
    requires Settled(c) && c.Wf() && c.sender.copies != [] && c.sender.timer.total + ms >= c.sender.timer.rto
    ensures var d := c.(sinceLast := c.sinceLast + ms, sender := c.sender.Tick(ms));
            Prepared(d) && d.sender.queue == [c.sender.copies[0]]
  {
    hide Sender.Core, Sender.TimerOk, AllGenuine, Sender.Tick, Receiver.Valid, Later, Backed;
    var out := TickAdvances(c.sender, ms);
    SelfReadied(c);
    ClockReadied(c, c, c.sinceLast + ms);
    SenderReadied(c, c.(sinceLast := c.sinceLast + ms), c.sender.Tick(ms), out);
    assert [] + out == out;
  }
}
