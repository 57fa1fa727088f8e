/** An endpoint works its sender by a history of calls: what holds of every history of a sender holds of every run
    of an endpoint. */
module EndpointCalls {
  import opened Machine
  import opened Segments
  import opened ByteStreams
  import opened Receivers
  import opened Senders
  import SenderRuns
  import opened Connections
  import opened ConnectionSteps
  import opened ConnectionEffects
  import opened ConnectionRuns

  // ---------------------------------------------------------------------------------------
  // The calls of one operation
  // ---------------------------------------------------------------------------------------

  /** Sending: the window is filled, once a SYN is asked for, out or received; then the queue is emptied. */
  function PushCalls(c: Connection, sendSyn: bool): seq<SenderRuns.Call> {
    (if sendSyn || c.sender.syn || c.receiver.syn then [SenderRuns.Fill] else []) + [SenderRuns.Drain]
  }

  /** A shutdown on failure; a reset goes out on an empty segment if there is no other. */
  function FailCalls(c: Connection, rst: bool): seq<SenderRuns.Call> {
    [SenderRuns.Fail] + if rst then (if c.sender.queue == [] then [SenderRuns.Empty] else []) + PushCalls(c, false) else []
  }

  /** A segment that uses sequence numbers is answered, by an empty segment unless something is queued already or the
      answer to a first SYN is our own. */
  function ReplyCalls(d: Connection, seg: TcpSegment): seq<SenderRuns.Call> {
    (if seg.Length() > 0 && d.receiver.syn && d.sender.queue == [] && !(seg.header.syn && !seg.header.ack && !d.sender.syn)
     then [SenderRuns.Empty] else [])
    + PushCalls(d, false)
  }

  function OpCalls(c: Connection, op: Op): seq<SenderRuns.Call>
    requires c.Wf()
  {
    match op
    case Deliver(seg) =>
      if !c.active || (seg.header.ack && !c.sender.syn) then []
      else if seg.header.rst then FailCalls(c, false)
      else (if seg.header.ack then [SenderRuns.Ack(seg.header.ackno, seg.header.win)] else []) + ReplyCalls(c.Absorb(seg), seg)
    case Tick(ms) =>
      if !c.active then []
      else
        var d := c.(sender := c.sender.Tick(ms));
        [SenderRuns.Tick(ms)]
        + (if d.sender.retx > MAX_RETX_ATTEMPTS then FailCalls(d, true) else [])
        + PushCalls(c, false)
    case Write(data) => [SenderRuns.Write(data)] + PushCalls(c, false)
    case End => [SenderRuns.End] + PushCalls(c, false)
    case Connect => PushCalls(c, true)
    case Read(n) => []
    case Destroy => if c.active then FailCalls(c, true) else []
  }

  // ---------------------------------------------------------------------------------------
  // They are what the operation does
  // ---------------------------------------------------------------------------------------

  /** The calls lead from `s` to `s'`. */
  ghost predicate Works(s: Sender, calls: seq<SenderRuns.Call>, s': Sender)
    decreases |calls|
  {
    if calls == [] then s' == s
    else s.stream.Valid() && SenderRuns.Permitted(s, calls[0]) && Works(SenderRuns.Do(s, calls[0]), calls[1..], s')
  }

  lemma WorksNone(s: Sender)
    ensures Works(s, [], s)
  {
  }

  lemma WorksOne(s: Sender, call: SenderRuns.Call)
    requires s.stream.Valid() && SenderRuns.Permitted(s, call)
    ensures Works(s, [call], SenderRuns.Do(s, call))
  {
    hide SenderRuns.Do;
    assert [call][1..] == [];
  }

  lemma {:induction false} WorksThen(s: Sender, a: seq<SenderRuns.Call>, t: Sender, b: seq<SenderRuns.Call>, u: Sender)
    requires Works(s, a, t) && Works(t, b, u)
    ensures Works(s, a + b, u)
    decreases |a|
  {
    hide SenderRuns.Do, SenderRuns.Permitted;
    if a == [] {
      assert a + b == b;
    } else {
      WorksThen(SenderRuns.Do(s, a[0]), a[1..], t, b, u);
      assert (a + b)[1..] == a[1..] + b;
    }
  }

  lemma {:induction false} WorksRuns(s: Sender, calls: seq<SenderRuns.Call>, s': Sender, log: seq<Slot>) returns (log': seq<Slot>)
    requires Works(s, calls, s')
    ensures SenderRuns.Run(s, calls, log, s', log')
    decreases |calls|
  {
    hide SenderRuns.Do, SenderRuns.Permitted, SenderRuns.FirstSent;
    if calls == [] {
      log' := log;
    } else {
      log' := WorksRuns(SenderRuns.Do(s, calls[0]), calls[1..], s', log + SenderRuns.FirstSent(s, calls[0]));
    }
  }

  lemma PushWorks(c: Connection, sendSyn: bool)
    requires Prepared(c) && c.Wf()
    ensures Works(c.sender, PushCalls(c, sendSyn), c.PushSegmentOut(sendSyn).sender)
  {
    hide Works, Connection.PushSegmentOut, Sender.FillWindow, SStateOf, AllGenuine, Sender.Core, Sender.TimerOk, SenderSummary;
    PushSender(c, sendSyn);
    SenderStateMeaning(c.sender);
    FillWindowWf(c.sender);
    var t := c.sender.FillWindow();
    WorksOne(c.sender, SenderRuns.Fill);
    WorksOne(c.sender, SenderRuns.Drain);
    WorksOne(t, SenderRuns.Drain);
    WorksThen(c.sender, [SenderRuns.Fill], t, [SenderRuns.Drain], t.(queue := []));
    assert [] + [SenderRuns.Drain] == [SenderRuns.Drain];
  }

  lemma EmptyWorks(c: Connection)
    requires Prepared(c) && c.Wf()
    ensures var e := c.(sender := c.sender.SendEmpty());
            && Prepared(e) && e.Wf()
            && Works(c.sender, [SenderRuns.Empty] + PushCalls(c, false), e.PushSegmentOut(false).sender)
  {
    hide Prepared, Works, Connection.PushSegmentOut;
    var e := c.(sender := c.sender.SendEmpty());
    EmptyPrepared(c);
    WorksOne(c.sender, SenderRuns.Empty);
    PushWorks(e, false);
    WorksThen(c.sender, [SenderRuns.Empty], e.sender, PushCalls(c, false), e.PushSegmentOut(false).sender);
  }

  lemma UncleanWorks(c: Connection, rst: bool)
    requires Prepared(c) && c.Wf()
    ensures Works(c.sender, FailCalls(c, rst), c.UncleanShutdown(rst).sender)
  {
    hide Prepared, Works, Connection.PushSegmentOut, PushCalls, Sender.SendEmpty;
    FailReadied(c);
    var d := Fail(c);
    WorksOne(c.sender, SenderRuns.Fail);
    if rst {
      var e := d.(sendRst := true);
      RstReadied(c, d);
      PreparedWf(e);
      EmptyWorks(e);
      PushWorks(e, false);
      SamePush(c, e);
      var calls := (if c.sender.queue == [] then [SenderRuns.Empty] else []) + PushCalls(c, false);
      assert [] + PushCalls(c, false) == PushCalls(c, false);
      WorksThen(c.sender, [SenderRuns.Fail], e.sender, calls, c.UncleanShutdown(rst).sender);
    } else {
      assert [SenderRuns.Fail] + [] == [SenderRuns.Fail];
    }
  }

  lemma SamePush(c: Connection, d: Connection)
    requires (d.sender.syn || d.receiver.syn) == (c.sender.syn || c.receiver.syn)
    ensures PushCalls(c, false) == PushCalls(d, false)
  {
  }

  lemma ReplyWorks(d: Connection, seg: TcpSegment)
    requires Prepared(d) && d.Wf() && (seg.header.syn ==> d.receiver.syn)
    ensures Works(d.sender, ReplyCalls(d, seg), d.Reply(seg).sender)
  {
    hide Works, Connection.PushSegmentOut, SStateOf, PushCalls, Sender.SendEmpty, Sender.Core, Sender.TimerOk, AllGenuine,
         SenderSummary;
    EmptyWorks(d);
    PushWorks(d, false);
    SenderStateMeaning(d.sender);
    assert [] + PushCalls(d, false) == PushCalls(d, false);
  }

  lemma DeliverWorks(c: Connection, seg: TcpSegment)
    requires Endpoint(c) && c.Wf() && c.sender.next < TWO64 - TWO32
    ensures Works(c.sender, OpCalls(c, Deliver(seg)), c.SegmentReceived(seg).sender)
  {
    hide Endpoint, Works, Connection.Reply, SStateOf, ReplyCalls, FailCalls, Connection.UncleanShutdown, Sender.AckReceived,
         Receiver.SegmentReceived, Sender.Core, SenderSummary;
    EndpointValid(c);
    SenderStateMeaning(c.sender);
    WorksNone(c.sender);
    if c.active && !(seg.header.ack && !c.sender.syn) {
      var k := c.(sinceLast := 0);
      Clocks(c, 0);
      if seg.header.rst {
        UncleanWorks(k, false);
        SameFail(c, k, false);
      } else {
        Absorbs(c, seg);
        var d := k.Absorb(seg);
        ReplyWorks(d, seg);
        SameReply(c.Absorb(seg), d, seg);
        if seg.header.ack {
          var ack := SenderRuns.Ack(seg.header.ackno, seg.header.win);
          WorksOne(c.sender, ack);
          WorksThen(c.sender, [ack], d.sender, ReplyCalls(d, seg), d.Reply(seg).sender);
        } else {
          assert [] + ReplyCalls(d, seg) == ReplyCalls(d, seg);
        }
      }
    }
  }

  lemma Clocks(c: Connection, sinceLast: nat)
    requires Endpoint(c)
    ensures Prepared(c.(sinceLast := sinceLast))
  {
    hide Prepared, GoodStanding;
    SelfReadied(c);
    ClockReadied(c, c, sinceLast);
  }

  lemma Absorbs(c: Connection, seg: TcpSegment)
    requires Endpoint(c) && c.Wf() && c.active && c.sender.next < TWO64 - TWO32
    ensures var d := c.(sinceLast := 0).Absorb(seg);
            && Prepared(d) && (seg.header.syn ==> d.receiver.syn)
            && d == c.Absorb(seg).(sinceLast := 0)
  {
    hide Prepared, GoodStanding, Receiver.SegmentReceived, Sender.AckReceived;
    AbsorbReadied(c, seg);
    ReceivedValid(c.receiver, seg);
  }

  lemma SameFail(c: Connection, d: Connection, rst: bool)
    requires d.sender == c.sender && d.receiver.syn == c.receiver.syn
    ensures FailCalls(c, rst) == FailCalls(d, rst)
  {
  }

  lemma SameReply(c: Connection, d: Connection, seg: TcpSegment)
    requires d.sender == c.sender && d.receiver == c.receiver
    ensures ReplyCalls(c, seg) == ReplyCalls(d, seg)
  {
  }

  lemma TickWorks(c: Connection, ms: nat)
    requires Endpoint(c) && c.Wf()
    ensures Works(c.sender, OpCalls(c, Tick(ms)), c.Tick(ms).sender)
  {
    hide Works, Prepared, Connection.PushSegmentOut, Connection.UncleanShutdown, GoodStanding, Later, Advances, Backed, Sender.Tick,
         FailCalls, PushCalls;
    WorksNone(c.sender);
    if c.active {
      SelfReadied(c);
      PreparedWf(c);
      ClockReadied(c, c, c.sinceLast + ms);
      var out := TickAdvances(c.sender, ms);
      var k := c.(sinceLast := c.sinceLast + ms);
      SenderReadied(c, k, c.sender.Tick(ms), out);
      var d := k.(sender := c.sender.Tick(ms));
      PreparedWf(d);
      TickSyn(c.sender, ms);
      SamePush(c, d);
      var tick := [SenderRuns.Tick(ms)];
      WorksOne(c.sender, SenderRuns.Tick(ms));
      if d.sender.retx > MAX_RETX_ATTEMPTS {
        UncleanWorks(d, true);
        SameFail(c.(sender := c.sender.Tick(ms)), d, true);
        UncleanKeeps(c, d, true);
        var e := d.UncleanShutdown(true);
        PreparedWf(e);
        PushWorks(e, false);
        UncleanSyn(d);
        SamePush(c, e);
        WorksThen(c.sender, tick, d.sender, FailCalls(d, true), e.sender);
        WorksThen(c.sender, tick + FailCalls(d, true), e.sender, PushCalls(c, false), c.Tick(ms).sender);
      } else {
        PushWorks(d, false);
        assert tick + [] == tick;
        WorksThen(c.sender, tick, d.sender, PushCalls(c, false), c.Tick(ms).sender);
      }
    }
  }

  /** A failure sends a SYN only if one is due anyway. */
  lemma UncleanSyn(c: Connection)
    requires Prepared(c) && c.Wf()
    ensures var e := c.UncleanShutdown(true); (e.sender.syn || e.receiver.syn) <==> (c.sender.syn || c.receiver.syn)
  {
    hide Prepared, Connection.PushSegmentOut, SStateOf, Sender.SendEmpty, PacketsOk, Posted, AllCarried, NoReset, Sender.FillWindow;
    var e := Fail(c).(sendRst := true);
    FailReadied(c);
    RstReadied(c, Fail(c));
    PreparedWf(e);
    EmptyPrepared(e);
    PushSyn(e);
    PushSyn(e.(sender := e.sender.SendEmpty()));
    EmptySyn(e.sender);
  }

  lemma EmptySyn(s: Sender)
    ensures s.SendEmpty().syn == s.syn
  {
  }

  lemma PushSyn(c: Connection)
    requires Prepared(c) && c.Wf()
    ensures var d := c.PushSegmentOut(false);
            (d.sender.syn || d.receiver.syn <==> c.sender.syn || c.receiver.syn) && (c.sender.syn ==> d.sender.syn)
  {
    hide Prepared, Connection.PushSegmentOut, SStateOf, PacketsOk, Posted, AllCarried, NoReset, Sender.FillWindow, Sender.Core,
         SenderSummary, Sender.TimerOk;
    PreparedWf(c);
    PushKeeps(c, false);
    PushSender(c, false);
    SenderStateMeaning(c.sender);
  }

  lemma TickSyn(s: Sender, ms: nat)
    ensures s.Tick(ms).syn == s.syn
  {
  }

  lemma StreamWorks(c: Connection, call: SenderRuns.Call, t: Stream)
    requires Endpoint(c) && c.Wf() && t.Valid() && SenderRuns.Permitted(c.sender, call)
    requires (call.Write? && t == c.sender.stream.Write(call.data)) || (call.End? && t == c.sender.stream.EndInput())
    ensures var d := c.(sender := c.sender.(stream := t));
            d.Wf() && Works(c.sender, [call] + PushCalls(c, false), d.PushSegmentOut(false).sender)
  {
    hide Works, Prepared, Connection.PushSegmentOut, PushCalls, GoodStanding;
    var d := c.(sender := c.sender.(stream := t));
    StreamReadied(c, t);
    WorksOne(c.sender, call);
    PushWorks(d, false);
    SamePush(c, d);
    WorksThen(c.sender, [call], d.sender, PushCalls(c, false), d.PushSegmentOut(false).sender);
  }

  /** Every operation of an endpoint does to its sender exactly what the calls do. */
  lemma OpWorks(c: Connection, op: Op)
    requires Endpoint(c) && c.Wf() && Permitted(c, op)
    ensures Works(c.sender, OpCalls(c, op), Do(c, op).sender)
  {
    hide Works, Prepared, Connection.PushSegmentOut, PushCalls, FailCalls, ReplyCalls, Connection.SegmentReceived, Connection.Tick,
         Connection.UncleanShutdown, GoodStanding, Connection.Absorb;
    WorksNone(c.sender);
    match op {
      case Deliver(seg) => DeliverWorks(c, seg);
      case Tick(ms) => TickWorks(c, ms);
      case Write(data) => StreamWorks(c, SenderRuns.Write(data), c.sender.stream.Write(data));
      case End => StreamWorks(c, SenderRuns.End, c.sender.stream.EndInput());
      case Connect => PushWorks(c, true);
      case Read(n) =>
      case Destroy => UncleanWorks(c, true);
    }
  }

  // ---------------------------------------------------------------------------------------
  // Every run
  // ---------------------------------------------------------------------------------------

  /** The calls of the first `n` operations of a run. */
  ghost function AllCalls(run: seq<Clock>, ops: seq<Op>, n: nat): seq<SenderRuns.Call>
    requires IsRun(run, ops) && n <= |ops|
  {
    if n == 0 then [] else AllCalls(run, ops, n - 1) + OpCalls(run[n - 1].c, ops[n - 1])
  }

  lemma {:induction false} RunWorks(run: seq<Clock>, ops: seq<Op>, n: nat)
    requires IsRun(run, ops) && n < |run|
    ensures Works(run[0].c.sender, AllCalls(run, ops, n), run[n].c.sender)
  {
    hide Works, Permitted, OpCalls, Endpoint;
    if n == 0 {
      WorksNone(run[0].c.sender);
    } else {
      RunWorks(run, ops, n - 1);
      RunInv(run, ops, n - 1);
      OpWorks(run[n - 1].c, ops[n - 1]);
      WorksThen(run[0].c.sender, AllCalls(run, ops, n - 1), run[n - 1].c.sender, OpCalls(run[n - 1].c, ops[n - 1]), run[n].c.sender);
    }
  }

  /** In every run of an endpoint its sender has gone through a history of calls from a fresh sender, so that all
      that holds of such histories holds here; and what was sent for the first time adds up to the bytes read. */
  lemma EndpointIsSenderRun(run: seq<Clock>, ops: seq<Op>, n: nat, rto: U16, sendCap: nat, recvCap: nat, isn: U32) returns (log: seq<Slot>)
    requires IsRun(run, ops) && n < |run| && run[0].c == NewConnection(rto, sendCap, recvCap, isn)
    ensures SenderRuns.Run(NewSender(sendCap, rto, isn), AllCalls(run, ops, n), [], run[n].c.sender, log)
    ensures SenderRuns.Conserves(run[n].c.sender, log)
  {
    hide SenderRuns.Run, AllCalls, SenderRuns.Conserves, Works, Advance, Permitted;
    RunWorks(run, ops, n);
    log := WorksRuns(run[0].c.sender, AllCalls(run, ops, n), run[n].c.sender, []);
    SenderRuns.RunFromNew(sendCap, rto, isn, AllCalls(run, ops, n), run[n].c.sender, log);
  }
}
