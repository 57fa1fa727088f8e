/** Bytes that `TCPConnection::write` accepts after the FIN: when that happens, and what it does. */
module LateWrites {
  import opened Machine
  import opened WrappingIntegers
  import opened Segments
  import opened ByteStreams
  import opened Receivers
  import opened Senders
  import opened Connections
  import opened ConnectionSteps
  import opened ConnectionEffects
  import opened ConnectionRuns
  import opened SenderEffects

  ghost predicate LateWrite(c: Connection, op: Op) {
    op.Write? && c.sender.AcceptsLate(op.data)
  }

  // ---------------------------------------------------------------------------------------
  // One operation
  // ---------------------------------------------------------------------------------------

  /** An operation leaves late bytes behind exactly if there were some or it is a late write. */
  lemma OpLateIff(c: Connection, op: Op)
    requires Endpoint(c) && c.Wf() && Permitted(c, op)
    ensures Do(c, op).sender.Late() <==> c.sender.Late() || LateWrite(c, op)
  {
    hide Endpoint, Do, SStateOf, PopAcked, Sender.Acked, Fitted;
    OpGrew(c, op);
    var s := Supplied(c, op);
    assert s.fin == c.sender.fin && s.stream.taken == c.sender.stream.taken;
  }

  /** A write takes the derived sender state back exactly if it had reached FinSent and accepts anything. */
  lemma WriteFallsBackIff(c: Connection, data: seq<Byte>)
    requires Endpoint(c) && c.Wf() && Permitted(c, Write(data))
    ensures Rank(c.Write(data).SState()) < Rank(c.SState()) <==>
            Rank(c.SState()) >= Rank(FinSent) && c.sender.stream.Accepted(data) != []
    ensures Rank(c.SState()) >= Rank(FinSent) && c.sender.stream.Accepted(data) != [] ==> c.Write(data).SState() == SynAcked
  {
    hide Endpoint, SStateOf, Connection.Write, Stepped, Later, Sender.Core, Sender.Valid, Connection.Wf, Permitted, Stream.Accepted,
         SenderSummary;
    var c' := c.Write(data);
    OpKeeps(c, Write(data));
    OpLateIff(c, Write(data));
    EndpointValid(c);
    EndpointValid(c');
    SenderStateMeaning(c.sender);
    SenderStateMeaning(c'.sender);
    WriteBase(c, data);
  }

  lemma WriteBase(c: Connection, data: seq<Byte>)
    requires Endpoint(c) && c.Wf() && Permitted(c, Write(data))
    ensures c.Write(data).sender.base == c.sender.base
  {
    hide Endpoint, SStateOf, Connection.Write;
    OpQuiet(c, Write(data));
  }

  /** Once the peer's stream has ended, a late write makes the endpoint give up lingering. */
  lemma LateWriteStopsLingering(c: Connection, op: Op)
    requires Endpoint(c) && c.Wf() && Permitted(c, op) && LateWrite(c, op) && c.RState() == FinRecv
    ensures !Do(c, op).linger
  {
    hide Endpoint, SStateOf, RStateOf, Prepared, Connection.PushSegmentOut, PacketsOk, Posted, AllCarried, NoReset, Later, GoodStanding,
         SenderSummary, Sender.Core;
    var t := c.sender.stream.Write(op.data);
    ReadyToWrite(c, op.data);
    PushKeeps(c.(sender := c.sender.(stream := t)), false);
    OpLateIff(c, op);
    OpKeeps(c, op);
    EndpointValid(Do(c, op));
    SenderStateMeaning(Do(c, op).sender);
  }

  lemma ReadyToWrite(c: Connection, data: seq<Byte>)
    requires Endpoint(c) && c.Wf()
    ensures Prepared(c.(sender := c.sender.(stream := c.sender.stream.Write(data))))
  {
    hide Prepared, GoodStanding;
    StreamReadied(c, c.sender.stream.Write(data));
  }

  // ---------------------------------------------------------------------------------------
  // Every run
  // ---------------------------------------------------------------------------------------

  ghost predicate LateBefore(run: seq<Clock>, ops: seq<Op>, i: nat)
    requires i <= |run| && i <= |ops|
  {
    exists k :: 0 <= k < i && LateWrite(run[k].c, ops[k])
  }

  /** At any moment of a run there are late bytes exactly if there has been a late write. */
  lemma {:induction false} LateIff(run: seq<Clock>, ops: seq<Op>, i: nat)
    requires IsRun(run, ops) && i < |run|
    ensures run[i].c.sender.Late() <==> LateBefore(run, ops, i)
  {
    hide LateWrite, Permitted, Endpoint;
    if i == 0 {
      NotLateAtFirst(run, ops);
    } else {
      LateIff(run, ops, i - 1);
      RunInv(run, ops, i - 1);
      OpLateIff(run[i - 1].c, ops[i - 1]);
      assert run[i].c == Do(run[i - 1].c, ops[i - 1]);
      if LateBefore(run, ops, i) {
        var k :| 0 <= k < i && LateWrite(run[k].c, ops[k]);
        assert k < i - 1 ==> LateBefore(run, ops, i - 1);
      }
      if LateBefore(run, ops, i - 1) {
        var k :| 0 <= k < i - 1 && LateWrite(run[k].c, ops[k]);
        assert LateBefore(run, ops, i);
      }
    }
  }

  lemma NotLateAtFirst(run: seq<Clock>, ops: seq<Op>)
    requires IsRun(run, ops)
    ensures !run[0].c.sender.Late()
  {
    hide Permitted, Advance;
  }

  /** Late bytes are never sent: from then on nothing is taken from the stream. */
  lemma LateNeverSent(run: seq<Clock>, ops: seq<Op>, i: nat, j: nat)
    requires IsRun(run, ops) && i <= j < |run| && run[i].c.sender.Late()
    ensures run[j].c.sender.Late() && run[j].c.sender.stream.taken == run[i].c.sender.stream.taken
    ensures run[j].c.SState() in {SynSent, SynAcked}
  {
    hide IsRun, Endpoint, SStateOf;
    RunInv(run, ops, i);
    RunInv(run, ops, j);
    EndpointValid(run[i].c);
    EndpointValid(run[j].c);
    RunLater(run, ops, i, j);
    SentStays(run[i].c.sender, run[j].c.sender);
    SenderStateMeaning(run[j].c.sender);
  }

  lemma SentStays(s: Sender, s': Sender)
    requires s.Core() && s'.Core() && Later(s, s') && s.Late()
    ensures s'.Late() && s'.stream.taken == s.stream.taken
  {
    hide Chain, AllSent, Reaches;
    LateStays(s, s');
    assert |s.stream.all[..s.stream.taken]| == |s'.stream.all[..s'.stream.taken]|;
  }

  /** An active endpoint with late bytes never closes cleanly: it goes out of service only by failing. */
  lemma {:induction false} LateNeverCloses(run: seq<Clock>, ops: seq<Op>, i: nat, j: nat)
    requires IsRun(run, ops) && i <= j < |run| && run[i].c.sender.Late() && run[i].c.active
    ensures run[j].c.active || Failed(run[j].c)
    decreases j
  {
    hide IsRun, Endpoint, SStateOf, Permitted, Failed, Sender.Late, Finished;
    if i < j {
      LateNeverCloses(run, ops, i, j - 1);
      LateNeverSent(run, ops, i, j);
      RunInv(run, ops, j - 1);
      RunAt(run, ops, j - 1);
      ClosesIf(run[j - 1].c, ops[j - 1]);
    }
  }

  lemma RunAt(run: seq<Clock>, ops: seq<Op>, i: nat)
    requires IsRun(run, ops) && i + 1 < |run|
    ensures i < |ops| && run[i].c.Wf() && Permitted(run[i].c, ops[i]) && run[i + 1].c == Do(run[i].c, ops[i])
  {
    hide Permitted, Do;
  }

  // ---------------------------------------------------------------------------------------
  // A failing history
  // ---------------------------------------------------------------------------------------

  /** The acknowledgment of a SYN, with a window of ten. */
  function SynAck(isn: U32): TcpSegment {
    EMPTY_SEGMENT.(header := DEFAULT_HEADER.(ack := true, ackno := Wrap(1, isn), win := 10))
  }

  /** Connect, be acknowledged, end the stream, write a byte: the byte is accepted, the sender's state falls
      from FinSent to SynAcked, and the byte stays behind. */
  lemma LateWriteHistory(rto: U16, isn: U32, x: Byte) returns (run: seq<Clock>, ops: seq<Op>)
    ensures IsRun(run, ops) && ops == [Connect, Deliver(SynAck(isn)), End, Write([x])]
    ensures run[0].c == NewConnection(rto, 1, 1, isn)
    ensures LateWrite(run[3].c, ops[3]) && run[4].c.sender.Late()
    ensures run[3].c.SState() == FinSent && run[4].c.SState() == SynAcked
  {
    hide Do, Permitted, Endpoint, LateWrite, SStateOf, NewConnection, SynAck;
    ops := [Connect, Deliver(SynAck(isn)), End, Write([x])];
    var c0, c1, c2, c3 := Reached(rto, isn, x);
    var k0 := Clock(c0, 0, 0, None);
    var k1 := Advance(k0, Connect);
    var k2 := Advance(k1, Deliver(SynAck(isn)));
    var k3 := Advance(k2, End);
    var k4 := Advance(k3, Write([x]));
    run := [k0, k1, k2, k3, k4];
    Falls(c3, x);
  }

  lemma Falls(c: Connection, x: Byte)
    requires Endpoint(c) && c.Wf() && Permitted(c, Write([x])) && c.SState() == FinSent && c.sender.AcceptsLate([x])
    ensures Do(c, Write([x])).SState() == SynAcked && LateWrite(c, Write([x])) && Do(c, Write([x])).sender.Late()
  {
    hide Endpoint, SStateOf, Connection.Write, Permitted;
    WriteFallsBackIff(c, [x]);
    OpLateIff(c, Write([x]));
  }

  lemma Reached(rto: U16, isn: U32, x: Byte) returns (c0: Connection, c1: Connection, c2: Connection, c3: Connection)
    ensures c0 == NewConnection(rto, 1, 1, isn) && c0.Wf() && Permitted(c0, Connect)
    ensures c1 == Do(c0, Connect) && c1.Wf() && Permitted(c1, Deliver(SynAck(isn)))
    ensures c2 == Do(c1, Deliver(SynAck(isn))) && c2.Wf() && Permitted(c2, End)
    ensures c3 == Do(c2, End) && c3.Wf() && Permitted(c3, Write([x])) && Endpoint(c3)
    ensures c3.SState() == FinSent && c3.sender.AcceptsLate([x])
  {
    hide Endpoint, Connection.PushSegmentOut, Connection.SegmentReceived, Connection.EndInputStream, SStateOf, Sender.AcceptsLate, SynAck;
    c0 := NewConnection(rto, 1, 1, isn);
    NewEndpoint(rto, isn);
    c1 := c0.Connect();
    OpKeeps(c0, Connect);
    Connected(rto, isn, c1);
    c2 := c1.SegmentReceived(SynAck(isn));
    OpKeeps(c1, Deliver(SynAck(isn)));
    Acknowledged(isn, c1, c2);
    c3 := c2.EndInputStream();
    OpKeeps(c2, End);
    Ended(c2, c3, x);
  }

  lemma NewEndpoint(rto: U16, isn: U32)
    ensures var c := NewConnection(rto, 1, 1, isn); Endpoint(c) && c.Wf() && c.sender.next == 0
  {
  }

  lemma Connected(rto: U16, isn: U32, c: Connection)
    requires c == NewConnection(rto, 1, 1, isn).Connect() && Endpoint(c)
    ensures c.Wf() && c.active && c.SState() == SynSent && Opening(c.sender) && c.sender.isn == isn
  {
    hide Connection.PushSegmentOut, Endpoint;
    var c0 := NewConnection(rto, 1, 1, isn);
    PushSender(c0, true);
    EndpointValid(c);
    NewPushed(rto, isn);
    assert c0.sender.FillWindow() == c0.sender.SendSyn();
  }

  lemma NewPushed(rto: U16, isn: U32)
    ensures var c := NewConnection(rto, 1, 1, isn);
            c.Wf() && c.PushSegmentOut(true).receiver == c.receiver && c.PushSegmentOut(true).active
  {
    hide Sender.FillWindow, StampAll;
    var c := NewConnection(rto, 1, 1, isn);
    FillWindowWf(c.sender);
  }

  /** A sender whose SYN is out, alone and unacknowledged, over an empty stream for one byte. */
  predicate Opening(s: Sender) {
    && s.syn && !s.fin && s.base == 0 && s.next == 1 && s.stream == NewStream(1)
    && |s.copies| == 1 && s.copies[0].seg.header.seqno == Wrap(0, s.isn) && s.copies[0].seg.Length() == 1
  }

  /** The same with the SYN acknowledged and a window of ten. */
  predicate Open(s: Sender) {
    s.syn && !s.fin && s.base == 1 && s.next == 1 && s.window == 10 && s.stream == NewStream(1)
  }

  lemma SenderOpens(s: Sender)
    requires Opening(s)
    ensures s.stream.Valid() && Open(s.AckReceived(Wrap(1, s.isn), 10))
  {
    hide Unwrap;
    UnwrapWrap(1, s.isn, 0);
    UnwrapWrap(0, s.isn, 1);
    assert s.copies[1..] == [];
    assert PopAcked(s.copies, s.isn, 1, 1) == PopAcked([], s.isn, 1, 1) == [];
    OpenIdles(s.(base := 1, window := 10, windowZero := false, copies := []));
  }

  lemma OpenIdles(s: Sender)
    requires Open(s)
    ensures s.stream.Valid() && s.FillWindow() == s
  {
  }

  lemma Acknowledged(isn: U32, c: Connection, d: Connection)
    requires c.Wf() && c.active && c.SState() == SynSent && Opening(c.sender) && c.sender.isn == isn
    requires d == c.SegmentReceived(SynAck(isn)) && Endpoint(d)
    ensures d.Wf() && Open(d.sender)
  {
    hide Endpoint, Connection.PushSegmentOut, Sender.AckReceived, Sender.FillWindow, SStateOf, RStateOf, Receiver.SegmentReceived, Opening,
         Wrap;
    EndpointValid(d);
    SenderOpens(c.sender);
    var e := c.(sinceLast := 0).Absorb(SynAck(isn));
    assert e.Reply(SynAck(isn)) == e.PushSegmentOut(false);
    OpenIdles(e.sender);
    PushSender(e, false);
  }

  lemma SenderEnds(s: Sender, x: Byte)
    requires Open(s)
    ensures var t := s.(stream := s.stream.EndInput());
            && t.stream.Valid() && SStateOf(t) != Closed
            && var u := t.FillWindow().(queue := []);
               u.fin && u.base == 1 && u.next == 2 && !u.Late() && u.AcceptsLate([x])
  {
    var t := s.(stream := s.stream.EndInput());
    assert t.FillWindow() == t.SendFin();
  }

  lemma Ended(c: Connection, d: Connection, x: Byte)
    requires c.Wf() && Open(c.sender) && d == c.EndInputStream() && Endpoint(d)
    ensures d.Wf() && d.SState() == FinSent && d.sender.AcceptsLate([x]) && d.sender.next == 2
  {
    hide Endpoint, Connection.PushSegmentOut, RStateOf, SStateOf, Receiver.Valid, Sender.FillWindow, Sender.Core, Open, Sender.AcceptsLate,
         SenderSummary;
    EndpointValid(d);
    SenderEnds(c.sender, x);
    var e := c.(sender := c.sender.(stream := c.sender.stream.EndInput()));
    PushSender(e, false);
    SenderStateMeaning(d.sender);
  }
}
