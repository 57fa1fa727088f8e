/** What every operation of an endpoint keeps, whoever sends the segments it receives. */
module ConnectionSteps {
  import opened Machine
  import opened WrappingIntegers
  import opened Segments
  import opened ByteStreams
  import opened Receivers
  import opened Senders
  import opened Connections

  datatype Op =
    | Deliver(seg: TcpSegment)
    | Tick(ms: nat)
    | Write(data: seq<Byte>)
    | End
    | Connect
    | Read(n: nat)
    | Destroy

  function Do(c: Connection, op: Op): Connection
    requires c.Wf()
  {
    match op
    case Deliver(seg) => c.SegmentReceived(seg)
    case Tick(ms) => c.Tick(ms)
    case Write(data) => c.Write(data)
    case End => c.EndInputStream()
    case Connect => c.Connect()
    case Read(n) => c.ReadInbound(n)
    case Destroy => c.Destroy()
  }

  /** The counters stay clear of 2^64. */
  predicate Permitted(c: Connection, op: Op) {
    c.sender.next < TWO64 - TWO32
  }

  /** A well-formed endpoint whose queued segments are genuine. */
  ghost predicate Prepared(c: Connection) {
    && c.sender.Valid() && c.receiver.Valid()
    && AllGenuine(c.sender.queue, c.sender.Sent())
  }

  /** Between operations nothing is left in the sender's queue. */
  ghost predicate Settled(c: Connection) {
    Prepared(c) && c.sender.queue == []
  }

  /** A packet carries the acknowledgment and the window of the receiver `r`. */
  ghost predicate AckOk(p: Packet, r: Receiver) {
    && p.seg.header.ack == r.syn
    && (r.syn ==>
          && p.ackAbs == r.AbsAck() && p.seg.header.ackno == Wrap(p.ackAbs, r.isn)
          && p.ackAbs + p.seg.header.win == r.RightEdge())
  }

  ghost predicate PacketsOk(packets: seq<Packet>, sent: Sent, r: Receiver) {
    forall i | 0 <= i < |packets| :: Genuine(packets[i].seg, packets[i].abs, sent) && AckOk(packets[i], r)
  }

  ghost predicate SameButError(r: Receiver, r': Receiver) {
    r' == r.(reasm := r.reasm.(out := r.reasm.out.(error := r'.reasm.out.error)))
  }

  /** A packet for the segment: the same numbers, flags and payload. */
  predicate Carries(p: Packet, slot: Slot) {
    && p.abs == slot.abs && p.seg.payload == slot.seg.payload && p.seg.header.seqno == slot.seg.header.seqno
    && p.seg.header.syn == slot.seg.header.syn && p.seg.header.fin == slot.seg.header.fin
  }

  ghost predicate Carried(slot: Slot, packets: seq<Packet>) {
    exists i :: 0 <= i < |packets| && Carries(packets[i], slot)
  }

  ghost predicate AllCarried(slots: seq<Slot>, packets: seq<Packet>) {
    forall slot <- slots :: Carried(slot, packets)
  }

  /** Every copy was there before or has been sent in one of the packets. */
  ghost predicate Posted(copies: seq<Slot>, before: seq<Slot>, packets: seq<Packet>) {
    forall slot <- copies :: slot in before || Carried(slot, packets)
  }

  lemma BackedIsPosted(copies: seq<Slot>, middle: seq<Slot>, before: seq<Slot>, queue: seq<Slot>, packets: seq<Packet>)
    requires Posted(copies, middle, packets) && Backed(middle, before, queue) && AllCarried(queue, packets)
    ensures Posted(copies, before, packets)
  {
    hide Carried;
  }

  predicate NoReset(packets: seq<Packet>) {
    forall i | 0 <= i < |packets| :: !packets[i].seg.header.rst
  }

  /** The result of `push_segment_out`. */
  ghost predicate Pushed(c: Connection, c': Connection) {
    && Settled(c')
    && c'.receiver == c.receiver && c'.rto == c.rto && c'.sinceLast == c.sinceLast
    && c.sender.stream.Valid() && c'.sender.stream.Valid()
    && Later(c.sender, c'.sender) && c'.sender.base == c.sender.base && c'.sender.retx == c.sender.retx
    && c'.sender.stream == c.sender.stream.(taken := c'.sender.stream.taken)
    && c.out <= c'.out && PacketsOk(c'.out[|c.out|..], c'.sender.Sent(), c'.receiver)
    && ShutdownRule(c, c')
    && Posted(c'.sender.copies, c.sender.copies, c'.out[|c.out|..])
    && AllCarried(c.sender.queue, c'.out[|c.out|..])
    && (!c.sendRst ==> !c'.sendRst && NoReset(c'.out[|c.out|..]))
  }

  /** When lingering is given up, and when the endpoint goes inactive. */
  ghost predicate ShutdownRule(c: Connection, c': Connection) {
    && c'.linger == (c.linger && !(c'.RState() == FinRecv && Rank(c'.SState()) < Rank(FinSent)))
    && c'.active == (c.active && !(c'.RState() == FinRecv && c'.SState() == FinAcked
                                   && (!c'.linger || c'.sinceLast >= 10 * c'.rto)))
  }

  lemma StampOk(slot: Slot, r: Receiver, rst: bool, sent: Sent)
    requires r.Valid() && Genuine(slot.seg, slot.abs, sent) && slot.Plain()
    ensures var p := Stamp(slot, r, rst);
            Genuine(p.seg, p.abs, sent) && AckOk(p, r)
  {
  }

  lemma StampAllOk(queue: seq<Slot>, r: Receiver, rst: bool, sent: Sent)
    requires r.Valid() && AllGenuine(queue, sent)
    ensures PacketsOk(StampAll(queue, r, rst), sent, r)
  {
    hide Genuine, AckOk, Stamp;
    forall i | 0 <= i < |queue|
      ensures var p := StampAll(queue, r, rst)[i]; Genuine(p.seg, p.abs, sent) && AckOk(p, r)
    {
      StampOk(queue[i], r, rst && i == 0, sent);
    }
  }

  lemma FlushKeeps(c: Connection)
    requires Prepared(c)
    ensures Pushed(c, c.Flush().CleanShutdown())
  {
    hide Genuine, Sender.Core, Sender.TimerOk, Later, AckOk, StampAll, SStateOf, RStateOf, PacketsOk, Receiver.Valid;
    PreparedWf(c);
    FlushedSender(c.sender);
    StampAllOk(c.sender.queue, c.receiver, c.sendRst, c.sender.Sent());
    var c' := c.Flush().CleanShutdown();
    assert c'.out[|c.out|..] == StampAll(c.sender.queue, c.receiver, c.sendRst);
    StampAllCarries(c.sender.queue, c.receiver, c.sendRst);
    if !c.sendRst {
      StampAllPlain(c.sender.queue, c.receiver, c.sender.Sent());
    }
  }

  lemma StampAllPlain(queue: seq<Slot>, r: Receiver, sent: Sent)
    requires r.Valid() && AllGenuine(queue, sent)
    ensures NoReset(StampAll(queue, r, false))
  {
    hide Genuine, Receiver.Valid;
  }

  lemma StampAllCarries(queue: seq<Slot>, r: Receiver, rst: bool)
    requires r.Valid()
    ensures AllCarried(queue, StampAll(queue, r, rst))
  {
    hide Receiver.Valid;
    forall slot <- queue ensures Carried(slot, StampAll(queue, r, rst)) {
      var i :| 0 <= i < |queue| && queue[i] == slot;
      assert Carries(StampAll(queue, r, rst)[i], slot);
    }
  }

  /** Everything queued goes out: a packet for each segment, in order, with its numbers, flags and payload. */
  lemma PushSendsAll(c: Connection, sendSyn: bool, queue: seq<Slot>)
    requires Prepared(c) && c.Wf()
    requires queue == if sendSyn || c.SState() != Closed || c.RState() != Listening then c.sender.FillWindow().queue
                      else c.sender.queue
    ensures var c' := c.PushSegmentOut(sendSyn);
            && |c'.out| == |c.out| + |queue| && c.sender.queue <= queue
            && forall i | 0 <= i < |queue| :: Carries(c'.out[|c.out| + i], queue[i])
  {
    hide Sender.Core, Sender.TimerOk, AllGenuine, Sender.FillWindow, SStateOf, RStateOf, Connection.CleanShutdown, Advances,
         Connection.Flush, Receiver.Valid, Carries;
    var added := FillWindowAdvances(c.sender);
    QueueAdvances(c.sender, c.sender.FillWindow(), added);
    FillWindowWf(c.sender);
    var d := if sendSyn || c.SState() != Closed || c.RState() != Listening then c.(sender := c.sender.FillWindow()) else c;
    FlushSendsAll(d);
    SameOut(d.Flush());
  }

  lemma FlushSendsAll(c: Connection)
    requires c.Wf()
    ensures |c.Flush().out| == |c.out| + |c.sender.queue|
    ensures forall i | 0 <= i < |c.sender.queue| :: Carries(c.Flush().out[|c.out| + i], c.sender.queue[i])
  {
    hide Receiver.Valid;
  }

  lemma QueueAdvances(s: Sender, s': Sender, out: seq<Slot>)
    requires Advances(s, s', out)
    ensures s.queue <= s'.queue
  {
    hide AllGenuine;
  }

  lemma SameOut(c: Connection)
    ensures c.CleanShutdown().out == c.out
  {
  }

  lemma PreparedWf(c: Connection)
    requires Prepared(c)
    ensures c.Wf() && c.sender.Valid()
  {
    hide Chain, AllSent, Reaches;
  }

  lemma FlushedSender(s: Sender)
    requires s.Valid()
    ensures var s' := s.(queue := []);
            s'.Valid() && s.stream.Valid() && s'.Sent() == s.Sent() && Later(s, s') && SStateOf(s') == SStateOf(s)
  {
    hide Chain, AllSent, Reaches, Pow2;
  }

  lemma QueueGrows(queue: seq<Slot>, out: seq<Slot>, sent: Sent, later: Sent)
    requires AllGenuine(queue, sent) && AllGenuine(out, later) && sent.GrowsTo(later)
    ensures AllGenuine(queue + out, later)
  {
    hide Genuine;
    forall i | 0 <= i < |queue|
      ensures Genuine(queue[i].seg, queue[i].abs, later)
    {
      GenuineGrows(queue[i].seg, queue[i].abs, sent, later);
    }
  }

  lemma AdvancePrepared(c: Connection, s': Sender, out: seq<Slot>)
    requires Prepared(c) && s'.Valid() && Advances(c.sender, s', out)
    ensures Prepared(c.(sender := s')) && Later(c.sender, s')
  {
    hide Genuine, AllGenuine, Sender.Valid;
    QueueGrows(c.sender.queue, out, c.sender.Sent(), s'.Sent());
    AdvancesIsLater(c.sender, s', out);
  }

  lemma PushKeeps(c: Connection, sendSyn: bool)
    requires Prepared(c)
    ensures Pushed(c, c.PushSegmentOut(sendSyn))
  {
    hide Sender.Core, Sender.TimerOk, AllGenuine, Receiver.Valid, Sender.FillWindow, Advances, PacketsOk, SStateOf, RStateOf,
         Connection.Flush, Connection.CleanShutdown;
    if sendSyn || c.SState() != Closed || c.RState() != Listening {
      PreparedWf(c);
      var out := FillWindowAdvances(c.sender);
      var d := c.(sender := c.sender.FillWindow());
      AdvancePrepared(c, d.sender, out);
      FillFrame(c.sender);
      FlushKeeps(d);
      LaterTrans(c.sender, d.sender, d.Flush().CleanShutdown().sender);
      FilledIsPosted(c, d, d.Flush().CleanShutdown(), out);
    } else {
      FlushKeeps(c);
    }
  }

  lemma FilledIsPosted(c: Connection, d: Connection, c': Connection, out: seq<Slot>)
    requires Advances(c.sender, d.sender, out) && d.out == c.out && Pushed(d, c')
    ensures Posted(c'.sender.copies, c.sender.copies, c'.out[|c.out|..]) && AllCarried(c.sender.queue, c'.out[|c.out|..])
  {
    hide Prepared, PacketsOk, Later, AllGenuine, Carried, Settled, ShutdownRule;
    BackedIsPosted(c'.sender.copies, d.sender.copies, c.sender.copies, d.sender.queue, c'.out[|c.out|..]);
  }

  lemma FillFrame(s: Sender)
    requires s.Valid() && s.stream.Valid()
    ensures var s' := s.FillWindow();
            && s'.base == s.base && s'.retx == s.retx && s'.stream.Valid()
            && s'.stream == s.stream.(taken := s'.stream.taken)
  {
    hide Sender.Core, Sender.TimerOk, Sender.FillWindow, Emits;
    var added := FillWindowKeeps(s);
    EmitsFrame(s, s.FillWindow(), added);
  }

  // ---------------------------------------------------------------------------------------
  // The operations
  // ---------------------------------------------------------------------------------------

  /** An endpoint as the operations leave it. */
  ghost predicate Endpoint(c: Connection) {
    && Settled(c)
    && c.sender.initialRto == c.rto
    && GoodStanding(c)
    && c.sender.retx <= MAX_RETX_ATTEMPTS + 1 && (c.active ==> c.sender.retx <= MAX_RETX_ATTEMPTS && !c.sendRst)
  }

  lemma EndpointValid(c: Connection)
    requires Endpoint(c)
    ensures c.Wf() && c.sender.Valid() && c.sender.Core()
  {
    PreparedWf(c);
  }

  /** An inactive endpoint has failed on both sides, or has received the whole inbound stream and
      had all of its own acknowledged. */
  ghost predicate GoodStanding(c: Connection) {
    || c.active
    || Failed(c)
    || (c.RState() == FinRecv && FinDone(c.sender))
  }

  ghost predicate Failed(c: Connection) {
    c.sender.stream.error && c.receiver.reasm.out.error
  }

  /** The step from `c` to `c'` and the packets it sent. */
  ghost predicate Stepped(c: Connection, c': Connection) {
    && c.sender.stream.Valid() && c'.sender.stream.Valid()
    && c'.rto == c.rto && Later(c.sender, c'.sender)
    && c.out <= c'.out && PacketsOk(c'.out[|c.out|..], c'.sender.Sent(), c'.receiver)
    && Posted(c'.sender.copies, c.sender.copies, c'.out[|c.out|..])
    && (Failed(c) ==> Failed(c'))
    && (c'.active ==> c.active && (!c.sendRst ==> !c'.sendRst && NoReset(c'.out[|c.out|..])))
  }

  /** What an operation does before `push_segment_out`: the halves change, nothing is sent. */
  ghost predicate Readied(c: Connection, d: Connection) {
    && Prepared(d)
    && c.sender.stream.Valid() && d.sender.stream.Valid() && Later(c.sender, d.sender)
    && d.rto == c.rto && d.out == c.out && d.linger == c.linger
    && Backed(d.sender.copies, c.sender.copies, d.sender.queue)
    && (Failed(c) ==> Failed(d))
    && (d.active ==> c.active && d.sendRst == c.sendRst)
  }

  lemma PushedSteps(c: Connection, d: Connection, c': Connection)
    requires Readied(c, d) && Pushed(d, c')
    ensures Stepped(c, c') && Settled(c')
    ensures Failed(d) ==> Failed(c')
  {
    hide Prepared, PacketsOk, Later, Posted, Backed, AllCarried;
    LaterTrans(c.sender, d.sender, c'.sender);
    BackedIsPosted(c'.sender.copies, d.sender.copies, c.sender.copies, d.sender.queue, c'.out[|c.out|..]);
  }

  lemma PushedStanding(d: Connection, c': Connection)
    requires Prepared(d) && Pushed(d, c')
    requires GoodStanding(d)
    ensures GoodStanding(c')
  {
    hide Genuine, Chain, AllSent, Reaches, PacketsOk, SStateOf, AllGenuine, Pow2, Posted, AllCarried;
    SenderStateMeaning(c'.sender);
    LateStays(d.sender, c'.sender);
  }

  /** The application, or a failure, changes the outbound stream. */
  lemma StreamChange(s: Sender, t: Stream)
    requires s.Valid() && t.Valid() && t.taken == s.stream.taken && s.stream.all <= t.all
    requires s.stream.ended ==> t.ended
    ensures var s' := s.(stream := t);
            && s'.Valid() && s.stream.Valid() && Later(s, s') && s'.Sent() == s.Sent()
  {
    hide Chain, AllSent, Reaches, Pow2;
    var s' := s.(stream := t);
    assert t.all[..t.taken] == s.stream.all[..s.stream.taken];
  }

  lemma StreamReadied(c: Connection, t: Stream)
    requires Settled(c) && t.Valid() && t.taken == c.sender.stream.taken && c.sender.stream.all <= t.all
    requires c.sender.stream.ended ==> t.ended
    requires c.sender.stream.error ==> t.error
    ensures Readied(c, c.(sender := c.sender.(stream := t)))
  {
    hide Sender.Core, Sender.TimerOk, Later, AllGenuine, Receiver.Valid;
    StreamChange(c.sender, t);
  }

  /** A step through `push_segment_out` from a state in good standing. */
  lemma ReadyAndPush(c: Connection, d: Connection, sendSyn: bool)
    requires Readied(c, d) && d.sender.initialRto == d.rto
    requires GoodStanding(d)
    requires d.sender.retx <= MAX_RETX_ATTEMPTS + 1 && (d.active ==> d.sender.retx <= MAX_RETX_ATTEMPTS && !d.sendRst)
    ensures d.Wf() && Endpoint(d.PushSegmentOut(sendSyn)) && Stepped(c, d.PushSegmentOut(sendSyn))
  {
    hide Prepared, PacketsOk, Connection.PushSegmentOut, GoodStanding, SStateOf, RStateOf;
    PreparedWf(d);
    PushKeeps(d, sendSyn);
    PushedSteps(c, d, d.PushSegmentOut(sendSyn));
    PushedStanding(d, d.PushSegmentOut(sendSyn));
  }

  lemma WriteKeeps(c: Connection, data: seq<Byte>)
    requires Endpoint(c) && c.Wf()
    ensures Endpoint(c.Write(data)) && Stepped(c, c.Write(data))
  {
    hide Prepared, Connection.PushSegmentOut, SStateOf, RStateOf;
    var t := c.sender.stream.Write(data);
    var d := c.(sender := c.sender.(stream := t));
    StreamReadied(c, t);
    StreamStanding(c, t);
    ReadyAndPush(c, d, false);
  }

  lemma StreamStanding(c: Connection, t: Stream)
    requires Settled(c) && GoodStanding(c)
    requires t.Valid() && t.taken == c.sender.stream.taken && c.sender.stream.all <= t.all
    requires c.sender.stream.ended ==> t.ended
    requires c.sender.stream.error ==> t.error
    ensures GoodStanding(c.(sender := c.sender.(stream := t)))
  {
    hide Genuine, Chain, AllSent, Reaches, SStateOf, AllGenuine, Receiver.Valid;
  }

  lemma EndKeeps(c: Connection)
    requires Endpoint(c) && c.Wf()
    ensures Endpoint(c.EndInputStream()) && Stepped(c, c.EndInputStream())
  {
    hide Prepared, Connection.PushSegmentOut, SStateOf, RStateOf;
    var t := c.sender.stream.EndInput();
    StreamReadied(c, t);
    StreamStanding(c, t);
    ReadyAndPush(c, c.(sender := c.sender.(stream := t)), false);
  }

  lemma ConnectKeeps(c: Connection)
    requires Endpoint(c) && c.Wf()
    ensures Endpoint(c.Connect()) && Stepped(c, c.Connect())
  {
    hide Prepared, Connection.PushSegmentOut, SStateOf, RStateOf;
    StreamReadied(c, c.sender.stream);
    ReadyAndPush(c, c, true);
  }

  lemma ReadKeeps(c: Connection, n: nat)
    requires Endpoint(c) && c.Wf()
    ensures Endpoint(c.ReadInbound(n)) && Stepped(c, c.ReadInbound(n))
  {
    hide Sender.Core, Sender.TimerOk, AllGenuine, Genuine, SStateOf;
    StreamReadied(c, c.sender.stream);
    var c' := c.ReadInbound(n);
    assert c'.out[|c.out|..] == [];
  }

  /** A failure on both sides, before anything is sent about it. */
  function Fail(c: Connection): Connection {
    c.(sender := c.sender.(stream := c.sender.stream.SetError()), receiver := c.receiver.SetError(), active := false)
  }

  lemma FailReadied(c: Connection)
    requires Prepared(c)
    ensures Readied(c, Fail(c)) && Failed(Fail(c))
  {
    hide Sender.Core, Sender.TimerOk, Later, AllGenuine;
    PreparedWf(c);
    StreamChange(c.sender, c.sender.stream.SetError());
  }

  lemma EmptyReadied(c: Connection, d: Connection)
    requires Readied(c, d)
    ensures Readied(c, d.(sender := d.sender.SendEmpty()))
  {
    hide Sender.Core, Sender.TimerOk, Later, AllGenuine, Advances, Receiver.Valid, Sender.SendEmpty;
    EmptyAdvances(d.sender);
    EmptyFrame(d.sender);
    var s' := d.sender.SendEmpty();
    AdvancePrepared(d, s', [s'.queue[|d.sender.queue|]]);
    LaterTrans(c.sender, d.sender, s');
  }

  lemma EmptyFrame(s: Sender)
    ensures s.SendEmpty().stream == s.stream && s.SendEmpty().retx == s.retx && s.SendEmpty().initialRto == s.initialRto
    ensures |s.SendEmpty().queue| == |s.queue| + 1 && s.queue <= s.SendEmpty().queue && s.SendEmpty().copies == s.copies
    ensures SStateOf(s.SendEmpty()) == SStateOf(s) && s.SendEmpty().base == s.base
  {
  }

  lemma UncleanKeeps(c: Connection, d: Connection, rst: bool)
    requires Readied(c, d) && d.Wf() && d.sender.initialRto == d.rto && d.sender.retx <= MAX_RETX_ATTEMPTS + 1
    requires !rst ==> d.sender.queue == []
    ensures var c' := d.UncleanShutdown(rst);
            Endpoint(c') && Stepped(c, c') && Failed(c') && !c'.active
  {
    hide Prepared, Connection.PushSegmentOut, SStateOf, RStateOf, Later, PacketsOk, Sender.SendEmpty;
    FailReadied(d);
    var e := Fail(d);
    LaterTrans(c.sender, d.sender, e.sender);
    if rst {
      var f := e.(sendRst := true);
      RstReadied(c, e);
      if d.sender.queue == [] {
        EmptyReadied(c, f);
        EmptyFrame(f.sender);
        f := f.(sender := f.sender.SendEmpty());
      }
      ReadyAndPush(c, f, false);
      PreparedWf(f);
      PushKeeps(f, false);
      PushedSteps(c, f, f.PushSegmentOut(false));
    } else {
      assert e.out[|c.out|..] == [];
      NoPackets(e);
    }
  }

  lemma NoPackets(c: Connection)
    requires c.sender.stream.Valid()
    ensures PacketsOk([], c.sender.Sent(), c.receiver)
  {
  }

  lemma RstReadied(c: Connection, e: Connection)
    requires Readied(c, e) && !e.active
    ensures Readied(c, e.(sendRst := true))
  {
    hide Sender.Core, Sender.TimerOk, Later, AllGenuine, Receiver.Valid;
  }

  lemma NoStep(c: Connection)
    requires Endpoint(c)
    ensures Stepped(c, c)
  {
    hide Sender.Core, Sender.TimerOk, AllGenuine, Receiver.Valid, GoodStanding;
    PreparedWf(c);
    StreamReadied(c, c.sender.stream);
    assert c.out[|c.out|..] == [];
    NoPackets(c);
  }

  lemma PacketsGrow(packets: seq<Packet>, sent: Sent, later: Sent, r: Receiver)
    requires PacketsOk(packets, sent, r) && sent.GrowsTo(later)
    ensures PacketsOk(packets, later, r)
  {
    hide Genuine, AckOk;
    forall i | 0 <= i < |packets|
      ensures Genuine(packets[i].seg, packets[i].abs, later)
    {
      GenuineGrows(packets[i].seg, packets[i].abs, sent, later);
    }
  }

  lemma PacketsJoin(a: seq<Packet>, b: seq<Packet>, sent: Sent, r: Receiver)
    requires PacketsOk(a, sent, r) && PacketsOk(b, sent, r)
    ensures PacketsOk(a + b, sent, r)
  {
    hide Genuine, AckOk;
  }

  /** Pushing once more after a finished step. */
  lemma PushAgain(c: Connection, e: Connection)
    requires Stepped(c, e) && Endpoint(e) && e.Wf()
    ensures Endpoint(e.PushSegmentOut(false)) && Stepped(c, e.PushSegmentOut(false))
    ensures Failed(e) ==> Failed(e.PushSegmentOut(false))
  {
    hide Prepared, PacketsOk, Connection.PushSegmentOut, SStateOf, RStateOf, Later, ShutdownRule, GoodStanding, Stepped;
    StreamReadied(e, e.sender.stream);
    ReadyAndPush(e, e, false);
    PushKeeps(e, false);
    SteppedTrans(c, e, e.PushSegmentOut(false));
  }

  lemma SteppedTrans(c: Connection, e: Connection, e': Connection)
    requires Stepped(c, e) && Stepped(e, e') && e'.receiver == e.receiver
    ensures Stepped(c, e')
  {
    hide PacketsOk, Later, Posted;
    LaterTrans(c.sender, e.sender, e'.sender);
    LaterGrows(e.sender, e'.sender);
    PacketsGrow(e.out[|c.out|..], e.sender.Sent(), e'.sender.Sent(), e.receiver);
    PacketsJoin(e.out[|c.out|..], e'.out[|e.out|..], e'.sender.Sent(), e'.receiver);
    assert e'.out[|c.out|..] == e.out[|c.out|..] + e'.out[|e.out|..];
    PostedJoin(e'.sender.copies, e.sender.copies, c.sender.copies, e.out[|c.out|..], e'.out[|e.out|..]);
  }

  lemma PostedJoin(copies: seq<Slot>, middle: seq<Slot>, before: seq<Slot>, a: seq<Packet>, b: seq<Packet>)
    requires Posted(middle, before, a) && Posted(copies, middle, b)
    ensures Posted(copies, before, a + b)
  {
    hide Carries;
    forall slot <- copies ensures slot in before || Carried(slot, a + b) {
      if Carried(slot, b) {
        var i :| 0 <= i < |b| && Carries(b[i], slot);
        assert Carries((a + b)[|a| + i], slot);
      } else if Carried(slot, a) {
        var i :| 0 <= i < |a| && Carries(a[i], slot);
        assert Carries((a + b)[i], slot);
      }
    }
  }

  lemma LaterGrows(s: Sender, s': Sender)
    requires Later(s, s')
    ensures s.stream.Valid() && s'.stream.Valid() && s.Sent().GrowsTo(s'.Sent())
  {
  }

  lemma SenderReadied(c: Connection, d: Connection, s': Sender, out: seq<Slot>)
    requires Readied(c, d) && s'.Valid() && Advances(d.sender, s', out)
    ensures Readied(c, d.(sender := s')) && s'.initialRto == d.sender.initialRto
  {
    hide Sender.Core, Sender.TimerOk, Later, AllGenuine, Receiver.Valid;
    AdvancePrepared(d, s', out);
    LaterTrans(c.sender, d.sender, s');
  }

  lemma TickKeeps(c: Connection, ms: nat)
    requires Endpoint(c) && c.Wf()
    ensures Endpoint(c.Tick(ms)) && Stepped(c, c.Tick(ms))
    ensures c.active && c.sender.Tick(ms).retx > MAX_RETX_ATTEMPTS ==> Failed(c.Tick(ms))
  {
    hide Prepared, Connection.PushSegmentOut, Connection.UncleanShutdown, SStateOf, RStateOf, Later, PacketsOk, Advances, Sender.Tick;
    if !c.active {
      NoStep(c);
    } else {
      PreparedWf(c);
      StreamReadied(c, c.sender.stream);
      var out := TickAdvances(c.sender, ms);
      ClockReadied(c, c, c.sinceLast + ms);
      var d := c.(sinceLast := c.sinceLast + ms);
      SenderReadied(c, d, c.sender.Tick(ms), out);
      d := d.(sender := c.sender.Tick(ms));
      PreparedWf(d);
      if d.sender.retx > MAX_RETX_ATTEMPTS {
        UncleanKeeps(c, d, true);
        var e := d.UncleanShutdown(true);
        PreparedWf(e);
        PushAgain(c, e);
      } else {
        ReadyAndPush(c, d, false);
      }
    }
  }

  lemma ClockReadied(c: Connection, d: Connection, t: nat)
    requires Readied(c, d)
    ensures Readied(c, d.(sinceLast := t))
  {
    hide Sender.Core, Sender.TimerOk, Later, AllGenuine, Receiver.Valid;
  }

  lemma DestroyKeeps(c: Connection)
    requires Endpoint(c) && c.Wf()
    ensures Endpoint(c.Destroy()) && Stepped(c, c.Destroy())
  {
    hide Prepared, Connection.UncleanShutdown, SStateOf, RStateOf, Later, PacketsOk;
    if c.active {
      StreamReadied(c, c.sender.stream);
      UncleanKeeps(c, c, true);
    } else {
      NoStep(c);
    }
  }

  /** The segment gets past the checks at the top of `segment_received`. */
  predicate Took(c: Connection, seg: TcpSegment) {
    c.active && !(seg.header.ack && c.SState() == Closed) && !seg.header.rst
  }

  lemma AckRetx(s: Sender, ackno: U32, win: U16)
    requires s.Valid() && s.stream.Valid()
    ensures s.AckReceived(ackno, win).retx <= s.retx
  {
    hide Sender.FillWindow, PopAcked;
  }

  lemma ReceiverReadied(c: Connection, d: Connection, r: Receiver)
    requires Readied(c, d) && r.Valid() && (d.receiver.reasm.out.error ==> r.reasm.out.error)
    ensures Readied(c, d.(receiver := r))
  {
    hide Sender.Core, Sender.TimerOk, Later, AllGenuine;
  }

  lemma AbsorbReadied(c: Connection, seg: TcpSegment)
    requires Endpoint(c) && c.Wf() && c.active && c.sender.next < TWO64 - TWO32
    ensures var d := c.(sinceLast := 0).Absorb(seg);
            && Readied(c, d) && d.active && d.sinceLast == 0 && d.sender.initialRto == d.rto
            && d.sender.retx <= MAX_RETX_ATTEMPTS
  {
    hide Prepared, SStateOf, RStateOf, Later, PacketsOk, Advances, Sender.AckReceived, Receiver.SegmentReceived, GoodStanding;
    PreparedWf(c);
    StreamReadied(c, c.sender.stream);
    ClockReadied(c, c, 0);
    var d := c.(sinceLast := 0);
    ReceivedValid(c.receiver, seg);
    ReceiverReadied(c, d, c.receiver.SegmentReceived(seg));
    d := d.(receiver := c.receiver.SegmentReceived(seg));
    if seg.header.ack {
      var out := AckAdvances(c.sender, seg.header.ackno, seg.header.win);
      AckRetx(c.sender, seg.header.ackno, seg.header.win);
      SenderReadied(c, d, c.sender.AckReceived(seg.header.ackno, seg.header.win), out);
    }
  }

  lemma ReplyKeeps(c: Connection, d: Connection, seg: TcpSegment)
    requires Readied(c, d) && d.Wf() && d.active && d.sender.initialRto == d.rto && d.sender.retx <= MAX_RETX_ATTEMPTS && !d.sendRst
    ensures Endpoint(d.Reply(seg)) && Stepped(c, d.Reply(seg))
  {
    hide Prepared, Connection.PushSegmentOut, SStateOf, RStateOf, Later, PacketsOk, Sender.SendEmpty;
    ReadyAndPush(c, d, true);
    ReadyAndPush(c, d, false);
    EmptyReadied(c, d);
    EmptyFrame(d.sender);
    ReadyAndPush(c, d.(sender := d.sender.SendEmpty()), false);
  }

  lemma DeliverKeeps(c: Connection, seg: TcpSegment)
    requires Endpoint(c) && c.Wf() && c.sender.next < TWO64 - TWO32
    ensures Endpoint(c.SegmentReceived(seg)) && Stepped(c, c.SegmentReceived(seg))
  {
    hide Prepared, Connection.UncleanShutdown, SStateOf, RStateOf, Later, PacketsOk, Connection.Absorb, Connection.Reply;
    StreamReadied(c, c.sender.stream);
    ClockReadied(c, c, 0);
    var d := c.(sinceLast := 0);
    if !c.active {
      NoStep(c);
    } else if seg.header.ack && c.SState() == Closed {
      assert d.out[|c.out|..] == [];
      NoPackets(d);
    } else if seg.header.rst {
      UncleanKeeps(c, d, false);
    } else {
      AbsorbReadied(c, seg);
      ReplyKeeps(c, d.Absorb(seg), seg);
    }
  }

  /** Every operation keeps an endpoint well formed, its packets genuine and truly acknowledging,
      and moves its sender's state forward, unless bytes were accepted after the FIN. */
  lemma OpKeeps(c: Connection, op: Op)
    requires Endpoint(c) && c.Wf() && Permitted(c, op)
    ensures Endpoint(Do(c, op)) && Stepped(c, Do(c, op))
    ensures Rank(c.SState()) <= Rank(Do(c, op).SState()) <==>
            !(Do(c, op).sender.Late() && Rank(c.SState()) >= Rank(FinSent))
  {
    hide Endpoint, Stepped, Connection.SegmentReceived, Connection.Tick, Connection.Write, Connection.EndInputStream,
         Connection.Connect, Connection.ReadInbound, Connection.Destroy;
    match op {
      case Deliver(seg) => DeliverKeeps(c, seg);
      case Tick(ms) => TickKeeps(c, ms);
      case Write(data) => WriteKeeps(c, data);
      case End => EndKeeps(c);
      case Connect => ConnectKeeps(c);
      case Read(n) => ReadKeeps(c, n);
      case Destroy => DestroyKeeps(c);
    }
    StepForward(c, Do(c, op));
  }

  lemma StepForward(c: Connection, c': Connection)
    requires Endpoint(c) && Endpoint(c') && Stepped(c, c')
    ensures Rank(c.SState()) <= Rank(c'.SState()) <==> !(c'.sender.Late() && Rank(c.SState()) >= Rank(FinSent))
    ensures FinDone(c.sender) ==> FinDone(c'.sender)
  {
    hide Sender.Core, Sender.TimerOk, Later, AllGenuine, Receiver.Valid, PacketsOk, SStateOf, RStateOf;
    SenderStateForward(c.sender, c'.sender);
    LateStays(c.sender, c'.sender);
  }
}
