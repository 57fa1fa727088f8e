/** What each operation of a connection does to the window and the flight of its sender. */
module SenderEffects {
  import opened Machine
  import opened Segments
  import opened Receivers
  import opened Senders
  import opened Connections
  import opened ConnectionSteps
  import opened ConnectionEffects

  /** What is in flight fits the window, and the window fits its field. */
  predicate Fitted(s: Sender) {
    s.InFlight() <= s.window < TWO16
  }

  /** The sender may have sent more of what was written, but not beyond its window if it was inside, and not what
      is late. */
  predicate Grew(s: Sender, s': Sender) {
    && s'.window == s.window && s'.base == s.base && s.next <= s'.next
    && s'.stream.all == s.stream.all && s'.stream.cap == s.stream.cap
    && (Fitted(s) ==> Fitted(s'))
    && (s'.Late() <==> s.Late())
  }

  /** The sender with the acknowledgment noted, before anything is sent for it. */
  function Noted(s: Sender, ackno: U32, win: U16): Sender {
    var abs := s.Acked(ackno);
    if abs > s.next then s
    else if abs <= s.base then s.(window := if win == 0 then 1 else win, windowZero := win == 0)
    else TakeAck(s, abs, win)
  }

  /** The sender with what `op` brings for it, before anything is sent. */
  function Supplied(c: Connection, op: Op): Sender
    requires c.Wf()
  {
    match op
    case Deliver(seg) => if Took(c, seg) && seg.header.ack then Noted(c.sender, seg.header.ackno, seg.header.win) else c.sender
    case Write(data) => c.sender.(stream := c.sender.stream.Write(data))
    case End => c.sender.(stream := c.sender.stream.EndInput())
    case _ => c.sender
  }

  lemma SameGrew(s: Sender, s': Sender)
    requires s'.window == s.window && s'.base == s.base && s'.next == s.next
    requires s'.fin == s.fin && s'.stream.all == s.stream.all && s'.stream.taken == s.stream.taken && s'.stream.cap == s.stream.cap
    ensures Grew(s, s')
  {
  }

  lemma GrewTrans(s: Sender, t: Sender, u: Sender)
    requires Grew(s, t) && Grew(t, u)
    ensures Grew(s, u)
  {
    hide Fitted, Sender.Late;
  }

  lemma FillGrew(s: Sender)
    requires s.Core()
    ensures s.stream.Valid() && Grew(s, s.FillWindow())
  {
    hide Sender.Core, Sender.FillWindow, Emits, Sender.Late;
    CoreStream(s);
    var added := FillWindowKeeps(s);
    EmitsFrame(s, s.FillWindow(), added);
    FillWindowLate(s);
    if Fitted(s) {
      FillWindowStaysInside(s);
    }
  }

  lemma CoreStream(s: Sender)
    requires s.Core()
    ensures s.stream.Valid()
  {
    hide Chain, AllSent, Reaches;
  }

  lemma PushGrew(c: Connection, sendSyn: bool)
    requires Prepared(c) && c.Wf()
    ensures Grew(c.sender, c.PushSegmentOut(sendSyn).sender)
  {
    hide Connection.PushSegmentOut, Sender.FillWindow, AllGenuine, Sender.Core, Sender.TimerOk, SStateOf, RStateOf, Grew, Receiver.Valid;
    PushSender(c, sendSyn);
    FillGrew(c.sender);
    SameGrew(c.sender, c.sender.(queue := []));
    SameGrew(c.sender.FillWindow(), c.sender.FillWindow().(queue := []));
    if c.PushSegmentOut(sendSyn).sender == c.sender.FillWindow().(queue := []) {
      GrewTrans(c.sender, c.sender.FillWindow(), c.sender.FillWindow().(queue := []));
    }
  }

  lemma EmptyGrew(c: Connection)
    requires Prepared(c) && c.Wf()
    ensures var e := c.(sender := c.sender.SendEmpty()); e.Wf() && Grew(c.sender, e.PushSegmentOut(false).sender)
  {
    hide Prepared, Connection.PushSegmentOut, Grew;
    var e := c.(sender := c.sender.SendEmpty());
    EmptyPrepared(c);
    SameGrew(c.sender, e.sender);
    PushGrew(e, false);
    GrewTrans(c.sender, e.sender, e.PushSegmentOut(false).sender);
  }

  lemma UncleanGrew(c: Connection, rst: bool)
    requires Prepared(c) && c.Wf()
    ensures Grew(c.sender, c.UncleanShutdown(rst).sender)
  {
    hide Prepared, Connection.PushSegmentOut, Grew, Sender.SendEmpty;
    FailReadied(c);
    SameGrew(c.sender, Fail(c).sender);
    if rst {
      var e := Fail(c).(sendRst := true);
      RstReadied(c, Fail(c));
      PreparedWf(e);
      EmptyGrew(e);
      PushGrew(e, false);
      GrewTrans(c.sender, e.sender, c.UncleanShutdown(rst).sender);
    }
  }

  lemma TickGrew(c: Connection, ms: nat)
    requires Endpoint(c) && c.Wf()
    ensures Grew(c.sender, c.Tick(ms).sender)
  {
    hide Prepared, Connection.PushSegmentOut, Connection.UncleanShutdown, GoodStanding, Later, Advances, Backed, Grew, Sender.Tick;
    SameGrew(c.sender, c.sender);
    if c.active {
      SelfReadied(c);
      PreparedWf(c);
      ClockReadied(c, c, c.sinceLast + ms);
      var out := TickAdvances(c.sender, ms);
      var k := c.(sinceLast := c.sinceLast + ms);
      SenderReadied(c, k, c.sender.Tick(ms), out);
      var d := k.(sender := c.sender.Tick(ms));
      PreparedWf(d);
      TickSame(c.sender, ms);
      if d.sender.retx > MAX_RETX_ATTEMPTS {
        UncleanGrew(d, true);
        UncleanKeeps(c, d, true);
        var e := d.UncleanShutdown(true);
        PreparedWf(e);
        PushGrew(e, false);
        GrewTrans(c.sender, d.sender, e.sender);
        GrewTrans(c.sender, e.sender, c.Tick(ms).sender);
      } else {
        PushGrew(d, false);
        GrewTrans(c.sender, d.sender, c.Tick(ms).sender);
      }
    }
  }

  lemma TickSame(s: Sender, ms: nat)
    ensures Grew(s, s.Tick(ms))
  {
    hide Grew;
    SameGrew(s, s.Tick(ms));
  }

  lemma ReplyGrew(d: Connection, seg: TcpSegment)
    requires Prepared(d) && d.Wf()
    ensures Grew(d.sender, d.Reply(seg).sender)
  {
    hide Prepared, Connection.PushSegmentOut, SStateOf, RStateOf, Grew, Sender.SendEmpty;
    PushGrew(d, true);
    PushGrew(d, false);
    EmptyGrew(d);
  }

  lemma AckGrew(s: Sender, ackno: U32, win: U16)
    requires s.Valid() && s.stream.Valid() && s.next < TWO64 - TWO32
    ensures Grew(Noted(s, ackno, win), s.AckReceived(ackno, win))
  {
    hide Sender.Core, Sender.TimerOk, Sender.FillWindow, PopAcked, Sender.Acked, Grew;
    var abs := s.Acked(ackno);
    var t := Noted(s, ackno, win);
    SameGrew(t, t);
    if s.base < abs <= s.next {
      TakeAckKeeps(s, abs, win);
      FillGrew(t);
      SameGrew(t.FillWindow(), t.FillWindow().RestartTimer());
      GrewTrans(t, t.FillWindow(), t.FillWindow().RestartTimer());
    }
  }

  lemma DeliverGrew(c: Connection, seg: TcpSegment)
    requires Endpoint(c) && c.Wf() && c.sender.next < TWO64 - TWO32
    ensures Grew(Supplied(c, Deliver(seg)), c.SegmentReceived(seg).sender)
  {
    hide Prepared, Connection.UncleanShutdown, Connection.Reply, Connection.Absorb, GoodStanding, SStateOf, RStateOf, Grew, Noted;
    SameGrew(c.sender, c.sender);
    if c.active && !(seg.header.ack && c.SState() == Closed) {
      SelfReadied(c);
      ClockReadied(c, c, 0);
      var k := c.(sinceLast := 0);
      PreparedWf(k);
      if seg.header.rst {
        UncleanGrew(k, false);
      } else {
        AbsorbReadied(c, seg);
        AbsorbGrew(k, seg);
        ReplyGrew(k.Absorb(seg), seg);
        GrewTrans(Supplied(c, Deliver(seg)), k.Absorb(seg).sender, c.SegmentReceived(seg).sender);
      }
    }
  }

  lemma AbsorbGrew(c: Connection, seg: TcpSegment)
    requires c.sender.Valid() && c.Wf() && c.sender.next < TWO64 - TWO32
    ensures Grew(if seg.header.ack then Noted(c.sender, seg.header.ackno, seg.header.win) else c.sender, c.Absorb(seg).sender)
  {
    hide Receiver.SegmentReceived, Sender.AckReceived, Sender.Core, Sender.TimerOk, Grew, Noted;
    SameGrew(c.sender, c.sender);
    AckGrew(c.sender, seg.header.ackno, seg.header.win);
  }

  /** Every operation, once it has noted what it brings, only sends more: within the window if the sender is
      inside it, and never anything late. */
  lemma OpGrew(c: Connection, op: Op)
    requires Endpoint(c) && c.Wf() && Permitted(c, op)
    ensures Grew(Supplied(c, op), Do(c, op).sender)
  {
    hide Prepared, Connection.PushSegmentOut, Connection.UncleanShutdown, Connection.SegmentReceived, Connection.Tick, GoodStanding, Grew,
         Noted, SStateOf, RStateOf;
    SameGrew(c.sender, c.sender);
    match op {
      case Deliver(seg) => DeliverGrew(c, seg);
      case Tick(ms) => TickGrew(c, ms);
      case Write(data) =>
        var t := c.sender.stream.Write(data);
        StreamReadied(c, t);
        PreparedWf(c.(sender := c.sender.(stream := t)));
        PushGrew(c.(sender := c.sender.(stream := t)), false);
      case End =>
        var t := c.sender.stream.EndInput();
        StreamReadied(c, t);
        PreparedWf(c.(sender := c.sender.(stream := t)));
        PushGrew(c.(sender := c.sender.(stream := t)), false);
      case Connect => PushGrew(c, true);
      case Read(n) =>
      case Destroy => UncleanGrew(c, true);
    }
  }
}
