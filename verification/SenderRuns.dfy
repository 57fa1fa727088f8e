/** Every history of calls on a sender: what the sender's invariants add up to over a whole run. */
module SenderRuns {
  import opened Machine
  import opened WrappingIntegers
  import opened Segments
  import opened ByteStreams
  import opened Senders

  datatype Call =
    | Fill
    | Ack(ackno: U32, win: U16)
    | Tick(ms: nat)
    | Empty
    | Write(data: seq<Byte>)
    | End
    | Drain
    | Fail

  function Do(s: Sender, c: Call): Sender
    requires s.stream.Valid()
  {
    match c
    case Fill => s.FillWindow()
    case Ack(ackno, win) => s.AckReceived(ackno, win)
    case Tick(ms) => s.Tick(ms)
    case Empty => s.SendEmpty()
    case Write(data) => s.(stream := s.stream.Write(data))
    case End => s.(stream := s.stream.EndInput())
    case Drain => s.(queue := [])
    case Fail => s.(stream := s.stream.SetError())
  }

  /** Numbers stay clear of 2^64. */
  predicate Permitted(s: Sender, c: Call) {
    c.Ack? ==> s.next < TWO64 - TWO32
  }

  /** The acknowledgment does not take back room: the right edge it leaves is not below what was sent. */
  predicate Generous(s: Sender, c: Call) {
    c.Ack? && s.Acked(c.ackno) <= s.next ==> s.next <= Max(s.base, s.Acked(c.ackno)) + Max(1, c.win)
  }

  /** The segments that a call sends for the first time. */
  function FirstSent(s: Sender, c: Call): seq<Slot>
    requires s.stream.Valid()
  {
    match c
    case Fill => Tail(s.FillWindow().copies, |s.copies|)
    case Ack(ackno, win) =>
      if s.base < s.Acked(ackno) <= s.next
      then Tail(s.AckReceived(ackno, win).copies, |TakeAck(s, s.Acked(ackno), win).copies|)
      else []
    case _ => []
  }

  function Tail(slots: seq<Slot>, n: nat): seq<Slot> {
    if n <= |slots| then slots[n..] else []
  }

  /** The history `log` of first-time segments carried exactly the bytes read from the stream. */
  ghost predicate Conserves(s: Sender, log: seq<Slot>) {
    && s.Valid()
    && Payloads(log) == s.stream.all[..s.stream.taken]
  }

  /** The flight fits a window of 16 bits, and the oldest copy straddles the base. */
  ghost predicate Inside(s: Sender) {
    && s.InFlight() <= s.window < TWO16
    && s.Straddles()
  }

  ghost predicate Run(s: Sender, calls: seq<Call>, log: seq<Slot>, s': Sender, log': seq<Slot>)
    decreases |calls|
  {
    if calls == [] then s' == s && log' == log
    else
      && s.stream.Valid() && Permitted(s, calls[0])
      && Run(Do(s, calls[0]), calls[1..], log + FirstSent(s, calls[0]), s', log')
  }

  /** The same history, with no acknowledgment that takes back room. */
  ghost predicate GenerousRun(s: Sender, calls: seq<Call>)
    decreases |calls|
  {
    calls == [] || (s.stream.Valid() && Generous(s, calls[0]) && GenerousRun(Do(s, calls[0]), calls[1..]))
  }

  lemma NewSenderConserves(cap: nat, rto: nat, isn: U32)
    ensures Conserves(NewSender(cap, rto, isn), []) && Inside(NewSender(cap, rto, isn))
  {
  }

  /** In every run of a fresh sender: the next number counts SYN, bytes and FIN; the payloads sent
      for the first time concatenate to the bytes read; the copies are a contiguous chain that
      reaches back to the base; the timer runs exactly while there are copies and its timeout is the
      initial one doubled once per consecutive retransmission. */
  lemma RunFromNew(cap: nat, rto: nat, isn: U32, calls: seq<Call>, s': Sender, log': seq<Slot>)
    requires Run(NewSender(cap, rto, isn), calls, [], s', log')
    ensures Conserves(s', log')
  {
    NewSenderConserves(cap, rto, isn);
    RunConserves(NewSender(cap, rto, isn), calls, [], s', log');
  }

  lemma {:induction false} RunConserves(s: Sender, calls: seq<Call>, log: seq<Slot>, s': Sender, log': seq<Slot>)
    requires Conserves(s, log) && Run(s, calls, log, s', log')
    ensures Conserves(s', log')
    decreases |calls|
  {
    hide Conserves, Do, FirstSent, Permitted;
    if calls != [] {
      CallConserves(s, calls[0], log);
      RunConserves(Do(s, calls[0]), calls[1..], log + FirstSent(s, calls[0]), s', log');
    }
  }

  lemma CallConserves(s: Sender, c: Call, log: seq<Slot>)
    requires Conserves(s, log) && s.stream.Valid() && Permitted(s, c)
    ensures Conserves(Do(s, c), log + FirstSent(s, c))
  {
    hide Genuine, Chain, AllSent, Reaches, Sender.FillWindow, Sender.AckReceived;
    PayloadsSplit(log, FirstSent(s, c));
    assert log + [] == log;
    match c
    case Fill => FillConserves(s, log);
    case Ack(ackno, win) => AckConserves(s, ackno, win, log);
    case Tick(ms) => var _ := TickAdvances(s, ms);
    case Empty => EmptyAdvances(s);
    case Write(data) => WriteConserves(s, data);
    case End =>
    case Drain =>
    case Fail =>
  }

  lemma WriteConserves(s: Sender, data: seq<Byte>)
    requires s.Valid()
    ensures var s' := s.(stream := s.stream.Write(data));
            s'.Valid() && s'.stream.all[..s'.stream.taken] == s.stream.all[..s.stream.taken]
  {
    hide Chain, AllSent, Reaches;
    var s' := s.(stream := s.stream.Write(data));
    assert s'.stream.all[..s'.stream.taken] == s.stream.all[..s.stream.taken];
    assert s'.Sent() == s.Sent();
  }

  lemma EmitsConserves(t: Sender, t': Sender, added: seq<Slot>, log: seq<Slot>)
    requires Emits(t, t', added)
    requires Payloads(log) == t.stream.all[..t.stream.taken]
    ensures Tail(t'.copies, |t.copies|) == added
    ensures Payloads(log + added) == t'.stream.all[..t'.stream.taken]
  {
    hide AllSent, Payloads;
    PayloadsSplit(log, added);
  }

  lemma FillConserves(s: Sender, log: seq<Slot>)
    requires s.stream.Valid() && s.Valid()
    requires Payloads(log) == s.stream.all[..s.stream.taken]
    ensures Conserves(s.FillWindow(), log + FirstSent(s, Fill))
  {
    hide Sender.Core, Sender.TimerOk, Emits, Sender.FillWindow, Payloads;
    var added := FillWindowKeeps(s);
    EmitsTimer(s, s.FillWindow(), added);
    EmitsConserves(s, s.FillWindow(), added, log);
  }

  lemma AckConserves(s: Sender, ackno: U32, win: U16, log: seq<Slot>)
    requires s.Valid() && Payloads(log) == s.stream.all[..s.stream.taken]
    requires Permitted(s, Ack(ackno, win))
    ensures Conserves(s.AckReceived(ackno, win), log + FirstSent(s, Ack(ackno, win)))
  {
    hide Sender.Core, Sender.TimerOk, Emits, Sender.FillWindow, Payloads, PopAcked;
    var _ := AckAdvances(s, ackno, win);
    var abs := s.Acked(ackno);
    if s.base < abs <= s.next {
      var t := TakeAck(s, abs, win);
      TakeAckKeeps(s, abs, win);
      var added := FillWindowKeeps(t);
      EmitsConserves(t, t.FillWindow(), added, log);
    } else {
      assert log + [] == log;
    }
  }

  // ---------------------------------------------------------------------------------------
  // Late bytes
  // ---------------------------------------------------------------------------------------

  ghost predicate LateWrite(s: Sender, c: Call) {
    c.Write? && s.AcceptsLate(c.data)
  }

  /** One call makes the sender late exactly if it is such a write. */
  lemma CallLateIff(s: Sender, c: Call)
    requires s.Valid() && s.stream.Valid() && Permitted(s, c)
    ensures Do(s, c).Late() <==> s.Late() || LateWrite(s, c)
  {
    hide Chain, AllSent, Reaches, Sender.FillWindow, Sender.AckReceived, Sender.TimerOk;
    match c
    case Fill => FillWindowLate(s);
    case Ack(ackno, win) => AckLate(s, ackno, win);
    case _ =>
  }

  ghost predicate LateIn(s: Sender, calls: seq<Call>)
    decreases |calls|
  {
    calls != [] && s.stream.Valid() && (LateWrite(s, calls[0]) || LateIn(Do(s, calls[0]), calls[1..]))
  }

  lemma {:induction false} RunLateIff(s: Sender, calls: seq<Call>, log: seq<Slot>, s': Sender, log': seq<Slot>)
    requires Conserves(s, log) && Run(s, calls, log, s', log')
    ensures s'.Late() <==> s.Late() || LateIn(s, calls)
    decreases |calls|
  {
    hide Do, FirstSent, Permitted, Sender.Valid, LateWrite, Sender.Late, Payloads;
    if calls != [] {
      CallConserves(s, calls[0], log);
      CallLateIff(s, calls[0]);
      RunLateIff(Do(s, calls[0]), calls[1..], log + FirstSent(s, calls[0]), s', log');
    }
  }

  /** Once the FIN is out, the payloads sent are the whole stream exactly if no write was accepted after it. */
  lemma AllSentIff(cap: nat, rto: nat, isn: U32, calls: seq<Call>, s': Sender, log': seq<Slot>)
    requires Run(NewSender(cap, rto, isn), calls, [], s', log') && s'.fin
    ensures Payloads(log') == s'.stream.all <==> !LateIn(NewSender(cap, rto, isn), calls)
  {
    hide Run, LateIn, Chain, AllSent, Reaches;
    RunFromNew(cap, rto, isn, calls, s', log');
    NewSenderConserves(cap, rto, isn);
    RunLateIff(NewSender(cap, rto, isn), calls, [], s', log');
    if s'.Late() {
      assert |s'.stream.all[..s'.stream.taken]| < |s'.stream.all|;
    } else {
      assert s'.stream.all[..s'.stream.taken] == s'.stream.all;
    }
  }

  // ---------------------------------------------------------------------------------------
  // Staying inside the window
  // ---------------------------------------------------------------------------------------

  /** At every moment of the history the flight fits the window and the oldest copy straddles the base. */
  ghost predicate InsideThroughout(s: Sender, calls: seq<Call>)
    decreases |calls|
  {
    Inside(s) && (calls == [] || (s.stream.Valid() && InsideThroughout(Do(s, calls[0]), calls[1..])))
  }

  /** A fresh sender stays within the window throughout a history, with its oldest copy not wholly
      acknowledged and copies exactly while something is in flight, if and only if no acknowledgment takes
      back room. */
  lemma StaysInsideIff(cap: nat, rto: nat, isn: U32, calls: seq<Call>, s': Sender, log': seq<Slot>)
    requires Run(NewSender(cap, rto, isn), calls, [], s', log')
    ensures InsideThroughout(NewSender(cap, rto, isn), calls) <==> GenerousRun(NewSender(cap, rto, isn), calls)
  {
    NewSenderConserves(cap, rto, isn);
    RunInsideIff(NewSender(cap, rto, isn), calls, [], s', log');
  }

  lemma {:induction false} RunInsideIff(s: Sender, calls: seq<Call>, log: seq<Slot>, s': Sender, log': seq<Slot>)
    requires Conserves(s, log) && Inside(s) && Run(s, calls, log, s', log')
    ensures InsideThroughout(s, calls) <==> GenerousRun(s, calls)
    decreases |calls|
  {
    hide Conserves, Do, FirstSent, Permitted, Inside, Generous;
    if calls != [] {
      CallConserves(s, calls[0], log);
      CallInsideIff(s, calls[0], log);
      if Inside(Do(s, calls[0])) {
        RunInsideIff(Do(s, calls[0]), calls[1..], log + FirstSent(s, calls[0]), s', log');
      }
    }
  }

  lemma CallInsideIff(s: Sender, c: Call, log: seq<Slot>)
    requires Conserves(s, log) && Inside(s) && s.stream.Valid() && Permitted(s, c)
    ensures Inside(Do(s, c)) <==> Generous(s, c)
  {
    hide Sender.Core, Sender.TimerOk, Sender.FillWindow, Sender.AckReceived, Payloads;
    match c
    case Fill => FillInside(s);
    case Ack(ackno, win) => AckInsideIff(s, ackno, win);
    case Tick(ms) => var _ := TickAdvances(s, ms);
    case Empty =>
    case Write(data) =>
    case End =>
    case Drain =>
    case Fail =>
  }

  lemma FillInside(s: Sender)
    requires s.Core() && s.stream.Valid() && Inside(s)
    ensures Inside(s.FillWindow())
  {
    hide Sender.Core, Sender.FillWindow, Emits, Sender.Straddles;
    var added := FillWindowKeeps(s);
    EmitsFrame(s, s.FillWindow(), added);
    FillWindowStaysInside(s);
    FillStraddles(s, added);
  }

  lemma AckInsideIff(s: Sender, ackno: U32, win: U16)
    requires s.Valid() && s.stream.Valid() && Inside(s) && s.next < TWO64 - TWO32
    ensures Inside(s.AckReceived(ackno, win)) <==> Generous(s, Ack(ackno, win))
  {
    hide Sender.Core, Sender.TimerOk, Sender.FillWindow, Emits, Sender.Straddles, PopAcked;
    AckStraddles(s, ackno, win);
    var abs := s.Acked(ackno);
    if s.base < abs <= s.next {
      var t := TakeAck(s, abs, win);
      TakeAckKeeps(s, abs, win);
      var added := FillWindowKeeps(t);
      EmitsFrame(t, t.FillWindow(), added);
      FillWindowStaysInside(t);
    }
  }

  // ---------------------------------------------------------------------------------------
  // Leaving it
  // ---------------------------------------------------------------------------------------

  /** An old acknowledgment that advertises less than is in flight makes the next call send beyond
      the window, whenever there is anything to send. */
  lemma StaleAckOverruns(s: Sender, ackno: U32, win: U16)
    requires s.Valid() && s.syn && !s.fin && 0 < s.stream.Buffered()
    requires s.Acked(ackno) <= s.base && Max(1, win) < s.InFlight() < TWO64
    ensures var t := s.AckReceived(ackno, win);
            && t.Core() && t.base == s.base && t.next == s.next
            && t.next < t.FillWindow().next && t.window < t.FillWindow().InFlight()
  {
    hide Chain, AllSent, Reaches, Emits, Sender.SendData, Sender.FillLoop;
    var t := s.AckReceived(ackno, win);
    var added := FillLoopKeeps(t, t.Space());
    EmitsFrame(t, t.FillWindow(), added);
  }

  /** The connection opens with a window of two, three bytes are written and two of them sent; then an
      acknowledgment that is not new advertises a window of one. */
  function OverrunHistory(isn: U32, a: Byte, b: Byte, c: Byte): seq<Call> {
    [Fill, Ack(Wrap(1, isn), 2), Write([a, b, c]), Fill, Drain, Ack(Wrap(1, isn), 1), Fill]
  }

  /** The whole failing history of a fresh sender: it ends with more in flight than the window allows. */
  lemma OverrunIsReached(isn: U32, a: Byte, b: Byte, c: Byte) returns (s': Sender, log: seq<Slot>)
    ensures Run(NewSender(3, 1000, isn), OverrunHistory(isn, a, b, c), [], s', log)
    ensures s'.window < s'.InFlight()
  {
    hide Run, Do, FirstSent, Permitted, Stream.Valid, Wrap, NewSender, Sender.Valid, Sender.Acked;
    var s0 := NewSender(3, 1000, isn);
    var ack2, ack1, write := Ack(Wrap(1, isn), 2), Ack(Wrap(1, isn), 1), Write([a, b, c]);
    var s1, s2 := Opened(isn);
    var s3, s4 := TwoSent(isn, s2, a, b, c);
    var s5, s6 := Overrun(isn, s4);
    s' := Do(s6, Fill);
    var l1 := [] + FirstSent(s0, Fill);
    var l2 := l1 + FirstSent(s1, ack2);
    var l3 := l2 + FirstSent(s2, write);
    var l4 := l3 + FirstSent(s3, Fill);
    var l5 := l4 + FirstSent(s4, Drain);
    var l6 := l5 + FirstSent(s5, ack1);
    log := l6 + FirstSent(s6, Fill);
    RunEnds(s', log);
    RunStep(s6, Fill, [], l6, s', log);
    RunStep(s5, ack1, [Fill] + [], l5, s', log);
    RunStep(s4, Drain, [ack1] + ([Fill] + []), l4, s', log);
    RunStep(s3, Fill, [Drain] + ([ack1] + ([Fill] + [])), l3, s', log);
    RunStep(s2, write, [Fill] + ([Drain] + ([ack1] + ([Fill] + []))), l2, s', log);
    RunStep(s1, ack2, [write] + ([Fill] + ([Drain] + ([ack1] + ([Fill] + [])))), l1, s', log);
    RunStep(s0, Fill, [ack2] + ([write] + ([Fill] + ([Drain] + ([ack1] + ([Fill] + []))))), [], s', log);
    assert [Fill] + ([ack2] + ([write] + ([Fill] + ([Drain] + ([ack1] + ([Fill] + [])))))) == OverrunHistory(isn, a, b, c);
  }

  lemma RunEnds(s: Sender, log: seq<Slot>)
    ensures Run(s, [], log, s, log)
  {
  }

  lemma RunStep(s: Sender, c: Call, rest: seq<Call>, log: seq<Slot>, s': Sender, log': seq<Slot>)
    requires s.stream.Valid() && Permitted(s, c) && Run(Do(s, c), rest, log + FirstSent(s, c), s', log')
    ensures Run(s, [c] + rest, log, s', log')
  {
    hide Do, FirstSent, Permitted;
    assert ([c] + rest)[1..] == rest;
  }

  /** The SYN goes out and is acknowledged. */
  lemma Opened(isn: U32) returns (s1: Sender, s2: Sender)
    ensures NewSender(3, 1000, isn).stream.Valid() && Permitted(NewSender(3, 1000, isn), Fill)
    ensures s1 == Do(NewSender(3, 1000, isn), Fill) && s1.stream.Valid() && Permitted(s1, Ack(Wrap(1, isn), 2))
    ensures s2 == Do(s1, Ack(Wrap(1, isn), 2))
    ensures s2 == NewSender(3, 1000, isn).(next := 1, base := 1, window := 2, syn := true, queue := s1.queue,
                                           timer := Timer(false, 0, 0))
  {
    s1 := NewSender(3, 1000, isn).FillWindow();
    UnwrapWrap(1, isn, 0);
    UnwrapWrap(0, isn, 1);
    var slot := s1.copies[0];
    assert s1.copies == [slot] && slot.seg.header.seqno == Wrap(0, isn) && [slot][1..] == [];
    assert PopAcked([slot], isn, 1, 1) == PopAcked([], isn, 1, 1);
    s2 := s1.AckReceived(Wrap(1, isn), 2);
    assert s2 == TakeAck(s1, 1, 2).FillWindow().RestartTimer();
  }

  /** Three bytes are written, the window lets two of them go. */
  lemma TwoSent(isn: U32, s2: Sender, a: Byte, b: Byte, c: Byte) returns (s3: Sender, s4: Sender)
    requires s2 == NewSender(3, 1000, isn).(next := 1, base := 1, window := 2, syn := true, queue := s2.queue,
                                            timer := Timer(false, 0, 0))
    ensures s2.stream.Valid() && Permitted(s2, Write([a, b, c])) && s3 == Do(s2, Write([a, b, c]))
    ensures s3.stream.Valid() && Permitted(s3, Fill) && s4 == Do(s3, Fill)
    ensures s4.Valid() && s4.syn && !s4.fin && s4.stream.Buffered() == 1 && !s4.stream.ended && s4.isn == isn
    ensures s4.base == 1 && s4.next == 3
  {
    s3 := Do(s2, Write([a, b, c]));
    assert s3.stream.all == [a, b, c];
    s4 := s3.FillWindow();
    var t := s3.SendData(2);
    assert t.FillLoop(0) == t;
    assert s4 == t;
    var _ := FillWindowAdvances(s3);
  }

  /** The window shrinks to one and the third byte goes out all the same. */
  lemma Overrun(isn: U32, s4: Sender) returns (s5: Sender, s6: Sender)
    requires s4.Valid() && s4.syn && !s4.fin && s4.stream.Buffered() == 1 && !s4.stream.ended && s4.isn == isn
    requires s4.base == 1 && s4.next == 3
    ensures s4.stream.Valid() && Permitted(s4, Drain) && s5 == Do(s4, Drain)
    ensures s5.stream.Valid() && Permitted(s5, Ack(Wrap(1, isn), 1)) && s6 == Do(s5, Ack(Wrap(1, isn), 1))
    ensures s6.stream.Valid() && Permitted(s6, Fill) && Do(s6, Fill).window < Do(s6, Fill).InFlight()
  {
    hide Chain, AllSent, Reaches, Sender.FillWindow, Wrap;
    s5 := s4.(queue := []);
    UnwrapWrap(1, isn, 1);
    StaleAckOverruns(s5, Wrap(1, isn), 1);
    s6 := s5.AckReceived(Wrap(1, isn), 1);
    var added := FillWindowKeeps(s6);
    EmitsFrame(s6, s6.FillWindow(), added);
  }
}
