/** Time at a sender: over every history of calls, a retransmission comes exactly when the ticks add up. */
module SenderTimers {
  import opened Machine
  import opened Senders
  import opened SenderRuns

  /** The owner's own account: the time since the timer was last to start afresh, how often the segment timed out
      with the peer's window open since an acknowledgment last moved the base, and whether the window that was
      last taken was zero. */
  datatype Watch = Watch(since: nat, backoffs: nat, closed: bool)

  const START: Watch := Watch(0, 0, false)

  /** When the oldest segment is to be sent again. */
  function Due(rto: nat, w: Watch): nat {
    rto * Pow2(w.backoffs)
  }

  /** The account after a call. The clock starts afresh when something is outstanding again after nothing was, when an
      acknowledgment moves the base, and when the segment has timed out. */
  function Observe(w: Watch, s: Sender, c: Call): Watch
    requires s.stream.Valid()
  {
    match c
    case Fill => if s.copies == [] && Do(s, c).copies != [] then w.(since := 0) else w
    case Ack(ackno, win) =>
      if s.Acked(ackno) > s.next then w
      else if s.Acked(ackno) <= s.base then w.(closed := win == 0)
      else Watch(0, 0, win == 0)
    case Tick(ms) =>
      if s.copies == [] then w
      else if w.since + ms >= Due(s.initialRto, w) then Watch(0, if w.closed then w.backoffs else w.backoffs + 1, w.closed)
      else w.(since := w.since + ms)
    case _ => w
  }

  ghost function Watched(s: Sender, calls: seq<Call>, w: Watch): Watch
    decreases |calls|
  {
    if calls == [] || !s.stream.Valid() then w
    else Watched(Do(s, calls[0]), calls[1..], Observe(w, s, calls[0]))
  }

  /** The sender's counters say what the owner's account says. */
  predicate InStep(s: Sender, w: Watch) {
    && (s.copies != [] ==> s.timer.total == w.since)
    && s.retx == w.backoffs && s.windowZero == w.closed
  }

  lemma CallInStep(s: Sender, c: Call, w: Watch)
    requires s.Valid() && s.stream.Valid() && InStep(s, w) && Permitted(s, c)
    ensures InStep(Do(s, c), Observe(w, s, c))
  {
    hide Sender.Core, Sender.FillWindow, Pow2, PopAcked, Emits, Sender.Acked;
    match c
    case Fill =>
      var added := FillWindowKeeps(s);
      EmitsFrame(s, s.FillWindow(), added);
    case Ack(ackno, win) =>
      var _ := AckAdvances(s, ackno, win);
    case _ =>
  }

  lemma {:induction false} RunInStep(s: Sender, calls: seq<Call>, log: seq<Slot>, s': Sender, log': seq<Slot>, w: Watch)
    requires Conserves(s, log) && InStep(s, w) && Run(s, calls, log, s', log')
    ensures InStep(s', Watched(s, calls, w)) && s'.initialRto == s.initialRto
    decreases |calls|
  {
    hide Do, FirstSent, Permitted, Sender.Valid, InStep, Observe, Payloads;
    if calls != [] {
      CallConserves(s, calls[0], log);
      CallInStep(s, calls[0], w);
      CallRto(s, calls[0]);
      RunInStep(Do(s, calls[0]), calls[1..], log + FirstSent(s, calls[0]), s', log', Observe(w, s, calls[0]));
    }
  }

  lemma CallRto(s: Sender, c: Call)
    requires s.Valid() && s.stream.Valid() && Permitted(s, c)
    ensures Do(s, c).initialRto == s.initialRto
  {
    hide Sender.FillWindow, PopAcked, Emits, Chain, AllSent, Reaches, Pow2;
    match c
    case Fill =>
      var added := FillWindowKeeps(s);
      EmitsFrame(s, s.FillWindow(), added);
    case Ack(ackno, win) =>
      var _ := AckAdvances(s, ackno, win);
    case _ =>
  }

  /** At any moment of any history of a fresh sender, a tick sends the oldest outstanding segment again if and only
      if the ticks since the clock last started afresh, with this one, add up to the initial timeout doubled once per
      backoff; otherwise it sends nothing. */
  lemma TickTimesOutIff(cap: nat, rto: nat, isn: U32, calls: seq<Call>, s': Sender, log': seq<Slot>, ms: nat)
    requires Run(NewSender(cap, rto, isn), calls, [], s', log')
    ensures var w := Watched(NewSender(cap, rto, isn), calls, START);
            && s'.retx == w.backoffs && s'.windowZero == w.closed
            && s'.Tick(ms).queue ==
               s'.queue + if s'.copies != [] && w.since + ms >= Due(rto, w) then [s'.copies[0]] else []
  {
    hide Run, Watched, Sender.Core, Pow2, Sender.Tick, Payloads;
    NewSenderConserves(cap, rto, isn);
    RunInStep(NewSender(cap, rto, isn), calls, [], s', log', START);
    RunFromNew(cap, rto, isn, calls, s', log');
    var out := TickAdvances(s', ms);
    TickQueue(s', ms, out);
  }

  lemma TickQueue(s: Sender, ms: nat, out: seq<Slot>)
    requires Advances(s, s.Tick(ms), out)
    ensures s.Tick(ms).queue == s.queue + out
  {
  }
}
