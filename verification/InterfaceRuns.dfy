/** What every run of a network interface keeps: no datagram is lost or duplicated on its way to a next hop,
    requests are spaced out, frames go to fresh addresses; and exactly when the order is kept. */
module InterfaceRuns {
  import opened Machine
  import opened Datagrams
  import opened Interfaces

  /** An interface, everything that has happened to it, and the frames its owner has taken. */
  datatype History = History(s: Interface, log: seq<Event>, taken: seq<Frame>)

  /** A flush of the queue for `hop` was cut short by a datagram that cannot be serialized. */
  predicate Stalled(log: seq<Event>, hop: U32) {
    Interrupted(hop) in log
  }

  predicate FramedFor(e: Event, hop: U32) {
    e.Framed? && e.hop == hop
  }

  /** Since then a later datagram has gone out to `hop`. */
  ghost predicate Overtaken(log: seq<Event>, hop: U32) {
    exists i, j :: 0 <= i < j < |log| && log[i] == Interrupted(hop) && FramedFor(log[j], hop)
  }

  ghost predicate Differ(a: seq<Datagram>, b: seq<Datagram>) {
    exists x :: 0 <= x < |a| && x < |b| && a[x] != b[x]
  }

  ghost predicate AllFine(ds: seq<Datagram>) {
    forall d <- ds :: d.Sendable()
  }

  /** Datagrams framed, waiting and submitted for one address: none is lost or duplicated, and they are in order
      unless one has overtaken others. */
  ghost predicate Accounts(framed: seq<Datagram>, queue: seq<Datagram>, submitted: seq<Datagram>, overtaken: bool) {
    && multiset(framed) + multiset(queue) == multiset(submitted)
    && (if overtaken then Differ(framed, submitted) else framed + queue == submitted)
    && AllFine(framed)
  }

  /** Which addresses have datagrams waiting. */
  predicate Tables(s: Interface, hop: U32, stalled: bool) {
    && (hop in s.waiting ==> s.waiting[hop] != [])
    && (hop in s.waiting <==> hop in s.asked || stalled)
    && (stalled ==> s.Queue(hop) != [] && !s.Queue(hop)[0].Sendable())
    && (hop in s.cache && s.cache[hop].mac != NO_MAC && hop in s.waiting ==> stalled)
  }

  /** The cache holds the last announcement, unless it is too old, and the table of requests the last one. */
  predicate Memory(s: Interface, hop: U32, known: Option<Entry>, requested: Option<nat>) {
    && (if hop in s.cache then known == Some(s.cache[hop]) && s.cache[hop].stamp <= s.time
        else known.None? || s.time > known.value.stamp + MAPPING_TTL)
    && requested == if hop in s.asked then Some(s.asked[hop]) else None
  }

  /** The interface's tables agree with what happened, for one address. */
  ghost predicate Book(s: Interface, log: seq<Event>, hop: U32) {
    && Accounts(FramedTo(log, hop), s.Queue(hop), SubmittedTo(log, hop), Overtaken(log, hop))
    && Tables(s, hop, Stalled(log, hop))
    && Memory(s, hop, LastAnnounced(log, hop), LastRequested(log, hop))
  }

  ghost predicate Books(s: Interface, log: seq<Event>) {
    forall hop: U32 :: Book(s, log, hop)
  }

  ghost predicate Inv(h: History) {
    && Books(h.s, h.log)
    && AllJustified(h.log)
    && h.taken + h.s.framesOut == FramesOf(h.s, h.log)
  }

  ghost predicate Fresh(h: History) {
    exists mac: Mac, ip: U32 :: h == History(NewInterface(mac, ip), [], [])
  }

  ghost predicate Next(h: History, k: History, op: Op) {
    && Permitted(h.s, op)
    && k.s == Do(h.s, op)
    && k.log == h.log + Events(h.s, op)
    && k.taken == h.taken + if op.Take? then [h.s.framesOut[0]] else []
  }

  ghost predicate IsRun(run: seq<History>, ops: seq<Op>) {
    && |run| == |ops| + 1
    && Fresh(run[0])
    && forall i :: 0 <= i < |ops| ==> Next(run[i], run[i + 1], ops[i])
  }

  // ---- Growing the history ----

  lemma Logged(log: seq<Event>, e: Event, hop: U32)
    ensures SubmittedTo(log + [e], hop) ==
            if e.Submitted? && e.hop == hop then SubmittedTo(log, hop) + [e.d] else SubmittedTo(log, hop)
    ensures FramedTo(log + [e], hop) == if FramedFor(e, hop) then FramedTo(log, hop) + [e.d] else FramedTo(log, hop)
    ensures LastAnnounced(log + [e], hop) ==
            if e.Announced? && e.hop == hop then Some(Entry(e.mac, e.time)) else LastAnnounced(log, hop)
    ensures LastRequested(log + [e], hop) ==
            if e.Announced? && e.hop == hop then None
            else if e.Requested? && e.hop == hop then Some(e.time) else LastRequested(log, hop)
    ensures Stalled(log + [e], hop) <==> Stalled(log, hop) || e == Interrupted(hop)
    ensures Overtaken(log + [e], hop) <==> Overtaken(log, hop) || (Stalled(log, hop) && FramedFor(e, hop))
  {
    assert (log + [e])[..|log|] == log;
    LoggedOvertaken(log, e, hop);
  }

  lemma LoggedOvertaken(log: seq<Event>, e: Event, hop: U32)
    ensures Overtaken(log + [e], hop) <==> Overtaken(log, hop) || (Stalled(log, hop) && FramedFor(e, hop))
  {
    var more := log + [e];
    if Overtaken(log, hop) {
      var i, j :| 0 <= i < j < |log| && log[i] == Interrupted(hop) && FramedFor(log[j], hop);
      assert more[i] == Interrupted(hop) && FramedFor(more[j], hop);
    }
    if Stalled(log, hop) && FramedFor(e, hop) {
      var i :| 0 <= i < |log| && log[i] == Interrupted(hop);
      assert more[i] == Interrupted(hop) && FramedFor(more[|log|], hop);
    }
    if Overtaken(more, hop) {
      var i, j :| 0 <= i < j < |more| && more[i] == Interrupted(hop) && FramedFor(more[j], hop);
      assert log[i] == Interrupted(hop);
      assert j < |log| ==> FramedFor(log[j], hop);
    }
  }

  lemma LoggedJustified(log: seq<Event>, e: Event)
    requires AllJustified(log) && Justified(log, e)
    ensures AllJustified(log + [e])
  {
    hide Justified;
    forall j | 0 <= j < |log| + 1
      ensures Justified((log + [e])[..j], (log + [e])[j])
    {
      assert (log + [e])[..j] == log[..j];
      if j == |log| {
        assert log[..j] == log;
      }
    }
  }

  lemma LoggedFrames(s: Interface, log: seq<Event>, e: Event)
    ensures FramesOf(s, log + [e]) == FramesOf(s, log) + FrameOf(s, e)
  {
    assert (log + [e])[..|log|] == log;
  }

  lemma {:induction false} FramesSplit(s: Interface, a: seq<Event>, b: seq<Event>)
    ensures FramesOf(s, a + b) == FramesOf(s, a) + FramesOf(s, b)
    decreases |b|
  {
    hide FrameOf;
    if b == [] {
      assert a + b == a;
    } else {
      var n := |b| - 1;
      FramesSplit(s, a, b[..n]);
      assert (a + b)[..|a| + n] == a + b[..n];
    }
  }

  lemma {:induction false} FramesOfSame(s: Interface, t: Interface, log: seq<Event>)
    requires s.mac == t.mac && s.ip == t.ip
    ensures FramesOf(s, log) == FramesOf(t, log)
  {
    if log != [] {
      FramesOfSame(s, t, log[..|log| - 1]);
    }
  }

  /** Framing a whole queue. */
  lemma {:induction false} LoggedFlush(log: seq<Event>, hop: U32, q: seq<Datagram>, mac: Mac, time: nat, other: U32)
    ensures var more := log + Flushed(hop, q, mac, time);
            && SubmittedTo(more, other) == SubmittedTo(log, other)
            && FramedTo(more, other) == (if other == hop then FramedTo(log, other) + q else FramedTo(log, other))
            && LastAnnounced(more, other) == LastAnnounced(log, other)
            && LastRequested(more, other) == LastRequested(log, other)
            && (Stalled(more, other) <==> Stalled(log, other))
            && (Overtaken(more, other) <==> Overtaken(log, other) || (other == hop && q != [] && Stalled(log, other)))
    decreases |q|
  {
    hide SubmittedTo, FramedTo, LastAnnounced, LastRequested, Stalled, Overtaken;
    if q == [] {
      assert log + Flushed(hop, q, mac, time) == log && FramedTo(log, other) + q == FramedTo(log, other);
    } else {
      var n := |q| - 1;
      LoggedFlush(log, hop, q[..n], mac, time, other);
      var before := log + Flushed(hop, q[..n], mac, time);
      var e := Framed(hop, q[n], mac, time);
      assert log + Flushed(hop, q, mac, time) == before + [e];
      Logged(before, e, other);
      assert FramedTo(log, other) + q[..n] + [q[n]] == FramedTo(log, other) + q;
    }
  }

  lemma {:induction false} FlushJustified(log: seq<Event>, hop: U32, q: seq<Datagram>, mac: Mac, time: nat)
    requires AllJustified(log) && LastAnnounced(log, hop) == Some(Entry(mac, time))
    ensures AllJustified(log + Flushed(hop, q, mac, time))
    decreases |q|
  {
    hide AllJustified, LastAnnounced, Stalled, Overtaken;
    if q == [] {
      assert log + Flushed(hop, q, mac, time) == log;
    } else {
      var n := |q| - 1;
      FlushJustified(log, hop, q[..n], mac, time);
      LoggedFlush(log, hop, q[..n], mac, time, hop);
      var before := log + Flushed(hop, q[..n], mac, time);
      var e := Framed(hop, q[n], mac, time);
      assert log + Flushed(hop, q, mac, time) == before + [e];
      LoggedJustified(before, e);
    }
  }

  lemma {:induction false} FlushFrames(s: Interface, hop: U32, q: seq<Datagram>, mac: Mac, time: nat)
    requires AllFine(q)
    ensures Fine(q) == |q| && FramesOf(s, Flushed(hop, q, mac, time)) == s.Packets(q, mac)
  {
    hide Datagram.Sendable, Datagram.Bytes, Fine;
    assert forall i :: 0 <= i < |q| ==> q[i] in q;
    if q != [] {
      var n := |q| - 1;
      FlushFrames(s, hop, q[..n], mac, time);
      assert q[n] in q;
      assert Flushed(hop, q, mac, time)[..n] == Flushed(hop, q[..n], mac, time);
      assert s.Packets(q, mac) == s.Packets(q[..n], mac) + [s.Packet(q[n], mac)];
    }
  }

  // ---- Accounts ----

  lemma DifferGrows(a: seq<Datagram>, b: seq<Datagram>, more: seq<Datagram>, others: seq<Datagram>)
    requires Differ(a, b)
    ensures Differ(a + more, b + others)
  {
    var x :| 0 <= x < |a| && x < |b| && a[x] != b[x];
    assert (a + more)[x] != (b + others)[x];
  }

  lemma DifferIsNotPrefix(a: seq<Datagram>, b: seq<Datagram>, q: seq<Datagram>)
    requires Differ(a, b)
    ensures a + q != b
  {
    var x :| 0 <= x < |a| && x < |b| && a[x] != b[x];
    assert (a + q)[x] == a[x];
  }

  /** A datagram joins the queue. */
  lemma AccountsQueued(framed: seq<Datagram>, queue: seq<Datagram>, submitted: seq<Datagram>, overtaken: bool, d: Datagram)
    requires Accounts(framed, queue, submitted, overtaken)
    ensures Accounts(framed, queue + [d], submitted + [d], overtaken)
  {
    if overtaken {
      DifferGrows(framed, submitted, [], [d]);
      assert framed + [] == framed;
    } else {
      assert framed + (queue + [d]) == framed + queue + [d];
    }
  }

  /** A datagram is framed at once, past those that wait. */
  lemma AccountsFramed(framed: seq<Datagram>, queue: seq<Datagram>, submitted: seq<Datagram>, overtaken: bool, d: Datagram)
    requires Accounts(framed, queue, submitted, overtaken) && d.Sendable()
    requires queue != [] ==> !queue[0].Sendable()
    requires overtaken ==> queue != []
    ensures Accounts(framed + [d], queue, submitted + [d], queue != [])
  {
    hide Datagram.Sendable;
    if overtaken {
      DifferGrows(framed, submitted, [d], [d]);
    } else if queue != [] {
      var x := |framed|;
      assert (framed + [d])[x] == d && (submitted + [d])[x] == (framed + queue)[x] == queue[0];
    } else {
      assert framed + [] == framed;
    }
  }

  /** The front of the queue is framed. */
  lemma AccountsFlushed(framed: seq<Datagram>, queue: seq<Datagram>, submitted: seq<Datagram>, overtaken: bool, n: nat)
    requires Accounts(framed, queue, submitted, overtaken) && n <= |queue| && AllFine(queue[..n])
    requires overtaken ==> n == 0
    ensures Accounts(framed + queue[..n], queue[n..], submitted, overtaken)
  {
    hide Datagram.Sendable;
    assert queue == queue[..n] + queue[n..];
    if overtaken {
      assert framed + queue[..n] == framed && queue[n..] == queue;
    } else {
      assert framed + queue[..n] + queue[n..] == framed + queue;
    }
  }

  // ---- Sending ----

  /** The event after the submission, if there is one. */
  function Second(s: Interface, d: Datagram, hop: U32): Event {
    if s.Known(hop) != NO_MAC then Framed(hop, d, s.Known(hop), s.time) else Requested(hop, s.time)
  }

  lemma SendEvents(s: Interface, log: seq<Event>, d: Datagram, hop: U32)
    ensures var first := log + [Submitted(hop, d)];
            log + Events(s, Send(d, hop)) ==
            if s.SendThrows(d, hop) then log + [Refused(hop, d)]
            else if s.Known(hop) == NO_MAC && !s.MayAsk(hop) then first else first + [Second(s, d, hop)]
  {
    hide Datagram.Sendable;
  }

  lemma SendBook(s: Interface, log: seq<Event>, d: Datagram, hop: U32)
    requires Book(s, log, hop)
    ensures Book(s.SendDatagram(d, hop), log + Events(s, Send(d, hop)), hop)
  {
    hide SubmittedTo, FramedTo, LastAnnounced, LastRequested, Stalled, Overtaken, Datagram.Sendable, Datagram.Bytes, Events,
         Accounts, Interface.Question, Interface.Packet;
    SendEvents(s, log, d, hop);
    var first := log + [Submitted(hop, d)];
    Logged(log, Refused(hop, d), hop);
    Logged(log, Submitted(hop, d), hop);
    Logged(first, Second(s, d, hop), hop);
    OvertakenStalled(log, hop);
    if s.Known(hop) == NO_MAC {
      AccountsQueued(FramedTo(log, hop), s.Queue(hop), SubmittedTo(log, hop), Overtaken(log, hop), d);
    } else if !s.SendThrows(d, hop) {
      AccountsFramed(FramedTo(log, hop), s.Queue(hop), SubmittedTo(log, hop), Overtaken(log, hop), d);
    }
  }

  lemma SendElsewhere(s: Interface, log: seq<Event>, d: Datagram, hop: U32, other: U32)
    requires Book(s, log, other) && other != hop
    ensures Book(s.SendDatagram(d, hop), log + Events(s, Send(d, hop)), other)
  {
    hide SubmittedTo, FramedTo, LastAnnounced, LastRequested, Stalled, Overtaken, Datagram.Sendable, Datagram.Bytes, Events,
         Accounts, Interface.Question, Interface.Packet;
    SendEvents(s, log, d, hop);
    Logged(log, Refused(hop, d), other);
    Logged(log, Submitted(hop, d), other);
    Logged(log + [Submitted(hop, d)], Second(s, d, hop), other);
  }

  lemma OvertakenStalled(log: seq<Event>, hop: U32)
    ensures Overtaken(log, hop) ==> Stalled(log, hop)
  {
  }

  lemma SendJustified(s: Interface, log: seq<Event>, d: Datagram, hop: U32)
    requires Book(s, log, hop) && AllJustified(log)
    ensures AllJustified(log + Events(s, Send(d, hop)))
  {
    hide SubmittedTo, FramedTo, LastAnnounced, LastRequested, AllJustified, Stalled, Overtaken, Accounts, Datagram.Sendable, Events;
    var first := log + [Submitted(hop, d)];
    SendEvents(s, log, d, hop);
    Logged(log, Submitted(hop, d), hop);
    LoggedJustified(log, Refused(hop, d));
    LoggedJustified(log, Submitted(hop, d));
    if s.Known(hop) != NO_MAC || s.MayAsk(hop) {
      LoggedJustified(first, Second(s, d, hop));
    }
  }

  lemma SendFrames(s: Interface, d: Datagram, hop: U32)
    ensures s.SendDatagram(d, hop).framesOut == s.framesOut + FramesOf(s, Events(s, Send(d, hop)))
  {
    hide Datagram.Sendable, Datagram.Bytes, Events, FramesOf, Interface.Question;
    var first := [] + [Submitted(hop, d)];
    SendEvents(s, [], d, hop);
    assert [] + Events(s, Send(d, hop)) == Events(s, Send(d, hop));
    LoggedFrames(s, [], Refused(hop, d));
    LoggedFrames(s, [], Submitted(hop, d));
    NoFrames(s);
    LoggedFrames(s, first, Second(s, d, hop));
  }

  // ---- Receiving ----

  /** The events of an accepted ARP message, one group after the other. */
  lemma LearnEvents(s: Interface, frame: Frame, log: seq<Event>, m: ArpMessage)
    requires s.Learns(frame) && frame.message == Some(m)
    ensures var told := log + [Announced(m.senderIp, m.senderMac, s.time)];
            var sent := told + Flushed(m.senderIp, Ready(s, m.senderIp), m.senderMac, s.time);
            log + Events(s, Receive(frame)) ==
            if s.LearnThrows(m) then sent + [Interrupted(m.senderIp)]
            else if s.AsksForUs(m) then sent + [Answered(m)] else sent
  {
    hide Ready, Flushed, Fine;
  }

  lemma LearnBook(s: Interface, log: seq<Event>, frame: Frame, m: ArpMessage, other: U32)
    requires s.Learns(frame) && frame.message == Some(m)
    requires Book(s, log, m.senderIp) && Book(s, log, other)
    ensures Book(s.RecvFrame(frame), log + Events(s, Receive(frame)), other)
  {
    hide SubmittedTo, FramedTo, LastAnnounced, LastRequested, Stalled, Overtaken, Datagram.Sendable, Datagram.Bytes, Events,
         Accounts, Interface.Packets, Flushed, Fine, Interface.Answer, Ready, Interface.Learns, Interface.LearnThrows;
    var hop := m.senderIp;
    LearnEvents(s, frame, log, m);
    var e := Announced(hop, m.senderMac, s.time);
    var sent := log + [e] + Flushed(hop, Ready(s, hop), m.senderMac, s.time);
    Logged(log, e, other);
    LoggedFlush(log + [e], hop, Ready(s, hop), m.senderMac, s.time, other);
    Logged(sent, Interrupted(hop), other);
    Logged(sent, Answered(m), other);
    LearnState(s, frame, m);
    if other == hop {
      OvertakenStalled(log, hop);
      ReadyAccounts(s, log, hop);
    }
  }

  /** The tables after an accepted ARP message. */
  lemma LearnState(s: Interface, frame: Frame, m: ArpMessage)
    requires s.Learns(frame) && frame.message == Some(m)
    ensures var (s', hop) := (s.RecvFrame(frame), m.senderIp);
            var queue := s.Queue(hop)[|Ready(s, hop)|..];
            && s'.time == s.time && s'.cache == s.cache[hop := Entry(m.senderMac, s.time)] && s'.asked == s.asked - {hop}
            && s'.waiting == (if hop !in s.asked then s.waiting
                              else if s.LearnThrows(m) then s.waiting[hop := queue] else s.waiting - {hop})
            && (s.LearnThrows(m) <==> hop in s.asked && queue != [])
            && (queue != [] && hop in s.asked ==> !queue[0].Sendable())
  {
    hide Interface.Packets, Datagram.Sendable, Fine, Interface.Answer;
    assert m.senderIp !in s.asked ==> s.asked - {m.senderIp} == s.asked;
  }

  /** What an announcement sends is the front of the queue. */
  lemma ReadyAccounts(s: Interface, log: seq<Event>, hop: U32)
    requires Book(s, log, hop)
    ensures var ready := Ready(s, hop);
            && |ready| <= |s.Queue(hop)| && (Stalled(log, hop) ==> ready == [])
            && Accounts(FramedTo(log, hop) + ready, s.Queue(hop)[|ready|..], SubmittedTo(log, hop), Overtaken(log, hop))
  {
    hide SubmittedTo, FramedTo, LastAnnounced, LastRequested, Stalled, Overtaken, Datagram.Sendable, Accounts, Fine;
    OvertakenStalled(log, hop);
    var queue := s.Queue(hop);
    var n := if hop in s.asked then Fine(queue) else 0;
    assert Ready(s, hop) == queue[..n];
    AccountsFlushed(FramedTo(log, hop), queue, SubmittedTo(log, hop), Overtaken(log, hop), n);
  }

  lemma LearnJustified(s: Interface, log: seq<Event>, frame: Frame, m: ArpMessage)
    requires s.Learns(frame) && frame.message == Some(m)
    requires AllJustified(log)
    ensures AllJustified(log + Events(s, Receive(frame)))
  {
    hide SubmittedTo, FramedTo, LastAnnounced, LastRequested, AllJustified, Events, Flushed, Stalled, Overtaken, Ready, Fine;
    var hop := m.senderIp;
    LearnEvents(s, frame, log, m);
    var e := Announced(hop, m.senderMac, s.time);
    var sent := log + [e] + Flushed(hop, Ready(s, hop), m.senderMac, s.time);
    LoggedJustified(log, e);
    Logged(log, e, hop);
    FlushJustified(log + [e], hop, Ready(s, hop), m.senderMac, s.time);
    LoggedJustified(sent, Answered(m));
    LoggedJustified(sent, Interrupted(hop));
  }

  lemma LearnFrames(s: Interface, frame: Frame, m: ArpMessage)
    requires s.Learns(frame) && frame.message == Some(m)
    ensures s.RecvFrame(frame).framesOut == s.framesOut + FramesOf(s, Events(s, Receive(frame)))
    ensures s.RecvFrame(frame).mac == s.mac && s.RecvFrame(frame).ip == s.ip
  {
    hide Datagram.Sendable, Datagram.Bytes, Events, Flushed, FramesOf, Interface.Learn, Interface.Packets, Ready, Fine,
         Interface.LearnThrows;
    var hop := m.senderIp;
    var e := Announced(hop, m.senderMac, s.time);
    var sent := Flushed(hop, Ready(s, hop), m.senderMac, s.time);
    LearnedFrames(s, m);
    LearnEvents(s, frame, [], m);
    assert [] + Events(s, Receive(frame)) == Events(s, Receive(frame));
    assert FramesOf(s, [] + [e]) == [] by {
      LoggedFrames(s, [], e);
      NoFrames(s);
    }
    FramesSplit(s, [] + [e], sent);
    FlushFrames(s, hop, Ready(s, hop), m.senderMac, s.time);
    LoggedFrames(s, [] + [e] + sent, Answered(m));
    LoggedFrames(s, [] + [e] + sent, Interrupted(hop));
  }

  lemma LearnedFrames(s: Interface, m: ArpMessage)
    ensures AllFine(Ready(s, m.senderIp)) && Fine(Ready(s, m.senderIp)) == |Ready(s, m.senderIp)|
    ensures s.Learn(m).framesOut == s.framesOut + s.Packets(Ready(s, m.senderIp), m.senderMac)
    ensures s.Learn(m).mac == s.mac && s.Learn(m).ip == s.ip
  {
    hide Datagram.Sendable, Datagram.Bytes, Fine;
    FinePrefix(s.Queue(m.senderIp));
  }

  lemma NoFrames(s: Interface)
    ensures FramesOf(s, []) == []
  {
  }

  // ---- Every step and every run ----

  lemma FramesKept(h: History, k: History, op: Op)
    requires Inv(h) && Next(h, k, op) && !op.Take?
    requires k.s.framesOut == h.s.framesOut + FramesOf(h.s, Events(h.s, op))
    requires k.s.mac == h.s.mac && k.s.ip == h.s.ip
    ensures k.taken + k.s.framesOut == FramesOf(k.s, k.log)
  {
    hide Books, AllJustified, FramesOf, Events, Do;
    FramesSplit(h.s, h.log, Events(h.s, op));
    FramesOfSame(h.s, k.s, k.log);
  }

  lemma SendKeeps(h: History, k: History, d: Datagram, hop: U32)
    requires Inv(h) && Next(h, k, Send(d, hop))
    ensures Inv(k)
  {
    hide Book, AllJustified, FramesOf, Events, Datagram.Sendable;
    assert Book(h.s, h.log, hop);
    forall other: U32 ensures Book(k.s, k.log, other) {
      assert Book(h.s, h.log, other);
      if other == hop {
        SendBook(h.s, h.log, d, hop);
      } else {
        SendElsewhere(h.s, h.log, d, hop, other);
      }
    }
    SendJustified(h.s, h.log, d, hop);
    SendFrames(h.s, d, hop);
    FramesKept(h, k, Send(d, hop));
  }

  lemma ReceiveKeeps(h: History, k: History, frame: Frame, m: ArpMessage)
    requires Inv(h) && Next(h, k, Receive(frame))
    requires h.s.Learns(frame) && frame.message == Some(m)
    ensures Inv(k)
  {
    hide Book, AllJustified, FramesOf, Events, Interface.RecvFrame;
    assert Book(h.s, h.log, m.senderIp);
    forall other: U32 ensures Book(k.s, k.log, other) {
      assert Book(h.s, h.log, other);
      LearnBook(h.s, h.log, frame, m, other);
    }
    LearnJustified(h.s, h.log, frame, m);
    LearnFrames(h.s, frame, m);
    FramesKept(h, k, Receive(frame));
  }

  lemma StepKeeps(h: History, k: History, op: Op)
    requires Inv(h) && Next(h, k, op)
    ensures Inv(k)
  {
    hide Inv, Next;
    if op.Send? {
      SendKeeps(h, k, op.d, op.hop);
    } else if op.Receive? && h.s.Learns(op.frame) {
      ReceiveKeeps(h, k, op.frame, op.frame.message.value);
    } else {
      Idle(h, k, op);
    }
  }

  /** Steps that leave the tables alone. */
  lemma Idle(h: History, k: History, op: Op)
    requires Inv(h) && Next(h, k, op) && !op.Send?
    requires op.Receive? ==> !h.s.Learns(op.frame)
    ensures Inv(k)
  {
    hide Book, AllJustified, FramesOf;
    assert k.log == h.log;
    FramesOfSame(h.s, k.s, k.log);
    forall other: U32 ensures Book(k.s, k.log, other) {
      assert Book(h.s, h.log, other);
      IdleBook(h.s, k.s, h.log, other);
    }
  }

  lemma IdleBook(s: Interface, t: Interface, log: seq<Event>, other: U32)
    requires Book(s, log, other) && s.time <= t.time && t == s.(time := t.time, framesOut := t.framesOut)
    ensures Book(t, log, other)
  {
    hide SubmittedTo, FramedTo, LastAnnounced, LastRequested, Datagram.Sendable, Stalled, Overtaken, Accounts;
  }

  lemma FreshInv(h: History)
    requires Fresh(h)
    ensures Inv(h)
  {
  }

  lemma {:induction false} RunInv(run: seq<History>, ops: seq<Op>, i: nat)
    requires IsRun(run, ops) && i < |run|
    ensures Inv(run[i])
  {
    hide Inv, Fresh, IsRun, Next;
    if i == 0 {
      RunStarts(run, ops);
      FreshInv(run[0]);
    } else {
      RunInv(run, ops, i - 1);
      RunStep(run, ops, i - 1);
      StepKeeps(run[i - 1], run[i], ops[i - 1]);
    }
  }

  lemma RunStarts(run: seq<History>, ops: seq<Op>)
    requires IsRun(run, ops)
    ensures run != [] && Fresh(run[0])
  {
    hide Next, Fresh;
  }

  lemma RunStep(run: seq<History>, ops: seq<Op>, i: nat)
    requires IsRun(run, ops) && i + 1 < |run|
    ensures |run| == |ops| + 1 && Next(run[i], run[i + 1], ops[i])
  {
    hide Next;
  }

  // ---- Conservation ----

  /** Conservation. At every moment and for every next hop, each datagram submitted has been framed once or waits
      once; datagrams wait exactly for the addresses with a request out and for those whose queue was cut
      short; and the frames taken and still queued are those that the events call for. */
  lemma QueueConservation(run: seq<History>, ops: seq<Op>, i: nat, hop: U32)
    requires IsRun(run, ops) && i < |run|
    ensures var (s, log) := (run[i].s, run[i].log);
            && multiset(FramedTo(log, hop)) + multiset(s.Queue(hop)) == multiset(SubmittedTo(log, hop))
            && (hop in s.waiting <==> s.Queue(hop) != [])
            && (hop in s.waiting <==> hop in s.asked || Stalled(log, hop))
            && (hop in s.cache && s.cache[hop].mac != NO_MAC ==> (s.Queue(hop) == [] <==> !Stalled(log, hop)))
            && run[i].taken + s.framesOut == FramesOf(s, log)
  {
    RunInv(run, ops, i);
    assert Book(run[i].s, run[i].log, hop);
  }

  /** Order. The datagrams framed followed by those waiting are the datagrams submitted, in order, exactly as long
      as nothing went out to the address after its queue had been cut short. */
  lemma OrderKeptIff(run: seq<History>, ops: seq<Op>, i: nat, hop: U32)
    requires IsRun(run, ops) && i < |run|
    ensures var (s, log) := (run[i].s, run[i].log);
            FramedTo(log, hop) + s.Queue(hop) == SubmittedTo(log, hop) <==> !Overtaken(log, hop)
  {
    RunInv(run, ops, i);
    var (s, log) := (run[i].s, run[i].log);
    assert Book(s, log, hop);
    if Overtaken(log, hop) {
      DifferIsNotPrefix(FramedTo(log, hop), SubmittedTo(log, hop), s.Queue(hop));
    }
  }

  predicate KeysAgree(s: Interface, hop: U32) {
    hop in s.asked <==> hop in s.waiting
  }

  /** The two tables of pending addresses have agreed on an address all along exactly when its queue was
      never cut short. */
  lemma {:induction false} KeysAgreeIff(run: seq<History>, ops: seq<Op>, i: nat, hop: U32)
    requires IsRun(run, ops) && i < |run|
    ensures (forall j :: 0 <= j <= i ==> KeysAgree(run[j].s, hop)) <==> !Stalled(run[i].log, hop)
  {
    hide IsRun, Next, Stalled, FramedTo, SubmittedTo, FramesOf, Overtaken;
    QueueConservation(run, ops, i, hop);
    if i > 0 {
      KeysAgreeIff(run, ops, i - 1, hop);
      RunStep(run, ops, i - 1);
      StalledStays(run[i - 1], run[i], ops[i - 1], hop);
      if Stalled(run[i].log, hop) && !Stalled(run[i - 1].log, hop) {
        NewlyStalled(run[i - 1], run[i], ops[i - 1], hop);
        assert !KeysAgree(run[i].s, hop);
      }
    } else {
      NotStalledAtFirst(run, ops, hop);
    }
  }

  lemma NotStalledAtFirst(run: seq<History>, ops: seq<Op>, hop: U32)
    requires IsRun(run, ops)
    ensures !Stalled(run[0].log, hop)
  {
    hide Next;
  }

  lemma StalledStays(h: History, k: History, op: Op, hop: U32)
    requires Next(h, k, op)
    ensures Stalled(h.log, hop) ==> Stalled(k.log, hop)
  {
  }

  lemma NewlyStalled(h: History, k: History, op: Op, hop: U32)
    requires Next(h, k, op) && Stalled(k.log, hop) && !Stalled(h.log, hop)
    ensures hop !in k.s.asked
  {
    assert Interrupted(hop) in Events(h.s, op);
  }

  /** An accepted ARP message from an address leaves nothing waiting for it, and its queue not cut short, exactly
      when everything that waits for it can be serialized. */
  lemma AnnouncementEmptiesQueueIff(run: seq<History>, ops: seq<Op>, i: nat, frame: Frame, m: ArpMessage)
    requires IsRun(run, ops) && i < |ops| && ops[i] == Receive(frame)
    requires run[i].s.Learns(frame) && frame.message == Some(m)
    ensures var (s, s', hop) := (run[i].s, run[i + 1].s, m.senderIp);
            && (s'.Queue(hop) == [] <==> AllFine(s.Queue(hop)))
            && (!Stalled(run[i + 1].log, hop) <==> AllFine(s.Queue(hop)))
            && (s.RecvThrows(frame) <==> hop in s.asked && !AllFine(s.Queue(hop)))
  {
    hide FramedTo, SubmittedTo, Datagram.Sendable, FramesOf, Events, Fine, Interface.RecvFrame, Interface.Learns;
    var (s, hop) := (run[i].s, m.senderIp);
    RunInv(run, ops, i);
    RunInv(run, ops, i + 1);
    assert Book(s, run[i].log, hop) && Book(run[i + 1].s, run[i + 1].log, hop);
    assert Next(run[i], run[i + 1], ops[i]);
    LearnState(s, frame, m);
    FineIff(s.Queue(hop));
    LearnStalls(s, run[i].log, frame, m);
  }

  lemma FineIff(queue: seq<Datagram>)
    ensures Fine(queue) == |queue| <==> AllFine(queue)
  {
    hide Datagram.Sendable;
    assert forall i :: 0 <= i < |queue| ==> queue[i] in queue;
  }

  lemma LearnStalls(s: Interface, log: seq<Event>, frame: Frame, m: ArpMessage)
    requires s.Learns(frame) && frame.message == Some(m)
    ensures Stalled(log + Events(s, Receive(frame)), m.senderIp) <==> Stalled(log, m.senderIp) || s.LearnThrows(m)
  {
    hide Events, Stalled, Overtaken, Fine, Ready, Flushed, FramedTo, SubmittedTo, LastAnnounced, LastRequested, Interface.LearnThrows;
    var hop := m.senderIp;
    LearnEvents(s, frame, log, m);
    var e := Announced(hop, m.senderMac, s.time);
    Logged(log, e, hop);
    LoggedFlush(log + [e], hop, Ready(s, hop), m.senderMac, s.time, hop);
    var sent := log + [e] + Flushed(hop, Ready(s, hop), m.senderMac, s.time);
    Logged(sent, Interrupted(hop), hop);
    Logged(sent, Answered(m), hop);
  }

  /** A call of `send_datagram` throws exactly when the address is known and the datagram cannot be
      serialized; then nothing changes. It goes out of turn exactly when others wait for the address. */
  lemma SendOutcome(run: seq<History>, ops: seq<Op>, i: nat, d: Datagram, hop: U32)
    requires IsRun(run, ops) && i < |ops| && ops[i] == Send(d, hop)
    ensures var s := run[i].s;
            && (s.SendThrows(d, hop) ==> run[i + 1].s == s)
            && (!Overtaken(run[i].log, hop) ==>
                  (Overtaken(run[i + 1].log, hop) <==> s.Known(hop) != NO_MAC && d.Sendable() && s.Queue(hop) != []))
  {
    hide FramedTo, SubmittedTo, LastAnnounced, LastRequested, Datagram.Sendable, Datagram.Bytes, FramesOf, Events, Overtaken, Stalled, Accounts;
    var (s, log) := (run[i].s, run[i].log);
    RunInv(run, ops, i);
    assert Book(s, log, hop);
    assert Next(run[i], run[i + 1], ops[i]);
    SendEvents(s, log, d, hop);
    Logged(log, Refused(hop, d), hop);
    Logged(log, Submitted(hop, d), hop);
    Logged(log + [Submitted(hop, d)], Second(s, d, hop), hop);
  }

  /** As long as everything submitted for an address can be serialized, its queue is not cut short. */
  lemma FineNeverStalls(run: seq<History>, ops: seq<Op>, i: nat, hop: U32)
    requires IsRun(run, ops) && i < |run| && AllFine(SubmittedTo(run[i].log, hop))
    ensures !Stalled(run[i].log, hop)
  {
    hide FramedTo, SubmittedTo, Datagram.Sendable, IsRun;
    RunInv(run, ops, i);
    var (s, log) := (run[i].s, run[i].log);
    assert Book(s, log, hop);
    QueueWasSubmitted(FramedTo(log, hop), s.Queue(hop), SubmittedTo(log, hop));
  }

  lemma QueueWasSubmitted(framed: seq<Datagram>, queue: seq<Datagram>, submitted: seq<Datagram>)
    requires multiset(framed) + multiset(queue) == multiset(submitted) && AllFine(submitted)
    ensures AllFine(queue) && (queue != [] ==> queue[0].Sendable())
  {
    hide Datagram.Sendable;
    forall d <- queue ensures d in submitted {
      assert d in multiset(queue);
      assert d in multiset(submitted);
    }
  }

  /** A queue that was cut short stays so for good: nothing in it ever leaves. */
  lemma {:induction false} StalledForGood(run: seq<History>, ops: seq<Op>, i: nat, j: nat, hop: U32)
    requires IsRun(run, ops) && i <= j < |run| && Stalled(run[i].log, hop)
    ensures Stalled(run[j].log, hop) && run[i].s.Queue(hop) <= run[j].s.Queue(hop)
  {
    hide IsRun, Stalled, Datagram.Sendable, FramedTo, SubmittedTo, FramesOf, LastAnnounced, LastRequested, Overtaken, Accounts, Events, Do;
    if i < j {
      StalledForGood(run, ops, i, j - 1, hop);
      RunInv(run, ops, j - 1);
      assert Book(run[j - 1].s, run[j - 1].log, hop);
      RunStep(run, ops, j - 1);
      StalledStays(run[j - 1], run[j], ops[j - 1], hop);
      QueueStays(run[j - 1].s, ops[j - 1], hop);
    }
  }

  lemma QueueStays(s: Interface, op: Op, hop: U32)
    requires Permitted(s, op) && s.Queue(hop) != [] && !s.Queue(hop)[0].Sendable()
    ensures s.Queue(hop) <= Do(s, op).Queue(hop)
  {
    hide Datagram.Sendable, Datagram.Bytes, Interface.RecvFrame, Interface.Question, Interface.Learns;
    if op.Receive? {
      NothingLearned(s, op.frame);
      if s.Learns(op.frame) {
        QueueStaysOnReply(s, op.frame, op.frame.message.value, hop);
      }
    }
  }

  lemma NothingLearned(s: Interface, frame: Frame)
    ensures !s.Learns(frame) ==> s.RecvFrame(frame) == s
    ensures s.Learns(frame) ==> frame.ArpFrame? && frame.message.Some?
  {
    hide Interface.Learn;
  }

  lemma QueueStaysOnReply(s: Interface, frame: Frame, m: ArpMessage, hop: U32)
    requires s.Learns(frame) && frame.message == Some(m) && s.Queue(hop) != [] && !s.Queue(hop)[0].Sendable()
    ensures s.RecvFrame(frame).Queue(hop) == s.Queue(hop)
  {
    hide Datagram.Sendable, Interface.RecvFrame, Interface.Learns, Fine, Interface.LearnThrows;
    LearnState(s, frame, m);
  }

  /** How a queue is cut short and then overtaken. An address unknown so far is sent a datagram that cannot be
      serialized and one that can; its ARP reply ends in an exception; the next datagram goes out at once. */
  lemma StrandingHistory(mac: Mac, ip: U32, hop: U32, to: Mac, bad: Datagram, good: Datagram, later: Datagram)
      returns (run: seq<History>, ops: seq<Op>)
    requires !bad.Sendable() && good.Sendable() && later.Sendable() && to != NO_MAC
    ensures IsRun(run, ops) && |ops| == 4
    ensures ops == [Send(bad, hop), Send(good, hop),
                    Receive(ArpFrame(mac, to, Some(ArpMessage(Reply, to, hop, mac, ip)))), Send(later, hop)]
    ensures run[2].s.RecvThrows(ops[2].frame) && hop !in run[3].s.asked && run[3].s.Queue(hop) == [bad, good]
    ensures run[4].s.Queue(hop) == [bad, good] && FramedTo(run[4].log, hop) == [later]
    ensures SubmittedTo(run[4].log, hop) == [bad, good, later]
  {
    hide Datagram.Sendable, Datagram.Bytes, Do, Events, FramedTo, SubmittedTo, Interface.RecvThrows;
    var frame := ArpFrame(mac, to, Some(ArpMessage(Reply, to, hop, mac, ip)));
    ops := [Send(bad, hop), Send(good, hop), Receive(frame), Send(later, hop)];
    var s0 := NewInterface(mac, ip);
    var question := s0.Question(hop);
    var s1 := Interface(mac, ip, 0, map[], map[hop := 0], map[hop := [bad]], [question]);
    var s2 := s1.(waiting := map[hop := [bad, good]]);
    var s3 := Interface(mac, ip, 0, map[hop := Entry(to, 0)], map[], map[hop := [bad, good]], [question]);
    var s4 := s3.(framesOut := [question, s3.Packet(later, to)]);
    FirstWaits(s0, bad, hop, s1);
    SecondWaits(s1, bad, good, hop, s2);
    ReplyThrows(s2, bad, good, hop, to, frame, s3);
    LaterGoes(s3, later, hop, to, s4);
    var l1 := [Submitted(hop, bad), Requested(hop, 0)];
    var l2 := l1 + [Submitted(hop, good)];
    var l3 := l2 + [Announced(hop, to, 0), Interrupted(hop)];
    var l4 := l3 + [Submitted(hop, later), Framed(hop, later, to, 0)];
    run := [History(s0, [], []), History(s1, l1, []), History(s2, l2, []), History(s3, l3, []), History(s4, l4, [])];
    assert Fresh(run[0]);
    assert [] + l1 == l1;
    StrandingLog(hop, to, bad, good, later, l4);
  }

  lemma FirstWaits(s: Interface, d: Datagram, hop: U32, t: Interface)
    requires s.time == 0 && s.cache == map[] && s.asked == map[] && s.waiting == map[] && s.framesOut == []
    requires t == s.(asked := map[hop := 0], waiting := map[hop := [d]], framesOut := [s.Question(hop)])
    ensures Do(s, Send(d, hop)) == t && Events(s, Send(d, hop)) == [Submitted(hop, d), Requested(hop, 0)]
  {
    hide Datagram.Sendable, Interface.Question;
    assert [] + [d] == [d] && s.waiting[hop := [d]] == map[hop := [d]];
  }

  lemma SecondWaits(s: Interface, d: Datagram, e: Datagram, hop: U32, t: Interface)
    requires s.time == 0 && s.cache == map[] && s.asked == map[hop := 0] && s.waiting == map[hop := [d]]
    requires t == s.(waiting := map[hop := [d, e]])
    ensures Do(s, Send(e, hop)) == t && Events(s, Send(e, hop)) == [Submitted(hop, e)]
  {
    hide Datagram.Sendable, Interface.Question;
    assert [d] + [e] == [d, e] && s.waiting[hop := [d, e]] == map[hop := [d, e]];
  }

  lemma ReplyThrows(s: Interface, d: Datagram, e: Datagram, hop: U32, to: Mac, frame: Frame, t: Interface)
    requires s.time == 0 && s.cache == map[] && s.asked == map[hop := 0] && s.waiting == map[hop := [d, e]] && !d.Sendable()
    requires frame == ArpFrame(s.mac, to, Some(ArpMessage(Reply, to, hop, s.mac, s.ip)))
    requires t == s.(cache := map[hop := Entry(to, 0)], asked := map[])
    ensures Do(s, Receive(frame)) == t && Events(s, Receive(frame)) == [Announced(hop, to, 0), Interrupted(hop)]
    ensures s.RecvThrows(frame)
  {
    hide Datagram.Sendable;
    assert s.Queue(hop) == [d, e] && Fine([d, e]) == 0;
    assert s.asked - {hop} == map[] && s.cache[hop := Entry(to, 0)] == map[hop := Entry(to, 0)];
    assert [d, e][0..] == [d, e] && s.waiting[hop := [d, e]] == s.waiting;
  }

  lemma LaterGoes(s: Interface, d: Datagram, hop: U32, to: Mac, t: Interface)
    requires s.time == 0 && s.cache == map[hop := Entry(to, 0)] && to != NO_MAC && d.Sendable() && |s.framesOut| == 1
    requires t == s.(framesOut := [s.framesOut[0], s.Packet(d, to)])
    ensures Do(s, Send(d, hop)) == t && Events(s, Send(d, hop)) == [Submitted(hop, d), Framed(hop, d, to, 0)]
  {
    hide Datagram.Sendable, Datagram.Bytes;
  }

  lemma StrandingLog(hop: U32, to: Mac, bad: Datagram, good: Datagram, later: Datagram, log: seq<Event>)
    requires log == [Submitted(hop, bad), Requested(hop, 0), Submitted(hop, good), Announced(hop, to, 0), Interrupted(hop),
                     Submitted(hop, later), Framed(hop, later, to, 0)]
    ensures FramedTo(log, hop) == [later] && SubmittedTo(log, hop) == [bad, good, later]
  {
    hide FramedTo, SubmittedTo, LastAnnounced, LastRequested, Stalled, Overtaken;
    var a := [] + [Submitted(hop, bad)];
    var b := a + [Requested(hop, 0)];
    var c := b + [Submitted(hop, good)];
    var d := c + [Announced(hop, to, 0)];
    var e := d + [Interrupted(hop)];
    var f := e + [Submitted(hop, later)];
    assert log == f + [Framed(hop, later, to, 0)];
    NothingYet(hop);
    Logged([], Submitted(hop, bad), hop);
    Logged(a, Requested(hop, 0), hop);
    Logged(b, Submitted(hop, good), hop);
    Logged(c, Announced(hop, to, 0), hop);
    Logged(d, Interrupted(hop), hop);
    Logged(e, Submitted(hop, later), hop);
    Logged(f, Framed(hop, later, to, 0), hop);
  }

  lemma NothingYet(hop: U32)
    ensures FramedTo([], hop) == [] && SubmittedTo([], hop) == []
  {
  }

  // ---- Timing ----

  predicate Quiet(log: seq<Event>, hop: U32, i: nat, j: nat)
    requires j <= |log|
  {
    forall x :: i <= x < j ==> !(log[x].Announced? && log[x].hop == hop)
  }

  lemma {:induction false} RequestPersists(log: seq<Event>, hop: U32, time: nat, i: nat, j: nat)
    requires AllJustified(log) && i < j <= |log| && log[i] == Requested(hop, time) && Quiet(log, hop, i, j)
    ensures LastRequested(log[..j], hop).Some? && LastRequested(log[..j], hop).value >= time
    decreases j
  {
    assert log[..j][..j - 1] == log[..j - 1];
    if j > i + 1 {
      RequestPersists(log, hop, time, i, j - 1);
      assert Justified(log[..j - 1], log[j - 1]);
    }
  }

  /** Spacing. Two requests for an address that did not announce itself in between are more than 5000 ms apart. */
  lemma RequestsFarApart(run: seq<History>, ops: seq<Op>, k: nat, hop: U32, i: nat, j: nat, t: nat, u: nat)
    requires IsRun(run, ops) && k < |run|
    requires i < j < |run[k].log| && run[k].log[i] == Requested(hop, t) && run[k].log[j] == Requested(hop, u)
    requires Quiet(run[k].log, hop, i, j)
    ensures u > t + REQUEST_TTL
  {
    RunInv(run, ops, k);
    RequestPersists(run[k].log, hop, t, i, j);
    assert Justified(run[k].log[..j], run[k].log[j]);
  }

  lemma {:induction false} AnnouncementExists(log: seq<Event>, hop: U32) returns (i: nat)
    requires LastAnnounced(log, hop).Some?
    ensures i < |log| && Quiet(log, hop, i + 1, |log|)
    ensures var e := LastAnnounced(log, hop).value; log[i] == Announced(hop, e.mac, e.stamp)
  {
    i := |log| - 1;
    if !(log[i].Announced? && log[i].hop == hop) {
      i := AnnouncementExists(log[..i], hop);
    }
  }

  /** Freshness. Every IPv4 frame goes to the Ethernet address that its next hop announced last, at most
      30000 ms before. */
  lemma FramesAreFresh(run: seq<History>, ops: seq<Op>, k: nat, j: nat) returns (i: nat)
    requires IsRun(run, ops) && k < |run| && j < |run[k].log| && run[k].log[j].Framed?
    ensures var (log, e) := (run[k].log, run[k].log[j]);
            && i < j && log[i].Announced? && log[i].hop == e.hop && log[i].mac == e.mac
            && Quiet(log, e.hop, i + 1, j)
            && log[i].time <= e.time <= log[i].time + MAPPING_TTL
  {
    RunInv(run, ops, k);
    assert Justified(run[k].log[..j], run[k].log[j]);
    i := AnnouncementExists(run[k].log[..j], run[k].log[j].hop);
  }

  /** Economy. An address is asked for only when it never announced itself, announced no usable address,
      or did so more than 30000 ms ago. */
  lemma RequestsAreNeeded(run: seq<History>, ops: seq<Op>, k: nat, i: nat, j: nat)
    requires IsRun(run, ops) && k < |run| && i < j < |run[k].log|
    requires run[k].log[i].Announced? && run[k].log[j].Requested? && run[k].log[i].hop == run[k].log[j].hop
    requires Quiet(run[k].log, run[k].log[i].hop, i + 1, j)
    ensures run[k].log[i].mac == NO_MAC || run[k].log[j].time > run[k].log[i].time + MAPPING_TTL
  {
    RunInv(run, ops, k);
    assert Justified(run[k].log[..j], run[k].log[j]);
    AnnouncementPersists(run[k].log, run[k].log[i].hop, i, j);
  }

  lemma {:induction false} AnnouncementPersists(log: seq<Event>, hop: U32, i: nat, j: nat)
    requires i < j <= |log| && log[i].Announced? && log[i].hop == hop && Quiet(log, hop, i + 1, j)
    ensures LastAnnounced(log[..j], hop) == Some(Entry(log[i].mac, log[i].time))
    decreases j
  {
    assert log[..j][..j - 1] == log[..j - 1];
    if j > i + 1 {
      AnnouncementPersists(log, hop, i, j - 1);
    }
  }

  // ---- Two interfaces on one link ----

  /** Resolution, first half. A request for the address of `b` teaches `b` who asks, and is answered exactly when
      no datagram that cannot be serialized cuts short what `b` then sends to the asker. */
  lemma RequestIsAnswered(a: Interface, b: Interface)
    ensures var b' := b.RecvFrame(a.Question(b.ip));
            && b'.Known(a.ip) == a.mac
            && Fine(Ready(b, a.ip)) == |Ready(b, a.ip)|
            && b'.framesOut == b.framesOut + b.Packets(Ready(b, a.ip), a.mac) +
                 if a.ip in b.asked && !AllFine(b.Queue(a.ip)) then [] else [b.Answer(a.Question(b.ip).message.value)]
  {
    hide Datagram.Sendable, Datagram.Bytes, Interface.Packets, Fine;
    FineIff(b.Queue(a.ip));
    LearnedFrames(b, a.Question(b.ip).message.value);
  }

  /** Second half. The answer teaches `a` the Ethernet address of `b`, and what waited for `b` goes there, up to
      the first datagram that cannot be serialized. */
  lemma AnswerIsLearned(a: Interface, b: Interface)
    ensures var a' := a.RecvFrame(b.Answer(a.Question(b.ip).message.value));
            && a'.Known(b.ip) == b.mac
            && Fine(Ready(a, b.ip)) == |Ready(a, b.ip)|
            && a'.framesOut == a.framesOut + a.Packets(Ready(a, b.ip), b.mac)
  {
    hide Datagram.Sendable, Datagram.Bytes, Interface.Packets, Fine;
    LearnedFrames(a, b.Answer(a.Question(b.ip).message.value).message.value);
  }

  /** Delivery. A datagram sent to a known neighbour leaves in a frame from which the neighbour recovers it. */
  lemma NeighbourReceives(a: Interface, b: Interface, d: Datagram)
    requires d.Sendable() && a.Known(b.ip) == b.mac && b.mac != NO_MAC
    requires d.header.hlen <= 15 && d.header.offset < 0x2000 && (d.header.hlen == 5 || |d.Bytes().value| <= 0xffff)
    ensures var a' := a.SendDatagram(d, b.ip);
            && |a'.framesOut| == |a.framesOut| + 1
            && b.Delivered(a'.framesOut[|a.framesOut|]) == Some(d.Sealed())
  {
    hide Datagram.Sendable, Datagram.Bytes, DatagramOf, Datagram.Sealed;
    DatagramRoundTripIff(d, d.Bytes().value);
  }
}
