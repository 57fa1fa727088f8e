/** Which frames a network interface sends in answer to what, told by the fields of the frames alone. */
module ArpExchanges {
  import opened Machine
  import opened Datagrams
  import opened Interfaces
  import opened InterfaceRuns

  // ---------------------------------------------------------------------------------------
  // One incoming frame
  // ---------------------------------------------------------------------------------------

  /** The frame asks for the address of `s`, and nothing that waits for the asker stands in the way of an answer. */
  ghost predicate CallsForReply(s: Interface, frame: Frame) {
    && (frame.dst == s.mac || frame.dst == BROADCAST)
    && frame.ArpFrame? && frame.message.Some?
    && var m := frame.message.value;
       && m.opcode == Request && m.targetIp == s.ip
       && (m.senderIp in s.asked && m.senderIp in s.waiting ==> forall d <- s.waiting[m.senderIp] :: d.Sendable())
  }

  /** The reply that tells the asker our Ethernet address. */
  function ReplyTo(s: Interface, frame: Frame): Frame
    requires frame.ArpFrame? && frame.message.Some?
  {
    var m := frame.message.value;
    ArpFrame(m.senderMac, s.mac, Some(ArpMessage(Reply, s.mac, s.ip, m.senderMac, m.senderIp)))
  }

  predicate IsReply(frame: Frame) {
    frame.ArpFrame? && frame.message.Some? && frame.message.value.opcode == Reply
  }

  /** The ARP replies among the frames, in order. */
  function Replies(frames: seq<Frame>): seq<Frame> {
    if frames == [] then [] else
      var n := |frames| - 1;
      Replies(frames[..n]) + if IsReply(frames[n]) then [frames[n]] else []
  }

  lemma {:induction false} RepliesSplit(a: seq<Frame>, b: seq<Frame>)
    ensures Replies(a + b) == Replies(a) + Replies(b)
    decreases |b|
  {
    if b == [] {
      assert a + b == a;
    } else {
      var n := |b| - 1;
      RepliesSplit(a, b[..n]);
      assert (a + b)[..|a| + n] == a + b[..n];
    }
  }

  lemma {:induction false} NoReplies(frames: seq<Frame>)
    requires forall i | 0 <= i < |frames| :: !IsReply(frames[i])
    ensures Replies(frames) == []
  {
    if frames != [] {
      NoReplies(frames[..|frames| - 1]);
    }
  }

  lemma CallsIff(s: Interface, frame: Frame)
    ensures CallsForReply(s, frame) <==>
            s.Learns(frame) && s.AsksForUs(frame.message.value) && !s.LearnThrows(frame.message.value)
  {
    hide Datagram.Sendable, Fine;
    if s.Learns(frame) {
      FineIff(s.Queue(frame.message.value.senderIp));
    }
  }

  /** A frame for us, or for all, is answered by an ARP reply if and only if it is a request for our address, unless the
      flush of what waits for the asker throws; then one reply goes out, after what waited. */
  lemma RepliesIff(s: Interface, frame: Frame) returns (sent: seq<Frame>)
    ensures s.RecvFrame(frame).framesOut == s.framesOut + sent
    ensures Replies(sent) == if CallsForReply(s, frame) then [ReplyTo(s, frame)] else []
    ensures CallsForReply(s, frame) ==> sent != [] && sent[|sent| - 1] == ReplyTo(s, frame)
  {
    hide Datagram.Sendable, Datagram.Bytes, Fine, Interface.Learn, Interface.Packets, CallsForReply, Replies, Ready, Interface.LearnThrows;
    sent := [];
    CallsIff(s, frame);
    NoReplies(sent);
    if s.Learns(frame) {
      var m := frame.message.value;
      LearnedFrames(s, m);
      var packets := s.Packets(Ready(s, m.senderIp), m.senderMac);
      PacketsAreNoReplies(s, Ready(s, m.senderIp), m.senderMac);
      sent := packets;
      if CallsForReply(s, frame) {
        sent := packets + [ReplyTo(s, frame)];
        RepliesSplit(packets, [ReplyTo(s, frame)]);
        OneReply(ReplyTo(s, frame));
      }
    }
  }

  /** A frame for somebody else changes nothing and delivers nothing. A datagram is delivered exactly if the frame is for
      us, or for all, and holds one that parses; and then nothing changes. */
  lemma FrameOutcome(s: Interface, frame: Frame)
    ensures frame.dst != s.mac && frame.dst != BROADCAST ==> s.RecvFrame(frame) == s && s.Delivered(frame) == None
    ensures s.Delivered(frame).Some? <==>
            (frame.dst == s.mac || frame.dst == BROADCAST) && frame.Ipv4Frame? && DatagramOf(frame.bytes).Parsed?
    ensures s.Delivered(frame).Some? ==> DatagramOf(frame.bytes) == Parsed(s.Delivered(frame).value) && s.RecvFrame(frame) == s
    ensures !frame.ArpFrame? || frame.message == None ==> s.RecvFrame(frame) == s
  {
    hide DatagramOf, Interface.Learn;
  }

  /** Whatever its opcode and whoever it asks for, an ARP message for us or for all teaches its sender's address; an
      outstanding request for the sender is over, and what waited for it has gone out, in order, up to the first
      datagram that cannot be serialized. Nothing else changes. */
  lemma MessageOutcome(s: Interface, frame: Frame, m: ArpMessage) returns (n: nat)
    requires frame.dst == s.mac || frame.dst == BROADCAST
    requires frame.ArpFrame? && frame.message == Some(m)
    ensures var s' := s.RecvFrame(frame);
            && s' == s.(cache := s.cache[m.senderIp := Entry(m.senderMac, s.time)], asked := s.asked - {m.senderIp},
                        waiting := s'.waiting, framesOut := s'.framesOut)
            && (forall hop: U32 | hop != m.senderIp :: s'.Queue(hop) == s.Queue(hop))
            && n <= |s.Queue(m.senderIp)| && s'.Queue(m.senderIp) == s.Queue(m.senderIp)[n..]
            && (m.senderIp !in s.asked ==> n == 0)
            && (m.senderIp in s.asked ==> n == |s.Queue(m.senderIp)| || s.Queue(m.senderIp)[n].Bytes() == None)
            && |s'.framesOut| == |s.framesOut| + n + (if CallsForReply(s, frame) then 1 else 0)
            && s.framesOut <= s'.framesOut
            && forall i | 0 <= i < n ::
                 && s.Queue(m.senderIp)[i].Bytes().Some?
                 && s'.framesOut[|s.framesOut| + i] == Ipv4Frame(m.senderMac, s.mac, s.Queue(m.senderIp)[i].Bytes().value)
  {
    hide Fine, CallsForReply;
    CallsIff(s, frame);
    LearnState(s, frame, m);
    n := |Ready(s, m.senderIp)|;
    FlushedFrames(s, frame, m);
  }

  lemma FlushedFrames(s: Interface, frame: Frame, m: ArpMessage)
    requires s.Learns(frame) && frame.message == Some(m)
    ensures var (s', ready) := (s.RecvFrame(frame), Ready(s, m.senderIp));
            && s'.mac == s.mac && s'.ip == s.ip
            && |s'.framesOut| == |s.framesOut| + |ready| + (if CallsForReply(s, frame) then 1 else 0)
            && s.framesOut <= s'.framesOut
            && (forall i | 0 <= i < |ready| :: ready[i].Sendable() && s'.framesOut[|s.framesOut| + i] == s.Packet(ready[i], m.senderMac))
  {
    hide Datagram.Sendable, Datagram.Bytes, Fine, Interface.Learn, CallsForReply, Interface.LearnThrows;
    CallsIff(s, frame);
    LearnedFrames(s, m);
  }

  lemma OneReply(frame: Frame)
    requires IsReply(frame)
    ensures Replies([frame]) == [frame] && Replies([]) == []
  {
    assert [frame][..0] == [];
  }

  lemma PacketsAreNoReplies(s: Interface, queue: seq<Datagram>, to: Mac)
    requires Fine(queue) == |queue|
    ensures Replies(s.Packets(queue, to)) == []
  {
    hide Datagram.Sendable, Datagram.Bytes, Fine;
    NoReplies(s.Packets(queue, to));
  }

  // ---------------------------------------------------------------------------------------
  // Time
  // ---------------------------------------------------------------------------------------

  /** The milliseconds that have passed. */
  function Elapsed(ops: seq<Op>): nat {
    if ops == [] then 0 else
      var op := ops[|ops| - 1];
      Elapsed(ops[..|ops| - 1]) + if op.Elapse? then op.ms else 0
  }

  /** The interface's clock shows the sum of all ticks, whatever else happened in between; and its own addresses
      never change. */
  lemma {:induction false} ClockAddsUp(run: seq<History>, ops: seq<Op>, n: nat)
    requires IsRun(run, ops) && n < |run|
    ensures run[n].s.time == Elapsed(ops[..n]) && run[n].s.mac == run[0].s.mac && run[n].s.ip == run[0].s.ip
  {
    hide IsRun, Next;
    RunStarts(run, ops);
    if n > 0 {
      ClockAddsUp(run, ops, n - 1);
      RunStep(run, ops, n - 1);
      ClockStep(run[n - 1], run[n], ops[n - 1]);
      assert ops[..n][..n - 1] == ops[..n - 1];
    } else {
      FirstTime(run[0]);
    }
  }

  lemma FirstTime(h: History)
    requires Fresh(h)
    ensures h.s.time == 0
  {
  }

  lemma ClockStep(h: History, k: History, op: Op)
    requires Next(h, k, op)
    ensures k.s.time == (h.s.time + if op.Elapse? then op.ms else 0) && k.s.mac == h.s.mac && k.s.ip == h.s.ip
  {
    hide Datagram.Sendable, Datagram.Bytes, Fine, Interface.Packets, Events;
  }

  // ---------------------------------------------------------------------------------------
  // One datagram to send
  // ---------------------------------------------------------------------------------------

  /** The Ethernet address that the next hop announced last, if that is not more than 30000 ms ago. */
  predicate Usable(known: Option<Entry>, time: nat) {
    known.Some? && known.value.mac != NO_MAC && time <= known.value.stamp + 30000
  }

  /** What `send_datagram` puts on the link, by what has happened before: the datagram itself if the next hop's last
      announcement is fresh; otherwise a broadcast request, unless one was sent in the last 5000 ms and has not been
      answered; and nothing else. */
  lemma SendOutcomeByHistory(run: seq<History>, ops: seq<Op>, i: nat, d: Datagram, hop: U32)
    requires IsRun(run, ops) && i < |run|
    ensures var (s, log) := (run[i].s, run[i].log);
            var (known, last) := (LastAnnounced(log, hop), LastRequested(log, hop));
            s.SendDatagram(d, hop).framesOut == s.framesOut +
            if Usable(known, s.time) then
              if d.Bytes().Some? then [Ipv4Frame(known.value.mac, s.mac, d.Bytes().value)] else []
            else if last.None? || s.time > last.value + 5000 then
              [ArpFrame(BROADCAST, s.mac, Some(ArpMessage(Request, s.mac, s.ip, NO_MAC, hop)))]
            else []
    ensures var (s, log) := (run[i].s, run[i].log);
            s.SendDatagram(d, hop).Queue(hop) ==
            if Usable(LastAnnounced(log, hop), s.time) then s.Queue(hop) else s.Queue(hop) + [d]
  {
    hide FramedTo, SubmittedTo, LastAnnounced, LastRequested, FramesOf, Stalled, Overtaken, Accounts, AllJustified;
    RunInv(run, ops, i);
    assert Book(run[i].s, run[i].log, hop);
  }

  // ---------------------------------------------------------------------------------------
  // Every run
  // ---------------------------------------------------------------------------------------

  /** The replies that the frames received so far call for. */
  ghost function CalledFor(run: seq<History>, ops: seq<Op>, n: nat): seq<Frame>
    requires n <= |ops| && n <= |run|
  {
    if n == 0 then []
    else
      var (s, op) := (run[n - 1].s, ops[n - 1]);
      CalledFor(run, ops, n - 1) + if op.Receive? && CallsForReply(s, op.frame) then [ReplyTo(s, op.frame)] else []
  }

  /** Over every run, the ARP replies sent, taken or still queued, are exactly those that the requests for our address
      call for, in their order. */
  lemma {:induction false} RepliesAreCalledFor(run: seq<History>, ops: seq<Op>, n: nat)
    requires IsRun(run, ops) && n < |run|
    ensures Replies(run[n].taken + run[n].s.framesOut) == CalledFor(run, ops, n)
  {
    hide Next, Replies, CallsForReply, ReplyTo, Fresh;
    if n == 0 {
      NothingAtFirst(run[0]);
    } else {
      RepliesAreCalledFor(run, ops, n - 1);
      RepliesStep(run[n - 1], run[n], ops[n - 1]);
    }
  }

  lemma NothingAtFirst(h: History)
    requires Fresh(h)
    ensures Replies(h.taken + h.s.framesOut) == []
  {
  }

  lemma RepliesStep(h: History, k: History, op: Op)
    requires Next(h, k, op)
    ensures Replies(k.taken + k.s.framesOut) == Replies(h.taken + h.s.framesOut) +
            if op.Receive? && CallsForReply(h.s, op.frame) then [ReplyTo(h.s, op.frame)] else []
  {
    hide Replies, CallsForReply, ReplyTo, Events, Interface.RecvFrame, Interface.SendDatagram;
    var sent: seq<Frame> := [];
    NoReplies(sent);
    match op {
      case Receive(frame) => sent := RepliesIff(h.s, frame);
      case Send(d, hop) => sent := SendsNoReply(h.s, d, hop);
      case Elapse(ms) =>
      case Take => assert h.s.framesOut == [h.s.framesOut[0]] + h.s.framesOut[1..];
    }
    assert k.taken + k.s.framesOut == h.taken + h.s.framesOut + sent;
    RepliesSplit(h.taken + h.s.framesOut, sent);
  }

  lemma SendsNoReply(s: Interface, d: Datagram, hop: U32) returns (sent: seq<Frame>)
    ensures s.SendDatagram(d, hop).framesOut == s.framesOut + sent && Replies(sent) == []
  {
    hide Replies, Datagram.Sendable, Datagram.Bytes;
    sent := s.SendDatagram(d, hop).framesOut[|s.framesOut|..];
    NoReplies(sent);
  }
}
