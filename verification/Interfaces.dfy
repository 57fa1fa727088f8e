/** A network interface that resolves next hops with ARP (libsponge/network_interface.cc, RFC 826). */
module Interfaces {
  import opened Machine
  import opened Datagrams

  type Mac = m: seq<Byte> | |m| == 6 witness [0, 0, 0, 0, 0, 0]

  const NO_MAC: Mac := [0, 0, 0, 0, 0, 0]
  const BROADCAST: Mac := [255, 255, 255, 255, 255, 255]
  const MAPPING_TTL: nat := 30000
  const REQUEST_TTL: nat := 5000

  datatype Opcode = Request | Reply

  datatype ArpMessage = ArpMessage(
    opcode: Opcode, senderMac: Mac, senderIp: U32, targetMac: Mac, targetIp: U32)

  /** An Ethernet frame by its type; an ARP payload that does not parse holds no message. */
  datatype Frame =
    | Ipv4Frame(dst: Mac, src: Mac, bytes: seq<Byte>)
    | ArpFrame(dst: Mac, src: Mac, message: Option<ArpMessage>)
    | OtherFrame(dst: Mac, src: Mac)

  datatype Entry = Entry(mac: Mac, stamp: nat)

  datatype Interface = Interface(
    mac: Mac, ip: U32, time: nat, cache: map<U32, Entry>, asked: map<U32, nat>,
    waiting: map<U32, seq<Datagram>>, framesOut: seq<Frame>)
  {
    /** The stored mapping for an address, if it is not too old; NO_MAC otherwise. */
    function Known(hop: U32): Mac {
      if hop !in cache || time - cache[hop].stamp > MAPPING_TTL then NO_MAC else cache[hop].mac
    }

    /** A lookup forgets a mapping that is too old. */
    function Forget(hop: U32): Interface {
      if hop in cache && time - cache[hop].stamp > MAPPING_TTL then this.(cache := cache - {hop}) else this
    }

    function Packet(d: Datagram, to: Mac): Frame
      requires d.Sendable()
    {
      Ipv4Frame(to, mac, d.Bytes().value)
    }

    function Packets(queue: seq<Datagram>, to: Mac): seq<Frame>
      requires Fine(queue) == |queue|
    {
      seq(|queue|, i requires 0 <= i < |queue| => Packet(queue[i], to))
    }

    function Question(hop: U32): Frame {
      ArpFrame(BROADCAST, mac, Some(ArpMessage(Request, mac, ip, NO_MAC, hop)))
    }

    function Answer(m: ArpMessage): Frame {
      ArpFrame(m.senderMac, mac, Some(ArpMessage(Reply, mac, ip, m.senderMac, m.senderIp)))
    }

    /** Whether an address may be asked for now: not within 5000 ms of the last request. */
    predicate MayAsk(hop: U32) {
      hop !in asked || time - asked[hop] > REQUEST_TTL
    }

    function Queue(hop: U32): seq<Datagram> {
      if hop in waiting then waiting[hop] else []
    }

    /** Whether the call ends in an exception: a datagram for a known address that cannot be serialized. */
    predicate SendThrows(d: Datagram, hop: U32) {
      Known(hop) != NO_MAC && !d.Sendable()
    }

    /** The state afterwards, also after an exception. */
    function SendDatagram(d: Datagram, hop: U32): Interface {
      var to := Known(hop);
      var s := Forget(hop);
      if to == NO_MAC then
        var t := s.(waiting := waiting[hop := Queue(hop) + [d]]);
        if MayAsk(hop) then t.(asked := asked[hop := time], framesOut := framesOut + [Question(hop)]) else t
      else if d.Sendable() then
        s.(framesOut := framesOut + [Packet(d, to)])
      else s
    }

    /** Whether sending what waits for the sender of `m` ends in an exception. */
    predicate LearnThrows(m: ArpMessage) {
      m.senderIp in asked && Fine(Queue(m.senderIp)) < |Queue(m.senderIp)|
    }

    /** The sender of an ARP message is now known; what waited for it goes out, up to the first datagram
        that cannot be serialized. That one and all behind it stay, with no request out for them. */
    function Learn(m: ArpMessage): Interface {
      var hop := m.senderIp;
      var s := this.(cache := cache[hop := Entry(m.senderMac, time)]);
      if hop in asked then
        var queue := Queue(hop);
        var n := Fine(queue);
        FinePrefix(queue);
        s.(asked := asked - {hop},
           waiting := if n == |queue| then waiting - {hop} else waiting[hop := queue[n..]],
           framesOut := framesOut + Packets(queue[..n], m.senderMac))
      else s
    }

    predicate ForUs(frame: Frame) {
      frame.dst == mac || frame.dst == BROADCAST
    }

    predicate AsksForUs(m: ArpMessage) {
      m.opcode == Request && m.targetIp == ip
    }

    predicate Learns(frame: Frame) {
      ForUs(frame) && frame.ArpFrame? && frame.message.Some?
    }

    predicate RecvThrows(frame: Frame) {
      Learns(frame) && LearnThrows(frame.message.value)
    }

    /** The state afterwards, also after an exception; then a request stays unanswered. */
    function RecvFrame(frame: Frame): Interface {
      if Learns(frame) then
        var m := frame.message.value;
        var s := Learn(m);
        if AsksForUs(m) && !LearnThrows(m) then s.(framesOut := s.framesOut + [Answer(m)]) else s
      else this
    }

    /** What an incoming frame hands to the layer above. */
    function Delivered(frame: Frame): Option<Datagram> {
      if ForUs(frame) && frame.Ipv4Frame? && DatagramOf(frame.bytes).Parsed? then
        Some(DatagramOf(frame.bytes).value)
      else None
    }

    function Tick(ms: nat): Interface {
      this.(time := time + ms)
    }
  }

  /** How many datagrams at the front of a queue can be serialized. */
  function Fine(queue: seq<Datagram>): (n: nat)
    ensures n <= |queue|
    ensures forall i :: 0 <= i < n ==> queue[i].Sendable()
    ensures n < |queue| ==> !queue[n].Sendable()
  {
    if queue == [] || !queue[0].Sendable() then 0 else 1 + Fine(queue[1..])
  }

  lemma FinePrefix(queue: seq<Datagram>)
    ensures Fine(queue[..Fine(queue)]) == Fine(queue)
  {
    var front := queue[..Fine(queue)];
    assert forall i :: 0 <= i < |front| ==> front[i] == queue[i];
  }

  function NewInterface(mac: Mac, ip: U32): Interface {
    Interface(mac, ip, 0, map[], map[], map[], [])
  }

  // ---- What happened ----

  datatype Event =
    | Submitted(hop: U32, d: Datagram)
    | Refused(hop: U32, d: Datagram)
    | Framed(hop: U32, d: Datagram, mac: Mac, time: nat)
    | Requested(hop: U32, time: nat)
    | Announced(hop: U32, mac: Mac, time: nat)
    | Interrupted(hop: U32)
    | Answered(m: ArpMessage)

  datatype Op = Send(d: Datagram, hop: U32) | Receive(frame: Frame) | Elapse(ms: nat) | Take

  predicate Permitted(s: Interface, op: Op) {
    op.Take? ==> s.framesOut != []
  }

  function Do(s: Interface, op: Op): Interface
    requires Permitted(s, op)
  {
    match op
    case Send(d, hop) => s.SendDatagram(d, hop)
    case Receive(frame) => s.RecvFrame(frame)
    case Elapse(ms) => s.Tick(ms)
    case Take => s.(framesOut := s.framesOut[1..])
  }

  function Flushed(hop: U32, queue: seq<Datagram>, mac: Mac, time: nat): seq<Event> {
    seq(|queue|, i requires 0 <= i < |queue| => Framed(hop, queue[i], mac, time))
  }

  /** What an operation adds to the history. A call of `send_datagram` that throws submits nothing; a
      flush that throws is interrupted. */
  function Events(s: Interface, op: Op): seq<Event> {
    match op
    case Send(d, hop) =>
      if s.SendThrows(d, hop) then [Refused(hop, d)]
      else
        [Submitted(hop, d)] +
        if s.Known(hop) != NO_MAC then [Framed(hop, d, s.Known(hop), s.time)]
        else if s.MayAsk(hop) then [Requested(hop, s.time)] else []
    case Receive(frame) =>
      if s.Learns(frame) then
        var m := frame.message.value;
        [Announced(m.senderIp, m.senderMac, s.time)] +
        Flushed(m.senderIp, Ready(s, m.senderIp), m.senderMac, s.time) +
        if s.LearnThrows(m) then [Interrupted(m.senderIp)]
        else if s.AsksForUs(m) then [Answered(m)] else []
      else []
    case _ => []
  }

  /** What an announcement of `hop` sends. */
  function Ready(s: Interface, hop: U32): seq<Datagram> {
    if hop in s.asked then s.Queue(hop)[..Fine(s.Queue(hop))] else []
  }

  /** The datagrams submitted for a next hop, in order. */
  function SubmittedTo(log: seq<Event>, hop: U32): seq<Datagram> {
    if log == [] then [] else
      var e := log[|log| - 1];
      var before := SubmittedTo(log[..|log| - 1], hop);
      if e.Submitted? && e.hop == hop then before + [e.d] else before
  }

  /** The datagrams put in frames for a next hop, in order. */
  function FramedTo(log: seq<Event>, hop: U32): seq<Datagram> {
    if log == [] then [] else
      var e := log[|log| - 1];
      var before := FramedTo(log[..|log| - 1], hop);
      if e.Framed? && e.hop == hop then before + [e.d] else before
  }

  /** What an address last announced about itself, and when. */
  function LastAnnounced(log: seq<Event>, hop: U32): Option<Entry> {
    if log == [] then None else
      var e := log[|log| - 1];
      if e.Announced? && e.hop == hop then Some(Entry(e.mac, e.time)) else LastAnnounced(log[..|log| - 1], hop)
  }

  /** When an address was last asked for, if it has not announced itself since. */
  function LastRequested(log: seq<Event>, hop: U32): Option<nat> {
    if log == [] then None else
      var e := log[|log| - 1];
      if e.Announced? && e.hop == hop then None
      else if e.Requested? && e.hop == hop then Some(e.time)
      else LastRequested(log[..|log| - 1], hop)
  }

  /** What must be true of an event when it happens after `log`. */
  predicate Justified(log: seq<Event>, e: Event) {
    match e
    case Framed(hop, d, mac, time) =>
      var known := LastAnnounced(log, hop);
      known.Some? && known.value.mac == mac && known.value.stamp <= time <= known.value.stamp + MAPPING_TTL
    case Requested(hop, time) =>
      var known, last := LastAnnounced(log, hop), LastRequested(log, hop);
      && (known.Some? && known.value.mac != NO_MAC ==> time > known.value.stamp + MAPPING_TTL)
      && (last.Some? ==> time > last.value + REQUEST_TTL)
    case _ => true
  }

  predicate AllJustified(log: seq<Event>) {
    forall j :: 0 <= j < |log| ==> Justified(log[..j], log[j])
  }

  function FrameOf(s: Interface, e: Event): seq<Frame> {
    match e
    case Framed(hop, d, mac, time) => if d.Sendable() then [s.Packet(d, mac)] else []
    case Requested(hop, time) => [s.Question(hop)]
    case Answered(m) => [s.Answer(m)]
    case _ => []
  }

  /** The frames that the events put on the link. */
  function FramesOf(s: Interface, log: seq<Event>): seq<Frame> {
    if log == [] then [] else FramesOf(s, log[..|log| - 1]) + FrameOf(s, log[|log| - 1])
  }
}
