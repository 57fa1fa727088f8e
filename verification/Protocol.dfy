/** Two endpoints and a network that may lose, duplicate and reorder everything: it keeps the set
    of all packets ever sent, and any of them may be delivered at any time, any number of times. */
module Protocol {
  import opened Machine
  import opened WrappingIntegers
  import opened Segments
  import opened Reassembly
  import opened Receivers
  import opened Senders
  import opened Connections
  import opened ConnectionSteps
  import opened ConnectionEffects

  datatype System = System(a: Connection, b: Connection, fromA: set<Packet>, fromB: set<Packet>) {
    function Swap(): System {
      System(b, a, fromB, fromA)
    }
  }

  ghost predicate Init(s: System) {
    && s.fromA == {} && s.fromB == {}
    && Fresh(s.a) && Fresh(s.b)
  }

  ghost predicate Fresh(c: Connection) {
    exists rto, sendCap, recvCap, isn :: c == NewConnection(rto, sendCap, recvCap, isn)
  }

  /** The segment-lifetime assumption of section 3.3 of RFC 793: the numbers in a packet lie within
      half the sequence space of the receiver's checkpoints. */
  predicate Timely(c: Connection, p: Packet) {
    && (p.seg.header.syn || Recent(c.receiver, p.abs))
    && (p.seg.header.ack ==> -TWO31 < p.ackAbs - c.sender.base < TWO31)
  }

  /** The system after endpoint `s.a` has performed `op`. */
  function Moved(s: System, op: Op): System
    requires s.a.Wf()
  {
    var c := Do(s.a, op);
    System(c.(out := []), s.b, s.fromA + (set q | q in c.out), s.fromB)
  }

  /** Endpoint `s.a` performs `op`; a delivered packet is one that `s.b` sent. */
  ghost predicate Moves(s: System, op: Op, p: Packet, s': System) {
    && s.a.Wf() && Permitted(s.a, op) && s.b.sender.next < TWO64 - TWO32
    && (op.Deliver? ==> op.seg == p.seg && p in s.fromB && Timely(s.a, p))
    && s' == Moved(s, op)
  }

  ghost predicate Next(s: System, s': System) {
    || (exists op, p :: Moves(s, op, p, s'))
    || (exists op, p :: Moves(s.Swap(), op, p, s'.Swap()))
  }

  ghost predicate IsRun(run: seq<System>) {
    && run != [] && Init(run[0])
    && forall i | 0 < i < |run| :: Next(run[i - 1], run[i])
  }

  /** A state of some run, seen from either side. */
  ghost predicate Reachable(s: System) {
    exists run: seq<System>, i :: IsRun(run) && 0 <= i < |run| && (s == run[i] || s == run[i].Swap())
  }

  /** Which endpoint moved, and how. */
  datatype Move = Move(byA: bool, op: Op, p: Packet)

  ghost predicate Makes(s: System, m: Move, s': System) {
    if m.byA then Moves(s, m.op, m.p, s') else Moves(s.Swap(), m.op, m.p, s'.Swap())
  }

  ghost predicate IsHistory(run: seq<System>, moves: seq<Move>) {
    && |run| == |moves| + 1 && Init(run[0])
    && forall i | 0 <= i < |moves| :: Makes(run[i], moves[i], run[i + 1])
  }

  lemma HistoryReach(run: seq<System>, moves: seq<Move>, n: nat)
    requires IsHistory(run, moves) && n < |run|
    ensures Reachable(run[n])
  {
    hide Moves, Init;
    forall i | 0 < i < |run| ensures Next(run[i - 1], run[i]) {
      assert Makes(run[i - 1], moves[i - 1], run[i]);
    }
    assert IsRun(run);
  }

  // ---------------------------------------------------------------------------------------
  // The invariant
  // ---------------------------------------------------------------------------------------

  ghost predicate AllFrom(packets: set<Packet>, sent: Sent) {
    forall p | p in packets :: Genuine(p.seg, p.abs, sent)
  }

  /** Every acknowledgment in `packets` was true when it was sent. */
  ghost predicate AcksTrue(packets: set<Packet>, r: Receiver, isn: U32) {
    forall p | p in packets && p.seg.header.ack ::
      r.syn && 1 <= p.ackAbs <= r.AbsAck() && p.seg.header.ackno == Wrap(p.ackAbs, isn)
  }

  /** Every FIN in `packets` acknowledges all that `r` has received. */
  ghost predicate FinsCover(packets: set<Packet>, r: Receiver) {
    forall p | p in packets && p.seg.header.fin :: p.seg.header.ack && p.ackAbs == r.AbsAck()
  }

  /** Some FIN in `packets` has been taken, together with its acknowledgment. */
  ghost predicate FinTaken(packets: set<Packet>, base: nat) {
    exists p :: p in packets && p.seg.header.fin && (p.seg.header.ack ==> p.ackAbs <= base)
  }

  /** Every copy kept for retransmission has been sent in some packet. */
  ghost predicate OnTheWire(copies: seq<Slot>, packets: set<Packet>) {
    forall slot <- copies :: InSome(slot, packets)
  }

  ghost predicate InSome(slot: Slot, packets: set<Packet>) {
    exists p <- packets :: Carries(p, slot)
  }

  predicate NoneReset(packets: set<Packet>) {
    forall p <- packets :: !p.seg.header.rst
  }

  function Acknowledged(r: Receiver): nat {
    if r.syn then r.AbsAck() else 0
  }

  /** The stream from `x` to `y`: `nx` and `ny` are the packets they sent. */
  ghost predicate Link(x: Connection, y: Connection, nx: set<Packet>, ny: set<Packet>) {
    && x.sender.stream.Valid()
    && AllFrom(nx, x.sender.Sent())
    && y.receiver.Follows(x.sender.Sent())
    && x.sender.base <= Acknowledged(y.receiver)
    && AcksTrue(ny, y.receiver, x.sender.isn)
    && (y.receiver.fin ==> FinTaken(nx, y.sender.base))
    && (!x.linger && !x.sender.Late() ==> x.receiver.reasm.out.ended && FinsCover(nx, x.receiver))
    && Meek(x.sender)
    && OnTheWire(x.sender.copies, nx)
    && (x.active ==> NoneReset(nx))
  }

  ghost predicate Inv(s: System) {
    && Endpoint(s.a) && Endpoint(s.b) && s.a.out == [] && s.b.out == []
    && Link(s.a, s.b, s.fromA, s.fromB)
    && Link(s.b, s.a, s.fromB, s.fromA)
  }

  lemma InitInv(s: System)
    requires Init(s)
    ensures Inv(s)
  {
    hide Fresh, Link, Endpoint;
    NewEndpoint(s.a);
    NewEndpoint(s.b);
    NewLink(s.a, s.b);
    NewLink(s.b, s.a);
  }

  lemma NewEndpoint(c: Connection)
    requires Fresh(c)
    ensures Endpoint(c) && c.out == []
  {
  }

  lemma NewLink(x: Connection, y: Connection)
    requires Fresh(x) && Fresh(y)
    ensures Link(x, y, {}, {})
  {
  }

  // ---------------------------------------------------------------------------------------
  // One move
  // ---------------------------------------------------------------------------------------

  /** A move of `x` to `x'`, as far as the peer `y` is concerned. */
  ghost predicate HalfStep(x: Connection, y: Connection, ny: set<Packet>, x': Connection) {
    && y.sender.stream.Valid()
    && x'.receiver.Valid() && x'.receiver.Follows(y.sender.Sent())
    && Acknowledged(x.receiver) <= Acknowledged(x'.receiver)
    && (x.receiver.syn ==> x'.receiver.syn && x.receiver.AbsAck() <= x'.receiver.AbsAck())
    && (x.receiver.reasm.out.ended ==> x'.receiver.reasm.out.ended)
    && (x'.receiver.fin ==> x.receiver.fin || FinTaken(ny, x'.sender.base))
    && x.sender.base <= x'.sender.base <= Acknowledged(y.receiver)
    && Meek(x'.sender)
    && (x'.linger ==> x.linger)
    && (x.sender.Late() ==> x'.sender.Late())
    && (x.linger && !x'.linger && !x'.sender.Late() ==> x'.receiver.reasm.out.ended && !x.sender.fin)
  }

  lemma ErrorKeeps(r: Receiver, r': Receiver, sent: Sent)
    requires r.Valid() && r.Follows(sent) && SameButError(r, r')
    ensures r'.Valid() && r'.Follows(sent) && r'.AbsAck() == r.AbsAck() && r'.syn == r.syn && r'.fin == r.fin
    ensures r'.reasm.out.ended == r.reasm.out.ended
  {
  }

  lemma QuietHalf(x: Connection, y: Connection, ny: set<Packet>, op: Op, x': Connection)
    requires x.receiver.Valid() && y.sender.stream.Valid() && x.receiver.Follows(y.sender.Sent())
    requires Meek(x.sender) && x.sender.base <= Acknowledged(y.receiver)
    requires Quiet(Clocked(x, op), x')
    ensures HalfStep(x, y, ny, x')
  {
    hide Receiver.Valid, Receiver.Follows, SStateOf, RStateOf;
    ErrorKeeps(x.receiver, x'.receiver, y.sender.Sent());
  }

  lemma ReadHalf(x: Connection, y: Connection, ny: set<Packet>, n: nat)
    requires x.Wf() && y.sender.stream.Valid() && x.receiver.Follows(y.sender.Sent())
    requires Meek(x.sender) && x.sender.base <= Acknowledged(y.receiver)
    ensures HalfStep(x, y, ny, x.ReadInbound(n))
  {
  }

  /** An acknowledgment from the peer is unwrapped to the number it stands for. */
  lemma AckedIs(s: Sender, p: Packet)
    requires p.seg.header.ackno == Wrap(p.ackAbs, s.isn)
    requires p.ackAbs <= s.next < TWO64 - TWO32 && s.base <= s.next
    requires -TWO31 < p.ackAbs - s.base < TWO31
    ensures s.Acked(p.seg.header.ackno) == p.ackAbs
  {
    UnwrapWrap(p.ackAbs, s.isn, s.base);
  }

  /** What the sender makes of a packet from the peer. */
  lemma AckTaken(x: Connection, y: Connection, p: Packet)
    requires x.sender.Valid() && x.Wf() && x.sender.next < TWO64 - TWO32
    requires y.receiver.Valid() && y.receiver.Follows(x.sender.Sent()) && Meek(x.sender)
    requires x.sender.base <= Acknowledged(y.receiver)
    requires p.seg.header.ack ==>
               y.receiver.syn && 1 <= p.ackAbs <= y.receiver.AbsAck() && p.seg.header.ackno == Wrap(p.ackAbs, x.sender.isn)
    requires Timely(x, p)
    ensures var s' := x.Absorb(p.seg).sender;
            && s'.Valid() && x.sender.base <= s'.base <= Acknowledged(y.receiver) && Meek(s')
            && (p.seg.header.ack ==> s'.base == Max(x.sender.base, p.ackAbs))
            && (x.sender.fin ==> s'.fin) && (x.sender.Late() ==> s'.Late())
  {
    hide Sender.Core, Sender.TimerOk, Receiver.SegmentReceived, Sender.AckReceived, Recent, Unwrap, Wrap;
    if p.seg.header.ack {
      AckBounded(y.receiver, x.sender.Sent());
      CoreBounds(x.sender);
      AckedIs(x.sender, p);
      var out := AckAdvances(x.sender, p.seg.header.ackno, p.seg.header.win);
      AdvancesIsLater(x.sender, x.Absorb(p.seg).sender, out);
      LateStays(x.sender, x.Absorb(p.seg).sender);
      AckMeek(x.sender, p.seg.header.ackno, p.seg.header.win);
    }
  }

  lemma CoreBounds(s: Sender)
    requires s.Core()
    ensures s.stream.Valid() && s.base <= s.next == s.Sent().Next()
  {
    hide Chain, AllSent, Reaches;
  }

  /** What the receiver makes of a packet from the peer. */
  lemma DataTaken(x: Connection, y: Connection, p: Packet)
    requires x.Wf() && y.sender.Core() && y.sender.stream.Valid() && y.sender.next < TWO64 - TWO32
    requires x.receiver.Follows(y.sender.Sent()) && Genuine(p.seg, p.abs, y.sender.Sent()) && Timely(x, p)
    ensures var r' := x.Absorb(p.seg).receiver;
            && r'.Valid() && r'.Follows(y.sender.Sent())
            && (x.receiver.syn ==> r'.syn) && x.receiver.AbsAck() <= r'.AbsAck()
            && (x.receiver.reasm.out.ended ==> r'.reasm.out.ended)
            && (r'.fin ==> x.receiver.fin || p.seg.header.fin)
  {
    hide Receiver.SegmentReceived, Sender.AckReceived, Genuine, Receiver.Follows, Recent, Receiver.Valid;
    CoreBounds(y.sender);
    ReceivedValid(x.receiver, p.seg);
    ReceivedFollows(x.receiver, p.seg, p.abs, y.sender.Sent());
  }

  lemma DeliverHalf(x: Connection, y: Connection, nx: set<Packet>, ny: set<Packet>, p: Packet)
    requires Endpoint(x) && Endpoint(y) && x.Wf() && Link(x, y, nx, ny) && Link(y, x, ny, nx)
    requires p in ny && Timely(x, p) && x.sender.next < TWO64 - TWO32 && y.sender.next < TWO64 - TWO32
    ensures HalfStep(x, y, ny, x.SegmentReceived(p.seg))
  {
    hide Connection.SegmentReceived, Connection.Absorb, Quiet, HalfStep, FinsCover, Took, Timely, Meek, Genuine,
         Receiver.Valid, Receiver.Follows, Sender.Core, Sender.TimerOk, AllGenuine, GoodStanding;
    var x' := x.SegmentReceived(p.seg);
    DeliverHas(x, p.seg);
    if Took(x, p.seg) {
      AckTaken(x, y, p);
      DataTaken(x, y, p);
      ClockedAbsorbed(x, p.seg);
      TookHalf(x, y, ny, p, Clocked(x, Deliver(p.seg)).Absorb(p.seg), x');
    } else {
      QuietHalf(x, y, ny, Deliver(p.seg), x');
    }
  }

  lemma ClockedAbsorbed(x: Connection, seg: TcpSegment)
    requires x.Wf()
    ensures var d := Clocked(x, Deliver(seg)).Absorb(seg);
            d.receiver == x.Absorb(seg).receiver && d.sender == x.Absorb(seg).sender && d.linger == x.linger
  {
    hide Receiver.SegmentReceived, Sender.AckReceived;
  }

  lemma TookHalf(x: Connection, y: Connection, ny: set<Packet>, p: Packet, d: Connection, x': Connection)
    requires d.linger == x.linger && p in ny && Quiet(d, x')
    requires y.sender.stream.Valid()
    requires d.receiver.Valid() && d.receiver.Follows(y.sender.Sent())
    requires (x.receiver.syn ==> d.receiver.syn) && x.receiver.AbsAck() <= d.receiver.AbsAck()
    requires x.receiver.reasm.out.ended ==> d.receiver.reasm.out.ended
    requires d.receiver.fin ==> x.receiver.fin || p.seg.header.fin
    requires x.sender.base <= d.sender.base <= Acknowledged(y.receiver) && Meek(d.sender)
    requires p.seg.header.ack ==> p.ackAbs <= d.sender.base
    requires (x.sender.fin ==> d.sender.fin) && (x.sender.Late() ==> d.sender.Late())
    ensures HalfStep(x, y, ny, x')
  {
    hide Receiver.Valid, Receiver.Follows, SStateOf, RStateOf;
    ErrorKeeps(d.receiver, x'.receiver, y.sender.Sent());
  }

  lemma MoveHalf(s: System, op: Op, p: Packet, s': System)
    requires Inv(s) && Moves(s, op, p, s')
    ensures HalfStep(s.a, s.b, s.fromB, Do(s.a, op))
  {
    hide Endpoint, HalfStep, Connection.SegmentReceived, Quiet, AllFrom, AcksTrue, FinsCover, FinTaken, Meek, Timely;
    if op.Deliver? {
      DeliverHalf(s.a, s.b, s.fromA, s.fromB, p);
    } else if op.Read? {
      ReadHalf(s.a, s.b, s.fromB, op.n);
    } else {
      OpQuiet(s.a, op);
      QuietHalf(s.a, s.b, s.fromB, op, Do(s.a, op));
    }
  }

  lemma SenderSide(x: Connection, y: Connection, nx: set<Packet>, ny: set<Packet>, x': Connection, nx': set<Packet>)
    requires Endpoint(x) && Endpoint(y) && Link(x, y, nx, ny) && Link(y, x, ny, nx)
    requires HalfStep(x, y, ny, x') && Stepped(x, x') && x.out == []
    requires nx' == nx + set q | q in x'.out
    ensures Link(x', y, nx', ny)
  {
    hide Endpoint, AllFrom, AcksTrue, FinsCover, FinTaken, Meek, Receiver.Valid, Receiver.Follows, PacketsOk, Later, GoodStanding,
         OnTheWire, Posted, NoneReset, NoReset;
    EndpointValid(x);
    EndpointValid(y);
    ActiveQuiet(x);
    assert x'.out[|x.out|..] == x'.out;
    PostedOnTheWire(x'.sender.copies, x.sender.copies, nx, x'.out);
    if x'.active {
      NoneResetGrows(nx, x'.out);
    }
    LaterGrows(x.sender, x'.sender);
    AllFromGrows(nx, x'.out, x.sender.Sent(), x'.sender.Sent(), x'.receiver);
    FollowsGrows(y.receiver, x.sender.Sent(), x'.sender.Sent());
    LaterIsn(x.sender, x'.sender);
    FinTakenGrows(nx, nx', y.sender.base);
    if !x'.linger && !x'.sender.Late() {
      CoverKept(x, y, nx, x', nx');
    }
  }

  lemma ActiveQuiet(c: Connection)
    requires Endpoint(c)
    ensures c.active ==> !c.sendRst
  {
    hide Settled, GoodStanding;
  }

  lemma NoneResetGrows(nx: set<Packet>, out: seq<Packet>)
    requires NoneReset(nx) && NoReset(out)
    ensures NoneReset(nx + (set q | q in out))
  {
  }

  lemma PostedOnTheWire(copies: seq<Slot>, before: seq<Slot>, nx: set<Packet>, out: seq<Packet>)
    requires OnTheWire(before, nx) && Posted(copies, before, out)
    ensures OnTheWire(copies, nx + (set q | q in out))
  {
    hide Carries;
    var all := nx + (set q | q in out);
    forall slot <- copies ensures InSome(slot, all) {
      if Carried(slot, out) {
        var i :| 0 <= i < |out| && Carries(out[i], slot);
        assert out[i] in all;
      } else {
        assert InSome(slot, nx);
        var p :| p in nx && Carries(p, slot);
        assert p in all;
      }
    }
  }

  lemma LaterIsn(s: Sender, s': Sender)
    requires Later(s, s')
    ensures s'.isn == s.isn
  {
  }

  lemma AllFromGrows(nx: set<Packet>, out: seq<Packet>, sent: Sent, later: Sent, r: Receiver)
    requires AllFrom(nx, sent) && sent.GrowsTo(later) && PacketsOk(out, later, r)
    ensures AllFrom(nx + (set q | q in out), later)
  {
    hide Genuine, AckOk, Sent.GrowsTo;
    forall p | p in nx
      ensures Genuine(p.seg, p.abs, later)
    {
      GenuineGrows(p.seg, p.abs, sent, later);
    }
  }

  lemma FinTakenGrows(nx: set<Packet>, nx': set<Packet>, base: nat)
    requires nx <= nx'
    ensures FinTaken(nx, base) ==> FinTaken(nx', base)
  {
  }

  /** Once lingering is given up, every FIN acknowledges the whole inbound stream: either no FIN
      was out yet, or the receiver had ended and can acknowledge no more. */
  lemma CoverKept(x: Connection, y: Connection, nx: set<Packet>, x': Connection, nx': set<Packet>)
    requires x.Wf() && y.sender.stream.Valid() && x.receiver.Follows(y.sender.Sent())
    requires AllFrom(nx, x.sender.Sent())
    requires !x.linger ==> x.receiver.reasm.out.ended && FinsCover(nx, x.receiver)
    requires !x'.linger && x'.sender.stream.Valid() && PacketsOk(x'.out, x'.sender.Sent(), x'.receiver)
    requires x'.receiver.Valid() && x'.receiver.Follows(y.sender.Sent())
    requires x.receiver.reasm.out.ended ==> x'.receiver.reasm.out.ended
    requires x.linger ==> x'.receiver.reasm.out.ended && !x.sender.fin
    requires nx' == nx + set q | q in x'.out
    ensures x'.receiver.reasm.out.ended && FinsCover(nx', x'.receiver)
  {
    EndedAck(x'.receiver, y.sender.Sent());
    if x.receiver.reasm.out.ended {
      EndedAck(x.receiver, y.sender.Sent());
    }
    hide Receiver.Valid, Receiver.Follows;
    forall p | p in nx' && p.seg.header.fin
      ensures p.seg.header.ack && p.ackAbs == x'.receiver.AbsAck()
    {
      if p in x'.out {
        var i :| 0 <= i < |x'.out| && x'.out[i] == p;
        assert AckOk(x'.out[i], x'.receiver);
      } else {
        assert p in nx;
      }
    }
  }

  lemma EndedAck(r: Receiver, sent: Sent)
    requires r.Valid() && r.reasm.out.ended && r.Follows(sent)
    ensures r.syn && r.AbsAck() == sent.Next() && sent.fin
  {
  }

  lemma ReceiverSide(x: Connection, y: Connection, nx: set<Packet>, ny: set<Packet>, x': Connection, nx': set<Packet>)
    requires Endpoint(x) && Endpoint(y) && Link(y, x, ny, nx)
    requires HalfStep(x, y, ny, x') && Stepped(x, x') && x.out == []
    requires nx' == nx + set q | q in x'.out
    ensures Link(y, x', ny, nx')
  {
    hide Endpoint, AllFrom, AcksTrue, FinsCover, FinTaken, Meek, Receiver.Valid, Receiver.Follows, PacketsOk, Later, OnTheWire, Posted;
    EndpointValid(x);
    assert x'.out[|x.out|..] == x'.out;
    AcksStayTrue(nx, x'.out, x.receiver, x'.receiver, y.sender.Sent(), x'.sender.Sent());
    FinTakenLater(ny, x.sender.base, x'.sender.base);
  }

  lemma FinTakenLater(nx: set<Packet>, base: nat, base': nat)
    requires base <= base'
    ensures FinTaken(nx, base) ==> FinTaken(nx, base')
  {
  }

  lemma AcksStayTrue(nx: set<Packet>, out: seq<Packet>, r: Receiver, r': Receiver, peer: Sent, own: Sent)
    requires AcksTrue(nx, r, peer.isn) && r'.Follows(peer) && PacketsOk(out, own, r')
    requires r.syn ==> r'.syn && r.AbsAck() <= r'.AbsAck()
    ensures AcksTrue(nx + (set q | q in out), r', peer.isn)
  {
    hide Genuine, Reassembler.Matches;
    forall p | p in nx + (set q | q in out) && p.seg.header.ack
      ensures r'.syn && 1 <= p.ackAbs <= r'.AbsAck() && p.seg.header.ackno == Wrap(p.ackAbs, peer.isn)
    {
      if p in out {
        var i :| 0 <= i < |out| && out[i] == p;
        assert AckOk(out[i], r');
      }
    }
  }

  lemma MoveKeeps(s: System, op: Op, p: Packet, s': System)
    requires Inv(s) && Moves(s, op, p, s')
    ensures Inv(s')
  {
    hide Endpoint, HalfStep, Link, Stepped, Connection.SegmentReceived, Do, Timely;
    MoveHalf(s, op, p, s');
    OpKeeps(s.a, op);
    var x' := Do(s.a, op);
    SenderSide(s.a, s.b, s.fromA, s.fromB, x', s'.fromA);
    ReceiverSide(s.a, s.b, s.fromA, s.fromB, x', s'.fromA);
    Transmitted(x', s.b, s'.fromA, s.fromB);
  }

  /** Handing the outgoing packets to the network changes nothing else. */
  lemma Transmitted(x: Connection, y: Connection, nx: set<Packet>, ny: set<Packet>)
    requires Endpoint(x) && Link(x, y, nx, ny) && Link(y, x, ny, nx)
    ensures var x' := x.(out := []);
            Endpoint(x') && Link(x', y, nx, ny) && Link(y, x', ny, nx)
  {
    hide AllFrom, AcksTrue, FinsCover, FinTaken, Meek, Receiver.Valid, Receiver.Follows, Sender.Core, Sender.TimerOk, AllGenuine,
         SStateOf, RStateOf;
  }

  lemma SwapInv(s: System)
    ensures Inv(s) <==> Inv(s.Swap())
  {
    hide Endpoint, Link;
  }

  lemma NextKeeps(s: System, s': System)
    requires Inv(s) && Next(s, s')
    ensures Inv(s')
  {
    hide Inv, Moves;
    if op, p :| Moves(s, op, p, s') {
      MoveKeeps(s, op, p, s');
    } else {
      var op, p :| Moves(s.Swap(), op, p, s'.Swap());
      SwapInv(s);
      MoveKeeps(s.Swap(), op, p, s'.Swap());
      SwapInv(s'.Swap());
    }
  }

  lemma {:induction false} RunInv(run: seq<System>, i: nat)
    requires IsRun(run) && i < |run|
    ensures Inv(run[i])
  {
    hide Inv, Init, Next;
    if i == 0 {
      InitInv(run[0]);
    } else {
      RunInv(run, i - 1);
      NextKeeps(run[i - 1], run[i]);
    }
  }

  lemma ReachableInv(s: System)
    requires Reachable(s)
    ensures Inv(s)
  {
    hide IsRun, Inv;
    var run: seq<System>, i :| IsRun(run) && 0 <= i < |run| && (s == run[i] || s == run[i].Swap());
    RunInv(run, i);
    SwapInv(run[i]);
  }
}
