/** One endpoint of a connection (libsponge/tcp_connection.cc) and the state names it derives from
    its halves (also libsponge/tcp_helpers/tcp_state.cc). */
module Connections {
  import opened Machine
  import opened WrappingIntegers
  import opened Segments
  import opened Receivers
  import opened Senders

  const MAX_RETX_ATTEMPTS: nat := 8

  datatype ReceiverState = Listening | SynReceived | FinRecv
  datatype SenderState = Closed | SynSent | SynAcked | FinSent | FinAcked | Unknown

  /** A segment on the wire with the absolute numbers behind its two wrapped ones. */
  datatype Packet = Packet(seg: TcpSegment, abs: nat, ackAbs: nat)

  function RStateOf(r: Receiver): ReceiverState {
    if r.Ackno().None? then Listening
    else if !r.reasm.out.ended then SynReceived
    else FinRecv
  }

  function SStateOf(s: Sender): SenderState {
    if s.next == 0 then Closed
    else if s.next == s.InFlight() then SynSent
    else if (s.next > s.InFlight() && !s.stream.Eof()) || (s.stream.Eof() && s.next < |s.stream.all| + 2) then SynAcked
    else if s.stream.Eof() && s.next == |s.stream.all| + 2 then (if s.InFlight() > 0 then FinSent else FinAcked)
    else Unknown
  }

  function Rank(s: SenderState): nat {
    match s
    case Closed => 0
    case SynSent => 1
    case SynAcked => 2
    case FinSent => 3
    case FinAcked => 4
    case Unknown => 5
  }

  /** Copy the receiver's acknowledgment and window into an outgoing segment. */
  function Stamp(slot: Slot, r: Receiver, rst: bool): Packet
    requires r.Valid()
  {
    var h := slot.seg.header;
    var acked := if r.syn
                 then h.(ack := true, ackno := Wrap(r.AbsAck(), r.isn), win := Min(r.WindowSize(), TWO16 - 1))
                 else h;
    Packet(slot.seg.(header := if rst then acked.(rst := true) else acked), slot.abs, if r.syn then r.AbsAck() else 0)
  }

  /** All of the queue; a pending reset goes on the first segment only. */
  function StampAll(queue: seq<Slot>, r: Receiver, rst: bool): seq<Packet>
    requires r.Valid()
  {
    seq(|queue|, i requires 0 <= i < |queue| => Stamp(queue[i], r, rst && i == 0))
  }

  datatype Connection = Connection(
    rto: U16, sender: Sender, receiver: Receiver, out: seq<Packet>,
    linger: bool, sinceLast: nat, active: bool, sendRst: bool)
  {
    ghost predicate Wf() {
      sender.stream.Valid() && receiver.Valid()
    }

    function RState(): ReceiverState {
      RStateOf(receiver)
    }

    function SState(): SenderState {
      SStateOf(sender)
    }

    function Flush(): Connection
      requires Wf()
    {
      this.(sender := sender.(queue := []),
            out := out + StampAll(sender.queue, receiver, sendRst),
            sendRst := sendRst && sender.queue == [])
    }

    function CleanShutdown(): Connection {
      var c := this.(linger := linger && !(RState() == FinRecv && Rank(SState()) < Rank(FinSent)));
      if RState() == FinRecv && SState() == FinAcked && (!c.linger || sinceLast >= 10 * rto)
      then c.(active := false) else c
    }

    function PushSegmentOut(sendSyn: bool): Connection
      requires Wf()
    {
      var c := if sendSyn || SState() != Closed || RState() != Listening
               then this.(sender := sender.FillWindow()) else this;
      FillWindowWf(sender);
      c.Flush().CleanShutdown()
    }

    function UncleanShutdown(rst: bool): Connection
      requires Wf()
    {
      var c := this.(sender := sender.(stream := sender.stream.SetError()), receiver := receiver.SetError(),
                     active := false);
      if rst then
        var d := c.(sendRst := true, sender := if sender.queue == [] then c.sender.SendEmpty() else c.sender);
        d.PushSegmentOut(false)
      else c
    }

    function SegmentReceived(seg: TcpSegment): Connection
      requires Wf()
    {
      if !active then this
      else
        var c := this.(sinceLast := 0);
        if seg.header.ack && SState() == Closed then c
        else if seg.header.rst then c.UncleanShutdown(false)
        else c.Absorb(seg).Reply(seg)
    }

    /** The receiver takes the segment, then the sender its acknowledgment. */
    function Absorb(seg: TcpSegment): (c: Connection)
      requires Wf()
      ensures c.Wf()
    {
      ReceivedValid(receiver, seg);
      AckReceivedWf(sender, seg.header.ackno, seg.header.win);
      this.(receiver := receiver.SegmentReceived(seg),
            sender := if seg.header.ack then sender.AckReceived(seg.header.ackno, seg.header.win) else sender)
    }

    function Reply(seg: TcpSegment): Connection
      requires Wf()
    {
      if seg.header.syn && RState() == Listening && SState() == Closed then PushSegmentOut(true)
      else if seg.Length() > 0 && RState() != Listening && sender.queue == []
              && !(seg.header.syn && !seg.header.ack && SState() == Closed)
      then this.(sender := sender.SendEmpty()).PushSegmentOut(false)
      else PushSegmentOut(false)
    }

    function Write(data: seq<Byte>): Connection
      requires Wf()
    {
      this.(sender := sender.(stream := sender.stream.Write(data))).PushSegmentOut(false)
    }

    function EndInputStream(): Connection
      requires Wf()
    {
      this.(sender := sender.(stream := sender.stream.EndInput())).PushSegmentOut(false)
    }

    function Connect(): Connection
      requires Wf()
    {
      PushSegmentOut(true)
    }

    function Tick(ms: nat): Connection
      requires Wf()
    {
      if !active then this
      else
        var c := this.(sinceLast := sinceLast + ms, sender := sender.Tick(ms));
        if c.sender.retx > MAX_RETX_ATTEMPTS then
          UncleanWf(c, true);
          c.UncleanShutdown(true).PushSegmentOut(false)
        else c.PushSegmentOut(false)
    }

    /** The destructor. */
    function Destroy(): Connection
      requires Wf()
    {
      if active then UncleanShutdown(true) else this
    }

    function ReadInbound(n: nat): Connection
      requires Wf()
    {
      this.(receiver := receiver.Read(n))
    }
  }

  function NewConnection(rto: U16, sendCap: nat, recvCap: nat, isn: U32): Connection {
    Connection(rto, NewSender(sendCap, rto, isn), NewReceiver(recvCap), [], true, 0, true, false)
  }

  lemma {:induction false} FillLoopWf(s: Sender, rem: nat)
    requires s.stream.Valid()
    ensures s.FillLoop(rem).stream.Valid()
    decreases s.stream.Buffered()
  {
    if rem != 0 && s.stream.Buffered() != 0 {
      var t := s.SendData(rem);
      FillLoopWf(t, rem - (t.next - s.next));
    }
  }

  lemma FillWindowWf(s: Sender)
    requires s.stream.Valid()
    ensures s.FillWindow().stream.Valid()
  {
    FillLoopWf(s, s.Space());
  }

  lemma AckReceivedWf(s: Sender, ackno: U32, win: U16)
    requires s.stream.Valid()
    ensures s.AckReceived(ackno, win).stream.Valid()
  {
    var abs := s.Acked(ackno);
    FillWindowWf(TakeAck(s, abs, win));
  }

  lemma PushWf(c: Connection, sendSyn: bool)
    requires c.Wf()
    ensures c.PushSegmentOut(sendSyn).Wf()
  {
    hide Sender.FillWindow, StampAll;
    FillWindowWf(c.sender);
  }

  /** What pushing does to the sender. */
  lemma PushSender(c: Connection, sendSyn: bool)
    requires c.Wf()
    ensures c.PushSegmentOut(sendSyn).sender ==
            (if sendSyn || c.SState() != Closed || c.RState() != Listening then c.sender.FillWindow() else c.sender).(queue := [])
  {
    hide Sender.FillWindow, StampAll, SStateOf, RStateOf, Receiver.Valid;
    FillWindowWf(c.sender);
  }

  lemma UncleanWf(c: Connection, rst: bool)
    requires c.Wf()
    ensures c.UncleanShutdown(rst).Wf()
  {
    hide Connection.PushSegmentOut;
    var d := c.(sender := c.sender.(stream := c.sender.stream.SetError()), receiver := c.receiver.SetError(), active := false);
    var e := d.(sendRst := true, sender := if c.sender.queue == [] then d.sender.SendEmpty() else d.sender);
    PushWf(e, false);
  }

  // ---------------------------------------------------------------------------------------
  // State names
  // ---------------------------------------------------------------------------------------

  /** `TCPState::state_summary` of a sender, where the stream has no error. */
  function SenderSummary(s: Sender): SenderState {
    if s.next == 0 then Closed
    else if s.next == s.InFlight() then SynSent
    else if !s.stream.Eof() then SynAcked
    else if s.next < |s.stream.all| + 2 then SynAcked
    else if s.InFlight() != 0 then FinSent
    else FinAcked
  }

  /** `TCPState::state_summary` of a receiver, where the stream has no error. */
  function ReceiverSummary(r: Receiver): ReceiverState {
    if r.Ackno().None? then Listening
    else if r.reasm.out.ended then FinRecv
    else SynReceived
  }

  /** The FIN is out and everything is acknowledged. */
  predicate FinDone(s: Sender) {
    s.fin && 0 < s.base == s.next
  }

  /** What the derived sender state means in terms of what was sent and acknowledged. It is never
      `Unknown`, and it is the documented summary. */
  lemma SenderStateMeaning(s: Sender)
    requires s.Core()
    ensures SStateOf(s) == SenderSummary(s)
    ensures SStateOf(s) == Closed <==> !s.syn
    ensures SStateOf(s) == SynSent <==> s.syn && s.base == 0
    ensures SStateOf(s) == SynAcked <==> 0 < s.base && (!s.fin || s.Late())
    ensures SStateOf(s) == FinSent <==> 0 < s.base < s.next && s.fin && !s.Late()
    ensures SStateOf(s) == FinAcked <==> FinDone(s) && !s.Late()
    ensures SStateOf(s) != Unknown
  {
    hide Chain, AllSent, Reaches;
  }

  lemma ReceiverStateMeaning(r: Receiver)
    ensures RStateOf(r) == ReceiverSummary(r)
  {
  }

  /** `s'` is a later state of the sender `s`: its stream may have grown. */
  ghost predicate Later(s: Sender, s': Sender) {
    && s.stream.Valid() && s'.stream.Valid()
    && s'.isn == s.isn && s'.initialRto == s.initialRto
    && s.Sent().GrowsTo(s'.Sent())
    && s.base <= s'.base && s.next <= s'.next
    && s.stream.all <= s'.stream.all
    && (s.stream.ended ==> s'.stream.ended)
  }

  lemma LaterTrans(s: Sender, t: Sender, u: Sender)
    requires Later(s, t) && Later(t, u)
    ensures Later(s, u)
  {
  }

  lemma AdvancesIsLater(s: Sender, s': Sender, out: seq<Slot>)
    requires Advances(s, s', out)
    ensures Later(s, s')
  {
    hide AllGenuine;
  }

  /** Once late, always late; and what was acknowledged stays so. */
  lemma LateStays(s: Sender, s': Sender)
    requires s.Core() && s'.Core() && Later(s, s')
    ensures s.Late() ==> s'.Late()
    ensures FinDone(s) ==> FinDone(s')
  {
    hide Chain, AllSent, Reaches;
    if s.fin {
      assert |s.stream.all[..s.stream.taken]| == |s'.stream.all[..s'.stream.taken]|;
    }
  }

  /** Whatever is received or done, the sender's state moves forward, except when bytes have been accepted
      after the FIN: that takes it back from FinSent or FinAcked. */
  lemma SenderStateForward(s: Sender, s': Sender)
    requires s.Core() && s'.Core() && Later(s, s')
    ensures Rank(SStateOf(s)) <= Rank(SStateOf(s')) <==> !(s'.Late() && Rank(SStateOf(s)) >= Rank(FinSent))
    ensures Rank(SStateOf(s')) <= Rank(FinAcked)
  {
    hide Chain, AllSent, Reaches, SStateOf;
    SenderStateMeaning(s);
    SenderStateMeaning(s');
    LateStays(s, s');
  }
}
