/** The connection object of libsponge/tcp_connection.cc, proved to take the steps of `Connections`. */
module TcpConnections {
  import opened Machine
  import opened Segments
  import opened ByteStreams
  import opened Receivers
  import opened TcpReceivers
  import opened Senders
  import opened TcpSenders
  import opened Connections

  ghost function ZipPackets(segs: seq<TcpSegment>, abs: seq<nat>, acks: seq<nat>): seq<Packet>
    requires |segs| == |abs| == |acks|
  {
    seq(|segs|, i requires 0 <= i < |segs| => Packet(segs[i], abs[i], acks[i]))
  }

  /** Moving one segment from the sender's queue does not change where the flush will end. */
  lemma FlushStep(c: Connection)
    requires c.Wf() && c.sender.queue != []
    ensures var p := Stamp(c.sender.queue[0], c.receiver, c.sendRst);
            c.Flush() == c.(sender := c.sender.(queue := c.sender.queue[1..]), out := c.out + [p], sendRst := false).Flush()
  {
    var p := Stamp(c.sender.queue[0], c.receiver, c.sendRst);
    var q := c.sender.queue;
    assert StampAll(q, c.receiver, c.sendRst) == [p] + StampAll(q[1..], c.receiver, false);
    assert c.out + ([p] + StampAll(q[1..], c.receiver, false)) == c.out + [p] + StampAll(q[1..], c.receiver, false);
  }

  lemma FlushEmpty(c: Connection)
    requires c.Wf() && c.sender.queue == []
    ensures c.Flush() == c
  {
    assert c.out + StampAll([], c.receiver, c.sendRst) == c.out;
  }

  lemma ZipAppend(segs: seq<TcpSegment>, abs: seq<nat>, acks: seq<nat>, p: Packet)
    requires |segs| == |abs| == |acks|
    ensures ZipPackets(segs, abs, acks) + [p] == ZipPackets(segs + [p.seg], abs + [p.abs], acks + [p.ackAbs])
  {
  }

  class TcpConnection {
    const rtTimeout: U16
    const receiver: TcpReceiver
    const sender: TcpSender
    var segmentsOut: seq<TcpSegment>
    var lingerAfterStreamsFinish: bool
    var timeSinceLastSegmentReceived: nat
    var isActive: bool
    var sendRst: bool
    ghost var outAbs: seq<nat>
    ghost var outAck: seq<nat>

    ghost function Footprint(): set<object> {
      {this, sender, sender.stream, sender.timer, receiver, receiver.reassembler, receiver.reassembler.output}
    }

    ghost predicate Valid()
      reads Footprint()
    {
      && sender.Valid() && receiver.Valid()
      && sender.stream != receiver.reassembler.output
      && |segmentsOut| == |outAbs| == |outAck|
    }

    ghost function State(): (c: Connection)
      reads Footprint()
      requires Valid()
      ensures c.Wf()
    {
      Connection(rtTimeout, sender.State(), receiver.State(), ZipPackets(segmentsOut, outAbs, outAck),
                 lingerAfterStreamsFinish, timeSinceLastSegmentReceived, isActive, sendRst)
    }

    constructor (rto: U16, sendCapacity: nat, recvCapacity: nat, isn: U32)
      ensures Valid() && State() == NewConnection(rto, sendCapacity, recvCapacity, isn)
      ensures fresh(Footprint() - {this})
    {
      rtTimeout := rto;
      receiver := new TcpReceiver(recvCapacity);
      sender := new TcpSender(sendCapacity, rto, isn);
      segmentsOut, outAbs, outAck := [], [], [];
      lingerAfterStreamsFinish, timeSinceLastSegmentReceived, isActive, sendRst := true, 0, true, false;
    }

    function RState(): (r: ReceiverState)
      reads receiver, receiver.reassembler, receiver.reassembler.output
      requires receiver.Valid()
      ensures r == RStateOf(receiver.State())
    {
      if receiver.Ackno().None? then Listening
      else if !receiver.reassembler.output.eof then SynReceived
      else FinRecv
    }

    function SState(): (s: SenderState)
      reads sender, sender.stream, sender.timer
      requires sender.Valid()
      ensures s == SStateOf(sender.State())
    {
      var next := sender.nextSeqno;
      var inFlight := sender.nextSeqno - sender.sendBase;
      var eof := sender.stream.eof && |sender.stream.buf| == 0;
      if next == 0 then Closed
      else if next == inFlight then SynSent
      else if (next > inFlight && !eof) || (eof && next < sender.stream.written + 2) then SynAcked
      else if eof && next == sender.stream.written + 2 then (if inFlight > 0 then FinSent else FinAcked)
      else Unknown
    }

    method CleanShutdown()
      requires Valid()
      modifies this`lingerAfterStreamsFinish, this`isActive
      ensures Valid() && State() == old(State()).CleanShutdown()
    {
      hide SStateOf, RStateOf, ZipPackets, TcpReceiver.State, TcpReceiver.Valid, TcpSender.State, TcpSender.Valid;
      var r := RState();
      var s := SState();
      if r == FinRecv && Rank(s) < Rank(FinSent) {
        lingerAfterStreamsFinish := false;
      }
      if r == FinRecv && s == FinAcked {
        if !lingerAfterStreamsFinish || timeSinceLastSegmentReceived >= 10 * rtTimeout {
          isActive := false;
        }
      }
    }

    /** The segment as it goes out, with what the receiver and a pending reset add to it. */
    function Stamped(plain: TcpSegment, ghost abs: nat): (seg: TcpSegment)
      reads this, receiver, receiver.reassembler, receiver.reassembler.output
      requires receiver.Valid()
      ensures seg == Stamp(Slot(plain, abs), receiver.State(), sendRst).seg
    {
      var w := receiver.WindowSize();
      var acked := if RState() == Listening then plain.header
                   else plain.header.(ack := true, ackno := receiver.Ackno().value,
                                      win := if w <= 0xffff then w else 0xffff);
      plain.(header := if sendRst then acked.(rst := true) else acked)
    }

    /** One turn of the loop of `push_segment_out`. */
    method SendOne()
      requires Valid() && |sender.segmentsOut| > 0
      modifies this`segmentsOut, this`sendRst, this`outAbs, this`outAck, sender`segmentsOut, sender`outAbs
      ensures Valid() && |sender.segmentsOut| == |old(sender.segmentsOut)| - 1
      ensures var c := old(State());
              State() == c.(sender := c.sender.(queue := c.sender.queue[1..]),
                            out := c.out + [Stamp(c.sender.queue[0], c.receiver, c.sendRst)], sendRst := false)
    {
      hide Stamp, ZipPackets, Receiver.AbsAck, TcpReceiver.State, TcpReceiver.Valid, TcpSender.State, TcpSender.Valid;
      var plain, abs := sender.TakeSegment();
      var seg := Stamped(plain, abs);
      ghost var p := Stamp(Slot(plain, abs), receiver.State(), sendRst);
      sendRst := false;
      ZipAppend(segmentsOut, outAbs, outAck, p);
      outAbs, outAck := outAbs + [p.abs], outAck + [p.ackAbs];
      segmentsOut := segmentsOut + [seg];
    }

    method PushSegmentOut(sendSyn: bool)
      requires Valid()
      modifies Footprint()
      ensures Valid() && State() == old(State()).PushSegmentOut(sendSyn)
    {
      hide SStateOf, RStateOf, Sender.FillWindow, Connection.CleanShutdown, Connection.Flush, ZipPackets, Stamp,
           TcpReceiver.State, TcpReceiver.Valid, TcpSender.State, TcpSender.Valid;
      var s := SState();
      var r := RState();
      if sendSyn || s != Closed || r != Listening {
        sender.FillWindow();
      }
      ghost var goal := State().Flush();
      while |sender.segmentsOut| > 0
        invariant Valid() && State().Flush() == goal
        decreases |sender.segmentsOut|
      {
        FlushStep(State());
        SendOne();
      }
      FlushEmpty(State());
      CleanShutdown();
    }

    /** Both streams fail and the endpoint goes inactive. */
    method Fail()
      requires Valid()
      modifies Footprint()
      ensures Valid()
      ensures var c := old(State());
              State() == c.(sender := c.sender.(stream := c.sender.stream.SetError()), receiver := c.receiver.SetError(),
                            active := false)
    {
      hide ZipPackets, Receiver.SetError, Receiver.Valid, Stream.SetError, TcpReceiver.State, TcpReceiver.Valid, TcpSender.State,
           TcpSender.Valid;
      sender.SetError();
      receiver.SetError();
      isActive := false;
    }

    method UncleanShutdown(rst: bool)
      requires Valid()
      modifies Footprint()
      ensures Valid() && State() == old(State()).UncleanShutdown(rst)
    {
      hide Connection.PushSegmentOut, ZipPackets, Sender.SendEmpty, Receiver.SetError, Receiver.Valid, Stream.SetError,
           TcpReceiver.State, TcpReceiver.Valid, TcpSender.State, TcpSender.Valid;
      Fail();
      if rst {
        MarkReset();
        PushSegmentOut(false);
      }
    }

    /** A reset is to go out, with an empty segment if there is no other. */
    method MarkReset()
      requires Valid()
      modifies Footprint()
      ensures Valid()
      ensures var c := old(State());
              State() == c.(sendRst := true, sender := if c.sender.queue == [] then c.sender.SendEmpty() else c.sender)
    {
      hide ZipPackets, Sender.SendEmpty, Receiver.Valid, TcpReceiver.State, TcpReceiver.Valid, TcpSender.State, TcpSender.Valid;
      sendRst := true;
      if |sender.segmentsOut| == 0 {
        sender.SendEmptySegment();
      }
    }

    method SegmentReceived(seg: TcpSegment)
      requires Valid()
      modifies Footprint()
      ensures Valid() && State() == old(State()).SegmentReceived(seg)
    {
      hide Connection.PushSegmentOut, Connection.UncleanShutdown, Receiver.SegmentReceived, Sender.AckReceived, SStateOf, RStateOf,
           ZipPackets, Sender.SendEmpty, TcpReceiver.State, TcpReceiver.Valid, TcpSender.State, TcpSender.Valid;
      if !isActive {
        return;
      }
      timeSinceLastSegmentReceived := 0;
      var s := SState();
      if seg.header.ack && s == Closed {
        return;
      }
      if seg.header.rst {
        UncleanShutdown(false);
        return;
      }
      receiver.SegmentReceived(seg);
      if seg.header.ack {
        sender.AckReceived(seg.header.ackno, seg.header.win);
      }
      Reply(seg);
    }

    /** The rest of `segment_received`, once both halves have taken the segment. */
    method Reply(seg: TcpSegment)
      requires Valid()
      modifies Footprint()
      ensures Valid() && State() == old(State()).Reply(seg)
    {
      hide Connection.PushSegmentOut, SStateOf, RStateOf, ZipPackets, Sender.SendEmpty, TcpReceiver.State, TcpReceiver.Valid,
           TcpSender.State, TcpSender.Valid;
      var r := RState();
      var s := SState();
      if seg.header.syn && r == Listening && s == Closed {
        Connect();
        return;
      }
      if seg.Length() > 0 && r != Listening && |sender.segmentsOut| == 0 {
        if seg.header.syn && !seg.header.ack && s == Closed {
        } else {
          sender.SendEmptySegment();
        }
      }
      PushSegmentOut(false);
    }

    method Connect()
      requires Valid()
      modifies Footprint()
      ensures Valid() && State() == old(State()).Connect()
    {
      hide Connection.PushSegmentOut;
      PushSegmentOut(true);
    }

    method Write(data: seq<Byte>) returns (bw: nat)
      requires Valid()
      modifies Footprint()
      ensures Valid() && State() == old(State()).Write(data)
      ensures bw == Min(|data|, old(sender.stream.cap - |sender.stream.buf|))
    {
      hide Connection.PushSegmentOut, ZipPackets, Zip;
      bw := sender.stream.Write(data);
      PushSegmentOut(false);
    }

    method EndInputStream()
      requires Valid()
      modifies Footprint()
      ensures Valid() && State() == old(State()).EndInputStream()
    {
      hide Connection.PushSegmentOut, ZipPackets, Zip;
      sender.stream.EndInput();
      PushSegmentOut(false);
    }

    method Tick(ms: nat)
      requires Valid()
      modifies Footprint()
      ensures Valid() && State() == old(State()).Tick(ms)
    {
      hide Connection.PushSegmentOut, Connection.UncleanShutdown, ZipPackets, Zip, Sender.Tick, TcpReceiver.State, TcpReceiver.Valid;
      if !isActive {
        return;
      }
      timeSinceLastSegmentReceived := timeSinceLastSegmentReceived + ms;
      sender.Tick(ms);
      if sender.consecutiveRetransmissions > MAX_RETX_ATTEMPTS {
        UncleanShutdown(true);
      }
      PushSegmentOut(false);
    }

    /** The destructor. */
    method Destroy()
      requires Valid()
      modifies Footprint()
      ensures Valid() && State() == old(State()).Destroy()
    {
      hide Connection.UncleanShutdown;
      if isActive {
        UncleanShutdown(true);
      }
    }

    /** The owner reads the inbound stream. */
    method ReadInbound(n: nat) returns (bytes: seq<Byte>)
      requires Valid()
      modifies receiver.reassembler.output
      ensures Valid() && State() == old(State()).ReadInbound(n)
      ensures bytes == old(State()).receiver.reasm.out.Chunk(n)
    {
      hide ZipPackets, Zip, TcpReceiver.State, TcpReceiver.Valid;
      bytes := receiver.ReadInbound(n);
    }
  }
}
