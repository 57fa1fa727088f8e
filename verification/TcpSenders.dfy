/** The sender object of libsponge/tcp_sender.cc and its timer, proved to take the steps of
    `Senders`. The absolute numbers of the queued segments are ghost: the code cannot read them. */
module TcpSenders {
  import opened Machine
  import opened WrappingIntegers
  import opened Segments
  import opened ByteStreams
  import opened Senders

  class RetransmissionTimer {
    var running: bool
    var totalTime: nat
    var rtTimeout: nat

    function State(): Timer
      reads this
    {
      Timer(running, totalTime, rtTimeout)
    }

    constructor (rt: nat)
      ensures State() == Timer(false, 0, rt)
    {
      running, totalTime, rtTimeout := false, 0, rt;
    }

    method Start()
      modifies this
      ensures State() == Timer(true, 0, old(rtTimeout))
    {
      running, totalTime := true, 0;
    }

    method StartWith(initialRto: nat)
      modifies this
      ensures State() == Timer(true, 0, initialRto)
    {
      running, totalTime, rtTimeout := true, 0, initialRto;
    }

    method IsTimeout() returns (b: bool)
      ensures b <==> totalTime >= rtTimeout
    {
      b := totalTime >= rtTimeout;
    }

    method DoubleRto()
      modifies this
      ensures State() == old(State()).(rto := old(rtTimeout) * 2)
    {
      rtTimeout := rtTimeout * 2;
    }

    method Clear()
      modifies this
      ensures State() == Timer(false, 0, 0)
    {
      running, totalTime, rtTimeout := false, 0, 0;
    }
  }

  ghost function Zip(segs: seq<TcpSegment>, abs: seq<nat>): seq<Slot>
    requires |segs| == |abs|
  {
    seq(|segs|, i requires 0 <= i < |segs| => Slot(segs[i], abs[i]))
  }

  lemma LoopStep(s: Sender, rem: nat)
    requires s.stream.Valid() && 0 < rem && 0 < s.stream.Buffered()
    ensures var t := s.SendData(rem);
            && t.stream.Valid() && s.next <= t.next <= s.next + rem
            && s.FillLoop(rem) == t.FillLoop(rem - (t.next - s.next))
  {
  }

  lemma LoopStops(s: Sender, rem: nat)
    requires s.stream.Valid() && (rem == 0 || s.stream.Buffered() == 0)
    ensures s.FillLoop(rem) == s
  {
  }

  /** Sending a segment uses up as many numbers as it is long. */
  lemma SegmentCounts(s: Sender, seg: TcpSegment)
    ensures s.SendSegment(seg).next == s.next + seg.Length()
  {
  }

  class TcpSender {
    const isn: U32
    var segmentsOut: seq<TcpSegment>
    const initialRetransmissionTimeout: nat
    const stream: ByteStream
    var nextSeqno: nat
    const timer: RetransmissionTimer
    var sendBase: nat
    var windowSize: nat
    var windowSizeZero: bool
    var synFlag: bool
    var finFlag: bool
    var copySegmentsOut: seq<TcpSegment>
    var consecutiveRetransmissions: nat
    ghost var outAbs: seq<nat>
    ghost var copyAbs: seq<nat>

    ghost predicate Valid()
      reads this, stream, timer
    {
      && stream.Valid()
      && |segmentsOut| == |outAbs| && |copySegmentsOut| == |copyAbs|
      && sendBase <= nextSeqno
    }

    ghost function State(): (s: Sender)
      reads this, stream, timer
      requires Valid()
      ensures s.stream.Valid() && |s.queue| == |segmentsOut|
    {
      Sender(isn, initialRetransmissionTimeout, stream.State(), nextSeqno, sendBase, windowSize, windowSizeZero,
             synFlag, finFlag, Zip(segmentsOut, outAbs), Zip(copySegmentsOut, copyAbs), timer.State(),
             consecutiveRetransmissions)
    }

    constructor (capacity: nat, retxTimeout: nat, fixedIsn: U32)
      ensures Valid() && State() == NewSender(capacity, retxTimeout, fixedIsn)
      ensures fresh(stream) && fresh(timer)
    {
      isn, initialRetransmissionTimeout := fixedIsn, retxTimeout;
      stream := new ByteStream(capacity);
      timer := new RetransmissionTimer(retxTimeout);
      segmentsOut, copySegmentsOut, outAbs, copyAbs := [], [], [], [];
      nextSeqno, sendBase, windowSize, windowSizeZero := 0, 0, 1, false;
      synFlag, finFlag, consecutiveRetransmissions := false, false, 0;
    }

    method SendSegment(seg0: TcpSegment)
      requires Valid()
      modifies this`segmentsOut, this`copySegmentsOut, this`outAbs, this`copyAbs, this`nextSeqno, timer
      ensures Valid() && State() == old(State()).SendSegment(seg0)
    {
      var seg := seg0.(header := seg0.header.(seqno := Wrap(nextSeqno, isn)));
      outAbs, copyAbs := outAbs + [nextSeqno], copyAbs + [nextSeqno];
      nextSeqno := nextSeqno + seg.Length();
      segmentsOut := segmentsOut + [seg];
      copySegmentsOut := copySegmentsOut + [seg];
      if !timer.running {
        timer.StartWith(initialRetransmissionTimeout);
      }
    }

    method SendEmptySegment()
      requires Valid()
      modifies this`segmentsOut, this`outAbs
      ensures Valid() && State() == old(State()).SendEmpty()
    {
      var seg := EMPTY_SEGMENT.(header := DEFAULT_HEADER.(seqno := Wrap(nextSeqno, isn)));
      outAbs := outAbs + [nextSeqno];
      segmentsOut := segmentsOut + [seg];
    }

    method SetError()
      requires Valid()
      modifies stream
      ensures Valid() && State() == old(State()).(stream := old(State()).stream.SetError())
    {
      stream.SetError();
    }

    /** The owner takes the oldest outgoing segment. */
    method TakeSegment() returns (seg: TcpSegment, ghost abs: nat)
      requires Valid() && |segmentsOut| > 0
      modifies this`segmentsOut, this`outAbs
      ensures Valid() && State() == old(State()).(queue := old(State()).queue[1..])
      ensures Slot(seg, abs) == old(State()).queue[0]
    {
      seg, abs := segmentsOut[0], outAbs[0];
      assert Zip(segmentsOut, outAbs)[1..] == Zip(segmentsOut[1..], outAbs[1..]);
      segmentsOut, outAbs := segmentsOut[1..], outAbs[1..];
    }

    method FillWindow()
      requires Valid()
      modifies this, stream, timer
      ensures Valid() && State() == old(State()).FillWindow()
    {
      if windowSize == 0 || finFlag || (synFlag && |stream.buf| == 0 && !stream.eof) {
        return;
      }
      if !synFlag {
        SendSegment(EMPTY_SEGMENT.(header := DEFAULT_HEADER.(syn := true)));
        synFlag := true;
        return;
      }
      if stream.eof && |stream.buf| == 0 {
        if Sub64(windowSize, nextSeqno - sendBase) <= 0 {
          return;
        }
        SendSegment(EMPTY_SEGMENT.(header := DEFAULT_HEADER.(fin := true)));
        finFlag := true;
        return;
      }
      FillWithData();
    }

    /** The loop at the end of `fill_window`. */
    method FillWithData()
      requires Valid()
      modifies this, stream, timer
      ensures Valid() && State() == old(State()).FillLoop(old(State()).Space())
    {
      ghost var goal := State().FillLoop(State().Space());
      hide Sender.FillLoop, Sender.SendData, Zip;
      var rem: nat := Sub64(windowSize, nextSeqno - sendBase);
      while rem > 0 && |stream.buf| > 0
        invariant Valid() && State().FillLoop(rem) == goal
        decreases |stream.buf|
      {
        LoopStep(State(), rem);
        var length := SendChunk(rem);
        rem := rem - length;
      }
      LoopStops(State(), rem);
    }

    /** The body of that loop; `length` is the sequence space it used. */
    method SendChunk(rem: nat) returns (length: nat)
      requires Valid() && 0 < rem && 0 < |stream.buf|
      modifies this, stream, timer
      ensures Valid() && State() == old(State()).SendData(rem)
      ensures nextSeqno == old(nextSeqno) + length && |stream.buf| < |old(stream.buf)|
    {
      hide Zip, Sender.SendSegment;
      var str := stream.Read(if rem <= MAX_PAYLOAD_SIZE then rem else MAX_PAYLOAD_SIZE);
      var seg := TcpSegment(DEFAULT_HEADER, str);
      if stream.eof && |stream.buf| == 0 && seg.Length() + 1 <= rem {
        seg := seg.(header := seg.header.(fin := true));
        finFlag := true;
      }
      length := seg.Length();
      SegmentCounts(State(), seg);
      SendSegment(seg);
    }

    method AckReceived(ackno: U32, window: U16)
      requires Valid()
      modifies this, stream, timer
      ensures Valid() && State() == old(State()).AckReceived(ackno, window)
    {
      hide Sender.FillWindow, PopAcked, Zip, Unwrap, Sender.RestartTimer;
      var abs := Unwrap(ackno, isn, sendBase);
      if abs > nextSeqno {
        return;
      }
      if window == 0 {
        windowSize, windowSizeZero := 1, true;
      } else {
        windowSize, windowSizeZero := window, false;
      }
      if abs <= sendBase {
        return;
      }
      sendBase := abs;
      PopAcknowledged(abs);
      RefillAndRestart();
    }

    /** The end of `ack_received`. */
    method RefillAndRestart()
      requires Valid()
      modifies this, stream, timer
      ensures Valid() && State() == old(State()).FillWindow().RestartTimer()
    {
      hide Sender.FillWindow;
      FillWindow();
      consecutiveRetransmissions := 0;
      if |copySegmentsOut| > 0 {
        timer.StartWith(initialRetransmissionTimeout);
      } else {
        timer.Clear();
      }
    }

    /** The loop of `ack_received`. */
    method PopAcknowledged(abs: nat)
      requires Valid()
      modifies this`copySegmentsOut, this`copyAbs
      ensures Valid()
      ensures State() == old(State()).(copies := PopAcked(old(State()).copies, isn, nextSeqno, abs))
    {
      ghost var goal := PopAcked(State().copies, isn, nextSeqno, abs);
      while |copySegmentsOut| > 0
        invariant Valid() && PopAcked(State().copies, isn, nextSeqno, abs) == goal
        decreases |copySegmentsOut|
      {
        var seg := copySegmentsOut[0];
        assert State().copies[0].seg == seg;
        if Unwrap(seg.header.seqno, isn, nextSeqno) + seg.Length() <= abs {
          assert State().copies[1..] == Zip(copySegmentsOut[1..], copyAbs[1..]);
          copySegmentsOut, copyAbs := copySegmentsOut[1..], copyAbs[1..];
        } else {
          break;
        }
      }
    }

    method Tick(ms: nat)
      requires Valid()
      modifies this, timer
      ensures Valid() && State() == old(State()).Tick(ms)
    {
      timer.totalTime := timer.totalTime + ms;
      var timeout := timer.IsTimeout();
      if |copySegmentsOut| > 0 && timer.running && timeout {
        segmentsOut, outAbs := segmentsOut + [copySegmentsOut[0]], outAbs + [copyAbs[0]];
        if !windowSizeZero {
          consecutiveRetransmissions := consecutiveRetransmissions + 1;
          timer.DoubleRto();
        }
        timer.Start();
      }
    }
  }
}
