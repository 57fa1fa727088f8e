/** The receiver object of libsponge/tcp_receiver.cc, proved to take the steps of `Receivers`. */
module TcpReceivers {
  import opened Machine
  import opened WrappingIntegers
  import opened Segments
  import opened ByteStreams
  import opened Reassembly
  import opened StreamReassemblers
  import opened Receivers

  class TcpReceiver {
    const reassembler: StreamReassembler
    const capacity: nat
    var isn: U32
    var syn: bool
    var fin: bool
    var recvBase: nat

    ghost predicate Valid()
      reads this, reassembler, reassembler.output
    {
      && reassembler.Valid() && reassembler.capacity == capacity
      && Receiver(reassembler.State(), isn, syn, fin, recvBase).Valid()
    }

    ghost function State(): (r: Receiver)
      reads this, reassembler, reassembler.output
      requires Valid()
      ensures r.Valid()
    {
      Receiver(reassembler.State(), isn, syn, fin, recvBase)
    }

    constructor (cap: nat)
      ensures Valid() && State() == NewReceiver(cap)
      ensures fresh(reassembler) && fresh(reassembler.output)
    {
      reassembler := new StreamReassembler(cap);
      capacity, isn, syn, fin, recvBase := cap, 0, false, false, 0;
    }

    function Ackno(): (a: Option<U32>)
      reads this, reassembler, reassembler.output
      requires Valid()
      ensures a == State().Ackno()
    {
      if !syn then None
      else
        var abs := reassembler.output.written + 1;
        if reassembler.output.eof then Some(Wrap(abs + 1, isn)) else Some(Wrap(abs, isn))
    }

    function WindowSize(): (w: nat)
      reads this, reassembler, reassembler.output
      requires Valid()
      ensures w == State().WindowSize()
    {
      capacity - |reassembler.output.buf|
    }

    method SegmentReceived(seg: TcpSegment)
      requires Valid()
      modifies this, reassembler, reassembler.output
      ensures Valid() && State() == old(State()).SegmentReceived(seg)
    {
      hide Reassembler.Push, Unwrap, Reassembler.Valid, Represents, Gapped, Above, Total;
      ReceivedValid(State(), seg);
      var seqno := seg.header.seqno;
      if seg.header.syn {
        if syn {
          return;
        }
        syn := true;
        isn := seg.header.seqno;
        recvBase := 1;
        seqno := (seqno + 1) % TWO32;
        if seg.Length() == 1 {
          return;
        }
      } else if !syn {
        return;
      }
      var checkpoint := reassembler.output.written;
      var abs := Unwrap(seqno, isn, checkpoint);
      var length := seg.Length();
      if seg.header.fin {
        if fin {
          return;
        }
        fin := true;
      } else {
        if length == 0 {
          return;
        }
        var w := capacity - |reassembler.output.buf|;
        if abs >= recvBase + w || abs + length <= recvBase {
          return;
        }
      }
      reassembler.PushSubstring(seg.payload, Sub64(abs, 1), seg.header.fin);
      recvBase := reassembler.output.written + 1;
      if reassembler.output.eof {
        recvBase := recvBase + 1;
      }
    }

    method SetError()
      requires Valid()
      modifies reassembler.output
      ensures Valid() && State() == old(State()).SetError()
    {
      hide Represents, Gapped, Above, Total;
      reassembler.output.SetError();
    }

    /** The owner reads from the inbound stream. */
    method ReadInbound(n: nat) returns (bytes: seq<Byte>)
      requires Valid()
      modifies reassembler.output
      ensures Valid() && State() == old(State()).Read(n)
      ensures bytes == old(State()).reasm.out.Chunk(n)
    {
      hide Represents, Gapped, Above, Total, Stream.Chunk;
      bytes := reassembler.output.Read(n);
    }
  }
}
