/** The network interface as an object that updates its tables in place (libsponge/network_interface.cc). */
module NetworkInterfaces {
  import opened Machine
  import opened Datagrams
  import opened Interfaces

  method EthernetEqual(a: Mac, b: Mac) returns (same: bool)
    ensures same == (a == b)
  {
    for i := 0 to 6
      invariant a[..i] == b[..i]
    {
      if a[i] != b[i] {
        return false;
      }
    }
    assert a[..6] == a && b[..6] == b;
    return true;
  }

  class NetworkInterface {
    const ethernetAddress: Mac
    const ipAddress: U32
    var framesOut: seq<Frame>
    var time: nat
    var cache: map<U32, Entry>
    var pendingIp: map<U32, nat>
    var pendingDgram: map<U32, seq<Datagram>>

    ghost function State(): Interface
      reads this
    {
      Interface(ethernetAddress, ipAddress, time, cache, pendingIp, pendingDgram, framesOut)
    }

    /** No time stamp lies in the future, so that the unsigned differences are the real ones. */
    ghost predicate Valid()
      reads this
    {
      && (forall hop <- cache :: cache[hop].stamp <= time)
      && (forall hop <- pendingIp :: pendingIp[hop] <= time)
    }

    constructor (mac: Mac, ip: U32)
      ensures Valid() && State() == NewInterface(mac, ip)
    {
      ethernetAddress, ipAddress, time := mac, ip, 0;
      framesOut, cache, pendingIp, pendingDgram := [], map[], map[], map[];
    }

    method Lookup(hop: U32) returns (mac: Mac)
      requires Valid()
      modifies this
      ensures Valid() && State() == old(State()).Forget(hop) && mac == old(State()).Known(hop)
    {
      if hop !in cache {
        return NO_MAC;
      }
      if time - cache[hop].stamp > MAPPING_TTL {
        cache := cache - {hop};
        return NO_MAC;
      }
      mac := cache[hop].mac;
    }

    method SendArp(hop: U32)
      requires Valid()
      modifies this`framesOut
      ensures Valid() && State() == old(State()).(framesOut := old(framesOut) + [old(State()).Question(hop)])
    {
      var message := ArpMessage(Request, ethernetAddress, ipAddress, NO_MAC, hop);
      framesOut := framesOut + [ArpFrame(BROADCAST, ethernetAddress, Some(message))];
    }

    /** `thrown` says whether the call ends in an exception. */
    method SendDatagram(d: Datagram, hop: U32) returns (thrown: bool)
      requires Valid()
      modifies this
      ensures Valid() && State() == old(State()).SendDatagram(d, hop) && thrown == old(State()).SendThrows(d, hop)
    {
      hide Datagram.Sendable, Datagram.Bytes;
      var mac := Lookup(hop);
      var unknown := EthernetEqual(mac, NO_MAC);
      if unknown {
        if hop !in pendingDgram {
          assert old(State()).Queue(hop) + [d] == [d];
          pendingDgram := pendingDgram[hop := [d]];
        } else {
          pendingDgram := pendingDgram[hop := pendingDgram[hop] + [d]];
        }
        if hop in pendingIp {
          if time - pendingIp[hop] > REQUEST_TTL {
            pendingIp := pendingIp[hop := time];
            SendArp(hop);
          }
        } else {
          pendingIp := pendingIp[hop := time];
          SendArp(hop);
        }
      } else {
        var bytes := SerializeDatagram(d);
        if bytes == None {
          return true;
        }
        framesOut := framesOut + [Ipv4Frame(mac, ethernetAddress, bytes.value)];
      }
      return false;
    }

    /** Frames what waits for `hop`, up to the first datagram that cannot be serialized. */
    method Flush(hop: U32, mac: Mac) returns (thrown: bool)
      requires Valid() && hop in pendingDgram
      modifies this
      ensures Valid()
      ensures var queue := old(pendingDgram[hop]);
              var n := Fine(queue);
              && thrown == (n < |queue|)
              && Fine(queue[..n]) == n
              && State() == old(State()).(
                   waiting := if thrown then old(pendingDgram)[hop := queue[n..]] else old(pendingDgram) - {hop},
                   framesOut := old(framesOut) + old(State()).Packets(queue[..n], mac))
    {
      hide Datagram.Sendable, Datagram.Bytes, Fine;
      ghost var queue, n := pendingDgram[hop], Fine(pendingDgram[hop]);
      FinePrefix(queue);
      ghost var frames := State().Packets(queue[..n], mac);
      ghost var i := 0;
      while pendingDgram[hop] != []
        invariant 0 <= i <= n && pendingDgram == old(pendingDgram)[hop := queue[i..]]
        invariant framesOut == old(framesOut) + frames[..i]
        invariant time == old(time) && cache == old(cache) && pendingIp == old(pendingIp)
        decreases |queue| - i
      {
        assert pendingDgram[hop][0] == queue[i];
        var bytes := SerializeDatagram(pendingDgram[hop][0]);
        if bytes == None {
          assert i == n;
          return true;
        }
        assert i < n && frames[..i + 1] == frames[..i] + [Ipv4Frame(mac, ethernetAddress, bytes.value)];
        framesOut := framesOut + [Ipv4Frame(mac, ethernetAddress, bytes.value)];
        pendingDgram := pendingDgram[hop := pendingDgram[hop][1..]];
        i := i + 1;
      }
      pendingDgram := pendingDgram - {hop};
      return false;
    }

    method RecvFrame(frame: Frame) returns (thrown: bool, r: Option<Datagram>)
      requires Valid()
      modifies this
      ensures Valid() && State() == old(State()).RecvFrame(frame)
      ensures thrown == old(State()).RecvThrows(frame) && r == old(State()).Delivered(frame)
    {
      hide DatagramOf, Datagram.Sendable, Datagram.Bytes, Interface.Packets, Fine;
      if frame.dst == ethernetAddress || frame.dst == BROADCAST {
        if frame.Ipv4Frame? {
          var parsed := ParseDatagram(frame.bytes);
          if parsed.Parsed? {
            return false, Some(parsed.value);
          }
        }
        if frame.ArpFrame? && frame.message.Some? {
          thrown := ProcessArp(frame.message.value);
          return thrown, None;
        }
      }
      return false, None;
    }

    method ProcessArp(m: ArpMessage) returns (thrown: bool)
      requires Valid()
      modifies this
      ensures Valid() && thrown == old(State()).LearnThrows(m)
      ensures var s := old(State()).Learn(m);
              State() == if s.AsksForUs(m) && !thrown then s.(framesOut := s.framesOut + [s.Answer(m)]) else s
    {
      hide Datagram.Sendable, Datagram.Bytes, Fine;
      var hop := m.senderIp;
      cache := cache[hop := Entry(m.senderMac, time)];
      if hop in pendingIp {
        pendingIp := pendingIp - {hop};
        if hop in pendingDgram {
          thrown := Flush(hop, m.senderMac);
          if thrown {
            return;
          }
        } else {
          assert pendingDgram - {hop} == pendingDgram;
          assert framesOut + [] == framesOut && [][..0] == old(State()).Queue(hop)[..0];
        }
      }
      if m.opcode == Request && m.targetIp == ipAddress {
        var reply := ArpMessage(Reply, ethernetAddress, ipAddress, m.senderMac, m.senderIp);
        framesOut := framesOut + [ArpFrame(m.senderMac, ethernetAddress, Some(reply))];
      }
      return false;
    }

    method Tick(ms: nat)
      requires Valid()
      modifies this`time
      ensures Valid() && State() == old(State()).Tick(ms)
    {
      time := time + ms;
    }

    /** The owner takes the first frame from the queue. */
    method TakeFrame() returns (frame: Frame)
      requires Valid() && framesOut != []
      modifies this`framesOut
      ensures Valid() && frame == old(framesOut)[0]
      ensures State() == old(State()).(framesOut := old(framesOut)[1..])
    {
      frame := framesOut[0];
      framesOut := framesOut[1..];
    }
  }
}
