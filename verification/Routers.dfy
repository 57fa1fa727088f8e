/** The router as an object (libsponge/router.cc, router.hh). The interfaces are held by value, as in a vector. */
module Routers {
  import opened Machine
  import opened Datagrams
  import opened Interfaces
  import opened Routing

  /** An interface and the datagrams it has received for the router. */
  datatype Port = Port(nic: Interface, datagramsOut: seq<Datagram>)

  function Nics(ports: seq<Port>): (nics: seq<Interface>)
    ensures |nics| == |ports|
  {
    seq(|ports|, i requires 0 <= i < |ports| => ports[i].nic)
  }

  /** The datagrams of all queues, in the order in which they are routed. */
  function Arrivals(ports: seq<Port>): seq<Datagram> {
    if ports == [] then [] else Arrivals(ports[..|ports| - 1]) + ports[|ports| - 1].datagramsOut
  }

  lemma {:induction false} ArrivalsSplit(ports: seq<Port>, i: nat) returns (rest: seq<Datagram>)
    requires i < |ports|
    ensures Arrivals(ports) == Arrivals(ports[..i]) + ports[i].datagramsOut + rest
  {
    var n := |ports| - 1;
    if i == n {
      rest := [];
    } else {
      var r := ArrivalsSplit(ports[..n], i);
      assert ports[..n][..i] == ports[..i];
      rest := r + ports[n].datagramsOut;
    }
  }

  lemma ArrivalsNext(ports: seq<Port>, i: nat)
    requires i < |ports|
    ensures Arrivals(ports[..i + 1]) == Arrivals(ports[..i]) + ports[i].datagramsOut
  {
    assert ports[..i + 1][..i] == ports[..i];
  }

  lemma ArrivalsWhole(ports: seq<Port>)
    ensures Arrivals(ports[..|ports|]) == Arrivals(ports) && Arrivals(ports[..0]) == []
  {
    assert ports[..|ports|] == ports;
  }

  /** The test by shifting, in terms of single bits. */
  method PrefixMatches(ip: U32, prefix: U32, length: Byte) returns (b: bool)
    requires length <= 32
    ensures b <==> SameBits(ip, prefix, 32 - length, 32) && forall i :: 0 <= i < 32 - length ==> !Bit(prefix, i)
  {
    PrefixMatchIff(ip, prefix, length);
    var masked := if length == 0 then 0 else ip / Pow2(32 - length) * Pow2(32 - length);
    return masked == prefix;
  }

  class Router {
    var interfaces: seq<Port>
    var table: seq<Route>

    constructor ()
      ensures interfaces == [] && table == []
    {
      interfaces, table := [], [];
    }

    method AddInterface(nic: Interface) returns (n: nat)
      modifies this`interfaces
      ensures interfaces == old(interfaces) + [Port(nic, [])]
      ensures n < |interfaces| && interfaces[n] == Port(nic, [])
    {
      interfaces := interfaces + [Port(nic, [])];
      n := |interfaces| - 1;
    }

    method AddRoute(prefix: U32, length: Byte, nextHop: Option<U32>, interfaceNum: nat)
      modifies this`table
      ensures table == old(table) + [Route(prefix, length, nextHop, interfaceNum)]
    {
      table := table + [Route(prefix, length, nextHop, interfaceNum)];
    }

    /** An interface hands what it receives to its queue; `thrown` says whether this ends in an exception. */
    method RecvFrame(n: nat, frame: Frame) returns (thrown: bool)
      requires n < |interfaces|
      modifies this`interfaces
      ensures var port := old(interfaces)[n];
              && thrown == port.nic.RecvThrows(frame)
              && interfaces == old(interfaces)[n := Port(port.nic.RecvFrame(frame),
                   port.datagramsOut + if port.nic.Delivered(frame).Some? then [port.nic.Delivered(frame).value] else [])]
    {
      hide DatagramOf, Datagram.Sendable, Datagram.Bytes, Fine;
      var port := interfaces[n];
      thrown := port.nic.RecvThrows(frame);
      var delivered := port.nic.Delivered(frame);
      var queue := port.datagramsOut;
      assert queue + [] == queue;
      if delivered.Some? {
        queue := queue + [delivered.value];
      }
      interfaces := interfaces[n := Port(port.nic.RecvFrame(frame), queue)];
    }

    /** The loop over the routing table. */
    method FindRoute(dst: U32) returns (best: Option<Route>)
      requires Shiftable(table)
      ensures best == Best(table, dst)
    {
      hide PrefixMatch, SameBits, Bit;
      best := None;
      var i := 0;
      while i < |table|
        invariant 0 <= i <= |table| && best == Best(table[..i], dst)
      {
        assert table[..i + 1][..i] == table[..i] && table[i] in table;
        PrefixMatchIff(dst, table[i].prefix, table[i].length);
        var matches := PrefixMatches(dst, table[i].prefix, table[i].length);
        if matches {
          if best == None {
            best := Some(table[i]);
          } else if best.value.length < table[i].length {
            best := Some(table[i]);
          }
        }
        i := i + 1;
      }
      assert table[..i] == table;
    }

    /** `after` is the caller's datagram afterwards; its time to live is reduced before it is sent. */
    method RouteOneDatagram(d: Datagram) returns (thrown: bool, after: Datagram)
      requires Shiftable(table)
      modifies this`interfaces
      ensures thrown == Throws(old(Nics(interfaces)), table, d)
      ensures after == if Decide(table, d) == None then d else Aged(d)
      ensures Nics(interfaces) == RouteOne(old(Nics(interfaces)), table, d)
      ensures |interfaces| == |old(interfaces)|
      ensures forall n :: 0 <= n < |interfaces| ==> interfaces[n].datagramsOut == old(interfaces)[n].datagramsOut
    {
      hide Best, Interface.SendDatagram, Datagram.Sendable, Interface.Known;
      var best := FindRoute(d.header.dst);
      if best == None {
        return false, d;
      }
      if d.header.ttl <= 1 {
        return false, d;
      }
      after := d.(header := d.header.(ttl := d.header.ttl - 1));
      var n := best.value.interfaceNum;
      if n >= |interfaces| {
        return true, after;
      }
      var nic := interfaces[n].nic;
      if best.value.nextHop.Some? {
        thrown := nic.SendThrows(after, best.value.nextHop.value);
        interfaces := interfaces[n := interfaces[n].(nic := nic.SendDatagram(after, best.value.nextHop.value))];
      } else {
        thrown := nic.SendThrows(after, d.header.dst);
        interfaces := interfaces[n := interfaces[n].(nic := nic.SendDatagram(after, d.header.dst))];
      }
    }

    /** Routes the datagrams of all queues in order, until one ends in an exception: that one stays at the
        front of its queue `i`, `j` places from where the queue began, with its time to live reduced. All queues end up empty
        exactly when no datagram in them throws. */
    method RouteAll() returns (thrown: bool, ghost i: nat, ghost j: nat)
      requires Shiftable(table)
      modifies this`interfaces
      ensures |interfaces| == |old(interfaces)|
      ensures var (nics, ds) := (old(Nics(interfaces)), old(Arrivals(interfaces)));
              var n := Passing(nics, table, ds);
              && Nics(interfaces) == RouteMany(nics, table, ds[..n])
              && (thrown <==> n < |ds|)
              && (thrown <==> exists d <- ds :: Throws(nics, table, d))
              && (thrown ==> i < |interfaces| && n == |Arrivals(old(interfaces)[..i])| + j)
      ensures (forall n :: 0 <= n < |interfaces| ==> interfaces[n].datagramsOut == []) <==> !thrown
      ensures thrown ==> Stopped(old(interfaces), interfaces, i, j)
    {
      hide RouteMany, Throws, Aged, Arrivals, Passing, NoneThrows, Nics, Shiftable;
      ghost var ports, nics, all := interfaces, Nics(interfaces), Arrivals(interfaces);
      AllPassIff(nics, table, all);
      ArrivalsWhole(ports);
      NothingRouted(nics, table);
      i, j := 0, 0;
      var at := 0;
      while at < |interfaces|
        invariant 0 <= at <= |interfaces| == |ports|
        invariant forall n :: 0 <= n < at ==> interfaces[n].datagramsOut == []
        invariant forall n :: at <= n < |ports| ==> interfaces[n].datagramsOut == ports[n].datagramsOut
        invariant NoneThrows(nics, table, Arrivals(ports[..at]))
        invariant Nics(interfaces) == RouteMany(nics, table, Arrivals(ports[..at]))
      {
        ghost var done, queue := Arrivals(ports[..at]), ports[at].datagramsOut;
        ghost var rest := ArrivalsSplit(ports, at);
        var stopped;
        stopped, j := DrainQueue(at, nics, done);
        if stopped {
          i := at;
          PassingAt(nics, table, done, queue, rest, j);
          return true, i, j;
        }
        assert queue[..j] == queue;
        NoneThrowsJoin(nics, table, done, queue);
        ArrivalsNext(ports, at);
        at := at + 1;
      }
      NoneThrowsPasses(nics, table, all);
      assert all[..|all|] == all;
      return false, 0, 0;
    }

    /** Routes the datagrams of one queue, of which `j` are routed in the end; `done` has been routed before. */
    method DrainQueue(i: nat, ghost nics: seq<Interface>, ghost done: seq<Datagram>) returns (thrown: bool, ghost j: nat)
      requires i < |interfaces| == |nics| && Shiftable(table)
      requires Nics(interfaces) == RouteMany(nics, table, done)
      modifies this`interfaces
      ensures |interfaces| == |old(interfaces)|
      ensures var queue := old(interfaces)[i].datagramsOut;
              && j <= |queue| && NoneThrows(nics, table, queue[..j])
              && (thrown <==> j < |queue|) && (thrown ==> Throws(nics, table, queue[j]))
              && interfaces[i].datagramsOut == (if thrown then [Aged(queue[j])] + queue[j + 1..] else [])
              && Nics(interfaces) == RouteMany(nics, table, done + queue[..j])
      ensures forall n :: 0 <= n < |interfaces| && n != i ==> interfaces[n].datagramsOut == old(interfaces)[n].datagramsOut
    {
      hide RouteOne, Throws, Aged, Decide, Shiftable;
      ghost var queue := interfaces[i].datagramsOut;
      j := 0;
      assert done + queue[..0] == done;
      while interfaces[i].datagramsOut != []
        invariant |interfaces| == |nics| && 0 <= j <= |queue|
        invariant interfaces[i].datagramsOut == queue[j..]
        invariant forall n :: 0 <= n < |interfaces| && n != i ==>
                    interfaces[n].datagramsOut == old(interfaces)[n].datagramsOut
        invariant forall k :: 0 <= k < j ==> !Throws(nics, table, queue[k])
        invariant Nics(interfaces) == RouteMany(nics, table, done + queue[..j])
        decreases |queue| - j
      {
        var d := interfaces[i].datagramsOut[0];
        ghost var before := done + queue[..j];
        assert d == queue[j] && done + queue[..j + 1] == before + [d] && (before + [d])[..|before|] == before;
        ManyKeepThrows(nics, table, before, d);
        var after;
        thrown, after := RouteOneDatagram(d);
        ghost var routed := Nics(interfaces);
        if thrown {
          ThrowsSends(nics, table, d);
          ThrownUnchanged(RouteMany(nics, table, before), table, d);
          interfaces := interfaces[i := interfaces[i].(datagramsOut := [after] + interfaces[i].datagramsOut[1..])];
          assert Nics(interfaces) == routed;
          return;
        }
        interfaces := interfaces[i := interfaces[i].(datagramsOut := interfaces[i].datagramsOut[1..])];
        assert Nics(interfaces) == routed;
        j := j + 1;
      }
      assert queue[..j] == queue;
      thrown := false;
    }
  }

  lemma NothingRouted(nics: seq<Interface>, table: seq<Route>)
    ensures RouteMany(nics, table, []) == nics && NoneThrows(nics, table, [])
  {
  }

  lemma NoneThrowsPasses(nics: seq<Interface>, table: seq<Route>, ds: seq<Datagram>)
    requires NoneThrows(nics, table, ds)
    ensures Passing(nics, table, ds) == |ds|
  {
    hide Throws;
    PassingUnique(nics, table, ds, |ds|);
  }

  lemma ThrowsSends(nics: seq<Interface>, table: seq<Route>, d: Datagram)
    requires Throws(nics, table, d)
    ensures Decide(table, d).Some?
  {
    hide Decide;
  }

  /** A datagram that throws leaves the interfaces as they were. */
  lemma ThrownUnchanged(nics: seq<Interface>, table: seq<Route>, d: Datagram)
    requires Throws(nics, table, d)
    ensures RouteOne(nics, table, d) == nics
  {
    hide Decide, Datagram.Sendable;
  }

  /** The queues when routing stopped at place `j` of queue `i`: those before are empty, those behind untouched. */
  predicate Stopped(before: seq<Port>, after: seq<Port>, i: nat, j: nat) {
    && i < |before| == |after| && j < |before[i].datagramsOut|
    && (forall n :: 0 <= n < i ==> after[n].datagramsOut == [])
    && after[i].datagramsOut == [Aged(before[i].datagramsOut[j])] + before[i].datagramsOut[j + 1..]
    && (forall n :: i < n < |before| ==> after[n].datagramsOut == before[n].datagramsOut)
  }
}
