/** Longest-prefix-match forwarding (libsponge/router.cc, section 5.2.4.3 of RFC 1812). */
module Routing {
  import opened Machine
  import opened Datagrams
  import opened Interfaces

  // ---- Prefixes ----

  /** Shifting right and left again by the number of host bits; shifts of more than 32 are not defined. */
  predicate PrefixMatch(ip: U32, prefix: U32, length: Byte)
    requires length <= 32
  {
    var masked := if length == 0 then 0 else ip / Pow2(32 - length) * Pow2(32 - length);
    masked == prefix
  }

  /** Bit `i` of an address, counted from the low end. */
  predicate Bit(x: U32, i: nat) {
    x / Pow2(i) % 2 == 1
  }

  predicate SameBits(x: U32, y: U32, lo: nat, hi: nat) {
    forall i :: lo <= i < hi ==> Bit(x, i) == Bit(y, i)
  }

  lemma Halve(x: nat, k: nat)
    ensures x / Pow2(k) == 2 * (x / Pow2(k + 1)) + x / Pow2(k) % 2
    ensures x % Pow2(k + 1) == Pow2(k) * (x / Pow2(k) % 2) + x % Pow2(k)
  {
    var p := Pow2(k);
    var q := x / p;
    Product(x, p, q / 2, q % 2);
  }

  lemma Product(x: nat, p: nat, h: nat, b: nat)
    requires p > 0 && x / p == 2 * h + b && b < 2
    ensures x / (2 * p) == h && x % (2 * p) == p * b + x % p
  {
    var r := x % p;
    assert x == p * (2 * h + b) + r;
    assert p * (2 * h + b) == h * (2 * p) + p * b;
    assert p * b <= p;
    DivModUnique(x, 2 * p, h, p * b + r);
  }

  lemma WordFits()
    ensures Pow2(32) == TWO32
  {
    assert Pow2(8) == 256;
    assert Pow2(16) == 256 * Pow2(8) == 0x1_0000;
    assert Pow2(24) == 256 * Pow2(16) == 0x100_0000;
  }

  lemma {:induction false} HighBits(x: U32, y: U32, k: nat)
    requires k <= 32
    ensures x / Pow2(k) == y / Pow2(k) <==> SameBits(x, y, k, 32)
    decreases 32 - k
  {
    if k == 32 {
      WordFits();
    } else {
      HighBits(x, y, k + 1);
      hide Pow2;
      Halve(x, k);
      Halve(y, k);
      if SameBits(x, y, k + 1, 32) && Bit(x, k) == Bit(y, k) {
        assert SameBits(x, y, k, 32);
      }
    }
  }

  lemma {:induction false} LowBits(x: U32, k: nat)
    ensures x % Pow2(k) == 0 <==> forall i :: 0 <= i < k ==> !Bit(x, i)
  {
    if k > 0 {
      LowBits(x, k - 1);
      hide Pow2;
      Halve(x, k - 1);
      assert Bit(x, k - 1) ==> Pow2(k - 1) * 1 > 0;
    }
  }

  /** A route matches exactly when the high bits of its prefix are those of the address and its host
      bits are zero; one with a host bit set therefore never matches. */
  lemma PrefixMatchIff(ip: U32, prefix: U32, length: Byte)
    requires length <= 32
    ensures PrefixMatch(ip, prefix, length) <==>
            SameBits(ip, prefix, 32 - length, 32) && forall i :: 0 <= i < 32 - length ==> !Bit(prefix, i)
  {
    hide Pow2, Bit, SameBits;
    HighBits(ip, prefix, 32 - length);
    LowBits(prefix, 32 - length);
    WordFits();
    Masked(ip, prefix, Pow2(32 - length));
    if length == 0 {
      assert ip / Pow2(32) == 0;
    }
  }

  lemma Masked(ip: nat, prefix: nat, p: nat)
    requires p > 0
    ensures ip / p * p == prefix <==> ip / p == prefix / p && prefix % p == 0
  {
    assert prefix == prefix / p * p + prefix % p;
    if ip / p * p == prefix {
      DivModUnique(prefix, p, ip / p, 0);
    }
  }

  // ---- The table ----

  datatype Route = Route(prefix: U32, length: Byte, nextHop: Option<U32>, interfaceNum: nat)

  /** No prefix is longer than an address; beyond that the shift is not defined. */
  predicate Shiftable(table: seq<Route>) {
    forall r <- table :: r.length <= 32
  }

  predicate Matches(r: Route, dst: U32) {
    r.length <= 32 && PrefixMatch(dst, r.prefix, r.length)
  }

  /** The route found by going through the table and keeping a strictly longer match. */
  function Best(table: seq<Route>, dst: U32): Option<Route> {
    if table == [] then None else
      var n := |table| - 1;
      var best := Best(table[..n], dst);
      if Matches(table[n], dst) && (best.None? || best.value.length < table[n].length) then Some(table[n]) else best
  }

  /** The first of the matching routes of greatest length. */
  predicate Chosen(table: seq<Route>, dst: U32, i: nat)
    requires i < |table|
  {
    && Matches(table[i], dst)
    && (forall j :: 0 <= j < |table| && Matches(table[j], dst) ==> table[j].length <= table[i].length)
    && (forall j :: 0 <= j < i && Matches(table[j], dst) ==> table[j].length < table[i].length)
  }

  lemma {:induction false} BestIsLongest(table: seq<Route>, dst: U32)
    ensures Best(table, dst) == None <==> forall r <- table :: !Matches(r, dst)
    ensures Best(table, dst).Some? ==>
              exists i :: 0 <= i < |table| && Chosen(table, dst, i) && table[i] == Best(table, dst).value
  {
    hide Matches;
    if table != [] {
      var n := |table| - 1;
      var front := table[..n];
      BestIsLongest(front, dst);
      assert table == front + [table[n]];
      if Best(table, dst) == None {
      } else if Best(table, dst) == Best(front, dst) {
        var i :| 0 <= i < n && Chosen(front, dst, i) && front[i] == Best(front, dst).value;
        assert Chosen(table, dst, i);
      } else {
        assert forall j :: 0 <= j < n && Matches(table[j], dst) ==> front[j].length < table[n].length;
        assert Chosen(table, dst, n);
      }
    }
  }

  /** No two different routes for the same prefix. */
  predicate Distinct(table: seq<Route>) {
    forall r <- table, q <- table :: r.prefix == q.prefix && r.length == q.length ==> r == q
  }

  /** The order of a table without two routes for the same prefix does not matter. */
  lemma OrderIndependent(table: seq<Route>, other: seq<Route>, dst: U32)
    requires Distinct(table) && forall r :: r in table <==> r in other
    ensures Best(table, dst) == Best(other, dst)
  {
    hide Best, PrefixMatch;
    BestIsLongest(table, dst);
    BestIsLongest(other, dst);
    if Best(table, dst).Some? && Best(other, dst).Some? {
      var r, q := Best(table, dst).value, Best(other, dst).value;
      assert r in other && q in table;
      SamePrefix(r, q, dst);
    }
  }

  /** Matching routes of the same length have the same prefix. */
  lemma SamePrefix(r: Route, q: Route, dst: U32)
    requires Matches(r, dst) && Matches(q, dst) && r.length == q.length
    ensures r.prefix == q.prefix
  {
  }

  /** Among the matching routes none is longer. */
  predicate Longest(table: seq<Route>, dst: U32, r: Route) {
    r in table && Matches(r, dst) && forall q <- table :: Matches(q, dst) ==> q.length <= r.length
  }

  /** The same entries in any order. */
  ghost predicate Reordered(table: seq<Route>, other: seq<Route>) {
    multiset(table) == multiset(other)
  }

  lemma ReorderedHas(table: seq<Route>, other: seq<Route>, r: Route)
    requires Reordered(table, other)
    ensures r in table <==> r in other
  {
    assert r in table <==> r in multiset(table);
    assert r in other <==> r in multiset(other);
  }

  lemma BestIsOneOfTheLongest(table: seq<Route>, dst: U32)
    ensures Best(table, dst).Some? <==> exists r :: Longest(table, dst, r)
    ensures Best(table, dst).Some? ==> Longest(table, dst, Best(table, dst).value)
  {
    hide Matches, Best;
    BestIsLongest(table, dst);
  }

  /** A route moved to the front is chosen before all others of its length. */
  lemma FrontWins(table: seq<Route>, dst: U32, i: nat)
    requires i < |table| && Longest(table, dst, table[i])
    ensures var other := [table[i]] + table[..i] + table[i + 1..];
            Reordered(table, other) && Best(other, dst) == Some(table[i])
  {
    hide Matches, Best;
    var other := [table[i]] + table[..i] + table[i + 1..];
    assert table == table[..i] + [table[i]] + table[i + 1..];
    assert Reordered(table, other);
    forall q <- other ensures q in table {
      ReorderedHas(table, other, q);
    }
    BestIsLongest(other, dst);
    assert other[0] == table[i];
  }

  /** The choice is the same in every order of the table exactly when all longest matching routes are equal. */
  lemma OrderMattersIff(table: seq<Route>, dst: U32)
    ensures (forall other :: Reordered(table, other) ==> Best(other, dst) == Best(table, dst)) <==>
            (forall r, q :: Longest(table, dst, r) && Longest(table, dst, q) ==> r == q)
  {
    hide Matches, Best, Reordered;
    if forall other :: Reordered(table, other) ==> Best(other, dst) == Best(table, dst) {
      forall r, q | Longest(table, dst, r) && Longest(table, dst, q) ensures r == q {
        var i :| 0 <= i < |table| && table[i] == r;
        var j :| 0 <= j < |table| && table[j] == q;
        FrontWins(table, dst, i);
        FrontWins(table, dst, j);
      }
    }
    if forall r, q :: Longest(table, dst, r) && Longest(table, dst, q) ==> r == q {
      forall other | Reordered(table, other) ensures Best(other, dst) == Best(table, dst) {
        forall r ensures Longest(other, dst, r) <==> Longest(table, dst, r) {
          SameLongest(table, other, dst, r);
        }
        BestIsOneOfTheLongest(table, dst);
        BestIsOneOfTheLongest(other, dst);
      }
    }
  }

  lemma SameLongest(table: seq<Route>, other: seq<Route>, dst: U32, r: Route)
    requires Reordered(table, other)
    ensures Longest(other, dst, r) <==> Longest(table, dst, r)
  {
    hide Matches, Reordered;
    forall q ensures q in table <==> q in other {
      ReorderedHas(table, other, q);
    }
  }

  // ---- Forwarding ----

  /** Where a datagram goes and what leaves. */
  datatype Forward = Forward(interfaceNum: nat, hop: U32, d: Datagram)

  function Aged(d: Datagram): Datagram {
    d.(header := d.header.(ttl := if d.header.ttl > 0 then d.header.ttl - 1 else 0))
  }

  function Decide(table: seq<Route>, d: Datagram): Option<Forward> {
    var best := Best(table, d.header.dst);
    if best == None || d.header.ttl <= 1 then None
    else
      var r := best.value;
      Some(Forward(r.interfaceNum, if r.nextHop.Some? then r.nextHop.value else d.header.dst, Aged(d)))
  }

  /** What leaves is the datagram, one hop older, on its way along the route. */
  predicate Along(r: Route, d: Datagram, f: Forward) {
    && f.interfaceNum == r.interfaceNum
    && f.hop == (if r.nextHop == None then d.header.dst else r.nextHop.value)
    && f.d.payload == d.payload
    && d.header.ttl > 1 && f.d.header == d.header.(ttl := d.header.ttl - 1)
  }

  /** A datagram is dropped exactly when no route matches or its time to live is used up; otherwise it
      leaves through the route of greatest length with one hop less to live. */
  lemma DecideMeaning(table: seq<Route>, d: Datagram)
    ensures Decide(table, d) == None <==> d.header.ttl <= 1 || forall r <- table :: !Matches(r, d.header.dst)
    ensures Decide(table, d).Some? ==>
              exists i :: 0 <= i < |table| && Chosen(table, d.header.dst, i) && Along(table[i], d, Decide(table, d).value)
  {
    hide Best, Matches, Chosen;
    BestIsLongest(table, d.header.dst);
  }

  /** Every route leads to an interface. */
  predicate Connected(table: seq<Route>, count: nat) {
    forall r <- table :: r.interfaceNum < count
  }

  lemma DecideConnected(table: seq<Route>, d: Datagram, count: nat)
    requires Connected(table, count) && Decide(table, d).Some?
    ensures Decide(table, d).value.interfaceNum < count
  {
    hide Matches, Chosen;
    DecideMeaning(table, d);
  }

  /** Whether routing a datagram ends in an exception: its route leads to an interface that is not there, or
      to a known neighbour although the datagram cannot be serialized. */
  predicate Throws(nics: seq<Interface>, table: seq<Route>, d: Datagram) {
    var f := Decide(table, d);
    f.Some? && (f.value.interfaceNum >= |nics| || nics[f.value.interfaceNum].SendThrows(f.value.d, f.value.hop))
  }

  function RouteOne(nics: seq<Interface>, table: seq<Route>, d: Datagram): (after: seq<Interface>)
    ensures |after| == |nics|
  {
    match Decide(table, d)
    case None => nics
    case Some(f) =>
      if f.interfaceNum < |nics| then nics[f.interfaceNum := nics[f.interfaceNum].SendDatagram(f.d, f.hop)] else nics
  }

  function RouteMany(nics: seq<Interface>, table: seq<Route>, ds: seq<Datagram>): (after: seq<Interface>)
    ensures |after| == |nics|
  {
    if ds == [] then nics else
      var n := |ds| - 1;
      RouteOne(RouteMany(nics, table, ds[..n]), table, ds[n])
  }

  /** How many datagrams are routed before one ends in an exception. */
  function Passing(nics: seq<Interface>, table: seq<Route>, ds: seq<Datagram>): (n: nat)
    ensures n <= |ds|
    ensures forall i :: 0 <= i < n ==> !Throws(nics, table, ds[i])
    ensures n < |ds| ==> Throws(nics, table, ds[n])
  {
    if ds == [] || Throws(nics, table, ds[0]) then 0 else 1 + Passing(nics, table, ds[1..])
  }

  lemma PassingUnique(nics: seq<Interface>, table: seq<Route>, ds: seq<Datagram>, n: nat)
    requires n <= |ds| && (forall i :: 0 <= i < n ==> !Throws(nics, table, ds[i]))
    requires n < |ds| ==> Throws(nics, table, ds[n])
    ensures Passing(nics, table, ds) == n
  {
    hide Throws;
    var m := Passing(nics, table, ds);
    assert !(m < n) && !(n < m);
  }

  predicate NoneThrows(nics: seq<Interface>, table: seq<Route>, ds: seq<Datagram>) {
    forall i :: 0 <= i < |ds| ==> !Throws(nics, table, ds[i])
  }

  /** Where routing stops in a longer list. */
  lemma PassingAt(nics: seq<Interface>, table: seq<Route>, done: seq<Datagram>, queue: seq<Datagram>, rest: seq<Datagram>, j: nat)
    requires NoneThrows(nics, table, done) && j < |queue| && NoneThrows(nics, table, queue[..j])
    requires Throws(nics, table, queue[j])
    ensures var all := done + queue + rest;
            Passing(nics, table, all) == |done| + j && all[..|done| + j] == done + queue[..j]
  {
    hide Throws;
    var all := done + queue + rest;
    forall i | 0 <= i < |done| + j ensures !Throws(nics, table, all[i]) {
      assert i < |done| || all[i] == queue[..j][i - |done|];
    }
    assert all[|done| + j] == queue[j];
    PassingUnique(nics, table, all, |done| + j);
  }

  lemma NoneThrowsJoin(nics: seq<Interface>, table: seq<Route>, a: seq<Datagram>, b: seq<Datagram>)
    requires NoneThrows(nics, table, a) && NoneThrows(nics, table, b)
    ensures NoneThrows(nics, table, a + b)
  {
    hide Throws;
  }

  /** All are routed exactly when none of them throws; whether one does can be seen before routing starts,
      because sending changes nothing about which neighbours are known. */
  lemma AllPassIff(nics: seq<Interface>, table: seq<Route>, ds: seq<Datagram>)
    ensures Passing(nics, table, ds) == |ds| <==> forall d <- ds :: !Throws(nics, table, d)
  {
    hide Throws;
    assert forall i :: 0 <= i < |ds| ==> ds[i] in ds;
  }

  /** The datagram of version 5 that parses stops a router with a default route to a known neighbour. */
  lemma UnserializableStopsRouting(nic: Interface, hop: U32) returns (b: seq<Byte>)
    requires nic.Known(hop) != NO_MAC
    ensures DatagramOf(b).Parsed? && Throws([nic], [Route(0, 0, Some(hop), 0)], DatagramOf(b).value)
  {
    b := UnserializableArrives();
    hide DatagramOf, Interface.Known;
    var d, table := DatagramOf(b).value, [Route(0, 0, Some(hop), 0)];
    assert table[..0] == [] && Best([], d.header.dst) == None;
    assert Best(table, d.header.dst) == Some(table[0]);
    ParsedSendableIff(b);
  }

  lemma SendingKeepsKnown(s: Interface, d: Datagram, hop: U32, other: U32)
    ensures s.SendDatagram(d, hop).Known(other) == s.Known(other)
  {
    hide Datagram.Sendable, Datagram.Bytes, Interface.Question;
  }

  lemma RoutingKeepsThrows(nics: seq<Interface>, table: seq<Route>, e: Datagram, d: Datagram)
    ensures Throws(RouteOne(nics, table, e), table, d) <==> Throws(nics, table, d)
  {
    hide Decide, Interface.SendDatagram, Datagram.Sendable, Interface.Known;
    var f, g := Decide(table, e), Decide(table, d);
    if f.Some? && g.Some? && f.value.interfaceNum < |nics| {
      SendingKeepsKnown(nics[f.value.interfaceNum], f.value.d, f.value.hop, g.value.hop);
    }
  }

  lemma {:induction false} ManyKeepThrows(nics: seq<Interface>, table: seq<Route>, es: seq<Datagram>, d: Datagram)
    ensures Throws(RouteMany(nics, table, es), table, d) <==> Throws(nics, table, d)
  {
    hide Throws, RouteOne;
    if es != [] {
      var n := |es| - 1;
      ManyKeepThrows(nics, table, es[..n], d);
      RoutingKeepsThrows(RouteMany(nics, table, es[..n]), table, es[n], d);
    }
  }

  /** What interface `n` is given to send, in order. */
  function Given(table: seq<Route>, ds: seq<Datagram>, n: nat): seq<Forward> {
    if ds == [] then [] else
      var f := Decide(table, ds[|ds| - 1]);
      Given(table, ds[..|ds| - 1], n) + if f.Some? && f.value.interfaceNum == n then [f.value] else []
  }

  function Dropped(table: seq<Route>, ds: seq<Datagram>): seq<Datagram> {
    if ds == [] then [] else
      var d := ds[|ds| - 1];
      Dropped(table, ds[..|ds| - 1]) + if Decide(table, d) == None then [d] else []
  }

  function SendAll(nic: Interface, fs: seq<Forward>): Interface {
    if fs == [] then nic else
      var n := |fs| - 1;
      SendAll(nic, fs[..n]).SendDatagram(fs[n].d, fs[n].hop)
  }

  /** Each interface ends up as if it had been given, one after the other, exactly the datagrams whose
      route leads to it. */
  lemma {:induction false} RoutedTo(nics: seq<Interface>, table: seq<Route>, ds: seq<Datagram>, n: nat)
    requires n < |nics|
    ensures RouteMany(nics, table, ds)[n] == SendAll(nics[n], Given(table, ds, n))
  {
    hide Decide, Interface.SendDatagram, RouteOne, SendAll;
    if ds == [] {
      SendNone(nics[n]);
    } else {
      var k := |ds| - 1;
      RoutedTo(nics, table, ds[..k], n);
      var before, f := Given(table, ds[..k], n), Decide(table, ds[k]);
      RouteOneAt(RouteMany(nics, table, ds[..k]), table, ds[k], n);
      if f.Some? && f.value.interfaceNum == n {
        assert Given(table, ds, n) == before + [f.value];
        SendOneMore(nics[n], before, f.value);
      } else {
        assert Given(table, ds, n) == before + [] == before;
      }
    }
  }

  lemma SendNone(nic: Interface)
    ensures SendAll(nic, []) == nic
  {
  }

  lemma SendOneMore(nic: Interface, fs: seq<Forward>, f: Forward)
    ensures SendAll(nic, fs + [f]) == SendAll(nic, fs).SendDatagram(f.d, f.hop)
  {
    hide Interface.SendDatagram;
    assert (fs + [f])[..|fs|] == fs;
  }

  lemma RouteOneAt(nics: seq<Interface>, table: seq<Route>, d: Datagram, n: nat)
    requires n < |nics|
    ensures var f := Decide(table, d);
            RouteOne(nics, table, d)[n] ==
            if f.Some? && f.value.interfaceNum == n then nics[n].SendDatagram(f.value.d, f.value.hop) else nics[n]
  {
    hide Decide, Interface.SendDatagram;
  }

  /** The datagrams that are bound for interface `n`, as they arrived and in order. */
  function Bound(table: seq<Route>, ds: seq<Datagram>, n: nat): seq<Datagram> {
    if ds == [] then [] else
      var d := ds[|ds| - 1];
      var f := Decide(table, d);
      Bound(table, ds[..|ds| - 1], n) + if f.Some? && f.value.interfaceNum == n then [d] else []
  }

  /** The datagrams that are bound for any of the first `count` interfaces. */
  function AllBound(table: seq<Route>, ds: seq<Datagram>, count: nat): multiset<Datagram> {
    if count == 0 then multiset{} else AllBound(table, ds, count - 1) + multiset(Bound(table, ds, count - 1))
  }

  /** What an interface is given to send is what becomes of the datagrams bound for it, one by one. */
  lemma {:induction false} GivenAreBound(table: seq<Route>, ds: seq<Datagram>, n: nat)
    ensures |Given(table, ds, n)| == |Bound(table, ds, n)|
    ensures forall i | 0 <= i < |Bound(table, ds, n)| :: Decide(table, Bound(table, ds, n)[i]) == Some(Given(table, ds, n)[i])
  {
    hide Decide;
    if ds != [] {
      GivenAreBound(table, ds[..|ds| - 1], n);
    }
  }

  lemma {:induction false} AllBoundGrows(table: seq<Route>, ds: seq<Datagram>, count: nat)
    requires ds != []
    ensures var n := |ds| - 1;
            var f := Decide(table, ds[n]);
            AllBound(table, ds, count) ==
            AllBound(table, ds[..n], count) + if f.Some? && f.value.interfaceNum < count then multiset{ds[n]} else multiset{}
  {
    hide Decide, Bound;
    if count > 0 {
      AllBoundGrows(table, ds, count - 1);
      BoundGrows(table, ds, count - 1);
    }
  }

  lemma BoundGrows(table: seq<Route>, ds: seq<Datagram>, n: nat)
    requires ds != []
    ensures var k := |ds| - 1;
            var f := Decide(table, ds[k]);
            multiset(Bound(table, ds, n)) ==
            multiset(Bound(table, ds[..k], n)) + if f.Some? && f.value.interfaceNum == n then multiset{ds[k]} else multiset{}
  {
    hide Decide;
  }

  lemma DroppedGrows(table: seq<Route>, ds: seq<Datagram>)
    ensures ds == [] ==> Dropped(table, ds) == []
    ensures ds != [] ==>
              var k := |ds| - 1;
              multiset(Dropped(table, ds)) ==
              multiset(Dropped(table, ds[..k])) + if Decide(table, ds[k]) == None then multiset{ds[k]} else multiset{}
  {
    hide Decide;
  }

  /** Every datagram is bound for one interface, once, or dropped. */
  lemma {:induction false} ForwardedOnceOrDropped(table: seq<Route>, ds: seq<Datagram>, count: nat)
    requires Connected(table, count)
    ensures AllBound(table, ds, count) + multiset(Dropped(table, ds)) == multiset(ds)
  {
    hide Decide, Connected, AllBound, Dropped;
    if ds == [] {
      NothingBound(table, count);
      DroppedGrows(table, ds);
    } else {
      var n := |ds| - 1;
      ForwardedOnceOrDropped(table, ds[..n], count);
      AllBoundGrows(table, ds, count);
      DroppedGrows(table, ds);
      assert ds == ds[..n] + [ds[n]];
      if Decide(table, ds[n]).Some? {
        DecideConnected(table, ds[n], count);
      }
    }
  }

  lemma {:induction false} NothingBound(table: seq<Route>, count: nat)
    ensures AllBound(table, [], count) == multiset{}
  {
    if count > 0 {
      NothingBound(table, count - 1);
    }
  }
}
