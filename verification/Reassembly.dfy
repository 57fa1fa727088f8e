/** What reassembly means, position by position: the specification that the interval-merging
    code of libsponge/stream_reassembler.cc is proved against in `StreamReassemblers`. */
module Reassembly {
  import opened Machine
  import opened ByteStreams

  /** `pending` holds the stored bytes that are not yet contiguous with the output. */
  datatype Reassembler = Reassembler(out: Stream, pending: map<nat, Byte>, eof: bool, posEof: nat) {
    function Written(): nat {
      |out.all|
    }

    /** The first position beyond the capacity. */
    function Limit(): nat {
      out.taken + out.cap
    }

    ghost predicate Valid() {
      && out.Valid()
      && forall p | p in pending :: Written() < p < Limit()
    }

    /** The positions of an excerpt that are new and inside the capacity, with their bytes. */
    function Offered(data: seq<Byte>, index: nat): map<nat, Byte> {
      Piece(data, index, Max(index, Written()), Min(index + |data|, Limit()))
    }

    /** The part of an excerpt inside the capacity. */
    function Fitting(data: seq<Byte>, index: nat): seq<Byte> {
      if index < Limit() then data[..Min(|data|, Limit() - index)] else []
    }

    /** The stored positions together with the offered ones. Should a byte contradict a stored one, the new
        byte counts if it is written at once; otherwise `Merged` says which one does. */
    function Accept(data: seq<Byte>, index: nat): map<nat, Byte> {
      if index <= Written() then pending + Offered(data, index) else Merged(pending, Fitting(data, index), index)
    }

    /** An excerpt that does not contradict the bytes already stored. */
    predicate Agrees(data: seq<Byte>, index: nat) {
      forall p | p in pending && index <= p < index + |data| :: pending[p] == data[p - index]
    }

    function Push(data: seq<Byte>, index: nat, fin: bool): Reassembler
      requires Valid()
    {
      var acc := Accept(data, index);
      var end := RunEnd(acc.Keys, Written());
      var all := out.all + Run(acc, Written(), end);
      var posEof' := if fin then (index + |data|) % TWO64 else posEof;
      Reassembler(
        out.(all := all, ended := out.ended || ((eof || fin) && |all| == posEof')),
        map p | p in acc && end <= p :: acc[p],
        eof || fin,
        posEof')
    }

    function Read(n: nat): Reassembler
      requires Valid()
    {
      this.(out := out.Read(n))
    }

    /** Everything held is a piece of the stream `s`. */
    ghost predicate Matches(s: seq<Byte>) {
      && out.all <= s
      && forall p | p in pending :: p < |s| && pending[p] == s[p]
    }
  }

  function NewReassembler(cap: nat): (r: Reassembler)
    ensures r.Valid()
  {
    Reassembler(NewStream(cap), map[], false, 0)
  }

  function Piece(data: seq<Byte>, index: nat, lo: nat, hi: int): map<nat, Byte>
    requires index <= lo && hi <= index + |data|
  {
    map p: nat | p < hi && Between(lo, p, hi) :: data[p - index]
  }

  predicate Between(lo: int, p: int, hi: int) {
    lo <= p < hi
  }

  predicate Through(m: map<nat, Byte>, lo: nat, hi: nat) {
    forall q: nat | lo <= q < hi :: q in m
  }

  /** Whether the stored byte at `p` survives when the positions from `lo` to `hi` are stored anew: if it
      belongs to a run that began before `lo`, or if all of them were stored already. */
  predicate Survives(m: map<nat, Byte>, lo: nat, hi: nat, p: nat) {
    (lo > 0 && Through(m, lo - 1, p + 1)) || Through(m, lo, hi)
  }

  /** The stored bytes with those of `data` merged in. */
  function Merged(m: map<nat, Byte>, data: seq<Byte>, index: nat): map<nat, Byte> {
    var end := index + |data|;
    map p | p in m.Keys + Interval(index, end) ::
      if p in m && (!Between(index, p, end) || Survives(m, index, end, p)) then m[p]
      else IntervalAt(index, end, p); data[p - index]
  }

  /** What is accepted: no other positions, and at each of them the stored byte or the offered one. */
  lemma AcceptedIsEither(r: Reassembler, data: seq<Byte>, index: nat)
    ensures var (acc, offered) := (r.Accept(data, index), r.Offered(data, index));
            && acc.Keys == r.pending.Keys + offered.Keys
            && forall p | p in acc :: (p in r.pending && acc[p] == r.pending[p]) || (p in offered && acc[p] == offered[p])
  {
    hide Survives;
    var (acc, offered) := (r.Accept(data, index), r.Offered(data, index));
    var end := index + |r.Fitting(data, index)|;
    if r.Written() < index {
      forall p: nat ensures p in offered <==> p in Interval(index, end) {
        IntervalAt(index, end, p);
        assert Between(Max(index, r.Written()), p, Min(index + |data|, r.Limit())) <==> Between(index, p, end);
      }
    }
  }

  /** The first position from `w` on that is not held. */
  function RunEnd(held: set<nat>, w: nat): (e: nat)
    ensures w <= e && e !in held
    ensures forall p: nat | w <= p < e :: p in held
  {
    if w in held then RunEnd(held - {w}, w + 1) else w
  }

  function Run(m: map<nat, Byte>, w: nat, e: nat): seq<Byte>
    requires w <= e
    requires forall p: nat | w <= p < e :: p in m
  {
    seq(e - w, i requires 0 <= i < e - w => m[w + i])
  }

  lemma RunEndUnique(held: set<nat>, w: nat, e: nat)
    requires w <= e && e !in held
    requires forall p: nat | w <= p < e :: p in held
    ensures RunEnd(held, w) == e
  {
    var f := RunEnd(held, w);
    assert !(w <= f < e) && !(w <= e < f);
  }

  lemma PushValid(r: Reassembler, data: seq<Byte>, index: nat, fin: bool)
    requires r.Valid()
    ensures r.Push(data, index, fin).Valid()
    ensures r.out.all <= r.Push(data, index, fin).out.all
    ensures r.Push(data, index, fin).Limit() == r.Limit()
  {
    hide Reassembler.Accept;
    AcceptedIsEither(r, data, index);
    var acc := r.Accept(data, index);
    var end := RunEnd(acc.Keys, r.Written());
    assert r.Limit() !in acc;
  }

  /** A genuine excerpt keeps the reassembler's contents genuine. */
  lemma PushMatches(r: Reassembler, data: seq<Byte>, index: nat, fin: bool, s: seq<Byte>)
    requires r.Valid() && r.Matches(s)
    requires index + |data| <= |s| && data == s[index..index + |data|]
    ensures r.Agrees(data, index)
    ensures r.Push(data, index, fin).Valid() && r.Push(data, index, fin).Matches(s)
  {
    hide RunEnd, Reassembler.Accept;
    PushValid(r, data, index, fin);
    AcceptedIsEither(r, data, index);
    var acc := r.Accept(data, index);
    forall p | p in acc
      ensures p < |s| && acc[p] == s[p]
    {
      assert p in r.Offered(data, index) || p in r.pending;
    }
    var end := RunEnd(acc.Keys, r.Written());
    assert |s| !in acc;
    assert r.Push(data, index, fin).out.all == s[..end];
  }

  /** An excerpt that starts in or before the output and fits the capacity is written through. */
  lemma PushProgress(r: Reassembler, data: seq<Byte>, index: nat, fin: bool)
    requires r.Valid()
    requires index <= r.Written() && index + |data| <= r.Limit()
    ensures r.Push(data, index, fin).Written() >= index + |data|
  {
    var acc := r.Accept(data, index);
    var end := RunEnd(acc.Keys, r.Written());
    if r.Written() <= end < index + |data| {
      assert Between(Max(index, r.Written()), end, Min(index + |data|, r.Limit()));
      assert false;
    }
  }

  /** An excerpt that offers no position within capacity changes nothing. */
  lemma PushNothing(r: Reassembler, data: seq<Byte>, index: nat)
    requires r.Valid()
    requires index + |data| <= r.Written() || r.Limit() <= index
    ensures r.Push(data, index, false)
         == r.(out := r.out.(ended := r.out.ended || (r.eof && r.Written() == r.posEof)))
  {
    hide Reassembler.Accept;
    AcceptedIsEither(r, data, index);
    var acc := r.Accept(data, index);
    assert r.Offered(data, index) == map[];
    assert acc == r.pending;
    RunEndUnique(acc.Keys, r.Written(), r.Written());
    assert (map p | p in acc && r.Written() <= p :: acc[p]) == r.pending;
    assert r.Push(data, index, false).out.all == r.out.all;
  }

  // ---------------------------------------------------------------------------------------
  // Every history of arrivals and reads
  // ---------------------------------------------------------------------------------------

  datatype Event = Arrive(index: nat, len: nat, fin: bool) | Take(n: nat)

  /** The arrivals are excerpts of `s`, and only an excerpt that reaches its end is marked final. */
  ghost predicate Excerpts(s: seq<Byte>, events: seq<Event>) {
    && |s| < TWO64
    && forall e | e in events && e.Arrive? :: e.index + e.len <= |s| && (e.fin ==> e.index + e.len == |s|)
  }

  ghost function Replay(s: seq<Byte>, cap: nat, events: seq<Event>): (r: Reassembler)
    requires Excerpts(s, events)
    ensures r.Valid()
  {
    if events == [] then NewReassembler(cap)
    else
      var r := Replay(s, cap, events[..|events| - 1]);
      var e := events[|events| - 1];
      assert e in events;
      if e.Take? then r.Read(e.n)
      else
        PushValid(r, s[e.index..e.index + e.len], e.index, e.fin);
        r.Push(s[e.index..e.index + e.len], e.index, e.fin)
  }

  function Interval(lo: nat, hi: int): set<nat> {
    set p: nat | p < hi && Between(lo, p, hi)
  }

  /** The positions that have arrived while inside the capacity. */
  ghost function Arrived(s: seq<Byte>, cap: nat, events: seq<Event>): set<nat>
    requires Excerpts(s, events)
  {
    if events == [] then {}
    else
      var before := events[..|events| - 1];
      var e := events[|events| - 1];
      if e.Take? then Arrived(s, cap, before)
      else Arrived(s, cap, before)
           + Interval(e.index, Min(e.index + e.len, Replay(s, cap, before).Limit()))
  }

  ghost predicate SawEnd(events: seq<Event>) {
    exists e :: e in events && e.Arrive? && e.fin
  }

  /** The output is the longest contiguous prefix of what arrived, the pending bytes are exactly
      the rest, and the output has ended exactly when the end was seen and reached. */
  ghost predicate HoldsPositions(r: Reassembler, arrived: set<nat>, s: seq<Byte>, sawEnd: bool) {
    && r.Matches(s)
    && (forall p: nat :: p in arrived <==> p < r.Written() || p in r.pending)
    && r.Written() !in arrived
    && r.eof == sawEnd
    && (r.eof ==> r.posEof == |s|)
    && (r.out.ended <==> sawEnd && r.Written() == |s|)
  }

  lemma {:induction false} ReplayHoldsPositions(s: seq<Byte>, cap: nat, events: seq<Event>)
    requires Excerpts(s, events)
    ensures HoldsPositions(Replay(s, cap, events), Arrived(s, cap, events), s, SawEnd(events))
  {
    hide HoldsPositions, SawEnd, Reassembler.Push, Reassembler.Read, Interval, Reassembler.Valid;
    if events == [] {
      NewHoldsPositions(s, cap);
    } else {
      var before := events[..|events| - 1];
      var e := events[|events| - 1];
      ReplayHoldsPositions(s, cap, before);
      SawEndSplits(events);
      assert e in events;
      if e.Arrive? {
        ArriveHoldsPositions(Replay(s, cap, before), Arrived(s, cap, before), s, SawEnd(before), e);
      } else {
        TakeHoldsPositions(Replay(s, cap, before), Arrived(s, cap, before), s, SawEnd(before), e.n);
      }
    }
  }

  lemma NewHoldsPositions(s: seq<Byte>, cap: nat)
    ensures HoldsPositions(NewReassembler(cap), {}, s, SawEnd([]))
  {
  }

  lemma TakeHoldsPositions(r: Reassembler, arrived: set<nat>, s: seq<Byte>, sawEnd: bool, n: nat)
    requires r.Valid() && HoldsPositions(r, arrived, s, sawEnd)
    ensures HoldsPositions(r.Read(n), arrived, s, sawEnd)
  {
  }

  lemma SawEndSplits(events: seq<Event>)
    requires events != []
    ensures var e := events[|events| - 1];
            SawEnd(events) <==> SawEnd(events[..|events| - 1]) || (e.Arrive? && e.fin)
  {
    var before := events[..|events| - 1];
    var e := events[|events| - 1];
    assert events == before + [e];
    assert forall f :: f in events <==> f in before || f == e;
  }

  lemma ArriveHoldsPositions(r: Reassembler, arrived: set<nat>, s: seq<Byte>, sawEnd: bool, e: Event)
    requires e.Arrive? && e.index + e.len <= |s| < TWO64 && (e.fin ==> e.index + e.len == |s|)
    requires r.Valid() && HoldsPositions(r, arrived, s, sawEnd)
    ensures HoldsPositions(
              r.Push(s[e.index..e.index + e.len], e.index, e.fin),
              arrived + Interval(e.index, Min(e.index + e.len, r.Limit())), s, sawEnd || e.fin)
  {
    hide Reassembler.Push, Interval, Reassembler.Valid;
    var data := s[e.index..e.index + e.len];
    PushMatches(r, data, e.index, e.fin, s);
    ArrivePositions(r, arrived, data, e.index, e.fin);
    ArriveFlags(r, data, e.index, e.fin, s);
  }

  lemma ArriveFlags(r: Reassembler, data: seq<Byte>, index: nat, fin: bool, s: seq<Byte>)
    requires r.Valid() && r.Matches(s) && |s| < TWO64
    requires r.Push(data, index, fin).Matches(s)
    requires fin ==> index + |data| == |s|
    requires r.eof ==> r.posEof == |s|
    requires r.out.ended <==> r.eof && r.Written() == |s|
    ensures var r' := r.Push(data, index, fin);
            && r'.eof == (r.eof || fin)
            && (r'.eof ==> r'.posEof == |s|)
            && (r'.out.ended <==> r'.eof && r'.Written() == |s|)
  {
    hide RunEnd, Run;
  }

  lemma ArrivePositions(r: Reassembler, arrived: set<nat>, data: seq<Byte>, index: nat, fin: bool)
    requires r.Valid()
    requires forall p: nat :: p in arrived <==> p < r.Written() || p in r.pending
    ensures var r' := r.Push(data, index, fin);
            var arrived' := arrived + Interval(index, Min(index + |data|, r.Limit()));
            && (forall p: nat :: p in arrived' <==> p < r'.Written() || p in r'.pending)
            && r'.Written() !in arrived'
  {
    hide Reassembler.Push, Reassembler.Accept, Interval;
    PushSplits(r, data, index, fin);
    var arrived' := arrived + Interval(index, Min(index + |data|, r.Limit()));
    forall p: nat
      ensures p in arrived' <==> p < r.Written() || p in r.Accept(data, index)
    {
      AcceptAt(r, data, index, p);
      IntervalAt(index, Min(index + |data|, r.Limit()), p);
    }
  }

  lemma IntervalAt(lo: nat, hi: int, p: nat)
    ensures p in Interval(lo, hi) <==> Between(lo, p, hi)
  {
  }

  lemma AcceptAt(r: Reassembler, data: seq<Byte>, index: nat, p: nat)
    ensures p in r.Accept(data, index)
       <==> p in r.pending || (r.Written() <= p && Between(index, p, Min(index + |data|, r.Limit())))
  {
    hide Reassembler.Accept;
    AcceptedIsEither(r, data, index);
    var lo, hi := Max(index, r.Written()), Min(index + |data|, r.Limit());
    assert Between(lo, p, hi) <==> (r.Written() <= p && Between(index, p, hi));
  }

  /** A push moves a run of held positions into the output and keeps the others. */
  lemma PushSplits(r: Reassembler, data: seq<Byte>, index: nat, fin: bool)
    requires r.Valid()
    ensures var r' := r.Push(data, index, fin);
            var acc := r.Accept(data, index);
            && (forall p: nat :: p < r.Written() || p in acc <==> p < r'.Written() || p in r'.pending)
            && r'.Written() !in acc && r.Written() <= r'.Written()
  {
    hide Reassembler.Accept;
    PushValid(r, data, index, fin);
    AcceptedIsEither(r, data, index);
    var acc := r.Accept(data, index);
    assert r.Push(data, index, fin).Written() == RunEnd(acc.Keys, r.Written());
    forall p | p in acc
      ensures r.Written() <= p
    {
      assert p in r.Offered(data, index) || p in r.pending;
    }
  }
}
