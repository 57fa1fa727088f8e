/** The reassembler as the code keeps it: a sorted list of disjoint pending segments, merged on
    insertion and drained on writing (libsponge/stream_reassembler.cc), proved to implement the
    position-wise specification of `Reassembly`. */
module StreamReassemblers {
  import opened Machine
  import opened ByteStreams
  import opened Reassembly

  datatype Segment = Segment(data: seq<Byte>, start: nat) {
    function End(): nat {
      start + |data|
    }

    predicate Covers(p: int) {
      start <= p < End()
    }

    /** The map `m` holds this segment's bytes at its positions. */
    ghost predicate HeldBy(m: map<nat, Byte>) {
      forall p: nat | Covers(p) :: p in m && m[p] == data[p - start]
    }

    /** The same for its positions from `from` on. */
    ghost predicate Trails(m: map<nat, Byte>, from: int) {
      forall p: nat | Covers(p) && from <= p :: p in m && m[p] == data[p - start]
    }
  }

  /** Sorted, with a hole of at least one position between neighbours. */
  ghost predicate Gapped(segs: seq<Segment>) {
    forall i, j | 0 <= i < j < |segs| :: segs[i].End() < segs[j].start
  }

  ghost predicate Covered(segs: seq<Segment>, p: int) {
    exists i :: 0 <= i < |segs| && segs[i].Covers(p)
  }

  /** The segments hold exactly the positions and bytes of `m`. */
  ghost predicate Represents(segs: seq<Segment>, m: map<nat, Byte>) {
    && (forall i | 0 <= i < |segs| :: segs[i].HeldBy(m))
    && (forall p | p in m :: Covered(segs, p))
  }

  function Total(segs: seq<Segment>): nat {
    if segs == [] then 0 else |segs[0].data| + Total(segs[1..])
  }

  lemma {:induction false} TotalSplits(a: seq<Segment>, b: seq<Segment>)
    ensures Total(a + b) == Total(a) + Total(b)
  {
    if a == [] {
      assert a + b == b;
    } else {
      TotalSplits(a[1..], b);
      assert (a + b)[1..] == a[1..] + b;
    }
  }

  lemma TotalAt(segs: seq<Segment>, i: nat)
    requires i < |segs|
    ensures Total(segs) == |segs[i].data| + Total(Without(segs, i))
  {
    TotalSplits(segs[..i], segs[i..]);
    TotalSplits(segs[..i], segs[i + 1..]);
    assert segs == segs[..i] + segs[i..];
    assert segs[i..] == [segs[i]] + segs[i + 1..];
  }

  function Without(segs: seq<Segment>, i: nat): (rest: seq<Segment>)
    requires i < |segs|
    ensures |rest| == |segs| - 1
  {
    segs[..i] + segs[i + 1..]
  }

  lemma CoveredWithout(segs: seq<Segment>, i: nat, p: int)
    requires i < |segs|
    ensures Covered(segs, p) <==> Covered(Without(segs, i), p) || segs[i].Covers(p)
  {
    var rest := Without(segs, i);
    forall k | 0 <= k < |segs| && segs[k].Covers(p) && k != i
      ensures Covered(rest, p)
    {
      assert rest[if k < i then k else k - 1] == segs[k];
    }
    forall k | 0 <= k < |rest| && rest[k].Covers(p)
      ensures Covered(segs, p)
    {
      assert rest[k] == segs[if k < i then k else k + 1];
    }
  }

  lemma GappedWithout(segs: seq<Segment>, i: nat)
    requires i < |segs| && Gapped(segs)
    ensures Gapped(Without(segs, i))
  {
    var rest := Without(segs, i);
    assert forall k | 0 <= k < |rest| :: rest[k] == segs[if k < i then k else k + 1];
  }

  /** The count of pending bytes is the number of pending positions: none is counted twice. */
  lemma {:induction false} TotalIsPositions(segs: seq<Segment>, m: map<nat, Byte>)
    requires Gapped(segs) && Represents(segs, m)
    ensures Total(segs) == |m|
    decreases |segs|
  {
    if segs == [] {
      assert forall p | p in m :: Covered(segs, p);
      assert m == map[];
    } else {
      var s := segs[0];
      var own := Interval(s.start, s.End());
      var m' := m - own;
      hide Represents, Gapped, Interval;
      FirstSegment(segs, m);
      IntervalSize(s.start, s.End());
      assert m'.Keys == m.Keys - own;
      assert |m'.Keys| == |m.Keys| - |own|;
      TotalIsPositions(segs[1..], m');
    }
  }

  lemma FirstSegment(segs: seq<Segment>, m: map<nat, Byte>)
    requires segs != [] && Gapped(segs) && Represents(segs, m)
    ensures var own := Interval(segs[0].start, segs[0].End());
            own <= m.Keys && Gapped(segs[1..]) && Represents(segs[1..], m - own)
  {
    var s := segs[0];
    var own := Interval(s.start, s.End());
    assert forall p: nat :: p in own <==> s.Covers(p) by {
      assert forall p: nat :: Between(s.start, p, s.End()) <==> s.Covers(p);
    }
    forall p | p in m - own
      ensures Covered(segs[1..], p)
    {
      assert segs[1..] == Without(segs, 0);
      CoveredWithout(segs, 0, p);
    }
    forall i | 0 <= i < |segs[1..]|
      ensures segs[1..][i].HeldBy(m - own)
    {
      LaterHeld(segs, i + 1, m, own);
    }
  }

  lemma LaterHeld(segs: seq<Segment>, i: nat, m: map<nat, Byte>, own: set<nat>)
    requires 0 < i < |segs| && Gapped(segs) && segs[i].HeldBy(m)
    requires forall p: nat :: p in own <==> segs[0].Covers(p)
    ensures segs[i].HeldBy(m - own)
  {
    assert segs[0].End() < segs[i].start;
  }

  lemma {:induction false} IntervalSize(lo: nat, hi: nat)
    requires lo <= hi
    ensures |Interval(lo, hi)| == hi - lo
    decreases hi - lo
  {
    if lo < hi {
      IntervalSize(lo, hi - 1);
      assert Between(lo, hi - 1, hi);
      assert forall p: nat :: Between(lo, p, hi) <==> Between(lo, p, hi - 1) || p == hi - 1;
      assert Interval(lo, hi) == Interval(lo, hi - 1) + {hi - 1};
      assert hi - 1 !in Interval(lo, hi - 1);
    } else {
      assert Interval(lo, hi) == {};
    }
  }

  /** Midway through an insertion: `tmp` and the listed segments together hold `m`, and `tmp` belongs between position
      `it - 1` and position `it`. Of a segment to the right only what lies behind `tmp` counts. */
  ghost predicate Merging(segs: seq<Segment>, it: nat, tmp: Segment, m: map<nat, Byte>) {
    && it <= |segs|
    && Gapped(segs)
    && tmp.HeldBy(m)
    && (forall i | 0 <= i < it :: segs[i].HeldBy(m))
    && (forall i | it <= i < |segs| :: segs[i].Trails(m, tmp.End()))
    && (forall p | p in m :: Covered(segs, p) || tmp.Covers(p))
    && (forall i | 0 <= i < it :: segs[i].End() < tmp.start)
    && (forall i | it <= i < |segs| :: tmp.start <= segs[i].start)
  }

  function Inserted(m: map<nat, Byte>, s: Segment): map<nat, Byte> {
    Merged(m, s.data, s.start)
  }

  /** The map after an insertion, position by position. */
  lemma InsertedAt(m: map<nat, Byte>, s: Segment, p: nat)
    ensures var m' := Inserted(m, s);
            && (p in m' <==> p in m || s.Covers(p))
            && (p in m' && !s.Covers(p) ==> m'[p] == m[p])
            && (s.Covers(p) ==> m'[p] == if p in m && Survives(m, s.start, s.End(), p) then m[p] else s.data[p - s.start])
  {
    hide Survives;
    IntervalAt(s.start, s.End(), p);
  }

  /** The position right behind a segment is not held. */
  lemma GapNotHeld(segs: seq<Segment>, i: nat, m: map<nat, Byte>)
    requires i < |segs| && Gapped(segs) && Represents(segs, m)
    ensures segs[i].End() !in m
  {
    assert !Covered(segs, segs[i].End());
  }

  /** Segments away from the new one keep their bytes, as does what lies behind it. */
  lemma InsertedElsewhere(m: map<nat, Byte>, s: Segment, t: Segment)
    requires t.HeldBy(m)
    ensures t.Trails(Inserted(m, s), s.End())
    ensures t.End() < s.start ==> t.HeldBy(Inserted(m, s))
  {
    hide Merged, Survives;
    forall p: nat | t.Covers(p) && (s.End() <= p || t.End() < s.start)
      ensures p in Inserted(m, s) && Inserted(m, s)[p] == t.data[p - t.start]
    {
      InsertedAt(m, s, p);
    }
  }

  lemma InsertedCovered(segs: seq<Segment>, m: map<nat, Byte>, s: Segment)
    requires Represents(segs, m)
    ensures forall p | p in Inserted(m, s) :: Covered(segs, p) || s.Covers(p)
  {
    hide Merged, Survives, Inserted, Covered;
    forall p | p in Inserted(m, s)
      ensures Covered(segs, p) || s.Covers(p)
    {
      InsertedAt(m, s, p);
    }
  }

  /** Nothing changes when the inserted segment lies inside a stored one: the stored bytes survive. */
  lemma IncludedIsHeld(big: Segment, m: map<nat, Byte>, s: Segment)
    requires big.HeldBy(m)
    requires big.start <= s.start && s.End() <= big.End()
    ensures Inserted(m, s) == m
  {
    hide Merged, Inserted;
    assert Through(m, s.start, s.End()) by {
      assert forall q: nat | s.start <= q < s.End() :: big.Covers(q);
    }
    forall p: nat
      ensures p in Inserted(m, s) <==> p in m
      ensures p in m ==> Inserted(m, s)[p] == m[p]
    {
      InsertedAt(m, s, p);
      assert s.Covers(p) ==> big.Covers(p);
    }
  }

  /** Running into the segment on its left, the new one gives way to it and prevails behind it. */
  lemma LeftSurvives(segs: seq<Segment>, it: nat, s: Segment, m: map<nat, Byte>)
    requires it < |segs| && Gapped(segs) && Represents(segs, m)
    requires segs[it].start < s.start <= segs[it].End() < s.End()
    ensures segs[it].HeldBy(Inserted(m, s)) && s.Trails(Inserted(m, s), segs[it].End())
  {
    hide Merged, Inserted, Gapped, Covered;
    var left := segs[it];
    GapNotHeld(segs, it, m);
    assert left.HeldBy(m);
    forall p: nat | left.Covers(p)
      ensures p in Inserted(m, s) && Inserted(m, s)[p] == left.data[p - left.start]
    {
      InsertedAt(m, s, p);
      if s.start <= p {
        assert forall q: nat | s.start - 1 <= q < p + 1 :: left.Covers(q);
        assert Through(m, s.start - 1, p + 1);
      }
    }
    forall p: nat | s.Covers(p) && left.End() <= p
      ensures p in Inserted(m, s) && Inserted(m, s)[p] == s.data[p - s.start]
    {
      InsertedAt(m, s, p);
      assert !Through(m, s.start - 1, p + 1) && !Through(m, s.start, s.End());
    }
  }

  predicate Includes(big: Segment, s: Segment) {
    big.start <= s.start && s.End() <= big.End()
  }

  /** With no segment on its left to run into, the new one prevails, unless it brings nothing new. */
  lemma NewPrevails(segs: seq<Segment>, it: nat, s: Segment, m: map<nat, Byte>)
    requires it <= |segs| && Gapped(segs) && Represents(segs, m)
    requires forall i | 0 <= i < it :: segs[i].End() < s.start
    requires forall i | it <= i < |segs| :: s.start <= segs[i].start
    requires it < |segs| ==> !Includes(segs[it], s)
    ensures s.HeldBy(Inserted(m, s))
  {
    hide Merged, Inserted;
    forall p: nat | s.Covers(p)
      ensures p in Inserted(m, s) && Inserted(m, s)[p] == s.data[p - s.start]
    {
      InsertedAt(m, s, p);
      BeforeNotHeld(segs, it, s, m);
      NotAllHeld(segs, it, s, m);
    }
  }

  lemma BeforeNotHeld(segs: seq<Segment>, it: nat, s: Segment, m: map<nat, Byte>)
    requires it <= |segs| && Represents(segs, m)
    requires forall i | 0 <= i < it :: segs[i].End() < s.start
    requires forall i | it <= i < |segs| :: s.start <= segs[i].start
    ensures s.start > 0 ==> s.start - 1 !in m
  {
    assert s.start > 0 ==> !Covered(segs, s.start - 1);
  }

  lemma NotAllHeld(segs: seq<Segment>, it: nat, s: Segment, m: map<nat, Byte>)
    requires it <= |segs| && Gapped(segs) && Represents(segs, m) && s.data != []
    requires forall i | 0 <= i < it :: segs[i].End() < s.start
    requires forall i | it <= i < |segs| :: s.start <= segs[i].start
    requires it < |segs| ==> !Includes(segs[it], s)
    ensures !Through(m, s.start, s.End())
  {
    StartHeldAt(segs, it, s, m);
    if it < |segs| {
      GapNotHeld(segs, it, m);
    }
    hide Represents, Gapped;
    assert Through(m, s.start, s.End()) ==> s.start in m;
    assert it < |segs| && s.start <= segs[it].End() < s.End() ==> !Through(m, s.start, s.End());
  }

  lemma StartHeldAt(segs: seq<Segment>, it: nat, s: Segment, m: map<nat, Byte>)
    requires it <= |segs| && Gapped(segs) && Represents(segs, m)
    requires forall i | 0 <= i < it :: segs[i].End() < s.start
    requires forall i | it <= i < |segs| :: s.start <= segs[i].start
    ensures s.start in m ==> it < |segs| && segs[it].start == s.start
  {
    if s.start in m {
      var j :| 0 <= j < |segs| && segs[j].Covers(s.start);
      assert it <= j;
      GapsAround(segs, it);
    }
  }

  lemma MergeLeft(segs: seq<Segment>, it: nat, s: Segment, m: map<nat, Byte>)
    requires it < |segs| && Gapped(segs) && s.Trails(m, segs[it].End())
    requires forall i | 0 <= i <= it :: segs[i].HeldBy(m)
    requires forall i | it < i < |segs| :: segs[i].Trails(m, s.End())
    requires forall p | p in m :: Covered(segs, p) || s.Covers(p)
    requires segs[it].start <= s.start <= segs[it].End() < s.End()
    ensures Merging(Without(segs, it), it, JoinLeft(segs[it], s), m)
  {
    hide Covered, Segment.HeldBy, Segment.Trails;
    GappedWithout(segs, it);
    JoinLeftHeld(segs[it], s, m);
    forall p | p in m
      ensures Covered(Without(segs, it), p) || JoinLeft(segs[it], s).Covers(p)
    {
      CoveredWithout(segs, it, p);
    }
    GapsAround(segs, it);
  }

  function JoinLeft(left: Segment, s: Segment): (tmp: Segment)
    requires left.start <= s.start <= left.End() < s.End()
    ensures tmp.start == left.start && tmp.End() == s.End()
  {
    Segment(left.data + s.data[left.End() - s.start..], left.start)
  }

  lemma JoinLeftHeld(left: Segment, s: Segment, m: map<nat, Byte>)
    requires left.start <= s.start <= left.End() < s.End()
    requires left.HeldBy(m) && s.Trails(m, left.End())
    ensures JoinLeft(left, s).HeldBy(m)
  {
    var tmp := JoinLeft(left, s);
    forall p: nat | tmp.Covers(p)
      ensures p in m && m[p] == tmp.data[p - tmp.start]
    {
      assert left.Covers(p) || s.Covers(p);
    }
  }

  lemma GapsAround(segs: seq<Segment>, it: nat)
    requires it < |segs| && Gapped(segs)
    ensures forall i | 0 <= i < it :: segs[i].End() < segs[it].start
    ensures forall i | it < i < |segs| :: segs[it].End() < segs[i].start
    ensures forall i | 0 <= i < it :: Without(segs, it)[i] == segs[i]
    ensures forall i | it <= i < |segs| - 1 :: Without(segs, it)[i] == segs[i + 1]
  {
  }

  lemma MergeRight(segs: seq<Segment>, it: nat, tmp: Segment, m: map<nat, Byte>)
    requires Merging(segs, it, tmp, m) && it < |segs|
    requires segs[it].start <= tmp.End()
    ensures Merging(Without(segs, it), it, JoinRight(tmp, segs[it]), m)
  {
    hide Covered, Segment.HeldBy, Segment.Trails;
    var grown := JoinRight(tmp, segs[it]);
    GappedWithout(segs, it);
    JoinRightHeld(tmp, segs[it], m);
    forall p | p in m
      ensures Covered(Without(segs, it), p) || grown.Covers(p)
    {
      CoveredWithout(segs, it, p);
    }
    GapsAround(segs, it);
    forall i | it <= i < |Without(segs, it)|
      ensures Without(segs, it)[i].Trails(m, grown.End())
    {
      TrailsFurther(segs[i + 1], m, tmp.End(), grown.End());
    }
  }

  lemma TrailsFurther(s: Segment, m: map<nat, Byte>, from: int, further: int)
    requires s.Trails(m, from) && from <= further
    ensures s.Trails(m, further)
    ensures from < s.start ==> s.HeldBy(m)
  {
  }

  function With(segs: seq<Segment>, it: nat, tmp: Segment): seq<Segment>
    requires it <= |segs|
  {
    segs[..it] + [tmp] + segs[it..]
  }

  lemma WithAt(segs: seq<Segment>, it: nat, tmp: Segment)
    requires it <= |segs|
    ensures var done := With(segs, it, tmp);
            && |done| == |segs| + 1 && done[it] == tmp && Without(done, it) == segs
            && forall i | 0 <= i < |done| && i != it :: done[i] == segs[if i < it then i else i - 1]
  {
  }

  lemma MergeDone(segs: seq<Segment>, it: nat, tmp: Segment, m: map<nat, Byte>)
    requires Merging(segs, it, tmp, m)
    requires forall i | it <= i < |segs| :: tmp.End() < segs[i].start
    ensures var done := With(segs, it, tmp);
            Gapped(done) && Represents(done, m) && Total(done) == Total(segs) + |tmp.data|
  {
    hide Segment.HeldBy, Segment.Trails, Covered;
    var done := With(segs, it, tmp);
    WithAt(segs, it, tmp);
    TotalAt(done, it);
    forall i | 0 <= i < |done|
      ensures done[i].HeldBy(m)
    {
      if it < i {
        TrailsFurther(segs[i - 1], m, tmp.End(), tmp.End());
      }
    }
    forall p | p in m
      ensures Covered(done, p)
    {
      CoveredWithout(done, it, p);
    }
    GappedWith(segs, it, tmp);
  }

  lemma GappedWith(segs: seq<Segment>, it: nat, tmp: Segment)
    requires it <= |segs| && Gapped(segs)
    requires forall i | 0 <= i < it :: segs[i].End() < tmp.start
    requires forall i | it <= i < |segs| :: tmp.End() < segs[i].start
    ensures Gapped(With(segs, it, tmp))
  {
    WithAt(segs, it, tmp);
  }

  /** What the code relies on while it absorbs the segments to the right of an insertion of `s`
      into `segs0`, which held `m0`: either the next segment includes `s` and nothing was merged yet, or
      the merging is under way. Then `size` is not updated when `tmp` grows, and the third line says
      why that is right. */
  ghost predicate Absorbing(segs: seq<Segment>, it: nat, tmp: Segment, size: nat,
                            s: Segment, segs0: seq<Segment>, m0: map<nat, Byte>, floor: int) {
    && Gapped(segs0) && Represents(segs0, m0) && Above(segs, floor) && floor < tmp.start
    && if segs == segs0 && tmp == s && it < |segs| && Includes(segs[it], s) then size == |s.data|
       else
         && Merging(segs, it, tmp, Inserted(m0, s))
         && size <= |tmp.data| && (size < |tmp.data| ==> forall i | it <= i < |segs| :: tmp.End() < segs[i].start)
         && (it < |segs| && segs[it].start <= tmp.start ==> segs[it].End() < tmp.start + size)
  }

  predicate Above(segs: seq<Segment>, floor: int) {
    forall i | 0 <= i < |segs| :: floor < segs[i].start
  }

  lemma AbsorbStep(segs: seq<Segment>, it: nat, tmp: Segment, size: nat,
                   s: Segment, segs0: seq<Segment>, m0: map<nat, Byte>, floor: int)
    requires Absorbing(segs, it, tmp, size, s, segs0, m0, floor)
    requires it < |segs| && segs[it].start <= tmp.start + size
    requires !(segs[it].start <= tmp.start && tmp.start + size <= segs[it].End())
    ensures var right := segs[it];
            && size == |tmp.data| && right.start <= tmp.End()
            && Total(segs) == |right.data| + Total(Without(segs, it))
            && Absorbing(Without(segs, it), it, JoinRight(tmp, right), size, s, segs0, m0, floor)
  {
    hide Merging, Represents, Inserted, Gapped, Total;
    MergingBounds(segs, it, tmp, Inserted(m0, s));
    MergeRight(segs, it, tmp, Inserted(m0, s));
    TotalAt(segs, it);
    GapsAround(segs, it);
    assert |Without(segs, it)| < |segs|;
    ShorterDiffers(segs, it, s, segs0);
  }

  /** Once a segment was absorbed, the next one starts behind the new one. */
  lemma ShorterDiffers(segs: seq<Segment>, it: nat, s: Segment, segs0: seq<Segment>)
    requires it < |segs| && Gapped(segs)
    ensures it < |Without(segs, it)| ==> segs[it].End() < Without(segs, it)[it].start
  {
  }

  function JoinRight(tmp: Segment, right: Segment): (grown: Segment)
    requires right.start <= tmp.End()
    ensures grown.start == tmp.start && grown.End() == Max(tmp.End(), right.End())
  {
    if tmp.End() < right.End() then tmp.(data := tmp.data + right.data[tmp.End() - right.start..]) else tmp
  }

  lemma JoinRightHeld(tmp: Segment, right: Segment, m: map<nat, Byte>)
    requires tmp.start <= right.start <= tmp.End()
    requires tmp.HeldBy(m) && right.Trails(m, tmp.End())
    ensures JoinRight(tmp, right).HeldBy(m)
  {
    var grown := JoinRight(tmp, right);
    forall p: nat | grown.Covers(p)
      ensures p in m && m[p] == grown.data[p - grown.start]
    {
      assert tmp.Covers(p) || right.Covers(p);
    }
  }

  lemma MergingBounds(segs: seq<Segment>, it: nat, tmp: Segment, m: map<nat, Byte>)
    requires Merging(segs, it, tmp, m)
    ensures Gapped(segs) && it <= |segs|
    ensures forall i | it <= i < |segs| :: tmp.start <= segs[i].start
  {
  }

  lemma AbsorbIncluded(segs: seq<Segment>, it: nat, tmp: Segment, size: nat,
                       s: Segment, segs0: seq<Segment>, m0: map<nat, Byte>, floor: int)
    requires Absorbing(segs, it, tmp, size, s, segs0, m0, floor)
    requires it < |segs| && segs[it].start <= tmp.start && tmp.start + size <= segs[it].End()
    ensures Gapped(segs) && Represents(segs, Inserted(m0, s)) && Above(segs, floor)
  {
    hide Covered, Segment.HeldBy, Inserted, Merging;
    IncludedIsHeld(segs[it], m0, s);
  }

  lemma AbsorbDone(segs: seq<Segment>, it: nat, tmp: Segment, size: nat,
                   s: Segment, segs0: seq<Segment>, m0: map<nat, Byte>, floor: int)
    requires Absorbing(segs, it, tmp, size, s, segs0, m0, floor)
    requires it <= |segs| && (it < |segs| ==> tmp.start + size < segs[it].start)
    ensures var done := With(segs, it, tmp);
            && Gapped(done) && Represents(done, Inserted(m0, s)) && Above(done, floor)
            && Total(done) == Total(segs) + |tmp.data|
  {
    hide Absorbing, Merging, Represents, Gapped, Above, Total, Inserted, With;
    AbsorbedAll(segs, it, tmp, size, s, segs0, m0, floor);
    AboveWith(segs, it, tmp, floor);
    MergeDone(segs, it, tmp, Inserted(m0, s));
  }

  lemma AbsorbedAll(segs: seq<Segment>, it: nat, tmp: Segment, size: nat,
                    s: Segment, segs0: seq<Segment>, m0: map<nat, Byte>, floor: int)
    requires Absorbing(segs, it, tmp, size, s, segs0, m0, floor)
    requires it <= |segs| && (it < |segs| ==> tmp.start + size < segs[it].start)
    ensures Merging(segs, it, tmp, Inserted(m0, s)) && Above(segs, floor) && floor < tmp.start
    ensures forall i | it <= i < |segs| :: tmp.End() < segs[i].start
  {
    hide Merging, Represents, Above, Inserted;
    MergingBounds(segs, it, tmp, Inserted(m0, s));
    forall i | it <= i < |segs|
      ensures tmp.End() < segs[i].start
    {
      assert i == it || segs[it].End() < segs[i].start;
    }
  }

  lemma AboveWith(segs: seq<Segment>, it: nat, tmp: Segment, floor: int)
    requires it <= |segs| && Above(segs, floor) && floor < tmp.start
    ensures Above(With(segs, it, tmp), floor)
  {
    WithAt(segs, it, tmp);
  }

  lemma InsertFirst(s: Segment, m: map<nat, Byte>, floor: int)
    requires Represents([], m) && floor < s.start
    ensures Gapped([s]) && Represents([s], Inserted(m, s)) && Total([s]) == |s.data| && Above([s], floor)
  {
    hide Inserted;
    NewPrevails([], 0, s, m);
    InsertedCovered([], m, s);
    forall p | p in Inserted(m, s)
      ensures Covered([s], p)
    {
      assert [s][0].Covers(p);
    }
  }

  lemma InsertHere(segs: seq<Segment>, it: nat, s: Segment, m: map<nat, Byte>, floor: int)
    requires Gapped(segs) && Represents(segs, m) && it <= |segs|
    requires forall i | 0 <= i < it :: segs[i].start < s.start
    requires forall i | it <= i < |segs| :: s.start <= segs[i].start
    requires it == 0 || segs[it - 1].End() < s.start
    requires Above(segs, floor) && floor < s.start
    ensures Absorbing(segs, it, s, |s.data|, s, segs, m, floor)
  {
    hide Covered, Segment.HeldBy, Segment.Trails, Inserted;
    forall i | 0 <= i < it
      ensures segs[i].End() < s.start
    {
      assert i == it - 1 || segs[i].End() < segs[it - 1].start;
    }
    if !(it < |segs| && Includes(segs[it], s)) {
      NewPrevails(segs, it, s, m);
      InsertedCovered(segs, m, s);
      forall i | 0 <= i < |segs|
        ensures segs[i].Trails(Inserted(m, s), s.End()) && (i < it ==> segs[i].HeldBy(Inserted(m, s)))
      {
        InsertedElsewhere(m, s, segs[i]);
      }
    }
  }

  lemma InsertLeft(segs: seq<Segment>, it: nat, s: Segment, m: map<nat, Byte>, floor: int)
    requires Gapped(segs) && Represents(segs, m) && it < |segs|
    requires segs[it].start < s.start <= segs[it].End() < s.End()
    requires Above(segs, floor)
    ensures var left := segs[it];
            var tmp := JoinLeft(left, s);
            && Absorbing(Without(segs, it), it, tmp, |tmp.data|, s, segs, m, floor)
            && Total(segs) == |left.data| + Total(Without(segs, it))
  {
    hide Covered, Segment.HeldBy, Segment.Trails, Inserted, Merging, Total, Gapped, JoinLeft;
    LeftSurvives(segs, it, s, m);
    InsertedCovered(segs, m, s);
    GapsAround(segs, it);
    forall i | 0 <= i < |segs|
      ensures segs[i].Trails(Inserted(m, s), s.End()) && (i < it ==> segs[i].HeldBy(Inserted(m, s)))
    {
      InsertedElsewhere(m, s, segs[i]);
    }
    MergeLeft(segs, it, s, Inserted(m, s));
    TotalAt(segs, it);
    assert |Without(segs, it)| < |segs|;
    ShorterDiffers(segs, it, s, segs);
  }

  lemma InsertInside(segs: seq<Segment>, it: nat, s: Segment, m: map<nat, Byte>)
    requires Represents(segs, m) && it < |segs|
    requires segs[it].start <= s.start && s.End() <= segs[it].End()
    ensures Inserted(m, s) == m
  {
    hide Covered, Segment.HeldBy, Inserted;
    IncludedIsHeld(segs[it], m, s);
  }

  // ---------------------------------------------------------------------------------------
  // Draining
  // ---------------------------------------------------------------------------------------

  /** After the first `k` segments of `segs` were drained, the output `all` is the held bytes of
      `acc` up to `|all|`, and what was drained lies below that. `end` is where the write that
      started the draining stopped, `limit` is the end of the capacity. */
  ghost predicate Draining(all: seq<Byte>, k: nat, segs: seq<Segment>, w: nat, end: nat, acc: map<nat, Byte>, limit: nat) {
    && k <= |segs| && w <= end <= |all|
    && Gapped(segs)
    && (forall i | 0 <= i < |segs| :: segs[i].Trails(acc, end) && (segs[i].data == [] || segs[i].End() <= limit))
    && (forall p: nat | w <= p < |all| :: p in acc && all[p] == acc[p])
    && (forall i | 0 <= i < k :: segs[i].End() <= |all|)
    && (end < |all| ==> forall i | k <= i < |segs| :: |all| < segs[i].start)
  }

  lemma DrainStart(r: Reassembler, s: Segment, segs: seq<Segment>)
    requires r.Valid() && Gapped(segs) && Represents(segs, r.pending)
    requires s.start <= r.Written() <= s.End() <= r.Limit()
    ensures var acc := r.Accept(s.data, s.start);
            && Draining(r.out.all + s.data[r.Written() - s.start..], 0, segs, r.Written(), s.End(), acc, r.Limit())
            && AddsRun(acc, r.pending, r.Written(), s.End())
  {
    hide Gapped, Covered;
    var acc := r.Accept(s.data, s.start);
    assert forall p: nat :: p in r.Offered(s.data, s.start) <==> Between(r.Written(), p, s.End());
    forall i | 0 <= i < |segs|
      ensures segs[i].Trails(acc, s.End())
    {
      forall p: nat | segs[i].Covers(p) && s.End() <= p
        ensures p in acc && acc[p] == segs[i].data[p - segs[i].start]
      {
        assert p in r.pending;
      }
    }
    forall i | 0 <= i < |segs| && segs[i].data != []
      ensures segs[i].End() <= r.Limit()
    {
      assert segs[i].Covers(segs[i].End() - 1);
    }
    forall p: nat | r.Written() <= p < s.End()
      ensures p in acc && acc[p] == s.data[p - s.start]
    {
      assert Between(r.Written(), p, s.End());
    }
  }

  /** `acc` is `m` with the positions from `w` to `end` added. */
  ghost predicate AddsRun(acc: map<nat, Byte>, m: map<nat, Byte>, w: nat, end: nat) {
    && (forall p: nat :: p in acc <==> p in m || Between(w, p, end))
    && (forall p | p in m && end <= p :: acc[p] == m[p])
  }

  lemma DrainStep(all: seq<Byte>, k: nat, segs: seq<Segment>, w: nat, end: nat, acc: map<nat, Byte>, limit: nat)
    requires Draining(all, k, segs, w, end, acc, limit) && k < |segs| && segs[k].start <= end
    ensures |all| == end
    ensures var s := segs[k];
            && Total(segs[k..]) == |s.data| + Total(segs[k + 1..])
            && (end < s.End() ==> s.End() <= limit)
            && var all' := if end < s.End() then all + s.data[end - s.start..] else all;
               Draining(all', k + 1, segs, w, end, acc, limit)
  {
    var s := segs[k];
    var all' := if end < s.End() then all + s.data[end - s.start..] else all;
    GapsAround(segs, k);
    assert segs[k..][1..] == segs[k + 1..];
    hide Gapped;
    forall p: nat | w <= p < |all'|
      ensures p in acc && all'[p] == acc[p]
    {
      if |all| <= p {
        assert s.Covers(p);
      }
    }
  }

  lemma DrainDone(all: seq<Byte>, k: nat, segs: seq<Segment>, w: nat, end: nat, m: map<nat, Byte>, acc: map<nat, Byte>, limit: nat)
    requires Draining(all, k, segs, w, end, acc, limit) && Represents(segs, m) && AddsRun(acc, m, w, end)
    requires k < |segs| ==> end < segs[k].start
    ensures RunEnd(acc.Keys, w) == |all|
    ensures all[w..] == Run(acc, w, |all|)
    ensures var rest := map p | p in acc && |all| <= p :: acc[p];
            && Represents(segs[k..], rest) && Above(segs[k..], |all|) && Gapped(segs[k..])
            && forall p | p in rest :: p in m
  {
    hide RunEnd, Run, Draining, Represents, AddsRun, Above, Gapped;
    DrainStops(all, k, segs, w, end, m, acc, limit);
    DrainRest(all, k, segs, w, end, m, acc, limit);
  }

  lemma DrainStops(all: seq<Byte>, k: nat, segs: seq<Segment>, w: nat, end: nat, m: map<nat, Byte>, acc: map<nat, Byte>, limit: nat)
    requires Draining(all, k, segs, w, end, acc, limit) && Represents(segs, m) && AddsRun(acc, m, w, end)
    requires k < |segs| ==> end < segs[k].start
    ensures RunEnd(acc.Keys, w) == |all|
    ensures all[w..] == Run(acc, w, |all|)
  {
    hide RunEnd, Segment.Trails, Gapped;
    DrainAbove(all, k, segs, w, end, acc, limit);
    assert |all| !in acc by {
      assert !Between(w, |all|, end);
      if |all| in m {
        assert false;
      }
    }
    RunEndUnique(acc.Keys, w, |all|);
  }

  lemma DrainRest(all: seq<Byte>, k: nat, segs: seq<Segment>, w: nat, end: nat, m: map<nat, Byte>, acc: map<nat, Byte>, limit: nat)
    requires Draining(all, k, segs, w, end, acc, limit) && Represents(segs, m) && AddsRun(acc, m, w, end)
    requires k < |segs| ==> end < segs[k].start
    ensures var rest := map p | p in acc && |all| <= p :: acc[p];
            && Represents(segs[k..], rest) && Above(segs[k..], |all|) && Gapped(segs[k..])
            && forall p | p in rest :: p in m
  {
    hide Segment.Trails, Gapped;
    DrainAbove(all, k, segs, w, end, acc, limit);
    var rest := map p | p in acc && |all| <= p :: acc[p];
    forall p | p in rest
      ensures Covered(segs[k..], p) && p in m
    {
      assert !Between(w, p, end);
      assert Covered(segs, p);
      var i :| 0 <= i < |segs| && segs[i].Covers(p);
      assert segs[k..][i - k] == segs[i];
    }
    forall i | 0 <= i < |segs[k..]|
      ensures segs[k..][i].HeldBy(rest)
    {
      TailHeld(segs[k + i], m, acc, |all|, end);
    }
  }

  lemma DrainAbove(all: seq<Byte>, k: nat, segs: seq<Segment>, w: nat, end: nat, acc: map<nat, Byte>, limit: nat)
    requires Draining(all, k, segs, w, end, acc, limit)
    requires k < |segs| ==> end < segs[k].start
    ensures forall i | k <= i < |segs| :: |all| < segs[i].start
    ensures Gapped(segs[k..])
  {
    hide Segment.Trails;
    if k < |segs| {
      GapsAround(segs, k);
    }
    assert forall i | 0 <= i < |segs[k..]| :: segs[k..][i] == segs[k + i];
  }

  lemma TailHeld(s: Segment, m: map<nat, Byte>, acc: map<nat, Byte>, w: nat, end: nat)
    requires s.HeldBy(m) && end <= w < s.start
    requires forall p | p in m :: p in acc
    requires forall p | p in m && end <= p :: acc[p] == m[p]
    ensures s.HeldBy(map p | p in acc && w <= p :: acc[p])
  {
  }

  // ---------------------------------------------------------------------------------------
  // The cases of a push
  // ---------------------------------------------------------------------------------------

  /** Cutting an excerpt at the capacity does not change what is accepted of it. */
  lemma TruncationPushes(r: Reassembler, data: seq<Byte>, s: Segment)
    requires r.Valid() && s.start < r.Limit()
    requires s.data == data[..Min(|data|, r.Limit() - s.start)]
    ensures r.Push(s.data, s.start, false) == r.Push(data, s.start, false)
  {
    hide Merged;
    assert r.Offered(s.data, s.start) == r.Offered(data, s.start);
    assert r.Fitting(s.data, s.start) == s.data == r.Fitting(data, s.start);
  }

  lemma InsertIsPush(r: Reassembler, s: Segment)
    requires r.Valid()
    requires r.Written() < s.start && s.End() <= r.Limit()
    ensures var pushed := r.Push(s.data, s.start, false);
            pushed.out.all == r.out.all && pushed.pending == Inserted(r.pending, s)
    ensures forall p | p in Inserted(r.pending, s) :: p < r.Limit()
  {
    hide Merged;
    assert s.start < r.Limit() ==> r.Fitting(s.data, s.start) == s.data;
    assert s.start == r.Limit() ==> s.data == [];
    var acc := r.Accept(s.data, s.start);
    assert acc == Inserted(r.pending, s);
    forall p | p in acc
      ensures r.Written() < p < r.Limit()
    {
      hide Inserted;
      InsertedAt(r.pending, s, p);
    }
    assert r.Written() !in acc;
    RunEndUnique(acc.Keys, r.Written(), r.Written());
  }

  /** A push with or without the final mark differs in the flags only. */
  lemma PushFin(r: Reassembler, data: seq<Byte>, index: nat, fin: bool)
    requires r.Valid()
    ensures var pushed := r.Push(data, index, false);
            var posEof := if fin then (index + |data|) % TWO64 else r.posEof;
            r.Push(data, index, fin) ==
            Reassembler(
              r.out.(all := pushed.out.all, ended := r.out.ended || ((r.eof || fin) && |pushed.out.all| == posEof)),
              pushed.pending, r.eof || fin, posEof)
  {
    hide RunEnd, Run;
  }

  lemma PendingFits(r: Reassembler)
    requires r.Valid()
    ensures |r.pending| + r.out.Buffered() <= r.out.cap
  {
    IntervalSize(r.Written(), r.Limit());
    assert r.pending.Keys <= Interval(r.Written(), r.Limit()) by {
      forall p | p in r.pending
        ensures p in Interval(r.Written(), r.Limit())
      {
        assert Between(r.Written(), p, r.Limit());
      }
    }
    SubsetSize(r.pending.Keys, Interval(r.Written(), r.Limit()));
  }

  lemma {:induction false} SubsetSize(a: set<nat>, b: set<nat>)
    requires a <= b
    ensures |a| <= |b|
  {
    if a != {} {
      var x :| x in a;
      SubsetSize(a - {x}, b - {x});
    }
  }

  class StreamReassembler {
    var segments: seq<Segment>
    var unassembledByte: nat
    var eof: bool
    var posEof: nat
    const output: ByteStream
    const capacity: nat
    ghost var pending: map<nat, Byte>

    /** The part of the invariant that concerns the pending segments only. */
    ghost predicate Stored()
      reads this
    {
      Gapped(segments) && Represents(segments, pending) && unassembledByte == Total(segments)
    }

    ghost predicate Valid()
      reads this, output
    {
      && output.Valid() && output.cap == capacity
      && Stored()
      && Above(segments, output.written)
      && (forall p | p in pending :: p < output.read + capacity)
    }

    ghost function State(): (r: Reassembler)
      reads this, output
      requires Valid()
      ensures r.Valid()
    {
      assert forall p | p in pending :: Covered(segments, p);
      Reassembler(output.State(), pending, eof, posEof)
    }

    constructor (cap: nat)
      ensures Valid() && State() == NewReassembler(cap) && fresh(output) && capacity == cap
    {
      segments, unassembledByte, eof, posEof, capacity := [], 0, false, 0, cap;
      output := new ByteStream(cap);
      pending := map[];
    }

    /** Buffered and pending bytes together never exceed the capacity. */
    function UnassembledBytes(): (n: nat)
      reads this, output
      requires Valid()
      ensures n == |State().pending|
      ensures n + State().out.Buffered() <= capacity
    {
      TotalIsPositions(segments, pending);
      PendingFits(State());
      unassembledByte
    }

    predicate Empty()
      reads this, output
      requires Valid()
      ensures Empty() <==> State().pending == map[]
    {
      TotalIsPositions(segments, pending);
      unassembledByte == 0
    }

    method LowerBound(start: nat) returns (it: nat)
      requires Gapped(segments)
      ensures it <= |segments|
      ensures forall i | 0 <= i < it :: segments[i].start < start
      ensures forall i | it <= i < |segments| :: start <= segments[i].start
    {
      it := 0;
      while it < |segments| && segments[it].start < start
        invariant it <= |segments|
        invariant forall i | 0 <= i < it :: segments[i].start < start
      {
        it := it + 1;
      }
    }

    /** Merge `s` into the pending segments; `floor` is any bound below all of them. */
    method Insert(s: Segment, ghost floor: int)
      requires Stored()
      requires floor < s.start && Above(segments, floor)
      modifies this`segments, this`unassembledByte, this`pending
      ensures Stored() && pending == Inserted(old(pending), s) && Above(segments, floor)
    {
      hide Represents, Absorbing, Inserted, Gapped, Above, Without, With;
      ghost var segs0, m0 := segments, pending;
      pending := Inserted(m0, s);
      if |segments| == 0 {
        assert segments == [];
        InsertFirst(s, m0, floor);
        segments := [s];
        unassembledByte := unassembledByte + |s.data|;
        return;
      }
      var tmp := s;
      var start, size := s.start, |s.data|;
      var it := LowerBound(s.start);
      if it != 0 && start <= segments[it - 1].End() {
        it := it - 1;
        var left := segments[it];
        if start + size <= left.End() {
          InsertInside(segments, it, s, m0);
          return;
        }
        InsertLeft(segments, it, s, m0, floor);
        tmp := Segment(left.data + s.data[left.End() - start..], left.start);
        start := tmp.start;
        size := |tmp.data|;
        unassembledByte := unassembledByte - |left.data|;
        segments := Without(segments, it);
      } else {
        InsertHere(segments, it, s, m0, floor);
      }
      while it < |segments| && start + size >= segments[it].start
        invariant it <= |segments| && tmp.start == start
        invariant Absorbing(segments, it, tmp, size, s, segs0, m0, floor)
        invariant unassembledByte == Total(segments) && pending == Inserted(m0, s)
        decreases |segments| - it
      {
        var right := segments[it];
        if start >= right.start && start + size <= right.End() {
          AbsorbIncluded(segments, it, tmp, size, s, segs0, m0, floor);
          return;
        }
        AbsorbStep(segments, it, tmp, size, s, segs0, m0, floor);
        if start + size < right.End() {
          tmp := tmp.(data := tmp.data + right.data[start + size - right.start..]);
        }
        unassembledByte := unassembledByte - |right.data|;
        segments := Without(segments, it);
      }
      AbsorbDone(segments, it, tmp, size, s, segs0, m0, floor);
      segments := With(segments, it, tmp);
      unassembledByte := unassembledByte + |tmp.data|;
    }

    /** Write a segment that reaches the output, then every pending segment it reaches. */
    method WriteThrough(segment: Segment)
      requires Valid()
      requires segment.start <= output.written <= segment.End() <= output.read + capacity
      modifies this`segments, this`unassembledByte, this`pending, output
      ensures Valid()
      ensures var pushed := old(State()).Push(segment.data, segment.start, false);
              State() == old(State()).(out := old(State()).out.(all := pushed.out.all), pending := pushed.pending)
    {
      hide RunEnd, Run, Represents, Gapped, Draining, Above, AddsRun, Reassembler.Accept, Total;
      ghost var segs, m, w, before := segments, pending, output.written, State();
      ghost var acc := before.Accept(segment.data, segment.start);
      DrainStart(before, segment, segs);
      WriteFits(before.out, segment.data[output.written - segment.start..]);
      var _ := output.Write(segment.data[output.written - segment.start..]);
      ghost var k := Drain(segment.End(), w, acc, before.Limit());
      DrainDone(output.all, k, segs, w, segment.End(), m, acc, before.Limit());
      pending := map p | p in acc && |output.all| <= p :: acc[p];
      assert output.all == before.out.all + output.all[w..];
    }

    /** Writes and erases the pending segments that a write up to `end` has reached; `k` of them. */
    method Drain(end: nat, ghost w: nat, ghost acc: map<nat, Byte>, ghost limit: nat) returns (ghost k: nat)
      requires output.Valid() && Draining(output.all, 0, segments, w, end, acc, limit)
      requires limit == output.read + output.cap && unassembledByte == Total(segments)
      modifies this`segments, this`unassembledByte, output
      ensures output.Valid() && output.State() == old(output.State()).(all := output.all) && old(output.all) <= output.all
      ensures k <= |old(segments)| && segments == old(segments)[k..] && unassembledByte == Total(segments)
      ensures Draining(output.all, k, old(segments), w, end, acc, limit)
      ensures k < |old(segments)| ==> end < old(segments)[k].start
    {
      hide Draining, Total;
      ghost var segs, out := segments, output.State();
      k := 0;
      assert segments == segs[k..];
      while |segments| > 0 && segments[0].start <= end
        invariant k <= |segs| && segments == segs[k..]
        invariant output.Valid() && Draining(output.all, k, segs, w, end, acc, limit)
        invariant output.State() == out.(all := output.all) && out.all <= output.all
        invariant unassembledByte == Total(segments)
        decreases |segments|
      {
        var s := segments[0];
        DrainStep(output.all, k, segs, w, end, acc, limit);
        if end < s.End() {
          WriteFits(output.State(), s.data[end - s.start..]);
          var _ := output.Write(s.data[end - s.start..]);
        }
        unassembledByte := unassembledByte - |s.data|;
        segments := segments[1..];
        k := k + 1;
      }
    }

    /** The part of `push_substring` before its JUDGE_EOF label. */
    method Store(data: seq<Byte>, index: nat)
      requires Valid()
      modifies this`segments, this`unassembledByte, this`pending, output
      ensures Valid()
      ensures var pushed := old(State()).Push(data, index, false);
              State() == old(State()).(out := old(State()).out.(all := pushed.out.all), pending := pushed.pending)
    {
      hide Represents, Gapped, Above, Reassembler.Push, Inserted;
      ghost var before := State();
      var firstUnread := output.read;
      var firstUnassembled := output.written;
      var firstUnaccepted := firstUnread + capacity;
      var segment := Segment(data, index);
      if index + |data| < firstUnassembled || firstUnaccepted <= index {
        PushNothing(before, data, index);
        return;
      }
      if firstUnaccepted < index + |data| {
        segment := Segment(data[..firstUnaccepted - index], index);
      }
      TruncationPushes(before, data, segment);
      if index <= firstUnassembled {
        WriteThrough(segment);
      } else {
        InsertIsPush(before, segment);
        Insert(segment, firstUnassembled);
      }
    }

    /** The code, branch for branch, for any excerpt, be it at odds with what is stored. */
    method PushSubstring(data: seq<Byte>, index: nat, fin: bool)
      requires Valid()
      modifies this, output
      ensures Valid() && State() == old(State()).Push(data, index, fin)
    {
      hide Represents, Gapped, Above, Reassembler.Push, Reassembler.Valid, Total;
      PushFin(State(), data, index, fin);
      Store(data, index);
      if fin {
        eof := true;
        posEof := (index + |data|) % TWO64;
      }
      if eof && output.written == posEof {
        output.EndInput();
      }
    }
  }
}
