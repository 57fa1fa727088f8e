/** The sending half of a connection (libsponge/tcp_sender.cc and tcp_sender.hh): filling the
    peer's window, taking acknowledgments, retransmitting. */
module Senders {
  import opened Machine
  import opened WrappingIntegers
  import opened Segments
  import opened ByteStreams

  const MAX_PAYLOAD_SIZE: nat := 1452

  datatype Timer = Timer(running: bool, total: nat, rto: nat)

  /** A queued segment with the absolute number it was sent under. The code never reads that
      number; it is here to say what the wrapped one stands for. */
  datatype Slot = Slot(seg: TcpSegment, abs: nat) {
    function End(): nat {
      abs + seg.Length()
    }

    /** No acknowledgment or reset yet: the connection adds those when it sends. */
    predicate Plain() {
      !seg.header.ack && !seg.header.rst
    }
  }

  datatype Sender = Sender(
    isn: U32, initialRto: nat, stream: Stream, next: nat, base: nat,
    window: nat, windowZero: bool, syn: bool, fin: bool,
    queue: seq<Slot>, copies: seq<Slot>, timer: Timer, retx: nat)
  {
    function InFlight(): int {
      next - base
    }

    function Sent(): Sent
      requires stream.Valid()
    {
      Segments.Sent(isn, syn, stream.all[..stream.taken], fin)
    }

    function SendSegment(seg: TcpSegment): Sender {
      var slot := Slot(seg.(header := seg.header.(seqno := Wrap(next, isn))), next);
      this.(next := next + seg.Length(), queue := queue + [slot], copies := copies + [slot],
            timer := if timer.running then timer else Timer(true, 0, initialRto))
    }

    function SendSyn(): Sender {
      SendSegment(EMPTY_SEGMENT.(header := DEFAULT_HEADER.(syn := true))).(syn := true)
    }

    function SendFin(): Sender {
      SendSegment(EMPTY_SEGMENT.(header := DEFAULT_HEADER.(fin := true))).(fin := true)
    }

    /** One turn of the loop: a chunk of the stream, with the FIN if it is the last and fits. */
    function SendData(rem: nat): Sender
      requires stream.Valid()
    {
      var n := Min(rem, MAX_PAYLOAD_SIZE);
      var payload := stream.Chunk(n);
      var rest := stream.Read(n);
      var last := rest.Eof() && |payload| + 1 <= rem;
      this.(stream := rest, fin := fin || last)
          .SendSegment(TcpSegment(DEFAULT_HEADER.(fin := last), payload))
    }

    function FillLoop(rem: nat): Sender
      requires stream.Valid()
      decreases stream.Buffered()
    {
      if rem == 0 || stream.Buffered() == 0 then this
      else
        var s := SendData(rem);
        s.FillLoop(rem - (s.next - next))
    }

    /** The space left in the window, by unsigned subtraction: it wraps when more is in flight. */
    function Space(): nat {
      Sub64(window, InFlight())
    }

    predicate NothingToSend() {
      fin || (syn && stream.Buffered() == 0 && !stream.ended)
    }

    function FillWindow(): Sender
      requires stream.Valid()
    {
      if window == 0 || NothingToSend() then this
      else if !syn then SendSyn()
      else if stream.Eof() then (if Space() == 0 then this else SendFin())
      else FillLoop(Space())
    }

    function Acked(ackno: U32): nat {
      Unwrap(ackno, isn, base)
    }

    function AckReceived(ackno: U32, win: U16): Sender
      requires stream.Valid()
    {
      var abs := Acked(ackno);
      if abs > next then this
      else
        var s := this.(window := if win == 0 then 1 else win, windowZero := win == 0);
        if abs <= base then s
        else s.(base := abs, copies := PopAcked(copies, isn, next, abs)).FillWindow().RestartTimer()
    }

    function RestartTimer(): Sender {
      this.(retx := 0, timer := if copies != [] then Timer(true, 0, initialRto) else Timer(false, 0, 0))
    }

    function Tick(ms: nat): Sender {
      var s := this.(timer := timer.(total := timer.total + ms));
      if copies != [] && s.timer.running && s.timer.total >= s.timer.rto then
        var t := s.(queue := queue + [copies[0]]);
        if windowZero then t.(timer := Timer(true, 0, t.timer.rto))
        else t.(retx := retx + 1, timer := Timer(true, 0, t.timer.rto * 2))
      else s
    }

    function SendEmpty(): Sender {
      this.(queue := queue + [Slot(EMPTY_SEGMENT.(header := DEFAULT_HEADER.(seqno := Wrap(next, isn))), next)])
    }

    /** Bytes were accepted after the FIN had gone out: they are never sent. */
    predicate Late() {
      fin && stream.Buffered() > 0
    }

    /** A write now would have some of its bytes accepted although the FIN is out. */
    ghost predicate AcceptsLate(data: seq<Byte>) {
      fin && stream.Valid() && stream.Accepted(data) != []
    }

    /** Conservation: the next number counts the SYN, the bytes read and the FIN; the copies are a
        contiguous chain of genuine segments that ends there and reaches back to what is unacknowledged. */
    ghost predicate Core() {
      && stream.Valid()
      && next == Sent().Next()
      && (!syn ==> stream.taken == 0 && !fin)
      && (fin ==> stream.ended)
      && base <= next && 1 <= window
      && Chain(copies, next) && AllSent(copies, Sent())
      && Reaches(copies, base, next)
    }

    ghost predicate TimerOk() {
      && (timer.running <==> copies != [])
      && (timer.running ==> timer.rto == initialRto * Pow2(retx))
      && (!timer.running ==> retx == 0)
    }

    ghost predicate Valid() {
      Core() && TimerOk()
    }

    /** The oldest copy is not wholly acknowledged, and the copies are empty exactly when nothing
        is in flight. */
    ghost predicate Straddles() {
      && (copies == [] <==> base == next)
      && (copies != [] ==> base < copies[0].End())
    }
  }

  function NewSender(cap: nat, rto: nat, isn: U32): Sender {
    Sender(isn, rto, NewStream(cap), 0, 0, 1, false, false, false, [], [], Timer(false, 0, rto), 0)
  }

  function PopAcked(copies: seq<Slot>, isn: U32, next: nat, abs: nat): seq<Slot> {
    if copies == [] then []
    else if Unwrap(copies[0].seg.header.seqno, isn, next) + copies[0].seg.Length() <= abs
    then PopAcked(copies[1..], isn, next, abs)
    else copies
  }

  ghost predicate Chain(copies: seq<Slot>, next: nat) {
    forall i | 0 <= i < |copies| :: copies[i].End() == Following(copies, i, next)
  }

  /** Where the segment after the i-th starts. */
  function Following(copies: seq<Slot>, i: nat, next: nat): nat {
    if i + 1 < |copies| then copies[i + 1].abs else next
  }

  ghost predicate AllSent(copies: seq<Slot>, sent: Sent) {
    forall i | 0 <= i < |copies| ::
      && Genuine(copies[i].seg, copies[i].abs, sent) && copies[i].Plain()
      && 0 < copies[i].seg.Length() && |copies[i].seg.payload| <= MAX_PAYLOAD_SIZE
  }

  /** The copies cover every number from `base` to `next`. */
  ghost predicate Reaches(copies: seq<Slot>, base: nat, next: nat) {
    if copies == [] then base == next else copies[0].abs <= base
  }

  function Payloads(slots: seq<Slot>): seq<Byte> {
    if slots == [] then [] else Payloads(slots[..|slots| - 1]) + slots[|slots| - 1].seg.payload
  }

  lemma {:induction false} PayloadsSplit(a: seq<Slot>, b: seq<Slot>)
    ensures Payloads(a + b) == Payloads(a) + Payloads(b)
  {
    if b == [] {
      assert a + b == a;
    } else {
      var b', last := b[..|b| - 1], b[|b| - 1];
      PayloadsSplit(a, b');
      assert (a + b)[..|a + b| - 1] == a + b' && (a + b)[|a + b| - 1] == last;
      calc {
        Payloads(a + b);
        Payloads(a + b') + last.seg.payload;
        Payloads(a) + Payloads(b') + last.seg.payload;
        Payloads(a) + (Payloads(b') + last.seg.payload);
        Payloads(a) + Payloads(b);
      }
    }
  }

  // ---------------------------------------------------------------------------------------
  // Emitting segments
  // ---------------------------------------------------------------------------------------

  /** `s'` is `s` after sending the segments `added` for the first time. */
  ghost predicate Emits(s: Sender, s': Sender, added: seq<Slot>) {
    && s.stream.Valid() && s'.stream.Valid()
    && s' == s.(stream := s'.stream, next := s'.next, syn := s'.syn, fin := s'.fin,
                queue := s.queue + added, copies := s.copies + added,
                timer := if s.timer.running || added == [] then s.timer else Timer(true, 0, s.initialRto))
    && s'.stream == s.stream.(taken := s'.stream.taken) && s.stream.taken <= s'.stream.taken
    && s.Sent().GrowsTo(s'.Sent())
    && AllSent(added, s'.Sent())
    && Payloads(added) == s.stream.all[s.stream.taken..s'.stream.taken]
    && s.next <= s'.next && (if added == [] then s'.next == s.next else added[0].abs == s.next)
  }

  lemma EmitsNothing(s: Sender)
    requires s.Core()
    ensures Emits(s, s, [])
  {
    assert s.queue + [] == s.queue && s.copies + [] == s.copies;
  }

  lemma AllSentJoin(a: seq<Slot>, b: seq<Slot>, sent: Sent)
    requires AllSent(a, sent) && AllSent(b, sent)
    ensures AllSent(a + b, sent)
  {
    hide Genuine;
  }

  lemma EmitsTrans(s: Sender, t: Sender, u: Sender, a: seq<Slot>, b: seq<Slot>)
    requires Emits(s, t, a) && Emits(t, u, b)
    ensures Emits(s, u, a + b)
  {
    hide AllSent, Payloads;
    PayloadsSplit(a, b);
    AllSentGrows(a, t.Sent(), u.Sent());
    AllSentJoin(a, b, u.Sent());
    assert s.queue + a + b == s.queue + (a + b);
    assert s.copies + a + b == s.copies + (a + b);
  }

  lemma ChainAppend(copies: seq<Slot>, slot: Slot, next: nat)
    requires Chain(copies, next) && slot.abs == next
    ensures Chain(copies + [slot], slot.End())
  {
    var longer := copies + [slot];
    forall i | 0 <= i < |longer|
      ensures longer[i].End() == Following(longer, i, slot.End())
    {
      if i < |copies| {
        assert longer[i] == copies[i];
      }
    }
  }

  lemma AllSentGrows(copies: seq<Slot>, sent: Sent, later: Sent)
    requires AllSent(copies, sent) && sent.GrowsTo(later)
    ensures AllSent(copies, later)
  {
    hide Genuine;
    forall i | 0 <= i < |copies|
      ensures Genuine(copies[i].seg, copies[i].abs, later)
    {
      GenuineGrows(copies[i].seg, copies[i].abs, sent, later);
    }
  }

  /** The segment just queued: numbered `next`, genuine, and not too long. */
  ghost predicate IsNext(s: Sender, s': Sender, slot: Slot) {
    && s.stream.Valid() && s'.stream.Valid()
    && slot.abs == s.next && slot.Plain() && 0 < slot.seg.Length() && |slot.seg.payload| <= MAX_PAYLOAD_SIZE
    && Genuine(slot.seg, slot.abs, s'.Sent())
    && s'.stream == s.stream.(taken := s.stream.taken + |slot.seg.payload|)
    && slot.seg.payload == s.stream.all[s.stream.taken..s'.stream.taken]
    && s.Sent().GrowsTo(s'.Sent()) && s'.Sent().Next() == slot.End()
    && s'.syn && (s'.fin ==> s'.stream.Eof())
    && s' == s.(stream := s'.stream, next := slot.End(), syn := s'.syn, fin := s'.fin,
                queue := s.queue + [slot], copies := s.copies + [slot],
                timer := if s.timer.running then s.timer else Timer(true, 0, s.initialRto))
  }

  lemma AllSentOne(copies: seq<Slot>, slot: Slot, sent: Sent)
    requires AllSent(copies, sent) && Genuine(slot.seg, slot.abs, sent)
    requires slot.Plain() && 0 < slot.seg.Length() && |slot.seg.payload| <= MAX_PAYLOAD_SIZE
    ensures AllSent(copies + [slot], sent) && AllSent([slot], sent)
    ensures Payloads([slot]) == slot.seg.payload
  {
    hide Genuine;
    assert [slot][..0] == [];
    assert Payloads([]) == [];
  }

  lemma EmitOneKeeps(s: Sender, s': Sender, slot: Slot)
    requires s.Core() && IsNext(s, s', slot)
    ensures s'.Core() && Emits(s, s', [slot])
  {
    hide Genuine, Chain, AllSent, Payloads;
    ChainAppend(s.copies, slot, s.next);
    AllSentGrows(s.copies, s.Sent(), s'.Sent());
    AllSentOne(s.copies, slot, s'.Sent());
  }

  lemma SendSynKeeps(s: Sender)
    requires s.Core() && !s.syn
    ensures var s' := s.SendSyn();
            s'.Core() && Emits(s, s', [s'.copies[|s.copies|]]) && s'.next == s.next + 1
  {
    hide Chain, AllSent, Reaches, Emits;
    var s' := s.SendSyn();
    var slot := s'.copies[|s.copies|];
    assert IsNext(s, s', slot);
    EmitOneKeeps(s, s', slot);
  }

  lemma SendFinKeeps(s: Sender)
    requires s.Core() && s.syn && !s.fin && s.stream.Eof()
    ensures var s' := s.SendFin();
            s'.Core() && Emits(s, s', [s'.copies[|s.copies|]]) && s'.next == s.next + 1
  {
    hide Chain, AllSent, Reaches, Emits;
    var s' := s.SendFin();
    var slot := s'.copies[|s.copies|];
    assert IsNext(s, s', slot);
    EmitOneKeeps(s, s', slot);
  }

  lemma SendDataKeeps(s: Sender, rem: nat)
    requires s.Core() && s.syn && !s.fin && 0 < rem && 0 < s.stream.Buffered()
    ensures var s' := s.SendData(rem);
            && s'.Core() && s'.stream.Valid() && Emits(s, s', [s'.copies[|s.copies|]])
            && |s'.copies| == |s.copies| + 1
            && s.next < s'.next <= s.next + rem
            && s'.stream.Buffered() < s.stream.Buffered()
            && s'.syn
            && (s'.fin ==> s'.stream.Buffered() == 0)
            && (s'.stream.Eof() ==> s'.fin || s'.next == s.next + rem)
  {
    hide Chain, AllSent, Reaches, Emits;
    var s' := s.SendData(rem);
    var slot := s'.copies[|s.copies|];
    var k := |slot.seg.payload|;
    assert s.stream.all[..s'.stream.taken][s.stream.taken..] == slot.seg.payload;
    assert s.Sent().bytes <= s'.Sent().bytes;
    assert IsNext(s, s', slot);
    EmitOneKeeps(s, s', slot);
  }

  /** The loop ends with the space used up, the FIN sent, or the stream drained and still open. */
  lemma {:induction false} FillLoopKeeps(s: Sender, rem: nat) returns (added: seq<Slot>)
    requires s.Core() && s.stream.Valid() && s.syn && !s.fin && !s.stream.Eof()
    ensures var s' := s.FillLoop(rem);
            && s'.Core() && Emits(s, s', added) && s'.syn
            && s'.next <= s.next + rem
            && (s'.fin || s'.next == s.next + rem || (s'.stream.Buffered() == 0 && !s'.stream.ended))
            && (0 < rem && 0 < s.stream.Buffered() ==> s.next < s'.next)
            && (s'.fin ==> s'.stream.Buffered() == 0)
    decreases s.stream.Buffered()
  {
    hide Sender.Core, Emits, Sender.SendData;
    if rem == 0 || s.stream.Buffered() == 0 {
      EmitsNothing(s);
      added := [];
    } else {
      SendDataKeeps(s, rem);
      var t := s.SendData(rem);
      var rest := rem - (t.next - s.next);
      var first := [t.copies[|s.copies|]];
      if t.fin || t.stream.Eof() {
        assert t.FillLoop(rest) == t;
        added := first;
      } else {
        var later := FillLoopKeeps(t, rest);
        EmitsTrans(s, t, t.FillLoop(rest), first, later);
        added := first + later;
      }
    }
  }

  lemma FillWindowKeeps(s: Sender) returns (added: seq<Slot>)
    requires s.Core()
    ensures s.FillWindow().Core() && Emits(s, s.FillWindow(), added)
  {
    hide Chain, AllSent, Reaches, Emits, Sender.SendData, Sender.FillLoop;
    if s.window == 0 || s.NothingToSend() {
      EmitsNothing(s);
      added := [];
    } else if !s.syn {
      SendSynKeeps(s);
      added := [s.SendSyn().copies[|s.copies|]];
    } else if !s.stream.Eof() {
      added := FillLoopKeeps(s, s.Space());
    } else if s.Space() == 0 {
      EmitsNothing(s);
      added := [];
    } else {
      SendFinKeeps(s);
      added := [s.SendFin().copies[|s.copies|]];
    }
  }

  /** The FIN is only sent behind the last byte, so that filling the window makes nothing late. */
  lemma FillWindowLate(s: Sender)
    requires s.Core()
    ensures s.FillWindow().Late() <==> s.Late()
  {
    hide Chain, AllSent, Reaches, Emits, Sender.SendData, Sender.FillLoop;
    if !s.NothingToSend() && s.syn && !s.stream.Eof() {
      var _ := FillLoopKeeps(s, s.Space());
    }
  }

  /** A call stays inside the peer's window exactly when it starts inside it or has nothing to
      send. A window that shrank below what is in flight makes the unsigned subtraction wrap, and
      then data goes out although there is no room. */
  lemma FillWindowStaysInside(s: Sender)
    requires s.Core() && s.InFlight() < TWO64 && s.window < TWO16
    ensures var s' := s.FillWindow();
            (s'.next == s.next || s'.InFlight() <= s'.window) <==> (s.InFlight() <= s.window || s.NothingToSend())
    ensures s.InFlight() <= s.window <==> s.FillWindow().InFlight() <= s.FillWindow().window
  {
    hide Chain, AllSent, Reaches, Emits, Sender.SendData, Sender.FillLoop;
    if s.NothingToSend() {
    } else if !s.syn {
      SendSynKeeps(s);
    } else if s.stream.Eof() {
    } else {
      var added := FillLoopKeeps(s, s.Space());
      EmitsFrame(s, s.FillWindow(), added);
    }
  }

  lemma EmitsFrame(s: Sender, s': Sender, added: seq<Slot>)
    requires Emits(s, s', added)
    ensures s'.window == s.window && s'.base == s.base && s'.isn == s.isn && s.next <= s'.next
    ensures s'.initialRto == s.initialRto && s'.retx == s.retx && s'.windowZero == s.windowZero
    ensures s'.queue == s.queue + added && s'.copies == s.copies + added
    ensures s.stream.Valid() && s'.stream.Valid() && s.Sent().GrowsTo(s'.Sent()) && AllSent(added, s'.Sent())
    ensures s'.stream == s.stream.(taken := s'.stream.taken)
    ensures s'.timer == if s.timer.running || added == [] then s.timer else Timer(true, 0, s.initialRto)
  {
  }

  /** Once the SYN is out, a call leaves no room unused: the window is full, the FIN is sent, or
      the stream is drained and still open. */
  lemma FillWindowIsMaximal(s: Sender)
    requires s.Core() && s.syn && s.InFlight() < TWO64 && s.window < TWO16
    ensures var s' := s.FillWindow();
            s'.InFlight() >= s'.window || s'.fin || (s'.stream.Buffered() == 0 && !s'.stream.ended)
  {
    hide Chain, AllSent, Reaches, Emits, Sender.SendData, Sender.FillLoop;
    if !s.NothingToSend() && !s.stream.Eof() {
      var added := FillLoopKeeps(s, s.Space());
      EmitsFrame(s, s.FillWindow(), added);
    }
  }

  /** All payloads but the last are as long as a payload may be: one is cut short only by the end of the space or of
      the bytes at hand. */
  lemma {:induction false} FillLoopSendsFull(s: Sender, rem: nat)
    requires s.stream.Valid()
    ensures var s' := s.FillLoop(rem);
            s.copies <= s'.copies && forall i | |s.copies| <= i < |s'.copies| - 1 :: |s'.copies[i].seg.payload| == MAX_PAYLOAD_SIZE
    decreases s.stream.Buffered()
  {
    if rem != 0 && s.stream.Buffered() != 0 {
      var t := s.SendData(rem);
      FillLoopSendsFull(t, rem - (t.next - s.next));
    }
  }

  lemma FillWindowSendsFull(s: Sender)
    requires s.stream.Valid()
    ensures var s' := s.FillWindow();
            s.copies <= s'.copies && forall i | |s.copies| <= i < |s'.copies| - 1 :: |s'.copies[i].seg.payload| == MAX_PAYLOAD_SIZE
  {
    hide Sender.FillLoop;
    FillLoopSendsFull(s, s.Space());
  }

  // ---------------------------------------------------------------------------------------
  // Acknowledgments
  // ---------------------------------------------------------------------------------------

  /** Popping removes a prefix, and never a segment that is not wholly acknowledged: numbers far
      behind `next` are unwrapped too high, not too low. */
  lemma {:induction false} PopKeeps(copies: seq<Slot>, sent: Sent, next: nat, abs: nat) returns (k: nat)
    requires Chain(copies, next) && AllSent(copies, sent)
    requires next < TWO64 - TWO32 && abs <= next && Reaches(copies, abs, next)
    ensures k <= |copies| && PopAcked(copies, sent.isn, next, abs) == copies[k..]
    ensures Chain(copies[k..], next) && AllSent(copies[k..], sent) && Reaches(copies[k..], abs, next)
  {
    if copies != [] {
      var c := copies[0];
      ChainBelow(copies, next);
      UnwrapNotBelow(c.abs, sent.isn, next);
      if Unwrap(c.seg.header.seqno, sent.isn, next) + c.seg.Length() <= abs {
        ChainTail(copies, next);
        var j := PopKeeps(copies[1..], sent, next, abs);
        k := j + 1;
        assert copies[1..][j..] == copies[k..];
      } else {
        k := 0;
      }
    } else {
      k := 0;
    }
  }

  lemma ChainTail(copies: seq<Slot>, next: nat)
    requires Chain(copies, next) && copies != []
    ensures Chain(copies[1..], next)
    ensures copies[1..] != [] ==> copies[1].abs == copies[0].End()
    ensures copies[1..] == [] ==> copies[0].End() == next
  {
    assert copies[0].End() == Following(copies, 0, next);
    var tail := copies[1..];
    forall i | 0 <= i < |tail|
      ensures tail[i].End() == Following(tail, i, next)
    {
      assert tail[i] == copies[i + 1];
    }
  }

  lemma {:induction false} FrontWithin(copies: seq<Slot>, next: nat)
    requires Chain(copies, next) && copies != []
    ensures copies[0].End() <= next
    decreases |copies|
  {
    ChainTail(copies, next);
    if |copies| > 1 {
      FrontWithin(copies[1..], next);
    }
  }

  lemma {:induction false} ChainBelow(copies: seq<Slot>, next: nat)
    requires Chain(copies, next) && copies != []
    ensures copies[0].End() <= next
    decreases |copies|
  {
    ChainTail(copies, next);
    if copies[1..] != [] {
      ChainBelow(copies[1..], next);
    }
  }

  /** With less than half the sequence space in the chain, exactly the acknowledged segments go. */
  lemma {:induction false} PopStraddles(copies: seq<Slot>, sent: Sent, next: nat, abs: nat)
    requires Chain(copies, next) && AllSent(copies, sent)
    requires next < TWO64 - TWO32 && abs <= next
    requires copies != [] ==> next - copies[0].abs < TWO31
    ensures var rest := PopAcked(copies, sent.isn, next, abs);
            rest != [] ==> abs < rest[0].End() <= next
    decreases |copies|
  {
    if copies != [] {
      var c := copies[0];
      ChainBelow(copies, next);
      ChainTail(copies, next);
      UnwrapWrap(c.abs, sent.isn, next);
      PopStraddles(copies[1..], sent, next, abs);
    }
  }

  // ---------------------------------------------------------------------------------------
  // Every operation
  // ---------------------------------------------------------------------------------------

  ghost predicate AllGenuine(slots: seq<Slot>, sent: Sent) {
    forall i | 0 <= i < |slots| :: Genuine(slots[i].seg, slots[i].abs, sent) && slots[i].Plain()
  }

  /** Every copy was there before or is among the segments `out`. */
  ghost predicate Backed(copies: seq<Slot>, before: seq<Slot>, out: seq<Slot>) {
    forall slot <- copies :: slot in before || slot in out
  }

  /** `s'` comes after `s`; the segments `out` were queued in between and are genuine. */
  ghost predicate Advances(s: Sender, s': Sender, out: seq<Slot>) {
    && s.stream.Valid() && s'.stream.Valid()
    && s'.isn == s.isn && s'.initialRto == s.initialRto
    && s.Sent().GrowsTo(s'.Sent())
    && s'.stream == s.stream.(taken := s'.stream.taken)
    && s.base <= s'.base && s.next <= s'.next
    && s'.queue == s.queue + out && AllGenuine(out, s'.Sent())
    && Backed(s'.copies, s.copies, out)
  }

  lemma EmitsTimer(s: Sender, s': Sender, added: seq<Slot>)
    requires Emits(s, s', added) && s.TimerOk()
    ensures s'.TimerOk()
  {
  }

  lemma FillWindowAdvances(s: Sender) returns (out: seq<Slot>)
    requires s.Valid()
    ensures s.FillWindow().Valid() && Advances(s, s.FillWindow(), out)
  {
    hide Genuine, Sender.FillWindow, Sender.Core, Sender.TimerOk;
    out := FillWindowKeeps(s);
    EmitsTimer(s, s.FillWindow(), out);
  }

  /** A tick sends the oldest copy again exactly when the timer has run out, and nothing else. */
  lemma TickAdvances(s: Sender, ms: nat) returns (out: seq<Slot>)
    requires s.Valid()
    ensures s.Tick(ms).Valid() && Advances(s, s.Tick(ms), out)
    ensures s.Tick(ms).base == s.base && s.Tick(ms).next == s.next && s.Tick(ms).fin == s.fin
    ensures s.Tick(ms).copies == s.copies && s.Tick(ms).window == s.window
    ensures s.retx <= s.Tick(ms).retx <= s.retx + 1
    ensures out == if s.copies != [] && s.timer.total + ms >= s.timer.rto then [s.copies[0]] else []
    ensures out != [] ==>
              && s.Tick(ms).retx == s.retx + (if s.windowZero then 0 else 1)
              && s.Tick(ms).timer == Timer(true, 0, if s.windowZero then s.timer.rto else 2 * s.timer.rto)
  {
    hide Genuine, Chain;
    var s' := s.Tick(ms);
    out := s'.queue[|s.queue|..];
    assert s'.queue == s.queue + out;
  }

  lemma EmptyAdvances(s: Sender)
    requires s.Valid()
    ensures var s' := s.SendEmpty();
            && s'.Valid() && |s'.queue| == |s.queue| + 1
            && var slot := s'.queue[|s.queue|];
               && Advances(s, s', [slot])
               && slot.abs == s.next && slot.seg.Length() == 0 && s' == s.(queue := s.queue + [slot])
  {
    hide Chain, AllSent;
  }

  /** What an acknowledgment does before the window is filled again. */
  function TakeAck(s: Sender, abs: nat, win: U16): Sender {
    s.(window := if win == 0 then 1 else win, windowZero := win == 0,
       base := abs, copies := PopAcked(s.copies, s.isn, s.next, abs))
  }

  lemma TakeAckKeeps(s: Sender, abs: nat, win: U16)
    requires s.Core() && s.base < abs <= s.next < TWO64 - TWO32
    ensures TakeAck(s, abs, win).Core()
  {
    hide Genuine;
    var k := PopKeeps(s.copies, s.Sent(), s.next, abs);
  }

  /** Any acknowledgment, from anyone, keeps the sender well formed; it moves the base exactly when
      it lies between the base and the next number, and only then restarts the timer afresh. The
      window is taken from every acknowledgment that does not lie beyond the next number. */
  lemma AckAdvances(s: Sender, ackno: U32, win: U16) returns (out: seq<Slot>)
    requires s.Valid() && s.next < TWO64 - TWO32
    ensures var s' := s.AckReceived(ackno, win);
            && s'.Valid() && Advances(s, s', out)
            && s'.base == (if s.base < s.Acked(ackno) <= s.next then s.Acked(ackno) else s.base)
            && (s.Acked(ackno) <= s.next ==> s'.window == Max(1, win) && s'.windowZero == (win == 0))
            && (s.base < s'.base ==> s'.retx == 0 && s'.timer.total == 0 && (s'.timer.running ==> s'.timer.rto == s.initialRto))
            && (s.next < s.Acked(ackno) ==> s' == s)
  {
    hide Genuine, Chain, AllSent, Reaches, Sender.FillWindow, Emits, PopAcked;
    var abs := s.Acked(ackno);
    var s' := s.AckReceived(ackno, win);
    if s.base < abs <= s.next {
      var t := TakeAck(s, abs, win);
      TakeAckKeeps(s, abs, win);
      out := FillWindowKeeps(t);
      EmitsFrame(t, t.FillWindow(), out);
      AllSentIsGenuine(out, s'.Sent());
      PopSubset(s.copies, s.isn, s.next, abs);
    } else {
      out := [];
      assert s.queue + [] == s.queue;
    }
  }

  lemma {:induction false} PopSubset(copies: seq<Slot>, isn: U32, next: nat, abs: nat)
    ensures forall slot <- PopAcked(copies, isn, next, abs) :: slot in copies
  {
    if copies != [] {
      PopSubset(copies[1..], isn, next, abs);
    }
  }

  lemma AllSentIsGenuine(slots: seq<Slot>, sent: Sent)
    requires AllSent(slots, sent)
    ensures AllGenuine(slots, sent)
  {
    hide Genuine;
  }

  /** While less than half the sequence space is in flight, the oldest copy straddles the base. */
  /** An acknowledgment that moves the base makes the sender use the room it gives: afterwards the window is full, the FIN
      is sent, or the stream is drained and open. */
  lemma AckRefills(s: Sender, ackno: U32, win: U16)
    requires s.Valid() && s.syn && s.base < s.Acked(ackno) <= s.next < TWO64 - TWO32
    ensures s.stream.Valid()
    ensures var s' := s.AckReceived(ackno, win);
            s'.InFlight() >= s'.window || s'.fin || (s'.stream.Buffered() == 0 && !s'.stream.ended)
  {
    hide Chain, AllSent, Reaches, Sender.FillWindow, PopAcked, Sender.Acked, Sender.TimerOk;
    TakeAckKeeps(s, s.Acked(ackno), win);
    FillWindowIsMaximal(TakeAck(s, s.Acked(ackno), win));
  }

  lemma AckStraddles(s: Sender, ackno: U32, win: U16)
    requires s.Valid() && s.Straddles() && s.next < TWO64 - TWO32
    requires s.InFlight() + MAX_PAYLOAD_SIZE + 2 <= TWO31
    ensures s.AckReceived(ackno, win).Straddles()
  {
    hide Genuine, Emits, Sender.FillWindow;
    var abs := s.Acked(ackno);
    if s.base < abs <= s.next {
      var t := TakeAck(s, abs, win);
      TakeAckKeeps(s, abs, win);
      PopStraddles(s.copies, s.Sent(), s.next, abs);
      var out := FillWindowKeeps(t);
      FillStraddles(t, out);
    }
  }

  lemma FillStraddles(s: Sender, added: seq<Slot>)
    requires s.Core() && s.Straddles() && s.FillWindow().Core() && Emits(s, s.FillWindow(), added)
    ensures s.FillWindow().Straddles()
  {
    hide Genuine, Sender.FillWindow, Payloads;
    var s' := s.FillWindow();
    if s.copies == [] && added != [] {
      ChainBelow(s'.copies, s'.next);
    } else if s.copies != [] {
      assert s'.copies[0] == s.copies[0];
      ChainBelow(s'.copies, s'.next);
    }
  }

  lemma AckLate(s: Sender, ackno: U32, win: U16)
    requires s.Valid() && s.stream.Valid() && s.next < TWO64 - TWO32
    ensures s.AckReceived(ackno, win).Late() <==> s.Late()
  {
    hide Chain, AllSent, Reaches, Sender.FillWindow, PopAcked, Sender.TimerOk;
    var abs := s.Acked(ackno);
    if s.base < abs <= s.next {
      TakeAckKeeps(s, abs, win);
      FillWindowLate(TakeAck(s, abs, win));
    }
  }
}
