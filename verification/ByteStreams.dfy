/** The bounded in-order byte stream that both directions share (libsponge/byte_stream.cc).

    `Stream` is the specification: every byte ever written, and how many of them were read.
    The class keeps only the unread bytes and two counters, as the code does. */
module ByteStreams {
  import opened Machine

  datatype Stream = Stream(all: seq<Byte>, taken: nat, cap: nat, ended: bool, error: bool) {
    ghost predicate Valid() {
      taken <= |all| <= taken + cap
    }

    function Buffered(): int {
      |all| - taken
    }

    predicate Eof() {
      ended && |all| == taken
    }

    function Accepted(data: seq<Byte>): seq<Byte>
      requires Valid()
    {
      data[..Min(|data|, cap - Buffered())]
    }

    function Write(data: seq<Byte>): Stream
      requires Valid()
    {
      this.(all := all + Accepted(data))
    }

    function Chunk(len: nat): seq<Byte>
      requires Valid()
    {
      all[taken..taken + Min(len, Buffered())]
    }

    function Read(len: nat): Stream
      requires Valid()
    {
      this.(taken := taken + Min(len, Buffered()))
    }

    function EndInput(): Stream {
      this.(ended := true)
    }

    function SetError(): Stream {
      this.(error := true)
    }
  }

  function NewStream(cap: nat): (s: Stream)
    ensures s.Valid()
  {
    Stream([], 0, cap, false, false)
  }

  /** A write takes the first bytes of the data, as many as fit: all of them, or until the stream is full. */
  lemma WriteTakesFront(s: Stream, data: seq<Byte>)
    requires s.Valid()
    ensures var s' := s.Write(data);
            var n := |s'.all| - |s.all|;
            && 0 <= n <= |data| && s' == s.(all := s.all + data[..n]) && s'.Valid()
            && (n < |data| ==> s'.Buffered() == s.cap)
  {
  }

  /** A write that fits is not cut short. */
  lemma WriteFits(s: Stream, data: seq<Byte>)
    requires s.Valid() && |data| <= s.cap - s.Buffered()
    ensures s.Write(data) == s.(all := s.all + data)
  {
  }

  // ---- A writer that goes on where it was cut short ----

  /** The writer hands in up to `n` of the bytes it has left, or the reader takes up to `len`. */
  datatype Turn = Offer(n: nat) | Take(len: nat)

  /** The stream after the turns, and what the writer has left of `rest`: after each write it drops as many bytes
      as the stream says it took. */
  function Play(s: Stream, rest: seq<Byte>, turns: seq<Turn>): (Stream, seq<Byte>)
    requires s.Valid()
    decreases |turns|
  {
    if turns == [] then (s, rest)
    else match turns[0]
      case Take(len) => Play(s.Read(len), rest, turns[1..])
      case Offer(n) =>
        var t := s.Write(rest[..Min(n, |rest|)]);
        WriteTakesFront(s, rest[..Min(n, |rest|)]);
        Play(t, rest[|t.all| - |s.all|..], turns[1..])
  }

  /** Whatever the sizes of the writes and however little room there is, the bytes stored are the data from its
      beginning, each once and in order, and the writer has the rest left. */
  lemma {:induction false} WritesResume(s: Stream, rest: seq<Byte>, turns: seq<Turn>)
    requires s.Valid()
    ensures var (s', rest') := Play(s, rest, turns); s'.Valid() && s'.all + rest' == s.all + rest && |rest'| <= |rest|
    decreases |turns|
  {
    hide Stream.Write;
    if turns != [] {
      if turns[0].Take? {
        WritesResume(s.Read(turns[0].len), rest, turns[1..]);
      } else {
        var piece := rest[..Min(turns[0].n, |rest|)];
        var t := s.Write(piece);
        WriteTakesFront(s, piece);
        var n := |t.all| - |s.all|;
        WritesResume(t, rest[n..], turns[1..]);
        assert piece[..n] == rest[..n];
        assert s.all + rest[..n] + rest[n..] == s.all + rest;
      }
    }
  }

  /** Reading chunk after chunk yields the written bytes, whatever the chunk sizes. */
  function ReadAll(s: Stream, lens: seq<nat>): seq<Byte>
    requires s.Valid()
    decreases |lens|
  {
    if lens == [] then [] else s.Chunk(lens[0]) + ReadAll(s.Read(lens[0]), lens[1..])
  }

  lemma {:induction false} ReadsAreAPrefix(s: Stream, lens: seq<nat>)
    requires s.Valid()
    ensures ReadAll(s, lens) <= s.all[s.taken..]
    decreases |lens|
  {
    if lens != [] {
      var t := s.Read(lens[0]);
      ReadsAreAPrefix(t, lens[1..]);
      assert s.all[s.taken..] == s.Chunk(lens[0]) + t.all[t.taken..];
    }
  }

  class ByteStream {
    var buf: seq<Byte>
    const cap: nat
    var eof: bool
    var written: nat
    var read: nat
    var error: bool
    ghost var all: seq<Byte>

    ghost predicate Valid()
      reads this
    {
      read <= written == |all| && buf == all[read..] && |buf| <= cap
    }

    ghost function State(): (s: Stream)
      reads this
      requires Valid()
      ensures s.Valid()
    {
      Stream(all, read, cap, eof, error)
    }

    constructor (capacity: nat)
      ensures Valid() && State() == NewStream(capacity) && cap == capacity
    {
      buf, cap, eof, written, read, error := [], capacity, false, 0, 0, false;
      all := [];
    }

    function RemainingCapacity(): (r: int)
      reads this
    {
      if cap - |buf| > 0 then cap - |buf| else 0
    }

    method Write(data: seq<Byte>) returns (bw: nat)
      requires Valid()
      modifies this
      ensures Valid() && State() == old(State()).Write(data)
      ensures bw == Min(|data|, cap - |old(buf)|) && buf == old(buf) + data[..bw] && all == old(all) + data[..bw]
    {
      bw := if |data| > RemainingCapacity() then RemainingCapacity() else |data|;
      buf := buf + data[..bw];
      written := written + bw;
      all := all + data[..bw];
    }

    method PeekOutput(len: nat) returns (r: seq<Byte>)
      requires Valid()
      ensures r == State().Chunk(len) == buf[..Min(len, |buf|)]
    {
      r := buf[..if len <= |buf| then len else |buf|];
    }

    /** The counter moves by `len` whatever was there, so that the stream stays consistent exactly when
        that much was unread. */
    method PopOutput(len: nat)
      requires Valid()
      modifies this
      ensures Valid() <==> len <= |old(buf)|
      ensures Valid() ==> State() == old(State()).Read(len)
      ensures buf == old(buf)[Min(len, |old(buf)|)..] && read == old(read) + len
      ensures written == old(written) && eof == old(eof) && error == old(error) && all == old(all)
    {
      buf := buf[Min(len, |buf|)..];
      read := read + len;
    }

    method Read(len: nat) returns (r: seq<Byte>)
      requires Valid()
      modifies this
      ensures Valid() && State() == old(State()).Read(len)
      ensures r == old(State()).Chunk(len) == old(buf)[..Min(len, |old(buf)|)]
    {
      var b := if len > |buf| then |buf| else len;
      r := PeekOutput(b);
      PopOutput(b);
    }

    method EndInput()
      requires Valid()
      modifies this
      ensures Valid() && State() == old(State()).EndInput()
    {
      eof := true;
    }

    method SetError()
      requires Valid()
      modifies this
      ensures Valid() && State() == old(State()).SetError()
    {
      error := true;
    }
  }
}
