/** What the applications see: the bytes that one hands in at `s.a` and those that the other reads at `s.b`. */
module Transfers {
  import opened Machine
  import opened ByteStreams
  import opened Receivers
  import opened Senders
  import opened Connections
  import opened ConnectionSteps
  import opened ConnectionEffects
  import opened SenderEffects
  import opened Protocol
  import opened Theorems

  /** The first `n` bytes, or all if there are fewer. */
  function Front(data: seq<Byte>, n: int): seq<Byte> {
    if n <= 0 then [] else data[..Min(|data|, n)]
  }

  // ---------------------------------------------------------------------------------------
  // One operation
  // ---------------------------------------------------------------------------------------

  /** What an operation takes from the application: of a write as much as there is room for. */
  function HandedBy(c: Connection, op: Op): seq<Byte> {
    if op.Write? then Front(op.data, c.sender.stream.cap - c.sender.stream.Buffered()) else []
  }

  /** What an operation gives to the application: to a reader the next unread bytes. */
  function GotBy(c: Connection, op: Op): seq<Byte> {
    var out := c.receiver.reasm.out;
    if op.Read? && out.taken <= |out.all| then Front(out.all[out.taken..], op.n) else []
  }

  lemma WrittenBy(c: Connection, op: Op)
    requires Endpoint(c) && c.Wf() && Permitted(c, op)
    ensures Do(c, op).sender.stream.all == c.sender.stream.all + HandedBy(c, op)
  {
    hide Endpoint, Do, SStateOf, PopAcked, Sender.Acked, Fitted, Permitted;
    OpGrew(c, op);
    if op.Write? {
      WriteTakesFront(c.sender.stream, op.data);
    }
  }

  /** The inbound stream only grows, and is taken from only by what the reader gets. */
  lemma ReadBy(c: Connection, op: Op)
    requires Endpoint(c) && c.Wf() && Permitted(c, op)
    ensures var (o, o') := (c.receiver.reasm.out, Do(c, op).receiver.reasm.out);
            && o.taken <= |o.all| && o.all <= o'.all
            && o'.taken == o.taken + |GotBy(c, op)| <= |o'.all|
            && GotBy(c, op) == o'.all[o.taken..o'.taken]
  {
    hide Endpoint, Do, Permitted;
    if op.Read? {
      ReaderTakes(c, op.n);
    } else {
      OthersTakeNothing(c, op);
    }
  }

  lemma ReaderTakes(c: Connection, n: nat)
    requires c.Wf()
    ensures var (o, o') := (c.receiver.reasm.out, Do(c, Read(n)).receiver.reasm.out);
            && o.taken <= |o.all| && o'.all == o.all
            && o'.taken == o.taken + |GotBy(c, Read(n))| <= |o'.all|
            && GotBy(c, Read(n)) == o'.all[o.taken..o'.taken]
  {
    hide Connection.SegmentReceived, Connection.Tick, Connection.Write, Connection.EndInputStream, Connection.Connect, Connection.Destroy;
    var o := c.receiver.reasm.out;
    assert Front(o.all[o.taken..], n) == o.all[o.taken..o.taken + Min(n, o.Buffered())];
  }

  lemma OthersTakeNothing(c: Connection, op: Op)
    requires Endpoint(c) && c.Wf() && Permitted(c, op) && !op.Read?
    ensures var (o, o') := (c.receiver.reasm.out, Do(c, op).receiver.reasm.out);
            o.taken <= |o.all| && o.all <= o'.all && o'.taken == o.taken
  {
    hide Endpoint, Connection.SegmentReceived, Connection.Tick, Connection.Write, Connection.EndInputStream, Connection.Connect,
         Connection.Destroy, Sender.AckReceived, Connection.Absorb, SStateOf, RStateOf, Receiver.SegmentReceived;
    if op.Deliver? {
      DeliverHas(c, op.seg);
      AbsorbedReceiver(Clocked(c, op), op.seg);
      ReceivedValid(c.receiver, op.seg);
    } else {
      OpQuiet(c, op);
    }
  }

  // ---------------------------------------------------------------------------------------
  // Every history
  // ---------------------------------------------------------------------------------------

  /** What the application at `a` has handed in, by the counts that `write` returned. */
  ghost function Handed(run: seq<System>, moves: seq<Move>, n: nat): seq<Byte>
    requires n <= |moves| && n <= |run|
  {
    if n == 0 then []
    else Handed(run, moves, n - 1) + if moves[n - 1].byA then HandedBy(run[n - 1].a, moves[n - 1].op) else []
  }

  /** What the application at `b` has read. */
  ghost function Got(run: seq<System>, moves: seq<Move>, n: nat): seq<Byte>
    requires n <= |moves| && n <= |run|
  {
    if n == 0 then []
    else Got(run, moves, n - 1) + if moves[n - 1].byA then [] else GotBy(run[n - 1].b, moves[n - 1].op)
  }

  /** Every write at `a` goes on with `data` where the last one was cut short. */
  ghost predicate Resumes(run: seq<System>, moves: seq<Move>, n: nat, data: seq<Byte>)
    requires n <= |moves| && n <= |run|
  {
    forall i | 0 <= i < n && moves[i].byA && moves[i].op.Write? ::
      |Handed(run, moves, i)| <= |data| && moves[i].op.data <= data[|Handed(run, moves, i)|..]
  }

  lemma {:induction false} StreamIsHanded(run: seq<System>, moves: seq<Move>, n: nat)
    requires IsHistory(run, moves) && n < |run|
    ensures run[n].a.sender.stream.all == Handed(run, moves, n)
  {
    hide Init, HandedBy, Inv, Makes;
    if n == 0 {
      FirstStreams(run[0]);
    } else {
      StreamIsHanded(run, moves, n - 1);
      HistoryInv(run, moves, n - 1);
      StreamStep(run[n - 1], moves[n - 1], run[n]);
    }
  }

  lemma HistoryInv(run: seq<System>, moves: seq<Move>, n: nat)
    requires IsHistory(run, moves) && n < |moves|
    ensures Inv(run[n]) && Makes(run[n], moves[n], run[n + 1])
  {
    hide Init, Inv, Makes, Reachable;
    HistoryReach(run, moves, n);
    ReachableInv(run[n]);
  }

  lemma StreamStep(s: System, m: Move, s': System)
    requires Inv(s) && Makes(s, m, s')
    ensures s'.a.sender.stream.all == s.a.sender.stream.all + if m.byA then HandedBy(s.a, m.op) else []
  {
    hide Endpoint, Link, Do, HandedBy, Permitted, Timely;
    if m.byA {
      WrittenBy(s.a, m.op);
    }
  }

  lemma {:induction false} ReadIsGot(run: seq<System>, moves: seq<Move>, n: nat)
    requires IsHistory(run, moves) && n < |run|
    ensures var out := run[n].b.receiver.reasm.out;
            out.taken <= |out.all| && Got(run, moves, n) == out.all[..out.taken]
  {
    hide Init, GotBy, Inv, Makes;
    if n == 0 {
      FirstStreams(run[0]);
    } else {
      ReadIsGot(run, moves, n - 1);
      HistoryInv(run, moves, n - 1);
      ReadStep(run[n - 1], moves[n - 1], run[n]);
    }
  }

  lemma ReadStep(s: System, m: Move, s': System)
    requires Inv(s) && Makes(s, m, s') && s.b.receiver.reasm.out.taken <= |s.b.receiver.reasm.out.all|
    ensures var (o, o') := (s.b.receiver.reasm.out, s'.b.receiver.reasm.out);
            var got := if m.byA then [] else GotBy(s.b, m.op);
            o'.taken <= |o'.all| && o'.all[..o'.taken] == o.all[..o.taken] + got
  {
    hide Endpoint, Link, Do, GotBy, Permitted, Timely;
    if !m.byA {
      ReadBy(s.b, m.op);
    }
    var o, o' := s.b.receiver.reasm.out, s'.b.receiver.reasm.out;
    assert o'.all[..o'.taken] == o'.all[..o.taken] + o'.all[o.taken..o'.taken];
  }

  lemma FirstStreams(s: System)
    requires Init(s)
    ensures s.a.sender.stream.all == [] && s.b.receiver.reasm.out.all == [] && s.b.receiver.reasm.out.taken == 0
  {
  }

  lemma {:induction false} HandedResumes(run: seq<System>, moves: seq<Move>, n: nat, data: seq<Byte>)
    requires n <= |moves| && n <= |run| && Resumes(run, moves, n, data)
    ensures Handed(run, moves, n) <= data
  {
    if n > 0 {
      HandedResumes(run, moves, n - 1, data);
      var before := Handed(run, moves, n - 1);
      if moves[n - 1].byA && moves[n - 1].op.Write? {
        var more := HandedBy(run[n - 1].a, moves[n - 1].op);
        assert more <= moves[n - 1].op.data <= data[|before|..];
        assert before == data[..|before|];
        assert before + more == data[..|before| + |more|];
      }
    }
  }

  /** End to end, in the applications' terms. Over a network that loses, duplicates and reorders, what has been read
      at `b` is a prefix of what was handed in at `a`, which is a prefix of the data the writer goes through. A
      reader that has met the end has read all that was handed in, exactly if nothing was accepted after the
      FIN; and the whole data, if it was handed in to the last byte. */
  lemma ReaderGetsWhatWriterGave(run: seq<System>, moves: seq<Move>, n: nat, data: seq<Byte>)
    requires IsHistory(run, moves) && n < |run| && Resumes(run, moves, n, data)
    ensures Got(run, moves, n) <= Handed(run, moves, n) <= data
    ensures run[n].b.receiver.reasm.out.Eof() ==>
              && run[n].a.sender.stream.ended && run[n].a.sender.fin
              && (Got(run, moves, n) == Handed(run, moves, n) <==> !run[n].a.sender.Late())
              && (!run[n].a.sender.Late() && |Handed(run, moves, n)| == |data| ==> Got(run, moves, n) == data)
  {
    hide Resumes, Makes, Init, Handed, Got, Sender.Late, Reachable;
    StreamIsHanded(run, moves, n);
    ReadIsGot(run, moves, n);
    HandedResumes(run, moves, n, data);
    HistoryReach(run, moves, n);
    EndToEndSafety(run[n]);
    var out := run[n].b.receiver.reasm.out;
    assert out.Eof() ==> out.all[..out.taken] == out.all;
  }

  // ---------------------------------------------------------------------------------------
  // The other direction
  // ---------------------------------------------------------------------------------------

  function Swaps(run: seq<System>): seq<System> {
    seq(|run|, i requires 0 <= i < |run| => run[i].Swap())
  }

  function Flips(moves: seq<Move>): seq<Move> {
    seq(|moves|, i requires 0 <= i < |moves| => moves[i].(byA := !moves[i].byA))
  }

  /** Every history is one with the endpoints exchanged, so that all of this holds from `b` to `a` as well. */
  lemma Mirrors(run: seq<System>, moves: seq<Move>)
    requires IsHistory(run, moves)
    ensures IsHistory(Swaps(run), Flips(moves))
  {
    hide Moves, Fresh;
    var run', moves' := Swaps(run), Flips(moves);
    forall i | 0 <= i < |moves'| ensures Makes(run'[i], moves'[i], run'[i + 1]) {
      assert Makes(run[i], moves[i], run[i + 1]);
      assert run'[i].Swap() == run[i] && run'[i + 1].Swap() == run[i + 1];
    }
  }
}
