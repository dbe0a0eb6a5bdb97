/**
 Cutting a byte stream into blocks. The first half says what the blocks of a stream
 are; the second half says what single calls of the two buffering writers do to
 "blocks out, bytes pending" and proves what follows for whole call sequences.
 */
module Chunking {
  import opened Basics

  function Blocks(x: Bytes, size: nat): seq<Bytes>
    requires size > 0
  {
    if |x| < size then [] else [x[..size]] + Blocks(x[size..], size)
  }

  function Rest(x: Bytes, size: nat): (r: Bytes)
    requires size > 0
    ensures |r| < size
  {
    if |x| < size then x else Rest(x[size..], size)
  }

  /** The blocks of a whole stream: full ones, and a shorter non-empty last one if bytes remain. */
  function Cut(x: Bytes, size: nat): seq<Bytes>
    requires size > 0
  {
    Blocks(x, size) + if Rest(x, size) == [] then [] else [Rest(x, size)]
  }

  predicate AllOfSize(bs: seq<Bytes>, size: nat) {
    forall i :: 0 <= i < |bs| ==> |bs[i]| == size
  }

  lemma {:induction false} BlocksPartition(x: Bytes, size: nat)
    requires size > 0
    ensures AllOfSize(Blocks(x, size), size)
    ensures Flatten(Blocks(x, size)) + Rest(x, size) == x
    ensures |Rest(x, size)| == |x| % size
  {
    if |x| >= size {
      BlocksPartition(x[size..], size);
      ModOneTurn(|x|, size);
    }
  }

  lemma ModOneTurn(n: nat, size: nat)
    requires size > 0 && n >= size
    ensures n % size == (n - size) % size
  {
    var q, r := (n - size) / size, (n - size) % size;
    assert n == size * (q + 1) + r;
    ModUnique(n, size, q + 1, r);
  }

  /** Full blocks with a shorter rest can come from one stream in only one way. */
  lemma {:induction false} BlocksUnique(bs: seq<Bytes>, rest: Bytes, size: nat)
    requires size > 0 && AllOfSize(bs, size) && |rest| < size
    ensures Blocks(Flatten(bs) + rest, size) == bs
    ensures Rest(Flatten(bs) + rest, size) == rest
  {
    if bs != [] {
      var x := Flatten(bs) + rest;
      assert x == bs[0] + (Flatten(bs[1..]) + rest);
      assert x[..size] == bs[0] && x[size..] == Flatten(bs[1..]) + rest;
      BlocksUnique(bs[1..], rest, size);
    }
  }

  /** A stream is its blocks; only the last may be short, and it is so unless size divides. */
  lemma CutPartition(x: Bytes, size: nat)
    requires size > 0
    ensures Flatten(Cut(x, size)) == x
    ensures forall i :: 0 <= i < |Cut(x, size)| ==> 0 < |Cut(x, size)[i]| <= size
    ensures forall i :: 0 <= i < |Cut(x, size)| - 1 ==> |Cut(x, size)[i]| == size
    ensures Rest(x, size) != [] <==> |x| % size != 0
  {
    BlocksPartition(x, size);
    if Rest(x, size) != [] {
      FlattenSnoc(Blocks(x, size), Rest(x, size));
    } else {
      assert Cut(x, size) == Blocks(x, size);
    }
  }

  /* ---- What one call does ---- */

  /** Blocks handed on so far, and bytes still in the buffer. */
  datatype BlockState = BlockState(out: seq<Bytes>, pending: Bytes)

  /** A call with what it returned. `n` counts the bytes Write reports as accepted. */
  datatype Event = Wrote(p: Bytes, n: nat, ok: bool) | Closed(ok: bool)

  function Stream(s: BlockState): Bytes {
    Flatten(s.out) + s.pending
  }

  predicate EmitsFull(size: nat, s: BlockState, s': BlockState) {
    s.out <= s'.out && AllOfSize(s'.out[|s.out|..], size)
  }

  predicate CloseStep(s: BlockState, ok: bool, s': BlockState) {
    if s.pending == [] then ok && s' == s
    else s' == if ok then BlockState(s.out + [s.pending], []) else s
  }

  /** blockWriter: a failed Write has taken in exactly p[..n], and its buffer is full. */
  predicate WriterStep(size: nat, s: BlockState, e: Event, s': BlockState) {
    match e
    case Wrote(p, n, ok) =>
      && n <= |p| && EmitsFull(size, s, s')
      && Stream(s') == Stream(s) + p[..n]
      && (if ok then n == |p| && (if p == [] then s' == s else |s'.pending| < size)
          else |s'.pending| == size)
    case Closed(ok) => CloseStep(s, ok, s')
  }

  /** blockSinkEncoder: a failed Write has taken in all of p, and reports 0. */
  predicate EncoderStep(size: nat, s: BlockState, e: Event, s': BlockState) {
    match e
    case Wrote(p, n, ok) =>
      && EmitsFull(size, s, s')
      && Stream(s') == Stream(s) + p
      && (if ok then n == |p| && |s'.pending| < size else n == 0 && |s'.pending| >= size)
    case Closed(ok) => CloseStep(s, ok, s')
  }

  datatype Kind = Writer | Encoder

  predicate CallStep(kind: Kind, size: nat, s: BlockState, e: Event, s': BlockState) {
    match kind
    case Writer => WriterStep(size, s, e, s')
    case Encoder => EncoderStep(size, s, e, s')
  }

  /** Part of the way through a Write from s0: n bytes of p are in, only full blocks went out. */
  predicate Progress(size: nat, s0: BlockState, p: Bytes, n: nat, s: BlockState) {
    n <= |p| && EmitsFull(size, s0, s) && Stream(s) == Stream(s0) + p[..n]
  }

  lemma Filled(size: nat, s0: BlockState, p: Bytes, n: nat, s: BlockState, k: nat)
    requires Progress(size, s0, p, n, s) && n + k <= |p|
    ensures Progress(size, s0, p, n + k, BlockState(s.out, s.pending + p[n..n + k]))
  {
    assert p[..n + k] == p[..n] + p[n..n + k];
    assert Stream(BlockState(s.out, s.pending + p[n..n + k])) == Stream(s) + p[n..n + k];
  }

  lemma Drained(size: nat, s0: BlockState, p: Bytes, n: nat, s: BlockState)
    requires Progress(size, s0, p, n, s) && |s.pending| == size
    ensures Progress(size, s0, p, n, BlockState(s.out + [s.pending], []))
  {
    FlattenSnoc(s.out, s.pending);
  }

  /* ---- Whole call sequences ---- */

  predicate Run(kind: Kind, size: nat, states: seq<BlockState>, events: seq<Event>) {
    |states| == |events| + 1 &&
    forall i :: 0 <= i < |events| ==> CallStep(kind, size, states[i], events[i], states[i + 1])
  }

  lemma RunPrefix(kind: Kind, size: nat, states: seq<BlockState>, events: seq<Event>)
    requires Run(kind, size, states, events) && events != []
    ensures var n := |events| - 1;
            Run(kind, size, states[..n + 1], events[..n]) && CallStep(kind, size, states[n], events[n], states[n + 1])
  {
    var n := |events| - 1;
    forall i | 0 <= i < n ensures CallStep(kind, size, states[..n + 1][i], events[..n][i], states[..n + 1][i + 1]) {
      assert CallStep(kind, size, states[i], events[i], states[i + 1]);
    }
  }

  /** What a call adds: the accepted prefix p[..n] for blockWriter, all of p for the encoder. */
  function Taken(kind: Kind, e: Event): Bytes {
    match e
    case Closed(_) => []
    case Wrote(p, n, _) => if kind == Writer && n <= |p| then p[..n] else p
  }

  function AllTaken(kind: Kind, events: seq<Event>): Bytes {
    if events == [] then [] else
    AllTaken(kind, events[..|events| - 1]) + Taken(kind, events[|events| - 1])
  }

  lemma StepAddsTaken(kind: Kind, size: nat, s: BlockState, e: Event, s': BlockState)
    requires CallStep(kind, size, s, e, s')
    ensures Stream(s') == Stream(s) + Taken(kind, e)
  {
    if e.Closed? {
      FlattenSnoc(s.out, s.pending);
    }
  }

  /**
   Whatever fails, at any time: blocks out followed by bytes pending are the accepted
   prefixes for blockWriter, and everything offered for the encoder.
   */
  lemma {:induction false} LossFree(kind: Kind, size: nat, states: seq<BlockState>, events: seq<Event>)
    requires Run(kind, size, states, events)
    ensures Stream(states[|events|]) == Stream(states[0]) + AllTaken(kind, events)
  {
    if events != [] {
      var n := |events| - 1;
      RunPrefix(kind, size, states, events);
      LossFree(kind, size, states[..n + 1], events[..n]);
      StepAddsTaken(kind, size, states[n], events[n], states[n + 1]);
      Assoc(Stream(states[0]), AllTaken(kind, events[..n]), Taken(kind, events[n]));
    }
  }

  /** A caller that offers x and after every failed Write offers what Write did not count. */
  predicate Retries(x: Bytes, events: seq<Event>) {
    && events != []
    && (forall i :: 0 <= i < |events| ==> events[i].Wrote? && events[i].n <= |events[i].p|)
    && (forall i :: 0 <= i < |events| - 1 ==> !events[i].ok)
    && events[0].p == x
    && (forall i :: 0 <= i < |events| - 1 ==> events[i + 1].p == events[i].p[events[i].n..])
  }

  lemma RetriesPrefix(x: Bytes, events: seq<Event>)
    requires Retries(x, events) && |events| > 1
    ensures var n := |events| - 1;
            Retries(x, events[..n]) && events[n].p == events[n - 1].p[events[n - 1].n..] && !events[n - 1].ok
  {
    var n := |events| - 1;
    var before := events[..n];
    assert forall i :: 0 <= i < n ==> before[i] == events[i];
    assert events[n - 1 + 1].p == events[n - 1].p[events[n - 1].n..];
    forall i | 0 <= i < n - 1 ensures before[i + 1].p == before[i].p[before[i].n..] {
      assert events[i + 1].p == events[i].p[events[i].n..];
    }
  }

  lemma LastTaken(e: Event, before: Bytes, x: Bytes)
    requires e.Wrote? && e.n <= |e.p| && before + e.p == x
    ensures before + Taken(Writer, e) + e.p[e.n..] == x
  {
    assert e.p == e.p[..e.n] + e.p[e.n..];
    Assoc(before, e.p[..e.n], e.p[e.n..]);
  }

  lemma {:induction false} RetriedPrefix(x: Bytes, events: seq<Event>)
    requires Retries(x, events)
    ensures var e := events[|events| - 1]; AllTaken(Writer, events) + e.p[e.n..] == x
  {
    var n := |events| - 1;
    if n > 0 {
      RetriesPrefix(x, events);
      RetriedPrefix(x, events[..n]);
    } else {
      assert events[..0] == [] && [] + x == x;
    }
    LastTaken(events[n], AllTaken(Writer, events[..n]), x);
  }

  /** blockWriter: retrying from p[n:] until it succeeds adds x to the stream exactly once. */
  lemma RetryIsExact(size: nat, states: seq<BlockState>, events: seq<Event>, x: Bytes)
    requires Run(Writer, size, states, events) && Retries(x, events)
    requires events[|events| - 1].ok
    ensures Stream(states[|events|]) == Stream(states[0]) + x
  {
    var n := |events| - 1;
    LossFree(Writer, size, states, events);
    RetriedPrefix(x, events);
    assert CallStep(Writer, size, states[n], events[n], states[n + 1]);
  }

  /**
   Encoder: because a failed Write keeps its data yet reports 0, retrying adds x once
   for every attempt. A single failure already repeats it.
   */
  lemma {:induction false} EncoderRetryRepeats(size: nat, states: seq<BlockState>, events: seq<Event>, x: Bytes)
    requires Run(Encoder, size, states, events) && Retries(x, events)
    ensures Stream(states[|events|]) == Stream(states[0]) + Flatten(seq(|events|, _ => x))
    ensures events[|events| - 1].p == x
  {
    var n := |events| - 1;
    RunPrefix(Encoder, size, states, events);
    CopiesNext(x, n);
    if n > 0 {
      RetriesPrefix(x, events);
      EncoderRetryRepeats(size, states[..n + 1], events[..n], x);
      RunPrefix(Encoder, size, states[..n + 1], events[..n]);
      assert events[n - 1].n == 0;
    } else {
      assert Stream(states[0]) + Flatten(seq(0, _ => x)) == Stream(states[0]);
    }
    Assoc(Stream(states[0]), Flatten(seq(n, _ => x)), x);
  }

  lemma CopiesNext(x: Bytes, n: nat)
    ensures Flatten(seq(n + 1, _ => x)) == Flatten(seq(n, _ => x)) + x
  {
    assert seq(n + 1, _ => x) == seq(n, _ => x) + [x];
    FlattenSnoc(seq(n, _ => x), x);
  }

  lemma {:induction false} CopiesLength(x: Bytes, count: nat)
    ensures |Flatten(seq(count, _ => x))| >= if count == 0 then 0 else |x|
    ensures |Flatten(seq(count, _ => x))| >= if count <= 1 then 0 else 2 * |x|
  {
    if count > 0 {
      CopiesLength(x, count - 1);
      CopiesNext(x, count - 1);
    }
  }

  /** So the retried data are in the stream exactly once only if the first attempt worked, or there are none. */
  lemma EncoderRetryExactly(size: nat, states: seq<BlockState>, events: seq<Event>, x: Bytes)
    requires Run(Encoder, size, states, events) && Retries(x, events)
    ensures Stream(states[|events|]) == Stream(states[0]) + x <==> |events| == 1 || x == []
  {
    EncoderRetryRepeats(size, states, events, x);
    CopiesLength(x, |events|);
    var copies := Flatten(seq(|events|, _ => x));
    assert |Stream(states[|events|])| == |Stream(states[0])| + |copies|;
    if |events| == 1 {
      assert seq(1, _ => x) == [x] && Flatten([x]) == x;
    } else if x == [] {
      EmptyCopies(|events|);
      assert seq(|events|, _ => x) == seq(|events|, _ => []);
    }
  }

  lemma {:induction false} EmptyCopies(count: nat)
    ensures Flatten(seq<Bytes>(count, _ => [])) == []
  {
    if count > 0 {
      EmptyCopies(count - 1);
      assert seq<Bytes>(count, _ => []) == seq<Bytes>(count - 1, _ => []) + [[]];
      FlattenSnoc(seq<Bytes>(count - 1, _ => []), []);
    }
  }

  /** A Write of one block fails once and is retried: the block goes out twice. */
  lemma RetriedTwice(size: nat, x: Bytes)
    requires |x| == size > 0
    ensures var states := [BlockState([], []), BlockState([], x), BlockState([x, x], [])];
            var events := [Wrote(x, 0, false), Wrote(x, size, true)];
            Run(Encoder, size, states, events) && Retries(x, events) && Stream(states[2]) == x + x
  {
    var s0, s1, s2 := BlockState([], []), BlockState([], x), BlockState([x, x], []);
    assert Stream(s0) == [] && Stream(s1) == x;
    assert Stream(s2) == x + x by {
      assert Flatten([x, x]) == x + Flatten([x]) && Flatten([x]) == x;
    }
    assert EncoderStep(size, s0, Wrote(x, 0, false), s1);
    assert EncoderStep(size, s1, Wrote(x, size, true), s2);
  }

  /* ---- Without failures ---- */

  predicate Clean(events: seq<Event>) {
    forall i :: 0 <= i < |events| ==> events[i].Wrote? && events[i].ok
  }

  lemma {:induction false} CleanWrites(kind: Kind, size: nat, states: seq<BlockState>, events: seq<Event>)
    requires size > 0 && Run(kind, size, states, events) && Clean(events)
    requires states[0] == BlockState([], [])
    ensures AllOfSize(states[|events|].out, size) && |states[|events|].pending| < size
    ensures Stream(states[|events|]) == AllTaken(kind, events)
  {
    if events != [] {
      var n := |events| - 1;
      RunPrefix(kind, size, states, events);
      assert Clean(events[..n]) && events[n].Wrote? && events[n].ok;
      CleanWrites(kind, size, states[..n + 1], events[..n]);
      CleanStep(kind, size, states[n], events[n], states[n + 1]);
    }
  }

  lemma CleanStep(kind: Kind, size: nat, s: BlockState, e: Event, s': BlockState)
    requires CallStep(kind, size, s, e, s') && e.Wrote? && e.ok
    requires AllOfSize(s.out, size) && |s.pending| < size
    ensures AllOfSize(s'.out, size) && |s'.pending| < size && Stream(s') == Stream(s) + Taken(kind, e)
  {
    StepAddsTaken(kind, size, s, e, s');
    forall i | 0 <= i < |s'.out| ensures |s'.out[i]| == size {
      if i >= |s.out| {
        assert s'.out[|s.out|..][i - |s.out|] == s'.out[i];
      }
    }
  }

  /**
   Chunking depends on the concatenated input only: any successful Writes and a final
   Close, of either writer, emit exactly the blocks of the stream.
   */
  lemma ChunkingInvariant(kind: Kind, size: nat, states: seq<BlockState>, writes: seq<Event>)
    requires size > 0 && Run(kind, size, states, writes + [Closed(true)]) && Clean(writes)
    requires states[0] == BlockState([], [])
    ensures states[|writes| + 1] == BlockState(Cut(AllTaken(kind, writes), size), [])
  {
    var n := |writes|;
    var events := writes + [Closed(true)];
    assert forall i :: 0 <= i < n ==> events[i] == writes[i];
    CleanWrites(kind, size, states[..n + 1], writes);
    assert CallStep(kind, size, states[n], events[n], states[n + 1]);
    BlocksUnique(states[n].out, states[n].pending, size);
  }

  /** The append-and-slice encoder and the fixed-buffer writer emit the same blocks. */
  lemma WritersAgree(size: nat, states: seq<BlockState>, writes: seq<Event>,
                     states': seq<BlockState>, writes': seq<Event>)
    requires size > 0 && Clean(writes) && Clean(writes')
    requires Run(Writer, size, states, writes + [Closed(true)])
    requires Run(Encoder, size, states', writes' + [Closed(true)])
    requires states[0] == states'[0] == BlockState([], [])
    requires AllTaken(Writer, writes) == AllTaken(Encoder, writes')
    ensures states[|writes| + 1] == states'[|writes'| + 1]
  {
    ChunkingInvariant(Writer, size, states, writes);
    ChunkingInvariant(Encoder, size, states', writes');
  }

  /* ---- One turn of the encoder's loop, as intended ---- */

  /** Emit the first block of the buffer and drop it. */
  function TurnAsIntended(size: nat, s: BlockState): BlockState
    requires size <= |s.pending|
  {
    BlockState(s.out + [s.pending[..size]], s.pending[size..])
  }

  lemma TurnKeepsStream(size: nat, s0: BlockState, s: BlockState)
    requires size <= |s.pending| && EmitsFull(size, s0, s)
    ensures Stream(TurnAsIntended(size, s)) == Stream(s)
    ensures EmitsFull(size, s0, TurnAsIntended(size, s))
  {
    FlattenSnoc(s.out, s.pending[..size]);
    assert s.pending == s.pending[..size] + s.pending[size..];
  }

  /* ---- The encoder's loop as line 53 of the source writes it ---- */

  /** One successful turn as written keeps the processed block where it should drop it. */
  function TurnAsWritten(size: nat, s: BlockState): BlockState
    requires size <= |s.pending|
  {
    BlockState(s.out + [s.pending[..size]], s.pending[..size])
  }

  /** A passage through the loop as written: turns while the guard holds, none of them failing. */
  predicate TurnsAsWritten(size: nat, turns: seq<BlockState>) {
    turns != [] &&
    forall i :: 0 <= i < |turns| - 1 ==> size <= |turns[i].pending| && turns[i + 1] == TurnAsWritten(size, turns[i])
  }

  /** As written, t turns emit the first block t times and the loop guard still holds. */
  lemma {:induction false} AsWrittenNeverDrains(size: nat, first: BlockState, turns: seq<BlockState>)
    requires size <= |first.pending| && TurnsAsWritten(size, turns) && turns[0] == first
    ensures var last := turns[|turns| - 1];
            size <= |last.pending| && last.pending[..size] == first.pending[..size] &&
            last.out == first.out + seq(|turns| - 1, _ => first.pending[..size])
  {
    var n := |turns| - 1;
    if n > 0 {
      AsWrittenNeverDrains(size, first, turns[..n]);
      assert turns[n - 1 + 1] == TurnAsWritten(size, turns[n - 1]);
    }
  }

  /** Write(p) as written, from s: the turns it takes until its guard fails. */
  predicate WriteAsWritten(size: nat, s: BlockState, p: Bytes, turns: seq<BlockState>) {
    && TurnsAsWritten(size, turns) && turns[0] == BlockState(s.out, s.pending + p)
    && |turns[|turns| - 1].pending| < size
  }

  /** Write(p) as intended, from s, when nothing fails. */
  function WriteAsIntended(size: nat, s: BlockState, p: Bytes): BlockState
    requires size > 0
  {
    BlockState(s.out + Blocks(s.pending + p, size), Rest(s.pending + p, size))
  }

  lemma Assoc(a: Bytes, b: Bytes, c: Bytes)
    ensures a + (b + c) == a + b + c
  {
  }

  lemma IntendedStream(size: nat, s: BlockState, p: Bytes)
    requires size > 0
    ensures Stream(WriteAsIntended(size, s, p)) == Stream(s) + p
  {
    var x := s.pending + p;
    BlocksPartition(x, size);
    FlattenConcat(s.out, Blocks(x, size));
    Assoc(Flatten(s.out), Flatten(Blocks(x, size)), Rest(x, size));
    Assoc(Flatten(s.out), s.pending, p);
  }

  lemma IntendedEmits(size: nat, s: BlockState, p: Bytes)
    requires size > 0
    ensures EmitsFull(size, s, WriteAsIntended(size, s, p))
  {
    BlocksPartition(s.pending + p, size);
    assert WriteAsIntended(size, s, p).out[|s.out|..] == Blocks(s.pending + p, size);
  }

  /** What is called intended is a successful Write of the encoder, */
  lemma IntendedIsStep(size: nat, s: BlockState, p: Bytes)
    requires size > 0
    ensures EncoderStep(size, s, Wrote(p, |p|, true), WriteAsIntended(size, s, p))
  {
    IntendedEmits(size, s, p);
    IntendedStream(size, s, p);
  }

  /** and the only one there is. */
  lemma StepIsIntended(size: nat, s: BlockState, p: Bytes, s': BlockState)
    requires size > 0 && EncoderStep(size, s, Wrote(p, |p|, true), s')
    ensures s' == WriteAsIntended(size, s, p)
  {
    var bs, front := s'.out[|s.out|..], Flatten(s.out);
    assert s'.out == s.out + bs;
    FlattenConcat(s.out, bs);
    SameFront(front, Flatten(bs) + s'.pending, s.pending + p) by {
      assert Stream(s') == front + (Flatten(bs) + s'.pending);
      assert Stream(s) + p == front + (s.pending + p);
    }
    BlocksUnique(bs, s'.pending, size);
  }

  lemma SameFront(a: Bytes, b: Bytes, c: Bytes)
    requires a + b == a + c
    ensures b == c
  {
    assert (a + b)[|a|..] == b && (a + c)[|a|..] == c;
  }

  /**
   With nothing failing, Write as written leaves its loop exactly when buffer and data
   together are shorter than a block, and then it has done what was intended.
   */
  lemma WriteAsWrittenExactly(size: nat, s: BlockState, p: Bytes)
    requires size > 0
    ensures (exists turns: seq<BlockState> :: WriteAsWritten(size, s, p, turns)) <==> |s.pending| + |p| < size
    ensures forall turns: seq<BlockState> :: WriteAsWritten(size, s, p, turns) ==> turns[|turns| - 1] == WriteAsIntended(size, s, p)
  {
    var first := BlockState(s.out, s.pending + p);
    if |first.pending| < size {
      assert WriteAsWritten(size, s, p, [first]);
      assert Blocks(first.pending, size) == [] && Rest(first.pending, size) == first.pending;
      assert s.out + [] == s.out;
    }
    forall turns: seq<BlockState> | WriteAsWritten(size, s, p, turns)
      ensures |s.pending| + |p| < size && turns[|turns| - 1] == WriteAsIntended(size, s, p)
    {
      if size <= |first.pending| {
        AsWrittenNeverDrains(size, first, turns);
      }
    }
  }

  /** Write calls as written, every one of which leaves its loop, from an empty encoder. */
  ghost predicate WritesAsWritten(size: nat, chunks: seq<Bytes>, states: seq<BlockState>) {
    && |states| == |chunks| + 1 && states[0] == BlockState([], [])
    && forall i :: 0 <= i < |chunks| ==> LeavesLoop(size, states[i], chunks[i], states[i + 1])
  }

  ghost predicate LeavesLoop(size: nat, s: BlockState, p: Bytes, s': BlockState) {
    exists turns: seq<BlockState> :: WriteAsWritten(size, s, p, turns) && turns[|turns| - 1] == s'
  }

  lemma LeavesLoopExactly(size: nat, s: BlockState, p: Bytes, s': BlockState)
    requires size > 0
    ensures LeavesLoop(size, s, p, s') <==> |s.pending| + |p| < size && s' == BlockState(s.out, s.pending + p)
  {
    WriteAsWrittenExactly(size, s, p);
    if |s.pending| + |p| < size {
      assert Blocks(s.pending + p, size) == [] && Rest(s.pending + p, size) == s.pending + p;
      assert s.out + [] == s.out;
      var turns :| WriteAsWritten(size, s, p, turns);
    }
  }

  lemma WritesPrefix(size: nat, chunks: seq<Bytes>, states: seq<BlockState>)
    requires WritesAsWritten(size, chunks, states) && chunks != []
    ensures var n := |chunks| - 1;
            WritesAsWritten(size, chunks[..n], states[..n + 1]) &&
            LeavesLoop(size, states[n], chunks[n], states[n + 1])
  {
    var n := |chunks| - 1;
    assert LeavesLoop(size, states[n], chunks[n], states[n + 1]);
    forall i | 0 <= i < n ensures LeavesLoop(size, states[..n + 1][i], chunks[..n][i], states[..n + 1][i + 1]) {
      assert LeavesLoop(size, states[i], chunks[i], states[i + 1]);
    }
  }

  /** Writes that all leave their loops have only filled the buffer. */
  lemma {:induction false} WritesOnlyFill(size: nat, chunks: seq<Bytes>, states: seq<BlockState>)
    requires size > 0 && WritesAsWritten(size, chunks, states)
    ensures states[|chunks|] == BlockState([], Flatten(chunks)) && |Flatten(chunks)| < size
  {
    if chunks != [] {
      var n := |chunks| - 1;
      WritesPrefix(size, chunks, states);
      WritesOnlyFill(size, chunks[..n], states[..n + 1]);
      LeavesLoopExactly(size, states[n], chunks[n], states[n + 1]);
      assert chunks == chunks[..n] + [chunks[n]];
      FlattenSnoc(chunks[..n], chunks[n]);
    }
  }

  /** And short streams can be written in any pieces. */
  lemma {:induction false} ShortWrites(size: nat, chunks: seq<Bytes>) returns (states: seq<BlockState>)
    requires size > 0 && |Flatten(chunks)| < size
    ensures WritesAsWritten(size, chunks, states)
  {
    states := [BlockState([], [])];
    if chunks != [] {
      var n := |chunks| - 1;
      assert chunks == chunks[..n] + [chunks[n]];
      FlattenSnoc(chunks[..n], chunks[n]);
      var before := ShortWrites(size, chunks[..n]);
      WritesOnlyFill(size, chunks[..n], before);
      var last := BlockState([], Flatten(chunks[..n]) + chunks[n]);
      LeavesLoopExactly(size, before[n], chunks[n], last);
      states := before + [last];
      forall i | 0 <= i <= n ensures LeavesLoop(size, states[i], chunks[i], states[i + 1]) {
        if i < n {
          assert LeavesLoop(size, before[i], chunks[..n][i], before[i + 1]);
        }
      }
    }
  }

  /** A whole stream through the encoder as written: all writes, then Close. */
  ghost predicate StreamAsWritten(size: nat, chunks: seq<Bytes>, states: seq<BlockState>, end: BlockState) {
    WritesAsWritten(size, chunks, states) && CloseStep(states[|chunks|], true, end)
  }

  /**
   With nothing failing, the encoder as written ends exactly on streams shorter than a
   block, however they are split into calls, and then it has emitted the stream's blocks.
   */
  lemma StreamAsWrittenExactly(size: nat, chunks: seq<Bytes>)
    requires size > 0
    ensures (exists states, end :: StreamAsWritten(size, chunks, states, end)) <==> |Flatten(chunks)| < size
    ensures forall states, end :: StreamAsWritten(size, chunks, states, end) ==>
              end == BlockState(Cut(Flatten(chunks), size), [])
  {
    var x := Flatten(chunks);
    if |x| < size {
      var states := ShortWrites(size, chunks);
      var last := states[|chunks|];
      assert StreamAsWritten(size, chunks, states,
                             if last.pending == [] then last else BlockState(last.out + [last.pending], []));
    }
    forall states, end | StreamAsWritten(size, chunks, states, end)
      ensures |x| < size && end == BlockState(Cut(x, size), [])
    {
      WritesOnlyFill(size, chunks, states);
      assert Blocks(x, size) == [] && Rest(x, size) == x;
    }
  }
}
