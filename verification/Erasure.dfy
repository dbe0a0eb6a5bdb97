/**
 Erasure coding of one block: an 8-byte length header, a zero-padded split into
 k data shards, m parity shards, an index byte in front of every shard, and the
 way back. The Reed-Solomon library itself is the abstract k-of-(k+m) code below.
 */
module Erasure {
  import opened Basics

  const HEADER_LENGTH: nat := 8

  /* ---- The library's code, by contract ---- */

  /**
   `parity` computes the parity rows of k data rows. `fill` rebuilds all k+m rows
   from rows of which the missing ones are empty.
   */
  datatype Code = Code(k: nat, m: nat, parity: seq<Bytes> -> seq<Bytes>, fill: seq<Bytes> -> seq<Bytes>)

  predicate IsRows(d: seq<Bytes>, n: nat, len: nat) {
    |d| == n && forall i :: 0 <= i < n ==> |d[i]| == len
  }

  function Codeword(c: Code, d: seq<Bytes>): seq<Bytes> {
    d + c.parity(d)
  }

  /** Positions that hold a shard; an absent shard is empty. */
  function PresentAt(s: seq<Bytes>): set<nat> {
    set i: nat | i < |s| && s[i] != []
  }

  predicate Matches(s: seq<Bytes>, w: seq<Bytes>) {
    |s| == |w| && forall i :: 0 <= i < |s| ==> s[i] == [] || s[i] == w[i]
  }

  /** The size of the first shard present, 0 if there is none. */
  function FirstSize(s: seq<Bytes>): nat {
    if s == [] then 0 else if s[0] != [] then |s[0]| else FirstSize(s[1..])
  }

  predicate SizesAgree(s: seq<Bytes>) {
    forall i :: 0 <= i < |s| ==> s[i] == [] || |s[i]| == FirstSize(s)
  }

  ghost predicate Decodes(c: Code, d: seq<Bytes>, s: seq<Bytes>, len: nat) {
    len > 0 && IsRows(d, c.k, len) && Matches(s, Codeword(c, d)) && |PresentAt(s)| >= c.k
  }

  /** Any k rows of a codeword fix all the others; filling keeps the rows it was given. */
  ghost predicate ValidCode(c: Code) {
    && 1 <= c.k && c.k + c.m <= 256
    && (forall d, len {:trigger IsRows(c.parity(d), c.m, len)} :: IsRows(d, c.k, len) ==> IsRows(c.parity(d), c.m, len))
    && (forall d, s, len {:trigger Decodes(c, d, s, len)} :: Decodes(c, d, s, len) ==> c.fill(s) == Codeword(c, d))
    && (forall s {:trigger c.fill(s)} :: |s| == c.k + c.m && SizesAgree(s) && |PresentAt(s)| >= c.k ==>
          IsRows(c.fill(s), c.k + c.m, FirstSize(s)) && Matches(s, c.fill(s)))
  }

  lemma CodewordRows(c: Code, d: seq<Bytes>, len: nat)
    requires ValidCode(c) && IsRows(d, c.k, len)
    ensures IsRows(Codeword(c, d), c.k + c.m, len)
  {
    assert IsRows(c.parity(d), c.m, len);
  }

  /** Two codewords that agree on k positions are the same codeword. */
  lemma CodewordUnique(c: Code, d: seq<Bytes>, d': seq<Bytes>, len: nat, at: set<nat>)
    requires ValidCode(c) && len > 0 && IsRows(d, c.k, len) && IsRows(d', c.k, len)
    requires |at| >= c.k
    requires forall i :: i in at ==> i < c.k + c.m
    requires |Codeword(c, d)| == |Codeword(c, d')| == c.k + c.m
    requires forall i :: i in at ==> Codeword(c, d)[i] == Codeword(c, d')[i]
    ensures d == d'
  {
    var w, w' := Codeword(c, d), Codeword(c, d');
    CodewordRows(c, d, len);
    var s := seq(c.k + c.m, i requires 0 <= i < c.k + c.m => if i in at then w[i] else []);
    assert PresentAt(s) == at by {
      forall i: nat | i in at ensures i in PresentAt(s) {
        assert s[i] == w[i] && |w[i]| == len;
      }
    }
    assert Decodes(c, d, s, len) && Decodes(c, d', s, len);
    assert d == w[..c.k] && d' == w'[..c.k];
  }

  /* ---- Split and Join ---- */

  /** n / k rounded up. */
  function CeilDiv(n: nat, k: nat): nat
    requires k > 0
    decreases n
  {
    if n == 0 then 0 else 1 + CeilDiv(if n <= k then 0 else n - k, k)
  }

  lemma {:induction false} CeilDivBounds(n: nat, k: nat)
    requires k > 0
    ensures n <= CeilDiv(n, k) * k < n + k
    ensures n > 0 ==> CeilDiv(n, k) > 0
    decreases n
  {
    if n > 0 {
      var rest := if n <= k then 0 else n - k;
      CeilDivBounds(rest, k);
      OneMore(CeilDiv(rest, k), k);
    }
  }

  lemma OneMore(q: nat, k: nat)
    ensures (1 + q) * k == q * k + k
  {
  }

  function Zeros(n: nat): (z: Bytes)
    ensures |z| == n
  {
    seq(n, _ => 0)
  }

  /** k rows of `per` bytes taken from the front of `p`, zeros where `p` has run out. */
  function Rows(p: Bytes, per: nat, k: nat): seq<Bytes>
    decreases k
  {
    if k == 0 then [] else
    var cut := if |p| < per then |p| else per;
    [p[..cut] + Zeros(per - cut)] + Rows(p[cut..], per, k - 1)
  }

  lemma {:induction false} RowsShape(p: Bytes, per: nat, k: nat)
    ensures IsRows(Rows(p, per, k), k, per)
    decreases k
  {
    if k > 0 {
      RowsShape(p[if |p| < per then |p| else per..], per, k - 1);
    }
  }

  lemma PrefixBehind(front: Bytes, p: Bytes, q: Bytes)
    requires p <= q
    ensures front + p <= front + q
  {
  }

  /** Rows that hold all of `p` start with `p` when put together again. */
  lemma {:induction false} RowsJoin(p: Bytes, per: nat, k: nat)
    requires |p| <= per * k
    ensures p <= Flatten(Rows(p, per, k))
    decreases k
  {
    if k > 0 {
      MulStep(per, k);
      if |p| < per {
        assert p <= p + Zeros(per - |p|);
        assert p[..|p|] == p;
      } else {
        RowsJoin(p[per..], per, k - 1);
        PrefixBehind(p[..per], p[per..], Flatten(Rows(p[per..], per, k - 1)));
        assert p[..per] + p[per..] == p && p[..per] + Zeros(0) == p[..per];
      }
    }
  }

  function Framed(data: Bytes): Bytes {
    BigEndian(|data|, HEADER_LENGTH) + data
  }

  function ShardLen(c: Code, data: Bytes): nat
    requires c.k >= 1
  {
    CeilDiv(HEADER_LENGTH + |data|, c.k)
  }

  /** The library's Split: pad with zeros to k rows of equal length. */
  function Split(c: Code, p: Bytes): seq<Bytes>
    requires c.k >= 1
  {
    Rows(p, CeilDiv(|p|, c.k), c.k)
  }

  lemma SplitShape(c: Code, p: Bytes)
    requires c.k >= 1
    ensures IsRows(Split(c, p), c.k, CeilDiv(|p|, c.k))
    ensures p <= Flatten(Split(c, p))
  {
    CeilDivBounds(|p|, c.k);
    RowsShape(p, CeilDiv(|p|, c.k), c.k);
    RowsJoin(p, CeilDiv(|p|, c.k), c.k);
  }

  /** The rows are long enough for header and data, and never empty. */
  lemma ShardLenBound(c: Code, data: Bytes)
    requires c.k >= 1
    ensures ShardLen(c, data) > 0 && HEADER_LENGTH + |data| <= ShardLen(c, data) * c.k
  {
    CeilDivBounds(HEADER_LENGTH + |data|, c.k);
  }

  /** Row i behind the index byte i. */
  function Tagged(w: seq<Bytes>): (r: seq<Bytes>)
    ensures |r| == |w|
    ensures forall i :: 0 <= i < |w| ==> r[i] == [i % 256] + w[i]
  {
    seq(|w|, i requires 0 <= i < |w| => [i % 256] + w[i])
  }

  function EncodedRows(c: Code, data: Bytes): seq<Bytes>
    requires c.k >= 1
  {
    Codeword(c, Split(c, Framed(data)))
  }

  function Shards(c: Code, data: Bytes): seq<Bytes>
    requires c.k >= 1
  {
    Tagged(EncodedRows(c, data))
  }

  lemma TaggedRows(w: seq<Bytes>, n: nat, len: nat)
    requires IsRows(w, n, len) && n <= 256
    ensures IsRows(Tagged(w), n, 1 + len)
    ensures forall i :: 0 <= i < n ==> Tagged(w)[i][0] == i
  {
    forall i | 0 <= i < n ensures |Tagged(w)[i]| == 1 + len && Tagged(w)[i][0] == i {
      SmallMod(i, 256);
    }
  }

  /** The header tells the length of the data behind it. */
  lemma FramedLayout(data: Bytes)
    requires |data| < TWO_TO_64
    ensures |Framed(data)| == 8 + |data| && FromBigEndian(Framed(data)[..8]) == |data| && Framed(data)[8..] == data
  {
    Uint64RoundTrip(|data|);
    assert Framed(data)[..8] == BigEndian(|data|, 8);
  }

  /** Where row i begins. */
  function RowStart(per: nat, i: nat): nat {
    if i == 0 then 0 else RowStart(per, i - 1) + per
  }

  lemma {:induction false} RowStartIs(per: nat, i: nat)
    ensures RowStart(per, i) == per * i
  {
    if i > 0 {
      RowStartIs(per, i - 1);
      MulStep(per, i);
    }
  }

  lemma {:induction false} RowsAt(p: Bytes, per: nat, k: nat, i: nat, col: nat, at: nat)
    requires i < k && col < per && at == RowStart(per, i) + col
    ensures |Rows(p, per, k)| == k && |Rows(p, per, k)[i]| == per
    ensures Rows(p, per, k)[i][col] == if at < |p| then p[at] else 0
    decreases k
  {
    RowsShape(p, per, k);
    if i == 0 {
      FirstRow(p, per, k, col);
    } else {
      RowsNext(p, per, k, i);
      RowsAt(p[if |p| < per then |p| else per..], per, k - 1, i - 1, col, at - per);
    }
  }

  lemma FirstRow(p: Bytes, per: nat, k: nat, col: nat)
    requires 0 < k && col < per
    ensures |Rows(p, per, k)| == k && |Rows(p, per, k)[0]| == per
    ensures Rows(p, per, k)[0][col] == if col < |p| then p[col] else 0
  {
    RowsShape(p, per, k);
  }

  lemma RowsNext(p: Bytes, per: nat, k: nat, i: nat)
    requires 0 < i < k
    ensures var rest := p[if |p| < per then |p| else per..];
            |Rows(p, per, k)| == k && |Rows(rest, per, k - 1)| == k - 1 && Rows(p, per, k)[i] == Rows(rest, per, k - 1)[i - 1]
  {
    RowsShape(p, per, k);
    RowsShape(p[if |p| < per then |p| else per..], per, k - 1);
  }

  /** Behind their index bytes the first k shards are header and data in order, with zeros behind them. */
  lemma DataShards(c: Code, data: Bytes, i: nat, col: nat, at: nat)
    requires ValidCode(c) && i < c.k && col < ShardLen(c, data) && at == ShardLen(c, data) * i + col
    ensures |Shards(c, data)| == c.k + c.m && |Shards(c, data)[i]| == 1 + ShardLen(c, data)
    ensures Shards(c, data)[i][1 + col] == if at < |Framed(data)| then Framed(data)[at] else 0
  {
    ShardShape(c, data);
    RowStartIs(ShardLen(c, data), i);
    RowsAt(Framed(data), ShardLen(c, data), c.k, i, col, at);
    assert EncodedRows(c, data)[i] == Split(c, Framed(data))[i];
  }

  /** Every shard of a valid code: its own index first, then a row of the common length. */
  lemma ShardShape(c: Code, data: Bytes)
    requires ValidCode(c)
    ensures ShardLen(c, data) > 0
    ensures IsRows(Split(c, Framed(data)), c.k, ShardLen(c, data))
    ensures IsRows(EncodedRows(c, data), c.k + c.m, ShardLen(c, data))
    ensures IsRows(Shards(c, data), c.k + c.m, 1 + ShardLen(c, data))
    ensures forall i :: 0 <= i < c.k + c.m ==> Shards(c, data)[i][0] == i
  {
    ShardLenBound(c, data);
    SplitShape(c, Framed(data));
    CodewordRows(c, Split(c, Framed(data)), ShardLen(c, data));
    TaggedRows(EncodedRows(c, data), c.k + c.m, ShardLen(c, data));
  }

  method Erasure(c: Code, data: Bytes) returns (shards: seq<Bytes>)
    requires ValidCode(c)
    requires |data| < TWO_TO_63
    ensures shards == Shards(c, data)
  {
    var lengthBytes := BigEndian(|data|, HEADER_LENGTH);
    var dataWithLength := lengthBytes + data;
    shards := Split(c, dataWithLength);
    shards := shards + c.parity(shards);
    ghost var w := shards;
    ShardShape(c, data);
    var i := 0;
    while i < |shards|
      invariant 0 <= i <= |shards| == |w|
      invariant forall j :: 0 <= j < i ==> shards[j] == [j % 256] + w[j]
      invariant forall j :: i <= j < |shards| ==> shards[j] == w[j]
    {
      shards := shards[i := [i % 256] + shards[i]];
      i := i + 1;
    }
  }

  /* ---- Reconstruct ---- */

  datatype ReconstructError =
    | WrongShardCount
    | IndexOutOfBounds
    | InsufficientShards
    | ShardSizeMismatch
    | TooFewShards
    | VerificationFailed

  /** `Panicked`: a slice bound at the length header is out of range. */
  datatype Outcome =
    | Written(data: Bytes)
    | Failed(error: ReconstructError)
    | Panicked

  /** The shards put back under their index bytes, a later one replacing an earlier one. */
  function Slots(s: seq<Bytes>, total: nat): (t: Option<seq<Bytes>>)
    ensures t.Some? ==> |t.value| == total
  {
    if s == [] then Some(seq(total, _ => [])) else
    var rest := Slots(s[..|s| - 1], total);
    var x := s[|s| - 1];
    if rest.None? || x == [] then rest
    else if x[0] >= total then None
    else Some(rest.value[x[0] := x[1..]])
  }

  /** Entries that are there at all, the same index counted as often as it occurs. */
  function Available(s: seq<Bytes>): nat {
    if s == [] then 0 else Available(s[..|s| - 1]) + if s[|s| - 1] == [] then 0 else 1
  }

  /** From the filled slots on: the library's Reconstruct, Verify and Join, then the header. */
  function FromSlots(c: Code, t: seq<Bytes>): Outcome
    requires c.k <= |t|
  {
    if !SizesAgree(t) then Failed(ShardSizeMismatch)
    else if |PresentAt(t)| < c.k then Failed(TooFewShards)
    else
      var f := c.fill(t);
      if |f| < c.k || f != Codeword(c, f[..c.k]) then Failed(VerificationFailed)
      else Unframe(Flatten(f[..c.k]))
  }

  function Reconstructed(c: Code, s: seq<Bytes>): Outcome {
    if |s| != c.k + c.m then Failed(WrongShardCount) else
    var t := Slots(s, |s|);
    if t.None? then Failed(IndexOutOfBounds)
    else if Available(s) < c.k then Failed(InsufficientShards)
    else FromSlots(c, t.value)
  }

  /** Cut the data out behind its length header. */
  function Unframe(joined: Bytes): Outcome {
    if |joined| < HEADER_LENGTH then Panicked else
    var sum := HEADER_LENGTH + FromBigEndian(joined[..HEADER_LENGTH]);
    var end := if sum < TWO_TO_64 then sum else sum - TWO_TO_64;  // uint64 wrap-around
    if HEADER_LENGTH <= end <= |joined| then Written(joined[HEADER_LENGTH..end]) else Panicked
  }

  method Reconstruct(c: Code, shards: seq<Bytes>) returns (r: Outcome)
    requires ValidCode(c)
    ensures r == Reconstructed(c, shards)
  {
    var totalShards := c.k + c.m;
    if |shards| != totalShards {
      return Failed(WrongShardCount);
    }
    var availableCount := 0;
    var indexedShards := new Bytes[totalShards](_ => []);
    assert shards[..0] == [] && Slots([], totalShards).value == indexedShards[..];
    var i := 0;
    while i < |shards|
      invariant 0 <= i <= |shards|
      invariant availableCount == Available(shards[..i])
      invariant Slots(shards[..i], totalShards) == Some(indexedShards[..])
    {
      var shard := shards[i];
      assert shards[..i + 1][..i] == shards[..i];
      if shard != [] {
        if shard[0] >= totalShards {
          SlotsFailEarly(shards, i + 1, totalShards);
          return Failed(IndexOutOfBounds);
        }
        indexedShards[shard[0]] := shard[1..];
        availableCount := availableCount + 1;
      }
      i := i + 1;
    }
    assert shards[..|shards|] == shards;
    if availableCount < c.k {
      return Failed(InsufficientShards);
    }
    r := FromSlots(c, indexedShards[..]);
  }

  lemma {:induction false} SlotsFailEarly(s: seq<Bytes>, n: nat, total: nat)
    requires n <= |s| && Slots(s[..n], total) == None
    ensures Slots(s, total) == None
  {
    if n == |s| {
      assert s[..n] == s;
    } else {
      assert s[..|s| - 1][..n] == s[..n];
      SlotsFailEarly(s[..|s| - 1], n, total);
    }
  }

  /* ---- Which error comes when ---- */

  /** The entry is there and its index byte is out of bounds. */
  predicate OutOfBounds(x: Bytes, total: nat) {
    x != [] && x[0] >= total
  }

  lemma {:induction false} SlotsRefuse(s: seq<Bytes>, total: nat)
    ensures Slots(s, total) == None <==> exists i :: 0 <= i < |s| && OutOfBounds(s[i], total)
  {
    if s != [] {
      var n := |s| - 1;
      SlotsRefuse(s[..n], total);
      assert forall i :: 0 <= i < n ==> s[..n][i] == s[i];
      if OutOfBounds(s[n], total) {
        assert exists i :: 0 <= i < |s| && OutOfBounds(s[i], total);
      }
    }
  }

  /** The i-th entry is the last one with index j. */
  predicate IsLastOf(s: seq<Bytes>, j: nat, i: nat) {
    i < |s| && s[i] != [] && s[i][0] == j && forall l :: i < l < |s| ==> s[l] == [] || s[l][0] != j
  }

  /** Each slot holds what the last entry with its index has behind it, and nothing if there is none. */
  lemma {:induction false} SlotsHoldLast(s: seq<Bytes>, total: nat, j: nat)
    requires Slots(s, total).Some? && j < total
    ensures forall i: nat :: IsLastOf(s, j, i) ==> Slots(s, total).value[j] == s[i][1..]
    ensures (forall i :: 0 <= i < |s| ==> s[i] == [] || s[i][0] != j) ==> Slots(s, total).value[j] == []
  {
    if s != [] {
      var n := |s| - 1;
      SlotsHoldLast(s[..n], total, j);
      assert forall i :: 0 <= i < n ==> s[..n][i] == s[i];
      forall i: nat | IsLastOf(s, j, i) ensures Slots(s, total).value[j] == s[i][1..] {
        if i < n {
          assert IsLastOf(s[..n], j, i);
          assert s[n] == [] || s[n][0] != j;
        }
      }
    }
  }

  lemma {:induction false} AvailableIsPresent(s: seq<Bytes>)
    ensures Available(s) == |PresentAt(s)|
  {
    if s != [] {
      var n := |s| - 1;
      AvailableIsPresent(s[..n]);
      assert forall i :: 0 <= i < n ==> s[..n][i] == s[i];
      assert PresentAt(s) == PresentAt(s[..n]) + if s[n] == [] then {} else {n as nat};
    }
  }

  /** The first three checks, in their order, and exactly when each of them refuses. */
  lemma FirstErrors(c: Code, s: seq<Bytes>)
    ensures Reconstructed(c, s) == Failed(WrongShardCount) <==> |s| != c.k + c.m
    ensures |s| == c.k + c.m ==>
              (Reconstructed(c, s) == Failed(IndexOutOfBounds) <==> exists i :: 0 <= i < |s| && OutOfBounds(s[i], |s|))
    ensures |s| == c.k + c.m && (forall i :: 0 <= i < |s| ==> !OutOfBounds(s[i], |s|)) ==>
              (Reconstructed(c, s) == Failed(InsufficientShards) <==> |PresentAt(s)| < c.k)
  {
    SlotsRefuse(s, |s|);
    AvailableIsPresent(s);
  }

  /* ---- What reconstruction is worth ---- */

  /** An entry that is empty or one of the shards whose rows are `w`. */
  predicate ShardOf(w: seq<Bytes>, x: Bytes) {
    x == [] || (x[0] < |w| && x == [x[0]] + w[x[0]])
  }

  /** An array of k+m entries, each empty or some shard of `data`; shards may repeat. */
  predicate Genuine(c: Code, data: Bytes, s: seq<Bytes>)
    requires c.k >= 1
  {
    |s| == c.k + c.m && forall i :: 0 <= i < |s| ==> ShardOf(EncodedRows(c, data), s[i])
  }

  /** The distinct index bytes among the entries. */
  function Indices(s: seq<Bytes>): set<nat> {
    set i: nat | i < |s| && s[i] != [] :: s[i][0]
  }

  lemma IndicesConcat(a: seq<Bytes>, b: seq<Bytes>)
    ensures Indices(a + b) == Indices(a) + Indices(b)
  {
    var d := a + b;
    forall x | x in Indices(a) + Indices(b) ensures x in Indices(d) {
      if x in Indices(a) {
        var i: nat :| i < |a| && a[i] != [] && a[i][0] == x;
        assert d[i] == a[i];
      } else {
        var i: nat :| i < |b| && b[i] != [] && b[i][0] == x;
        assert d[|a| + i] == b[i];
      }
    }
  }

  lemma {:induction false} SlotsOfShards(w: seq<Bytes>, s: seq<Bytes>)
    requires forall i :: 0 <= i < |w| ==> w[i] != []
    requires forall i :: 0 <= i < |s| ==> ShardOf(w, s[i])
    ensures Slots(s, |w|).Some?
    ensures Matches(Slots(s, |w|).value, w)
    ensures PresentAt(Slots(s, |w|).value) == Indices(s)
  {
    if s != [] {
      var n := |s| - 1;
      SlotsOfShards(w, s[..n]);
      assert ShardOf(w, s[n]);
      assert forall i :: 0 <= i < n ==> s[..n][i] == s[i];
      if s[n] == [] {
        assert Indices(s) == Indices(s[..n]);
      } else {
        assert Indices(s) == Indices(s[..n]) + {s[n][0] as nat};
      }
    }
  }

  /** Entries counted with repeats are at least as many as the distinct indices. */
  lemma {:induction false} AvailableCountsRepeats(s: seq<Bytes>)
    ensures Available(s) >= |Indices(s)|
  {
    if s != [] {
      var n := |s| - 1;
      AvailableCountsRepeats(s[..n]);
      assert forall i :: 0 <= i < n ==> s[..n][i] == s[i];
      if s[n] == [] {
        assert Indices(s) == Indices(s[..n]);
      } else {
        assert Indices(s) == Indices(s[..n]) + {s[n][0] as nat};
      }
    }
  }

  lemma {:induction false} FirstSizeIs(s: seq<Bytes>, len: nat)
    requires forall i :: 0 <= i < |s| ==> s[i] == [] || |s[i]| == len
    ensures FirstSize(s) == 0 || FirstSize(s) == len
    ensures FirstSize(s) == 0 ==> forall i :: 0 <= i < |s| ==> s[i] == []
  {
    if s != [] && s[0] == [] {
      FirstSizeIs(s[1..], len);
      assert forall i :: 1 <= i < |s| ==> s[i] == s[1..][i - 1];
    }
  }

  lemma UnframePrefix(joined: Bytes, data: Bytes)
    requires |data| < TWO_TO_63 && Framed(data) <= joined
    ensures Unframe(joined) == Written(data)
  {
    var header, n := BigEndian(|data|, HEADER_LENGTH), HEADER_LENGTH + |data|;
    Uint64RoundTrip(|data|);
    assert joined[..HEADER_LENGTH] == header && joined[HEADER_LENGTH..n] == data by {
      assert joined[..n] == header + data;
      assert joined[..HEADER_LENGTH] == joined[..n][..HEADER_LENGTH];
      assert joined[HEADER_LENGTH..n] == joined[..n][HEADER_LENGTH..];
    }
  }

  lemma UnframeInverts(c: Code, data: Bytes)
    requires ValidCode(c) && |data| < TWO_TO_63
    ensures Unframe(Flatten(Split(c, Framed(data)))) == Written(data)
  {
    SplitShape(c, Framed(data));
    UnframePrefix(Flatten(Split(c, Framed(data))), data);
  }

  /** With any header: exactly the announced length is cut out if it is there, otherwise nothing can be. */
  lemma UnframeExactly(joined: Bytes)
    requires 8 <= |joined| < TWO_TO_63
    ensures var n := FromBigEndian(joined[..8]);
            Unframe(joined) == if n <= |joined| - 8 then Written(joined[8..8 + n]) else Panicked
  {
    EightBytes(joined[..8]);
  }

  lemma EightBytes(b: Bytes)
    requires |b| == 8
    ensures FromBigEndian(b) < TWO_TO_64
  {
    WideEnough();
    BigEndianOnto(b);
    BigEndianRoundTrip(FromBigEndian(b), 8);
    assert FromBigEndian(b) == FromBigEndian(b) % TWO_TO_64;
  }

  /** Slots filled only with rows of `data`'s codeword: k of them decide. */
  lemma FromGenuineSlots(c: Code, data: Bytes, t: seq<Bytes>)
    requires ValidCode(c) && |data| < TWO_TO_63
    requires |t| == c.k + c.m && Matches(t, EncodedRows(c, data))
    ensures FromSlots(c, t) == if |PresentAt(t)| >= c.k then Written(data) else Failed(TooFewShards)
  {
    var d, len := Split(c, Framed(data)), ShardLen(c, data);
    ShardShape(c, data);
    FirstSizeIs(t, len);
    if |PresentAt(t)| >= c.k {
      assert Decodes(c, d, t, len);
      assert Codeword(c, d)[..c.k] == d;
      UnframeInverts(c, data);
    }
  }

  /**
   Never wrong data: from shards of one Erasure call, repeats allowed, Reconstruct
   writes exactly the data when k distinct indices are there, and otherwise fails
   with nothing written, even where the count with repeats lets it past its check.
   */
  lemma NeverWrongData(c: Code, data: Bytes, s: seq<Bytes>)
    requires ValidCode(c) && |data| < TWO_TO_63 && Genuine(c, data, s)
    ensures Reconstructed(c, s) == Written(data) <==> |Indices(s)| >= c.k
    ensures |Indices(s)| < c.k ==>
              Reconstructed(c, s) == Failed(if Available(s) < c.k then InsufficientShards else TooFewShards)
  {
    ShardShape(c, data);
    SlotsOfShards(EncodedRows(c, data), s);
    AvailableCountsRepeats(s);
    FromGenuineSlots(c, data, Slots(s, |s|).value);
  }

  /** The entries that survive when shards `w`, listed in `order`, lose the positions `lost`. */
  predicate Survives(w: seq<Bytes>, order: seq<nat>, lost: set<nat>, s: seq<Bytes>) {
    && |order| == |s| == |w|
    && (forall i :: 0 <= i < |order| ==> order[i] < |w|)
    && (forall i, j :: 0 <= i < j < |order| ==> order[i] != order[j])
    && (forall i :: 0 <= i < |s| ==> s[i] == if i in lost then [] else w[order[i]])
  }

  lemma SurvivingIndices(w: seq<Bytes>, order: seq<nat>, lost: set<nat>, s: seq<Bytes>)
    requires Survives(w, order, lost, s)
    requires forall i :: 0 <= i < |w| ==> |w[i]| > 0 && w[i][0] == i
    ensures |Indices(s)| >= |w| - |lost|
  {
    UpToSize(|s|);
    var kept := UpTo(|s|) - lost;
    SubsetSize(UpTo(|s|) * lost, lost);
    assert UpTo(|s|) == kept + UpTo(|s|) * lost;
    ImageSize(order, kept);
    var image := set i | i in kept :: order[i];
    forall x | x in image ensures x in Indices(s) {
      var i :| i in kept && x == order[i];
      assert s[i] == w[order[i]];
    }
    SubsetSize(image, Indices(s));
  }

  /** Erasure's shards in any order, at most m of them missing, give back exactly the data. */
  lemma ErasureRoundTrip(c: Code, data: Bytes, order: seq<nat>, lost: set<nat>, s: seq<Bytes>)
    requires ValidCode(c) && |data| < TWO_TO_63
    requires Survives(Shards(c, data), order, lost, s) && |lost| <= c.m
    ensures Reconstructed(c, s) == Written(data)
  {
    ShardShape(c, data);
    SurvivingIndices(Shards(c, data), order, lost, s);
    NeverWrongData(c, data, s);
  }

  /** Positions whose slot holds the genuine row. */
  function IntactAt(t: seq<Bytes>, w: seq<Bytes>): set<nat>
    requires |t| == |w|
  {
    set i: nat | i < |t| && t[i] == w[i]
  }

  /**
   Corruption never goes unnoticed: whatever the other slots hold, k genuine rows make
   Reconstruct write exactly the data or fail. It does not write anything else and
   never runs out of bounds at the length header.
   */
  lemma CorruptionDetected(c: Code, data: Bytes, s: seq<Bytes>)
    requires ValidCode(c) && |data| < TWO_TO_63
    requires |s| == c.k + c.m == |EncodedRows(c, data)|
    requires Slots(s, |s|).Some? ==> |IntactAt(Slots(s, |s|).value, EncodedRows(c, data))| >= c.k
    ensures Reconstructed(c, s).Failed? || Reconstructed(c, s) == Written(data)
  {
    ShardShape(c, data);
    if Slots(s, |s|).Some? {
      var t, w, len := Slots(s, |s|).value, EncodedRows(c, data), ShardLen(c, data);
      var at := IntactAt(t, w);
      if SizesAgree(t) && |PresentAt(t)| >= c.k {
        var i :| i in at;
        assert |t[i]| == len && FirstSize(t) == len;
        var f := c.fill(t);
        assert IsRows(f, c.k + c.m, len) && Matches(t, f);
        var d' := f[..c.k];
        if f == Codeword(c, d') {
          CodewordUnique(c, Split(c, Framed(data)), d', len, at);
          UnframeInverts(c, data);
        }
      }
    }
  }

  /* ---- Exact shard size ---- */

  const TAG_SIZE: nat := 16
  const BLOCK_SIZE: nat := 0x10_0000
  const MAX_SHARD_SIZE: nat := BLOCK_SIZE / (32 + 22)
  const CHUNK_SIZE: nat := 256 * 1024

  /**
   A plaintext block of L bytes, 16 tag bytes longer once sealed, becomes 32 + 22 shards
   of 1 + ceil((L + 24) / 32) bytes. They always pass the send limit and uint16, but the
   announced shard size of 19418 only up to L = 621320.
   */
  lemma ExactShardSize(c: Code, sealed: Bytes, plain: nat, i: nat)
    requires ValidCode(c) && c.k == 32 && c.m == 22
    requires plain <= BLOCK_SIZE && |sealed| == plain + TAG_SIZE
    requires i < 54
    ensures |Shards(c, sealed)| == 54
    ensures |Shards(c, sealed)[i]| == 1 + (plain + 24 + 31) / 32 <= 32770
    ensures 32770 < 0x1_0000 && 32770 <= CHUNK_SIZE
    ensures MAX_SHARD_SIZE == 19418
    ensures |Shards(c, sealed)[i]| <= MAX_SHARD_SIZE <==> plain <= 621320
  {
    ShardShape(c, sealed);
    assert ShardLen(c, sealed) == CeilDiv(plain + 24, 32);
    PlainShard(plain);
  }

  lemma PlainShard(plain: nat)
    requires plain <= BLOCK_SIZE
    ensures 1 + CeilDiv(plain + 24, 32) == 1 + (plain + 24 + 31) / 32 <= 32770
    ensures MAX_SHARD_SIZE == 19418
    ensures 1 + CeilDiv(plain + 24, 32) <= MAX_SHARD_SIZE <==> plain <= 621320
  {
    CeilDiv32(plain + 24);
  }

  lemma CeilDiv32(n: nat)
    ensures CeilDiv(n, 32) == (n + 31) / 32
    ensures CeilDiv(n, 32) <= 19417 <==> n <= 621344
    ensures CeilDiv(n, 32) <= 32769 <==> n <= 1048608
  {
    CeilDivBounds(n, 32);
  }
}
