/**
 Rendezvous placement: which guardian gets shard i of block b. The hash of
 "block:shard:peer" is an arbitrary score function.
 */
module Placement {
  import opened Basics
  import opened Erasure

  type Uuid = nat

  datatype Peer = Peer(id: Uuid)

  type Score = (nat, nat, Uuid) -> nat

  /** Position j scores at least as high as all, and strictly higher than all before it. */
  predicate IsFirstMax(f: Score, b: nat, i: nat, peers: seq<Peer>, j: nat) {
    && j < |peers|
    && (forall x :: 0 <= x < |peers| ==> f(b, i, peers[x].id) <= f(b, i, peers[j].id))
    && (forall x :: 0 <= x < j ==> f(b, i, peers[x].id) < f(b, i, peers[j].id))
  }

  function PickIndex(f: Score, b: nat, i: nat, peers: seq<Peer>): (j: nat)
    requires peers != []
    ensures j < |peers|
  {
    var n := |peers| - 1;
    if n == 0 then 0 else
    var j := PickIndex(f, b, i, peers[..n]);
    if f(b, i, peers[n].id) > f(b, i, peers[j].id) then n else j
  }

  /** The choice is the first peer of maximal score. */
  lemma {:induction false} PickIsFirstMax(f: Score, b: nat, i: nat, peers: seq<Peer>)
    requires peers != []
    ensures IsFirstMax(f, b, i, peers, PickIndex(f, b, i, peers))
  {
    if |peers| > 1 {
      PickIsFirstMax(f, b, i, peers[..|peers| - 1]);
    }
  }

  function Pick(f: Score, b: nat, i: nat, peers: seq<Peer>): Peer
    requires peers != []
  {
    peers[PickIndex(f, b, i, peers)]
  }

  /** The loop of the source; nil for no peers. */
  method PickRemotePeer(f: Score, block: nat, shard: nat, peers: seq<Peer>) returns (best: Option<Peer>)
    ensures best == if peers == [] then None else Some(Pick(f, block, shard, peers))
  {
    var bestScore := 0;
    best := None;
    for x := 0 to |peers|
      invariant best.None? <==> x == 0
      invariant x > 0 ==> best == Some(Pick(f, block, shard, peers[..x]))
      invariant x > 0 ==> bestScore == f(block, shard, best.value.id)
    {
      var score := f(block, shard, peers[x].id);
      assert peers[..x + 1][..x] == peers[..x];
      if best.None? || score > bestScore {
        best := Some(peers[x]);
        bestScore := score;
      }
    }
    assert peers[..|peers|] == peers;
  }

  /* ---- Minimal disruption ---- */

  lemma FirstMaxUnique(f: Score, b: nat, i: nat, peers: seq<Peer>, j: nat, j': nat)
    requires IsFirstMax(f, b, i, peers, j) && IsFirstMax(f, b, i, peers, j')
    ensures j == j'
  {
    assert f(b, i, peers[j].id) == f(b, i, peers[j'].id);
  }

  /** Removing one peer moves only the shards that were on it. */
  lemma RemovalMovesOnlyItsShards(f: Score, b: nat, i: nat, peers: seq<Peer>, r: nat)
    requires r < |peers| && Pick(f, b, i, peers) != peers[r]
    ensures Pick(f, b, i, peers[..r] + peers[r + 1..]) == Pick(f, b, i, peers)
  {
    PickIsFirstMax(f, b, i, peers);
    PickIsFirstMax(f, b, i, peers[..r] + peers[r + 1..]);
    var fewer, j := peers[..r] + peers[r + 1..], PickIndex(f, b, i, peers);
    var j' := if j < r then j else j - 1;
    assert fewer[j'] == peers[j];
    assert IsFirstMax(f, b, i, fewer, j') by {
      forall x | 0 <= x < |fewer| ensures fewer[x] == peers[if x < r then x else x + 1] {}
    }
    FirstMaxUnique(f, b, i, fewer, j', PickIndex(f, b, i, fewer));
  }

  /** Appending a peer moves shards only onto it. */
  lemma AppendMovesOnlyOntoNewcomer(f: Score, b: nat, i: nat, peers: seq<Peer>, q: Peer)
    requires peers != [] && Pick(f, b, i, peers + [q]) != q
    ensures Pick(f, b, i, peers + [q]) == Pick(f, b, i, peers)
  {
    assert (peers + [q])[..|peers|] == peers;
  }

  /** With distinct scores the choice depends on who is in the list, not on its order. */
  lemma OrderIrrelevant(f: Score, b: nat, i: nat, peers: seq<Peer>, peers': seq<Peer>)
    requires peers != [] && peers' != []
    requires forall p :: p in peers <==> p in peers'
    requires forall p, q :: p in peers && q in peers && p != q ==> f(b, i, p.id) != f(b, i, q.id)
    ensures Pick(f, b, i, peers) == Pick(f, b, i, peers')
  {
    PickIsFirstMax(f, b, i, peers);
    PickIsFirstMax(f, b, i, peers');
    var p, q := Pick(f, b, i, peers), Pick(f, b, i, peers');
    assert p in peers' && q in peers;
    var x :| 0 <= x < |peers| && peers[x] == q;
    var y :| 0 <= y < |peers'| && peers'[y] == p;
    assert f(b, i, peers[x].id) <= f(b, i, p.id) && f(b, i, peers'[y].id) <= f(b, i, q.id);
  }

  /* ---- Loads ---- */

  /** The shards, of n, that block b puts on the guardians in g. */
  function Load(f: Score, b: nat, n: nat, peers: seq<Peer>, g: set<Peer>): set<nat>
    requires peers != []
  {
    set i: nat | i < n && Pick(f, b, i, peers) in g
  }

  predicate Distinct<T(==)>(s: seq<T>) {
    forall i, j :: 0 <= i < j < |s| ==> s[i] != s[j]
  }

  function Members<T>(s: seq<T>): set<T> {
    set x | x in s
  }

  function SumOfLoads(f: Score, b: nat, n: nat, peers: seq<Peer>, gs: seq<Peer>): nat
    requires peers != []
  {
    if gs == [] then 0 else
    SumOfLoads(f, b, n, peers, gs[..|gs| - 1]) + |Load(f, b, n, peers, {gs[|gs| - 1]})|
  }

  lemma {:induction false} LoadsAdd(f: Score, b: nat, n: nat, peers: seq<Peer>, gs: seq<Peer>)
    requires peers != [] && Distinct(gs)
    ensures SumOfLoads(f, b, n, peers, gs) == |Load(f, b, n, peers, Members(gs))|
  {
    if gs != [] {
      var rest, last := gs[..|gs| - 1], gs[|gs| - 1];
      LoadsAdd(f, b, n, peers, rest);
      var l, l' := Load(f, b, n, peers, Members(rest)), Load(f, b, n, peers, {last});
      assert l !! l' by { assert last !in rest; }
      assert Members(gs) == Members(rest) + {last};
      assert Load(f, b, n, peers, Members(gs)) == l + l';
    } else {
      assert Load(f, b, n, peers, {}) == {};
    }
  }

  /** Over distinct guardians, the loads of a block sum to its number of shards. */
  lemma LoadsSumToShards(f: Score, b: nat, n: nat, peers: seq<Peer>)
    requires peers != [] && Distinct(peers)
    ensures SumOfLoads(f, b, n, peers, peers) == n
  {
    LoadsAdd(f, b, n, peers, peers);
    UpToSize(n);
    assert Load(f, b, n, peers, Members(peers)) == UpTo(n);
  }

  /** The shards with those at the positions `gone` missing. */
  function Without(shards: seq<Bytes>, gone: set<nat>): (left: seq<Bytes>)
    ensures |left| == |shards|
    ensures forall i :: 0 <= i < |left| ==> left[i] == if i in gone then [] else shards[i]
  {
    seq(|shards|, i requires 0 <= i < |shards| => if i in gone then [] else shards[i])
  }

  lemma WithoutIndices(shards: seq<Bytes>, gone: set<nat>)
    requires forall i :: 0 <= i < |shards| ==> |shards[i]| > 0 && shards[i][0] == i
    requires gone <= UpTo(|shards|)
    ensures |Indices(Without(shards, gone))| == |shards| - |gone|
  {
    UpToSize(|shards|);
    var left, all := Without(shards, gone), UpTo(|shards|);
    forall i: nat | i < |shards| ensures i in Indices(left) <==> i !in gone {
      if i !in gone { assert left[i] == shards[i]; }
    }
    assert Indices(left) == all - gone;
    assert all == (all - gone) + gone;
    DisjointSize(all - gone, gone);
  }

  lemma WithoutDecides(c: Code, data: Bytes, gone: set<nat>)
    requires ValidCode(c) && |data| < TWO_TO_63 && gone <= UpTo(c.k + c.m)
    ensures Reconstructed(c, Without(Shards(c, data), gone)) == Written(data) <==> |gone| <= c.m
  {
    ShardShape(c, data);
    WithoutIndices(Shards(c, data), gone);
    NeverWrongData(c, data, Without(Shards(c, data), gone));
  }

  /**
   A block survives losing a set of guardians exactly when they hold at most m of its
   k + m shards, wherever the hash has put them.
   */
  lemma SurvivesExactly(c: Code, data: Bytes, f: Score, b: nat, peers: seq<Peer>, lost: set<Peer>)
    requires ValidCode(c) && |data| < TWO_TO_63 && peers != []
    ensures var gone := Load(f, b, c.k + c.m, peers, lost);
            Reconstructed(c, Without(Shards(c, data), gone)) == Written(data) <==> |gone| <= c.m
  {
    WithoutDecides(c, data, Load(f, b, c.k + c.m, peers, lost));
  }

  /* ---- Capacity ---- */

  /** Shards that blocks 1..blocks put on one guardian. */
  function Burden(f: Score, blocks: nat, n: nat, peers: seq<Peer>, p: Peer): nat
    requires peers != []
  {
    if blocks == 0 then 0 else
    Burden(f, blocks - 1, n, peers, p) + |Load(f, blocks, n, peers, {p})|
  }

  function SumOfBurdens(f: Score, blocks: nat, n: nat, peers: seq<Peer>, gs: seq<Peer>): nat
    requires peers != []
  {
    if gs == [] then 0 else
    SumOfBurdens(f, blocks, n, peers, gs[..|gs| - 1]) + Burden(f, blocks, n, peers, gs[|gs| - 1])
  }

  lemma {:induction false} BurdensStep(f: Score, blocks: nat, n: nat, peers: seq<Peer>, gs: seq<Peer>)
    requires peers != []
    ensures SumOfBurdens(f, 0, n, peers, gs) == 0
    ensures blocks > 0 ==>
              (SumOfBurdens(f, blocks, n, peers, gs) ==
               SumOfBurdens(f, blocks - 1, n, peers, gs) + SumOfLoads(f, blocks, n, peers, gs))
  {
    if gs != [] {
      BurdensStep(f, blocks, n, peers, gs[..|gs| - 1]);
    }
  }

  function Times(n: nat, blocks: nat): nat {
    if blocks == 0 then 0 else Times(n, blocks - 1) + n
  }

  lemma {:induction false} TimesIsProduct(n: nat, blocks: nat)
    ensures Times(n, blocks) == n * blocks
  {
    if blocks > 0 {
      TimesIsProduct(n, blocks - 1);
      MulStep(n, blocks);
    }
  }

  /** Over distinct guardians, the burdens sum to all shards of all blocks. */
  lemma {:induction false} BurdensSum(f: Score, blocks: nat, n: nat, peers: seq<Peer>)
    requires peers != [] && Distinct(peers)
    ensures SumOfBurdens(f, blocks, n, peers, peers) == Times(n, blocks)
  {
    BurdensStep(f, blocks, n, peers, peers);
    if blocks > 0 {
      BurdensSum(f, blocks - 1, n, peers);
      LoadsSumToShards(f, blocks, n, peers);
    }
  }

  /** If the shards exceed `limit` per guardian overall, some guardian is over the limit. */
  lemma {:induction false} SomeoneOverLimit(f: Score, blocks: nat, n: nat, peers: seq<Peer>, gs: seq<Peer>, limit: nat)
    requires peers != [] && SumOfBurdens(f, blocks, n, peers, gs) > limit * |gs|
    ensures exists p :: p in gs && Burden(f, blocks, n, peers, p) > limit
  {
    if gs != [] {
      var rest, p := gs[..|gs| - 1], gs[|gs| - 1];
      MulStep(limit, |gs|);
      if Burden(f, blocks, n, peers, p) > limit {
        assert p in gs;
      } else {
        SomeoneOverLimit(f, blocks, n, peers, rest, limit);
      }
    }
  }

  const MAX_SHARDS: nat := 1000

  /** 54 * blocks > 1000 * guardians forces some guardian past the receive limit. */
  lemma CapacityExceeded(f: Score, blocks: nat, n: nat, peers: seq<Peer>)
    requires peers != [] && Distinct(peers)
    requires n * blocks > MAX_SHARDS * |peers|
    ensures exists p :: p in peers && Burden(f, blocks, n, peers, p) > MAX_SHARDS
  {
    BurdensSum(f, blocks, n, peers);
    TimesIsProduct(n, blocks);
    SomeoneOverLimit(f, blocks, n, peers, peers, MAX_SHARDS);
  }
}
