/**
 The recovery theorem: whoever survives, with k shards of every block and enough key
 shares among them, the procedure gives back exactly what the owner sent out.
 */
module Recoverability {
  import opened Basics
  import opened Erasure
  import opened Placement
  import opened Chunking
  import opened Capsule
  import opened BlockSink
  import opened Distribution
  import opened Recovery

  /* ---- A guardian's share of one repair group ---- */

  lemma {:induction false} CaptureKeepsShards(inbox: seq<Packet>, g: Uuid)
    ensures GroupPackets(Capture(inbox).shards, g) == GroupPackets(inbox, g)
  {
    if inbox != [] {
      var n := |inbox| - 1;
      CaptureKeepsShards(inbox[..n], g);
      if inbox[n].msg.ShardStream? {
        var before := Capture(inbox[..n]).shards;
        assert (before + [inbox[n]])[..|before|] == before;
      }
    }
  }

  lemma {:induction false} InboxOfGroup(sent: seq<Delivery>, p: Peer, g: Uuid)
    ensures GroupPackets(Inbox(sent, p), g) == Inbox(GroupOf(sent, g), p)
  {
    if sent != [] {
      var n := |sent| - 1;
      InboxOfGroup(sent[..n], p, g);
      var inbox, group := Inbox(sent[..n], p), GroupOf(sent[..n], g);
      assert (inbox + [sent[n].packet])[..|inbox|] == inbox;
      assert (group + [sent[n]])[..|group|] == group;
      assert Inbox(sent, p) == if sent[n].to == p then inbox + [sent[n].packet] else inbox;
      assert GroupOf(sent, g) == if InGroup(sent[n], g) then group + [sent[n]] else group;
    }
  }

  /** What the peers in `qs`, one after the other, got of `ds`. */
  function Gathered(ds: seq<Delivery>, qs: seq<Peer>): seq<Packet> {
    if qs == [] then [] else Gathered(ds, qs[..|qs| - 1]) + Inbox(ds, qs[|qs| - 1])
  }

  function PeersAt(peers: seq<Peer>, at: seq<nat>): seq<Peer>
    requires forall i :: 0 <= i < |at| ==> at[i] < |peers|
  {
    seq(|at|, i requires 0 <= i < |at| => peers[at[i]])
  }

  /** The storages are what the peers captured of the traffic. */
  predicate Holds(storages: seq<Storage>, sent: seq<Delivery>, peers: seq<Peer>) {
    |storages| == |peers| && forall i :: 0 <= i < |peers| ==> storages[i] == Capture(Inbox(sent, peers[i]))
  }

  lemma {:induction false} CollectedGroup(storages: seq<Storage>, sent: seq<Delivery>, peers: seq<Peer>,
                                          at: seq<nat>, g: Uuid)
    requires Holds(storages, sent, peers)
    requires forall i :: 0 <= i < |at| ==> at[i] < |peers|
    ensures GroupPackets(Collected(storages, at), g) == Gathered(GroupOf(sent, g), PeersAt(peers, at))
  {
    if at != [] {
      var n := |at| - 1;
      CollectedGroup(storages, sent, peers, at[..n], g);
      assert PeersAt(peers, at)[..n] == PeersAt(peers, at[..n]);
      GroupPacketsConcat(Collected(storages, at[..n]), storages[at[n]].shards, g);
      CaptureKeepsShards(Inbox(sent, peers[at[n]]), g);
      InboxOfGroup(sent, peers[at[n]], g);
    }
  }

  /* ---- Shards placed on peers ---- */

  /** Delivery i carries row i of w behind its index, and goes to place[i]. */
  predicate Placed(ds: seq<Delivery>, w: seq<Bytes>, place: seq<Peer>, nonce: Bytes) {
    && |ds| == |w| == |place| <= 256
    && forall i :: 0 <= i < |ds| ==>
         ds[i].to == place[i] && ds[i].packet.data == [i as Byte] + w[i] && NonceOf(ds[i].packet) == nonce
  }

  /** The positions below n placed on one of `qs`. */
  function PositionsOf(place: seq<Peer>, n: nat, qs: set<Peer>): set<nat>
    requires n <= |place|
  {
    set i: nat | i < n && place[i] in qs
  }

  predicate ShardPacket(w: seq<Bytes>, nonce: Bytes, p: Packet) {
    p.data != [] && ShardOf(w, p.data) && NonceOf(p) == nonce
  }

  /** Every packet is one of the placed shards, no two of them the same, and they are those at `at`. */
  predicate Carries(ps: seq<Packet>, w: seq<Bytes>, nonce: Bytes, at: set<nat>) {
    && (forall i :: 0 <= i < |ps| ==> ShardPacket(w, nonce, ps[i]))
    && Indices(Datas(ps)) == at
    && |ps| == |at|
  }

  lemma CarriesConcat(a: seq<Packet>, b: seq<Packet>, w: seq<Bytes>, nonce: Bytes, at: set<nat>, at': set<nat>)
    requires Carries(a, w, nonce, at) && Carries(b, w, nonce, at') && at !! at'
    ensures Carries(a + b, w, nonce, at + at')
  {
    var c := a + b;
    forall i | 0 <= i < |c| ensures ShardPacket(w, nonce, c[i]) {
      if i < |a| { assert c[i] == a[i]; } else { assert c[i] == b[i - |a|]; }
    }
    assert Datas(c) == Datas(a) + Datas(b);
    IndicesConcat(Datas(a), Datas(b));
    DisjointSize(at, at');
  }

  lemma CarriesOne(p: Packet, w: seq<Bytes>, nonce: Bytes, i: nat)
    requires i < |w| <= 256 && p.data == [i as Byte] + w[i] && NonceOf(p) == nonce
    ensures Carries([p], w, nonce, {i})
  {
    var d := Datas([p]);
    assert d[0] == p.data && p.data[0] == i;
    assert Indices(d) == {i};
  }

  lemma NothingCarried(w: seq<Bytes>, place: seq<Peer>, nonce: Bytes, qs: set<Peer>)
    ensures Carries([], w, nonce, PositionsOf(place, 0, qs))
  {
    assert Datas([]) == [];
    assert PositionsOf(place, 0, qs) == {} == Indices([]);
  }

  lemma {:induction false} InboxCarries(ds: seq<Delivery>, w: seq<Bytes>, place: seq<Peer>, nonce: Bytes, n: nat, q: Peer)
    requires Placed(ds, w, place, nonce) && n <= |ds|
    ensures Carries(Inbox(ds[..n], q), w, nonce, PositionsOf(place, n, {q}))
  {
    if n == 0 {
      NothingCarried(w, place, nonce, {q});
    } else {
      var i := n - 1;
      InboxCarries(ds, w, place, nonce, i, q);
      CarriesNext(ds, w, place, nonce, i, q, Inbox(ds[..i], q));
      assert ds[..n][..i] == ds[..i];
    }
  }

  lemma PositionsNext(place: seq<Peer>, i: nat, q: Peer)
    requires i < |place|
    ensures PositionsOf(place, i + 1, {q}) == PositionsOf(place, i, {q}) + if place[i] == q then {i} else {}
  {
  }

  lemma CarriesNext(ds: seq<Delivery>, w: seq<Bytes>, place: seq<Peer>, nonce: Bytes, i: nat, q: Peer, before: seq<Packet>)
    requires Placed(ds, w, place, nonce) && i < |ds|
    requires Carries(before, w, nonce, PositionsOf(place, i, {q}))
    ensures Carries(before + if ds[i].to == q then [ds[i].packet] else [], w, nonce, PositionsOf(place, i + 1, {q}))
  {
    PositionsNext(place, i, q);
    if place[i] == q {
      CarriesOne(ds[i].packet, w, nonce, i);
      CarriesConcat(before, [ds[i].packet], w, nonce, PositionsOf(place, i, {q}), {i});
    } else {
      assert before + [] == before && PositionsOf(place, i, {q}) + {} == PositionsOf(place, i, {q});
    }
  }

  lemma PositionsJoin(place: seq<Peer>, rest: seq<Peer>, q: Peer)
    requires q !in rest
    ensures PositionsOf(place, |place|, Members(rest)) !! PositionsOf(place, |place|, {q})
    ensures PositionsOf(place, |place|, Members(rest + [q])) ==
            PositionsOf(place, |place|, Members(rest)) + PositionsOf(place, |place|, {q})
  {
    assert Members(rest + [q]) == Members(rest) + {q};
  }

  /** Distinct peers together hold each of their shards once. */
  lemma {:induction false} GatheredCarries(ds: seq<Delivery>, w: seq<Bytes>, place: seq<Peer>, nonce: Bytes, qs: seq<Peer>)
    requires Placed(ds, w, place, nonce) && Distinct(qs)
    ensures Carries(Gathered(ds, qs), w, nonce, PositionsOf(place, |place|, Members(qs)))
  {
    if qs == [] {
      assert PositionsOf(place, |place|, Members(qs)) == {} == Indices(Datas([]));
    } else {
      var rest, q := qs[..|qs| - 1], qs[|qs| - 1];
      GatheredCarries(ds, w, place, nonce, rest);
      InboxCarries(ds, w, place, nonce, |ds|, q);
      assert ds[..|ds|] == ds;
      assert q !in rest && rest + [q] == qs;
      PositionsJoin(place, rest, q);
      CarriesConcat(Gathered(ds, rest), Inbox(ds, q), w, nonce,
                    PositionsOf(place, |place|, Members(rest)), PositionsOf(place, |place|, {q}));
    }
  }

  /* ---- One block ---- */

  lemma FilledIndices(shards: seq<Bytes>, total: nat)
    requires |shards| <= total
    ensures Indices(PutInSlots(shards, total)) == Indices(shards)
  {
    var f := PutInSlots(shards, total);
    forall x ensures x in Indices(f) <==> x in Indices(shards) {
      if x in Indices(shards) {
        var i: nat :| i < |shards| && shards[i] != [] && shards[i][0] == x;
        assert f[i] == shards[i];
      }
    }
  }

  lemma CarriedFits(ps: seq<Packet>, w: seq<Bytes>, nonce: Bytes, at: set<nat>, total: nat)
    requires Carries(ps, w, nonce, at) && at <= UpTo(total)
    ensures |ps| == |at| <= total
  {
    UpToSize(total);
    SubsetSize(at, UpTo(total));
  }

  lemma SlotIsShard(ps: seq<Packet>, w: seq<Bytes>, nonce: Bytes, at: set<nat>, total: nat, i: nat)
    requires Carries(ps, w, nonce, at) && i < total
    ensures ShardOf(w, PutInSlots(Datas(ps), total)[i])
  {
    if i < |ps| {
      assert ShardPacket(w, nonce, ps[i]);
    }
  }

  lemma SlotsGenuine(c: Code, ps: seq<Packet>, sealed: Bytes, nonce: Bytes, at: set<nat>)
    requires c.k >= 1 && Carries(ps, EncodedRows(c, sealed), nonce, at) && at <= UpTo(c.k + c.m)
    ensures Genuine(c, sealed, PutInSlots(Datas(ps), c.k + c.m))
    ensures Indices(PutInSlots(Datas(ps), c.k + c.m)) == at && |ps| == |at|
  {
    var w, total := EncodedRows(c, sealed), c.k + c.m;
    CarriedFits(ps, w, nonce, at, total);
    FilledIndices(Datas(ps), total);
    SlotsAreShards(ps, w, nonce, at, total);
  }

  lemma SlotsAreShards(ps: seq<Packet>, w: seq<Bytes>, nonce: Bytes, at: set<nat>, total: nat)
    requires Carries(ps, w, nonce, at)
    ensures forall i :: 0 <= i < total ==> ShardOf(w, PutInSlots(Datas(ps), total)[i])
  {
    forall i | 0 <= i < total ensures ShardOf(w, PutInSlots(Datas(ps), total)[i]) {
      SlotIsShard(ps, w, nonce, at, total, i);
    }
  }

  /** k of the shards reconstruct the sealed bytes, fewer nothing. */
  lemma SlotsDecide(c: Code, ps: seq<Packet>, sealed: Bytes, nonce: Bytes, at: set<nat>)
    requires ValidCode(c) && |sealed| < TWO_TO_63
    requires Carries(ps, EncodedRows(c, sealed), nonce, at) && at <= UpTo(c.k + c.m)
    ensures |ps| == |at|
    ensures Reconstructed(c, PutInSlots(Datas(ps), c.k + c.m)) == Written(sealed) <==> |at| >= c.k
  {
    SlotsGenuine(c, ps, sealed, nonce, at);
    NeverWrongData(c, sealed, PutInSlots(Datas(ps), c.k + c.m));
  }

  lemma SealedFromOutcome(env: Env, ps: seq<Packet>, sealed: Bytes, held: nat)
    requires env.code.k >= 1 && |ps| == held
    requires Reconstructed(env.code, PutInSlots(Datas(ps), env.code.k + env.code.m)) == Written(sealed) <==> held >= env.code.k
    ensures SealedBlock(env, ps) == if held >= env.code.k then Some(sealed) else None
  {
  }

  lemma CarriedDecide(env: Env, ps: seq<Packet>, sealed: Bytes, nonce: Bytes, at: set<nat>)
    requires ValidCode(env.code) && |sealed| < TWO_TO_63
    requires Carries(ps, EncodedRows(env.code, sealed), nonce, at) && at <= UpTo(env.code.k + env.code.m)
    ensures SealedBlock(env, ps) == if |at| >= env.code.k then Some(sealed) else None
  {
    SlotsDecide(env.code, ps, sealed, nonce, at);
    SealedFromOutcome(env, ps, sealed, |at|);
  }

  /** Where the placement puts the shards of block `blockID`. */
  function Places(s: Sender, blockID: nat, n: nat): seq<Peer>
    requires s.peers != []
  {
    seq(n, i requires 0 <= i < n => Pick(s.env.score, blockID, i, s.peers))
  }

  /** A block survives with `qs` when they hold k of its shards. */
  predicate Covered(s: Sender, blockID: nat, qs: set<Peer>)
    requires s.peers != []
  {
    |Load(s.env.score, blockID, s.env.code.k + s.env.code.m, s.peers, qs)| >= s.env.code.k
  }

  lemma SealedOpens(s: Sender, blockID: nat, b: SentBlock)
    requires ValidEnv(s.env) && ValidBlock(s, blockID, b)
    ensures |Sealed(s, blockID, b.plain, b.nonce)| < TWO_TO_63
    ensures s.env.decrypt(BlockKey(s.env, s.masterKey, blockID), b.nonce, Sealed(s, blockID, b.plain, b.nonce))
         == Some(b.plain)
  {
    var key := BlockKey(s.env, s.masterKey, blockID);
    assert |key| == KEY_SIZE;
    assert |s.env.encrypt(key, b.nonce, b.plain)| == |b.plain| + TAG_SIZE;
  }

  lemma ShardsOfSealed(s: Sender, blockID: nat, b: SentBlock)
    requires ValidEnv(s.env) && ValidBlock(s, blockID, b)
    ensures b.shards == Tagged(EncodedRows(s.env.code, Sealed(s, blockID, b.plain, b.nonce)))
    ensures |b.shards| == s.env.code.k + s.env.code.m <= 256
  {
    SealedOpens(s, blockID, b);
    ShardShape(s.env.code, Sealed(s, blockID, b.plain, b.nonce));
  }

  lemma DeliveriesArePlaced(s: Sender, blockID: nat, b: SentBlock, w: seq<Bytes>)
    requires s.peers != [] && HasIDs(b) && b.shards == Tagged(w) && |w| <= 256
    ensures Placed(BlockDeliveries(s, blockID, b), w, Places(s, blockID, |w|), b.nonce)
  {
  }

  lemma PlacesAreLoad(s: Sender, blockID: nat, n: nat, qs: set<Peer>)
    requires s.peers != []
    ensures PositionsOf(Places(s, blockID, n), n, qs) == Load(s.env.score, blockID, n, s.peers, qs)
  {
  }

  /** The participants' packets of one block are exactly the shards the placement gave them. */
  lemma BlockCarried(s: Sender, blockID: nat, b: SentBlock, w: seq<Bytes>, qs: seq<Peer>)
    requires s.peers != [] && HasIDs(b) && b.shards == Tagged(w) && |w| <= 256 && Distinct(qs)
    ensures Carries(Gathered(BlockDeliveries(s, blockID, b), qs), w, b.nonce,
                    Load(s.env.score, blockID, |w|, s.peers, Members(qs)))
  {
    DeliveriesArePlaced(s, blockID, b, w);
    GatheredCarries(BlockDeliveries(s, blockID, b), w, Places(s, blockID, |w|), b.nonce, qs);
    PlacesAreLoad(s, blockID, |w|, Members(qs));
  }

  /** The block's shards are the tagged codeword of `sealed`. */
  ghost predicate Codes(s: Sender, b: SentBlock, sealed: Bytes) {
    && s.peers != [] && ValidCode(s.env.code) && HasIDs(b) && |sealed| < TWO_TO_63
    && b.shards == Tagged(EncodedRows(s.env.code, sealed)) && |b.shards| == s.env.code.k + s.env.code.m <= 256
  }

  lemma ValidBlockCodes(s: Sender, blockID: nat, b: SentBlock)
    requires s.peers != [] && ValidEnv(s.env) && ValidBlock(s, blockID, b)
    ensures Codes(s, b, Sealed(s, blockID, b.plain, b.nonce))
  {
    SealedOpens(s, blockID, b);
    ShardsOfSealed(s, blockID, b);
  }

  /** The shards of the block that the participants hold. */
  function Held(s: Sender, blockID: nat, qs: seq<Peer>): set<nat>
    requires s.peers != []
  {
    Load(s.env.score, blockID, s.env.code.k + s.env.code.m, s.peers, Members(qs))
  }

  lemma CodedCarried(s: Sender, blockID: nat, b: SentBlock, sealed: Bytes, qs: seq<Peer>)
    requires Codes(s, b, sealed) && Distinct(qs)
    ensures Carries(Gathered(BlockDeliveries(s, blockID, b), qs), EncodedRows(s.env.code, sealed), b.nonce,
                    Held(s, blockID, qs))
  {
    BlockCarried(s, blockID, b, EncodedRows(s.env.code, sealed), qs);
  }

  lemma HeldWithin(s: Sender, blockID: nat, qs: seq<Peer>)
    requires s.peers != []
    ensures Held(s, blockID, qs) <= UpTo(s.env.code.k + s.env.code.m)
    ensures Covered(s, blockID, Members(qs)) <==> |Held(s, blockID, qs)| >= s.env.code.k
  {
  }

  /** These packets, in some order, are the shards of the block that the placement gave `qs`. */
  ghost predicate HoldsBlock(s: Sender, blockID: nat, b: SentBlock, ps: seq<Packet>, qs: seq<Peer>) {
    && s.peers != [] && s.env.code.k >= 1
    && Carries(ps, EncodedRows(s.env.code, Sealed(s, blockID, b.plain, b.nonce)), b.nonce, Held(s, blockID, qs))
  }

  lemma GatheredHolds(s: Sender, blockID: nat, b: SentBlock, qs: seq<Peer>)
    requires s.peers != [] && ValidEnv(s.env) && ValidBlock(s, blockID, b) && Distinct(qs)
    ensures HoldsBlock(s, blockID, b, Gathered(BlockDeliveries(s, blockID, b), qs), qs)
  {
    ValidBlockCodes(s, blockID, b);
    CodedCarried(s, blockID, b, Sealed(s, blockID, b.plain, b.nonce), qs);
  }

  /** What the participants' packets of one block are worth. */
  lemma BlockRecovered(s: Sender, blockID: nat, b: SentBlock, ps: seq<Packet>, qs: seq<Peer>)
    requires ValidEnv(s.env) && ValidBlock(s, blockID, b) && HoldsBlock(s, blockID, b, ps, qs)
    ensures SealedBlock(s.env, ps) ==
              if Covered(s, blockID, Members(qs)) then Some(Sealed(s, blockID, b.plain, b.nonce)) else None
  {
    SealedOpens(s, blockID, b);
    HeldWithin(s, blockID, qs);
    CarriedDecide(s.env, ps, Sealed(s, blockID, b.plain, b.nonce), b.nonce, Held(s, blockID, qs));
  }

  lemma CarriedNonce(ps: seq<Packet>, w: seq<Bytes>, nonce: Bytes, at: set<nat>)
    requires Carries(ps, w, nonce, at) && |at| > 0
    ensures GroupNonce(ps) == nonce
  {
    assert ShardPacket(w, nonce, ps[0]);
  }

  /** A covered block's packets are there, and carry its nonce. */
  lemma BlockNonce(s: Sender, blockID: nat, b: SentBlock, ps: seq<Packet>, qs: seq<Peer>)
    requires HoldsBlock(s, blockID, b, ps, qs) && Covered(s, blockID, Members(qs))
    ensures GroupNonce(ps) == b.nonce
  {
    HeldWithin(s, blockID, qs);
    CarriedNonce(ps, EncodedRows(s.env.code, Sealed(s, blockID, b.plain, b.nonce)), b.nonce, Held(s, blockID, qs));
  }

  /* ---- All blocks ---- */

  lemma {:induction false} AllSomeExactly(os: seq<Option<Bytes>>, vals: seq<Bytes>, there: seq<bool>)
    requires |os| == |vals| == |there|
    requires forall j :: 0 <= j < |os| ==> os[j] == if there[j] then Some(vals[j]) else None
    ensures AllSome(os) == if (forall j :: 0 <= j < |os| ==> there[j]) then Some(vals) else None
  {
    if os != [] {
      var n := |os| - 1;
      AllSomeExactly(os[..n], vals[..n], there[..n]);
      assert vals == vals[..n] + [vals[n]];
      assert (forall j :: 0 <= j < |os| ==> there[j]) <==> (forall j :: 0 <= j < n ==> there[..n][j]) && there[n];
    }
  }

  /** The collected packets hold the shards of listed block n that the placement gave the participants. */
  ghost predicate BlockHeld(s: Sender, ps: seq<Packet>, blocks: seq<BlockManifest>, h: seq<SentBlock>, qs: seq<Peer>, n: nat)
    requires 1 <= n <= |blocks| == |h|
  {
    ValidBlock(s, n, h[n - 1]) && HoldsBlock(s, n, h[n - 1], GroupPackets(ps, blocks[n - 1].repairGroupID), qs)
  }

  /** They do so for all listed blocks. */
  ghost predicate CollectedAll(s: Sender, ps: seq<Packet>, blocks: seq<BlockManifest>, h: seq<SentBlock>, qs: seq<Peer>)
  {
    s.peers != [] && |blocks| == |h| && forall n :: 1 <= n <= |h| ==> BlockHeld(s, ps, blocks, h, qs, n)
  }

  predicate AllCovered(s: Sender, blocks: nat, qs: set<Peer>)
    requires s.peers != []
  {
    forall j :: 1 <= j <= blocks ==> Covered(s, j, qs)
  }

  function SealedHistory(s: Sender, h: seq<SentBlock>): (r: seq<Bytes>)
    ensures |r| == |h|
  {
    seq(|h|, j requires 0 <= j < |h| => Sealed(s, j + 1, h[j].plain, h[j].nonce))
  }

  lemma CollectedAt(s: Sender, ps: seq<Packet>, blocks: seq<BlockManifest>, h: seq<SentBlock>, qs: seq<Peer>, j: nat)
    requires CollectedAll(s, ps, blocks, h, qs) && j < |h|
    ensures ValidBlock(s, j + 1, h[j])
    ensures HoldsBlock(s, j + 1, h[j], GroupPackets(ps, blocks[j].repairGroupID), qs)
  {
    assert BlockHeld(s, ps, blocks, h, qs, j + 1);
  }

  lemma SealedAt(s: Sender, ps: seq<Packet>, blocks: seq<BlockManifest>, h: seq<SentBlock>, qs: seq<Peer>, j: nat)
    requires ValidEnv(s.env) && CollectedAll(s, ps, blocks, h, qs) && j < |h|
    ensures SealedBlocks(s.env, ps, blocks)[j] ==
              if Covered(s, j + 1, Members(qs)) then Some(SealedHistory(s, h)[j]) else None
  {
    CollectedAt(s, ps, blocks, h, qs, j);
    SealedSeqs(s, ps, blocks, h, j);
    BlockRecovered(s, j + 1, h[j], GroupPackets(ps, blocks[j].repairGroupID), qs);
  }

  lemma SealedSeqs(s: Sender, ps: seq<Packet>, blocks: seq<BlockManifest>, h: seq<SentBlock>, j: nat)
    requires j < |blocks| == |h|
    ensures SealedBlocks(s.env, ps, blocks)[j] == SealedBlock(s.env, GroupPackets(ps, blocks[j].repairGroupID))
    ensures SealedHistory(s, h)[j] == Sealed(s, j + 1, h[j].plain, h[j].nonce)
  {
  }

  lemma SomeWhereCovered(s: Sender, qs: set<Peer>, os: seq<Option<Bytes>>, vals: seq<Bytes>)
    requires s.peers != [] && |os| == |vals|
    requires forall j :: 0 <= j < |os| ==> os[j] == if Covered(s, j + 1, qs) then Some(vals[j]) else None
    ensures AllSome(os) == if AllCovered(s, |os|, qs) then Some(vals) else None
  {
    var there := seq(|os|, j requires 0 <= j < |os| => Covered(s, j + 1, qs));
    AllSomeExactly(os, vals, there);
    CoveredFlags(s, qs, there);
  }

  lemma SealedExactly(s: Sender, ps: seq<Packet>, blocks: seq<BlockManifest>, h: seq<SentBlock>, qs: seq<Peer>)
    requires ValidEnv(s.env) && CollectedAll(s, ps, blocks, h, qs)
    ensures AllSome(SealedBlocks(s.env, ps, blocks)) ==
              if AllCovered(s, |h|, Members(qs)) then Some(SealedHistory(s, h)) else None
  {
    forall j | 0 <= j < |h|
      ensures SealedBlocks(s.env, ps, blocks)[j] ==
                if Covered(s, j + 1, Members(qs)) then Some(SealedHistory(s, h)[j]) else None
    {
      SealedAt(s, ps, blocks, h, qs, j);
    }
    SomeWhereCovered(s, Members(qs), SealedBlocks(s.env, ps, blocks), SealedHistory(s, h));
  }

  lemma CoveredFlags(s: Sender, qs: set<Peer>, there: seq<bool>)
    requires s.peers != []
    requires forall j :: 0 <= j < |there| ==> there[j] == Covered(s, j + 1, qs)
    ensures AllCovered(s, |there|, qs) <==> forall j :: 0 <= j < |there| ==> there[j]
  {
    if forall j :: 0 <= j < |there| ==> there[j] {
      forall j | 1 <= j <= |there| ensures Covered(s, j, qs) {
        assert there[j - 1];
      }
    }
  }

  lemma OpenedExactly(s: Sender, ps: seq<Packet>, blocks: seq<BlockManifest>, h: seq<SentBlock>, qs: seq<Peer>)
    requires ValidEnv(s.env) && CollectedAll(s, ps, blocks, h, qs)
    requires AllCovered(s, |h|, Members(qs))
    ensures Joined(OpenedBlocks(s.env, ps, blocks, SealedHistory(s, h), s.masterKey)) == Some(Flatten(Plain(h)))
  {
    var os, vals := OpenedBlocks(s.env, ps, blocks, SealedHistory(s, h), s.masterKey), Plain(h);
    forall j | 0 <= j < |h| ensures os[j] == Some(vals[j]) {
      OpenedAt(s, ps, blocks, h, qs, j);
    }
    AllSomeExactly(os, vals, seq(|h|, _ => true));
  }

  lemma OpenedAt(s: Sender, ps: seq<Packet>, blocks: seq<BlockManifest>, h: seq<SentBlock>, qs: seq<Peer>, j: nat)
    requires ValidEnv(s.env) && CollectedAll(s, ps, blocks, h, qs) && j < |h|
    requires Covered(s, j + 1, Members(qs))
    ensures OpenedBlocks(s.env, ps, blocks, SealedHistory(s, h), s.masterKey)[j] == Some(h[j].plain)
  {
    CollectedAt(s, ps, blocks, h, qs, j);
    BlockOpens(s, j + 1, h[j], GroupPackets(ps, blocks[j].repairGroupID), qs);
    OpenedSeq(s, ps, blocks, h, j);
  }

  lemma BlockOpens(s: Sender, blockID: nat, b: SentBlock, ps: seq<Packet>, qs: seq<Peer>)
    requires ValidEnv(s.env) && ValidBlock(s, blockID, b) && HoldsBlock(s, blockID, b, ps, qs)
    requires Covered(s, blockID, Members(qs))
    ensures s.env.decrypt(BlockKey(s.env, s.masterKey, blockID), GroupNonce(ps), Sealed(s, blockID, b.plain, b.nonce))
         == Some(b.plain)
  {
    BlockNonce(s, blockID, b, ps, qs);
    SealedOpens(s, blockID, b);
  }

  lemma OpenedSeq(s: Sender, ps: seq<Packet>, blocks: seq<BlockManifest>, h: seq<SentBlock>, j: nat)
    requires j < |blocks| == |h|
    ensures OpenedBlocks(s.env, ps, blocks, SealedHistory(s, h), s.masterKey)[j] ==
              s.env.decrypt(BlockKey(s.env, s.masterKey, j + 1), GroupNonce(GroupPackets(ps, blocks[j].repairGroupID)),
                            Sealed(s, j + 1, h[j].plain, h[j].nonce))
  {
  }

  /* ---- Manifest and key shares ---- */

  lemma {:induction false} OnePerPeer(ds: seq<Delivery>, peers: seq<Peer>, n: nat, i: nat)
    requires |ds| == |peers| && Distinct(peers) && n <= |ds| && i < |ds|
    requires forall j :: 0 <= j < |ds| ==> ds[j].to == peers[j]
    ensures Inbox(ds[..n], peers[i]) == if i < n then [ds[i].packet] else []
  {
    if n > 0 {
      OnePerPeer(ds, peers, n - 1, i);
      assert ds[..n][..n - 1] == ds[..n - 1];
    }
  }

  /** After the blocks, the i-th active guardian gets the manifest and share i, and nothing else. */
  lemma ClosingInbox(log: CapsuleLog, i: nat)
    requires |log.sender.peers| <= |log.shares| && Distinct(log.sender.peers) && i < |log.sender.peers|
    ensures Inbox(Closing(log), log.sender.peers[i]) ==
              [ManifestPacket(log), Packet(KeyMsg(log.sender.capsuleID, |log.shares|, log.threshold), log.shares[i])]
  {
    var peers := log.sender.peers;
    var ms := ToAll(peers, ManifestPacket(log));
    var ks := KeyDeliveries(peers, KeyMsg(log.sender.capsuleID, |log.shares|, log.threshold), log.shares);
    OneOfAll(ms, peers, i);
    OneOfAll(ks, peers, i);
    InboxConcat(ms, ks, peers[i]);
  }

  lemma {:induction false} OneOfAll(ds: seq<Delivery>, peers: seq<Peer>, i: nat)
    requires |ds| == |peers| && Distinct(peers) && i < |ds|
    requires forall j :: 0 <= j < |ds| ==> ds[j].to == peers[j]
    ensures Inbox(ds, peers[i]) == [ds[i].packet]
  {
    OnePerPeer(ds, peers, |peers|, i);
    assert ds[..|peers|] == ds;
  }

  lemma CaptureClosing(inbox: seq<Packet>, manifest: Packet, key: Packet)
    requires manifest.msg.ManifestStream? && key.msg.KeyShare? && key.data != []
    ensures Capture(inbox + [manifest, key]).manifest == Some(manifest.msg)
    ensures Capture(inbox + [manifest, key]).keyShare == key.data
  {
    assert (inbox + [manifest, key])[..|inbox| + 1] == inbox + [manifest];
    assert (inbox + [manifest])[..|inbox|] == inbox;
  }

  lemma HoldsClosing(log: CapsuleLog, before: seq<Delivery>, storages: seq<Storage>, i: nat)
    requires |log.sender.peers| <= |log.shares| && Distinct(log.sender.peers) && i < |log.sender.peers|
    requires log.shares[i] != []
    requires Holds(storages, before + Closing(log), log.sender.peers)
    ensures storages[i].manifest == Some(ManifestPacket(log).msg) && storages[i].keyShare == log.shares[i]
  {
    var p := log.sender.peers[i];
    InboxConcat(before, Closing(log), p);
    ClosingInbox(log, i);
    CaptureClosing(Inbox(before, p), ManifestPacket(log),
                   Packet(KeyMsg(log.sender.capsuleID, |log.shares|, log.threshold), log.shares[i]));
  }

  lemma ClosingHasNoShards(log: CapsuleLog, before: seq<Delivery>, g: Uuid)
    requires |log.sender.peers| <= |log.shares|
    ensures GroupOf(before + Closing(log), g) == GroupOf(before, g)
  {
    GroupConcat(before, Closing(log), g);
    GroupAllOrNone(Closing(log), g);
  }

  /* ---- The theorem ---- */

  lemma CollectedListed(log: CapsuleLog, before: seq<Delivery>, known: set<Uuid>, storages: seq<Storage>, at: seq<nat>)
    requires |log.sender.peers| <= |log.shares| && log.sender.peers != []
    requires Describes(log.sender, log.blocks, log.history, log.parts)
    requires GroupsKept(before, Groups(log.history), log.parts, known)
    requires Holds(storages, before + Closing(log), log.sender.peers)
    requires forall i :: 0 <= i < |at| ==> at[i] < |storages|
    ensures ValidEnv(log.sender.env) && Distinct(PeersAt(log.sender.peers, at)) ==>
              CollectedAll(log.sender, Collected(storages, at), log.blocks, log.history, PeersAt(log.sender.peers, at))
  {
    var ps, qs := Collected(storages, at), PeersAt(log.sender.peers, at);
    if ValidEnv(log.sender.env) && Distinct(qs) {
      forall n | 1 <= n <= |log.history| ensures BlockHeld(log.sender, ps, log.blocks, log.history, qs, n) {
        ListedGroup(log, before, known, n);
        ListedHeld(log.sender, storages, before + Closing(log), at, ps, qs, n, log.blocks, log.history);
      }
    }
  }

  lemma ListedHeld(s: Sender, storages: seq<Storage>, sent: seq<Delivery>, at: seq<nat>, ps: seq<Packet>, qs: seq<Peer>,
                   n: nat, blocks: seq<BlockManifest>, h: seq<SentBlock>)
    requires ValidEnv(s.env) && s.peers != [] && 1 <= n <= |blocks| == |h|
    requires ValidBlock(s, n, h[n - 1]) && blocks[n - 1].repairGroupID == h[n - 1].group
    requires Holds(storages, sent, s.peers) && forall i :: 0 <= i < |at| ==> at[i] < |storages|
    requires ps == Collected(storages, at) && qs == PeersAt(s.peers, at) && Distinct(qs)
    requires GroupOf(sent, h[n - 1].group) == BlockDeliveries(s, n, h[n - 1])
    ensures BlockHeld(s, ps, blocks, h, qs, n)
  {
    CollectedGroup(storages, sent, s.peers, at, h[n - 1].group);
    GatheredHolds(s, n, h[n - 1], qs);
  }

  /** What is on the wire under the group of a listed block. */
  lemma ListedGroup(log: CapsuleLog, before: seq<Delivery>, known: set<Uuid>, blockID: nat)
    requires |log.sender.peers| <= |log.shares|
    requires Describes(log.sender, log.blocks, log.history, log.parts)
    requires GroupsKept(before, Groups(log.history), log.parts, known) && 1 <= blockID <= |log.history|
    ensures log.sender.peers != [] && ValidBlock(log.sender, blockID, log.history[blockID - 1])
    ensures log.blocks[blockID - 1].repairGroupID == log.history[blockID - 1].group
    ensures GroupOf(before + Closing(log), log.history[blockID - 1].group) ==
              BlockDeliveries(log.sender, blockID, log.history[blockID - 1])
  {
    DescribesBlock(log.sender, log.blocks, log.history, log.parts, blockID);
    ClosingHasNoShards(log, before, log.history[blockID - 1].group);
    assert GroupOf(before, Groups(log.history)[blockID - 1]) == log.parts[blockID - 1];
  }

  lemma SharesCombine(log: CapsuleLog, before: seq<Delivery>, storages: seq<Storage>, parts: nat, at: seq<nat>)
    requires |log.sender.peers| <= |log.shares| && Distinct(log.sender.peers)
    requires IsSharing(log.sender.env, log.sender.masterKey, parts, log.threshold, log.shares)
    requires Holds(storages, before + Closing(log), log.sender.peers)
    requires Distinct(at) && forall i :: 0 <= i < |at| ==> at[i] < |storages|
    ensures log.sender.env.combine(KeyShares(storages, at)) == Some(log.sender.masterKey) <==> |at| >= log.threshold
  {
    forall i | 0 <= i < |at| ensures storages[at[i]].keyShare == log.shares[at[i]] {
      assert |log.shares[at[i]]| > 0;
      HoldsClosing(log, before, storages, at[i]);
    }
    assert KeyShares(storages, at) == Select(log.shares, at);
  }

  /** Storages from which manifest, master key and the shards of all listed blocks can be had. */
  ghost predicate Offers(log: CapsuleLog, storages: seq<Storage>, at: seq<nat>) {
    && storages != [] && |storages| == |log.sender.peers| && (forall i :: 0 <= i < |at| ==> at[i] < |storages|)
    && storages[0].manifest == Some(ManifestPacket(log).msg)
    && log.sender.env.combine(KeyShares(storages, at)) == Some(log.sender.masterKey)
    && CollectedAll(log.sender, Collected(storages, at), log.blocks, log.history, PeersAt(log.sender.peers, at))
  }

  /** From such storages the blocks sent come back exactly if each of them is covered, and nothing does otherwise. */
  lemma OfferedRecovers(log: CapsuleLog, storages: seq<Storage>, at: seq<nat>)
    requires ValidEnv(log.sender.env) && Offers(log, storages, at)
    ensures Recovered(log.sender.env, storages, at) ==
              if AllCovered(log.sender, |log.history|, Members(PeersAt(log.sender.peers, at)))
              then Some(Flatten(Plain(log.history))) else None
  {
    var s, h, ps, qs := log.sender, log.history, Collected(storages, at), PeersAt(log.sender.peers, at);
    SealedExactly(s, ps, log.blocks, h, qs);
    if AllCovered(s, |h|, Members(qs)) {
      OpenedExactly(s, ps, log.blocks, h, qs);
    }
  }

  /**
   End-to-end recovery. After a successful run, any distinct participants with threshold
   key shares recover something exactly when they hold k shards of every listed block, in
   whatever order; what they recover is all that was sent out of the stream.
   */
  lemma RecoveryGivesWhatWasSent(log: CapsuleLog, guardians: seq<Peer>, minGuardians: nat, x: Bytes,
                                 sent0: seq<Delivery>, sent1: seq<Delivery>, known: set<Uuid>,
                                 storages: seq<Storage>, at: seq<nat>)
    requires Distributed(log, guardians, minGuardians, x, sent0, sent1, known)
    requires ValidEnv(log.sender.env) && Distinct(guardians) && minGuardians >= 1
    requires Holds(storages, sent1, log.sender.peers)
    requires |at| >= log.threshold && Distinct(at) && forall i :: 0 <= i < |at| ==> at[i] < |storages|
    ensures Recovered(log.sender.env, storages, at) ==
              if AllCovered(log.sender, |log.history|, Members(PeersAt(log.sender.peers, at)))
              then Some(Flatten(Plain(log.history))) else None
  {
    var before := UpToBody(sent0, guardians, log);
    KeptDistinct(guardians, log.oks);
    DistinctPeersAt(log.sender.peers, at);
    assert |log.shares[0]| > 0;
    HoldsClosing(log, before, storages, 0);
    CollectedListed(log, before, known, storages, at);
    SharesCombine(log, before, storages, |guardians|, at);
    OfferedRecovers(log, storages, at);
  }

  lemma DistinctPeersAt(peers: seq<Peer>, at: seq<nat>)
    requires Distinct(peers) && Distinct(at) && forall i :: 0 <= i < |at| ==> at[i] < |peers|
    ensures Distinct(PeersAt(peers, at))
  {
    forall i, j | 0 <= i < j < |at| ensures peers[at[i]] != peers[at[j]] {
      assert at[i] < at[j] || at[j] < at[i];
    }
  }

  /**
   The participants recover the owner's stream exactly when they cover every listed block,
   the owner's last Close did not fail, and no write was left behind a failed one. In a
   run without failures that is the covering alone.
   */
  lemma EndToEndRecovery(log: CapsuleLog, guardians: seq<Peer>, minGuardians: nat, x: Bytes,
                         sent0: seq<Delivery>, sent1: seq<Delivery>, known: set<Uuid>,
                         storages: seq<Storage>, at: seq<nat>)
    requires Distributed(log, guardians, minGuardians, x, sent0, sent1, known)
    requires ValidEnv(log.sender.env) && Distinct(guardians) && minGuardians >= 1
    requires Holds(storages, sent1, log.sender.peers)
    requires |at| >= log.threshold && Distinct(at) && forall i :: 0 <= i < |at| ==> at[i] < |storages|
    ensures Recovered(log.sender.env, storages, at) == Some(x) <==>
              AllCovered(log.sender, |log.history|, Members(PeersAt(log.sender.peers, at))) && NothingLost(log)
    ensures log.clean ==> NothingLost(log) && |log.history| == |Cut(x, BLOCK_SIZE)|
  {
    RecoveryGivesWhatWasSent(log, guardians, minGuardians, x, sent0, sent1, known, storages, at);
    UnsentExactly(log);
    SentInFull(Flatten(Plain(log.history)), Unsent(log), x);
  }

  lemma SentInFull(sent: Bytes, unsent: Bytes, x: Bytes)
    requires sent + unsent == x
    ensures sent == x <==> unsent == []
  {
    assert |x| == |sent| + |unsent|;
    if unsent == [] {
      assert sent + [] == sent;
    }
  }
}
