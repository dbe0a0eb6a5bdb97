/**
 Recovery from what the receivers stored: the records of a capsule, read back in any
 order with their bytes, are as good as the messages themselves.
 */
module StoreRecovery {
  import opened Basics
  import opened Erasure
  import opened Placement
  import opened Chunking
  import opened Capsule
  import opened BlockSink
  import opened Distribution
  import opened Receiver
  import opened Recovery
  import opened Recoverability
  import opened Stored
  import opened Agreement

  /* ---- Reading back ---- */

  predicate Readable(st: Store, id: Uuid) {
    id in st.records && st.records[id].hash in st.cas
  }

  /** A shard as record and bytes tell it; that it was marked final is not recorded. */
  function Rebuild(st: Store, id: Uuid): Packet
    requires Readable(st, id)
  {
    var r := st.records[id];
    Packet(ShardStream(id, r.capsuleID, r.repairGroupID, r.nonce, r.dataShardNum, r.parityShardNum, r.size, false),
           st.cas[r.hash])
  }

  function RebuildAll(st: Store, ids: seq<Uuid>): (ps: seq<Packet>)
    requires forall k :: 0 <= k < |ids| ==> Readable(st, ids[k])
    ensures |ps| == |ids|
    ensures forall k :: 0 <= k < |ids| ==> ps[k] == Rebuild(st, ids[k])
  {
    seq(|ids|, k requires 0 <= k < |ids| => Rebuild(st, ids[k]))
  }

  /** Exactly the ids of capsule c's records, each once, in any order. */
  ghost predicate Lists(st: Store, c: Uuid, ids: seq<Uuid>) {
    && Distinct(ids)
    && forall id :: id in ids <==> id in st.records && st.records[id].capsuleID == c
  }

  /** What a guardian brings along of capsule c. */
  ghost predicate ReadBack(st: Store, c: Uuid, storage: Storage) {
    && c in st.manifests && storage.manifest == Some(st.manifests[c])
    && c in st.shares && storage.keyShare == st.shares[c].share
    && exists ids :: ReadShards(st, c, storage.shards, ids)
  }

  ghost predicate ReadShards(st: Store, c: Uuid, shards: seq<Packet>, ids: seq<Uuid>) {
    && Lists(st, c, ids)
    && (forall k :: 0 <= k < |ids| ==> Readable(st, ids[k]))
    && shards == RebuildAll(st, ids)
  }

  function Unmarked(p: Packet): Packet {
    if p.msg.ShardStream? then Packet(p.msg.(isFinal := false), p.data) else p
  }

  function UnmarkedAll(ps: seq<Packet>): (r: seq<Packet>)
    ensures |r| == |ps|
    ensures forall k :: 0 <= k < |ps| ==> r[k] == Unmarked(ps[k])
  {
    seq(|ps|, k requires 0 <= k < |ps| => Unmarked(ps[k]))
  }

  lemma UnmarkedConcat(a: seq<Packet>, b: seq<Packet>)
    ensures UnmarkedAll(a + b) == UnmarkedAll(a) + UnmarkedAll(b)
  {
  }

  /* ---- Order does not matter ---- */

  predicate Permuted<T(==)>(a: seq<T>, b: seq<T>) {
    multiset(a) == multiset(b)
  }

  lemma PermutedMembers<T>(a: seq<T>, b: seq<T>)
    requires Permuted(a, b)
    ensures |a| == |b| && forall x :: x in a <==> x in b
  {
    assert |a| == |multiset(a)| && |b| == |multiset(b)|;
    forall x ensures x in a <==> x in b {
      assert x in a <==> x in multiset(a);
      assert x in b <==> x in multiset(b);
    }
  }

  lemma TakeOut<T>(s: seq<T>, k: nat)
    requires k < |s|
    ensures multiset(s) == multiset(s[..k] + s[k + 1..]) + multiset{s[k]}
  {
    assert s == s[..k] + [s[k]] + s[k + 1..];
  }

  lemma Cancel<T>(a: multiset<T>, b: multiset<T>, x: T)
    requires a + multiset{x} == b + multiset{x}
    ensures a == b
  {
    assert (a + multiset{x}) - multiset{x} == a && (b + multiset{x}) - multiset{x} == b;
  }

  /** Duplicate-free sequences with the same members are the same up to order. */
  lemma {:induction false} DistinctPermuted<T>(a: seq<T>, b: seq<T>)
    requires Distinct(a) && Distinct(b) && forall x :: x in a <==> x in b
    ensures Permuted(a, b)
    decreases |a|
  {
    DistinctSize(a);
    DistinctSize(b);
    assert (set x | x in a) == (set x | x in b);
    if a != [] {
      var n := |a| - 1;
      assert a[n] in b;
      var k :| 0 <= k < |b| && b[k] == a[n];
      var rest := b[..k] + b[k + 1..];
      forall x ensures x in a[..n] <==> x in rest {
        WithoutMember(a, n, x);
        WithoutMember(b, k, x);
        assert a[..n] + a[n + 1..] == a[..n];
      }
      DistinctPermuted(a[..n], rest);
      TakeOut(b, k);
      TakeOut(a, n);
      assert a[..n] + a[n + 1..] == a[..n];
    }
  }

  lemma WithoutMember<T>(s: seq<T>, k: nat, x: T)
    requires Distinct(s) && k < |s|
    ensures x in s[..k] + s[k + 1..] <==> x in s && x != s[k]
  {
    if x in s && x != s[k] {
      var i :| 0 <= i < |s| && s[i] == x;
      assert if i < k then s[..k][i] == x else s[k + 1..][i - k - 1] == x;
    }
    if x in s[k + 1..] {
      var i :| 0 <= i < |s[k + 1..]| && s[k + 1..][i] == x;
      assert s[k + 1 + i] == x;
    }
  }

  lemma {:induction false} RebuildPermuted(st: Store, a: seq<Uuid>, b: seq<Uuid>)
    requires Permuted(a, b) && forall k :: 0 <= k < |a| ==> Readable(st, a[k])
    ensures forall k :: 0 <= k < |b| ==> Readable(st, b[k])
    ensures Permuted(RebuildAll(st, a), RebuildAll(st, b))
    decreases |a|
  {
    PermutedMembers(a, b);
    forall k | 0 <= k < |b| ensures Readable(st, b[k]) {
      assert b[k] in a;
    }
    if a != [] {
      var n := |a| - 1;
      assert a[n] in b;
      var k :| 0 <= k < |b| && b[k] == a[n];
      var rest := b[..k] + b[k + 1..];
      TakeOut(b, k);
      TakeOut(a, n);
      assert a[..n] + a[n + 1..] == a[..n];
      Cancel(multiset(a[..n]), multiset(rest), a[n]);
      RebuildPermuted(st, a[..n], rest);
      RebuildOneOut(st, a, n);
      RebuildOneOut(st, b, k);
    }
  }

  lemma RebuildOneOut(st: Store, s: seq<Uuid>, k: nat)
    requires k < |s| && forall i :: 0 <= i < |s| ==> Readable(st, s[i])
    ensures multiset(RebuildAll(st, s)) == multiset(RebuildAll(st, s[..k] + s[k + 1..])) + multiset{Rebuild(st, s[k])}
  {
    var all := RebuildAll(st, s);
    TakeOut(all, k);
    assert all[..k] + all[k + 1..] == RebuildAll(st, s[..k] + s[k + 1..]);
  }

  lemma {:induction false} GroupCount(ps: seq<Packet>, g: Uuid, x: Packet)
    ensures multiset(GroupPackets(ps, g))[x] == if OfGroup(x, g) then multiset(ps)[x] else 0
  {
    if ps != [] {
      var n := |ps| - 1;
      GroupCount(ps[..n], g, x);
      assert ps == ps[..n] + [ps[n]];
    }
  }

  lemma GroupPermuted(a: seq<Packet>, b: seq<Packet>, g: Uuid)
    requires Permuted(a, b)
    ensures Permuted(GroupPackets(a, g), GroupPackets(b, g))
  {
    forall x ensures multiset(GroupPackets(a, g))[x] == multiset(GroupPackets(b, g))[x] {
      GroupCount(a, g, x);
      GroupCount(b, g, x);
    }
  }

  lemma {:induction false} GroupUnmarked(ps: seq<Packet>, g: Uuid)
    ensures GroupPackets(UnmarkedAll(ps), g) == UnmarkedAll(GroupPackets(ps, g))
  {
    if ps != [] {
      var n := |ps| - 1;
      GroupUnmarked(ps[..n], g);
      assert UnmarkedAll(ps)[..n] == UnmarkedAll(ps[..n]);
    }
  }

  /* ---- What Carries says is about content, not order or marks ---- */

  lemma SameData(a: seq<Packet>, b: seq<Packet>)
    requires forall i :: 0 <= i < |a| ==> a[i] in b
    ensures Indices(Datas(a)) <= Indices(Datas(b))
  {
    forall x | x in Indices(Datas(a)) ensures x in Indices(Datas(b)) {
      var i: nat :| i < |a| && Datas(a)[i] != [] && Datas(a)[i][0] == x;
      var j: nat :| j < |b| && b[j] == a[i];
      assert Datas(b)[j] == a[i].data;
    }
  }

  lemma CarriesPermuted(a: seq<Packet>, b: seq<Packet>, w: seq<Bytes>, nonce: Bytes, at: set<nat>)
    requires Permuted(a, b) && Carries(a, w, nonce, at)
    ensures Carries(b, w, nonce, at)
  {
    PermutedMembers(a, b);
    SameMembersData(a, b);
    forall i | 0 <= i < |b| ensures ShardPacket(w, nonce, b[i]) {
      assert b[i] in b;
      var j :| 0 <= j < |a| && a[j] == b[i];
      assert ShardPacket(w, nonce, a[j]);
    }
  }

  lemma SameMembersData(a: seq<Packet>, b: seq<Packet>)
    requires forall x :: x in a <==> x in b
    ensures Indices(Datas(a)) == Indices(Datas(b))
  {
    SameData(a, b);
    SameData(b, a);
  }

  lemma CarriesUnmarked(ps: seq<Packet>, w: seq<Bytes>, nonce: Bytes, at: set<nat>)
    requires Carries(ps, w, nonce, at)
    ensures Carries(UnmarkedAll(ps), w, nonce, at)
  {
    assert Datas(UnmarkedAll(ps)) == Datas(ps);
    forall i | 0 <= i < |ps| ensures ShardPacket(w, nonce, UnmarkedAll(ps)[i]) {
      assert ShardPacket(w, nonce, ps[i]);
    }
  }

  /* ---- One guardian's store ---- */

  function IdsOf(ps: seq<Packet>): (ids: seq<Uuid>)
    requires AllShards(ps)
    ensures |ids| == |ps|
    ensures forall k :: 0 <= k < |ps| ==> ids[k] == ps[k].msg.shardID
  {
    seq(|ps|, k requires 0 <= k < |ps| => ps[k].msg.shardID)
  }

  predicate OfCapsule(ps: seq<Packet>, c: Uuid) {
    forall k :: 0 <= k < |ps| ==> ps[k].msg.ShardStream? && ps[k].msg.capsuleID == c
  }

  predicate NoRecords(st: Store, c: Uuid) {
    forall id :: id in st.records ==> st.records[id].capsuleID != c
  }

  /** The bytes of every shard lie under their hash. */
  predicate HasBytes(hash: Bytes -> Bytes, st: Store, ps: seq<Packet>) {
    forall k :: 0 <= k < |ps| ==> hash(ps[k].data) in st.cas && st.cas[hash(ps[k].data)] == ps[k].data
  }

  lemma RecordsAreShards(hash: Bytes -> Bytes, st: Store, st': Store, c: Uuid, ps: seq<Packet>, ids: seq<Uuid>)
    requires OfCapsule(ps, c) && DistinctShards(ps) && NoRecords(st, c)
    requires HoldsShards(hash, st', ps) && OtherRecords(st, st', ps) && Lists(st', c, ids)
    ensures Permuted(IdsOf(ps), ids)
  {
    var own := IdsOf(ps);
    forall id ensures id in own <==> id in ids {
      if id in own {
        var k :| 0 <= k < |own| && own[k] == id;
        assert HoldsShard(hash, st', ps[k]);
      }
      assert id in ids ==> HasShardID(ps, id);
      if HasShardID(ps, id) {
        var k :| 0 <= k < |ps| && ps[k].msg.ShardStream? && ps[k].msg.shardID == id;
        assert own[k] == id;
      }
    }
    DistinctPermuted(own, ids);
  }

  lemma RebuiltShards(hash: Bytes -> Bytes, st: Store, ps: seq<Packet>)
    requires AllShards(ps) && HoldsShards(hash, st, ps) && HasBytes(hash, st, ps)
    ensures forall k :: 0 <= k < |ps| ==> Readable(st, IdsOf(ps)[k])
    ensures RebuildAll(st, IdsOf(ps)) == UnmarkedAll(ps)
  {
    forall k | 0 <= k < |ps| ensures Readable(st, IdsOf(ps)[k]) && Rebuild(st, IdsOf(ps)[k]) == Unmarked(ps[k]) {
      assert HoldsShard(hash, st, ps[k]);
    }
  }

  /** Read back, a guardian's shards are the ones it got, but for order and marks. */
  lemma StoredShards(hash: Bytes -> Bytes, st: Store, st': Store, c: Uuid, ps: seq<Packet>, shards: seq<Packet>, ids: seq<Uuid>)
    requires OfCapsule(ps, c) && DistinctShards(ps) && NoRecords(st, c)
    requires HoldsShards(hash, st', ps) && OtherRecords(st, st', ps) && HasBytes(hash, st', ps)
    requires ReadShards(st', c, shards, ids)
    ensures Permuted(UnmarkedAll(ps), shards)
  {
    RecordsAreShards(hash, st, st', c, ps, ids);
    RebuiltShards(hash, st', ps);
    RebuildPermuted(st', IdsOf(ps), ids);
  }

  /* ---- All participants ---- */

  /** The storages' shards are those of the peers' inboxes, but for order and marks. */
  predicate HoldsAsSent(storages: seq<Storage>, body: seq<Delivery>, peers: seq<Peer>, at: seq<nat>) {
    && |storages| == |peers|
    && (forall i :: 0 <= i < |at| ==> at[i] < |peers|)
    && (forall i :: 0 <= i < |at| ==> Permuted(UnmarkedAll(Inbox(body, peers[at[i]])), storages[at[i]].shards))
  }

  lemma OneGuardianGroup(shards: seq<Packet>, body: seq<Delivery>, p: Peer, g: Uuid)
    requires Permuted(UnmarkedAll(Inbox(body, p)), shards)
    ensures Permuted(UnmarkedAll(Inbox(GroupOf(body, g), p)), GroupPackets(shards, g))
  {
    GroupPermuted(UnmarkedAll(Inbox(body, p)), shards, g);
    GroupUnmarked(Inbox(body, p), g);
    InboxOfGroup(body, p, g);
  }

  lemma PermutedConcat<T>(a: seq<T>, b: seq<T>, c: seq<T>, d: seq<T>)
    requires Permuted(a, b) && Permuted(c, d)
    ensures Permuted(a + c, b + d)
  {
  }

  lemma {:induction false} CollectedAsSent(storages: seq<Storage>, body: seq<Delivery>, peers: seq<Peer>, at: seq<nat>, g: Uuid)
    requires HoldsAsSent(storages, body, peers, at)
    ensures Permuted(UnmarkedAll(Gathered(GroupOf(body, g), PeersAt(peers, at))), GroupPackets(Collected(storages, at), g))
  {
    if at != [] {
      var n := |at| - 1;
      var ds, qs := GroupOf(body, g), PeersAt(peers, at);
      assert HoldsAsSent(storages, body, peers, at[..n]);
      CollectedAsSent(storages, body, peers, at[..n], g);
      assert qs[..n] == PeersAt(peers, at[..n]);
      OneGuardianGroup(storages[at[n]].shards, body, peers[at[n]], g);
      GroupPacketsConcat(Collected(storages, at[..n]), storages[at[n]].shards, g);
      UnmarkedConcat(Gathered(ds, qs[..n]), Inbox(ds, qs[n]));
      PermutedConcat(UnmarkedAll(Gathered(ds, qs[..n])), GroupPackets(Collected(storages, at[..n]), g),
                     UnmarkedAll(Inbox(ds, qs[n])), GroupPackets(storages[at[n]].shards, g));
    } else {
      assert UnmarkedAll([]) == [];
    }
  }

  predicate AllInGroup(ds: seq<Delivery>, g: Uuid) {
    forall i :: 0 <= i < |ds| ==> InGroup(ds[i], g)
  }

  lemma GroupOfOne(ds: seq<Delivery>, own: Uuid, g: Uuid)
    requires AllInGroup(ds, own)
    ensures GroupOf(ds, g) == if own == g then ds else []
  {
    GroupAllOrNone(ds, g);
  }

  /** Among parts of different groups, a group is its part. */
  lemma {:induction false} GroupOfParts(parts: seq<seq<Delivery>>, groups: seq<Uuid>, g: Uuid)
    requires |parts| == |groups| && Distinct(groups)
    requires forall i :: 0 <= i < |parts| ==> AllInGroup(parts[i], groups[i])
    ensures forall j :: 0 <= j < |parts| && groups[j] == g ==> GroupOf(Flatten(parts), g) == parts[j]
    ensures g !in groups ==> GroupOf(Flatten(parts), g) == []
  {
    if parts != [] {
      var n := |parts| - 1;
      GroupOfParts(parts[..n], groups[..n], g);
      assert parts == parts[..n] + [parts[n]];
      FlattenSnoc(parts[..n], parts[n]);
      GroupConcat(Flatten(parts[..n]), parts[n], g);
      GroupOfOne(parts[n], groups[n], g);
      forall j | 0 <= j < |parts| && groups[j] == g ensures GroupOf(Flatten(parts), g) == parts[j] {
        if j < n {
          assert groups[..n][j] == g && groups[n] != g;
        } else {
          assert g !in groups[..n];
        }
      }
    }
  }

  /** In a run in which nothing failed, the shards under a listed group are that block's. */
  lemma BodyGroup(log: CapsuleLog, blockID: nat)
    requires Describes(log.sender, log.blocks, log.history, log.parts) && Distinct(Groups(log.history))
    requires log.body == Flatten(log.parts) && 1 <= blockID <= |log.history|
    ensures log.sender.peers != [] && ValidBlock(log.sender, blockID, log.history[blockID - 1])
    ensures log.blocks[blockID - 1].repairGroupID == log.history[blockID - 1].group
    ensures GroupOf(log.body, log.history[blockID - 1].group) ==
              BlockDeliveries(log.sender, blockID, log.history[blockID - 1])
  {
    forall i | 0 <= i < |log.history| ensures AllInGroup(log.parts[i], Groups(log.history)[i]) {
      DescribesAt(log.sender, log.blocks, log.history, log.parts, i);
    }
    DescribesBlock(log.sender, log.blocks, log.history, log.parts, blockID);
    GroupOfParts(log.parts, Groups(log.history), log.history[blockID - 1].group);
  }

  lemma StoredCollected(log: CapsuleLog, storages: seq<Storage>, at: seq<nat>)
    requires ValidEnv(log.sender.env) && log.sender.peers != []
    requires Describes(log.sender, log.blocks, log.history, log.parts) && Distinct(Groups(log.history))
    requires log.body == Flatten(log.parts)
    requires HoldsAsSent(storages, log.body, log.sender.peers, at) && Distinct(PeersAt(log.sender.peers, at))
    ensures CollectedAll(log.sender, Collected(storages, at), log.blocks, log.history, PeersAt(log.sender.peers, at))
  {
    var ps, qs := Collected(storages, at), PeersAt(log.sender.peers, at);
    forall n | 1 <= n <= |log.history| ensures BlockHeld(log.sender, ps, log.blocks, log.history, qs, n) {
      BodyGroup(log, n);
      StoredHeld(log.sender, storages, log.body, at, ps, qs, n, log.blocks, log.history);
    }
  }

  lemma StoredHeld(s: Sender, storages: seq<Storage>, body: seq<Delivery>, at: seq<nat>, ps: seq<Packet>, qs: seq<Peer>,
                   n: nat, blocks: seq<BlockManifest>, h: seq<SentBlock>)
    requires ValidEnv(s.env) && s.peers != [] && 1 <= n <= |blocks| == |h|
    requires ValidBlock(s, n, h[n - 1]) && blocks[n - 1].repairGroupID == h[n - 1].group
    requires HoldsAsSent(storages, body, s.peers, at)
    requires ps == Collected(storages, at) && qs == PeersAt(s.peers, at) && Distinct(qs)
    requires GroupOf(body, h[n - 1].group) == BlockDeliveries(s, n, h[n - 1])
    ensures BlockHeld(s, ps, blocks, h, qs, n)
  {
    CollectedAsSent(storages, body, s.peers, at, h[n - 1].group);
    StoredBlock(s, n, h[n - 1], GroupPackets(ps, h[n - 1].group), qs);
  }

  lemma StoredBlock(s: Sender, blockID: nat, b: SentBlock, ps: seq<Packet>, qs: seq<Peer>)
    requires s.peers != [] && ValidEnv(s.env) && ValidBlock(s, blockID, b) && Distinct(qs)
    requires Permuted(UnmarkedAll(Gathered(BlockDeliveries(s, blockID, b), qs)), ps)
    ensures HoldsBlock(s, blockID, b, ps, qs)
  {
    var sent, w := Gathered(BlockDeliveries(s, blockID, b), qs), EncodedRows(s.env.code, Sealed(s, blockID, b.plain, b.nonce));
    GatheredHolds(s, blockID, b, qs);
    CarriesUnmarked(sent, w, b.nonce, Held(s, blockID, qs));
    CarriesPermuted(UnmarkedAll(sent), ps, w, b.nonce, Held(s, blockID, qs));
  }

  /* ---- The theorem ---- */

  /** The i-th guardian's receiver is done, and `storage` is read back from its stores. */
  ghost predicate StoredBy(log: CapsuleLog, i: nat, hash: Bytes -> Bytes, owner: Uuid, before: Store, storage: Storage)
    requires i < |log.sender.peers| <= |log.shares| && log.announcement.IncomingStream?
  {
    var (end, after) := Ends(hash, GuardianRun(log, owner, i), before);
    end.phase.Done? && NoRecords(before, log.sender.capsuleID) && ReadBack(after, log.sender.capsuleID, storage)
  }

  /** The shards of this run have different hashes unless they are the same bytes. */
  predicate HashesTell(hash: Bytes -> Bytes, ds: seq<Delivery>) {
    forall i, j :: 0 <= i < |ds| && 0 <= j < |ds| && hash(ds[i].packet.data) == hash(ds[j].packet.data) ==>
      ds[i].packet.data == ds[j].packet.data
  }

  lemma InboxHashesApart(hash: Bytes -> Bytes, ds: seq<Delivery>, p: Peer)
    requires HashesTell(hash, ds)
    ensures HashesApart(hash, Inbox(ds, p))
  {
    InboxMembers(ds, p);
    var ps := Inbox(ds, p);
    forall i, j | 0 <= i < |ps| && 0 <= j < |ps| && hash(ps[i].data) == hash(ps[j].data) ensures ps[i].data == ps[j].data {
      var i' :| 0 <= i' < |ds| && ds[i'].packet == ps[i];
      var j' :| 0 <= j' < |ds| && ds[j'].packet == ps[j];
    }
  }

  lemma ReceivedBytes(log: CapsuleLog, i: nat, hash: Bytes -> Bytes, owner: Uuid, st: Store)
    requires i < |log.sender.peers| <= |log.shares| && log.announcement.IncomingStream?
    requires AllShards(Inbox(log.body, log.sender.peers[i])) && HashesTell(hash, log.body)
    ensures HasBytes(hash, Received(log, i, hash, owner, st), Inbox(log.body, log.sender.peers[i]))
  {
    var ps := Inbox(log.body, log.sender.peers[i]);
    InboxHashesApart(hash, log.body, log.sender.peers[i]);
    var st0 := SaveCapsule(GuardianRun(log, owner, i), st, false, false);
    forall k | 0 <= k < |ps|
      ensures hash(ps[k].data) in Received(log, i, hash, owner, st).cas
      ensures Received(log, i, hash, owner, st).cas[hash(ps[k].data)] == ps[k].data
    {
      SavedBytes(hash, st0, ps, k);
    }
  }

  /** A receiver that is done gives back the shards it got, the manifest and its key share. */
  lemma GuardianBringsAlong(log: CapsuleLog, guardians: seq<Peer>, minGuardians: nat, x: Bytes,
                            sent0: seq<Delivery>, sent1: seq<Delivery>, known: set<Uuid>,
                            i: nat, hash: Bytes -> Bytes, owner: Uuid, before: Store, storage: Storage)
    requires Distributed(log, guardians, minGuardians, x, sent0, sent1, known) && log.clean
    requires ValidEnv(log.sender.env) && log.sender.env.code.m >= 1 && Distinct(guardians)
    requires |log.sender.masterKey| == KEY_SIZE && i < |log.sender.peers|
    requires HashesTell(hash, log.body) && StoredBy(log, i, hash, owner, before, storage)
    ensures storage.manifest == Some(ManifestPacket(log).msg) && storage.keyShare == log.shares[i]
    ensures Permuted(UnmarkedAll(Inbox(log.body, log.sender.peers[i])), storage.shards)
  {
    AgreementExactly(log, guardians, minGuardians, x, sent0, sent1, known, i, hash, owner, before);
    BodyDistinct(log, guardians, sent0, known, log.sender.peers[i]);
    AnnouncedSizes(log, guardians);
    DoneBringsAlong(log, x, i, hash, owner, before, storage);
  }

  lemma DoneBringsAlong(log: CapsuleLog, x: Bytes, i: nat, hash: Bytes -> Bytes, owner: Uuid, before: Store, storage: Storage)
    requires i < |log.sender.peers| <= |log.shares| && log.sender.env.code.k > 0 && log.announcement.IncomingStream?
    requires log.announcement.capsuleID == log.sender.capsuleID
    requires RunEnds(log, x, i, hash, owner, before) && StoredBy(log, i, hash, owner, before, storage)
    requires HashesTell(hash, log.body) && DistinctShards(Inbox(log.body, log.sender.peers[i]))
    ensures storage.manifest == Some(ManifestPacket(log).msg) && storage.keyShare == log.shares[i]
    ensures Permuted(UnmarkedAll(Inbox(log.body, log.sender.peers[i])), storage.shards)
  {
    var ps, c := Inbox(log.body, log.sender.peers[i]), log.sender.capsuleID;
    var after := Received(log, i, hash, owner, before);
    assert OfCapsule(ps, c) by {
      forall k | 0 <= k < |ps| ensures ps[k].msg.ShardStream? && ps[k].msg.capsuleID == c {
        assert Proper(log.announcement, ps[k]);
      }
    }
    ReceivedBytes(log, i, hash, owner, before);
    var ids :| ReadShards(after, c, storage.shards, ids);
    StoredShards(hash, before, after, c, ps, storage.shards, ids);
  }

  /**
   Recovery from the stores. After a run in which nothing failed, distinct participants
   with threshold key shares whose receivers are done, and who read their records back in
   any order, recover exactly the owner's stream if they cover every block, and nothing
   otherwise.
   */
  lemma StoresRecover(log: CapsuleLog, guardians: seq<Peer>, minGuardians: nat, x: Bytes,
                      sent0: seq<Delivery>, sent1: seq<Delivery>, known: set<Uuid>,
                      hash: Bytes -> Bytes, owner: Uuid, before: nat -> Store, storages: seq<Storage>, at: seq<nat>)
    requires Distributed(log, guardians, minGuardians, x, sent0, sent1, known) && log.clean
    requires ValidEnv(log.sender.env) && log.sender.env.code.m >= 1 && Distinct(guardians) && minGuardians >= 1
    requires |log.sender.masterKey| == KEY_SIZE && HashesTell(hash, log.body)
    requires |storages| == |log.sender.peers|
    requires |at| >= log.threshold && Distinct(at) && forall i :: 0 <= i < |at| ==> at[i] < |storages|
    requires forall i :: 0 <= i < |storages| && (i == 0 || i in at) ==>
               StoredBy(log, i, hash, owner, before(i), storages[i])
    ensures Recovered(log.sender.env, storages, at) ==
              if AllCovered(log.sender, |log.history|, Members(PeersAt(log.sender.peers, at))) then Some(x) else None
  {
    forall i | 0 <= i < |storages| && (i == 0 || i in at)
      ensures storages[i].manifest == Some(ManifestPacket(log).msg) && storages[i].keyShare == log.shares[i]
      ensures Permuted(UnmarkedAll(Inbox(log.body, log.sender.peers[i])), storages[i].shards)
    {
      GuardianBringsAlong(log, guardians, minGuardians, x, sent0, sent1, known, i, hash, owner, before(i), storages[i]);
    }
    KeptDistinct(guardians, log.oks);
    DistinctPeersAt(log.sender.peers, at);
    StoragesOffer(log, guardians, storages, at);
    OfferedRecovers(log, storages, at);
    CleanSentAll(log, guardians, x, sent0, known);
  }

  /** Storages with manifest, shares and shards as sent offer what recovery takes. */
  lemma StoragesOffer(log: CapsuleLog, guardians: seq<Peer>, storages: seq<Storage>, at: seq<nat>)
    requires ValidEnv(log.sender.env) && 0 < |storages| == |log.sender.peers| <= |log.shares|
    requires Describes(log.sender, log.blocks, log.history, log.parts) && Distinct(Groups(log.history))
    requires log.body == Flatten(log.parts)
    requires IsSharing(log.sender.env, log.sender.masterKey, |guardians|, log.threshold, log.shares)
    requires |at| >= log.threshold && Distinct(at) && forall i :: 0 <= i < |at| ==> at[i] < |storages|
    requires Distinct(PeersAt(log.sender.peers, at)) && storages[0].manifest == Some(ManifestPacket(log).msg)
    requires forall i :: 0 <= i < |storages| && i in at ==>
               storages[i].keyShare == log.shares[i] &&
               Permuted(UnmarkedAll(Inbox(log.body, log.sender.peers[i])), storages[i].shards)
    ensures Offers(log, storages, at)
  {
    SelectedShares(storages, log.shares, at);
    forall i | 0 <= i < |at|
      ensures Permuted(UnmarkedAll(Inbox(log.body, log.sender.peers[at[i]])), storages[at[i]].shards)
    {
      assert at[i] in at;
    }
    StoredCollected(log, storages, at);
  }

  lemma SelectedShares(storages: seq<Storage>, shares: seq<Bytes>, at: seq<nat>)
    requires |storages| <= |shares| && forall i :: 0 <= i < |at| ==> at[i] < |storages|
    requires forall i :: 0 <= i < |storages| && i in at ==> storages[i].keyShare == shares[i]
    ensures KeyShares(storages, at) == Select(shares, at)
  {
    forall i | 0 <= i < |at| ensures storages[at[i]].keyShare == shares[at[i]] {
      assert at[i] in at;
    }
  }

  lemma CleanSentAll(log: CapsuleLog, guardians: seq<Peer>, x: Bytes, sent0: seq<Delivery>, known: set<Uuid>)
    requires Streamed(log, guardians, x, sent0, known) && log.clean
    ensures Flatten(Plain(log.history)) == x
  {
    CutPartition(x, BLOCK_SIZE);
  }
}
