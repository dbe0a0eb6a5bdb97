/** What a guardian's stores hold after a whole transfer: every shard, the manifest and the key share. */
module Stored {
  import opened Basics
  import opened Placement
  import opened Capsule
  import opened Receiver

  predicate AllShards(ps: seq<Packet>) {
    forall i :: 0 <= i < |ps| ==> ps[i].msg.ShardStream?
  }

  /** The stores after bytes and record of every shard. */
  function SaveShards(hash: Bytes -> Bytes, st: Store, ps: seq<Packet>): Store
    requires AllShards(ps)
    decreases |ps|
  {
    if ps == [] then st else
    SaveShards(hash, SaveRecord(hash, SaveBytes(hash, st, ps[0]), ps[0]), ps[1..])
  }

  /** The stores after a whole transfer. */
  function SaveAll(hash: Bytes -> Bytes, r: Run, st: Store, ps: seq<Packet>, manifest: Packet, share: Packet): Store
    requires r.intro.IncomingStream? && share.msg.KeyShare? && AllShards(ps)
  {
    var marked := SaveCapsule(r, SaveShards(hash, st, ps), true, false);
    SaveCapsule(r, SaveShare(r, SaveManifest(r, marked, manifest.msg), share), false, true)
  }

  /* ---- Shards ---- */

  /** Record and bytes of the shard are there, the record under its id, the bytes under their hash. */
  predicate HoldsShard(hash: Bytes -> Bytes, st: Store, p: Packet) {
    && p.msg.ShardStream? && p.msg.shardID in st.records
    && st.records[p.msg.shardID] == RecordOf(hash, p)
    && Bound(hash, st, hash(p.data))
  }

  predicate HoldsShards(hash: Bytes -> Bytes, st: Store, ps: seq<Packet>) {
    forall i :: 0 <= i < |ps| ==> HoldsShard(hash, st, ps[i])
  }

  predicate HasShardID(ps: seq<Packet>, id: Uuid) {
    exists i :: 0 <= i < |ps| && ps[i].msg.ShardStream? && ps[i].msg.shardID == id
  }

  predicate DistinctShards(ps: seq<Packet>) {
    forall i, j :: 0 <= i < j < |ps| && ps[i].msg.ShardStream? && ps[j].msg.ShardStream? ==>
      ps[i].msg.shardID != ps[j].msg.shardID
  }

  /** Under other ids nothing has changed. */
  ghost predicate OtherRecords(st: Store, st': Store, ps: seq<Packet>) {
    forall id :: !HasShardID(ps, id) ==>
      (id in st.records <==> id in st'.records) && (id in st.records ==> st.records[id] == st'.records[id])
  }

  ghost predicate KeepsBound(hash: Bytes -> Bytes, st: Store, st': Store) {
    forall h :: Bound(hash, st, h) ==> Bound(hash, st', h)
  }

  lemma OneSaved(hash: Bytes -> Bytes, st: Store, p: Packet)
    requires p.msg.ShardStream?
    ensures var st' := SaveRecord(hash, SaveBytes(hash, st, p), p);
            HoldsShard(hash, st', p) && OtherRecords(st, st', [p]) && KeepsBound(hash, st, st')
  {
    var st' := SaveRecord(hash, SaveBytes(hash, st, p), p);
    forall id | !HasShardID([p], id) ensures id != p.msg.shardID {
      assert [p][0] == p;
    }
  }

  lemma HasShardIDSplit(ps: seq<Packet>, id: Uuid)
    requires ps != []
    ensures HasShardID(ps, id) <==> HasShardID([ps[0]], id) || HasShardID(ps[1..], id)
  {
    if HasShardID(ps[1..], id) {
      var i :| 0 <= i < |ps[1..]| && ps[1..][i].msg.ShardStream? && ps[1..][i].msg.shardID == id;
      assert ps[i + 1] == ps[1..][i];
    }
    if HasShardID([ps[0]], id) {
      assert [ps[0]][0] == ps[0];
    }
    if i :| 0 <= i < |ps| && ps[i].msg.ShardStream? && ps[i].msg.shardID == id {
      if i > 0 {
        assert ps[1..][i - 1] == ps[i];
      } else {
        assert [ps[0]][0] == ps[0];
      }
    }
  }

  lemma OtherRecordsJoin(st: Store, st1: Store, st2: Store, ps: seq<Packet>)
    requires ps != [] && OtherRecords(st, st1, [ps[0]]) && OtherRecords(st1, st2, ps[1..])
    ensures OtherRecords(st, st2, ps)
  {
    forall id | !HasShardID(ps, id) ensures !HasShardID([ps[0]], id) && !HasShardID(ps[1..], id) {
      HasShardIDSplit(ps, id);
    }
  }

  lemma {:induction false} SaveShardsFrame(hash: Bytes -> Bytes, st: Store, ps: seq<Packet>)
    requires AllShards(ps)
    ensures var st' := SaveShards(hash, st, ps);
            OtherRecords(st, st', ps) && KeepsBound(hash, st, st') &&
            st'.manifests == st.manifests && st'.shares == st.shares && st'.capsules == st.capsules
    decreases |ps|
  {
    if ps != [] {
      var st1 := SaveRecord(hash, SaveBytes(hash, st, ps[0]), ps[0]);
      OneSaved(hash, st, ps[0]);
      SaveShardsFrame(hash, st1, ps[1..]);
      OtherRecordsJoin(st, st1, SaveShards(hash, st, ps), ps);
    }
  }

  /** Shards with ids of their own are all there, none overwritten by another. */
  lemma {:induction false} SavedShards(hash: Bytes -> Bytes, st: Store, ps: seq<Packet>)
    requires AllShards(ps) && DistinctShards(ps)
    ensures HoldsShards(hash, SaveShards(hash, st, ps), ps)
    decreases |ps|
  {
    if ps != [] {
      var rest, st1 := ps[1..], SaveRecord(hash, SaveBytes(hash, st, ps[0]), ps[0]);
      OneSaved(hash, st, ps[0]);
      SavedShards(hash, st1, rest);
      SaveShardsFrame(hash, st1, rest);
      assert !HasShardID(rest, ps[0].msg.shardID);
      forall i | 0 <= i < |ps| ensures HoldsShard(hash, SaveShards(hash, st, ps), ps[i]) {
        if i > 0 {
          assert ps[i] == rest[i - 1];
        }
      }
    }
  }

  /** Different data have different hashes. */
  predicate HashesApart(hash: Bytes -> Bytes, ps: seq<Packet>) {
    forall i, j :: 0 <= i < |ps| && 0 <= j < |ps| && hash(ps[i].data) == hash(ps[j].data) ==> ps[i].data == ps[j].data
  }

  predicate HasData(ps: seq<Packet>, data: Bytes) {
    exists i :: 0 <= i < |ps| && ps[i].data == data
  }

  /** What lies under a hash stays, or was written by one of the shards. */
  lemma {:induction false} BytesStayOrSaved(hash: Bytes -> Bytes, st: Store, ps: seq<Packet>, h: Bytes)
    requires AllShards(ps) && h in st.cas
    ensures var st' := SaveShards(hash, st, ps);
            h in st'.cas && (st'.cas[h] == st.cas[h] || (HasData(ps, st'.cas[h]) && hash(st'.cas[h]) == h))
    decreases |ps|
  {
    if ps != [] {
      var st1 := SaveRecord(hash, SaveBytes(hash, st, ps[0]), ps[0]);
      BytesStayOrSaved(hash, st1, ps[1..], h);
      var found := SaveShards(hash, st, ps).cas[h];
      if HasData(ps[1..], found) {
        var i :| 0 <= i < |ps[1..]| && ps[1..][i].data == found;
        assert ps[i + 1].data == found;
      }
    }
  }

  /** With different hashes for different data, the bytes of every shard can be read back. */
  lemma {:induction false} SavedBytes(hash: Bytes -> Bytes, st: Store, ps: seq<Packet>, k: nat)
    requires AllShards(ps) && HashesApart(hash, ps) && k < |ps|
    ensures var st' := SaveShards(hash, st, ps);
            hash(ps[k].data) in st'.cas && st'.cas[hash(ps[k].data)] == ps[k].data
    decreases |ps|
  {
    var rest, st1 := ps[1..], SaveRecord(hash, SaveBytes(hash, st, ps[0]), ps[0]);
    assert forall i :: 0 <= i < |rest| ==> rest[i] == ps[i + 1];
    if k > 0 {
      SavedBytes(hash, st1, rest, k - 1);
    } else {
      BytesStayOrSaved(hash, st1, rest, hash(ps[0].data));
    }
  }

  /* ---- Everything ---- */

  /**
   Shards, manifest and key share of capsule c are there, its record names owner and
   guardians and that the share has come, and under all other ids all is as it was.
   */
  ghost predicate HoldsAll(hash: Bytes -> Bytes, st: Store, st': Store, c: Uuid, owner: Uuid, guardianIDs: seq<Uuid>,
                           ps: seq<Packet>, manifest: Msg, share: ShareRecord)
  {
    && NamesOwner(st', c, owner, guardianIDs) && st'.capsules[c].isKeyShareReceived
    && HoldsShards(hash, st', ps) && OtherRecords(st, st', ps)
    && c in st'.manifests && st'.manifests[c] == manifest
    && c in st'.shares && st'.shares[c] == share
    && OtherCapsules(st, st', c)
  }

  lemma SavedAll(hash: Bytes -> Bytes, r: Run, st: Store, ps: seq<Packet>, manifest: Packet, share: Packet)
    requires r.intro.IncomingStream? && share.msg.KeyShare? && AllShards(ps) && DistinctShards(ps)
    ensures HoldsAll(hash, st, SaveAll(hash, r, st, ps, manifest, share), r.intro.capsuleID, r.owner, r.intro.guardianIDs,
                     ps, manifest.msg,
                     ShareRecord(share.data, share.msg.totalShares, share.msg.thresholdShares))
  {
    var shards, all := SaveShards(hash, st, ps), SaveAll(hash, r, st, ps, manifest, share);
    SavedShards(hash, st, ps);
    SaveShardsFrame(hash, st, ps);
    EntriesFrame(st, all, r.intro.capsuleID);
    SameShards(hash, shards, all, ps);
    SameRecordsFrame(st, shards, all, ps);
  }

  lemma SameShards(hash: Bytes -> Bytes, st: Store, st': Store, ps: seq<Packet>)
    requires HoldsShards(hash, st, ps) && st.records == st'.records && st.cas == st'.cas
    ensures HoldsShards(hash, st', ps)
  {
    forall i | 0 <= i < |ps| ensures HoldsShard(hash, st', ps[i]) {
      assert HoldsShard(hash, st, ps[i]);
    }
  }

  lemma SameRecordsFrame(st: Store, st1: Store, st2: Store, ps: seq<Packet>)
    requires OtherRecords(st, st1, ps) && st1.records == st2.records
    ensures OtherRecords(st, st2, ps)
  {
  }

  lemma OtherCapsulesJoin(st: Store, st1: Store, st2: Store, c: Uuid)
    requires OtherCapsules(st, st1, c) && OtherCapsules(st1, st2, c)
    ensures OtherCapsules(st, st2, c)
  {
  }

  /** What was stored after an earlier update of the capsule's own record. */
  lemma HoldsFromBefore(hash: Bytes -> Bytes, st0: Store, st: Store, st': Store, c: Uuid, owner: Uuid,
                        guardianIDs: seq<Uuid>, ps: seq<Packet>, manifest: Msg, share: ShareRecord)
    requires HoldsAll(hash, st, st', c, owner, guardianIDs, ps, manifest, share)
    requires st0.records == st.records && OtherCapsules(st0, st, c)
    ensures HoldsAll(hash, st0, st', c, owner, guardianIDs, ps, manifest, share)
  {
    OtherCapsulesJoin(st0, st, st', c);
  }

  /* ---- Ids on the wire ---- */

  lemma {:induction false} InboxDistinct(ds: seq<Delivery>, known: set<Uuid>, p: Peer)
    requires IdsKnown(ds, known)
    ensures DistinctShards(Inbox(ds, p))
  {
    if ds != [] {
      var n := |ds| - 1;
      var before := Inbox(ds[..n], p);
      InboxDistinct(ds[..n], known, p);
      InboxMembers(ds[..n], p);
      forall i | 0 <= i < |before| && before[i].msg.ShardStream? && ds[n].packet.msg.ShardStream?
        ensures before[i].msg.shardID != ds[n].packet.msg.shardID
      {
        var j :| 0 <= j < n && ds[..n][j].packet == before[i];
        assert ds[j].packet == before[i];
      }
    }
  }

  lemma IdsKnownSuffix(a: seq<Delivery>, b: seq<Delivery>, known: set<Uuid>)
    requires IdsKnown(a + b, known)
    ensures IdsKnown(b, known)
  {
    var all := a + b;
    assert forall i :: 0 <= i < |b| ==> b[i] == all[|a| + i];
  }
}
