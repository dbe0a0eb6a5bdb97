/**
 Recovery after the owner is gone: what the guardians hold, the recovery procedure, and
 the theorem that it gives back the owner's stream.
 */
module Recovery {
  import opened Basics
  import opened Erasure
  import opened Placement
  import opened Capsule

  /* ---- What a guardian holds ---- */

  /** Shard messages with their data, the last manifest, the last non-empty key share. */
  datatype Storage = Storage(shards: seq<Packet>, manifest: Option<Msg>, keyShare: Bytes)

  function Capture(inbox: seq<Packet>): Storage {
    if inbox == [] then Storage([], None, []) else
    var before, last := Capture(inbox[..|inbox| - 1]), inbox[|inbox| - 1];
    match last.msg
    case IncomingStream(_, _, _, _, _) => before
    case ShardStream(_, _, _, _, _, _, _, _) => before.(shards := before.shards + [last])
    case ManifestStream(_, _, _) => before.(manifest := Some(last.msg))
    case KeyShare(_, _, _) => if last.data == [] then before else before.(keyShare := last.data)
  }

  /* ---- The recovery procedure ---- */

  /** The shards of one repair group collected so far, with the group's nonce. */
  datatype BlockInfo = BlockInfo(shards: seq<Bytes>, nonce: Bytes)

  predicate OfGroup(p: Packet, g: Uuid) {
    p.msg.ShardStream? && p.msg.repairGroupID == g
  }

  function GroupPackets(ps: seq<Packet>, g: Uuid): seq<Packet> {
    if ps == [] then [] else
    var n := |ps| - 1;
    GroupPackets(ps[..n], g) + if OfGroup(ps[n], g) then [ps[n]] else []
  }

  lemma {:induction false} GroupPacketsConcat(a: seq<Packet>, b: seq<Packet>, g: Uuid)
    ensures GroupPackets(a + b, g) == GroupPackets(a, g) + GroupPackets(b, g)
  {
    if b == [] {
      assert a + b == a;
    } else {
      assert (a + b)[..|a + b| - 1] == a + b[..|b| - 1];
      GroupPacketsConcat(a, b[..|b| - 1], g);
    }
  }

  function Datas(ps: seq<Packet>): (r: seq<Bytes>)
    ensures |r| == |ps|
  {
    seq(|ps|, i requires 0 <= i < |ps| => ps[i].data)
  }

  function NonceOf(p: Packet): Bytes {
    if p.msg.ShardStream? then p.msg.nonce else []
  }

  /** The shards the participants hold, in the order they are collected. */
  function Collected(storages: seq<Storage>, participants: seq<nat>): seq<Packet>
    requires forall i :: 0 <= i < |participants| ==> participants[i] < |storages|
  {
    if participants == [] then [] else
    var n := |participants| - 1;
    Collected(storages, participants[..n]) + storages[participants[n]].shards
  }

  function KeyShares(storages: seq<Storage>, participants: seq<nat>): seq<Bytes>
    requires forall i :: 0 <= i < |participants| ==> participants[i] < |storages|
  {
    seq(|participants|, i requires 0 <= i < |participants| => storages[participants[i]].keyShare)
  }

  /** The first `total` shards, the missing ones empty. */
  function PutInSlots(shards: seq<Bytes>, total: nat): (r: seq<Bytes>)
    ensures |r| == total
  {
    seq(total, i requires 0 <= i < total => if i < |shards| then shards[i] else [])
  }

  function SealedBlock(env: Env, ps: seq<Packet>): Option<Bytes> {
    if |ps| < env.code.k || ps == [] then None else
    match Reconstructed(env.code, PutInSlots(Datas(ps), env.code.k + env.code.m))
    case Written(sealed) => Some(sealed)
    case Failed(_) => None
    case Panicked => None
  }

  /** All values, if all are there. */
  function AllSome(os: seq<Option<Bytes>>): (r: Option<seq<Bytes>>)
    ensures r.Some? ==> |r.value| == |os|
  {
    if os == [] then Some([]) else
    var n := |os| - 1;
    var before := AllSome(os[..n]);
    if before.None? || os[n].None? then None else Some(before.value + [os[n].value])
  }

  /** The sealed bytes of every listed block, where its group has shards enough. */
  function SealedBlocks(env: Env, ps: seq<Packet>, blocks: seq<BlockManifest>): (r: seq<Option<Bytes>>)
    ensures |r| == |blocks|
  {
    seq(|blocks|, j requires 0 <= j < |blocks| => SealedBlock(env, GroupPackets(ps, blocks[j].repairGroupID)))
  }

  function GroupNonce(group: seq<Packet>): Bytes {
    if group == [] then [] else NonceOf(group[0])
  }

  /** Block j, counted from 0, is opened with key j + 1 and its group's nonce. */
  function OpenedBlocks(env: Env, ps: seq<Packet>, blocks: seq<BlockManifest>, sealed: seq<Bytes>, masterKey: Bytes)
    : (r: seq<Option<Bytes>>)
    requires |sealed| == |blocks|
    ensures |r| == |blocks|
  {
    seq(|blocks|, j requires 0 <= j < |blocks| =>
      env.decrypt(BlockKey(env, masterKey, j + 1), GroupNonce(GroupPackets(ps, blocks[j].repairGroupID)), sealed[j]))
  }

  function Joined(os: seq<Option<Bytes>>): Option<Bytes> {
    var r := AllSome(os);
    if r.None? then None else Some(Flatten(r.value))
  }

  /** What the procedure returns; None where the test fails. */
  function Recovered(env: Env, storages: seq<Storage>, participants: seq<nat>): Option<Bytes>
    requires storages != []
    requires forall i :: 0 <= i < |participants| ==> participants[i] < |storages|
  {
    var ps := Collected(storages, participants);
    if storages[0].manifest.None? || !storages[0].manifest.value.ManifestStream? then None else
    var blocks := storages[0].manifest.value.blocks;
    var sealed := AllSome(SealedBlocks(env, ps, blocks));
    if sealed.None? then None else
    var masterKey := env.combine(KeyShares(storages, participants));
    if masterKey.None? then None else
    Joined(OpenedBlocks(env, ps, blocks, sealed.value, masterKey.value))
  }

  /* ---- What is recovered, said without the procedure ---- */

  lemma {:induction false} AllSomeIs(os: seq<Option<Bytes>>, vals: seq<Bytes>)
    ensures AllSome(os) == Some(vals) <==> |vals| == |os| && forall j :: 0 <= j < |os| ==> os[j] == Some(vals[j])
  {
    if os != [] {
      var n := |os| - 1;
      if |vals| == |os| {
        AllSomeIs(os[..n], vals[..n]);
        assert vals == vals[..n] + [vals[n]];
      }
      var before := AllSome(os[..n]);
      if before.Some? && os[n].Some? && before.value + [os[n].value] == vals {
        assert before.value == vals[..n];
      }
    }
  }

  /** Block j's group has k shards that reconstruct to `sealed`, which opens to `plain` with key j + 1. */
  ghost predicate RecoversBlock(env: Env, group: seq<Packet>, masterKey: Bytes, j: nat, sealed: Bytes, plain: Bytes) {
    && env.code.k <= |group| && group != []
    && Reconstructed(env.code, PutInSlots(Datas(group), env.code.k + env.code.m)) == Written(sealed)
    && env.decrypt(env.hash(masterKey + BigEndian(j + 1, 8)), NonceOf(group[0]), sealed) == Some(plain)
  }

  ghost predicate AllRecover(env: Env, ps: seq<Packet>, blocks: seq<BlockManifest>, masterKey: Bytes,
                             sealed: seq<Bytes>, plains: seq<Bytes>)
  {
    && |sealed| == |plains| == |blocks|
    && forall j :: 0 <= j < |blocks| ==>
         RecoversBlock(env, GroupPackets(ps, blocks[j].repairGroupID), masterKey, j, sealed[j], plains[j])
  }

  /** The plain texts of all listed blocks, in order, are what these storages and participants recover. */
  ghost predicate Recovers(env: Env, storages: seq<Storage>, participants: seq<nat>, masterKey: Bytes,
                           sealed: seq<Bytes>, plains: seq<Bytes>)
    requires storages != []
    requires forall i :: 0 <= i < |participants| ==> participants[i] < |storages|
  {
    && storages[0].manifest.Some? && storages[0].manifest.value.ManifestStream?
    && env.combine(KeyShares(storages, participants)) == Some(masterKey)
    && AllRecover(env, Collected(storages, participants), storages[0].manifest.value.blocks, masterKey, sealed, plains)
  }

  lemma BlockSealedAndOpened(env: Env, ps: seq<Packet>, blocks: seq<BlockManifest>, masterKey: Bytes,
                             sealed: seq<Bytes>, plains: seq<Bytes>, j: nat)
    requires j < |sealed| == |plains| == |blocks|
    ensures SealedBlocks(env, ps, blocks)[j] == Some(sealed[j]) &&
            OpenedBlocks(env, ps, blocks, sealed, masterKey)[j] == Some(plains[j]) <==>
            RecoversBlock(env, GroupPackets(ps, blocks[j].repairGroupID), masterKey, j, sealed[j], plains[j])
  {
  }

  lemma SealedAndOpened(env: Env, ps: seq<Packet>, blocks: seq<BlockManifest>, masterKey: Bytes,
                        sealed: seq<Bytes>, plains: seq<Bytes>)
    requires |sealed| == |plains| == |blocks|
    ensures AllSome(SealedBlocks(env, ps, blocks)) == Some(sealed) &&
            AllSome(OpenedBlocks(env, ps, blocks, sealed, masterKey)) == Some(plains) <==>
            AllRecover(env, ps, blocks, masterKey, sealed, plains)
  {
    var os, qs := SealedBlocks(env, ps, blocks), OpenedBlocks(env, ps, blocks, sealed, masterKey);
    AllSomeIs(os, sealed);
    AllSomeIs(qs, plains);
    forall j | 0 <= j < |blocks|
      ensures os[j] == Some(sealed[j]) && qs[j] == Some(plains[j]) <==>
              RecoversBlock(env, GroupPackets(ps, blocks[j].repairGroupID), masterKey, j, sealed[j], plains[j])
    {
      BlockSealedAndOpened(env, ps, blocks, masterKey, sealed, plains, j);
    }
  }

  lemma RecoveredOnly(env: Env, storages: seq<Storage>, participants: seq<nat>)
    returns (masterKey: Bytes, sealed: seq<Bytes>, plains: seq<Bytes>)
    requires storages != []
    requires forall i :: 0 <= i < |participants| ==> participants[i] < |storages|
    requires Recovered(env, storages, participants).Some?
    ensures Recovers(env, storages, participants, masterKey, sealed, plains)
    ensures Recovered(env, storages, participants) == Some(Flatten(plains))
  {
    var ps, blocks := Collected(storages, participants), storages[0].manifest.value.blocks;
    sealed := AllSome(SealedBlocks(env, ps, blocks)).value;
    masterKey := env.combine(KeyShares(storages, participants)).value;
    plains := AllSome(OpenedBlocks(env, ps, blocks, sealed, masterKey)).value;
    SealedAndOpened(env, ps, blocks, masterKey, sealed, plains);
  }

  lemma RecoversGives(env: Env, storages: seq<Storage>, participants: seq<nat>, masterKey: Bytes,
                      sealed: seq<Bytes>, plains: seq<Bytes>)
    requires storages != []
    requires forall i :: 0 <= i < |participants| ==> participants[i] < |storages|
    requires Recovers(env, storages, participants, masterKey, sealed, plains)
    ensures Recovered(env, storages, participants) == Some(Flatten(plains))
  {
    SealedAndOpened(env, Collected(storages, participants), storages[0].manifest.value.blocks, masterKey, sealed, plains);
  }

  /** For any storages: x is recovered exactly if it is the plain texts of all listed blocks, put together. */
  lemma RecoveredExactly(env: Env, storages: seq<Storage>, participants: seq<nat>, x: Bytes)
    requires storages != []
    requires forall i :: 0 <= i < |participants| ==> participants[i] < |storages|
    ensures Recovered(env, storages, participants) == Some(x) <==>
            exists masterKey: Bytes, sealed: seq<Bytes>, plains: seq<Bytes> ::
              Recovers(env, storages, participants, masterKey, sealed, plains) && Flatten(plains) == x
  {
    if Recovered(env, storages, participants).Some? {
      var masterKey, sealed, plains := RecoveredOnly(env, storages, participants);
    }
    forall masterKey: Bytes, sealed: seq<Bytes>, plains: seq<Bytes> |
      Recovers(env, storages, participants, masterKey, sealed, plains)
      ensures Recovered(env, storages, participants) == Some(Flatten(plains))
    {
      RecoversGives(env, storages, participants, masterKey, sealed, plains);
    }
  }

  ghost predicate Grouped(groups: map<Uuid, BlockInfo>, ps: seq<Packet>) {
    forall g :: (g in groups <==> GroupPackets(ps, g) != []) &&
                (g in groups ==> groups[g] == BlockInfo(Datas(GroupPackets(ps, g)), NonceOf(GroupPackets(ps, g)[0])))
  }

  lemma GroupedMore(groups: map<Uuid, BlockInfo>, ps: seq<Packet>, p: Packet, groups': map<Uuid, BlockInfo>)
    requires Grouped(groups, ps) && p.msg.ShardStream?
    requires var g := p.msg.repairGroupID;
             var info := if g in groups then groups[g] else BlockInfo([], p.msg.nonce);
             groups' == groups[g := info.(shards := info.shards + [p.data])]
    ensures Grouped(groups', ps + [p])
  {
    assert (ps + [p])[..|ps|] == ps;
    forall g
      ensures g in groups' <==> GroupPackets(ps + [p], g) != []
      ensures g in groups' ==> groups'[g] == BlockInfo(Datas(GroupPackets(ps + [p], g)), NonceOf(GroupPackets(ps + [p], g)[0]))
    {
      if g == p.msg.repairGroupID {
        assert Datas(GroupPackets(ps, g) + [p]) == Datas(GroupPackets(ps, g)) + [p.data];
      }
    }
  }

  method AddShard(before: map<Uuid, BlockInfo>, shard: Packet, ghost ps: seq<Packet>)
    returns (groups: map<Uuid, BlockInfo>)
    requires Grouped(before, ps) && shard.msg.ShardStream?
    ensures Grouped(groups, ps + [shard])
  {
    var g := shard.msg.repairGroupID;
    groups := before;
    if g !in groups {
      groups := groups[g := BlockInfo([], shard.msg.nonce)];
    }
    groups := groups[g := groups[g].(shards := groups[g].shards + [shard.data])];
    GroupedMore(before, ps, shard, groups);
  }

  /** Phase 3: collect the shards of the participants, grouped by repair group. */
  method CollectShards(storages: seq<Storage>, participants: seq<nat>) returns (groups: map<Uuid, BlockInfo>)
    requires forall i :: 0 <= i < |participants| ==> participants[i] < |storages|
    requires forall j, i :: 0 <= j < |storages| && 0 <= i < |storages[j].shards| ==> storages[j].shards[i].msg.ShardStream?
    ensures Grouped(groups, Collected(storages, participants))
  {
    groups := map[];
    for u := 0 to |participants|
      invariant Grouped(groups, Collected(storages, participants[..u]))
    {
      var storage := storages[participants[u]];
      ghost var before := Collected(storages, participants[..u]);
      assert before + storage.shards[..0] == before;
      for i := 0 to |storage.shards|
        invariant Grouped(groups, before + storage.shards[..i])
      {
        groups := AddShard(groups, storage.shards[i], before + storage.shards[..i]);
        assert before + storage.shards[..i] + [storage.shards[i]] == before + storage.shards[..i + 1];
      }
      assert storage.shards[..|storage.shards|] == storage.shards;
      assert participants[..u + 1][..u] == participants[..u];
    }
    assert participants[..|participants|] == participants;
  }

  /** Phases 3 to 8. */
  method Recover(env: Env, storages: seq<Storage>, participants: seq<nat>) returns (r: Option<Bytes>)
    requires ValidCode(env.code)
    requires storages != []
    requires forall i :: 0 <= i < |participants| ==> participants[i] < |storages|
    requires forall j, i :: 0 <= j < |storages| && 0 <= i < |storages[j].shards| ==> storages[j].shards[i].msg.ShardStream?
    ensures r == Recovered(env, storages, participants)
  {
    var groups := CollectShards(storages, participants);
    ghost var ps := Collected(storages, participants);
    if storages[0].manifest.None? || !storages[0].manifest.value.ManifestStream? {
      return None;
    }
    var blocks := storages[0].manifest.value.blocks;
    var sealed;
    sealed := ReconstructBlocks(env, groups, blocks, ps);
    if sealed.None? {
      return None;
    }
    var shares := KeyShares(storages, participants);
    var masterKey := env.combine(shares);
    if masterKey.None? {
      return None;
    }
    r := OpenBlocks(env, groups, blocks, sealed.value, masterKey.value, ps);
  }

  /** What was collected of one group; an absent group has no shards. */
  method InfoOf(groups: map<Uuid, BlockInfo>, g: Uuid, ghost ps: seq<Packet>) returns (info: BlockInfo)
    requires Grouped(groups, ps)
    ensures info.shards == Datas(GroupPackets(ps, g)) && info.nonce == GroupNonce(GroupPackets(ps, g))
  {
    assert (g in groups) == (GroupPackets(ps, g) != []);
    info := if g in groups then groups[g] else BlockInfo([], []);
  }

  /** Phase 5 for one block. */
  method ReconstructBlock(env: Env, info: BlockInfo, ghost ps: seq<Packet>) returns (sealed: Option<Bytes>)
    requires ValidCode(env.code) && info.shards == Datas(ps)
    ensures sealed == SealedBlock(env, ps)
  {
    if |info.shards| < env.code.k {
      return None;
    }
    var outcome := Reconstruct(env.code, PutInSlots(info.shards, env.code.k + env.code.m));
    sealed := if outcome.Written? then Some(outcome.data) else None;
  }

  lemma AllSomeNext(os: seq<Option<Bytes>>, b: nat)
    requires b < |os|
    ensures AllSome(os[..b + 1]) ==
              if AllSome(os[..b]).None? || os[b].None? then None else Some(AllSome(os[..b]).value + [os[b].value])
  {
    assert os[..b + 1][..b] == os[..b];
  }

  lemma AllSomeWhole(os: seq<Option<Bytes>>)
    ensures AllSome(os[..|os|]) == AllSome(os)
  {
    assert os[..|os|] == os;
  }

  /** Phase 5 for the group of one listed block. */
  method ReconstructGroup(env: Env, groups: map<Uuid, BlockInfo>, g: Uuid, ghost ps: seq<Packet>)
    returns (sealed: Option<Bytes>)
    requires ValidCode(env.code) && Grouped(groups, ps)
    ensures sealed == SealedBlock(env, GroupPackets(ps, g))
  {
    var info := InfoOf(groups, g, ps);
    sealed := ReconstructBlock(env, info, GroupPackets(ps, g));
  }

  method ReconstructBlocks(env: Env, groups: map<Uuid, BlockInfo>, blocks: seq<BlockManifest>, ghost ps: seq<Packet>)
    returns (r: Option<seq<Bytes>>)
    requires ValidCode(env.code) && Grouped(groups, ps)
    ensures r == AllSome(SealedBlocks(env, ps, blocks))
  {
    ghost var os := SealedBlocks(env, ps, blocks);
    var reconstructed: seq<Bytes> := [];
    for b := 0 to |blocks|
      invariant AllSome(os[..b]) == Some(reconstructed)
    {
      var sealed := ReconstructGroup(env, groups, blocks[b].repairGroupID, ps);
      AllSomeNext(os, b);
      if sealed.None? {
        NoneStays(os, b + 1);
        return None;
      }
      reconstructed := reconstructed + [sealed.value];
    }
    AllSomeWhole(os);
    r := Some(reconstructed);
  }

  lemma {:induction false} NoneStays(os: seq<Option<Bytes>>, b: nat)
    requires b <= |os| && AllSome(os[..b]) == None
    ensures AllSome(os) == None
  {
    if b == |os| {
      assert os[..b] == os;
    } else {
      assert os[..|os| - 1][..b] == os[..b];
      NoneStays(os[..|os| - 1], b);
    }
  }

  /** Phase 7 for one block. */
  method OpenGroup(env: Env, groups: map<Uuid, BlockInfo>, g: Uuid, blockID: nat, sealed: Bytes, masterKey: Bytes,
                   ghost ps: seq<Packet>) returns (plain: Option<Bytes>)
    requires Grouped(groups, ps)
    ensures plain == env.decrypt(BlockKey(env, masterKey, blockID), GroupNonce(GroupPackets(ps, g)), sealed)
  {
    var info := InfoOf(groups, g, ps);
    plain := env.decrypt(BlockKey(env, masterKey, blockID), info.nonce, sealed);
  }

  method OpenBlocks(env: Env, groups: map<Uuid, BlockInfo>, blocks: seq<BlockManifest>, sealed: seq<Bytes>,
                    masterKey: Bytes, ghost ps: seq<Packet>) returns (r: Option<Bytes>)
    requires |sealed| == |blocks| && Grouped(groups, ps)
    ensures r == Joined(OpenedBlocks(env, ps, blocks, sealed, masterKey))
  {
    ghost var os := OpenedBlocks(env, ps, blocks, sealed, masterKey);
    ghost var plains: seq<Bytes> := [];
    var whole: Bytes := [];
    for b := 0 to |blocks|
      invariant AllSome(os[..b]) == Some(plains) && whole == Flatten(plains)
    {
      var plain := OpenGroup(env, groups, blocks[b].repairGroupID, b + 1, sealed[b], masterKey, ps);
      AllSomeNext(os, b);
      if plain.None? {
        NoneStays(os, b + 1);
        return None;
      }
      FlattenSnoc(plains, plain.value);
      plains := plains + [plain.value];
      whole := whole + plain.value;
    }
    AllSomeWhole(os);
    r := Some(whole);
  }
}
