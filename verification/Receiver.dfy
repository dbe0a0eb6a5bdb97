/**
 ReceiveCapsuleStream: a guardian's side. One run is an automaton over its phases that
 takes messages from a FIFO and calls the stores; every call may fail. The method of the
 source is proved to run exactly this automaton.
 */
module Receiver {
  import opened Basics
  import opened Placement
  import opened Capsule

  /* ---- Stores ---- */

  datatype ShardRecord = ShardRecord(capsuleID: Uuid, repairGroupID: Uuid, hash: Bytes, nonce: Bytes, size: nat,
                                     dataShardNum: nat, parityShardNum: nat)

  datatype CapsuleRecord = CapsuleRecord(ownerID: Uuid, guardianIDs: seq<Uuid>, isComplete: bool, isKeyShareReceived: bool)

  datatype ShareRecord = ShareRecord(share: Bytes, totalShares: nat, thresholdShares: nat)

  /** The content store and the collections of the database. */
  datatype Store = Store(
    cas: map<Bytes, Bytes>,
    capsules: map<Uuid, CapsuleRecord>,
    records: map<Uuid, ShardRecord>,
    manifests: map<Uuid, Msg>,
    shares: map<Uuid, ShareRecord>)

  /** The hash is there, bound to bytes that have it. */
  predicate Bound(hash: Bytes -> Bytes, st: Store, h: Bytes) {
    h in st.cas && hash(st.cas[h]) == h
  }

  /* ---- One run as an automaton ---- */

  datatype RunError = StoreFailed | Cancelled | TooManyShards | BadShard | BadManifest | BadShare

  datatype Phase =
    | Starting
    | AwaitingShard(received: nat)
    | ShardArrived(received: nat, shard: Packet)
    | ShardSaved(received: nat, shard: Packet)
    | Completing
    | AwaitingManifest
    | ManifestArrived(manifest: Msg)
    | AwaitingShare
    | ShareArrived(share: Packet)
    | Finishing
    | Done
    | Failed(error: RunError)

  /** `intro` is the announcement that started the run. */
  datatype Run = Run(owner: Uuid, intro: Msg, inbox: seq<Packet>, phase: Phase)

  predicate Halted(r: Run) {
    r.phase.Done? || r.phase.Failed?
  }

  /** The shard the source accepts next; its buffer has the announced size. */
  predicate AcceptsShard(intro: Msg, inbox: seq<Packet>)
    requires intro.IncomingStream?
  {
    && inbox != []
    && var p := inbox[0];
       && p.msg.ShardStream?
       && |p.data| <= intro.shardSize
       && p.msg.capsuleID == intro.capsuleID
       && |p.data| == p.msg.size
       && p.msg.dataShardNum != 0 && p.msg.parityShardNum != 0
  }

  predicate AcceptsManifest(intro: Msg, inbox: seq<Packet>)
    requires intro.IncomingStream?
  {
    inbox != [] && inbox[0].msg.ManifestStream? && inbox[0].msg.capsuleID == intro.capsuleID
  }

  predicate AcceptsShare(intro: Msg, inbox: seq<Packet>)
    requires intro.IncomingStream?
  {
    inbox != [] && inbox[0].msg.KeyShare? && |inbox[0].data| == intro.keyShareSize
  }

  function RecordOf(hash: Bytes -> Bytes, p: Packet): ShardRecord
    requires p.msg.ShardStream?
  {
    ShardRecord(p.msg.capsuleID, p.msg.repairGroupID, hash(p.data), p.msg.nonce, p.msg.size,
                p.msg.dataShardNum, p.msg.parityShardNum)
  }

  function CapsuleOf(r: Run, complete: bool, share: bool): CapsuleRecord
    requires r.intro.IncomingStream?
  {
    CapsuleRecord(r.owner, r.intro.guardianIDs, complete, share)
  }

  function SaveCapsule(r: Run, st: Store, complete: bool, share: bool): Store
    requires r.intro.IncomingStream?
  {
    st.(capsules := st.capsules[r.intro.capsuleID := CapsuleOf(r, complete, share)])
  }

  function SaveBytes(hash: Bytes -> Bytes, st: Store, p: Packet): Store {
    st.(cas := st.cas[hash(p.data) := p.data])
  }

  function SaveRecord(hash: Bytes -> Bytes, st: Store, p: Packet): Store
    requires p.msg.ShardStream?
  {
    st.(records := st.records[p.msg.shardID := RecordOf(hash, p)])
  }

  function SaveManifest(r: Run, st: Store, m: Msg): Store
    requires r.intro.IncomingStream?
  {
    st.(manifests := st.manifests[r.intro.capsuleID := m])
  }

  function SaveShare(r: Run, st: Store, p: Packet): Store
    requires r.intro.IncomingStream? && p.msg.KeyShare?
  {
    st.(shares := st.shares[r.intro.capsuleID := ShareRecord(p.data, p.msg.totalShares, p.msg.thresholdShares)])
  }

  predicate ValidRun(r: Run) {
    && r.intro.IncomingStream?
    && (r.phase.ShardArrived? || r.phase.ShardSaved? ==>
          r.phase.shard.msg.ShardStream? && r.phase.shard.msg.capsuleID == r.intro.capsuleID)
    && (r.phase.ShareArrived? ==> r.phase.share.msg.KeyShare?)
  }

  /** One step: a store call or a Receive. With `fault` it fails and leaves the stores alone. */
  function Step(hash: Bytes -> Bytes, r: Run, st: Store, fault: bool): (next: (Run, Store))
    requires ValidRun(r) && !Halted(r)
    ensures ValidRun(next.0) && next.0.intro == r.intro
  {
    match r.phase
    case Starting =>
      if fault then (r.(phase := Failed(StoreFailed)), st)
      else (r.(phase := AwaitingShard(0)), SaveCapsule(r, st, false, false))
    case AwaitingShard(n) =>
      if fault then (r.(phase := Failed(Cancelled)), st)
      else if n >= MAX_SHARDS then (r.(phase := Failed(TooManyShards)), st)
      else if !AcceptsShard(r.intro, r.inbox) then (r.(phase := Failed(BadShard)), st)
      else (r.(phase := ShardArrived(n, r.inbox[0]), inbox := r.inbox[1..]), st)
    case ShardArrived(n, p) =>
      if fault then (r.(phase := Failed(StoreFailed)), st)
      else (r.(phase := ShardSaved(n, p)), SaveBytes(hash, st, p))
    case ShardSaved(n, p) =>
      if fault then (r.(phase := Failed(StoreFailed)), st)
      else (r.(phase := if p.msg.isFinal then Completing else AwaitingShard(n + 1)), SaveRecord(hash, st, p))
    case Completing =>
      if fault then (r.(phase := Failed(StoreFailed)), st)
      else (r.(phase := AwaitingManifest), SaveCapsule(r, st, true, false))
    case AwaitingManifest =>
      if fault || !AcceptsManifest(r.intro, r.inbox) then (r.(phase := Failed(BadManifest)), st)
      else (r.(phase := ManifestArrived(r.inbox[0].msg), inbox := r.inbox[1..]), st)
    case ManifestArrived(m) =>
      if fault then (r.(phase := Failed(StoreFailed)), st)
      else (r.(phase := AwaitingShare), SaveManifest(r, st, m))
    case AwaitingShare =>
      if fault || !AcceptsShare(r.intro, r.inbox) then (r.(phase := Failed(BadShare)), st)
      else (r.(phase := ShareArrived(r.inbox[0]), inbox := r.inbox[1..]), st)
    case ShareArrived(p) =>
      if fault then (r.(phase := Failed(StoreFailed)), st)
      else (r.(phase := Finishing), SaveShare(r, st, p))
    case Finishing =>
      // the error of the last update is dropped
      (r.(phase := Done), if fault then st else SaveCapsule(r, st, false, true))
  }

  function Rank(r: Run): nat {
    10 * |r.inbox| + match r.phase
      case Starting => 6
      case AwaitingShard(_) => 5
      case ShardArrived(_, _) => 9
      case ShardSaved(_, _) => 8
      case Completing => 7
      case AwaitingManifest => 6
      case ManifestArrived(_) => 9
      case AwaitingShare => 6
      case ShareArrived(_) => 9
      case Finishing => 8
      case Done => 0
      case Failed(_) => 0
  }

  /** Steps until the run halts; the t-th step of all fails if faults(t). */
  function Drive(hash: Bytes -> Bytes, r: Run, st: Store, faults: nat -> bool, t: nat): (Run, Store)
    requires ValidRun(r)
    decreases Rank(r)
  {
    if Halted(r) then (r, st) else
    var (r', st') := Step(hash, r, st, faults(t));
    Drive(hash, r', st', faults, t + 1)
  }

  /* ---- What a run leaves alone ---- */

  /** Under the ids of other capsules nothing has changed. */
  ghost predicate OtherCapsules(st: Store, st': Store, c: Uuid) {
    forall d :: d != c ==>
      && (d in st.capsules <==> d in st'.capsules) && (d in st.capsules ==> st.capsules[d] == st'.capsules[d])
      && (d in st.manifests <==> d in st'.manifests) && (d in st.manifests ==> st.manifests[d] == st'.manifests[d])
      && (d in st.shares <==> d in st'.shares) && (d in st.shares ==> st.shares[d] == st'.shares[d])
  }

  /** The record of capsule c names its owner and the guardians announced. */
  predicate NamesOwner(st: Store, c: Uuid, owner: Uuid, guardianIDs: seq<Uuid>) {
    c in st.capsules && st.capsules[c].ownerID == owner && st.capsules[c].guardianIDs == guardianIDs
  }

  /** The map as it was, or with one entry written. */
  predicate OneEntry<K(==), V(==)>(m: map<K, V>, m': map<K, V>, k: K) {
    m' == m || (k in m' && m' == m[k := m'[k]])
  }

  /** A step writes at most under its own capsule's id. */
  lemma StepWritesCapsules(hash: Bytes -> Bytes, r: Run, st: Store, fault: bool)
    requires ValidRun(r) && !Halted(r)
    ensures OneEntry(st.capsules, Step(hash, r, st, fault).1.capsules, r.intro.capsuleID)
  {
  }

  lemma StepWritesManifests(hash: Bytes -> Bytes, r: Run, st: Store, fault: bool)
    requires ValidRun(r) && !Halted(r)
    ensures OneEntry(st.manifests, Step(hash, r, st, fault).1.manifests, r.intro.capsuleID)
  {
  }

  lemma StepWritesShares(hash: Bytes -> Bytes, r: Run, st: Store, fault: bool)
    requires ValidRun(r) && !Halted(r)
    ensures OneEntry(st.shares, Step(hash, r, st, fault).1.shares, r.intro.capsuleID)
  {
  }

  lemma StepNames(hash: Bytes -> Bytes, r: Run, st: Store, fault: bool)
    requires ValidRun(r) && !Halted(r)
    requires NamesOwner(st, r.intro.capsuleID, r.owner, r.intro.guardianIDs) || (r.phase.Starting? && !fault)
    ensures var (r', st') := Step(hash, r, st, fault);
            r'.owner == r.owner && NamesOwner(st', r.intro.capsuleID, r.owner, r.intro.guardianIDs)
  {
  }

  /** A step, failing or not, leaves other capsules alone. */
  lemma StepFrame(hash: Bytes -> Bytes, r: Run, st: Store, fault: bool)
    requires ValidRun(r) && !Halted(r)
    ensures OtherCapsules(st, Step(hash, r, st, fault).1, r.intro.capsuleID)
  {
    StepWritesCapsules(hash, r, st, fault);
    StepWritesManifests(hash, r, st, fault);
    StepWritesShares(hash, r, st, fault);
    EntriesFrame(st, Step(hash, r, st, fault).1, r.intro.capsuleID);
  }

  lemma EntriesFrame(st: Store, st': Store, c: Uuid)
    requires OneEntry(st.capsules, st'.capsules, c) && OneEntry(st.manifests, st'.manifests, c)
    requires OneEntry(st.shares, st'.shares, c)
    ensures OtherCapsules(st, st', c)
  {
  }

  lemma {:induction false} NamesKept(hash: Bytes -> Bytes, r: Run, st: Store, faults: nat -> bool, t: nat)
    requires ValidRun(r) && NamesOwner(st, r.intro.capsuleID, r.owner, r.intro.guardianIDs)
    ensures NamesOwner(Drive(hash, r, st, faults, t).1, r.intro.capsuleID, r.owner, r.intro.guardianIDs)
    decreases Rank(r)
  {
    if !Halted(r) {
      var (r', st') := Step(hash, r, st, faults(t));
      StepNames(hash, r, st, faults(t));
      NamesKept(hash, r', st', faults, t + 1);
    }
  }

  /** A whole run leaves other capsules alone, whatever fails in it. */
  lemma {:induction false} RunFrame(hash: Bytes -> Bytes, r: Run, st: Store, faults: nat -> bool, t: nat)
    requires ValidRun(r)
    ensures OtherCapsules(st, Drive(hash, r, st, faults, t).1, r.intro.capsuleID)
    decreases Rank(r)
  {
    if !Halted(r) {
      var (r', st') := Step(hash, r, st, faults(t));
      StepFrame(hash, r, st, faults(t));
      RunFrame(hash, r', st', faults, t + 1);
    }
  }

  /** From its first update on, the capsule's record names owner and guardians. */
  lemma StartedNames(hash: Bytes -> Bytes, r: Run, st: Store, faults: nat -> bool, t: nat)
    requires ValidRun(r) && r.phase.Starting? && !faults(t)
    ensures NamesOwner(Drive(hash, r, st, faults, t).1, r.intro.capsuleID, r.owner, r.intro.guardianIDs)
  {
    var (r', st') := Step(hash, r, st, false);
    StepNames(hash, r, st, false);
    NamesKept(hash, r', st', faults, t + 1);
  }

  /* ---- Which runs succeed ---- */

  /** A shard packet of the capsule, as long as its message says, with shard counts. */
  predicate Proper(intro: Msg, p: Packet)
    requires intro.IncomingStream?
  {
    && p.msg.ShardStream? && p.msg.capsuleID == intro.capsuleID && |p.data| == p.msg.size
    && p.msg.dataShardNum != 0 && p.msg.parityShardNum != 0
  }

  predicate Fits(intro: Msg, p: Packet)
    requires intro.IncomingStream?
  {
    |p.data| <= intro.shardSize
  }

  /** The capsule's manifest and a key share of the announced size. */
  predicate ProperClosing(intro: Msg, manifest: Packet, share: Packet)
    requires intro.IncomingStream?
  {
    && manifest.msg.ManifestStream? && manifest.msg.capsuleID == intro.capsuleID
    && share.msg.KeyShare? && |share.data| == intro.keyShareSize
  }

  /** n shards that are proper and fit, the last of them and no other final, then manifest and key share. */
  predicate Starts(intro: Msg, inbox: seq<Packet>, n: nat)
    requires intro.IncomingStream?
  {
    && 1 <= n && n + 2 <= |inbox|
    && (forall i :: 0 <= i < n ==> Proper(intro, inbox[i]) && Fits(intro, inbox[i]) && (inbox[i].msg.isFinal <==> i == n - 1))
    && ProperClosing(intro, inbox[n], inbox[n + 1])
  }

  predicate Quiet(faults: nat -> bool, from: nat, to: nat) {
    forall u :: from <= u < to ==> !faults(u)
  }

  lemma DriveStep(hash: Bytes -> Bytes, r: Run, st: Store, faults: nat -> bool, t: nat)
    requires ValidRun(r) && !Halted(r)
    ensures var (r', st') := Step(hash, r, st, faults(t));
            Drive(hash, r, st, faults, t) == Drive(hash, r', st', faults, t + 1)
  {
  }

  /** The steps after the shards: completion mark, manifest, share. */
  lemma ClosingDone(hash: Bytes -> Bytes, r: Run, st: Store, faults: nat -> bool, t: nat)
    requires ValidRun(r) && r.phase.Completing?
    ensures Drive(hash, r, st, faults, t).0.phase.Done? <==>
            |r.inbox| >= 2 && ProperClosing(r.intro, r.inbox[0], r.inbox[1]) && Quiet(faults, t, t + 5)
  {
    DriveStep(hash, r, st, faults, t);
    if !faults(t) {
      ManifestDone(hash, r.(phase := AwaitingManifest), SaveCapsule(r, st, true, false), faults, t + 1);
    }
  }

  /** The manifest: taken in without fault it leads on to the share, anything else ends in failure. */
  lemma ManifestNext(hash: Bytes -> Bytes, r: Run, st: Store, faults: nat -> bool, t: nat)
    requires ValidRun(r) && r.phase.AwaitingManifest?
    ensures if AcceptsManifest(r.intro, r.inbox) && !faults(t) && !faults(t + 1)
            then Drive(hash, r, st, faults, t) ==
                 Drive(hash, r.(phase := AwaitingShare, inbox := r.inbox[1..]), SaveManifest(r, st, r.inbox[0].msg), faults, t + 2)
            else !Drive(hash, r, st, faults, t).0.phase.Done?
  {
    DriveStep(hash, r, st, faults, t);
    if !faults(t) && AcceptsManifest(r.intro, r.inbox) {
      DriveStep(hash, r.(phase := ManifestArrived(r.inbox[0].msg), inbox := r.inbox[1..]), st, faults, t + 1);
    }
  }

  lemma ManifestDone(hash: Bytes -> Bytes, r: Run, st: Store, faults: nat -> bool, t: nat)
    requires ValidRun(r) && r.phase.AwaitingManifest?
    ensures Drive(hash, r, st, faults, t).0.phase.Done? <==>
            |r.inbox| >= 2 && ProperClosing(r.intro, r.inbox[0], r.inbox[1]) && Quiet(faults, t, t + 4)
  {
    ManifestNext(hash, r, st, faults, t);
    if AcceptsManifest(r.intro, r.inbox) && !faults(t) && !faults(t + 1) {
      ShareDone(hash, r.(phase := AwaitingShare, inbox := r.inbox[1..]), SaveManifest(r, st, r.inbox[0].msg), faults, t + 2);
      assert Quiet(faults, t, t + 4) <==> Quiet(faults, t + 2, t + 4);
    }
  }

  lemma ShareDone(hash: Bytes -> Bytes, r: Run, st: Store, faults: nat -> bool, t: nat)
    requires ValidRun(r) && r.phase.AwaitingShare?
    ensures Drive(hash, r, st, faults, t).0.phase.Done? <==>
            |r.inbox| >= 1 && r.inbox[0].msg.KeyShare? && |r.inbox[0].data| == r.intro.keyShareSize && Quiet(faults, t, t + 2)
  {
    DriveStep(hash, r, st, faults, t);
    if !faults(t) && AcceptsShare(r.intro, r.inbox) {
      var r1 := r.(phase := ShareArrived(r.inbox[0]), inbox := r.inbox[1..]);
      DriveStep(hash, r1, st, faults, t + 1);
      if !faults(t + 1) {
        var st1 := SaveShare(r1, st, r.inbox[0]);
        DriveStep(hash, r1.(phase := Finishing), st1, faults, t + 2);
      }
    }
  }

  /** One shard: taken in without fault it leads on, anything else ends in failure. */
  lemma ShardDone(hash: Bytes -> Bytes, r: Run, st: Store, faults: nat -> bool, t: nat, k: nat)
    requires ValidRun(r) && r.phase == AwaitingShard(k)
    ensures var taken := k < 1000 && |r.inbox| >= 1 && Proper(r.intro, r.inbox[0]) && Fits(r.intro, r.inbox[0]) && Quiet(faults, t, t + 3);
            if taken then
              var p := r.inbox[0];
              Drive(hash, r, st, faults, t) ==
              Drive(hash, r.(inbox := r.inbox[1..], phase := if p.msg.isFinal then Completing else AwaitingShard(k + 1)),
                    SaveRecord(hash, SaveBytes(hash, st, p), p), faults, t + 3)
            else !Drive(hash, r, st, faults, t).0.phase.Done?
  {
    DriveStep(hash, r, st, faults, t);
    if !faults(t) && k < MAX_SHARDS && AcceptsShard(r.intro, r.inbox) {
      var p := r.inbox[0];
      var r1 := r.(phase := ShardArrived(k, p), inbox := r.inbox[1..]);
      DriveStep(hash, r1, st, faults, t + 1);
      if !faults(t + 1) {
        DriveStep(hash, r1.(phase := ShardSaved(k, p)), SaveBytes(hash, st, p), faults, t + 2);
      }
    }
  }

  lemma StartsNext(intro: Msg, inbox: seq<Packet>, n: nat)
    requires intro.IncomingStream? && n >= 1 && inbox != []
    ensures Starts(intro, inbox, n + 1) <==>
            Proper(intro, inbox[0]) && Fits(intro, inbox[0]) && !inbox[0].msg.isFinal && Starts(intro, inbox[1..], n)
  {
    var rest := inbox[1..];
    assert forall i :: 0 <= i < |rest| ==> rest[i] == inbox[i + 1];
    if Starts(intro, rest, n) && Proper(intro, inbox[0]) && Fits(intro, inbox[0]) && !inbox[0].msg.isFinal {
      forall i | 0 <= i < n + 1
        ensures Proper(intro, inbox[i]) && Fits(intro, inbox[i]) && (inbox[i].msg.isFinal <==> i == n)
      {
        if i > 0 { assert inbox[i] == rest[i - 1]; }
      }
    }
  }

  lemma StartsOne(intro: Msg, inbox: seq<Packet>)
    requires intro.IncomingStream?
    ensures Starts(intro, inbox, 1) <==>
            |inbox| >= 3 && Proper(intro, inbox[0]) && Fits(intro, inbox[0]) && inbox[0].msg.isFinal &&
            ProperClosing(intro, inbox[1], inbox[2])
  {
  }

  /** From the shard loop on: done if n shards, within the limit, manifest and share come in without fault. */
  lemma {:induction false} GoodIsDone(hash: Bytes -> Bytes, r: Run, st: Store, faults: nat -> bool, t: nat, k: nat, n: nat)
    requires ValidRun(r) && r.phase == AwaitingShard(k)
    requires Starts(r.intro, r.inbox, n) && k + n <= 1000 && Quiet(faults, t, t + 3 * n + 5)
    ensures Drive(hash, r, st, faults, t).0.phase.Done?
    decreases n
  {
    ShardDone(hash, r, st, faults, t, k);
    var p, rest := r.inbox[0], r.inbox[1..];
    var st' := SaveRecord(hash, SaveBytes(hash, st, p), p);
    if n == 1 {
      StartsOne(r.intro, r.inbox);
      ClosingDone(hash, r.(inbox := rest, phase := Completing), st', faults, t + 3);
    } else {
      StartsNext(r.intro, r.inbox, n - 1);
      GoodIsDone(hash, r.(inbox := rest, phase := AwaitingShard(k + 1)), st', faults, t + 3, k + 1, n - 1);
    }
  }

  /** And only then. */
  lemma {:induction false} DoneIsGood(hash: Bytes -> Bytes, r: Run, st: Store, faults: nat -> bool, t: nat, k: nat)
    returns (n: nat)
    requires ValidRun(r) && r.phase == AwaitingShard(k) && Drive(hash, r, st, faults, t).0.phase.Done?
    ensures Starts(r.intro, r.inbox, n) && k + n <= 1000 && Quiet(faults, t, t + 3 * n + 5)
    decreases |r.inbox|
  {
    ShardDone(hash, r, st, faults, t, k);
    var p, rest := r.inbox[0], r.inbox[1..];
    var st' := SaveRecord(hash, SaveBytes(hash, st, p), p);
    if p.msg.isFinal {
      n := 1;
      ClosingDone(hash, r.(inbox := rest, phase := Completing), st', faults, t + 3);
      StartsOne(r.intro, r.inbox);
    } else {
      var m := DoneIsGood(hash, r.(inbox := rest, phase := AwaitingShard(k + 1)), st', faults, t + 3, k + 1);
      StartsNext(r.intro, r.inbox, m);
      n := m + 1;
    }
  }

  /** A run from t on may succeed with n shards: at most 1000, and no fault before the last update. */
  ghost predicate Succeeds(intro: Msg, inbox: seq<Packet>, faults: nat -> bool, t: nat)
    requires intro.IncomingStream?
  {
    exists n: nat :: Starts(intro, inbox, n) && n <= 1000 && Quiet(faults, t, t + 3 * n + 6)
  }

  /** Whatever comes in and whatever fails: a run is done exactly then. */
  lemma DoneExactly(hash: Bytes -> Bytes, r: Run, st: Store, faults: nat -> bool, t: nat)
    requires ValidRun(r) && r.phase.Starting?
    ensures Drive(hash, r, st, faults, t).0.phase.Done? <==> Succeeds(r.intro, r.inbox, faults, t)
  {
    DriveStep(hash, r, st, faults, t);
    if !faults(t) {
      var r1, st1 := r.(phase := AwaitingShard(0)), SaveCapsule(r, st, false, false);
      if Drive(hash, r1, st1, faults, t + 1).0.phase.Done? {
        var n := DoneIsGood(hash, r1, st1, faults, t + 1, 0);
        assert Quiet(faults, t, t + 3 * n + 6);
      }
      if Succeeds(r.intro, r.inbox, faults, t) {
        var n: nat :| Starts(r.intro, r.inbox, n) && n <= 1000 && Quiet(faults, t, t + 3 * n + 6);
        GoodIsDone(hash, r1, st1, faults, t + 1, 0, n);
      }
    }
  }

  /* ---- The method of the source ---- */

  /** The connection to the owner: a FIFO of messages with their data. */
  class Connection {
    var inbox: seq<Packet>

    constructor (inbox: seq<Packet>)
      ensures this.inbox == inbox
    {
      this.inbox := inbox;
    }
  }

  /** Both stores behind one fault script, so that a run can be told step by step. */
  class GuardianStore {
    const hash: Bytes -> Bytes
    const faults: nat -> bool
    var ticks: nat
    var cas: map<Bytes, Bytes>
    var capsules: map<Uuid, CapsuleRecord>
    var records: map<Uuid, ShardRecord>
    var manifests: map<Uuid, Msg>
    var shares: map<Uuid, ShareRecord>

    function State(): Store
      reads this
    {
      Store(cas, capsules, records, manifests, shares)
    }

    constructor (hash: Bytes -> Bytes, faults: nat -> bool)
      ensures State() == Store(map[], map[], map[], map[], map[]) && ticks == 0
      ensures this.hash == hash && this.faults == faults
    {
      this.hash := hash;
      this.faults := faults;
      this.ticks := 0;
      this.cas, this.capsules, this.records, this.manifests, this.shares := map[], map[], map[], map[], map[];
    }

    /** Does the next step fail? */
    method Tick() returns (fault: bool)
      modifies this`ticks
      ensures fault == faults(old(ticks)) && ticks == old(ticks) + 1
    {
      fault := faults(ticks);
      ticks := ticks + 1;
    }
  }

  /** Where a run in progress will end, given the script. */
  ghost function Fate(store: GuardianStore, r: Run): (Run, Store)
    requires ValidRun(r)
    reads store
  {
    Drive(store.hash, r, store.State(), store.faults, store.ticks)
  }

  lemma FateTells(store: GuardianStore, r: Run)
    requires ValidRun(r) && r.phase.Starting?
    ensures Fate(store, r).0.phase.Done? <==> Succeeds(r.intro, r.inbox, store.faults, store.ticks)
    ensures OtherCapsules(store.State(), Fate(store, r).1, r.intro.capsuleID)
    ensures !store.faults(store.ticks) ==> NamesOwner(Fate(store, r).1, r.intro.capsuleID, r.owner, r.intro.guardianIDs)
  {
    DoneExactly(store.hash, r, store.State(), store.faults, store.ticks);
    RunFrame(store.hash, r, store.State(), store.faults, store.ticks);
    if !store.faults(store.ticks) {
      StartedNames(store.hash, r, store.State(), store.faults, store.ticks);
    }
  }

  method ReceiveCapsuleStream(store: GuardianStore, conn: Connection, owner: Uuid, intro: Msg)
    returns (ok: bool, ghost end: Run)
    requires intro.IncomingStream?
    modifies store, conn
    ensures (end, store.State()) == old(Fate(store, Run(owner, intro, conn.inbox, Starting)))
    ensures end.inbox == conn.inbox && (ok <==> end.phase.Done?) && Halted(end)
    ensures ok <==> old(Succeeds(intro, conn.inbox, store.faults, store.ticks))
    ensures OtherCapsules(old(store.State()), store.State(), intro.capsuleID)
    ensures old(!store.faults(store.ticks)) ==> NamesOwner(store.State(), intro.capsuleID, owner, intro.guardianIDs)
  {
    ghost var r := Run(owner, intro, conn.inbox, Starting);
    ghost var fate := Fate(store, r);
    FateTells(store, r);
    var fault := store.Tick();
    if fault {
      end := r.(phase := Failed(StoreFailed));
      assert Fate(store, end) == fate;
      return false, end;
    }
    store.capsules := store.capsules[intro.capsuleID := CapsuleRecord(owner, intro.guardianIDs, false, false)];
    var received: bool;
    received, end := ReceiveShards(store, conn, owner, intro);
    if !received {
      return false, end;
    }
    ok, end := ReceiveManifestAndShare(store, conn, owner, intro);
  }

  /** The shard loop, up to the record of completion after a final shard. */
  method ReceiveShards(store: GuardianStore, conn: Connection, owner: Uuid, intro: Msg)
    returns (ok: bool, ghost end: Run)
    requires intro.IncomingStream?
    modifies store, conn
    ensures end.owner == owner && end.intro == intro && end.inbox == conn.inbox
    ensures if ok then end.phase.AwaitingManifest? else end.phase.Failed?
    ensures ValidRun(end) && Fate(store, end) == old(Fate(store, Run(owner, intro, conn.inbox, AwaitingShard(0))))
  {
    var shardsReceived := 0;
    end := Run(owner, intro, conn.inbox, AwaitingShard(0));
    ghost var fate := Fate(store, end);
    while true
      invariant end == Run(owner, intro, conn.inbox, AwaitingShard(shardsReceived))
      invariant Fate(store, end) == fate
      decreases |conn.inbox|
    {
      var shard;
      shard, end := TakeShard(store, conn, intro, shardsReceived, end);
      if shard.None? {
        return false, end;
      }
      var stored;
      stored, end := StoreShard(store, shardsReceived, shard.value, end);
      if !stored {
        return false, end;
      }
      if shard.value.msg.isFinal {
        break;
      }
      shardsReceived := shardsReceived + 1;
    }
    ok, end := MarkComplete(store, owner, intro, end);
  }

  /** Receives one shard, unless the limit is reached or the shard does not fit. */
  method TakeShard(store: GuardianStore, conn: Connection, intro: Msg, received: nat, ghost r: Run)
    returns (shard: Option<Packet>, ghost end: Run)
    requires ValidRun(r) && r.phase == AwaitingShard(received) && r.inbox == conn.inbox && r.intro == intro
    modifies store`ticks, conn
    ensures shard.Some? ==>
              old(conn.inbox) == [shard.value] + conn.inbox && ValidRun(end) &&
              end == r.(phase := ShardArrived(received, shard.value), inbox := conn.inbox)
    ensures shard.None? ==> end == r.(phase := end.phase) && end.phase.Failed? && conn.inbox == old(conn.inbox)
    ensures Fate(store, end) == old(Fate(store, r))
  {
    end := r;
    shard := None;
    var fault := store.Tick();
    if fault {
      end := end.(phase := Failed(Cancelled));
    } else if received >= MAX_SHARDS {
      end := end.(phase := Failed(TooManyShards));
    } else if !AcceptsShard(intro, conn.inbox) {
      end := end.(phase := Failed(BadShard));
    } else {
      shard := Some(conn.inbox[0]);
      conn.inbox := conn.inbox[1..];
      end := end.(phase := ShardArrived(received, shard.value), inbox := conn.inbox);
    }
  }

  /** The update of the capsule record after the final shard. */
  method MarkComplete(store: GuardianStore, owner: Uuid, intro: Msg, ghost r: Run) returns (ok: bool, ghost end: Run)
    requires ValidRun(r) && r.phase.Completing? && r.owner == owner && r.intro == intro
    modifies store
    ensures end == r.(phase := if ok then AwaitingManifest else Failed(StoreFailed))
    ensures Fate(store, end) == old(Fate(store, r))
  {
    var fault := store.Tick();
    if fault {
      end := r.(phase := Failed(StoreFailed));
      return false, end;
    }
    store.capsules := store.capsules[intro.capsuleID := CapsuleRecord(owner, intro.guardianIDs, true, false)];
    end := r.(phase := AwaitingManifest);
    ok := true;
  }

  /** The bytes into the content store, then the record into the database. */
  method StoreShard(store: GuardianStore, received: nat, shard: Packet, ghost r: Run) returns (ok: bool, ghost end: Run)
    requires ValidRun(r) && r.phase == ShardArrived(received, shard)
    modifies store
    ensures end == r.(phase := if !ok then Failed(StoreFailed)
                               else if shard.msg.isFinal then Completing else AwaitingShard(received + 1))
    ensures Fate(store, end) == old(Fate(store, r))
  {
    end := r;
    ghost var fate := Fate(store, end);
    var fault := store.Tick();
    if fault {
      end := end.(phase := Failed(StoreFailed));
      return false, end;
    }
    store.cas := store.cas[store.hash(shard.data) := shard.data];
    end := end.(phase := ShardSaved(received, shard));
    assert Fate(store, end) == fate;
    fault := store.Tick();
    if fault {
      end := end.(phase := Failed(StoreFailed));
      return false, end;
    }
    store.records := store.records[shard.msg.shardID := RecordOf(store.hash, shard)];
    end := end.(phase := if shard.msg.isFinal then Completing else AwaitingShard(received + 1));
    return true, end;
  }

  method ReceiveManifestAndShare(store: GuardianStore, conn: Connection, owner: Uuid, intro: Msg)
    returns (ok: bool, ghost end: Run)
    requires intro.IncomingStream?
    modifies store, conn
    ensures end.inbox == conn.inbox && (ok <==> end.phase.Done?) && Halted(end)
    ensures (end, store.State()) == old(Fate(store, Run(owner, intro, conn.inbox, AwaitingManifest)))
  {
    end := Run(owner, intro, conn.inbox, AwaitingManifest);
    ghost var fate := Fate(store, end);
    var fault := store.Tick();
    if fault || !AcceptsManifest(intro, conn.inbox) {
      end := end.(phase := Failed(BadManifest));
      assert Fate(store, end) == fate;
      return false, end;
    }
    var manifest := conn.inbox[0].msg;
    conn.inbox := conn.inbox[1..];
    end := end.(phase := ManifestArrived(manifest), inbox := conn.inbox);
    assert Fate(store, end) == fate;
    fault := store.Tick();
    if fault {
      end := end.(phase := Failed(StoreFailed));
      assert Fate(store, end) == fate;
      return false, end;
    }
    store.manifests := store.manifests[intro.capsuleID := manifest];
    assert Fate(store, end.(phase := AwaitingShare)) == fate;
    ok, end := ReceiveShare(store, conn, owner, intro);
  }

  method ReceiveShare(store: GuardianStore, conn: Connection, owner: Uuid, intro: Msg)
    returns (ok: bool, ghost end: Run)
    requires intro.IncomingStream?
    modifies store, conn
    ensures end.inbox == conn.inbox && (ok <==> end.phase.Done?) && Halted(end)
    ensures (end, store.State()) == old(Fate(store, Run(owner, intro, conn.inbox, AwaitingShare)))
  {
    end := Run(owner, intro, conn.inbox, AwaitingShare);
    ghost var fate := Fate(store, end);
    var fault := store.Tick();
    if fault || !AcceptsShare(intro, conn.inbox) {
      end := end.(phase := Failed(BadShare));
      assert Fate(store, end) == fate;
      return false, end;
    }
    var share := conn.inbox[0];
    conn.inbox := conn.inbox[1..];
    end := end.(phase := ShareArrived(share), inbox := conn.inbox);
    assert Fate(store, end) == fate;
    ok, end := StoreShare(store, owner, intro, share, end);
  }

  /** The key share into the database, then the last update of the capsule's record. */
  method StoreShare(store: GuardianStore, owner: Uuid, intro: Msg, share: Packet, ghost r: Run)
    returns (ok: bool, ghost end: Run)
    requires ValidRun(r) && r.phase == ShareArrived(share) && r.owner == owner && r.intro == intro
    modifies store
    ensures end == r.(phase := if ok then Done else Failed(StoreFailed))
    ensures (end, store.State()) == old(Fate(store, r))
  {
    end := r;
    ghost var fate := Fate(store, end);
    var fault := store.Tick();
    if fault {
      end := end.(phase := Failed(StoreFailed));
      assert Fate(store, end) == fate;
      return false, end;
    }
    store.shares := store.shares[intro.capsuleID := ShareRecord(share.data, share.msg.totalShares, share.msg.thresholdShares)];
    end := end.(phase := Finishing);
    assert Fate(store, end) == fate;
    fault := store.Tick();
    if !fault {
      store.capsules := store.capsules[intro.capsuleID := CapsuleRecord(owner, intro.guardianIDs, false, true)];
    }
    end := end.(phase := Done);
    assert Fate(store, end) == fate;
    ok := true;
  }
}
