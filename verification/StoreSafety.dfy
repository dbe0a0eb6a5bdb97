/**
 What a guardian's stores keep while any number of receive runs interleave, every step
 of which may fail: exactly which steps break their safety, that runs with shard ids of
 their own never take such a step, and executions in which a shared id does.
 */
module StoreSafety {
  import opened Basics
  import opened Placement
  import opened Capsule
  import opened Receiver

  datatype System = System(store: Store, runs: seq<Run>)

  /** One run takes one step, failing or not. */
  ghost predicate RunStep(hash: Bytes -> Bytes, s: System, s': System, i: nat, fault: bool) {
    && i < |s.runs| && ValidRun(s.runs[i]) && !Halted(s.runs[i])
    && var (r, st) := Step(hash, s.runs[i], s.store, fault);
       s' == System(st, s.runs[i := r])
  }

  /** A new announcement starts a new run. */
  predicate RunStart(s: System, s': System) {
    && |s'.runs| == |s.runs| + 1
    && var r := s'.runs[|s.runs|];
       && r.phase.Starting? && r.intro.IncomingStream?
       && s' == System(s.store, s.runs + [r])
  }

  ghost predicate Next(hash: Bytes -> Bytes, s: System, s': System) {
    RunStart(s, s') || exists i: nat, fault :: RunStep(hash, s, s', i, fault)
  }

  ghost predicate Execution(hash: Bytes -> Bytes, states: seq<System>) {
    && states != []
    && states[0] == System(Store(map[], map[], map[], map[], map[]), [])
    && forall k :: 0 <= k < |states| - 1 ==> Next(hash, states[k], states[k + 1])
  }

  /* ---- Safety of the stores ---- */

  ghost predicate HasRecord(st: Store, capsuleID: Uuid) {
    exists id :: id in st.records && st.records[id].capsuleID == capsuleID
  }

  /**
   A key share implies a manifest, a manifest implies a shard record, and every record
   names a hash that is there, bound to bytes with that hash.
   */
  ghost predicate Safe(hash: Bytes -> Bytes, st: Store) {
    && (forall c :: c in st.shares ==> c in st.manifests)
    && (forall c :: c in st.manifests ==> HasRecord(st, c))
    && (forall id :: id in st.records ==> Bound(hash, st, st.records[id].hash))
  }

  /* ---- One step, exactly ---- */

  /** Writing shard `id` of capsule c takes away the only record of another capsule with a manifest. */
  ghost predicate Orphans(st: Store, id: Uuid, c: Uuid) {
    && id in st.records && st.records[id].capsuleID != c
    && st.records[id].capsuleID in st.manifests
    && forall id' :: id' in st.records && st.records[id'].capsuleID == st.records[id].capsuleID ==> id' == id
  }

  /** The step is a record write that orphans a manifest, or a manifest write without any record. */
  ghost predicate Breaks(st: Store, r: Run, fault: bool)
    requires ValidRun(r)
  {
    !fault &&
    ((r.phase.ShardSaved? && Orphans(st, r.phase.shard.msg.shardID, r.intro.capsuleID)) ||
     (r.phase.ManifestArrived? && !HasRecord(st, r.intro.capsuleID)))
  }

  /** What a run may rely on, whatever ids the others use. */
  ghost predicate RunInv(hash: Bytes -> Bytes, st: Store, r: Run) {
    && ValidRun(r)
    && (r.phase.ShardSaved? ==> Bound(hash, st, hash(r.phase.shard.data)))
    && (r.phase.AwaitingShare? || r.phase.ShareArrived? ==> r.intro.capsuleID in st.manifests)
  }

  /** The record write keeps the stores safe exactly when it orphans no other capsule's manifest. */
  lemma RecordWriteExactly(hash: Bytes -> Bytes, st: Store, p: Packet)
    requires Safe(hash, st) && p.msg.ShardStream? && Bound(hash, st, hash(p.data))
    ensures Safe(hash, SaveRecord(hash, st, p)) <==> !Orphans(st, p.msg.shardID, p.msg.capsuleID)
  {
    var id, c, st' := p.msg.shardID, p.msg.capsuleID, SaveRecord(hash, st, p);
    assert st'.records[id].capsuleID == c;
    if Orphans(st, id, c) {
      var lost := st.records[id].capsuleID;
      assert !HasRecord(st', lost);
    } else {
      forall d | d in st'.manifests ensures HasRecord(st', d) {
        var w :| w in st.records && st.records[w].capsuleID == d;
        if w != id {
          assert w in st'.records && st'.records[w].capsuleID == d;
        } else if d != c {
          var w' :| w' in st.records && st.records[w'].capsuleID == d && w' != id;
          assert w' in st'.records && st'.records[w'].capsuleID == d;
        }
      }
      forall d | d in st'.records ensures Bound(hash, st', st'.records[d].hash) {
        assert d != id ==> st'.records[d] == st.records[d];
      }
    }
  }

  lemma SameRecords(st: Store, st': Store, c: Uuid)
    requires st.records == st'.records
    ensures HasRecord(st, c) <==> HasRecord(st', c)
  {
  }

  /** The manifest write keeps the stores safe exactly when the capsule has a record. */
  lemma ManifestWriteExactly(hash: Bytes -> Bytes, st: Store, r: Run, m: Msg)
    requires Safe(hash, st) && r.intro.IncomingStream?
    ensures Safe(hash, SaveManifest(r, st, m)) <==> HasRecord(st, r.intro.capsuleID)
  {
    var st' := SaveManifest(r, st, m);
    forall c ensures HasRecord(st, c) <==> HasRecord(st', c) {
      SameRecords(st, st', c);
    }
    assert r.intro.capsuleID in st'.manifests;
    assert forall id :: id in st'.records ==> Bound(hash, st', st'.records[id].hash);
  }

  lemma BytesWriteKeeps(hash: Bytes -> Bytes, st: Store, p: Packet)
    requires Safe(hash, st)
    ensures Safe(hash, SaveBytes(hash, st, p))
  {
    var st' := SaveBytes(hash, st, p);
    forall c | c in st'.manifests ensures HasRecord(st', c) {
      SameRecords(st, st', c);
    }
  }

  lemma OtherWritesKeep(hash: Bytes -> Bytes, st: Store, st': Store)
    requires Safe(hash, st) && st'.cas == st.cas && st'.records == st.records && st'.manifests == st.manifests
    requires forall c :: c in st'.shares ==> c in st.manifests
    ensures Safe(hash, st')
  {
    forall c | c in st'.manifests ensures HasRecord(st', c) {
      SameRecords(st, st', c);
    }
    assert forall id :: id in st'.records ==> Bound(hash, st', st'.records[id].hash);
  }

  /** From safe stores, a step leaves them safe exactly when it is neither of the two that break. */
  lemma StepSafeExactly(hash: Bytes -> Bytes, st: Store, r: Run, fault: bool)
    requires Safe(hash, st) && RunInv(hash, st, r) && !Halted(r)
    ensures Safe(hash, Step(hash, r, st, fault).1) <==> !Breaks(st, r, fault)
  {
    if !fault && r.phase.ShardSaved? {
      RecordWriteExactly(hash, st, r.phase.shard);
    } else if !fault && r.phase.ManifestArrived? {
      ManifestWriteExactly(hash, st, r, r.phase.manifest);
    } else if !fault && r.phase.ShardArrived? {
      BytesWriteKeeps(hash, st, r.phase.shard);
    } else {
      OtherWritesKeep(hash, st, Step(hash, r, st, fault).1);
    }
  }

  /* ---- Whole executions, exactly ---- */

  ghost predicate Addressed(hash: Bytes -> Bytes, st: Store) {
    forall h :: h in st.cas ==> Bound(hash, st, h)
  }

  /** Hashes stay bound and manifests stay. */
  ghost predicate Grows(hash: Bytes -> Bytes, st: Store, st': Store) {
    && (forall h :: Bound(hash, st, h) ==> Bound(hash, st', h))
    && (forall c :: c in st.manifests ==> c in st'.manifests)
  }

  lemma BytesWriteGrows(hash: Bytes -> Bytes, st: Store, p: Packet)
    requires Addressed(hash, st)
    ensures var st' := SaveBytes(hash, st, p);
            Addressed(hash, st') && Grows(hash, st, st') && Bound(hash, st', hash(p.data))
  {
  }

  lemma StepKeeps(hash: Bytes -> Bytes, st: Store, r: Run, fault: bool)
    requires Addressed(hash, st) && RunInv(hash, st, r) && !Halted(r)
    ensures var (r', st') := Step(hash, r, st, fault);
            Addressed(hash, st') && Grows(hash, st, st') && RunInv(hash, st', r')
  {
    var (r', st') := Step(hash, r, st, fault);
    if !fault && r.phase.ShardArrived? {
      BytesWriteGrows(hash, st, r.phase.shard);
    } else {
      assert st'.cas == st.cas;
    }
  }

  ghost predicate SystemInv(hash: Bytes -> Bytes, s: System) {
    Addressed(hash, s.store) && forall i :: 0 <= i < |s.runs| ==> RunInv(hash, s.store, s.runs[i])
  }

  /** A step of any run, or a new run, keeps what the runs rely on. */
  lemma NextKeeps(hash: Bytes -> Bytes, s: System, s': System)
    requires SystemInv(hash, s) && Next(hash, s, s')
    ensures SystemInv(hash, s')
  {
    if RunStart(s, s') {
      assert RunInv(hash, s'.store, s'.runs[|s.runs|]);
    } else {
      var i: nat, fault :| RunStep(hash, s, s', i, fault);
      StepKeeps(hash, s.store, s.runs[i], fault);
      forall j | 0 <= j < |s.runs| ensures RunInv(hash, s'.store, s'.runs[j]) {
        assert RunInv(hash, s.store, s.runs[j]);
      }
    }
  }

  lemma {:induction false} ExecutionInv(hash: Bytes -> Bytes, states: seq<System>, k: nat)
    requires Execution(hash, states) && k < |states|
    ensures SystemInv(hash, states[k])
  {
    if k > 0 {
      ExecutionInv(hash, states, k - 1);
      assert Next(hash, states[k - 1], states[k - 1 + 1]);
      NextKeeps(hash, states[k - 1], states[k]);
    }
  }

  ghost predicate BreakingStep(hash: Bytes -> Bytes, s: System, s': System) {
    exists i: nat, fault :: RunStep(hash, s, s', i, fault) && Breaks(s.store, s.runs[i], fault)
  }

  lemma NextSafeExactly(hash: Bytes -> Bytes, s: System, s': System)
    requires SystemInv(hash, s) && Safe(hash, s.store) && Next(hash, s, s')
    ensures Safe(hash, s'.store) <==> !BreakingStep(hash, s, s')
  {
    forall i: nat, fault | RunStep(hash, s, s', i, fault)
      ensures Safe(hash, s'.store) <==> !Breaks(s.store, s.runs[i], fault)
    {
      StepSafeExactly(hash, s.store, s.runs[i], fault);
    }
  }

  /** The first k steps break nothing. */
  ghost predicate NoneBreaks(hash: Bytes -> Bytes, states: seq<System>, k: nat)
    requires k < |states|
  {
    forall j :: 0 <= j < k ==> !BreakingStep(hash, states[j], states[j + 1])
  }

  ghost predicate SafeTo(hash: Bytes -> Bytes, states: seq<System>, k: nat)
    requires k < |states|
  {
    forall j :: 0 <= j <= k ==> Safe(hash, states[j].store)
  }

  lemma OneMoreSafe(hash: Bytes -> Bytes, states: seq<System>, k: nat)
    requires 0 < k < |states|
    ensures SafeTo(hash, states, k) <==> SafeTo(hash, states, k - 1) && Safe(hash, states[k].store)
  {
    if SafeTo(hash, states, k - 1) && Safe(hash, states[k].store) {
      forall j | 0 <= j <= k ensures Safe(hash, states[j].store) {
        assert j == k || j <= k - 1;
      }
    }
  }

  lemma OneMoreStep(hash: Bytes -> Bytes, states: seq<System>, k: nat)
    requires 0 < k < |states|
    ensures NoneBreaks(hash, states, k) <==>
            NoneBreaks(hash, states, k - 1) && !BreakingStep(hash, states[k - 1], states[k])
  {
    if NoneBreaks(hash, states, k) {
      assert !BreakingStep(hash, states[k - 1], states[k - 1 + 1]);
    }
    if NoneBreaks(hash, states, k - 1) && !BreakingStep(hash, states[k - 1], states[k]) {
      forall j | 0 <= j < k ensures !BreakingStep(hash, states[j], states[j + 1]) {
        assert j == k - 1 || j < k - 1;
      }
    }
  }

  lemma {:induction false} SafeUpTo(hash: Bytes -> Bytes, states: seq<System>, k: nat)
    requires Execution(hash, states) && k < |states|
    ensures SafeTo(hash, states, k) <==> NoneBreaks(hash, states, k)
  {
    if k > 0 {
      SafeUpTo(hash, states, k - 1);
      OneMoreSafe(hash, states, k);
      OneMoreStep(hash, states, k);
      if SafeTo(hash, states, k - 1) {
        StateAfter(hash, states, k - 1);
      }
    }
  }

  lemma StateAfter(hash: Bytes -> Bytes, states: seq<System>, k: nat)
    requires Execution(hash, states) && k + 1 < |states| && Safe(hash, states[k].store)
    ensures Safe(hash, states[k + 1].store) <==> !BreakingStep(hash, states[k], states[k + 1])
  {
    ExecutionInv(hash, states, k);
    NextSafeExactly(hash, states[k], states[k + 1]);
  }

  /**
   Whatever ids are used, however many runs interleave and whatever fails: the stores are
   safe throughout an execution exactly when no record write in it orphans a manifest and
   no manifest is written for a capsule without a record.
   */
  lemma SafeExactly(hash: Bytes -> Bytes, states: seq<System>)
    requires Execution(hash, states)
    ensures (forall k :: 0 <= k < |states| ==> Safe(hash, states[k].store)) <==>
            (forall k :: 0 <= k < |states| - 1 ==> !BreakingStep(hash, states[k], states[k + 1]))
  {
    SafeUpTo(hash, states, |states| - 1);
    assert SafeTo(hash, states, |states| - 1) <==> forall k :: 0 <= k < |states| ==> Safe(hash, states[k].store);
  }

  /* ---- Executions in which a shared shard id breaks safety ---- */

  function After(hash: Bytes -> Bytes, s: System, i: nat): System
    requires i < |s.runs| && ValidRun(s.runs[i]) && !Halted(s.runs[i])
  {
    var (r, st) := Step(hash, s.runs[i], s.store, false);
    System(st, s.runs[i := r])
  }

  function Last(states: seq<System>): System
    requires states != []
  {
    states[|states| - 1]
  }

  ghost predicate NoManifests(states: seq<System>) {
    forall k :: 0 <= k < |states| ==> states[k].store.manifests == map[]
  }

  /** The execution goes on with a step of run i that does not fail. */
  lemma Move(hash: Bytes -> Bytes, states: seq<System>, i: nat) returns (longer: seq<System>)
    requires Execution(hash, states)
    requires var s := Last(states); i < |s.runs| && ValidRun(s.runs[i]) && !Halted(s.runs[i])
    ensures Execution(hash, longer) && longer == states + [After(hash, Last(states), i)]
    ensures NoManifests(states) && After(hash, Last(states), i).store.manifests == map[] ==> NoManifests(longer)
  {
    longer := states + [After(hash, Last(states), i)];
    assert RunStep(hash, Last(states), Last(longer), i, false);
    forall k | 0 <= k < |longer| - 1 ensures Next(hash, longer[k], longer[k + 1]) {
      if k < |states| - 1 {
        assert Next(hash, states[k], states[k + 1]);
      }
    }
  }

  const SHARED_ID: Uuid := 7

  function Intro(c: Uuid): Msg {
    IncomingStream(c, [], 0, 0, 0)
  }

  function SharedShard(c: Uuid): Packet {
    Packet(ShardStream(SHARED_ID, c, 0, [], 1, 1, 0, true), [])
  }

  function OwnManifest(c: Uuid): Packet {
    Packet(ManifestStream(c, 0, []), [])
  }

  function FreshRun(c: Uuid): Run {
    Run(0, Intro(c), [SharedShard(c), OwnManifest(c)], Starting)
  }

  /** Two runs, of capsules 1 and 2, each with one final shard of the same id and a manifest. */
  lemma TwoRuns(hash: Bytes -> Bytes) returns (states: seq<System>)
    ensures Execution(hash, states) && NoManifests(states)
    ensures Last(states) == System(Store(map[], map[], map[], map[], map[]), [FreshRun(1), FreshRun(2)])
  {
    var empty := Store(map[], map[], map[], map[], map[]);
    var s0, s1, s2 := System(empty, []), System(empty, [FreshRun(1)]), System(empty, [FreshRun(1), FreshRun(2)]);
    assert s1.runs == s0.runs + [FreshRun(1)] && s2.runs == s1.runs + [FreshRun(2)];
    assert RunStart(s0, s1) && RunStart(s1, s2);
    states := [s0, s1, s2];
  }

  /** Run c takes its four steps up to the record of its shard. */
  lemma StoresShard(hash: Bytes -> Bytes, states: seq<System>, i: nat, c: Uuid) returns (longer: seq<System>)
    requires Execution(hash, states) && i < |Last(states).runs| && Last(states).runs[i] == FreshRun(c)
    ensures Execution(hash, longer) && states <= longer
    ensures var s, s' := Last(states), Last(longer);
            && s'.runs == s.runs[i := Run(0, Intro(c), [OwnManifest(c)], Completing)]
            && s'.store.manifests == s.store.manifests && s'.store.shares == s.store.shares
            && s'.store.records == s.store.records[SHARED_ID := RecordOf(hash, SharedShard(c))]
    ensures longer[|longer| - 2].store.records == Last(states).store.records
    ensures longer[|longer| - 2].store.manifests == Last(states).store.manifests
    ensures NoManifests(states) ==> NoManifests(longer)
  {
    var p := SharedShard(c);
    var s1 := Move(hash, states, i);
    assert Last(s1).runs[i] == Run(0, Intro(c), [p, OwnManifest(c)], AwaitingShard(0));
    var s2 := Move(hash, s1, i);
    assert [p, OwnManifest(c)][1..] == [OwnManifest(c)];
    assert Last(s2).runs[i] == Run(0, Intro(c), [OwnManifest(c)], ShardArrived(0, p));
    var s3 := Move(hash, s2, i);
    assert Last(s3).runs[i] == Run(0, Intro(c), [OwnManifest(c)], ShardSaved(0, p));
    longer := Move(hash, s3, i);
  }

  /** Run c marks its capsule complete and receives its manifest. */
  lemma TakesManifest(hash: Bytes -> Bytes, states: seq<System>, i: nat, c: Uuid) returns (longer: seq<System>)
    requires Execution(hash, states) && i < |Last(states).runs|
    requires Last(states).runs[i] == Run(0, Intro(c), [OwnManifest(c)], Completing)
    ensures Execution(hash, longer) && states <= longer
    ensures var s, s' := Last(states), Last(longer);
            && s'.runs == s.runs[i := Run(0, Intro(c), [], ManifestArrived(OwnManifest(c).msg))]
            && s'.store.manifests == s.store.manifests && s'.store.records == s.store.records
    ensures NoManifests(states) ==> NoManifests(longer)
  {
    var s1 := Move(hash, states, i);
    assert Last(s1).runs[i] == Run(0, Intro(c), [OwnManifest(c)], AwaitingManifest);
    assert [OwnManifest(c)][1..] == [];
    longer := Move(hash, s1, i);
  }

  /**
   Without faults: run 1 stores the record of its shard, run 2 writes over it, run 1 stores
   its manifest. No record write in this execution orphans anything, for no manifest is
   stored before its last step; yet its last store is not safe.
   */
  lemma ReusedShardIDBreaksSafety(hash: Bytes -> Bytes) returns (states: seq<System>)
    ensures Execution(hash, states) && |states| > 1
    ensures !Safe(hash, Last(states).store)
    ensures NoManifests(states[..|states| - 1])
  {
    var s0 := TwoRuns(hash);
    var s1 := StoresShard(hash, s0, 0, 1);
    var s2 := StoresShard(hash, s1, 1, 2);
    var s3 := TakesManifest(hash, s2, 0, 1);
    states := Move(hash, s3, 0);
    assert states[..|states| - 1] == s3;
    assert Last(states).store.records == map[SHARED_ID := RecordOf(hash, SharedShard(2))];
    assert !HasRecord(Last(states).store, 1);
    assert 1 in Last(states).store.manifests;
  }

  /** And one whose last step is a record write that orphans the manifest of run 1. */
  lemma ReusedShardIDOrphans(hash: Bytes -> Bytes) returns (states: seq<System>)
    ensures Execution(hash, states) && |states| > 1
    ensures Orphans(states[|states| - 2].store, SHARED_ID, 2)
    ensures !Safe(hash, Last(states).store)
  {
    var s0 := TwoRuns(hash);
    var s1 := StoresShard(hash, s0, 0, 1);
    var s2 := TakesManifest(hash, s1, 0, 1);
    var s3 := Move(hash, s2, 0);
    assert Last(s3).store.manifests == map[1 := OwnManifest(1).msg];
    states := StoresShard(hash, s3, 1, 2);
    assert Last(states).store.records == map[SHARED_ID := RecordOf(hash, SharedShard(2))];
    assert !HasRecord(Last(states).store, 1);
    assert 1 in Last(states).store.manifests;
  }

  /* ---- Runs with shard ids of their own ---- */

  /** Shard ids are unique: `home` tells the one capsule an id belongs to. */
  ghost predicate ShardAtHome(home: Uuid -> Uuid, c: Uuid, p: Packet) {
    p.msg.ShardStream? && p.msg.capsuleID == c ==> home(p.msg.shardID) == c
  }

  /** A run whose messages of its own capsule carry that capsule's shard ids. */
  ghost predicate HomeRun(home: Uuid -> Uuid, r: Run) {
    r.intro.IncomingStream? ==>
      forall i :: 0 <= i < |r.inbox| ==> ShardAtHome(home, r.intro.capsuleID, r.inbox[i])
  }

  ghost predicate HomeStore(home: Uuid -> Uuid, st: Store) {
    forall id :: id in st.records ==> st.records[id].capsuleID == home(id)
  }

  ghost predicate HomeInv(home: Uuid -> Uuid, st: Store, r: Run) {
    && ValidRun(r) && HomeRun(home, r)
    && (r.phase.ShardArrived? || r.phase.ShardSaved? ==> ShardAtHome(home, r.intro.capsuleID, r.phase.shard))
    && (r.phase.Completing? || r.phase.AwaitingManifest? || r.phase.ManifestArrived? ==>
          HasRecord(st, r.intro.capsuleID))
  }

  ghost predicate RecordsStay(st: Store, st': Store) {
    forall c :: HasRecord(st, c) ==> HasRecord(st', c)
  }

  lemma HomeRecordKeeps(home: Uuid -> Uuid, hash: Bytes -> Bytes, st: Store, p: Packet)
    requires HomeStore(home, st) && p.msg.ShardStream? && home(p.msg.shardID) == p.msg.capsuleID
    ensures var st' := SaveRecord(hash, st, p);
            HomeStore(home, st') && RecordsStay(st, st') && HasRecord(st', p.msg.capsuleID)
  {
    var id, st' := p.msg.shardID, SaveRecord(hash, st, p);
    assert id in st'.records && st'.records[id].capsuleID == p.msg.capsuleID;
    forall c | HasRecord(st, c) ensures HasRecord(st', c) {
      var w :| w in st.records && st.records[w].capsuleID == c;
      assert w in st'.records && st'.records[w].capsuleID == c;
    }
  }

  lemma SameRecordsStay(home: Uuid -> Uuid, st: Store, st': Store)
    requires HomeStore(home, st) && st.records == st'.records
    ensures HomeStore(home, st') && RecordsStay(st, st')
  {
    forall c | HasRecord(st, c) ensures HasRecord(st', c) {
      SameRecords(st, st', c);
    }
  }

  lemma HomeNeverBreaks(home: Uuid -> Uuid, st: Store, r: Run, fault: bool)
    requires HomeStore(home, st) && HomeInv(home, st, r)
    ensures !Breaks(st, r, fault)
  {
  }

  lemma HomeStoreKeeps(home: Uuid -> Uuid, hash: Bytes -> Bytes, st: Store, r: Run, fault: bool)
    requires HomeStore(home, st) && HomeInv(home, st, r) && !Halted(r)
    ensures var st' := Step(hash, r, st, fault).1;
            HomeStore(home, st') && RecordsStay(st, st') &&
            (!fault && r.phase.ShardSaved? ==> HasRecord(st', r.intro.capsuleID))
  {
    if !fault && r.phase.ShardSaved? {
      HomeRecordKeeps(home, hash, st, r.phase.shard);
    } else {
      SameRecordsStay(home, st, Step(hash, r, st, fault).1);
    }
  }

  lemma HomeInvKeeps(home: Uuid -> Uuid, hash: Bytes -> Bytes, st: Store, r: Run, fault: bool, st': Store)
    requires HomeInv(home, st, r) && !Halted(r) && RecordsStay(st, st')
    requires !fault && r.phase.ShardSaved? ==> HasRecord(st', r.intro.capsuleID)
    ensures HomeInv(home, st', Step(hash, r, st, fault).0)
  {
  }

  lemma HomeStepKeeps(home: Uuid -> Uuid, hash: Bytes -> Bytes, st: Store, r: Run, fault: bool)
    requires HomeStore(home, st) && HomeInv(home, st, r) && !Halted(r)
    ensures var (r', st') := Step(hash, r, st, fault);
            HomeStore(home, st') && RecordsStay(st, st') && HomeInv(home, st', r')
  {
    HomeStoreKeeps(home, hash, st, r, fault);
    HomeInvKeeps(home, hash, st, r, fault, Step(hash, r, st, fault).1);
  }

  ghost predicate HomeSystem(home: Uuid -> Uuid, s: System) {
    HomeStore(home, s.store) && forall i :: 0 <= i < |s.runs| ==> HomeInv(home, s.store, s.runs[i])
  }

  lemma HomeNextKeeps(home: Uuid -> Uuid, hash: Bytes -> Bytes, s: System, s': System)
    requires HomeSystem(home, s) && Next(hash, s, s')
    requires RunStart(s, s') ==> HomeRun(home, s'.runs[|s.runs|])
    ensures HomeSystem(home, s') && !BreakingStep(hash, s, s')
  {
    forall i: nat, fault | RunStep(hash, s, s', i, fault) ensures !Breaks(s.store, s.runs[i], fault) {
      HomeNeverBreaks(home, s.store, s.runs[i], fault);
    }
    if RunStart(s, s') {
      assert HomeInv(home, s'.store, s'.runs[|s.runs|]);
    } else {
      var i: nat, fault :| RunStep(hash, s, s', i, fault);
      HomeStepKeeps(home, hash, s.store, s.runs[i], fault);
      forall j | 0 <= j < |s.runs| ensures HomeInv(home, s'.store, s'.runs[j]) {
        assert HomeInv(home, s.store, s.runs[j]);
      }
    }
  }

  /** Every run started in the execution has shard ids of its own. */
  ghost predicate HomeRuns(home: Uuid -> Uuid, states: seq<System>) {
    forall k :: 0 <= k < |states| - 1 && RunStart(states[k], states[k + 1]) ==>
      HomeRun(home, states[k + 1].runs[|states[k].runs|])
  }

  lemma {:induction false} HomeExecution(home: Uuid -> Uuid, hash: Bytes -> Bytes, states: seq<System>, k: nat)
    requires Execution(hash, states) && HomeRuns(home, states) && k < |states|
    ensures HomeSystem(home, states[k])
    ensures k > 0 ==> !BreakingStep(hash, states[k - 1], states[k])
  {
    if k > 0 {
      HomeExecution(home, hash, states, k - 1);
      assert Next(hash, states[k - 1], states[k - 1 + 1]);
      HomeNextKeeps(home, hash, states[k - 1], states[k]);
    }
  }

  /** With shard ids of one capsule each, the stores are safe at every moment of every execution. */
  lemma AlwaysSafe(home: Uuid -> Uuid, hash: Bytes -> Bytes, states: seq<System>)
    requires Execution(hash, states) && HomeRuns(home, states)
    ensures forall k :: 0 <= k < |states| ==> Safe(hash, states[k].store)
  {
    forall k | 0 <= k < |states| - 1 ensures !BreakingStep(hash, states[k], states[k + 1]) {
      HomeExecution(home, hash, states, k + 1);
    }
    SafeExactly(hash, states);
  }

  /* ---- The project's own senders ---- */

  /** The capsule of the last shard sent under this id. */
  function HomeOf(sent: seq<Delivery>, id: Uuid): Uuid {
    if sent == [] then 0 else
    var last := sent[|sent| - 1].packet.msg;
    if last.ShardStream? && last.shardID == id then last.capsuleID else HomeOf(sent[..|sent| - 1], id)
  }

  lemma {:induction false} HomeOfShard(sent: seq<Delivery>, known: set<Uuid>, i: nat)
    requires IdsKnown(sent, known) && i < |sent| && sent[i].packet.msg.ShardStream?
    ensures HomeOf(sent, sent[i].packet.msg.shardID) == sent[i].packet.msg.capsuleID
  {
    var n := |sent| - 1;
    if i < n {
      HomeOfShard(sent[..n], known, i);
    }
  }

  /** All that the run will receive is in the traffic. */
  ghost predicate FromTraffic(sent: seq<Delivery>, r: Run) {
    forall i :: 0 <= i < |r.inbox| ==> Occurs(sent, r.inbox[i])
  }

  lemma TrafficAtHome(sent: seq<Delivery>, known: set<Uuid>, r: Run)
    requires IdsKnown(sent, known) && FromTraffic(sent, r)
    ensures HomeRun((id: Uuid) => HomeOf(sent, id), r)
  {
    if r.intro.IncomingStream? {
      forall i | 0 <= i < |r.inbox| ensures ShardAtHome((id: Uuid) => HomeOf(sent, id), r.intro.capsuleID, r.inbox[i]) {
        var j :| 0 <= j < |sent| && sent[j].packet == r.inbox[i];
        if r.inbox[i].msg.ShardStream? {
          HomeOfShard(sent, known, j);
        }
      }
    }
  }

  /**
   Capsules sent with ids of one source: whatever runs the guardians start on that
   traffic, however the runs interleave and whatever fails, their stores stay safe.
   */
  lemma SafeWithOneSource(hash: Bytes -> Bytes, sent: seq<Delivery>, known: set<Uuid>, states: seq<System>)
    requires IdsKnown(sent, known) && Execution(hash, states)
    requires forall k :: 0 <= k < |states| - 1 && RunStart(states[k], states[k + 1]) ==>
               FromTraffic(sent, states[k + 1].runs[|states[k].runs|])
    ensures forall k :: 0 <= k < |states| ==> Safe(hash, states[k].store)
  {
    var home := (id: Uuid) => HomeOf(sent, id);
    forall k | 0 <= k < |states| - 1 && RunStart(states[k], states[k + 1])
      ensures HomeRun(home, states[k + 1].runs[|states[k].runs|])
    {
      TrafficAtHome(sent, known, states[k + 1].runs[|states[k].runs|]);
    }
    AlwaysSafe(home, hash, states);
  }
}
