/**
 What follows for whole capsules: which are received by everybody, what the manifest is
 worth, how many guardians a capsule may lose, and when its key can be recovered.
 */
module Consequences {
  import opened Basics
  import opened Erasure
  import opened Placement
  import opened Chunking
  import opened Capsule
  import opened BlockSink
  import opened Distribution
  import opened Receiver
  import opened Recovery
  import opened Recoverability
  import opened Agreement
  import opened Runs

  /* ---- Receiving by all guardians ---- */

  predicate EveryoneCompletes(s: Sender, x: Bytes, h: seq<SentBlock>)
    requires s.peers != [] && s.env.code.k > 0
  {
    forall p :: p in s.peers ==> Completable(s, x, h, p)
  }

  /** A block's first shard lies somewhere. */
  lemma SomeoneHoldsFirstShard(s: Sender, j: nat)
    requires s.peers != [] && s.env.code.k > 0
    ensures exists p :: p in s.peers && Shares(s, j, p) != {}
  {
    var p := Pick(s.env.score, j, 0, s.peers);
    assert 0 in Shares(s, j, p);
    assert p in s.peers;
  }

  lemma {:induction false} OneEach(s: Sender, j: nat, gs: seq<Peer>)
    requires s.peers != [] && forall p :: p in gs ==> |Shares(s, j, p)| == 1
    ensures SumOfLoads(s.env.score, j, s.env.code.k + s.env.code.m, s.peers, gs) == |gs|
  {
    if gs != [] {
      OneEach(s, j, gs[..|gs| - 1]);
      assert gs[|gs| - 1] in gs;
    }
  }

  lemma SmallEnough(plain: nat)
    ensures ShardSize(32, plain) <= MAX_SHARD_SIZE <==> plain <= 621320
  {
    CeilDivBounds(plain + 24, 32);
  }

  lemma SingleBlock(x: Bytes)
    requires 0 < |x| < BLOCK_SIZE
    ensures Cut(x, BLOCK_SIZE) == [x] && |x| % BLOCK_SIZE != 0
  {
    assert Blocks(x, BLOCK_SIZE) == [] && Rest(x, BLOCK_SIZE) == x;
    SmallMod(|x|, BLOCK_SIZE);
  }

  /** If everybody completes, the stream is one block that fits, and each guardian has one shard of it. */
  lemma EveryoneCompletesOnlyIf(s: Sender, x: Bytes, h: seq<SentBlock>)
    requires s.peers != [] && Distinct(s.peers) && s.env.code.k == 32 && s.env.code.m == 22
    requires Plain(h) == Cut(x, BLOCK_SIZE) && EveryoneCompletes(s, x, h)
    ensures 0 < |x| <= 621320 && |s.peers| == 54
    ensures forall p :: p in s.peers ==> |Shares(s, 1, p)| == 1
  {
    var n := |h|;
    assert s.peers[0] in s.peers;
    CutPartition(x, BLOCK_SIZE);
    SomeoneHoldsFirstShard(s, 1);
    var p :| p in s.peers && Shares(s, 1, p) != {};
    assert FinalShards(s, x, p) == 1 && n > 0;
    assert ShardSize(32, |h[0].plain|) <= MAX_SHARD_SIZE;
    SmallEnough(|h[0].plain|);
    assert Plain(h)[0] == h[0].plain;
    assert n == 1;
    assert Flatten(Cut(x, BLOCK_SIZE)) == h[0].plain by {
      assert Cut(x, BLOCK_SIZE) == [h[0].plain];
      assert Flatten([h[0].plain]) == h[0].plain;
    }
    forall q | q in s.peers ensures |Shares(s, 1, q)| == 1 {
      assert FinalShards(s, x, q) == 1;
    }
    OneEach(s, 1, s.peers);
    LoadsSumToShards(s.env.score, 1, 54, s.peers);
  }

  lemma EveryoneCompletesIf(s: Sender, x: Bytes, h: seq<SentBlock>)
    requires s.peers != [] && s.env.code.k == 32 && s.env.code.m == 22
    requires Plain(h) == Cut(x, BLOCK_SIZE) && 0 < |x| <= 621320
    requires forall p :: p in s.peers ==> |Shares(s, 1, p)| == 1
    ensures EveryoneCompletes(s, x, h)
  {
    SingleBlock(x);
    SmallEnough(|x|);
    assert Plain(h)[0] == h[0].plain;
    forall p | p in s.peers ensures Completable(s, x, h, p) {
      assert Burden(s.env.score, 1, 54, s.peers, p) == Burden(s.env.score, 0, 54, s.peers, p) + |Shares(s, 1, p)|;
    }
  }

  /**
   Every guardian's receiver completes exactly for a stream of 1 to 621320 bytes sent to
   54 guardians that got one shard each. With any other number of guardians some
   receiver fails, whatever the hash and whatever the stream.
   */
  lemma EveryoneCompletesExactly(s: Sender, x: Bytes, h: seq<SentBlock>)
    requires s.peers != [] && Distinct(s.peers) && s.env.code.k == 32 && s.env.code.m == 22
    requires Plain(h) == Cut(x, BLOCK_SIZE)
    ensures EveryoneCompletes(s, x, h) <==>
              (0 < |x| <= 621320 && |s.peers| == 54 && forall p :: p in s.peers ==> |Shares(s, 1, p)| == 1)
  {
    if EveryoneCompletes(s, x, h) {
      EveryoneCompletesOnlyIf(s, x, h);
    } else if 0 < |x| <= 621320 && forall p :: p in s.peers ==> |Shares(s, 1, p)| == 1 {
      EveryoneCompletesIf(s, x, h);
    }
  }

  /** So it is for the receivers themselves, on every run that sent everything. */
  lemma EveryoneDoneExactly(log: CapsuleLog, guardians: seq<Peer>, minGuardians: nat, x: Bytes,
                            sent0: seq<Delivery>, sent1: seq<Delivery>, known: set<Uuid>,
                            hash: Bytes -> Bytes, owner: Uuid, stores: nat -> Store)
    requires Distributed(log, guardians, minGuardians, x, sent0, sent1, known) && log.clean
    requires ValidEnv(log.sender.env) && log.sender.env.code.k == 32 && log.sender.env.code.m == 22
    requires Distinct(guardians) && minGuardians >= 1 && |log.sender.masterKey| == KEY_SIZE
    ensures (forall i :: 0 <= i < |log.sender.peers| ==> RunDone(log, i, hash, owner, stores(i))) <==>
              (0 < |x| <= 621320 && |log.sender.peers| == 54 &&
               forall p :: p in log.sender.peers ==> |Shares(log.sender, 1, p)| == 1)
  {
    forall i | 0 <= i < |log.sender.peers|
      ensures RunDone(log, i, hash, owner, stores(i)) <==> Completable(log.sender, x, log.history, log.sender.peers[i])
    {
      AgreementExactly(log, guardians, minGuardians, x, sent0, sent1, known, i, hash, owner, stores(i));
    }
    KeptDistinct(guardians, log.oks);
    AllRunsDone(log, x, hash, owner, stores);
  }

  lemma AllRunsDone(log: CapsuleLog, x: Bytes, hash: Bytes -> Bytes, owner: Uuid, stores: nat -> Store)
    requires 0 < |log.sender.peers| <= |log.shares| && Distinct(log.sender.peers) && log.announcement.IncomingStream?
    requires log.sender.env.code.k == 32 && log.sender.env.code.m == 22
    requires Plain(log.history) == Cut(x, BLOCK_SIZE)
    requires forall i :: 0 <= i < |log.sender.peers| ==>
               (RunDone(log, i, hash, owner, stores(i)) <==>
                Completable(log.sender, x, log.history, log.sender.peers[i]))
    ensures (forall i :: 0 <= i < |log.sender.peers| ==> RunDone(log, i, hash, owner, stores(i))) <==>
              (0 < |x| <= 621320 && |log.sender.peers| == 54 &&
               forall p :: p in log.sender.peers ==> |Shares(log.sender, 1, p)| == 1)
  {
    EveryoneCompletesExactly(log.sender, x, log.history);
  }

  /** The i-th guardian's receiver completes. */
  predicate RunDone(log: CapsuleLog, i: nat, hash: Bytes -> Bytes, owner: Uuid, st: Store)
    requires i < |log.sender.peers| <= |log.shares| && log.announcement.IncomingStream?
  {
    Ends(hash, GuardianRun(log, owner, i), st).0.phase.Done?
  }

  /** More blocks than 1000 shards per guardian allow: some guardian cannot complete. */
  lemma TooManyBlocks(s: Sender, x: Bytes, h: seq<SentBlock>)
    requires s.peers != [] && Distinct(s.peers) && s.env.code.k > 0
    requires (s.env.code.k + s.env.code.m) * |h| > MAX_SHARDS * |s.peers|
    ensures exists p :: p in s.peers && !Completable(s, x, h, p)
  {
    var n := s.env.code.k + s.env.code.m;
    CapacityExceeded(s.env.score, |h|, n, s.peers);
    var p :| p in s.peers && Burden(s.env.score, |h|, n, s.peers, p) > MAX_SHARDS;
    assert !Completable(s, x, h, p);
  }

  /**
   So on a run in which nothing failed, with more blocks than that, the receiver of some
   guardian ends in failure, whatever its stores held.
   */
  lemma SomeoneFails(log: CapsuleLog, guardians: seq<Peer>, minGuardians: nat, x: Bytes,
                     sent0: seq<Delivery>, sent1: seq<Delivery>, known: set<Uuid>,
                     hash: Bytes -> Bytes, owner: Uuid, stores: nat -> Store) returns (i: nat)
    requires Distributed(log, guardians, minGuardians, x, sent0, sent1, known) && log.clean
    requires ValidEnv(log.sender.env) && log.sender.env.code.m >= 1
    requires Distinct(guardians) && minGuardians >= 1 && |log.sender.masterKey| == KEY_SIZE
    ensures i < |log.sender.peers|
    ensures Overloaded(log.sender, |log.history|) ==> RunFails(log, i, hash, owner, stores(i))
  {
    i := 0;
    if Overloaded(log.sender, |log.history|) {
      PeersDistinct(log, guardians);
      i := SomeoneIncomplete(log.sender, x, log.history);
      FailsExactly(log, guardians, minGuardians, x, sent0, sent1, known, i, hash, owner, stores(i));
    }
  }

  /** The shards of so many blocks are more than 1000 per peer. */
  predicate Overloaded(s: Sender, blocks: nat) {
    Times(s.env.code.k + s.env.code.m, blocks) > Times(MAX_SHARDS, |s.peers|)
  }

  lemma PeersDistinct(log: CapsuleLog, guardians: seq<Peer>)
    requires |guardians| == |log.oks| && log.sender.peers == Kept(guardians, log.oks) && Distinct(guardians)
    ensures Distinct(log.sender.peers)
  {
    KeptDistinct(guardians, log.oks);
  }

  lemma SomeoneIncomplete(s: Sender, x: Bytes, h: seq<SentBlock>) returns (i: nat)
    requires s.peers != [] && Distinct(s.peers) && s.env.code.k > 0
    requires Overloaded(s, |h|)
    ensures i < |s.peers| && !Completable(s, x, h, s.peers[i])
  {
    TimesIsProduct(s.env.code.k + s.env.code.m, |h|);
    TimesIsProduct(MAX_SHARDS, |s.peers|);
    TooManyBlocks(s, x, h);
    var p :| p in s.peers && !Completable(s, x, h, p);
    i :| 0 <= i < |s.peers| && s.peers[i] == p;
  }

  lemma FailsExactly(log: CapsuleLog, guardians: seq<Peer>, minGuardians: nat, x: Bytes,
                     sent0: seq<Delivery>, sent1: seq<Delivery>, known: set<Uuid>,
                     i: nat, hash: Bytes -> Bytes, owner: Uuid, st: Store)
    requires Distributed(log, guardians, minGuardians, x, sent0, sent1, known) && log.clean
    requires ValidEnv(log.sender.env) && log.sender.env.code.m >= 1 && Distinct(guardians)
    requires |log.sender.masterKey| == KEY_SIZE && i < |log.sender.peers|
    ensures RunFails(log, i, hash, owner, st) <==> !Completable(log.sender, x, log.history, log.sender.peers[i])
  {
    AgreementExactly(log, guardians, minGuardians, x, sent0, sent1, known, i, hash, owner, st);
    EndsHalted(hash, GuardianRun(log, owner, i), st);
  }

  /** The i-th guardian's receiver fails. */
  predicate RunFails(log: CapsuleLog, i: nat, hash: Bytes -> Bytes, owner: Uuid, st: Store)
    requires i < |log.sender.peers| <= |log.shares| && log.announcement.IncomingStream?
  {
    Ends(hash, GuardianRun(log, owner, i), st).0.phase.Failed?
  }

  /** Streams that all guardians can complete are too short for the slip at line 53 to matter. */
  lemma EveryoneCompletesAsWritten(s: Sender, chunks: seq<Bytes>, h: seq<SentBlock>)
    requires s.peers != [] && Distinct(s.peers) && s.env.code.k == 32 && s.env.code.m == 22
    requires Plain(h) == Cut(Flatten(chunks), BLOCK_SIZE) && EveryoneCompletes(s, Flatten(chunks), h)
    ensures exists states, end :: StreamAsWritten(BLOCK_SIZE, chunks, states, end) && end == BlockState(Plain(h), [])
  {
    EveryoneCompletesExactly(s, Flatten(chunks), h);
    StreamAsWrittenExactly(BLOCK_SIZE, chunks);
    var states, end :| StreamAsWritten(BLOCK_SIZE, chunks, states, end);
  }

  /* ---- The manifest ---- */

  /**
   What a listed entry is worth, in every reachable state: under its group went out
   exactly the deliveries of one valid block, that of its number.
   */
  lemma ListedSentInFull(s: Sender, blocks: seq<BlockManifest>, h: seq<SentBlock>, parts: seq<seq<Delivery>>,
                         sent: seq<Delivery>, known: set<Uuid>, j: nat)
    requires Describes(s, blocks, h, parts) && GroupsKept(sent, Groups(h), parts, known)
    requires j < |blocks|
    ensures s.peers != [] && ValidBlock(s, j + 1, h[j])
    ensures GroupOf(sent, blocks[j].repairGroupID) == BlockDeliveries(s, j + 1, h[j])
  {
    DescribesAt(s, blocks, h, parts, j);
    assert GroupOf(sent, Groups(h)[j]) == parts[j];
  }

  /**
   The deliveries of a valid block: k + m shards, the i-th with index byte i before a row
   of the codeword of the sealed bytes, to the peer the placement picks.
   */
  lemma BlockSentInFull(s: Sender, blockID: nat, b: SentBlock)
    requires s.peers != [] && ValidEnv(s.env) && ValidBlock(s, blockID, b)
    ensures var w := EncodedRows(s.env.code, Sealed(s, blockID, b.plain, b.nonce));
            && |w| == s.env.code.k + s.env.code.m
            && Placed(BlockDeliveries(s, blockID, b), w, Places(s, blockID, |w|), b.nonce)
  {
    var w := EncodedRows(s.env.code, Sealed(s, blockID, b.plain, b.nonce));
    ShardsOfSealed(s, blockID, b);
    DeliveriesArePlaced(s, blockID, b, w);
  }

  /** Of what a listed block's shards are made, and under the hash of which preimage. */
  predicate KeyedBy(s: Sender, b: SentBlock, preimage: Bytes) {
    b.shards == s.env.erasure(s.env.encrypt(s.env.hash(preimage), b.nonce, b.plain))
  }

  /** A listed block is sealed under the hash of the master key followed by its number, counted from 1. */
  lemma ListedKey(s: Sender, blocks: seq<BlockManifest>, h: seq<SentBlock>, parts: seq<seq<Delivery>>, j: nat)
    returns (preimage: Bytes)
    requires Describes(s, blocks, h, parts) && j < |blocks| < TWO_TO_64
    ensures KeyedBy(s, h[j], preimage)
    ensures |preimage| == |s.masterKey| + 8 && preimage[..|s.masterKey|] == s.masterKey
    ensures FromBigEndian(preimage[|s.masterKey|..]) == j + 1
    ensures preimage == KeyPreimage(s.masterKey, j + 1)
  {
    DescribesAt(s, blocks, h, parts, j);
    preimage := KeyPreimage(s.masterKey, j + 1);
    KeyPreimageIs(s.masterKey, j + 1);
    SmallMod(j + 1, TWO_TO_64);
  }

  /** Two listed blocks, of one capsule or of two, have the same preimage only if they are the same block of one key. */
  lemma ListedKeysDiffer(s: Sender, blocks: seq<BlockManifest>, h: seq<SentBlock>, parts: seq<seq<Delivery>>, i: nat,
                         s': Sender, blocks': seq<BlockManifest>, h': seq<SentBlock>, parts': seq<seq<Delivery>>, j: nat)
    returns (pre: Bytes, pre': Bytes)
    requires Describes(s, blocks, h, parts) && i < |blocks| < TWO_TO_64
    requires Describes(s', blocks', h', parts') && j < |blocks'| < TWO_TO_64
    ensures KeyedBy(s, h[i], pre) && KeyedBy(s', h'[j], pre')
    ensures pre == pre' <==> s.masterKey == s'.masterKey && i == j
  {
    pre := ListedKey(s, blocks, h, parts, i);
    pre' := ListedKey(s', blocks', h', parts', j);
    KeyPreimagesDistinct(s.masterKey, s'.masterKey, i + 1, j + 1);
    SameModulo(i + 1, j + 1);
  }

  lemma SameModulo(i: nat, j: nat)
    requires i < TWO_TO_64 && j < TWO_TO_64
    ensures i % TWO_TO_64 == j % TWO_TO_64 <==> i == j
  {
    SmallMod(i, TWO_TO_64);
    SmallMod(j, TWO_TO_64);
  }

  /* ---- Losing guardians ---- */

  /** What a lost set of guardians leaves to the others. */
  lemma LoadsSplit(s: Sender, j: nat, lost: set<Peer>)
    requires s.peers != []
    ensures var n := s.env.code.k + s.env.code.m;
            |Load(s.env.score, j, n, s.peers, Members(s.peers) - lost)| == n - |Load(s.env.score, j, n, s.peers, lost)|
  {
    SplitSizes(s.env.score, j, s.env.code.k + s.env.code.m, s.peers, lost);
  }

  lemma SplitSizes(f: Score, b: nat, n: nat, peers: seq<Peer>, lost: set<Peer>)
    requires peers != []
    ensures |Load(f, b, n, peers, Members(peers) - lost)| == n - |Load(f, b, n, peers, lost)|
  {
    var gone, left := Load(f, b, n, peers, lost), Load(f, b, n, peers, Members(peers) - lost);
    forall i: nat | i < n ensures i in gone || i in left {
      assert Pick(f, b, i, peers) in peers;
    }
    assert gone + left == UpTo(n);
    UpToSize(n);
    DisjointSize(gone, left);
  }

  /** The guardians in `lost` hold at most m shards of the block. */
  predicate Bearable(s: Sender, blockID: nat, lost: set<Peer>)
    requires s.peers != []
  {
    |Load(s.env.score, blockID, s.env.code.k + s.env.code.m, s.peers, lost)| <= s.env.code.m
  }

  /** A capsule outlives the loss of some guardians exactly when that is bearable for each block. */
  lemma SurvivesLossExactly(s: Sender, blocks: nat, lost: set<Peer>)
    requires s.peers != []
    ensures AllCovered(s, blocks, Members(s.peers) - lost) <==> forall j :: 1 <= j <= blocks ==> Bearable(s, j, lost)
  {
    forall j | 1 <= j <= blocks ensures Covered(s, j, Members(s.peers) - lost) <==> Bearable(s, j, lost) {
      LoadsSplit(s, j, lost);
    }
  }

  /* ---- Recovering the key ---- */

  /** Distinct participants among `count` guardians. */
  predicate Choice(at: seq<nat>, count: nat) {
    Distinct(at) && forall i :: 0 <= i < |at| ==> at[i] < count
  }

  /** Some of the guardians hold shares that combine to the master key. */
  ghost predicate KeyRecoverable(log: CapsuleLog, storages: seq<Storage>) {
    exists at: seq<nat> :: Choice(at, |storages|) && Opens(log, storages, at)
  }

  predicate Opens(log: CapsuleLog, storages: seq<Storage>, at: seq<nat>)
    requires forall i :: 0 <= i < |at| ==> at[i] < |storages|
  {
    log.sender.env.combine(KeyShares(storages, at)) == Some(log.sender.masterKey)
  }

  lemma ChoiceExactly(count: nat, threshold: nat)
    ensures (exists at: seq<nat> :: Choice(at, count) && |at| >= threshold) <==> count >= threshold
  {
    if count >= threshold {
      var at: seq<nat> := seq(count, i requires 0 <= i < count => i);
      assert Choice(at, count);
    }
    if at: seq<nat> :| Choice(at, count) && |at| >= threshold {
      DistinctSize(at);
      SubsetSize(Members(at), UpTo(count));
      UpToSize(count);
    }
  }

  /**
   After a successful run the shares of some guardians combine to the key exactly when they
   are a threshold of them; so some do exactly when that many guardians are active.
   */
  lemma KeyRecoverableExactly(log: CapsuleLog, guardians: seq<Peer>, minGuardians: nat, x: Bytes,
                              sent0: seq<Delivery>, sent1: seq<Delivery>, known: set<Uuid>, storages: seq<Storage>)
    requires Distributed(log, guardians, minGuardians, x, sent0, sent1, known) && Distinct(guardians)
    requires Holds(storages, sent1, log.sender.peers)
    ensures forall at: seq<nat> :: Choice(at, |storages|) ==> (Opens(log, storages, at) <==> |at| >= log.threshold)
    ensures KeyRecoverable(log, storages) <==> |log.sender.peers| >= log.threshold
  {
    KeptDistinct(guardians, log.oks);
    forall at: seq<nat> | Choice(at, |storages|) ensures Opens(log, storages, at) <==> |at| >= log.threshold {
      SharesCombine(log, UpToBody(sent0, guardians, log), storages, |guardians|, at);
    }
    ChoiceExactly(|storages|, log.threshold);
  }

  /** A successful run of this setup over the stream x, and what its active guardians hold then. */
  ghost predicate RunOf(u: Setup, x: Bytes, sent0: seq<Delivery>, log: CapsuleLog, sent1: seq<Delivery>,
                        known: set<Uuid>, storages: seq<Storage>)
  {
    && Distributed(log, u.guardians, u.minGuardians, x, sent0, sent1, known)
    && log.sender.env == u.env && log.sender.masterKey == u.masterKey
    && log.threshold == u.threshold && log.shares == u.shares
    && Holds(storages, sent1, log.sender.peers)
  }

  /** With a threshold above the minimum: a run without failures whose key nobody can recover. */
  lemma KeyOutOfReach(u: Setup, x: Bytes, sent0: seq<Delivery>, known: set<Uuid>)
    returns (log: CapsuleLog, sent1: seq<Delivery>, known': set<Uuid>, storages: seq<Storage>)
    requires ValidSetup(u) && Distinct(u.guardians) && IdsKnown(sent0, known)
    requires u.threshold > u.minGuardians
    ensures RunOf(u, x, sent0, log, sent1, known', storages) && log.clean
    ensures |log.sender.peers| == u.minGuardians && !KeyRecoverable(log, storages)
  {
    log, sent1, known' := CleanRunExists(u, u.minGuardians, x, sent0, known);
    storages := StoragesOf(sent1, log.sender.peers);
    KeyRecoverableExactly(log, u.guardians, u.minGuardians, x, sent0, sent1, known', storages);
  }

  function StoragesOf(sent: seq<Delivery>, peers: seq<Peer>): (storages: seq<Storage>)
    ensures Holds(storages, sent, peers)
  {
    seq(|peers|, i requires 0 <= i < |peers| => Capture(Inbox(sent, peers[i])))
  }

  /** The key is recoverable after every successful run exactly when the threshold is at most the minimum. */
  lemma KeyAlwaysRecoverableExactly(u: Setup, x: Bytes, sent0: seq<Delivery>, known: set<Uuid>)
    requires ValidSetup(u) && Distinct(u.guardians) && IdsKnown(sent0, known)
    ensures (forall log, sent1, known', storages :: RunOf(u, x, sent0, log, sent1, known', storages) ==>
               KeyRecoverable(log, storages)) <==> u.threshold <= u.minGuardians
  {
    if u.threshold > u.minGuardians {
      var log, sent1, known', storages := KeyOutOfReach(u, x, sent0, known);
    } else {
      forall log, sent1, known', storages | RunOf(u, x, sent0, log, sent1, known', storages)
        ensures KeyRecoverable(log, storages)
      {
        KeyRecoverableExactly(log, u.guardians, u.minGuardians, x, sent0, sent1, known', storages);
      }
    }
  }

  /** Each active guardian gets its own share, and the other guardians' shares do not reach it. */
  lemma ShareOfGuardian(log: CapsuleLog, before: seq<Delivery>, storages: seq<Storage>, i: nat)
    requires |log.sender.peers| <= |log.shares| && Distinct(log.sender.peers) && i < |log.sender.peers|
    requires log.shares[i] != [] && Holds(storages, before + Closing(log), log.sender.peers)
    ensures storages[i].keyShare == log.shares[i]
    ensures forall p :: p !in log.sender.peers ==> Inbox(before + Closing(log), p) == Inbox(before, p)
  {
    HoldsClosing(log, before, storages, i);
    forall p | p !in log.sender.peers ensures Inbox(before + Closing(log), p) == Inbox(before, p) {
      InboxConcat(before, Closing(log), p);
      StrangersGetNothing(Closing(log), p);
    }
  }

  lemma {:induction false} StrangersGetNothing(ds: seq<Delivery>, p: Peer)
    requires forall i :: 0 <= i < |ds| ==> ds[i].to != p
    ensures Inbox(ds, p) == []
  {
    if ds != [] {
      StrangersGetNothing(ds[..|ds| - 1], p);
    }
  }
}
