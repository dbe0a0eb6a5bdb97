/**
 Which successful runs there are: for every stream, every list of guardians and every
 pattern of guardians that answer, one in which nothing fails, and runs that report
 success although bytes stayed with the owner.
 */
module Runs {
  import opened Basics
  import opened Erasure
  import opened Placement
  import opened Chunking
  import opened Capsule
  import opened BlockSink
  import opened Distribution

  /* ---- Blocks for any plain texts ---- */

  lemma {:induction false} FreshIds(known: set<Uuid>, n: nat) returns (ids: seq<Uuid>)
    ensures |ids| == n && Distinct(ids) && forall i :: 0 <= i < n ==> ids[i] !in known
    decreases n
  {
    ids := [];
    if n > 0 {
      FreshExists(known);
      var id: Uuid :| id !in known;
      var rest := FreshIds(known + {id}, n - 1);
      ids := [id] + rest;
    }
  }

  /** A valid block and its deliveries, under ids that are not known yet. */
  ghost predicate FreshBlock(s: Sender, blockID: nat, b: SentBlock, ds: seq<Delivery>, known: set<Uuid>, known': set<Uuid>)
  {
    && s.peers != [] && ValidBlock(s, blockID, b) && ds == BlockDeliveries(s, blockID, b)
    && b.group !in known && known + {b.group} <= known' && FreshShards(ds, known, known')
    && forall i :: 0 <= i < |ds| ==> InGroup(ds[i], b.group)
  }

  /** A block with this plain text, under ids that are not known yet. */
  lemma BlockExists(s: Sender, blockID: nat, plain: Bytes, isFinal: bool, known: set<Uuid>)
    returns (b: SentBlock, ds: seq<Delivery>, known': set<Uuid>)
    requires s.peers != [] && |plain| < TWO_TO_63 - TAG_SIZE
    ensures FreshBlock(s, blockID, b, ds, known, known') && b.plain == plain && b.isFinal == isFinal
  {
    var nonce: Bytes := seq(NONCE_SIZE, _ => 0);
    FreshExists(known);
    var group: Uuid :| group !in known;
    var shards := s.env.erasure(Sealed(s, blockID, plain, nonce));
    var ids := FreshIds(known + {group}, |shards|);
    b := SentBlock(plain, isFinal, nonce, group, ids, shards);
    known' := known + {group} + Members(ids);
    ds := BlockDeliveries(s, blockID, b);
    forall i | 0 <= i < |ds| ensures FreshShard(ds[i].packet.msg, known, known') {
      assert ids[i] in Members(ids);
    }
  }

  /** h lists these plain texts, sent behind `sent`. */
  ghost predicate Listed(s: Sender, plains: seq<Bytes>, flags: seq<bool>, sent: seq<Delivery>, known: set<Uuid>,
                         blocks: seq<BlockManifest>, h: seq<SentBlock>, parts: seq<seq<Delivery>>)
  {
    && Describes(s, blocks, h, parts) && GroupsKept(sent + Flatten(parts), Groups(h), parts, known)
    && Plain(h) == plains && Finals(h) == flags
  }

  lemma OneMoreListed(s: Sender, plains: seq<Bytes>, flags: seq<bool>, sent: seq<Delivery>, known: set<Uuid>,
                      blocks: seq<BlockManifest>, h: seq<SentBlock>, parts: seq<seq<Delivery>>,
                      b: SentBlock, ds: seq<Delivery>, known': set<Uuid>)
    requires |plains| == |flags| == |h| + 1
    requires Listed(s, plains[..|h|], flags[..|h|], sent, known, blocks, h, parts)
    requires FreshBlock(s, |h| + 1, b, ds, known, known') && b.plain == plains[|h|] && b.isFinal == flags[|h|]
    ensures Listed(s, plains, flags, sent, known', blocks + [EntryOf(s, b.group)], h + [b], parts + [ds])
  {
    DescribesMore(s, blocks, h, parts, b, ds);
    GroupsMore(sent, h, parts, known, b, ds, known');
    PlainMore(plains, flags, h, b);
  }

  lemma GroupsMore(sent: seq<Delivery>, h: seq<SentBlock>, parts: seq<seq<Delivery>>, known: set<Uuid>,
                   b: SentBlock, ds: seq<Delivery>, known': set<Uuid>)
    requires GroupsKept(sent + Flatten(parts), Groups(h), parts, known)
    requires b.group !in known && known + {b.group} <= known' && FreshShards(ds, known, known')
    requires forall i :: 0 <= i < |ds| ==> InGroup(ds[i], b.group)
    ensures GroupsKept(sent + Flatten(parts + [ds]), Groups(h + [b]), parts + [ds], known')
  {
    FreshTraffic(sent + Flatten(parts), Groups(h), parts, known, ds, b.group, known');
    GroupsSnoc(h, b);
    FlattenSnoc(parts, ds);
    assert sent + Flatten(parts + [ds]) == sent + Flatten(parts) + ds;
  }

  lemma PlainMore(plains: seq<Bytes>, flags: seq<bool>, h: seq<SentBlock>, b: SentBlock)
    requires |plains| == |flags| == |h| + 1
    requires Plain(h) == plains[..|h|] && Finals(h) == flags[..|h|] && b.plain == plains[|h|] && b.isFinal == flags[|h|]
    ensures Plain(h + [b]) == plains && Finals(h + [b]) == flags
  {
    assert Plain(h + [b]) == Plain(h) + [b.plain] && Finals(h + [b]) == Finals(h) + [b.isFinal];
  }

  lemma NoneListed(s: Sender, sent: seq<Delivery>, known: set<Uuid>)
    requires IdsKnown(sent, known)
    ensures Listed(s, [], [], sent, known, [], [], [])
  {
    assert sent + Flatten<Delivery>([]) == sent;
  }

  lemma ListMore(s: Sender, plains: seq<Bytes>, flags: seq<bool>, sent: seq<Delivery>,
                 known: set<Uuid>, blocks: seq<BlockManifest>, h: seq<SentBlock>, parts: seq<seq<Delivery>>)
    returns (blocks': seq<BlockManifest>, h': seq<SentBlock>, parts': seq<seq<Delivery>>, known': set<Uuid>)
    requires s.peers != [] && |plains| == |flags| == |h| + 1 && |plains[|h|]| < TWO_TO_63 - TAG_SIZE
    requires Listed(s, plains[..|h|], flags[..|h|], sent, known, blocks, h, parts)
    ensures Listed(s, plains, flags, sent, known', blocks', h', parts')
  {
    var b, ds;
    b, ds, known' := BlockExists(s, |h| + 1, plains[|h|], flags[|h|], known);
    OneMoreListed(s, plains, flags, sent, known, blocks, h, parts, b, ds, known');
    blocks', h', parts' := blocks + [EntryOf(s, b.group)], h + [b], parts + [ds];
  }

  lemma {:induction false} BlocksExist(s: Sender, plains: seq<Bytes>, flags: seq<bool>, sent: seq<Delivery>, known: set<Uuid>)
    returns (blocks: seq<BlockManifest>, h: seq<SentBlock>, parts: seq<seq<Delivery>>, known': set<Uuid>)
    requires s.peers != [] && |plains| == |flags| && IdsKnown(sent, known)
    requires forall j :: 0 <= j < |plains| ==> |plains[j]| < TWO_TO_63 - TAG_SIZE
    ensures Listed(s, plains, flags, sent, known', blocks, h, parts)
  {
    if plains == [] {
      blocks, h, parts, known' := [], [], [], known;
      NoneListed(s, sent, known);
    } else {
      var n := |plains| - 1;
      var blocks0, h0, parts0, known0 := BlocksExist(s, plains[..n], flags[..n], sent, known);
      assert |h0| == |Plain(h0)| == n;
      blocks, h, parts, known' := ListMore(s, plains, flags, sent, known0, blocks0, h0, parts0);
    }
  }

  /* ---- Runs for any blocks ---- */

  lemma {:induction false} KeptLength(peers: seq<Peer>, oks: seq<bool>)
    requires |peers| == |oks|
    ensures |Kept(peers, oks)| <= |peers|
  {
    if peers != [] {
      KeptLength(peers[..|peers| - 1], oks[..|peers| - 1]);
    }
  }

  /** What a run fixes before its first block, and how its writes end. */
  ghost predicate Planned(log: CapsuleLog, guardians: seq<Peer>, minGuardians: nat, plains: seq<Bytes>, flags: seq<bool>) {
    && |log.oks| == |guardians| == |log.shares| && log.reached == log.oks
    && Announces(log, guardians)
    && log.sender.peers == Kept(guardians, log.oks) && 1 <= minGuardians <= |log.sender.peers|
    && IsSharing(log.sender.env, log.sender.masterKey, |guardians|, log.threshold, log.shares)
    && Flatten(plains) + Unsent(log) == Flatten(log.chunks)
    && log.failed <= |log.chunks| && (log.closed <==> log.left == [])
    && (log.clean <==> log.failed == |log.chunks| && log.closed)
    && (log.clean ==> plains == Cut(Flatten(log.chunks), BLOCK_SIZE) && flags == CutFlags(Flatten(log.chunks), BLOCK_SIZE))
  }

  /** Every plan is the plan of a successful run. */
  lemma RunExists(plan: CapsuleLog, guardians: seq<Peer>, minGuardians: nat, plains: seq<Bytes>, flags: seq<bool>,
                  sent0: seq<Delivery>, known: set<Uuid>)
    returns (log: CapsuleLog, sent1: seq<Delivery>, known': set<Uuid>)
    requires Planned(plan, guardians, minGuardians, plains, flags) && |plains| == |flags|
    requires forall j :: 0 <= j < |plains| ==> |plains[j]| < TWO_TO_63 - TAG_SIZE
    requires IdsKnown(sent0, known)
    ensures Distributed(log, guardians, minGuardians, Flatten(plan.chunks), sent0, sent1, known')
    ensures log == plan.(blocks := log.blocks, history := log.history, parts := log.parts, body := log.body)
    ensures Plain(log.history) == plains && Finals(log.history) == flags
  {
    KeptLength(guardians, plan.oks);
    AnnouncingKeepsGroups(sent0, known, guardians, plan.reached, Packet(plan.announcement, []));
    var before := sent0 + Reached(guardians, plan.reached, Packet(plan.announcement, []));
    var blocks, h, parts, all := BlocksExist(plan.sender, plains, flags, before, known);
    log := plan.(blocks := blocks, history := h, parts := parts, body := Flatten(parts));
    known' := all;
    sent1 := UpToBody(sent0, guardians, log) + Closing(log);
  }

  /* ---- Particular runs ---- */

  /** The first n of the guardians answer. */
  function FirstOnly(count: nat, n: nat): (oks: seq<bool>)
    ensures |oks| == count
  {
    seq(count, i => i < n)
  }

  lemma {:induction false} KeptFirst(peers: seq<Peer>, n: nat)
    requires n <= |peers|
    ensures Kept(peers, FirstOnly(|peers|, n)) == peers[..n]
  {
    if peers != [] {
      var m := |peers| - 1;
      assert FirstOnly(|peers|, n)[..m] == FirstOnly(m, n) == FirstOnly(m, if n <= m then n else m);
      KeptFirst(peers[..m], if n <= m then n else m);
      if n == |peers| {
        assert peers == peers[..m] + [peers[m]];
      } else {
        assert peers[..m][..n] == peers[..n];
      }
    }
  }

  /** Who sends what to whom, with the key shared as the library did. */
  datatype Setup = Setup(env: Env, capsuleID: Uuid, masterKey: Bytes, guardians: seq<Peer>, minGuardians: nat,
                         threshold: nat, silencePeriod: int, shares: seq<Bytes>)

  ghost predicate ValidSetup(u: Setup) {
    && 1 <= u.minGuardians <= |u.guardians|
    && IsSharing(u.env, u.masterKey, |u.guardians|, u.threshold, u.shares)
  }

  /** The plan in which the first `active` guardians answer. */
  function PlanOf(u: Setup, active: nat, chunks: seq<Bytes>, left: Bytes): CapsuleLog
    requires u.shares != []
  {
    var oks := FirstOnly(|u.guardians|, active);
    CapsuleLog(Sender(u.env, u.capsuleID, u.masterKey, Kept(u.guardians, oks)), u.threshold, u.shares, oks, oks,
               Announcement(u.capsuleID, u.guardians, u.silencePeriod, u.shares),
               [], [], [], [], left == [], chunks, |chunks|, left == [], left)
  }

  lemma PiecesShort(x: Bytes, size: nat)
    requires size > 0
    ensures |Cut(x, size)| == |CutFlags(x, size)|
    ensures forall j :: 0 <= j < |Cut(x, size)| ==> |Cut(x, size)[j]| <= size
  {
    CutPartition(x, size);
  }

  /** For every stream and every number of active guardians from the minimum on: a run without failures. */
  lemma CleanRunExists(u: Setup, active: nat, x: Bytes, sent0: seq<Delivery>, known: set<Uuid>)
    returns (log: CapsuleLog, sent1: seq<Delivery>, known': set<Uuid>)
    requires ValidSetup(u) && u.minGuardians <= active <= |u.guardians| && IdsKnown(sent0, known)
    ensures Distributed(log, u.guardians, u.minGuardians, x, sent0, sent1, known') && log.clean
    ensures log.sender == Sender(u.env, u.capsuleID, u.masterKey, u.guardians[..active])
    ensures log.threshold == u.threshold && log.shares == u.shares
  {
    var plan := PlanOf(u, active, [x], []);
    KeptFirst(u.guardians, active);
    PiecesShort(x, BLOCK_SIZE);
    CutPartition(x, BLOCK_SIZE);
    assert Flatten([x]) == x;
    assert Flatten(Cut(x, BLOCK_SIZE)) + Unsent(plan) == x by {
      assert Unsent(plan) == [] && x + [] == x;
    }
    log, sent1, known' := RunExists(plan, u.guardians, u.minGuardians, Cut(x, BLOCK_SIZE), CutFlags(x, BLOCK_SIZE), sent0, known);
  }

  /**
   A stream shorter than a block, all of it written without failure, and the last Close
   failing: the run is successful and the guardians have none of the stream.
   */
  lemma CreatedThoughUnsent(u: Setup, x: Bytes, sent0: seq<Delivery>, known: set<Uuid>)
    returns (log: CapsuleLog, sent1: seq<Delivery>, known': set<Uuid>)
    requires ValidSetup(u) && IdsKnown(sent0, known) && 0 < |x| < BLOCK_SIZE
    ensures EncoderStep(BLOCK_SIZE, BlockState([], []), Wrote(x, |x|, true), BlockState([], x))
    ensures EncoderStep(BLOCK_SIZE, BlockState([], x), Closed(false), BlockState(Plain(log.history), log.left))
    ensures Distributed(log, u.guardians, u.minGuardians, x, sent0, sent1, known')
    ensures log.chunks == [x] && log.failed == 1 && !log.closed
    ensures Unsent(log) == x && !NothingLost(log) && Plain(log.history) == []
  {
    var plan := PlanOf(u, |u.guardians|, [x], x);
    KeptFirst(u.guardians, |u.guardians|);
    assert Flatten([x]) == x;
    assert Flatten<Byte>([]) + Unsent(plan) == x by {
      assert Unsent(plan) == x + [] == x;
    }
    log, sent1, known' := RunExists(plan, u.guardians, u.minGuardians, [], [], sent0, known);
    assert Stream(BlockState([], x)) == x && Stream(BlockState([], [])) == [];
  }
}
