/**
 blockSinkEncoder: turns Write calls into blocks, encrypts and erasure-codes each
 block, sends its shards to the picked peers and lists the block in the manifest.
 */
module BlockSink {
  import opened Basics
  import opened Erasure
  import opened Placement
  import opened Chunking
  import opened Capsule

  /* ---- The manifest invariant ---- */

  function EntryOf(s: Sender, g: Uuid): BlockManifest {
    BlockManifest(g, s.env.code.k % 256, s.env.code.m % 256)
  }

  /** The shards on the wire under each listed group are exactly its part, in order. */
  ghost predicate GroupsKept(sent: seq<Delivery>, groups: seq<Uuid>, parts: seq<seq<Delivery>>, known: set<Uuid>) {
    && |groups| == |parts|
    && Distinct(groups)
    && (forall j :: 0 <= j < |groups| ==> groups[j] in known && GroupOf(sent, groups[j]) == parts[j])
    && IdsKnown(sent, known)
  }

  /** Shards with ids drawn since `known`, no two of them the same. */
  predicate FreshShards(ds: seq<Delivery>, known: set<Uuid>, known': set<Uuid>) {
    && (forall i :: 0 <= i < |ds| ==> FreshShard(ds[i].packet.msg, known, known'))
    && (forall i, j :: 0 <= i < j < |ds| ==> ds[i].packet.msg.shardID != ds[j].packet.msg.shardID)
  }

  predicate FreshShard(m: Msg, known: set<Uuid>, known': set<Uuid>) {
    m.ShardStream? && m.shardID !in known && m.shardID in known'
  }

  lemma FreshMore(ds: seq<Delivery>, known: set<Uuid>, d: Delivery, known': set<Uuid>)
    requires d.packet.msg.ShardStream?
    requires FreshShards(ds, known, known' - {d.packet.msg.shardID}) && FreshShard(d.packet.msg, known, known')
    ensures FreshShards(ds + [d], known, known')
  {
    assert forall i :: 0 <= i < |ds| ==> FreshShard(ds[i].packet.msg, known, known' - {d.packet.msg.shardID});
  }

  lemma FreshIdsKnown(sent: seq<Delivery>, known: set<Uuid>, ds: seq<Delivery>, g: Uuid, known': set<Uuid>)
    requires IdsKnown(sent, known) && known + {g} <= known' && FreshShards(ds, known, known')
    requires forall i :: 0 <= i < |ds| ==> InGroup(ds[i], g)
    ensures IdsKnown(sent + ds, known')
  {
    var all := sent + ds;
    forall i | 0 <= i < |all| && all[i].packet.msg.ShardStream? ensures IdsIn(all[i].packet.msg, known') {
      if i < |sent| {
        assert all[i] == sent[i] && IdsIn(sent[i].packet.msg, known);
      } else {
        assert all[i] == ds[i - |sent|] && FreshShard(ds[i - |sent|].packet.msg, known, known');
      }
    }
    forall i, j | 0 <= i < j < |all| && all[i].packet.msg.ShardStream? && all[j].packet.msg.ShardStream?
      ensures all[i].packet.msg.shardID != all[j].packet.msg.shardID
    {
      if j >= |sent| {
        assert FreshShard(ds[j - |sent|].packet.msg, known, known');
        if i < |sent| {
          assert IdsIn(sent[i].packet.msg, known);
        }
      }
    }
  }

  /** Traffic under a fresh group leaves the listed groups alone; sent in full, it may be listed. */
  lemma FreshTraffic(sent: seq<Delivery>, groups: seq<Uuid>, parts: seq<seq<Delivery>>, known: set<Uuid>,
                     ds: seq<Delivery>, g: Uuid, known': set<Uuid>)
    requires GroupsKept(sent, groups, parts, known)
    requires g !in known && known + {g} <= known' && FreshShards(ds, known, known')
    requires forall i :: 0 <= i < |ds| ==> InGroup(ds[i], g)
    ensures GroupsKept(sent + ds, groups, parts, known')
    ensures GroupsKept(sent + ds, groups + [g], parts + [ds], known')
  {
    FreshIdsKnown(sent, known, ds, g, known');
    GroupIsNew(sent, known, g);
    forall j | 0 <= j < |groups| ensures GroupOf(sent + ds, groups[j]) == parts[j] {
      GroupConcat(sent, ds, groups[j]);
      GroupAllOrNone(ds, groups[j]);
    }
    GroupConcat(sent, ds, g);
    GroupAllOrNone(ds, g);
  }

  lemma GroupIsNew(sent: seq<Delivery>, known: set<Uuid>, g: Uuid)
    requires IdsKnown(sent, known) && g !in known
    ensures GroupOf(sent, g) == []
  {
    GroupAllOrNone(sent, g);
    forall i | 0 <= i < |sent| ensures !InGroup(sent[i], g) {
      if sent[i].packet.msg.ShardStream? {
        assert IdsIn(sent[i].packet.msg, known);
      }
    }
  }

  /**
   `blocks` lists the processed blocks `h`: entry j is for block j + 1, which became
   valid shards and put `parts[j]` on the wire.
   */
  ghost predicate Describes(s: Sender, blocks: seq<BlockManifest>, h: seq<SentBlock>, parts: seq<seq<Delivery>>) {
    && |blocks| == |h| == |parts|
    && (h == [] ||
        var n := |h| - 1;
        && Describes(s, blocks[..n], h[..n], parts[..n])
        && ValidBlock(s, n + 1, h[n])
        && blocks[n] == EntryOf(s, h[n].group)
        && s.peers != [] && parts[n] == BlockDeliveries(s, n + 1, h[n]))
  }

  lemma DescribesMore(s: Sender, blocks: seq<BlockManifest>, h: seq<SentBlock>, parts: seq<seq<Delivery>>,
                      b: SentBlock, ds: seq<Delivery>)
    requires Describes(s, blocks, h, parts)
    requires ValidBlock(s, |h| + 1, b) && s.peers != [] && ds == BlockDeliveries(s, |h| + 1, b)
    ensures Describes(s, blocks + [EntryOf(s, b.group)], h + [b], parts + [ds])
  {
    var blocks', h', parts' := blocks + [EntryOf(s, b.group)], h + [b], parts + [ds];
    assert blocks'[..|h|] == blocks && h'[..|h|] == h && parts'[..|h|] == parts;
  }

  /** What Describes says about entry j. */
  lemma {:induction false} DescribesAt(s: Sender, blocks: seq<BlockManifest>, h: seq<SentBlock>,
                                       parts: seq<seq<Delivery>>, j: nat)
    requires Describes(s, blocks, h, parts) && j < |h|
    ensures ValidBlock(s, j + 1, h[j]) && blocks[j] == EntryOf(s, h[j].group)
    ensures s.peers != [] && parts[j] == BlockDeliveries(s, j + 1, h[j])
  {
    var n := |h| - 1;
    if j < n {
      DescribesAt(s, blocks[..n], h[..n], parts[..n], j);
    }
  }

  /** A shard message that names k data and m parity shards, in that order. */
  predicate NamesCode(c: Code, d: Delivery) {
    d.packet.msg.ShardStream? && d.packet.msg.dataShardNum == c.k && d.packet.msg.parityShardNum == c.m
  }

  /** A listed entry and each of its block's shards name the code they were made with, and the entry's group. */
  lemma CountsNamed(s: Sender, blocks: seq<BlockManifest>, h: seq<SentBlock>, parts: seq<seq<Delivery>>, j: nat)
    requires Describes(s, blocks, h, parts) && j < |h|
    requires 1 <= s.env.code.k && 1 <= s.env.code.m && s.env.code.k + s.env.code.m <= 256
    ensures blocks[j].dataShardNum == s.env.code.k && blocks[j].parityShardNum == s.env.code.m
    ensures forall i :: 0 <= i < |parts[j]| ==>
              NamesCode(s.env.code, parts[j][i]) && InGroup(parts[j][i], blocks[j].repairGroupID)
  {
    DescribesAt(s, blocks, h, parts, j);
    SmallMod(s.env.code.k, 256);
    SmallMod(s.env.code.m, 256);
  }

  /** The same by block number. */
  lemma DescribesBlock(s: Sender, blocks: seq<BlockManifest>, h: seq<SentBlock>, parts: seq<seq<Delivery>>, blockID: nat)
    requires Describes(s, blocks, h, parts) && 1 <= blockID <= |h|
    ensures ValidBlock(s, blockID, h[blockID - 1]) && blocks[blockID - 1] == EntryOf(s, h[blockID - 1].group)
    ensures s.peers != [] && parts[blockID - 1] == BlockDeliveries(s, blockID, h[blockID - 1])
  {
    DescribesAt(s, blocks, h, parts, blockID - 1);
  }

  /** Exactly the listed blocks went out since `start`. */
  predicate OnlyListed(parts: seq<seq<Delivery>>, sent: seq<Delivery>, start: nat) {
    start <= |sent| && sent[start..] == Flatten(parts)
  }

  lemma OnlyListedMore(parts: seq<seq<Delivery>>, sent: seq<Delivery>, start: nat, ds: seq<Delivery>)
    requires OnlyListed(parts, sent, start)
    ensures OnlyListed(parts + [ds], sent + ds, start)
  {
    FlattenSnoc(parts, ds);
    assert (sent + ds)[start..] == sent[start..] + ds;
  }

  function Groups(h: seq<SentBlock>): (r: seq<Uuid>)
    ensures |r| == |h|
    ensures forall j :: 0 <= j < |h| ==> r[j] == h[j].group
  {
    seq(|h|, j requires 0 <= j < |h| => h[j].group)
  }

  lemma GroupsSnoc(h: seq<SentBlock>, b: SentBlock)
    ensures Groups(h + [b]) == Groups(h) + [b.group]
  {
  }

  /** Writes the block's key into the caller's 32-byte array. */
  method DeriveBlockKey(env: Env, blockID: nat, masterKey: Bytes, blockKey: array<Byte>)
    requires HashSized(env) && blockKey.Length == KEY_SIZE
    modifies blockKey
    ensures blockKey[..] == BlockKey(env, masterKey, blockID)
    ensures exists pre :: IsPreimage(pre, masterKey, blockID) && blockKey[..] == env.hash(pre)
  {
    KeyPreimageIs(masterKey, blockID);
    var preimage := masterKey;
    preimage := preimage + BigEndian(blockID, 8);
    var sum := env.hash(preimage);
    forall i | 0 <= i < KEY_SIZE {
      blockKey[i] := sum[i];
    }
  }

  class BlockSinkEncoder {
    const sender: Sender
    const net: Network
    const uuids: IdSource
    const blockKey: array<Byte>

    var blockID: nat
    var totalBlocks: nat
    var blocks: seq<BlockManifest>
    var blockBuf: Bytes

    ghost var history: seq<SentBlock>      // the listed blocks
    ghost var parts: seq<seq<Delivery>>    // what each of them put on the wire
    ghost var start: nat                   // where this encoder's traffic begins in net.sent
    ghost var clean: bool                  // no processBlock has failed so far

    /** The manifest invariant: it holds in every reachable state, after failures too. */
    ghost predicate ManifestInv()
      reads `blockID, `totalBlocks, `blocks, `history, `parts, `start, `clean, net, uuids
    {
      && blockKey.Length == KEY_SIZE && sender.peers != []
      && totalBlocks == |blocks| == blockID - 1
      && Describes(sender, blocks, history, parts)
      && GroupsKept(net.sent, Groups(history), parts, uuids.drawn)
      && (clean ==> OnlyListed(parts, net.sent, start))
    }

    ghost predicate Valid()
      reads this, net, uuids
    {
      ManifestInv() && |blockBuf| < TWO_TO_63 - TAG_SIZE
    }

    ghost function State(): BlockState
      reads this
    {
      BlockState(Plain(history), blockBuf)
    }

    /** Failed calls so far, of the network and of the source of nonces. */
    ghost function Faults(): nat
      reads net, uuids
    {
      Failures(net.outcomes) + uuids.faults
    }

    constructor (sender: Sender, net: Network, uuids: IdSource)
      requires sender.peers != [] && IdsKnown(net.sent, uuids.drawn)
      ensures Valid() && fresh(blockKey)
      ensures this.sender == sender && this.net == net && this.uuids == uuids
      ensures history == [] && blockBuf == [] && clean && start == |net.sent|
    {
      this.sender := sender;
      this.net := net;
      this.uuids := uuids;
      this.blockKey := new Byte[KEY_SIZE](_ => 0);
      this.blockID := 1;
      this.totalBlocks := 0;
      this.blocks := [];
      this.blockBuf := [];
      this.history := [];
      this.parts := [];
      this.start := |net.sent|;
      this.clean := true;
    }

    method ProcessBlock(blockData: Bytes, isFinal: bool) returns (ok: bool)
      requires ManifestInv() && HashSized(sender.env)
      requires |blockData| < TWO_TO_63 - TAG_SIZE
      modifies this`blockID, this`totalBlocks, this`blocks, this`history, this`parts, this`clean, net, uuids, blockKey
      ensures ManifestInv()
      ensures clean == (old(clean) && ok)
      ensures Faults() >= old(Faults()) && (ok <==> Faults() == old(Faults()))
      ensures old(net.sent) <= net.sent
      ensures Plain(history) == Plain(old(history)) + if ok then [blockData] else []
      ensures Finals(history) == Finals(old(history)) + if ok then [isFinal] else []
    {
      var nonce, shards;
      ok, nonce, shards := SealAndCode(blockData);
      if !ok {
        clean := false;
        return;
      }
      ghost var b;
      ok, b := SendBlock(shards, nonce, isFinal, blockData);
    }

    /** Sends a block's shards under a new repair group and, if all went out, lists it. */
    method SendBlock(shards: seq<Bytes>, nonce: Bytes, isFinal: bool, ghost blockData: Bytes)
      returns (ok: bool, ghost b: SentBlock)
      requires ManifestInv()
      requires |blockData| < TWO_TO_63 - TAG_SIZE && |nonce| == NONCE_SIZE
      requires shards == sender.env.erasure(Sealed(sender, blockID, blockData, nonce))
      modifies this`blockID, this`totalBlocks, this`blocks, this`history, this`parts, this`clean, net, uuids
      ensures ManifestInv()
      ensures clean == (old(clean) && ok)
      ensures Faults() >= old(Faults()) && (ok <==> Faults() == old(Faults()))
      ensures old(net.sent) <= net.sent
      ensures ok ==> history == old(history) + [b] && b.plain == blockData && b.isFinal == isFinal
      ensures !ok ==> history == old(history)
    {
      ghost var known, before := uuids.drawn, net.sent;
      var group := uuids.New();
      ghost var ds;
      ok, b, ds := SendShards(shards, group, nonce, isFinal, blockData);
      if ok {
        EnlistSent(group, b, ds, before, known);
      } else {
        FreshTraffic(before, Groups(history), parts, known, ds, group, uuids.drawn);
        clean := false;
      }
    }

    /** Lists a block whose shards have all just gone out under a new group. */
    method EnlistSent(group: Uuid, ghost b: SentBlock, ghost ds: seq<Delivery>, ghost before: seq<Delivery>, ghost known: set<Uuid>)
      requires blockKey.Length == KEY_SIZE && sender.peers != [] && totalBlocks == |blocks| == blockID - 1
      requires Describes(sender, blocks, history, parts) && GroupsKept(before, Groups(history), parts, known)
      requires clean ==> OnlyListed(parts, before, start)
      requires net.sent == before + ds && group !in known && known + {group} <= uuids.drawn
      requires FreshShards(ds, known, uuids.drawn) && b.group == group
      requires ValidBlock(sender, blockID, b) && ds == BlockDeliveries(sender, blockID, b)
      modifies this`blockID, this`totalBlocks, this`blocks, this`history, this`parts
      ensures ManifestInv() && history == old(history) + [b]
    {
      assert |history| == blockID - 1;
      FreshTraffic(before, Groups(history), parts, known, ds, group, uuids.drawn);
      DescribesMore(sender, blocks, history, parts, b, ds);
      if clean {
        OnlyListedMore(parts, before, start, ds);
      }
      GroupsSnoc(history, b);
      Enlist(group, history + [b], parts + [ds]);
    }

    /** Lists a block that went out whole and moves on to the next number. */
    method Enlist(group: Uuid, ghost h: seq<SentBlock>, ghost ps: seq<seq<Delivery>>)
      requires blockKey.Length == KEY_SIZE && sender.peers != [] && totalBlocks == |blocks| == blockID - 1
      requires Describes(sender, blocks + [EntryOf(sender, group)], h, ps)
      requires GroupsKept(net.sent, Groups(h), ps, uuids.drawn)
      requires clean ==> OnlyListed(ps, net.sent, start)
      modifies this`blockID, this`totalBlocks, this`blocks, this`history, this`parts
      ensures ManifestInv() && history == h
    {
      history, parts := h, ps;
      blocks := blocks + [EntryOf(sender, group)];
      totalBlocks := blockID;
      blockID := blockID + 1;
    }

    /** Encrypts the block under a key of its own and erasure-codes the result. */
    method SealAndCode(blockData: Bytes) returns (ok: bool, nonce: Bytes, shards: seq<Bytes>)
      requires HashSized(sender.env) && blockKey.Length == KEY_SIZE
      requires |blockData| < TWO_TO_63 - TAG_SIZE
      modifies blockKey, uuids`faults
      ensures |nonce| == NONCE_SIZE && uuids.faults == old(uuids.faults) + if ok then 0 else 1
      ensures ok ==> shards == sender.env.erasure(Sealed(sender, blockID, blockData, nonce))
    {
      DeriveBlockKey(sender.env, blockID, sender.masterKey, blockKey);
      ok, nonce := uuids.Nonce();
      shards := [];
      if ok {
        var encBlock := sender.env.encrypt(blockKey[..], nonce, blockData);
        shards := sender.env.erasure(encBlock);
      }
    }

    /** Sends one shard, under an id of its own, to the peer picked for it. */
    method SendShard(shard: Bytes, i: nat, group: Uuid, nonce: Bytes, isFinal: bool)
      returns (ok: bool, ghost id: Uuid, ghost reached: bool)
      requires sender.peers != []
      modifies net, uuids`drawn
      ensures id !in old(uuids.drawn) && uuids.drawn == old(uuids.drawn) + {id}
      ensures Faults() == old(Faults()) + if ok then 0 else 1
      ensures ok ==> reached
      ensures net.sent == old(net.sent) +
                if reached then [ShardDelivery(sender, blockID, i, id, group, nonce, isFinal, shard)] else []
    {
      var best := PickRemotePeer(sender.env.score, blockID, i, sender.peers);
      var shardID := uuids.New();
      var msg := ShardStream(shardID, sender.capsuleID, group, nonce, sender.env.code.k % 256,
                             sender.env.code.m % 256, |shard| % TWO_TO_32, isFinal);
      var n, sendOk := net.Send(best.value, msg, shard);
      id, reached := shardID, net.sent != old(net.sent);
      ok := n == |shard| && sendOk;
    }

    /** Sends every shard to its peer; stops at the first that does not go out whole. */
    method SendShards(shards: seq<Bytes>, group: Uuid, nonce: Bytes, isFinal: bool, ghost plain: Bytes)
      returns (ok: bool, ghost b: SentBlock, ghost ds: seq<Delivery>)
      requires sender.peers != []
      modifies net, uuids
      ensures old(uuids.drawn) <= uuids.drawn && FreshShards(ds, old(uuids.drawn), uuids.drawn)
      ensures Faults() >= old(Faults()) && (ok <==> Faults() == old(Faults()))
      ensures net.sent == old(net.sent) + ds
      ensures b == SentBlock(plain, isFinal, nonce, group, b.shardIDs, shards) && |b.shardIDs| == |ds| <= |shards|
      ensures forall i :: 0 <= i < |ds| ==>
                ds[i] == ShardDelivery(sender, blockID, i, b.shardIDs[i], group, nonce, isFinal, shards[i])
      ensures ok ==> HasIDs(b) && ds == BlockDeliveries(sender, blockID, b)
    {
      var shardID := uuids.New();
      ghost var shardIDs: seq<Uuid> := [];
      ds := [];
      ghost var before := net.sent;
      var i := 0;
      while i < |shards|
        invariant 0 <= i <= |shards| && |shardIDs| == |ds| == i
        invariant old(uuids.drawn) <= uuids.drawn && Faults() == old(Faults())
        invariant FreshShards(ds, old(uuids.drawn), uuids.drawn)
        invariant net.sent == before + ds
        invariant forall j :: 0 <= j < i ==>
          ds[j] == ShardDelivery(sender, blockID, j, shardIDs[j], group, nonce, isFinal, shards[j])
      {
        var sendOk;
        ghost var id, reached;
        sendOk, id, reached := SendShard(shards[i], i, group, nonce, isFinal);
        if reached {
          ghost var d := ShardDelivery(sender, blockID, i, id, group, nonce, isFinal, shards[i]);
          FreshMore(ds, old(uuids.drawn), d, uuids.drawn);
          ds, shardIDs := ds + [d], shardIDs + [id];
        }
        if !sendOk {
          return false, SentBlock(plain, isFinal, nonce, group, shardIDs, shards), ds;
        }
        i := i + 1;
      }
      b := SentBlock(plain, isFinal, nonce, group, shardIDs, shards);
      assert ds == BlockDeliveries(sender, blockID, b);
      ok := true;
    }

    /** One turn of Write's loop, as intended: the processed block leaves the buffer. */
    method FirstBlock() returns (ok: bool)
      requires Valid() && HashSized(sender.env)
      requires |blockBuf| >= BLOCK_SIZE
      modifies this, net, uuids, blockKey
      ensures Valid()
      ensures State() == if ok then TurnAsIntended(BLOCK_SIZE, old(State())) else old(State())
      ensures clean == (old(clean) && ok) && start == old(start)
      ensures Faults() >= old(Faults()) && (ok <==> Faults() == old(Faults()))
      ensures old(net.sent) <= net.sent
      ensures Finals(history) == Finals(old(history)) + if ok then [false] else []
    {
      ok := ProcessBlock(blockBuf[..BLOCK_SIZE], false);
      if ok {
        blockBuf := blockBuf[BLOCK_SIZE..];
      }
    }

    /** Write's loop: blocks leave the buffer until it holds less than one, or one fails. */
    method Drain() returns (ok: bool)
      requires Valid() && HashSized(sender.env)
      modifies this, net, uuids, blockKey
      ensures Valid()
      ensures EmitsFull(BLOCK_SIZE, old(State()), State()) && Stream(State()) == old(Stream(State()))
      ensures ok <==> |blockBuf| < BLOCK_SIZE
      ensures clean == (old(clean) && ok) && start == old(start)
      ensures Faults() >= old(Faults()) && (ok <==> Faults() == old(Faults()))
      ensures old(net.sent) <= net.sent
      ensures FlagsAdded(Finals(old(history)), Finals(history), false)
    {
      ghost var s0 := State();
      while |blockBuf| >= BLOCK_SIZE
        invariant Valid()
        invariant EmitsFull(BLOCK_SIZE, s0, State()) && Stream(State()) == Stream(s0)
        invariant clean == old(clean) && start == old(start) && Faults() == old(Faults())
        invariant old(net.sent) <= net.sent
        invariant FlagsAdded(Finals(old(history)), Finals(history), false)
        decreases |blockBuf|
      {
        ghost var s, flags := State(), Finals(history);
        ok := FirstBlock();
        if !ok {
          return false;
        }
        FlagsMore(Finals(old(history)), flags, false);
        TurnKeepsStream(BLOCK_SIZE, s0, s);
      }
      ok := true;
    }

    /** As intended: every processed block is dropped from the buffer. */
    method Write(data: Bytes) returns (n: nat, ok: bool)
      requires Valid() && HashSized(sender.env)
      requires |blockBuf| + |data| < TWO_TO_63 - TAG_SIZE
      modifies this, net, uuids, blockKey
      ensures Valid()
      ensures EncoderStep(BLOCK_SIZE, old(State()), Wrote(data, n, ok), State())
      ensures clean == (old(clean) && ok) && start == old(start)
      ensures Faults() >= old(Faults()) && (ok <==> Faults() == old(Faults()))
      ensures old(net.sent) <= net.sent
      ensures FlagsAdded(Finals(old(history)), Finals(history), false)
    {
      ghost var s0 := State();
      blockBuf := blockBuf + data;
      assert Stream(State()) == Stream(s0) + data;
      ok := Drain();
      n := if ok then |data| else 0;
    }

    method Close() returns (ok: bool)
      requires Valid() && HashSized(sender.env)
      modifies this, net, uuids, blockKey
      ensures Valid()
      ensures EncoderStep(BLOCK_SIZE, old(State()), Closed(ok), State())
      ensures clean == (old(clean) && ok) && start == old(start)
      ensures Faults() >= old(Faults()) && (ok <==> Faults() == old(Faults()))
      ensures old(net.sent) <= net.sent
      ensures FlagsAdded(Finals(old(history)), Finals(history), true)
    {
      ok := true;
      if |blockBuf| > 0 {
        ok := ProcessBlock(blockBuf, true);
        if ok {
          blockBuf := [];
        }
      }
    }
  }
}
