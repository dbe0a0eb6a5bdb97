/**
 Sender and receiver: when does a guardian's run, with nothing failing, take in all that
 the sender's run put on its connection?
 */
module Agreement {
  import opened Basics
  import opened Erasure
  import opened Placement
  import opened Chunking
  import opened Capsule
  import opened BlockSink
  import opened Distribution
  import opened Receiver
  import opened Recoverability
  import opened Stored

  /* ---- A run without faults, in one piece ---- */

  /** Where r ends if nothing fails. */
  function Ends(hash: Bytes -> Bytes, r: Run, st: Store): (Run, Store)
    requires ValidRun(r)
    decreases Rank(r)
  {
    if Halted(r) then (r, st) else
    var (r', st') := Step(hash, r, st, false);
    Ends(hash, r', st')
  }

  /** Any script that has no fault from here on drives a run exactly there. */
  lemma {:induction false} DriveWithoutFaults(hash: Bytes -> Bytes, r: Run, st: Store, faults: nat -> bool, t: nat)
    requires ValidRun(r) && forall u: nat :: u >= t ==> !faults(u)
    ensures Drive(hash, r, st, faults, t) == Ends(hash, r, st)
    decreases Rank(r)
  {
    if !Halted(r) {
      var (r', st') := Step(hash, r, st, false);
      DriveWithoutFaults(hash, r', st', faults, t + 1);
    }
  }

  lemma {:induction false} EndsHalted(hash: Bytes -> Bytes, r: Run, st: Store)
    requires ValidRun(r)
    ensures Halted(Ends(hash, r, st).0)
    decreases Rank(r)
  {
    if !Halted(r) {
      var (r', st') := Step(hash, r, st, false);
      EndsHalted(hash, r', st');
    }
  }

  predicate AllProper(intro: Msg, ps: seq<Packet>)
    requires intro.IncomingStream?
  {
    forall i :: 0 <= i < |ps| ==> Proper(intro, ps[i])
  }

  lemma StepEnds(hash: Bytes -> Bytes, r: Run, st: Store)
    requires ValidRun(r) && !Halted(r)
    ensures var (r', st') := Step(hash, r, st, false); Ends(hash, r, st) == Ends(hash, r', st')
  {
  }

  lemma OneShard(hash: Bytes -> Bytes, r: Run, st: Store, n: nat)
    requires ValidRun(r) && r.phase == AwaitingShard(n) && n < MAX_SHARDS && AcceptsShard(r.intro, r.inbox)
    ensures var p := r.inbox[0];
            Ends(hash, r, st) ==
            Ends(hash, r.(inbox := r.inbox[1..], phase := if p.msg.isFinal then Completing else AwaitingShard(n + 1)),
                 SaveRecord(hash, SaveBytes(hash, st, p), p))
  {
    var p := r.inbox[0];
    var r1 := r.(phase := ShardArrived(n, p), inbox := r.inbox[1..]);
    StepEnds(hash, r, st);
    StepEnds(hash, r1, st);
    StepEnds(hash, r1.(phase := ShardSaved(n, p)), SaveBytes(hash, st, p));
  }

  lemma NoShard(hash: Bytes -> Bytes, r: Run, st: Store, n: nat)
    requires ValidRun(r) && r.phase == AwaitingShard(n) && (n >= MAX_SHARDS || !AcceptsShard(r.intro, r.inbox))
    ensures Ends(hash, r, st).0.phase.Failed?
  {
    StepEnds(hash, r, st);
  }

  lemma ManifestTaken(hash: Bytes -> Bytes, r: Run, st: Store, manifest: Packet, share: Packet)
    requires ValidRun(r) && r.phase == Completing && r.inbox == [manifest, share]
    requires ProperClosing(r.intro, manifest, share)
    ensures Ends(hash, r, st) ==
            Ends(hash, r.(phase := AwaitingShare, inbox := [share]),
                 SaveManifest(r, SaveCapsule(r, st, true, false), manifest.msg))
  {
    var marked := SaveCapsule(r, st, true, false);
    assert r.inbox[1..] == [share];
    StepEnds(hash, r, st);
    StepEnds(hash, r.(phase := AwaitingManifest), marked);
    StepEnds(hash, r.(phase := ManifestArrived(manifest.msg), inbox := [share]), marked);
  }

  lemma ShareTaken(hash: Bytes -> Bytes, r: Run, st: Store, share: Packet)
    requires ValidRun(r) && r.phase == AwaitingShare && r.inbox == [share]
    requires share.msg.KeyShare? && |share.data| == r.intro.keyShareSize
    ensures Ends(hash, r, st) == (r.(phase := Done, inbox := []), SaveCapsule(r, SaveShare(r, st, share), false, true))
  {
    assert r.inbox[1..] == [];
    var r1 := r.(phase := ShareArrived(share), inbox := []);
    StepEnds(hash, r, st);
    StepEnds(hash, r1, st);
    StepEnds(hash, r1.(phase := Finishing), SaveShare(r, st, share));
  }

  lemma ClosingTaken(hash: Bytes -> Bytes, r: Run, st: Store, manifest: Packet, share: Packet)
    requires ValidRun(r) && r.phase == Completing && r.inbox == [manifest, share]
    requires ProperClosing(r.intro, manifest, share)
    ensures Ends(hash, r, st) == (r.(phase := Done, inbox := []), SaveAll(hash, r, st, [], manifest, share))
  {
    ManifestTaken(hash, r, st, manifest, share);
    ShareTaken(hash, r.(phase := AwaitingShare, inbox := [share]),
               SaveManifest(r, SaveCapsule(r, st, true, false), manifest.msg), share);
  }

  lemma NoManifest(hash: Bytes -> Bytes, r: Run, st: Store)
    requires ValidRun(r) && r.phase == Completing && (r.inbox == [] || r.inbox[0].msg.ShardStream?)
    ensures Ends(hash, r, st).0.phase.Failed?
  {
    StepEnds(hash, r, st);
    StepEnds(hash, r.(phase := AwaitingManifest), SaveCapsule(r, st, true, false));
  }

  /** The transfer works: final is the last shard and no other, the limit holds, all fit. */
  predicate Transferable(intro: Msg, ps: seq<Packet>, received: nat)
    requires intro.IncomingStream? && AllProper(intro, ps)
  {
    received + |ps| <= MAX_SHARDS && AllFit(intro, ps) && LastAloneFinal(ps)
  }

  predicate AllFit(intro: Msg, ps: seq<Packet>)
    requires intro.IncomingStream?
  {
    forall i :: 0 <= i < |ps| ==> Fits(intro, ps[i])
  }

  predicate LastAloneFinal(ps: seq<Packet>)
    requires forall i :: 0 <= i < |ps| ==> ps[i].msg.ShardStream?
  {
    ps != [] && forall i :: 0 <= i < |ps| ==> (ps[i].msg.isFinal <==> i == |ps| - 1)
  }

  /** In the shard loop, with shards, manifest and share to come. */
  lemma {:induction false} ShardLoop(hash: Bytes -> Bytes, r: Run, st: Store, n: nat, ps: seq<Packet>,
                                     manifest: Packet, share: Packet)
    requires ValidRun(r) && r.phase == AwaitingShard(n) && r.inbox == ps + [manifest, share]
    requires AllProper(r.intro, ps) && ProperClosing(r.intro, manifest, share)
    ensures Transferable(r.intro, ps, n) ==>
              Ends(hash, r, st) == (r.(phase := Done, inbox := []), SaveAll(hash, r, st, ps, manifest, share))
    ensures !Transferable(r.intro, ps, n) ==> Ends(hash, r, st).0.phase.Failed?
    decreases |ps|
  {
    if n >= MAX_SHARDS || !AcceptsShard(r.intro, r.inbox) {
      NoShard(hash, r, st, n);
      if ps != [] {
        assert Proper(r.intro, ps[0]) && r.inbox[0] == ps[0];
      }
    } else {
      assert ps != [] && r.inbox[0] == ps[0] && Fits(r.intro, ps[0]);
      OneShard(hash, r, st, n);
      var rest := ps[1..];
      assert r.inbox[1..] == rest + [manifest, share];
      var st' := SaveRecord(hash, SaveBytes(hash, st, ps[0]), ps[0]);
      if !ps[0].msg.isFinal {
        ShardLoop(hash, r.(inbox := r.inbox[1..], phase := AwaitingShard(n + 1)), st', n + 1, rest, manifest, share);
        TransferStep(r.intro, ps, n);
      } else {
        var r' := r.(inbox := r.inbox[1..], phase := Completing);
        if rest == [] {
          ClosingTaken(hash, r', st', manifest, share);
        } else {
          assert r'.inbox[0] == rest[0] && Proper(r.intro, ps[1]);
          NoManifest(hash, r', st');
        }
      }
    }
  }

  lemma TransferStep(intro: Msg, ps: seq<Packet>, n: nat)
    requires intro.IncomingStream? && AllProper(intro, ps) && ps != []
    requires Fits(intro, ps[0]) && !ps[0].msg.isFinal
    ensures Transferable(intro, ps, n) <==> Transferable(intro, ps[1..], n + 1)
  {
    var rest := ps[1..];
    assert forall i :: 0 <= i < |rest| ==> rest[i] == ps[i + 1];
    if Transferable(intro, rest, n + 1) {
      forall i | 0 <= i < |ps|
        ensures Fits(intro, ps[i]) && (ps[i].msg.isFinal <==> i == |ps| - 1)
      {
        if i > 0 { assert ps[i] == rest[i - 1]; }
      }
    }
  }

  /* ---- What the sender puts on one guardian's connection ---- */

  /** The size of every shard of a block with `plain` bytes. */
  function ShardSize(k: nat, plain: nat): nat
    requires k > 0
  {
    1 + CeilDiv(plain + 24, k)
  }

  /** What every packet of a block looks like to its receiver. */
  predicate BlockPacket(intro: Msg, p: Packet, size: nat, isFinal: bool)
    requires intro.IncomingStream?
  {
    Proper(intro, p) && |p.data| == size && p.msg.isFinal == isFinal
  }

  lemma {:induction false} CeilDivSmall(n: nat, k: nat)
    requires k > 0
    ensures CeilDiv(n, k) <= n
    decreases n
  {
    if n > 0 {
      CeilDivSmall(if n <= k then 0 else n - k, k);
    }
  }

  lemma SealedLength(s: Sender, blockID: nat, b: SentBlock)
    requires ValidEnv(s.env) && ValidBlock(s, blockID, b)
    ensures |Sealed(s, blockID, b.plain, b.nonce)| == |b.plain| + TAG_SIZE
  {
    assert |BlockKey(s.env, s.masterKey, blockID)| == KEY_SIZE;
  }

  lemma CodedSizes(c: Code, sealed: Bytes, plain: nat)
    requires ValidCode(c) && |sealed| == plain + TAG_SIZE && plain <= BLOCK_SIZE
    ensures IsRows(Shards(c, sealed), c.k + c.m, ShardSize(c.k, plain)) && ShardSize(c.k, plain) <= BLOCK_SIZE + 25
  {
    ShardShape(c, sealed);
    CeilDivSmall(plain + 24, c.k);
  }

  lemma ShardSizes(s: Sender, blockID: nat, b: SentBlock)
    requires ValidEnv(s.env) && ValidBlock(s, blockID, b) && |b.plain| <= BLOCK_SIZE
    ensures forall i :: 0 <= i < |b.shards| ==> |b.shards[i]| == ShardSize(s.env.code.k, |b.plain|)
    ensures ShardSize(s.env.code.k, |b.plain|) <= BLOCK_SIZE + 25
  {
    SealedLength(s, blockID, b);
    CodedSizes(s.env.code, Sealed(s, blockID, b.plain, b.nonce), |b.plain|);
  }

  /** What every packet of a block looks like, given the size of its shards. */
  lemma BlockPackets(s: Sender, blockID: nat, b: SentBlock, size: nat, p: Peer, intro: Msg)
    requires s.peers != [] && HasIDs(b) && 1 <= s.env.code.k < 256 && 1 <= s.env.code.m < 256
    requires forall i :: 0 <= i < |b.shards| ==> |b.shards[i]| == size
    requires size < TWO_TO_32 && intro.IncomingStream? && intro.capsuleID == s.capsuleID
    ensures BlockPacketsAll(intro, Inbox(BlockDeliveries(s, blockID, b), p), size, b.isFinal)
  {
    var ds := BlockDeliveries(s, blockID, b);
    InboxMembers(ds, p);
    assert forall j :: 0 <= j < |ds| ==> BlockPacket(intro, ds[j].packet, size, b.isFinal);
  }

  predicate BlockPacketsAll(intro: Msg, ps: seq<Packet>, size: nat, isFinal: bool)
    requires intro.IncomingStream?
  {
    forall i :: 0 <= i < |ps| ==> BlockPacket(intro, ps[i], size, isFinal)
  }

  /** How many of a block's shards one guardian gets. */
  lemma BlockCount(s: Sender, blockID: nat, b: SentBlock, sealed: Bytes, p: Peer)
    requires Codes(s, b, sealed)
    ensures |Inbox(BlockDeliveries(s, blockID, b), p)|
         == |Load(s.env.score, blockID, s.env.code.k + s.env.code.m, s.peers, {p})|
  {
    var ds := BlockDeliveries(s, blockID, b);
    CodedCarried(s, blockID, b, sealed, [p]);
    CarriedCount(Gathered(ds, [p]), EncodedRows(s.env.code, sealed), b.nonce, Held(s, blockID, [p]));
    GatheredAlone(ds, p);
    HeldAlone(s, blockID, p);
  }

  lemma CarriedCount(ps: seq<Packet>, w: seq<Bytes>, nonce: Bytes, at: set<nat>)
    requires Carries(ps, w, nonce, at)
    ensures |ps| == |at|
  {
  }

  lemma HeldAlone(s: Sender, blockID: nat, p: Peer)
    requires s.peers != []
    ensures Held(s, blockID, [p]) == Load(s.env.score, blockID, s.env.code.k + s.env.code.m, s.peers, {p})
  {
    assert Members([p]) == {p};
  }

  lemma GatheredAlone(ds: seq<Delivery>, p: Peer)
    ensures Gathered(ds, [p]) == Inbox(ds, p)
  {
    assert [p][..0] == [] && Gathered(ds, [p][..0]) == [];
  }

  /** The blocks of a sender's history are valid and no longer than the block size. */
  ghost predicate History(s: Sender, h: seq<SentBlock>, parts: seq<seq<Delivery>>) {
    && s.peers != [] && |parts| == |h|
    && forall j :: 0 <= j < |h| ==>
         ValidBlock(s, j + 1, h[j]) && |h[j].plain| <= BLOCK_SIZE && parts[j] == BlockDeliveries(s, j + 1, h[j])
  }

  function Shares(s: Sender, j: nat, p: Peer): set<nat>
    requires s.peers != []
  {
    Load(s.env.score, j, s.env.code.k + s.env.code.m, s.peers, {p})
  }

  /** Every block of which p gets a shard has shards of at most `limit` bytes. */
  predicate SizesWithin(s: Sender, h: seq<SentBlock>, p: Peer, limit: nat)
    requires s.peers != [] && s.env.code.k > 0
  {
    forall j :: 0 <= j < |h| && Shares(s, j + 1, p) != {} ==> ShardSize(s.env.code.k, |h[j].plain|) <= limit
  }

  lemma SizesStep(s: Sender, h: seq<SentBlock>, p: Peer, limit: nat)
    requires s.peers != [] && s.env.code.k > 0 && h != []
    ensures var n := |h| - 1;
            SizesWithin(s, h, p, limit) <==>
              SizesWithin(s, h[..n], p, limit) &&
              (Shares(s, n + 1, p) != {} ==> ShardSize(s.env.code.k, |h[n].plain|) <= limit)
  {
    var n := |h| - 1;
    assert forall j :: 0 <= j < n ==> h[..n][j] == h[j];
  }

  /** Block by block: how many packets p gets, and what they look like. */
  ghost predicate SeenBy(s: Sender, h: seq<SentBlock>, parts: seq<seq<Delivery>>, p: Peer, intro: Msg)
    requires intro.IncomingStream?
  {
    && s.peers != [] && s.env.code.k > 0 && |parts| == |h|
    && forall j :: 0 <= j < |h| ==>
         && |Inbox(parts[j], p)| == |Shares(s, j + 1, p)|
         && BlockPacketsAll(intro, Inbox(parts[j], p), ShardSize(s.env.code.k, |h[j].plain|), h[j].isFinal)
  }

  lemma HistorySeen(s: Sender, h: seq<SentBlock>, parts: seq<seq<Delivery>>, p: Peer, intro: Msg)
    requires ValidEnv(s.env) && s.env.code.m >= 1 && History(s, h, parts)
    requires intro.IncomingStream? && intro.capsuleID == s.capsuleID
    ensures SeenBy(s, h, parts, p, intro)
  {
    forall j | 0 <= j < |h|
      ensures |Inbox(parts[j], p)| == |Shares(s, j + 1, p)|
      ensures BlockPacketsAll(intro, Inbox(parts[j], p), ShardSize(s.env.code.k, |h[j].plain|), h[j].isFinal)
    {
      BlockSeen(s, j + 1, h[j], p, intro);
    }
  }

  lemma BlockSeen(s: Sender, blockID: nat, b: SentBlock, p: Peer, intro: Msg)
    requires s.peers != [] && ValidEnv(s.env) && ValidBlock(s, blockID, b) && |b.plain| <= BLOCK_SIZE
    requires s.env.code.m >= 1 && intro.IncomingStream? && intro.capsuleID == s.capsuleID
    ensures |Inbox(BlockDeliveries(s, blockID, b), p)| == |Shares(s, blockID, p)|
    ensures BlockPacketsAll(intro, Inbox(BlockDeliveries(s, blockID, b), p), ShardSize(s.env.code.k, |b.plain|), b.isFinal)
  {
    ShardSizes(s, blockID, b);
    BlockPackets(s, blockID, b, ShardSize(s.env.code.k, |b.plain|), p, intro);
    ValidBlockCodes(s, blockID, b);
    BlockCount(s, blockID, b, Sealed(s, blockID, b.plain, b.nonce), p);
  }

  predicate NoneFinal(ps: seq<Packet>) {
    forall i :: 0 <= i < |ps| ==> ps[i].msg.ShardStream? && !ps[i].msg.isFinal
  }

  lemma InboxSnoc(parts: seq<seq<Delivery>>, p: Peer)
    requires parts != []
    ensures var n := |parts| - 1; Inbox(Flatten(parts), p) == Inbox(Flatten(parts[..n]), p) + Inbox(parts[n], p)
  {
    var n := |parts| - 1;
    assert parts == parts[..n] + [parts[n]];
    FlattenSnoc(parts[..n], parts[n]);
    InboxConcat(Flatten(parts[..n]), parts[n], p);
  }

  lemma SeenPrefix(s: Sender, h: seq<SentBlock>, parts: seq<seq<Delivery>>, p: Peer, intro: Msg)
    requires intro.IncomingStream? && SeenBy(s, h, parts, p, intro) && h != []
    ensures SeenBy(s, h[..|h| - 1], parts[..|h| - 1], p, intro)
  {
  }

  /** Of a whole history the receiver sees its burden of packets. */
  lemma {:induction false} CountSeen(s: Sender, h: seq<SentBlock>, parts: seq<seq<Delivery>>, p: Peer, intro: Msg)
    requires intro.IncomingStream? && SeenBy(s, h, parts, p, intro)
    ensures |Inbox(Flatten(parts), p)| == Burden(s.env.score, |h|, s.env.code.k + s.env.code.m, s.peers, p)
  {
    if h != [] {
      var n := |h| - 1;
      SeenPrefix(s, h, parts, p, intro);
      CountSeen(s, h[..n], parts[..n], p, intro);
      InboxSnoc(parts, p);
    }
  }

  /** All of them are proper, and they fit exactly when their blocks' shards do. */
  lemma {:induction false} Projection(s: Sender, h: seq<SentBlock>, parts: seq<seq<Delivery>>, p: Peer, intro: Msg)
    requires intro.IncomingStream? && SeenBy(s, h, parts, p, intro)
    ensures AllProper(intro, Inbox(Flatten(parts), p))
    ensures AllFit(intro, Inbox(Flatten(parts), p)) <==> SizesWithin(s, h, p, intro.shardSize)
  {
    if h != [] {
      var n := |h| - 1;
      SeenPrefix(s, h, parts, p, intro);
      Projection(s, h[..n], parts[..n], p, intro);
      InboxSnoc(parts, p);
      SizesStep(s, h, p, intro.shardSize);
      FitConcat(intro, Inbox(Flatten(parts[..n]), p), Inbox(parts[n], p),
                ShardSize(s.env.code.k, |h[n].plain|), h[n].isFinal);
    }
  }

  /** Blocks without the final mark put only unmarked shards on the connection. */
  lemma {:induction false} UnmarkedBlocks(s: Sender, h: seq<SentBlock>, parts: seq<seq<Delivery>>, p: Peer, intro: Msg)
    requires intro.IncomingStream? && SeenBy(s, h, parts, p, intro)
    requires forall j :: 0 <= j < |h| ==> !h[j].isFinal
    ensures NoneFinal(Inbox(Flatten(parts), p))
  {
    if h != [] {
      var n := |h| - 1;
      SeenPrefix(s, h, parts, p, intro);
      UnmarkedBlocks(s, h[..n], parts[..n], p, intro);
      InboxSnoc(parts, p);
    }
  }

  lemma FitConcat(intro: Msg, a: seq<Packet>, b: seq<Packet>, size: nat, isFinal: bool)
    requires intro.IncomingStream?
    requires BlockPacketsAll(intro, b, size, isFinal)
    ensures AllProper(intro, a) ==> AllProper(intro, a + b)
    ensures AllFit(intro, a + b) <==> AllFit(intro, a) && (b != [] ==> size <= intro.shardSize)
  {
    var c := a + b;
    assert forall i :: 0 <= i < |a| ==> c[i] == a[i];
    assert forall i :: 0 <= i < |b| ==> c[|a| + i] == b[i];
    if AllFit(intro, c) {
      assert forall i :: 0 <= i < |a| ==> Fits(intro, a[i]) by {
        assert forall i :: 0 <= i < |a| ==> Fits(intro, c[i]);
      }
      if b != [] { assert Fits(intro, c[|a|]); }
    }
  }

  /** Final marks on the tail b only: exactly one shard in b makes the last one the only final one. */
  lemma OneFinal(a: seq<Packet>, b: seq<Packet>)
    requires NoneFinal(a)
    requires forall i :: 0 <= i < |b| ==> b[i].msg.ShardStream? && b[i].msg.isFinal
    ensures LastAloneFinal(a + b) <==> |b| == 1
  {
    var c := a + b;
    if b == [] {
      if a != [] { assert !c[|a| - 1].msg.isFinal; }
    } else if |b| >= 2 {
      assert c[|a|] == b[0] && b[0].msg.isFinal;
    }
  }

  /* ---- The agreement theorem ---- */

  /** How many final-marked shards p gets: none if the stream ends with a full block. */
  function FinalShards(s: Sender, x: Bytes, p: Peer): nat
    requires s.peers != []
  {
    if |x| % BLOCK_SIZE == 0 then 0 else |Shares(s, |Cut(x, BLOCK_SIZE)|, p)|
  }

  /** One final-marked shard, at most 1000 shards in all, and all of them fit the announced size. */
  predicate Completable(s: Sender, x: Bytes, h: seq<SentBlock>, p: Peer)
    requires s.peers != [] && s.env.code.k > 0
  {
    && FinalShards(s, x, p) == 1
    && Burden(s.env.score, |h|, s.env.code.k + s.env.code.m, s.peers, p) <= MAX_SHARDS
    && SizesWithin(s, h, p, MAX_SHARD_SIZE)
  }

  lemma FlagsOfCut(x: Bytes, h: seq<SentBlock>)
    requires Plain(h) == Cut(x, BLOCK_SIZE) && Finals(h) == CutFlags(x, BLOCK_SIZE)
    ensures forall j :: 0 <= j < |h| ==> |h[j].plain| <= BLOCK_SIZE
    ensures forall j :: 0 <= j < |h| ==> (h[j].isFinal <==> j == |h| - 1 && |x| % 1048576 != 0)
    ensures |x| % 1048576 != 0 ==> h != []
  {
    CutPartition(x, BLOCK_SIZE);
    assert forall j :: 0 <= j < |h| ==> Plain(h)[j] == h[j].plain && Finals(h)[j] == h[j].isFinal;
  }

  /** The marks one guardian sees: the last shard alone is final exactly when it got one final shard. */
  lemma MarksSeen(s: Sender, x: Bytes, h: seq<SentBlock>, parts: seq<seq<Delivery>>, p: Peer, intro: Msg)
    requires intro.IncomingStream? && SeenBy(s, h, parts, p, intro)
    requires Plain(h) == Cut(x, BLOCK_SIZE) && Finals(h) == CutFlags(x, BLOCK_SIZE)
    requires AllProper(intro, Inbox(Flatten(parts), p))
    ensures LastAloneFinal(Inbox(Flatten(parts), p)) <==> FinalShards(s, x, p) == 1
  {
    FlagsOfCut(x, h);
    if |x| % BLOCK_SIZE == 0 {
      UnmarkedBlocks(s, h, parts, p, intro);
      OneFinal(Inbox(Flatten(parts), p), []);
      assert Inbox(Flatten(parts), p) + [] == Inbox(Flatten(parts), p);
    } else {
      var n := |h| - 1;
      SeenPrefix(s, h, parts, p, intro);
      UnmarkedBlocks(s, h[..n], parts[..n], p, intro);
      InboxSnoc(parts, p);
      OneFinal(Inbox(Flatten(parts[..n]), p), Inbox(parts[n], p));
    }
  }

  lemma InboxOfOne(to: Peer, packet: Packet, p: Peer)
    ensures Inbox([Delivery(to, packet)], p) == if to == p then [packet] else []
  {
    var one := [Delivery(to, packet)];
    assert one[..0] == [] && Inbox(one[..0], p) == [];
  }

  lemma ReachedSnoc(peers: seq<Peer>, reached: seq<bool>, packet: Packet, p: Peer)
    requires |peers| == |reached| > 0
    ensures var n := |peers| - 1;
            Inbox(Reached(peers, reached, packet), p) ==
            Inbox(Reached(peers[..n], reached[..n], packet), p) + if reached[n] && peers[n] == p then [packet] else []
  {
    var n := |peers| - 1;
    var last := if reached[n] then [Delivery(peers[n], packet)] else [];
    InboxConcat(Reached(peers[..n], reached[..n], packet), last, p);
    InboxOfOne(peers[n], packet, p);
  }

  lemma {:induction false} NotReached(peers: seq<Peer>, reached: seq<bool>, packet: Packet, p: Peer)
    requires |peers| == |reached| && p !in peers
    ensures Inbox(Reached(peers, reached, packet), p) == []
  {
    if peers != [] {
      var n := |peers| - 1;
      NotReached(peers[..n], reached[..n], packet, p);
      ReachedSnoc(peers, reached, packet, p);
    }
  }

  /** An active guardian got the announcement once. */
  lemma {:induction false} ReachedOnce(peers: seq<Peer>, oks: seq<bool>, reached: seq<bool>, packet: Packet, p: Peer)
    requires |peers| == |oks| && Covers(reached, oks) && Distinct(peers) && p in Kept(peers, oks)
    ensures Inbox(Reached(peers, reached, packet), p) == [packet]
  {
    var n := |peers| - 1;
    ReachedSnoc(peers, reached, packet, p);
    KeptDistinct(peers[..n], oks[..n]);
    if p in Kept(peers[..n], oks[..n]) {
      assert peers[n] != p;
      ReachedOnce(peers[..n], oks[..n], reached[..n], packet, p);
    } else {
      assert p == peers[n] && p !in peers[..n];
      NotReached(peers[..n], reached[..n], packet, p);
    }
  }

  /** All that an active guardian gets of the run, first to last. */
  lemma GuardianInbox(log: CapsuleLog, guardians: seq<Peer>, sent0: seq<Delivery>, sent1: seq<Delivery>, i: nat)
    requires |log.oks| == |guardians| == |log.shares| && Covers(log.reached, log.oks) && Distinct(guardians)
    requires log.sender.peers == Kept(guardians, log.oks) && i < |log.sender.peers| <= |guardians|
    requires sent1 == UpToBody(sent0, guardians, log) + Closing(log)
    ensures Inbox(sent1[|sent0|..], log.sender.peers[i]) ==
              [Packet(log.announcement, [])] + (Inbox(log.body, log.sender.peers[i]) +
               [ManifestPacket(log), Packet(KeyMsg(log.sender.capsuleID, |log.shares|, log.threshold), log.shares[i])])
  {
    var p := log.sender.peers[i];
    var announced := Reached(guardians, log.reached, Packet(log.announcement, []));
    assert sent1[|sent0|..] == (announced + log.body) + Closing(log);
    InboxConcat(announced + log.body, Closing(log), p);
    InboxConcat(announced, log.body, p);
    ReachedOnce(guardians, log.oks, log.reached, Packet(log.announcement, []), p);
    KeptDistinct(guardians, log.oks);
    ClosingInbox(log, i);
  }

  lemma HistoryOf(log: CapsuleLog, x: Bytes)
    requires Describes(log.sender, log.blocks, log.history, log.parts) && log.sender.peers != []
    requires Plain(log.history) == Cut(x, BLOCK_SIZE) && Finals(log.history) == CutFlags(x, BLOCK_SIZE)
    ensures History(log.sender, log.history, log.parts)
  {
    FlagsOfCut(x, log.history);
    forall j | 0 <= j < |log.history|
      ensures ValidBlock(log.sender, j + 1, log.history[j])
      ensures log.parts[j] == BlockDeliveries(log.sender, j + 1, log.history[j])
    {
      DescribesAt(log.sender, log.blocks, log.history, log.parts, j);
    }
  }

  /** What the receiver's run starts with. */
  function GuardianRun(log: CapsuleLog, owner: Uuid, i: nat): Run
    requires i < |log.sender.peers| <= |log.shares|
  {
    Run(owner, log.announcement,
        Inbox(log.body, log.sender.peers[i]) +
        [ManifestPacket(log), Packet(KeyMsg(log.sender.capsuleID, |log.shares|, log.threshold), log.shares[i])],
        Starting)
  }

  lemma StartedRun(hash: Bytes -> Bytes, r: Run, st: Store)
    requires ValidRun(r) && r.phase.Starting?
    ensures Ends(hash, r, st) == Ends(hash, r.(phase := AwaitingShard(0)), SaveCapsule(r, st, false, false))
  {
  }

  lemma TransferSeen(s: Sender, x: Bytes, h: seq<SentBlock>, parts: seq<seq<Delivery>>, p: Peer, intro: Msg)
    requires intro.IncomingStream? && intro.shardSize == MAX_SHARD_SIZE && SeenBy(s, h, parts, p, intro)
    requires Plain(h) == Cut(x, BLOCK_SIZE) && Finals(h) == CutFlags(x, BLOCK_SIZE)
    ensures AllProper(intro, Inbox(Flatten(parts), p))
    ensures Transferable(intro, Inbox(Flatten(parts), p), 0) <==> Completable(s, x, h, p)
  {
    CountSeen(s, h, parts, p, intro);
    Projection(s, h, parts, p, intro);
    MarksSeen(s, x, h, parts, p, intro);
    TransferDecided(s, x, h, p, intro, Inbox(Flatten(parts), p));
  }

  /** The receiver's terms and the sender's. */
  lemma TransferDecided(s: Sender, x: Bytes, h: seq<SentBlock>, p: Peer, intro: Msg, ps: seq<Packet>)
    requires intro.IncomingStream? && intro.shardSize == MAX_SHARD_SIZE && s.peers != [] && s.env.code.k > 0
    requires AllProper(intro, ps)
    requires |ps| == Burden(s.env.score, |h|, s.env.code.k + s.env.code.m, s.peers, p)
    requires AllFit(intro, ps) <==> SizesWithin(s, h, p, intro.shardSize)
    requires LastAloneFinal(ps) <==> FinalShards(s, x, p) == 1
    ensures Transferable(intro, ps, 0) <==> Completable(s, x, h, p)
  {
  }

  /** The announced shard size survives its narrowing to 16 bits. */
  lemma AnnouncedSizes(log: CapsuleLog, guardians: seq<Peer>)
    requires Announces(log, guardians)
    ensures log.announcement.shardSize == MAX_SHARD_SIZE
    ensures log.announcement.capsuleID == log.sender.capsuleID
    ensures log.announcement.keyShareSize == |log.shares[0]| % 0x100
  {
    SmallMod(MAX_SHARD_SIZE, 0x1_0000);
  }

  /** What any active guardian sees of a run's blocks. */
  lemma GuardianSees(log: CapsuleLog, guardians: seq<Peer>, x: Bytes, p: Peer)
    requires Announces(log, guardians) && log.sender.peers != []
    requires ValidEnv(log.sender.env) && log.sender.env.code.m >= 1
    requires Describes(log.sender, log.blocks, log.history, log.parts)
    requires Plain(log.history) == Cut(x, BLOCK_SIZE) && Finals(log.history) == CutFlags(x, BLOCK_SIZE)
    ensures SeenBy(log.sender, log.history, log.parts, p, log.announcement)
  {
    HistoryOf(log, x);
    AnnouncedSizes(log, guardians);
    HistorySeen(log.sender, log.history, log.parts, p, log.announcement);
  }

  /** An active guardian's run over what it sees, manifest and share behind it. */
  lemma RunDecided(log: CapsuleLog, guardians: seq<Peer>, x: Bytes, i: nat, hash: Bytes -> Bytes, owner: Uuid, st: Store)
    requires Announces(log, guardians) && i < |log.sender.peers| <= |log.shares|
    requires SeenBy(log.sender, log.history, log.parts, log.sender.peers[i], log.announcement)
    requires log.body == Flatten(log.parts)
    requires Plain(log.history) == Cut(x, BLOCK_SIZE) && Finals(log.history) == CutFlags(x, BLOCK_SIZE)
    requires |log.shares[0]| == |log.shares[i]| == KEY_SIZE + 1
    requires DistinctShards(Inbox(log.body, log.sender.peers[i]))
    ensures RunEnds(log, x, i, hash, owner, st)
  {
    var r, p := GuardianRun(log, owner, i), log.sender.peers[i];
    var ps := Inbox(log.body, p);
    AnnouncedSizes(log, guardians);
    TransferSeen(log.sender, x, log.history, log.parts, p, log.announcement);
    StartedRun(hash, r, st);
    var manifest, share := r.inbox[|ps|], r.inbox[|ps| + 1];
    assert ProperClosing(log.announcement, manifest, share);
    ShardLoop(hash, r.(phase := AwaitingShard(0)), SaveCapsule(r, st, false, false), 0, ps, manifest, share);
    assert AllShards(ps);
    ReceivedHolds(log, i, hash, owner, st);
  }

  lemma BodyDistinct(log: CapsuleLog, guardians: seq<Peer>, sent0: seq<Delivery>, known: set<Uuid>, p: Peer)
    requires |guardians| == |log.reached| && IdsKnown(UpToBody(sent0, guardians, log), known)
    ensures DistinctShards(Inbox(log.body, p))
  {
    IdsKnownSuffix(sent0 + Reached(guardians, log.reached, Packet(log.announcement, [])), log.body, known);
    InboxDistinct(log.body, known, p);
  }

  /** The i-th guardian's run is done exactly if completable, and then all it got is stored. */
  ghost predicate RunEnds(log: CapsuleLog, x: Bytes, i: nat, hash: Bytes -> Bytes, owner: Uuid, st: Store)
    requires i < |log.sender.peers| <= |log.shares| && log.sender.env.code.k > 0 && log.announcement.IncomingStream?
  {
    var r := GuardianRun(log, owner, i);
    var ps := Inbox(log.body, log.sender.peers[i]);
    var (end, st') := Ends(hash, r, st);
    && (end.phase.Done? <==> Completable(log.sender, x, log.history, log.sender.peers[i]))
    && (end.phase.Done? ==>
          end.inbox == [] && AllProper(r.intro, ps) && st' == Received(log, i, hash, owner, st) &&
          HoldsPart(log, i, hash, owner, st, st'))
  }

  /** From st to st' the i-th guardian's shards, the manifest and its share were stored, and nothing else changed. */
  ghost predicate HoldsPart(log: CapsuleLog, i: nat, hash: Bytes -> Bytes, owner: Uuid, st: Store, st': Store)
    requires i < |log.sender.peers| <= |log.shares| && log.announcement.IncomingStream?
  {
    HoldsAll(hash, st, st', log.sender.capsuleID, owner, log.announcement.guardianIDs,
             Inbox(log.body, log.sender.peers[i]), ManifestPacket(log).msg, ShareOf(log, i))
  }

  /** The stores after the i-th guardian's whole transfer. */
  ghost function Received(log: CapsuleLog, i: nat, hash: Bytes -> Bytes, owner: Uuid, st: Store): Store
    requires i < |log.sender.peers| <= |log.shares| && log.announcement.IncomingStream?
  {
    var r := GuardianRun(log, owner, i);
    var ps := Inbox(log.body, log.sender.peers[i]);
    if AllShards(ps)
    then SaveAll(hash, r, SaveCapsule(r, st, false, false), ps, r.inbox[|ps|], r.inbox[|ps| + 1])
    else st
  }

  lemma ReceivedHolds(log: CapsuleLog, i: nat, hash: Bytes -> Bytes, owner: Uuid, st: Store)
    requires i < |log.sender.peers| <= |log.shares| && log.announcement.IncomingStream?
    requires log.announcement.capsuleID == log.sender.capsuleID
    requires var ps := Inbox(log.body, log.sender.peers[i]); AllShards(ps) && DistinctShards(ps)
    ensures HoldsPart(log, i, hash, owner, st, Received(log, i, hash, owner, st))
  {
    var r := GuardianRun(log, owner, i);
    var ps := Inbox(log.body, log.sender.peers[i]);
    var st1 := SaveCapsule(r, st, false, false);
    SavedAll(hash, r, st1, ps, r.inbox[|ps|], r.inbox[|ps| + 1]);
    EntriesFrame(st, st1, r.intro.capsuleID);
    HoldsFromBefore(hash, st, st1, Received(log, i, hash, owner, st), r.intro.capsuleID, owner, r.intro.guardianIDs, ps,
                    ManifestPacket(log).msg, ShareOf(log, i));
  }

  /** The record of the i-th guardian's key share. */
  function ShareOf(log: CapsuleLog, i: nat): ShareRecord
    requires i < |log.shares|
  {
    ShareRecord(log.shares[i], |log.shares| % 0x1_0000, log.threshold % 0x100)
  }

  /**
   Agreement. On a run that sent everything, an active guardian's receiver completes,
   having taken in every message, exactly when it was assigned one final-marked shard, at
   most 1000 shards, all within the announced size. Then all of it is stored.
   */
  lemma AgreementExactly(log: CapsuleLog, guardians: seq<Peer>, minGuardians: nat, x: Bytes,
                         sent0: seq<Delivery>, sent1: seq<Delivery>, known: set<Uuid>,
                         i: nat, hash: Bytes -> Bytes, owner: Uuid, st: Store)
    requires Distributed(log, guardians, minGuardians, x, sent0, sent1, known) && log.clean
    requires ValidEnv(log.sender.env) && log.sender.env.code.m >= 1 && Distinct(guardians)
    requires |log.sender.masterKey| == KEY_SIZE && i < |log.sender.peers|
    ensures Inbox(sent1[|sent0|..], log.sender.peers[i]) ==
              [Packet(log.announcement, [])] + GuardianRun(log, owner, i).inbox
    ensures Tells(log.announcement, log.sender.capsuleID, guardians, log.announcement.silencePeriod)
    ensures RunEnds(log, x, i, hash, owner, st)
  {
    AnnouncementTells(log, guardians);
    GuardianInbox(log, guardians, sent0, sent1, i);
    GuardianSees(log, guardians, x, log.sender.peers[i]);
    SharesSized(log, guardians, i);
    BodyDistinct(log, guardians, sent0, known, log.sender.peers[i]);
    RunDecided(log, guardians, x, i, hash, owner, st);
  }

  lemma SharesSized(log: CapsuleLog, guardians: seq<Peer>, i: nat)
    requires IsSharing(log.sender.env, log.sender.masterKey, |guardians|, log.threshold, log.shares)
    requires |log.sender.masterKey| == KEY_SIZE && i < |guardians|
    ensures |log.shares| == |guardians| && |log.shares[0]| == |log.shares[i]| == KEY_SIZE + 1
  {
  }

  /**
   The receiver's method itself, called by an active guardian of a run in which nothing
   failed and with no fault of its own: it succeeds exactly when the guardian's part is
   completable, and then the connection is empty and the stores hold all of it.
   */
  method ReceiveAsGuardian(store: GuardianStore, conn: Connection, owner: Uuid, intro: Msg,
                           ghost log: CapsuleLog, ghost guardians: seq<Peer>, ghost minGuardians: nat, ghost x: Bytes,
                           ghost sent0: seq<Delivery>, ghost sent1: seq<Delivery>, ghost known: set<Uuid>, ghost i: nat)
    returns (ok: bool)
    requires Distributed(log, guardians, minGuardians, x, sent0, sent1, known) && log.clean
    requires ValidEnv(log.sender.env) && log.sender.env.code.m >= 1 && Distinct(guardians)
    requires |log.sender.masterKey| == KEY_SIZE && i < |log.sender.peers|
    requires intro == log.announcement
    requires Inbox(sent1[|sent0|..], log.sender.peers[i]) == [Packet(intro, [])] + conn.inbox
    requires forall u: nat :: u >= store.ticks ==> !store.faults(u)
    modifies store, conn
    ensures ok <==> Completable(log.sender, x, log.history, log.sender.peers[i])
    ensures ok ==> AllProper(intro, Inbox(log.body, log.sender.peers[i]))
    ensures ok ==> conn.inbox == [] && store.State() == Received(log, i, store.hash, owner, old(store.State()))
    ensures ok ==> HoldsPart(log, i, store.hash, owner, old(store.State()), store.State())
  {
    ghost var r, st := Run(owner, intro, conn.inbox, Starting), store.State();
    AgreementExactly(log, guardians, minGuardians, x, sent0, sent1, known, i, store.hash, owner, st);
    assert conn.inbox == GuardianRun(log, owner, i).inbox by {
      assert ([Packet(intro, [])] + conn.inbox)[1..] == conn.inbox;
      assert ([Packet(intro, [])] + GuardianRun(log, owner, i).inbox)[1..] == GuardianRun(log, owner, i).inbox;
    }
    DriveWithoutFaults(store.hash, r, st, store.faults, store.ticks);
    ghost var end;
    ok, end := ReceiveCapsuleStream(store, conn, owner, intro);
  }
}
