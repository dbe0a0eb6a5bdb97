/**
 CreateAndSendCapsule: announce the capsule to all guardians and keep the reachable
 ones, stream the blocks out, then send everyone the manifest and one key share each.
 */
module Distribution {
  import opened Basics
  import opened Erasure
  import opened Placement
  import opened Chunking
  import opened Capsule
  import opened BlockSink

  /* ---- Compaction of the guardian list ---- */

  /** The peers whose Send succeeded, in their old order. */
  function Kept(peers: seq<Peer>, oks: seq<bool>): seq<Peer>
    requires |peers| == |oks|
  {
    if peers == [] then [] else
    var n := |peers| - 1;
    Kept(peers[..n], oks[..n]) + if oks[n] then [peers[n]] else []
  }

  /** Compaction keeps only peers of the list, and keeps them apart. */
  lemma {:induction false} KeptDistinct(peers: seq<Peer>, oks: seq<bool>)
    requires |peers| == |oks| && Distinct(peers)
    ensures Distinct(Kept(peers, oks)) && forall p :: p in Kept(peers, oks) ==> p in peers
  {
    if peers != [] {
      var n := |peers| - 1;
      KeptDistinct(peers[..n], oks[..n]);
      assert peers[n] !in peers[..n];
      assert Kept(peers, oks) == if oks[n] then Kept(peers[..n], oks[..n]) + [peers[n]] else Kept(peers[..n], oks[..n]);
    }
  }

  function CountTrue(oks: seq<bool>): nat {
    if oks == [] then 0 else CountTrue(oks[..|oks| - 1]) + if oks[|oks| - 1] then 1 else 0
  }

  /** Exactly the peers whose Send succeeded are kept, each at the place it has among them. */
  lemma {:induction false} KeptExactly(peers: seq<Peer>, oks: seq<bool>, i: nat)
    requires |peers| == |oks|
    ensures |Kept(peers, oks)| == CountTrue(oks)
    ensures i < |oks| && oks[i] ==> CountTrue(oks[..i]) < CountTrue(oks) && Kept(peers, oks)[CountTrue(oks[..i])] == peers[i]
  {
    if peers != [] {
      var n := |peers| - 1;
      KeptExactly(peers[..n], oks[..n], i);
      if i < n {
        assert oks[..n][..i] == oks[..i];
      }
    }
  }

  /** The same packet, to those peers it reached. */
  function Reached(peers: seq<Peer>, reached: seq<bool>, packet: Packet): seq<Delivery>
    requires |peers| == |reached|
  {
    if peers == [] then [] else
    var n := |peers| - 1;
    Reached(peers[..n], reached[..n], packet) + if reached[n] then [Delivery(peers[n], packet)] else []
  }

  predicate Covers(reached: seq<bool>, oks: seq<bool>) {
    |reached| == |oks| && forall i :: 0 <= i < |oks| && oks[i] ==> reached[i]
  }

  lemma KeptNext(peers: seq<Peer>, i: nat, oks: seq<bool>, ok: bool)
    requires |oks| == i < |peers|
    ensures Kept(peers[..i + 1], oks + [ok]) == Kept(peers[..i], oks) + if ok then [peers[i]] else []
  {
    assert peers[..i + 1][..i] == peers[..i] && (oks + [ok])[..i] == oks;
  }

  lemma ReachedNext(peers: seq<Peer>, i: nat, reached: seq<bool>, got: bool, packet: Packet)
    requires |reached| == i < |peers|
    ensures Reached(peers[..i + 1], reached + [got], packet) ==
            Reached(peers[..i], reached, packet) + if got then [Delivery(peers[i], packet)] else []
  {
    assert peers[..i + 1][..i] == peers[..i] && (reached + [got])[..i] == reached;
  }

  /** One more guardian's announcement. */
  method AnnounceTo(to: Peer, net: Network, msg: Msg, ghost before: seq<Delivery>,
                    ghost peers: seq<Peer>, ghost i: nat, ghost reached: seq<bool>)
    returns (ok: bool, ghost got: bool)
    requires |reached| == i < |peers| && to == peers[i]
    requires net.sent == before + Reached(peers[..i], reached, Packet(msg, []))
    modifies net
    ensures ok ==> got
    ensures net.sent == before + Reached(peers[..i + 1], reached + [got], Packet(msg, []))
    ensures net.outcomes == old(net.outcomes) + [ok]
  {
    var n, sendOk := net.Send(to, msg, []);
    ok, got := sendOk, |net.sent| > |old(net.sent)|;
    ReachedNext(peers, i, reached, got, Packet(msg, []));
  }

  /** Moves the i-th guardian up behind the active ones if its Send succeeded. */
  method KeepNext(guardians: array<Peer>, active: nat, i: nat, ok: bool, ghost peers: seq<Peer>, ghost oks: seq<bool>)
    returns (active': nat)
    requires active <= i < guardians.Length == |peers| && |oks| == i
    requires guardians[..active] == Kept(peers[..i], oks)
    requires forall j :: i <= j < |peers| ==> guardians[j] == peers[j]
    modifies guardians
    ensures active' <= i + 1 && guardians[..active'] == Kept(peers[..i + 1], oks + [ok])
    ensures forall j :: i < j < |peers| ==> guardians[j] == peers[j]
  {
    KeptNext(peers, i, oks, ok);
    active' := active;
    if ok {
      guardians[active] := guardians[i];
      active' := active + 1;
    }
  }

  lemma CoversNext(reached: seq<bool>, oks: seq<bool>, got: bool, ok: bool)
    requires Covers(reached, oks) && (ok ==> got)
    ensures Covers(reached + [got], oks + [ok])
  {
  }

  /**
   Announces the capsule and compacts the list in place: what is left in front is exactly
   the order-preserving filter of the guardians whose Send succeeded.
   */
  method Announce(guardians: array<Peer>, net: Network, msg: Msg)
    returns (active: nat, ghost oks: seq<bool>, ghost reached: seq<bool>)
    modifies guardians, net
    ensures |oks| == guardians.Length && Covers(reached, oks)
    ensures active <= guardians.Length
    ensures guardians[..active] == Kept(old(guardians[..]), oks)
    ensures net.sent == old(net.sent) + Reached(old(guardians[..]), reached, Packet(msg, []))
    ensures net.outcomes == old(net.outcomes) + oks
  {
    ghost var peers := guardians[..];
    ghost var before := net.sent;
    active := 0;
    oks, reached := [], [];
    var i := 0;
    while i < guardians.Length
      invariant 0 <= active <= i <= guardians.Length == |peers|
      invariant |oks| == i && Covers(reached, oks)
      invariant guardians[..active] == Kept(peers[..i], oks)
      invariant forall j :: i <= j < |peers| ==> guardians[j] == peers[j]
      invariant net.sent == before + Reached(peers[..i], reached, Packet(msg, []))
      invariant net.outcomes == old(net.outcomes) + oks
    {
      var ok;
      ghost var got;
      ok, got := AnnounceTo(guardians[i], net, msg, before, peers, i, reached);
      active := KeepNext(guardians, active, i, ok, peers, oks);
      CoversNext(reached, oks, got, ok);
      assert old(net.outcomes) + oks + [ok] == old(net.outcomes) + (oks + [ok]);
      oks, reached := oks + [ok], reached + [got];
      i := i + 1;
    }
    assert peers[..guardians.Length] == peers;
  }

  /* ---- Manifest and key shares ---- */

  function ToAll(peers: seq<Peer>, packet: Packet): seq<Delivery> {
    seq(|peers|, i requires 0 <= i < |peers| => Delivery(peers[i], packet))
  }

  lemma OneMoreSent(before: seq<Delivery>, all: seq<Delivery>, i: nat)
    requires i < |all|
    ensures before + all[..i + 1] == before + all[..i] + [all[i]]
    ensures before <= before + all[..i] <= before + all && before <= before + all[..i + 1] <= before + all
  {
  }

  /** The i-th of the deliveries `all`, and a failure also if not all of the data went out. */
  method SendNext(net: Network, to: Peer, msg: Msg, data: Bytes, ghost before: seq<Delivery>, ghost all: seq<Delivery>,
                  ghost i: nat) returns (ok: bool)
    requires i < |all| && all[i] == Delivery(to, Packet(msg, data)) && net.sent == before + all[..i]
    modifies net
    ensures before <= net.sent <= before + all && (ok ==> net.sent == before + all[..i + 1])
    ensures Failures(net.outcomes) == old(Failures(net.outcomes)) + if ok then 0 else 1
  {
    var n, sendOk := net.Send(to, msg, data);
    OneMoreSent(before, all, i);
    ok := n == |data| && sendOk;
  }

  /** Sends to everybody in order, up to the first Send that fails. */
  method SendManifest(peers: seq<Peer>, net: Network, msg: Msg) returns (ok: bool)
    modifies net
    ensures old(net.sent) <= net.sent <= old(net.sent) + ToAll(peers, Packet(msg, []))
    ensures ok ==> net.sent == old(net.sent) + ToAll(peers, Packet(msg, []))
    ensures Failures(net.outcomes) >= old(Failures(net.outcomes))
    ensures ok <==> Failures(net.outcomes) == old(Failures(net.outcomes))
  {
    ghost var before, all := net.sent, ToAll(peers, Packet(msg, []));
    assert before + all[..0] == before;
    for i := 0 to |peers|
      invariant net.sent == before + all[..i] && Failures(net.outcomes) == old(Failures(net.outcomes))
    {
      ok := SendNext(net, peers[i], msg, [], before, all, i);
      if !ok {
        return;
      }
    }
    assert all[..|peers|] == all;
    return true;
  }

  function KeyMsg(capsuleID: Uuid, totalShares: nat, threshold: nat): Msg {
    KeyShare(capsuleID, totalShares % 0x1_0000, threshold % 0x100)
  }

  /** The i-th peer, and it alone, gets share i. */
  function KeyDeliveries(peers: seq<Peer>, msg: Msg, shares: seq<Bytes>): seq<Delivery>
    requires |peers| <= |shares|
  {
    seq(|peers|, i requires 0 <= i < |peers| => Delivery(peers[i], Packet(msg, shares[i])))
  }

  method SendShares(peers: seq<Peer>, net: Network, capsuleID: Uuid, threshold: nat, shares: seq<Bytes>)
    returns (ok: bool)
    requires |peers| <= |shares|
    modifies net
    ensures old(net.sent) <= net.sent <= old(net.sent) +
              KeyDeliveries(peers, KeyMsg(capsuleID, |shares|, threshold), shares)
    ensures ok ==> net.sent == old(net.sent) +
                     KeyDeliveries(peers, KeyMsg(capsuleID, |shares|, threshold), shares)
    ensures Failures(net.outcomes) >= old(Failures(net.outcomes))
    ensures ok <==> Failures(net.outcomes) == old(Failures(net.outcomes))
  {
    var msg := KeyMsg(capsuleID, |shares|, threshold);
    ghost var before, all := net.sent, KeyDeliveries(peers, msg, shares);
    assert before + all[..0] == before;
    for i := 0 to |peers|
      invariant net.sent == before + all[..i] && Failures(net.outcomes) == old(Failures(net.outcomes))
    {
      ok := SendNext(net, peers[i], msg, shares[i], before, all, i);
      if !ok {
        return;
      }
    }
    assert all[..|peers|] == all;
    return true;
  }

  /* ---- The archive's stream of Write calls ---- */

  /** The flags of a cleanly streamed capsule: only a shorter last block is marked final. */
  function CutFlags(x: Bytes, size: nat): seq<bool>
    requires size > 0
  {
    seq(|Blocks(x, size)|, _ => false) + if Rest(x, size) == [] then [] else [true]
  }

  lemma FlatLength(chunks: seq<Bytes>, i: nat)
    requires i <= |chunks|
    ensures |Flatten(chunks[..i])| <= |Flatten(chunks)|
    ensures i < |chunks| ==> Flatten(chunks[..i + 1]) == Flatten(chunks[..i]) + chunks[i]
    ensures i < |chunks| ==> |Flatten(chunks[..i])| + |chunks[i]| <= |Flatten(chunks)|
  {
    assert chunks == chunks[..i] + chunks[i..];
    FlattenConcat(chunks[..i], chunks[i..]);
    if i < |chunks| {
      assert chunks[..i + 1] == chunks[..i] + [chunks[i]];
      FlattenSnoc(chunks[..i], chunks[i]);
    }
  }

  lemma FlatSplit(chunks: seq<Bytes>, i: nat)
    requires i <= |chunks|
    ensures Flatten(chunks[..i]) + Flatten(chunks[i..]) == Flatten(chunks)
  {
    assert chunks == chunks[..i] + chunks[i..];
    FlattenConcat(chunks[..i], chunks[i..]);
  }

  lemma StreamedCleanly(s1: BlockState, s2: BlockState, flags1: seq<bool>, flags2: seq<bool>)
    requires AllOfSize(s1.out, BLOCK_SIZE) && |s1.pending| < BLOCK_SIZE
    requires CloseStep(s1, true, s2)
    requires |flags1| == |s1.out| && |flags2| == |s2.out|
    requires FlagsAdded([], flags1, false) && FlagsAdded(flags1, flags2, true)
    ensures s2 == BlockState(Cut(Stream(s1), BLOCK_SIZE), [])
    ensures flags2 == CutFlags(Stream(s1), BLOCK_SIZE)
  {
    BlocksUnique(s1.out, s1.pending, BLOCK_SIZE);
    assert flags1 == seq(|s1.out|, _ => false);
    assert flags2 == flags1 + if s1.pending == [] then [] else [true];
  }

  lemma CloseKeepsStream(s: BlockState, closed: bool, s': BlockState, rest: Bytes)
    requires CloseStep(s, closed, s')
    ensures Flatten(s'.out) + (s'.pending + rest) == Stream(s) + rest
  {
    FlattenSnoc(s.out, s.pending);
  }

  /** The chunks behind the one whose Write failed; none if all were written. */
  function After(chunks: seq<Bytes>, failed: nat): seq<Bytes> {
    if failed < |chunks| then chunks[failed + 1..] else []
  }

  lemma FailedAt(chunks: seq<Bytes>, i: nat)
    requires i < |chunks|
    ensures Flatten(chunks[..i]) + chunks[i] + Flatten(After(chunks, i)) == Flatten(chunks)
  {
    FlatLength(chunks, i);
    FlatSplit(chunks, i + 1);
  }

  lemma NoneFailed(chunks: seq<Bytes>)
    ensures chunks[..|chunks|] == chunks
    ensures Flatten(chunks) + Flatten(After(chunks, |chunks|)) == Flatten(chunks)
  {
  }

  /** One more Write on a stream that has gone in without failure so far. */
  method WriteChunk(sink: BlockSinkEncoder, chunk: Bytes, ghost before: Bytes) returns (written: bool)
    requires sink.Valid() && HashSized(sink.sender.env)
    requires sink.clean && Streaming(sink.State(), Finals(sink.history), before)
    requires |before| + |chunk| < TWO_TO_63 - TAG_SIZE
    modifies sink, sink.net, sink.uuids, sink.blockKey
    ensures sink.Valid() && sink.start == old(sink.start) && sink.clean == written
    ensures sink.Faults() >= old(sink.Faults()) && (written <==> sink.Faults() == old(sink.Faults()))
    ensures old(sink.net.sent) <= sink.net.sent
    ensures Stream(sink.State()) == before + chunk
    ensures written ==> Streaming(sink.State(), Finals(sink.history), before + chunk)
  {
    ghost var s, flags := sink.State(), Finals(sink.history);
    var n;
    n, written := sink.Write(chunk);
    if written {
      StreamingMore(s, sink.State(), flags, Finals(sink.history), before, chunk);
    }
  }

  /**
   The archiver's Writes on its destination, up to the one that fails; errors from number
   `reported` on are dropped.
   */
  method WriteChunks(sink: BlockSinkEncoder, chunks: seq<Bytes>, reported: nat)
    returns (ok: bool, ghost failed: nat)
    requires sink.Valid() && HashSized(sink.sender.env)
    requires sink.State() == BlockState([], []) && Finals(sink.history) == [] && sink.clean
    requires |Flatten(chunks)| < TWO_TO_63 - TAG_SIZE
    modifies sink, sink.net, sink.uuids, sink.blockKey
    ensures sink.Valid() && sink.start == old(sink.start)
    ensures sink.Faults() >= old(sink.Faults()) && (sink.clean <==> sink.Faults() == old(sink.Faults()))
    ensures old(sink.net.sent) <= sink.net.sent
    ensures failed <= |chunks| && (sink.clean <==> failed == |chunks|)
    ensures ok <==> failed == |chunks| || reported <= failed
    ensures Stream(sink.State()) + Flatten(After(chunks, failed)) == Flatten(chunks)
    ensures sink.clean ==> Streaming(sink.State(), Finals(sink.history), Flatten(chunks))
  {
    var i := 0;
    while i < |chunks|
      invariant i <= |chunks|
      invariant sink.Valid() && sink.start == old(sink.start) && sink.Faults() == old(sink.Faults())
      invariant old(sink.net.sent) <= sink.net.sent
      invariant sink.clean && Streaming(sink.State(), Finals(sink.history), Flatten(chunks[..i]))
    {
      FlatLength(chunks, i);
      var written := WriteChunk(sink, chunks[i], Flatten(chunks[..i]));
      if !written {
        FailedAt(chunks, i);
        return i >= reported, i;
      }
      i := i + 1;
    }
    NoneFailed(chunks);
    return true, i;
  }

  /**
   The archiver's calls on its destination. Like the last Writes, Close is deferred and
   its error dropped, so `ok` does not mean that everything went out. With `ownError` the
   archiver itself gives up on reading a file; `chunks` are then what it wrote up to there
   and what its deferred calls still wrote.
   */
  method ArchiveStream(sink: BlockSinkEncoder, chunks: seq<Bytes>, reported: nat, ownError: bool)
    returns (ok: bool, ghost failed: nat, ghost closed: bool)
    requires sink.Valid() && HashSized(sink.sender.env)
    requires sink.State() == BlockState([], []) && Finals(sink.history) == [] && sink.clean
    requires |Flatten(chunks)| < TWO_TO_63 - TAG_SIZE
    modifies sink, sink.net, sink.uuids, sink.blockKey
    ensures sink.Valid() && sink.start == old(sink.start)
    ensures sink.Faults() >= old(sink.Faults()) && (sink.clean <==> sink.Faults() == old(sink.Faults()))
    ensures old(sink.net.sent) <= sink.net.sent
    ensures failed <= |chunks| && (closed <==> sink.blockBuf == [])
    ensures sink.clean <==> failed == |chunks| && closed
    ensures ok <==> !ownError && (failed == |chunks| || reported <= failed)
    ensures Flatten(Plain(sink.history)) + (sink.blockBuf + Flatten(After(chunks, failed))) == Flatten(chunks)
    ensures sink.clean ==> Plain(sink.history) == Cut(Flatten(chunks), BLOCK_SIZE)
    ensures sink.clean ==> Finals(sink.history) == CutFlags(Flatten(chunks), BLOCK_SIZE)
  {
    ok, failed := WriteChunks(sink, chunks, reported);
    ok := ok && !ownError;
    ghost var s, flags := sink.State(), Finals(sink.history);
    var closeOk := sink.Close();
    closed := closeOk;
    CloseKeepsStream(s, closed, sink.State(), Flatten(After(chunks, failed)));
    if sink.clean {
      StreamedCleanly(s, sink.State(), flags, Finals(sink.history));
    }
  }

  /** x has gone in without failure: full blocks out, the rest pending, nothing final yet. */
  predicate Streaming(s: BlockState, flags: seq<bool>, x: Bytes) {
    && AllOfSize(s.out, BLOCK_SIZE) && |s.pending| < BLOCK_SIZE && Stream(s) == x
    && FlagsAdded([], flags, false)
  }

  lemma StreamingMore(s: BlockState, s': BlockState, flags: seq<bool>, flags': seq<bool>, x: Bytes, p: Bytes)
    requires Streaming(s, flags, x)
    requires EncoderStep(BLOCK_SIZE, s, Wrote(p, |p|, true), s') && FlagsAdded(flags, flags', false)
    ensures Streaming(s', flags', x + p)
  {
  }

  /* ---- The whole of CreateAndSendCapsule ---- */

  datatype CreateError = SplitFailed | TooFewGuardians | ArchiveFailed | ManifestNotSent | ShareNotSent

  datatype CreateResult = Created | NotCreated(error: CreateError)

  /**
   What a run put on the wire, and why. `chunks` are the archiver's writes, `failed` the
   number of the one that failed, `closed` what the last Close returned and `left` the
   bytes it left in the buffer.
   */
  datatype CapsuleLog = CapsuleLog(
    sender: Sender, threshold: nat, shares: seq<Bytes>,
    oks: seq<bool>, reached: seq<bool>, announcement: Msg,
    blocks: seq<BlockManifest>, history: seq<SentBlock>, parts: seq<seq<Delivery>>,
    body: seq<Delivery>, clean: bool,
    chunks: seq<Bytes>, failed: nat, closed: bool, left: Bytes)

  /** The part of the stream that no block holds. */
  function Unsent(log: CapsuleLog): Bytes {
    log.left + Flatten(After(log.chunks, log.failed))
  }

  /** The last Close did not fail, and there was nothing to write behind a failed Write. */
  predicate NothingLost(log: CapsuleLog) {
    log.closed && forall j :: log.failed < j < |log.chunks| ==> log.chunks[j] == []
  }

  lemma {:induction false} FlattenIsEmpty(parts: seq<Bytes>)
    ensures Flatten(parts) == [] <==> forall j :: 0 <= j < |parts| ==> parts[j] == []
  {
    if parts != [] {
      FlattenIsEmpty(parts[1..]);
      assert forall j :: 1 <= j < |parts| ==> parts[j] == parts[1..][j - 1];
      assert |Flatten(parts)| == |parts[0]| + |Flatten(parts[1..])|;
    }
  }

  /** Bytes stay unsent exactly if the dropped Close failed or writes were left behind a failed one. */
  lemma UnsentExactly(log: CapsuleLog)
    requires log.closed <==> log.left == []
    ensures Unsent(log) == [] <==> NothingLost(log)
  {
    FlattenIsEmpty(After(log.chunks, log.failed));
    assert |Unsent(log)| == |log.left| + |Flatten(After(log.chunks, log.failed))|;
    if log.failed < |log.chunks| {
      var rest := After(log.chunks, log.failed);
      assert forall j :: log.failed < j < |log.chunks| ==> log.chunks[j] == rest[j - log.failed - 1];
      assert forall j :: 0 <= j < |rest| ==> rest[j] == log.chunks[j + log.failed + 1];
    }
  }

  function Announcement(capsuleID: Uuid, guardians: seq<Peer>, silencePeriod: int, shares: seq<Bytes>): Msg
    requires shares != []
  {
    IncomingStream(capsuleID, seq(|guardians|, i requires 0 <= i < |guardians| => guardians[i].id),
                   silencePeriod, MAX_SHARD_SIZE % 0x1_0000, |shares[0]| % 0x100)
  }

  function ManifestPacket(log: CapsuleLog): Packet {
    Packet(ManifestStream(log.sender.capsuleID, |log.blocks|, log.blocks), [])
  }

  /** Everything up to the last block. */
  function UpToBody(sent0: seq<Delivery>, guardians: seq<Peer>, log: CapsuleLog): seq<Delivery>
    requires |guardians| == |log.reached|
  {
    sent0 + Reached(guardians, log.reached, Packet(log.announcement, [])) + log.body
  }

  /** Manifest and key shares, to all active guardians. */
  function Closing(log: CapsuleLog): seq<Delivery>
    requires |log.sender.peers| <= |log.shares|
  {
    ToAll(log.sender.peers, ManifestPacket(log)) +
    KeyDeliveries(log.sender.peers, KeyMsg(log.sender.capsuleID, |log.shares|, log.threshold), log.shares)
  }

  /** The announcement tells the guardian list and the sizes of shards and key shares to come. */
  predicate Announces(log: CapsuleLog, guardians: seq<Peer>) {
    && log.shares != [] && log.announcement.IncomingStream?
    && log.announcement == Announcement(log.sender.capsuleID, guardians, log.announcement.silencePeriod, log.shares)
  }

  /** The message tells the ids of these guardians, in their order, and the capsule's id and grace period. */
  predicate Tells(m: Msg, capsuleID: Uuid, guardians: seq<Peer>, silencePeriod: int) {
    && m.IncomingStream? && m.capsuleID == capsuleID && m.silencePeriod == silencePeriod
    && |m.guardianIDs| == |guardians|
    && forall i :: 0 <= i < |guardians| ==> m.guardianIDs[i] == guardians[i].id
  }

  /** It announces shards of 19418 bytes and key shares of their real size, as far as one byte holds it. */
  predicate TellsSizes(m: Msg, shares: seq<Bytes>) {
    m.IncomingStream? && m.shardSize == 19418 && shares != [] && m.keyShareSize == |shares[0]| % 256
  }

  lemma AnnouncementIs(capsuleID: Uuid, guardians: seq<Peer>, silencePeriod: int, shares: seq<Bytes>)
    requires shares != []
    ensures Tells(Announcement(capsuleID, guardians, silencePeriod, shares), capsuleID, guardians, silencePeriod)
    ensures TellsSizes(Announcement(capsuleID, guardians, silencePeriod, shares), shares)
  {
    SmallMod(MAX_SHARD_SIZE, 0x1_0000);
  }

  lemma AnnouncementTells(log: CapsuleLog, guardians: seq<Peer>)
    requires Announces(log, guardians)
    ensures Tells(log.announcement, log.sender.capsuleID, guardians, log.announcement.silencePeriod)
    ensures TellsSizes(log.announcement, log.shares)
  {
    SmallMod(MAX_SHARD_SIZE, 0x1_0000);
  }

  /** What the manifest and key share messages of a run tell. */
  lemma ClosingTells(log: CapsuleLog)
    ensures var m := ManifestPacket(log).msg;
            m.ManifestStream? && m.capsuleID == log.sender.capsuleID && m.totalBlocks == |log.blocks| && m.blocks == log.blocks
    ensures |log.shares| < 65536 && log.threshold < 256 ==>
              KeyMsg(log.sender.capsuleID, |log.shares|, log.threshold) ==
              KeyShare(log.sender.capsuleID, |log.shares|, log.threshold)
  {
    if |log.shares| < 65536 && log.threshold < 256 {
      SmallMod(|log.shares|, 0x1_0000);
      SmallMod(log.threshold, 0x100);
    }
  }

  /** The blocks of the stream x went out behind the announcement, up to a failure. */
  ghost predicate Streamed(log: CapsuleLog, guardians: seq<Peer>, x: Bytes, sent0: seq<Delivery>, known: set<Uuid>) {
    && |log.reached| == |guardians| && x == Flatten(log.chunks)
    && Describes(log.sender, log.blocks, log.history, log.parts)
    && GroupsKept(UpToBody(sent0, guardians, log), Groups(log.history), log.parts, known)
    && Flatten(Plain(log.history)) + Unsent(log) == x
    && log.failed <= |log.chunks| && (log.closed <==> log.left == [])
    && (log.clean <==> log.failed == |log.chunks| && log.closed)
    && (log.clean ==>
          && log.body == Flatten(log.parts)
          && Plain(log.history) == Cut(x, BLOCK_SIZE)
          && Finals(log.history) == CutFlags(x, BLOCK_SIZE))
  }

  /** Where a run breaks off that reached enough guardians. */
  ghost predicate BrokenOff(log: CapsuleLog, guardians: seq<Peer>, error: CreateError,
                            sent0: seq<Delivery>, sent1: seq<Delivery>)
  {
    && |log.reached| == |guardians| && |log.sender.peers| <= |log.shares|
    && var upTo, manifests := UpToBody(sent0, guardians, log), ToAll(log.sender.peers, ManifestPacket(log));
       match error
       case SplitFailed => false
       case TooFewGuardians => false
       case ArchiveFailed => sent1 == upTo
       case ManifestNotSent => upTo <= sent1 <= upTo + manifests
       case ShareNotSent => upTo + manifests <= sent1 <= upTo + Closing(log)
  }

  /** A successful run over the stream x, from what was sent before to what is sent now. */
  ghost predicate Distributed(log: CapsuleLog, guardians: seq<Peer>, minGuardians: nat, x: Bytes,
                              sent0: seq<Delivery>, sent1: seq<Delivery>, known: set<Uuid>)
  {
    && |log.oks| == |guardians| == |log.shares| && Covers(log.reached, log.oks)
    && Announces(log, guardians)
    && log.sender.peers == Kept(guardians, log.oks)
    && minGuardians <= |log.sender.peers| <= |guardians|
    && IsSharing(log.sender.env, log.sender.masterKey, |guardians|, log.threshold, log.shares)
    && Streamed(log, guardians, x, sent0, known)
    && sent1 == UpToBody(sent0, guardians, log) + Closing(log)
  }

  lemma {:induction false} AnnouncingKeepsGroups(sent: seq<Delivery>, known: set<Uuid>, peers: seq<Peer>,
                                                 reached: seq<bool>, packet: Packet)
    requires IdsKnown(sent, known) && |peers| == |reached| && packet.msg.IncomingStream?
    ensures IdsKnown(sent + Reached(peers, reached, packet), known)
  {
    if peers == [] {
      assert sent + Reached(peers, reached, packet) == sent;
    } else {
      var n := |peers| - 1;
      AnnouncingKeepsGroups(sent, known, peers[..n], reached[..n], packet);
      var last := if reached[n] then [Delivery(peers[n], packet)] else [];
      assert sent + Reached(peers, reached, packet) == sent + Reached(peers[..n], reached[..n], packet) + last;
    }
  }

  /** What the owner's run over the blocks leaves behind, by name. */
  lemma BodySent(sent0: seq<Delivery>, guardians: seq<Peer>, log: CapsuleLog, before: seq<Delivery>, now: seq<Delivery>)
    requires |guardians| == |log.reached| && before <= now
    requires before == sent0 + Reached(guardians, log.reached, Packet(log.announcement, []))
    requires log.body == now[|before|..]
    ensures now == UpToBody(sent0, guardians, log)
  {
  }

  predicate NoShards(ds: seq<Delivery>) {
    forall i :: 0 <= i < |ds| ==> !ds[i].packet.msg.ShardStream?
  }

  /** The manifest to everybody, then everybody's key share. */
  method SendClosing(peers: seq<Peer>, net: Network, manifest: Msg, capsuleID: Uuid, threshold: nat, shares: seq<Bytes>)
    returns (failure: Option<CreateError>)
    requires |peers| <= |shares| && !manifest.ShardStream?
    modifies net
    ensures Failures(net.outcomes) >= old(Failures(net.outcomes))
    ensures failure in {None, Some(ManifestNotSent), Some(ShareNotSent)}
    ensures failure == None <==> Failures(net.outcomes) == old(Failures(net.outcomes))
    ensures old(net.sent) <= net.sent && NoShards(net.sent[|old(net.sent)|..])
    ensures var manifests := ToAll(peers, Packet(manifest, []));
            var keys := KeyDeliveries(peers, KeyMsg(capsuleID, |shares|, threshold), shares);
            && (failure == None ==> net.sent == old(net.sent) + (manifests + keys))
            && (failure == Some(ManifestNotSent) ==> net.sent <= old(net.sent) + manifests)
            && (failure == Some(ShareNotSent) ==>
                  old(net.sent) + manifests <= net.sent <= old(net.sent) + (manifests + keys))
  {
    var manifestSent := SendManifest(peers, net, manifest);
    if !manifestSent {
      return Some(ManifestNotSent);
    }
    var sharesSent := SendShares(peers, net, capsuleID, threshold, shares);
    failure := if sharesSent then None else Some(ShareNotSent);
    ghost var manifests := ToAll(peers, Packet(manifest, []));
    ghost var keys := KeyDeliveries(peers, KeyMsg(capsuleID, |shares|, threshold), shares);
    assert old(net.sent) + (manifests + keys) == old(net.sent) + manifests + keys;
  }

  /** After the announcement: the blocks, then manifest and key shares. */
  method SendCapsule(sender: Sender, net: Network, uuids: IdSource, threshold: nat, shares: seq<Bytes>,
                     chunks: seq<Bytes>, reported: nat, ownError: bool, ghost log0: CapsuleLog,
                     ghost guardians: seq<Peer>, ghost sent0: seq<Delivery>)
    returns (failure: Option<CreateError>, ghost log: CapsuleLog)
    requires HashSized(sender.env) && 0 < |sender.peers| <= |shares|
    requires |Flatten(chunks)| < TWO_TO_63 - TAG_SIZE
    requires IdsKnown(net.sent, uuids.drawn)
    requires |guardians| == |log0.reached| && log0.sender == sender && log0.threshold == threshold && log0.shares == shares
    requires net.sent == sent0 + Reached(guardians, log0.reached, Packet(log0.announcement, []))
    modifies net, uuids
    ensures failure in {None, Some(ArchiveFailed), Some(ManifestNotSent), Some(ShareNotSent)}
    ensures Failures(net.outcomes) + uuids.faults >= old(Failures(net.outcomes) + uuids.faults)
    ensures failure == None && log.clean <==>
              !ownError && Failures(net.outcomes) + uuids.faults == old(Failures(net.outcomes) + uuids.faults)
    ensures log == log0.(blocks := log.blocks, history := log.history, parts := log.parts, body := log.body,
                         clean := log.clean, chunks := chunks, failed := log.failed, closed := log.closed, left := log.left)
    ensures failure == Some(ArchiveFailed) <==> ownError || (log.failed < |chunks| && log.failed < reported)
    ensures Streamed(log, guardians, Flatten(chunks), sent0, uuids.drawn) && IdsKnown(net.sent, uuids.drawn)
    ensures failure == None ==> net.sent == UpToBody(sent0, guardians, log) + Closing(log)
    ensures failure != None ==> BrokenOff(log, guardians, failure.value, sent0, net.sent)
  {
    ghost var sent1 := net.sent;
    var sink := new BlockSinkEncoder(sender, net, uuids);
    var archived;
    ghost var failed, closed;
    archived, failed, closed := ArchiveStream(sink, chunks, reported, ownError);
    log := log0.(blocks := sink.blocks, history := sink.history, parts := sink.parts, body := net.sent[|sent1|..],
                 clean := sink.clean, chunks := chunks, failed := failed, closed := closed, left := sink.blockBuf);
    BodySent(sent0, guardians, log, sent1, net.sent);
    if !archived {
      return Some(ArchiveFailed), log;
    }
    ghost var upTo := net.sent;
    failure := SendClosing(sender.peers, net, ManifestStream(sender.capsuleID, sink.totalBlocks, sink.blocks),
                           sender.capsuleID, threshold, shares);
    OtherTraffic(upTo, uuids.drawn, net.sent[|upTo|..]);
    assert upTo + net.sent[|upTo|..] == net.sent;
  }

  /**
   The outcome: too few guardians exactly when the announcement got through to too few;
   otherwise the run is created and clean exactly when no call failed after it.
   */
  ghost predicate Decided(result: CreateResult, log: CapsuleLog, guardians: seq<Peer>, minGuardians: nat,
                          before: seq<bool>, after: seq<bool>, otherFaults: int)
  {
    && |log.oks| == |guardians|
    && var enough := |Kept(guardians, log.oks)| >= minGuardians;
       && (result == NotCreated(TooFewGuardians) <==> !enough)
       && (!enough ==> after == before + log.oks)
       && (enough ==> (result == Created && log.clean <==> Failures(after) + otherFaults == Failures(before + log.oks)))
  }

  /** What a run has sent that did not succeed. */
  ghost predicate Abandoned(log: CapsuleLog, error: CreateError, guardians: seq<Peer>, x: Bytes,
                            sent0: seq<Delivery>, sent1: seq<Delivery>, known: set<Uuid>)
  {
    match error
    case SplitFailed => sent1 == sent0
    case TooFewGuardians =>
      |log.reached| == |guardians| && sent1 == sent0 + Reached(guardians, log.reached, Packet(log.announcement, []))
    case _ => Streamed(log, guardians, x, sent0, known) && BrokenOff(log, guardians, error, sent0, sent1)
  }

  method CreateAndSendCapsule(env: Env, net: Network, uuids: IdSource, guardians: array<Peer>, minGuardians: nat,
                              threshold: nat, silencePeriod: int, masterKey: Bytes, coins: nat,
                              chunks: seq<Bytes>, reported: nat, ownError: bool)
    returns (result: CreateResult, ghost log: CapsuleLog)
    requires HashSized(env) && ValidSharing(env)
    requires 3 <= minGuardians <= guardians.Length
    requires |Flatten(chunks)| < TWO_TO_63 - TAG_SIZE
    requires IdsKnown(net.sent, uuids.drawn)
    modifies guardians, net, uuids
    ensures result == Created ==>
              Distributed(log, old(guardians[..]), minGuardians, Flatten(chunks), old(net.sent), net.sent, uuids.drawn)
    ensures result.NotCreated? ==>
              Abandoned(log, result.error, old(guardians[..]), Flatten(chunks), old(net.sent), net.sent, uuids.drawn)
    ensures IdsKnown(net.sent, uuids.drawn)
    ensures result == Created ==> log.sender.env == env && log.sender.masterKey == masterKey && log.threshold == threshold
    ensures result == Created ==> log.sender.capsuleID !in old(uuids.drawn) && log.chunks == chunks
    ensures result == Created ==> env.split(masterKey, guardians.Length, threshold, coins) == Some(log.shares)
    ensures result == Created ==>
              Tells(log.announcement, log.sender.capsuleID, old(guardians[..]), silencePeriod) &&
              TellsSizes(log.announcement, log.shares)
    ensures result == NotCreated(SplitFailed) ==> guardians[..] == old(guardians[..])
    ensures result == Created ==> guardians[..|log.sender.peers|] == log.sender.peers
    ensures result == NotCreated(SplitFailed) <==> env.split(masterKey, guardians.Length, threshold, coins).None?
    ensures result != NotCreated(SplitFailed) ==>
              Decided(result, log, old(guardians[..]), minGuardians, old(net.outcomes), net.outcomes,
                      uuids.faults - old(uuids.faults) + if ownError then 1 else 0)
  {
    ghost var all, sent0 := guardians[..], net.sent;
    log := *;
    var capsuleID := uuids.New();
    assert IdsKnown(net.sent, uuids.drawn) by {
      KnownMore(net.sent, old(uuids.drawn), uuids.drawn);
    }
    var split := env.split(masterKey, guardians.Length, threshold, coins);
    if split.None? {
      return NotCreated(SplitFailed), log;
    }
    var shares := split.value;
    var announcement := Announcement(capsuleID, guardians[..], silencePeriod, shares);
    AnnouncementIs(capsuleID, guardians[..], silencePeriod, shares);
    var active;
    ghost var oks, reached;
    active, oks, reached := Announce(guardians, net, announcement);
    var peers := guardians[..active];
    log := CapsuleLog(Sender(env, capsuleID, masterKey, peers), threshold, shares, oks, reached, announcement,
                      [], [], [], [], true, chunks, 0, true, []);
    AnnouncingKeepsGroups(sent0, uuids.drawn, all, reached, Packet(announcement, []));
    if minGuardians > active {
      return NotCreated(TooFewGuardians), log;
    }
    var failure;
    failure, log := SendCapsule(Sender(env, capsuleID, masterKey, peers), net, uuids, threshold, shares,
                                chunks, reported, ownError, log, all, sent0);
    result := if failure == None then Created else NotCreated(failure.value);
  }
}
