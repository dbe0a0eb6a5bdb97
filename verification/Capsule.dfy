/**
 The capsule pipeline's data: messages, the network between the owner and the
 guardians, what one block looks like on the wire, and the parties' outside world
 (cipher, hash, erasure code, score) as abstract functions with narrow contracts.
 */
module Capsule {
  import opened Basics
  import opened Erasure
  import opened Placement

  const NONCE_SIZE: nat := 12
  const KEY_SIZE: nat := 32

  /* ---- Outside world ---- */

  /**
   `encrypt` and `decrypt` take key, nonce, data; `erasure` is the encoder's erasureFunc;
   `split` takes secret, parts, threshold and the coins it tosses.
   */
  datatype Env = Env(
    code: Code,
    erasure: Bytes -> seq<Bytes>,
    hash: Bytes -> Bytes,
    encrypt: (Bytes, Bytes, Bytes) -> Bytes,
    decrypt: (Bytes, Bytes, Bytes) -> Option<Bytes>,
    split: (Bytes, nat, nat, nat) -> Option<seq<Bytes>>,
    combine: seq<Bytes> -> Option<Bytes>,
    score: Score)

  /** AES-GCM: decryption inverts encryption, and the sealed text carries a 16-byte tag. */
  ghost predicate ValidEnv(env: Env) {
    && ValidCode(env.code) && HashSized(env)
    && (forall d {:trigger env.erasure(d)} :: |d| < TWO_TO_63 ==> env.erasure(d) == Shards(env.code, d))
    && (forall key, nonce, d {:trigger env.encrypt(key, nonce, d)} :: |key| == KEY_SIZE && |nonce| == NONCE_SIZE ==>
          && env.decrypt(key, nonce, env.encrypt(key, nonce, d)) == Some(d)
          && |env.encrypt(key, nonce, d)| == |d| + TAG_SIZE)
  }

  ghost predicate HashSized(env: Env) {
    forall x {:trigger env.hash(x)} :: |env.hash(x)| == 32
  }

  function Select(shares: seq<Bytes>, at: seq<nat>): (r: seq<Bytes>)
    requires forall i :: 0 <= i < |at| ==> at[i] < |shares|
  {
    seq(|at|, i requires 0 <= i < |at| => shares[at[i]])
  }

  /**
   `parts` shares, one byte longer than the secret. Distinct ones combine to the secret if
   they are `threshold` many, and only then.
   */
  ghost predicate IsSharing(env: Env, secret: Bytes, parts: nat, threshold: nat, shares: seq<Bytes>) {
    && |shares| == parts
    && (forall i :: 0 <= i < parts ==> |shares[i]| == |secret| + 1)
    && (forall at: seq<nat> {:trigger Select(shares, at)} ::
          Distinct(at) && (forall i :: 0 <= i < |at| ==> at[i] < parts) ==>
          (env.combine(Select(shares, at)) == Some(secret) <==> |at| >= threshold))
  }

  ghost predicate ValidSharing(env: Env) {
    forall secret, parts, threshold, coins {:trigger env.split(secret, parts, threshold, coins)} ::
      var r := env.split(secret, parts, threshold, coins);
      r.Some? ==> IsSharing(env, secret, parts, threshold, r.value)
  }

  /* ---- Messages ---- */

  datatype BlockManifest = BlockManifest(repairGroupID: Uuid, dataShardNum: nat, parityShardNum: nat)

  datatype Msg =
    | IncomingStream(capsuleID: Uuid, guardianIDs: seq<Uuid>, silencePeriod: int, shardSize: nat, keyShareSize: nat)
    | ShardStream(shardID: Uuid, capsuleID: Uuid, repairGroupID: Uuid, nonce: Bytes,
                  dataShardNum: nat, parityShardNum: nat, size: nat, isFinal: bool)
    | ManifestStream(capsuleID: Uuid, totalBlocks: nat, blocks: seq<BlockManifest>)
    | KeyShare(capsuleID: Uuid, totalShares: nat, thresholdShares: nat)

  /** A message with the bytes that follow it; [] where the source passes nil. */
  datatype Packet = Packet(msg: Msg, data: Bytes)

  datatype Delivery = Delivery(to: Peer, packet: Packet)

  /** What one guardian gets, in order: its connection is a FIFO. */
  function Inbox(sent: seq<Delivery>, p: Peer): seq<Packet> {
    if sent == [] then [] else
    var last := sent[|sent| - 1];
    Inbox(sent[..|sent| - 1], p) + if last.to == p then [last.packet] else []
  }

  predicate InGroup(d: Delivery, g: Uuid) {
    d.packet.msg.ShardStream? && d.packet.msg.repairGroupID == g
  }

  /** The shards of one repair group among everything sent. */
  function GroupOf(sent: seq<Delivery>, g: Uuid): seq<Delivery> {
    if sent == [] then [] else
    var last := sent[|sent| - 1];
    GroupOf(sent[..|sent| - 1], g) + if InGroup(last, g) then [last] else []
  }

  lemma {:induction false} InboxConcat(a: seq<Delivery>, b: seq<Delivery>, p: Peer)
    ensures Inbox(a + b, p) == Inbox(a, p) + Inbox(b, p)
  {
    if b == [] {
      assert a + b == a;
    } else {
      assert (a + b)[..|a + b| - 1] == a + b[..|b| - 1];
      InboxConcat(a, b[..|b| - 1], p);
    }
  }

  lemma {:induction false} GroupConcat(a: seq<Delivery>, b: seq<Delivery>, g: Uuid)
    ensures GroupOf(a + b, g) == GroupOf(a, g) + GroupOf(b, g)
  {
    if b == [] {
      assert a + b == a;
    } else {
      assert (a + b)[..|a + b| - 1] == a + b[..|b| - 1];
      GroupConcat(a, b[..|b| - 1], g);
    }
  }

  lemma {:induction false} GroupAllOrNone(ds: seq<Delivery>, g: Uuid)
    ensures (forall i :: 0 <= i < |ds| ==> InGroup(ds[i], g)) ==> GroupOf(ds, g) == ds
    ensures (forall i :: 0 <= i < |ds| ==> !InGroup(ds[i], g)) ==> GroupOf(ds, g) == []
  {
    if ds != [] {
      GroupAllOrNone(ds[..|ds| - 1], g);
    }
  }

  predicate Occurs(ds: seq<Delivery>, packet: Packet) {
    exists j :: 0 <= j < |ds| && ds[j].packet == packet
  }

  lemma {:induction false} InboxMembers(ds: seq<Delivery>, p: Peer)
    ensures forall i :: 0 <= i < |Inbox(ds, p)| ==> Occurs(ds, Inbox(ds, p)[i])
  {
    if ds != [] {
      var n := |ds| - 1;
      var before := Inbox(ds[..n], p);
      InboxMembers(ds[..n], p);
      forall i | 0 <= i < |Inbox(ds, p)| ensures Occurs(ds, Inbox(ds, p)[i]) {
        if i < |before| {
          assert Inbox(ds, p)[i] == before[i];
          var j :| 0 <= j < n && ds[..n][j].packet == before[i];
          assert ds[j].packet == before[i];
        } else {
          assert ds[n].packet == Inbox(ds, p)[i];
        }
      }
    }
  }

  /* ---- One block on the wire ---- */

  /** The master key followed by the 8-byte block id. */
  function KeyPreimage(masterKey: Bytes, blockID: nat): Bytes {
    masterKey + BigEndian(blockID, 8)
  }

  function BlockKey(env: Env, masterKey: Bytes, blockID: nat): Bytes {
    env.hash(KeyPreimage(masterKey, blockID))
  }

  /** The master key first, then 8 bytes that tell the block id modulo 2^64. */
  predicate IsPreimage(pre: Bytes, masterKey: Bytes, blockID: nat) {
    && |pre| == |masterKey| + 8 && pre[..|masterKey|] == masterKey
    && FromBigEndian(pre[|masterKey|..]) == blockID % TWO_TO_64
  }

  lemma KeyPreimageIs(masterKey: Bytes, blockID: nat)
    ensures IsPreimage(KeyPreimage(masterKey, blockID), masterKey, blockID)
  {
    WideEnough();
    BigEndianRoundTrip(blockID, 8);
    assert KeyPreimage(masterKey, blockID)[|masterKey|..] == BigEndian(blockID, 8);
  }

  /** There is no other such preimage. */
  lemma PreimageUnique(pre: Bytes, masterKey: Bytes, blockID: nat)
    requires IsPreimage(pre, masterKey, blockID)
    ensures pre == KeyPreimage(masterKey, blockID)
  {
    KeyPreimageIs(masterKey, blockID);
    var a, b := pre[|masterKey|..], KeyPreimage(masterKey, blockID)[|masterKey|..];
    BigEndianOnto(a);
    BigEndianOnto(b);
    assert pre == pre[..|masterKey|] + a;
    assert KeyPreimage(masterKey, blockID) == KeyPreimage(masterKey, blockID)[..|masterKey|] + b;
  }

  /** Preimages are the same exactly for the same master key and block ids that agree modulo 2^64. */
  lemma KeyPreimagesDistinct(masterKey: Bytes, masterKey': Bytes, i: nat, j: nat)
    ensures KeyPreimage(masterKey, i) == KeyPreimage(masterKey', j) <==>
            masterKey == masterKey' && i % TWO_TO_64 == j % TWO_TO_64
  {
    KeyPreimageIs(masterKey, i);
    KeyPreimageIs(masterKey', j);
    if masterKey == masterKey' && i % TWO_TO_64 == j % TWO_TO_64 {
      PreimageUnique(KeyPreimage(masterKey, i), masterKey', j);
    }
  }

  /** The capsule a sender works on. */
  datatype Sender = Sender(env: Env, capsuleID: Uuid, masterKey: Bytes, peers: seq<Peer>)

  /** One processed block, with what was drawn for it and the shards it became. */
  datatype SentBlock = SentBlock(plain: Bytes, isFinal: bool, nonce: Bytes, group: Uuid,
                                 shardIDs: seq<Uuid>, shards: seq<Bytes>)

  function Sealed(s: Sender, blockID: nat, plain: Bytes, nonce: Bytes): Bytes {
    s.env.encrypt(BlockKey(s.env, s.masterKey, blockID), nonce, plain)
  }

  function ShardDelivery(s: Sender, blockID: nat, i: nat, shardID: Uuid, group: Uuid, nonce: Bytes,
                         isFinal: bool, shard: Bytes): Delivery
    requires s.peers != []
  {
    Delivery(
      Pick(s.env.score, blockID, i, s.peers),
      Packet(ShardStream(shardID, s.capsuleID, group, nonce,
                         s.env.code.k % 256, s.env.code.m % 256, |shard| % TWO_TO_32, isFinal), shard))
  }

  predicate HasIDs(b: SentBlock) {
    |b.shardIDs| == |b.shards|
  }

  /** The block's shards are the erasure code of its sealed bytes, under the key of its number. */
  predicate ValidBlock(s: Sender, blockID: nat, b: SentBlock) {
    && HasIDs(b)
    && |b.nonce| == NONCE_SIZE
    && |b.plain| < TWO_TO_63 - TAG_SIZE
    && b.shards == s.env.erasure(Sealed(s, blockID, b.plain, b.nonce))
  }

  /** All shards of a block, each to the peer the placement picks. */
  function BlockDeliveries(s: Sender, blockID: nat, b: SentBlock): (ds: seq<Delivery>)
    requires s.peers != [] && HasIDs(b)
  {
    seq(|b.shards|, i requires 0 <= i < |b.shards| =>
      ShardDelivery(s, blockID, i, b.shardIDs[i], b.group, b.nonce, b.isFinal, b.shards[i]))
  }

  function Plain(h: seq<SentBlock>): (r: seq<Bytes>)
    ensures |r| == |h|
    ensures forall j :: 0 <= j < |h| ==> r[j] == h[j].plain
  {
    seq(|h|, j requires 0 <= j < |h| => h[j].plain)
  }

  function Finals(h: seq<SentBlock>): (r: seq<bool>)
    ensures |r| == |h|
    ensures forall j :: 0 <= j < |h| ==> r[j] == h[j].isFinal
  {
    seq(|h|, j requires 0 <= j < |h| => h[j].isFinal)
  }

  /** Blocks were only added, all of them marked `flag`. */
  predicate FlagsAdded(before: seq<bool>, after: seq<bool>, flag: bool) {
    before <= after && forall j :: |before| <= j < |after| ==> after[j] == flag
  }

  lemma FlagsMore(before: seq<bool>, mid: seq<bool>, flag: bool)
    requires FlagsAdded(before, mid, flag)
    ensures FlagsAdded(before, mid + [flag], flag)
  {
  }

  /* ---- Effects ---- */

  lemma FreshExists(used: set<Uuid>)
    ensures exists id: Uuid :: id !in used
  {
    UpToSize(|used| + 1);
    if UpTo(|used| + 1) <= used {
      SubsetSize(UpTo(|used| + 1), used);
    }
  }

  /** How many of these calls failed. */
  function Failures(outcomes: seq<bool>): nat {
    if outcomes == [] then 0 else
    Failures(outcomes[..|outcomes| - 1]) + if outcomes[|outcomes| - 1] then 0 else 1
  }

  /** uuid.New(), any id not drawn before, and the random nonces, whose source may fail. */
  class IdSource {
    var drawn: set<Uuid>
    ghost var faults: nat

    constructor ()
      ensures drawn == {} && faults == 0
    {
      drawn := {};
      faults := 0;
    }

    method Nonce() returns (ok: bool, nonce: Bytes)
      modifies this`faults
      ensures |nonce| == 12 && faults == old(faults) + if ok then 0 else 1
    {
      assert |seq(NONCE_SIZE, _ => 0 as Byte)| == NONCE_SIZE;
      nonce :| |nonce| == NONCE_SIZE;
      ok := *;
      faults := if ok then faults else faults + 1;
    }

    method New() returns (id: Uuid)
      modifies this`drawn
      ensures id !in old(drawn) && drawn == old(drawn) + {id}
    {
      FreshExists(drawn);
      id :| id !in drawn;
      drawn := drawn + {id};
    }
  }

  /**
   The connections to all peers, as the log of what went into them. A Send may fail
   at any time; the message may or may not have reached the peer then. `outcomes` tells
   which Sends succeeded.
   */
  class Network {
    var sent: seq<Delivery>
    ghost var outcomes: seq<bool>

    constructor ()
      ensures sent == [] && outcomes == []
    {
      sent := [];
      outcomes := [];
    }

    method Send(to: Peer, msg: Msg, data: Bytes) returns (n: nat, ok: bool)
      modifies this
      ensures var after := old(sent) + [Delivery(to, Packet(msg, data))];
              if ok then n == |data| <= CHUNK_SIZE && sent == after
              else n <= |data| && (sent == old(sent) || sent == after)
      ensures |data| > 262144 ==> !ok && n == 0 && sent == old(sent)
      ensures outcomes == old(outcomes) + [ok]
      ensures Failures(outcomes) == Failures(old(outcomes)) + if ok then 0 else 1
    {
      if |data| > CHUNK_SIZE {
        outcomes := outcomes + [false];
        return 0, false;
      }
      ok := *;
      var reached: bool := *;
      if ok || reached {
        sent := sent + [Delivery(to, Packet(msg, data))];
      }
      n := *;
      if ok || n > |data| {
        n := |data|;
      }
      outcomes := outcomes + [ok];
    }
  }

  /** Every shard on the wire has a repair group already drawn, and a drawn id that no other one has. */
  ghost predicate IdsKnown(sent: seq<Delivery>, known: set<Uuid>) {
    && (forall i :: 0 <= i < |sent| && sent[i].packet.msg.ShardStream? ==> IdsIn(sent[i].packet.msg, known))
    && (forall i, j :: 0 <= i < j < |sent| && sent[i].packet.msg.ShardStream? && sent[j].packet.msg.ShardStream? ==>
          sent[i].packet.msg.shardID != sent[j].packet.msg.shardID)
  }

  predicate IdsIn(m: Msg, known: set<Uuid>)
    requires m.ShardStream?
  {
    m.repairGroupID in known && m.shardID in known
  }

  lemma KnownMore(sent: seq<Delivery>, known: set<Uuid>, known': set<Uuid>)
    requires IdsKnown(sent, known) && known <= known'
    ensures IdsKnown(sent, known')
  {
    forall i | 0 <= i < |sent| && sent[i].packet.msg.ShardStream? ensures IdsIn(sent[i].packet.msg, known') {
      assert IdsIn(sent[i].packet.msg, known);
    }
  }

  /** Traffic without shards does not matter. */
  lemma OtherTraffic(sent: seq<Delivery>, known: set<Uuid>, ds: seq<Delivery>)
    requires IdsKnown(sent, known)
    requires forall i :: 0 <= i < |ds| ==> !ds[i].packet.msg.ShardStream?
    ensures IdsKnown(sent + ds, known)
  {
  }
}
