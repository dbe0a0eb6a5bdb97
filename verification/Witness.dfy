/**
 One concrete environment that meets everything the capsule modules assume of theirs, so
 that what is proved from those assumptions is not empty. It is no cipher to be used.
 */
module Witness {
  import opened Basics
  import opened Erasure
  import CC = ChecksumCode
  import opened Placement
  import opened Capsule
  import Framing

  function Append(d: Bytes, n: nat): (r: Bytes)
    ensures |r| == |d| + n && r[..|d|] == d
  {
    d + Zeros(n)
  }

  function DropTag(d: Bytes): Option<Bytes> {
    if |d| < TAG_SIZE then None else Some(d[..|d| - TAG_SIZE])
  }

  /** Every share is the secret with the threshold behind it, which must fit a byte and not be 0. */
  function SameShares(secret: Bytes, parts: nat, threshold: nat): Option<seq<Bytes>> {
    if 0 < threshold < 256 then Some(seq(parts, _ => secret + [threshold])) else None
  }

  /** Refuses fewer shares than the first one asks for. */
  function FirstShare(shares: seq<Bytes>): Option<Bytes> {
    if shares == [] || shares[0] == [] then None else
    var n := |shares[0]| - 1;
    if |shares| < shares[0][n] then None else Some(shares[0][..n])
  }

  function PlainEnv(k: nat): Env
    requires k >= 1
  {
    var code := CC.ChecksumCode(k);
    Env(code,
        (d: Bytes) => Shards(code, d),
        (_: Bytes) => Zeros(KEY_SIZE),
        (_: Bytes, _: Bytes, d: Bytes) => Append(d, TAG_SIZE),
        (_: Bytes, _: Bytes, d: Bytes) => DropTag(d),
        (secret: Bytes, parts: nat, threshold: nat, _: nat) => SameShares(secret, parts, threshold),
        (shares: seq<Bytes>) => FirstShare(shares),
        (_: nat, _: nat, id: Uuid) => id)
  }

  lemma SharesAreSharing(k: nat, secret: Bytes, parts: nat, threshold: nat)
    requires k >= 1 && 0 < threshold < 256
    ensures IsSharing(PlainEnv(k), secret, parts, threshold, SameShares(secret, parts, threshold).value)
  {
    var env, shares := PlainEnv(k), SameShares(secret, parts, threshold).value;
    forall at: seq<nat> {:trigger Select(shares, at)} | forall i :: 0 <= i < |at| ==> at[i] < parts
      ensures env.combine(Select(shares, at)) == Some(secret) <==> |at| >= threshold
    {
      if at != [] {
        assert Select(shares, at)[0] == secret + [threshold];
      }
    }
  }

  /** The assumptions on cipher, hash, erasure code and key sharing can all be met at once. */
  lemma AssumptionsHold(k: nat)
    requires 1 <= k <= 255
    ensures ValidEnv(PlainEnv(k)) && ValidSharing(PlainEnv(k))
    ensures PlainEnv(k).code.k == k && PlainEnv(k).code.m == 1
  {
    CC.ChecksumIsValid(k);
    forall secret: Bytes, parts: nat, threshold: nat, coins: nat {:trigger PlainEnv(k).split(secret, parts, threshold, coins)}
      ensures var r := PlainEnv(k).split(secret, parts, threshold, coins);
              r.Some? ==> IsSharing(PlainEnv(k), secret, parts, threshold, r.value)
    {
      assert PlainEnv(k).split(secret, parts, threshold, coins) == SameShares(secret, parts, threshold);
      if 0 < threshold < 256 {
        SharesAreSharing(k, secret, parts, threshold);
      }
    }
  }

  /* ---- A serializer ---- */

  function PrefixDecode(b: Bytes): Option<(Bytes, nat)> {
    if b == [] then None else
    var n: nat := b[0];
    if |b| - 1 < n then None else Some((b[1..n + 1], n + 1))
  }

  /** One length byte before the payload. */
  function PrefixSerializer(): Framing.Serializer<Bytes> {
    Framing.Serializer((p: Bytes) => if |p| < 256 then Some([|p|] + p) else None, (b: Bytes) => PrefixDecode(b))
  }

  /** What is assumed of the serializer of the frames can be met. */
  lemma SerializerHolds()
    ensures Framing.Inverts(PrefixSerializer()) && Framing.Streams(PrefixSerializer())
  {
    forall a: Bytes, b: Bytes {:trigger PrefixSerializer().decode(a + b)} | PrefixDecode(a).Some?
      ensures PrefixDecode(a).value.1 <= |a| && PrefixDecode(a + b) == PrefixDecode(a)
    {
      var n: nat := a[0];
      assert (a + b)[1..n + 1] == a[1..n + 1];
    }
    forall p: Bytes {:trigger PrefixSerializer().encode(p)} | |p| < 256
      ensures PrefixDecode(PrefixSerializer().encode(p).value) == Some((p, 1 + |p|))
    {
      var n: Byte := |p|;
      assert ([n] + p)[1..|p| + 1] == p;
    }
  }

  /**
   A frame that declares 3 bytes of payload and decodes from 1: a decoder that gets it byte
   by byte stops behind that one and leaves 2, one that gets it in one piece leaves none.
   */
  lemma LooseFrame() returns (payload: Bytes, frame: Bytes)
    ensures frame == Framing.FrameBytes(1, payload) && |payload| == 3
    ensures Framing.ParseFrame(PrefixSerializer(), frame) == Framing.Loose(Framing.Frame(1, []), 1)
    ensures Framing.StopsAt(PrefixSerializer(), payload, 3, 1) && Framing.StopsAt(PrefixSerializer(), payload, 3, 3)
  {
    payload := [0, 0, 0];
    frame := Framing.FrameBytes(1, payload);
    var size := BigEndian(3, 4);
    assert frame == [1] + size + payload;
    assert frame[1..5] == size && frame[5..] == payload;
    Uint32RoundTrip(3);
    assert payload[..3] == payload && payload[1..1] == [] && payload[..1][1..1] == [];
    assert PrefixDecode(payload) == Some(([], 1)) && PrefixDecode(payload[..1]) == Some(([], 1));
    assert PrefixSerializer().decode(payload[..0]).None?;
  }
}
