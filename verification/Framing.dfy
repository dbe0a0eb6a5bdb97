/**
 Length-prefixed frames and public keys on a byte stream that may be read in pieces of
 any size. The payload serializer is abstract.
 */
module Framing {
  import opened Basics

  const V1_HEADER_PAYLOAD_SIZE: nat := 4
  const V1_HEADER_SIZE: nat := 5

  datatype Frame<+P> = Frame(version: Byte, payload: P)

  /** `decode` sees all bytes it may read and tells how many it used. */
  datatype Serializer<!P> = Serializer(encode: P -> Option<Bytes>, decode: Bytes -> Option<(P, nat)>)

  /** Decode inverts Encode and uses up all of it. */
  ghost predicate Inverts<P(!new)>(s: Serializer<P>) {
    forall p {:trigger s.encode(p)} :: s.encode(p).Some? ==> s.decode(s.encode(p).value) == Some((p, |s.encode(p).value|))
  }

  /** Decode goes by the front of its input: bytes behind what it decodes do not change the result. */
  ghost predicate Streams<P(!new)>(s: Serializer<P>) {
    forall a, b {:trigger s.decode(a + b)} ::
      s.decode(a).Some? ==> s.decode(a).value.1 <= |a| && s.decode(a + b) == s.decode(a)
  }

  /* ---- What is on the wire ---- */

  function FrameBytes(version: Byte, payload: Bytes): Bytes {
    [version] + BigEndian(|payload|, V1_HEADER_PAYLOAD_SIZE) + payload
  }

  function KeyBytes(key: Bytes): Bytes {
    BigEndian(|key|, V1_HEADER_PAYLOAD_SIZE) + key
  }

  /** Version byte, 4 bytes that tell the payload's size modulo 2^32, payload. */
  predicate IsFrame(b: Bytes, version: Byte, payload: Bytes) {
    |b| == 5 + |payload| && b[0] == version && FromBigEndian(b[1..5]) == |payload| % TWO_TO_32 && b[5..] == payload
  }

  /** 4 bytes that tell the key's size modulo 2^32, key. */
  predicate IsKey(b: Bytes, key: Bytes) {
    |b| == 4 + |key| && FromBigEndian(b[..4]) == |key| % TWO_TO_32 && b[4..] == key
  }

  lemma FrameLayout(version: Byte, payload: Bytes)
    ensures IsFrame(FrameBytes(version, payload), version, payload)
  {
    WideEnough();
    BigEndianRoundTrip(|payload|, 4);
    assert FrameBytes(version, payload)[1..5] == BigEndian(|payload|, 4);
  }

  lemma KeyLayout(key: Bytes)
    ensures IsKey(KeyBytes(key), key)
  {
    WideEnough();
    BigEndianRoundTrip(|key|, 4);
    assert KeyBytes(key)[..4] == BigEndian(|key|, 4);
  }

  predicate Encodable<P>(s: Serializer<P>, f: Frame<P>) {
    s.encode(f.payload).Some? && |s.encode(f.payload).value| < TWO_TO_32
  }

  function FramesBytes<P>(s: Serializer<P>, fs: seq<Frame<P>>): Bytes
    requires forall i :: 0 <= i < |fs| ==> Encodable(s, fs[i])
  {
    if fs == [] then [] else
    assert Encodable(s, fs[0]);
    FrameBytes(fs[0].version, s.encode(fs[0].payload).value) + FramesBytes(s, fs[1..])
  }

  /* ---- What a reader makes of it ---- */

  function Least(a: nat, b: nat): nat {
    if a <= b then a else b
  }

  /**
   A frame that uses up its declared size leaves exactly the bytes behind it. One that
   decodes from fewer bytes is read all the same, but a buffering decoder may take more
   than it uses, up to the declared size.
   */
  datatype ParsedFrame<+P> = Exact(frame: Frame<P>, rest: Bytes) | Loose(frame: Frame<P>, used: nat) | Refused

  function ParseFrame<P>(s: Serializer<P>, b: Bytes): ParsedFrame<P> {
    if |b| < V1_HEADER_SIZE then Refused else
    var size, avail := FromBigEndian(b[1..V1_HEADER_SIZE]), b[V1_HEADER_SIZE..];
    var r := s.decode(avail[..Least(size, |avail|)]);
    if r.None? then Refused
    else if r.value.1 == size <= |avail| then Exact(Frame(b[0], r.value.0), avail[size..])
    else Loose(Frame(b[0], r.value.0), r.value.1)
  }

  function ParseKey(b: Bytes): Option<(Bytes, Bytes)> {
    if |b| < V1_HEADER_PAYLOAD_SIZE then None else
    var size, avail := FromBigEndian(b[..V1_HEADER_PAYLOAD_SIZE]), b[V1_HEADER_PAYLOAD_SIZE..];
    if |avail| < size then None else Some((avail[..size], avail[size..]))
  }

  /** `Unclear`: a frame did not use its declared size, so where the next one starts is open. */
  datatype ParsedFrames<+P> = Whole(frames: seq<Frame<P>>, rest: Bytes) | Unclear | Broken

  function ParseFrames<P>(s: Serializer<P>, b: Bytes, count: nat): ParsedFrames<P> {
    if count == 0 then Whole([], b) else
    match ParseFrame(s, b)
    case Refused => Broken
    case Loose(_, _) => Unclear
    case Exact(frame, rest) => Behind([frame], ParseFrames(s, rest, count - 1))
  }

  /** What is parsed, behind the frames already there. */
  function Behind<P>(frames: seq<Frame<P>>, parsed: ParsedFrames<P>): ParsedFrames<P> {
    if parsed.Whole? then Whole(frames + parsed.frames, parsed.rest) else parsed
  }

  /* ---- Round trips ---- */

  lemma FrameRoundTrip<P(!new)>(s: Serializer<P>, f: Frame<P>, rest: Bytes)
    requires Inverts(s) && Encodable(s, f)
    ensures ParseFrame(s, FrameBytes(f.version, s.encode(f.payload).value) + rest) == Exact(f, rest)
  {
    var payload := s.encode(f.payload).value;
    var size := BigEndian(|payload|, V1_HEADER_PAYLOAD_SIZE);
    var b := FrameBytes(f.version, payload) + rest;
    assert b[1..V1_HEADER_SIZE] == size;
    assert b[V1_HEADER_SIZE..] == payload + rest;
    Uint32RoundTrip(|payload|);
    assert (payload + rest)[..|payload|] == payload;
  }

  lemma KeyRoundTrip(key: Bytes, rest: Bytes)
    requires |key| < TWO_TO_32
    ensures ParseKey(KeyBytes(key) + rest) == Some((key, rest))
  {
    var b := KeyBytes(key) + rest;
    assert b[..V1_HEADER_PAYLOAD_SIZE] == BigEndian(|key|, V1_HEADER_PAYLOAD_SIZE);
    assert b[V1_HEADER_PAYLOAD_SIZE..] == key + rest;
    Uint32RoundTrip(|key|);
  }

  lemma FramesFirst<P>(s: Serializer<P>, fs: seq<Frame<P>>, rest: Bytes)
    requires fs != [] && forall i :: 0 <= i < |fs| ==> Encodable(s, fs[i])
    ensures FramesBytes(s, fs) + rest ==
            FrameBytes(fs[0].version, s.encode(fs[0].payload).value) + (FramesBytes(s, fs[1..]) + rest)
  {
  }

  /** Which bytes are read as which key. */
  lemma ParseKeyExactly(b: Bytes, key: Bytes, rest: Bytes)
    ensures ParseKey(b) == Some((key, rest)) <==> |b| >= 4 && FromBigEndian(b[..4]) == |key| && b[4..] == key + rest
  {
    if |b| >= 4 && FromBigEndian(b[..4]) == |key| && b[4..] == key + rest {
      assert (key + rest)[..|key|] == key && (key + rest)[|key|..] == rest;
    }
  }

  /** Which bytes are read as which frame, with the bytes of its declared size used up; and which are refused. */
  lemma ParseFrameExactly<P>(s: Serializer<P>, b: Bytes, f: Frame<P>, rest: Bytes)
    ensures ParseFrame(s, b) == Exact(f, rest) <==>
            && |b| >= 5 && b[0] == f.version
            && var n := FromBigEndian(b[1..5]);
               n <= |b| - 5 && s.decode(b[5..5 + n]) == Some((f.payload, n)) && rest == b[5 + n..]
    ensures ParseFrame(s, b) == Refused <==>
            |b| < 5 || s.decode(b[5..5 + Least(FromBigEndian(b[1..5]), |b| - 5)]) == None
  {
    if |b| >= 5 {
      var n, avail := FromBigEndian(b[1..5]), b[5..];
      var limit := Least(n, |avail|);
      assert avail[..limit] == b[5..5 + limit];
      if n <= |avail| {
        assert avail[n..] == b[5 + n..];
      }
    }
  }

  lemma {:induction false} FramesRoundTrip<P(!new)>(s: Serializer<P>, fs: seq<Frame<P>>, rest: Bytes)
    requires Inverts(s) && forall i :: 0 <= i < |fs| ==> Encodable(s, fs[i])
    ensures ParseFrames(s, FramesBytes(s, fs) + rest, |fs|) == Whole(fs, rest)
  {
    if fs == [] {
      assert FramesBytes(s, fs) + rest == rest;
    } else {
      FramesFirst(s, fs, rest);
      FrameRoundTrip(s, fs[0], FramesBytes(s, fs[1..]) + rest);
      FramesRoundTrip(s, fs[1..], rest);
      assert fs == [fs[0]] + fs[1..];
    }
  }

  /** A key and any frames behind it are read back whole, and the bytes after them are left. */
  lemma SessionRoundTrip<P(!new)>(s: Serializer<P>, key: Bytes, fs: seq<Frame<P>>, rest: Bytes)
    requires Inverts(s) && |key| < TWO_TO_32 && forall i :: 0 <= i < |fs| ==> Encodable(s, fs[i])
    ensures var b := KeyBytes(key) + FramesBytes(s, fs) + rest;
            && ParseKey(b) == Some((key, FramesBytes(s, fs) + rest))
            && ParseFrames(s, ParseKey(b).value.1, |fs|) == Whole(fs, rest)
  {
    assert KeyBytes(key) + FramesBytes(s, fs) + rest == KeyBytes(key) + (FramesBytes(s, fs) + rest);
    KeyRoundTrip(key, FramesBytes(s, fs) + rest);
    FramesRoundTrip(s, fs, rest);
  }

  /** So no two sessions with equally many frames look alike on the wire. */
  lemma UniquelyDecodable<P(!new)>(s: Serializer<P>, key: Bytes, fs: seq<Frame<P>>, rest: Bytes,
                                   key': Bytes, fs': seq<Frame<P>>, rest': Bytes)
    requires Inverts(s) && |key| < TWO_TO_32 && |key'| < TWO_TO_32 && |fs| == |fs'|
    requires forall i :: 0 <= i < |fs| ==> Encodable(s, fs[i]) && Encodable(s, fs'[i])
    requires KeyBytes(key) + FramesBytes(s, fs) + rest == KeyBytes(key') + FramesBytes(s, fs') + rest'
    ensures key == key' && fs == fs' && rest == rest'
  {
    SessionRoundTrip(s, key, fs, rest);
    SessionRoundTrip(s, key', fs', rest');
  }

  /** The 4-byte size field tells the payload's size exactly up to 2^32 - 1. */
  lemma SizeFieldExactly(size: nat)
    ensures FromBigEndian(BigEndian(size, 4)) == size <==> size < TWO_TO_32
  {
    BigEndianRoundTrip(size, 4);
    WideEnough();
    if size < TWO_TO_32 {
      Uint32RoundTrip(size);
    }
  }

  /* ---- The methods ---- */

  /** One side of a connection. A Read returns a piece of any size, a Write may fail. */
  class Conn {
    var incoming: Bytes
    var outgoing: Bytes
    ghost var faults: nat  // failed Writes so far

    constructor (incoming: Bytes)
      ensures this.incoming == incoming && outgoing == [] && faults == 0
    {
      this.incoming, this.outgoing, this.faults := incoming, [], 0;
    }

    /** Go's Read(buf[from:]); 0 bytes at the end of the stream. */
    method Read(buf: array<Byte>, from: nat) returns (k: nat)
      requires from < buf.Length
      modifies this`incoming, buf
      ensures k <= |old(incoming)| && from + k <= buf.Length
      ensures k == 0 <==> old(incoming) == []
      ensures incoming == old(incoming)[k..]
      ensures buf[..from + k] == old(buf[..from]) + old(incoming)[..k]
    {
      if incoming == [] {
        assert buf[..from + 0] == buf[..from] + incoming[..0];
        return 0;
      }
      var most := Least(|incoming|, buf.Length - from);
      k :| 1 <= k <= most;
      forall i | 0 <= i < k {
        buf[from + i] := incoming[i];
      }
      incoming := incoming[k..];
    }

    /** A failed Write may have put out a part. */
    method Write(b: Bytes) returns (ok: bool)
      modifies this`outgoing, this`faults
      ensures faults == old(faults) + if ok then 0 else 1
      ensures old(outgoing) <= outgoing <= old(outgoing) + b
      ensures ok ==> outgoing == old(outgoing) + b
    {
      var n :| 0 <= n <= |b|;
      outgoing := outgoing + b[..n];
      ok := n == |b|;
      if !ok {
        faults := faults + 1;
      }
    }
  }

  /** io.ReadFull: fills the buffer however the stream is cut into pieces. */
  method ReadFull(conn: Conn, buf: array<Byte>) returns (ok: bool)
    modifies conn`incoming, buf
    ensures ok <==> buf.Length <= |old(conn.incoming)|
    ensures ok ==> buf[..] == old(conn.incoming)[..buf.Length] && conn.incoming == old(conn.incoming)[buf.Length..]
  {
    ghost var all := conn.incoming;
    var got := 0;
    while got < buf.Length
      invariant 0 <= got <= buf.Length && got <= |all|
      invariant buf[..got] == all[..got] && conn.incoming == all[got..]
    {
      var k := conn.Read(buf, got);
      if k == 0 {
        return false;
      }
      assert all[..got] + all[got..][..k] == all[..got + k];
      got := got + k;
    }
    assert buf[..got] == buf[..];
    return true;
  }

  method PutUint32(buf: array<Byte>, at: nat, n: nat)
    requires at + 4 <= buf.Length
    modifies buf
    ensures buf[..] == old(buf[..at]) + BigEndian(n, 4) + old(buf[at + 4..])
  {
    var b := BigEndian(n, 4);
    forall i | 0 <= i < 4 {
      buf[at + i] := b[i];
    }
  }

  method CopyTo(buf: array<Byte>, at: nat, data: Bytes)
    requires at + |data| == buf.Length
    modifies buf
    ensures buf[..] == old(buf[..at]) + data
  {
    forall i | 0 <= i < |data| {
      buf[at + i] := data[i];
    }
  }

  method WriteFrame<P>(conn: Conn, s: Serializer<P>, f: Frame<P>) returns (ok: bool)
    modifies conn`outgoing, conn`faults
    ensures ok <==> s.encode(f.payload).Some? && conn.faults == old(conn.faults)
    ensures s.encode(f.payload).None? ==> conn.outgoing == old(conn.outgoing)
    ensures ok ==> conn.outgoing == old(conn.outgoing) + FrameBytes(f.version, s.encode(f.payload).value)
    ensures ok ==> exists b :: conn.outgoing == old(conn.outgoing) + b && IsFrame(b, f.version, s.encode(f.payload).value)
  {
    if s.encode(f.payload).Some? {
      FrameLayout(f.version, s.encode(f.payload).value);
    }
    var encoded := s.encode(f.payload);
    if encoded.None? {
      return false;
    }
    var payload := encoded.value;
    var buf := new Byte[V1_HEADER_SIZE + |payload|](_ => 0);
    buf[0] := f.version;
    PutUint32(buf, 1, |payload|);
    assert buf[..V1_HEADER_SIZE] == [f.version] + BigEndian(|payload|, 4);
    CopyTo(buf, V1_HEADER_SIZE, payload);
    ok := conn.Write(buf[..]);
  }

  /** `rest` is what is left of `all` after between lo and hi bytes were taken. */
  predicate LeftOver(all: Bytes, rest: Bytes, lo: nat, hi: nat) {
    |rest| <= |all| && lo <= |all| - |rest| <= hi && rest == all[|all| - |rest|..]
  }

  /**
   Where a decoder may stop that takes pieces of any size: it was not there yet before its
   last piece, and can decode now or has reached the limit or the end.
   */
  ghost predicate StopsAt<P(!new)>(s: Serializer<P>, all: Bytes, size: nat, got: nat) {
    && got <= Least(size, |all|)
    && (got == Least(size, |all|) || s.decode(all[..got]).Some?)
    && (got > 0 ==> exists prev :: 0 <= prev < got && s.decode(all[..prev]).None?)
  }

  /**
   The decoder on a limited reader: takes pieces off the connection, of whatever size they
   come, until it can decode or has reached the limit or the end.
   */
  method DecodeLimited<P(!new)>(conn: Conn, s: Serializer<P>, size: nat) returns (decoded: Option<(P, nat)>)
    requires Streams(s)
    modifies conn`incoming
    ensures decoded == s.decode(old(conn.incoming)[..Least(size, |old(conn.incoming)|)])
    ensures |conn.incoming| <= |old(conn.incoming)|
    ensures StopsAt(s, old(conn.incoming), size, |old(conn.incoming)| - |conn.incoming|)
    ensures decoded.Some? ==>
              LeftOver(old(conn.incoming), conn.incoming, decoded.value.1, Least(size, |old(conn.incoming)|))
  {
    ghost var all := conn.incoming;
    ghost var limit := Least(size, |all|);
    var buf := new Byte[size](_ => 0);
    var got := 0;
    decoded := s.decode(buf[..0]);
    assert all[..0] == buf[..0];
    while got < size && decoded.None?
      invariant 0 <= got <= limit && buf[..got] == all[..got] && conn.incoming == all[got..]
      invariant decoded == s.decode(all[..got])
      invariant got > 0 ==> exists prev :: 0 <= prev < got && s.decode(all[..prev]).None?
      decreases size - got
    {
      var k := conn.Read(buf, got);
      if k == 0 {
        break;
      }
      assert all[..got] + all[got..][..k] == all[..got + k];
      assert s.decode(all[..got]).None?;
      got := got + k;
      decoded := s.decode(buf[..got]);
    }
    assert all[..limit] == all[..got] + all[got..limit];
    assert decoded.None? ==> got == limit;
    assert s.decode(all[..got] + []) == s.decode(all[..got]) by { assert all[..got] + [] == all[..got]; }
  }

  method ReadFrame<P(!new)>(conn: Conn, s: Serializer<P>) returns (r: Option<Frame<P>>)
    requires Streams(s)
    modifies conn`incoming
    ensures match ParseFrame(s, old(conn.incoming))
            case Refused => r == None
            case Exact(frame, rest) => r == Some(frame) && conn.incoming == rest
            case Loose(frame, used) =>
              r == Some(frame) &&
              LeftOver(old(conn.incoming)[V1_HEADER_SIZE..], conn.incoming, used,
                       FromBigEndian(old(conn.incoming)[1..V1_HEADER_SIZE]))
  {
    var headerBuf := new Byte[V1_HEADER_SIZE](_ => 0);
    var full := ReadFull(conn, headerBuf);
    if !full {
      return None;
    }
    var version := headerBuf[0];
    var msgSize := FromBigEndian(headerBuf[1..V1_HEADER_SIZE]);
    assert headerBuf[1..V1_HEADER_SIZE] == old(conn.incoming)[1..V1_HEADER_SIZE] by {
      assert headerBuf[..][1..] == headerBuf[1..V1_HEADER_SIZE];
    }
    var decoded := DecodeLimited(conn, s, msgSize);
    r := if decoded.None? then None else Some(Frame(version, decoded.value.0));
  }

  method SendPublicKey(conn: Conn, localPublicKey: Bytes) returns (ok: bool)
    modifies conn`outgoing, conn`faults
    ensures ok <==> conn.faults == old(conn.faults)
    ensures ok ==> conn.outgoing == old(conn.outgoing) + KeyBytes(localPublicKey)
    ensures ok ==> exists b :: conn.outgoing == old(conn.outgoing) + b && IsKey(b, localPublicKey)
  {
    KeyLayout(localPublicKey);
    var buf := new Byte[V1_HEADER_PAYLOAD_SIZE + |localPublicKey|](_ => 0);
    PutUint32(buf, 0, |localPublicKey|);
    assert buf[..V1_HEADER_PAYLOAD_SIZE] == BigEndian(|localPublicKey|, 4);
    CopyTo(buf, V1_HEADER_PAYLOAD_SIZE, localPublicKey);
    ok := conn.Write(buf[..]);
  }

  method ReceivePublicKey(conn: Conn) returns (key: Option<Bytes>)
    modifies conn`incoming
    ensures var parsed := ParseKey(old(conn.incoming));
            if parsed.None? then key.None? else key == Some(parsed.value.0) && conn.incoming == parsed.value.1
  {
    var sizeBuf := new Byte[V1_HEADER_PAYLOAD_SIZE](_ => 0);
    var full := ReadFull(conn, sizeBuf);
    if !full {
      return None;
    }
    var remoteKey := new Byte[FromBigEndian(sizeBuf[..])](_ => 0);
    full := ReadFull(conn, remoteKey);
    if !full {
      return None;
    }
    key := Some(remoteKey[..]);
  }

  lemma BehindNone<P>(parsed: ParsedFrames<P>)
    ensures Behind([], parsed) == parsed
  {
    if parsed.Whole? {
      assert [] + parsed.frames == parsed.frames;
    }
  }

  lemma BehindAll<P>(s: Serializer<P>, frames: seq<Frame<P>>, b: Bytes)
    ensures Behind(frames, ParseFrames(s, b, 0)) == Whole(frames, b)
  {
    assert frames + [] == frames;
  }

  lemma BehindOneMore<P>(s: Serializer<P>, frames: seq<Frame<P>>, b: Bytes, count: nat)
    requires count > 0
    ensures var parsed := ParseFrame(s, b);
            Behind(frames, ParseFrames(s, b, count)) ==
              if parsed.Exact? then Behind(frames + [parsed.frame], ParseFrames(s, parsed.rest, count - 1))
              else if parsed.Loose? then Unclear else Broken
  {
    var parsed := ParseFrame(s, b);
    if parsed.Exact? {
      var rest := ParseFrames(s, parsed.rest, count - 1);
      if rest.Whole? {
        assert frames + ([parsed.frame] + rest.frames) == frames + [parsed.frame] + rest.frames;
      }
    }
  }

  /** One more frame of a session of which `count` frames are still to come. */
  method ReadNext<P(!new)>(conn: Conn, s: Serializer<P>, ghost frames: seq<Frame<P>>, ghost count: nat,
                           ghost all: ParsedFrames<P>) returns (f: Option<Frame<P>>)
    requires Streams(s) && count > 0
    requires all.Unclear? || all == Behind(frames, ParseFrames(s, conn.incoming, count))
    modifies conn`incoming
    ensures f.None? ==> !all.Whole?
    ensures f.Some? ==> all.Unclear? || all == Behind(frames + [f.value], ParseFrames(s, conn.incoming, count - 1))
  {
    BehindOneMore(s, frames, conn.incoming, count);
    f := ReadFrame(conn, s);
  }

  /** A reader's whole session: the key, then `count` frames. */
  method ReadSession<P(!new)>(conn: Conn, s: Serializer<P>, count: nat) returns (r: Option<(Bytes, seq<Frame<P>>)>)
    requires Streams(s)
    modifies conn`incoming
    ensures var k := ParseKey(old(conn.incoming));
            if k.None? then r.None? else
            match ParseFrames(s, k.value.1, count)
            case Whole(frames, rest) => r == Some((k.value.0, frames)) && conn.incoming == rest
            case Broken => r.None?
            case Unclear => true
  {
    var key := ReceivePublicKey(conn);
    if key.None? {
      return None;
    }
    ghost var all := ParseFrames(s, conn.incoming, count);
    var frames: seq<Frame<P>> := [];
    BehindNone(all);
    while |frames| < count
      invariant |frames| <= count
      invariant all.Unclear? || all == Behind(frames, ParseFrames(s, conn.incoming, count - |frames|))
      decreases count - |frames|
    {
      var f := ReadNext(conn, s, frames, count - |frames|, all);
      if f.None? {
        return None;
      }
      frames := frames + [f.value];
    }
    BehindAll(s, frames, conn.incoming);
    r := Some((key.value, frames));
  }
}
