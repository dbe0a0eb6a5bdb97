/**
 Byte strings, fixed-width big-endian numbers, and the few facts about
 concatenation and counting that the other modules share.
 */
module Basics {

  type Byte = x: int | 0 <= x < 256
  type Bytes = seq<Byte>

  datatype Option<+T> = None | Some(value: T)

  const TWO_TO_32: nat := 0x1_0000_0000
  const TWO_TO_63: nat := 0x8000_0000_0000_0000
  const TWO_TO_64: nat := 0x1_0000_0000_0000_0000

  /* ---- Big-endian numbers, as written by PutUint32 and PutUint64 ---- */

  function Pow256(width: nat): (p: nat)
    ensures p >= 1
  {
    if width == 0 then 1 else 256 * Pow256(width - 1)
  }

  /** The low `width` bytes of `n`, most significant first. */
  function BigEndian(n: nat, width: nat): (b: Bytes)
    ensures |b| == width
    decreases n, width
  {
    if width == 0 then [] else BigEndian(n / 256, width - 1) + [n % 256]
  }

  function FromBigEndian(b: Bytes): nat {
    if b == [] then 0 else FromBigEndian(b[..|b| - 1]) * 256 + b[|b| - 1]
  }

  lemma MulAtLeast(a: int, d: int)
    requires d >= 0
    ensures a >= 1 ==> d * a >= d
    ensures a <= -1 ==> d * a <= -d
  {
    if a >= 1 {
      assert d * a == d + d * (a - 1);
    } else if a <= -1 {
      assert d * a == -d + d * (a + 1);
    }
  }

  lemma MulStep(a: nat, b: nat)
    requires b > 0
    ensures a * b == a * (b - 1) + a
  {
  }

  lemma ModUnique(n: nat, d: nat, q: nat, r: nat)
    requires r < d && n == d * q + r
    ensures n % d == r
  {
    var a := q - n / d;
    MulAtLeast(a, d);
    assert d * a == n % d - r by {
      assert d * q == d * (n / d) + d * a;
    }
  }

  /** Encoding keeps exactly the value modulo 256^width. */
  lemma {:induction false} BigEndianRoundTrip(n: nat, width: nat)
    ensures FromBigEndian(BigEndian(n, width)) == n % Pow256(width)
  {
    if width > 0 {
      var q, p := n / 256, Pow256(width - 1);
      BigEndianRoundTrip(q, width - 1);
      assert BigEndian(n, width)[..width - 1] == BigEndian(q, width - 1);
      ModStep(n, p);
    }
  }

  lemma ModStep(n: nat, p: nat)
    requires p >= 1
    ensures n % (256 * p) == 256 * ((n / 256) % p) + n % 256
  {
    var q := n / 256;
    var d, m := q / p, q % p;
    assert q == p * d + m && 0 <= m < p;
    assert (256 * p) * d == 256 * (p * d);
    ModUnique(n, 256 * p, d, 256 * m + n % 256);
  }

  lemma {:induction false} BigEndianOnto(b: Bytes)
    ensures BigEndian(FromBigEndian(b), |b|) == b
  {
    if b != [] {
      BigEndianOnto(b[..|b| - 1]);
    }
  }

  /** The first byte is the most significant one. */
  lemma {:induction false} FirstByteCounts(a: Byte, b: Bytes)
    ensures FromBigEndian([a] + b) == a * Pow256(|b|) + FromBigEndian(b)
  {
    var n := |b|;
    if b == [] {
      assert [a] + b == [a] && [a][..0] == [];
    } else {
      assert ([a] + b)[..n] == [a] + b[..n - 1];
      FirstByteCounts(a, b[..n - 1]);
      ByteUp(a, Pow256(n - 1), FromBigEndian(b[..n - 1]));
    }
  }

  lemma ByteUp(a: nat, p: nat, rest: nat)
    ensures (a * p + rest) * 256 == a * (256 * p) + rest * 256
  {
  }

  lemma WideEnough()
    ensures Pow256(4) == TWO_TO_32 && Pow256(8) == TWO_TO_64
  {
    assert Pow256(2) == 65536;
    assert Pow256(4) == 65536 * Pow256(2);
    assert Pow256(6) == 65536 * Pow256(4);
  }

  lemma SmallMod(n: nat, d: nat)
    requires n < d
    ensures n % d == n
  {
  }

  lemma Uint64RoundTrip(n: nat)
    requires n < TWO_TO_64
    ensures FromBigEndian(BigEndian(n, 8)) == n
  {
    WideEnough();
    BigEndianRoundTrip(n, 8);
    SmallMod(n, Pow256(8));
  }

  lemma Uint32RoundTrip(n: nat)
    requires n < TWO_TO_32
    ensures FromBigEndian(BigEndian(n, 4)) == n
  {
    WideEnough();
    BigEndianRoundTrip(n, 4);
    SmallMod(n, Pow256(4));
  }

  /** Two numbers have the same 8-byte form exactly when they agree modulo 2^64. */
  lemma SameUint64(i: nat, j: nat)
    ensures BigEndian(i, 8) == BigEndian(j, 8) <==> i % TWO_TO_64 == j % TWO_TO_64
  {
    WideEnough();
    BigEndianRoundTrip(i, 8);
    BigEndianRoundTrip(j, 8);
    BigEndianOnto(BigEndian(i, 8));
    BigEndianOnto(BigEndian(j, 8));
  }

  /* ---- Concatenation ---- */

  function Flatten<T>(parts: seq<seq<T>>): seq<T> {
    if parts == [] then [] else parts[0] + Flatten(parts[1..])
  }

  lemma {:induction false} FlattenConcat<T>(a: seq<seq<T>>, b: seq<seq<T>>)
    ensures Flatten(a + b) == Flatten(a) + Flatten(b)
  {
    if a == [] {
      assert a + b == b;
    } else {
      assert (a + b)[1..] == a[1..] + b;
      FlattenConcat(a[1..], b);
    }
  }

  lemma FlattenSnoc<T>(a: seq<seq<T>>, x: seq<T>)
    ensures Flatten(a + [x]) == Flatten(a) + x
  {
    FlattenConcat(a, [x]);
    assert Flatten([x]) == x;
  }

  /* ---- Counting ---- */

  function UpTo(n: nat): (s: set<nat>)
    ensures forall i: nat :: i in s <==> i < n
  {
    if n == 0 then {} else UpTo(n - 1) + {n - 1}
  }

  lemma {:induction false} UpToSize(n: nat)
    ensures |UpTo(n)| == n
  {
    if n > 0 {
      UpToSize(n - 1);
    }
  }

  lemma SubsetSize<T>(a: set<T>, b: set<T>)
    requires a <= b
    ensures |a| <= |b|
  {
    assert |b - a| + |a| == |b| by {
      assert (b - a) + a == b;
      assert (b - a) !! a;
    }
  }

  lemma DisjointSize<T>(a: set<T>, b: set<T>)
    requires a !! b
    ensures |a + b| == |a| + |b|
  {
  }

  /** A duplicate-free sequence has as many elements as the set of its members. */
  lemma {:induction false} DistinctSize<T>(s: seq<T>)
    requires forall i, j :: 0 <= i < j < |s| ==> s[i] != s[j]
    ensures |set x | x in s| == |s|
  {
    if s != [] {
      var n := |s| - 1;
      DistinctSize(s[..n]);
      assert (set x | x in s) == (set x | x in s[..n]) + {s[n]};
      assert s[n] !in s[..n];
    }
  }

  /** Picking distinct entries of a sequence at a set of positions keeps the count. */
  lemma {:induction false} ImageSize<T>(s: seq<T>, at: set<nat>)
    requires forall i :: i in at ==> i < |s|
    requires forall i, j :: 0 <= i < j < |s| ==> s[i] != s[j]
    ensures |set i | i in at :: s[i]| == |at|
  {
    if at != {} {
      var i :| i in at;
      ImageSize(s, at - {i});
      assert (set j | j in at :: s[j]) == (set j | j in at - {i} :: s[j]) + {s[i]};
      assert s[i] !in (set j | j in at - {i} :: s[j]);
    }
  }
}
