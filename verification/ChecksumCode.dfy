/**
 A concrete k-of-(k+1) code, with the column sums modulo 256 as its one parity row.
 It shows that what is assumed of a Reed-Solomon code can be met, for every k.
 */
module ChecksumCode {
  import opened Basics
  import opened Erasure

  function At(row: Bytes, col: nat): nat {
    if col < |row| then row[col] else 0
  }

  function ColumnSum(d: seq<Bytes>, col: nat): nat {
    if d == [] then 0 else At(d[0], col) + ColumnSum(d[1..], col)
  }

  function Checksum(d: seq<Bytes>): Bytes {
    var len := if d == [] then 0 else |d[0]|;
    seq(len, col requires 0 <= col < len => ColumnSum(d, col) % 256)
  }

  /** The first absent position, |s| if there is none. */
  function Gap(s: seq<Bytes>): (j: nat)
    ensures j <= |s|
    ensures j < |s| ==> s[j] == []
    ensures forall i :: 0 <= i < j ==> s[i] != []
  {
    if s == [] || s[0] == [] then 0 else 1 + Gap(s[1..])
  }

  function FillGap(k: nat, s: seq<Bytes>): seq<Bytes> {
    var j := Gap(s);
    if j >= |s| || |s| != k + 1 then s
    else if j == k then s[j := Checksum(s[..k])]
    else
      var len := FirstSize(s);
      s[j := seq(len, col requires 0 <= col < len => (At(s[k], col) - ColumnSum(s[..k], col)) % 256)]
  }

  function ChecksumCode(k: nat): Code {
    Code(k, 1, d => [Checksum(d)], s => FillGap(k, s))
  }

  lemma {:induction false} ColumnSumUpdate(d: seq<Bytes>, j: nat, col: nat)
    requires j < |d|
    ensures ColumnSum(d, col) == ColumnSum(d[j := []], col) + At(d[j], col)
  {
    if j == 0 {
      assert d[0 := []][1..] == d[1..];
    } else {
      assert d[j := []][1..] == d[1..][j - 1 := []];
      ColumnSumUpdate(d[1..], j - 1, col);
    }
  }

  lemma SizeWithoutTwo(n: nat, i: nat, j: nat)
    requires i < n && j < n && i != j
    ensures |UpTo(n) - {i, j}| == n - 2
  {
    UpToSize(n);
    assert UpTo(n) == (UpTo(n) - {i, j}) + {i, j};
    DisjointSize(UpTo(n) - {i, j}, {i, j});
    assert |{i, j}| == 2;
  }

  lemma TwoGaps(s: seq<Bytes>, i: nat, j: nat)
    requires i < |s| && j < |s| && i != j && s[i] == [] && s[j] == []
    ensures |PresentAt(s)| <= |s| - 2
  {
    SizeWithoutTwo(|s|, i, j);
    assert PresentAt(s) <= UpTo(|s|) - {i, j};
    SubsetSize(PresentAt(s), UpTo(|s|) - {i, j});
  }

  /** With k of k+1 rows present, only the first gap is absent. */
  lemma OnlyGap(k: nat, s: seq<Bytes>, i: nat)
    requires |s| == k + 1 && |PresentAt(s)| >= k
    requires i < |s| && i != Gap(s)
    ensures s[i] != []
  {
    var j := Gap(s);
    if s[i] == [] {
      TwoGaps(s, i, j);
    }
  }

  lemma FillsAnyRows(k: nat, s: seq<Bytes>)
    requires k >= 1 && |s| == k + 1 && SizesAgree(s) && |PresentAt(s)| >= k
    ensures IsRows(FillGap(k, s), k + 1, FirstSize(s)) && Matches(s, FillGap(k, s))
  {
    forall i: nat | i < |s| && i != Gap(s) ensures s[i] != [] { OnlyGap(k, s, i); }
  }

  lemma FillsCodewords(k: nat, d: seq<Bytes>, s: seq<Bytes>, len: nat)
    requires 1 <= k <= 255 && Decodes(ChecksumCode(k), d, s, len)
    ensures FillGap(k, s) == Codeword(ChecksumCode(k), d)
  {
    var w, j, f := Codeword(ChecksumCode(k), d), Gap(s), FillGap(k, s);
    forall i: nat | i < |s| && i != j ensures s[i] == w[i] && |w[i]| == len { OnlyGap(k, s, i); }
    FirstSizeIs(s, len);
    if j < k {
      assert s[..k] == d[j := []] && s[k] == Checksum(d);
      assert FirstSize(s) == len by {
        var i := if j == 0 then 1 else 0;
        assert s[i] != [];
      }
      MissingRow(d, j, len);
    } else if j == k {
      assert s[..k] == d;
    }
    assert f == w;
  }

  /** A data row is the checksum without the other rows. */
  lemma MissingRow(d: seq<Bytes>, j: nat, len: nat)
    requires j < |d| && IsRows(d, |d|, len)
    ensures seq(len, col requires 0 <= col < len => (At(Checksum(d), col) - ColumnSum(d[j := []], col)) % 256) == d[j]
  {
    forall col: nat | col < len ensures (At(Checksum(d), col) - ColumnSum(d[j := []], col)) % 256 == d[j][col] {
      ColumnSumUpdate(d, j, col);
    }
  }

  /** The assumption ValidCode is met for every k up to 255. */
  lemma ChecksumIsValid(k: nat)
    requires 1 <= k <= 255
    ensures ValidCode(ChecksumCode(k))
  {
    var c := ChecksumCode(k);
    forall d, s, len | Decodes(c, d, s, len) ensures c.fill(s) == Codeword(c, d) {
      FillsCodewords(k, d, s, len);
    }
    forall s | |s| == k + 1 && SizesAgree(s) && |PresentAt(s)| >= k
      ensures IsRows(c.fill(s), k + 1, FirstSize(s)) && Matches(s, c.fill(s))
    {
      FillsAnyRows(k, s);
    }
  }
}
