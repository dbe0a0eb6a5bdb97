/**
 The content-addressed object store: the path of a hash, and the store as the map from
 hashes to bytes that its callers see.
 */
module ContentStore {
  import opened Basics

  const HASH_SIZE: nat := 32
  const OBJECT_DIR_NAME: string := "objects"
  const PATH_BLOCK_SIZE: nat := 5

  /* ---- Hexadecimal ---- */

  const HEX_DIGITS: string := "0123456789abcdef"

  function Digit(n: nat): char
    requires n < 16
  {
    HEX_DIGITS[n]
  }

  function Value(c: char): nat {
    if '0' <= c <= '9' then (c - '0') as nat else if 'a' <= c <= 'f' then (c - 'a') as nat + 10 else 0
  }

  function Hex(b: Bytes): (s: string)
    ensures |s| == 2 * |b|
  {
    if b == [] then "" else [Digit(b[0] / 16), Digit(b[0] % 16)] + Hex(b[1..])
  }

  function Unhex(s: string): Bytes
    decreases |s|
  {
    if |s| < 2 then [] else [(16 * Value(s[0]) + Value(s[1])) % 256] + Unhex(s[2..])
  }

  lemma DigitValue(n: nat)
    requires n < 16
    ensures Value(Digit(n)) == n && Digit(n) != '/'
  {
  }

  /** The lower-case hexadecimal digits, by their codes. */
  lemma DigitIs(n: nat)
    requires n < 16
    ensures Digit(n) as nat == if n < 10 then 48 + n else 97 + (n - 10)
  {
  }

  /** Two digits a byte, the high one first. */
  lemma {:induction false} HexDigits(b: Bytes, i: nat)
    requires i < |b|
    ensures Value(Hex(b)[2 * i]) == b[i] / 16 && Value(Hex(b)[2 * i + 1]) == b[i] % 16
    ensures Hex(b)[2 * i] == Digit(b[i] / 16) && Hex(b)[2 * i + 1] == Digit(b[i] % 16)
  {
    HexFirst(b);
    if i == 0 {
      DigitValue(b[0] / 16);
      DigitValue(b[0] % 16);
    } else {
      HexDigits(b[1..], i - 1);
      assert Hex(b)[2 * i] == Hex(b)[2..][2 * (i - 1)] && Hex(b)[2 * i + 1] == Hex(b)[2..][2 * (i - 1) + 1];
    }
  }

  predicate NoSlash(s: string) {
    forall i :: 0 <= i < |s| ==> s[i] != '/'
  }

  lemma ByteDigits(x: Byte)
    ensures (16 * Value(Digit(x / 16)) + Value(Digit(x % 16))) % 256 == x
    ensures Digit(x / 16) != '/' && Digit(x % 16) != '/'
  {
    DigitValue(x / 16);
    DigitValue(x % 16);
  }

  lemma HexFirst(b: Bytes)
    requires b != []
    ensures Hex(b)[0] == Digit(b[0] / 16) && Hex(b)[1] == Digit(b[0] % 16) && Hex(b)[2..] == Hex(b[1..])
  {
  }

  lemma NoSlashFirst(s: string)
    requires |s| >= 2 && s[0] != '/' && s[1] != '/' && NoSlash(s[2..])
    ensures NoSlash(s)
  {
    forall i | 0 <= i < |s| ensures s[i] != '/' {
      if i >= 2 {
        assert s[i] == s[2..][i - 2];
      }
    }
  }

  lemma {:induction false} HexRoundTrip(b: Bytes)
    ensures Unhex(Hex(b)) == b && NoSlash(Hex(b))
  {
    if b != [] {
      HexFirst(b);
      ByteDigits(b[0]);
      HexRoundTrip(b[1..]);
      NoSlashFirst(Hex(b));
      assert b == [b[0]] + b[1..];
    }
  }

  /* ---- Paths ---- */

  datatype PathKey = PathKey(dirPath: string, filename: string)

  /** filepath.Join on non-empty segments without slashes or dots. */
  function JoinPath(segments: seq<string>): string {
    if segments == [] then ""
    else if |segments| == 1 then segments[0]
    else JoinPath(segments[..|segments| - 1]) + "/" + segments[|segments| - 1]
  }

  /** The first n pieces of 5 characters. */
  function Pieces(s: string, n: nat): seq<string>
    requires n * PATH_BLOCK_SIZE <= |s|
  {
    seq(n, i requires 0 <= i < n => s[i * PATH_BLOCK_SIZE..i * PATH_BLOCK_SIZE + PATH_BLOCK_SIZE])
  }

  function PathOf(hash: Bytes): PathKey
    requires |hash| == HASH_SIZE
  {
    PathKey(JoinPath(Pieces(Hex(hash), 12)), Hex(hash)[60..])
  }

  method CASPathTransform(hash: Bytes) returns (key: PathKey)
    requires |hash| == HASH_SIZE
    ensures key == PathOf(hash)
    ensures |key.filename| == 4 && |key.dirPath| == 71 && forall i :: 0 <= i < 71 ==> (key.dirPath[i] == '/' <==> i % 6 == 5)
  {
    PathLayout(hash);
    var hashStr := Hex(hash);
    var sliceLen := |hashStr| / PATH_BLOCK_SIZE;
    var paths := new string[sliceLen](_ => "");
    for i := 0 to sliceLen
      invariant forall j :: 0 <= j < i ==> paths[j] == hashStr[j * PATH_BLOCK_SIZE..j * PATH_BLOCK_SIZE + PATH_BLOCK_SIZE]
    {
      var from, to := i * PATH_BLOCK_SIZE, i * PATH_BLOCK_SIZE + PATH_BLOCK_SIZE;
      paths[i] := hashStr[from..to];
    }
    assert paths[..] == Pieces(hashStr, 12);
    key := PathKey(JoinPath(paths[..]), hashStr[sliceLen * PATH_BLOCK_SIZE..]);
  }

  predicate EveryNth(s: string, count: nat) {
    && |s| == 6 * count - 1
    && forall i :: 0 <= i < |s| ==> (s[i] == '/' <==> i % 6 == 5)
  }

  lemma SixthPlaces(s: string, last: string, count: nat)
    requires count >= 1 && EveryNth(s, count) && |last| == 5 && NoSlash(last)
    ensures EveryNth(s + "/" + last, count + 1)
  {
    var t := s + "/" + last;
    forall i | 0 <= i < |t| ensures t[i] == '/' <==> i % 6 == 5 {
      if i < |s| {
        assert t[i] == s[i];
      } else if i == |s| {
        assert t[i] == '/' && i == 6 * (count - 1) + 5;
      } else {
        var k := i - |s| - 1;
        assert t[i] == last[k] && i == 6 * count + k && k < 5;
      }
    }
  }

  /** Segments of five characters, joined: a separator at every sixth place and nowhere else. */
  lemma {:induction false} JoinLayout(ps: seq<string>)
    requires ps != [] && forall i :: 0 <= i < |ps| ==> |ps[i]| == 5 && NoSlash(ps[i])
    ensures EveryNth(JoinPath(ps), |ps|)
  {
    var n := |ps| - 1;
    if n == 0 {
      assert forall i :: 0 <= i < 5 ==> i % 6 != 5;
    } else {
      JoinLayout(ps[..n]);
      SixthPlaces(JoinPath(ps[..n]), ps[n], n);
    }
  }

  /**
   Twelve directories of five characters and a filename of four: 71 characters with a
   separator at every sixth place, which without them are the first 60 digits of the hash.
   */
  lemma PathLayout(hash: Bytes)
    requires |hash| == 32
    ensures var key := PathOf(hash);
            && |key.filename| == 4 && |key.dirPath| == 71
            && (forall i :: 0 <= i < 71 ==> (key.dirPath[i] == '/' <==> i % 6 == 5))
            && Unsplit(key.dirPath) == Hex(hash)[..60] && key.filename == Hex(hash)[60..]
  {
    HexRoundTrip(hash);
    PiecesRejoin(Hex(hash), 12);
    JoinLayout(Pieces(Hex(hash), 12));
  }

  /** The path without its separators. */
  function Unsplit(s: string): string {
    if s == "" then "" else (if s[0] == '/' then "" else [s[0]]) + Unsplit(s[1..])
  }

  lemma {:induction false} UnsplitConcat(a: string, b: string)
    ensures Unsplit(a + b) == Unsplit(a) + Unsplit(b)
  {
    if a == "" {
      assert a + b == b;
    } else {
      assert (a + b)[1..] == a[1..] + b;
      UnsplitConcat(a[1..], b);
    }
  }

  lemma {:induction false} UnsplitPlain(s: string)
    requires NoSlash(s)
    ensures Unsplit(s) == s
  {
    if s != "" {
      UnsplitPlain(s[1..]);
    }
  }

  lemma NoSlashSlice(s: string, from: nat, to: nat)
    requires NoSlash(s) && from <= to <= |s|
    ensures Unsplit(s[from..to]) == s[from..to]
  {
    UnsplitPlain(s[from..to]);
  }

  lemma PiecesSnoc(s: string, n: nat)
    requires n > 0 && n * PATH_BLOCK_SIZE <= |s|
    ensures Pieces(s, n) == Pieces(s, n - 1) + [s[(n - 1) * PATH_BLOCK_SIZE..n * PATH_BLOCK_SIZE]]
  {
  }

  lemma JoinSnoc(ps: seq<string>, last: string)
    ensures Unsplit(JoinPath(ps + [last])) == Unsplit(JoinPath(ps)) + Unsplit(last)
  {
    if ps != [] {
      assert (ps + [last])[..|ps|] == ps;
      UnsplitConcat(JoinPath(ps) + "/", last);
      UnsplitConcat(JoinPath(ps), "/");
      assert Unsplit("/") == "";
    }
  }

  lemma SliceJoin(s: string, from: nat, to: nat)
    requires from <= to <= |s|
    ensures s[..from] + s[from..to] == s[..to]
  {
  }

  lemma {:induction false} PiecesRejoin(s: string, n: nat)
    requires NoSlash(s) && n * PATH_BLOCK_SIZE <= |s|
    ensures Unsplit(JoinPath(Pieces(s, n))) == s[..n * PATH_BLOCK_SIZE]
  {
    if n > 0 {
      var from, to := (n - 1) * PATH_BLOCK_SIZE, n * PATH_BLOCK_SIZE;
      PiecesRejoin(s, n - 1);
      PiecesSnoc(s, n);
      JoinSnoc(Pieces(s, n - 1), s[from..to]);
      NoSlashSlice(s, from, to);
      SliceJoin(s, from, to);
    }
  }

  /** The hash can be read back off its path, so different hashes have different paths. */
  lemma PathInvertible(hash: Bytes)
    requires |hash| == HASH_SIZE
    ensures Unhex(Unsplit(PathOf(hash).dirPath) + PathOf(hash).filename) == hash
  {
    HexRoundTrip(hash);
    PiecesRejoin(Hex(hash), 12);
    assert Hex(hash)[..60] + Hex(hash)[60..] == Hex(hash);
  }

  function FilePath(root: string, hash: Bytes): string
    requires |hash| == HASH_SIZE
  {
    root + "/" + OBJECT_DIR_NAME + "/" + PathOf(hash).dirPath + "/" + PathOf(hash).filename
  }

  /** Root, the directory "objects", the directories of the hash and the filename. */
  lemma FileLayout(root: string, hash: Bytes)
    requires |hash| == 32
    ensures FilePath(root, hash) == root + "/objects/" + PathOf(hash).dirPath + "/" + PathOf(hash).filename
    ensures |FilePath(root, hash)| == |root| + 85
  {
    PathLayout(hash);
  }

  lemma SameLengthTail(a: string, b: string, a': string, b': string)
    requires a + b == a' + b' && |b| == |b'|
    ensures a == a' && b == b'
  {
    assert a == (a + b)[..|a|] && b == (a + b)[|a|..];
    assert a' == (a' + b')[..|a'|] && b' == (a' + b')[|a'|..];
  }

  lemma FilePathInjective(root: string, hash: Bytes, hash': Bytes)
    requires |hash| == |hash'| == HASH_SIZE && FilePath(root, hash) == FilePath(root, hash')
    ensures hash == hash'
  {
    var k, k', top := PathOf(hash), PathOf(hash'), root + "/" + OBJECT_DIR_NAME + "/";
    assert top + k.dirPath + "/" + k.filename == top + k'.dirPath + "/" + k'.filename;
    SameLengthTail(top + k.dirPath + "/", k.filename, top + k'.dirPath + "/", k'.filename);
    SameLengthTail(top + k.dirPath, "/", top + k'.dirPath, "/");
    assert k.dirPath == (top + k.dirPath)[|top|..] == (top + k'.dirPath)[|top|..] == k'.dirPath;
    PathInvertible(hash);
    PathInvertible(hash');
  }

  /* ---- The store ---- */

  function Lookup(root: string, files: map<string, Bytes>, hash: Bytes): Option<Bytes>
    requires |hash| == HASH_SIZE
  {
    if FilePath(root, hash) in files then Some(files[FilePath(root, hash)]) else None
  }

  datatype Verdict = Verified | NotFound | Corrupted

  function Verify(root: string, files: map<string, Bytes>, sha256: Bytes -> Bytes, hash: Bytes): Verdict
    requires |hash| == HASH_SIZE
  {
    var data := Lookup(root, files, hash);
    if data.None? then NotFound else if sha256(data.value) == hash then Verified else Corrupted
  }

  class ObjectStore {
    const rootDir: string
    const sha256: Bytes -> Bytes
    var files: map<string, Bytes>
    ghost var faults: nat  // failed calls into the file system

    constructor (rootDir: string, sha256: Bytes -> Bytes)
      ensures this.rootDir == rootDir && this.sha256 == sha256 && files == map[] && faults == 0
    {
      this.rootDir := rootDir;
      this.sha256 := sha256;
      this.files := map[];
      this.faults := 0;
    }

    /** As intended: the file lies where GetCAS looks for it. */
    method SaveCAS(hash: Bytes, data: Bytes) returns (ok: bool)
      requires |hash| == HASH_SIZE
      modifies this
      ensures faults == old(faults) + if ok then 0 else 1
      ensures files == if ok then old(files)[FilePath(rootDir, hash) := data] else old(files)
      ensures forall h {:trigger Lookup(rootDir, files, h)} :: |h| == HASH_SIZE ==>
                Lookup(rootDir, files, h) == if ok && h == hash then Some(data) else Lookup(rootDir, old(files), h)
    {
      var key := CASPathTransform(hash);
      var path := rootDir + "/" + OBJECT_DIR_NAME + "/" + key.dirPath + "/" + key.filename;
      ok := *;
      if !ok {
        faults := faults + 1;
      } else {
        files := files[path := data];
        SaveIsUpdate(rootDir, old(files), hash, data);
        assert files == old(files)[FilePath(rootDir, hash) := data];
      }
    }

    method GetCAS(hash: Bytes) returns (data: Option<Bytes>)
      requires |hash| == HASH_SIZE
      ensures data == Lookup(rootDir, files, hash)
    {
      var key := CASPathTransform(hash);
      var path := rootDir + "/" + OBJECT_DIR_NAME + "/" + key.dirPath + "/" + key.filename;
      data := if path in files then Some(files[path]) else None;
    }

    method ExistsCAS(hash: Bytes) returns (there: bool)
      requires |hash| == HASH_SIZE
      ensures there <==> Lookup(rootDir, files, hash).Some?
    {
      var key := CASPathTransform(hash);
      there := rootDir + "/" + OBJECT_DIR_NAME + "/" + key.dirPath + "/" + key.filename in files;
    }

    method VerifyCAS(hash: Bytes) returns (v: Verdict)
      requires |hash| == HASH_SIZE
      ensures v == Verify(rootDir, files, sha256, hash)
      ensures v == NotFound <==> Lookup(rootDir, files, hash) == None
      ensures v == Verified <==> exists data :: Lookup(rootDir, files, hash) == Some(data) && sha256(data) == hash
    {
      var data := GetCAS(hash);
      if data.None? {
        return NotFound;
      }
      var computed := sha256(data.value);
      v := if computed == hash then Verified else Corrupted;
    }
  }

  lemma SaveIsUpdate(root: string, files: map<string, Bytes>, hash: Bytes, data: Bytes)
    requires |hash| == HASH_SIZE
    ensures forall h {:trigger Lookup(root, files[FilePath(root, hash) := data], h)} :: |h| == HASH_SIZE ==>
              Lookup(root, files[FilePath(root, hash) := data], h) ==
                if h == hash then Some(data) else Lookup(root, files, h)
  {
    forall h | |h| == HASH_SIZE
      ensures Lookup(root, files[FilePath(root, hash) := data], h) ==
                if h == hash then Some(data) else Lookup(root, files, h)
    {
      if FilePath(root, h) == FilePath(root, hash) {
        FilePathInjective(root, h, hash);
      }
    }
  }

  /* ---- Any history of saves ---- */

  datatype Save = Save(hash: Bytes, data: Bytes)

  predicate Hashes(saves: seq<Save>) {
    forall i :: 0 <= i < |saves| ==> |saves[i].hash| == HASH_SIZE
  }

  function AfterSaves(root: string, saves: seq<Save>): map<string, Bytes>
    requires Hashes(saves)
  {
    if saves == [] then map[] else
    var last := saves[|saves| - 1];
    AfterSaves(root, saves[..|saves| - 1])[FilePath(root, last.hash) := last.data]
  }

  function LastSaved(saves: seq<Save>, hash: Bytes): Option<Bytes> {
    if saves == [] then None
    else if saves[|saves| - 1].hash == hash then Some(saves[|saves| - 1].data)
    else LastSaved(saves[..|saves| - 1], hash)
  }

  /** GetCAS returns the last data saved under the hash. */
  lemma {:induction false} StoreRefinesMap(root: string, saves: seq<Save>, hash: Bytes)
    requires Hashes(saves) && |hash| == HASH_SIZE
    ensures Lookup(root, AfterSaves(root, saves), hash) == LastSaved(saves, hash)
  {
    if saves != [] {
      var before, last := saves[..|saves| - 1], saves[|saves| - 1];
      StoreRefinesMap(root, before, hash);
      SaveIsUpdate(root, AfterSaves(root, before), last.hash, last.data);
    }
  }

  lemma {:induction false} LastSavedIsSaved(saves: seq<Save>, hash: Bytes)
    ensures LastSaved(saves, hash).Some? ==> exists i :: 0 <= i < |saves| && saves[i] == Save(hash, LastSaved(saves, hash).value)
    ensures LastSaved(saves, hash).None? <==> forall i :: 0 <= i < |saves| ==> saves[i].hash != hash
  {
    if saves != [] && saves[|saves| - 1].hash != hash {
      var before := saves[..|saves| - 1];
      LastSavedIsSaved(before, hash);
      assert forall i :: 0 <= i < |before| ==> before[i] == saves[i];
    } else if saves != [] {
      assert saves[|saves| - 1] == Save(hash, LastSaved(saves, hash).value);
    }
  }

  /** Saved under their own hashes, all data verify: exactly what was saved does. */
  lemma OwnHashesVerify(root: string, saves: seq<Save>, sha256: Bytes -> Bytes, hash: Bytes)
    requires Hashes(saves) && |hash| == HASH_SIZE
    requires forall i :: 0 <= i < |saves| ==> saves[i].hash == sha256(saves[i].data)
    ensures Verify(root, AfterSaves(root, saves), sha256, hash) ==
              if exists i :: 0 <= i < |saves| && saves[i].hash == hash then Verified else NotFound
  {
    StoreRefinesMap(root, saves, hash);
    LastSavedIsSaved(saves, hash);
  }

  /** After any history of saves a hash verifies exactly if the last data saved under it have it. */
  lemma VerifiesExactly(root: string, saves: seq<Save>, sha256: Bytes -> Bytes, hash: Bytes)
    requires Hashes(saves) && |hash| == HASH_SIZE
    ensures var v, last := Verify(root, AfterSaves(root, saves), sha256, hash), LastSaved(saves, hash);
            && (v == NotFound <==> last == None)
            && (v == Verified <==> last.Some? && sha256(last.value) == hash)
            && (v == Corrupted <==> last.Some? && sha256(last.value) != hash)
  {
    StoreRefinesMap(root, saves, hash);
  }

  /* ---- As line 116 of the source writes it ---- */

  /** The file is written under its bare filename, in the working directory. */
  function SaveAsWritten(cwd: string, files: map<string, Bytes>, hash: Bytes, data: Bytes): map<string, Bytes>
    requires |hash| == HASH_SIZE
  {
    files[cwd + "/" + PathOf(hash).filename := data]
  }

  /** Where GetCAS looks for the file of this hash. */
  function DirOf(root: string, hash: Bytes): string
    requires |hash| == HASH_SIZE
  {
    root + "/" + OBJECT_DIR_NAME + "/" + PathOf(hash).dirPath
  }

  /**
   As written, GetCAS sees a save exactly where the filenames agree and the process works
   in the very directory of the object it looks up.
   */
  lemma SaveAsWrittenSeenExactly(root: string, cwd: string, files: map<string, Bytes>, hash: Bytes, data: Bytes, h: Bytes)
    requires |hash| == |h| == HASH_SIZE
    ensures Lookup(root, SaveAsWritten(cwd, files, hash, data), h) ==
              if cwd == DirOf(root, h) && PathOf(h).filename == PathOf(hash).filename then Some(data)
              else Lookup(root, files, h)
  {
    var name, name' := PathOf(hash).filename, PathOf(h).filename;
    if FilePath(root, h) == cwd + "/" + name {
      assert DirOf(root, h) + "/" + name' == cwd + "/" + name;
      SameLengthTail(DirOf(root, h) + "/", name', cwd + "/", name);
      SameLengthTail(DirOf(root, h), "/", cwd, "/");
    }
  }

  lemma {:induction false} HexTail(b: Bytes, n: nat)
    requires n <= |b|
    ensures Hex(b)[2 * n..] == Hex(b[n..])
  {
    if n > 0 {
      HexTail(b[1..], n - 1);
      assert b[1..][n - 1..] == b[n..];
      assert Hex(b)[2..] == Hex(b[1..]);
      assert Hex(b)[2 * n..] == Hex(b)[2..][2 * (n - 1)..];
    }
  }

  /** As written, hashes overwrite each other exactly when their last two bytes agree. */
  lemma SaveAsWrittenCollides(hash: Bytes, hash': Bytes)
    requires |hash| == |hash'| == HASH_SIZE
    ensures PathOf(hash).filename == PathOf(hash').filename <==> hash[30..] == hash'[30..]
  {
    HexTail(hash, 30);
    HexTail(hash', 30);
    HexRoundTrip(hash[30..]);
    HexRoundTrip(hash'[30..]);
  }
}
