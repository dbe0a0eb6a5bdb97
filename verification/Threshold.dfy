/** The rules of a capsule request: what validate accepts, and the default key threshold. */
module Threshold {
  import opened Basics
  import opened Placement

  const DEFAULT_SILENCE_PERIOD: int := 168 * 3600 * 1_000_000_000  // 7 days in nanoseconds

  function DefaultThreshold(n: int): int {
    if n <= 3 then 2
    else if n <= 5 then (n + 1) / 2 + 1
    else if n <= 7 then (2 * n + 2) / 3
    else (3 * n + 2) / 5
  }

  /**
   2 for up to 3 guardians, one more than half of them rounded up for 4 and 5, two thirds
   rounded up for 6 and 7, and from 8 on the integer nearest to 60 percent.
   */
  ghost predicate IsDefault(n: int, t: int) {
    && (n <= 3 ==> t == 2)
    && (4 <= n <= 5 ==> 2 * (t - 2) < n <= 2 * (t - 1))
    && (6 <= n <= 7 ==> 3 * (t - 1) < 2 * n <= 3 * t)
    && (n >= 8 ==> -2 <= 5 * t - 3 * n <= 2)
  }

  lemma DefaultIs(n: int)
    ensures IsDefault(n, DefaultThreshold(n))
  {
  }

  /** No other number is. */
  lemma DefaultIsOnly(n: int, t: int)
    requires IsDefault(n, t)
    ensures t == DefaultThreshold(n)
  {
    DefaultIs(n);
  }

  /** At least 2, fewer than all, and more than half. */
  lemma DefaultIsQuorum(n: int)
    requires n >= 3
    ensures 2 <= DefaultThreshold(n) < n && n < 2 * DefaultThreshold(n)
  {
  }

  lemma DefaultIsMonotone(n: int, n': int)
    requires n <= n'
    ensures DefaultThreshold(n) <= DefaultThreshold(n')
  {
    if n <= 7 && n' >= 8 {
      assert DefaultThreshold(n) <= 5 && DefaultThreshold(n') >= 5;
    }
  }

  /** Any two groups of default threshold size share a guardian. */
  lemma QuorumsMeet<T>(guardians: set<T>, a: set<T>, b: set<T>)
    requires |guardians| >= 3 && a <= guardians && b <= guardians
    requires |a| >= DefaultThreshold(|guardians|) && |b| >= DefaultThreshold(|guardians|)
    ensures a * b != {}
  {
    DefaultIsQuorum(|guardians|);
    if a * b == {} {
      assert a !! b by {
        forall x | x in a ensures x !in b { assert x !in a * b; }
      }
      DisjointSize(a, b);
      SubsetSize(a + b, guardians);
    }
  }

  /* ---- validate ---- */

  datatype Defaults = Defaults(minNumOfGuardians: nat, maxNumOfGuardians: nat)

  datatype FileInfo = FileInfo(name: string, size: int)

  /** What Stat tells of the letter, if there is one. */
  datatype Letter = NoLetter | Unreadable | Readable(info: FileInfo)

  datatype RequestError =
    | TooFewGuardians
    | TooManyGuardians
    | NothingToSend
    | FileMissing
    | LetterUnreadable
    | LetterInvalid
    | ThresholdTooLow
    | ThresholdTooHigh

  function HasPaths(paths: seq<string>): bool {
    paths != [] && paths[0] != ""
  }

  /** The checks before the threshold is looked at. */
  function ContentError(n: nat, d: Defaults, letter: Letter, paths: seq<string>, missing: string -> bool): Option<RequestError> {
    if n < d.minNumOfGuardians then Some(TooFewGuardians)
    else if n > d.maxNumOfGuardians then Some(TooManyGuardians)
    else if letter.NoLetter? && !HasPaths(paths) then Some(NothingToSend)
    else if HasPaths(paths) && exists i :: 0 <= i < |paths| && missing(paths[i]) then Some(FileMissing)
    else match letter
         case NoLetter => None
         case Unreadable => Some(LetterUnreadable)
         case Readable(info) => if info.name == "" || info.size <= 0 then Some(LetterInvalid) else None
  }

  /** Enough guardians and not too many, something to send, no file missing and no letter that is not one. */
  ghost predicate Acceptable(n: nat, d: Defaults, letter: Letter, paths: seq<string>, missing: string -> bool) {
    && d.minNumOfGuardians <= n <= d.maxNumOfGuardians
    && (letter != NoLetter || (paths != [] && paths[0] != ""))
    && (paths != [] && paths[0] != "" ==> forall i :: 0 <= i < |paths| ==> !missing(paths[i]))
    && letter != Unreadable
    && (letter.Readable? ==> letter.info.name != "" && letter.info.size > 0)
  }

  /** When there is an error before the threshold is looked at, and which of them comes first. */
  lemma ContentErrors(n: nat, d: Defaults, letter: Letter, paths: seq<string>, missing: string -> bool)
    ensures var e := ContentError(n, d, letter, paths, missing);
            && (e == None <==> Acceptable(n, d, letter, paths, missing))
            && (e == Some(TooFewGuardians) <==> n < d.minNumOfGuardians)
            && (e == Some(TooManyGuardians) <==> d.minNumOfGuardians <= n && n > d.maxNumOfGuardians)
            && e in {None, Some(TooFewGuardians), Some(TooManyGuardians), Some(NothingToSend), Some(FileMissing),
                     Some(LetterUnreadable), Some(LetterInvalid)}
            && (d.minNumOfGuardians <= n <= d.maxNumOfGuardians ==>
                  && (e == Some(NothingToSend) <==> letter == NoLetter && (paths == [] || paths[0] == ""))
                  && (e == Some(FileMissing) <==>
                        paths != [] && paths[0] != "" && exists i :: 0 <= i < |paths| && missing(paths[i])))
            && (e == Some(LetterUnreadable) ==> letter == Unreadable)
            && (e == Some(LetterInvalid) ==> letter.Readable? && (letter.info.name == "" || letter.info.size <= 0))
  {
  }

  function ThresholdError(n: nat, threshold: int): Option<RequestError> {
    if threshold < 2 then Some(ThresholdTooLow)
    else if threshold > n then Some(ThresholdTooHigh)
    else None
  }

  function Effective(n: nat, threshold: int): int {
    if threshold == 0 then DefaultThreshold(n) else threshold
  }

  class CreateCapsuleDTO {
    const guardians: seq<Peer>
    const letter: Letter
    const filePaths: seq<string>
    var silencePeriod: int
    var threshold: int

    constructor (guardians: seq<Peer>, letter: Letter, filePaths: seq<string>, silencePeriod: int, threshold: int)
      ensures this.guardians == guardians && this.letter == letter && this.filePaths == filePaths
      ensures this.silencePeriod == silencePeriod && this.threshold == threshold
    {
      this.guardians, this.letter, this.filePaths := guardians, letter, filePaths;
      this.silencePeriod, this.threshold := silencePeriod, threshold;
    }

    method AnyMissing(missing: string -> bool) returns (found: bool)
      ensures found <==> exists i :: 0 <= i < |filePaths| && missing(filePaths[i])
    {
      for i := 0 to |filePaths|
        invariant forall j :: 0 <= j < i ==> !missing(filePaths[j])
      {
        if missing(filePaths[i]) {
          return true;
        }
      }
      return false;
    }

    /** Fills in the defaults it gets to, also when it then refuses the request. */
    method Validate(d: Defaults, missing: string -> bool) returns (r: Option<RequestError>)
      modifies this
      ensures var n := |guardians|;
              var content := ContentError(n, d, letter, filePaths, missing);
              && r == (if content.Some? then content else ThresholdError(n, threshold))
              && threshold == (if content.Some? then old(threshold) else Effective(n, old(threshold)))
              && (content == None && old(threshold) == 0 ==> IsDefault(n, threshold))
              && (old(threshold) != 0 ==> threshold == old(threshold))
              && (r == None <==> Acceptable(n, d, letter, filePaths, missing) && 2 <= threshold <= n)
              && silencePeriod == (if d.minNumOfGuardians <= n <= d.maxNumOfGuardians && old(silencePeriod) == 0
                                   then 604_800_000_000_000 else old(silencePeriod))
    {
      ContentErrors(|guardians|, d, letter, filePaths, missing);
      DefaultIs(|guardians|);
      if |guardians| < d.minNumOfGuardians {
        return Some(TooFewGuardians);
      }
      if |guardians| > d.maxNumOfGuardians {
        return Some(TooManyGuardians);
      }
      if silencePeriod == 0 {
        silencePeriod := DEFAULT_SILENCE_PERIOD;
      }
      var hasFilePaths := |filePaths| > 0 && filePaths[0] != "";
      if letter.NoLetter? && !hasFilePaths {
        return Some(NothingToSend);
      }
      if hasFilePaths {
        var anyMissing := AnyMissing(missing);
        if anyMissing {
          return Some(FileMissing);
        }
      }
      if letter.Unreadable? {
        return Some(LetterUnreadable);
      }
      if letter.Readable? && (letter.info.name == "" || letter.info.size <= 0) {
        return Some(LetterInvalid);
      }
      if threshold == 0 {
        threshold := DefaultThreshold(|guardians|);
      }
      if threshold < 2 {
        return Some(ThresholdTooLow);
      }
      if threshold > |guardians| {
        return Some(ThresholdTooHigh);
      }
      return None;
    }
  }

  /** A request that leaves the threshold open is never refused for it, from 2 guardians on. */
  lemma DefaultPassesExactly(n: nat)
    ensures ThresholdError(n, Effective(n, 0)) == None <==> n >= 2
  {
    if n >= 3 {
      DefaultIsQuorum(n);
    }
  }
}
