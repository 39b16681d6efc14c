/** The usual optional-value wrapper, standing for Python's None and JavaScript's absent values. */
module Wrappers {
  datatype Option<+T> = None | Some(value: T)
}

/** String helpers shared by the server, the e-mail agent and the dashboard. */
module Strings {

  predicate IsAsciiDigit(c: char) {
    '0' <= c <= '9'
  }

  function LowerChar(c: char): char {
    if 'A' <= c <= 'Z' then (c as int + 32) as char else c
  }

  /** `str.lower()` / `String.prototype.toLowerCase()`, on ASCII letters only. */
  function Lower(s: string): (r: string)
    ensures |r| == |s|
    ensures forall i :: 0 <= i < |s| ==> r[i] == LowerChar(s[i])
  {
    if s == [] then [] else [LowerChar(s[0])] + Lower(s[1..])
  }

  /** `pat` occurs in `s` starting at index `i`. */
  predicate OccursAt(s: string, pat: string, i: int) {
    0 <= i && i + |pat| <= |s| && s[i..i + |pat|] == pat
  }

  /** Python's `pat in s`. */
  predicate Contains(s: string, pat: string) {
    exists i | 0 <= i <= |s| :: OccursAt(s, pat, i)
  }

  /**
   * The matches of `sep` that Python's `str.split` finds in `s`, scanning left to right
   * from `from`: each match is taken, and the scan resumes after it, so matches never
   * overlap; an occurrence that overlaps a match already taken is skipped.
   */
  function SplitMatches(s: string, sep: string, from: nat): (r: seq<nat>)
    requires |sep| > 0
    ensures forall k :: 0 <= k < |r| ==> from <= r[k] && OccursAt(s, sep, r[k])
    ensures forall k :: 0 <= k < |r| - 1 ==> r[k] + |sep| <= r[k + 1]
    decreases |s| - from
  {
    if from + |sep| > |s| then []
    else if OccursAt(s, sep, from) then
      var rest := SplitMatches(s, sep, from + |sep|);
      assert forall k :: 1 <= k < |rest| + 1 ==> ([from] + rest)[k] == rest[k - 1];
      [from] + rest
    else SplitMatches(s, sep, from + 1)
  }

  /** Where a scan from `from` that took the matches `m` (of width `w`) stopped taking them. */
  function ScanEnd(m: seq<nat>, from: nat, w: nat): nat {
    if m == [] then from else m[|m| - 1] + w
  }

  /** After the scan's last match there is no occurrence left. */
  lemma {:induction false} NoMatchAfterScan(s: string, sep: string, from: nat)
    requires |sep| > 0
    ensures forall j :: ScanEnd(SplitMatches(s, sep, from), from, |sep|) <= j ==> !OccursAt(s, sep, j)
    decreases |s| - from
  {
    var m := SplitMatches(s, sep, from);
    if from + |sep| <= |s| {
      if OccursAt(s, sep, from) {
        var rest := SplitMatches(s, sep, from + |sep|);
        NoMatchAfterScan(s, sep, from + |sep|);
        assert m == [from] + rest;
        assert ScanEnd(m, from, |sep|) == ScanEnd(rest, from + |sep|, |sep|);
      } else {
        NoMatchAfterScan(s, sep, from + 1);
        assert ScanEnd(m, from, |sep|) == ScanEnd(m, from + 1, |sep|) || m == [];
      }
    }
  }

  /** Position `j` is one of the matches in `m`, or lies inside one of width `w`. */
  predicate Covered(m: seq<nat>, w: nat, j: int) {
    j in m || exists k :: 0 <= k < |m| && m[k] < j < m[k] + w
  }

  lemma CoveredCons(x: nat, m: seq<nat>, w: nat, j: int)
    requires Covered(m, w, j)
    ensures Covered([x] + m, w, j)
  {
    var xm := [x] + m;
    if j !in m {
      var k :| 0 <= k < |m| && m[k] < j < m[k] + w;
      assert xm[k + 1] == m[k];
    }
  }

  /** The scan misses no occurrence except those overlapping a match it took. */
  lemma {:induction false} SplitMatchesMaximal(s: string, sep: string, from: nat, j: nat)
    requires |sep| > 0 && from <= j && OccursAt(s, sep, j)
    ensures Covered(SplitMatches(s, sep, from), |sep|, j)
    decreases |s| - from
  {
    var m := SplitMatches(s, sep, from);
    if OccursAt(s, sep, from) {
      var rest := SplitMatches(s, sep, from + |sep|);
      assert m == [from] + rest;
      if from + |sep| <= j {
        SplitMatchesMaximal(s, sep, from + |sep|, j);
        CoveredCons(from, rest, |sep|, j);
      } else {
        assert m[0] < j < m[0] + |sep| || j == m[0];
      }
    } else {
      assert j != from;
      SplitMatchesMaximal(s, sep, from + 1, j);
    }
  }

  /** Where the last piece of `s.split(sep)` begins: right after the last match, or at 0. */
  function LastPieceFrom(s: string, sep: string): (k: nat)
    requires |sep| > 0
    ensures k <= |s|
  {
    ScanEnd(SplitMatches(s, sep, 0), 0, |sep|)
  }

  /**
   * Python's `s.split(sep)[-1]`: the text after the last match of the non-overlapping
   * scan, which holds no occurrence of `sep`; all of `s` when `sep` does not occur in it.
   */
  function AfterLast(s: string, sep: string): (r: string)
    requires |sep| > 0
    ensures r == s[LastPieceFrom(s, sep)..]
    ensures |r| <= |s| && r == s[|s| - |r|..]
    ensures |r| < |s| ==> OccursAt(s, sep, |s| - |r| - |sep|)
    ensures forall j :: |s| - |r| <= j ==> !OccursAt(s, sep, j)
  {
    NoMatchAfterScan(s, sep, 0);
    s[LastPieceFrom(s, sep)..]
  }

  /** Python's `s.split(c)[0]` for a one-character separator: the text before the first `c`. */
  function BeforeFirst(s: string, c: char): (r: string)
    ensures |r| <= |s| && r == s[..|r|]
    ensures c !in r
    ensures |r| < |s| ==> s[|r|] == c
  {
    if s == [] || s[0] == c then [] else [s[0]] + BeforeFirst(s[1..], c)
  }
}
