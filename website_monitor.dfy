/**
 * The hosts-file redirection script (website_monitor.py). The file is its text;
 * `readlines` splits it into lines that keep their '\n', the last one possibly
 * without. `redirect` appends the redirection entries; `revert` writes back every
 * line that is not exactly one of them.
 */
module WebsiteMonitor {

  const RedirectIp: string := "150.171.27.10"
  const DomainsToRedirect: seq<string> := ["google.com", "www.google.com"]

  /** One hosts entry per domain, in order: `f"{REDIRECT_IP} {domain}\n"`. */
  function EntriesFor(domains: seq<string>): (r: seq<string>)
    ensures |r| == |domains|
    ensures forall i :: 0 <= i < |domains| ==> r[i] == RedirectIp + " " + domains[i] + "\n"
  {
    if domains == [] then [] else [RedirectIp + " " + domains[0] + "\n"] + EntriesFor(domains[1..])
  }

  /** `get_redirection_lines()`. */
  function RedirectionLines(): seq<string> {
    EntriesFor(DomainsToRedirect)
  }

  // ---------------------------------------------------------------------------
  // Lines of a text
  // ---------------------------------------------------------------------------

  /** Writing the lines one after another. */
  function Concat(lines: seq<string>): string {
    if lines == [] then "" else lines[0] + Concat(lines[1..])
  }

  /** Length of the first line of `s`, its '\n' included when there is one. */
  function FirstLineLength(s: string): (n: nat)
    requires s != []
    ensures 0 < n <= |s|
    ensures forall j :: 0 <= j < n - 1 ==> s[j] != '\n'
    ensures n < |s| ==> s[n - 1] == '\n'
  {
    if s[0] == '\n' || |s| == 1 then 1 else 1 + FirstLineLength(s[1..])
  }

  /** `f.readlines()` on text `s`. */
  function ReadLines(s: string): seq<string>
    decreases |s|
  {
    if s == [] then [] else
      var n := FirstLineLength(s);
      [s[..n]] + ReadLines(s[n..])
  }

  /** A non-empty line with no '\n' before its last character. */
  predicate IsLine(l: string) {
    l != [] && forall k :: 0 <= k < |l| - 1 ==> l[k] != '\n'
  }

  predicate EndsInNewline(l: string) {
    l != [] && l[|l| - 1] == '\n'
  }

  /** What `readlines` can return: lines, each but the last ending in '\n'. */
  predicate LineSeq(lines: seq<string>) {
    && (forall i :: 0 <= i < |lines| ==> IsLine(lines[i]))
    && (forall i :: 0 <= i < |lines| - 1 ==> EndsInNewline(lines[i]))
  }

  /** Reading the lines and writing them back gives the text again. */
  lemma {:induction false} ConcatReadLines(s: string)
    ensures Concat(ReadLines(s)) == s
    decreases |s|
  {
    if s != [] {
      var n := FirstLineLength(s);
      ConcatReadLines(s[n..]);
      assert s == s[..n] + s[n..];
    }
  }

  /** `readlines` returns a line sequence. */
  lemma {:induction false} ReadLinesIsLineSeq(s: string)
    ensures LineSeq(ReadLines(s))
    decreases |s|
  {
    if s != [] {
      var n := FirstLineLength(s);
      ReadLinesIsLineSeq(s[n..]);
      var rest := ReadLines(s[n..]);
      if rest != [] {
        assert s[n..] != [];
        assert EndsInNewline(s[..n]);
      }
    }
  }

  /** Writing a line sequence and reading it back gives the same lines. */
  lemma {:induction false} ReadLinesConcat(lines: seq<string>)
    requires LineSeq(lines)
    ensures ReadLines(Concat(lines)) == lines
    decreases |lines|
  {
    if lines != [] {
      var first, tail := lines[0], Concat(lines[1..]);
      assert LineSeq(lines[1..]);
      ReadLinesConcat(lines[1..]);
      FirstLineOf(first, tail, |lines| > 1);
    }
  }

  /** A line written before more text is read back as the first line. */
  lemma FirstLineOf(first: string, tail: string, more: bool)
    requires IsLine(first)
    requires more ==> EndsInNewline(first)
    requires !more ==> tail == []
    ensures FirstLineLength(first + tail) == |first|
    ensures (first + tail)[..|first|] == first && (first + tail)[|first|..] == tail
  {
    var s := first + tail;
    if more {
      assert s[|first| - 1] == '\n';
    } else {
      assert s == first;
    }
    assert forall j :: 0 <= j < |first| - 1 ==> s[j] == first[j];
  }

  /** Writing distributes over appending. */
  lemma {:induction false} ConcatAppend(a: seq<string>, b: seq<string>)
    ensures Concat(a + b) == Concat(a) + Concat(b)
    decreases |a|
  {
    if a == [] {
      assert a + b == b;
    } else {
      assert (a + b)[0] == a[0] && (a + b)[1..] == a[1..] + b;
      ConcatAppend(a[1..], b);
      assert a[0] + (Concat(a[1..]) + Concat(b)) == (a[0] + Concat(a[1..])) + Concat(b);
    }
  }

  // ---------------------------------------------------------------------------
  // redirect / revert
  // ---------------------------------------------------------------------------

  /** The lines `revert` writes back: those not equal to any line of `drop`, in order. */
  function Kept(lines: seq<string>, drop: seq<string>): (r: seq<string>)
    ensures |r| <= |lines|
    ensures forall l :: l in r <==> l in lines && l !in drop
  {
    if lines == [] then []
    else (if lines[0] in drop then [] else [lines[0]]) + Kept(lines[1..], drop)
  }

  /** Filtering one more line of `lines` writes that line after the others, unless it is dropped. */
  lemma KeptSnoc(lines: seq<string>, i: nat, drop: seq<string>)
    requires i < |lines|
    ensures Concat(Kept(lines[..i + 1], drop)) ==
      Concat(Kept(lines[..i], drop)) + (if lines[i] in drop then "" else lines[i])
  {
    assert lines[..i + 1] == lines[..i] + [lines[i]];
    KeptAppend(lines[..i], [lines[i]], drop);
    ConcatAppend(Kept(lines[..i], drop), Kept([lines[i]], drop));
    if lines[i] !in drop {
      assert Concat([lines[i]]) == lines[i] + Concat([]);
    }
  }

  /** Filtering distributes over appending. */
  lemma {:induction false} KeptAppend(a: seq<string>, b: seq<string>, drop: seq<string>)
    ensures Kept(a + b, drop) == Kept(a, drop) + Kept(b, drop)
    decreases |a|
  {
    if a == [] {
      assert a + b == b;
    } else {
      assert (a + b)[0] == a[0] && (a + b)[1..] == a[1..] + b;
      KeptAppend(a[1..], b, drop);
      var head := if a[0] in drop then [] else [a[0]];
      assert Kept(a + b, drop) == head + Kept(a[1..] + b, drop);
      assert head + (Kept(a[1..], drop) + Kept(b, drop)) == (head + Kept(a[1..], drop)) + Kept(b, drop);
    }
  }

  /** Lines none of which is dropped are all kept. */
  lemma {:induction false} KeptAll(lines: seq<string>, drop: seq<string>)
    requires forall i :: 0 <= i < |lines| ==> lines[i] !in drop
    ensures Kept(lines, drop) == lines
    decreases |lines|
  {
    if lines != [] {
      KeptAll(lines[1..], drop);
    }
  }

  /** Lines all of which are dropped all go. */
  lemma KeptNone(lines: seq<string>, drop: seq<string>)
    requires forall l :: l in lines ==> l in drop
    ensures Kept(lines, drop) == []
  {
  }

  /** Dropping lines keeps a line sequence one: only its old last line can lack a '\n'. */
  lemma {:induction false} KeptIsLineSeq(lines: seq<string>, drop: seq<string>)
    requires LineSeq(lines)
    ensures LineSeq(Kept(lines, drop))
    decreases |lines|
  {
    if lines != [] {
      assert LineSeq(lines[1..]);
      KeptIsLineSeq(lines[1..], drop);
      var rest := Kept(lines[1..], drop);
      if rest != [] {
        assert rest[0] in lines[1..];
        assert |lines| > 1;
      }
    }
  }

  /** Two line sequences glued together, the first ending in a complete line, form one. */
  lemma LineSeqAppend(a: seq<string>, b: seq<string>)
    requires LineSeq(a) && LineSeq(b)
    requires a == [] || EndsInNewline(a[|a| - 1])
    ensures LineSeq(a + b)
  {
  }

  /** A text ending in '\n' has a last line ending in '\n'. */
  lemma {:induction false} LastLineComplete(s: string)
    requires s != [] && s[|s| - 1] == '\n'
    ensures ReadLines(s) != [] && EndsInNewline(ReadLines(s)[|ReadLines(s)| - 1])
    decreases |s|
  {
    var n := FirstLineLength(s);
    if n < |s| {
      LastLineComplete(s[n..]);
    }
  }

  /** A non-empty text not ending in '\n' has an unterminated last line. */
  lemma {:induction false} LastLineIncomplete(s: string)
    requires s != [] && s[|s| - 1] != '\n'
    ensures ReadLines(s) != [] && !EndsInNewline(ReadLines(s)[|ReadLines(s)| - 1])
    decreases |s|
  {
    var n := FirstLineLength(s);
    if n < |s| {
      LastLineIncomplete(s[n..]);
    }
  }

  /** Writing two lines. */
  lemma ConcatPair(a: string, b: string)
    ensures Concat([a, b]) == a + b
  {
    assert [a, b][1..] == [b];
    assert Concat([b]) == b + Concat([]);
  }

  /** Extending the last written line extends the written text. */
  lemma ConcatSnoc(front: seq<string>, x: string, y: string)
    ensures Concat(front + [x + y]) == Concat(front + [x]) + y
  {
    ConcatAppend(front, [x]);
    ConcatAppend(front, [x + y]);
    assert Concat([x]) == x + Concat([]);
    assert Concat([x + y]) == (x + y) + Concat([]);
    assert Concat(front) + (x + y) == (Concat(front) + x) + y;
  }

  /** An unterminated line extended by a line is a line. */
  lemma GlueIsLine(last: string, first: string)
    requires IsLine(last) && !EndsInNewline(last) && IsLine(first)
    ensures IsLine(last + first)
  {
    var merged := last + first;
    forall k | 0 <= k < |merged| - 1 ensures merged[k] != '\n' {
      if k < |last| {
        assert merged[k] == last[k];
      } else {
        assert merged[k] == first[k - |last|];
      }
    }
  }

  /** The lines after gluing: the front, the glued line and the second line. */
  lemma GluedLineSeq(front: seq<string>, last: string, first: string, second: string)
    requires LineSeq(front + [last]) && !EndsInNewline(last)
    requires IsLine(first) && EndsInNewline(first) && IsLine(second)
    ensures LineSeq(front + [last + first, second])
  {
    assert IsLine(last) by { assert (front + [last])[|front|] == last; }
    GlueIsLine(last, first);
    var all := front + [last + first, second];
    forall i | 0 <= i < |all| ensures IsLine(all[i]) && (i < |all| - 1 ==> EndsInNewline(all[i])) {
      if i < |front| {
        assert all[i] == (front + [last])[i];
      }
    }
  }

  /** Writing the front, the glued line and the second line is writing the text and both lines. */
  lemma GluedConcat(front: seq<string>, last: string, first: string, second: string)
    ensures Concat(front + [last + first, second]) == Concat(front + [last]) + (first + second)
  {
    ConcatAppend(front, [last]);
    ConcatAppend(front, [last + first, second]);
    ConcatPair(last + first, second);
    assert Concat([last]) == last + Concat([]);
    var c := Concat(front);
    assert (c + last) + (first + second) == c + ((last + first) + second);
  }

  /**
   * Text ending in an unterminated `last`, followed by two complete lines: the first of
   * them is glued to `last`, the second is a line of its own.
   */
  lemma GluedLines(front: seq<string>, last: string, first: string, second: string)
    requires LineSeq(front + [last]) && !EndsInNewline(last)
    requires IsLine(first) && EndsInNewline(first) && IsLine(second)
    ensures ReadLines(Concat(front + [last]) + (first + second)) == front + [last + first, second]
  {
    GluedLineSeq(front, last, first, second);
    ReadLinesConcat(front + [last + first, second]);
    GluedConcat(front, last, first, second);
  }

  // ---------------------------------------------------------------------------
  // redirect / revert
  // ---------------------------------------------------------------------------

  /** The text after `redirect`. */
  function Redirected(content: string): string {
    content + Concat(RedirectionLines())
  }

  /** The text after `revert`. */
  function Reverted(content: string): string {
    Concat(Kept(ReadLines(content), RedirectionLines()))
  }

  /** There are two redirection lines, for google.com and then www.google.com, both complete lines. */
  lemma RedirectionLinesPair()
    ensures RedirectionLines() == [RedirectionLines()[0], RedirectionLines()[1]]
    ensures RedirectionLines()[0] == RedirectIp + " " + "google.com" + "\n"
    ensures RedirectionLines()[1] == RedirectIp + " " + "www.google.com" + "\n"
    ensures forall i :: 0 <= i < |RedirectionLines()| ==> IsLine(RedirectionLines()[i]) && EndsInNewline(RedirectionLines()[i])
  {
    var r := RedirectionLines();
    forall i | 0 <= i < |r| ensures IsLine(r[i]) && EndsInNewline(r[i]) {
      assert r[i] == RedirectIp + " " + DomainsToRedirect[i] + "\n";
      assert '\n' !in RedirectIp + " " + DomainsToRedirect[i];
    }
  }

  /** There are two redirection lines, the first of them complete. */
  lemma RedirectionLinesShape()
    ensures |RedirectionLines()| == 2
    ensures IsLine(RedirectionLines()[0]) && EndsInNewline(RedirectionLines()[0]) && IsLine(RedirectionLines()[1])
  {
    RedirectionLinesPair();
  }

  /** A non-empty line glued to the first entry is none of the entries. */
  lemma GluedNotEntry(last: string)
    requires last != []
    ensures last + RedirectionLines()[0] !in RedirectionLines()
  {
    RedirectionLinesPair();
    var first, second := RedirectionLines()[0], RedirectionLines()[1];
    var merged := last + first;
    if |merged| == |second| {
      assert merged[5] == first[1] == RedirectIp[1];
      assert second[5] == RedirectIp[5];
    }
    assert merged != second;
  }

  /** No line of the file is exactly a redirection line. */
  predicate NoRedirectionLine(content: string) {
    forall l :: l in ReadLines(content) ==> l !in RedirectionLines()
  }

  /** Reverting twice is reverting once. */
  lemma RevertIdempotent(content: string)
    ensures Reverted(Reverted(content)) == Reverted(content)
  {
    var kept := Kept(ReadLines(content), RedirectionLines());
    ReadLinesIsLineSeq(content);
    KeptIsLineSeq(ReadLines(content), RedirectionLines());
    ReadLinesConcat(kept);
    KeptAll(kept, RedirectionLines());
  }

  /** On a file that is empty or ends in '\n', `redirect` adds exactly the redirection lines after the old ones. */
  lemma RedirectAppendsEntries(content: string)
    requires content == [] || content[|content| - 1] == '\n'
    ensures ReadLines(Redirected(content)) == ReadLines(content) + RedirectionLines()
  {
    var lines := ReadLines(content);
    ReadLinesIsLineSeq(content);
    ConcatReadLines(content);
    ConcatAppend(lines, RedirectionLines());
    if content != [] {
      LastLineComplete(content);
    }
    RedirectionLinesPair();
    LineSeqAppend(lines, RedirectionLines());
    ReadLinesConcat(lines + RedirectionLines());
  }

  /** Appending the dropped lines to lines none of which is dropped, then filtering, gives the lines back. */
  lemma KeptDropsAppended(lines: seq<string>, drop: seq<string>)
    requires forall l :: l in lines ==> l !in drop
    ensures Kept(lines + drop, drop) == lines
  {
    KeptAppend(lines, drop, drop);
    KeptAll(lines, drop);
    KeptNone(drop, drop);
  }

  /**
   * On a file that is empty or ends in '\n' and holds no redirection line, `revert`
   * undoes `redirect` exactly.
   */
  lemma RevertUndoesRedirect(content: string)
    requires content == [] || content[|content| - 1] == '\n'
    requires NoRedirectionLine(content)
    ensures Reverted(Redirected(content)) == content
  {
    RedirectAppendsEntries(content);
    KeptDropsAppended(ReadLines(content), RedirectionLines());
    ConcatReadLines(content);
  }

  /**
   * Filtering the front, a glued line that is kept and a dropped line keeps the front
   * and the glued line.
   */
  lemma KeptGlued(front: seq<string>, merged: string, second: string, drop: seq<string>)
    requires forall l :: l in front ==> l !in drop
    requires merged !in drop && second in drop
    ensures Kept(front + [merged, second], drop) == front + [merged]
  {
    KeptAppend(front, [merged, second], drop);
    KeptAll(front, drop);
    assert [merged, second][1..] == [second];
  }

  /**
   * Text ending in an unterminated `last`, followed by two complete lines the filter
   * drops: after filtering, the first of them is left glued to `last`.
   */
  lemma GluedSurvives(front: seq<string>, last: string, drop: seq<string>)
    requires LineSeq(front + [last]) && !EndsInNewline(last)
    requires |drop| == 2 && IsLine(drop[0]) && EndsInNewline(drop[0]) && IsLine(drop[1])
    requires forall l :: l in front ==> l !in drop
    requires last + drop[0] !in drop
    ensures Concat(Kept(ReadLines(Concat(front + [last]) + Concat(drop)), drop)) == Concat(front + [last]) + drop[0]
  {
    assert drop == [drop[0], drop[1]];
    ConcatPair(drop[0], drop[1]);
    GluedLines(front, last, drop[0], drop[1]);
    KeptGlued(front, last + drop[0], drop[1], drop);
    ConcatSnoc(front, last, drop[0]);
  }

  /**
   * A text without a final '\n', followed by two complete lines the filter drops and
   * that no line of the text glued to the first of them equals: after filtering, the
   * text is left with the first of them glued on.
   */
  lemma GlueSurvivesFilter(content: string, drop: seq<string>)
    requires content != [] && content[|content| - 1] != '\n'
    requires |drop| == 2 && IsLine(drop[0]) && EndsInNewline(drop[0]) && IsLine(drop[1])
    requires forall l :: l in ReadLines(content) ==> l !in drop
    requires forall l :: l in ReadLines(content) ==> l + drop[0] !in drop
    ensures Concat(Kept(ReadLines(content + Concat(drop)), drop)) == content + drop[0]
  {
    var lines := ReadLines(content);
    ReadLinesIsLineSeq(content);
    ConcatReadLines(content);
    LastLineIncomplete(content);
    var front, last := SplitLast(lines);
    GluedSurvives(front, last, drop);
  }

  /** A non-empty sequence of lines is its front and its last line. */
  lemma SplitLast(lines: seq<string>) returns (front: seq<string>, last: string)
    requires lines != []
    ensures lines == front + [last] && last == lines[|lines| - 1]
    ensures forall l :: l in front ==> l in lines
  {
    front, last := lines[..|lines| - 1], lines[|lines| - 1];
  }

  /**
   * Without a final '\n' the first appended entry is glued to the file's last line, so
   * that line is no redirection line and `revert` keeps it: the entry survives.
   */
  lemma MergedEntrySurvives(content: string)
    requires content != [] && content[|content| - 1] != '\n'
    requires NoRedirectionLine(content)
    ensures Reverted(Redirected(content)) == content + RedirectionLines()[0]
  {
    EntryGluedToLastLine(content, RedirectionLines());
    RedirectThenRevert(content);
  }

  /** `MergedEntrySurvives` with the redirection lines named `drop`. */
  lemma EntryGluedToLastLine(content: string, drop: seq<string>)
    requires drop == RedirectionLines()
    requires content != [] && content[|content| - 1] != '\n'
    requires forall l :: l in ReadLines(content) ==> l !in drop
    ensures Concat(Kept(ReadLines(content + Concat(drop)), drop)) == content + drop[0]
  {
    RedirectionLinesShape();
    NoLineGluesToEntry(content);
    GlueSurvivesFilter(content, drop);
  }

  /** `Reverted` after `Redirected`, written out. */
  lemma RedirectThenRevert(content: string)
    ensures Reverted(Redirected(content)) == Concat(Kept(ReadLines(content + Concat(RedirectionLines())), RedirectionLines()))
  {
  }

  /** No line of a file glued to the first redirection line is a redirection line. */
  lemma NoLineGluesToEntry(content: string)
    ensures forall l :: l in ReadLines(content) ==> l + RedirectionLines()[0] !in RedirectionLines()
  {
    ReadLinesIsLineSeq(content);
    forall l | l in ReadLines(content) ensures l + RedirectionLines()[0] !in RedirectionLines() {
      GluedNotEntry(l);
    }
  }

  /** The hosts file. */
  class HostsFile {
    var content: string

    constructor (content: string)
      ensures this.content == content
    {
      this.content := content;
    }

    /** `redirect`: `writelines` of the redirection lines in append mode. */
    method Redirect()
      modifies this
      ensures content == Redirected(old(content))
    {
      content := content + Concat(RedirectionLines());
    }

    /** `revert`: read all lines, then rewrite the file with the lines that are not redirection lines. */
    method Revert()
      modifies this
      ensures content == Reverted(old(content))
    {
      var lines := ReadLines(content);
      var redirectionLines := RedirectionLines();
      content := "";
      var i := 0;
      while i < |lines|
        invariant 0 <= i <= |lines|
        invariant content == Concat(Kept(lines[..i], redirectionLines))
      {
        var line := lines[i];
        KeptSnoc(lines, i, redirectionLines);
        if line !in redirectionLines {
          content := content + line;
        }
        i := i + 1;
      }
      assert lines[..i] == lines;
    }
  }
}
