/**
 * The parent dashboard's tag-list editor (Parent_Dashboard/src/components/TagInput.js):
 * the key handler and the remove button, as functions from the current tags and input
 * text to the new ones handed to `setTags` / `setInputValue`.
 */
module TagInput {
  import opened Strings

  /** The characters `String.prototype.trim` strips: white space and line terminators. */
  predicate IsJsSpace(c: char) {
    || c == '\t' || c == '\n' || c == '\U{000B}' || c == '\U{000C}' || c == '\r' || c == ' '
    || c == '\U{00A0}' || c == '\U{FEFF}' || c == '\U{1680}' || ('\U{2000}' <= c <= '\U{200A}')
    || c == '\U{2028}' || c == '\U{2029}' || c == '\U{202F}' || c == '\U{205F}' || c == '\U{3000}'
  }

  predicate AllSpace(s: string) {
    forall k :: 0 <= k < |s| ==> IsJsSpace(s[k])
  }

  /** How many characters of white space `s` starts with. */
  function LeadingSpaces(s: string): (n: nat)
    ensures n <= |s|
    ensures forall k :: 0 <= k < n ==> IsJsSpace(s[k])
    ensures n < |s| ==> !IsJsSpace(s[n])
  {
    if s == [] || !IsJsSpace(s[0]) then 0 else 1 + LeadingSpaces(s[1..])
  }

  /** How many characters of white space `s` ends with. */
  function TrailingSpaces(s: string): (n: nat)
    ensures n <= |s|
    ensures forall k :: |s| - n <= k < |s| ==> IsJsSpace(s[k])
    ensures n < |s| ==> !IsJsSpace(s[|s| - n - 1])
  {
    if s == [] || !IsJsSpace(s[|s| - 1]) then 0 else 1 + TrailingSpaces(s[..|s| - 1])
  }

  /** `s.trim()`: the part of `s` between a leading and a trailing run of white space. */
  function Trim(s: string): (r: string)
    ensures |r| <= |s|
    ensures r != [] ==> !IsJsSpace(r[0]) && !IsJsSpace(r[|r| - 1])
  {
    var i := LeadingSpaces(s);
    if i == |s| then [] else s[i..|s| - TrailingSpaces(s)]
  }

  /** Trimming cuts only white space, from the two ends. */
  lemma TrimCutsSpaceOnly(s: string)
    ensures var r := Trim(s);
      exists i :: 0 <= i <= |s| - |r| && r == s[i..i + |r|] && AllSpace(s[..i]) && AllSpace(s[i + |r|..])
  {
    var i := LeadingSpaces(s);
    if i == |s| {
      assert AllSpace(s[..i]) && AllSpace(s[i..]);
    } else {
      var j := |s| - TrailingSpaces(s);
      assert AllSpace(s[..i]) && AllSpace(s[j..]);
    }
  }

  /** Trimming leaves nothing exactly when the text is all white space. */
  lemma TrimEmptyIffBlank(s: string)
    ensures Trim(s) == [] <==> AllSpace(s)
  {
    var i := LeadingSpaces(s);
    if i < |s| {
      assert !IsJsSpace(s[i]);
    }
  }

  /** The keys the handler distinguishes. */
  datatype Key = Enter | Backspace | OtherKey

  /** The tag list passed in as a prop and the text in the input box. */
  datatype Editor = Editor(tags: seq<string>, input: string)

  predicate NoDup(tags: seq<string>) {
    forall i, j :: 0 <= i < j < |tags| ==> tags[i] != tags[j]
  }

  /** The tag an Enter would add: `inputValue.trim().toLowerCase()`. */
  function NewTag(input: string): string {
    Lower(Trim(input))
  }

  /** `handleKeyDown`. */
  function HandleKeyDown(e: Editor, key: Key): (r: Editor)
    ensures key == Enter && Trim(e.input) != [] && NewTag(e.input) !in e.tags ==>
      r == Editor(e.tags + [NewTag(e.input)], "")
    ensures key == Enter && (Trim(e.input) == [] || NewTag(e.input) in e.tags) ==> r == e
    ensures key == Backspace && e.input == [] && |e.tags| > 0 ==> r == Editor(e.tags[..|e.tags| - 1], e.input)
    ensures key == Backspace && (e.input != [] || e.tags == []) ==> r == e
    ensures key == OtherKey ==> r == e
    ensures NoDup(e.tags) ==> NoDup(r.tags)
  {
    if key == Enter && Trim(e.input) != [] then
      var tag := NewTag(e.input);
      if tag != [] && tag !in e.tags then Editor(e.tags + [tag], "") else e
    else if key == Backspace && e.input == [] && |e.tags| > 0 then
      Editor(e.tags[..|e.tags| - 1], e.input)
    else e
  }

  /** `tags.filter((_, index) => index !== skip)`. */
  function RemoveTag(tags: seq<string>, skip: int): (r: seq<string>)
    ensures 0 <= skip < |tags| ==> r == tags[..skip] + tags[skip + 1..]
    ensures !(0 <= skip < |tags|) ==> r == tags
    decreases |tags|
  {
    if tags == [] then []
    else
      var last := |tags| - 1;
      var front := RemoveTag(tags[..last], skip);
      assert tags == tags[..last] + [tags[last]];
      if last != skip then front + [tags[last]] else front
  }

  /** Pressing Enter on a blank or white-space-only input changes nothing. */
  lemma BlankEnterChangesNothing(tags: seq<string>, input: string)
    requires AllSpace(input)
    ensures HandleKeyDown(Editor(tags, input), Enter) == Editor(tags, input)
  {
    TrimEmptyIffBlank(input);
  }

  /** White space in the box blocks Backspace from removing the last tag. */
  lemma WhitespaceBlocksBackspace(tags: seq<string>, input: string)
    requires input != [] && AllSpace(input)
    ensures HandleKeyDown(Editor(tags, input), Backspace) == Editor(tags, input)
  {
  }

  /** A tag added by Enter has no surrounding white space and no upper-case ASCII letter. */
  lemma AddedTagIsNormalised(tags: seq<string>, input: string)
    requires |HandleKeyDown(Editor(tags, input), Enter).tags| > |tags|
    ensures var t := HandleKeyDown(Editor(tags, input), Enter).tags[|tags|];
      t != [] && !IsJsSpace(t[0]) && !IsJsSpace(t[|t| - 1])
      && forall k :: 0 <= k < |t| ==> !('A' <= t[k] <= 'Z')
  {
    var trimmed := Trim(input);
    var t := NewTag(input);
    assert t[0] == LowerChar(trimmed[0]);
    assert t[|t| - 1] == LowerChar(trimmed[|trimmed| - 1]);
  }

  /** Removing a tag keeps a duplicate-free list duplicate-free, and keeps the others in order. */
  lemma RemoveTagKeepsNoDup(tags: seq<string>, skip: int)
    requires NoDup(tags)
    ensures NoDup(RemoveTag(tags, skip))
    ensures 0 <= skip < |tags| ==> |RemoveTag(tags, skip)| == |tags| - 1 && tags[skip] !in RemoveTag(tags, skip)
  {
    var r := RemoveTag(tags, skip);
    if 0 <= skip < |tags| {
      forall i, j | 0 <= i < j < |r| ensures r[i] != r[j] {
        RemovedAt(tags, skip, i);
        RemovedAt(tags, skip, j);
      }
      forall k | 0 <= k < |r| ensures r[k] != tags[skip] {
        RemovedAt(tags, skip, k);
      }
    }
  }

  /** Where the `k`-th tag left after a removal was before it. */
  lemma RemovedAt(tags: seq<string>, skip: int, k: int)
    requires 0 <= skip < |tags| && 0 <= k < |tags| - 1
    ensures RemoveTag(tags, skip)[k] == if k < skip then tags[k] else tags[k + 1]
  {
    assert RemoveTag(tags, skip) == tags[..skip] + tags[skip + 1..];
  }
}
