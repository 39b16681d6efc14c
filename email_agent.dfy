/**
 * The parent-response side of the appeal flow (Big-Brother/email_agent.py): finding
 * the approval token in a reply, closing the named pending approval exactly once,
 * and the de-duplication of one inbox polling cycle. The reply parser is an oracle
 * whose answer is a parameter.
 */
module EmailAgent {
  import opened Wrappers
  import opened Strings
  import opened Records

  // ---------------------------------------------------------------------------
  // extract_approval_id: re.search(r'approval_\d+', text)
  // ---------------------------------------------------------------------------

  const TokenPrefix: string := "approval_"

  /** A match of `approval_\d+` can start at `i`: the prefix followed by a digit. */
  predicate TokenAt(s: string, i: int) {
    OccursAt(s, TokenPrefix, i) && i + |TokenPrefix| < |s| && IsAsciiDigit(s[i + |TokenPrefix|])
  }

  /** Length of the maximal run of digits starting at `k` (the greedy `\d+`). */
  function DigitRun(s: string, k: nat): (n: nat)
    requires k <= |s|
    ensures k + n <= |s|
    ensures forall j :: k <= j < k + n ==> IsAsciiDigit(s[j])
    ensures k + n == |s| || !IsAsciiDigit(s[k + n])
    decreases |s| - k
  {
    if k < |s| && IsAsciiDigit(s[k]) then 1 + DigitRun(s, k + 1) else 0
  }

  /** The leftmost position at or after `from` where a match starts. */
  function FirstToken(s: string, from: nat): (r: Option<nat>)
    requires from <= |s|
    ensures r.Some? ==> from <= r.value && TokenAt(s, r.value)
    ensures r.Some? ==> forall j :: from <= j < r.value ==> !TokenAt(s, j)
    ensures r.None? ==> forall j :: from <= j ==> !TokenAt(s, j)
    decreases |s| - from
  {
    if from + |TokenPrefix| >= |s| then None
    else if TokenAt(s, from) then Some(from)
    else FirstToken(s, from + 1)
  }

  /**
   * `id` is the leftmost match in `text`, at `i`: "approval_" and then a maximal,
   * non-empty run of digits.
   */
  ghost predicate LeftmostToken(text: string, i: int, id: string) {
    && TokenAt(text, i)
    && (forall j :: 0 <= j < i ==> !TokenAt(text, j))
    && |id| > |TokenPrefix| && i + |id| <= |text| && id == text[i..i + |id|]
    && id[..|TokenPrefix|] == TokenPrefix
    && (forall k :: |TokenPrefix| <= k < |id| ==> IsAsciiDigit(id[k]))
    && (i + |id| == |text| || !IsAsciiDigit(text[i + |id|]))
  }

  /** `extract_approval_id`: the leftmost `approval_<digits>` token, or None when there is none. */
  function ExtractApprovalId(text: string): (r: Option<string>)
    ensures r.None? <==> forall i :: !TokenAt(text, i)
    ensures r.Some? ==> exists i :: LeftmostToken(text, i, r.value)
  {
    match FirstToken(text, 0)
    case None => None
    case Some(i) =>
      var id := text[i..i + |TokenPrefix| + DigitRun(text, i + |TokenPrefix|)];
      assert LeftmostToken(text, i, id);
      Some(id)
  }

  /**
   * `extract_approval_id(subject) or extract_approval_id(body)`: the subject's token
   * wins; the body is searched only when the subject holds none.
   */
  function ResponseToken(subject: string, body: string): (r: Option<string>)
    ensures (exists i :: TokenAt(subject, i)) ==> r == ExtractApprovalId(subject) && r.Some?
    ensures (forall i :: !TokenAt(subject, i)) ==> r == ExtractApprovalId(body)
  {
    var fromSubject := ExtractApprovalId(subject);
    if fromSubject.Some? then fromSubject else ExtractApprovalId(body)
  }

  // ---------------------------------------------------------------------------
  // process_parent_response
  // ---------------------------------------------------------------------------

  /** An inbox message as the Gmail agent hands it over (the sender is only logged). */
  datatype Message = Message(id: string, sender: string, subject: string, body: string)

  /** A structured answer of `parse_parent_response`. */
  datatype ParsedReply = ParsedReply(decision: string, approvalId: string, confidence: string, reasoning: string)

  /** How `process_parent_response` ended. */
  datatype ResponseOutcome =
    | NoApprovalId        // no token in subject or body
    | UnknownApproval     // no pending approval with that id
    | AlreadyProcessed    // status is not "awaiting_parent"
    | ParseFailed         // the parser returned None
    | WhitelistConflict   // whitelist insert raised DuplicateKeyError; the handler swallowed it
    | ParentApproves
    | ParentDenies

  /** The message is marked read only after a completed approval or denial. */
  predicate MarkedRead(o: ResponseOutcome) {
    o == ParentApproves || o == ParentDenies
  }

  /** The pending approval `id` exists and still awaits the parent. */
  predicate Open(d: Db, id: string) {
    id in d.pendingApprovals && d.pendingApprovals[id].status == AwaitingParent
  }

  /** `parsed_response.decision.lower() == "approve"`; every other decision is a denial. */
  predicate Approves(p: ParsedReply) {
    Lower(p.decision) == "approve"
  }

  const ParentApprovalPrefix: string := "Parent approved via email: "

  /**
   * `process_parent_response`. `parsed` is what the parser would answer for this
   * message; it is used only once the named approval is known to be open.
   */
  function ProcessParentResponse(d: Db, msg: Message, parsed: Option<ParsedReply>): (r: (Db, ResponseOutcome))
    ensures !MarkedRead(r.1) ==> r.0 == d
    ensures ResponseToken(msg.subject, msg.body).None? ==> r.1 == NoApprovalId
    ensures var t := ResponseToken(msg.subject, msg.body);
      t.Some? && t.value !in d.pendingApprovals ==> r.1 == UnknownApproval
    ensures var t := ResponseToken(msg.subject, msg.body);
      t.Some? && t.value in d.pendingApprovals && !Open(d, t.value) ==> r.1 == AlreadyProcessed
    ensures var t := ResponseToken(msg.subject, msg.body);
      t.Some? && Open(d, t.value) && parsed.None? ==> r.1 == ParseFailed
    ensures var t := ResponseToken(msg.subject, msg.body);
      MarkedRead(r.1) <==>
        && t.Some? && Open(d, t.value) && parsed.Some?
        && (Approves(parsed.value) ==> d.pendingApprovals[t.value].link !in d.whitelist)
  {
    match ResponseToken(msg.subject, msg.body)
    case None => (d, NoApprovalId)
    case Some(id) =>
      if id !in d.pendingApprovals then (d, UnknownApproval)
      else
        var a := d.pendingApprovals[id];
        if a.status != AwaitingParent then (d, AlreadyProcessed)
        else if parsed.None? then (d, ParseFailed)
        else Resolve(d, id, parsed.value, msg.body)
  }

  /**
   * The writes of a reply `body` that decides the pending approval `id`: approve
   * (unless the link is already whitelisted, which raises) or deny.
   */
  function Resolve(d: Db, id: string, p: ParsedReply, body: string): (Db, ResponseOutcome)
    requires id in d.pendingApprovals
  {
    var a := d.pendingApprovals[id];
    if Approves(p) then
      if a.link in d.whitelist then (d, WhitelistConflict)
      else
        var d1 := d.(whitelist := d.whitelist[a.link := WhiteEntry(ParentApprovalPrefix + p.reasoning)],
                     blacklist := d.blacklist - {a.link},
                     pendingApprovals := d.pendingApprovals[id := a.(status := ApprovalGranted, parentResponse := Some(body))]);
        (SetAppealStatus(d1, a.appealId, ParentApproved), ParentApproves)
    else
      var d1 := d.(pendingApprovals := d.pendingApprovals[id := a.(status := ApprovalRefused, parentResponse := Some(body))]);
      (SetAppealStatus(d1, a.appealId, ParentDenied), ParentDenies)
  }

  /**
   * What a completed reply writes. An approval whitelists the link, drops it from the
   * blacklist, and marks the approval and its appeal approved; a denial marks both
   * denied and leaves the lists alone.
   */
  lemma ResolutionEffects(d: Db, msg: Message, parsed: Option<ParsedReply>)
    ensures var r := ProcessParentResponse(d, msg, parsed);
      r.1 == ParentApproves ==>
        var id := ResponseToken(msg.subject, msg.body).value;
        var a := d.pendingApprovals[id];
        && Approves(parsed.value)
        && r.0.whitelist == d.whitelist[a.link := WhiteEntry(ParentApprovalPrefix + parsed.value.reasoning)]
        && r.0.blacklist == d.blacklist - {a.link}
        && r.0.pendingApprovals == d.pendingApprovals[id := a.(status := ApprovalGranted, parentResponse := Some(msg.body))]
        && r.0.appeals == SetAppealStatus(d, a.appealId, ParentApproved).appeals
    ensures var r := ProcessParentResponse(d, msg, parsed);
      r.1 == ParentDenies ==>
        var id := ResponseToken(msg.subject, msg.body).value;
        var a := d.pendingApprovals[id];
        && !Approves(parsed.value)
        && r.0.whitelist == d.whitelist && r.0.blacklist == d.blacklist
        && r.0.pendingApprovals == d.pendingApprovals[id := a.(status := ApprovalRefused, parentResponse := Some(msg.body))]
        && r.0.appeals == SetAppealStatus(d, a.appealId, ParentDenied).appeals
  {
  }

  /** Processing a reply keeps the collections consistent. */
  lemma ProcessParentResponseKeepsValid(d: Db, msg: Message, parsed: Option<ParsedReply>)
    requires Valid(d)
    ensures Valid(ProcessParentResponse(d, msg, parsed).0)
  {
  }

  /**
   * Resolution happens at most once: after a reply closed an approval, any later reply
   * naming the same approval finds it processed and changes nothing.
   */
  lemma ResolvesAtMostOnce(d: Db, first: Message, p1: Option<ParsedReply>, later: Message, p2: Option<ParsedReply>)
    requires MarkedRead(ProcessParentResponse(d, first, p1).1)
    requires ResponseToken(later.subject, later.body) == ResponseToken(first.subject, first.body)
    ensures var d1 := ProcessParentResponse(d, first, p1).0;
      ProcessParentResponse(d1, later, p2) == (d1, AlreadyProcessed)
  {
  }

  /**
   * The approval acted on is the one the token names: the parser's own approval_id
   * and confidence fields do not affect the outcome.
   */
  lemma ParserIdAndConfidenceIgnored(d: Db, msg: Message, p1: ParsedReply, p2: ParsedReply)
    requires p1.decision == p2.decision && p1.reasoning == p2.reasoning
    ensures ProcessParentResponse(d, msg, Some(p1)) == ProcessParentResponse(d, msg, Some(p2))
  {
  }

  /**
   * When the approval's link is already whitelisted, an approving reply raises inside
   * the handler: nothing changes, the approval stays open and the message stays unread,
   * so a later denial can still close it.
   */
  lemma WhitelistConflictLeavesApprovalOpen(d: Db, msg: Message, p: ParsedReply, later: Message, q: ParsedReply)
    requires ResponseToken(msg.subject, msg.body).Some?
    requires Open(d, ResponseToken(msg.subject, msg.body).value)
    requires Approves(p) && d.pendingApprovals[ResponseToken(msg.subject, msg.body).value].link in d.whitelist
    requires ResponseToken(later.subject, later.body) == ResponseToken(msg.subject, msg.body) && !Approves(q)
    ensures ProcessParentResponse(d, msg, Some(p)) == (d, WhitelistConflict)
    ensures ProcessParentResponse(d, later, Some(q)).1 == ParentDenies
  {
  }

  // ---------------------------------------------------------------------------
  // email_monitoring_loop: one polling cycle
  // ---------------------------------------------------------------------------

  /**
   * The messages of one fetched batch, in order, against the ids seen so far: a seen id
   * is skipped; a new one is added to the seen set and its message processed. Gives the
   * collections afterwards, the seen set, and the ids handled, in order.
   */
  function HandleBatch(d: Db, msgs: seq<Message>, parses: seq<Option<ParsedReply>>, seen: set<string>)
    : (r: (Db, set<string>, seq<string>))
    requires |parses| == |msgs|
    ensures r.1 == seen + set i | 0 <= i < |msgs| :: msgs[i].id
    ensures forall x :: x in r.2 <==> x in r.1 && x !in seen
    ensures forall i, j :: 0 <= i < j < |r.2| ==> r.2[i] != r.2[j]
    ensures |r.2| <= |msgs|
    decreases |msgs|
  {
    if msgs == [] then (d, seen, [])
    else
      var n := |msgs| - 1;
      var before := HandleBatch(d, msgs[..n], parses[..n], seen);
      var m := msgs[n];
      if m.id in before.1 then before
      else (ProcessParentResponse(before.0, m, parses[n]).0, before.1 + {m.id}, before.2 + [m.id])
  }

  /** The batch one message longer: that message is handled after the others unless its id was already seen. */
  lemma HandleBatchStep(d: Db, msgs: seq<Message>, parses: seq<Option<ParsedReply>>, seen: set<string>, i: nat)
    requires |parses| == |msgs| && i < |msgs|
    ensures var before := HandleBatch(d, msgs[..i], parses[..i], seen);
      HandleBatch(d, msgs[..i + 1], parses[..i + 1], seen) ==
        if msgs[i].id in before.1 then before
        else (ProcessParentResponse(before.0, msgs[i], parses[i]).0, before.1 + {msgs[i].id}, before.2 + [msgs[i].id])
  {
    assert msgs[..i + 1][..i] == msgs[..i] && parses[..i + 1][..i] == parses[..i];
  }

  /** A whole batch keeps the collections consistent. */
  lemma {:induction false} HandleBatchKeepsValid(d: Db, msgs: seq<Message>, parses: seq<Option<ParsedReply>>, seen: set<string>)
    requires |parses| == |msgs|
    requires Valid(d)
    ensures Valid(HandleBatch(d, msgs, parses, seen).0)
    decreases |msgs|
  {
    if msgs != [] {
      var n := |msgs| - 1;
      HandleBatchKeepsValid(d, msgs[..n], parses[..n], seen);
      ProcessParentResponseKeepsValid(HandleBatch(d, msgs[..n], parses[..n], seen).0, msgs[n], parses[n]);
    }
  }
}
