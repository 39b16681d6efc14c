/**
 * The older prototype server (test.py) as transitions of its collections. Unlike
 * the current server it keys the lists by lower-cased domain, the lists and the
 * appeals carry no unique index (so they are sequences of documents, and a
 * `delete_one`/`update_one` hits the first match), it checks the whitelist first,
 * has no appeal cap, and lets the parent's approve/deny links act any number of times.
 * Only `pending_approvals` has a unique index (on approval_id).
 */
module Prototype {
  import opened Wrappers
  import opened Strings
  import opened Records

  /** A whitelist or blacklist document. */
  datatype ListEntry = ListEntry(domain: string, reason: string)

  /** A logs document written by `analyze_webpage`. */
  datatype LogEntry = LogEntry(url: string, domain: string, action: string, reason: string)

  /** An appeals document; appeal_id is not unique here. */
  datatype ProtoAppeal = ProtoAppeal(
    appealId: string,
    url: string,
    domain: string,
    childReason: string,
    status: AppealStatus,
    agentDecision: Option<string>)

  /** Status strings "awaiting_parent", "approved", "denied". */
  datatype ProtoApprovalStatus = Awaiting | Approved | Denied

  /** A pending_approvals document, keyed by its (unique) approval_id. */
  datatype ProtoApproval = ProtoApproval(
    appealId: string,
    url: string,
    domain: string,
    childReason: string,
    status: ProtoApprovalStatus)

  /** A desktop_events document. */
  datatype DesktopEvent = DesktopEvent(appName: string, windowTitle: string)

  datatype ProtoDb = ProtoDb(
    whitelist: seq<ListEntry>,
    blacklist: seq<ListEntry>,
    logs: seq<LogEntry>,
    appeals: seq<ProtoAppeal>,
    pendingApprovals: map<string, ProtoApproval>,
    desktopEvents: seq<DesktopEvent>)

  // ---------------------------------------------------------------------------
  // Lists of documents
  // ---------------------------------------------------------------------------

  /** `find_one({'domain': domain})` finds a document. */
  predicate Listed(s: seq<ListEntry>, domain: string) {
    exists i :: 0 <= i < |s| && s[i].domain == domain
  }

  /** No domain occurs in two documents. */
  predicate NoDupDomains(s: seq<ListEntry>) {
    forall i, j :: 0 <= i < j < |s| ==> s[i].domain != s[j].domain
  }

  /** Index of the first document at or after `i` with this domain; `|s|` when there is none. */
  function FirstWithDomain(s: seq<ListEntry>, domain: string, i: nat): (k: nat)
    requires i <= |s|
    ensures i <= k <= |s|
    ensures forall j :: i <= j < k ==> s[j].domain != domain
    ensures k < |s| ==> s[k].domain == domain
    decreases |s| - i
  {
    if i == |s| || s[i].domain == domain then i else FirstWithDomain(s, domain, i + 1)
  }

  /** `delete_one({'domain': domain})`: removes the first document with that domain, if any. */
  function RemoveFirst(s: seq<ListEntry>, domain: string): (r: seq<ListEntry>)
    ensures !Listed(s, domain) ==> r == s
    ensures Listed(s, domain) ==>
      exists k :: 0 <= k < |s| && s[k].domain == domain && (forall j :: 0 <= j < k ==> s[j].domain != domain) &&
        r == s[..k] + s[k + 1..]
  {
    var k := FirstWithDomain(s, domain, 0);
    if k < |s| then s[..k] + s[k + 1..] else s
  }

  /**
   * Removing the first document for `domain` keeps every other domain's presence; on a
   * list without repeats it leaves `domain` absent and still no repeats.
   */
  lemma RemoveFirstListed(s: seq<ListEntry>, domain: string)
    ensures forall x :: x != domain ==> (Listed(RemoveFirst(s, domain), x) <==> Listed(s, x))
    ensures NoDupDomains(s) ==> NoDupDomains(RemoveFirst(s, domain)) && !Listed(RemoveFirst(s, domain), domain)
  {
    var r := RemoveFirst(s, domain);
    var k := FirstWithDomain(s, domain, 0);
    if k < |s| {
      forall x | x != domain ensures Listed(r, x) <==> Listed(s, x) {
        if Listed(s, x) {
          var i :| 0 <= i < |s| && s[i].domain == x;
          RemoveFirstAt(s, domain, if i < k then i else i - 1);
        }
        if Listed(r, x) {
          var j :| 0 <= j < |r| && r[j].domain == x;
          RemoveFirstAt(s, domain, j);
        }
      }
      if NoDupDomains(s) {
        forall i, j | 0 <= i < j < |r| ensures r[i].domain != r[j].domain {
          RemoveFirstAt(s, domain, i);
          RemoveFirstAt(s, domain, j);
        }
        forall j | 0 <= j < |r| ensures r[j].domain != domain {
          RemoveFirstAt(s, domain, j);
        }
      }
    }
  }

  /** Where the `j`-th document left after `RemoveFirst` was before it. */
  lemma RemoveFirstAt(s: seq<ListEntry>, domain: string, j: int)
    requires FirstWithDomain(s, domain, 0) < |s| && 0 <= j < |s| - 1
    ensures var k := FirstWithDomain(s, domain, 0);
      |RemoveFirst(s, domain)| == |s| - 1 && RemoveFirst(s, domain)[j] == if j < k then s[j] else s[j + 1]
  {
  }

  /** `update_one({'appeal_id': id}, {'$set': ...})` on one appeal document. */
  function Marked(a: ProtoAppeal, status: AppealStatus, decision: Option<string>): ProtoAppeal {
    a.(status := status, agentDecision := if decision.Some? then decision else a.agentDecision)
  }

  /** Index of the first appeal at or after `i` with this id; `|s|` when there is none. */
  function FirstWithId(s: seq<ProtoAppeal>, id: string, i: nat): (k: nat)
    requires i <= |s|
    ensures i <= k <= |s|
    ensures forall j :: i <= j < k ==> s[j].appealId != id
    ensures k < |s| ==> s[k].appealId == id
    decreases |s| - i
  {
    if i == |s| || s[i].appealId == id then i else FirstWithId(s, id, i + 1)
  }

  /** `appeals_col.update_one({'appeal_id': id}, ...)`: updates the first document with that id, if any. */
  function UpdateFirst(s: seq<ProtoAppeal>, id: string, status: AppealStatus, decision: Option<string>): (r: seq<ProtoAppeal>)
    ensures |r| == |s|
    ensures forall j :: 0 <= j < |s| ==> r[j].appealId == s[j].appealId
    ensures (forall j :: 0 <= j < |s| ==> s[j].appealId != id) ==> r == s
    ensures forall k :: 0 <= k < |s| && s[k].appealId == id && (forall j :: 0 <= j < k ==> s[j].appealId != id) ==>
      r == s[k := Marked(s[k], status, decision)]
  {
    var k := FirstWithId(s, id, 0);
    if k < |s| then s[k := Marked(s[k], status, decision)] else s
  }

  /** Some appeal document carries this id. */
  predicate HasAppeal(s: seq<ProtoAppeal>, id: string) {
    exists i :: 0 <= i < |s| && s[i].appealId == id
  }

  /**
   * What the prototype keeps true: the blacklist names each domain once, no domain is on
   * both lists, and every pending approval names an existing appeal.
   */
  predicate Valid(d: ProtoDb) {
    && NoDupDomains(d.blacklist)
    && (forall e :: e in d.whitelist ==> !Listed(d.blacklist, e.domain))
    && (forall id :: id in d.pendingApprovals ==> HasAppeal(d.appeals, d.pendingApprovals[id].appealId))
  }

  lemma ListedAppend(s: seq<ListEntry>, e: ListEntry)
    ensures forall x :: Listed(s + [e], x) <==> Listed(s, x) || x == e.domain
  {
    var t := s + [e];
    assert t[|s|].domain == e.domain;
    forall x | Listed(s, x) ensures Listed(t, x) {
      var i :| 0 <= i < |s| && s[i].domain == x;
      assert t[i].domain == x;
    }
  }

  lemma AppendKeepsAppeals(s: seq<ProtoAppeal>, x: ProtoAppeal)
    ensures forall a :: HasAppeal(s + [x], a) <==> HasAppeal(s, a) || a == x.appealId
  {
    var t := s + [x];
    assert t[|s|].appealId == x.appealId;
    forall a | HasAppeal(s, a) ensures HasAppeal(t, a) {
      var i :| 0 <= i < |s| && s[i].appealId == a;
      assert t[i].appealId == a;
    }
  }

  // ---------------------------------------------------------------------------
  // analyze_webpage
  // ---------------------------------------------------------------------------

  /** What `analyze_content_with_llm` answers; Unavailable when the call or its eval raised. */
  datatype ContentReply = ContentVerdict(appropriate: bool, reason: string) | ContentUnavailable

  /** The exception fallback: inappropriate, "Unable to verify". */
  function ContentWithFallback(o: ContentReply): (r: ContentReply)
    ensures r.ContentVerdict?
    ensures o.ContentUnavailable? ==> !r.appropriate && r.reason == "Unable to verify"
    ensures o.ContentVerdict? ==> r == o
  {
    if o.ContentUnavailable? then ContentVerdict(false, "Unable to verify") else o
  }

  /** The JSON answer; `appealEnabled` stands for the presence of `'appeal_enabled': True`. */
  datatype Verdict = Verdict(action: string, reason: string, appealEnabled: bool)

  function Analyze(d: ProtoDb, url: string, netloc: string, reply: ContentReply): (r: (ProtoDb, Verdict))
    ensures Listed(d.whitelist, Lower(netloc)) ==> r == (d, Verdict("allow", "Whitelisted", false))
    ensures !Listed(d.whitelist, Lower(netloc)) && Listed(d.blacklist, Lower(netloc)) ==>
      r == (d, Verdict("block", "Blacklisted", false))
    ensures !Listed(d.whitelist, Lower(netloc)) && !Listed(d.blacklist, Lower(netloc)) ==>
      var a := ContentWithFallback(reply);
      var entry := ListEntry(Lower(netloc), a.reason);
      && r.0.logs == d.logs + [LogEntry(url, Lower(netloc), if a.appropriate then "allow" else "block", a.reason)]
      && r.0.appeals == d.appeals && r.0.pendingApprovals == d.pendingApprovals && r.0.desktopEvents == d.desktopEvents
      && (a.appropriate ==>
            r.0.whitelist == d.whitelist + [entry] && r.0.blacklist == d.blacklist && r.1 == Verdict("allow", a.reason, false))
      && (!a.appropriate ==>
            r.0.blacklist == d.blacklist + [entry] && r.0.whitelist == d.whitelist && r.1 == Verdict("block", a.reason, true))
    ensures r.1.action == "block" <==> !Listed(d.whitelist, Lower(netloc)) && (Listed(d.blacklist, Lower(netloc)) || !ContentWithFallback(reply).appropriate)
    ensures Valid(d) ==> Valid(r.0)
  {
    var domain := Lower(netloc);
    if Listed(d.whitelist, domain) then (d, Verdict("allow", "Whitelisted", false))
    else if Listed(d.blacklist, domain) then (d, Verdict("block", "Blacklisted", false))
    else
      var a := ContentWithFallback(reply);
      var d1 := d.(logs := d.logs + [LogEntry(url, domain, if a.appropriate then "allow" else "block", a.reason)]);
      if a.appropriate then
        ListedAppend(d.whitelist, ListEntry(domain, a.reason));
        (d1.(whitelist := d.whitelist + [ListEntry(domain, a.reason)]), Verdict("allow", a.reason, false))
      else
        ListedAppend(d.blacklist, ListEntry(domain, a.reason));
        (d1.(blacklist := d.blacklist + [ListEntry(domain, a.reason)]), Verdict("block", a.reason, true))
  }

  // ---------------------------------------------------------------------------
  // submit_appeal
  // ---------------------------------------------------------------------------

  /** What `evaluate_appeal_with_llm` answers; Unavailable when the call or its eval raised. */
  datatype AppealReply = AppealVerdict(shouldAutoApprove: bool, reason: string) | AppealUnavailable

  /** The exception fallback: no auto-approval, "Error evaluating appeal". */
  function AppealWithFallback(o: AppealReply): (r: AppealReply)
    ensures r.AppealVerdict?
    ensures o.AppealUnavailable? ==> !r.shouldAutoApprove && r.reason == "Error evaluating appeal"
    ensures o.AppealVerdict? ==> r == o
  {
    if o.AppealUnavailable? then AppealVerdict(false, "Error evaluating appeal") else o
  }

  /** "approved", "pending", or the 500 raised by a duplicate approval_id. */
  datatype AppealOutcome = AppealApproved | AppealPending | ApprovalIdTaken

  /**
   * `submit_appeal`: the appeal is recorded first; the agent may approve only when
   * the parent allowed it (`agent_can_auto_approve`); otherwise an approval request
   * is opened. Nothing is checked about the domain or earlier appeals.
   */
  function SubmitAppeal(d: ProtoDb, url: string, netloc: string, appealReason: string,
                        appealId: string, approvalId: string, reply: AppealReply, agentCanAutoApprove: bool)
    : (r: (ProtoDb, AppealOutcome))
    ensures var e := AppealWithFallback(reply);
      r.1 == AppealApproved <==> e.shouldAutoApprove && agentCanAutoApprove
    ensures r.0.logs == d.logs && r.0.desktopEvents == d.desktopEvents
    ensures var domain := Lower(netloc);
      var e := AppealWithFallback(reply);
      var filed := d.appeals + [ProtoAppeal(appealId, url, domain, appealReason, Pending, None)];
      && (r.1 == AppealApproved ==>
            && r.0.whitelist == d.whitelist + [ListEntry(domain, "Appeal approved: " + e.reason)]
            && r.0.blacklist == RemoveFirst(d.blacklist, domain)
            && r.0.appeals == UpdateFirst(filed, appealId, AutoApproved, Some(e.reason))
            && r.0.pendingApprovals == d.pendingApprovals)
      && (r.1 != AppealApproved ==>
            && r.0.whitelist == d.whitelist && r.0.blacklist == d.blacklist
            && r.0.appeals == filed)
      && (r.1 == AppealPending ==>
            r.0.pendingApprovals == d.pendingApprovals[approvalId := ProtoApproval(appealId, url, domain, appealReason, Awaiting)])
      && (r.1 == ApprovalIdTaken <==> r.1 != AppealApproved && approvalId in d.pendingApprovals)
      && (r.1 == ApprovalIdTaken ==> r.0.pendingApprovals == d.pendingApprovals)
    ensures Valid(d) ==> Valid(r.0)
  {
    var domain := Lower(netloc);
    var newAppeal := ProtoAppeal(appealId, url, domain, appealReason, Pending, None);
    var d1 := d.(appeals := d.appeals + [newAppeal]);
    AppendKeepsAppeals(d.appeals, newAppeal);
    var e := AppealWithFallback(reply);
    if e.shouldAutoApprove && agentCanAutoApprove then
      ListedAppend(d.whitelist, ListEntry(domain, "Appeal approved: " + e.reason));
      RemoveFirstListed(d.blacklist, domain);
      (d1.(whitelist := d.whitelist + [ListEntry(domain, "Appeal approved: " + e.reason)],
           blacklist := RemoveFirst(d.blacklist, domain),
           appeals := UpdateFirst(d1.appeals, appealId, AutoApproved, Some(e.reason))),
       AppealApproved)
    else if approvalId in d.pendingApprovals then (d1, ApprovalIdTaken)
    else
      (d1.(pendingApprovals := d.pendingApprovals[approvalId := ProtoApproval(appealId, url, domain, appealReason, Awaiting)]),
       AppealPending)
  }

  // ---------------------------------------------------------------------------
  // approve_appeal / deny_appeal
  // ---------------------------------------------------------------------------

  /** `approve_appeal`: false is the 404 for an unknown id. The approval's prior status is not checked. */
  function ApproveAppeal(d: ProtoDb, approvalId: string): (r: (ProtoDb, bool))
    ensures r.1 <==> approvalId in d.pendingApprovals
    ensures !r.1 ==> r.0 == d
    ensures r.1 ==>
      var a := d.pendingApprovals[approvalId];
      && r.0.whitelist == d.whitelist + [ListEntry(a.domain, "Parent approved appeal")]
      && r.0.blacklist == RemoveFirst(d.blacklist, a.domain)
      && r.0.pendingApprovals == d.pendingApprovals[approvalId := a.(status := Approved)]
      && r.0.appeals == UpdateFirst(d.appeals, a.appealId, ParentApproved, None)
      && r.0.logs == d.logs && r.0.desktopEvents == d.desktopEvents
    ensures Valid(d) ==> Valid(r.0)
  {
    if approvalId !in d.pendingApprovals then (d, false)
    else
      var a := d.pendingApprovals[approvalId];
      ListedAppend(d.whitelist, ListEntry(a.domain, "Parent approved appeal"));
      RemoveFirstListed(d.blacklist, a.domain);
      (d.(whitelist := d.whitelist + [ListEntry(a.domain, "Parent approved appeal")],
          blacklist := RemoveFirst(d.blacklist, a.domain),
          pendingApprovals := d.pendingApprovals[approvalId := a.(status := Approved)],
          appeals := UpdateFirst(d.appeals, a.appealId, ParentApproved, None)),
       true)
  }

  /** `deny_appeal`: false is the 404 for an unknown id. Neither list changes. */
  function DenyAppeal(d: ProtoDb, approvalId: string): (r: (ProtoDb, bool))
    ensures r.1 <==> approvalId in d.pendingApprovals
    ensures !r.1 ==> r.0 == d
    ensures r.1 ==>
      var a := d.pendingApprovals[approvalId];
      && r.0.whitelist == d.whitelist && r.0.blacklist == d.blacklist
      && r.0.pendingApprovals == d.pendingApprovals[approvalId := a.(status := Denied)]
      && r.0.appeals == UpdateFirst(d.appeals, a.appealId, ParentDenied, None)
      && r.0.logs == d.logs && r.0.desktopEvents == d.desktopEvents
    ensures Valid(d) ==> Valid(r.0)
  {
    if approvalId !in d.pendingApprovals then (d, false)
    else
      var a := d.pendingApprovals[approvalId];
      (d.(pendingApprovals := d.pendingApprovals[approvalId := a.(status := Denied)],
          appeals := UpdateFirst(d.appeals, a.appealId, ParentDenied, None)),
       true)
  }

  // ---------------------------------------------------------------------------
  // receive_screenshot
  // ---------------------------------------------------------------------------

  /** `[app.lower() for app in apps]`. */
  function LowerAll(apps: seq<string>): (r: seq<string>)
    ensures |r| == |apps|
    ensures forall i :: 0 <= i < |apps| ==> r[i] == Lower(apps[i])
  {
    if apps == [] then [] else [Lower(apps[0])] + LowerAll(apps[1..])
  }

  datatype ScreenVerdict = Terminate(reason: string) | AllowApp

  /** `receive_screenshot`, with the configured `blocked_apps`. */
  function ReceiveScreenshot(d: ProtoDb, appName: string, windowTitle: string, blockedApps: seq<string>)
    : (r: (ProtoDb, ScreenVerdict))
    ensures r.1.Terminate? <==> exists i :: 0 <= i < |blockedApps| && Lower(blockedApps[i]) == Lower(appName)
    ensures r.1.Terminate? ==> r.0 == d && r.1.reason == appName + " is blocked by parent"
    ensures r.1 == AllowApp ==> r.0 == d.(desktopEvents := d.desktopEvents + [DesktopEvent(appName, windowTitle)])
    ensures Valid(d) ==> Valid(r.0)
  {
    var lowered := LowerAll(blockedApps);
    if Lower(appName) in lowered then
      (d, Terminate(appName + " is blocked by parent"))
    else
      assert forall i :: 0 <= i < |blockedApps| ==> lowered[i] != Lower(appName);
      (d.(desktopEvents := d.desktopEvents + [DesktopEvent(appName, windowTitle)]), AllowApp)
  }

  // ---------------------------------------------------------------------------
  // Properties that differ from the current server
  // ---------------------------------------------------------------------------

  /**
   * No resolution guard: after the parent denied, the approve link still works and
   * whitelists the domain.
   */
  lemma ApproveAfterDenyStillWhitelists(d: ProtoDb, approvalId: string)
    requires approvalId in d.pendingApprovals
    ensures var d1 := DenyAppeal(d, approvalId).0;
      var r := ApproveAppeal(d1, approvalId);
      && r.1
      && Listed(r.0.whitelist, d.pendingApprovals[approvalId].domain)
      && r.0.pendingApprovals[approvalId].status == Approved
  {
    var d1 := DenyAppeal(d, approvalId).0;
    ListedAppend(d1.whitelist, ListEntry(d.pendingApprovals[approvalId].domain, "Parent approved appeal"));
  }

  /**
   * Without a unique index the whitelist takes repeats: following the approve link
   * twice leaves two more whitelist documents.
   */
  lemma ApproveTwiceAddsTwoEntries(d: ProtoDb, approvalId: string)
    requires approvalId in d.pendingApprovals
    ensures var d1 := ApproveAppeal(d, approvalId).0;
      |ApproveAppeal(d1, approvalId).0.whitelist| == |d.whitelist| + 2
  {
  }

  /**
   * No appeal cap and no blacklist check: with auto-approval allowed and granted, an
   * appeal whitelists its domain whatever the lists held, as often as it is filed.
   */
  lemma AutoApprovalNeedsNoBlock(d: ProtoDb, url: string, netloc: string, appealReason: string,
                                 appealId: string, approvalId: string, reason: string)
    ensures var r := SubmitAppeal(d, url, netloc, appealReason, appealId, approvalId, AppealVerdict(true, reason), true);
      r.1 == AppealApproved && Listed(r.0.whitelist, Lower(netloc))
  {
    ListedAppend(d.whitelist, ListEntry(Lower(netloc), "Appeal approved: " + reason));
  }

  /**
   * The id update hits the first appeal with that id: when the new appeal's id is not
   * already in use, it is the new record that gets marked "auto_approved".
   */
  lemma FreshAppealIsTheOneMarked(d: ProtoDb, url: string, netloc: string, appealReason: string,
                                  appealId: string, approvalId: string, reply: AppealReply, agentCanAutoApprove: bool)
    requires !HasAppeal(d.appeals, appealId)
    requires AppealWithFallback(reply).shouldAutoApprove && agentCanAutoApprove
    ensures SubmitAppeal(d, url, netloc, appealReason, appealId, approvalId, reply, agentCanAutoApprove).0.appeals ==
      d.appeals + [ProtoAppeal(appealId, url, Lower(netloc), appealReason, AutoApproved, Some(AppealWithFallback(reply).reason))]
  {
    var filed := d.appeals + [ProtoAppeal(appealId, url, Lower(netloc), appealReason, Pending, None)];
    forall j | 0 <= j < |d.appeals| ensures filed[j].appealId != appealId {
      assert d.appeals[j] in d.appeals;
    }
  }
}
