/**
 * The prototype's collections (test.py) as one mutable object, with each route handler
 * written as the collection operations it performs, in order, and proved to end in the
 * state and the answer that `Prototype` describes.
 */
module PrototypeStore {
  import opened Wrappers
  import opened Strings
  import opened Records
  import opened Prototype

  class Collections {
    var whitelist: seq<ListEntry>
    var blacklist: seq<ListEntry>
    var logs: seq<LogEntry>
    var appeals: seq<ProtoAppeal>
    var pendingApprovals: map<string, ProtoApproval>
    var desktopEvents: seq<DesktopEvent>

    function Snapshot(): ProtoDb
      reads this
    {
      ProtoDb(whitelist, blacklist, logs, appeals, pendingApprovals, desktopEvents)
    }

    constructor (d: ProtoDb)
      ensures Snapshot() == d
    {
      whitelist := d.whitelist;
      blacklist := d.blacklist;
      logs := d.logs;
      appeals := d.appeals;
      pendingApprovals := d.pendingApprovals;
      desktopEvents := d.desktopEvents;
    }

    /** `pending_approvals_col.insert_one`; the unique index on approval_id makes a duplicate fail. */
    method InsertPending(id: string, p: ProtoApproval) returns (inserted: bool)
      modifies this`pendingApprovals
      ensures inserted <==> id !in old(pendingApprovals)
      ensures pendingApprovals == if inserted then old(pendingApprovals)[id := p] else old(pendingApprovals)
    {
      inserted := id !in pendingApprovals;
      if inserted {
        pendingApprovals := pendingApprovals[id := p];
      }
    }

    /** `analyze_webpage`. */
    method Analyze(url: string, netloc: string, reply: ContentReply) returns (v: Verdict)
      modifies this
      ensures (Snapshot(), v) == Prototype.Analyze(old(Snapshot()), url, netloc, reply)
    {
      var domain := Lower(netloc);
      if Listed(whitelist, domain) {
        return Verdict("allow", "Whitelisted", false);
      }
      if Listed(blacklist, domain) {
        return Verdict("block", "Blacklisted", false);
      }
      var a := ContentWithFallback(reply);
      logs := logs + [LogEntry(url, domain, if a.appropriate then "allow" else "block", a.reason)];
      if a.appropriate {
        whitelist := whitelist + [ListEntry(domain, a.reason)];
        v := Verdict("allow", a.reason, false);
      } else {
        blacklist := blacklist + [ListEntry(domain, a.reason)];
        v := Verdict("block", a.reason, true);
      }
    }

    /** `submit_appeal`, with the parent's `agent_can_auto_approve` setting. */
    method SubmitAppeal(url: string, netloc: string, appealReason: string, appealId: string,
                        approvalId: string, reply: AppealReply, agentCanAutoApprove: bool)
      returns (outcome: AppealOutcome)
      modifies this
      ensures (Snapshot(), outcome) ==
        Prototype.SubmitAppeal(old(Snapshot()), url, netloc, appealReason, appealId, approvalId, reply, agentCanAutoApprove)
    {
      var domain := Lower(netloc);
      appeals := appeals + [ProtoAppeal(appealId, url, domain, appealReason, Pending, None)];
      var e := AppealWithFallback(reply);
      if e.shouldAutoApprove && agentCanAutoApprove {
        whitelist := whitelist + [ListEntry(domain, "Appeal approved: " + e.reason)];
        blacklist := RemoveFirst(blacklist, domain);
        appeals := UpdateFirst(appeals, appealId, AutoApproved, Some(e.reason));
        outcome := AppealApproved;
      } else {
        var ok := InsertPending(approvalId, ProtoApproval(appealId, url, domain, appealReason, Awaiting));
        outcome := if ok then AppealPending else ApprovalIdTaken;
      }
    }

    /** `approve_appeal`; false is the 404. */
    method ApproveAppeal(approvalId: string) returns (found: bool)
      modifies this
      ensures (Snapshot(), found) == Prototype.ApproveAppeal(old(Snapshot()), approvalId)
    {
      if approvalId !in pendingApprovals {
        return false;
      }
      var a := pendingApprovals[approvalId];
      whitelist := whitelist + [ListEntry(a.domain, "Parent approved appeal")];
      blacklist := RemoveFirst(blacklist, a.domain);
      pendingApprovals := pendingApprovals[approvalId := a.(status := Approved)];
      appeals := UpdateFirst(appeals, a.appealId, ParentApproved, None);
      found := true;
    }

    /** `deny_appeal`; false is the 404. */
    method DenyAppeal(approvalId: string) returns (found: bool)
      modifies this
      ensures (Snapshot(), found) == Prototype.DenyAppeal(old(Snapshot()), approvalId)
    {
      if approvalId !in pendingApprovals {
        return false;
      }
      var a := pendingApprovals[approvalId];
      pendingApprovals := pendingApprovals[approvalId := a.(status := Denied)];
      appeals := UpdateFirst(appeals, a.appealId, ParentDenied, None);
      found := true;
    }

    /** `receive_screenshot`, with the configured `blocked_apps`. */
    method ReceiveScreenshot(appName: string, windowTitle: string, blockedApps: seq<string>) returns (v: ScreenVerdict)
      modifies this
      ensures (Snapshot(), v) == Prototype.ReceiveScreenshot(old(Snapshot()), appName, windowTitle, blockedApps)
    {
      if Lower(appName) in LowerAll(blockedApps) {
        return Terminate(appName + " is blocked by parent");
      }
      desktopEvents := desktopEvents + [DesktopEvent(appName, windowTitle)];
      v := AllowApp;
    }
  }
}
