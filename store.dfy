/**
 * The four NorthlightDB collections as one mutable object, and the request handlers
 * of Big-Brother/new_server.py and the reply handler of Big-Brother/email_agent.py
 * written as the sequences of collection operations they perform. Each handler is
 * proved to leave the collections, and to answer, exactly as the corresponding
 * transition function of `Server` or `EmailAgent` says.
 */
module Database {
  import opened Wrappers
  import opened Strings
  import opened Records
  import Server
  import EmailAgent

  class Store {
    var whitelist: map<string, WhiteEntry>
    var blacklist: map<string, BlackEntry>
    var appeals: map<string, Appeal>
    var pendingApprovals: map<string, PendingApproval>

    /** The collections as a value. */
    function Snapshot(): Db
      reads this
    {
      Db(whitelist, blacklist, appeals, pendingApprovals)
    }

    constructor (d: Db)
      ensures Snapshot() == d
    {
      whitelist := d.whitelist;
      blacklist := d.blacklist;
      appeals := d.appeals;
      pendingApprovals := d.pendingApprovals;
    }

    // -------------------------------------------------------------------------
    // Collection operations
    // -------------------------------------------------------------------------

    /** `whitelist_col.insert_one`; the unique index on "link" makes a duplicate fail. */
    method InsertWhitelist(link: string, entry: WhiteEntry) returns (inserted: bool)
      modifies this`whitelist
      ensures inserted <==> link !in old(whitelist)
      ensures whitelist == if inserted then old(whitelist)[link := entry] else old(whitelist)
    {
      inserted := link !in whitelist;
      if inserted {
        whitelist := whitelist[link := entry];
      }
    }

    /** `whitelist_col.delete_one({"link": link})`. */
    method DeleteWhitelist(link: string)
      modifies this`whitelist
      ensures whitelist == old(whitelist) - {link}
    {
      whitelist := whitelist - {link};
    }

    /** `blacklist_col.insert_one`; the unique index on "link" makes a duplicate fail. */
    method InsertBlacklist(link: string, entry: BlackEntry) returns (inserted: bool)
      modifies this`blacklist
      ensures inserted <==> link !in old(blacklist)
      ensures blacklist == if inserted then old(blacklist)[link := entry] else old(blacklist)
    {
      inserted := link !in blacklist;
      if inserted {
        blacklist := blacklist[link := entry];
      }
    }

    /** `blacklist_col.delete_one({"link": link})`. */
    method DeleteBlacklist(link: string)
      modifies this`blacklist
      ensures blacklist == old(blacklist) - {link}
    {
      blacklist := blacklist - {link};
    }

    /**
     * `blacklist_col.update_one({"link": link}, {"$inc": {"appeals": 1}, "$set": {...}})`:
     * counts one appeal and records its message and the agent's reason.
     */
    method CountAppeal(link: string, message: string, llmReason: string)
      requires link in blacklist
      modifies this`blacklist
      ensures blacklist == old(blacklist)[link := old(blacklist)[link].(
        appeals := old(blacklist)[link].appeals + 1,
        lastAppealMessage := Some(message),
        lastAppealLlmReason := Some(llmReason))]
    {
      var e := blacklist[link];
      blacklist := blacklist[link := e.(appeals := e.appeals + 1,
                                        lastAppealMessage := Some(message),
                                        lastAppealLlmReason := Some(llmReason))];
    }

    /** `appeals_col.insert_one`, for an id not in use. */
    method InsertAppeal(id: string, a: Appeal)
      requires id !in appeals
      modifies this`appeals
      ensures appeals == old(appeals)[id := a]
    {
      appeals := appeals[id := a];
    }

    /** `appeals_col.update_one({"appeal_id": id}, {"$set": {"status": ..., "agent_decision": ...}})`. */
    method RecordAgentApproval(id: string, reason: string)
      requires id in appeals
      modifies this`appeals
      ensures appeals == old(appeals)[id := old(appeals)[id].(status := AutoApproved, agentDecision := Some(reason))]
    {
      appeals := appeals[id := appeals[id].(status := AutoApproved, agentDecision := Some(reason))];
    }

    /** `if appeal_id: appeals_col.update_one({"appeal_id": appeal_id}, {"$set": {"status": s}})`. */
    method UpdateAppealStatus(appealId: Option<string>, s: AppealStatus)
      modifies this`appeals
      ensures Snapshot() == SetAppealStatus(old(Snapshot()), appealId, s)
    {
      if appealId.Some? && appealId.value != "" && appealId.value in appeals {
        appeals := appeals[appealId.value := appeals[appealId.value].(status := s)];
      }
    }

    /** `pending_approvals_col.insert_one`; the unique index on "approval_id" makes a duplicate fail. */
    method InsertPending(id: string, p: PendingApproval) returns (inserted: bool)
      modifies this`pendingApprovals
      ensures inserted <==> id !in old(pendingApprovals)
      ensures pendingApprovals == if inserted then old(pendingApprovals)[id := p] else old(pendingApprovals)
    {
      inserted := id !in pendingApprovals;
      if inserted {
        pendingApprovals := pendingApprovals[id := p];
      }
    }

    /** `pending_approvals_col.update_one` setting the closing status and the parent's reply. */
    method ClosePending(id: string, s: ApprovalStatus, response: string)
      requires id in pendingApprovals
      modifies this`pendingApprovals
      ensures pendingApprovals == old(pendingApprovals)[id := old(pendingApprovals)[id].(status := s, parentResponse := Some(response))]
    {
      pendingApprovals := pendingApprovals[id := pendingApprovals[id].(status := s, parentResponse := Some(response))];
    }

    // -------------------------------------------------------------------------
    // Handlers
    // -------------------------------------------------------------------------

    /** `add_to_whitelist`: insert, then delete the link from the blacklist; False on a duplicate. */
    method AddToWhitelist(link: string, reason: string) returns (ok: bool)
      modifies this
      ensures (Snapshot(), ok) == Server.AddToWhitelist(old(Snapshot()), link, reason)
    {
      ok := InsertWhitelist(link, WhiteEntry(reason));
      if ok {
        DeleteBlacklist(link);
      }
    }

    /** `add_to_blacklist`: insert with zero appeals, then delete the link from the whitelist. */
    method AddToBlacklist(link: string, reason: string) returns (ok: bool)
      modifies this
      ensures (Snapshot(), ok) == Server.AddToBlacklist(old(Snapshot()), link, reason)
    {
      ok := InsertBlacklist(link, BlackEntry(0, reason, None, None));
      if ok {
        DeleteWhitelist(link);
      }
    }

    /** `analyze_webpage`: list lookup first; otherwise the agent's verdict is stored. */
    method AnalyzeWebpage(link: string, netloc: string, oracle: Server.OracleReply, appealEnabled: bool)
      returns (res: Server.PageResult)
      modifies this
      ensures (Snapshot(), res) == Server.AnalyzeWebpage(old(Snapshot()), link, netloc, oracle, appealEnabled)
    {
      var hit := Server.CheckWebpageAgainstDb(Snapshot(), link, netloc);
      if hit.Some? && hit.value.Blocked? {
        res := Server.PageResult("block", hit.value.reason, hit.value.appealsUsed, appealEnabled);
      } else if hit.Some? {
        res := Server.PageResult("allow", "URL or domain whitelisted", 0, appealEnabled);
      } else {
        var v := Server.WithFallback(oracle);
        var stored;
        if v.action == "block" {
          stored := AddToBlacklist(link, v.reason);
        } else {
          stored := AddToWhitelist(link, v.reason);
        }
        res := Server.PageResult(v.action, v.reason, 0, appealEnabled);
      }
    }

    /** `submit_appeal`, for a fresh appeal id. */
    method SubmitAppeal(link: string, netloc: string, appealReason: string,
                        appealId: string, approvalId: string, oracle: Server.OracleReply)
      returns (res: Server.AppealResponse)
      requires appealId !in appeals
      modifies this
      ensures (Snapshot(), res) == Server.SubmitAppeal(old(Snapshot()), link, netloc, appealReason, appealId, approvalId, oracle)
    {
      if link !in blacklist {
        return Server.NotBlacklisted;
      }
      if blacklist[link].appeals >= 1 {
        return Server.AppealUsed;
      }
      var domain := Lower(netloc);
      InsertAppeal(appealId, Appeal(link, domain, appealReason, Pending, None));
      var decision := Server.WithFallback(oracle);
      CountAppeal(link, appealReason, decision.reason);
      if decision.action == "approve" {
        var ok := InsertWhitelist(link, WhiteEntry("Appeal auto-approved: " + decision.reason));
        if !ok {
          return Server.InternalError;
        }
        DeleteBlacklist(link);
        RecordAgentApproval(appealId, decision.reason);
        res := Server.AppealAllowed(decision.reason);
      } else {
        var ok := InsertPending(approvalId, PendingApproval(Some(appealId), link, domain, appealReason, AwaitingParent, None));
        res := if ok then Server.SentToParent else Server.InternalError;
      }
    }

    /** `process_parent_response`, with the parser's answer for this message. */
    method ProcessParentResponse(msg: EmailAgent.Message, parsed: Option<EmailAgent.ParsedReply>)
      returns (outcome: EmailAgent.ResponseOutcome)
      modifies this
      ensures (Snapshot(), outcome) == EmailAgent.ProcessParentResponse(old(Snapshot()), msg, parsed)
    {
      var token := EmailAgent.ResponseToken(msg.subject, msg.body);
      if token.None? {
        return EmailAgent.NoApprovalId;
      }
      var id := token.value;
      if id !in pendingApprovals {
        return EmailAgent.UnknownApproval;
      }
      var request := pendingApprovals[id];
      if request.status != AwaitingParent {
        return EmailAgent.AlreadyProcessed;
      }
      if parsed.None? {
        return EmailAgent.ParseFailed;
      }
      outcome := Resolve(id, parsed.value, msg.body);
    }

    /** The writes that decide the pending approval `id`, in the handler's order. */
    method Resolve(id: string, p: EmailAgent.ParsedReply, body: string) returns (outcome: EmailAgent.ResponseOutcome)
      requires id in pendingApprovals
      modifies this
      ensures (Snapshot(), outcome) == EmailAgent.Resolve(old(Snapshot()), id, p, body)
    {
      var request := pendingApprovals[id];
      if EmailAgent.Approves(p) {
        var ok := InsertWhitelist(request.link, WhiteEntry(EmailAgent.ParentApprovalPrefix + p.reasoning));
        if !ok {
          return EmailAgent.WhitelistConflict;
        }
        DeleteBlacklist(request.link);
        ClosePending(id, ApprovalGranted, body);
        UpdateAppealStatus(request.appealId, ParentApproved);
        outcome := EmailAgent.ParentApproves;
      } else {
        ClosePending(id, ApprovalRefused, body);
        UpdateAppealStatus(request.appealId, ParentDenied);
        outcome := EmailAgent.ParentDenies;
      }
    }
  }
}
