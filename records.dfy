/**
 * The documents of the NorthlightDB collections that the server and the e-mail
 * agent share: `whitelist`, `blacklist`, `appeals` and `pending_approvals`.
 * Timestamps (`added_at`, `timestamp`, `processed_at`, `last_appeal_at`) are not kept.
 */
module Records {
  import opened Wrappers

  /** A whitelist document; its link is the key (unique index on "link"). */
  datatype WhiteEntry = WhiteEntry(reason: string)

  /** A blacklist document; its link is the key (unique index on "link"). */
  datatype BlackEntry = BlackEntry(
    appeals: nat,
    reason: string,
    lastAppealMessage: Option<string>,
    lastAppealLlmReason: Option<string>)

  /** Appeal status strings: "pending", "auto_approved", "parent_approved", "parent_denied". */
  datatype AppealStatus = Pending | AutoApproved | ParentApproved | ParentDenied

  /** An appeals document, keyed by its appeal_id. */
  datatype Appeal = Appeal(
    link: string,
    domain: string,
    childReason: string,
    status: AppealStatus,
    agentDecision: Option<string>)

  /**
   * Pending-approval status strings: "awaiting_parent", and the two closing values
   * "parent_approved" (ApprovalGranted) and "parent_denied" (ApprovalRefused).
   */
  datatype ApprovalStatus = AwaitingParent | ApprovalGranted | ApprovalRefused

  /** A pending_approvals document, keyed by its approval_id (unique index). */
  datatype PendingApproval = PendingApproval(
    appealId: Option<string>,
    link: string,
    domain: string,
    childReason: string,
    status: ApprovalStatus,
    parentResponse: Option<string>)

  /** The four collections at one moment. */
  datatype Db = Db(
    whitelist: map<string, WhiteEntry>,
    blacklist: map<string, BlackEntry>,
    appeals: map<string, Appeal>,
    pendingApprovals: map<string, PendingApproval>)

  /** No link is both allowed and blocked. */
  predicate Disjoint(d: Db) {
    d.whitelist.Keys !! d.blacklist.Keys
  }

  /** A blacklisted link has used at most its one appeal. */
  predicate AppealsCapped(d: Db) {
    forall link :: link in d.blacklist ==> d.blacklist[link].appeals <= 1
  }

  /** Every pending approval names an appeal that exists. */
  predicate ApprovalsLinked(d: Db) {
    forall id :: id in d.pendingApprovals && d.pendingApprovals[id].appealId.Some? ==>
      d.pendingApprovals[id].appealId.value in d.appeals
  }

  predicate Valid(d: Db) {
    Disjoint(d) && AppealsCapped(d) && ApprovalsLinked(d)
  }

  /** `appeals_col.update_one({"appeal_id": id}, {"$set": {"status": s}})`, guarded by `if appeal_id:`. */
  function SetAppealStatus(d: Db, appealId: Option<string>, s: AppealStatus): (r: Db)
    ensures r.whitelist == d.whitelist && r.blacklist == d.blacklist
    ensures r.pendingApprovals == d.pendingApprovals && r.appeals.Keys == d.appeals.Keys
    ensures forall id :: id in d.appeals ==>
      r.appeals[id] == if appealId == Some(id) && id != "" then d.appeals[id].(status := s) else d.appeals[id]
  {
    if appealId.Some? && appealId.value != "" && appealId.value in d.appeals then
      d.(appeals := d.appeals[appealId.value := d.appeals[appealId.value].(status := s)])
    else d
  }
}
