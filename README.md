# VigilMind / Northlight — list, appeal and approval rules in Dafny

VigilMind is a parental-control service. A browser extension asks the server whether a
page may be shown. The server answers from a whitelist and a blacklist kept in MongoDB,
or asks a language model and stores its verdict. A child may appeal a block once. The
appeal is either approved by an agent or sent to the parent by e-mail. The parent's reply
is read from the inbox by an e-mail agent, which closes the pending approval and updates
the lists. This project models:

- the current server (`Big-Brother/new_server.py`): adding to the lists, the list lookup,
  page analysis, appeal submission and YouTube video-id extraction (module `Server`);
- the parent-reply handling and inbox polling of `Big-Brother/email_agent.py` (modules
  `EmailAgent` and `Inbox`);
- the collections those two share, as the value `Records.Db` and as the mutable object
  `Database.Store`, whose handlers perform the same collection calls in the same order and
  are proved to end where the pure transitions say;
- the older prototype server `test.py`, whose lists have no unique index and are keyed by
  domain (modules `Prototype` and `PrototypeStore`);
- the dashboard's tag editor `Parent_Dashboard/src/components/TagInput.js` (module `TagInput`);
- the hosts-file redirection script `website_monitor.py` (module `WebsiteMonitor`), with the
  hosts file as its text.

The language-model classifiers, the reply parser, `urlparse` and `parse_qs` are not
modelled. Their answers are parameters, and each exception fallback is written out.
The Mongo unique indexes are modelled: an insert of a duplicate key fails, and the
server code turns that failure into the answer the source gives.

Files: `common.dfy` (Option, string helpers), `records.dfy`, `server.dfy`,
`email_agent.dfy`, `store.dfy`, `inbox.dfy`, `prototype.dfy`, `prototype_store.dfy`,
`tag_input.dfy`, `website_monitor.dfy`.

## Model

| member | source | states |
|---|---|---|
| Strings.SplitMatches | Big-Brother/new_server.py:246 | the matches `str.split` takes: each is an occurrence of the separator, at or after the scan's start, and each begins after the previous one ends |
| Strings.SplitMatchesMaximal | Big-Brother/new_server.py:255 | the scan skips an occurrence only when it overlaps a match already taken |
| Strings.NoMatchAfterScan | Big-Brother/new_server.py:246 | after the scan's last match no occurrence of the separator is left |
| Strings.AfterLast | Big-Brother/new_server.py:246 | `s.split(sep)[-1]` is the text after the last match of the non-overlapping left-to-right scan (all of `s` when there is none); it holds no occurrence of `sep` |
| Strings.BeforeFirst | Big-Brother/new_server.py:246 | `s.split(c)[0]` is the longest prefix without `c`, stopped by `c` or the end |
| Strings.Lower | Big-Brother/new_server.py:324 | lower-casing keeps the length and maps each character through ASCII lower-casing |
| Records.SetAppealStatus | Big-Brother/email_agent.py:302-306 | the status update touches only the appeal the id names, and none when the id is missing or empty; the lists and approvals are unchanged |
| Server.AddToWhitelist | Big-Brother/new_server.py:111-123 | succeeds exactly when the link is not yet whitelisted (unique index); on success the link is whitelisted with the reason and removed from the blacklist; on failure nothing changes; the store stays consistent |
| Server.AddToBlacklist | Big-Brother/new_server.py:126-139 | the mirror image: succeeds iff the link is not yet blacklisted, starts its appeal count at 0 and removes it from the whitelist; keeps the store consistent |
| Server.CheckWebpageAgainstDb | Big-Brother/new_server.py:322-348 | no verdict iff neither the link nor its lower-cased domain is on either list; a blacklist entry for the link, else for the domain, blocks with that entry's reason and appeal count; allowed iff not blacklisted and link or domain whitelisted |
| Server.AnalyzeWebpage | Big-Brother/new_server.py:350-376 | a list verdict changes nothing and is answered with the blacklist entry's reason and appeal count, or "URL or domain whitelisted" and 0; otherwise a "block" verdict (also the exception fallback, 312-320) blacklists the link and any other verdict whitelists it, and the answer carries the verdict's action and reason with 0 appeals used; consistency kept |
| Server.AnalyzeIgnoresOracleOnListHit | Big-Brother/new_server.py:360-363 | on a list hit the classifier's answer cannot change the result |
| Server.SubmitAppeal | Big-Brother/new_server.py:478-570 | 400 and no change for a link not blacklisted; 403 and no change once its appeal is used; otherwise the whole new state: auto-approval (iff the verdict approves and the link is not yet whitelisted) whitelists the link with the agent's reason, drops only its blacklist entry and records the appeal as auto-approved; otherwise only this link's blacklist entry is counted (one appeal, last message and reason) and a pending appeal recorded, then an awaiting approval is opened (iff the approval id is free) or the 500 leaves the approvals as they were |
| Server.SubmitAppealKeepsValid | Big-Brother/new_server.py:489-548 | an appeal keeps the lists disjoint, the appeal count at most 1 and the approvals linked to appeals; on a consistent store an approving verdict never hits the whitelist's unique index |
| Server.AppealIsOneShot | Big-Brother/new_server.py:496-527 | after an accepted appeal, a second appeal for the same link is refused with 400 or 403 and changes nothing |
| Server.DomainBlockIsNotAppealable | Big-Brother/new_server.py:326-338 | a page blocked only through its domain's entry is reported blocked, but its appeal is refused with 400 because the appeal looks up the exact link (489-494) |
| Server.ShortLinkIdFollowsLastMarker | Big-Brother/new_server.py:245-246 | for a link with "youtu.be/", the id starts right after the last occurrence of the marker and runs to the first '?' or '&' or the end |
| Server.CutAtQuery | Big-Brother/new_server.py:246 | the result is a prefix free of '?' and '&' that stops at the first of them |
| Server.PathIdIsLastPiece | Big-Brother/new_server.py:255-257 | the last piece of the path after the marker, cut at '?', is the path text from the end of the scan's last match up to the first '?' or the end |
| Server.SplitSkipsOverlappingMarker | Big-Brother/new_server.py:255 | on "/embed/embed/x" the overlapping second "/embed/" is not a match, so the last piece is "embed/x" |
| Server.ExtractVideoId | Big-Brother/new_server.py:244-259 | short links give the id after the last marker; otherwise only the three YouTube hosts give an id: "v" on "/watch"; for a path starting with "/embed/" (else "/v/") the path text after the last split match of that marker, up to the first '?'; every other link gives none |
| EmailAgent.ExtractApprovalId | Big-Brother/email_agent.py:228-234 | none iff the text holds no `approval_` followed by a digit; otherwise the leftmost such match, with a maximal digit run |
| EmailAgent.ResponseToken | Big-Brother/email_agent.py:249 | the subject's token when it has one, else the body's |
| EmailAgent.ProcessParentResponse | Big-Brother/email_agent.py:237-343 | each guard (no token, unknown approval, not awaiting, parse failure) ends without a change; the message is marked read iff the approval is open, the reply parsed, and an approval does not collide with an existing whitelist entry; nothing changes unless it is marked read |
| EmailAgent.ResolutionEffects | Big-Brother/email_agent.py:280-329 | an approval whitelists the link, removes it from the blacklist, and marks the approval and its appeal approved with the reply stored; a denial marks both denied and leaves the lists alone |
| EmailAgent.ProcessParentResponseKeepsValid | Big-Brother/email_agent.py:280-329 | handling a reply keeps the store consistent |
| EmailAgent.ResolvesAtMostOnce | Big-Brother/email_agent.py:262-265 | after a reply closed an approval, any later reply naming it ends as already processed and changes nothing |
| EmailAgent.ParserIdAndConfidenceIgnored | Big-Brother/email_agent.py:249-280 | the approval acted on is the one named by the token; the parser's own approval id and confidence do not matter |
| EmailAgent.WhitelistConflictLeavesApprovalOpen | Big-Brother/email_agent.py:280-289 | an approving reply for an already-whitelisted link raises inside the handler: nothing changes and the approval stays open, so a later denial still closes it |
| EmailAgent.HandleBatch | Big-Brother/email_agent.py:421-434 | the seen set gains exactly the batch's ids; the ids handled are exactly the new ones, each once, at most one per message |
| EmailAgent.HandleBatchKeepsValid | Big-Brother/email_agent.py:421-434 | a whole batch keeps the store consistent |
| Database.Store.AddToWhitelist | Big-Brother/new_server.py:111-123 | the insert-then-delete calls end in the state and answer of `Server.AddToWhitelist` |
| Database.Store.AddToBlacklist | Big-Brother/new_server.py:126-139 | the insert-then-delete calls end in the state and answer of `Server.AddToBlacklist` |
| Database.Store.AnalyzeWebpage | Big-Brother/new_server.py:350-376 | the handler's calls end in the state and answer of `Server.AnalyzeWebpage` |
| Database.Store.SubmitAppeal | Big-Brother/new_server.py:478-570 | the handler's writes, in order, end in the state and answer of `Server.SubmitAppeal`, including the writes left behind by a failing insert |
| Database.Store.ProcessParentResponse | Big-Brother/email_agent.py:237-343 | the handler's guards and writes end in the state and outcome of `EmailAgent.ProcessParentResponse` |
| Database.Store.Resolve | Big-Brother/email_agent.py:280-329 | the approve or deny writes, in order, end where `EmailAgent.Resolve` says |
| Inbox.ProcessBatch | Big-Brother/email_agent.py:421-434 | the loop over a batch ends in the store, seen set and handled ids of `EmailAgent.HandleBatch` |
| Inbox.KeepAtMost | Big-Brother/email_agent.py:436-438 | the kept ids are a subset of the old ones; all are kept when there are at most the limit; otherwise exactly the limit remain |
| Inbox.MonitoringCycle | Big-Brother/email_agent.py:421-438 | one cycle handles exactly the messages whose ids were not remembered; every id seen stays remembered while there are at most 1000, otherwise exactly 1000 of them do; the store stays consistent |
| Prototype.RemoveFirst | test.py:165 | `delete_one` removes the first document with the domain and nothing else; no change when there is none |
| Prototype.RemoveFirstListed | test.py:165 | removing the first match keeps every other domain's presence; on a list without repeats the domain is then absent |
| Prototype.UpdateFirst | test.py:167-170 | `update_one` changes only the first appeal with the id; no change when there is none |
| Prototype.ContentWithFallback | test.py:89-91 | a classifier exception gives "inappropriate" with reason "Unable to verify"; a real answer passes through |
| Prototype.Analyze | test.py:93-132 | whitelist first, then blacklist, by lower-cased domain, without writes; otherwise the verdict is logged and appended to one list; blocked answers of the classifier enable appeals; consistency kept |
| Prototype.AppealWithFallback | test.py:223-224 | a classifier exception gives no auto-approval with reason "Error evaluating appeal" |
| Prototype.SubmitAppeal | test.py:136-199 | the appeal is always recorded; it is approved iff the agent approves and the parent allowed auto-approval, which whitelists the domain and removes its first blacklist entry; otherwise an approval opens, or the call fails on a duplicate approval id |
| Prototype.ApproveAppeal | test.py:280-305 | found iff the id is pending; then the domain is whitelisted, its first blacklist entry removed, the approval and its appeal marked approved; unknown ids change nothing |
| Prototype.DenyAppeal | test.py:307-326 | found iff the id is pending; then the approval and its appeal are marked denied and the lists untouched |
| Prototype.ReceiveScreenshot | test.py:330-355 | terminate iff the app's lower-cased name is one of the lower-cased blocked apps, with no write; otherwise the event is logged |
| Prototype.ApproveAfterDenyStillWhitelists | test.py:280-305 | the approve link works even after a denial and whitelists the domain |
| Prototype.ApproveTwiceAddsTwoEntries | test.py:291 | without a unique index, approving twice adds two whitelist documents |
| Prototype.AutoApprovalNeedsNoBlock | test.py:136-179 | with auto-approval allowed and granted, an appeal whitelists its domain whatever the lists held |
| Prototype.FreshAppealIsTheOneMarked | test.py:156-170 | when the appeal id is new, the approval marks the newly recorded appeal |
| PrototypeStore.Collections.Analyze | test.py:93-132 | the handler's collection calls end where `Prototype.Analyze` says |
| PrototypeStore.Collections.SubmitAppeal | test.py:136-199 | the handler's collection calls end where `Prototype.SubmitAppeal` says |
| PrototypeStore.Collections.ApproveAppeal | test.py:280-305 | the handler's collection calls end where `Prototype.ApproveAppeal` says |
| PrototypeStore.Collections.DenyAppeal | test.py:307-326 | the handler's collection calls end where `Prototype.DenyAppeal` says |
| PrototypeStore.Collections.ReceiveScreenshot | test.py:330-355 | the handler ends where `Prototype.ReceiveScreenshot` says |
| TagInput.Trim | Parent_Dashboard/src/components/TagInput.js:7 | the trimmed text is no longer than the input and, when non-empty, starts and ends with a non-space |
| TagInput.TrimCutsSpaceOnly | Parent_Dashboard/src/components/TagInput.js:7 | trimming removes only white space, from the two ends, and keeps a contiguous slice |
| TagInput.TrimEmptyIffBlank | Parent_Dashboard/src/components/TagInput.js:7 | trimming leaves nothing exactly when the input is all white space |
| TagInput.HandleKeyDown | Parent_Dashboard/src/components/TagInput.js:6-22 | Enter appends the trimmed lower-cased tag and clears the box iff the trimmed input is non-empty and the tag is new; Backspace on an empty box drops the last tag; other keys change nothing; no duplicates are introduced |
| TagInput.RemoveTag | Parent_Dashboard/src/components/TagInput.js:24-26 | the tag at the index is cut out and the others keep their order; an index out of range changes nothing |
| TagInput.BlankEnterChangesNothing | Parent_Dashboard/src/components/TagInput.js:7 | Enter on a blank or white-space-only input changes nothing |
| TagInput.WhitespaceBlocksBackspace | Parent_Dashboard/src/components/TagInput.js:16 | white space in the box keeps Backspace from removing a tag |
| TagInput.AddedTagIsNormalised | Parent_Dashboard/src/components/TagInput.js:9-13 | an added tag is non-empty, has no surrounding white space and no upper-case ASCII letter |
| TagInput.RemoveTagKeepsNoDup | Parent_Dashboard/src/components/TagInput.js:24-26 | removal keeps a duplicate-free list duplicate-free, shortens it by one and removes that tag |
| WebsiteMonitor.EntriesFor | website_monitor.py:21-23 | one entry per domain, in order: the redirect IP, a space, the domain and a newline |
| WebsiteMonitor.ConcatReadLines | website_monitor.py:43-44 | writing back the lines `readlines` returns gives the text again |
| WebsiteMonitor.ReadLinesConcat | website_monitor.py:43-44 | reading back written lines gives the same lines |
| WebsiteMonitor.Kept | website_monitor.py:47-49 | the lines written back are exactly the lines that are not redirection lines |
| WebsiteMonitor.RevertIdempotent | website_monitor.py:38-58 | reverting twice is reverting once |
| WebsiteMonitor.RedirectAppendsEntries | website_monitor.py:25-30 | on a file ending in a newline, redirect adds exactly the redirection lines after the old ones |
| WebsiteMonitor.RevertUndoesRedirect | website_monitor.py:25-58 | on a file ending in a newline (or empty) without redirection lines, revert after redirect restores the file |
| WebsiteMonitor.MergedEntrySurvives | website_monitor.py:29-49 | on a file whose last line has no newline, the first entry is glued to it, so revert leaves that entry behind |
| WebsiteMonitor.HostsFile.Redirect | website_monitor.py:25-30 | append mode writes the redirection lines after the old text |
| WebsiteMonitor.HostsFile.Revert | website_monitor.py:38-49 | the line loop rewrites the file with exactly the lines that are not redirection lines |

## Left out

- Gmail, the notification and confirmation e-mails, Flask routing, JSON bodies, threads, `time.sleep`, timestamps and logging output are not modelled. The model keeps only the state they change.
- The classifiers (`web_content_analysis`, `evaluate_appeal_with_llm`, `analyze_content_with_llm`) and the reply parser are not modelled. Their answers are parameters. An exception is one more value, mapped to the source's fallback. A reply that lacks a key, or an `eval` of malformed text, is not modelled.
- `urlparse`, `netloc`, `hostname` and `parse_qs` are not modelled. Their results are parameters.
- `str.lower`, `toLowerCase` and the regex `\d` are modelled on ASCII only. Unicode case mapping and Unicode digits are left out.
- Server.SubmitAppeal requires a fresh appeal id. The source derives the id from the clock, and `appeals` has no unique index on it. Two appeals in the same second would leave two documents with one id. A map cannot hold them, so that case is not modelled.
- The configuration lookup and the default configuration written on first use are not modelled. `agent_can_auto_approve` and `blocked_apps` are parameters.
- The skip when no parent address is configured and the Gmail query are not modelled. A cycle starts from the fetched messages.
- Inbox.KeepAtMost: which 1000 ids survive depends on Python's set order. The model lets any subset of that size survive.
- website_monitor.py's permission and file-not-found errors, the command-line dispatch and newline translation on Windows are not modelled. The file is its text.
- The desktop-event analysis, the stats and configuration routes and the module-level monitoring thread of `test.py` are not modelled. `test.py`'s e-mail helpers are not part of this model.
- Routes of `new_server.py` other than lists, analysis and appeals (desktop monitoring, transcripts, configuration and statistics) are not part of this model.
