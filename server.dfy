/**
 * The list and appeal rules of the content-filter server (Big-Brother/new_server.py),
 * as transitions of the shared collections. Each function takes the collections
 * before the handler runs and gives them afterwards together with the handler's
 * answer; Database.Store performs the same steps one collection call at a time.
 */
module Server {
  import opened Wrappers
  import opened Strings
  import opened Records

  // ---------------------------------------------------------------------------
  // add_to_whitelist / add_to_blacklist
  // ---------------------------------------------------------------------------

  /**
   * `add_to_whitelist`: insert the link (the unique index refuses a duplicate and the
   * `except` branch answers False), then delete it from the blacklist.
   */
  function AddToWhitelist(d: Db, link: string, reason: string): (r: (Db, bool))
    ensures r.1 <==> link !in d.whitelist
    ensures r.1 ==> r.0.whitelist == d.whitelist[link := WhiteEntry(reason)] && r.0.blacklist == d.blacklist - {link}
    ensures r.1 ==> link in r.0.whitelist && link !in r.0.blacklist
    ensures r.0.appeals == d.appeals && r.0.pendingApprovals == d.pendingApprovals
    ensures !r.1 ==> r.0 == d
    ensures Valid(d) ==> Valid(r.0)
  {
    if link in d.whitelist then (d, false)
    else (d.(whitelist := d.whitelist[link := WhiteEntry(reason)], blacklist := d.blacklist - {link}), true)
  }

  /** `add_to_blacklist`: the mirror image, starting the link's appeal count at 0. */
  function AddToBlacklist(d: Db, link: string, reason: string): (r: (Db, bool))
    ensures r.1 <==> link !in d.blacklist
    ensures r.1 ==> r.0.blacklist == d.blacklist[link := BlackEntry(0, reason, None, None)] && r.0.whitelist == d.whitelist - {link}
    ensures r.1 ==> link in r.0.blacklist && r.0.blacklist[link].appeals == 0 && link !in r.0.whitelist
    ensures r.0.appeals == d.appeals && r.0.pendingApprovals == d.pendingApprovals
    ensures !r.1 ==> r.0 == d
    ensures Valid(d) ==> Valid(r.0)
  {
    if link in d.blacklist then (d, false)
    else (d.(blacklist := d.blacklist[link := BlackEntry(0, reason, None, None)], whitelist := d.whitelist - {link}), true)
  }

  // ---------------------------------------------------------------------------
  // check_webpage_against_DB
  // ---------------------------------------------------------------------------

  /** What the lists say about a page: blocked (with the entry's reason and appeal count) or allowed. */
  datatype ListVerdict = Blocked(reason: string, appealsUsed: nat) | Allowed

  /**
   * `check_webpage_against_DB`. `netloc` is what `urlparse(link).netloc` gives; the
   * domain key is its lower-cased form. A blacklist entry for the exact link, else for
   * the domain, blocks; only then is the whitelist consulted, for the link or the domain.
   */
  function CheckWebpageAgainstDb(d: Db, link: string, netloc: string): (r: Option<ListVerdict>)
    ensures var domain := Lower(netloc);
      r.None? <==> link !in d.blacklist && domain !in d.blacklist && link !in d.whitelist && domain !in d.whitelist
    ensures link in d.blacklist ==> r == Some(Blocked(d.blacklist[link].reason, d.blacklist[link].appeals))
    ensures var domain := Lower(netloc);
      link !in d.blacklist && domain in d.blacklist ==> r == Some(Blocked(d.blacklist[domain].reason, d.blacklist[domain].appeals))
    ensures var domain := Lower(netloc);
      r == Some(Allowed) <==> link !in d.blacklist && domain !in d.blacklist && (link in d.whitelist || domain in d.whitelist)
  {
    var domain := Lower(netloc);
    var entry := if link in d.blacklist then Some(d.blacklist[link])
                 else if domain in d.blacklist then Some(d.blacklist[domain])
                 else None;
    if entry.Some? then Some(Blocked(entry.value.reason, entry.value.appeals))
    else if link in d.whitelist || domain in d.whitelist then Some(Allowed)
    else None
  }

  // ---------------------------------------------------------------------------
  // The classifier oracles and analyze_webpage
  // ---------------------------------------------------------------------------

  /** What a call to `web_content_analysis` or `evaluate_appeal_with_llm` gave: a verdict, or an exception. */
  datatype OracleReply = Reply(action: string, reason: string) | Unavailable

  datatype Decision = Decision(action: string, reason: string)

  const FallbackReason: string := "Error during analysis, review manually."

  /** Both oracle wrappers turn an exception into a "block" verdict with this reason. */
  function WithFallback(o: OracleReply): Decision {
    match o
    case Reply(action, reason) => Decision(action, reason)
    case Unavailable => Decision("block", FallbackReason)
  }

  /** The JSON answer of `/analyze`. */
  datatype PageResult = PageResult(action: string, reason: string, appealsUsed: nat, appealEnabled: bool)

  /**
   * `analyze_webpage`. `appealEnabled` is the configuration's `agent_can_auto_approve`.
   * A verdict from the lists is returned as it is; otherwise the oracle's verdict is
   * written to the blacklist when it is "block" and to the whitelist for any other action.
   */
  function AnalyzeWebpage(d: Db, link: string, netloc: string, oracle: OracleReply, appealEnabled: bool): (r: (Db, PageResult))
    ensures CheckWebpageAgainstDb(d, link, netloc).Some? ==> r.0 == d
    ensures CheckWebpageAgainstDb(d, link, netloc).None? && WithFallback(oracle).action == "block" ==>
      && r.0.blacklist == d.blacklist[link := BlackEntry(0, WithFallback(oracle).reason, None, None)]
      && r.0.whitelist == d.whitelist
      && r.0.appeals == d.appeals && r.0.pendingApprovals == d.pendingApprovals
    ensures CheckWebpageAgainstDb(d, link, netloc).None? && WithFallback(oracle).action != "block" ==>
      && r.0.whitelist == d.whitelist[link := WhiteEntry(WithFallback(oracle).reason)]
      && r.0.blacklist == d.blacklist
      && r.0.appeals == d.appeals && r.0.pendingApprovals == d.pendingApprovals
    ensures CheckWebpageAgainstDb(d, link, netloc).None? && oracle.Unavailable? ==> link in r.0.blacklist
    ensures r.1.action == "block" <==>
      match CheckWebpageAgainstDb(d, link, netloc)
      case Some(v) => v.Blocked?
      case None => WithFallback(oracle).action == "block"
    ensures var v := CheckWebpageAgainstDb(d, link, netloc);
      v.Some? && v.value.Blocked? ==> r.1.reason == v.value.reason && r.1.appealsUsed == v.value.appealsUsed
    ensures CheckWebpageAgainstDb(d, link, netloc) == Some(Allowed) ==>
      r.1.reason == "URL or domain whitelisted" && r.1.appealsUsed == 0
    ensures CheckWebpageAgainstDb(d, link, netloc).None? ==>
      r.1.action == WithFallback(oracle).action && r.1.reason == WithFallback(oracle).reason && r.1.appealsUsed == 0
    ensures r.1.appealEnabled == appealEnabled
    ensures Valid(d) ==> Valid(r.0)
  {
    match CheckWebpageAgainstDb(d, link, netloc)
    case Some(Blocked(reason, used)) => (d, PageResult("block", reason, used, appealEnabled))
    case Some(Allowed) => (d, PageResult("allow", "URL or domain whitelisted", 0, appealEnabled))
    case None =>
      var v := WithFallback(oracle);
      if v.action == "block" then (AddToBlacklist(d, link, v.reason).0, PageResult(v.action, v.reason, 0, appealEnabled))
      else (AddToWhitelist(d, link, v.reason).0, PageResult(v.action, v.reason, 0, appealEnabled))
  }

  /** On a list hit the oracle is not consulted: its answer cannot change the outcome. */
  lemma AnalyzeIgnoresOracleOnListHit(d: Db, link: string, netloc: string, o1: OracleReply, o2: OracleReply, appealEnabled: bool)
    requires CheckWebpageAgainstDb(d, link, netloc).Some?
    ensures AnalyzeWebpage(d, link, netloc, o1, appealEnabled) == AnalyzeWebpage(d, link, netloc, o2, appealEnabled)
  {
  }

  // ---------------------------------------------------------------------------
  // submit_appeal
  // ---------------------------------------------------------------------------

  /**
   * The answers of `/appeal`: 400 (not blacklisted), 403 (appeal used), an uncaught
   * DuplicateKeyError (500), auto-approval, or the request sent to the parent.
   */
  datatype AppealResponse = NotBlacklisted | AppealUsed | InternalError | AppealAllowed(reason: string) | SentToParent

  /** The guards of `submit_appeal` let this link's appeal through. */
  predicate AppealAccepted(d: Db, link: string) {
    link in d.blacklist && d.blacklist[link].appeals < 1
  }

  /**
   * `submit_appeal`. `appealId` and `approvalId` are the time-derived ids, supplied by
   * the caller; the appeal id must be fresh. The `appeals` document and the `$inc`
   * of the entry's count are written before the verdict is acted on, so they remain
   * when a later insert raises.
   */
  function SubmitAppeal(d: Db, link: string, netloc: string, appealReason: string,
                        appealId: string, approvalId: string, oracle: OracleReply): (r: (Db, AppealResponse))
    requires appealId !in d.appeals
    ensures link !in d.blacklist ==> r == (d, NotBlacklisted)
    ensures link in d.blacklist && d.blacklist[link].appeals >= 1 ==> r == (d, AppealUsed)
    ensures AppealAccepted(d, link) ==>
      (r.1.AppealAllowed? <==> WithFallback(oracle).action == "approve" && link !in d.whitelist)
    ensures AppealAccepted(d, link) ==>
      (r.1 == SentToParent <==> WithFallback(oracle).action != "approve" && approvalId !in d.pendingApprovals)
    ensures r.1 == InternalError ==>
      && AppealAccepted(d, link)
      && (if WithFallback(oracle).action == "approve" then link in d.whitelist else approvalId in d.pendingApprovals)
    ensures AppealAccepted(d, link) && r.1.AppealAllowed? ==>
      && r.1.reason == WithFallback(oracle).reason
      && r.0.whitelist == d.whitelist[link := WhiteEntry("Appeal auto-approved: " + WithFallback(oracle).reason)]
      && r.0.blacklist == d.blacklist - {link}
      && r.0.appeals == d.appeals[appealId :=
           Appeal(link, Lower(netloc), appealReason, AutoApproved, Some(WithFallback(oracle).reason))]
      && r.0.pendingApprovals == d.pendingApprovals
    ensures AppealAccepted(d, link) && !r.1.AppealAllowed? ==>
      && r.0.whitelist == d.whitelist
      && r.0.blacklist == d.blacklist[link := d.blacklist[link].(appeals := 1,
           lastAppealMessage := Some(appealReason), lastAppealLlmReason := Some(WithFallback(oracle).reason))]
      && r.0.appeals == d.appeals[appealId := Appeal(link, Lower(netloc), appealReason, Pending, None)]
    ensures r.1 == SentToParent ==>
      r.0.pendingApprovals == d.pendingApprovals[approvalId :=
        PendingApproval(Some(appealId), link, Lower(netloc), appealReason, AwaitingParent, None)]
    ensures r.1 == InternalError ==> r.0.pendingApprovals == d.pendingApprovals
  {
    if link !in d.blacklist then (d, NotBlacklisted)
    else
      var entry := d.blacklist[link];
      if entry.appeals >= 1 then (d, AppealUsed)
      else
        var domain := Lower(netloc);
        var d1 := d.(appeals := d.appeals[appealId := Appeal(link, domain, appealReason, Pending, None)]);
        var decision := WithFallback(oracle);
        var counted := entry.(appeals := entry.appeals + 1,
                              lastAppealMessage := Some(appealReason),
                              lastAppealLlmReason := Some(decision.reason));
        var d2 := d1.(blacklist := d1.blacklist[link := counted]);
        if decision.action == "approve" then
          if link in d2.whitelist then (d2, InternalError)
          else
            var d3 := d2.(whitelist := d2.whitelist[link := WhiteEntry("Appeal auto-approved: " + decision.reason)],
                          blacklist := d2.blacklist - {link});
            var approved := d3.appeals[appealId].(status := AutoApproved, agentDecision := Some(decision.reason));
            (d3.(appeals := d3.appeals[appealId := approved]), AppealAllowed(decision.reason))
        else if approvalId in d2.pendingApprovals then (d2, InternalError)
        else
          var ticket := PendingApproval(Some(appealId), link, domain, appealReason, AwaitingParent, None);
          (d2.(pendingApprovals := d2.pendingApprovals[approvalId := ticket]), SentToParent)
  }

  /**
   * An appeal keeps the store consistent, and on a consistent store an approving
   * verdict cannot hit the whitelist's unique index (the link is blacklisted, so it is
   * not whitelisted).
   */
  lemma SubmitAppealKeepsValid(d: Db, link: string, netloc: string, appealReason: string,
                               appealId: string, approvalId: string, oracle: OracleReply)
    requires appealId !in d.appeals
    requires Valid(d)
    ensures Valid(SubmitAppeal(d, link, netloc, appealReason, appealId, approvalId, oracle).0)
    ensures WithFallback(oracle).action == "approve" ==>
      SubmitAppeal(d, link, netloc, appealReason, appealId, approvalId, oracle).1 != InternalError
  {
  }

  /**
   * An appeal is one-shot: once a link's appeal got past the guards, a second appeal
   * for the same link is refused (400 or 403) and changes nothing.
   */
  lemma AppealIsOneShot(d: Db, link: string, netloc: string, appealReason: string, appealId: string,
                        approvalId: string, oracle: OracleReply,
                        netloc2: string, appealReason2: string, appealId2: string,
                        approvalId2: string, oracle2: OracleReply)
    requires appealId !in d.appeals && AppealAccepted(d, link)
    requires appealId2 !in SubmitAppeal(d, link, netloc, appealReason, appealId, approvalId, oracle).0.appeals
    ensures var d1 := SubmitAppeal(d, link, netloc, appealReason, appealId, approvalId, oracle).0;
      var second := SubmitAppeal(d1, link, netloc2, appealReason2, appealId2, approvalId2, oracle2);
      second.0 == d1 && (second.1 == NotBlacklisted || second.1 == AppealUsed)
  {
  }

  /**
   * A page blocked only through its domain's entry is reported with that entry's
   * appeal count, yet an appeal for the page is refused with 400: `submit_appeal`
   * looks up the exact link only.
   */
  lemma DomainBlockIsNotAppealable(d: Db, link: string, netloc: string, appealReason: string,
                                   appealId: string, approvalId: string, oracle: OracleReply)
    requires appealId !in d.appeals
    requires link !in d.blacklist && Lower(netloc) in d.blacklist
    ensures CheckWebpageAgainstDb(d, link, netloc) == Some(Blocked(d.blacklist[Lower(netloc)].reason, d.blacklist[Lower(netloc)].appeals))
    ensures SubmitAppeal(d, link, netloc, appealReason, appealId, approvalId, oracle) == (d, NotBlacklisted)
  {
  }

  // ---------------------------------------------------------------------------
  // extract_video_id
  // ---------------------------------------------------------------------------

  /**
   * What `urlparse`/`parse_qs` give for a link: the host name, the path, and the
   * first value of the query parameter "v". These parsers are not modelled.
   */
  datatype UrlParts = UrlParts(hostname: Option<string>, path: string, firstV: Option<string>)

  const ShortLinkMarker: string := "youtu.be/"

  predicate IsYouTubeHost(host: Option<string>) {
    host.Some? && host.value in ["www.youtube.com", "youtube.com", "m.youtube.com"]
  }

  /** Two occurrences of "youtu.be/" cannot overlap. */
  lemma ShortLinkMarkersDoNotOverlap(s: string, p: int, q: int)
    requires OccursAt(s, ShortLinkMarker, p) && OccursAt(s, ShortLinkMarker, q) && p < q
    ensures p + |ShortLinkMarker| <= q
  {
    assert s[q] == 'y';
    assert forall k :: 1 <= k < |ShortLinkMarker| ==> ShortLinkMarker[k] != 'y';
  }

  /** `p` is the last occurrence of "youtu.be/" in `link`. */
  ghost predicate LastShortLinkMarker(link: string, p: int) {
    && OccursAt(link, ShortLinkMarker, p)
    && forall q :: p < q ==> !OccursAt(link, ShortLinkMarker, q)
  }

  /** `id` starts right after the marker at `p` and runs up to the first '?' or '&' or the end. */
  ghost predicate IdAfterMarker(link: string, p: int, id: string) {
    && 0 <= p
    && p + |ShortLinkMarker| + |id| <= |link|
    && id == link[p + |ShortLinkMarker|..p + |ShortLinkMarker| + |id|]
    && '?' !in id && '&' !in id
    && (p + |ShortLinkMarker| + |id| == |link|
        || link[p + |ShortLinkMarker| + |id|] == '?' || link[p + |ShortLinkMarker| + |id|] == '&')
  }

  /** The short-link branch of `extract_video_id` takes the id after the last marker. */
  lemma ShortLinkIdFollowsLastMarker(link: string)
    requires Contains(link, ShortLinkMarker)
    ensures var tail := AfterLast(link, ShortLinkMarker);
      var p := |link| - |tail| - |ShortLinkMarker|;
      LastShortLinkMarker(link, p) && IdAfterMarker(link, p, CutAtQuery(tail))
  {
    var tail := AfterLast(link, ShortLinkMarker);
    var p := |link| - |tail| - |ShortLinkMarker|;
    forall q | p < q
      ensures !OccursAt(link, ShortLinkMarker, q)
    {
      if OccursAt(link, ShortLinkMarker, q) {
        ShortLinkMarkersDoNotOverlap(link, p, q);
      }
    }
  }

  /**
   * `s.split("?")[0].split("&")[0]`: a prefix of `s` free of '?' and '&' that stops
   * at the first of them.
   */
  function CutAtQuery(s: string): (r: string)
    ensures |r| <= |s| && r == s[..|r|]
    ensures '?' !in r && '&' !in r
    ensures |r| < |s| ==> s[|r|] == '?' || s[|r|] == '&'
  {
    var a := BeforeFirst(s, '?');
    var b := BeforeFirst(a, '&');
    assert forall i :: 0 <= i < |b| ==> b[i] == a[i];
    b
  }

  /** `id` is the text of `s` from `start` up to the first `c`, or up to the end when there is none. */
  ghost predicate TextUpTo(s: string, start: int, c: char, id: string) {
    && 0 <= start && start + |id| <= |s|
    && id == s[start..start + |id|]
    && c !in id
    && (start + |id| == |s| || s[start + |id|] == c)
  }

  /** `path.split(marker)[-1].split("?")[0]`: the last piece of the path, cut at the first '?'. */
  lemma PathIdIsLastPiece(path: string, marker: string)
    requires |marker| > 0
    ensures TextUpTo(path, LastPieceFrom(path, marker), '?', BeforeFirst(AfterLast(path, marker), '?'))
  {
    var start := LastPieceFrom(path, marker);
    var tail := AfterLast(path, marker);
    var id := BeforeFirst(tail, '?');
    assert tail == path[start..];
    assert id == tail[..|id|];
  }

  /**
   * The path markers overlap themselves, and `split` takes its matches left to right
   * without overlap: in "/embed/embed/x" only the first "/embed/" is a match, so the
   * last piece is "embed/x".
   */
  lemma SplitSkipsOverlappingMarker()
    ensures AfterLast("/embed/embed/x", "/embed/") == "embed/x"
  {
    var s, sep := "/embed/embed/x", "/embed/";
    assert OccursAt(s, sep, 0);
    assert !OccursAt(s, sep, 7) by { assert s[7] != sep[0]; }
    assert SplitMatches(s, sep, 8) == [];
    assert SplitMatches(s, sep, 7) == [];
    assert SplitMatches(s, sep, 0) == [0];
  }

  /**
   * `extract_video_id`. For a link containing "youtu.be/", the id is the text after
   * the last occurrence of that marker, cut at the first '?' or '&'. Otherwise only
   * the three YouTube hosts give an id: from "v" on "/watch", or what follows
   * "/embed/" or "/v/" in the path.
   */
  function ExtractVideoId(link: string, url: UrlParts): (r: Option<string>)
    ensures Contains(link, ShortLinkMarker) ==>
      r.Some? && exists p :: LastShortLinkMarker(link, p) && IdAfterMarker(link, p, r.value)
    ensures !Contains(link, ShortLinkMarker) && !IsYouTubeHost(url.hostname) ==> r.None?
    ensures !Contains(link, ShortLinkMarker) && IsYouTubeHost(url.hostname) && url.path == "/watch" ==> r == url.firstV
    ensures !Contains(link, ShortLinkMarker) && IsYouTubeHost(url.hostname) && url.path != "/watch" ==>
      (r.Some? <==> OccursAt(url.path, "/embed/", 0) || OccursAt(url.path, "/v/", 0))
    ensures (!Contains(link, ShortLinkMarker) && IsYouTubeHost(url.hostname) && url.path != "/watch"
             && OccursAt(url.path, "/embed/", 0)) ==>
      r.Some? && TextUpTo(url.path, LastPieceFrom(url.path, "/embed/"), '?', r.value)
    ensures (!Contains(link, ShortLinkMarker) && IsYouTubeHost(url.hostname) && url.path != "/watch"
             && !OccursAt(url.path, "/embed/", 0) && OccursAt(url.path, "/v/", 0)) ==>
      r.Some? && TextUpTo(url.path, LastPieceFrom(url.path, "/v/"), '?', r.value)
    ensures !Contains(link, ShortLinkMarker) && url.path != "/watch" && r.Some? ==> '?' !in r.value
  {
    if Contains(link, ShortLinkMarker) then
      var tail := AfterLast(link, ShortLinkMarker);
      ShortLinkIdFollowsLastMarker(link);
      assert LastShortLinkMarker(link, |link| - |tail| - |ShortLinkMarker|);
      var id := CutAtQuery(tail);
      Some(id)
    else if IsYouTubeHost(url.hostname) then
      if url.path == "/watch" then url.firstV
      else if OccursAt(url.path, "/embed/", 0) then
        PathIdIsLastPiece(url.path, "/embed/");
        Some(BeforeFirst(AfterLast(url.path, "/embed/"), '?'))
      else if OccursAt(url.path, "/v/", 0) then
        PathIdIsLastPiece(url.path, "/v/");
        Some(BeforeFirst(AfterLast(url.path, "/v/"), '?'))
      else None
    else None
  }
}
