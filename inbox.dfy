/**
 * One cycle of `email_monitoring_loop` (Big-Brother/email_agent.py): the fetched
 * unread replies are walked in order, each new message id is remembered and its
 * message processed, and the remembered ids are then cut back to at most 1000.
 * Fetching, the parent-address query and the sleep between cycles are not modelled.
 */
module Inbox {
  import opened Wrappers
  import opened Records
  import opened EmailAgent
  import Database

  const MaxRemembered: nat := 1000

  /**
   * The loop body over one batch. `parses` holds what the reply parser would answer
   * for each message. Ends with the collections, the remembered ids and the ids
   * handled exactly as `HandleBatch` describes them.
   */
  method ProcessBatch(store: Database.Store, msgs: seq<Message>, parses: seq<Option<ParsedReply>>, processed: set<string>)
    returns (seen: set<string>, handled: seq<string>)
    requires |parses| == |msgs|
    modifies store
    ensures (store.Snapshot(), seen, handled) == HandleBatch(old(store.Snapshot()), msgs, parses, processed)
  {
    seen := processed;
    handled := [];
    var i := 0;
    while i < |msgs|
      invariant 0 <= i <= |msgs|
      invariant (store.Snapshot(), seen, handled) == HandleBatch(old(store.Snapshot()), msgs[..i], parses[..i], processed)
    {
      var m := msgs[i];
      HandleBatchStep(old(store.Snapshot()), msgs, parses, processed, i);
      if m.id !in seen {
        seen := seen + {m.id};
        var _ := store.ProcessParentResponse(m, parses[i]);
        handled := handled + [m.id];
      }
      i := i + 1;
    }
    assert msgs[..i] == msgs && parses[..i] == parses;
  }

  /**
   * `if len(ids) > 1000: ids = set(list(ids)[-1000:])`: which 1000 survive depends on
   * set iteration order, so any 1000 of them may be kept.
   */
  method KeepAtMost(ids: set<string>, limit: nat) returns (kept: set<string>)
    ensures kept <= ids
    ensures |ids| <= limit ==> kept == ids
    ensures |ids| > limit ==> |kept| == limit
  {
    kept := ids;
    while |kept| > limit
      invariant kept <= ids
      invariant |ids| <= limit ==> kept == ids
      invariant |ids| > limit ==> |kept| >= limit
      decreases |kept|
    {
      var x :| x in kept;
      kept := kept - {x};
    }
  }

  /**
   * A whole cycle: the batch, then the trim. Every message of the batch whose id was
   * not remembered has been handled exactly once. All ids seen stay remembered while
   * there are at most 1000 of them; beyond that, exactly 1000 of them do.
   */
  method MonitoringCycle(store: Database.Store, msgs: seq<Message>, parses: seq<Option<ParsedReply>>, processed: set<string>)
    returns (remembered: set<string>, handled: seq<string>)
    requires |parses| == |msgs|
    modifies store
    ensures var b := HandleBatch(old(store.Snapshot()), msgs, parses, processed);
      store.Snapshot() == b.0 && handled == b.2 && remembered <= b.1
    ensures var b := HandleBatch(old(store.Snapshot()), msgs, parses, processed);
      (|b.1| <= MaxRemembered ==> remembered == b.1) && (|b.1| > MaxRemembered ==> |remembered| == MaxRemembered)
    ensures |remembered| <= MaxRemembered
    ensures forall x :: x in handled <==> x !in processed && exists i :: 0 <= i < |msgs| && msgs[i].id == x
    ensures Valid(old(store.Snapshot())) ==> Valid(store.Snapshot())
  {
    var seen;
    ghost var before := store.Snapshot();
    seen, handled := ProcessBatch(store, msgs, parses, processed);
    if Valid(before) {
      HandleBatchKeepsValid(before, msgs, parses, processed);
    }
    remembered := KeepAtMost(seen, MaxRemembered);
  }
}
