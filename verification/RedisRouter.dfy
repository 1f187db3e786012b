/** A FAST event as the dispatcher handles it, over the live Redis correlation store. */
module RedisRouter {
  import opened Models
  import opened Enforcement
  import opened RedisEnforcement
  import opened RedisStores
  import I = CorrelationIndexes
  import R = RedisCorrelation

  /** Once an exception is uncaught, the remaining targets do not matter. */
  lemma {:induction false} CrashSticks(
    db: R.Redis, targets: seq<string>, kind: EventType, kill: Oracle, when: Clock, n: nat)
    requires n <= |targets| && RedisKillLoop(db, targets[..n], kind, kill, when).crashed
    ensures RedisKillLoop(db, targets, kind, kill, when) == RedisKillLoop(db, targets[..n], kind, kill, when)
  {
    if n == |targets| {
      assert targets[..n] == targets;
    } else {
      var front := targets[..|targets| - 1];
      assert front[..n] == targets[..n];
      CrashSticks(db, front, kind, kill, when, n);
    }
  }

  /** The purge loop at the end of `_enforce_fast`. */
  method DropAll(sids: seq<string>, correlation: RedisCorrelationStore, when: Clock)
    modifies correlation
    ensures correlation.db == DeregisterAll(old(correlation.db), sids, when)
  {
    for i := 0 to |sids|
      invariant correlation.db == DeregisterAll(old(correlation.db), sids[..i], when)
    {
      assert sids[..i + 1][..i] == sids[..i];
      correlation.Deregister(sids[i], when(sids[i]));
    }
    assert sids[..|sids|] == sids;
  }

  /** The loop of `_enforce_fast` over its sessions. */
  method KillSessions(
    sessions: seq<CorrelationRecord>, kind: EventType, kill: Oracle, correlation: RedisCorrelationStore, when: Clock)
    returns (terminated: seq<string>, disabled: seq<string>, failed: seq<string>, raised: bool)
    modifies correlation
    ensures RedisFast(correlation.db, terminated, disabled, failed, raised) ==
            RedisKillLoop(old(correlation.db), I.Ids(sessions), kind, kill, when)
  {
    ghost var db, targets := correlation.db, I.Ids(sessions);
    terminated, disabled, failed, raised := [], [], [], false;
    for i := 0 to |sessions|
      invariant RedisKillLoop(db, targets[..i], kind, kill, when) ==
                RedisFast(correlation.db, terminated, disabled, failed, false)
    {
      var sid := sessions[i].apmSessionId;
      assert targets[..i + 1][..i] == targets[..i] && targets[i] == sid;
      match kill(kind, sid) {
        case Killed =>
          correlation.Deregister(sid, when(sid));
          terminated := terminated + [sid];
        case Skipped =>
          disabled := disabled + [sid];
        case Refuses =>
          failed := failed + [sid];
        case Crashes =>
          CrashSticks(db, targets, kind, kill, when, i + 1);
          raised := true;
          return;
      }
    }
    assert targets[..|sessions|] == targets;
  }

  /** The event over what Redis lists at `now`: on a keyed store, each field of the subject's live hash once. */
  method EnforceFast(
    kind: EventType, s: string, now: Time, correlation: RedisCorrelationStore, kill: Oracle, when: Clock)
    returns (targeted: nat, terminated: nat, raised: bool, ghost targets: seq<string>)
    modifies correlation
    ensures var run := RedisFastEvent(old(correlation.db), targets, kind, kill, when);
            && correlation.db == run.db && raised == run.crashed
            && targeted == |targets| && terminated == |run.terminated|
    ensures R.Keyed(old(correlation.db)) ==>
              && (forall sid :: sid in targets <==> sid in R.HGetAll(old(correlation.db), s, now))
              && forall i, j :: 0 <= i < j < |targets| ==> targets[i] != targets[j]
  {
    ghost var db := correlation.db;
    ghost var fields: seq<string>;
    var sessions: seq<CorrelationRecord>;
    sessions, fields := correlation.SessionsFor(s, now);
    targets := I.Ids(sessions);
    if R.Keyed(db) {
      KeyedFields(db, s, now, sessions, fields);
    }
    if sessions == [] {
      return 0, 0, false, targets;
    }
    var killed, disabled, failed, crashed := KillSessions(sessions, kind, kill, correlation, when);
    targeted, terminated, raised := |sessions|, |killed|, crashed;
    if !crashed && IsPurge(kind) {
      DropAll(disabled + failed, correlation, when);
    }
  }

  lemma KeyedFields(db: R.Redis, s: string, now: Time, sessions: seq<CorrelationRecord>, fields: seq<string>)
    requires R.Keyed(db) && |fields| == |sessions|
    requires var raw := R.HGetAll(db, s, now);
             forall i :: 0 <= i < |fields| ==> fields[i] in raw && sessions[i] == raw[fields[i]]
    ensures I.Ids(sessions) == fields
  {
  }
}
