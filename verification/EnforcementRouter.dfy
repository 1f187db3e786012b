/** The dispatcher itself: loops over sessions and events that update the stores and fill in results. */
module EnforcementRouter {
  import opened Models
  import opened Enforcement
  import I = CorrelationIndexes
  import D = DecisionCache
  import opened InMemoryCorrelation
  import opened DecisionStores

  class EnforcementResult {
    var kinds: seq<EventType>
    var path: EnforcementPath
    var subjectKey: string
    var sessionsTargeted: nat
    var sessionsTerminated: nat

    ghost function Value(): Summary
      reads this
    {
      Summary(kinds, path, subjectKey, sessionsTargeted, sessionsTerminated)
    }

    constructor (kinds: seq<EventType>, path: EnforcementPath, subjectKey: string)
      ensures Value() == Summary(kinds, path, subjectKey, 0, 0)
    {
      this.kinds, this.path, this.subjectKey := kinds, path, subjectKey;
      sessionsTargeted, sessionsTerminated := 0, 0;
    }
  }

  ghost function ResultOf(r: Report, s: string): Summary {
    Summary([r.kind], r.path, s, |r.targets|, |r.terminated|)
  }

  /** Once an exception is uncaught, the remaining targets do not matter. */
  lemma {:induction false} CrashSticks(st: I.Indexes, targets: seq<string>, kind: EventType, kill: Oracle, n: nat)
    requires n <= |targets| && KillLoop(st, targets[..n], kind, kill).crashed
    ensures KillLoop(st, targets, kind, kill) == KillLoop(st, targets[..n], kind, kill)
  {
    if n == |targets| {
      assert targets[..n] == targets;
    } else {
      var front := targets[..|targets| - 1];
      assert front[..n] == targets[..n];
      CrashSticks(st, front, kind, kill, n);
    }
  }

  /** The purge loop at the end of `_enforce_fast`. */
  method DropAll(sids: seq<string>, correlation: InMemoryCorrelationStore)
    modifies correlation
    ensures correlation.State() == I.DeregisterAll(old(correlation.State()), sids)
  {
    for i := 0 to |sids|
      invariant correlation.State() == I.DeregisterAll(old(correlation.State()), sids[..i])
    {
      assert sids[..i + 1][..i] == sids[..i];
      correlation.Deregister(sids[i]);
    }
    assert sids[..|sids|] == sids;
  }

  /** The loop of `_enforce_fast` over its sessions. */
  method KillSessions(
    sessions: seq<CorrelationRecord>, kind: EventType, kill: Oracle, correlation: InMemoryCorrelationStore,
    result: EnforcementResult)
    returns (terminated: seq<string>, disabled: seq<string>, failed: seq<string>, raised: bool)
    modifies correlation, result`sessionsTerminated
    ensures FastRun(correlation.State(), terminated, disabled, failed, raised) ==
            KillLoop(old(correlation.State()), I.Ids(sessions), kind, kill)
    ensures result.sessionsTerminated == old(result.sessionsTerminated) + |terminated|
  {
    ghost var st, targets := correlation.State(), I.Ids(sessions);
    terminated, disabled, failed, raised := [], [], [], false;
    for i := 0 to |sessions|
      invariant KillLoop(st, targets[..i], kind, kill) ==
                FastRun(correlation.State(), terminated, disabled, failed, false)
      invariant result.sessionsTerminated == old(result.sessionsTerminated) + |terminated|
    {
      var sid := sessions[i].apmSessionId;
      assert targets[..i + 1][..i] == targets[..i] && targets[i] == sid;
      match kill(kind, sid) {
        case Killed =>
          correlation.Deregister(sid);
          result.sessionsTerminated := result.sessionsTerminated + 1;
          terminated := terminated + [sid];
        case Skipped =>
          disabled := disabled + [sid];
        case Refuses =>
          failed := failed + [sid];
        case Crashes =>
          CrashSticks(st, targets, kind, kill, i + 1);
          raised := true;
          return;
      }
    }
    assert targets[..|sessions|] == targets;
  }

  lemma NothingToDo(st: I.Indexes, s: string, kind: EventType, now: Time, env: Env)
    requires I.SessionsFor(st, s, now, env.correlationTtl) == []
    ensures FastEvent(st, s, kind, now, env) == FastRun(I.Sweep(st, s, now, env.correlationTtl), [], [], [], false)
  {
  }

  /** Where it raises, an exception other than FastPathDisabled and BigIpError left the loop. */
  method EnforceFast(
    kind: EventType, s: string, now: Time, correlation: InMemoryCorrelationStore, env: Env, result: EnforcementResult)
    returns (raised: bool)
    requires env.correlationTtl == correlation.ttl
    modifies correlation, result`sessionsTargeted, result`sessionsTerminated
    ensures var run := FastEvent(old(correlation.State()), s, kind, now, env);
            && correlation.State() == run.store
            && raised == run.crashed
            && result.sessionsTerminated == old(result.sessionsTerminated) + |run.terminated|
    ensures result.sessionsTargeted == |Targets(old(correlation.State()), s, now, env.correlationTtl)|
  {
    var sessions := correlation.SessionsFor(s, now);
    result.sessionsTargeted := |sessions|;
    if sessions == [] {
      NothingToDo(old(correlation.State()), s, kind, now, env);
      return false;
    }
    var _, disabled, failed, crashed := KillSessions(sessions, kind, env.kill, correlation, result);
    if crashed {
      return true;
    }
    if IsPurge(kind) {
      DropAll(disabled + failed, correlation);
    }
    return false;
  }

  method HandleOneEvent(
    te: TimedEvent, s: string, correlation: InMemoryCorrelationStore, decisions: InMemoryDecisionCache, env: Env,
    ghost run: SetRun)
    returns (result: EnforcementResult, raised: bool)
    requires env.correlationTtl == correlation.ttl
    requires !run.raised && run.store == correlation.State() && run.cache == decisions.records
    modifies correlation, decisions
    ensures var next := HandleOne(run, te, s, env);
            && correlation.State() == next.store && decisions.records == next.cache && raised == next.raised
            && fresh(result)
            && (!raised ==> result.Value() == ResultOf(next.reports[|next.reports| - 1], s))
  {
    var path := PathOf(env.paths, te.event.kind);
    result := new EnforcementResult([te.event.kind], path, s);
    raised := false;
    match path {
      case Fast =>
        raised := EnforceFast(te.event.kind, s, te.at, correlation, env, result);
      case Continuous =>
        var record := DecisionRecordFor(te.event, s, te.at);
        if record.None? {
          return result, true;
        }
        var merged := decisions.Upsert(record.value);
        raised := merged.None?;
      case Informational =>
    }
  }

  method SummarizeResults(
    results: seq<EnforcementResult>, s: string, ghost rs: seq<Report>) returns (summary: EnforcementResult)
    requires |results| == |rs| && forall i :: 0 <= i < |rs| ==> results[i].Value() == ResultOf(rs[i], s)
    ensures summary.Value() == Summarize(rs, s)
  {
    if |results| == 0 {
      summary := new EnforcementResult([], Informational, s);
      return;
    }
    if |results| == 1 {
      return results[0];
    }
    var kinds, path := [results[0].kinds[0]], results[0].path;
    var targeted, terminated := results[0].sessionsTargeted, results[0].sessionsTerminated;
    assert rs[..1][..0] == [];
    for i := 1 to |results|
      invariant kinds == Kinds(rs[..i]) && path == MostSevere(rs[..i])
      invariant targeted == MaxTargeted(rs[..i]) && terminated == SumTerminated(rs[..i])
    {
      assert rs[..i + 1][..i] == rs[..i];
      var r := results[i];
      assert r.Value() == ResultOf(rs[i], s);
      kinds := kinds + [r.kinds[0]];
      if Severity(r.path) > Severity(path) {
        path := r.path;
      }
      if r.sessionsTargeted > targeted {
        targeted := r.sessionsTargeted;
      }
      terminated := terminated + r.sessionsTerminated;
    }
    assert rs[..|rs|] == rs;
    summary := new EnforcementResult(kinds, path, s);
    summary.sessionsTargeted, summary.sessionsTerminated := targeted, terminated;
  }

  /** Where it raises, the source returns nothing; `summary` then means nothing. */
  method HandleVerifiedSet(
    events: seq<TimedEvent>, s: string, correlation: InMemoryCorrelationStore, decisions: InMemoryDecisionCache,
    env: Env)
    returns (summary: EnforcementResult, raised: bool)
    requires env.correlationTtl == correlation.ttl
    modifies correlation, decisions
    ensures var run := Dispatch(old(correlation.State()), old(decisions.records), events, s, env);
            && correlation.State() == run.store && decisions.records == run.cache && raised == run.raised
            && (!raised ==> summary.Value() == Summarize(run.reports, s))
  {
    ghost var st, cache := correlation.State(), decisions.records;
    ghost var run := Dispatch(st, cache, [], s, env);
    var results: seq<EnforcementResult> := [];
    for i := 0 to |events|
      invariant run == Dispatch(st, cache, events[..i], s, env) && !run.raised
      invariant correlation.State() == run.store && decisions.records == run.cache
      invariant |results| == |run.reports|
      invariant forall k :: 0 <= k < |results| ==>
                  fresh(results[k]) && results[k].Value() == ResultOf(run.reports[k], s)
    {
      assert events[..i + 1][..i] == events[..i];
      var result, failed := HandleOneEvent(events[i], s, correlation, decisions, env, run);
      ghost var next := HandleOne(run, events[i], s, env);
      assert next == Dispatch(st, cache, events[..i + 1], s, env);
      if failed {
        RaiseSticks(st, cache, events, s, env, i + 1);
        return result, true;
      }
      run := next;
      results := results + [result];
    }
    assert events[..|events|] == events;
    summary := SummarizeResults(results, s, run.reports);
    raised := false;
  }
}
