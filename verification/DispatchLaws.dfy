/** Laws of a whole SET: conservation of its targets, purging, and what is left alone. */
module DispatchLaws {
  import opened Models
  import opened CorrelationIndexes
  import opened Enforcement
  import opened KillLoopLaws
  import D = DecisionCache

  // ----- Counting -----

  predicate NoDups(ids: seq<string>) {
    forall i, j :: 0 <= i < j < |ids| ==> ids[i] != ids[j]
  }

  lemma {:induction false} NoDupsSize(ids: seq<string>)
    requires NoDups(ids)
    ensures |ToSet(ids)| == |ids|
  {
    if ids == [] {
      assert ToSet(ids) == {};
    } else {
      NoDupsSize(ids[..|ids| - 1]);
      assert ids == ids[..|ids| - 1] + [ids[|ids| - 1]];
      assert ToSet(ids) == ToSet(ids[..|ids| - 1]) + {ids[|ids| - 1]};
    }
  }

  lemma {:induction false} SelectNoDups(targets: seq<string>, kind: EventType, kill: Oracle, outcome: KillOutcome)
    requires NoDups(targets)
    ensures NoDups(Select(targets, kind, kill, outcome))
  {
    if targets != [] {
      var front := targets[..|targets| - 1];
      SelectNoDups(front, kind, kill, outcome);
      SelectMembers(front, kind, kill, outcome);
    }
  }

  lemma {:induction false} SubsetSize(a: set<string>, b: set<string>)
    requires a <= b
    ensures |a| <= |b|
  {
    assert b == a + (b - a);
  }

  /** `b` lists no session outside `targets`, and none of `gone`. */
  lemma RestSize(b: seq<CorrelationRecord>, gone: seq<string>, targets: seq<string>)
    requires Distinct(b) && NoDups(gone) && NoDups(targets)
    requires forall r :: r in b ==> r.apmSessionId in targets && r.apmSessionId !in gone
    requires forall sid :: sid in gone ==> sid in targets
    ensures |b| + |gone| <= |targets|
  {
    NoDupsSize(Ids(b));
    NoDupsSize(gone);
    NoDupsSize(targets);
    var left := ToSet(Ids(b));
    assert left !! ToSet(gone);
    SubsetSize(left + ToSet(gone), ToSet(targets));
  }

  // ----- One FAST event -----

  /** Targets and terminated sessions of a FAST event, without repetition, and what is still listed after it. */
  ghost predicate Narrowed(st: Indexes, after: Indexes, s: string, targets: seq<string>, terminated: seq<string>) {
    && NoDups(targets) && (forall sid :: sid in targets ==> HasId(Bucket(st, s), sid))
    && NoDups(terminated) && (forall sid :: sid in terminated ==> sid in targets)
    && (forall sid :: HasId(Bucket(after, s), sid) ==> sid in targets && sid !in terminated)
  }

  lemma TargetsAreLive(st: Indexes, s: string, at: Time, ttl: Time)
    requires Consistent(st)
    ensures var targets := Targets(st, s, at, ttl);
            && NoDups(targets) && (forall sid :: sid in targets ==> HasId(Bucket(st, s), sid))
            && |targets| <= |Bucket(st, s)|
  {
    SweptBucket(st, s, at, ttl);
    RestSize(SessionsFor(st, s, at, ttl), [], Ids(Bucket(st, s)));
  }

  lemma TerminatedOnce(st: Indexes, targets: seq<string>, kind: EventType, kill: Oracle)
    requires NoDups(targets)
    ensures var run := KillLoop(st, targets, kind, kill);
            NoDups(run.terminated) && forall sid :: sid in run.terminated ==> sid in targets
  {
    var h := Handled(targets, kind, kill);
    LoopLists(st, targets, kind, kill);
    SelectNoDups(h, kind, kill, Killed);
    LoopTargets(st, targets, kind, kill);
  }

  lemma ListedAfter(st: Indexes, s: string, kind: EventType, at: Time, env: Env)
    requires Consistent(st)
    ensures var run, targets := FastEvent(st, s, kind, at, env), Targets(st, s, at, env.correlationTtl);
            && Consistent(run.store)
            && forall sid :: HasId(Bucket(run.store, s), sid) ==> sid in targets && sid !in run.terminated
  {
    var ttl := env.correlationTtl;
    var run, targets := FastEvent(st, s, kind, at, env), Targets(st, s, at, ttl);
    SweptBucket(st, s, at, ttl);
    FastEventForgets(st, s, kind, at, env);
    var dead := Dead(st, s, at, ttl, IsPurge(kind) && !run.crashed, ToSet(run.terminated));
    WithoutBuckets(st, s, dead);
    forall r | r in Bucket(run.store, s)
      ensures r.apmSessionId in targets && r.apmSessionId !in run.terminated
    {
      assert r in Bucket(st, s) && r.apmSessionId !in dead;
      assert r in SessionsFor(st, s, at, ttl);
    }
  }

  /** The event's targets are live sessions; afterwards none of the terminated is left, and nothing is new. */
  lemma FastEventShrinks(st: Indexes, s: string, kind: EventType, at: Time, env: Env)
    requires Consistent(st)
    ensures var run, targets := FastEvent(st, s, kind, at, env), Targets(st, s, at, env.correlationTtl);
            && Consistent(run.store)
            && Narrowed(st, run.store, s, targets, run.terminated)
            && |targets| <= |Bucket(st, s)|
            && |Bucket(run.store, s)| + |run.terminated| <= |targets|
            && (!run.crashed ==>
                  multiset(targets) == multiset(run.terminated) + multiset(run.disabled) + multiset(run.failed))
  {
    var run, targets := FastEvent(st, s, kind, at, env), Targets(st, s, at, env.correlationTtl);
    var swept := Sweep(st, s, at, env.correlationTtl);
    TargetsAreLive(st, s, at, env.correlationTtl);
    TerminatedOnce(swept, targets, kind, env.kill);
    ListedAfter(st, s, kind, at, env);
    RestSize(Bucket(run.store, s), run.terminated, targets);
    if !run.crashed {
      LoopPartitions(swept, targets, kind, env.kill);
    }
  }

  // ----- Conservation over a SET -----

  ghost predicate Splits(r: Report) {
    multiset(r.targets) == multiset(r.terminated) + multiset(r.disabled) + multiset(r.failed)
  }

  /** A later event targets a subset, and none that an earlier one terminated. */
  ghost predicate Narrows(earlier: Report, later: Report) {
    forall sid :: sid in later.targets ==> sid in earlier.targets && sid !in earlier.terminated
  }

  /** The sessions of `s` still listed were targets of `r` and survived it. */
  ghost predicate Survive(st: Indexes, s: string, r: Report) {
    forall sid :: HasId(Bucket(st, s), sid) ==> sid in r.targets && sid !in r.terminated
  }

  /** Each target once, each terminated session once, and nobody but targets is terminated. */
  predicate Bounded(r: Report) {
    NoDups(r.targets) && NoDups(r.terminated) && forall sid :: sid in r.terminated ==> sid in r.targets
  }

  /** Every session that some event of the SET terminated, in order. */
  function AllTerminated(rs: seq<Report>): seq<string> {
    if rs == [] then [] else AllTerminated(rs[..|rs| - 1]) + rs[|rs| - 1].terminated
  }

  ghost predicate AllSurvive(st: Indexes, s: string, rs: seq<Report>) {
    forall i :: 0 <= i < |rs| && rs[i].path == Fast ==> Survive(st, s, rs[i])
  }

  ghost predicate AllNarrow(rs: seq<Report>) {
    forall i, j :: 0 <= i < j < |rs| && rs[i].path == Fast ==> Narrows(rs[i], rs[j])
  }

  predicate AllBounded(rs: seq<Report>) {
    forall i :: 0 <= i < |rs| ==> Bounded(rs[i]) && (rs[i].path != Fast ==> rs[i].targets == [])
  }

  /** Only the event that raised may have left targets unhandled. */
  ghost predicate AllSplit(rs: seq<Report>, raised: bool) {
    forall i :: 0 <= i < |rs| && rs[i].path == Fast && (i < |rs| - 1 || !raised) ==> Splits(rs[i])
  }

  /** No session is terminated twice, and none that was is listed. */
  ghost predicate OnceOnly(st: Indexes, s: string, rs: seq<Report>) {
    NoDups(AllTerminated(rs)) && forall sid :: sid in AllTerminated(rs) ==> !HasId(Bucket(st, s), sid)
  }

  ghost predicate Conserved(run: SetRun, s: string) {
    && Consistent(run.store)
    && AllSurvive(run.store, s, run.reports)
    && AllNarrow(run.reports)
    && AllBounded(run.reports)
    && AllSplit(run.reports, run.raised)
    && OnceOnly(run.store, s, run.reports)
  }

  lemma SurvivesMore(st: Indexes, after: Indexes, s: string, rs: seq<Report>, r: Report)
    requires AllSurvive(st, s, rs) && Narrowed(st, after, s, r.targets, r.terminated)
    ensures AllSurvive(after, s, rs + [r])
  {
    var all := rs + [r];
    forall i | 0 <= i < |all| && all[i].path == Fast
      ensures Survive(after, s, all[i])
    {
      if i < |rs| {
        assert Survive(st, s, rs[i]);
      }
    }
  }

  lemma NarrowsMore(st: Indexes, s: string, rs: seq<Report>, r: Report)
    requires AllSurvive(st, s, rs) && AllNarrow(rs) && forall sid :: sid in r.targets ==> HasId(Bucket(st, s), sid)
    ensures AllNarrow(rs + [r])
  {
    var all := rs + [r];
    forall i, j | 0 <= i < j < |all| && all[i].path == Fast
      ensures Narrows(all[i], all[j])
    {
      if j < |rs| {
        assert Narrows(rs[i], rs[j]);
      } else {
        assert Survive(st, s, rs[i]);
      }
    }
  }

  lemma NoDupsConcat(a: seq<string>, b: seq<string>)
    requires NoDups(a) && NoDups(b) && forall x :: x in b ==> x !in a
    ensures NoDups(a + b)
  {
    forall i, j | 0 <= i < j < |a + b|
      ensures (a + b)[i] != (a + b)[j]
    {
      if i < |a| <= j {
        assert (a + b)[j] == b[j - |a|] && b[j - |a|] in b;
      }
    }
  }

  lemma OnceMore(st: Indexes, after: Indexes, s: string, rs: seq<Report>, r: Report)
    requires OnceOnly(st, s, rs) && Narrowed(st, after, s, r.targets, r.terminated)
    ensures OnceOnly(after, s, rs + [r])
  {
    assert (rs + [r])[..|rs|] == rs;
    assert AllTerminated(rs + [r]) == AllTerminated(rs) + r.terminated;
    NoDupsConcat(AllTerminated(rs), r.terminated);
  }

  /** One more report, of a FAST event, keeps each part. */
  lemma FastConserves(st: Indexes, after: Indexes, s: string, rs: seq<Report>, r: Report, raised: bool)
    requires Consistent(after) && AllSurvive(st, s, rs) && AllNarrow(rs) && AllBounded(rs) && AllSplit(rs, false)
    requires OnceOnly(st, s, rs)
    requires r.path == Fast && Narrowed(st, after, s, r.targets, r.terminated) && (!raised ==> Splits(r))
    ensures AllSurvive(after, s, rs + [r]) && AllNarrow(rs + [r]) && AllBounded(rs + [r])
    ensures AllSplit(rs + [r], raised) && OnceOnly(after, s, rs + [r])
  {
    SurvivesMore(st, after, s, rs, r);
    NarrowsMore(st, s, rs, r);
    OnceMore(st, after, s, rs, r);
  }

  /** So does the report of an event that targets nobody. */
  lemma IdleConserves(st: Indexes, s: string, rs: seq<Report>, r: Report)
    requires AllSurvive(st, s, rs) && AllNarrow(rs) && AllBounded(rs) && AllSplit(rs, false) && OnceOnly(st, s, rs)
    requires r.path != Fast && r.targets == r.terminated == []
    ensures AllSurvive(st, s, rs + [r]) && AllNarrow(rs + [r]) && AllBounded(rs + [r])
    ensures AllSplit(rs + [r], false) && OnceOnly(st, s, rs + [r])
  {
    var all := rs + [r];
    assert forall i :: 0 <= i < |all| ==> all[i] == if i < |rs| then rs[i] else r;
    NarrowsMore(st, s, rs, r);
    assert all[..|rs|] == rs;
    assert AllTerminated(all) == AllTerminated(rs) + [] == AllTerminated(rs);
  }

  lemma HandleOneConserves(run: SetRun, te: TimedEvent, s: string, env: Env)
    requires Conserved(run, s) && !run.raised
    ensures Conserved(HandleOne(run, te, s, env), s)
  {
    var path := PathOf(env.paths, te.event.kind);
    if path == Fast {
      FastEventShrinks(run.store, s, te.event.kind, te.at, env);
      var fast := FastEvent(run.store, s, te.event.kind, te.at, env);
      var r := Report(te.event.kind, Fast, Targets(run.store, s, te.at, env.correlationTtl),
                      fast.terminated, fast.disabled, fast.failed);
      FastConserves(run.store, fast.store, s, run.reports, r, fast.crashed);
    } else {
      IdleConserves(run.store, s, run.reports, Report(te.event.kind, path, [], [], [], []));
    }
  }

  /**
    For each FAST event the targets, each once, are split into terminated,
    disabled and failed, unless it raised; targets never grow; over the whole SET
    no session is terminated twice, and none that was terminated stays listed.
   */
  lemma {:induction false} DispatchConserves(
    st: Indexes, cache: D.Records, events: seq<TimedEvent>, s: string, env: Env)
    requires Consistent(st)
    ensures Conserved(Dispatch(st, cache, events, s, env), s)
  {
    if events != [] {
      var run := Dispatch(st, cache, events[..|events| - 1], s, env);
      DispatchConserves(st, cache, events[..|events| - 1], s, env);
      if !run.raised {
        HandleOneConserves(run, events[|events| - 1], s, env);
      }
    }
  }

  predicate IsFast(te: TimedEvent, env: Env) {
    PathOf(env.paths, te.event.kind) == Fast
  }

  /** Reports that match the events one by one. */
  predicate Matches(rs: seq<Report>, events: seq<TimedEvent>, env: Env) {
    && |rs| == |events|
    && forall i :: 0 <= i < |rs| ==> MatchesAt(rs, events, env, i)
  }

  predicate MatchesAt(rs: seq<Report>, events: seq<TimedEvent>, env: Env, i: nat)
    requires i < |rs| && i < |events|
  {
    rs[i].kind == events[i].event.kind && rs[i].path == PathOf(env.paths, events[i].event.kind)
  }

  /** The reports of the events that were reached: all of them, unless the SET raised. */
  predicate Follows(rs: seq<Report>, events: seq<TimedEvent>, env: Env, raised: bool) {
    && |rs| <= |events| && (!raised ==> |rs| == |events|)
    && forall i :: 0 <= i < |rs| ==> MatchesAt(rs, events, env, i)
  }

  lemma FollowsMore(rs: seq<Report>, events: seq<TimedEvent>, r: Report, te: TimedEvent, env: Env, raised: bool)
    requires Follows(rs, events, env, false) && r.kind == te.event.kind && r.path == PathOf(env.paths, te.event.kind)
    ensures Follows(rs + [r], events + [te], env, raised)
  {
    var all, evs := rs + [r], events + [te];
    forall i | 0 <= i < |all|
      ensures MatchesAt(all, evs, env, i)
    {
      if i < |rs| {
        assert MatchesAt(rs, events, env, i);
      }
    }
  }

  lemma FollowsShorter(rs: seq<Report>, events: seq<TimedEvent>, te: TimedEvent, env: Env, raised: bool)
    requires Follows(rs, events, env, raised)
    ensures Follows(rs, events + [te], env, true)
  {
    forall i | 0 <= i < |rs|
      ensures MatchesAt(rs, events + [te], env, i)
    {
      assert MatchesAt(rs, events, env, i);
    }
  }

  /** An event adds one report, of its own kind and path, or raises without one. */
  lemma OneReport(run: SetRun, te: TimedEvent, s: string, env: Env)
    ensures var next := HandleOne(run, te, s, env);
            || (next.raised && next.reports == run.reports)
            || exists r: Report :: next.reports == run.reports + [r]
                                   && r.kind == te.event.kind && r.path == PathOf(env.paths, te.event.kind)
  {
    var next := HandleOne(run, te, s, env);
    if next.reports != run.reports {
      var r := next.reports[|next.reports| - 1];
      assert next.reports == run.reports + [r];
    }
  }

  /** One report for each event that was reached, in order, also when the SET raises. */
  lemma {:induction false} DispatchFollows(st: Indexes, cache: D.Records, events: seq<TimedEvent>, s: string, env: Env)
    ensures var run := Dispatch(st, cache, events, s, env); Follows(run.reports, events, env, run.raised)
  {
    if events != [] {
      var front, te := events[..|events| - 1], events[|events| - 1];
      var run, next := Dispatch(st, cache, front, s, env), Dispatch(st, cache, events, s, env);
      assert events == front + [te];
      DispatchFollows(st, cache, front, s, env);
      FollowsShorter(run.reports, front, te, env, run.raised);
      if !run.raised {
        OneReport(run, te, s, env);
        if r: Report :| next.reports == run.reports + [r] && r.kind == te.event.kind
                        && r.path == PathOf(env.paths, te.event.kind) {
          FollowsMore(run.reports, front, r, te, env, next.raised);
        }
      }
    }
  }

  lemma DispatchReports(st: Indexes, cache: D.Records, events: seq<TimedEvent>, s: string, env: Env)
    requires !Dispatch(st, cache, events, s, env).raised
    ensures Matches(Dispatch(st, cache, events, s, env).reports, events, env)
  {
    DispatchFollows(st, cache, events, s, env);
  }

  lemma OneMore(rs: seq<Report>, r: Report)
    ensures MaxTargeted(rs + [r]) == if |r.targets| > MaxTargeted(rs) then |r.targets| else MaxTargeted(rs)
    ensures SumTerminated(rs + [r]) == SumTerminated(rs) + |r.terminated|
  {
  }

  /** An event off the fast path leaves the store alone and targets nobody. */
  lemma OffFastPath(run: SetRun, te: TimedEvent, s: string, env: Env)
    requires !IsFast(te, env)
    ensures var next := HandleOne(run, te, s, env);
            && next.store == run.store
            && MaxTargeted(next.reports) == MaxTargeted(run.reports)
            && SumTerminated(next.reports) == SumTerminated(run.reports)
  {
  }

  /** An event on the fast path uses up some of the subject's listed sessions. */
  lemma OnFastPath(run: SetRun, te: TimedEvent, s: string, env: Env)
    requires Consistent(run.store) && IsFast(te, env)
    ensures var next, targets := HandleOne(run, te, s, env), |Targets(run.store, s, te.at, env.correlationTtl)|;
            && MaxTargeted(next.reports) ==
                 (if targets > MaxTargeted(run.reports) then targets else MaxTargeted(run.reports))
            && targets <= |Bucket(run.store, s)|
            && SumTerminated(next.reports) + |Bucket(next.store, s)| <= SumTerminated(run.reports) + targets
  {
    var fast := FastEvent(run.store, s, te.event.kind, te.at, env);
    FastEventShrinks(run.store, s, te.event.kind, te.at, env);
    OneMore(run.reports, Report(te.event.kind, Fast, Targets(run.store, s, te.at, env.correlationTtl),
                                fast.terminated, fast.disabled, fast.failed));
  }

  /** Up to the first FAST event the store is untouched. */
  lemma {:induction false} UntouchedBefore(st: Indexes, cache: D.Records, events: seq<TimedEvent>, s: string, env: Env)
    requires forall i :: 0 <= i < |events| ==> !IsFast(events[i], env)
    ensures Dispatch(st, cache, events, s, env).store == st
    ensures MaxTargeted(Dispatch(st, cache, events, s, env).reports) == 0
    ensures SumTerminated(Dispatch(st, cache, events, s, env).reports) == 0
  {
    if events != [] {
      var front, te := events[..|events| - 1], events[|events| - 1];
      UntouchedBefore(st, cache, front, s, env);
      OffFastPath(Dispatch(st, cache, front, s, env), te, s, env);
    }
  }

  /** What the summary counts, once event `f` is the first FAST event. */
  lemma {:induction false} DispatchCounts(
    st: Indexes, cache: D.Records, events: seq<TimedEvent>, s: string, env: Env, f: nat)
    requires Consistent(st) && f < |events| && IsFast(events[f], env)
    requires forall i :: 0 <= i < f ==> !IsFast(events[i], env)
    requires !Dispatch(st, cache, events, s, env).raised
    ensures var run := Dispatch(st, cache, events, s, env);
            && MaxTargeted(run.reports) == |Targets(st, s, events[f].at, env.correlationTtl)|
            && SumTerminated(run.reports) + |Bucket(run.store, s)| <= |Targets(st, s, events[f].at, env.correlationTtl)|
    decreases |events|
  {
    var front, te := events[..|events| - 1], events[|events| - 1];
    var run := Dispatch(st, cache, front, s, env);
    DispatchConserves(st, cache, front, s, env);
    if f == |front| {
      UntouchedBefore(st, cache, front, s, env);
    } else {
      assert front[f] == events[f];
      DispatchCounts(st, cache, front, s, env, f);
    }
    if IsFast(te, env) {
      OnFastPath(run, te, s, env);
    } else {
      OffFastPath(run, te, s, env);
    }
  }

  lemma {:induction false} SumIsLength(rs: seq<Report>)
    ensures SumTerminated(rs) == |AllTerminated(rs)|
  {
    if rs != [] {
      SumIsLength(rs[..|rs| - 1]);
    }
  }

  lemma SummaryParts(rs: seq<Report>, s: string)
    requires rs != []
    ensures Summarize(rs, s).targeted == MaxTargeted(rs) && Summarize(rs, s).terminated == SumTerminated(rs)
    ensures Summarize(rs, s).path == MostSevere(rs)
  {
  }

  /** `sessions_targeted` is the number of live sessions at the first FAST event, and bounds `sessions_terminated`. */
  lemma SummaryCounts(st: Indexes, cache: D.Records, events: seq<TimedEvent>, s: string, env: Env, f: nat)
    requires Consistent(st) && f < |events| && IsFast(events[f], env)
    requires forall i :: 0 <= i < f ==> !IsFast(events[i], env)
    requires !Dispatch(st, cache, events, s, env).raised
    ensures var summary := Summarize(Dispatch(st, cache, events, s, env).reports, s);
            && summary.targeted == |SessionsFor(st, s, events[f].at, env.correlationTtl)|
            && summary.terminated == |AllTerminated(Dispatch(st, cache, events, s, env).reports)|
            && summary.terminated <= summary.targeted
  {
    DispatchCounts(st, cache, events, s, env, f);
    DispatchReports(st, cache, events, s, env);
    SumIsLength(Dispatch(st, cache, events, s, env).reports);
    SummaryParts(Dispatch(st, cache, events, s, env).reports, s);
  }

  /** No event is dropped: the summary names each one, and reports the most severe path among them. */
  lemma SummaryCoversEveryEvent(st: Indexes, cache: D.Records, events: seq<TimedEvent>, s: string, env: Env)
    requires events != [] && !Dispatch(st, cache, events, s, env).raised
    ensures var summary := Summarize(Dispatch(st, cache, events, s, env).reports, s);
            && |summary.kinds| == |events|
            && (forall i :: 0 <= i < |events| ==>
                  summary.kinds[i] == events[i].event.kind
                  && Severity(PathOf(env.paths, events[i].event.kind)) <= Severity(summary.path))
            && exists i :: 0 <= i < |events| && PathOf(env.paths, events[i].event.kind) == summary.path
  {
    DispatchReports(st, cache, events, s, env);
    MatchedSummary(Dispatch(st, cache, events, s, env).reports, events, s, env);
  }

  lemma MatchedSummary(rs: seq<Report>, events: seq<TimedEvent>, s: string, env: Env)
    requires events != [] && Matches(rs, events, env)
    ensures var summary := Summarize(rs, s);
            && |summary.kinds| == |events|
            && (forall i :: 0 <= i < |events| ==>
                  summary.kinds[i] == events[i].event.kind
                  && Severity(PathOf(env.paths, events[i].event.kind)) <= Severity(summary.path))
            && exists i :: 0 <= i < |events| && PathOf(env.paths, events[i].event.kind) == summary.path
  {
    SummaryParts(rs, s);
    MostSevereIs(rs);
    assert forall i :: 0 <= i < |rs| ==> rs[i] in rs;
    var r :| r in rs && r.path == MostSevere(rs);
    var i :| 0 <= i < |rs| && rs[i] == r;
    assert MatchesAt(rs, events, env, i);
    forall k | 0 <= k < |rs|
      ensures Kinds(rs)[k] == events[k].event.kind
      ensures Severity(PathOf(env.paths, events[k].event.kind)) <= Severity(MostSevere(rs))
    {
      assert MatchesAt(rs, events, env, k) && rs[k] in rs;
    }
  }

  /** The reported path is fast if some event is, else continuous if some event is, else informational. */
  lemma SummaryPath(st: Indexes, cache: D.Records, events: seq<TimedEvent>, s: string, env: Env)
    requires !Dispatch(st, cache, events, s, env).raised
    ensures Summarize(Dispatch(st, cache, events, s, env).reports, s).path ==
            if exists te :: te in events && PathOf(env.paths, te.event.kind) == Fast then Fast
            else if exists te :: te in events && PathOf(env.paths, te.event.kind) == Continuous then Continuous
            else Informational
  {
    var rs := Dispatch(st, cache, events, s, env).reports;
    DispatchReports(st, cache, events, s, env);
    if events != [] {
      SummaryParts(rs, s);
      MostSevereIs(rs);
      var r :| r in rs && r.path == MostSevere(rs);
      var i :| 0 <= i < |rs| && rs[i] == r;
      assert MatchesAt(rs, events, env, i) && events[i] in events;
      forall te | te in events
        ensures Severity(PathOf(env.paths, te.event.kind)) <= Severity(MostSevere(rs))
      {
        var k :| 0 <= k < |events| && events[k] == te;
        assert MatchesAt(rs, events, env, k) && rs[k] in rs;
      }
    }
  }

  /** The most severe path is that of some event, and no event's is more severe. */
  lemma {:induction false} MostSevereIs(rs: seq<Report>)
    requires rs != []
    ensures exists r :: r in rs && r.path == MostSevere(rs)
    ensures forall r :: r in rs ==> Severity(r.path) <= Severity(MostSevere(rs))
  {
    assert rs[0] in rs;
    if |rs| > 1 {
      var front, r := rs[..|rs| - 1], rs[|rs| - 1];
      assert rs == front + [r];
      MostSevereIs(front);
      var x :| x in front && x.path == MostSevere(front);
      assert x in rs && r in rs;
    }
  }

  // ----- What a SET removes -----

  /** A FAST event that was reached found the record expired. */
  predicate ExpiredAt(r: CorrelationRecord, events: seq<TimedEvent>, reports: seq<Report>, env: Env, i: nat) {
    i < |reports| && i < |events| && reports[i].path == Fast && r.registeredAt < events[i].at - env.correlationTtl
  }

  predicate KilledAt(r: CorrelationRecord, reports: seq<Report>, i: nat) {
    i < |reports| && reports[i].path == Fast && r.apmSessionId in reports[i].terminated
  }

  /** A purge event targeted the session and handled all its targets. */
  ghost predicate PurgedAt(r: CorrelationRecord, reports: seq<Report>, i: nat) {
    && i < |reports| && reports[i].path == Fast && (reports[i].kind.AccountPurged? || reports[i].kind.AccountDisabled?)
    && r.apmSessionId in reports[i].targets && Splits(reports[i])
  }

  /** Why a session is gone: at some event that was reached it was expired, was killed, or was purged. */
  ghost predicate Explained(r: CorrelationRecord, events: seq<TimedEvent>, reports: seq<Report>, env: Env) {
    || (exists i: nat :: ExpiredAt(r, events, reports, env, i))
    || (exists i: nat :: KilledAt(r, reports, i))
    || (exists i: nat :: PurgedAt(r, reports, i))
  }

  /** What holds of the sessions `dead` that a SET has removed so far. */
  ghost predicate Removed(st: Indexes, s: string, run: SetRun, events: seq<TimedEvent>, env: Env, dead: set<string>) {
    && Consistent(run.store) && run.store == Without(st, s, dead) && AllIn(dead, Bucket(st, s))
    && |run.reports| <= |events| && (!run.raised ==> |run.reports| == |events|)
    && (forall r :: r in Bucket(st, s) && r.apmSessionId in dead ==> Explained(r, events, run.reports, env))
    && (forall i, sid :: 0 <= i < |run.reports| && sid in run.reports[i].terminated ==> sid in dead)
    && (!run.raised && (exists i :: 0 <= i < |events| && IsFast(events[i], env) && IsPurge(events[i].event.kind)) ==>
          forall r :: r in Bucket(st, s) ==> r.apmSessionId in dead)
  }

  /** The sessions that one more FAST event removes. */
  function More(run: SetRun, te: TimedEvent, s: string, env: Env): set<string> {
    var fast := FastEvent(run.store, s, te.event.kind, te.at, env);
    Dead(run.store, s, te.at, env.correlationTtl, IsPurge(te.event.kind) && !fast.crashed, ToSet(fast.terminated))
  }

  lemma MoreRemoved(st: Indexes, s: string, dead: set<string>, more: set<string>)
    requires Consistent(st) && AllIn(dead, Bucket(st, s)) && AllIn(more, Bucket(Without(st, s, dead), s))
    ensures Without(Without(st, s, dead), s, more) == Without(st, s, dead + more)
    ensures AllIn(dead + more, Bucket(st, s))
  {
    WithoutWithout(st, s, dead, more);
    WithoutBuckets(st, s, dead);
    forall sid | sid in more
      ensures HasId(Bucket(st, s), sid)
    {
      var r :| r in Bucket(Without(st, s, dead), s) && r.apmSessionId == sid;
      assert r in Bucket(st, s);
    }
  }

  /** What `HandleOne` does with a FAST event. */
  lemma FastReport(run: SetRun, te: TimedEvent, s: string, env: Env) returns (report: Report)
    requires Consistent(run.store) && IsFast(te, env)
    ensures var next, fast := HandleOne(run, te, s, env), FastEvent(run.store, s, te.event.kind, te.at, env);
            && next.reports == run.reports + [report] && report.path == Fast && report.kind == te.event.kind
            && next.raised == fast.crashed
            && next.store == Without(run.store, s, More(run, te, s, env))
            && AllIn(More(run, te, s, env), Bucket(run.store, s))
            && Consistent(next.store)
    ensures forall sid :: sid in report.terminated ==> sid in More(run, te, s, env)
    ensures forall r :: r in Bucket(run.store, s) && r.apmSessionId in More(run, te, s, env) ==>
              || r.registeredAt < te.at - env.correlationTtl
              || r.apmSessionId in report.terminated
              || (IsPurge(report.kind) && r.apmSessionId in report.targets && Splits(report))
  {
    var fast := FastEvent(run.store, s, te.event.kind, te.at, env);
    report := Report(te.event.kind, Fast, Targets(run.store, s, te.at, env.correlationTtl),
                     fast.terminated, fast.disabled, fast.failed);
    FastEventForgets(run.store, s, te.event.kind, te.at, env);
    FastEventShrinks(run.store, s, te.event.kind, te.at, env);
    SweptBucket(run.store, s, te.at, env.correlationTtl);
    forall sid | sid in report.terminated
      ensures sid in More(run, te, s, env)
    {
      var r :| r in SessionsFor(run.store, s, te.at, env.correlationTtl) && r.apmSessionId == sid;
      assert r in Bucket(run.store, s);
    }
    forall r | r in Bucket(run.store, s) && r.apmSessionId in More(run, te, s, env)
      ensures || r.registeredAt < te.at - env.correlationTtl
              || r.apmSessionId in report.terminated
              || (IsPurge(report.kind) && r.apmSessionId in report.targets && Splits(report))
    {
      DeadRecord(run.store, s, te.at, env.correlationTtl, IsPurge(te.event.kind) && !fast.crashed,
                 ToSet(fast.terminated), r);
      if r.registeredAt >= te.at - env.correlationTtl {
        assert HasId(SessionsFor(run.store, s, te.at, env.correlationTtl), r.apmSessionId);
      }
    }
  }

  /** The report of event `n` explains what that event removed. */
  lemma ReportExplains(r: CorrelationRecord, events: seq<TimedEvent>, reports: seq<Report>, env: Env, n: nat)
    requires n < |events| && n < |reports| && reports[n].path == Fast
    requires || r.registeredAt < events[n].at - env.correlationTtl
             || r.apmSessionId in reports[n].terminated
             || (IsPurge(reports[n].kind) && r.apmSessionId in reports[n].targets && Splits(reports[n]))
    ensures Explained(r, events, reports, env)
  {
    assert ExpiredAt(r, events, reports, env, n) || KilledAt(r, reports, n) || PurgedAt(r, reports, n);
  }

  lemma FastRemoves(
    st: Indexes, s: string, run: SetRun, front: seq<TimedEvent>, te: TimedEvent, env: Env, dead: set<string>)
    returns (dead': set<string>)
    requires Consistent(st) && !run.raised && Removed(st, s, run, front, env, dead) && IsFast(te, env)
    ensures Removed(st, s, HandleOne(run, te, s, env), front + [te], env, dead')
  {
    var events, next := front + [te], HandleOne(run, te, s, env);
    var report := FastReport(run, te, s, env);
    var more := More(run, te, s, env);
    MoreRemoved(st, s, dead, more);
    dead' := dead + more;
    assert next.reports[|run.reports|] == report && events[|front|] == te;
    forall r | r in Bucket(st, s) && r.apmSessionId in dead'
      ensures Explained(r, events, next.reports, env)
    {
      FastExplainsAll(st, s, run, front, te, env, dead, r);
    }
    forall i, sid | 0 <= i < |next.reports| && sid in next.reports[i].terminated
      ensures sid in dead'
    {
      if i < |run.reports| {
        assert next.reports[i] == run.reports[i];
      }
    }
    if !next.raised && exists i :: 0 <= i < |events| && IsFast(events[i], env) && IsPurge(events[i].event.kind) {
      PurgesAll(st, s, run, front, te, env, dead);
    }
  }

  lemma FastExplainsAll(
    st: Indexes, s: string, run: SetRun, front: seq<TimedEvent>, te: TimedEvent, env: Env, dead: set<string>,
    r: CorrelationRecord)
    requires Consistent(st) && !run.raised && Removed(st, s, run, front, env, dead) && IsFast(te, env)
    requires r in Bucket(st, s) && r.apmSessionId in dead + More(run, te, s, env)
    ensures Explained(r, front + [te], HandleOne(run, te, s, env).reports, env)
  {
    var events, reports := front + [te], HandleOne(run, te, s, env).reports;
    var report := FastReport(run, te, s, env);
    if r.apmSessionId in dead {
      StillExplained(r, front, events, run.reports, reports, env);
    } else {
      WithoutBuckets(st, s, dead);
      assert reports[|run.reports|] == report && events[|front|] == te;
      ReportExplains(r, events, reports, env, |front|);
    }
  }

  lemma PurgesAll(
    st: Indexes, s: string, run: SetRun, front: seq<TimedEvent>, te: TimedEvent, env: Env, dead: set<string>)
    requires Consistent(st) && !run.raised && Removed(st, s, run, front, env, dead) && IsFast(te, env)
    requires !HandleOne(run, te, s, env).raised
    requires var events := front + [te];
             exists i :: 0 <= i < |events| && IsFast(events[i], env) && IsPurge(events[i].event.kind)
    ensures forall r :: r in Bucket(st, s) ==> r.apmSessionId in dead + More(run, te, s, env)
  {
  }

  lemma DeadRecord(st: Indexes, s: string, at: Time, ttl: Time, all: bool, killed: set<string>, r: CorrelationRecord)
    requires Consistent(st) && r in Bucket(st, s)
    ensures r.apmSessionId in Dead(st, s, at, ttl, all, killed) <==>
            r.registeredAt < at - ttl || all || r.apmSessionId in killed
  {
  }

  lemma StillExplained(
    r: CorrelationRecord, front: seq<TimedEvent>, events: seq<TimedEvent>, rs: seq<Report>, reports: seq<Report>,
    env: Env)
    requires Explained(r, front, rs, env) && front <= events && rs <= reports
    ensures Explained(r, events, reports, env)
  {
    if i: nat :| ExpiredAt(r, front, rs, env, i) {
      assert ExpiredAt(r, events, reports, env, i);
    } else if i: nat :| KilledAt(r, rs, i) {
      assert KilledAt(r, reports, i);
    } else {
      var i: nat :| PurgedAt(r, rs, i);
      assert PurgedAt(r, reports, i);
    }
  }

  lemma OtherRemoves(
    st: Indexes, s: string, run: SetRun, next: SetRun, front: seq<TimedEvent>, te: TimedEvent, env: Env,
    dead: set<string>)
    requires Removed(st, s, run, front, env, dead) && !(IsFast(te, env) && !run.raised)
    requires next.store == run.store && run.reports <= next.reports && (run.raised ==> next.raised)
    requires |next.reports| <= |run.reports| + 1 && (run.raised ==> next.reports == run.reports)
    requires !next.raised ==> |next.reports| == |run.reports| + 1
    requires forall i :: |run.reports| <= i < |next.reports| ==> next.reports[i].terminated == []
    ensures Removed(st, s, next, front + [te], env, dead)
  {
    var events := front + [te];
    assert forall i :: 0 <= i < |front| ==> events[i] == front[i];
    assert forall i :: 0 <= i < |run.reports| ==> next.reports[i] == run.reports[i];
    forall r | r in Bucket(st, s) && r.apmSessionId in dead
      ensures Explained(r, events, next.reports, env)
    {
      StillExplained(r, front, events, run.reports, next.reports, env);
    }
  }

  /** An event off the fast path forgets nobody and reports nobody terminated. */
  lemma IdleStep(run: SetRun, te: TimedEvent, s: string, env: Env)
    requires !run.raised && !IsFast(te, env)
    ensures var next := HandleOne(run, te, s, env);
            && next.store == run.store && run.reports <= next.reports
            && |next.reports| <= |run.reports| + 1 && (!next.raised ==> |next.reports| == |run.reports| + 1)
            && forall i :: |run.reports| <= i < |next.reports| ==> next.reports[i].terminated == []
  {
  }

  lemma {:induction false} DispatchRemoves(st: Indexes, cache: D.Records, events: seq<TimedEvent>, s: string, env: Env)
    returns (dead: set<string>)
    requires Consistent(st)
    ensures Removed(st, s, Dispatch(st, cache, events, s, env), events, env, dead)
  {
    if events == [] {
      dead := {};
      WithoutNone(st, s);
    } else {
      var front, te := events[..|events| - 1], events[|events| - 1];
      var run := Dispatch(st, cache, front, s, env);
      assert events == front + [te];
      dead := DispatchRemoves(st, cache, front, s, env);
      if run.raised {
        OtherRemoves(st, s, run, run, front, te, env, dead);
      } else if IsFast(te, env) {
        dead := FastRemoves(st, s, run, front, te, env, dead);
      } else {
        IdleStep(run, te, s, env);
        OtherRemoves(st, s, run, HandleOne(run, te, s, env), front, te, env, dead);
      }
    }
  }

  /** A SET touches only its own subject's sessions and decisions, even if it raises. */
  lemma {:induction false} OthersUntouched(
    st: Indexes, cache: D.Records, events: seq<TimedEvent>, s: string, env: Env, other: string)
    requires Consistent(st) && other != s
    ensures var run := Dispatch(st, cache, events, s, env);
            && Bucket(run.store, other) == Bucket(st, other)
            && D.Lookup(run.cache, other) == D.Lookup(cache, other)
  {
    var dead := DispatchRemoves(st, cache, events, s, env);
    WithoutBuckets(st, s, dead);
    CacheOfOthers(st, cache, events, s, env, other);
  }

  lemma {:induction false} CacheOfOthers(
    st: Indexes, cache: D.Records, events: seq<TimedEvent>, s: string, env: Env, other: string)
    requires other != s
    ensures D.Lookup(Dispatch(st, cache, events, s, env).cache, other) == D.Lookup(cache, other)
  {
    if events != [] {
      CacheOfOthers(st, cache, events[..|events| - 1], s, env, other);
    }
  }

  /**
    After a SET with a purge event on the fast path no session of the subject
    is listed, whatever became of each kill and whatever else the SET carries.
   */
  lemma PurgeLeavesNoSession(
    st: Indexes, cache: D.Records, events: seq<TimedEvent>, s: string, env: Env, p: nat, now: Time)
    requires Consistent(st) && !Dispatch(st, cache, events, s, env).raised
    requires p < |events| && IsPurge(events[p].event.kind) && IsFast(events[p], env)
    ensures SessionsFor(Dispatch(st, cache, events, s, env).store, s, now, env.correlationTtl) == []
  {
    var run := Dispatch(st, cache, events, s, env);
    var dead := DispatchRemoves(st, cache, events, s, env);
    WithoutBuckets(st, s, dead);
    KeepNone(Bucket(st, s), dead);
  }

  lemma {:induction false} KeepNone(b: seq<CorrelationRecord>, dead: set<string>)
    requires forall r :: r in b ==> r.apmSessionId in dead
    ensures Keep(b, dead) == []
  {
    if b != [] {
      KeepNone(b[1..], dead);
    }
  }

  /**
    The shipped table covers the whole catalogue and nothing else; only what ends
    sessions, purges an account or demands new credentials is on the fast path.
   */
  lemma ShippedTable(kind: EventType)
    ensures kind in EVENT_PATHS <==> !kind.Unrecognized?
    ensures PathOf(EVENT_PATHS, kind) == Fast <==>
            || kind.SessionRevoked? || kind.SessionsRevoked? || kind.AccountCredentialChangeRequired?
            || kind.AccountPurged? || kind.AccountDisabled?
    ensures PathOf(EVENT_PATHS, kind) == Continuous <==>
            || kind.TokenClaimsChange? || kind.CredentialChange? || kind.AssuranceLevelChange?
            || kind.DeviceComplianceChange? || kind.RiskLevelChange? || kind.RecoveryActivated?
  {
  }

  /** With the shipped table, an account-purged or account-disabled event anywhere in the SET leaves no session. */
  lemma ShippedPurge(
    st: Indexes, cache: D.Records, events: seq<TimedEvent>, s: string, env: Env, p: nat, now: Time)
    requires env.paths == EVENT_PATHS && Consistent(st) && !Dispatch(st, cache, events, s, env).raised
    requires p < |events| && (events[p].event.kind == AccountPurged || events[p].event.kind == AccountDisabled)
    ensures SessionsFor(Dispatch(st, cache, events, s, env).store, s, now, env.correlationTtl) == []
  {
    ShippedTable(events[p].event.kind);
    PurgeLeavesNoSession(st, cache, events, s, env, p, now);
  }

  /**
    Kill before forget, over a SET on whose fast path no account is purged or
    disabled: an unexpired session disappears iff its kill returned normally. This
    includes a SET that raises.
   */
  lemma ForgottenOnlyIfKilled(
    st: Indexes, cache: D.Records, events: seq<TimedEvent>, s: string, env: Env, r: CorrelationRecord)
    requires Consistent(st) && r in Bucket(st, s)
    requires forall i :: 0 <= i < |events| && IsFast(events[i], env) ==>
               !events[i].event.kind.AccountPurged? && !events[i].event.kind.AccountDisabled?
    requires forall i ::
               0 <= i < |events| && IsFast(events[i], env) ==> r.registeredAt >= events[i].at - env.correlationTtl
    ensures var run := Dispatch(st, cache, events, s, env);
            r !in Bucket(run.store, s) <==>
            exists i :: 0 <= i < |run.reports| && r.apmSessionId in run.reports[i].terminated
  {
    var run := Dispatch(st, cache, events, s, env);
    var dead := DispatchRemoves(st, cache, events, s, env);
    WithoutBuckets(st, s, dead);
    DispatchConserves(st, cache, events, s, env);
    DispatchFollows(st, cache, events, s, env);
    OnlyKilled(r, events, run.reports, env, run.raised);
    if r !in Bucket(run.store, s) {
      assert Explained(r, events, run.reports, env);
      var i: nat :| KilledAt(r, run.reports, i);
    }
  }

  lemma OnlyKilled(r: CorrelationRecord, events: seq<TimedEvent>, reports: seq<Report>, env: Env, raised: bool)
    requires Follows(reports, events, env, raised)
    requires forall i :: 0 <= i < |events| && IsFast(events[i], env) ==>
               !events[i].event.kind.AccountPurged? && !events[i].event.kind.AccountDisabled?
    requires forall i ::
               0 <= i < |events| && IsFast(events[i], env) ==> r.registeredAt >= events[i].at - env.correlationTtl
    ensures forall i: nat :: !ExpiredAt(r, events, reports, env, i) && !PurgedAt(r, reports, i)
  {
    forall i: nat
      ensures !ExpiredAt(r, events, reports, env, i) && !PurgedAt(r, reports, i)
    {
      if i < |reports| {
        assert MatchesAt(reports, events, env, i);
      }
    }
  }

  /** If the event is on the fast path, the session is not expired, not killed and not purged by it. */
  predicate SparedBy(te: TimedEvent, r: CorrelationRecord, env: Env) {
    IsFast(te, env) ==>
      && r.registeredAt >= te.at - env.correlationTtl
      && env.kill(te.event.kind, r.apmSessionId) != Killed
      && !te.event.kind.AccountPurged? && !te.event.kind.AccountDisabled?
  }

  lemma FastSpares(st: Indexes, s: string, te: TimedEvent, env: Env, r: CorrelationRecord)
    requires Consistent(st) && r in Bucket(st, s) && IsFast(te, env)
    requires !FastEvent(st, s, te.event.kind, te.at, env).crashed
    ensures r in Bucket(FastEvent(st, s, te.event.kind, te.at, env).store, s) <==> SparedBy(te, r, env)
  {
    var ttl, kind := env.correlationTtl, te.event.kind;
    var run, targets := FastEvent(st, s, kind, te.at, env), Targets(st, s, te.at, ttl);
    FastEventForgets(st, s, kind, te.at, env);
    WithoutBuckets(st, s, Dead(st, s, te.at, ttl, IsPurge(kind) && !run.crashed, ToSet(run.terminated)));
    DeadRecord(st, s, te.at, ttl, IsPurge(kind) && !run.crashed, ToSet(run.terminated), r);
    LoopLists(Sweep(st, s, te.at, ttl), targets, kind, env.kill);
    SelectMembers(targets, kind, env.kill, Killed);
    SweptBucket(st, s, te.at, ttl);
    assert r.registeredAt >= te.at - ttl ==> HasId(SessionsFor(st, s, te.at, ttl), r.apmSessionId);
  }

  /** After a SET that does not raise, exactly the sessions are listed that each of its events spared. */
  lemma {:induction false} SurvivesIff(
    st: Indexes, cache: D.Records, events: seq<TimedEvent>, s: string, env: Env, r: CorrelationRecord)
    requires Consistent(st) && !Dispatch(st, cache, events, s, env).raised
    ensures r in Bucket(Dispatch(st, cache, events, s, env).store, s) <==>
            r in Bucket(st, s) && forall te :: te in events ==> SparedBy(te, r, env)
  {
    if events != [] {
      var front, te := events[..|events| - 1], events[|events| - 1];
      var run := Dispatch(st, cache, front, s, env);
      assert events == front + [te];
      SurvivesIff(st, cache, front, s, env, r);
      DispatchConserves(st, cache, front, s, env);
      if !IsFast(te, env) {
        OffFastPath(run, te, s, env);
      } else if r in Bucket(run.store, s) {
        FastSpares(run.store, s, te, env, r);
      } else {
        NothingReturns(run.store, s, te, env, r);
      }
    }
  }

  lemma NothingReturns(st: Indexes, s: string, te: TimedEvent, env: Env, r: CorrelationRecord)
    requires Consistent(st) && r !in Bucket(st, s)
    ensures r !in Bucket(FastEvent(st, s, te.event.kind, te.at, env).store, s)
  {
    var run := FastEvent(st, s, te.event.kind, te.at, env);
    FastEventForgets(st, s, te.event.kind, te.at, env);
    WithoutBuckets(st, s, Dead(st, s, te.at, env.correlationTtl, IsPurge(te.event.kind) && !run.crashed,
                               ToSet(run.terminated)));
  }
}
