/**
  The order of a SET's events does not matter, once each session's kill outcome
  and the clock are fixed: a closed form that only asks which events are present.
 */
module OrderIndependence {
  import opened Models
  import opened CorrelationIndexes
  import opened Enforcement
  import opened KillLoopLaws
  import opened DispatchLaws
  import D = DecisionCache

  /** What BIG-IP answers depends on the session alone, and no kill call raises an uncaught exception. */
  ghost predicate Fixed(env: Env, outcome: string -> KillOutcome) {
    forall kind, sid :: env.kill(kind, sid) == outcome(sid) && outcome(sid) != Crashes
  }

  /** Every kill call ends in one of the three outcomes the loop handles. */
  ghost predicate NeverCrashes(env: Env) {
    forall kind, sid :: env.kill(kind, sid) != Crashes
  }

  lemma NoCrash(st: Indexes, s: string, kind: EventType, at: Time, env: Env)
    requires NeverCrashes(env)
    ensures !FastEvent(st, s, kind, at, env).crashed
  {
    var swept, targets := Sweep(st, s, at, env.correlationTtl), Targets(st, s, at, env.correlationTtl);
    LoopLists(swept, targets, kind, env.kill);
    assert Handled(targets, kind, env.kill) == targets;
  }

  ghost predicate Simultaneous(events: seq<TimedEvent>, now: Time) {
    forall te :: te in events ==> te.at == now
  }

  predicate AnyFast(events: seq<TimedEvent>, env: Env) {
    exists te :: te in events && IsFast(te, env)
  }

  predicate AnyPurge(events: seq<TimedEvent>, env: Env) {
    exists te :: te in events && IsFast(te, env) && IsPurge(te.event.kind)
  }

  /** The listed sessions whose kill returns normally. */
  function Doomed(st: Indexes, s: string, outcome: string -> KillOutcome): set<string> {
    var b := Bucket(st, s);
    set r | r in b && outcome(r.apmSessionId) == Killed :: r.apmSessionId
  }

  /** Everything a SET at `now` removes, given whether it purges. */
  function Gone(
    st: Indexes, s: string, now: Time, ttl: Time, purge: bool, outcome: string -> KillOutcome): set<string> {
    Dead(st, s, now, ttl, purge, Doomed(st, s, outcome))
  }

  function LiveDoomed(st: Indexes, s: string, now: Time, ttl: Time, outcome: string -> KillOutcome): set<string> {
    var b := Bucket(st, s);
    set r | r in b && r.registeredAt >= now - ttl && outcome(r.apmSessionId) == Killed :: r.apmSessionId
  }

  lemma DoomedRecord(st: Indexes, s: string, outcome: string -> KillOutcome, r: CorrelationRecord)
    requires r in Bucket(st, s)
    ensures r.apmSessionId in Doomed(st, s, outcome) <==> outcome(r.apmSessionId) == Killed
  {
  }

  lemma FixedLoop(st: Indexes, s: string, kind: EventType, now: Time, env: Env, outcome: string -> KillOutcome)
    requires Fixed(env, outcome)
    ensures var run := FastEvent(st, s, kind, now, env);
            !run.crashed && run.terminated == Select(Targets(st, s, now, env.correlationTtl), kind, env.kill, Killed)
  {
    var swept, targets := Sweep(st, s, now, env.correlationTtl), Targets(st, s, now, env.correlationTtl);
    LoopLists(swept, targets, kind, env.kill);
    assert Handled(targets, kind, env.kill) == targets;
  }

  lemma FixedTerminated(st: Indexes, s: string, kind: EventType, now: Time, env: Env, outcome: string -> KillOutcome)
    requires Consistent(st) && Fixed(env, outcome)
    ensures var ids, ttl := Select(Targets(st, s, now, env.correlationTtl), kind, env.kill, Killed), env.correlationTtl;
            ToSet(ids) == LiveDoomed(st, s, now, ttl, outcome) && |ids| == |LiveDoomed(st, s, now, ttl, outcome)|
  {
    var ttl := env.correlationTtl;
    var targets := Targets(st, s, now, ttl);
    var ids := Select(targets, kind, env.kill, Killed);
    SelectMembers(targets, kind, env.kill, Killed);
    SweptBucket(st, s, now, ttl);
    forall sid | sid in ToSet(ids)
      ensures sid in LiveDoomed(st, s, now, ttl, outcome)
    {
      assert env.kill(kind, sid) == outcome(sid);
      var r :| r in SessionsFor(st, s, now, ttl) && r.apmSessionId == sid;
    }
    forall sid | sid in LiveDoomed(st, s, now, ttl, outcome)
      ensures sid in ToSet(ids)
    {
      assert env.kill(kind, sid) == outcome(sid);
      var r :| && r in Bucket(st, s) && r.registeredAt >= now - ttl
               && outcome(r.apmSessionId) == Killed && r.apmSessionId == sid;
      assert r in SessionsFor(st, s, now, ttl);
    }
    SelectNoDups(targets, kind, env.kill, Killed);
    NoDupsSize(ids);
  }

  lemma LiveDoomedRecord(
    st: Indexes, s: string, now: Time, ttl: Time, outcome: string -> KillOutcome, r: CorrelationRecord)
    requires Consistent(st) && r in Bucket(st, s)
    ensures r.apmSessionId in LiveDoomed(st, s, now, ttl, outcome) <==>
            r.registeredAt >= now - ttl && outcome(r.apmSessionId) == Killed
  {
  }

  lemma FixedFastEvent(st: Indexes, s: string, kind: EventType, now: Time, env: Env, outcome: string -> KillOutcome)
    requires Consistent(st) && Fixed(env, outcome)
    ensures var run, ttl := FastEvent(st, s, kind, now, env), env.correlationTtl;
            && !run.crashed
            && run.store == Without(st, s, Gone(st, s, now, ttl, IsPurge(kind), outcome))
            && |run.terminated| == |LiveDoomed(st, s, now, ttl, outcome)|
  {
    var run, ttl := FastEvent(st, s, kind, now, env), env.correlationTtl;
    FixedLoop(st, s, kind, now, env, outcome);
    FixedTerminated(st, s, kind, now, env, outcome);
    FastEventForgets(st, s, kind, now, env);
    var killed, dead := ToSet(run.terminated), Gone(st, s, now, ttl, IsPurge(kind), outcome);
    forall r | r in Bucket(st, s)
      ensures r.apmSessionId in dead <==> r.registeredAt < now - ttl || IsPurge(kind) || r.apmSessionId in killed
    {
      DoomedRecord(st, s, outcome, r);
      DeadRecord(st, s, now, ttl, IsPurge(kind), Doomed(st, s, outcome), r);
      LiveDoomedRecord(st, s, now, ttl, outcome, r);
    }
    DeadIs(st, s, now, ttl, IsPurge(kind), killed, dead);
  }

  /** A second FAST event at the same instant adds nothing but its purge. */
  lemma GoneTwice(st: Indexes, s: string, now: Time, ttl: Time, p1: bool, p2: bool, outcome: string -> KillOutcome)
    requires Consistent(st)
    ensures var d1 := Gone(st, s, now, ttl, p1, outcome);
            var st1 := Without(st, s, d1);
            && AllIn(d1, Bucket(st, s)) && Consistent(st1)
            && Without(st1, s, Gone(st1, s, now, ttl, p2, outcome)) ==
                 Without(st, s, Gone(st, s, now, ttl, p1 || p2, outcome))
            && LiveDoomed(st1, s, now, ttl, outcome) == {}
  {
    var d1, d := Gone(st, s, now, ttl, p1, outcome), Gone(st, s, now, ttl, p1 || p2, outcome);
    var st1 := Without(st, s, d1);
    WithoutConsistent(st, s, d1);
    WithoutBuckets(st, s, d1);
    forall r | r in Bucket(st, s)
      ensures r.apmSessionId in d1 <==> r.registeredAt < now - ttl || p1 || outcome(r.apmSessionId) == Killed
      ensures r.apmSessionId in d <==> r.registeredAt < now - ttl || p1 || p2 || outcome(r.apmSessionId) == Killed
    {
      DoomedRecord(st, s, outcome, r);
      DeadRecord(st, s, now, ttl, p1, Doomed(st, s, outcome), r);
      DeadRecord(st, s, now, ttl, p1 || p2, Doomed(st, s, outcome), r);
    }
    var d2 := Gone(st1, s, now, ttl, p2, outcome);
    WithoutWithout(st, s, d1, d2);
    forall r | r in Bucket(st1, s)
      ensures r.apmSessionId in d2 <==> p2
    {
      assert r in Bucket(st, s);
      DoomedRecord(st1, s, outcome, r);
      DeadRecord(st1, s, now, ttl, p2, Doomed(st1, s, outcome), r);
    }
    forall sid
      ensures sid in d1 + d2 <==> sid in d
    {
      if r :| r in Bucket(st, s) && r.apmSessionId == sid {
        assert r.apmSessionId !in d1 ==> r in Bucket(st1, s);
        if sid in d2 && sid !in d1 {
          assert p2;
        }
      } else {
        assert sid !in d1 && sid !in d;
      }
    }
    assert d1 + d2 == d;
  }

  // ----- The closed form -----

  function StoreAfter(
    st: Indexes, s: string, events: seq<TimedEvent>, now: Time, env: Env, outcome: string -> KillOutcome): Indexes {
    if AnyFast(events, env)
    then Without(st, s, Gone(st, s, now, env.correlationTtl, AnyPurge(events, env), outcome))
    else st
  }

  /** The records a SET writes to the decision cache, in order. */
  function Writes(events: seq<TimedEvent>, s: string, env: Env): seq<DecisionRecord> {
    if events == [] then []
    else
      var te := events[|events| - 1];
      var r := DecisionRecordFor(te.event, s, te.at);
      Writes(events[..|events| - 1], s, env) +
      if PathOf(env.paths, te.event.kind) == Continuous && r.Some? then [r.value] else []
  }

  function Fold(prior: Option<DecisionRecord>, ws: seq<DecisionRecord>): Option<DecisionRecord> {
    if ws == [] then prior else Some(D.Merge(Fold(prior, ws[..|ws| - 1]), ws[|ws| - 1]))
  }

  lemma FastClosedForm(
    st: Indexes, run: SetRun, front: seq<TimedEvent>, te: TimedEvent, s: string, now: Time, env: Env,
    outcome: string -> KillOutcome)
    requires Consistent(st) && Fixed(env, outcome) && IsFast(te, env) && te.at == now && !run.raised
    requires run.store == StoreAfter(st, s, front, now, env, outcome)
    ensures var next := HandleOne(run, te, s, env);
            && !next.raised
            && next.store == StoreAfter(st, s, front + [te], now, env, outcome)
            && SumTerminated(next.reports) == SumTerminated(run.reports) +
                 if AnyFast(front, env) then 0 else |LiveDoomed(st, s, now, env.correlationTtl, outcome)|
  {
    AnyOfBoth(front, te, env);
    var fast := FastEvent(run.store, s, te.event.kind, now, env);
    OneMore(run.reports, Report(te.event.kind, Fast, Targets(run.store, s, now, env.correlationTtl),
                                fast.terminated, fast.disabled, fast.failed));
    if AnyFast(front, env) {
      GoneTwice(st, s, now, env.correlationTtl, AnyPurge(front, env), IsPurge(te.event.kind), outcome);
    }
    FixedFastEvent(run.store, s, te.event.kind, now, env, outcome);
  }

  lemma OtherEvent(run: SetRun, te: TimedEvent, s: string, env: Env)
    requires !IsFast(te, env) && !run.raised
    ensures var next := HandleOne(run, te, s, env);
            && next.store == run.store
            && SumTerminated(next.reports) == SumTerminated(run.reports)
  {
  }

  lemma {:induction false} DispatchClosedForm(
    st: Indexes, cache: D.Records, events: seq<TimedEvent>, s: string, now: Time, env: Env,
    outcome: string -> KillOutcome)
    requires Consistent(st) && Fixed(env, outcome) && Simultaneous(events, now)
    ensures var run, n := Dispatch(st, cache, events, s, env), |LiveDoomed(st, s, now, env.correlationTtl, outcome)|;
            !run.raised ==>
              && run.store == StoreAfter(st, s, events, now, env, outcome)
              && SumTerminated(run.reports) == if AnyFast(events, env) then n else 0
  {
    if events != [] {
      var front, te := events[..|events| - 1], events[|events| - 1];
      assert events == front + [te];
      assert te in events && te.at == now;
      DispatchClosedForm(st, cache, front, s, now, env, outcome);
      var run := Dispatch(st, cache, front, s, env);
      if !run.raised {
        if IsFast(te, env) {
          FastClosedForm(st, run, front, te, s, now, env, outcome);
        } else {
          OtherEvent(run, te, s, env);
        }
        AnyOfBoth(front, te, env);
      }
    }
  }

  lemma AnyOfBoth(front: seq<TimedEvent>, te: TimedEvent, env: Env)
    ensures AnyFast(front + [te], env) <==> AnyFast(front, env) || IsFast(te, env)
    ensures AnyPurge(front + [te], env) <==> AnyPurge(front, env) || (IsFast(te, env) && IsPurge(te.event.kind))
    ensures AnyPurge(front, env) ==> AnyFast(front, env)
  {
  }

  /** What one event does to the cached record. */
  lemma OneFold(run: SetRun, te: TimedEvent, s: string, env: Env)
    requires !run.raised && !HandleOne(run, te, s, env).raised
    ensures var r := DecisionRecordFor(te.event, s, te.at);
            if PathOf(env.paths, te.event.kind) == Continuous then
              r.Some? && D.Lookup(HandleOne(run, te, s, env).cache, s) == Some(D.Merge(D.Lookup(run.cache, s), r.value))
            else D.Lookup(HandleOne(run, te, s, env).cache, s) == D.Lookup(run.cache, s)
  {
  }

  lemma FoldGrows(prior: Option<DecisionRecord>, ws: seq<DecisionRecord>, w: DecisionRecord)
    ensures Fold(prior, ws + [w]) == Some(D.Merge(Fold(prior, ws), w))
  {
    assert (ws + [w])[..|ws|] == ws;
  }

  lemma WritesGrow(front: seq<TimedEvent>, te: TimedEvent, s: string, env: Env)
    ensures var r := DecisionRecordFor(te.event, s, te.at);
            Writes(front + [te], s, env) ==
            Writes(front, s, env) + if PathOf(env.paths, te.event.kind) == Continuous && r.Some? then [r.value] else []
  {
    assert (front + [te])[..|front|] == front;
  }

  lemma {:induction false} CacheIsFold(st: Indexes, cache: D.Records, events: seq<TimedEvent>, s: string, env: Env)
    requires !Dispatch(st, cache, events, s, env).raised
    ensures D.Lookup(Dispatch(st, cache, events, s, env).cache, s) == Fold(D.Lookup(cache, s), Writes(events, s, env))
  {
    if events != [] {
      var front, te := events[..|events| - 1], events[|events| - 1];
      var run, r := Dispatch(st, cache, front, s, env), DecisionRecordFor(te.event, s, te.at);
      assert events == front + [te];
      CacheIsFold(st, cache, front, s, env);
      OneFold(run, te, s, env);
      WritesGrow(front, te, s, env);
      if PathOf(env.paths, te.event.kind) == Continuous {
        FoldGrows(D.Lookup(cache, s), Writes(front, s, env), r.value);
      } else {
        assert Writes(front, s, env) + [] == Writes(front, s, env);
      }
    }
  }

  // ----- One owning event type per signal -----

  function SignalOwner(signal: Signal): EventType {
    match signal
    case Risk => RiskLevelChange
    case Compliance => DeviceComplianceChange
    case AssuranceLevel => AssuranceLevelChange
    case Claims => TokenClaimsChange
  }

  datatype Signal = Risk | Compliance | AssuranceLevel | Claims

  function SignalOf(signal: Signal, r: DecisionRecord): Option<Json> {
    match signal
    case Risk => r.riskLevel
    case Compliance => if r.deviceCompliant.None? then None else Some(Bool(r.deviceCompliant.value))
    case AssuranceLevel => r.assuranceLevel
    case Claims => r.changedClaims
  }

  function CachedSignal(signal: Signal, r: Option<DecisionRecord>): Option<Json> {
    if r.None? then None else SignalOf(signal, r.value)
  }

  /** What a payload of the owning event type says about the signal. */
  function SignalIn(signal: Signal, payload: seq<Member>): Option<Json> {
    match signal
    case Risk => Field(payload, "current_level")
    case Compliance => Some(Bool(Field(payload, "current_status") == Some(Str("compliant"))))
    case AssuranceLevel => Field(payload, "current_level")
    case Claims => Field(payload, "claims")
  }

  /** An event sets a signal iff it is of the owning type and its payload has a value for it. */
  lemma OnlyTheOwnerSets(signal: Signal, event: SetEvent, s: string, at: Time)
    requires DecisionRecordFor(event, s, at).Some?
    ensures SignalOf(signal, DecisionRecordFor(event, s, at).value) ==
            if event.kind == SignalOwner(signal) then SignalIn(signal, event.payload) else None
  {
  }

  /** The shipped table sends every owner of a signal down the continuous path. */
  lemma OwnersAreContinuous(signal: Signal)
    ensures PathOf(EVENT_PATHS, SignalOwner(signal)) == Continuous
  {
  }

  /** A fold reports the value some write sets, or the prior one if none does. */
  lemma {:induction false} FoldSignal(signal: Signal, prior: Option<DecisionRecord>, ws: seq<DecisionRecord>)
    ensures var v := CachedSignal(signal, Fold(prior, ws));
            if exists w :: w in ws && SignalOf(signal, w).Some?
            then exists w :: w in ws && SignalOf(signal, w) == v && v.Some?
            else v == CachedSignal(signal, prior)
  {
    if ws != [] {
      var front, w := ws[..|ws| - 1], ws[|ws| - 1];
      assert ws == front + [w];
      FoldSignal(signal, prior, front);
      MergeSignal(signal, Fold(prior, front), w);
      assert w in ws && forall x :: x in front ==> x in ws;
    }
  }

  lemma MergeSignal(signal: Signal, existing: Option<DecisionRecord>, w: DecisionRecord)
    ensures CachedSignal(signal, Some(D.Merge(existing, w))) ==
            D.Or(SignalOf(signal, w), CachedSignal(signal, existing))
  {
  }

  lemma {:induction false} WritesMembers(events: seq<TimedEvent>, s: string, env: Env, r: DecisionRecord)
    ensures r in Writes(events, s, env) <==>
            exists te :: te in events && PathOf(env.paths, te.event.kind) == Continuous
                           && DecisionRecordFor(te.event, s, te.at) == Some(r)
  {
    if events != [] {
      var front, te := events[..|events| - 1], events[|events| - 1];
      assert events == front + [te];
      WritesMembers(front, s, env, r);
      if x :| && x in front && PathOf(env.paths, x.event.kind) == Continuous
              && DecisionRecordFor(x.event, s, x.at) == Some(r) {
        assert x in events;
      }
      assert te in events;
    }
  }

  /** The keys of the `events` object are distinct. */
  predicate DistinctKinds(events: seq<TimedEvent>) {
    forall i, j :: 0 <= i < j < |events| ==> events[i].event.kind != events[j].event.kind
  }

  ghost predicate SameEvents(a: seq<TimedEvent>, b: seq<TimedEvent>) {
    forall te :: te in a <==> te in b
  }

  lemma SameSignal(
    a: seq<TimedEvent>, b: seq<TimedEvent>, s: string, env: Env, prior: Option<DecisionRecord>, signal: Signal)
    requires DistinctKinds(a) && SameEvents(a, b)
    ensures CachedSignal(signal, Fold(prior, Writes(a, s, env))) == CachedSignal(signal, Fold(prior, Writes(b, s, env)))
  {
    var wa, wb := Writes(a, s, env), Writes(b, s, env);
    forall r
      ensures r in wa <==> r in wb
    {
      WritesMembers(a, s, env, r);
      WritesMembers(b, s, env, r);
    }
    FoldSignal(signal, prior, wa);
    FoldSignal(signal, prior, wb);
    OneSetter(a, s, env, signal);
  }

  lemma OneSetter(events: seq<TimedEvent>, s: string, env: Env, signal: Signal)
    requires DistinctKinds(events)
    ensures forall x, y | x in Writes(events, s, env) && y in Writes(events, s, env) ::
              SignalOf(signal, x).Some? && SignalOf(signal, y).Some? ==> x == y
  {
    forall x, y | && x in Writes(events, s, env) && y in Writes(events, s, env)
                  && SignalOf(signal, x).Some? && SignalOf(signal, y).Some?
      ensures x == y
    {
      WritesMembers(events, s, env, x);
      WritesMembers(events, s, env, y);
      var ex :| ex in events && DecisionRecordFor(ex.event, s, ex.at) == Some(x);
      var ey :| ey in events && DecisionRecordFor(ey.event, s, ey.at) == Some(y);
      OnlyTheOwnerSets(signal, ex.event, s, ex.at);
      OnlyTheOwnerSets(signal, ey.event, s, ey.at);
      var i :| 0 <= i < |events| && events[i] == ex;
      var j :| 0 <= j < |events| && events[j] == ey;
      assert i == j;
    }
  }

  predicate Feeds(te: TimedEvent, signal: Signal, env: Env) {
    te.event.kind == SignalOwner(signal) && PathOf(env.paths, te.event.kind) == Continuous
  }

  /**
    Merge, not clobber: after a SET, a signal has the value its owning event
    gives it, if the SET carries one, and its prior value otherwise.
   */
  lemma SignalAfterSet(st: Indexes, cache: D.Records, events: seq<TimedEvent>, s: string, env: Env, signal: Signal)
    requires DistinctKinds(events) && !Dispatch(st, cache, events, s, env).raised
    ensures var after := CachedSignal(signal, D.Lookup(Dispatch(st, cache, events, s, env).cache, s));
            && (forall te | te in events && Feeds(te, signal, env) ::
                  SignalIn(signal, te.event.payload).Some? ==> after == SignalIn(signal, te.event.payload))
            && ((forall te | te in events && Feeds(te, signal, env) :: SignalIn(signal, te.event.payload).None?) ==>
                  after == CachedSignal(signal, D.Lookup(cache, s)))
  {
    var ws := Writes(events, s, env);
    CacheIsFold(st, cache, events, s, env);
    FoldSignal(signal, D.Lookup(cache, s), ws);
    OneSetter(events, s, env, signal);
    forall te | te in events && PathOf(env.paths, te.event.kind) == Continuous
      ensures DecisionRecordFor(te.event, s, te.at).Some? && DecisionRecordFor(te.event, s, te.at).value in ws
      ensures te.event.kind == SignalOwner(signal) ==>
                SignalOf(signal, DecisionRecordFor(te.event, s, te.at).value) == SignalIn(signal, te.event.payload)
    {
      EveryContinuousWrites(st, cache, events, s, env, te);
      OnlyTheOwnerSets(signal, te.event, s, te.at);
    }
    forall w | w in ws && SignalOf(signal, w).Some?
      ensures exists te :: te in events && Feeds(te, signal, env)
                           && SignalIn(signal, te.event.payload) == SignalOf(signal, w)
    {
      WritesMembers(events, s, env, w);
      var te :| && te in events && PathOf(env.paths, te.event.kind) == Continuous
                && DecisionRecordFor(te.event, s, te.at) == Some(w);
      OnlyTheOwnerSets(signal, te.event, s, te.at);
    }
  }

  /** With the shipped table, that is so for every event that owns the signal. */
  lemma ShippedSignals(
    st: Indexes, cache: D.Records, events: seq<TimedEvent>, s: string, env: Env, signal: Signal, te: TimedEvent)
    requires env.paths == EVENT_PATHS && DistinctKinds(events) && !Dispatch(st, cache, events, s, env).raised
    requires te in events && te.event.kind == SignalOwner(signal) && SignalIn(signal, te.event.payload).Some?
    ensures CachedSignal(signal, D.Lookup(Dispatch(st, cache, events, s, env).cache, s)) ==
            SignalIn(signal, te.event.payload)
  {
    OwnersAreContinuous(signal);
    assert Feeds(te, signal, env);
    SignalAfterSet(st, cache, events, s, env, signal);
  }

  lemma {:induction false} EveryContinuousWrites(
    st: Indexes, cache: D.Records, events: seq<TimedEvent>, s: string, env: Env, te: TimedEvent)
    requires !Dispatch(st, cache, events, s, env).raised
    requires te in events && PathOf(env.paths, te.event.kind) == Continuous
    ensures DecisionRecordFor(te.event, s, te.at).Some?
    ensures DecisionRecordFor(te.event, s, te.at).value in Writes(events, s, env)
  {
    var front, last := events[..|events| - 1], events[|events| - 1];
    assert events == front + [last];
    if te in front {
      EveryContinuousWrites(st, cache, front, s, env, te);
    } else {
      assert te == last;
    }
  }

  // ----- The same on the Redis cache -----

  function RedisWrites(db: D.Keyspace, ws: seq<DecisionRecord>, now: Time, ttl: Time): D.Keyspace {
    if ws == [] then db else D.RedisUpsert(RedisWrites(db, ws[..|ws| - 1], now, ttl), ws[|ws| - 1], now, ttl)
  }

  /** At one instant no key expires between writes, so Redis folds them the same way. */
  lemma {:induction false} RedisFolds(db: D.Keyspace, ws: seq<DecisionRecord>, s: string, now: Time, ttl: Time)
    requires 0.0 < ttl && forall w :: w in ws ==> w.subjectKey == s
    ensures D.RedisRead(RedisWrites(db, ws, now, ttl), s, now) == Fold(D.RedisRead(db, s, now), ws)
  {
    if ws != [] {
      assert ws[|ws| - 1] in ws;
      RedisFolds(db, ws[..|ws| - 1], s, now, ttl);
    }
  }

  lemma RedisTakesOne(db: D.Keyspace, w: DecisionRecord, now: Time, ttl: Time)
    requires D.Admits(w) && !D.RedisReadRaises(db, w.subjectKey, now)
    ensures !D.RedisRefuses(db, w, now)
    ensures !D.RedisReadRaises(D.RedisUpsert(db, w, now, ttl), w.subjectKey, now)
  {
    var live := D.RedisRead(db, w.subjectKey, now);
    if live.Some? {
      D.MergeAdmits(live.value, w);
    }
  }

  /** Redis does not refuse write `k`. */
  predicate TakenAt(db: D.Keyspace, ws: seq<DecisionRecord>, k: nat, now: Time, ttl: Time)
    requires k < |ws|
  {
    !D.RedisRefuses(RedisWrites(db, ws[..k], now, ttl), ws[k], now)
  }

  /** Redis refuses none of them, if DecisionRecord admits each and what is cached. */
  lemma {:induction false} RedisTakesAll(db: D.Keyspace, ws: seq<DecisionRecord>, s: string, now: Time, ttl: Time)
    requires 0.0 < ttl && forall w :: w in ws ==> w.subjectKey == s && D.Admits(w)
    requires !D.RedisReadRaises(db, s, now)
    ensures !D.RedisReadRaises(RedisWrites(db, ws, now, ttl), s, now)
    ensures forall k: nat :: k < |ws| ==> TakenAt(db, ws, k, now, ttl)
  {
    if ws != [] {
      var front, w := ws[..|ws| - 1], ws[|ws| - 1];
      assert w in ws && forall x :: x in front ==> x in ws;
      RedisTakesAll(db, front, s, now, ttl);
      RedisTakesOne(RedisWrites(db, front, now, ttl), w, now, ttl);
      forall k: nat | k < |ws|
        ensures TakenAt(db, ws, k, now, ttl)
      {
        if k < |front| {
          assert TakenAt(db, front, k, now, ttl) && ws[..k] == front[..k];
        } else {
          assert ws[..k] == front;
        }
      }
    }
  }

  /** With the Redis cache, too, any two orders leave the same signals. */
  lemma SameSignalOnRedis(
    a: seq<TimedEvent>, b: seq<TimedEvent>, s: string, env: Env, db: D.Keyspace, now: Time, ttl: Time, signal: Signal)
    requires DistinctKinds(a) && multiset(a) == multiset(b) && 0.0 < ttl
    ensures CachedSignal(signal, D.RedisRead(RedisWrites(db, Writes(a, s, env), now, ttl), s, now)) ==
            CachedSignal(signal, D.RedisRead(RedisWrites(db, Writes(b, s, env), now, ttl), s, now))
  {
    SameElements(a, b);
    WritesSubject(a, s, env);
    WritesSubject(b, s, env);
    RedisFolds(db, Writes(a, s, env), s, now, ttl);
    RedisFolds(db, Writes(b, s, env), s, now, ttl);
    SameSignal(a, b, s, env, D.RedisRead(db, s, now), signal);
  }

  lemma {:induction false} WritesSubject(events: seq<TimedEvent>, s: string, env: Env)
    ensures forall w :: w in Writes(events, s, env) ==> w.subjectKey == s
  {
    if events != [] {
      WritesSubject(events[..|events| - 1], s, env);
    }
  }

  // ----- When no order raises -----

  predicate IsContinuous(te: TimedEvent, env: Env) {
    PathOf(env.paths, te.event.kind) == Continuous
  }

  predicate Built(te: TimedEvent, s: string) {
    DecisionRecordFor(te.event, s, te.at).Some?
  }

  /** The cache can take the event's record, now or after any others like it. */
  predicate Accepted(te: TimedEvent, s: string, cache: D.Records) {
    var r := DecisionRecordFor(te.event, s, te.at);
    r.Some? && D.Admits(r.value) && !D.Refuses(cache, r.value)
  }

  /** No two entries of the SET write to the decision cache. */
  predicate LoneWrite(events: seq<TimedEvent>, env: Env) {
    forall x, y :: x in events && y in events && IsContinuous(x, env) && IsContinuous(y, env) ==>
      x == y && multiset(events)[x] == 1
  }

  /**
    Every record can be built, and either only one is written, where nothing is
    cached, or DecisionRecord admits each one, alone and merged with what is cached.
   */
  predicate SafeInAnyOrder(cache: D.Records, events: seq<TimedEvent>, s: string, env: Env) {
    && (forall te :: te in events && IsContinuous(te, env) ==> Built(te, s))
    && ((s !in cache && LoneWrite(events, env))
        || forall te :: te in events && IsContinuous(te, env) ==> Accepted(te, s, cache))
  }

  lemma {:induction false} AcceptedDoNotRaise(
    st: Indexes, cache: D.Records, events: seq<TimedEvent>, s: string, env: Env)
    requires NeverCrashes(env)
    requires forall te :: te in events && IsContinuous(te, env) ==> Accepted(te, s, cache)
    ensures var run := Dispatch(st, cache, events, s, env);
            && !run.raised
            && (D.Lookup(run.cache, s) == D.Lookup(cache, s) || (s in run.cache && D.Admits(run.cache[s])))
  {
    if events != [] {
      var front, te := events[..|events| - 1], events[|events| - 1];
      assert events == front + [te];
      assert te in events && forall x :: x in front ==> x in events;
      AcceptedDoNotRaise(st, cache, front, s, env);
      AcceptedStep(Dispatch(st, cache, front, s, env), te, s, env, cache);
    }
  }

  lemma AcceptedStep(
    run: SetRun, te: TimedEvent, s: string, env: Env, cache: D.Records)
    requires NeverCrashes(env) && !run.raised && (IsContinuous(te, env) ==> Accepted(te, s, cache))
    requires D.Lookup(run.cache, s) == D.Lookup(cache, s) || (s in run.cache && D.Admits(run.cache[s]))
    ensures var next := HandleOne(run, te, s, env);
            && !next.raised
            && (D.Lookup(next.cache, s) == D.Lookup(cache, s) || (s in next.cache && D.Admits(next.cache[s])))
  {
    if IsFast(te, env) {
      NoCrash(run.store, s, te.event.kind, te.at, env);
    } else if IsContinuous(te, env) {
      var r := DecisionRecordFor(te.event, s, te.at).value;
      if s in run.cache {
        D.MergeAdmits(run.cache[s], r);
      }
    }
  }

  lemma {:induction false} LoneWriteDoesNotRaise(
    st: Indexes, cache: D.Records, events: seq<TimedEvent>, s: string, env: Env)
    requires NeverCrashes(env) && s !in cache && LoneWrite(events, env)
    requires forall te :: te in events && IsContinuous(te, env) ==> Built(te, s)
    ensures var run := Dispatch(st, cache, events, s, env);
            !run.raised && ((forall te :: te in events ==> !IsContinuous(te, env)) ==> s !in run.cache)
  {
    if events != [] {
      var front, te := events[..|events| - 1], events[|events| - 1];
      assert events == front + [te];
      LoneFront(front, te, env);
      LoneWriteDoesNotRaise(st, cache, front, s, env);
      var run := Dispatch(st, cache, front, s, env);
      assert te in events;
      if IsFast(te, env) {
        NoCrash(run.store, s, te.event.kind, te.at, env);
      }
    }
  }

  lemma LoneFront(front: seq<TimedEvent>, te: TimedEvent, env: Env)
    requires LoneWrite(front + [te], env)
    ensures LoneWrite(front, env)
    ensures forall x :: x in front ==> x in front + [te]
    ensures IsContinuous(te, env) ==> forall x :: x in front ==> !IsContinuous(x, env)
  {
    var events := front + [te];
    assert te in events;
    forall x | x in front && IsContinuous(x, env)
      ensures multiset(front)[x] == 1 && x != te
    {
      assert x in events && multiset(events)[x] == 1;
      assert multiset(events)[x] == multiset(front)[x] + if x == te then 1 else 0;
    }
  }

  lemma SafeDoesNotRaise(
    st: Indexes, cache: D.Records, events: seq<TimedEvent>, s: string, env: Env)
    requires NeverCrashes(env) && SafeInAnyOrder(cache, events, s, env)
    ensures !Dispatch(st, cache, events, s, env).raised
  {
    if forall te :: te in events && IsContinuous(te, env) ==> Accepted(te, s, cache) {
      AcceptedDoNotRaise(st, cache, events, s, env);
    } else {
      LoneWriteDoesNotRaise(st, cache, events, s, env);
    }
  }

  lemma SafeIsOrderFree(cache: D.Records, a: seq<TimedEvent>, b: seq<TimedEvent>, s: string, env: Env)
    requires multiset(a) == multiset(b) && SafeInAnyOrder(cache, a, s, env)
    ensures SafeInAnyOrder(cache, b, s, env)
  {
    SameElements(a, b);
    if LoneWrite(a, env) {
      LoneWriteIsOrderFree(a, b, env);
    }
  }

  lemma LoneWriteIsOrderFree(a: seq<TimedEvent>, b: seq<TimedEvent>, env: Env)
    requires multiset(a) == multiset(b) && SameEvents(a, b) && LoneWrite(a, env)
    ensures LoneWrite(b, env)
  {
  }

  lemma PrefixRaises(
    st: Indexes, cache: D.Records, front: seq<TimedEvent>, more: seq<TimedEvent>, s: string, env: Env)
    requires Dispatch(st, cache, front, s, env).raised
    ensures Dispatch(st, cache, front + more, s, env) == Dispatch(st, cache, front, s, env)
  {
    assert (front + more)[..|front|] == front;
    RaiseSticks(st, cache, front + more, s, env, |front|);
  }

  /** A record that the cache refuses at once: the order in which its event comes first raises. */
  lemma RefusedFirstRaises(
    st: Indexes, cache: D.Records, te: TimedEvent, rest: seq<TimedEvent>, s: string, env: Env)
    requires IsContinuous(te, env) && Built(te, s) && D.Refuses(cache, DecisionRecordFor(te.event, s, te.at).value)
    ensures Dispatch(st, cache, [te] + rest, s, env).raised
  {
    assert [te][..0] == [];
    assert Dispatch(st, cache, [te], s, env).raised;
    PrefixRaises(st, cache, [te], rest, s, env);
  }

  /** A value that DecisionRecord refuses, after another write: the order in which its event comes last raises. */
  lemma RefusedLastRaises(
    st: Indexes, cache: D.Records, rest: seq<TimedEvent>, te: TimedEvent, y: TimedEvent, s: string, env: Env)
    requires IsContinuous(te, env) && Built(te, s) && !D.Admits(DecisionRecordFor(te.event, s, te.at).value)
    requires y in rest && IsContinuous(y, env)
    ensures Dispatch(st, cache, rest + [te], s, env).raised
  {
    var run, r := Dispatch(st, cache, rest, s, env), DecisionRecordFor(te.event, s, te.at).value;
    assert (rest + [te])[..|rest|] == rest;
    if !run.raised {
      WritesStay(st, cache, rest, s, env, y);
      D.MergeAdmits(run.cache[s], r);
    }
  }

  lemma {:induction false} WritesStay(
    st: Indexes, cache: D.Records, events: seq<TimedEvent>, s: string, env: Env, y: TimedEvent)
    requires !Dispatch(st, cache, events, s, env).raised
    ensures s in cache || (y in events && IsContinuous(y, env)) ==> s in Dispatch(st, cache, events, s, env).cache
  {
    if events != [] {
      var front, te := events[..|events| - 1], events[|events| - 1];
      assert events == front + [te];
      WritesStay(st, cache, front, s, env, y);
      OneFold(Dispatch(st, cache, front, s, env), te, s, env);
    }
  }

  lemma TakeOut(a: seq<TimedEvent>, te: TimedEvent) returns (rest: seq<TimedEvent>)
    requires te in a
    ensures multiset([te] + rest) == multiset(a) == multiset(rest + [te])
    ensures forall x :: x in a && x != te ==> x in rest
    ensures multiset(a)[te] > 1 ==> te in rest
  {
    var i :| 0 <= i < |a| && a[i] == te;
    rest := a[..i] + a[i + 1..];
    assert a == a[..i] + [te] + a[i + 1..];
    assert multiset(a) == multiset(rest) + multiset{te};
    assert forall x :: x in rest <==> x in multiset(rest);
  }

  lemma SomeOrderRaises(st: Indexes, cache: D.Records, a: seq<TimedEvent>, s: string, env: Env)
    returns (b: seq<TimedEvent>)
    requires !SafeInAnyOrder(cache, a, s, env)
    ensures multiset(b) == multiset(a) && Dispatch(st, cache, b, s, env).raised
  {
    if te :| te in a && IsContinuous(te, env) && !Built(te, s) {
      b := a;
      if !Dispatch(st, cache, a, s, env).raised {
        EveryContinuousWrites(st, cache, a, s, env, te);
      }
    } else {
      var te :| te in a && IsContinuous(te, env) && !Accepted(te, s, cache);
      var rest := TakeOut(a, te);
      var r := DecisionRecordFor(te.event, s, te.at).value;
      if D.Refuses(cache, r) {
        b := [te] + rest;
        RefusedFirstRaises(st, cache, te, rest, s, env);
      } else {
        b := rest + [te];
        var y := AnotherWrite(cache, a, te, rest, s, env);
        RefusedLastRaises(st, cache, rest, te, y, s, env);
      }
    }
  }

  lemma AnotherWrite(
    cache: D.Records, a: seq<TimedEvent>, te: TimedEvent, rest: seq<TimedEvent>, s: string, env: Env)
    returns (y: TimedEvent)
    requires te in a && IsContinuous(te, env) && Built(te, s) && !Accepted(te, s, cache)
    requires !D.Refuses(cache, DecisionRecordFor(te.event, s, te.at).value)
    requires s in cache || !LoneWrite(a, env)
    requires forall x :: x in a && x != te ==> x in rest
    requires multiset(a)[te] > 1 ==> te in rest
    ensures y in rest && IsContinuous(y, env)
  {
    if s in cache {
      D.MergeAdmits(cache[s], DecisionRecordFor(te.event, s, te.at).value);
      assert false;
    } else {
      var u, v :| u in a && v in a && IsContinuous(u, env) && IsContinuous(v, env) && !(u == v && multiset(a)[u] == 1);
      y := if u == v then u else if u == te then v else u;
      assert multiset(a)[u] > 0;
    }
  }

  /** Unless a kill call crashes: no order of the events raises iff the decision cache can take them in any order. */
  lemma NoOrderRaisesIff(
    st: Indexes, cache: D.Records, a: seq<TimedEvent>, s: string, env: Env)
    requires NeverCrashes(env)
    ensures (forall b :: multiset(b) == multiset(a) ==> !Dispatch(st, cache, b, s, env).raised) <==>
            SafeInAnyOrder(cache, a, s, env)
  {
    if SafeInAnyOrder(cache, a, s, env) {
      forall b | multiset(b) == multiset(a)
        ensures !Dispatch(st, cache, b, s, env).raised
      {
        SafeIsOrderFree(cache, a, b, s, env);
        SafeDoesNotRaise(st, cache, b, s, env);
      }
    } else {
      var b := SomeOrderRaises(st, cache, a, s, env);
    }
  }

  /** A localized reason, if it is given, is an object of texts. */
  predicate LegalTexts(payload: seq<Member>, name: string) {
    var v := Get(payload, name);
    v.None? || v.value == Null || (v.value.Object? && forall m :: m in v.value.members ==> m.value.Str?)
  }

  /** The payload members that end in a decision have the types of the CAEP event they belong to. */
  predicate LegalPayload(event: SetEvent) {
    var payload := event.payload;
    match event.kind
    case RiskLevelChange =>
      && Get(payload, "current_level") in
           {None, Some(Null), Some(Str("LOW")), Some(Str("MEDIUM")), Some(Str("HIGH"))}
      && (Get(payload, "risk_reason").Some? ==>
            Get(payload, "risk_reason").value.Null? || Get(payload, "risk_reason").value.Str?)
    case AssuranceLevelChange =>
      Get(payload, "current_level").Some? ==>
        Get(payload, "current_level").value.Null? || Get(payload, "current_level").value.Str?
    case TokenClaimsChange =>
      && (Get(payload, "claims").Some? ==> Get(payload, "claims").value.Null? || Get(payload, "claims").value.Object?)
      && LegalTexts(payload, "reason_admin") && LegalTexts(payload, "reason_user")
    case DeviceComplianceChange =>
      LegalTexts(payload, "reason_admin") && LegalTexts(payload, "reason_user")
    case _ => true
  }

  predicate LegalRecord(r: DecisionRecord) {
    && r.riskLevel in {None, Some(Str("LOW")), Some(Str("MEDIUM")), Some(Str("HIGH"))}
    && (r.assuranceLevel.Some? ==> r.assuranceLevel.value.Str?)
    && (r.changedClaims.Some? ==> r.changedClaims.value.Object?)
    && (r.reason.Some? && r.reason.value.Given? ==> r.reason.value.text.Str?)
  }

  lemma LocalizedText(payload: seq<Member>, name: string)
    requires LegalTexts(payload, name)
    ensures var text := Localized(Field(payload, name));
            !text.Raises? && (text.value.Some? ==> text.value.value.Str?)
  {
    var v := Field(payload, name);
    if v.Some? && Truthy(v.value) {
      var members := v.value.members;
      assert members[0] in members;
    }
  }

  lemma LegalWrites(te: TimedEvent, s: string)
    requires LegalPayload(te.event)
    ensures Built(te, s) && LegalRecord(DecisionRecordFor(te.event, s, te.at).value)
  {
    if te.event.kind.TokenClaimsChange? || te.event.kind.DeviceComplianceChange? {
      LocalizedText(te.event.payload, "reason_admin");
      LocalizedText(te.event.payload, "reason_user");
    }
  }

  lemma LegalIsAccepted(te: TimedEvent, s: string, cache: D.Records)
    requires LegalPayload(te.event) && (s in cache ==> LegalRecord(cache[s]))
    ensures Accepted(te, s, cache)
  {
    LegalWrites(te, s);
    var r := DecisionRecordFor(te.event, s, te.at).value;
    D.RefusesIff(cache, r);
    D.RefusesIff(map[s := r], r);
    assert D.MergeInto(r, r) == r;
  }

  /** With such payloads, and such a record cached, a SET does not raise in any order, unless a kill call crashes. */
  lemma LegalSetsDoNotRaise(
    st: Indexes, cache: D.Records, events: seq<TimedEvent>, s: string, env: Env)
    requires NeverCrashes(env) && (s in cache ==> LegalRecord(cache[s]))
    requires forall te :: te in events && PathOf(env.paths, te.event.kind) == Continuous ==> LegalPayload(te.event)
    ensures SafeInAnyOrder(cache, events, s, env)
    ensures !Dispatch(st, cache, events, s, env).raised
  {
    forall te | te in events && IsContinuous(te, env)
      ensures Accepted(te, s, cache)
    {
      LegalIsAccepted(te, s, cache);
    }
    SafeDoesNotRaise(st, cache, events, s, env);
  }

  /**
    A risk level that DecisionRecord refuses, with any other signal: both orders
    raise, they leave different caches, and no later event is reached.
   */
  lemma RefusedValueStops(st: Indexes, s: string, env: Env, at: Time, more: seq<TimedEvent>)
    requires env.paths == EVENT_PATHS
    ensures var risk := TimedEvent(SetEvent(RiskLevelChange, [Member("current_level", Str("CRITICAL"))]), at);
            var compliance := TimedEvent(SetEvent(DeviceComplianceChange, []), at);
            var ra, rb := Dispatch(st, map[], [risk, compliance] + more, s, env),
                          Dispatch(st, map[], [compliance, risk] + more, s, env);
            && ra.raised && rb.raised && ra.store == rb.store == st
            && CachedSignal(Risk, D.Lookup(ra.cache, s)) == Some(Str("CRITICAL"))
            && CachedSignal(Risk, D.Lookup(rb.cache, s)) == None
  {
    var risk := TimedEvent(SetEvent(RiskLevelChange, [Member("current_level", Str("CRITICAL"))]), at);
    var compliance := TimedEvent(SetEvent(DeviceComplianceChange, []), at);
    TwoWrites(st, risk, compliance, s, env);
    TwoWrites(st, compliance, risk, s, env);
    PrefixRaises(st, map[], [risk, compliance], more, s, env);
    PrefixRaises(st, map[], [compliance, risk], more, s, env);
  }

  lemma TwoWrites(st: Indexes, x: TimedEvent, y: TimedEvent, s: string, env: Env)
    requires IsContinuous(x, env) && IsContinuous(y, env) && Built(x, s) && Built(y, s)
    requires var rx, ry := DecisionRecordFor(x.event, s, x.at).value, DecisionRecordFor(y.event, s, y.at).value;
             !D.Admits(D.MergeInto(rx, ry))
    ensures Dispatch(st, map[], [x, y], s, env).raised && Dispatch(st, map[], [x, y], s, env).store == st
    ensures Dispatch(st, map[], [x, y], s, env).cache == map[s := DecisionRecordFor(x.event, s, x.at).value]
  {
    assert [x, y][..1] == [x] && [x][..0] == [];
    var none: SetRun := Dispatch(st, map[], [], s, env);
    var one := Dispatch(st, map[], [x], s, env);
    assert one == HandleOne(none, x, s, env);
    assert !one.raised && one.store == st && one.cache == map[s := DecisionRecordFor(x.event, s, x.at).value];
    assert Dispatch(st, map[], [x, y], s, env) == HandleOne(one, y, s, env);
  }

  // ----- The theorem -----

  lemma SamePath(a: seq<TimedEvent>, ra: seq<Report>, b: seq<TimedEvent>, rb: seq<Report>, env: Env)
    requires SameEvents(a, b) && a != [] && Matches(ra, a, env) && Matches(rb, b, env)
    ensures b != [] && Severity(MostSevere(ra)) <= Severity(MostSevere(rb))
  {
    assert a[0] in b;
    MostSevereIs(ra);
    MostSevereIs(rb);
    var r :| r in ra && r.path == MostSevere(ra);
    var i :| 0 <= i < |ra| && ra[i] == r;
    assert a[i] in b && MatchesAt(ra, a, env, i);
    var j :| 0 <= j < |b| && b[j] == a[i];
    assert rb[j] in rb && MatchesAt(rb, b, env, j);
  }

  /** Two orders of which neither raises end alike. */
  lemma SameUnlessRaised(
    st: Indexes, cache: D.Records, a: seq<TimedEvent>, b: seq<TimedEvent>, s: string, now: Time, env: Env,
    outcome: string -> KillOutcome)
    requires Consistent(st) && Fixed(env, outcome) && Simultaneous(a, now)
    requires DistinctKinds(a) && multiset(a) == multiset(b)
    requires !Dispatch(st, cache, a, s, env).raised && !Dispatch(st, cache, b, s, env).raised
    ensures var ra, rb := Dispatch(st, cache, a, s, env), Dispatch(st, cache, b, s, env);
            var sa, sb := Summarize(ra.reports, s), Summarize(rb.reports, s);
            && ra.store == rb.store
            && sa.path == sb.path && sa.targeted == sb.targeted && sa.terminated == sb.terminated
            && forall signal ::
                 CachedSignal(signal, D.Lookup(ra.cache, s)) == CachedSignal(signal, D.Lookup(rb.cache, s))
  {
    SameElements(a, b);
    var ra, rb := Dispatch(st, cache, a, s, env), Dispatch(st, cache, b, s, env);
    DispatchClosedForm(st, cache, a, s, now, env, outcome);
    DispatchClosedForm(st, cache, b, s, now, env, outcome);
    SameAny(a, b, env);
    SameSummary(st, cache, a, b, s, now, env);
    CacheIsFold(st, cache, a, s, env);
    CacheIsFold(st, cache, b, s, env);
    forall signal
      ensures CachedSignal(signal, D.Lookup(ra.cache, s)) == CachedSignal(signal, D.Lookup(rb.cache, s))
    {
      SameSignal(a, b, s, env, D.Lookup(cache, s), signal);
    }
  }

  /**
    Any two orders of a SET's events end in the same correlation store, the same
    reported path and counts, and the same cached signals, and neither raises, if
    no order is refused by the decision cache: `NoOrderRaisesIff` says when that is.
   */
  lemma OrderDoesNotMatter(
    st: Indexes, cache: D.Records, a: seq<TimedEvent>, b: seq<TimedEvent>, s: string, now: Time, env: Env,
    outcome: string -> KillOutcome)
    requires Consistent(st) && Fixed(env, outcome) && Simultaneous(a, now) && SafeInAnyOrder(cache, a, s, env)
    requires DistinctKinds(a) && multiset(a) == multiset(b)
    ensures var ra, rb := Dispatch(st, cache, a, s, env), Dispatch(st, cache, b, s, env);
            var sa, sb := Summarize(ra.reports, s), Summarize(rb.reports, s);
            && !ra.raised && !rb.raised
            && ra.store == rb.store
            && sa.path == sb.path && sa.targeted == sb.targeted && sa.terminated == sb.terminated
            && forall signal ::
                 CachedSignal(signal, D.Lookup(ra.cache, s)) == CachedSignal(signal, D.Lookup(rb.cache, s))
  {
    NoOrderRaisesIff(st, cache, a, s, env);
    SameUnlessRaised(st, cache, a, b, s, now, env, outcome);
  }

  lemma SameAny(a: seq<TimedEvent>, b: seq<TimedEvent>, env: Env)
    requires SameEvents(a, b)
    ensures AnyFast(a, env) <==> AnyFast(b, env)
    ensures AnyPurge(a, env) <==> AnyPurge(b, env)
  {
  }

  lemma SameSummary(
    st: Indexes, cache: D.Records, a: seq<TimedEvent>, b: seq<TimedEvent>, s: string, now: Time, env: Env)
    requires Consistent(st) && Simultaneous(a, now) && Simultaneous(b, now) && SameEvents(a, b) && |a| == |b|
    requires !Dispatch(st, cache, a, s, env).raised && !Dispatch(st, cache, b, s, env).raised
    ensures var ra, rb := Dispatch(st, cache, a, s, env).reports, Dispatch(st, cache, b, s, env).reports;
            var sa, sb := Summarize(ra, s), Summarize(rb, s);
            && sa.path == sb.path && sa.targeted == sb.targeted
            && sa.terminated == SumTerminated(ra) && sb.terminated == SumTerminated(rb)
  {
    var ra, rb := Dispatch(st, cache, a, s, env).reports, Dispatch(st, cache, b, s, env).reports;
    if a != [] {
      DispatchReports(st, cache, a, s, env);
      DispatchReports(st, cache, b, s, env);
      SamePath(a, ra, b, rb, env);
      SamePath(b, rb, a, ra, env);
      SummaryParts(ra, s);
      SummaryParts(rb, s);
      TargetedClosedForm(st, cache, a, s, now, env);
      TargetedClosedForm(st, cache, b, s, now, env);
      SameAny(a, b, env);
    }
  }

  lemma SameElements(a: seq<TimedEvent>, b: seq<TimedEvent>)
    requires multiset(a) == multiset(b)
    ensures SameEvents(a, b) && |a| == |b|
  {
    assert forall te :: te in a <==> te in multiset(a);
    assert forall te :: te in b <==> te in multiset(b);
    assert |a| == |multiset(a)| && |b| == |multiset(b)|;
  }

  lemma TargetedClosedForm(st: Indexes, cache: D.Records, events: seq<TimedEvent>, s: string, now: Time, env: Env)
    requires Consistent(st) && Simultaneous(events, now) && !Dispatch(st, cache, events, s, env).raised
    ensures MaxTargeted(Dispatch(st, cache, events, s, env).reports) ==
            if AnyFast(events, env) then |Targets(st, s, now, env.correlationTtl)| else 0
  {
    if AnyFast(events, env) {
      var f := FirstFast(events, env);
      DispatchCounts(st, cache, events, s, env, f);
      assert events[f] in events;
    } else {
      assert forall i :: 0 <= i < |events| ==> events[i] in events;
      UntouchedBefore(st, cache, events, s, env);
    }
  }

  lemma {:induction false} FirstFast(events: seq<TimedEvent>, env: Env) returns (f: nat)
    requires AnyFast(events, env)
    ensures f < |events| && IsFast(events[f], env) && forall i :: 0 <= i < f ==> !IsFast(events[i], env)
  {
    var front, te := events[..|events| - 1], events[|events| - 1];
    assert events == front + [te];
    AnyOfBoth(front, te, env);
    if AnyFast(front, env) {
      f := FirstFast(front, env);
    } else {
      f := |front|;
      assert forall i :: 0 <= i < f ==> events[i] in front;
    }
  }
}
