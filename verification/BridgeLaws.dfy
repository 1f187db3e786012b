/** What holds of every run of the bridge: where sessions go, and that no SET is dispatched twice. */
module BridgeLaws {
  import opened Models
  import opened SetVerifier
  import opened ReplayMemory
  import opened Enforcement
  import opened DispatchLaws
  import opened BridgeEngine
  import I = CorrelationIndexes
  import D = DecisionCache
  import K = SubjectKeys
  import L = KillLoopLaws
  import O = OrderIndependence

  // ----- The store stays consistent -----

  /** BIG-IP starts a session once: an id is not registered while it belongs to another subject. */
  predicate LawfulInputs(b: Config, inputs: seq<Input>) {
    inputs == [] ||
    (var front, input := inputs[..|inputs| - 1], inputs[|inputs| - 1];
     && LawfulInputs(b, front)
     && (input.RegisterSession? && RecordOf(b, input).Some? && input.sid in Run(b, front).store.owner ==>
           Run(b, front).store.owner[input.sid] == RecordOf(b, input).value.subjectKey))
  }

  lemma ProcessStore(b: Config, st: State, a: Arrival)
    requires I.Consistent(st.store)
    ensures I.Consistent(Process(b, st, a).0.store)
    ensures Process(b, st, a).0.store == st.store ||
            (PassesGuard(b, st, a)
             && IsSubject(Verified(b, a).set_.subId)
             && K.CorrelationKey(Verified(b, a).set_.subId, b.codec).Some?)
  {
    if PassesGuard(b, st, a) && IsSubject(Verified(b, a).set_.subId) {
      var set_ := Verified(b, a).set_;
      var key := K.CorrelationKey(set_.subId, b.codec);
      if key.Some? {
        DispatchConserves(st.store, st.cache, EventsOf(set_, a), key.value, EnvOf(b, a));
      }
    }
  }

  lemma {:induction false} RunConsistent(b: Config, inputs: seq<Input>)
    requires LawfulInputs(b, inputs)
    ensures I.Consistent(Run(b, inputs).store)
  {
    if inputs != [] {
      var front, input := inputs[..|inputs| - 1], inputs[|inputs| - 1];
      var st := Run(b, front);
      RunConsistent(b, front);
      match input
      case Receive(a) => ProcessStore(b, st, a);
      case RegisterSession(_, _, _, _, _) =>
        if RecordOf(b, input).Some? {
          I.RegisterKeepsAgreementIff(st.store, RecordOf(b, input).value);
        }
      case DeregisterSession(sid) => I.TableDeregister(st.store, sid);
      case LookupSessions(s, at) => I.SweepIsWithout(st.store, s, at, b.settings.correlationTtl);
      case ReadDecision(_, _) =>
    }
  }

  // ----- Where sessions go -----

  predicate Listed(st: State, r: CorrelationRecord) {
    r in I.Bucket(st.store, r.subjectKey)
  }

  /** `input` is a genuine, new SET about the record's subject that accounts for the loss. */
  ghost predicate RemovedBySet(b: Config, st: State, input: Input, r: CorrelationRecord) {
    && input.Receive?
    && Genuine(b, input.arrival) && IsNew(st, input.arrival)
    && SubjectOf(b, input.arrival) == Some(r.subjectKey)
    && var events, env := TimedEvents(input.arrival), Env(b.paths, b.settings.correlationTtl, input.arrival.kill);
       Explained(r, events, Dispatch(st.store, st.cache, events, r.subjectKey, env).reports, env)
  }

  lemma DepartureBySet(b: Config, st: State, input: Input, r: CorrelationRecord)
    requires I.Consistent(st.store) && input.Receive? && Listed(st, r) && !Listed(Step(b, st, input), r)
    ensures RemovedBySet(b, st, input, r)
  {
    var a := input.arrival;
    ProcessStore(b, st, a);
    GuardIff(b, st, a);
    ProcessDispatches(b, st, a);
    var key, env := SubjectOf(b, a).value, Env(b.paths, b.settings.correlationTtl, a.kill);
    var dead := DispatchRemoves(st.store, st.cache, TimedEvents(a), key, env);
    I.WithoutBuckets(st.store, key, dead);
  }

  lemma DepartureByDeregister(st: I.Indexes, sid: string, r: CorrelationRecord)
    requires I.Consistent(st) && r in I.Bucket(st, r.subjectKey) && r !in I.Bucket(I.Deregister(st, sid), r.subjectKey)
    ensures sid == r.apmSessionId
  {
    I.DeregisterIsWithout(st, sid);
    if sid in st.owner {
      I.WithoutBuckets(st, st.owner[sid], {sid});
    }
  }

  lemma DepartureByLookup(st: I.Indexes, s: string, at: Time, ttl: Time, r: CorrelationRecord)
    requires I.Consistent(st) && r in I.Bucket(st, r.subjectKey)
    requires r !in I.Bucket(I.Sweep(st, s, at, ttl), r.subjectKey)
    ensures s == r.subjectKey && r.registeredAt < at - ttl
  {
    I.SweepIsWithout(st, s, at, ttl);
    I.WithoutBuckets(st, s, I.Expired(st, s, at, ttl));
    if s == r.subjectKey {
      L.SweptBucket(st, s, at, ttl);
    }
  }

  lemma DepartureByRegister(st: I.Indexes, r': CorrelationRecord, r: CorrelationRecord)
    requires I.Backed(st) && r in I.Bucket(st, r.subjectKey) && r !in I.Bucket(I.Register(st, r'), r.subjectKey)
    ensures r'.apmSessionId == r.apmSessionId
  {
  }

  lemma DepartureByBigIp(b: Config, st: State, input: Input, r: CorrelationRecord)
    requires I.Consistent(st.store) && !input.Receive? && Listed(st, r) && !Listed(Step(b, st, input), r)
    ensures || input == DeregisterSession(r.apmSessionId)
            || (input.RegisterSession? && input.sid == r.apmSessionId)
            || (input.LookupSessions? && input.subjectKey == r.subjectKey
                && r.registeredAt < input.at - b.settings.correlationTtl)
  {
    match input
    case RegisterSession(_, _, _, _, _) => DepartureByRegister(st.store, RecordOf(b, input).value, r);
    case DeregisterSession(sid) => DepartureByDeregister(st.store, sid, r);
    case LookupSessions(s, at) => DepartureByLookup(st.store, s, at, b.settings.correlationTtl, r);
    case ReadDecision(_, _) =>
  }

  /**
    Provenance of departures: a record leaves the store only because BIG-IP
    closed or re-registered its session, because it was looked up after
    expiring, or through a fast-path event of a verified, new SET about its subject.
   */
  lemma SessionProvenance(b: Config, inputs: seq<Input>, input: Input, r: CorrelationRecord)
    requires LawfulInputs(b, inputs)
    requires Listed(Run(b, inputs), r) && !Listed(Step(b, Run(b, inputs), input), r)
    ensures || RemovedBySet(b, Run(b, inputs), input, r)
            || input == DeregisterSession(r.apmSessionId)
            || (input.RegisterSession? && input.sid == r.apmSessionId)
            || (input.LookupSessions? && input.subjectKey == r.subjectKey
                && r.registeredAt < input.at - b.settings.correlationTtl)
  {
    RunConsistent(b, inputs);
    if input.Receive? {
      DepartureBySet(b, Run(b, inputs), input, r);
    } else {
      DepartureByBigIp(b, Run(b, inputs), input, r);
    }
  }

  // ----- What an accepted SET achieves -----

  /** A SET about some subject, signed by a registered issuer for this receiver, neither too new nor too old. */
  predicate Genuine(b: Config, a: Arrival) {
    var tok := a.token;
    && tok.wellFormed && tok.seceventTyp && tok.issuer != "" && tok.issuer in b.registered
    && a.keyFound && tok.signatureOk && tok.audienceOk
    && tok.iat.Seconds? && tok.iat.value == tok.iat.value.Floor as real
    && tok.subId.Some? && tok.subId.value.Object?
    && Get(tok.subId.value.members, "format").Some? && Get(tok.subId.value.members, "format").value.Str?
    && tok.events != []
    && tok.iat.value - b.settings.skew <= a.decodedAt && a.checkedAt <= tok.iat.value + b.settings.maxAge
  }

  predicate IsNew(st: State, a: Arrival) {
    a.token.jti in st.seen ==> st.seen[a.token.jti] <= a.guardAt
  }

  /** The guard lets through exactly the genuine SETs that are new, as they are. */
  lemma GuardIff(b: Config, st: State, a: Arrival)
    ensures PassesGuard(b, st, a) <==> Genuine(b, a) && IsNew(st, a)
    ensures Genuine(b, a) <==> Verified(b, a).Accepted?
    ensures Genuine(b, a) ==>
              var set_ := Verified(b, a).set_;
              set_.jti == a.token.jti && Some(set_.subId) == a.token.subId && set_.events == a.token.events
  {
    AcceptanceWindow(a.token, b.registered, a.keyFound, a.decodedAt, a.checkedAt, b.settings);
  }

  /** The key of the SET's subject; None where deriving it raises. */
  function SubjectOf(b: Config, a: Arrival): Option<string>
    requires Genuine(b, a)
  {
    K.CorrelationKey(a.token.subId.value, b.codec)
  }

  function TimedEvents(a: Arrival): (events: seq<TimedEvent>)
    ensures |events| == |a.token.events|
    ensures forall i :: 0 <= i < |events| ==> events[i] == TimedEvent(a.token.events[i], a.eventAt(i))
  {
    seq(|a.token.events|, i requires 0 <= i < |a.token.events| => TimedEvent(a.token.events[i], a.eventAt(i)))
  }

  /** Such a SET is dispatched with the configured table and TTL, and what BIG-IP answers. */
  lemma ProcessDispatches(b: Config, st: State, a: Arrival)
    requires Genuine(b, a) && IsNew(st, a) && SubjectOf(b, a).Some?
    ensures var (after, outcome) := Process(b, st, a);
            var s, env := SubjectOf(b, a).value, Env(b.paths, b.settings.correlationTtl, a.kill);
            var run := Dispatch(st.store, st.cache, TimedEvents(a), s, env);
            && after.store == run.store && after.cache == run.cache
            && outcome == if run.raised then Unexpected else Done(Summarize(run.reports, s))
  {
    GuardIff(b, st, a);
    assert EventsOf(Verified(b, a).set_, a) == TimedEvents(a);
  }

  predicate TakesPath(b: Config, kind: EventType, path: EnforcementPath) {
    if kind in b.paths then b.paths[kind] == path else path == Informational
  }

  /** If event `i` is on the fast path, the session is not expired, not killed and not purged by it. */
  predicate SparedAt(b: Config, a: Arrival, i: nat, r: CorrelationRecord)
    requires i < |a.token.events|
  {
    var kind := a.token.events[i].kind;
    TakesPath(b, kind, Fast) ==>
      && r.registeredAt >= a.eventAt(i) - b.settings.correlationTtl
      && a.kill(kind, r.apmSessionId) != Killed
      && kind != AccountPurged && kind != AccountDisabled
  }

  lemma EffectOnSessions(b: Config, st: State, a: Arrival, r: CorrelationRecord)
    requires I.Consistent(st.store) && Genuine(b, a) && IsNew(st, a) && Process(b, st, a).1 != Unexpected
    requires SubjectOf(b, a).Some?
    ensures var s := SubjectOf(b, a).value;
            r in I.Bucket(Process(b, st, a).0.store, s) <==>
            r in I.Bucket(st.store, s) && forall i: nat :: i < |a.token.events| ==> SparedAt(b, a, i, r)
  {
    var s, env, events := SubjectOf(b, a).value, Env(b.paths, b.settings.correlationTtl, a.kill), TimedEvents(a);
    ProcessDispatches(b, st, a);
    SurvivesIff(st.store, st.cache, events, s, env, r);
    forall i: nat | i < |events|
      ensures SparedBy(events[i], r, env) <==> SparedAt(b, a, i, r)
    {
    }
    if forall i: nat :: i < |events| ==> SparedAt(b, a, i, r) {
      forall te | te in events
        ensures SparedBy(te, r, env)
      {
        var i :| 0 <= i < |events| && events[i] == te;
      }
    }
    assert forall i :: 0 <= i < |events| ==> events[i] in events;
  }

  lemma EffectOnSummary(b: Config, st: State, a: Arrival)
    requires Genuine(b, a) && IsNew(st, a) && SubjectOf(b, a).Some? && Process(b, st, a).1 != Unexpected
    ensures var outcome, sent := Process(b, st, a).1, a.token.events;
            && outcome.Done? && outcome.summary.subjectKey == SubjectOf(b, a).value
            && |outcome.summary.kinds| == |sent|
            && (forall i :: 0 <= i < |sent| ==> outcome.summary.kinds[i] == sent[i].kind)
            && outcome.summary.path ==
                 if exists e :: e in sent && TakesPath(b, e.kind, Fast) then Fast
                 else if exists e :: e in sent && TakesPath(b, e.kind, Continuous) then Continuous
                 else Informational
  {
    var s, env, events := SubjectOf(b, a).value, Env(b.paths, b.settings.correlationTtl, a.kill), TimedEvents(a);
    ProcessDispatches(b, st, a);
    SummaryCoversEveryEvent(st.store, st.cache, events, s, env);
    SummaryPath(st.store, st.cache, events, s, env);
    SomeOnPath(b, a, env, Fast);
    SomeOnPath(b, a, env, Continuous);
  }

  lemma SomeOnPath(b: Config, a: Arrival, env: Env, path: EnforcementPath)
    requires env.paths == b.paths
    ensures (exists te :: te in TimedEvents(a) && PathOf(env.paths, te.event.kind) == path) <==>
            (exists e :: e in a.token.events && TakesPath(b, e.kind, path))
  {
    var events := TimedEvents(a);
    if te :| te in events && PathOf(env.paths, te.event.kind) == path {
      assert te.event in a.token.events;
    }
    if e :| e in a.token.events && TakesPath(b, e.kind, path) {
      var i :| 0 <= i < |a.token.events| && a.token.events[i] == e;
      assert events[i] in events && events[i].event == e;
    }
  }

  lemma EffectOnSignals(b: Config, st: State, a: Arrival, signal: O.Signal, i: nat)
    requires Genuine(b, a) && IsNew(st, a) && SubjectOf(b, a).Some? && Process(b, st, a).1 != Unexpected
    requires DistinctEvents(a) && i < |a.token.events|
    requires a.token.events[i].kind == O.SignalOwner(signal) && TakesPath(b, a.token.events[i].kind, Continuous)
    requires O.SignalIn(signal, a.token.events[i].payload).Some?
    ensures O.CachedSignal(signal, D.Lookup(Process(b, st, a).0.cache, SubjectOf(b, a).value)) ==
            O.SignalIn(signal, a.token.events[i].payload)
  {
    var s, env, events := SubjectOf(b, a).value, Env(b.paths, b.settings.correlationTtl, a.kill), TimedEvents(a);
    ProcessDispatches(b, st, a);
    O.SignalAfterSet(st.store, st.cache, events, s, env, signal);
    assert events[i] in events && O.Feeds(events[i], signal, env);
  }

  /** The keys of the `events` object are distinct. */
  predicate DistinctEvents(a: Arrival) {
    forall i, j :: 0 <= i < j < |a.token.events| ==> a.token.events[i].kind != a.token.events[j].kind
  }

  /**
    On every run: a genuine, new SET whose dispatch does not raise is summarized
    with all its events and the most severe of their paths. Of its subject exactly
    the sessions stay listed that each event on the fast path spared; a purge leaves
    none; no other subject's are touched. Each signal has the value its owning event gives it.
   */
  lemma AcceptedSetTakesEffect(b: Config, inputs: seq<Input>, a: Arrival, now: Time, signal: O.Signal)
    requires LawfulInputs(b, inputs) && Genuine(b, a) && IsNew(Run(b, inputs), a) && DistinctEvents(a)
    requires Process(b, Run(b, inputs), a).1 != Unexpected
    ensures var st, sent, key := Run(b, inputs), a.token.events, SubjectOf(b, a);
            var (after, outcome) := Process(b, st, a);
            && outcome.Done? && key == Some(outcome.summary.subjectKey)
            && var s := outcome.summary.subjectKey;
               && |outcome.summary.kinds| == |sent|
               && (forall i :: 0 <= i < |sent| ==> outcome.summary.kinds[i] == sent[i].kind)
               && outcome.summary.path ==
                    (if exists e :: e in sent && TakesPath(b, e.kind, Fast) then Fast
                     else if exists e :: e in sent && TakesPath(b, e.kind, Continuous) then Continuous
                     else Informational)
               && (forall r :: r in I.Bucket(after.store, s) <==>
                     r in I.Bucket(st.store, s) && forall i: nat :: i < |sent| ==> SparedAt(b, a, i, r))
               && ((exists e :: e in sent && TakesPath(b, e.kind, Fast)
                                && (e.kind == AccountPurged || e.kind == AccountDisabled)) ==>
                     I.SessionsFor(after.store, s, now, b.settings.correlationTtl) == [])
               && (forall other :: other != s ==>
                     && I.Bucket(after.store, other) == I.Bucket(st.store, other)
                     && D.Lookup(after.cache, other) == D.Lookup(st.cache, other))
               && forall i: nat ::
                    i < |sent| && sent[i].kind == O.SignalOwner(signal) && TakesPath(b, sent[i].kind, Continuous)
                    && O.SignalIn(signal, sent[i].payload).Some? ==>
                      O.CachedSignal(signal, D.Lookup(after.cache, s)) == O.SignalIn(signal, sent[i].payload)
  {
    var st, sent := Run(b, inputs), a.token.events;
    RunConsistent(b, inputs);
    KeyIsThere(b, st, a);
    var s := SubjectOf(b, a).value;
    EffectOnSummary(b, st, a);
    forall r
      ensures r in I.Bucket(Process(b, st, a).0.store, s) <==>
              r in I.Bucket(st.store, s) && forall i: nat :: i < |sent| ==> SparedAt(b, a, i, r)
    {
      EffectOnSessions(b, st, a, r);
    }
    EffectOfPurge(b, st, a, now);
    forall other | other != s
      ensures I.Bucket(Process(b, st, a).0.store, other) == I.Bucket(st.store, other)
      ensures D.Lookup(Process(b, st, a).0.cache, other) == D.Lookup(st.cache, other)
    {
      EffectOnOthers(b, st, a, other);
    }
    forall i: nat | && i < |sent| && sent[i].kind == O.SignalOwner(signal) && TakesPath(b, sent[i].kind, Continuous)
                    && O.SignalIn(signal, sent[i].payload).Some?
      ensures O.CachedSignal(signal, D.Lookup(Process(b, st, a).0.cache, s)) == O.SignalIn(signal, sent[i].payload)
    {
      EffectOnSignals(b, st, a, signal, i);
    }
  }

  lemma KeyIsThere(b: Config, st: State, a: Arrival)
    requires Genuine(b, a) && IsNew(st, a) && Process(b, st, a).1 != Unexpected
    ensures SubjectOf(b, a).Some?
  {
    GuardIff(b, st, a);
  }

  lemma EffectOnOthers(b: Config, st: State, a: Arrival, other: string)
    requires I.Consistent(st.store) && Genuine(b, a) && IsNew(st, a) && SubjectOf(b, a).Some?
    requires other != SubjectOf(b, a).value
    ensures I.Bucket(Process(b, st, a).0.store, other) == I.Bucket(st.store, other)
    ensures D.Lookup(Process(b, st, a).0.cache, other) == D.Lookup(st.cache, other)
  {
    ProcessDispatches(b, st, a);
    OthersUntouched(st.store, st.cache, TimedEvents(a), SubjectOf(b, a).value,
                    Env(b.paths, b.settings.correlationTtl, a.kill), other);
  }

  lemma EffectOfPurge(b: Config, st: State, a: Arrival, now: Time)
    requires I.Consistent(st.store) && Genuine(b, a) && IsNew(st, a) && SubjectOf(b, a).Some?
    requires Process(b, st, a).1 != Unexpected
    ensures (exists e :: e in a.token.events && TakesPath(b, e.kind, Fast)
                         && (e.kind == AccountPurged || e.kind == AccountDisabled)) ==>
              I.SessionsFor(Process(b, st, a).0.store, SubjectOf(b, a).value, now, b.settings.correlationTtl) == []
  {
    ProcessDispatches(b, st, a);
    if e :| && e in a.token.events && TakesPath(b, e.kind, Fast)
            && (e.kind == AccountPurged || e.kind == AccountDisabled) {
      var i :| 0 <= i < |a.token.events| && a.token.events[i] == e;
      PurgeLeavesNoSession(st.store, st.cache, TimedEvents(a), SubjectOf(b, a).value,
                           Env(b.paths, b.settings.correlationTtl, a.kill), i, now);
    }
  }

  // ----- The guard over a run -----

  /** Tasks run one after the other past the guard, each within `delay` of its verification. */
  ghost predicate Paced(inputs: seq<Input>, delay: Time) {
    && (forall i :: 0 <= i < |inputs| && inputs[i].Receive? ==>
          var a := inputs[i].arrival;
          a.decodedAt <= a.checkedAt <= a.guardAt <= a.checkedAt + delay && a.guardAt <= a.markedAt)
    && forall i, j :: 0 <= i < j < |inputs| && inputs[i].Receive? && inputs[j].Receive? ==>
         inputs[i].arrival.markedAt <= inputs[j].arrival.guardAt
  }

  lemma ProcessSeen(b: Config, st: State, a: Arrival)
    ensures var seen := Process(b, st, a).0.seen;
            || (seen == st.seen && !Verified(b, a).Accepted?)
            || (seen == Swept(st.seen, a.guardAt) && !PassesGuard(b, st, a))
            || (PassesGuard(b, st, a)
                && seen == Mark(Swept(st.seen, a.guardAt), Verified(b, a).set_.jti, a.markedAt, b.settings.replayTtl))
  {
  }

  /** No step forgets a `jti` before its TTL has passed. */
  lemma StepRemembers(b: Config, st: State, input: Input, jti: string, now: Time)
    requires Remembers(st.seen, jti, now)
    requires input.Receive? ==> input.arrival.guardAt <= input.arrival.markedAt <= now && 0.0 < b.settings.replayTtl
    requires input.Receive? ==> now < input.arrival.markedAt + b.settings.replayTtl
    ensures Remembers(Step(b, st, input).seen, jti, now)
  {
  }

  /** A `jti` that got past the guard at input `i` is remembered for a TTL, whatever was dispatched for it. */
  lemma {:induction false} JtiIsRemembered(b: Config, inputs: seq<Input>, delay: Time, i: nat, now: Time)
    requires i < |inputs| && Paced(inputs, delay)
    requires inputs[i].Receive? && PassesGuard(b, Run(b, inputs[..i]), inputs[i].arrival)
    requires forall k :: i <= k < |inputs| && inputs[k].Receive? ==> inputs[k].arrival.markedAt <= now
    requires now < inputs[i].arrival.markedAt + b.settings.replayTtl
    ensures Remembers(Run(b, inputs).seen, Verified(b, inputs[i].arrival).set_.jti, now)
    decreases |inputs|
  {
    var n := |inputs| - 1;
    var front := inputs[..n];
    assert Run(b, inputs) == Step(b, Run(b, front), inputs[n]);
    if i < n {
      assert front[..i] == inputs[..i];
      assert forall k :: 0 <= k < n ==> front[k] == inputs[k];
      JtiIsRemembered(b, front, delay, i, now);
      if inputs[n].Receive? {
        assert inputs[i].arrival.markedAt <= inputs[n].arrival.guardAt <= inputs[n].arrival.markedAt;
      }
      StepRemembers(b, Run(b, front), inputs[n], Verified(b, inputs[i].arrival).set_.jti, now);
    } else {
      ProcessSeen(b, Run(b, front), inputs[n].arrival);
    }
  }

  /** Redelivery within the TTL is dropped: neither sessions nor decisions change. */
  lemma RedeliveryIsDropped(b: Config, inputs: seq<Input>, delay: Time, i: nat, again: Arrival)
    requires i < |inputs| && Paced(inputs + [Receive(again)], delay)
    requires inputs[i].Receive? && PassesGuard(b, Run(b, inputs[..i]), inputs[i].arrival)
    requires Verified(b, again).Accepted? && Verified(b, again).set_.jti == Verified(b, inputs[i].arrival).set_.jti
    requires again.guardAt < inputs[i].arrival.markedAt + b.settings.replayTtl
    ensures Process(b, Run(b, inputs), again).1 == ReplayDropped
    ensures Process(b, Run(b, inputs), again).0.store == Run(b, inputs).store
    ensures Process(b, Run(b, inputs), again).0.cache == Run(b, inputs).cache
  {
    var all := inputs + [Receive(again)];
    assert all[|inputs|] == Receive(again);
    assert forall k :: 0 <= k < |inputs| ==> all[k] == inputs[k];
    JtiIsRemembered(b, inputs, delay, i, again.guardAt);
  }

  /** With a long enough TTL no token gets past the guard twice, on any run of the whole bridge. */
  lemma NoTokenTwice(b: Config, inputs: seq<Input>, delay: Time, i: nat, j: nat)
    requires b.settings.replayTtl > b.settings.maxAge + b.settings.skew + delay
    requires i < j < |inputs| && Paced(inputs, delay)
    requires inputs[i].Receive? && PassesGuard(b, Run(b, inputs[..i]), inputs[i].arrival)
    requires inputs[j].Receive? && inputs[j].arrival.token == inputs[i].arrival.token
    ensures !PassesGuard(b, Run(b, inputs[..j]), inputs[j].arrival)
  {
    var a1, a2 := inputs[i].arrival, inputs[j].arrival;
    AcceptanceWindow(a1.token, b.registered, a1.keyFound, a1.decodedAt, a1.checkedAt, b.settings);
    AcceptanceWindow(a2.token, b.registered, a2.keyFound, a2.decodedAt, a2.checkedAt, b.settings);
    if Verified(b, a2).Accepted? {
      var before := inputs[..j];
      assert before[..i] == inputs[..i];
      assert forall k :: 0 <= k < j ==> before[k] == inputs[k];
      JtiIsRemembered(b, before, delay, i, a2.guardAt);
    }
  }
}
