/** The bridge input by input: what each step does, what a SET ends in, and how long things last. */
module BridgeEffects {
  import opened Models
  import opened SetVerifier
  import opened Enforcement
  import opened DispatchLaws
  import opened BridgeEngine
  import opened BridgeLaws
  import I = CorrelationIndexes
  import D = DecisionCache
  import K = SubjectKeys
  import O = OrderIndependence

  // ----- Outcomes -----

  /** What a SET ends in, and what the guard knows afterwards. */
  lemma OutcomeIs(b: Config, st: State, a: Arrival)
    ensures var (after, outcome) := Process(b, st, a);
            && (!Genuine(b, a) ==> after == st)
            && (outcome.VerificationFailed? <==>
                  && !Genuine(b, a)
                  && !VerifySet(a.token, b.registered, a.keyFound, a.decodedAt, a.checkedAt, b.settings).Raised?)
            && (outcome == ReplayDropped <==> Genuine(b, a) && !IsNew(st, a))
            && (outcome == ReplayDropped ==> after.store == st.store && after.cache == st.cache)
            && (outcome.Done? ==> Genuine(b, a) && IsNew(st, a) && SubjectOf(b, a).Some?)
            && (Genuine(b, a) && IsNew(st, a) && SubjectOf(b, a).None? ==>
                  outcome == Unexpected && after.store == st.store && after.cache == st.cache)
            && (Genuine(b, a) ==>
                  forall jti :: jti in after.seen <==>
                    (jti in st.seen && a.guardAt < st.seen[jti]) || (IsNew(st, a) && jti == a.token.jti))
            && (Genuine(b, a) && IsNew(st, a) ==> after.seen[a.token.jti] == a.markedAt + b.settings.replayTtl)
            && (forall jti :: jti in after.seen && jti != a.token.jti ==>
                  jti in st.seen && after.seen[jti] == st.seen[jti])
  {
    GuardIff(b, st, a);
  }

  /** With legal payloads and no crash of a kill call, a genuine, new SET with a subject key is carried out. */
  lemma LegalSetIsDone(b: Config, st: State, a: Arrival)
    requires Genuine(b, a) && IsNew(st, a) && SubjectOf(b, a).Some?
    requires forall kind, sid :: a.kill(kind, sid) != Crashes
    requires forall e :: e in a.token.events ==> O.LegalPayload(e)
    requires SubjectOf(b, a).value in st.cache ==> O.LegalRecord(st.cache[SubjectOf(b, a).value])
    ensures Process(b, st, a).1.Done?
  {
    ProcessDispatches(b, st, a);
    assert forall te :: te in TimedEvents(a) ==> te.event in a.token.events;
    O.LegalSetsDoNotRaise(st.store, st.cache, TimedEvents(a), SubjectOf(b, a).value,
                          Env(b.paths, b.settings.correlationTtl, a.kill));
  }

  ghost predicate LegalInputs(inputs: seq<Input>) {
    forall i :: 0 <= i < |inputs| && inputs[i].Receive? ==>
      && (forall e :: e in inputs[i].arrival.token.events ==> O.LegalPayload(e))
      && forall kind, sid :: inputs[i].arrival.kill(kind, sid) != Crashes
  }

  ghost predicate LegalCache(cache: D.Records) {
    forall s :: s in cache ==> O.LegalRecord(cache[s])
  }

  lemma HandleKeepsLegal(run: SetRun, te: TimedEvent, s: string, env: Env)
    requires LegalCache(run.cache) && O.LegalPayload(te.event)
    ensures LegalCache(HandleOne(run, te, s, env).cache)
  {
    O.LegalWrites(te, s);
  }

  lemma {:induction false} DispatchKeepsLegal(
    st: I.Indexes, cache: D.Records, events: seq<TimedEvent>, s: string, env: Env)
    requires LegalCache(cache) && forall te :: te in events ==> O.LegalPayload(te.event)
    ensures LegalCache(Dispatch(st, cache, events, s, env).cache)
  {
    if events != [] {
      var front, te := events[..|events| - 1], events[|events| - 1];
      assert events == front + [te];
      assert te in events && forall x :: x in front ==> x in events;
      DispatchKeepsLegal(st, cache, front, s, env);
      HandleKeepsLegal(Dispatch(st, cache, front, s, env), te, s, env);
    }
  }

  lemma {:induction false} RunKeepsLegal(b: Config, inputs: seq<Input>)
    requires LegalInputs(inputs)
    ensures LegalCache(Run(b, inputs).cache)
  {
    if inputs != [] {
      var front, input := inputs[..|inputs| - 1], inputs[|inputs| - 1];
      RunKeepsLegal(b, front);
      if input.Receive? {
        var st, a := Run(b, front), input.arrival;
        ProcessCache(b, st, a);
        if Process(b, st, a).0.cache != st.cache {
          var events := EventsOf(Verified(b, a).set_, a);
          GuardIff(b, st, a);
          assert forall te :: te in events ==> te.event in a.token.events;
          DispatchKeepsLegal(st.store, st.cache, events, SubjectOf(b, a).value, EnvOf(b, a));
        }
      }
    }
  }

  /** On every run of SETs with legal payloads, each genuine, new one with a subject key is carried out. */
  lemma LegalRunsAreDone(b: Config, inputs: seq<Input>, a: Arrival)
    requires LegalInputs(inputs + [Receive(a)])
    requires Genuine(b, a) && IsNew(Run(b, inputs), a) && SubjectOf(b, a).Some?
    ensures Process(b, Run(b, inputs), a).1.Done?
  {
    var all := inputs + [Receive(a)];
    assert all[|inputs|] == Receive(a);
    assert forall i :: 0 <= i < |inputs| ==> all[i] == inputs[i];
    RunKeepsLegal(b, inputs);
    LegalSetIsDone(b, Run(b, inputs), a);
  }

  // ----- BIG-IP's requests -----

  /** A registration stores the record it was given, stamped with its time, under the subject's key. */
  lemma RegisterIs(
    b: Config, st: State, subject: Json, sid: string, device: Option<string>, username: Option<string>, at: Time)
    ensures var after := Step(b, st, RegisterSession(subject, sid, device, username, at));
            var key := if IsSubject(subject) then K.CorrelationKey(subject, b.codec) else None;
            && after.seen == st.seen && after.cache == st.cache
            && after.store == match key
                              case None => st.store
                              case Some(s) => I.Register(st.store, CorrelationRecord(s, sid, device, username, at))
  {
  }

  /** Closing a session removes exactly its record. */
  lemma CloseIs(b: Config, st: State, sid: string, s: string, r: CorrelationRecord)
    requires I.Consistent(st.store)
    ensures var after := Step(b, st, DeregisterSession(sid));
            && after.seen == st.seen && after.cache == st.cache
            && (r in I.Bucket(after.store, s) <==> r in I.Bucket(st.store, s) && r.apmSessionId != sid)
  {
    I.DeregisterIsWithout(st.store, sid);
    if sid in st.store.owner {
      I.WithoutBuckets(st.store, st.store.owner[sid], {sid});
    }
  }

  /** A lookup removes exactly the subject's records that are older than the configured TTL. */
  lemma LookupIs(b: Config, st: State, s: string, at: Time, other: string, r: CorrelationRecord)
    requires I.Consistent(st.store)
    ensures var after := Step(b, st, LookupSessions(s, at));
            && after.seen == st.seen && after.cache == st.cache
            && (r in I.Bucket(after.store, other) <==>
                  && r in I.Bucket(st.store, other)
                  && !(other == s && r.registeredAt < at - b.settings.correlationTtl))
  {
    I.TableSweep(st.store, s, at, b.settings.correlationTtl);
    I.TableEntries(st.store);
    I.TableEntries(I.Sweep(st.store, s, at, b.settings.correlationTtl));
  }

  /** Reading a decision removes exactly the subject's record if it is older than the configured TTL. */
  lemma ReadIs(b: Config, st: State, s: string, at: Time, other: string)
    ensures var after := Step(b, st, ReadDecision(s, at));
            && after.seen == st.seen && after.store == st.store
            && (other in after.cache <==>
                  && other in st.cache
                  && (other == s ==> at - st.cache[other].updatedAt <= b.settings.decisionTtl))
            && (other in after.cache ==> after.cache[other] == st.cache[other])
  {
  }

  // ----- How long a session lasts -----

  /** No later input closes or re-registers the session, looks it up after it expired, or is a SET that removed it. */
  ghost predicate LeftAlone(b: Config, inputs: seq<Input>, i: nat, r: CorrelationRecord) {
    forall j :: i < j < |inputs| ==> LeavesAlone(b, Run(b, inputs[..j]), inputs[j], r)
  }

  ghost predicate LeavesAlone(b: Config, st: State, input: Input, r: CorrelationRecord) {
    && input != DeregisterSession(r.apmSessionId)
    && !(input.RegisterSession? && input.sid == r.apmSessionId)
    && !(input.LookupSessions? && input.subjectKey == r.subjectKey
         && r.registeredAt < input.at - b.settings.correlationTtl)
    && !RemovedBySet(b, st, input, r)
  }

  /** A session that BIG-IP registered stays listed under its subject's key while it is left alone. */
  lemma {:induction false} RegisteredIsListed(
    b: Config, inputs: seq<Input>, i: nat, subject: Json, sid: string, device: Option<string>,
    username: Option<string>, at: Time)
    requires LawfulInputs(b, inputs) && i < |inputs|
    requires inputs[i] == RegisterSession(subject, sid, device, username, at)
    requires IsSubject(subject) && K.CorrelationKey(subject, b.codec).Some?
    requires var s := K.CorrelationKey(subject, b.codec).value;
             LeftAlone(b, inputs, i, CorrelationRecord(s, sid, device, username, at))
    ensures var s := K.CorrelationKey(subject, b.codec).value;
            CorrelationRecord(s, sid, device, username, at) in I.Bucket(Run(b, inputs).store, s)
    decreases |inputs|
  {
    var n := |inputs| - 1;
    var front, s := inputs[..n], K.CorrelationKey(subject, b.codec).value;
    var r := CorrelationRecord(s, sid, device, username, at);
    if i == n {
      RegisterIs(b, Run(b, front), subject, sid, device, username, at);
      RunConsistent(b, front);
      NewlyListed(Run(b, front).store, r);
    } else {
      LeftAloneBefore(b, inputs, i, r);
      RegisteredIsListed(b, front, i, subject, sid, device, username, at);
      assert inputs[..n] == front && LeavesAlone(b, Run(b, inputs[..n]), inputs[n], r);
      if r !in I.Bucket(Run(b, inputs).store, s) {
        SessionProvenance(b, front, inputs[n], r);
      }
    }
  }

  lemma NewlyListed(st: I.Indexes, r: CorrelationRecord)
    requires I.Backed(st)
    ensures r in I.Bucket(I.Register(st, r), r.subjectKey)
  {
  }

  lemma LeftAloneBefore(b: Config, inputs: seq<Input>, i: nat, r: CorrelationRecord)
    requires inputs != [] && LeftAlone(b, inputs, i, r)
    ensures LeftAlone(b, inputs[..|inputs| - 1], i, r)
  {
    var front := inputs[..|inputs| - 1];
    forall j | i < j < |front|
      ensures LeavesAlone(b, Run(b, front[..j]), front[j], r)
    {
      assert front[..j] == inputs[..j] && LeavesAlone(b, Run(b, inputs[..j]), inputs[j], r);
    }
  }

  /**
    A genuine, new SET with an event on the fast path, about the subject under which
    a session was registered that is left alone since: if it does not raise and BIG-IP
    kills the session, it is no longer listed.
   */
  lemma RegisteredIsKilled(
    b: Config, inputs: seq<Input>, i: nat, subject: Json, sid: string, device: Option<string>,
    username: Option<string>, at: Time, a: Arrival, k: nat)
    requires LawfulInputs(b, inputs) && i < |inputs|
    requires inputs[i] == RegisterSession(subject, sid, device, username, at)
    requires IsSubject(subject) && K.CorrelationKey(subject, b.codec).Some?
    requires var s := K.CorrelationKey(subject, b.codec).value;
             LeftAlone(b, inputs, i, CorrelationRecord(s, sid, device, username, at))
    requires Genuine(b, a) && IsNew(Run(b, inputs), a) && Process(b, Run(b, inputs), a).1 != Unexpected
    requires SubjectOf(b, a) == K.CorrelationKey(subject, b.codec)
    requires k < |a.token.events| && TakesPath(b, a.token.events[k].kind, Fast)
    requires at >= a.eventAt(k) - b.settings.correlationTtl && a.kill(a.token.events[k].kind, sid) == Killed
    ensures var s, st := K.CorrelationKey(subject, b.codec).value, Run(b, inputs);
            var r := CorrelationRecord(s, sid, device, username, at);
            r in I.Bucket(st.store, s) && r !in I.Bucket(Process(b, st, a).0.store, s)
  {
    var s, st := K.CorrelationKey(subject, b.codec).value, Run(b, inputs);
    var r := CorrelationRecord(s, sid, device, username, at);
    RegisteredIsListed(b, inputs, i, subject, sid, device, username, at);
    RunConsistent(b, inputs);
    EffectOnSessions(b, st, a, r);
    assert !SparedAt(b, a, k, r);
  }

  // ----- How long a decision lasts -----

  /** The cached record is stamped by the last event that wrote to it. */
  lemma {:induction false} LastStamp(
    st: I.Indexes, cache: D.Records, events: seq<TimedEvent>, s: string, env: Env, j: nat)
    requires !Dispatch(st, cache, events, s, env).raised
    requires j < |events| && PathOf(env.paths, events[j].event.kind) == Continuous
    requires forall k :: j < k < |events| ==> PathOf(env.paths, events[k].event.kind) != Continuous
    ensures var after := Dispatch(st, cache, events, s, env).cache;
            s in after && after[s].updatedAt == events[j].at
    decreases |events|
  {
    var front := events[..|events| - 1];
    if j < |front| {
      LastStamp(st, cache, front, s, env, j);
    }
  }

  /** After such a SET a decision is read for the configured TTL from its last continuous event, and no longer. */
  lemma DecisionLasts(b: Config, st: State, a: Arrival, j: nat, now: Time)
    requires Genuine(b, a) && IsNew(st, a) && SubjectOf(b, a).Some? && Process(b, st, a).1 != Unexpected
    requires j < |a.token.events| && TakesPath(b, a.token.events[j].kind, Continuous)
    requires forall k :: j < k < |a.token.events| ==> !TakesPath(b, a.token.events[k].kind, Continuous)
    ensures var after, s := Process(b, st, a).0, SubjectOf(b, a).value;
            && s in after.cache && after.cache[s].updatedAt == a.eventAt(j)
            && (s in Step(b, after, ReadDecision(s, now)).cache <==> now <= a.eventAt(j) + b.settings.decisionTtl)
  {
    var s, env := SubjectOf(b, a).value, Env(b.paths, b.settings.correlationTtl, a.kill);
    ProcessDispatches(b, st, a);
    LastStamp(st.store, st.cache, TimedEvents(a), s, env, j);
    ReadIs(b, Process(b, st, a).0, s, now, s);
  }

  lemma SignalIsCached(b: Config, st: State, a: Arrival, i: nat, signal: O.Signal, v: Json)
    requires CarriedOut(b, st, a, i)
    requires a.token.events[i].kind == O.SignalOwner(signal)
    requires O.SignalIn(signal, a.token.events[i].payload) == Some(v)
    ensures var after, s := Process(b, st, a).0.cache, SubjectOf(b, a).value;
            s in after && O.SignalOf(signal, after[s]) == Some(v)
  {
    EffectOnSignals(b, st, a, signal, i);
  }

  /** Event `i` of the SET writes a decision, and the SET does not raise. */
  predicate CarriedOut(b: Config, st: State, a: Arrival, i: nat) {
    && Genuine(b, a) && IsNew(st, a) && SubjectOf(b, a).Some? && Process(b, st, a).1 != Unexpected
    && DistinctEvents(a) && i < |a.token.events| && TakesPath(b, a.token.events[i].kind, Continuous)
  }

  /** The risk level that is cached is the event's current level. */
  lemma RiskIsCached(b: Config, st: State, a: Arrival, i: nat, v: Json)
    requires CarriedOut(b, st, a, i) && a.token.events[i].kind == RiskLevelChange
    requires Get(a.token.events[i].payload, "current_level") == Some(v) && v != Null
    ensures var after, s := Process(b, st, a).0.cache, SubjectOf(b, a).value;
            s in after && after[s].riskLevel == Some(v)
  {
    SignalIsCached(b, st, a, i, O.Risk, v);
  }

  /** A device is compliant if the event's current status says so, in that word. */
  lemma ComplianceIsCached(b: Config, st: State, a: Arrival, i: nat)
    requires CarriedOut(b, st, a, i) && a.token.events[i].kind == DeviceComplianceChange
    ensures var after, s := Process(b, st, a).0.cache, SubjectOf(b, a).value;
            && s in after
            && after[s].deviceCompliant ==
                 Some(Get(a.token.events[i].payload, "current_status") == Some(Str("compliant")))
  {
    var compliant := Get(a.token.events[i].payload, "current_status") == Some(Str("compliant"));
    SignalIsCached(b, st, a, i, O.Compliance, Bool(compliant));
  }

  /** The assurance level that is cached is the event's current level. */
  lemma AssuranceIsCached(b: Config, st: State, a: Arrival, i: nat, v: Json)
    requires CarriedOut(b, st, a, i) && a.token.events[i].kind == AssuranceLevelChange
    requires Get(a.token.events[i].payload, "current_level") == Some(v) && v != Null
    ensures var after, s := Process(b, st, a).0.cache, SubjectOf(b, a).value;
            s in after && after[s].assuranceLevel == Some(v)
  {
    SignalIsCached(b, st, a, i, O.AssuranceLevel, v);
  }

  /** The changed claims that are cached are the event's claims. */
  lemma ClaimsAreCached(b: Config, st: State, a: Arrival, i: nat, v: Json)
    requires CarriedOut(b, st, a, i) && a.token.events[i].kind == TokenClaimsChange
    requires Get(a.token.events[i].payload, "claims") == Some(v) && v != Null
    ensures var after, s := Process(b, st, a).0.cache, SubjectOf(b, a).value;
            s in after && after[s].changedClaims == Some(v)
  {
    SignalIsCached(b, st, a, i, O.Claims, v);
  }

  /** With the default settings sessions last a day from their registration, and decisions five minutes. */
  lemma DefaultLifetimes(b: Config, st: State, s: string, at: Time, r: CorrelationRecord)
    requires b.settings == DEFAULTS && I.Consistent(st.store)
    ensures r in I.Bucket(Step(b, st, LookupSessions(s, at)).store, s) <==>
            r in I.Bucket(st.store, s) && at <= r.registeredAt + 86400.0
    ensures s in Step(b, st, ReadDecision(s, at)).cache <==>
            s in st.cache && at <= st.cache[s].updatedAt + 300.0
  {
    LookupIs(b, st, s, at, s, r);
    ReadIs(b, st, s, at, s);
  }
}
