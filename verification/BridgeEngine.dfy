/**
  The whole bridge as one state machine: replay guard, correlation store and
  decision cache, driven by SETs, by BIG-IP's session lifecycle and by reads.
 */
module BridgeEngine {
  import opened Models
  import opened SetVerifier
  import opened ReplayMemory
  import opened Enforcement
  import opened DispatchLaws
  import I = CorrelationIndexes
  import D = DecisionCache
  import K = SubjectKeys
  import O = OrderIndependence

  datatype Config = Config(
    registered: set<string>,
    settings: Settings,
    paths: map<EventType, EnforcementPath>,
    codec: K.Codec)

  datatype State = State(seen: Seen, store: I.Indexes, cache: D.Records)

  const START := State(map[], I.EMPTY, map[])

  /** One background task: the token, the clock at each step, and what BIG-IP will answer. */
  datatype Arrival = Arrival(
    token: Token,
    keyFound: bool,
    decodedAt: Time,
    checkedAt: Time,
    guardAt: Time,
    markedAt: Time,
    eventAt: nat -> Time,
    kill: Oracle)

  datatype Outcome =
    | VerificationFailed(why: Refusal)
    | ReplayDropped
    | Unexpected
    | Done(summary: Summary)

  function Verified(b: Config, a: Arrival): Verdict {
    VerifySet(a.token, b.registered, a.keyFound, a.decodedAt, a.checkedAt, b.settings)
  }

  function EventsOf(set_: SecurityEventToken, a: Arrival): (events: seq<TimedEvent>)
    ensures |events| == |set_.events|
    ensures forall i :: 0 <= i < |events| ==> events[i] == TimedEvent(set_.events[i], a.eventAt(i))
  {
    seq(|set_.events|, i requires 0 <= i < |set_.events| => TimedEvent(set_.events[i], a.eventAt(i)))
  }

  function EnvOf(b: Config, a: Arrival): Env {
    Env(b.paths, b.settings.correlationTtl, a.kill)
  }

  /** The SET is verified and its `jti` is new: it gets past the guard. */
  predicate PassesGuard(b: Config, st: State, a: Arrival) {
    Verified(b, a).Accepted? && !Remembers(st.seen, Verified(b, a).set_.jti, a.guardAt)
  }

  function Process(b: Config, st: State, a: Arrival): (State, Outcome) {
    match Verified(b, a)
    case Refused(why) => (st, VerificationFailed(why))
    case Raised => (st, Unexpected)
    case Accepted(set_) =>
      var swept := Swept(st.seen, a.guardAt);
      if Remembers(st.seen, set_.jti, a.guardAt) then (st.(seen := swept), ReplayDropped)
      else
        var seen := Mark(swept, set_.jti, a.markedAt, b.settings.replayTtl);
        var key := if IsSubject(set_.subId) then K.CorrelationKey(set_.subId, b.codec) else None;
        if key.None? then (st.(seen := seen), Unexpected)
        else
          var run := Dispatch(st.store, st.cache, EventsOf(set_, a), key.value, EnvOf(b, a));
          (State(seen, run.store, run.cache),
           if run.raised then Unexpected else Done(Summarize(run.reports, key.value)))
  }

  datatype Input =
    | Receive(arrival: Arrival)
    | RegisterSession(subject: Json, sid: string, device: Option<string>, username: Option<string>, at: Time)
    | DeregisterSession(sid: string)
    | LookupSessions(subjectKey: string, at: Time)
    | ReadDecision(subjectKey: string, at: Time)

  /** None where the registration is refused or raises. */
  function RecordOf(b: Config, input: Input): (r: Option<CorrelationRecord>)
    requires input.RegisterSession?
    ensures r.Some? ==> r.value.subjectKey != ""
  {
    var key := if IsSubject(input.subject) then K.CorrelationKey(input.subject, b.codec) else None;
    if key.None? then None
    else Some(CorrelationRecord(key.value, input.sid, input.device, input.username, input.at))
  }

  function Step(b: Config, st: State, input: Input): State {
    match input
    case Receive(a) => Process(b, st, a).0
    case RegisterSession(_, _, _, _, _) =>
      var r := RecordOf(b, input);
      if r.None? then st else st.(store := I.Register(st.store, r.value))
    case DeregisterSession(sid) => st.(store := I.Deregister(st.store, sid))
    case LookupSessions(s, at) => st.(store := I.Sweep(st.store, s, at, b.settings.correlationTtl))
    case ReadDecision(s, at) => st.(cache := D.Evict(st.cache, s, at, b.settings.decisionTtl))
  }

  function Run(b: Config, inputs: seq<Input>): State {
    if inputs == [] then START else Step(b, Run(b, inputs[..|inputs| - 1]), inputs[|inputs| - 1])
  }

  // ----- Which SETs were dispatched -----

  /** Input `i` is a SET that was verified, got past the guard and was dispatched for subject `s`. */
  ghost predicate DispatchedFor(b: Config, inputs: seq<Input>, i: nat, s: string)
    requires i < |inputs|
  {
    && inputs[i].Receive?
    && PassesGuard(b, Run(b, inputs[..i]), inputs[i].arrival)
    && IsSubject(Verified(b, inputs[i].arrival).set_.subId)
    && K.CorrelationKey(Verified(b, inputs[i].arrival).set_.subId, b.codec) == Some(s)
  }

  /** Input `i` carries an event of the signal's owning type that gives the signal the value `v`. */
  ghost predicate Gives(b: Config, inputs: seq<Input>, i: nat, s: string, signal: O.Signal, v: Option<Json>)
    requires i < |inputs|
  {
    && DispatchedFor(b, inputs, i, s)
    && exists te :: te in EventsOf(Verified(b, inputs[i].arrival).set_, inputs[i].arrival)
         && O.Feeds(te, signal, EnvOf(b, inputs[i].arrival))
         && O.SignalIn(signal, te.event.payload) == v
  }

  /** A signal after a SET, complete or not, was there before or comes from one of its events. */
  lemma {:induction false} DispatchSignal(
    st: I.Indexes, cache: D.Records, events: seq<TimedEvent>, s: string, env: Env, signal: O.Signal)
    ensures var before, after := O.CachedSignal(signal, D.Lookup(cache, s)),
                                 O.CachedSignal(signal, D.Lookup(Dispatch(st, cache, events, s, env).cache, s));
            || after == before
            || exists te :: te in events && O.Feeds(te, signal, env)
                 && O.SignalIn(signal, te.event.payload) == after
  {
    if events != [] {
      var front, te := events[..|events| - 1], events[|events| - 1];
      assert events == front + [te];
      DispatchSignal(st, cache, front, s, env, signal);
      var run, next := Dispatch(st, cache, front, s, env), Dispatch(st, cache, events, s, env);
      assert te in events && forall x :: x in front ==> x in events;
      var r := DecisionRecordFor(te.event, s, te.at);
      if !run.raised && PathOf(env.paths, te.event.kind) == Continuous && r.Some? && !D.Refuses(run.cache, r.value) {
        O.MergeSignal(signal, D.Lookup(run.cache, s), r.value);
        assert D.Lookup(next.cache, s) == Some(D.Merge(D.Lookup(run.cache, s), r.value));
        O.OnlyTheOwnerSets(signal, te.event, s, te.at);
      } else {
        assert next.cache == run.cache;
      }
    }
  }

  /**
    Provenance of decisions: every cached signal value was given by its owning
    event type, in a SET about that subject that was verified and got past the guard.
   */
  lemma {:induction false} SignalProvenance(b: Config, inputs: seq<Input>, s: string, signal: O.Signal)
    requires O.CachedSignal(signal, D.Lookup(Run(b, inputs).cache, s)).Some?
    ensures exists i: nat :: i < |inputs| &&
              Gives(b, inputs, i, s, signal, O.CachedSignal(signal, D.Lookup(Run(b, inputs).cache, s)))
  {
    var n := |inputs| - 1;
    var front, input := inputs[..n], inputs[n];
    var st := Run(b, front);
    var v := O.CachedSignal(signal, D.Lookup(Run(b, inputs).cache, s));
    if v == O.CachedSignal(signal, D.Lookup(st.cache, s)) {
      SignalProvenance(b, front, s, signal);
      var i: nat :| i < n && Gives(b, front, i, s, signal, v);
      GivesExtends(b, front, inputs, i, s, signal, v);
    } else {
      LastInputGives(b, inputs, s, signal);
    }
  }

  lemma GivesExtends(
    b: Config, front: seq<Input>, inputs: seq<Input>, i: nat, s: string, signal: O.Signal, v: Option<Json>)
    requires i < |front| < |inputs| && front == inputs[..|front|] && Gives(b, front, i, s, signal, v)
    ensures Gives(b, inputs, i, s, signal, v)
  {
    assert front[..i] == inputs[..i] && front[i] == inputs[i];
  }

  /** The cache after a background task: untouched, or what dispatching the SET left. */
  lemma ProcessCache(b: Config, st: State, a: Arrival)
    ensures Process(b, st, a).0.cache != st.cache ==>
              && PassesGuard(b, st, a)
              && var set_ := Verified(b, a).set_;
                 && IsSubject(set_.subId) && K.CorrelationKey(set_.subId, b.codec).Some?
                 && var key := K.CorrelationKey(set_.subId, b.codec).value;
                    Process(b, st, a).0.cache == Dispatch(st.store, st.cache, EventsOf(set_, a), key, EnvOf(b, a)).cache
  {
  }

  lemma LastInputGives(b: Config, inputs: seq<Input>, s: string, signal: O.Signal)
    requires inputs != []
    requires O.CachedSignal(signal, D.Lookup(Run(b, inputs).cache, s)).Some?
    requires O.CachedSignal(signal, D.Lookup(Run(b, inputs).cache, s)) !=
             O.CachedSignal(signal, D.Lookup(Run(b, inputs[..|inputs| - 1]).cache, s))
    ensures Gives(b, inputs, |inputs| - 1, s, signal, O.CachedSignal(signal, D.Lookup(Run(b, inputs).cache, s)))
  {
    var st, input := Run(b, inputs[..|inputs| - 1]), inputs[|inputs| - 1];
    assert input.Receive?;
    var a := input.arrival;
    ProcessCache(b, st, a);
    var set_ := Verified(b, a).set_;
    var key := K.CorrelationKey(set_.subId, b.codec).value;
    if key != s {
      CacheOfOthers(st.store, st.cache, EventsOf(set_, a), key, EnvOf(b, a), s);
    }
    DispatchSignal(st.store, st.cache, EventsOf(set_, a), s, EnvOf(b, a), signal);
  }
}
