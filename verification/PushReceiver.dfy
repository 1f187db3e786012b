/** The background task that verifies, guards and dispatches one SET over the live stores. */
module PushReceiver {
  import opened Models
  import opened SetVerifier
  import opened Enforcement
  import opened EnforcementRouter
  import opened InMemoryCorrelation
  import opened DecisionStores
  import G = ReplayGuard
  import E = BridgeEngine
  import K = SubjectKeys

  class Bridge {
    const config: E.Config
    const guard: G.ReplayGuard
    const correlation: InMemoryCorrelationStore
    const decisions: InMemoryDecisionCache

    ghost predicate Wired()
      reads this
    {
      guard.ttl == config.settings.replayTtl && correlation.ttl == config.settings.correlationTtl
    }

    ghost function State(): E.State
      reads this, guard.store, correlation, decisions
    {
      E.State(guard.store.entries, correlation.State(), decisions.records)
    }

    constructor (config: E.Config)
      ensures this.config == config && Wired() && State() == E.START
    {
      this.config := config;
      var store := new G.InMemoryReplayStore();
      guard := new G.ReplayGuard(store, config.settings.replayTtl);
      correlation := new InMemoryCorrelationStore(config.settings.correlationTtl);
      decisions := new InMemoryDecisionCache(config.settings.decisionTtl);
    }

    /** Nothing escapes: every exception ends in one of the outcomes, with the effects made so far. */
    method Process(a: E.Arrival) returns (outcome: E.Outcome)
      requires Wired()
      modifies guard.store, correlation, decisions
      ensures (State(), outcome) == E.Process(config, old(State()), a)
    {
      var verdict := VerifySet(a.token, config.registered, a.keyFound, a.decodedAt, a.checkedAt, config.settings);
      match verdict {
        case Refused(why) =>
          return E.VerificationFailed(why);
        case Raised =>
          return E.Unexpected;
        case Accepted(set_) =>
          var isNew := guard.CheckAndMark(set_.jti, a.guardAt, a.markedAt);
          if !isNew {
            return E.ReplayDropped;
          }
          var key := if IsSubject(set_.subId) then K.CorrelationKey(set_.subId, config.codec) else None;
          if key.None? {
            return E.Unexpected;
          }
          var events, env := E.EventsOf(set_, a), E.EnvOf(config, a);
          var summary, raised := HandleVerifiedSet(events, key.value, correlation, decisions, env);
          if raised {
            return E.Unexpected;
          }
          return E.Done(Summary(summary.kinds, summary.path, summary.subjectKey,
                                summary.sessionsTargeted, summary.sessionsTerminated));
      }
    }
  }
}
