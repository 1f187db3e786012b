# Verification of the SSF-APM bridge

A Dafny 4.11 model of the bridge's event-processing engine. A transmitter sends
security event tokens (SETs, RFC 8417). The bridge verifies each one, drops
replays of its `jti`, and dispatches its events: FAST events kill the subject's
APM sessions, CONTINUOUS events update a decision cache, the rest is only logged.
BIG-IP registers and closes sessions, and reads decisions.

The objects the source updates in place are classes whose methods are proved
equal to functions on plain states; the theorems are lemmas about those functions
and about runs of them. Time is `real`. Every clock reading is a parameter.

| file | what it holds |
|---|---|
| `Models.dfy` | events, sessions, decisions, JSON, settings |
| `CorrelationIndexes.dfy`, `InMemoryCorrelation.dfy` | the two in-memory indexes, their invariants, and the object |
| `RedisCorrelation.dfy`, `RedisStores.dfy` | the Redis commands and store, and its timed invariant |
| `SessionBackends.dfy`, `RedisHistory.dfy` | both correlation backends under the same operations; what each lists, from the operations alone |
| `DecisionCache.dfy`, `DecisionStores.dfy` | merging, both decision backends, and the objects |
| `ReplayMemory.dfy`, `ReplayGuard.dfy` | the guard under interleaved tasks, and the object |
| `SetVerifier.dfy`, `AtMostOnce.dfy` | the acceptance window and the exact at-most-once bound |
| `Enforcement.dfy` | what dispatching a SET does |
| `KillLoopLaws.dfy`, `DispatchLaws.dfy`, `OrderIndependence.dfy` | laws of one event, of one SET, and of the order of its events |
| `EnforcementRouter.dfy` | the dispatcher over live objects |
| `RedisEnforcement.dfy`, `RedisRouter.dfy` | the FAST events of a SET over the Redis correlation store, and the object |
| `CanonicalJson.dfy`, `SubjectKeys.dfy` | sorted JSON documents, and correlation keys |
| `BridgeEngine.dfy`, `BridgeLaws.dfy`, `BridgeEffects.dfy`, `PushReceiver.dfy` | the whole engine, its runs, what each input does, and the background task |
| `JwksCache.dfy`, `JwksManagers.dfy` | the JWKS client cache |
| `PollDelivery.dfy` | poll delivery (RFC 8936) |

## Where the code does not meet its own documentation

- `app/config.py:40-46` and the repository's README ask for a replay TTL of at
  least the maximum age. The future-`iat` leeway widens the window, so the exact
  bound is `ttl > max_age + skew + delay` (`AtMostOnce.AtMostOnceIff`). The default
  settings miss it (`AtMostOnce.DefaultsReplay`).
- The Redis correlation store is documented as having the same semantics. On runs
  where a session id keeps its subject, both backends list the same records younger
  than the TTL (`SessionBackends.SameYoungSessions`), and a whole lookup is the same
  exactly when Redis lists no record older than the TTL, and lists a record of
  exactly that age iff it is current (`RedisHistory.LookupsAgreeIff`). Redis lists an
  older record if later sessions of its subject kept the hash alive, and still lists
  it after its own deregistration if its reverse key had expired
  (`RedisHistory.RedisListsIff`, `SessionBackends.ExpiredReverseKeyIsNotForgotten`).
  A purge on Redis leaves no session exactly when every reverse key is still alive
  and names the subject (`RedisEnforcement.PurgeLeavesNoSessionIff`), and a SET can
  kill one session twice (`RedisEnforcement.KilledOnceIff`,
  `RedisEnforcement.OldSessionIsKilledTwice`).
- Cached decisions are documented as short-lived. In memory a write also merges
  into an expired record that nobody read since (`DecisionCache.StaleSignalResurfaces`).
  The backends agree throughout a run iff each write is clean, a test on the cached
  record (`DecisionCache.AgreeThroughoutIff`); values that DecisionRecord refuses part
  them, too (`DecisionCache.RefusedValueParts`).
- Every event of a SET is documented as dispatched independently. A payload value
  that DecisionRecord refuses makes a merge raise, so the order of the events matters
  and later ones are not reached (`OrderIndependence.RefusedValueStops`). No order
  raises exactly under the condition of `OrderIndependence.NoOrderRaisesIff`.
- A session id that moves to another subject breaks the agreement of the two
  in-memory indexes (`CorrelationIndexes.RegisterKeepsAgreementIff`,
  `CorrelationIndexes.MovedSessionIsLost`).
- Two different subjects are documented never to share a key. They do exactly when
  their identities are the same text, a '|' has moved between issuer and subject, or
  the fallback of an unknown format reads as an identifier (`SubjectKeys.SharedKeyIff`;
  examples are `SubjectKeys.PipeCollides`, `SubjectKeys.FormatCollides` and
  `SubjectKeys.ShownCollides`). Two issuers are safe for all subjects iff neither is the
  other one followed by a '|' (`SubjectKeys.SafeIssuersIff`), and two fallback subjects
  share a key iff they are the same document, or their digests collide
  (`SubjectKeys.FallbackKeysIff`).
- Every verification failure is meant to raise SetVerificationError. An `iat` that is
  an array or object, and claims the model refuses, escape it (`SetVerifier.RaisesIff`).

## Model

| member | source | states |
|---|---|---|
| `CorrelationIndexes.RegisterBacked` | app/correlation/store.py:35-37 | registering, even a moved session id, keeps every reverse entry backed by a forward entry and every bucket non-empty and keyed once |
| `CorrelationIndexes.DeregisterBacked` | app/correlation/store.py:39-44 | so does deregistering any id from any such state |
| `CorrelationIndexes.PutKnown` | app/correlation/store.py:36 | registering a known session id again replaces its record in place, so a bucket keeps its order |
| `CorrelationIndexes.PutNew` | app/correlation/store.py:36 | a new session id comes last in its bucket |
| `CorrelationIndexes.RunBacked` | app/correlation/store.py:35-55 | on every run of registrations, deregistrations and lookups each reverse entry has its forward entry |
| `CorrelationIndexes.RegisterKeepsAgreementIff` | app/correlation/store.py:35-37 | registering keeps the two indexes in full agreement iff the session id is new or keeps its (non-empty) subject |
| `CorrelationIndexes.DeregisterAllIsWithout` | app/correlation/store.py:39-55 | a loop of deregistrations removes exactly the listed sessions from both indexes, in bucket order, and deletes a bucket with its last session |
| `CorrelationIndexes.SweepIsWithout` | app/correlation/store.py:50-55 | the sweep loop removes exactly the expired sessions of the subject and keeps the indexes in exact agreement |
| `CorrelationIndexes.TableRegister` | app/correlation/store.py:35-37 | a lawful registration is one update of a map from session id to record |
| `CorrelationIndexes.TableDeregister` | app/correlation/store.py:39-44 | deregistering is one removal from that map |
| `CorrelationIndexes.TableSweep` | app/correlation/store.py:50-55 | sweeping removes exactly the subject's entries registered before now minus the TTL |
| `CorrelationIndexes.RunRefinesTable` | app/correlation/store.py:28-55 | on every lawful run the two indexes stay consistent and behave as that one map |
| `CorrelationIndexes.ConsistentThroughoutIff` | app/correlation/store.py:28-55 | the two indexes agree throughout a run iff no registration has an empty subject or a session id that belongs to another one |
| `CorrelationIndexes.LookupIsExact` | app/correlation/store.py:46-55 | a lookup lists, once each, exactly the subject's entries with `registered_at >= now - ttl` |
| `CorrelationIndexes.MovedSessionIsLost` | app/correlation/store.py:35-55 | without that discipline, looking up the first subject drops the second subject's live session and keeps the expired one |
| `InMemoryCorrelation.InMemoryCorrelationStore.Register` | app/correlation/store.py:35-37 | updates both dictionaries in place as specified |
| `InMemoryCorrelation.InMemoryCorrelationStore.Deregister` | app/correlation/store.py:39-44 | updates both dictionaries in place as specified, the empty subject key included |
| `InMemoryCorrelation.InMemoryCorrelationStore.SweepExpired` | app/correlation/store.py:50-55 | the loop that deregisters while it goes through the expired ids ends in the swept state |
| `InMemoryCorrelation.InMemoryCorrelationStore.SessionsFor` | app/correlation/store.py:46-48 | sweeps, then returns the bucket in insertion order |
| `RedisCorrelation.KeysAreDistinct` | app/correlation/store.py:66-70 | key names are injective, and subject keys never clash with session keys |
| `RedisCorrelation.TimedDeregister` | app/correlation/store.py:79-85 | deregistering keeps the timed invariant, the deletion of an emptied hash included |
| `RedisCorrelation.RunTimed` | app/correlation/store.py:72-85 | at every instant, after any commands and crashes inside `register`, a live reverse key names a live hash that holds the session and expires no earlier |
| `RedisCorrelation.DeregisterForgetsIff` | app/correlation/store.py:79-85 | Redis forgets a listed session iff its reverse key is live and names that subject |
| `RedisStores.RedisCorrelationStore.Register` | app/correlation/store.py:72-77 | issues HSET, EXPIRE and SET EX in this order |
| `RedisStores.RedisCorrelationStore.Deregister` | app/correlation/store.py:79-85 | looks up the reverse key; does nothing without it, else HDEL and DELETE |
| `RedisStores.RedisCorrelationStore.SessionsFor` | app/correlation/store.py:87-93 | returns one record for each field of the subject's live hash, in any order |
| `SessionBackends.WithinRun` | app/correlation/store.py:35-93 | on every run the Redis hash of a young in-memory record holds it and outlives it |
| `SessionBackends.MemoryWithinRedis` | app/correlation/store.py:35-93 | a young record that the in-memory store lists is listed by Redis, even once its reverse key has expired |
| `SessionBackends.RedisWithinMemory` | app/correlation/store.py:35-93 | on lawful runs a young record that Redis lists is listed by the in-memory store |
| `SessionBackends.SameYoungSessions` | app/correlation/store.py:58-93 | on lawful runs both backends list exactly the same records younger than the TTL |
| `SessionBackends.ExactAgeDiffers` | app/correlation/store.py:46-55 | at age exactly the TTL only the in-memory store lists a record |
| `SessionBackends.RedisOutlivesTtl` | app/correlation/store.py:72-93 | a later session of the same subject keeps an expired record listed in Redis only |
| `SessionBackends.ExpiredReverseKeyIsNotForgotten` | app/correlation/store.py:79-93 | such a session survives its own deregistration in Redis |
| `RedisHistory.LeaseIs` | app/correlation/store.py:72-85 | on every time-ordered run a reverse key is alive and names a subject iff the last operation about the session registered it there, less than a TTL ago |
| `RedisHistory.RedisListsIff` | app/correlation/store.py:72-93 | on every time-ordered run, moved session ids included, Redis lists exactly the records last registered for their session and subject, whose subject had no gap of a TTL or more between registrations since, and whose deregistration, if any, found the reverse key dead or naming another subject |
| `RedisHistory.MemoryListsIff` | app/correlation/store.py:35-55 | on lawful runs the in-memory store lists exactly the records, no older than the TTL, that the last operation about their session registered |
| `RedisHistory.LookupsAgreeIff` | app/correlation/store.py:58-93 | on lawful runs the two lookups of a subject agree iff Redis lists no record of it older than the TTL, and lists one of exactly that age iff it is current |
| `DecisionCache.MergeAllConcat` | app/decision/cache.py:65-74 | merging is associative over histories |
| `DecisionCache.MergeAllIsHistory` | app/decision/cache.py:65-74 | every field of a merged history is its last non-None write, stamped by the last write: no later None erases a signal |
| `DecisionCache.RunIsEpoch` | app/decision/cache.py:28-41 | the in-memory record is the merge of the writes, without those that were refused, since the last `get` that evicted |
| `DecisionCache.RefusesIff` | app/models.py:168-174 | a merge is refused iff, value by value, it has a risk level other than LOW, MEDIUM or HIGH, an assurance level that is no text, claims that are no object, or a given reason that is no text |
| `DecisionCache.RedisRefusesIff` | app/decision/cache.py:51-62 | Redis refuses, besides, what it cannot read back, by the same values |
| `DecisionCache.CachedRecordIsHistory` | app/decision/cache.py:28-41 | field by field, it holds the last non-None write of that epoch |
| `DecisionCache.WindowExists` | app/decision/cache.py:51-62 | there is exactly one longest suffix of writes whose gaps stay below the TTL |
| `DecisionCache.RedisReadsWindow` | app/decision/cache.py:51-62 | a Redis `get` finds the merge of exactly the longest suffix of writes that were not refused whose gaps, and the gap to the read, are below the TTL, and None if it is empty |
| `DecisionCache.RunCovers` | app/decision/cache.py:28-74 | on every run in which each write is refused by both backends or by neither, a live Redis record is covered by the in-memory record, with the same stamp |
| `DecisionCache.CoverThroughoutIff` | app/decision/cache.py:28-74 | with distinct time stamps, that holds after each operation iff each write is refused by both backends or by neither |
| `DecisionCache.AdmittedIsAlike` | app/decision/cache.py:65-74 | a run of values that DecisionRecord admits is such a run: nothing is refused |
| `DecisionCache.RefusedValueParts` | app/decision/cache.py:28-74 | a refused value makes memory refuse, once expired, what Redis takes, and Redis refuse, while live, what memory takes |
| `DecisionCache.RedisWithinMemory` | app/decision/cache.py:28-74 | on such runs, whatever Redis finds, the in-memory cache returns with the same stamp and all its non-None fields |
| `DecisionCache.UpsertAgreesIff` | app/decision/cache.py:28-74 | backends in agreement stay so after a write, refused or not, iff an expired, unread in-memory record is fully overwritten by an admitted one, and a live one is admitted or the merge is refused |
| `DecisionCache.AgreeThroughoutIff` | app/decision/cache.py:28-74 | over every stamped run, refused writes included, the backends agree after each operation iff each write meets that test |
| `DecisionCache.CleanRunReadsAlike` | app/decision/cache.py:34-62 | after such a run every read at an age other than the TTL finds the same in both, and the one from Redis raises iff that is not admitted |
| `DecisionCache.ExactAgeDiffers` | app/decision/cache.py:34-41 | at age exactly the TTL only the in-memory cache still returns a record, and it does not later |
| `DecisionCache.StaleSignalResurfaces` | app/decision/cache.py:28-32 | a risk level older than the TTL is in memory again after the next write, merged or still there because that was refused, and not in Redis |
| `DecisionStores.InMemoryDecisionCache.Upsert` | app/decision/cache.py:28-32 | merges into whatever record is there, expired or not; where the merged record is refused it raises and stores nothing |
| `DecisionStores.InMemoryDecisionCache.Get` | app/decision/cache.py:34-41 | evicts and returns None when the record is older than the TTL, else returns it |
| `DecisionStores.RedisDecisionCache.Upsert` | app/decision/cache.py:51-55 | merges into the live record only and restarts its TTL; where the live or the merged record is refused it raises and stores nothing |
| `DecisionStores.RedisDecisionCache.Get` | app/decision/cache.py:57-62 | returns the live record, and raises if it is refused |
| `ReplayMemory.StoresAgree` | app/replay_guard.py:24-46 | the swept in-memory store and the self-expiring Redis one give every check the same answer |
| `ReplayMemory.RemembersIff` | app/replay_guard.py:24-35 | after any interleaving the guard knows exactly the `jti`s marked less than a TTL ago |
| `ReplayMemory.GuardExcludes` | app/replay_guard.py:57-60 | two tasks pass for one `jti` only if their check-to-mark intervals overlap or the later check is at least a TTL after the earlier mark |
| `ReplayMemory.OverlapPassesTwice` | app/replay_guard.py:57-60 | overlapping tasks can both pass |
| `ReplayGuard.InMemoryReplayStore.Sweep` | app/replay_guard.py:24-28 | the deletion loop leaves exactly the unexpired entries |
| `ReplayGuard.InMemoryReplayStore.Seen` | app/replay_guard.py:30-32 | true iff the `jti` has an unexpired entry |
| `ReplayGuard.InMemoryReplayStore.Mark` | app/replay_guard.py:34-35 | sets the expiry to now plus the TTL |
| `ReplayGuard.ReplayGuard.CheckAndMark` | app/replay_guard.py:57-60 | refuses a remembered `jti` without touching its expiry, and marks any other |
| `SetVerifier.AcceptanceWindow` | app/security/set_verifier.py:26-111 | a SET is accepted iff it is sound and the clock is between `iat - skew` and `iat + max_age`; its claims are passed on unchanged |
| `SetVerifier.RaisesIff` | app/security/set_verifier.py:61-95 | an exception outside SetVerificationError escapes iff an authentic token has an array or object as `iat`, or passes every check and its claims then fail the model |
| `SetVerifier.RefusalIsTrue` | app/security/set_verifier.py:30-111 | each refusal names a defect that the token has |
| `SetVerifier.TruncIs` | app/security/set_verifier.py:62-77 | the `iat` that the future test reads is its integer part |
| `AtMostOnce.LongTtlSuffices` | app/ssf/push_receiver.py:33-46 | a replay TTL above `max_age + skew + delay` means no run dispatches a token twice |
| `AtMostOnce.ShortTtlReplays` | app/ssf/push_receiver.py:33-46 | for every smaller TTL, and every sound token, a run that dispatches it twice |
| `AtMostOnce.AtMostOnceIff` | app/config.py:40-46 | at-most-once holds on all runs iff the replay TTL exceeds `max_age + skew + delay` |
| `AtMostOnce.DefaultsNeed` | app/config.py:36-46 | with the default maximum age and skew that bound is 1020 seconds plus the delay |
| `AtMostOnce.DefaultsReplay` | app/config.py:36-46 | the documented rule `ttl >= max_age` does not suffice: the default settings meet it and replay |
| `Enforcement.ReasonIsFirstText` | app/enforcement/router.py:82-116 | a localized reason is the first text that is not empty, of the administrator's and then of the user's, English before any other |
| `Enforcement.RecordRaisesIff` | app/enforcement/router.py:82-116 | building a record raises iff the event localizes its reason and the first of `reason_admin` and `reason_user` that is not silent is neither empty nor an object |
| `Enforcement.ReasonByKind` | app/enforcement/router.py:82-110 | the reason of each other event type, by the payload members it is made from |
| `Enforcement.FieldIs` | app/enforcement/router.py:85-97 | a payload member that is missing or null is None, any other is taken as it is |
| `Enforcement.FalsyIff` | app/enforcement/router.py:107-110 | a reason counts as absent for exactly the JSON values that Python takes for false |
| `KillLoopLaws.LoopLists` | app/enforcement/router.py:228-242 | the three lists hold, in order, the handled targets with that outcome; the loop handles all targets up to the first uncaught exception |
| `KillLoopLaws.LoopPartitions` | app/enforcement/router.py:228-242 | without an uncaught exception the targets are split into terminated, disabled and failed |
| `KillLoopLaws.LoopForgetsTheKilled` | app/enforcement/router.py:232-242 | kill before forget: at every point of the loop and on every exit exactly the sessions whose kill returned normally are gone |
| `KillLoopLaws.FastEventForgets` | app/enforcement/router.py:212-252 | a FAST event removes exactly the expired, the killed and, for a purge that does not raise, all sessions of its subject |
| `DispatchLaws.FastEventShrinks` | app/enforcement/router.py:212-252 | targets are distinct live sessions and each is terminated at most once; afterwards nothing is listed that was not a surviving target |
| `DispatchLaws.DispatchConserves` | app/enforcement/router.py:113-142 | over a SET, raised or not, each FAST event that did not raise splits its targets, targets never grow, the sessions terminated by all its events have no repetition, and none of them is still listed |
| `DispatchLaws.DispatchFollows` | app/enforcement/router.py:128-142 | one result per event that was reached, in order, with its type and the path of the table, also when the SET raises |
| `DispatchLaws.DispatchReports` | app/enforcement/router.py:128-142 | one result per event, in order, with the path of the table |
| `DispatchLaws.SummaryCounts` | app/enforcement/router.py:152-174 | `sessions_targeted` equals the live sessions at the first FAST event, and `sessions_terminated` the sessions that all its events terminated, which is at most that |
| `DispatchLaws.SummaryCoversEveryEvent` | app/enforcement/router.py:119-174 | the summary names every event and its path is the most severe among them |
| `DispatchLaws.SummaryPath` | app/enforcement/router.py:145-174 | the reported path is fast if some event is, else continuous if some event is, else informational |
| `DispatchLaws.DispatchRemoves` | app/enforcement/router.py:113-142 | every session a SET removes was, at a FAST event that was reached, expired, killed, or a target of a purge that handled all its targets, also when the SET raises |
| `DispatchLaws.OthersUntouched` | app/enforcement/router.py:113-142 | other subjects' sessions and decisions are unchanged, also when the SET raises |
| `DispatchLaws.PurgeLeavesNoSession` | app/enforcement/router.py:61-69 | after a SET with a purge event on the fast path no session of the subject is listed, for every mix of kill outcomes and surrounding events |
| `DispatchLaws.ShippedPurge` | app/enforcement/router.py:30-69 | with the shipped table an account-purged or account-disabled event anywhere in an unraised SET leaves the subject no session |
| `DispatchLaws.ForgottenOnlyIfKilled` | app/enforcement/router.py:61-69 | over a SET, raised or not, with no account-purged and no account-disabled event on the fast path, an unexpired session disappears iff its kill returned normally |
| `DispatchLaws.SurvivesIff` | app/enforcement/router.py:212-252 | after an unraised SET exactly the sessions are listed that at each FAST event were unexpired, not killed, and not of an account purged or disabled |
| `DispatchLaws.ShippedTable` | app/enforcement/router.py:30-58 | the shipped table names every known event type and no other, and which are fast, continuous and informational |
| `OrderIndependence.OnlyTheOwnerSets` | app/enforcement/router.py:82-104 | each signal is set by one event type only, from the payload member of that type |
| `OrderIndependence.SignalAfterSet` | app/enforcement/router.py:119-137 | after a SET a signal has the value its owning event gives it, and its prior value if there is none |
| `OrderIndependence.ShippedSignals` | app/enforcement/router.py:30-104 | with the shipped table that value is cached for every event that owns a signal and gives it one |
| `OrderIndependence.DispatchClosedForm` | app/enforcement/router.py:113-142 | with kill outcomes and clock fixed, the final store and the terminated count of a SET that does not raise depend only on which events are present |
| `OrderIndependence.FoldSignal` | app/decision/cache.py:65-74 | a fold of writes reports a signal some write sets, or the prior one |
| `OrderIndependence.NoOrderRaisesIff` | app/enforcement/router.py:113-142 | no order of the events raises iff every record can be built, and either only one is written where nothing is cached, or each is admitted alone and merged with what is cached |
| `OrderIndependence.LegalSetsDoNotRaise` | app/enforcement/router.py:82-142 | with payload members of the types DecisionRecord has, and such a record cached, a SET raises in no order unless a kill call crashes |
| `OrderIndependence.SameUnlessRaised` | app/enforcement/router.py:113-174 | two orders of a SET's events, neither of which raises, end in the same store, path, counts and cached signals |
| `OrderIndependence.OrderDoesNotMatter` | app/enforcement/router.py:113-174 | under the condition of NoOrderRaisesIff any two orders end alike and neither raises |
| `OrderIndependence.RefusedValueStops` | app/decision/cache.py:65-74 | with a risk level outside LOW, MEDIUM and HIGH both orders raise, leave different caches, and reach no later event |
| `OrderIndependence.RedisFolds` | app/decision/cache.py:51-62 | at one instant the Redis cache folds writes as the in-memory one does |
| `OrderIndependence.RedisTakesAll` | app/decision/cache.py:51-74 | Redis refuses none of the writes of a SET if each, and what is cached, is admitted |
| `OrderIndependence.SameSignalOnRedis` | app/decision/cache.py:51-62 | so the order does not matter for the Redis cache either |
| `RedisEnforcement.FastEventIs` | app/enforcement/router.py:228-252 | over Redis, too, the kill loop and the purge loop deregister exactly the killed, then the other handled sessions, each at its own time |
| `RedisEnforcement.DeregisterAllForgets` | app/correlation/store.py:79-85 | a loop of Redis deregistrations forgets exactly the listed sessions whose reverse key, at the call, is alive and names the subject |
| `RedisEnforcement.FastEventForgetsIff` | app/enforcement/router.py:228-252 | over Redis a FAST event removes a session, of any subject, iff it was killed, or purged, and its reverse key, at that call, is alive and names that subject |
| `RedisEnforcement.SetForgetsIff` | app/enforcement/router.py:119-252 | over Redis a whole SET, complete or not, removes a session of any subject iff some event it reached deregisters it while its reverse key is alive and names that subject |
| `RedisEnforcement.PurgeLeavesNoSessionIff` | app/enforcement/router.py:61-69 | over Redis a purge that does not raise leaves no session iff the reverse key of each one still in the hash was alive, when deregistered, and named the subject |
| `RedisEnforcement.YoungSessionsAreForgotten` | app/enforcement/router.py:228-252 | on lawful runs, sessions younger than the TTL when a FAST event deregisters them are no longer listed |
| `RedisEnforcement.TargetedAgainIff` | app/enforcement/router.py:119-252 | a session that one FAST event deregisters is targeted by a later one iff its hash still holds it and its reverse key was dead, or named another subject, at that call |
| `RedisEnforcement.KilledOnceIff` | app/enforcement/router.py:119-252 | over Redis no session is killed twice by an unraised SET iff each one that a later event would kill again had its reverse key alive, naming the subject, when forgotten |
| `RedisEnforcement.YoungKilledOnce` | app/enforcement/router.py:119-252 | on lawful runs a session killed while younger than the TTL is not killed again |
| `RedisEnforcement.OldSessionIsKilledTwice` | app/enforcement/router.py:119-252 | an older session whose hash is kept alive is killed by two events of a SET and stays listed |
| `RedisRouter.KillSessions` | app/enforcement/router.py:228-242 | over the live Redis store the loop kills, deregisters and sorts the sessions as specified, and stops at an uncaught exception |
| `RedisRouter.DropAll` | app/enforcement/router.py:250-252 | the purge loop deregisters every listed id, each at its own time |
| `RedisRouter.EnforceFast` | app/enforcement/router.py:212-265 | the event over what Redis lists leaves the specified store and counts its sessions |
| `EnforcementRouter.KillSessions` | app/enforcement/router.py:228-242 | the loop kills, deregisters, counts and sorts the sessions as specified, and stops at an uncaught exception |
| `EnforcementRouter.DropAll` | app/enforcement/router.py:250-252 | the purge loop deregisters every listed id |
| `EnforcementRouter.EnforceFast` | app/enforcement/router.py:212-265 | leaves the specified store and fills in targeted and terminated |
| `EnforcementRouter.HandleOneEvent` | app/enforcement/router.py:177-209 | takes the branch of the event's path and fills in its result |
| `EnforcementRouter.SummarizeResults` | app/enforcement/router.py:152-174 | collapses the results into the specified summary |
| `EnforcementRouter.HandleVerifiedSet` | app/enforcement/router.py:113-142 | dispatches every event in order, stops where one raises, and returns the summary |
| `SubjectKeys.KeyIsRendered` | app/models.py:104-133 | on any nesting the key is the innermost user's identifier in its format, or its encoding; it raises exactly for an email that is not a string and for a `user` object that is no subject |
| `SubjectKeys.KeyByFormat` | app/models.py:118-125 | the keys of the four formats by their members, a missing one being the empty text and one that is no text shown by `str()` |
| `SubjectKeys.KeyOfInnermost` | app/models.py:126-130 | a complex subject has its innermost user's key at any nesting depth |
| `SubjectKeys.SharedKeyIff` | app/models.py:118-133 | any two subjects share a key iff their identities are equal, a '\|' moved between issuer and subject, or a fallback's format and encoding read as the other's identifier |
| `SubjectKeys.SafeIssuersIff` | app/models.py:122-123 | keys tell all subjects of two issuers apart iff neither issuer is the other followed by a '\|' |
| `SubjectKeys.SameKeyIffSameIdentity` | app/models.py:118-125 | across email, phone_number, iss_sub and opaque two subjects share a key iff format and identifier agree, given such issuers |
| `SubjectKeys.PipeCollides` | app/models.py:122-123 | with a '\|' in an issuer two distinct subjects share a key |
| `SubjectKeys.FormatCollides` | app/models.py:120-133 | a subject of the unknown format "phone" has the key of the phone number its digest spells |
| `SubjectKeys.ShownCollides` | app/models.py:124-125 | an identifier that is no string has the key of the string `str()` makes of it |
| `CanonicalJson.SortIgnoresOrder` | app/models.py:85-89 | sorting members by name is independent of their order |
| `CanonicalJson.SortIsSorted` | app/models.py:88 | the members come out in the order of their names |
| `CanonicalJson.AtMostIff` | app/models.py:88 | that order is by code point at the first difference, a prefix first |
| `CanonicalJson.CanonicalIffSame` | app/models.py:85-89 | two documents have the same sorted form iff they are the same up to the order of members at every depth |
| `SubjectKeys.EncodingIgnoresOrder` | app/models.py:76-89 | the fallback encoding is independent of member order at every depth |
| `SubjectKeys.EncodingIff` | app/models.py:76-89 | two member lists share an encoding iff, without their formats, they are the same document up to member order at every depth, or their digests collide |
| `SubjectKeys.FallbackKeysIff` | app/models.py:126-133 | two fallback subjects share a key iff they are the same document up to member order at every depth, or have one format and colliding digests |
| `SubjectKeys.FallbackKeyIgnoresOrder` | app/models.py:126-133 | with any digest the key of a fallback subject is independent of member order at every depth |
| `SubjectKeys.RegistrationKeyAgrees` | app/correlation/router_api.py:24-34 | a registration derives the same key as a SET about the subject when the subject has no member named like a session field |
| `BridgeEngine.DispatchSignal` | app/enforcement/router.py:119-142 | a signal after a SET, complete or not, was there before or comes from an owning event |
| `BridgeEngine.SignalProvenance` | app/ssf/push_receiver.py:33-46 | every cached signal was given by its owning event type in a SET about that subject that was verified and got past the guard |
| `BridgeLaws.RunConsistent` | app/correlation/store.py:35-55 | on every run of the bridge with one-subject session ids the two indexes agree |
| `BridgeLaws.SessionProvenance` | app/ssf/push_receiver.py:33-46 | a record leaves the store only by BIG-IP closing or re-registering its session, by a lookup after expiry, or through a FAST event, reached in a verified, new SET about its subject, that found it expired, killed it or purged it |
| `BridgeLaws.GuardIff` | app/ssf/push_receiver.py:33-46 | the guard lets through exactly the genuine SETs, by their claims, the registered issuers and the clock, whose `jti` is new |
| `BridgeLaws.AcceptedSetTakesEffect` | app/ssf/push_receiver.py:33-46 | on every run a genuine, new SET that does not raise is summarized with all its events and the most severe path of the configured table; of its subject exactly the sessions stay that no fast event found expired, killed or purged, and of others all; each signal has the value its owning event gives it |
| `BridgeLaws.JtiIsRemembered` | app/ssf/push_receiver.py:40-46 | a `jti` is marked before anything is dispatched, and stays known for a TTL even if dispatching raised |
| `BridgeLaws.RedeliveryIsDropped` | app/ssf/push_receiver.py:40-51 | a redelivery within the TTL changes neither sessions nor decisions |
| `BridgeLaws.NoTokenTwice` | app/ssf/push_receiver.py:33-46 | with a TTL above `max_age + skew + delay` no token gets past the guard twice on any run of the bridge |
| `BridgeEffects.OutcomeIs` | app/ssf/push_receiver.py:25-51 | which outcome a SET has, what it leaves alone, and that exactly the unexpired `jti`s and its own are known afterwards |
| `BridgeEffects.LegalRunsAreDone` | app/ssf/push_receiver.py:25-51 | on every run of SETs with legal payloads, and no crash of a kill call, each genuine, new one with a subject key is carried out |
| `BridgeEffects.RegisterIs` | app/correlation/router_api.py:24-35 | registering stores the record as given, stamped with its time, under the subject's key |
| `BridgeEffects.CloseIs` | app/correlation/router_api.py:38-40 | closing a session removes exactly its record |
| `BridgeEffects.LookupIs` | app/correlation/store.py:46-55 | a lookup removes exactly the subject's records older than the configured TTL |
| `BridgeEffects.ReadIs` | app/decision/cache.py:34-41 | a read removes exactly the subject's decision, if it is older than the configured TTL |
| `BridgeEffects.RegisteredIsListed` | app/correlation/store.py:28-55 | a registered session stays listed under its subject's key until it is closed, re-registered, looked up after it expired, or removed by a SET |
| `BridgeEffects.RegisteredIsKilled` | app/ssf/push_receiver.py:33-46 | such a session is gone after a genuine, new SET about its subject with a fast event that kills it |
| `BridgeEffects.DecisionLasts` | app/decision/cache.py:28-41 | after a SET its decision is read for the configured TTL from its last continuous event, and no longer |
| `BridgeEffects.RiskIsCached` | app/enforcement/router.py:85-87 | the cached risk level is the event's `current_level` |
| `BridgeEffects.ComplianceIsCached` | app/enforcement/router.py:88-90 | the cached compliance says whether `current_status` is "compliant" |
| `BridgeEffects.AssuranceIsCached` | app/enforcement/router.py:91-93 | the cached assurance level is the event's `current_level` |
| `BridgeEffects.ClaimsAreCached` | app/enforcement/router.py:94-96 | the cached claims are the event's `claims` |
| `BridgeEffects.DefaultLifetimes` | app/config.py:36-38 | with the default settings sessions last a day and decisions five minutes |
| `PushReceiver.Bridge.Process` | app/ssf/push_receiver.py:25-51 | verifies, guards and dispatches over the live stores; every exception ends in an outcome, keeping the effects made so far |
| `JwksCache.RunCoherent` | app/security/jwks.py:49-72 | after any registrations and lookups a cached client matches the issuer's latest registration |
| `JwksCache.LookupsUseLatest` | app/security/jwks.py:54-84 | a key lookup asks at most two clients, each of the latest registration and at most 3600 seconds old when chosen; the second, built in the call, iff the first one fails; the answer is that of the last one asked |
| `JwksCache.RotationIsFollowed` | app/security/jwks.py:74-84 | the first client's key is returned if it has one, and otherwise a key published when the retry fetches is found |
| `JwksCache.FreshClientIsReused` | app/security/jwks.py:62-72 | a client at most an hour old is reused by the next lookup |
| `JwksManagers.JWKSManager.RegisterIssuer` | app/security/jwks.py:49-52 | records the registration and drops the cached client |
| `JwksManagers.JWKSManager.ClientFor` | app/security/jwks.py:54-72 | returns the cached client, or builds one when there is none or it is stale |
| `JwksManagers.JWKSManager.SigningKeyFor` | app/security/jwks.py:74-84 | returns the first client's answer unless that is a client error, and then that of a new client |
| `PollDelivery.SentIffProcessed` | app/ssf/poller.py:52-56 | a poll raises iff some handler does, and otherwise lists exactly the processed SETs, each as often as it was delivered |
| `PollDelivery.PollRemovesIff` | app/ssf/poller.py:52-63 | a poll takes a SET off the transmitter's pending ones iff its handler returned true, no handler of the batch raised, and the acknowledgement arrived |
| `PollDelivery.NothingIsLost` | app/ssf/poller.py:38-65 | over any run of polls a SET that arrived is pending, or was processed and acknowledged since |
| `PollDelivery.PollDeliveryClient.PollOnce` | app/ssf/poller.py:52-65 | the loop acknowledges exactly the SETs its handler processed, each as often as it was fetched, and nothing when a handler raises |

## Left out

- JWT decoding, signatures and PyJWT or PyJWKClient internals: whether the signature and the required claims are fine is one given bit, the audience is another, and a JWKS client is an oracle; of the claim checks only that of `iat` and the code's own are modelled. An `nbf` claim is absent.
- NaN and infinite `iat` values, and integers beyond the range of a float: `iat` is a real number.
- HTTP: FastAPI routing and status codes, API keys, TLS, the structural pre-check of the push endpoint, the two requests of a poll; a poll is its batch, its handler and whether the acknowledgement arrives.
- `app/bigip/client.py` beyond one of four outcomes for each kill call: done, fast path disabled, BigIpError, any other exception.
- Stream management, discovery and the admin API: network calls with little state.
- Log lines and the `detail` string of a result; the event types of a summary are a list rather than a comma-joined string.
- Event type URIs: each catalogue entry is a constructor, any other URI is `Unrecognized`.
- The text of a decision's reason: it is kept as the payload values it is made from.
- Runs of the engine over the Redis correlation store: `RedisEnforcement.dfy` covers the FAST events of one SET.
- Session requests that arrive while a SET is being dispatched: in the engine a dispatch is one step, as is a check of the guard together with its mark. `ReplayMemory.GuardExcludes` covers separate checks and marks.
- Redis round trips inside one operation happen at one instant; a crash is modelled inside `register` only. JSON round trips of records are the identity.
- The in-memory registry of transmitters is a set of issuers; `ssf_configuration_urls` is not modelled.
- `str.lower`, `str()` of a non-string and SHA-256 are parameters; the digest is only assumed to be hexadecimal. The canonical JSON text is represented by the sorted document.
- The engine's decisions are the in-memory cache; the Redis cache is compared with it in `DecisionCache.dfy`.
- Claims of a wrong JSON type other than `iat` and `sub_id`: `jti`, `aud` and the payloads are well typed.
