/**
  What dispatching a verified SET does, event by event, to the correlation
  store and the decision cache. BIG-IP is an oracle for each kill call.
 */
module Enforcement {
  import opened Models
  import opened CorrelationIndexes
  import D = DecisionCache

  const EVENT_PATHS: map<EventType, EnforcementPath> := map[
    SessionRevoked := Fast,
    TokenClaimsChange := Continuous,
    CredentialChange := Continuous,
    AssuranceLevelChange := Continuous,
    DeviceComplianceChange := Continuous,
    SessionEstablished := Informational,
    SessionPresented := Informational,
    RiskLevelChange := Continuous,
    AccountCredentialChangeRequired := Fast,
    AccountPurged := Fast,
    AccountDisabled := Fast,
    AccountEnabled := Informational,
    IdentifierChanged := Informational,
    IdentifierRecycled := Informational,
    OptIn := Informational,
    OptOutInitiated := Informational,
    OptOutCancelled := Informational,
    OptOutEffective := Informational,
    RecoveryActivated := Continuous,
    RecoveryInformationChanged := Informational,
    SessionsRevoked := Fast,
    Verification := Informational]

  function PathOf(paths: map<EventType, EnforcementPath>, kind: EventType): EnforcementPath {
    if kind in paths then paths[kind] else Informational
  }

  /** The account is gone or locked: its sessions are forgotten whatever became of the kill. */
  predicate IsPurge(kind: EventType) {
    kind.AccountPurged? || kind.AccountDisabled?
  }

  // ----- Decision records -----

  predicate Truthy(v: Json) {
    match v
    case Null => false
    case Bool(b) => b
    case Int(i) => i != 0
    case Float(text) => text !in {"0.0", "-0.0"}
    case Str(s) => s != ""
    case Array(items) => items != []
    case Object(members) => members != []
  }

  /** `payload.get(name)`, where a JSON null is None. */
  function Field(payload: seq<Member>, name: string): Option<Json> {
    var v := Get(payload, name);
    if v == Some(Null) then None else v
  }

  /** An optional text, or an exception. */
  datatype Text = Text(value: Option<Json>) | Raises

  function Localized(reason: Option<Json>): Text {
    if reason.None? || !Truthy(reason.value) then Text(None)
    else if !reason.value.Object? then Raises
    else
      var members := reason.value.members;
      var en := Get(members, "en");
      if en.Some? && Truthy(en.value) then Text(en)
      else Text(if members[0].value == Null then None else Some(members[0].value))
  }

  function AdminOrUserReason(payload: seq<Member>): Text {
    var admin := Localized(Field(payload, "reason_admin"));
    if admin.Raises? || (admin.value.Some? && Truthy(admin.value.value)) then admin
    else Localized(Field(payload, "reason_user"))
  }

  function GivenReason(text: Option<Json>): Option<Reason> {
    if text.None? then None else Some(Given(text.value))
  }

  /** None where building the record raises. */
  function DecisionRecordFor(event: SetEvent, s: string, at: Time): (r: Option<DecisionRecord>)
    ensures r.Some? ==> r.value.subjectKey == s && r.value.updatedAt == at && r.value.sourceEvent == Some(event.kind)
  {
    var blank := DecisionRecord(s, None, None, None, None, None, Some(event.kind), at);
    var payload := event.payload;
    match event.kind
    case RiskLevelChange =>
      Some(blank.(riskLevel := Field(payload, "current_level"), reason := GivenReason(Field(payload, "risk_reason"))))
    case DeviceComplianceChange =>
      var text := AdminOrUserReason(payload);
      if text.Raises? then None
      else Some(blank.(deviceCompliant := Some(Field(payload, "current_status") == Some(Str("compliant"))),
                       reason := GivenReason(text.value)))
    case AssuranceLevelChange =>
      Some(blank.(assuranceLevel := Field(payload, "current_level"),
                  reason := Some(Assurance(Field(payload, "namespace"), Field(payload, "change_direction")))))
    case TokenClaimsChange =>
      var text := AdminOrUserReason(payload);
      if text.Raises? then None
      else Some(blank.(changedClaims := Field(payload, "claims"), reason := GivenReason(text.value)))
    case CredentialChange =>
      Some(blank.(reason := Some(Credential(Field(payload, "change_type"), Field(payload, "credential_type")))))
    case RecoveryActivated =>
      Some(blank.(reason := Some(RecoveryFlow)))
    case _ =>
      Some(blank.(reason := Some(EventName(event.kind))))
  }

  /** A reason that is neither empty nor an object. */
  predicate Unreadable(reason: Option<Json>) {
    reason.Some? && Truthy(reason.value) && !reason.value.Object?
  }

  /** A reason without a text: missing, empty, or an object with neither an English nor a first text. */
  predicate Silent(reason: Option<Json>) {
    reason.Some? && Truthy(reason.value) ==>
      && reason.value.Object? && !Truthy(reason.value.members[0].value)
      && (Get(reason.value.members, "en").Some? ==> !Truthy(Get(reason.value.members, "en").value))
  }

  /** Building a record raises iff the first of its two localized reasons that is not silent is unreadable. */
  lemma RecordRaisesIff(event: SetEvent, s: string, at: Time)
    ensures DecisionRecordFor(event, s, at).None? <==>
            && (event.kind.DeviceComplianceChange? || event.kind.TokenClaimsChange?)
            && var admin, user := Field(event.payload, "reason_admin"), Field(event.payload, "reason_user");
               Unreadable(admin) || (Silent(admin) && Unreadable(user))
  {
  }

  /** The texts a localized reason offers, the English one first. */
  function Texts(reason: Option<Json>): seq<Json> {
    if reason.None? || !Truthy(reason.value) || !reason.value.Object? then []
    else
      var members := reason.value.members;
      var en := Get(members, "en");
      (if en.Some? then [en.value] else []) + [members[0].value]
  }

  function FirstTruthy(texts: seq<Json>): Option<Json> {
    if texts == [] then None
    else if Truthy(texts[0]) then Some(texts[0])
    else FirstTruthy(texts[1..])
  }

  /**
    A localized reason is the first text, of the administrator's and then of the
    user's, that is not empty; without one it is the user's first value, if that is not null.
   */
  lemma ReasonIsFirstText(event: SetEvent, s: string, at: Time)
    requires event.kind.DeviceComplianceChange? || event.kind.TokenClaimsChange?
    requires DecisionRecordFor(event, s, at).Some?
    ensures var admin, user := Field(event.payload, "reason_admin"), Field(event.payload, "reason_user");
            var text, reason := FirstTruthy(Texts(admin) + Texts(user)), DecisionRecordFor(event, s, at).value.reason;
            reason == if text.Some? then Some(Given(text.value))
                      else if user.None? || user.value == Object([]) || !user.value.Object? then None
                      else match user.value.members[0].value
                           case Null => None
                           case other => Some(Given(other))
  {
    var admin, user := Field(event.payload, "reason_admin"), Field(event.payload, "reason_user");
    FirstTruthyConcat(Texts(admin), Texts(user));
    LocalizedIs(admin);
    if !Localized(user).Raises? {
      LocalizedIs(user);
    }
  }

  lemma {:induction false} FirstTruthyConcat(a: seq<Json>, b: seq<Json>)
    ensures FirstTruthy(a + b) == if FirstTruthy(a).Some? then FirstTruthy(a) else FirstTruthy(b)
  {
    if a == [] {
      assert a + b == b;
    } else {
      assert (a + b)[1..] == a[1..] + b;
      FirstTruthyConcat(a[1..], b);
    }
  }

  lemma LocalizedIs(reason: Option<Json>)
    requires !Localized(reason).Raises?
    ensures var text := Localized(reason).value;
            text == if FirstTruthy(Texts(reason)).Some? then FirstTruthy(Texts(reason))
                    else if reason.None? || reason.value == Object([]) || !reason.value.Object? then None
                    else if reason.value.members[0].value == Null then None
                    else Some(reason.value.members[0].value)
  {
    if reason.Some? && Truthy(reason.value) {
      var members := reason.value.members;
      var en := Get(members, "en");
      assert FirstTruthy([members[0].value]) == if Truthy(members[0].value) then Some(members[0].value) else None;
      if en.Some? {
        assert Texts(reason)[1..] == [members[0].value];
      }
    }
  }

  /** A member that is missing or null is None; else it is what the payload says. */
  lemma FieldIs(payload: seq<Member>, name: string)
    ensures Field(payload, name) == match Get(payload, name)
                                    case None => None
                                    case Some(Null) => None
                                    case Some(v) => Some(v)
  {
  }

  /** The values that Python takes for false. */
  lemma FalsyIff(v: Json)
    ensures !Truthy(v) <==>
            || v == Null || v == Bool(false) || v == Int(0) || v == Float("0.0") || v == Float("-0.0")
            || v == Str("") || v == Array([]) || v == Object([])
  {
  }

  /** The reason that the other event types give, by their members. */
  lemma ReasonByKind(event: SetEvent, s: string, at: Time)
    requires DecisionRecordFor(event, s, at).Some?
    requires !event.kind.DeviceComplianceChange? && !event.kind.TokenClaimsChange?
    ensures var reason := DecisionRecordFor(event, s, at).value.reason;
            var kind, payload := event.kind, event.payload;
            && (kind == RiskLevelChange ==>
                  reason == match Get(payload, "risk_reason")
                            case None => None
                            case Some(Null) => None
                            case Some(text) => Some(Given(text)))
            && (kind == AssuranceLevelChange ==>
                  && reason.Some? && reason.value.Assurance?
                  && (forall v :: v != Null ==>
                        && (Get(payload, "namespace") == Some(v) <==> reason.value.nameSpace == Some(v))
                        && (Get(payload, "change_direction") == Some(v) <==> reason.value.direction == Some(v)))
                  && reason.value.nameSpace != Some(Null) && reason.value.direction != Some(Null))
            && (kind == CredentialChange ==>
                  && reason.Some? && reason.value.Credential?
                  && (forall v :: v != Null ==>
                        && (Get(payload, "change_type") == Some(v) <==> reason.value.change == Some(v))
                        && (Get(payload, "credential_type") == Some(v) <==> reason.value.credential == Some(v)))
                  && reason.value.change != Some(Null) && reason.value.credential != Some(Null))
            && (kind == RecoveryActivated ==> reason == Some(RecoveryFlow))
            && (kind !in {RiskLevelChange, AssuranceLevelChange, CredentialChange, RecoveryActivated} ==>
                  reason == Some(EventName(kind)))
  {
  }

  // ----- The kill loop -----

  /** What `terminate_session` does; `Crashes` is any exception the loop does not catch. */
  datatype KillOutcome = Killed | Skipped | Refuses | Crashes

  type Oracle = (EventType, string) -> KillOutcome

  datatype FastRun = FastRun(
    store: Indexes,
    terminated: seq<string>,
    disabled: seq<string>,
    failed: seq<string>,
    crashed: bool)

  /** One round of the loop. */
  function KillOne(run: FastRun, sid: string, outcome: KillOutcome): FastRun {
    match outcome
    case Killed => run.(store := Deregister(run.store, sid), terminated := run.terminated + [sid])
    case Skipped => run.(disabled := run.disabled + [sid])
    case Refuses => run.(failed := run.failed + [sid])
    case Crashes => run.(crashed := true)
  }

  function KillLoop(st: Indexes, targets: seq<string>, kind: EventType, kill: Oracle): FastRun {
    if targets == [] then FastRun(st, [], [], [], false)
    else
      var run, sid := KillLoop(st, targets[..|targets| - 1], kind, kill), targets[|targets| - 1];
      if run.crashed then run else KillOne(run, sid, kill(kind, sid))
  }

  function PurgeAfter(run: FastRun, kind: EventType): FastRun {
    if !run.crashed && IsPurge(kind) then run.(store := DeregisterAll(run.store, run.disabled + run.failed)) else run
  }

  // ----- Events and SETs -----

  datatype TimedEvent = TimedEvent(event: SetEvent, at: Time)

  datatype Env = Env(paths: map<EventType, EnforcementPath>, correlationTtl: Time, kill: Oracle)

  datatype Report = Report(
    kind: EventType,
    path: EnforcementPath,
    targets: seq<string>,
    terminated: seq<string>,
    disabled: seq<string>,
    failed: seq<string>)

  datatype SetRun = SetRun(store: Indexes, cache: D.Records, reports: seq<Report>, raised: bool)

  function Targets(st: Indexes, s: string, at: Time, ttl: Time): seq<string> {
    Ids(SessionsFor(st, s, at, ttl))
  }

  function FastEvent(st: Indexes, s: string, kind: EventType, at: Time, env: Env): FastRun {
    var ttl := env.correlationTtl;
    PurgeAfter(KillLoop(Sweep(st, s, at, ttl), Targets(st, s, at, ttl), kind, env.kill), kind)
  }

  /** One more event; the SET has not raised so far. */
  function HandleOne(run: SetRun, te: TimedEvent, s: string, env: Env): SetRun {
    var kind := te.event.kind;
    var path := PathOf(env.paths, kind);
    match path
    case Fast =>
      var fast := FastEvent(run.store, s, kind, te.at, env);
      var targets := Targets(run.store, s, te.at, env.correlationTtl);
      var report := Report(kind, path, targets, fast.terminated, fast.disabled, fast.failed);
      SetRun(fast.store, run.cache, run.reports + [report], fast.crashed)
    case Continuous =>
      var record := DecisionRecordFor(te.event, s, te.at);
      if record.None? || D.Refuses(run.cache, record.value) then run.(raised := true)
      else run.(cache := D.Upsert(run.cache, record.value),
                reports := run.reports + [Report(kind, path, [], [], [], [])])
    case Informational =>
      run.(reports := run.reports + [Report(kind, path, [], [], [], [])])
  }

  /** The events in order, up to the first that raises. */
  function Dispatch(st: Indexes, cache: D.Records, events: seq<TimedEvent>, s: string, env: Env): SetRun {
    if events == [] then SetRun(st, cache, [], false)
    else
      var run := Dispatch(st, cache, events[..|events| - 1], s, env);
      if run.raised then run else HandleOne(run, events[|events| - 1], s, env)
  }

  /** Once an event has raised, the later ones do not matter. */
  lemma {:induction false} RaiseSticks(
    st: Indexes, cache: D.Records, events: seq<TimedEvent>, s: string, env: Env, n: nat)
    requires n <= |events| && Dispatch(st, cache, events[..n], s, env).raised
    ensures Dispatch(st, cache, events, s, env) == Dispatch(st, cache, events[..n], s, env)
  {
    if n == |events| {
      assert events[..n] == events;
    } else {
      var front := events[..|events| - 1];
      assert front[..n] == events[..n];
      RaiseSticks(st, cache, front, s, env, n);
    }
  }

  // ----- The summary -----

  datatype Summary = Summary(
    kinds: seq<EventType>,
    path: EnforcementPath,
    subjectKey: string,
    targeted: nat,
    terminated: nat)

  function Severity(path: EnforcementPath): nat {
    match path
    case Informational => 0
    case Continuous => 1
    case Fast => 2
  }

  function MostSevere(rs: seq<Report>): EnforcementPath
    requires rs != []
  {
    if |rs| == 1 then rs[0].path
    else
      var m := MostSevere(rs[..|rs| - 1]);
      if Severity(rs[|rs| - 1].path) > Severity(m) then rs[|rs| - 1].path else m
  }

  function MaxTargeted(rs: seq<Report>): nat {
    if rs == [] then 0
    else
      var m, n := MaxTargeted(rs[..|rs| - 1]), |rs[|rs| - 1].targets|;
      if n > m then n else m
  }

  function SumTerminated(rs: seq<Report>): nat {
    if rs == [] then 0 else SumTerminated(rs[..|rs| - 1]) + |rs[|rs| - 1].terminated|
  }

  function Kinds(rs: seq<Report>): seq<EventType> {
    seq(|rs|, i requires 0 <= i < |rs| => rs[i].kind)
  }

  function Summarize(rs: seq<Report>, s: string): Summary {
    if rs == [] then Summary([], Informational, s, 0, 0)
    else if |rs| == 1 then Summary([rs[0].kind], rs[0].path, s, |rs[0].targets|, |rs[0].terminated|)
    else Summary(Kinds(rs), MostSevere(rs), s, MaxTargeted(rs), SumTerminated(rs))
  }
}
