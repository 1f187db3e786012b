/** The plain data of the bridge: events, sessions, decisions and JSON values. */
module Models {

  /** Wall-clock seconds. */
  type Time = real

  datatype Option<+T> = None | Some(value: T)

  /**
    A decoded JSON value. An object keeps its members in document order, and a
    number that is not an integer literal is kept as its shortest text.
   */
  datatype Json =
    | Null
    | Bool(b: bool)
    | Int(i: int)
    | Float(text: string)
    | Str(s: string)
    | Array(items: seq<Json>)
    | Object(members: seq<Member>)

  datatype Member = Member(name: string, value: Json)

  /** `dict.get`: the first member called `name`, if there is one. */
  function Get(members: seq<Member>, name: string): (v: Option<Json>)
    ensures v.Some? ==> Member(name, v.value) in members
    ensures v.None? <==> forall m :: m in members ==> m.name != name
  {
    if members == [] then None
    else if members[0].name == name then Some(members[0].value)
    else Get(members[1..], name)
  }

  /** A subject identifier: an object whose `format` is a string. */
  predicate IsSubject(v: Json) {
    v.Object? && Get(v.members, "format").Some? && Get(v.members, "format").value.Str?
  }

  /** The event catalogue, one constructor for each event type URI. */
  datatype EventType =
    // CAEP
    | SessionRevoked
    | TokenClaimsChange
    | CredentialChange
    | AssuranceLevelChange
    | DeviceComplianceChange
    | SessionEstablished
    | SessionPresented
    | RiskLevelChange
    // RISC
    | AccountCredentialChangeRequired
    | AccountPurged
    | AccountDisabled
    | AccountEnabled
    | IdentifierChanged
    | IdentifierRecycled
    | OptIn
    | OptOutInitiated
    | OptOutCancelled
    | OptOutEffective
    | RecoveryActivated
    | RecoveryInformationChanged
    | SessionsRevoked
    // SSF
    | Verification
    // any other URI
    | Unrecognized(uri: string)

  datatype EnforcementPath = Informational | Continuous | Fast

  /** Maps a subject to one live APM session that authenticated it. */
  datatype CorrelationRecord = CorrelationRecord(
    subjectKey: string,
    apmSessionId: string,
    bigipDevice: Option<string>,
    apmUsername: Option<string>,
    registeredAt: Time)

  /** Where the text of a decision's reason comes from. */
  datatype Reason =
    | Given(text: Json)
    | Assurance(nameSpace: Option<Json>, direction: Option<Json>)
    | Credential(change: Option<Json>, credential: Option<Json>)
    | RecoveryFlow
    | EventName(event: EventType)

  /** What the continuous path caches for BIG-IP's per-request policy. */
  datatype DecisionRecord = DecisionRecord(
    subjectKey: string,
    riskLevel: Option<Json>,
    deviceCompliant: Option<bool>,
    assuranceLevel: Option<Json>,
    changedClaims: Option<Json>,
    reason: Option<Reason>,
    sourceEvent: Option<EventType>,
    updatedAt: Time)

  /** One entry of a SET's `events` claim. */
  datatype SetEvent = SetEvent(kind: EventType, payload: seq<Member>)

  /** The durations the bridge is configured with, in seconds. */
  datatype Settings = Settings(
    replayTtl: Time,
    decisionTtl: Time,
    correlationTtl: Time,
    maxAge: Time,
    skew: Time)

  const DEFAULTS := Settings(900.0, 300.0, 86400.0, 900.0, 120.0)
}
