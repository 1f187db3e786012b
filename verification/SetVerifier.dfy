/**
  SET verification after the JWT has been decoded. Signature and the presence of
  the required claims are one given bit, as are key resolution and the audience.
 */
module SetVerifier {
  import opened Models

  /** A number; a text or boolean, with what `int()` makes of it; an array or object. */
  datatype Iat = Seconds(value: real) | Lookalike(parsed: Option<int>) | Composite

  datatype Token = Token(
    wellFormed: bool,
    seceventTyp: bool,
    issuer: string,            // "" when absent
    signatureOk: bool,
    audienceOk: bool,
    iat: Iat,
    jti: string,
    subId: Option<Json>,
    events: seq<SetEvent>)     // [] when absent or empty

  datatype SecurityEventToken = SecurityEventToken(
    iss: string,
    iat: int,
    jti: string,
    subId: Json,
    events: seq<SetEvent>)

  datatype Refusal =
    | MalformedJwt
    | UnexpectedTyp
    | MissingIssuer
    | UnknownIssuer
    | UnresolvedKey
    | BadSignature
    | IssuedInFuture
    | WrongAudience
    | MissingSubject
    | NoEvents
    | IatNotNumeric
    | Stale

  /** `Raised` is an exception outside the SetVerificationError family. */
  datatype Verdict = Accepted(set_: SecurityEventToken) | Refused(why: Refusal) | Raised

  /** Python's `int(x)`: truncation towards zero. */
  function Trunc(x: real): int {
    if x >= 0.0 then x.Floor else -((-x).Floor)
  }

  function RejectStaleIat(iat: Iat, now: Time, cfg: Settings): Option<Refusal> {
    if !iat.Seconds? then Some(IatNotNumeric)
    else if now - iat.value > cfg.maxAge then Some(Stale)
    else None
  }

  /** `int(iat)` in `jwt.decode`; None where it raises. */
  function AsInt(iat: Iat): Option<int> {
    match iat
    case Seconds(x) => Some(Trunc(x))
    case Lookalike(parsed) => parsed
    case Composite => None
  }

  /** `decodedAt` and `checkedAt` are the clock readings of `jwt.decode` and of the staleness test. */
  function VerifySet(
    tok: Token, registered: set<string>, keyFound: bool, decodedAt: Time, checkedAt: Time, cfg: Settings)
    : Verdict
  {
    if !tok.wellFormed then Refused(MalformedJwt)
    else if !tok.seceventTyp then Refused(UnexpectedTyp)
    else if tok.issuer == "" then Refused(MissingIssuer)
    else if tok.issuer !in registered then Refused(UnknownIssuer)
    else if !keyFound then Refused(UnresolvedKey)
    else if !tok.signatureOk then Refused(BadSignature)
    else if tok.iat.Composite? then Raised
    else if AsInt(tok.iat).None? then Refused(IatNotNumeric)
    else if AsInt(tok.iat).value as real > decodedAt + cfg.skew then Refused(IssuedInFuture)
    else if !tok.audienceOk then Refused(WrongAudience)
    else if tok.subId.None? then Refused(MissingSubject)
    else if tok.events == [] then Refused(NoEvents)
    else
      var stale := RejectStaleIat(tok.iat, checkedAt, cfg);
      if stale.Some? then Refused(stale.value)
      else Validate(tok)
  }

  /** The model's `iat` is an integer and its subject has a format: anything else raises. */
  function Validate(tok: Token): Verdict
    requires tok.iat.Seconds? && tok.subId.Some?
  {
    if tok.iat.value == Trunc(tok.iat.value) as real && IsSubject(tok.subId.value) then
      Accepted(SecurityEventToken(tok.issuer, Trunc(tok.iat.value), tok.jti, tok.subId.value, tok.events))
    else
      Raised
  }

  /** The token has the right shape, and its registered issuer signed it. */
  predicate Authentic(tok: Token, registered: set<string>, keyFound: bool) {
    && tok.wellFormed && tok.seceventTyp && tok.issuer != "" && tok.issuer in registered
    && keyFound && tok.signatureOk
  }

  /** A refusal states a defect that the token has. */
  lemma RefusalIsTrue(
    tok: Token, registered: set<string>, keyFound: bool, decodedAt: Time, checkedAt: Time, cfg: Settings)
    ensures match VerifySet(tok, registered, keyFound, decodedAt, checkedAt, cfg)
            case Refused(MalformedJwt) => !tok.wellFormed
            case Refused(UnexpectedTyp) => !tok.seceventTyp
            case Refused(MissingIssuer) => tok.issuer == ""
            case Refused(UnknownIssuer) => tok.issuer !in registered
            case Refused(UnresolvedKey) => !keyFound
            case Refused(BadSignature) => !tok.signatureOk
            case Refused(IssuedInFuture) =>
              || (tok.iat.Seconds? && Trunc(tok.iat.value) as real > decodedAt + cfg.skew)
              || (tok.iat.Lookalike? && tok.iat.parsed.Some? && tok.iat.parsed.value as real > decodedAt + cfg.skew)
            case Refused(WrongAudience) => !tok.audienceOk
            case Refused(MissingSubject) => tok.subId.None?
            case Refused(NoEvents) => tok.events == []
            case Refused(IatNotNumeric) =>
              && tok.iat.Lookalike?
              && (tok.iat.parsed.None? || (tok.audienceOk && tok.subId.Some? && tok.events != []))
            case Refused(Stale) => tok.iat.Seconds? && tok.iat.value + cfg.maxAge < checkedAt
            case _ => true
  {
  }

  /** The integer part: between zero and `x`, and less than one away from it. */
  lemma TruncIs(x: real)
    ensures if x >= 0.0 then 0.0 <= Trunc(x) as real <= x < Trunc(x) as real + 1.0
            else Trunc(x) as real - 1.0 < x <= Trunc(x) as real <= 0.0
  {
  }

  /** Everything but the clock. */
  predicate Sound(tok: Token, registered: set<string>, keyFound: bool) {
    && Authentic(tok, registered, keyFound) && tok.audienceOk
    && tok.iat.Seconds? && tok.iat.value == tok.iat.value.Floor as real
    && tok.subId.Some? && IsSubject(tok.subId.value)
    && tok.events != []
  }

  /** A sound token is accepted exactly from `skew` before its `iat` until `maxAge` after it. */
  lemma AcceptanceWindow(
    tok: Token, registered: set<string>, keyFound: bool, decodedAt: Time, checkedAt: Time, cfg: Settings)
    ensures VerifySet(tok, registered, keyFound, decodedAt, checkedAt, cfg).Accepted? <==>
            && Sound(tok, registered, keyFound)
            && tok.iat.value - cfg.skew <= decodedAt
            && checkedAt <= tok.iat.value + cfg.maxAge
    ensures VerifySet(tok, registered, keyFound, decodedAt, checkedAt, cfg).Accepted? ==>
              var s := VerifySet(tok, registered, keyFound, decodedAt, checkedAt, cfg).set_;
              && s.iat as real == tok.iat.value && s.jti == tok.jti && s.iss == tok.issuer
              && Some(s.subId) == tok.subId && s.events == tok.events
  {
    if tok.iat.Seconds? {
      TruncIntegral(tok.iat.value);
    }
  }

  /**
    The two ways out that are neither acceptance nor a verification error: an `iat`
    that is an array or object, and claims that the model refuses after every check.
   */
  lemma RaisesIff(tok: Token, registered: set<string>, keyFound: bool, decodedAt: Time, checkedAt: Time, cfg: Settings)
    ensures VerifySet(tok, registered, keyFound, decodedAt, checkedAt, cfg).Raised? <==>
            && Authentic(tok, registered, keyFound)
            && (tok.iat.Composite?
                || (&& tok.iat.Seconds? && tok.audienceOk && tok.subId.Some? && tok.events != []
                    && Trunc(tok.iat.value) as real - cfg.skew <= decodedAt
                    && checkedAt <= tok.iat.value + cfg.maxAge
                    && !Sound(tok, registered, keyFound)))
  {
    if tok.iat.Seconds? {
      TruncIntegral(tok.iat.value);
    }
  }

  lemma FloorOfInt(n: int, x: real)
    requires x == n as real
    ensures x.Floor == n
  {
  }

  lemma TruncIntegral(x: real)
    ensures x == Trunc(x) as real <==> x == x.Floor as real
    ensures x == x.Floor as real ==> Trunc(x) == x.Floor
  {
    if x < 0.0 {
      if x == Trunc(x) as real {
        FloorOfInt(Trunc(x), x);
      }
      if x == x.Floor as real {
        FloorOfInt(-x.Floor, -x);
      }
    }
  }
}
