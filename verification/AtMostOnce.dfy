/**
  At-most-once processing: what a replay TTL, the acceptance window of a SET
  and the delay between verifying and checking its `jti` have to do with each other.
 */
module AtMostOnce {
  import opened Models
  import opened SetVerifier
  import opened ReplayMemory

  /** One call of the background task, up to the guard. */
  datatype Delivery = Delivery(token: Token, keyFound: bool, decodedAt: Time, checkedAt: Time)

  function Jtis(ds: seq<Delivery>): (jtis: seq<string>)
    ensures |jtis| == |ds|
  {
    seq(|ds|, i requires 0 <= i < |ds| => ds[i].token.jti)
  }

  /** Action `i` is the check of an accepted delivery, or the mark right after its own passed check. */
  ghost predicate AdmissibleAt(
    trace: seq<Action>, ds: seq<Delivery>, registered: set<string>, cfg: Settings, delay: Time, i: nat)
    requires i < |trace| && Tasks(trace, |ds|)
  {
    if trace[i].CheckAt? then
      var d := ds[trace[i].task];
      && VerifySet(d.token, registered, d.keyFound, d.decodedAt, d.checkedAt, cfg).Accepted?
      && d.decodedAt <= d.checkedAt <= trace[i].at <= d.checkedAt + delay
    else
      && i > 0 && trace[i - 1].CheckAt? && trace[i - 1].task == trace[i].task
      && Passes(trace, Jtis(ds), cfg.replayTtl, i - 1)
  }

  /** A run of any number of deliveries, each checked within `delay` of its verification. */
  ghost predicate Admissible(
    trace: seq<Action>, ds: seq<Delivery>, registered: set<string>, cfg: Settings, delay: Time) {
    && Tasks(trace, |ds|) && Ordered(trace)
    && forall i: nat :: i < |trace| ==> AdmissibleAt(trace, ds, registered, cfg, delay, i)
  }

  predicate SameToken(a: Token, b: Token) {
    a.jti == b.jti && a.iat == b.iat
  }

  /** A SET is dispatched once its `jti` is marked. */
  ghost predicate DispatchedTwice(trace: seq<Action>, ds: seq<Delivery>)
    requires Tasks(trace, |ds|)
  {
    exists i, j :: 0 <= i < j < |trace| && trace[i].MarkAt? && trace[j].MarkAt?
      && SameToken(ds[trace[i].task].token, ds[trace[j].task].token)
  }

  ghost predicate AtMostOnce(
    trace: seq<Action>, ds: seq<Delivery>, registered: set<string>, cfg: Settings, delay: Time) {
    Admissible(trace, ds, registered, cfg, delay) ==> !DispatchedTwice(trace, ds)
  }

  /** Two dispatches of one token are a TTL apart, but within the acceptance window. */
  lemma TwiceNeedsShortTtl(
    trace: seq<Action>, ds: seq<Delivery>, registered: set<string>, cfg: Settings, delay: Time, i: nat, j: nat)
    requires Admissible(trace, ds, registered, cfg, delay)
    requires i < j < |trace| && trace[i].MarkAt? && trace[j].MarkAt?
    requires SameToken(ds[trace[i].task].token, ds[trace[j].task].token)
    ensures cfg.replayTtl <= cfg.maxAge + cfg.skew + delay
  {
    var d1, d2 := ds[trace[i].task], ds[trace[j].task];
    assert AdmissibleAt(trace, ds, registered, cfg, delay, i) && AdmissibleAt(trace, ds, registered, cfg, delay, j);
    assert AdmissibleAt(trace, ds, registered, cfg, delay, i - 1);
    assert AdmissibleAt(trace, ds, registered, cfg, delay, j - 1);
    AcceptanceWindow(d1.token, registered, d1.keyFound, d1.decodedAt, d1.checkedAt, cfg);
    AcceptanceWindow(d2.token, registered, d2.keyFound, d2.decodedAt, d2.checkedAt, cfg);
    RemembersIff(trace, Jtis(ds), cfg.replayTtl, j - 1, d2.token.jti, trace[j - 1].at);
    assert trace[j - 1].at >= trace[i].at + cfg.replayTtl;
  }

  lemma LongTtlSuffices(trace: seq<Action>, ds: seq<Delivery>, registered: set<string>, cfg: Settings, delay: Time)
    requires cfg.replayTtl > cfg.maxAge + cfg.skew + delay
    ensures AtMostOnce(trace, ds, registered, cfg, delay)
  {
    if Admissible(trace, ds, registered, cfg, delay) {
      forall i, j | 0 <= i < j < |trace| && trace[i].MarkAt? && trace[j].MarkAt?
        ensures !SameToken(ds[trace[i].task].token, ds[trace[j].task].token)
      {
        if SameToken(ds[trace[i].task].token, ds[trace[j].task].token) {
          TwiceNeedsShortTtl(trace, ds, registered, cfg, delay, i, j);
        }
      }
    }
  }

  /** The run that dispatches `tok` as early as it is accepted, and again as late as it is. */
  lemma ShortTtlReplays(tok: Token, registered: set<string>, cfg: Settings, delay: Time)
    returns (trace: seq<Action>, ds: seq<Delivery>)
    requires Sound(tok, registered, true)
    requires 0.0 <= delay && 0.0 <= cfg.maxAge && 0.0 <= cfg.skew
    requires cfg.replayTtl <= cfg.maxAge + cfg.skew + delay
    ensures Admissible(trace, ds, registered, cfg, delay) && DispatchedTwice(trace, ds)
  {
    var early, late := tok.iat.value - cfg.skew, tok.iat.value + cfg.maxAge;
    ds := [Delivery(tok, true, early, early), Delivery(tok, true, late, late)];
    trace := [CheckAt(0, early), MarkAt(0, early), CheckAt(1, late + delay), MarkAt(1, late + delay)];
    AcceptanceWindow(tok, registered, true, early, early, cfg);
    AcceptanceWindow(tok, registered, true, late, late, cfg);
    var jtis := Jtis(ds);
    assert GuardAt(trace, jtis, cfg.replayTtl, 0) == map[];
    assert GuardAt(trace, jtis, cfg.replayTtl, 1) == map[];
    assert GuardAt(trace, jtis, cfg.replayTtl, 2) == map[tok.jti := early + cfg.replayTtl];
    assert trace[1].MarkAt? && trace[3].MarkAt?;
  }

  /** The exact rule, for every run of any number of deliveries. */
  lemma AtMostOnceIff(tok: Token, registered: set<string>, cfg: Settings, delay: Time)
    requires Sound(tok, registered, true)
    requires 0.0 <= delay && 0.0 <= cfg.maxAge && 0.0 <= cfg.skew
    ensures (forall trace, ds :: AtMostOnce(trace, ds, registered, cfg, delay)) <==>
            cfg.replayTtl > cfg.maxAge + cfg.skew + delay
  {
    if cfg.replayTtl > cfg.maxAge + cfg.skew + delay {
      forall trace, ds
        ensures AtMostOnce(trace, ds, registered, cfg, delay)
      {
        LongTtlSuffices(trace, ds, registered, cfg, delay);
      }
    } else {
      var trace, ds := ShortTtlReplays(tok, registered, cfg, delay);
      assert !AtMostOnce(trace, ds, registered, cfg, delay);
    }
  }

  /** With the default maximum age and skew, that is a TTL above 1020 seconds and the delay. */
  lemma DefaultsNeed(tok: Token, registered: set<string>, ttl: Time, delay: Time)
    requires Sound(tok, registered, true) && 0.0 <= delay
    ensures (forall trace, ds :: AtMostOnce(trace, ds, registered, DEFAULTS.(replayTtl := ttl), delay)) <==>
            ttl > 1020.0 + delay
    ensures DEFAULTS.replayTtl == 900.0
  {
    AtMostOnceIff(tok, registered, DEFAULTS.(replayTtl := ttl), delay);
  }

  /** The configured rule, a replay TTL of at least the maximum age, does not suffice: the defaults meet it. */
  lemma DefaultsReplay(tok: Token, registered: set<string>)
    requires Sound(tok, registered, true)
    ensures DEFAULTS.replayTtl >= DEFAULTS.maxAge
    ensures exists trace, ds :: !AtMostOnce(trace, ds, registered, DEFAULTS, 0.0)
  {
    var trace, ds := ShortTtlReplays(tok, registered, DEFAULTS, 0.0);
    assert !AtMostOnce(trace, ds, registered, DEFAULTS, 0.0);
  }
}
