/** The per-issuer cache of JWKS clients: staleness, re-registration and key rotation. */
module JwksCache {
  import opened Models

  const JWKS_TTL := 3600.0

  /** A PyJWKClient, as built at `builtAt`. */
  datatype Client = Client(uri: string, verifyTls: bool, builtAt: Time)

  datatype Jwks = Jwks(
    uris: map<string, string>,
    verifyTls: map<string, bool>,
    clients: map<string, Client>,
    createdAt: map<string, Time>)

  const EMPTY := Jwks(map[], map[], map[], map[])

  /** What `get_signing_key_from_jwt` does; `Fails` is a PyJWKClientError, `Raises` anything else. */
  datatype Answer = Key(key: string) | Fails | Raises

  type Resolver = (Client, Time) -> Answer

  function RegisterIssuer(j: Jwks, issuer: string, uri: string, tls: bool): Jwks {
    Jwks(j.uris[issuer := uri], j.verifyTls[issuer := tls], j.clients - {issuer}, j.createdAt)
  }

  predicate IsStale(j: Jwks, issuer: string, now: Time) {
    now - (if issuer in j.createdAt then j.createdAt[issuer] else 0.0) > JWKS_TTL
  }

  /** `now` and `builtAt` are the two clock readings of `_client_for`. */
  function ClientFor(j: Jwks, issuer: string, now: Time, builtAt: Time, defaultTls: bool): (Jwks, Option<Client>) {
    if issuer !in j.uris then (j, None)
    else if issuer !in j.clients || IsStale(j, issuer, now) then
      var tls := if issuer in j.verifyTls then j.verifyTls[issuer] else defaultTls;
      var client := Client(j.uris[issuer], tls, builtAt);
      (j.(clients := j.clients[issuer := client], createdAt := j.createdAt[issuer := builtAt]), Some(client))
    else (j, Some(j.clients[issuer]))
  }

  /** The clock during one `signing_key_for`. */
  datatype Clock = Clock(
    chosenAt: Time,
    builtAt: Time,
    firstAt: Time,
    rechosenAt: Time,
    rebuiltAt: Time,
    secondAt: Time)

  predicate Ticks(t: Clock) {
    t.chosenAt <= t.builtAt <= t.firstAt <= t.rechosenAt <= t.rebuiltAt <= t.secondAt
  }

  /** The clients asked, in order; `answer` is None for IssuerNotRegistered. */
  datatype Resolution = Resolution(state: Jwks, asked: seq<Client>, answer: Option<Answer>)

  function SigningKeyFor(j: Jwks, issuer: string, t: Clock, defaultTls: bool, resolve: Resolver): Resolution {
    var (j1, client) := ClientFor(j, issuer, t.chosenAt, t.builtAt, defaultTls);
    if client.None? then Resolution(j1, [], None)
    else if resolve(client.value, t.firstAt) != Fails then
      Resolution(j1, [client.value], Some(resolve(client.value, t.firstAt)))
    else
      var dropped := j1.(clients := j1.clients - {issuer});
      var (j2, again) := ClientFor(dropped, issuer, t.rechosenAt, t.rebuiltAt, defaultTls);
      if again.None? then Resolution(j2, [client.value], None)
      else Resolution(j2, [client.value, again.value], Some(resolve(again.value, t.secondAt)))
  }

  // ----- Runs -----

  datatype Op =
    | RegisterOp(issuer: string, uri: string, verifyTls: bool)
    | ResolveOp(issuer: string, clock: Clock, resolve: Resolver)

  function Run(ops: seq<Op>, defaultTls: bool): Jwks {
    if ops == [] then EMPTY
    else
      var j := Run(ops[..|ops| - 1], defaultTls);
      match ops[|ops| - 1]
      case RegisterOp(issuer, uri, tls) => RegisterIssuer(j, issuer, uri, tls)
      case ResolveOp(issuer, clock, resolve) => SigningKeyFor(j, issuer, clock, defaultTls, resolve).state
  }

  datatype Registration = Registration(uri: string, verifyTls: bool)

  /** The issuer's latest registration. */
  function Latest(ops: seq<Op>, issuer: string): Option<Registration> {
    if ops == [] then None
    else
      var op := ops[|ops| - 1];
      if op.RegisterOp? && op.issuer == issuer then Some(Registration(op.uri, op.verifyTls))
      else Latest(ops[..|ops| - 1], issuer)
  }

  /** A cached client was built from the current registration, at its recorded time. */
  ghost predicate Coherent(j: Jwks) {
    && j.uris.Keys == j.verifyTls.Keys
    && forall issuer :: issuer in j.clients ==>
         && issuer in j.uris && issuer in j.createdAt
         && j.clients[issuer] == Client(j.uris[issuer], j.verifyTls[issuer], j.createdAt[issuer])
  }

  lemma ClientForCoherent(j: Jwks, issuer: string, now: Time, builtAt: Time, defaultTls: bool)
    requires Coherent(j)
    ensures var j' := ClientFor(j, issuer, now, builtAt, defaultTls).0;
            Coherent(j') && j'.uris == j.uris && j'.verifyTls == j.verifyTls
  {
  }

  lemma SigningKeyForCoherent(j: Jwks, issuer: string, t: Clock, defaultTls: bool, resolve: Resolver)
    requires Coherent(j)
    ensures var j' := SigningKeyFor(j, issuer, t, defaultTls, resolve).state;
            Coherent(j') && j'.uris == j.uris && j'.verifyTls == j.verifyTls
  {
    var (j1, client) := ClientFor(j, issuer, t.chosenAt, t.builtAt, defaultTls);
    ClientForCoherent(j, issuer, t.chosenAt, t.builtAt, defaultTls);
    ClientForCoherent(j1.(clients := j1.clients - {issuer}), issuer, t.rechosenAt, t.rebuiltAt, defaultTls);
  }

  lemma {:induction false} RunCoherent(ops: seq<Op>, defaultTls: bool, issuer: string)
    ensures var j := Run(ops, defaultTls);
            && Coherent(j)
            && Latest(ops, issuer) ==
               if issuer in j.uris then Some(Registration(j.uris[issuer], j.verifyTls[issuer])) else None
  {
    if ops != [] {
      var front, op := ops[..|ops| - 1], ops[|ops| - 1];
      RunCoherent(front, defaultTls, issuer);
      if op.ResolveOp? {
        SigningKeyForCoherent(Run(front, defaultTls), op.issuer, op.clock, defaultTls, op.resolve);
      }
    }
  }

  /**
    After any registrations and lookups, a key lookup asks at most two clients.
    Each was built from the issuer's latest registration and, when chosen, at
    most an hour ago; the second one is asked only if the first one fails, was
    built in this very call, and the answer is that of the last one asked.
   */
  lemma LookupsUseLatest(ops: seq<Op>, defaultTls: bool, issuer: string, t: Clock, resolve: Resolver)
    requires Ticks(t)
    ensures var r := SigningKeyFor(Run(ops, defaultTls), issuer, t, defaultTls, resolve);
            && |r.asked| <= 2
            && (r.asked == [] <==> Latest(ops, issuer).None?)
            && (r.answer.None? <==> Latest(ops, issuer).None?)
            && (forall c :: c in r.asked ==> Latest(ops, issuer) == Some(Registration(c.uri, c.verifyTls)))
            && (r.asked != [] ==>
                  && t.chosenAt - r.asked[0].builtAt <= 3600.0
                  && (|r.asked| == 2 <==> resolve(r.asked[0], t.firstAt) == Fails)
                  && r.answer == Some(if |r.asked| == 1 then resolve(r.asked[0], t.firstAt)
                                      else resolve(r.asked[1], t.secondAt)))
            && (|r.asked| == 2 ==> r.asked[1].builtAt == t.rebuiltAt)
  {
    RunCoherent(ops, defaultTls, issuer);
  }

  /**
    A key published when the retry fetches is found, whatever the cached client
    answered. A client built after the failure has nothing cached, so it answers
    from the endpoint; `published` is None where the fetch fails.
   */
  lemma RotationIsFollowed(
    ops: seq<Op>, defaultTls: bool, issuer: string, t: Clock, resolve: Resolver, kid: string,
    published: (string, Time) -> Option<map<string, string>>)
    requires Ticks(t) && Latest(ops, issuer).Some?
    requires forall c: Client, at: Time :: c.builtAt >= t.rebuiltAt ==>
      resolve(c, at) ==
      var keys := published(c.uri, at);
      if keys.Some? && kid in keys.value then Key(keys.value[kid]) else Fails
    requires var keys := published(Latest(ops, issuer).value.uri, t.secondAt); keys.Some? && kid in keys.value
    ensures var r := SigningKeyFor(Run(ops, defaultTls), issuer, t, defaultTls, resolve);
            || (|r.asked| == 1 && resolve(r.asked[0], t.firstAt) != Fails
                && r.answer == Some(resolve(r.asked[0], t.firstAt)))
            || r.answer == Some(Key(published(Latest(ops, issuer).value.uri, t.secondAt).value[kid]))
  {
    RunCoherent(ops, defaultTls, issuer);
    LookupsUseLatest(ops, defaultTls, issuer, t, resolve);
  }

  lemma LastAskedIsCached(j: Jwks, issuer: string, t: Clock, defaultTls: bool, resolve: Resolver)
    requires Coherent(j) && SigningKeyFor(j, issuer, t, defaultTls, resolve).asked != []
    ensures var r := SigningKeyFor(j, issuer, t, defaultTls, resolve);
            && Coherent(r.state)
            && issuer in r.state.clients && r.state.clients[issuer] == r.asked[|r.asked| - 1]
  {
    SigningKeyForCoherent(j, issuer, t, defaultTls, resolve);
  }

  lemma FreshClientIsChosen(j: Jwks, issuer: string, t: Clock, defaultTls: bool, resolve: Resolver)
    requires Coherent(j) && issuer in j.clients && t.chosenAt - j.clients[issuer].builtAt <= 3600.0
    ensures var r := SigningKeyFor(j, issuer, t, defaultTls, resolve); r.asked != [] && r.asked[0] == j.clients[issuer]
  {
  }

  /** The client asked last is asked again, as long as it is at most an hour old. */
  lemma FreshClientIsReused(j: Jwks, issuer: string, t1: Clock, t2: Clock, defaultTls: bool, r1: Resolver, r2: Resolver)
    requires var first := SigningKeyFor(j, issuer, t1, defaultTls, r1);
             Coherent(j) && first.asked != [] && t2.chosenAt - first.asked[|first.asked| - 1].builtAt <= 3600.0
    ensures var first := SigningKeyFor(j, issuer, t1, defaultTls, r1);
            var second := SigningKeyFor(first.state, issuer, t2, defaultTls, r2);
            second.asked != [] && second.asked[0] == first.asked[|first.asked| - 1]
  {
    LastAskedIsCached(j, issuer, t1, defaultTls, r1);
    FreshClientIsChosen(SigningKeyFor(j, issuer, t1, defaultTls, r1).state, issuer, t2, defaultTls, r2);
  }
}
