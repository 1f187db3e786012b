/** The JWKS manager as an object. */
module JwksManagers {
  import opened Models
  import J = JwksCache

  class JWKSManager {
    const defaultTls: bool
    var uris: map<string, string>
    var verifyTls: map<string, bool>
    var clients: map<string, J.Client>
    var createdAt: map<string, Time>

    ghost function State(): J.Jwks
      reads this
    {
      J.Jwks(uris, verifyTls, clients, createdAt)
    }

    constructor (defaultTls: bool)
      ensures State() == J.EMPTY && this.defaultTls == defaultTls
    {
      this.defaultTls := defaultTls;
      uris, verifyTls, clients, createdAt := map[], map[], map[], map[];
    }

    method RegisterIssuer(issuer: string, jwksUri: string, tls: bool)
      modifies this
      ensures State() == J.RegisterIssuer(old(State()), issuer, jwksUri, tls)
    {
      uris := uris[issuer := jwksUri];
      verifyTls := verifyTls[issuer := tls];
      clients := clients - {issuer};
    }

    method ClientFor(issuer: string, now: Time, builtAt: Time) returns (client: Option<J.Client>)
      modifies this
      ensures (State(), client) == J.ClientFor(old(State()), issuer, now, builtAt, defaultTls)
    {
      if issuer !in uris {
        return None;
      }
      var since := if issuer in createdAt then createdAt[issuer] else 0.0;
      var stale := now - since > J.JWKS_TTL;
      if issuer !in clients || stale {
        var tls := if issuer in verifyTls then verifyTls[issuer] else defaultTls;
        clients := clients[issuer := J.Client(uris[issuer], tls, builtAt)];
        createdAt := createdAt[issuer := builtAt];
      }
      return Some(clients[issuer]);
    }

    method SigningKeyFor(issuer: string, t: J.Clock, resolve: J.Resolver) returns (answer: Option<J.Answer>)
      modifies this
      ensures var r := J.SigningKeyFor(old(State()), issuer, t, defaultTls, resolve);
              && State() == r.state && answer == r.answer && |r.asked| <= 2
              && (r.asked == [] ==> answer.None?)
              && (|r.asked| == 1 && resolve(r.asked[0], t.firstAt) != J.Fails ==>
                    answer == Some(resolve(r.asked[0], t.firstAt)))
              && (|r.asked| == 2 ==>
                    resolve(r.asked[0], t.firstAt) == J.Fails && answer == Some(resolve(r.asked[1], t.secondAt)))
    {
      var client := ClientFor(issuer, t.chosenAt, t.builtAt);
      if client.None? {
        return None;
      }
      var first := resolve(client.value, t.firstAt);
      if first != J.Fails {
        return Some(first);
      }
      clients := clients - {issuer};
      client := ClientFor(issuer, t.rechosenAt, t.rebuiltAt);
      if client.None? {
        return None;
      }
      return Some(resolve(client.value, t.secondAt));
    }
  }
}
