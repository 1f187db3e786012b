/**
  The Redis correlation store: one hash per subject and one reverse key per
  session, each with its own expiry. A key is live strictly before its expiry;
  an expired key reads as absent. Only the commands the store uses are modelled.
 */
module RedisCorrelation {
  import opened Models

  /** `None` is a hash without a time to live. */
  datatype Hash = Hash(fields: map<string, CorrelationRecord>, expiresAt: Option<Time>)

  /** A reverse key: the subject of a session id. */
  datatype Lease = Lease(subjectKey: string, expiresAt: Time)

  datatype Redis = Redis(hashes: map<string, Hash>, leases: map<string, Lease>)

  const EMPTY := Redis(map[], map[])

  predicate LiveHash(db: Redis, s: string, now: Time) {
    s in db.hashes && (db.hashes[s].expiresAt.Some? ==> now < db.hashes[s].expiresAt.value)
  }

  predicate LiveLease(db: Redis, sid: string, now: Time) {
    sid in db.leases && now < db.leases[sid].expiresAt
  }

  /** The key names never clash: the maps above can be keyed by subject and by session id. */
  lemma KeysAreDistinct(a: string, b: string)
    ensures SubjectHashKey(a) == SubjectHashKey(b) <==> a == b
    ensures SessionKey(a) == SessionKey(b) <==> a == b
    ensures SubjectHashKey(a) != SessionKey(b)
  {
    assert SubjectHashKey(a)[|"ssf:corr:subject:"|..] == a && SubjectHashKey(b)[|"ssf:corr:subject:"|..] == b;
    assert SessionKey(a)[|"ssf:corr:session:"|..] == a && SessionKey(b)[|"ssf:corr:session:"|..] == b;
    assert SubjectHashKey(a)[10] == 'u' && SessionKey(b)[10] == 'e';
  }

  function SubjectHashKey(s: string): string { "ssf:corr:subject:" + s }

  function SessionKey(sid: string): string { "ssf:corr:session:" + sid }

  // ----- Commands -----

  function HSet(db: Redis, s: string, r: CorrelationRecord, now: Time): Redis {
    var hash := if LiveHash(db, s, now) then db.hashes[s] else Hash(map[], None);
    db.(hashes := db.hashes[s := hash.(fields := hash.fields[r.apmSessionId := r])])
  }

  function Expire(db: Redis, s: string, ttl: Time, now: Time): Redis {
    if LiveHash(db, s, now) then db.(hashes := db.hashes[s := db.hashes[s].(expiresAt := Some(now + ttl))]) else db
  }

  function SetEx(db: Redis, sid: string, s: string, ttl: Time, now: Time): Redis {
    db.(leases := db.leases[sid := Lease(s, now + ttl)])
  }

  /** Redis deletes a hash with its last field. */
  function HDel(db: Redis, s: string, sid: string, now: Time): Redis {
    if !LiveHash(db, s, now) then db
    else
      var fields := db.hashes[s].fields - {sid};
      db.(hashes := if fields == map[] then db.hashes - {s} else db.hashes[s := db.hashes[s].(fields := fields)])
  }

  function Delete(db: Redis, sid: string): Redis {
    db.(leases := db.leases - {sid})
  }

  function HGetAll(db: Redis, s: string, now: Time): map<string, CorrelationRecord> {
    if LiveHash(db, s, now) then db.hashes[s].fields else map[]
  }

  // ----- Operations -----

  /** The state after the first `n` of the three commands of `register`. */
  function RegisterPrefix(db: Redis, r: CorrelationRecord, now: Time, ttl: Time, n: nat): Redis {
    if n == 0 then db
    else
      var db1 := HSet(db, r.subjectKey, r, now);
      if n == 1 then db1
      else
        var db2 := Expire(db1, r.subjectKey, ttl, now);
        if n == 2 then db2 else SetEx(db2, r.apmSessionId, r.subjectKey, ttl, now)
  }

  function Register(db: Redis, r: CorrelationRecord, now: Time, ttl: Time): Redis {
    RegisterPrefix(db, r, now, ttl, 3)
  }

  function Deregister(db: Redis, sid: string, now: Time): Redis {
    if LiveLease(db, sid, now) then Delete(HDel(db, db.leases[sid].subjectKey, sid, now), sid) else db
  }

  // ----- The timed invariant -----

  ghost predicate Timed(db: Redis, now: Time, ttl: Time) {
    && (forall sid {:trigger sid in db.leases} :: LiveLease(db, sid, now) ==>
          var lease := db.leases[sid];
          && LiveHash(db, lease.subjectKey, now)
          && sid in db.hashes[lease.subjectKey].fields
          && (db.hashes[lease.subjectKey].expiresAt.Some? ==>
                lease.expiresAt <= db.hashes[lease.subjectKey].expiresAt.value)
          && lease.expiresAt <= now + ttl)
    && Keyed(db)
  }

  /** A record is stored under its own subject and session id. */
  ghost predicate Keyed(db: Redis) {
    forall s, sid :: s in db.hashes && sid in db.hashes[s].fields ==>
      db.hashes[s].fields[sid].apmSessionId == sid && db.hashes[s].fields[sid].subjectKey == s
  }

  /** Time passing, a crash after any command of `register`, and `deregister` all keep it. */
  lemma TimedAdvances(db: Redis, now: Time, later: Time, ttl: Time)
    requires Timed(db, now, ttl) && now <= later
    ensures Timed(db, later, ttl)
  {
  }

  lemma TimedHSet(db: Redis, r: CorrelationRecord, now: Time, ttl: Time)
    requires Timed(db, now, ttl)
    ensures Timed(HSet(db, r.subjectKey, r, now), now, ttl)
  {
  }

  lemma TimedExpire(db: Redis, s: string, now: Time, ttl: Time)
    requires Timed(db, now, ttl) && 0.0 < ttl
    ensures Timed(Expire(db, s, ttl, now), now, ttl)
  {
  }

  lemma TimedSetEx(db: Redis, sid: string, s: string, now: Time, ttl: Time)
    requires Timed(db, now, ttl) && LiveHash(db, s, now) && sid in db.hashes[s].fields
    requires db.hashes[s].expiresAt == Some(now + ttl)
    ensures Timed(SetEx(db, sid, s, ttl, now), now, ttl)
  {
  }

  lemma TimedRegister(db: Redis, r: CorrelationRecord, now: Time, ttl: Time, n: nat)
    requires Timed(db, now, ttl) && 0.0 < ttl
    ensures Timed(RegisterPrefix(db, r, now, ttl, n), now, ttl)
  {
    var db1 := HSet(db, r.subjectKey, r, now);
    var db2 := Expire(db1, r.subjectKey, ttl, now);
    TimedHSet(db, r, now, ttl);
    TimedExpire(db1, r.subjectKey, now, ttl);
    TimedSetEx(db2, r.apmSessionId, r.subjectKey, now, ttl);
  }

  lemma TimedDeregister(db: Redis, sid: string, now: Time, ttl: Time)
    requires Timed(db, now, ttl)
    ensures Timed(Deregister(db, sid, now), now, ttl)
  {
    if LiveLease(db, sid, now) {
      var s := db.leases[sid].subjectKey;
      forall x | LiveLease(db, x, now) && db.leases[x].subjectKey == s && x != sid
        ensures x in db.hashes[s].fields - {sid}
      {
        assert x in db.leases;
      }
      var db' := Deregister(db, sid, now);
      assert db'.leases == db.leases - {sid};
      forall x | x in db'.leases && LiveLease(db', x, now)
        ensures var h := db'.leases[x].subjectKey; LiveHash(db', h, now) && x in db'.hashes[h].fields
      {
        var h := db'.leases[x].subjectKey;
        assert x in db.leases && LiveLease(db, x, now);
        if h == s {
          assert x in db.hashes[s].fields - {sid};
        }
      }
    }
  }

  datatype Command =
    | RegisterCmd(record: CorrelationRecord, at: Time, done: nat)   // `done` commands before a crash, 3 for none
    | DeregisterCmd(sid: string, at: Time)

  function Exec(db: Redis, c: Command, ttl: Time): Redis {
    match c
    case RegisterCmd(r, at, n) => RegisterPrefix(db, r, at, ttl, n)
    case DeregisterCmd(sid, at) => Deregister(db, sid, at)
  }

  function Run(cs: seq<Command>, ttl: Time): Redis {
    if cs == [] then EMPTY else Exec(Run(cs[..|cs| - 1], ttl), cs[|cs| - 1], ttl)
  }

  ghost predicate Ordered(cs: seq<Command>) {
    forall i, j :: 0 <= i < j < |cs| ==> cs[i].at <= cs[j].at
  }

  /** At every later instant a live reverse key has its live hash entry, which outlives it. */
  lemma {:induction false} RunTimed(cs: seq<Command>, ttl: Time, now: Time)
    requires Ordered(cs) && 0.0 < ttl
    requires cs != [] ==> cs[|cs| - 1].at <= now
    ensures Timed(Run(cs, ttl), now, ttl)
  {
    if cs != [] {
      var front, c := cs[..|cs| - 1], cs[|cs| - 1];
      RunTimed(front, ttl, c.at);
      match c {
        case RegisterCmd(r, at, n) => TimedRegister(Run(front, ttl), r, at, ttl, n);
        case DeregisterCmd(sid, at) => TimedDeregister(Run(front, ttl), sid, at, ttl);
      }
      TimedAdvances(Run(cs, ttl), c.at, now, ttl);
    }
  }

  /** `deregister` forgets a session of `s` exactly when its reverse key is live and names `s`. */
  lemma DeregisterForgetsIff(db: Redis, s: string, sid: string, now: Time)
    requires sid in HGetAll(db, s, now)
    ensures sid !in HGetAll(Deregister(db, sid, now), s, now) <==>
            LiveLease(db, sid, now) && db.leases[sid].subjectKey == s
  {
  }
}
