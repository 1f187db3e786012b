/**
  The two correlation backends side by side, driven by the same operations.
  A record is young while its age is below the TTL.
 */
module SessionBackends {
  import opened Models
  import opened I = CorrelationIndexes
  import R = RedisCorrelation

  predicate Young(r: CorrelationRecord, now: Time, ttl: Time) {
    now < r.registeredAt + ttl
  }

  function RedisStep(db: R.Redis, op: Op, ttl: Time): R.Redis {
    match op
    case RegisterOp(r, at) => R.Register(db, r, at, ttl)
    case DeregisterOp(sid, at) => R.Deregister(db, sid, at)
    case LookupOp(_, _) => db
  }

  function RedisRun(ops: seq<Op>, ttl: Time): R.Redis {
    if ops == [] then R.EMPTY else RedisStep(RedisRun(ops[..|ops| - 1], ttl), ops[|ops| - 1], ttl)
  }

  /** Operations come in time order, with real subject keys; a record is built before it is registered. */
  ghost predicate Plausible(ops: seq<Op>, now: Time) {
    && (forall i, j :: 0 <= i < j < |ops| ==> ops[i].at <= ops[j].at)
    && forall i :: 0 <= i < |ops| ==>
         && ops[i].at <= now
         && (ops[i].RegisterOp? ==> ops[i].record.subjectKey != "" && ops[i].record.registeredAt <= ops[i].at)
  }

  // ----- In-memory within Redis, on every run -----

  /** Hash `s` holds `r` and outlives it. */
  predicate Kept(db: R.Redis, s: string, r: CorrelationRecord, now: Time, ttl: Time) {
    && R.LiveHash(db, s, now)
    && r.apmSessionId in db.hashes[s].fields && db.hashes[s].fields[r.apmSessionId] == r
    && (db.hashes[s].expiresAt.Some? ==> r.registeredAt + ttl <= db.hashes[s].expiresAt.value)
  }

  /** Every young record in memory is kept by Redis. */
  ghost predicate AllKept(st: Indexes, db: R.Redis, now: Time, ttl: Time) {
    && (forall s, r :: r in Bucket(st, s) ==> r.registeredAt <= now)
    && forall s, r :: r in Bucket(st, s) && Young(r, now, ttl) ==> Kept(db, s, r, now, ttl)
  }

  /** A live reverse key that names a bucket holding its session agrees with the reverse index. */
  ghost predicate LeasesAgree(st: Indexes, db: R.Redis, now: Time) {
    forall sid :: sid in db.leases && R.LiveLease(db, sid, now) && HasId(Bucket(st, db.leases[sid].subjectKey), sid) ==>
      sid in st.owner && st.owner[sid] == db.leases[sid].subjectKey
  }

  ghost predicate Within(st: Indexes, db: R.Redis, now: Time, ttl: Time) {
    Backed(st) && "" !in st.bySubject && AllKept(st, db, now, ttl) && LeasesAgree(st, db, now)
  }

  lemma RegisteredBuckets(st: Indexes, r: CorrelationRecord, s: string, x: CorrelationRecord)
    requires Backed(st) && x in Bucket(I.Register(st, r), s)
    ensures || (x == r && s == r.subjectKey)
            || (x in Bucket(st, s) && !(s == r.subjectKey && x.apmSessionId == r.apmSessionId))
  {
  }

  lemma KeptByRegister(db: R.Redis, r: CorrelationRecord, s: string, x: CorrelationRecord, now: Time, ttl: Time)
    requires 0.0 < ttl && r.registeredAt <= now && x.registeredAt <= now
    requires || (x == r && s == r.subjectKey)
             || (Kept(db, s, x, now, ttl) && !(s == r.subjectKey && x.apmSessionId == r.apmSessionId))
    ensures Kept(R.Register(db, r, now, ttl), s, x, now, ttl)
  {
  }

  lemma RecordAfterRegister(
    st: Indexes, db: R.Redis, r: CorrelationRecord, now: Time, ttl: Time, s: string, x: CorrelationRecord)
    requires Backed(st) && AllKept(st, db, now, ttl) && 0.0 < ttl && r.registeredAt <= now
    requires x in Bucket(I.Register(st, r), s)
    ensures x.registeredAt <= now
    ensures Young(x, now, ttl) ==> Kept(R.Register(db, r, now, ttl), s, x, now, ttl)
  {
    RegisteredBuckets(st, r, s, x);
    if Young(x, now, ttl) {
      KeptByRegister(db, r, s, x, now, ttl);
    }
  }

  lemma AllKeptRegister(st: Indexes, db: R.Redis, r: CorrelationRecord, now: Time, ttl: Time)
    requires Backed(st) && AllKept(st, db, now, ttl) && 0.0 < ttl && r.registeredAt <= now
    ensures AllKept(I.Register(st, r), R.Register(db, r, now, ttl), now, ttl)
  {
    var st', db' := I.Register(st, r), R.Register(db, r, now, ttl);
    forall s, x | x in Bucket(st', s)
      ensures x.registeredAt <= now
    {
      RecordAfterRegister(st, db, r, now, ttl, s, x);
    }
    forall s, x | x in Bucket(st', s) && Young(x, now, ttl)
      ensures Kept(db', s, x, now, ttl)
    {
      RecordAfterRegister(st, db, r, now, ttl, s, x);
    }
  }

  lemma LeasesAgreeRegister(st: Indexes, db: R.Redis, r: CorrelationRecord, now: Time, ttl: Time)
    requires Backed(st) && LeasesAgree(st, db, now)
    ensures LeasesAgree(I.Register(st, r), R.Register(db, r, now, ttl), now)
  {
    var st', db' := I.Register(st, r), R.Register(db, r, now, ttl);
    forall sid | sid in db'.leases && R.LiveLease(db', sid, now) && HasId(Bucket(st', db'.leases[sid].subjectKey), sid)
      ensures sid in st'.owner && st'.owner[sid] == db'.leases[sid].subjectKey
    {
      if sid != r.apmSessionId {
        RegisterLease(db, r, now, ttl, sid);
        var x :| x in Bucket(st', db.leases[sid].subjectKey) && x.apmSessionId == sid;
        RegisteredBuckets(st, r, db.leases[sid].subjectKey, x);
      }
    }
  }

  lemma WithinRegister(st: Indexes, db: R.Redis, r: CorrelationRecord, now: Time, ttl: Time)
    requires Within(st, db, now, ttl) && 0.0 < ttl
    requires r.subjectKey != "" && r.registeredAt <= now
    ensures Within(I.Register(st, r), R.Register(db, r, now, ttl), now, ttl)
  {
    RegisterBacked(st, r);
    AllKeptRegister(st, db, r, now, ttl);
    LeasesAgreeRegister(st, db, r, now, ttl);
  }

  /** What `deregister` does to the buckets, on any backed state. */
  lemma DeregisterBuckets(st: Indexes, sid: string, s: string)
    requires Backed(st) && "" !in st.bySubject
    ensures var b := Bucket(I.Deregister(st, sid), s);
            b == if sid in st.owner && st.owner[sid] == s then Keep(Bucket(st, s), {sid}) else Bucket(st, s)
  {
    if sid in st.owner {
      RemoveIsKeep(Bucket(st, st.owner[sid]), sid);
    }
  }

  /** The memory side of `deregister`, and of each step of a sweep. */
  lemma WithinShrinks(st: Indexes, db: R.Redis, sid: string, now: Time, ttl: Time)
    requires Within(st, db, now, ttl)
    ensures Within(I.Deregister(st, sid), db, now, ttl)
  {
    DeregisterBacked(st, sid);
    var st' := I.Deregister(st, sid);
    forall s, r | r in Bucket(st', s)
      ensures r in Bucket(st, s)
    {
      DeregisterBuckets(st, sid, s);
    }
    forall x | x in db.leases && R.LiveLease(db, x, now) && HasId(Bucket(st', db.leases[x].subjectKey), x)
      ensures x in st'.owner && st'.owner[x] == db.leases[x].subjectKey
    {
      var s := db.leases[x].subjectKey;
      DeregisterBuckets(st, sid, s);
      assert HasId(Bucket(st, s), x);
    }
  }

  lemma {:induction false} WithinSweeps(st: Indexes, db: R.Redis, sids: seq<string>, now: Time, ttl: Time)
    requires Within(st, db, now, ttl)
    ensures Within(DeregisterAll(st, sids), db, now, ttl)
  {
    if sids != [] {
      WithinSweeps(st, db, sids[..|sids| - 1], now, ttl);
      WithinShrinks(DeregisterAll(st, sids[..|sids| - 1]), db, sids[|sids| - 1], now, ttl);
    }
  }

  lemma WithinDeregister(st: Indexes, db: R.Redis, sid: string, now: Time, ttl: Time)
    requires Within(st, db, now, ttl)
    ensures Within(I.Deregister(st, sid), R.Deregister(db, sid, now), now, ttl)
  {
    WithinShrinks(st, db, sid, now, ttl);
    if R.LiveLease(db, sid, now) {
      var s := db.leases[sid].subjectKey;
      var st', db' := I.Deregister(st, sid), R.Deregister(db, sid, now);
      DeregisterBuckets(st, sid, s);
      assert !HasId(Bucket(st', s), sid) by {
        if HasId(Bucket(st, s), sid) {
          assert st.owner[sid] == s;
        } else {
          assert Bucket(st', s) == Bucket(st, s) || Bucket(st', s) == Keep(Bucket(st, s), {sid});
        }
      }
      forall s', r | r in Bucket(st', s') && Young(r, now, ttl)
        ensures Kept(db', s', r, now, ttl)
      {
        assert Kept(db, s', r, now, ttl);
        if s' == s {
          assert r.apmSessionId != sid;
          assert r.apmSessionId in db.hashes[s].fields - {sid};
        }
      }
    }
  }

  lemma WithinAdvances(st: Indexes, db: R.Redis, now: Time, later: Time, ttl: Time)
    requires Within(st, db, now, ttl) && now <= later
    ensures Within(st, db, later, ttl)
  {
    forall s, r | r in Bucket(st, s) && Young(r, later, ttl)
      ensures Kept(db, s, r, later, ttl)
    {
      assert Kept(db, s, r, now, ttl);
    }
  }

  lemma WithinStep(st: Indexes, db: R.Redis, op: Op, ttl: Time)
    requires Within(st, db, op.at, ttl) && 0.0 < ttl
    requires op.RegisterOp? ==> op.record.subjectKey != "" && op.record.registeredAt <= op.at
    ensures Within(Step(st, op, ttl), RedisStep(db, op, ttl), op.at, ttl)
  {
    match op
    case RegisterOp(r, at) => WithinRegister(st, db, r, at, ttl);
    case DeregisterOp(sid, at) => WithinDeregister(st, db, sid, at, ttl);
    case LookupOp(s, at) => WithinSweeps(st, db, ExpiredIds(Bucket(st, s), at - ttl), at, ttl);
  }

  lemma {:induction false} WithinRun(ops: seq<Op>, now: Time, ttl: Time)
    requires Plausible(ops, now) && 0.0 < ttl
    ensures Within(Run(ops, ttl), RedisRun(ops, ttl), now, ttl)
  {
    if ops != [] {
      var front, op := ops[..|ops| - 1], ops[|ops| - 1];
      WithinRun(front, op.at, ttl);
      WithinStep(Run(front, ttl), RedisRun(front, ttl), op, ttl);
      WithinAdvances(Run(ops, ttl), RedisRun(ops, ttl), op.at, now, ttl);
    }
  }

  /**
    On every run, moved sessions included: a young record the in-memory store
    lists is listed by Redis, even if an expired reverse key made `deregister` idle.
   */
  lemma MemoryWithinRedis(ops: seq<Op>, s: string, r: CorrelationRecord, now: Time, ttl: Time)
    requires Plausible(ops, now) && 0.0 < ttl
    requires r in I.SessionsFor(Run(ops, ttl), s, now, ttl) && Young(r, now, ttl)
    ensures var found := R.HGetAll(RedisRun(ops, ttl), s, now); r.apmSessionId in found && found[r.apmSessionId] == r
  {
    WithinRun(ops, now, ttl);
    WithinStep(Run(ops, ttl), RedisRun(ops, ttl), LookupOp(s, now), ttl);
    assert Kept(RedisRun(ops, ttl), s, r, now, ttl);
  }

  // ----- Redis within in-memory, on lawful runs -----

  /** If `sid` is a young field of live hash `s`, it is in memory and its own reverse key is alive. */
  ghost predicate MirroredField(st: Indexes, db: R.Redis, s: string, sid: string, now: Time, ttl: Time) {
    R.LiveHash(db, s, now) && sid in db.hashes[s].fields && Young(db.hashes[s].fields[sid], now, ttl) ==>
      && db.hashes[s].fields[sid] in Bucket(st, s)
      && sid in db.leases && db.leases[sid].subjectKey == s
      && db.hashes[s].fields[sid].registeredAt + ttl <= db.leases[sid].expiresAt
  }

  ghost predicate Mirrored(st: Indexes, db: R.Redis, now: Time, ttl: Time) {
    forall s, sid :: MirroredField(st, db, s, sid, now, ttl)
  }

  lemma RegisterFrame(db: R.Redis, r: CorrelationRecord, now: Time, ttl: Time, s: string, sid: string)
    requires 0.0 < ttl && !(s == r.subjectKey && sid == r.apmSessionId)
    ensures var db' := R.Register(db, r, now, ttl);
            R.LiveHash(db', s, now) && sid in db'.hashes[s].fields ==>
              && R.LiveHash(db, s, now) && sid in db.hashes[s].fields
              && db'.hashes[s].fields[sid] == db.hashes[s].fields[sid]
  {
  }

  lemma RegisterBuckets(st: Indexes, r: CorrelationRecord, x: CorrelationRecord, s: string)
    requires Backed(st) && x in Bucket(st, s) && x.apmSessionId != r.apmSessionId
    ensures x in Bucket(I.Register(st, r), s)
  {
  }

  lemma MirroredRegister(st: Indexes, db: R.Redis, r: CorrelationRecord, now: Time, ttl: Time)
    requires Consistent(st) && R.Keyed(db) && Mirrored(st, db, now, ttl) && 0.0 < ttl
    requires Lawful(st, r) && r.registeredAt <= now
    ensures Mirrored(I.Register(st, r), R.Register(db, r, now, ttl), now, ttl)
  {
    forall s, sid
      ensures MirroredField(I.Register(st, r), R.Register(db, r, now, ttl), s, sid, now, ttl)
    {
      assert MirroredField(st, db, s, sid, now, ttl);
      if s == r.subjectKey && sid == r.apmSessionId {
        MirroredNewField(st, db, r, now, ttl);
      } else {
        MirroredOldField(st, db, r, now, ttl, s, sid);
      }
    }
  }

  lemma MirroredNewField(st: Indexes, db: R.Redis, r: CorrelationRecord, now: Time, ttl: Time)
    requires Backed(st) && r.registeredAt <= now
    ensures MirroredField(I.Register(st, r), R.Register(db, r, now, ttl), r.subjectKey, r.apmSessionId, now, ttl)
  {
  }

  lemma MirroredOldField(st: Indexes, db: R.Redis, r: CorrelationRecord, now: Time, ttl: Time, s: string, sid: string)
    requires Consistent(st) && R.Keyed(db) && MirroredField(st, db, s, sid, now, ttl) && 0.0 < ttl
    requires Lawful(st, r) && !(s == r.subjectKey && sid == r.apmSessionId)
    ensures MirroredField(I.Register(st, r), R.Register(db, r, now, ttl), s, sid, now, ttl)
  {
    RegisterFrame(db, r, now, ttl, s, sid);
    if R.LiveHash(db, s, now) && sid in db.hashes[s].fields && Young(db.hashes[s].fields[sid], now, ttl) {
      OtherId(st, db, r, s, sid);
      RegisterBuckets(st, r, db.hashes[s].fields[sid], s);
      RegisterLease(db, r, now, ttl, sid);
    }
  }

  lemma RegisterLease(db: R.Redis, r: CorrelationRecord, now: Time, ttl: Time, sid: string)
    requires sid != r.apmSessionId
    ensures var db' := R.Register(db, r, now, ttl);
            (sid in db'.leases <==> sid in db.leases) && (sid in db.leases ==> db'.leases[sid] == db.leases[sid])
  {
  }

  lemma OtherId(st: Indexes, db: R.Redis, r: CorrelationRecord, s: string, sid: string)
    requires Consistent(st) && R.Keyed(db) && Lawful(st, r) && !(s == r.subjectKey && sid == r.apmSessionId)
    requires s in db.hashes && sid in db.hashes[s].fields && db.hashes[s].fields[sid] in Bucket(st, s)
    ensures sid != r.apmSessionId && db.hashes[s].fields[sid].apmSessionId == sid
  {
    assert st.owner[sid] == s;
  }

  lemma DeregisterFrame(db: R.Redis, sid: string, now: Time, s: string, x: string)
    ensures var db' := R.Deregister(db, sid, now);
            R.LiveHash(db', s, now) && x in db'.hashes[s].fields ==>
              && R.LiveHash(db, s, now) && x in db.hashes[s].fields && db'.hashes[s].fields[x] == db.hashes[s].fields[x]
              && (x == sid ==> !(R.LiveLease(db, sid, now) && db.leases[sid].subjectKey == s))
  {
  }

  lemma MirroredDeregister(st: Indexes, db: R.Redis, sid: string, now: Time, ttl: Time)
    requires Consistent(st) && R.Keyed(db) && Mirrored(st, db, now, ttl)
    ensures Mirrored(I.Deregister(st, sid), R.Deregister(db, sid, now), now, ttl)
  {
    var st', db' := I.Deregister(st, sid), R.Deregister(db, sid, now);
    forall s, x
      ensures MirroredField(st', db', s, x, now, ttl)
    {
      assert MirroredField(st, db, s, x, now, ttl);
      DeregisterFrame(db, sid, now, s, x);
      DeregisterBuckets(st, sid, s);
    }
  }

  lemma MirroredSweep(st: Indexes, db: R.Redis, s: string, now: Time, ttl: Time)
    requires Consistent(st) && R.Timed(db, now, ttl) && Mirrored(st, db, now, ttl)
    ensures Mirrored(Sweep(st, s, now, ttl), db, now, ttl)
  {
    SweepIsWithout(st, s, now, ttl);
    var dead := Expired(st, s, now, ttl);
    WithoutBuckets(st, s, dead);
    forall r | r in Bucket(st, s) && Young(r, now, ttl)
      ensures r.apmSessionId !in dead
    {
      forall x | x in Bucket(st, s) && x.apmSessionId == r.apmSessionId
        ensures x == r
      {
        DistinctIds(Bucket(st, s), r, x);
      }
    }
    forall s', sid
      ensures MirroredField(Sweep(st, s, now, ttl), db, s', sid, now, ttl)
    {
      assert MirroredField(st, db, s', sid, now, ttl);
    }
  }

  lemma MirroredStep(st: Indexes, db: R.Redis, op: Op, ttl: Time)
    requires Consistent(st) && R.Timed(db, op.at, ttl) && Mirrored(st, db, op.at, ttl) && 0.0 < ttl
    requires op.RegisterOp? ==> Lawful(st, op.record) && op.record.registeredAt <= op.at
    ensures R.Timed(RedisStep(db, op, ttl), op.at, ttl)
    ensures Mirrored(Step(st, op, ttl), RedisStep(db, op, ttl), op.at, ttl)
  {
    match op
    case RegisterOp(r, at) =>
      R.TimedRegister(db, r, at, ttl, 3);
      MirroredRegister(st, db, r, at, ttl);
    case DeregisterOp(sid, at) =>
      R.TimedDeregister(db, sid, at, ttl);
      MirroredDeregister(st, db, sid, at, ttl);
    case LookupOp(s, at) =>
      MirroredSweep(st, db, s, at, ttl);
  }

  lemma LastIsLawful(ops: seq<Op>, ttl: Time)
    requires ops != [] && LawfulRun(ops, ttl) && ops[|ops| - 1].RegisterOp?
    ensures Consistent(Run(ops[..|ops| - 1], ttl))
    ensures Lawful(Run(ops[..|ops| - 1], ttl), ops[|ops| - 1].record)
  {
    var st, sid := Run(ops[..|ops| - 1], ttl), ops[|ops| - 1].record.apmSessionId;
    RunRefinesTable(ops[..|ops| - 1], ttl);
    if sid in st.owner {
      assert Find(Bucket(st, st.owner[sid]), sid).subjectKey == st.owner[sid];
    }
  }

  lemma {:induction false} MirroredRun(ops: seq<Op>, now: Time, ttl: Time)
    requires Plausible(ops, now) && LawfulRun(ops, ttl) && 0.0 < ttl
    ensures R.Timed(RedisRun(ops, ttl), now, ttl)
    ensures Mirrored(Run(ops, ttl), RedisRun(ops, ttl), now, ttl)
  {
    if ops == [] {
      assert forall s, sid :: MirroredField(Run(ops, ttl), RedisRun(ops, ttl), s, sid, now, ttl);
    } else {
      var front, op := ops[..|ops| - 1], ops[|ops| - 1];
      MirroredRun(front, op.at, ttl);
      RunRefinesTable(front, ttl);
      if op.RegisterOp? {
        LastIsLawful(ops, ttl);
      }
      MirroredStep(Run(front, ttl), RedisRun(front, ttl), op, ttl);
      MirroredAdvances(Run(ops, ttl), RedisRun(ops, ttl), op.at, now, ttl);
    }
  }

  lemma MirroredAdvances(st: Indexes, db: R.Redis, now: Time, later: Time, ttl: Time)
    requires R.Timed(db, now, ttl) && Mirrored(st, db, now, ttl) && now <= later
    ensures R.Timed(db, later, ttl) && Mirrored(st, db, later, ttl)
  {
    R.TimedAdvances(db, now, later, ttl);
    forall s, sid
      ensures MirroredField(st, db, s, sid, later, ttl)
    {
      assert MirroredField(st, db, s, sid, now, ttl);
    }
  }

  /** On lawful runs a young record that Redis lists is listed by the in-memory store. */
  lemma RedisWithinMemory(ops: seq<Op>, s: string, sid: string, now: Time, ttl: Time)
    requires Plausible(ops, now) && LawfulRun(ops, ttl) && 0.0 < ttl
    requires var found := R.HGetAll(RedisRun(ops, ttl), s, now); sid in found && Young(found[sid], now, ttl)
    ensures R.HGetAll(RedisRun(ops, ttl), s, now)[sid] in I.SessionsFor(Run(ops, ttl), s, now, ttl)
  {
    MirroredRun(ops, now, ttl);
    RunRefinesTable(ops, ttl);
    MirroredSweep(Run(ops, ttl), RedisRun(ops, ttl), s, now, ttl);
    assert MirroredField(Sweep(Run(ops, ttl), s, now, ttl), RedisRun(ops, ttl), s, sid, now, ttl);
  }

  /** On lawful runs both backends list exactly the same young records. */
  lemma SameYoungSessions(ops: seq<Op>, s: string, r: CorrelationRecord, now: Time, ttl: Time)
    requires Plausible(ops, now) && LawfulRun(ops, ttl) && 0.0 < ttl
    requires Young(r, now, ttl)
    ensures r in I.SessionsFor(Run(ops, ttl), s, now, ttl) <==>
            (var found := R.HGetAll(RedisRun(ops, ttl), s, now); r.apmSessionId in found && found[r.apmSessionId] == r)
  {
    if r in I.SessionsFor(Run(ops, ttl), s, now, ttl) {
      MemoryWithinRedis(ops, s, r, now, ttl);
    }
    var found := R.HGetAll(RedisRun(ops, ttl), s, now);
    if r.apmSessionId in found && found[r.apmSessionId] == r {
      RedisWithinMemory(ops, s, r.apmSessionId, now, ttl);
    }
  }

  /** At age exactly the TTL only the in-memory store lists a record: it drops what is strictly older. */
  lemma ExactAgeDiffers(r: CorrelationRecord, ttl: Time)
    requires 0.0 < ttl
    ensures var ops, now := [RegisterOp(r, r.registeredAt)], r.registeredAt + ttl;
            && r in I.SessionsFor(Run(ops, ttl), r.subjectKey, now, ttl)
            && r.apmSessionId !in R.HGetAll(RedisRun(ops, ttl), r.subjectKey, now)
  {
    var ops, now := [RegisterOp(r, r.registeredAt)], r.registeredAt + ttl;
    assert ops[..0] == [];
    assert Run(ops, ttl) == I.Register(EMPTY, r);
    assert RedisRun(ops, ttl) == R.Register(R.EMPTY, r, r.registeredAt, ttl);
    assert Bucket(Run(ops, ttl), r.subjectKey) == [r];
    assert ExpiredIds([r], now - ttl) == [];
  }

  /** Redis lists records beyond the TTL: a later session of the subject extends the whole hash. */
  lemma RedisOutlivesTtl(r1: CorrelationRecord, r2: CorrelationRecord, now: Time, ttl: Time)
    requires r1.subjectKey == r2.subjectKey != "" && r1.apmSessionId != r2.apmSessionId
    requires r1.registeredAt <= r2.registeredAt < r1.registeredAt + ttl < now < r2.registeredAt + ttl
    ensures var ops := [RegisterOp(r1, r1.registeredAt), RegisterOp(r2, r2.registeredAt)];
            && r1 !in I.SessionsFor(Run(ops, ttl), r1.subjectKey, now, ttl)
            && r1.apmSessionId in R.HGetAll(RedisRun(ops, ttl), r1.subjectKey, now)
  {
    var ops := [RegisterOp(r1, r1.registeredAt), RegisterOp(r2, r2.registeredAt)];
    assert ops[..1] == [RegisterOp(r1, r1.registeredAt)];
    assert ops[..1][..0] == [];
    var st := I.Register(I.Register(EMPTY, r1), r2);
    assert Run(ops[..1], ttl) == I.Register(EMPTY, r1);
    assert Run(ops, ttl) == st;
    assert RedisRun(ops[..1], ttl) == R.Register(R.EMPTY, r1, r1.registeredAt, ttl);
    assert RedisRun(ops, ttl) == R.Register(R.Register(R.EMPTY, r1, r1.registeredAt, ttl), r2, r2.registeredAt, ttl);
    assert [r1][1..] == [] && Put([r1], r2) == [r1] + Put([], r2) == [r1, r2];
    assert ExpiredIds([r1, r2][1..], now - ttl) == [];
    assert ExpiredIds([r1, r2], now - ttl) == [r1.apmSessionId];
    assert DeregisterAll(st, [r1.apmSessionId]) == I.Deregister(st, r1.apmSessionId);
    assert Bucket(st, r1.subjectKey) == [r1, r2];
    assert Sweep(st, r1.subjectKey, now, ttl) == I.Deregister(st, r1.apmSessionId);
    assert Remove([r1, r2], r1.apmSessionId) == [r2];
  }

  /**
    There `deregister` does nothing for the older session: it stays listed, and
    the next fast-path event targets it again. `R.DeregisterForgetsIff` says when.
   */
  lemma ExpiredReverseKeyIsNotForgotten(r1: CorrelationRecord, r2: CorrelationRecord, now: Time, ttl: Time)
    requires r1.subjectKey == r2.subjectKey && r1.apmSessionId != r2.apmSessionId
    requires r1.registeredAt <= r2.registeredAt < r1.registeredAt + ttl <= now < r2.registeredAt + ttl
    ensures var ops := [RegisterOp(r1, r1.registeredAt), RegisterOp(r2, r2.registeredAt),
                        DeregisterOp(r1.apmSessionId, now)];
            r1.apmSessionId in R.HGetAll(RedisRun(ops, ttl), r1.subjectKey, now)
  {
    var ops := [RegisterOp(r1, r1.registeredAt), RegisterOp(r2, r2.registeredAt), DeregisterOp(r1.apmSessionId, now)];
    assert ops[..2] == [RegisterOp(r1, r1.registeredAt), RegisterOp(r2, r2.registeredAt)];
    assert ops[..2][..1] == [RegisterOp(r1, r1.registeredAt)];
    assert ops[..2][..1][..0] == [];
    assert RedisRun(ops[..2][..1], ttl) == R.Register(R.EMPTY, r1, r1.registeredAt, ttl);
    assert RedisRun(ops[..2], ttl) == R.Register(RedisRun(ops[..2][..1], ttl), r2, r2.registeredAt, ttl);
  }
}
