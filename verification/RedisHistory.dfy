/**
  What the Redis correlation store lists, from the operations alone, and when
  it lists what the in-memory store lists.
 */
module RedisHistory {
  import opened Models
  import opened I = CorrelationIndexes
  import opened SessionBackends
  import R = RedisCorrelation

  ghost predicate TimeOrdered(ops: seq<Op>, now: Time) {
    && (forall i, j :: 0 <= i < j < |ops| ==> ops[i].at <= ops[j].at)
    && forall i :: 0 <= i < |ops| ==> ops[i].at <= now
  }

  // ----- What the operations say -----

  predicate RegistersUnder(op: Op, s: string) {
    op.RegisterOp? && op.record.subjectKey == s
  }

  predicate Touches(op: Op, sid: string) {
    (op.RegisterOp? && op.record.apmSessionId == sid) || (op.DeregisterOp? && op.sid == sid)
  }

  /** Operation `i` is the last one about `sid`. */
  predicate LastAbout(ops: seq<Op>, i: nat, sid: string)
    requires i < |ops|
  {
    Touches(ops[i], sid) && forall j :: i < j < |ops| ==> !Touches(ops[j], sid)
  }

  predicate LeaseFrom(ops: seq<Op>, i: nat, sid: string, s: string, t: Time, ttl: Time) {
    i < |ops| && RegistersUnder(ops[i], s) && LastAbout(ops, i, sid) && t < ops[i].at + ttl
  }

  /** The last operation about `sid` registered it under `s`, less than a TTL before `t`. */
  ghost predicate LeaseNames(ops: seq<Op>, sid: string, s: string, t: Time, ttl: Time) {
    exists i: nat :: LeaseFrom(ops, i, sid, s, t, ttl)
  }

  predicate Renewed(ops: seq<Op>, s: string, j: nat, ttl: Time)
    requires j < |ops|
  {
    exists k :: j < k < |ops| && RegistersUnder(ops[k], s) && ops[k].at < ops[j].at + ttl
  }

  /** From operation `i` to `t`, no registration under `s` is a TTL or more before the next one, or before `t`. */
  predicate KeptAlive(ops: seq<Op>, s: string, i: nat, t: Time, ttl: Time) {
    forall j: nat :: i <= j < |ops| && RegistersUnder(ops[j], s) ==> t < ops[j].at + ttl || Renewed(ops, s, j, ttl)
  }

  /** Operation `j` deregisters `sid` while its reverse key is alive and names `s`. */
  ghost predicate Forgets(ops: seq<Op>, j: nat, sid: string, s: string, ttl: Time)
    requires j < |ops|
  {
    ops[j].DeregisterOp? && ops[j].sid == sid && LeaseNames(ops[..j], sid, s, ops[j].at, ttl)
  }

  predicate Replaces(op: Op, r: CorrelationRecord) {
    RegistersUnder(op, r.subjectKey) && Touches(op, r.apmSessionId)
  }

  predicate NotReplaced(ops: seq<Op>, i: nat, r: CorrelationRecord) {
    forall j :: i < j < |ops| ==> !Replaces(ops[j], r)
  }

  ghost predicate NotForgotten(ops: seq<Op>, i: nat, r: CorrelationRecord, ttl: Time) {
    forall j: nat :: i < j < |ops| ==> !Forgets(ops, j, r.apmSessionId, r.subjectKey, ttl)
  }

  /** Operation `i` registers `r`, and nothing later replaces or forgets it or lets its hash expire. */
  ghost predicate ListedFrom(ops: seq<Op>, i: nat, r: CorrelationRecord, t: Time, ttl: Time) {
    && i < |ops| && ops[i].RegisterOp? && ops[i].record == r
    && NotReplaced(ops, i, r)
    && KeptAlive(ops, r.subjectKey, i, t, ttl)
    && NotForgotten(ops, i, r, ttl)
  }

  ghost predicate Listed(ops: seq<Op>, r: CorrelationRecord, t: Time, ttl: Time) {
    exists i: nat :: ListedFrom(ops, i, r, t, ttl)
  }

  // ----- Reverse keys -----

  predicate Names(db: R.Redis, sid: string, s: string, t: Time) {
    R.LiveLease(db, sid, t) && db.leases[sid].subjectKey == s
  }

  lemma LeaseGrows(ops: seq<Op>, op: Op, sid: string, s: string, t: Time, ttl: Time)
    ensures LeaseNames(ops + [op], sid, s, t, ttl) <==>
            if Touches(op, sid) then RegistersUnder(op, s) && t < op.at + ttl else LeaseNames(ops, sid, s, t, ttl)
  {
    var all := ops + [op];
    if Touches(op, sid) {
      assert all[|ops|] == op;
      forall i: nat
        ensures LeaseFrom(all, i, sid, s, t, ttl) <==> i == |ops| && RegistersUnder(op, s) && t < op.at + ttl
      {
      }
      assert LeaseFrom(all, |ops|, sid, s, t, ttl) <==> RegistersUnder(op, s) && t < op.at + ttl;
    } else {
      forall i: nat
        ensures LeaseFrom(all, i, sid, s, t, ttl) <==> LeaseFrom(ops, i, sid, s, t, ttl)
      {
        if i < |ops| {
          assert all[i] == ops[i];
          if LastAbout(ops, i, sid) {
            assert forall j :: i < j < |all| ==> all[j] == if j < |ops| then ops[j] else op;
          }
          if LastAbout(all, i, sid) {
            assert forall j :: i < j < |ops| ==> ops[j] == all[j];
          }
        }
      }
    }
  }

  lemma NamesStep(db: R.Redis, op: Op, sid: string, s: string, t: Time, ttl: Time)
    requires op.at <= t
    ensures Names(RedisStep(db, op, ttl), sid, s, t) <==>
            if Touches(op, sid) then RegistersUnder(op, s) && t < op.at + ttl else Names(db, sid, s, t)
  {
  }

  /** A reverse key is alive and names `s` exactly when the operations say so. */
  lemma {:induction false} LeaseIs(ops: seq<Op>, sid: string, s: string, t: Time, ttl: Time)
    requires TimeOrdered(ops, t)
    ensures Names(RedisRun(ops, ttl), sid, s, t) <==> LeaseNames(ops, sid, s, t, ttl)
  {
    if ops != [] {
      var front, op := ops[..|ops| - 1], ops[|ops| - 1];
      assert ops == front + [op];
      LeaseIs(front, sid, s, t, ttl);
      LeaseGrows(front, op, sid, s, t, ttl);
      NamesStep(RedisRun(front, ttl), op, sid, s, t, ttl);
    }
  }

  // ----- Hash fields -----

  predicate Holds(db: R.Redis, r: CorrelationRecord, t: Time) {
    var found := R.HGetAll(db, r.subjectKey, t);
    r.apmSessionId in found && found[r.apmSessionId] == r
  }

  lemma HoldsStep(db: R.Redis, op: Op, r: CorrelationRecord, t: Time, ttl: Time)
    requires op.at <= t && 0.0 < ttl
    ensures RegistersUnder(op, r.subjectKey) ==>
              (Holds(RedisStep(db, op, ttl), r, t) <==>
               t < op.at + ttl && (op.record == r || (!Touches(op, r.apmSessionId) && Holds(db, r, op.at))))
    ensures !RegistersUnder(op, r.subjectKey) ==>
              (Holds(RedisStep(db, op, ttl), r, t) <==>
               && Holds(db, r, t)
               && !(op.DeregisterOp? && op.sid == r.apmSessionId && Names(db, op.sid, r.subjectKey, op.at)))
  {
  }

  lemma RenewedGrows(ops: seq<Op>, op: Op, s: string, j: nat, ttl: Time)
    requires j < |ops|
    ensures Renewed(ops + [op], s, j, ttl) <==>
            Renewed(ops, s, j, ttl) || (RegistersUnder(op, s) && op.at < ops[j].at + ttl)
  {
    var all := ops + [op];
    assert all[|ops|] == op;
    if Renewed(ops, s, j, ttl) {
      var k :| j < k < |ops| && RegistersUnder(ops[k], s) && ops[k].at < ops[j].at + ttl;
      assert all[k] == ops[k];
    }
  }

  lemma KeptAliveGrows(ops: seq<Op>, op: Op, s: string, i: nat, t: Time, ttl: Time)
    requires i < |ops| && TimeOrdered(ops, op.at) && op.at <= t
    ensures KeptAlive(ops + [op], s, i, t, ttl) <==>
            if RegistersUnder(op, s) then t < op.at + ttl && KeptAlive(ops, s, i, op.at, ttl)
            else KeptAlive(ops, s, i, t, ttl)
  {
    var all := ops + [op];
    forall j: nat | i <= j < |ops|
      ensures Renewed(all, s, j, ttl) <==> Renewed(ops, s, j, ttl) || (RegistersUnder(op, s) && op.at < ops[j].at + ttl)
      ensures all[j] == ops[j]
    {
      RenewedGrows(ops, op, s, j, ttl);
    }
    assert all[|ops|] == op && !Renewed(all, s, |ops|, ttl);
  }

  lemma ForgetsGrows(ops: seq<Op>, op: Op, j: nat, sid: string, s: string, ttl: Time)
    requires j <= |ops|
    ensures Forgets(ops + [op], j, sid, s, ttl) <==>
            if j < |ops| then Forgets(ops, j, sid, s, ttl)
            else op.DeregisterOp? && op.sid == sid && LeaseNames(ops, sid, s, op.at, ttl)
  {
    assert (ops + [op])[..j] == ops[..j];
    assert ops[..|ops|] == ops;
  }

  /** `op`, after `ops`, deregisters the session of `r` while its reverse key is alive and names its subject. */
  ghost predicate ForgetsNow(ops: seq<Op>, op: Op, r: CorrelationRecord, ttl: Time) {
    op.DeregisterOp? && op.sid == r.apmSessionId && LeaseNames(ops, op.sid, r.subjectKey, op.at, ttl)
  }

  lemma NotReplacedGrows(ops: seq<Op>, op: Op, i: nat, r: CorrelationRecord)
    requires i < |ops|
    ensures NotReplaced(ops + [op], i, r) <==> NotReplaced(ops, i, r) && !Replaces(op, r)
  {
    var all := ops + [op];
    assert all[|ops|] == op;
    assert forall j :: i < j < |ops| ==> all[j] == ops[j];
  }

  lemma NotForgottenGrows(ops: seq<Op>, op: Op, i: nat, r: CorrelationRecord, ttl: Time)
    requires i < |ops|
    ensures NotForgotten(ops + [op], i, r, ttl) <==> NotForgotten(ops, i, r, ttl) && !ForgetsNow(ops, op, r, ttl)
  {
    var all, sid, s := ops + [op], r.apmSessionId, r.subjectKey;
    ForgetsGrows(ops, op, |ops|, sid, s, ttl);
    forall j: nat | i < j < |ops|
      ensures Forgets(all, j, sid, s, ttl) <==> Forgets(ops, j, sid, s, ttl)
    {
      ForgetsGrows(ops, op, j, sid, s, ttl);
    }
    assert Forgets(all, |ops|, sid, s, ttl) <==> ForgetsNow(ops, op, r, ttl);
    if NotForgotten(all, i, r, ttl) {
      forall j: nat | i < j < |ops|
        ensures !Forgets(ops, j, sid, s, ttl)
      {
        assert !Forgets(all, j, sid, s, ttl);
      }
    }
  }

  lemma ListedFromGrows(ops: seq<Op>, op: Op, i: nat, r: CorrelationRecord, t: Time, ttl: Time)
    requires i < |ops| && TimeOrdered(ops, op.at) && op.at <= t
    ensures ListedFrom(ops + [op], i, r, t, ttl) <==>
            && !Replaces(op, r) && !ForgetsNow(ops, op, r, ttl)
            && (if RegistersUnder(op, r.subjectKey) then t < op.at + ttl && ListedFrom(ops, i, r, op.at, ttl)
                else ListedFrom(ops, i, r, t, ttl))
  {
    assert (ops + [op])[i] == ops[i];
    KeptAliveGrows(ops, op, r.subjectKey, i, t, ttl);
    NotReplacedGrows(ops, op, i, r);
    NotForgottenGrows(ops, op, i, r, ttl);
  }

  lemma ListedGrows(ops: seq<Op>, op: Op, r: CorrelationRecord, t: Time, ttl: Time)
    requires TimeOrdered(ops, op.at) && op.at <= t && 0.0 < ttl
    ensures RegistersUnder(op, r.subjectKey) ==>
              (Listed(ops + [op], r, t, ttl) <==>
               t < op.at + ttl && (op.record == r || (!Touches(op, r.apmSessionId) && Listed(ops, r, op.at, ttl))))
    ensures !RegistersUnder(op, r.subjectKey) ==>
              (Listed(ops + [op], r, t, ttl) <==>
               Listed(ops, r, t, ttl) && !ForgetsNow(ops, op, r, ttl))
  {
    var all := ops + [op];
    forall i: nat | i < |ops|
      ensures ListedFrom(all, i, r, t, ttl) <==>
              && !Replaces(op, r) && !ForgetsNow(ops, op, r, ttl)
              && (if RegistersUnder(op, r.subjectKey) then t < op.at + ttl && ListedFrom(ops, i, r, op.at, ttl)
                  else ListedFrom(ops, i, r, t, ttl))
    {
      ListedFromGrows(ops, op, i, r, t, ttl);
    }
    assert all[|ops|] == op;
    assert ListedFrom(all, |ops|, r, t, ttl) <==> op.RegisterOp? && op.record == r && t < op.at + ttl;
  }

  /**
    On every run, moved session ids included: Redis lists exactly the records
    that the operations alone say.
   */
  lemma {:induction false} HoldsIs(ops: seq<Op>, r: CorrelationRecord, t: Time, ttl: Time)
    requires TimeOrdered(ops, t) && 0.0 < ttl
    ensures Holds(RedisRun(ops, ttl), r, t) <==> Listed(ops, r, t, ttl)
  {
    if ops != [] {
      var front, op := ops[..|ops| - 1], ops[|ops| - 1];
      assert ops == front + [op];
      HoldsIs(front, r, op.at, ttl);
      HoldsIs(front, r, t, ttl);
      LeaseIs(front, r.apmSessionId, r.subjectKey, op.at, ttl);
      ListedGrows(front, op, r, t, ttl);
      HoldsStep(RedisRun(front, ttl), op, r, t, ttl);
    }
  }

  lemma {:induction false} KeyedRun(ops: seq<Op>, ttl: Time)
    ensures R.Keyed(RedisRun(ops, ttl))
  {
    if ops != [] {
      KeyedRun(ops[..|ops| - 1], ttl);
      KeyedStep(RedisRun(ops[..|ops| - 1], ttl), ops[|ops| - 1], ttl);
    }
  }

  lemma KeyedStep(db: R.Redis, op: Op, ttl: Time)
    requires R.Keyed(db)
    ensures R.Keyed(RedisStep(db, op, ttl))
  {
  }

  /**
    On every run, moved session ids included: Redis lists for `s` exactly the
    records that the operations alone say.
   */
  lemma RedisListsIff(ops: seq<Op>, s: string, r: CorrelationRecord, now: Time, ttl: Time)
    requires TimeOrdered(ops, now) && 0.0 < ttl
    ensures r in R.HGetAll(RedisRun(ops, ttl), s, now).Values <==> r.subjectKey == s && Listed(ops, r, now, ttl)
  {
    var found := R.HGetAll(RedisRun(ops, ttl), s, now);
    KeyedRun(ops, ttl);
    HoldsIs(ops, r, now, ttl);
    if r in found.Values {
      var sid :| sid in found && found[sid] == r;
      assert sid == r.apmSessionId && s == r.subjectKey;
    }
    if r.subjectKey == s && Holds(RedisRun(ops, ttl), r, now) {
      assert found[r.apmSessionId] in found.Values;
    }
  }

  // ----- The in-memory store -----

  predicate CurrentFrom(ops: seq<Op>, i: nat, r: CorrelationRecord) {
    i < |ops| && ops[i].RegisterOp? && ops[i].record == r && LastAbout(ops, i, r.apmSessionId)
  }

  /** The last operation about the session of `r` registered it as `r`. */
  ghost predicate Current(ops: seq<Op>, r: CorrelationRecord) {
    exists i: nat :: CurrentFrom(ops, i, r)
  }

  lemma CurrentGrows(ops: seq<Op>, op: Op, r: CorrelationRecord)
    ensures Current(ops + [op], r) <==>
            if Touches(op, r.apmSessionId) then op.RegisterOp? && op.record == r else Current(ops, r)
  {
    var all := ops + [op];
    assert all[|ops|] == op;
    if Touches(op, r.apmSessionId) {
      forall i: nat
        ensures CurrentFrom(all, i, r) <==> i == |ops| && op.RegisterOp? && op.record == r
      {
      }
      assert CurrentFrom(all, |ops|, r) <==> op.RegisterOp? && op.record == r;
    } else {
      forall i: nat
        ensures CurrentFrom(all, i, r) <==> CurrentFrom(ops, i, r)
      {
        if i < |ops| {
          assert forall j :: i <= j < |ops| ==> all[j] == ops[j];
        }
      }
    }
  }

  lemma {:induction false} TableIsCurrent(ops: seq<Op>, r: CorrelationRecord, now: Time, ttl: Time)
    requires TimeOrdered(ops, now) && now <= r.registeredAt + ttl
    ensures r.apmSessionId in TableRun(ops, ttl) && TableRun(ops, ttl)[r.apmSessionId] == r <==> Current(ops, r)
  {
    if ops != [] {
      var front, op := ops[..|ops| - 1], ops[|ops| - 1];
      assert ops == front + [op];
      TableIsCurrent(front, r, now, ttl);
      CurrentGrows(front, op, r);
    }
  }

  /** On lawful runs the in-memory store lists the current records of `s` that are not older than the TTL. */
  lemma MemoryListsIff(ops: seq<Op>, s: string, r: CorrelationRecord, now: Time, ttl: Time)
    requires TimeOrdered(ops, now) && LawfulRun(ops, ttl)
    ensures r in I.SessionsFor(Run(ops, ttl), s, now, ttl) <==>
            r.subjectKey == s && now <= r.registeredAt + ttl && Current(ops, r)
  {
    LookupIsExact(ops, ttl, s, now);
    if now <= r.registeredAt + ttl {
      TableIsCurrent(ops, r, now, ttl);
    }
  }

  // ----- When the backends agree -----

  ghost predicate LookupsAgree(ops: seq<Op>, s: string, now: Time, ttl: Time) {
    forall r :: r in I.SessionsFor(Run(ops, ttl), s, now, ttl) <==> r in R.HGetAll(RedisRun(ops, ttl), s, now).Values
  }

  /** Redis lists `r`, at least a TTL old, exactly when the in-memory store does: current, and just a TTL old. */
  ghost predicate AgedAlike(ops: seq<Op>, r: CorrelationRecord, now: Time, ttl: Time) {
    Listed(ops, r, now, ttl) <==> now == r.registeredAt + ttl && Current(ops, r)
  }

  /**
    On lawful runs the lookups of `s` agree iff Redis lists no record of `s`
    older than the TTL, and the records exactly that old iff they are current.
   */
  lemma LookupsAgreeIff(ops: seq<Op>, s: string, now: Time, ttl: Time)
    requires Plausible(ops, now) && LawfulRun(ops, ttl) && 0.0 < ttl
    ensures LookupsAgree(ops, s, now, ttl) <==>
            forall r: CorrelationRecord :: r.subjectKey == s && !Young(r, now, ttl) ==> AgedAlike(ops, r, now, ttl)
  {
    forall r: CorrelationRecord
      ensures (r in I.SessionsFor(Run(ops, ttl), s, now, ttl) <==>
               r in R.HGetAll(RedisRun(ops, ttl), s, now).Values) <==>
              (r.subjectKey == s && !Young(r, now, ttl) ==> AgedAlike(ops, r, now, ttl))
    {
      LookupAgreesOn(ops, s, r, now, ttl);
    }
  }

  lemma LookupAgreesOn(ops: seq<Op>, s: string, r: CorrelationRecord, now: Time, ttl: Time)
    requires Plausible(ops, now) && LawfulRun(ops, ttl) && 0.0 < ttl
    ensures (r in I.SessionsFor(Run(ops, ttl), s, now, ttl) <==> r in R.HGetAll(RedisRun(ops, ttl), s, now).Values) <==>
            (r.subjectKey == s && !Young(r, now, ttl) ==> AgedAlike(ops, r, now, ttl))
  {
    MemoryListsIff(ops, s, r, now, ttl);
    RedisListsIff(ops, s, r, now, ttl);
    if r.subjectKey == s && Young(r, now, ttl) {
      SameYoungSessions(ops, s, r, now, ttl);
      HoldsIs(ops, r, now, ttl);
    }
  }
}
