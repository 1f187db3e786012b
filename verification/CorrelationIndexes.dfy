/**
  The in-memory correlation store: a dictionary from subject to sessions, and
  a reverse index from session id to subject. A bucket is a Python dictionary
  keyed by session id, kept as its values in insertion order.
 */
module CorrelationIndexes {
  import opened Models

  datatype Indexes = Indexes(
    bySubject: map<string, seq<CorrelationRecord>>,
    owner: map<string, string>)

  const EMPTY := Indexes(map[], map[])

  // ----- Buckets -----

  predicate HasId(b: seq<CorrelationRecord>, sid: string) {
    exists r :: r in b && r.apmSessionId == sid
  }

  predicate Distinct(b: seq<CorrelationRecord>) {
    forall i, j :: 0 <= i < j < |b| ==> b[i].apmSessionId != b[j].apmSessionId
  }

  function Ids(b: seq<CorrelationRecord>): (ids: seq<string>)
    ensures |ids| == |b|
    ensures forall i :: 0 <= i < |b| ==> ids[i] == b[i].apmSessionId
  {
    seq(|b|, i requires 0 <= i < |b| => b[i].apmSessionId)
  }

  /** `bucket[sid] = r`: replaces in place, or appends. */
  function Put(b: seq<CorrelationRecord>, r: CorrelationRecord): (b': seq<CorrelationRecord>)
    ensures b' != []
    ensures Distinct(b) ==> Distinct(b')
    ensures Distinct(b) ==>
              forall x :: x in b' <==> x == r || (x in b && x.apmSessionId != r.apmSessionId)
  {
    if b == [] then [r]
    else if b[0].apmSessionId == r.apmSessionId then
      assert forall x :: x in b <==> x == b[0] || x in b[1..];
      [r] + b[1..]
    else
      assert forall x :: x in b <==> x == b[0] || x in b[1..];
      [b[0]] + Put(b[1..], r)
  }

  /** A new session id comes last. */
  lemma {:induction false} PutNew(b: seq<CorrelationRecord>, r: CorrelationRecord)
    requires forall i :: 0 <= i < |b| ==> b[i].apmSessionId != r.apmSessionId
    ensures Put(b, r) == b + [r]
  {
    if b != [] {
      PutNew(b[1..], r);
    }
  }

  /** A known one keeps its place, and so do all others. */
  lemma {:induction false} PutKnown(b: seq<CorrelationRecord>, r: CorrelationRecord, k: nat)
    requires k < |b| && b[k].apmSessionId == r.apmSessionId
    requires forall i :: 0 <= i < k ==> b[i].apmSessionId != r.apmSessionId
    ensures Put(b, r) == b[k := r]
  {
    if k > 0 {
      PutKnown(b[1..], r, k - 1);
      assert b[1..][k - 1 := r] == b[k := r][1..];
    }
  }

  /** The records of `b` whose session id is not in `dead`. */
  function Keep(b: seq<CorrelationRecord>, dead: set<string>): (b': seq<CorrelationRecord>)
    ensures forall x :: x in b' <==> x in b && x.apmSessionId !in dead
    ensures Distinct(b) ==> Distinct(b')
  {
    if b == [] then []
    else
      assert forall x :: x in b <==> x == b[0] || x in b[1..];
      if b[0].apmSessionId in dead then Keep(b[1..], dead) else [b[0]] + Keep(b[1..], dead)
  }

  /** `bucket.pop(sid, None)`. */
  function Remove(b: seq<CorrelationRecord>, sid: string): seq<CorrelationRecord> {
    if b == [] then []
    else if b[0].apmSessionId == sid then b[1..]
    else [b[0]] + Remove(b[1..], sid)
  }

  /** Ids of the records registered before `cutoff`, in order. */
  function ExpiredIds(b: seq<CorrelationRecord>, cutoff: Time): (ids: seq<string>)
    ensures forall sid :: sid in ids <==> exists r :: r in b && r.apmSessionId == sid && r.registeredAt < cutoff
  {
    if b == [] then []
    else
      assert forall x :: x in b <==> x == b[0] || x in b[1..];
      (if b[0].registeredAt < cutoff then [b[0].apmSessionId] else []) + ExpiredIds(b[1..], cutoff)
  }

  lemma {:induction false} RemoveIsKeep(b: seq<CorrelationRecord>, sid: string)
    requires Distinct(b)
    ensures Remove(b, sid) == Keep(b, {sid})
  {
    if b != [] {
      RemoveIsKeep(b[1..], sid);
      if b[0].apmSessionId == sid {
        KeepAll(b[1..], {sid});
      }
    }
  }

  lemma {:induction false} KeepAll(b: seq<CorrelationRecord>, dead: set<string>)
    requires forall r :: r in b ==> r.apmSessionId !in dead
    ensures Keep(b, dead) == b
  {
    if b != [] {
      KeepAll(b[1..], dead);
    }
  }

  lemma {:induction false} KeepKeep(b: seq<CorrelationRecord>, d1: set<string>, d2: set<string>)
    ensures Keep(Keep(b, d1), d2) == Keep(b, d1 + d2)
  {
    if b != [] {
      KeepKeep(b[1..], d1, d2);
    }
  }

  // ----- Operations -----

  function Bucket(st: Indexes, s: string): seq<CorrelationRecord> {
    if s in st.bySubject then st.bySubject[s] else []
  }

  function Register(st: Indexes, r: CorrelationRecord): Indexes {
    Indexes(st.bySubject[r.subjectKey := Put(Bucket(st, r.subjectKey), r)],
            st.owner[r.apmSessionId := r.subjectKey])
  }

  /** An empty subject key is falsy in the source, so its bucket is not touched. */
  function Deregister(st: Indexes, sid: string): Indexes {
    if sid !in st.owner then st
    else
      var s := st.owner[sid];
      if s != "" && s in st.bySubject then
        var b := Remove(st.bySubject[s], sid);
        Indexes(if b == [] then st.bySubject - {s} else st.bySubject[s := b], st.owner - {sid})
      else
        Indexes(st.bySubject, st.owner - {sid})
  }

  function DeregisterAll(st: Indexes, sids: seq<string>): Indexes {
    if sids == [] then st
    else Deregister(DeregisterAll(st, sids[..|sids| - 1]), sids[|sids| - 1])
  }

  function Sweep(st: Indexes, s: string, now: Time, ttl: Time): Indexes {
    DeregisterAll(st, ExpiredIds(Bucket(st, s), now - ttl))
  }

  function SessionsFor(st: Indexes, s: string, now: Time, ttl: Time): seq<CorrelationRecord> {
    Bucket(Sweep(st, s, now, ttl), s)
  }

  // ----- What holds on every run -----

  /** Buckets are non-empty and well keyed; every reverse entry has its forward entry. */
  ghost predicate Backed(st: Indexes) {
    && (forall s :: s in st.bySubject ==>
          st.bySubject[s] != [] && Distinct(st.bySubject[s]) && forall r :: r in st.bySubject[s] ==> r.subjectKey == s)
    && forall sid :: sid in st.owner ==> HasId(Bucket(st, st.owner[sid]), sid)
  }

  lemma RegisterBacked(st: Indexes, r: CorrelationRecord)
    requires Backed(st)
    ensures Backed(Register(st, r))
  {
  }

  lemma DeregisterBacked(st: Indexes, sid: string)
    requires Backed(st)
    ensures Backed(Deregister(st, sid))
  {
    if sid in st.owner {
      var s := st.owner[sid];
      var st' := Deregister(st, sid);
      RemoveIsKeep(Bucket(st, s), sid);
      forall x | x in st'.owner
        ensures HasId(Bucket(st', st'.owner[x]), x)
      {
        var r :| r in Bucket(st, st.owner[x]) && r.apmSessionId == x;
        assert r in Bucket(st', st.owner[x]);
      }
    }
  }

  lemma {:induction false} DeregisterAllBacked(st: Indexes, sids: seq<string>)
    requires Backed(st)
    ensures Backed(DeregisterAll(st, sids))
  {
    if sids != [] {
      DeregisterAllBacked(st, sids[..|sids| - 1]);
      DeregisterBacked(DeregisterAll(st, sids[..|sids| - 1]), sids[|sids| - 1]);
    }
  }

  // ----- What holds while a session id keeps its subject -----

  /** Every forward entry has its reverse entry, too. */
  ghost predicate Agrees(st: Indexes) {
    forall s, r :: s in st.bySubject && r in st.bySubject[s] ==>
                     r.apmSessionId in st.owner && st.owner[r.apmSessionId] == s
  }

  ghost predicate Consistent(st: Indexes) {
    Backed(st) && Agrees(st) && "" !in st.bySubject
  }

  /** A caller can check this before registering: the id is new, or keeps its subject. */
  predicate Lawful(st: Indexes, r: CorrelationRecord) {
    && r.subjectKey != ""
    && (r.apmSessionId in st.owner ==> st.owner[r.apmSessionId] == r.subjectKey)
  }

  lemma MoveBreaksAgreement(st: Indexes, r: CorrelationRecord)
    requires Consistent(st) && r.apmSessionId in st.owner && st.owner[r.apmSessionId] != r.subjectKey
    ensures !Agrees(Register(st, r))
  {
    var st' := Register(st, r);
    var x := Find(Bucket(st, st.owner[r.apmSessionId]), r.apmSessionId);
    assert x.subjectKey in st'.bySubject && x in st'.bySubject[x.subjectKey];
  }

  lemma LawfulAgrees(st: Indexes, r: CorrelationRecord)
    requires Consistent(st) && Lawful(st, r)
    ensures Agrees(Register(st, r))
  {
  }

  lemma RegisterKeepsAgreementIff(st: Indexes, r: CorrelationRecord)
    requires Consistent(st)
    ensures Consistent(Register(st, r)) <==> Lawful(st, r)
  {
    RegisterBacked(st, r);
    if r.apmSessionId in st.owner && st.owner[r.apmSessionId] != r.subjectKey {
      MoveBreaksAgreement(st, r);
    } else if r.subjectKey != "" {
      LawfulAgrees(st, r);
    }
  }

  /** `st` with `b` as the bucket of `s`, and another reverse index. */
  function With(st: Indexes, s: string, b: seq<CorrelationRecord>, owner: map<string, string>): Indexes {
    Indexes(if b == [] then st.bySubject - {s} else st.bySubject[s := b], owner)
  }

  /** `st` with the sessions `dead` of subject `s` gone from both indexes. */
  function Without(st: Indexes, s: string, dead: set<string>): Indexes {
    With(st, s, Keep(Bucket(st, s), dead), st.owner - dead)
  }

  ghost predicate AllIn(dead: set<string>, b: seq<CorrelationRecord>) {
    forall sid :: sid in dead ==> HasId(b, sid)
  }

  lemma WithoutNone(st: Indexes, s: string)
    requires Backed(st)
    ensures Without(st, s, {}) == st
  {
    KeepAll(Bucket(st, s), {});
    if s !in st.bySubject {
      assert st.bySubject - {s} == st.bySubject;
    }
    assert st.owner - {} == st.owner;
  }

  lemma WithWith(
    st: Indexes, s: string, b1: seq<CorrelationRecord>, o1: map<string, string>, b2: seq<CorrelationRecord>,
    o2: map<string, string>)
    ensures Bucket(With(st, s, b1, o1), s) == b1
    ensures With(With(st, s, b1, o1), s, b2, o2) == With(st, s, b2, o2)
  {
  }

  lemma WithoutWithout(st: Indexes, s: string, d1: set<string>, d2: set<string>)
    ensures Without(Without(st, s, d1), s, d2) == Without(st, s, d1 + d2)
  {
    var b := Bucket(st, s);
    KeepKeep(b, d1, d2);
    assert st.owner - d1 - d2 == st.owner - (d1 + d2);
    WithWith(st, s, Keep(b, d1), st.owner - d1, Keep(b, d1 + d2), st.owner - (d1 + d2));
  }

  lemma OwnedByBucket(st: Indexes, s: string, dead: set<string>)
    requires Consistent(st) && AllIn(dead, Bucket(st, s))
    ensures forall sid :: sid in dead ==> sid in st.owner && st.owner[sid] == s
  {
  }

  lemma WithoutBuckets(st: Indexes, s: string, dead: set<string>)
    ensures forall s' ::
              Bucket(Without(st, s, dead), s') == if s' == s then Keep(Bucket(st, s), dead) else Bucket(st, s')
  {
  }

  lemma WithoutBacked(st: Indexes, s: string, dead: set<string>)
    requires Backed(st)
    ensures Backed(Without(st, s, dead))
  {
    WithoutBuckets(st, s, dead);
    var st' := Without(st, s, dead);
    forall sid | sid in st'.owner
      ensures HasId(Bucket(st', st'.owner[sid]), sid)
    {
      assert sid in st.owner && sid !in dead;
      var r :| r in Bucket(st, st.owner[sid]) && r.apmSessionId == sid;
      assert r in Bucket(st', st'.owner[sid]);
    }
  }

  lemma WithoutConsistent(st: Indexes, s: string, dead: set<string>)
    requires Consistent(st) && AllIn(dead, Bucket(st, s))
    ensures Consistent(Without(st, s, dead))
  {
    WithoutBacked(st, s, dead);
    WithoutBuckets(st, s, dead);
    OwnedByBucket(st, s, dead);
    var st' := Without(st, s, dead);
    forall s', r | s' in st'.bySubject && r in st'.bySubject[s']
      ensures r.apmSessionId in st'.owner && st'.owner[r.apmSessionId] == s'
    {
      assert r in Bucket(st', s');
      assert r in Bucket(st, s');
      assert r.apmSessionId !in dead;
    }
  }

  lemma DeregisterIsWithout(st: Indexes, sid: string)
    requires Consistent(st)
    ensures Deregister(st, sid) == if sid in st.owner then Without(st, st.owner[sid], {sid}) else st
  {
    if sid in st.owner {
      RemoveIsKeep(Bucket(st, st.owner[sid]), sid);
    }
  }

  lemma {:induction false} DeregisterAllIsWithout(st: Indexes, s: string, sids: seq<string>)
    requires Consistent(st)
    requires forall sid :: sid in sids ==> HasId(Bucket(st, s), sid)
    ensures DeregisterAll(st, sids) == Without(st, s, set sid | sid in sids)
    ensures Consistent(DeregisterAll(st, sids))
  {
    var all := set sid | sid in sids;
    if sids == [] {
      WithoutNone(st, s);
      assert all == {};
    } else {
      var front, sid := sids[..|sids| - 1], sids[|sids| - 1];
      assert sids == front + [sid];
      var dead := set x | x in front;
      assert all == dead + {sid};
      DeregisterAllIsWithout(st, s, front);
      var st1 := Without(st, s, dead);
      DeregisterIsWithout(st1, sid);
      assert HasId(Bucket(st, s), sid);
      if sid in dead {
        assert all == dead;
      } else {
        var r :| r in Bucket(st, s) && r.apmSessionId == sid;
        assert st1.owner[sid] == s;
      }
      WithoutWithout(st, s, dead, {sid});
      WithoutConsistent(st, s, all);
    }
  }

  function Expired(st: Indexes, s: string, now: Time, ttl: Time): set<string> {
    var ids := ExpiredIds(Bucket(st, s), now - ttl);
    set sid | sid in ids
  }

  /** The sweep loop, however many records it removes, keeps both indexes in exact agreement. */
  lemma SweepIsWithout(st: Indexes, s: string, now: Time, ttl: Time)
    requires Consistent(st)
    ensures Sweep(st, s, now, ttl) == Without(st, s, Expired(st, s, now, ttl))
    ensures Consistent(Sweep(st, s, now, ttl))
    ensures AllIn(Expired(st, s, now, ttl), Bucket(st, s))
  {
    DeregisterAllIsWithout(st, s, ExpiredIds(Bucket(st, s), now - ttl));
  }

  // ----- One map from session id to record -----

  function Find(b: seq<CorrelationRecord>, sid: string): (r: CorrelationRecord)
    requires HasId(b, sid)
    ensures r in b && r.apmSessionId == sid
  {
    if b[0].apmSessionId == sid then b[0]
    else
      assert forall x :: x in b <==> x == b[0] || x in b[1..];
      Find(b[1..], sid)
  }

  ghost function Table(st: Indexes): map<string, CorrelationRecord>
    requires Backed(st)
  {
    map sid | sid in st.owner :: Find(Bucket(st, st.owner[sid]), sid)
  }

  lemma TableEntries(st: Indexes)
    requires Consistent(st)
    ensures forall s, r :: r in Bucket(st, s) <==>
                             r.apmSessionId in Table(st) && Table(st)[r.apmSessionId] == r && r.subjectKey == s
  {
  }

  lemma DistinctIds(b: seq<CorrelationRecord>, x: CorrelationRecord, y: CorrelationRecord)
    requires Distinct(b) && x in b && y in b && x.apmSessionId == y.apmSessionId
    ensures x == y
  {
  }

  /** A table is determined by the records it holds. */
  lemma TableIs(st: Indexes, t: map<string, CorrelationRecord>)
    requires Consistent(st)
    requires forall sid :: sid in t ==> t[sid].apmSessionId == sid
    requires forall r: CorrelationRecord ::
               r in Bucket(st, r.subjectKey) <==> r.apmSessionId in t && t[r.apmSessionId] == r
    ensures Table(st) == t
  {
  }

  lemma TableRegister(st: Indexes, r: CorrelationRecord)
    requires Consistent(st) && Lawful(st, r)
    ensures Consistent(Register(st, r))
    ensures Table(Register(st, r)) == Table(st)[r.apmSessionId := r]
  {
    RegisterKeepsAgreementIff(st, r);
    TableEntries(st);
    var st' := Register(st, r);
    var t := Table(st)[r.apmSessionId := r];
    forall x: CorrelationRecord
      ensures x in Bucket(st', x.subjectKey) <==> x.apmSessionId in t && t[x.apmSessionId] == x
    {
      assert x in Bucket(st, x.subjectKey) <==> x.apmSessionId in Table(st) && Table(st)[x.apmSessionId] == x;
    }
    TableIs(st', t);
  }

  lemma TableWithout(st: Indexes, s: string, dead: set<string>)
    requires Consistent(st) && AllIn(dead, Bucket(st, s))
    ensures Consistent(Without(st, s, dead))
    ensures Table(Without(st, s, dead)) == Table(st) - dead
  {
    WithoutConsistent(st, s, dead);
    var st' := Without(st, s, dead);
    forall sid
      ensures sid in Table(st') <==> sid in Table(st) && sid !in dead
      ensures sid in Table(st') ==> Table(st')[sid] == Table(st)[sid]
    {
      if sid in st'.owner {
        SameFind(st, s, dead, sid);
      }
    }
    IsMinus(Table(st'), Table(st), dead);
  }

  lemma IsMinus(a: map<string, CorrelationRecord>, b: map<string, CorrelationRecord>, dead: set<string>)
    requires forall sid :: sid in a <==> sid in b && sid !in dead
    requires forall sid :: sid in a ==> a[sid] == b[sid]
    ensures a == b - dead
  {
  }

  lemma SameFind(st: Indexes, s: string, dead: set<string>, sid: string)
    requires Backed(st) && Backed(Without(st, s, dead)) && sid in st.owner && sid !in dead
    ensures Table(Without(st, s, dead))[sid] == Table(st)[sid]
  {
    var st' := Without(st, s, dead);
    WithoutBuckets(st, s, dead);
    var r := Find(Bucket(st, st.owner[sid]), sid);
    var r' := Find(Bucket(st', st'.owner[sid]), sid);
    assert r' in Bucket(st, st.owner[sid]);
    DistinctIds(Bucket(st, st.owner[sid]), r, r');
  }

  lemma TableDeregister(st: Indexes, sid: string)
    requires Consistent(st)
    ensures Consistent(Deregister(st, sid))
    ensures Table(Deregister(st, sid)) == Table(st) - {sid}
  {
    DeregisterIsWithout(st, sid);
    if sid in st.owner {
      TableWithout(st, st.owner[sid], {sid});
    }
  }

  /** Sweeping removes exactly the subject's entries older than the TTL. */
  lemma TableSweep(st: Indexes, s: string, now: Time, ttl: Time)
    requires Consistent(st)
    ensures Consistent(Sweep(st, s, now, ttl))
    ensures Table(Sweep(st, s, now, ttl)) ==
            map sid | sid in Table(st) && !(Table(st)[sid].subjectKey == s && Table(st)[sid].registeredAt < now - ttl)
              :: Table(st)[sid]
  {
    SweepIsWithout(st, s, now, ttl);
    TableWithout(st, s, Expired(st, s, now, ttl));
    forall sid | sid in Table(st)
      ensures sid in Expired(st, s, now, ttl) <==>
              Table(st)[sid].subjectKey == s && Table(st)[sid].registeredAt < now - ttl
    {
      ExpiredEntry(st, s, now, ttl, sid);
    }
    MinusIsFilter(Table(st), Expired(st, s, now, ttl), s, now, ttl);
  }

  lemma MinusIsFilter(t: map<string, CorrelationRecord>, dead: set<string>, s: string, now: Time, ttl: Time)
    requires forall sid :: sid in t ==> (sid in dead <==> t[sid].subjectKey == s && t[sid].registeredAt < now - ttl)
    ensures t - dead == map sid | sid in t && !(t[sid].subjectKey == s && t[sid].registeredAt < now - ttl) :: t[sid]
  {
  }

  lemma ExpiredEntry(st: Indexes, s: string, now: Time, ttl: Time, sid: string)
    requires Consistent(st) && sid in Table(st)
    ensures sid in Expired(st, s, now, ttl) <==>
            Table(st)[sid].subjectKey == s && Table(st)[sid].registeredAt < now - ttl
  {
  }

  // ----- Runs -----

  datatype Op =
    | RegisterOp(record: CorrelationRecord, at: Time)
    | DeregisterOp(sid: string, at: Time)
    | LookupOp(subject: string, at: Time)

  function Step(st: Indexes, op: Op, ttl: Time): Indexes {
    match op
    case RegisterOp(r, _) => Register(st, r)
    case DeregisterOp(sid, _) => Deregister(st, sid)
    case LookupOp(s, at) => Sweep(st, s, at, ttl)
  }

  function Run(ops: seq<Op>, ttl: Time): Indexes {
    if ops == [] then EMPTY else Step(Run(ops[..|ops| - 1], ttl), ops[|ops| - 1], ttl)
  }

  /** The same operations on one map from session id to record. */
  function TableStep(t: map<string, CorrelationRecord>, op: Op, ttl: Time): map<string, CorrelationRecord> {
    match op
    case RegisterOp(r, _) => t[r.apmSessionId := r]
    case DeregisterOp(sid, _) => t - {sid}
    case LookupOp(s, at) => map sid | sid in t && !(t[sid].subjectKey == s && t[sid].registeredAt < at - ttl) :: t[sid]
  }

  function TableRun(ops: seq<Op>, ttl: Time): map<string, CorrelationRecord> {
    if ops == [] then map[] else TableStep(TableRun(ops[..|ops| - 1], ttl), ops[|ops| - 1], ttl)
  }

  /** No session id is registered while the map holds it for another subject. */
  predicate LawfulRun(ops: seq<Op>, ttl: Time) {
    ops == [] ||
    (var t, op := TableRun(ops[..|ops| - 1], ttl), ops[|ops| - 1];
     && LawfulRun(ops[..|ops| - 1], ttl)
     && (op.RegisterOp? ==>
           && op.record.subjectKey != ""
           && (op.record.apmSessionId in t ==> t[op.record.apmSessionId].subjectKey == op.record.subjectKey)))
  }

  lemma StepBacked(st: Indexes, op: Op, ttl: Time)
    requires Backed(st)
    ensures Backed(Step(st, op, ttl))
  {
    match op
    case RegisterOp(r, _) => RegisterBacked(st, r);
    case DeregisterOp(sid, _) => DeregisterBacked(st, sid);
    case LookupOp(s, at) => DeregisterAllBacked(st, ExpiredIds(Bucket(st, s), at - ttl));
  }

  lemma {:induction false} RunBacked(ops: seq<Op>, ttl: Time)
    ensures Backed(Run(ops, ttl))
  {
    if ops != [] {
      RunBacked(ops[..|ops| - 1], ttl);
      StepBacked(Run(ops[..|ops| - 1], ttl), ops[|ops| - 1], ttl);
    }
  }

  lemma {:induction false} RunRefinesTable(ops: seq<Op>, ttl: Time)
    requires LawfulRun(ops, ttl)
    ensures Consistent(Run(ops, ttl))
    ensures Table(Run(ops, ttl)) == TableRun(ops, ttl)
  {
    if ops != [] {
      var st, op := Run(ops[..|ops| - 1], ttl), ops[|ops| - 1];
      RunRefinesTable(ops[..|ops| - 1], ttl);
      TableEntries(st);
      match op
      case RegisterOp(r, _) => TableRegister(st, r);
      case DeregisterOp(sid, _) => TableDeregister(st, sid);
      case LookupOp(s, at) => TableSweep(st, s, at, ttl);
    }
  }

  ghost predicate ConsistentAfter(ops: seq<Op>, k: nat, ttl: Time)
    requires k <= |ops|
  {
    Consistent(Run(ops[..k], ttl))
  }

  ghost predicate ConsistentThroughout(ops: seq<Op>, ttl: Time) {
    forall k: nat :: k <= |ops| ==> ConsistentAfter(ops, k, ttl)
  }

  lemma SamePrefix(front: seq<Op>, op: Op, k: nat, ttl: Time)
    requires k <= |front|
    ensures ConsistentAfter(front + [op], k, ttl) <==> ConsistentAfter(front, k, ttl)
  {
    assert (front + [op])[..k] == front[..k];
  }

  lemma ConsistentShorter(front: seq<Op>, op: Op, ttl: Time)
    requires ConsistentThroughout(front + [op], ttl)
    ensures ConsistentThroughout(front, ttl) && ConsistentAfter(front + [op], |front| + 1, ttl)
  {
    forall k: nat | k <= |front|
      ensures ConsistentAfter(front, k, ttl)
    {
      assert ConsistentAfter(front + [op], k, ttl);
      SamePrefix(front, op, k, ttl);
    }
  }

  lemma ConsistentLonger(front: seq<Op>, op: Op, ttl: Time)
    requires ConsistentThroughout(front, ttl) && ConsistentAfter(front + [op], |front| + 1, ttl)
    ensures ConsistentThroughout(front + [op], ttl)
  {
    forall k: nat | k <= |front| + 1
      ensures ConsistentAfter(front + [op], k, ttl)
    {
      if k <= |front| {
        assert ConsistentAfter(front, k, ttl);
        SamePrefix(front, op, k, ttl);
      }
    }
  }

  lemma LawfulHere(st: Indexes, r: CorrelationRecord)
    requires Consistent(st)
    ensures Lawful(st, r) <==>
            && r.subjectKey != ""
            && (r.apmSessionId in Table(st) ==> Table(st)[r.apmSessionId].subjectKey == r.subjectKey)
  {
  }

  lemma StepConsistentIff(st: Indexes, op: Op, ttl: Time)
    requires Consistent(st)
    ensures Consistent(Step(st, op, ttl)) <==> (op.RegisterOp? ==> Lawful(st, op.record))
  {
    match op
    case RegisterOp(r, _) => RegisterKeepsAgreementIff(st, r);
    case DeregisterOp(sid, _) => TableDeregister(st, sid);
    case LookupOp(s, at) => TableSweep(st, s, at, ttl);
  }

  lemma LastLawfulIff(front: seq<Op>, op: Op, ttl: Time)
    requires LawfulRun(front, ttl)
    ensures Consistent(Step(Run(front, ttl), op, ttl)) <==> LawfulRun(front + [op], ttl)
  {
    assert (front + [op])[..|front|] == front;
    RunRefinesTable(front, ttl);
    StepConsistentIff(Run(front, ttl), op, ttl);
    if op.RegisterOp? {
      LawfulHere(Run(front, ttl), op.record);
    }
  }

  /** The two indexes agree throughout a run iff no session id is registered while it belongs to another subject. */
  lemma {:induction false} ConsistentThroughoutIff(ops: seq<Op>, ttl: Time)
    ensures ConsistentThroughout(ops, ttl) <==> LawfulRun(ops, ttl)
  {
    if ops == [] {
      assert forall k: nat :: k <= |ops| ==> ops[..k] == [];
    } else {
      var front, op := ops[..|ops| - 1], ops[|ops| - 1];
      assert ops == front + [op];
      ConsistentThroughoutIff(front, ttl);
      assert ops[..|ops|] == ops;
      if ConsistentThroughout(ops, ttl) {
        ConsistentShorter(front, op, ttl);
      }
      if LawfulRun(front, ttl) {
        LastLawfulIff(front, op, ttl);
        if Consistent(Run(ops, ttl)) {
          ConsistentLonger(front, op, ttl);
        }
      }
    }
  }

  /** A lookup lists, once each, the subject's entries no older than the TTL. */
  lemma LookupIsExact(ops: seq<Op>, ttl: Time, s: string, now: Time)
    requires LawfulRun(ops, ttl)
    ensures var found, t := SessionsFor(Run(ops, ttl), s, now, ttl), TableRun(ops, ttl);
            && Distinct(found)
            && forall r :: r in found <==>
                             && r.apmSessionId in t && t[r.apmSessionId] == r
                             && r.subjectKey == s && r.registeredAt >= now - ttl
  {
    RunRefinesTable(ops, ttl);
    var st := Run(ops, ttl);
    TableSweep(st, s, now, ttl);
    TableEntries(Sweep(st, s, now, ttl));
    assert forall sid :: sid in Table(st) ==> Table(st)[sid].apmSessionId == sid;
  }

  /**
    Without that discipline a lookup of one subject drops another subject's live
    session: `sid` moves from `r1`'s subject to `r2`'s, then `r1` expires.
   */
  lemma MovedSessionIsLost(r1: CorrelationRecord, r2: CorrelationRecord, now: Time, ttl: Time)
    requires r1.apmSessionId == r2.apmSessionId && r1.subjectKey != r2.subjectKey && r2.subjectKey != ""
    requires r1.registeredAt < now - ttl
    ensures var ops := [RegisterOp(r1, r1.registeredAt), RegisterOp(r2, now), LookupOp(r1.subjectKey, now)];
            && SessionsFor(Run(ops, ttl), r2.subjectKey, now, ttl) == []
            && r1 in Bucket(Run(ops, ttl), r1.subjectKey)
  {
    var ops := [RegisterOp(r1, r1.registeredAt), RegisterOp(r2, now), LookupOp(r1.subjectKey, now)];
    assert ops[..2] == [RegisterOp(r1, r1.registeredAt), RegisterOp(r2, now)];
    assert ops[..2][..1] == [RegisterOp(r1, r1.registeredAt)];
    assert ops[..2][..1][..0] == [];
    var st1 := Register(EMPTY, r1);
    assert Run(ops[..2][..1], ttl) == st1;
    var st2 := Register(st1, r2);
    assert Run(ops[..2], ttl) == st2;
    assert ExpiredIds(Bucket(st2, r1.subjectKey), now - ttl) == [r1.apmSessionId];
    assert DeregisterAll(st2, [r1.apmSessionId]) == Deregister(st2, r1.apmSessionId);
  }
}
