/**
  The decision cache: per-field, last-non-None merging, kept by two backends
  that expire records differently.
 */
module DecisionCache {
  import opened Models

  // ----- Merging -----

  function Or<T>(newer: Option<T>, older: Option<T>): Option<T> {
    if newer.Some? then newer else older
  }

  function MergeInto(older: DecisionRecord, newer: DecisionRecord): DecisionRecord {
    DecisionRecord(
      older.subjectKey,
      Or(newer.riskLevel, older.riskLevel),
      Or(newer.deviceCompliant, older.deviceCompliant),
      Or(newer.assuranceLevel, older.assuranceLevel),
      Or(newer.changedClaims, older.changedClaims),
      Or(newer.reason, older.reason),
      Or(newer.sourceEvent, older.sourceEvent),
      newer.updatedAt)
  }

  function Merge(existing: Option<DecisionRecord>, incoming: DecisionRecord): DecisionRecord {
    if existing.None? then incoming else MergeInto(existing.value, incoming)
  }

  /** The values that validating a DecisionRecord accepts. */
  predicate Admits(r: DecisionRecord) {
    && (r.riskLevel.Some? ==> r.riskLevel.value in {Str("LOW"), Str("MEDIUM"), Str("HIGH")})
    && (r.assuranceLevel.Some? ==> r.assuranceLevel.value.Str?)
    && (r.changedClaims.Some? ==> r.changedClaims.value.Object?)
    && (r.reason.Some? && r.reason.value.Given? ==> r.reason.value.text.Str?)
  }

  lemma MergeAdmits(older: DecisionRecord, newer: DecisionRecord)
    ensures Admits(older) && Admits(newer) ==> Admits(MergeInto(older, newer))
    ensures Admits(MergeInto(older, newer)) ==> Admits(newer)
  {
  }

  function MergeAll(ws: seq<DecisionRecord>): Option<DecisionRecord> {
    if ws == [] then None else Some(Merge(MergeAll(ws[..|ws| - 1]), ws[|ws| - 1]))
  }

  /** Merging is associative, so a history may be merged in any grouping. */
  lemma {:induction false} MergeAllConcat(ws: seq<DecisionRecord>, more: seq<DecisionRecord>)
    requires ws != [] && more != []
    ensures MergeAll(ws + more) == Some(MergeInto(MergeAll(ws).value, MergeAll(more).value))
  {
    assert (ws + more)[..|ws + more| - 1] == ws + more[..|more| - 1];
    if |more| > 1 {
      MergeAllConcat(ws, more[..|more| - 1]);
    } else {
      assert ws + more[..0] == ws;
    }
  }

  /** `v` is what the last write that sets the field `f` sets it to. */
  ghost predicate IsLast<T(!new)>(f: DecisionRecord -> Option<T>, ws: seq<DecisionRecord>, v: Option<T>) {
    if v.None? then forall w :: w in ws ==> f(w).None?
    else exists i :: 0 <= i < |ws| && f(ws[i]) == v && forall j :: i < j < |ws| ==> f(ws[j]).None?
  }

  ghost predicate Summarizes(m: DecisionRecord, ws: seq<DecisionRecord>) {
    && ws != []
    && m.updatedAt == ws[|ws| - 1].updatedAt
    && m.subjectKey == ws[0].subjectKey
    && IsLast((w: DecisionRecord) => w.riskLevel, ws, m.riskLevel)
    && IsLast((w: DecisionRecord) => w.deviceCompliant, ws, m.deviceCompliant)
    && IsLast((w: DecisionRecord) => w.assuranceLevel, ws, m.assuranceLevel)
    && IsLast((w: DecisionRecord) => w.changedClaims, ws, m.changedClaims)
    && IsLast((w: DecisionRecord) => w.reason, ws, m.reason)
    && IsLast((w: DecisionRecord) => w.sourceEvent, ws, m.sourceEvent)
  }

  lemma IsLastExtends<T(!new)>(f: DecisionRecord -> Option<T>, ws: seq<DecisionRecord>, v: Option<T>, w: DecisionRecord)
    requires IsLast(f, ws, v)
    ensures IsLast(f, ws + [w], Or(f(w), v))
  {
    var all := ws + [w];
    if f(w).Some? {
      assert all[|ws|] == w;
    } else if v.Some? {
      var i :| 0 <= i < |ws| && f(ws[i]) == v && forall j :: i < j < |ws| ==> f(ws[j]).None?;
      assert all[i] == ws[i];
    }
  }

  /** No later None erases a signal: every field holds its last non-None write. */
  lemma {:induction false} MergeAllIsHistory(ws: seq<DecisionRecord>)
    requires ws != []
    ensures Summarizes(MergeAll(ws).value, ws)
  {
    var front, w := ws[..|ws| - 1], ws[|ws| - 1];
    assert ws == front + [w];
    if front == [] {
      assert ws[0] == w;
    } else {
      MergeAllIsHistory(front);
      var m := MergeAll(front).value;
      IsLastExtends((w: DecisionRecord) => w.riskLevel, front, m.riskLevel, w);
      IsLastExtends((w: DecisionRecord) => w.deviceCompliant, front, m.deviceCompliant, w);
      IsLastExtends((w: DecisionRecord) => w.assuranceLevel, front, m.assuranceLevel, w);
      IsLastExtends((w: DecisionRecord) => w.changedClaims, front, m.changedClaims, w);
      IsLastExtends((w: DecisionRecord) => w.reason, front, m.reason, w);
      IsLastExtends((w: DecisionRecord) => w.sourceEvent, front, m.sourceEvent, w);
    }
  }

  // ----- The two backends -----

  type Records = map<string, DecisionRecord>

  function Lookup(m: Records, s: string): Option<DecisionRecord> {
    if s in m then Some(m[s]) else None
  }

  function Upsert(m: Records, r: DecisionRecord): Records {
    m[r.subjectKey := Merge(Lookup(m, r.subjectKey), r)]
  }

  /** A merge validates its result; a first write is stored as it is. */
  predicate Refuses(m: Records, r: DecisionRecord) {
    r.subjectKey in m && !Admits(MergeInto(m[r.subjectKey], r))
  }

  /** What a merge refuses, value by value: the newer one of each, or the older one where there is none. */
  lemma RefusesIff(m: Records, r: DecisionRecord)
    ensures Refuses(m, r) <==>
            && r.subjectKey in m
            && var older := m[r.subjectKey];
               var risk := if r.riskLevel.Some? then r.riskLevel else older.riskLevel;
               var assurance := if r.assuranceLevel.Some? then r.assuranceLevel else older.assuranceLevel;
               var claims := if r.changedClaims.Some? then r.changedClaims else older.changedClaims;
               var reason := if r.reason.Some? then r.reason else older.reason;
               || (risk.Some? && risk.value != Str("LOW") && risk.value != Str("MEDIUM") && risk.value != Str("HIGH"))
               || (assurance.Some? && !assurance.value.Str?)
               || (claims.Some? && !claims.value.Object?)
               || (reason.Some? && reason.value.Given? && !reason.value.text.Str?)
  {
  }

  predicate Outdated(r: DecisionRecord, now: Time, ttl: Time) {
    now - r.updatedAt > ttl
  }

  /** The state after `get`, which evicts an outdated record. */
  function Evict(m: Records, s: string, now: Time, ttl: Time): Records {
    if s in m && Outdated(m[s], now, ttl) then m - {s} else m
  }

  /** What `get` returns. */
  function Read(m: Records, s: string, now: Time, ttl: Time): Option<DecisionRecord> {
    Lookup(Evict(m, s, now, ttl), s)
  }

  datatype Entry = Entry(record: DecisionRecord, expiresAt: Time)

  type Keyspace = map<string, Entry>

  function RedisRead(db: Keyspace, s: string, now: Time): Option<DecisionRecord> {
    if s in db && now < db[s].expiresAt then Some(db[s].record) else None
  }

  /** `get` validates what it reads. */
  predicate RedisReadRaises(db: Keyspace, s: string, now: Time) {
    RedisRead(db, s, now).Some? && !Admits(RedisRead(db, s, now).value)
  }

  predicate RedisRefuses(db: Keyspace, r: DecisionRecord, now: Time) {
    var live := RedisRead(db, r.subjectKey, now);
    live.Some? && !(Admits(live.value) && Admits(MergeInto(live.value, r)))
  }

  /** The same of Redis, where the record that is read is validated before it is merged. */
  lemma RedisRefusesIff(db: Keyspace, r: DecisionRecord, now: Time)
    ensures RedisRefuses(db, r, now) <==>
            && RedisRead(db, r.subjectKey, now).Some?
            && var live := RedisRead(db, r.subjectKey, now).value;
               RedisReadRaises(db, r.subjectKey, now) || Refuses(map[r.subjectKey := live], r)
    ensures RedisReadRaises(db, r.subjectKey, now) <==>
            && RedisRead(db, r.subjectKey, now).Some?
            && var live := RedisRead(db, r.subjectKey, now).value;
               || (live.riskLevel.Some?
                   && live.riskLevel.value != Str("LOW") && live.riskLevel.value != Str("MEDIUM")
                   && live.riskLevel.value != Str("HIGH"))
               || (live.assuranceLevel.Some? && !live.assuranceLevel.value.Str?)
               || (live.changedClaims.Some? && !live.changedClaims.value.Object?)
               || (live.reason.Some? && live.reason.value.Given? && !live.reason.value.text.Str?)
  {
  }

  function RedisUpsert(db: Keyspace, r: DecisionRecord, now: Time, ttl: Time): Keyspace {
    db[r.subjectKey := Entry(Merge(RedisRead(db, r.subjectKey, now), r), now + ttl)]
  }

  // ----- Runs -----

  datatype Op =
    | UpsertOp(record: DecisionRecord, at: Time)
    | GetOp(subject: string, at: Time)

  /** A refused write raises and stores nothing. */
  function Step(m: Records, op: Op, ttl: Time): Records {
    match op
    case UpsertOp(r, _) => if Refuses(m, r) then m else Upsert(m, r)
    case GetOp(s, at) => Evict(m, s, at, ttl)
  }

  function Run(ops: seq<Op>, ttl: Time): Records {
    if ops == [] then map[] else Step(Run(ops[..|ops| - 1], ttl), ops[|ops| - 1], ttl)
  }

  function RedisStep(db: Keyspace, op: Op, ttl: Time): Keyspace {
    match op
    case UpsertOp(r, at) => if RedisRefuses(db, r, at) then db else RedisUpsert(db, r, at, ttl)
    case GetOp(_, _) => db
  }

  function RedisRun(ops: seq<Op>, ttl: Time): Keyspace {
    if ops == [] then map[] else RedisStep(RedisRun(ops[..|ops| - 1], ttl), ops[|ops| - 1], ttl)
  }

  // ----- In memory: the history since the last evicting get -----

  /** The writes for `s` since the last `get` that found its record outdated, without those that were refused. */
  function Epoch(ops: seq<Op>, s: string, ttl: Time): seq<DecisionRecord> {
    if ops == [] then []
    else
      var ws := Epoch(ops[..|ops| - 1], s, ttl);
      match ops[|ops| - 1]
      case UpsertOp(r, _) =>
        if r.subjectKey != s || (ws != [] && !Admits(MergeInto(MergeAll(ws).value, r))) then ws else ws + [r]
      case GetOp(s', at) => if s' == s && ws != [] && Outdated(ws[|ws| - 1], at, ttl) then [] else ws
  }

  lemma {:induction false} RunIsEpoch(ops: seq<Op>, s: string, ttl: Time)
    ensures Lookup(Run(ops, ttl), s) == MergeAll(Epoch(ops, s, ttl))
  {
    if ops != [] {
      var front, op := ops[..|ops| - 1], ops[|ops| - 1];
      RunIsEpoch(front, s, ttl);
      var ws := Epoch(front, s, ttl);
      if op.UpsertOp? && op.record.subjectKey == s {
        assert (ws + [op.record])[..|ws|] == ws;
      }
      if ws != [] {
        MergeAllIsHistory(ws);
      }
    }
  }

  /** A cached record holds, field by field, the last non-None write of its epoch. */
  lemma CachedRecordIsHistory(ops: seq<Op>, s: string, ttl: Time)
    ensures s in Run(ops, ttl) <==> Epoch(ops, s, ttl) != []
    ensures s in Run(ops, ttl) ==> Summarizes(Run(ops, ttl)[s], Epoch(ops, s, ttl))
  {
    RunIsEpoch(ops, s, ttl);
    if Epoch(ops, s, ttl) != [] {
      MergeAllIsHistory(Epoch(ops, s, ttl));
    }
  }

  // ----- Redis: the window of writes that kept the key alive -----

  datatype Write = Write(record: DecisionRecord, at: Time)

  function RecordsOf(ws: seq<Write>): (rs: seq<DecisionRecord>)
    ensures |rs| == |ws|
  {
    seq(|ws|, i requires 0 <= i < |ws| => ws[i].record)
  }

  /** How long after write `i` the next write to the subject, or the read at `t`, comes. */
  function Gap(ws: seq<Write>, i: nat, t: Time): Time
    requires i < |ws|
  {
    (if i + 1 < |ws| then ws[i + 1].at else t) - ws[i].at
  }

  /** `ws[k..]` is the longest suffix whose successive gaps, and the gap to `t`, are below the TTL. */
  ghost predicate IsWindow(ws: seq<Write>, t: Time, ttl: Time, k: nat) {
    && k <= |ws|
    && (forall i :: k <= i < |ws| ==> Gap(ws, i, t) < ttl)
    && (k > 0 ==> Gap(ws, k - 1, t) >= ttl)
  }

  lemma WindowIsUnique(ws: seq<Write>, t: Time, ttl: Time, k1: nat, k2: nat)
    requires IsWindow(ws, t, ttl, k1) && IsWindow(ws, t, ttl, k2)
    ensures k1 == k2
  {
  }

  /** Where the window begins. */
  function Window(ws: seq<Write>, t: Time, ttl: Time): (k: nat)
    ensures k <= |ws|
  {
    if ws == [] || t - ws[|ws| - 1].at >= ttl then |ws| else Window(ws[..|ws| - 1], ws[|ws| - 1].at, ttl)
  }

  lemma WindowExists(ws: seq<Write>, t: Time, ttl: Time)
    ensures forall j: nat :: IsWindow(ws, t, ttl, j) <==> j == Window(ws, t, ttl)
  {
    FindWindow(ws, t, ttl);
    forall j: nat | IsWindow(ws, t, ttl, j)
      ensures j == Window(ws, t, ttl)
    {
      WindowIsUnique(ws, t, ttl, j, Window(ws, t, ttl));
    }
  }

  lemma {:induction false} FindWindow(ws: seq<Write>, t: Time, ttl: Time)
    ensures IsWindow(ws, t, ttl, Window(ws, t, ttl))
  {
    if ws != [] && t - ws[|ws| - 1].at < ttl {
      var front, last := ws[..|ws| - 1], ws[|ws| - 1];
      FindWindow(front, last.at, ttl);
      assert forall i :: 0 <= i < |front| ==> Gap(ws, i, t) == Gap(front, i, last.at);
    }
  }

  /** The merge of the window: what is live at `t` after the writes `ws`. */
  function LiveRecord(ws: seq<Write>, t: Time, ttl: Time): Option<DecisionRecord> {
    MergeAll(RecordsOf(ws[Window(ws, t, ttl)..]))
  }

  /** Reading `live` and merging `r` into it raise nothing. */
  predicate Takes(live: Option<DecisionRecord>, r: DecisionRecord) {
    live.Some? ==> Admits(live.value) && Admits(MergeInto(live.value, r))
  }

  /** The writes to `s` that Redis does not refuse. */
  function WritesTo(ops: seq<Op>, s: string, ttl: Time): seq<Write> {
    if ops == [] then []
    else
      var ws, op := WritesTo(ops[..|ops| - 1], s, ttl), ops[|ops| - 1];
      if op.UpsertOp? && op.record.subjectKey == s && Takes(LiveRecord(ws, op.at, ttl), op.record)
      then ws + [Write(op.record, op.at)]
      else ws
  }

  lemma WindowFront(ws: seq<Write>, t: Time, ttl: Time, k: nat)
    requires IsWindow(ws, t, ttl, k) && k < |ws|
    ensures IsWindow(ws[..|ws| - 1], ws[|ws| - 1].at, ttl, k)
  {
    var front, last := ws[..|ws| - 1], ws[|ws| - 1];
    forall i: nat | i < |front|
      ensures Gap(front, i, last.at) == Gap(ws, i, t)
    {
    }
    assert k > 0 ==> Gap(ws, k - 1, t) >= ttl;
  }

  lemma {:induction false} RedisReadsLive(ops: seq<Op>, s: string, t: Time, ttl: Time)
    ensures RedisRead(RedisRun(ops, ttl), s, t) == LiveRecord(WritesTo(ops, s, ttl), t, ttl)
  {
    if ops != [] {
      var front, op := ops[..|ops| - 1], ops[|ops| - 1];
      var prior := WritesTo(front, s, ttl);
      RedisReadsLive(front, s, t, ttl);
      if op.UpsertOp? && op.record.subjectKey == s {
        RedisReadsLive(front, s, op.at, ttl);
        if Takes(LiveRecord(prior, op.at, ttl), op.record) {
          OneMoreWrite(prior, Write(op.record, op.at), t, ttl);
        }
      }
    }
  }

  /** What a `get` at `t` finds is the merge of exactly the window, and None when it is empty. */
  lemma RedisReadsWindow(ops: seq<Op>, s: string, t: Time, ttl: Time, k: nat)
    requires IsWindow(WritesTo(ops, s, ttl), t, ttl, k)
    ensures RedisRead(RedisRun(ops, ttl), s, t) == MergeAll(RecordsOf(WritesTo(ops, s, ttl)[k..]))
  {
    WindowExists(WritesTo(ops, s, ttl), t, ttl);
    RedisReadsLive(ops, s, t, ttl);
  }

  /** A write merges into the window at its time, and its key lives for a TTL. */
  lemma OneMoreWrite(prior: seq<Write>, w: Write, t: Time, ttl: Time)
    ensures LiveRecord(prior + [w], t, ttl) ==
            if t - w.at >= ttl then None else Some(Merge(LiveRecord(prior, w.at, ttl), w.record))
  {
    var ws := prior + [w];
    assert ws[..|ws| - 1] == prior;
    if t - w.at < ttl {
      var k := Window(prior, w.at, ttl);
      var rs := RecordsOf(ws[k..]);
      assert rs[..|rs| - 1] == RecordsOf(prior[k..]);
    } else {
      assert RecordsOf(ws[|ws|..]) == [];
    }
  }

  // ----- Backend simulation -----

  /** Operations in time order, records stamped when written. */
  ghost predicate Stamped(ops: seq<Op>, now: Time) {
    && (forall i, j :: 0 <= i < j < |ops| ==> ops[i].at <= ops[j].at)
    && forall i :: 0 <= i < |ops| ==> ops[i].at <= now && (ops[i].UpsertOp? ==> ops[i].record.updatedAt == ops[i].at)
  }

  /** `m` has every signal of `r`, and the same stamp. */
  predicate Covers(m: DecisionRecord, r: DecisionRecord) {
    && m.updatedAt == r.updatedAt
    && m.subjectKey == r.subjectKey
    && Or(r.riskLevel, m.riskLevel) == m.riskLevel
    && Or(r.deviceCompliant, m.deviceCompliant) == m.deviceCompliant
    && Or(r.assuranceLevel, m.assuranceLevel) == m.assuranceLevel
    && Or(r.changedClaims, m.changedClaims) == m.changedClaims
    && Or(r.reason, m.reason) == m.reason
    && Or(r.sourceEvent, m.sourceEvent) == m.sourceEvent
  }

  ghost predicate MemoryCovers(m: Records, db: Keyspace, now: Time, ttl: Time) {
    && (forall s :: s in m ==> m[s].subjectKey == s)
    && forall s :: CoversOn(m, db, s, now, ttl)
  }

  predicate CoversOn(m: Records, db: Keyspace, s: string, now: Time, ttl: Time) {
    s in db && now < db[s].expiresAt ==>
      s in m && Covers(m[s], db[s].record) && db[s].expiresAt == m[s].updatedAt + ttl
  }

  /** Both backends refuse the write, or neither does. */
  predicate Alike(m: Records, db: Keyspace, op: Op) {
    op.UpsertOp? ==> (Refuses(m, op.record) <==> RedisRefuses(db, op.record, op.at))
  }

  predicate AlikeRun(ops: seq<Op>, ttl: Time) {
    ops == [] ||
    (var front := ops[..|ops| - 1];
     AlikeRun(front, ttl) && Alike(Run(front, ttl), RedisRun(front, ttl), ops[|ops| - 1]))
  }

  lemma StepCovers(m: Records, db: Keyspace, op: Op, ttl: Time)
    requires MemoryCovers(m, db, op.at, ttl) && Alike(m, db, op)
    requires op.UpsertOp? ==> op.record.updatedAt == op.at
    ensures MemoryCovers(Step(m, op, ttl), RedisStep(db, op, ttl), op.at, ttl)
  {
    var m', db' := Step(m, op, ttl), RedisStep(db, op, ttl);
    forall s
      ensures CoversOn(m', db', s, op.at, ttl)
    {
      assert CoversOn(m, db, s, op.at, ttl);
      if op.UpsertOp? && op.record.subjectKey == s && !Refuses(m, op.record) {
        WriteCovers(m, db, op.record, op.at, ttl);
      }
    }
  }

  lemma WriteCovers(m: Records, db: Keyspace, r: DecisionRecord, at: Time, ttl: Time)
    requires CoversOn(m, db, r.subjectKey, at, ttl) && r.updatedAt == at
    requires r.subjectKey in m ==> m[r.subjectKey].subjectKey == r.subjectKey
    ensures CoversOn(Upsert(m, r), RedisUpsert(db, r, at, ttl), r.subjectKey, at, ttl)
  {
  }

  lemma {:induction false} RunCovers(ops: seq<Op>, now: Time, ttl: Time)
    requires Stamped(ops, now) && AlikeRun(ops, ttl)
    ensures MemoryCovers(Run(ops, ttl), RedisRun(ops, ttl), now, ttl)
  {
    if ops != [] {
      var front, op := ops[..|ops| - 1], ops[|ops| - 1];
      RunCovers(front, op.at, ttl);
      StepCovers(Run(front, ttl), RedisRun(front, ttl), op, ttl);
      assert Run(ops, ttl) == Step(Run(front, ttl), op, ttl);
      assert RedisRun(ops, ttl) == RedisStep(RedisRun(front, ttl), op, ttl);
      CoversLater(Run(ops, ttl), RedisRun(ops, ttl), op.at, now, ttl);
    }
  }

  lemma CoversLater(m: Records, db: Keyspace, now: Time, later: Time, ttl: Time)
    requires MemoryCovers(m, db, now, ttl) && now <= later
    ensures MemoryCovers(m, db, later, ttl)
  {
    forall s
      ensures CoversOn(m, db, s, later, ttl)
    {
      assert CoversOn(m, db, s, now, ttl);
    }
  }

  /** Writes to one subject come at different times. */
  ghost predicate Ticking(ops: seq<Op>) {
    forall i, j :: 0 <= i < j < |ops| && SameTarget(ops[i], ops[j]) ==> ops[i].at < ops[j].at
  }

  predicate SameTarget(a: Op, b: Op) {
    a.UpsertOp? && b.UpsertOp? && a.record.subjectKey == b.record.subjectKey
  }

  /** A cached record is stamped by some write to its subject. */
  lemma {:induction false} StampedByWrite(ops: seq<Op>, s: string, now: Time, ttl: Time) returns (i: nat)
    requires Stamped(ops, now) && s in Run(ops, ttl)
    ensures i < |ops| && ops[i].UpsertOp? && ops[i].record.subjectKey == s
    ensures ops[i].at == Run(ops, ttl)[s].updatedAt
  {
    var front, op := ops[..|ops| - 1], ops[|ops| - 1];
    if s in Run(front, ttl) && Run(front, ttl)[s] == Run(ops, ttl)[s] {
      i := StampedByWrite(front, s, now, ttl);
      assert front[i] == ops[i];
    } else {
      i := |front|;
    }
  }

  /** With a new time stamp, covering survives a write iff both backends refuse it or neither does. */
  lemma StepCoversIff(m: Records, db: Keyspace, op: Op, ttl: Time)
    requires MemoryCovers(m, db, op.at, ttl) && 0.0 < ttl
    requires op.UpsertOp? ==>
               var s := op.record.subjectKey; op.record.updatedAt == op.at && (s in m ==> m[s].updatedAt < op.at)
    ensures MemoryCovers(Step(m, op, ttl), RedisStep(db, op, ttl), op.at, ttl) <==> Alike(m, db, op)
  {
    if Alike(m, db, op) {
      StepCovers(m, db, op, ttl);
    } else {
      var s := op.record.subjectKey;
      assert CoversOn(m, db, s, op.at, ttl);
      assert !CoversOn(Step(m, op, ttl), RedisStep(db, op, ttl), s, op.at, ttl);
    }
  }

  ghost predicate CoverAfter(ops: seq<Op>, k: nat, ttl: Time)
    requires k < |ops|
  {
    MemoryCovers(Run(ops[..k + 1], ttl), RedisRun(ops[..k + 1], ttl), ops[k].at, ttl)
  }

  ghost predicate CoverThroughout(ops: seq<Op>, ttl: Time) {
    forall k: nat :: k < |ops| ==> CoverAfter(ops, k, ttl)
  }

  lemma CoverThroughoutGrows(front: seq<Op>, op: Op, ttl: Time)
    ensures CoverThroughout(front + [op], ttl) <==>
            CoverThroughout(front, ttl) && CoverAfter(front + [op], |front|, ttl)
  {
    var ops := front + [op];
    forall k: nat | k < |front|
      ensures CoverAfter(ops, k, ttl) <==> CoverAfter(front, k, ttl)
    {
      assert ops[..k + 1] == front[..k + 1];
    }
  }

  /** Over every stamped run, memory covers Redis after each operation iff each write is refused by both or neither. */
  lemma {:induction false} CoverThroughoutIff(ops: seq<Op>, now: Time, ttl: Time)
    requires Stamped(ops, now) && Ticking(ops) && 0.0 < ttl
    ensures CoverThroughout(ops, ttl) <==> AlikeRun(ops, ttl)
  {
    if ops != [] {
      var front, op := ops[..|ops| - 1], ops[|ops| - 1];
      assert ops == front + [op] && ops[..|ops|] == ops;
      CoverThroughoutIff(front, op.at, ttl);
      CoverThroughoutGrows(front, op, ttl);
      if AlikeRun(front, ttl) {
        RunCovers(front, op.at, ttl);
        if op.UpsertOp? && op.record.subjectKey in Run(front, ttl) {
          var i := StampedByWrite(front, op.record.subjectKey, op.at, ttl);
          assert SameTarget(ops[i], ops[|front|]);
        }
        StepCoversIff(Run(front, ttl), RedisRun(front, ttl), op, ttl);
      }
    }
  }

  /** Values that DecisionRecord admits are never refused, by either backend. */
  ghost predicate AdmittedRun(ops: seq<Op>) {
    forall i :: 0 <= i < |ops| && ops[i].UpsertOp? ==> Admits(ops[i].record)
  }

  lemma {:induction false} AdmittedIsAlike(ops: seq<Op>, ttl: Time)
    requires AdmittedRun(ops)
    ensures AlikeRun(ops, ttl)
    ensures forall s :: s in Run(ops, ttl) ==> Admits(Run(ops, ttl)[s])
    ensures forall s :: s in RedisRun(ops, ttl) ==> Admits(RedisRun(ops, ttl)[s].record)
  {
    if ops != [] {
      var front, op := ops[..|ops| - 1], ops[|ops| - 1];
      AdmittedIsAlike(front, ttl);
      if op.UpsertOp? {
        AdmittedWrite(Run(front, ttl), RedisRun(front, ttl), op.record, op.at);
      }
    }
  }

  lemma AdmittedWrite(m: Records, db: Keyspace, r: DecisionRecord, at: Time)
    requires Admits(r)
    ensures r.subjectKey in m && Admits(m[r.subjectKey]) ==> !Refuses(m, r)
    ensures r.subjectKey in db && Admits(db[r.subjectKey].record) ==> !RedisRefuses(db, r, at)
    ensures r.subjectKey !in m ==> !Refuses(m, r)
    ensures r.subjectKey !in db ==> !RedisRefuses(db, r, at)
  {
    if r.subjectKey in m {
      MergeAdmits(m[r.subjectKey], r);
    }
    if r.subjectKey in db {
      MergeAdmits(db[r.subjectKey].record, r);
    }
  }

  /** Whatever Redis returns, the in-memory cache returns too, with the same stamp and those signals. */
  lemma RedisWithinMemory(ops: seq<Op>, s: string, now: Time, ttl: Time)
    requires Stamped(ops, now) && AlikeRun(ops, ttl)
    requires RedisRead(RedisRun(ops, ttl), s, now).Some?
    ensures Read(Run(ops, ttl), s, now, ttl).Some?
    ensures Covers(Read(Run(ops, ttl), s, now, ttl).value, RedisRead(RedisRun(ops, ttl), s, now).value)
  {
    RunCovers(ops, now, ttl);
    assert CoversOn(Run(ops, ttl), RedisRun(ops, ttl), s, now, ttl);
  }

  /** Both backends hold the same for every subject, ignoring records at age TTL or more. */
  ghost predicate Agree(m: Records, db: Keyspace, now: Time, ttl: Time) {
    forall s :: AgreeOn(m, db, s, now, ttl)
  }

  predicate AgreeOn(m: Records, db: Keyspace, s: string, now: Time, ttl: Time) {
    RedisRead(db, s, now) == if s in m && now < m[s].updatedAt + ttl then Some(m[s]) else None
  }

  /** `r` sets every signal that `prior` holds. */
  predicate Overwrites(r: DecisionRecord, prior: DecisionRecord) {
    && (prior.riskLevel.Some? ==> r.riskLevel.Some?)
    && (prior.deviceCompliant.Some? ==> r.deviceCompliant.Some?)
    && (prior.assuranceLevel.Some? ==> r.assuranceLevel.Some?)
    && (prior.changedClaims.Some? ==> r.changedClaims.Some?)
    && (prior.reason.Some? ==> r.reason.Some?)
    && (prior.sourceEvent.Some? ==> r.sourceEvent.Some?)
  }

  /**
    Nothing is cached for the subject; or an expired, unread record is, and an
    admitted write sets all it held; or a live one is that is admitted, unless the
    merge is refused anyway.
   */
  predicate CleanWrite(m: Records, r: DecisionRecord, now: Time, ttl: Time) {
    var s := r.subjectKey;
    s in m ==>
      if m[s].updatedAt + ttl <= now then Overwrites(r, m[s]) && Admits(r)
      else Admits(m[s]) || !Admits(MergeInto(m[s], r))
  }

  /**
    The in-memory `upsert` also merges into a record that has expired but was not
    read since, and Redis also validates what it reads: agreement survives a write
    iff it is clean.
   */
  lemma UpsertAgreesIff(m: Records, db: Keyspace, r: DecisionRecord, now: Time, ttl: Time)
    requires Agree(m, db, now, ttl) && 0.0 < ttl && r.updatedAt == now
    requires forall s :: s in m ==> m[s].subjectKey == s
    ensures Agree(Step(m, UpsertOp(r, now), ttl), RedisStep(db, UpsertOp(r, now), ttl), now, ttl) <==>
            CleanWrite(m, r, now, ttl)
  {
    var s := r.subjectKey;
    var m', db' := Step(m, UpsertOp(r, now), ttl), RedisStep(db, UpsertOp(r, now), ttl);
    assert AgreeOn(m, db, s, now, ttl);
    if s in m {
      assert MergeInto(m[s], r) == r <==> Overwrites(r, m[s]);
      MergeAdmits(m[s], r);
    }
    assert AgreeOn(m', db', s, now, ttl) <==> CleanWrite(m, r, now, ttl);
    forall x | x != s
      ensures AgreeOn(m', db', x, now, ttl)
    {
      assert AgreeOn(m, db, x, now, ttl);
    }
  }

  /** Each Redis record expires a TTL after its stamp, and both backends key records by subject. */
  ghost predicate Clocked(m: Records, db: Keyspace, ttl: Time) {
    && (forall s :: s in m ==> m[s].subjectKey == s)
    && forall s :: s in db ==> db[s].record.subjectKey == s && db[s].expiresAt == db[s].record.updatedAt + ttl
  }

  lemma {:induction false} ClockedRun(ops: seq<Op>, now: Time, ttl: Time)
    requires Stamped(ops, now)
    ensures Clocked(Run(ops, ttl), RedisRun(ops, ttl), ttl)
  {
    if ops != [] {
      ClockedRun(ops[..|ops| - 1], now, ttl);
    }
  }

  /** Time passing keeps agreement: what Redis drops is what memory no longer returns. */
  lemma AgreeAdvances(m: Records, db: Keyspace, now: Time, later: Time, ttl: Time)
    requires Agree(m, db, now, ttl) && Clocked(m, db, ttl) && now <= later
    ensures Agree(m, db, later, ttl)
  {
    forall s
      ensures AgreeOn(m, db, s, later, ttl)
    {
      assert AgreeOn(m, db, s, now, ttl);
    }
  }

  lemma GetAgrees(m: Records, db: Keyspace, s: string, now: Time, ttl: Time)
    requires Agree(m, db, now, ttl)
    ensures Agree(Evict(m, s, now, ttl), db, now, ttl)
  {
    forall x
      ensures AgreeOn(Evict(m, s, now, ttl), db, x, now, ttl)
    {
      assert AgreeOn(m, db, x, now, ttl);
    }
  }

  predicate CleanStep(m: Records, op: Op, ttl: Time) {
    op.UpsertOp? ==> CleanWrite(m, op.record, op.at, ttl)
  }

  predicate CleanRun(ops: seq<Op>, ttl: Time) {
    ops == [] || (CleanRun(ops[..|ops| - 1], ttl) && CleanStep(Run(ops[..|ops| - 1], ttl), ops[|ops| - 1], ttl))
  }

  /** The backends agree right after operation `k`. */
  ghost predicate AgreeAfter(ops: seq<Op>, k: nat, ttl: Time)
    requires k < |ops|
  {
    Agree(Run(ops[..k + 1], ttl), RedisRun(ops[..k + 1], ttl), ops[k].at, ttl)
  }

  ghost predicate AgreeThroughout(ops: seq<Op>, ttl: Time) {
    forall k: nat :: k < |ops| ==> AgreeAfter(ops, k, ttl)
  }

  lemma AgreeThroughoutGrows(front: seq<Op>, op: Op, ttl: Time)
    ensures AgreeThroughout(front + [op], ttl) <==>
            AgreeThroughout(front, ttl) && Agree(Run(front + [op], ttl), RedisRun(front + [op], ttl), op.at, ttl)
  {
    var ops := front + [op];
    assert ops[..|front| + 1] == ops;
    assert AgreeAfter(ops, |front|, ttl) <==> Agree(Run(ops, ttl), RedisRun(ops, ttl), op.at, ttl);
    forall k: nat | k < |front|
      ensures AgreeAfter(ops, k, ttl) <==> AgreeAfter(front, k, ttl)
    {
      assert ops[..k + 1] == front[..k + 1];
    }
  }

  lemma StepAgreesIff(m: Records, db: Keyspace, op: Op, ttl: Time)
    requires Agree(m, db, op.at, ttl) && Clocked(m, db, ttl) && 0.0 < ttl
    requires op.UpsertOp? ==> op.record.updatedAt == op.at
    ensures Agree(Step(m, op, ttl), RedisStep(db, op, ttl), op.at, ttl) <==> CleanStep(m, op, ttl)
  {
    match op
    case UpsertOp(r, at) => UpsertAgreesIff(m, db, r, at, ttl);
    case GetOp(s, at) => GetAgrees(m, db, s, at, ttl);
  }

  /** On every stamped run the backends agree after each operation iff each write is clean. */
  lemma {:induction false} AgreeThroughoutIff(ops: seq<Op>, now: Time, ttl: Time)
    requires Stamped(ops, now) && 0.0 < ttl
    ensures AgreeThroughout(ops, ttl) <==> CleanRun(ops, ttl)
    ensures AgreeThroughout(ops, ttl) ==> Agree(Run(ops, ttl), RedisRun(ops, ttl), now, ttl)
  {
    if ops != [] {
      var front, op := ops[..|ops| - 1], ops[|ops| - 1];
      assert ops == front + [op];
      AgreeThroughoutIff(front, op.at, ttl);
      AgreeThroughoutGrows(front, op, ttl);
      ClockedRun(front, now, ttl);
      ClockedRun(ops, now, ttl);
      if AgreeThroughout(front, ttl) {
        StepAgreesIff(Run(front, ttl), RedisRun(front, ttl), op, ttl);
        if AgreeThroughout(ops, ttl) {
          AgreeAdvances(Run(ops, ttl), RedisRun(ops, ttl), op.at, now, ttl);
        }
      }
    }
  }

  /** Then every later read at an age other than the TTL finds the same in both; Redis raises if it is not admitted. */
  lemma CleanRunReadsAlike(ops: seq<Op>, s: string, now: Time, ttl: Time)
    requires Stamped(ops, now) && 0.0 < ttl && CleanRun(ops, ttl)
    requires s in Run(ops, ttl) ==> now != Run(ops, ttl)[s].updatedAt + ttl
    ensures var found := Read(Run(ops, ttl), s, now, ttl);
            && RedisRead(RedisRun(ops, ttl), s, now) == found
            && (RedisReadRaises(RedisRun(ops, ttl), s, now) <==> found.Some? && !Admits(found.value))
  {
    AgreeThroughoutIff(ops, now, ttl);
    assert AgreeOn(Run(ops, ttl), RedisRun(ops, ttl), s, now, ttl);
  }

  /** So a risk level older than the TTL comes back with the next write to its subject, unless that is refused. */
  lemma StaleSignalResurfaces(prior: DecisionRecord, r: DecisionRecord, ttl: Time)
    requires prior.subjectKey == r.subjectKey && prior.riskLevel.Some? && r.riskLevel.None?
    requires 0.0 < ttl && prior.updatedAt + ttl <= r.updatedAt
    ensures var ops := [UpsertOp(prior, prior.updatedAt), UpsertOp(r, r.updatedAt)];
            var mem := Run(ops, ttl)[r.subjectKey];
            var redis := RedisRead(RedisRun(ops, ttl), r.subjectKey, r.updatedAt);
            && mem == (if Admits(MergeInto(prior, r)) then MergeInto(prior, r) else prior)
            && mem.riskLevel == prior.riskLevel
            && redis == Some(r)
  {
    TwoWrites(prior, r, ttl);
  }

  lemma TwoWrites(prior: DecisionRecord, r: DecisionRecord, ttl: Time)
    requires prior.subjectKey == r.subjectKey
    ensures var ops, s := [UpsertOp(prior, prior.updatedAt), UpsertOp(r, r.updatedAt)], r.subjectKey;
            var live := r.updatedAt < prior.updatedAt + ttl;
            && Run(ops, ttl) == map[s := if Admits(MergeInto(prior, r)) then MergeInto(prior, r) else prior]
            && RedisRun(ops, ttl) ==
                 if live && !(Admits(prior) && Admits(MergeInto(prior, r)))
                 then map[s := Entry(prior, prior.updatedAt + ttl)]
                 else map[s := Entry(if live then MergeInto(prior, r) else r, r.updatedAt + ttl)]
  {
    var first := UpsertOp(prior, prior.updatedAt);
    var ops := [first, UpsertOp(r, r.updatedAt)];
    assert ops[..1] == [first] && [first][..0] == [];
    assert Run([first], ttl) == map[r.subjectKey := prior];
    assert RedisRun([first], ttl) == map[r.subjectKey := Entry(prior, prior.updatedAt + ttl)];
  }

  /**
    A stored value that DecisionRecord refuses parts the backends. Expired, it
    still makes memory refuse what Redis takes; live, Redis refuses even the write
    that would replace it, which memory takes.
   */
  lemma RefusedValueParts(prior: DecisionRecord, r: DecisionRecord, ttl: Time)
    requires prior.subjectKey == r.subjectKey && !Admits(prior) && 0.0 < ttl && prior.updatedAt < r.updatedAt
    ensures var ops, s := [UpsertOp(prior, prior.updatedAt), UpsertOp(r, r.updatedAt)], r.subjectKey;
            var mem, redis := Run(ops, ttl)[s], RedisRun(ops, ttl)[s].record;
            && (prior.updatedAt + ttl <= r.updatedAt && !Admits(MergeInto(prior, r)) ==> mem == prior && redis == r)
            && (r.updatedAt < prior.updatedAt + ttl && Admits(MergeInto(prior, r)) ==>
                  mem == MergeInto(prior, r) && redis == prior)
  {
    TwoWrites(prior, r, ttl);
  }

  /** At age exactly the TTL only the in-memory cache still returns a record: it drops what is strictly older. */
  lemma ExactAgeDiffers(r: DecisionRecord, ttl: Time)
    ensures var ops, now := [UpsertOp(r, r.updatedAt)], r.updatedAt + ttl;
            && Read(Run(ops, ttl), r.subjectKey, now, ttl) == Some(r)
            && RedisRead(RedisRun(ops, ttl), r.subjectKey, now) == None
            && forall later :: later > now ==> Read(Run(ops, ttl), r.subjectKey, later, ttl) == None
  {
    var ops := [UpsertOp(r, r.updatedAt)];
    assert ops[..0] == [];
    assert Run(ops, ttl) == Step(Run(ops[..0], ttl), ops[0], ttl);
    assert RedisRun(ops, ttl) == RedisStep(RedisRun(ops[..0], ttl), ops[0], ttl);
  }
}
