/**
  FAST events over the Redis correlation store. The kill loop is the same, but
  `deregister` depends on reverse keys that may expire before their hash, even
  while the loop waits for BIG-IP: `when` is the clock reading of each call.
 */
module RedisEnforcement {
  import opened Models
  import opened Enforcement
  import opened KillLoopLaws
  import I = CorrelationIndexes
  import R = RedisCorrelation
  import S = SessionBackends

  /** When a session id is deregistered, within one event. */
  type Clock = string -> Time

  // ----- The loop -----

  datatype RedisFast = RedisFast(
    db: R.Redis,
    terminated: seq<string>,
    disabled: seq<string>,
    failed: seq<string>,
    crashed: bool)

  /** One round of the loop. */
  function RedisKillOne(run: RedisFast, sid: string, outcome: KillOutcome, at: Time): RedisFast {
    match outcome
    case Killed => run.(db := R.Deregister(run.db, sid, at), terminated := run.terminated + [sid])
    case Skipped => run.(disabled := run.disabled + [sid])
    case Refuses => run.(failed := run.failed + [sid])
    case Crashes => run.(crashed := true)
  }

  function RedisKillLoop(db: R.Redis, targets: seq<string>, kind: EventType, kill: Oracle, when: Clock): RedisFast {
    if targets == [] then RedisFast(db, [], [], [], false)
    else
      var front, sid := targets[..|targets| - 1], targets[|targets| - 1];
      var run := RedisKillLoop(db, front, kind, kill, when);
      if run.crashed then run else RedisKillOne(run, sid, kill(kind, sid), when(sid))
  }

  function DeregisterAll(db: R.Redis, sids: seq<string>, when: Clock): R.Redis {
    if sids == [] then db
    else
      var front, sid := sids[..|sids| - 1], sids[|sids| - 1];
      R.Deregister(DeregisterAll(db, front, when), sid, when(sid))
  }

  /** `targets` are the fields of the subject's hash, in whatever order Redis lists them. */
  function RedisFastEvent(db: R.Redis, targets: seq<string>, kind: EventType, kill: Oracle, when: Clock): RedisFast {
    var run := RedisKillLoop(db, targets, kind, kill, when);
    if !run.crashed && IsPurge(kind) then run.(db := DeregisterAll(run.db, run.disabled + run.failed, when)) else run
  }

  /** Its lists are those of the loop over the in-memory store, whatever that holds. */
  lemma {:induction false} SameLists(
    db: R.Redis, st: I.Indexes, targets: seq<string>, kind: EventType, kill: Oracle, when: Clock)
    ensures var run, other := RedisKillLoop(db, targets, kind, kill, when), KillLoop(st, targets, kind, kill);
            && run.terminated == other.terminated && run.disabled == other.disabled && run.failed == other.failed
            && run.crashed == other.crashed
  {
    if targets != [] {
      SameLists(db, st, targets[..|targets| - 1], kind, kill, when);
    }
  }

  /** The loop deregisters exactly the terminated, each at its time. */
  lemma {:induction false} LoopDeregisters(
    db: R.Redis, targets: seq<string>, kind: EventType, kill: Oracle, when: Clock)
    ensures var run := RedisKillLoop(db, targets, kind, kill, when); run.db == DeregisterAll(db, run.terminated, when)
  {
    if targets != [] {
      var front, sid := targets[..|targets| - 1], targets[|targets| - 1];
      LoopDeregisters(db, front, kind, kill, when);
      var before := RedisKillLoop(db, front, kind, kill, when);
      if !before.crashed && kill(kind, sid) == Killed {
        assert (before.terminated + [sid])[..|before.terminated|] == before.terminated;
      }
    }
  }

  /** The closed form of a FAST event over Redis. */
  lemma FastEventIs(db: R.Redis, targets: seq<string>, kind: EventType, kill: Oracle, when: Clock)
    ensures var run, h := RedisFastEvent(db, targets, kind, kill, when), Handled(targets, kind, kill);
            var killed := Select(h, kind, kill, Killed);
            var rest := Select(h, kind, kill, Skipped) + Select(h, kind, kill, Refuses);
            && run.terminated == killed && (run.crashed <==> h != targets)
            && run.db == if h == targets && IsPurge(kind)
                         then DeregisterAll(DeregisterAll(db, killed, when), rest, when)
                         else DeregisterAll(db, killed, when)
  {
    SameLists(db, I.EMPTY, targets, kind, kill, when);
    LoopLists(I.EMPTY, targets, kind, kill);
    LoopDeregisters(db, targets, kind, kill, when);
  }

  // ----- One event -----

  /** The event deregisters `sid`: its kill returned normally, or all targets were handled and purged. */
  predicate Hits(targets: seq<string>, kind: EventType, kill: Oracle, sid: string) {
    var h := Handled(targets, kind, kill);
    sid in h && (kill(kind, sid) == Killed || (h == targets && (kind.AccountPurged? || kind.AccountDisabled?)))
  }

  /** Deregistering `sid` forgets it for `s`: its reverse key is alive and names `s`. */
  predicate Forgettable(db: R.Redis, s: string, sid: string, now: Time) {
    R.LiveLease(db, sid, now) && db.leases[sid].subjectKey == s
  }

  /** What one `deregister` at `now` leaves of another session. */
  lemma OtherSession(db: R.Redis, sid: string, now: Time, s: string, x: string, t: Time)
    requires x != sid
    ensures var db' := R.Deregister(db, sid, now);
            && (now <= t ==> (x in R.HGetAll(db', s, t) <==> x in R.HGetAll(db, s, t)))
            && (Forgettable(db', s, x, t) <==> Forgettable(db, s, x, t))
  {
    if R.LiveLease(db, sid, now) && x in R.HGetAll(db, s, t) {
      assert x in db.hashes[s].fields - {sid};
    }
  }

  lemma ThatSession(db: R.Redis, now: Time, s: string, x: string, t: Time)
    requires now <= t
    ensures var db' := R.Deregister(db, x, now);
            && (x in R.HGetAll(db', s, t) <==> x in R.HGetAll(db, s, t) && !Forgettable(db, s, x, now))
            && !Forgettable(db', s, x, t)
  {
  }

  lemma {:induction false} ForgettableAfterAll(
    db: R.Redis, sids: seq<string>, when: Clock, s: string, x: string, t: Time)
    requires x in sids ==> when(x) <= t
    ensures Forgettable(DeregisterAll(db, sids, when), s, x, t) <==> x !in sids && Forgettable(db, s, x, t)
  {
    if sids != [] {
      var front, sid := sids[..|sids| - 1], sids[|sids| - 1];
      assert sids == front + [sid];
      ForgettableAfterAll(db, front, when, s, x, t);
      if x == sid {
        ThatSession(DeregisterAll(db, front, when), when(sid), s, x, t);
      } else {
        OtherSession(DeregisterAll(db, front, when), sid, when(sid), s, x, t);
      }
    }
  }

  /** A loop of deregistrations forgets exactly those ids whose reverse key is alive, when called, and names `s`. */
  lemma {:induction false} DeregisterAllForgets(
    db: R.Redis, sids: seq<string>, when: Clock, s: string, x: string, t: Time)
    requires forall y :: y in sids ==> when(y) <= t
    ensures x in R.HGetAll(DeregisterAll(db, sids, when), s, t) <==>
            x in R.HGetAll(db, s, t) && !(x in sids && Forgettable(db, s, x, when(x)))
  {
    if sids != [] {
      var front, sid := sids[..|sids| - 1], sids[|sids| - 1];
      assert sids == front + [sid];
      assert sid in sids && forall y :: y in front ==> y in sids;
      DeregisterAllForgets(db, front, when, s, x, t);
      if x == sid {
        ForgettableAfterAll(db, front, when, s, x, when(x));
        ThatSession(DeregisterAll(db, front, when), when(sid), s, x, t);
      } else {
        OtherSession(DeregisterAll(db, front, when), sid, when(sid), s, x, t);
      }
    }
  }

  lemma TwoLoopsForget(
    db: R.Redis, a: seq<string>, b: seq<string>, when: Clock, s: string, x: string, t: Time)
    requires forall y :: y in a || y in b ==> when(y) <= t
    ensures var after := DeregisterAll(DeregisterAll(db, a, when), b, when);
            && (x in R.HGetAll(after, s, t) <==>
                x in R.HGetAll(db, s, t) && !((x in a || x in b) && Forgettable(db, s, x, when(x))))
            && (Forgettable(after, s, x, t) <==> x !in a && x !in b && Forgettable(db, s, x, t))
  {
    var mid := DeregisterAll(db, a, when);
    DeregisterAllForgets(db, a, when, s, x, t);
    DeregisterAllForgets(mid, b, when, s, x, t);
    ForgettableAfterAll(db, a, when, s, x, t);
    ForgettableAfterAll(mid, b, when, s, x, t);
    ForgettableAfterAll(db, a, when, s, x, when(x));
  }

  /**
    A FAST event removes exactly the sessions it deregisters whose reverse key is
    alive, at that call, and names the subject. `s` is any subject, and `t` any later time.
   */
  lemma FastEventForgetsIff(
    db: R.Redis, targets: seq<string>, kind: EventType, kill: Oracle, when: Clock, s: string, sid: string, t: Time)
    requires forall x :: x in targets ==> when(x) <= t
    ensures var after := RedisFastEvent(db, targets, kind, kill, when).db;
            && (sid in R.HGetAll(after, s, t) <==>
                sid in R.HGetAll(db, s, t)
                && !(Hits(targets, kind, kill, sid) && Forgettable(db, s, sid, when(sid))))
            && (Forgettable(after, s, sid, t) <==> !Hits(targets, kind, kill, sid) && Forgettable(db, s, sid, t))
  {
    var h := Handled(targets, kind, kill);
    var killed := Select(h, kind, kill, Killed);
    var rest := Select(h, kind, kill, Skipped) + Select(h, kind, kill, Refuses);
    FastEventIs(db, targets, kind, kill, when);
    HitsIs(targets, kind, kill, sid);
    forall x | x in killed || x in rest
      ensures when(x) <= t
    {
      HitsIs(targets, kind, kill, x);
    }
    if h == targets && IsPurge(kind) {
      TwoLoopsForget(db, killed, rest, when, s, sid, t);
    } else {
      DeregisterAllForgets(db, killed, when, s, sid, t);
      ForgettableAfterAll(db, killed, when, s, sid, t);
    }
  }

  lemma HitsIs(targets: seq<string>, kind: EventType, kill: Oracle, sid: string)
    ensures var h := Handled(targets, kind, kill);
            var killed := Select(h, kind, kill, Killed);
            var rest := Select(h, kind, kill, Skipped) + Select(h, kind, kill, Refuses);
            && (Hits(targets, kind, kill, sid) <==> sid in killed || (h == targets && IsPurge(kind) && sid in rest))
            && (sid in killed || sid in rest ==> sid in targets)
  {
    var h := Handled(targets, kind, kill);
    SelectMembers(h, kind, kill, Killed);
    SelectMembers(h, kind, kill, Skipped);
    SelectMembers(h, kind, kill, Refuses);
    var skipped, refused := Select(h, kind, kill, Skipped), Select(h, kind, kill, Refuses);
    assert sid in skipped + refused <==> sid in skipped || sid in refused;
    assert sid in skipped + refused <==> sid in h && kill(kind, sid) != Killed;
    assert sid in h ==> sid in targets;
  }

  /**
    On Redis a purge that does not raise leaves no session listed, at any later
    time, iff of every session still in the hash then the reverse key was alive,
    when it was deregistered, and named the subject.
   */
  lemma PurgeLeavesNoSessionIff(
    db: R.Redis, targets: seq<string>, kind: EventType, kill: Oracle, when: Clock, s: string, at: Time, t: Time)
    requires (kind.AccountPurged? || kind.AccountDisabled?) && Handled(targets, kind, kill) == targets
    requires at <= t && forall x :: x in targets ==> when(x) <= t
    requires forall sid :: sid in targets <==> sid in R.HGetAll(db, s, at)
    ensures R.HGetAll(RedisFastEvent(db, targets, kind, kill, when).db, s, t) == map[] <==>
            forall sid :: sid in R.HGetAll(db, s, t) ==> Forgettable(db, s, sid, when(sid))
  {
    var after := R.HGetAll(RedisFastEvent(db, targets, kind, kill, when).db, s, t);
    forall sid
      ensures sid in after <==> sid in R.HGetAll(db, s, t) && !Forgettable(db, s, sid, when(sid))
    {
      FastEventForgetsIff(db, targets, kind, kill, when, s, sid, t);
      assert sid in R.HGetAll(db, s, t) ==> sid in targets;
    }
    assert after == map[] <==> forall sid :: sid !in after;
  }

  /** On lawful runs a session that is hit while younger than the TTL is no longer listed. */
  lemma YoungSessionsAreForgotten(
    ops: seq<I.Op>, now: Time, ttl: Time, targets: seq<string>, kind: EventType, kill: Oracle, when: Clock,
    s: string, sid: string, t: Time)
    requires S.Plausible(ops, now) && I.LawfulRun(ops, ttl) && 0.0 < ttl
    requires now <= when(sid) && forall x :: x in targets ==> when(x) <= t
    requires var listed := R.HGetAll(S.RedisRun(ops, ttl), s, now);
             sid in listed && S.Young(listed[sid], when(sid), ttl)
    requires Hits(targets, kind, kill, sid)
    ensures sid !in R.HGetAll(RedisFastEvent(S.RedisRun(ops, ttl), targets, kind, kill, when).db, s, t)
  {
    YoungIsForgettable(ops, now, ttl, s, sid, when(sid));
    FastEventForgetsIff(S.RedisRun(ops, ttl), targets, kind, kill, when, s, sid, t);
  }

  lemma YoungIsForgettable(ops: seq<I.Op>, now: Time, ttl: Time, s: string, sid: string, t: Time)
    requires S.Plausible(ops, now) && I.LawfulRun(ops, ttl) && 0.0 < ttl && now <= t
    requires var listed := R.HGetAll(S.RedisRun(ops, ttl), s, now); sid in listed && S.Young(listed[sid], t, ttl)
    ensures Forgettable(S.RedisRun(ops, ttl), s, sid, t)
  {
    S.MirroredRun(ops, now, ttl);
    assert S.MirroredField(I.Run(ops, ttl), S.RedisRun(ops, ttl), s, sid, now, ttl);
  }

  // ----- The FAST events of a whole SET -----

  /** One FAST event: when its sessions are looked up, what Redis lists, and when each is deregistered. */
  datatype FastStep = FastStep(kind: EventType, at: Time, targets: seq<string>, when: Clock)

  predicate Completes(step: FastStep, kill: Oracle) {
    Handled(step.targets, step.kind, kill) == step.targets
  }

  /** The events in order, up to the first with an uncaught exception. */
  function RedisSet(db: R.Redis, steps: seq<FastStep>, kill: Oracle): R.Redis {
    if steps == [] then db
    else
      var front, step := steps[..|steps| - 1], steps[|steps| - 1];
      var before := RedisSet(db, front, kill);
      if AllComplete(front, kill) then RedisFastEvent(before, step.targets, step.kind, kill, step.when).db else before
  }

  predicate AllComplete(steps: seq<FastStep>, kill: Oracle) {
    forall i :: 0 <= i < |steps| ==> Completes(steps[i], kill)
  }

  /** Event `i` is reached and deregisters `sid`. */
  predicate HitsAt(steps: seq<FastStep>, kill: Oracle, i: nat, sid: string) {
    i < |steps| && AllComplete(steps[..i], kill) && Hits(steps[i].targets, steps[i].kind, kill, sid)
  }

  /** Each event ends, at the latest, when the next one starts, and the last one at `t`. */
  ghost predicate InOrder(steps: seq<FastStep>, t: Time) {
    && (forall i, j :: 0 <= i < j < |steps| ==> EndsBy(steps[i], steps[j].at))
    && forall i :: 0 <= i < |steps| ==> EndsBy(steps[i], t)
  }

  ghost predicate EndsBy(step: FastStep, t: Time) {
    step.at <= t && forall x :: x in step.targets ==> step.at <= step.when(x) <= t
  }

  ghost predicate NeverHit(steps: seq<FastStep>, kill: Oracle, sid: string) {
    forall i: nat :: !HitsAt(steps, kill, i, sid)
  }

  /** Whenever an event that was reached deregisters `sid`, its reverse key is dead or names another subject. */
  ghost predicate Spared(db: R.Redis, steps: seq<FastStep>, kill: Oracle, s: string, sid: string) {
    forall i: nat :: HitsAt(steps, kill, i, sid) ==> !Forgettable(db, s, sid, steps[i].when(sid))
  }

  predicate HitsLast(front: seq<FastStep>, step: FastStep, kill: Oracle, sid: string) {
    AllComplete(front, kill) && Hits(step.targets, step.kind, kill, sid)
  }

  lemma HitsAtGrows(front: seq<FastStep>, step: FastStep, kill: Oracle, i: nat, sid: string)
    ensures HitsAt(front + [step], kill, i, sid) <==>
            HitsAt(front, kill, i, sid) || (i == |front| && HitsLast(front, step, kill, sid))
  {
    if i < |front| {
      assert (front + [step])[..i] == front[..i];
    } else if i == |front| {
      assert (front + [step])[..i] == front;
    }
  }

  lemma SparedGrows(db: R.Redis, front: seq<FastStep>, step: FastStep, kill: Oracle, s: string, sid: string)
    ensures NeverHit(front + [step], kill, sid) <==> NeverHit(front, kill, sid) && !HitsLast(front, step, kill, sid)
    ensures Spared(db, front + [step], kill, s, sid) <==>
            && Spared(db, front, kill, s, sid)
            && !(HitsLast(front, step, kill, sid) && Forgettable(db, s, sid, step.when(sid)))
  {
    forall i: nat
      ensures HitsAt(front + [step], kill, i, sid) <==>
              HitsAt(front, kill, i, sid) || (i == |front| && HitsLast(front, step, kill, sid))
    {
      HitsAtGrows(front, step, kill, i, sid);
    }
    assert HitsAt(front + [step], kill, |front|, sid) <==> HitsLast(front, step, kill, sid);
  }

  lemma EndsLater(front: seq<FastStep>, step: FastStep, t: Time, u: Time)
    requires InOrder(front + [step], t) && step.at <= u
    ensures InOrder(front, u)
  {
    var all := front + [step];
    forall i | 0 <= i < |front|
      ensures EndsBy(front[i], u)
    {
      assert EndsBy(all[i], all[|front|].at);
    }
    forall i, j | 0 <= i < j < |front|
      ensures EndsBy(front[i], front[j].at)
    {
      assert EndsBy(all[i], all[j].at);
    }
  }

  /** A reverse key that is still alive now was alive whenever an earlier event called. */
  lemma EarlierHit(db: R.Redis, front: seq<FastStep>, kill: Oracle, s: string, sid: string, t: Time)
    requires InOrder(front, t) && Spared(db, front, kill, s, sid) && Forgettable(db, s, sid, t)
    ensures NeverHit(front, kill, sid)
  {
    forall i: nat | i < |front|
      ensures HitsAt(front, kill, i, sid) ==> front[i].when(sid) <= t
    {
      HitInTime(front, kill, i, sid, t);
    }
  }

  lemma HitInTime(steps: seq<FastStep>, kill: Oracle, i: nat, sid: string, t: Time)
    requires InOrder(steps, t) && i < |steps|
    ensures HitsAt(steps, kill, i, sid) ==> sid in steps[i].targets && steps[i].at <= steps[i].when(sid) <= t
  {
    assert EndsBy(steps[i], t);
  }

  /**
    Over a whole SET, complete or not: a session of any subject is removed iff some
    event that was reached deregisters it while its reverse key is alive and names that subject.
   */
  lemma {:induction false} SetForgetsIff(
    db: R.Redis, steps: seq<FastStep>, kill: Oracle, s: string, sid: string, t: Time)
    requires InOrder(steps, t)
    ensures var after := RedisSet(db, steps, kill);
            && (sid in R.HGetAll(after, s, t) <==> sid in R.HGetAll(db, s, t) && Spared(db, steps, kill, s, sid))
            && (Forgettable(after, s, sid, t) <==> Forgettable(db, s, sid, t) && NeverHit(steps, kill, sid))
  {
    if steps != [] {
      var front, step := steps[..|steps| - 1], steps[|steps| - 1];
      assert steps == front + [step];
      EndsLater(front, step, t, t);
      SetForgetsIff(db, front, kill, s, sid, t);
      SparedGrows(db, front, step, kill, s, sid);
      if HitsLast(front, step, kill, sid) {
        EndsLater(front, step, t, step.when(sid));
        SetForgetsIff(db, front, kill, s, sid, step.when(sid));
        LastHit(db, front, step, kill, s, sid, t);
      } else {
        LastMiss(db, front, step, kill, s, sid, t);
      }
    }
  }

  lemma LastMiss(db: R.Redis, front: seq<FastStep>, step: FastStep, kill: Oracle, s: string, sid: string, t: Time)
    requires EndsBy(step, t) && !HitsLast(front, step, kill, sid)
    ensures var before, after := RedisSet(db, front, kill), RedisSet(db, front + [step], kill);
            && (sid in R.HGetAll(after, s, t) <==> sid in R.HGetAll(before, s, t))
            && (Forgettable(after, s, sid, t) <==> Forgettable(before, s, sid, t))
  {
    assert (front + [step])[..|front|] == front;
    if AllComplete(front, kill) {
      FastEventForgetsIff(RedisSet(db, front, kill), step.targets, step.kind, kill, step.when, s, sid, t);
    }
  }

  lemma LastHit(db: R.Redis, front: seq<FastStep>, step: FastStep, kill: Oracle, s: string, sid: string, t: Time)
    requires EndsBy(step, t) && HitsLast(front, step, kill, sid) && InOrder(front, step.when(sid))
    requires var before, u := RedisSet(db, front, kill), step.when(sid);
             && (sid in R.HGetAll(before, s, t) <==> sid in R.HGetAll(db, s, t) && Spared(db, front, kill, s, sid))
             && (Forgettable(before, s, sid, u) <==> Forgettable(db, s, sid, u) && NeverHit(front, kill, sid))
    ensures var after := RedisSet(db, front + [step], kill);
            && (sid in R.HGetAll(after, s, t) <==>
                && sid in R.HGetAll(db, s, t) && Spared(db, front, kill, s, sid)
                && !Forgettable(db, s, sid, step.when(sid)))
            && !Forgettable(after, s, sid, t)
  {
    assert (front + [step])[..|front|] == front;
    FastEventForgetsIff(RedisSet(db, front, kill), step.targets, step.kind, kill, step.when, s, sid, t);
    if Spared(db, front, kill, s, sid) && Forgettable(db, s, sid, step.when(sid)) {
      EarlierHit(db, front, kill, s, sid, step.when(sid));
    }
  }

  // ----- Killed once, or again -----

  /** The targets of each event are what Redis lists when it starts. */
  ghost predicate LooksUp(db: R.Redis, steps: seq<FastStep>, kill: Oracle, s: string) {
    forall j: nat :: j < |steps| ==> LooksUpAt(db, steps, kill, s, j)
  }

  ghost predicate LooksUpAt(db: R.Redis, steps: seq<FastStep>, kill: Oracle, s: string, j: nat)
    requires j < |steps|
  {
    forall sid :: sid in steps[j].targets <==> sid in R.HGetAll(RedisSet(db, steps[..j], kill), s, steps[j].at)
  }

  lemma FrontInOrder(steps: seq<FastStep>, t: Time, j: nat)
    requires InOrder(steps, t) && j < |steps|
    ensures InOrder(steps[..j], steps[j].at)
  {
    forall i | 0 <= i < j
      ensures EndsBy(steps[..j][i], steps[j].at)
    {
      assert EndsBy(steps[i], steps[j].at);
    }
  }

  /** A later event targets a session iff its hash still holds it and every earlier event spared it. */
  lemma TargetedIff(
    db: R.Redis, steps: seq<FastStep>, kill: Oracle, s: string, t: Time, j: nat, sid: string)
    requires InOrder(steps, t) && LooksUp(db, steps, kill, s) && j < |steps|
    ensures sid in steps[j].targets <==>
            sid in R.HGetAll(db, s, steps[j].at) && Spared(db, steps[..j], kill, s, sid)
  {
    FrontInOrder(steps, t, j);
    SetForgetsIff(db, steps[..j], kill, s, sid, steps[j].at);
    assert LooksUpAt(db, steps, kill, s, j);
  }

  /**
    A session that one event deregisters is targeted again by a later one iff its
    hash still holds it and its reverse key, at that call, was dead or named another subject.
   */
  lemma TargetedAgainIff(
    db: R.Redis, steps: seq<FastStep>, kill: Oracle, s: string, t: Time, i: nat, j: nat, sid: string)
    requires InOrder(steps, t) && LooksUp(db, steps, kill, s) && AllComplete(steps, kill)
    requires i < j < |steps| && Hits(steps[i].targets, steps[i].kind, kill, sid)
    ensures sid in steps[j].targets <==>
            sid in R.HGetAll(db, s, steps[j].at) && !Forgettable(db, s, sid, steps[i].when(sid))
  {
    TargetedIff(db, steps, kill, s, t, i, sid);
    TargetedIff(db, steps, kill, s, t, j, sid);
    assert HitsAt(steps[..j], kill, i, sid) by {
      assert steps[..j][..i] == steps[..i];
    }
    if !Forgettable(db, s, sid, steps[i].when(sid)) {
      forall k: nat | HitsAt(steps[..j], kill, k, sid)
        ensures !Forgettable(db, s, sid, steps[k].when(sid))
      {
        SparedAt(db, steps, kill, s, t, i, j, k, sid);
      }
    }
  }

  lemma SparedAt(
    db: R.Redis, steps: seq<FastStep>, kill: Oracle, s: string, t: Time, i: nat, j: nat, k: nat, sid: string)
    requires InOrder(steps, t) && i < j < |steps| && k < j && HitsAt(steps[..j], kill, k, sid)
    requires sid in steps[i].targets && Spared(db, steps[..i], kill, s, sid)
    requires !Forgettable(db, s, sid, steps[i].when(sid))
    ensures !Forgettable(db, s, sid, steps[k].when(sid))
  {
    assert steps[..j][..k] == steps[..k];
    if k < i {
      assert steps[..i][..k] == steps[..k];
      assert HitsAt(steps[..i], kill, k, sid);
    } else if k > i {
      assert EndsBy(steps[i], steps[k].at) && EndsBy(steps[k], t);
    }
  }

  /** Event `i` lists the session, and BIG-IP terminates it. */
  predicate Kills(steps: seq<FastStep>, kill: Oracle, i: nat, sid: string) {
    i < |steps| && sid in steps[i].targets && kill(steps[i].kind, sid) == Killed
  }

  /** BIG-IP would terminate the session for event `j`, and its hash still holds it then. */
  predicate WouldKill(db: R.Redis, steps: seq<FastStep>, kill: Oracle, s: string, j: nat, sid: string) {
    j < |steps| && sid in R.HGetAll(db, s, steps[j].at) && kill(steps[j].kind, sid) == Killed
  }

  /**
    Over Redis no session is killed twice by a SET that does not raise, iff each
    one that a later event would kill again had its reverse key alive, naming the
    subject, when it was forgotten.
   */
  lemma KilledOnceIff(db: R.Redis, steps: seq<FastStep>, kill: Oracle, s: string, t: Time)
    requires InOrder(steps, t) && LooksUp(db, steps, kill, s) && AllComplete(steps, kill)
    ensures (forall i: nat, j: nat, sid :: i < j && Kills(steps, kill, i, sid) ==> !Kills(steps, kill, j, sid)) <==>
            (forall i: nat, j: nat, sid ::
               i < j && Kills(steps, kill, i, sid) && WouldKill(db, steps, kill, s, j, sid) ==>
                 Forgettable(db, s, sid, steps[i].when(sid)))
  {
    forall i: nat, j: nat, sid | i < j && Kills(steps, kill, i, sid)
      ensures Kills(steps, kill, j, sid) <==>
              WouldKill(db, steps, kill, s, j, sid) && !Forgettable(db, s, sid, steps[i].when(sid))
    {
      if j < |steps| {
        assert Completes(steps[i], kill);
        TargetedAgainIff(db, steps, kill, s, t, i, j, sid);
      }
    }
  }

  /** So on lawful runs no session is killed twice while it is younger than the TTL. */
  lemma YoungKilledOnce(
    ops: seq<I.Op>, now: Time, ttl: Time, steps: seq<FastStep>, kill: Oracle, s: string, t: Time, i: nat, j: nat,
    sid: string)
    requires S.Plausible(ops, now) && I.LawfulRun(ops, ttl) && 0.0 < ttl
    requires InOrder(steps, t) && LooksUp(S.RedisRun(ops, ttl), steps, kill, s) && AllComplete(steps, kill)
    requires i < j && Kills(steps, kill, i, sid) && now <= steps[i].at
    requires var listed := R.HGetAll(S.RedisRun(ops, ttl), s, now);
             sid in listed && S.Young(listed[sid], steps[i].when(sid), ttl)
    ensures !Kills(steps, kill, j, sid)
  {
    if j < |steps| {
      assert Completes(steps[i], kill) && EndsBy(steps[i], t);
      YoungIsForgettable(ops, now, ttl, s, sid, steps[i].when(sid));
      TargetedAgainIff(S.RedisRun(ops, ttl), steps, kill, s, t, i, j, sid);
    }
  }

  lemma OldSession(r1: CorrelationRecord, r2: CorrelationRecord, now: Time, ttl: Time, sid: string)
    requires r1.subjectKey == r2.subjectKey && r1.apmSessionId != r2.apmSessionId
    requires r1.registeredAt <= r2.registeredAt < r1.registeredAt + ttl <= now < r2.registeredAt + ttl
    ensures var db, s := S.RedisRun(TwoSessions(r1, r2), ttl), r1.subjectKey;
            && (sid in R.HGetAll(db, s, now) <==> sid == r1.apmSessionId || sid == r2.apmSessionId)
            && (Forgettable(db, s, sid, now) <==> sid == r2.apmSessionId)
  {
    var ops := TwoSessions(r1, r2);
    assert ops[..1] == [I.RegisterOp(r1, r1.registeredAt)] && ops[..1][..0] == [];
    assert S.RedisRun(ops[..1], ttl) == R.Register(R.EMPTY, r1, r1.registeredAt, ttl);
    assert S.RedisRun(ops, ttl) == R.Register(S.RedisRun(ops[..1], ttl), r2, r2.registeredAt, ttl);
  }

  function TwoSessions(r1: CorrelationRecord, r2: CorrelationRecord): seq<I.Op> {
    [I.RegisterOp(r1, r1.registeredAt), I.RegisterOp(r2, r2.registeredAt)]
  }

  lemma FirstKill(
    r1: CorrelationRecord, r2: CorrelationRecord, now: Time, ttl: Time, kind: EventType, kill: Oracle, sid: string)
    requires r1.subjectKey == r2.subjectKey && r1.apmSessionId != r2.apmSessionId
    requires r1.registeredAt <= r2.registeredAt < r1.registeredAt + ttl <= now < r2.registeredAt + ttl
    requires forall k, x :: kill(k, x) == Killed
    ensures var db := S.RedisRun(TwoSessions(r1, r2), ttl);
            var after := RedisFastEvent(db, [r1.apmSessionId, r2.apmSessionId], kind, kill, x => now).db;
            sid in R.HGetAll(after, r1.subjectKey, now) <==> sid == r1.apmSessionId
  {
    var db, targets := S.RedisRun(TwoSessions(r1, r2), ttl), [r1.apmSessionId, r2.apmSessionId];
    OldSession(r1, r2, now, ttl, sid);
    FastEventForgetsIff(db, targets, kind, kill, x => now, r1.subjectKey, sid, now);
    assert Handled(targets, kind, kill) == targets;
  }

  function TwoEvents(r1: CorrelationRecord, r2: CorrelationRecord, now: Time, k1: EventType, k2: EventType)
    : seq<FastStep>
  {
    [FastStep(k1, now, [r1.apmSessionId, r2.apmSessionId], x => now), FastStep(k2, now, [r1.apmSessionId], x => now)]
  }

  lemma TwoEventsLookUp(
    r1: CorrelationRecord, r2: CorrelationRecord, now: Time, ttl: Time, k1: EventType, k2: EventType, kill: Oracle)
    requires r1.subjectKey == r2.subjectKey && r1.apmSessionId != r2.apmSessionId
    requires r1.registeredAt <= r2.registeredAt < r1.registeredAt + ttl <= now < r2.registeredAt + ttl
    requires forall k, x :: kill(k, x) == Killed
    ensures LooksUp(S.RedisRun(TwoSessions(r1, r2), ttl), TwoEvents(r1, r2, now, k1, k2), kill, r1.subjectKey)
  {
    var db, s, steps := S.RedisRun(TwoSessions(r1, r2), ttl), r1.subjectKey, TwoEvents(r1, r2, now, k1, k2);
    var first, second := steps[0], steps[1];
    assert steps[..0] == [] && steps[..1] == [first] && [first][..0] == [];
    assert RedisSet(db, [first], kill) == RedisFastEvent(db, first.targets, k1, kill, first.when).db;
    forall x
      ensures x in R.HGetAll(db, s, now) <==> x in first.targets
      ensures x in R.HGetAll(RedisSet(db, [first], kill), s, now) <==> x in second.targets
    {
      OldSession(r1, r2, now, ttl, x);
      FirstKill(r1, r2, now, ttl, k1, kill, x);
    }
    assert LooksUpAt(db, steps, kill, s, 0) && LooksUpAt(db, steps, kill, s, 1);
  }

  lemma TwoEventsComplete(
    r1: CorrelationRecord, r2: CorrelationRecord, now: Time, k1: EventType, k2: EventType, kill: Oracle)
    requires forall k, x :: kill(k, x) == Killed
    ensures InOrder(TwoEvents(r1, r2, now, k1, k2), now) && AllComplete(TwoEvents(r1, r2, now, k1, k2), kill)
  {
  }

  /**
    A session older than the TTL, whose hash a younger one keeps alive: two FAST
    events of one SET both kill it, and it stays listed.
   */
  lemma OldSessionIsKilledTwice(
    r1: CorrelationRecord, r2: CorrelationRecord, now: Time, ttl: Time, k1: EventType, k2: EventType, kill: Oracle)
    requires r1.subjectKey == r2.subjectKey && r1.apmSessionId != r2.apmSessionId
    requires r1.registeredAt <= r2.registeredAt < r1.registeredAt + ttl <= now < r2.registeredAt + ttl
    requires forall k, x :: kill(k, x) == Killed
    ensures var db, s, sid := S.RedisRun(TwoSessions(r1, r2), ttl), r1.subjectKey, r1.apmSessionId;
            var steps := TwoEvents(r1, r2, now, k1, k2);
            && InOrder(steps, now) && LooksUp(db, steps, kill, s) && AllComplete(steps, kill)
            && Kills(steps, kill, 0, sid) && Kills(steps, kill, 1, sid)
            && sid in R.HGetAll(RedisSet(db, steps, kill), s, now)
  {
    var db, s, sid := S.RedisRun(TwoSessions(r1, r2), ttl), r1.subjectKey, r1.apmSessionId;
    TwoEventsLookUp(r1, r2, now, ttl, k1, k2, kill);
    TwoEventsComplete(r1, r2, now, k1, k2, kill);
    OldSession(r1, r2, now, ttl, sid);
    SetForgetsIff(db, TwoEvents(r1, r2, now, k1, k2), kill, s, sid, now);
  }
}
