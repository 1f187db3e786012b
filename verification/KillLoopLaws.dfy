/** Laws of one FAST event: whom it kills, whom it forgets, and how its targets are split. */
module KillLoopLaws {
  import opened Models
  import opened CorrelationIndexes
  import opened Enforcement

  function ToSet(ids: seq<string>): (all: set<string>)
    ensures forall sid :: sid in all <==> sid in ids
  {
    set sid | sid in ids
  }

  // ----- The lists the loop builds -----

  /** The targets with a given outcome, in order. */
  function Select(targets: seq<string>, kind: EventType, kill: Oracle, outcome: KillOutcome): seq<string> {
    if targets == [] then []
    else
      var sid := targets[|targets| - 1];
      Select(targets[..|targets| - 1], kind, kill, outcome) + if kill(kind, sid) == outcome then [sid] else []
  }

  lemma {:induction false} SelectMembers(targets: seq<string>, kind: EventType, kill: Oracle, outcome: KillOutcome)
    ensures forall sid :: sid in Select(targets, kind, kill, outcome) <==> sid in targets && kill(kind, sid) == outcome
  {
    if targets != [] {
      SelectMembers(targets[..|targets| - 1], kind, kill, outcome);
      assert targets == targets[..|targets| - 1] + [targets[|targets| - 1]];
    }
  }

  lemma SelectOne(front: seq<string>, sid: string, kind: EventType, kill: Oracle, outcome: KillOutcome)
    ensures Select(front + [sid], kind, kill, outcome) ==
            Select(front, kind, kill, outcome) + if kill(kind, sid) == outcome then [sid] else []
  {
  }

  /** The targets the loop handles: all, or those before the first uncaught exception. */
  function Handled(targets: seq<string>, kind: EventType, kill: Oracle): (h: seq<string>)
    ensures h <= targets
    ensures forall sid :: sid in h ==> kill(kind, sid) != Crashes
    ensures |h| < |targets| ==> kill(kind, targets[|h|]) == Crashes
  {
    if targets == [] then []
    else
      var sid, h := targets[|targets| - 1], Handled(targets[..|targets| - 1], kind, kill);
      if |h| == |targets| - 1 && kill(kind, sid) != Crashes then h + [sid] else h
  }

  lemma {:induction false} LoopLists(st: Indexes, targets: seq<string>, kind: EventType, kill: Oracle)
    ensures var run, h := KillLoop(st, targets, kind, kill), Handled(targets, kind, kill);
            && run.terminated == Select(h, kind, kill, Killed)
            && run.disabled == Select(h, kind, kill, Skipped)
            && run.failed == Select(h, kind, kill, Refuses)
            && (run.crashed <==> h != targets)
  {
    if targets != [] {
      var front, sid := targets[..|targets| - 1], targets[|targets| - 1];
      var h := Handled(front, kind, kill);
      LoopLists(st, front, kind, kill);
      if h == front {
        SelectOne(h, sid, kind, kill, Killed);
        SelectOne(h, sid, kind, kill, Skipped);
        SelectOne(h, sid, kind, kill, Refuses);
      }
    }
  }

  lemma {:induction false} SelectSplits(targets: seq<string>, kind: EventType, kill: Oracle)
    requires forall sid :: sid in targets ==> kill(kind, sid) != Crashes
    ensures multiset(targets) ==
              multiset(Select(targets, kind, kill, Killed)) +
              multiset(Select(targets, kind, kill, Skipped)) +
              multiset(Select(targets, kind, kill, Refuses))
  {
    if targets != [] {
      var front, sid := targets[..|targets| - 1], targets[|targets| - 1];
      assert targets == front + [sid];
      assert forall x :: x in front ==> x in targets;
      SelectSplits(front, kind, kill);
      SelectOne(front, sid, kind, kill, Killed);
      SelectOne(front, sid, kind, kill, Skipped);
      SelectOne(front, sid, kind, kill, Refuses);
      AddOne(front, sid, kill(kind, sid), Select(front, kind, kill, Killed), Select(front, kind, kill, Skipped),
             Select(front, kind, kill, Refuses));
    }
  }

  lemma AddOne(front: seq<string>, sid: string, o: KillOutcome, a: seq<string>, b: seq<string>, c: seq<string>)
    requires multiset(front) == multiset(a) + multiset(b) + multiset(c) && o != Crashes
    ensures multiset(front + [sid]) ==
              multiset(a + if o == Killed then [sid] else []) +
              multiset(b + if o == Skipped then [sid] else []) +
              multiset(c + if o == Refuses then [sid] else [])
  {
  }

  /** Without an uncaught exception, the targets are split into terminated, disabled and failed. */
  lemma LoopPartitions(st: Indexes, targets: seq<string>, kind: EventType, kill: Oracle)
    requires !KillLoop(st, targets, kind, kill).crashed
    ensures var run := KillLoop(st, targets, kind, kill);
            multiset(targets) == multiset(run.terminated) + multiset(run.disabled) + multiset(run.failed)
  {
    LoopLists(st, targets, kind, kill);
    SelectSplits(targets, kind, kill);
  }

  // ----- The store -----

  /**
    Kill before forget: at every point of the loop, an uncaught exception
    included, exactly the sessions whose kill returned normally are gone.
   */
  lemma {:induction false} LoopForgetsTheKilled(
    st: Indexes, s: string, targets: seq<string>, kind: EventType, kill: Oracle)
    requires Consistent(st)
    requires forall sid :: sid in targets ==> HasId(Bucket(st, s), sid)
    ensures var run := KillLoop(st, targets, kind, kill);
            && run.store == DeregisterAll(st, run.terminated)
            && run.store == Without(st, s, ToSet(run.terminated))
            && Consistent(run.store)
            && AllIn(ToSet(run.terminated), Bucket(st, s))
  {
    var run := KillLoop(st, targets, kind, kill);
    LoopTargets(st, targets, kind, kill);
    LoopDeregisters(st, targets, kind, kill);
    DeregisterAllIsWithout(st, s, run.terminated);
    assert ToSet(run.terminated) == set sid | sid in run.terminated;
  }

  lemma {:induction false} LoopDeregisters(st: Indexes, targets: seq<string>, kind: EventType, kill: Oracle)
    ensures KillLoop(st, targets, kind, kill).store == DeregisterAll(st, KillLoop(st, targets, kind, kill).terminated)
  {
    if targets != [] {
      var front, sid := targets[..|targets| - 1], targets[|targets| - 1];
      LoopDeregisters(st, front, kind, kill);
      var before := KillLoop(st, front, kind, kill);
      var after := KillLoop(st, targets, kind, kill);
      if !before.crashed && kill(kind, sid) == Killed {
        assert after.terminated[..|after.terminated| - 1] == before.terminated;
      }
    }
  }

  /** The sessions of `s` that a FAST event forgets, given those it killed. */
  function Dead(st: Indexes, s: string, at: Time, ttl: Time, all: bool, killed: set<string>): set<string> {
    var b := Bucket(st, s);
    set r | r in b && (r.registeredAt < at - ttl || all || r.apmSessionId in killed) :: r.apmSessionId
  }

  lemma ExpiredRecord(st: Indexes, s: string, at: Time, ttl: Time, r: CorrelationRecord)
    requires Consistent(st) && r in Bucket(st, s)
    ensures r.apmSessionId in Expired(st, s, at, ttl) <==> r.registeredAt < at - ttl
  {
  }

  lemma IdsMembers(b: seq<CorrelationRecord>)
    ensures forall sid :: sid in Ids(b) <==> HasId(b, sid)
  {
  }

  lemma SweptBucket(st: Indexes, s: string, at: Time, ttl: Time)
    requires Consistent(st)
    ensures Consistent(Sweep(st, s, at, ttl))
    ensures forall r :: r in SessionsFor(st, s, at, ttl) <==> r in Bucket(st, s) && r.registeredAt >= at - ttl
    ensures Distinct(SessionsFor(st, s, at, ttl))
    ensures forall sid :: sid in Targets(st, s, at, ttl) <==> HasId(SessionsFor(st, s, at, ttl), sid)
  {
    SweepIsWithout(st, s, at, ttl);
    WithoutBuckets(st, s, Expired(st, s, at, ttl));
    forall r | r in Bucket(st, s)
      ensures r.apmSessionId in Expired(st, s, at, ttl) <==> r.registeredAt < at - ttl
    {
      ExpiredRecord(st, s, at, ttl, r);
    }
    IdsMembers(SessionsFor(st, s, at, ttl));
  }

  /** A FAST event removes exactly the expired, the killed and, if it is an unhindered purge, all. */
  lemma FastEventForgets(st: Indexes, s: string, kind: EventType, at: Time, env: Env)
    requires Consistent(st)
    ensures var run := FastEvent(st, s, kind, at, env);
            var dead := Dead(st, s, at, env.correlationTtl, IsPurge(kind) && !run.crashed, ToSet(run.terminated));
            && run.store == Without(st, s, dead)
            && AllIn(dead, Bucket(st, s))
            && Consistent(run.store)
            && forall sid :: sid in run.terminated ==> sid in Targets(st, s, at, env.correlationTtl)
  {
    var ttl := env.correlationTtl;
    var swept, targets := Sweep(st, s, at, ttl), Targets(st, s, at, ttl);
    var loop := KillLoop(swept, targets, kind, env.kill);
    SweptBucket(st, s, at, ttl);
    SweepIsWithout(st, s, at, ttl);
    LoopForgetsTheKilled(swept, s, targets, kind, env.kill);
    LoopTargets(swept, targets, kind, env.kill);
    var expired, killed := Expired(st, s, at, ttl), ToSet(loop.terminated);
    if !loop.crashed && IsPurge(kind) {
      LoopDeregisters(swept, targets, kind, env.kill);
      PurgedStore(st, s, at, ttl, loop.terminated, loop.disabled + loop.failed);
    } else {
      WithoutWithout(st, s, expired, killed);
      DeadIs(st, s, at, ttl, false, killed, expired + killed);
    }
  }

  lemma PurgedStore(st: Indexes, s: string, at: Time, ttl: Time, terminated: seq<string>, rest: seq<string>)
    requires Consistent(st)
    requires forall sid :: sid in terminated + rest <==> sid in Targets(st, s, at, ttl)
    ensures var store, dead := DeregisterAll(DeregisterAll(Sweep(st, s, at, ttl), terminated), rest),
                               Dead(st, s, at, ttl, true, ToSet(terminated));
            store == Without(st, s, dead) && AllIn(dead, Bucket(st, s)) && Consistent(store)
  {
    var expired, all := Expired(st, s, at, ttl), ToSet(terminated + rest);
    SweptBucket(st, s, at, ttl);
    SweepIsWithout(st, s, at, ttl);
    PurgeRest(Sweep(st, s, at, ttl), s, terminated, rest);
    WithoutWithout(st, s, expired, all);
    DeadIs(st, s, at, ttl, true, ToSet(terminated), expired + all);
  }

  /** The loop's lists hold only targets and, unless it crashes, every target. */
  lemma LoopTargets(st: Indexes, targets: seq<string>, kind: EventType, kill: Oracle)
    ensures var run := KillLoop(st, targets, kind, kill);
            && (forall sid :: sid in run.terminated + (run.disabled + run.failed) ==> sid in targets)
            && (!run.crashed ==> forall sid :: sid in targets ==> sid in run.terminated + (run.disabled + run.failed))
  {
    var h := Handled(targets, kind, kill);
    LoopLists(st, targets, kind, kill);
    SelectMembers(h, kind, kill, Killed);
    SelectMembers(h, kind, kill, Skipped);
    SelectMembers(h, kind, kill, Refuses);
    assert forall sid :: sid in h ==> sid in targets;
  }

  lemma PurgeRest(st: Indexes, s: string, terminated: seq<string>, rest: seq<string>)
    requires Consistent(st)
    requires forall sid :: sid in terminated + rest ==> HasId(Bucket(st, s), sid)
    ensures DeregisterAll(DeregisterAll(st, terminated), rest) == Without(st, s, ToSet(terminated + rest))
    ensures Consistent(DeregisterAll(DeregisterAll(st, terminated), rest))
  {
    DeregisterAllConcat(st, terminated, rest);
    DeregisterAllIsWithout(st, s, terminated + rest);
    assert ToSet(terminated + rest) == set sid | sid in terminated + rest;
  }

  lemma {:induction false} DeregisterAllConcat(st: Indexes, a: seq<string>, b: seq<string>)
    ensures DeregisterAll(DeregisterAll(st, a), b) == DeregisterAll(st, a + b)
  {
    if b == [] {
      assert a + b == a;
    } else {
      DeregisterAllConcat(st, a, b[..|b| - 1]);
      assert (a + b)[..|a + b| - 1] == a + b[..|b| - 1];
    }
  }

  lemma DeadIs(st: Indexes, s: string, at: Time, ttl: Time, all: bool, killed: set<string>, dead: set<string>)
    requires Consistent(st)
    requires forall sid :: sid in dead ==> HasId(Bucket(st, s), sid)
    requires forall r | r in Bucket(st, s) ::
               r.apmSessionId in dead <==> r.registeredAt < at - ttl || all || r.apmSessionId in killed
    ensures Dead(st, s, at, ttl, all, killed) == dead
    ensures AllIn(dead, Bucket(st, s))
  {
  }
}
