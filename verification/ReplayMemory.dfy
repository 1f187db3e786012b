/**
  What the replay guard remembers: a `jti` until its expiry. Its two operations,
  `seen` and `mark`, are separate atomic steps that any number of tasks interleave.
 */
module ReplayMemory {
  import opened Models

  type Seen = map<string, Time>

  function Swept(seen: Seen, now: Time): Seen {
    map jti | jti in seen && now < seen[jti] :: seen[jti]
  }

  predicate Remembers(seen: Seen, jti: string, now: Time) {
    jti in seen && now < seen[jti]
  }

  function Mark(seen: Seen, jti: string, now: Time, ttl: Time): Seen {
    seen[jti := now + ttl]
  }

  datatype Action =
    | CheckAt(task: nat, at: Time)
    | MarkAt(task: nat, at: Time)

  /** The in-memory guard before action `n`; `jtis[task]` is what a task checks and marks. */
  function GuardAt(trace: seq<Action>, jtis: seq<string>, ttl: Time, n: nat): Seen
    requires n <= |trace| && Tasks(trace, |jtis|)
  {
    if n == 0 then map[]
    else
      var seen := GuardAt(trace, jtis, ttl, n - 1);
      match trace[n - 1]
      case CheckAt(_, at) => Swept(seen, at)
      case MarkAt(task, at) => Mark(seen, jtis[task], at, ttl)
  }

  /** The Redis guard: keys expire by themselves, nothing is swept. */
  function RedisAt(trace: seq<Action>, jtis: seq<string>, ttl: Time, n: nat): Seen
    requires n <= |trace| && Tasks(trace, |jtis|)
  {
    if n == 0 then map[]
    else
      var seen := RedisAt(trace, jtis, ttl, n - 1);
      match trace[n - 1]
      case CheckAt(_, _) => seen
      case MarkAt(task, at) => Mark(seen, jtis[task], at, ttl)
  }

  predicate Tasks(trace: seq<Action>, count: nat) {
    forall i :: 0 <= i < |trace| ==> trace[i].task < count
  }

  ghost predicate Ordered(trace: seq<Action>) {
    forall i, j :: 0 <= i < j < |trace| ==> trace[i].at <= trace[j].at
  }

  /** Check `i` does not raise ReplayDetected. */
  predicate Passes(trace: seq<Action>, jtis: seq<string>, ttl: Time, i: nat)
    requires i < |trace| && Tasks(trace, |jtis|)
  {
    trace[i].CheckAt? && !Remembers(GuardAt(trace, jtis, ttl, i), jtis[trace[i].task], trace[i].at)
  }

  /** Sweeping is invisible: both stores give every check the same answer. */
  lemma {:induction false} StoresAgree(trace: seq<Action>, jtis: seq<string>, ttl: Time, n: nat, jti: string, now: Time)
    requires n <= |trace| && Tasks(trace, |jtis|) && Ordered(trace)
    requires n > 0 ==> trace[n - 1].at <= now
    ensures Remembers(GuardAt(trace, jtis, ttl, n), jti, now) <==> Remembers(RedisAt(trace, jtis, ttl, n), jti, now)
  {
    if n > 0 {
      if !(trace[n - 1].MarkAt? && jtis[trace[n - 1].task] == jti) {
        StoresAgree(trace, jtis, ttl, n - 1, jti, now);
      }
    }
  }

  /** Whatever happens in between, the guard knows exactly the `jti`s marked less than a TTL ago. */
  lemma {:induction false} RemembersIff(
    trace: seq<Action>, jtis: seq<string>, ttl: Time, n: nat, jti: string, now: Time)
    requires n <= |trace| && Tasks(trace, |jtis|) && Ordered(trace)
    requires n > 0 ==> trace[n - 1].at <= now
    ensures Remembers(GuardAt(trace, jtis, ttl, n), jti, now) <==>
            exists m :: 0 <= m < n && trace[m].MarkAt? && jtis[trace[m].task] == jti && now < trace[m].at + ttl
  {
    if n > 0 {
      RemembersIff(trace, jtis, ttl, n - 1, jti, now);
      if trace[n - 1].MarkAt? && jtis[trace[n - 1].task] == jti {
        assert forall m :: 0 <= m < n ==> trace[m].at <= trace[n - 1].at;
      }
    }
  }

  /**
    Two tasks get past the guard for one `jti` only if their seen-to-mark
    intervals overlap, or the later check comes at least a TTL after the
    earlier mark.
   */
  lemma GuardExcludes(trace: seq<Action>, jtis: seq<string>, ttl: Time, c1: nat, m1: nat, c2: nat, m2: nat)
    requires Tasks(trace, |jtis|) && Ordered(trace)
    requires c1 < m1 < |trace| && c2 < m2 < |trace|
    requires Passes(trace, jtis, ttl, c1) && trace[m1] == MarkAt(trace[c1].task, trace[m1].at)
    requires Passes(trace, jtis, ttl, c2) && trace[m2] == MarkAt(trace[c2].task, trace[m2].at)
    requires jtis[trace[c1].task] == jtis[trace[c2].task]
    ensures || (c1 < m2 && c2 < m1)
            || (m1 < c2 && trace[c2].at >= trace[m1].at + ttl)
            || (m2 < c1 && trace[c1].at >= trace[m2].at + ttl)
  {
    RemembersIff(trace, jtis, ttl, c1, jtis[trace[c1].task], trace[c1].at);
    RemembersIff(trace, jtis, ttl, c2, jtis[trace[c2].task], trace[c2].at);
  }

  /** A race the guard cannot exclude: both checks come before either mark. */
  lemma OverlapPassesTwice(jti: string, at: Time, ttl: Time)
    ensures var trace, jtis := [CheckAt(0, at), CheckAt(1, at), MarkAt(0, at), MarkAt(1, at)], [jti, jti];
            Passes(trace, jtis, ttl, 0) && Passes(trace, jtis, ttl, 1)
  {
  }
}
