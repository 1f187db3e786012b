/** The replay guard over its in-memory store. */
module ReplayGuard {
  import opened Models
  import M = ReplayMemory

  class InMemoryReplayStore {
    var entries: map<string, Time>

    constructor ()
      ensures entries == map[]
    {
      entries := map[];
    }

    method Sweep(now: Time)
      modifies this
      ensures entries == M.Swept(old(entries), now)
    {
      var expired := set k | k in entries && entries[k] <= now;
      ghost var all := expired;
      while expired != {}
        invariant expired <= all
        invariant entries == old(entries) - (all - expired)
        decreases expired
      {
        var k :| k in expired;
        entries := entries - {k};
        expired := expired - {k};
      }
    }

    method Seen(jti: string, now: Time) returns (seen: bool)
      modifies this
      ensures entries == M.Swept(old(entries), now)
      ensures seen <==> M.Remembers(old(entries), jti, now)
    {
      Sweep(now);
      seen := jti in entries;
    }

    method Mark(jti: string, now: Time, ttl: Time)
      modifies this
      ensures entries == M.Mark(old(entries), jti, now, ttl)
    {
      entries := entries[jti := now + ttl];
    }
  }

  class ReplayGuard {
    const store: InMemoryReplayStore
    const ttl: Time

    constructor (store: InMemoryReplayStore, ttl: Time)
      ensures this.store == store && this.ttl == ttl
    {
      this.store, this.ttl := store, ttl;
    }

    /** `isNew` is false where the source raises ReplayDetected. */
    method CheckAndMark(jti: string, checkedAt: Time, markedAt: Time) returns (isNew: bool)
      modifies store
      ensures isNew <==> !M.Remembers(old(store.entries), jti, checkedAt)
      ensures isNew ==> store.entries == M.Mark(M.Swept(old(store.entries), checkedAt), jti, markedAt, ttl)
      ensures !isNew ==> store.entries == M.Swept(old(store.entries), checkedAt)
    {
      var seen := store.Seen(jti, checkedAt);
      if seen {
        return false;
      }
      store.Mark(jti, markedAt, ttl);
      return true;
    }
  }
}
