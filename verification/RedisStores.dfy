/** The Redis correlation store as an object: each method issues its commands in order. */
module RedisStores {
  import opened Models
  import R = RedisCorrelation

  class RedisCorrelationStore {
    const ttl: Time
    var db: R.Redis

    constructor (db: R.Redis, ttl: Time)
      ensures this.db == db && this.ttl == ttl
    {
      this.db, this.ttl := db, ttl;
    }

    method Register(record: CorrelationRecord, now: Time)
      modifies this
      ensures db == R.Register(old(db), record, now, ttl)
    {
      db := R.HSet(db, record.subjectKey, record, now);
      db := R.Expire(db, record.subjectKey, ttl, now);
      db := R.SetEx(db, record.apmSessionId, record.subjectKey, ttl, now);
    }

    method Deregister(apmSessionId: string, now: Time)
      modifies this
      ensures db == R.Deregister(old(db), apmSessionId, now)
    {
      if !R.LiveLease(db, apmSessionId, now) {
        return;
      }
      var subjectKey := db.leases[apmSessionId].subjectKey;
      db := R.HDel(db, subjectKey, apmSessionId, now);
      db := R.Delete(db, apmSessionId);
    }

    /** One record for each field of the live hash, in whatever order Redis lists them. */
    method SessionsFor(subjectKey: string, now: Time)
      returns (records: seq<CorrelationRecord>, ghost fields: seq<string>)
      ensures var raw := R.HGetAll(db, subjectKey, now);
              && |fields| == |records|
              && (forall i :: 0 <= i < |fields| ==> fields[i] in raw && records[i] == raw[fields[i]])
              && (forall sid :: sid in raw ==> sid in fields)
              && forall i, j :: 0 <= i < j < |fields| ==> fields[i] != fields[j]
    {
      var raw := R.HGetAll(db, subjectKey, now);
      records, fields := [], [];
      var left := raw.Keys;
      while left != {}
        invariant left <= raw.Keys && |fields| == |records|
        invariant forall i :: 0 <= i < |fields| ==>
                    fields[i] in raw && fields[i] !in left && records[i] == raw[fields[i]]
        invariant forall sid :: sid in raw && sid !in left ==> sid in fields
        invariant forall i, j :: 0 <= i < j < |fields| ==> fields[i] != fields[j]
        decreases left
      {
        var sid :| sid in left;
        records, fields := records + [raw[sid]], fields + [sid];
        left := left - {sid};
      }
    }
  }
}
