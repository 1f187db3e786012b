/** The two decision caches as objects. */
module DecisionStores {
  import opened Models
  import D = DecisionCache

  class InMemoryDecisionCache {
    const ttl: Time
    var records: map<string, DecisionRecord>

    constructor (ttl: Time)
      ensures records == map[] && this.ttl == ttl
    {
      this.ttl, records := ttl, map[];
    }

    /** None where validating the merged record raises; nothing is stored then. */
    method Upsert(record: DecisionRecord) returns (merged: Option<DecisionRecord>)
      modifies this
      ensures merged.None? <==> D.Refuses(old(records), record)
      ensures records == if merged.None? then old(records) else D.Upsert(old(records), record)
      ensures merged.Some? ==> merged.value == records[record.subjectKey]
    {
      var existing := if record.subjectKey in records then Some(records[record.subjectKey]) else None;
      var result := D.Merge(existing, record);
      if existing.Some? && !D.Admits(result) {
        return None;
      }
      records := records[record.subjectKey := result];
      return Some(result);
    }

    method Get(subjectKey: string, now: Time) returns (found: Option<DecisionRecord>)
      modifies this
      ensures records == D.Evict(old(records), subjectKey, now, ttl)
      ensures found == D.Read(old(records), subjectKey, now, ttl)
    {
      if subjectKey !in records {
        return None;
      }
      var record := records[subjectKey];
      if now - record.updatedAt > ttl {
        records := records - {subjectKey};
        return None;
      }
      return Some(record);
    }
  }

  class RedisDecisionCache {
    const ttl: Time
    var db: D.Keyspace

    constructor (db: D.Keyspace, ttl: Time)
      ensures this.db == db && this.ttl == ttl
    {
      this.db, this.ttl := db, ttl;
    }

    /** None where validating the stored or the merged record raises; nothing is stored then. */
    method Upsert(record: DecisionRecord, now: Time) returns (merged: Option<DecisionRecord>)
      modifies this
      ensures merged.None? <==> D.RedisRefuses(old(db), record, now)
      ensures db == if merged.None? then old(db) else D.RedisUpsert(old(db), record, now, ttl)
      ensures merged.Some? ==> merged.value == db[record.subjectKey].record
    {
      var existing, raised := Get(record.subjectKey, now);
      if raised {
        return None;
      }
      var result := D.Merge(existing, record);
      if existing.Some? && !D.Admits(result) {
        return None;
      }
      db := db[record.subjectKey := D.Entry(result, now + ttl)];
      return Some(result);
    }

    method Get(subjectKey: string, now: Time) returns (found: Option<DecisionRecord>, raised: bool)
      ensures raised == D.RedisReadRaises(db, subjectKey, now)
      ensures !raised ==> found == D.RedisRead(db, subjectKey, now)
    {
      if subjectKey !in db || now >= db[subjectKey].expiresAt {
        return None, false;
      }
      var record := db[subjectKey].record;
      if !D.Admits(record) {
        return None, true;
      }
      return Some(record), false;
    }
  }
}
