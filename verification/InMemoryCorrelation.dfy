/** The in-memory correlation store as the object the source updates in place. */
module InMemoryCorrelation {
  import opened Models
  import I = CorrelationIndexes

  class InMemoryCorrelationStore {
    const ttl: Time
    var bySubject: map<string, seq<CorrelationRecord>>
    var owner: map<string, string>

    ghost function State(): I.Indexes
      reads this
    {
      I.Indexes(bySubject, owner)
    }

    constructor (ttl: Time)
      ensures State() == I.EMPTY && this.ttl == ttl
    {
      this.ttl := ttl;
      bySubject, owner := map[], map[];
    }

    method Register(record: CorrelationRecord)
      modifies this
      ensures State() == I.Register(old(State()), record)
    {
      var bucket := if record.subjectKey in bySubject then bySubject[record.subjectKey] else [];
      bySubject := bySubject[record.subjectKey := I.Put(bucket, record)];
      owner := owner[record.apmSessionId := record.subjectKey];
    }

    method Deregister(apmSessionId: string)
      modifies this
      ensures State() == I.Deregister(old(State()), apmSessionId)
    {
      if apmSessionId !in owner {
        return;
      }
      var subjectKey := owner[apmSessionId];
      owner := owner - {apmSessionId};
      if subjectKey != "" && subjectKey in bySubject {
        bySubject := bySubject[subjectKey := I.Remove(bySubject[subjectKey], apmSessionId)];
        if bySubject[subjectKey] == [] {
          ghost var was := old(bySubject);
          bySubject := bySubject - {subjectKey};
          assert bySubject == was - {subjectKey};
        }
      }
    }

    method SweepExpired(subjectKey: string, now: Time)
      modifies this
      ensures State() == I.Sweep(old(State()), subjectKey, now, ttl)
    {
      var cutoff := now - ttl;
      var records := if subjectKey in bySubject then bySubject[subjectKey] else [];
      var expired := I.ExpiredIds(records, cutoff);
      for i := 0 to |expired|
        invariant State() == I.DeregisterAll(old(State()), expired[..i])
      {
        assert expired[..i + 1][..i] == expired[..i];
        Deregister(expired[i]);
      }
      assert expired[..|expired|] == expired;
    }

    method SessionsFor(subjectKey: string, now: Time) returns (records: seq<CorrelationRecord>)
      modifies this
      ensures State() == I.Sweep(old(State()), subjectKey, now, ttl)
      ensures records == I.SessionsFor(old(State()), subjectKey, now, ttl)
    {
      SweepExpired(subjectKey, now);
      records := if subjectKey in bySubject then bySubject[subjectKey] else [];
    }
  }
}
