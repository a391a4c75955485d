/** The DNS key over whole runs: a map from domain to record. */
module DnsRuns {
  import opened Basics
  import opened Etcd
  import opened Config
  import opened CasProtocol
  import opened VersionChain
  import Keys
  import Dns

  ghost predicate OnlyRecordWriters(log: ConfigLog, key: Keys.Key) {
    forall i | 0 <= i < |log| && log[i].key == key && log[i].writer.Cas? ::
      log[i].writer.request.PutRecord? || log[i].writer.request.DeleteRecord?
  }

  function Asked(request: Request, m: map<string, Dns.Record>): map<string, Dns.Record> {
    match request
    case PutRecord(_, record, _) => m[record.domain := record]
    case DeleteRecord(_, domain, _) => m - {domain}
    case _ => m
  }

  /** The map the committed requests ask for, read off the requests alone. */
  function Wanted(log: ConfigLog, key: Keys.Key): map<string, Dns.Record> {
    if log == [] then map[]
    else
      var last, before := log[|log| - 1], Wanted(log[..|log| - 1], key);
      if last.key != key then before
      else if last.writer.Plain? then map[]
      else Asked(last.writer.request, before)
  }

  /** The stored list is that map: domains distinct, 1 to 64 entries, and no key at all exactly when
      the map is empty. */
  ghost predicate Holds(current: Option<Stored>, m: map<string, Dns.Record>) {
    match current
    case None => m == map[]
    case Some(s) =>
      && s.Document? && s.payload.Some? && s.payload.value.Records?
      && var records := s.payload.value.records;
         && Dns.Distinct(records) && 1 <= |records| <= Dns.MAX_RECORDS
         && Dns.ByDomain(records) == m && m != map[]
  }

  ghost predicate Represents(log: ConfigLog, key: Keys.Key) {
    Holds(ValueOf(Lookup(log, key)), Wanted(log, key))
  }

  lemma PutStep(node: string, r: Dns.Record, user: string, current: Option<Stored>, now: int, m: map<string, Dns.Record>)
    requires Holds(current, m)
    ensures var choice := MutatePutRecord(node, r, user, current, now);
      && (choice.Abort? <==> |DecodeRecords(current)| == 64 && r.domain !in m)
      && (choice.Abort? ==> choice.error == RecordLimit)
      && (choice.Commit? ==> choice.op.Put? && Holds(Some(choice.op.value), m[r.domain := r]))
  {
    var records := DecodeRecords(current);
    Dns.AddOrUpdateRefinesMap(records, r);
    Dns.ByDomainKeys(records, r.domain);
    assert r.domain in m[r.domain := r];
  }

  lemma DeleteStep(node: string, domain: string, user: string, current: Option<Stored>, now: int, m: map<string, Dns.Record>)
    requires Holds(current, m)
    ensures var choice := MutateDeleteRecord(node, domain, user, current, now);
      && (choice.Abort? <==> domain !in m)
      && (choice.Abort? ==> choice.error == RecordNotFound)
      && (choice.Commit? ==>
            if choice.op.Delete? then m - {domain} == map[]
            else Holds(Some(choice.op.value), m - {domain}))
  {
    if current.Some? {
      var records := current.value.payload.value.records;
      assert DecodeRecords(current) == records;
      Dns.ByDomainKeys(records, domain);
      if domain in m {
        Dns.WithoutRefinesMap(records, domain);
      }
    }
  }

  lemma RecordWriteStep(request: Request, current: Option<Stored>, modRevision: nat, now: int, m: map<string, Dns.Record>)
    requires (request.PutRecord? || request.DeleteRecord?) && Holds(current, m)
    requires Mutate(request, current, modRevision, now).Commit?
    ensures var op := Mutate(request, current, modRevision, now).op;
      Holds(if op.Put? then Some(op.value) else None, Asked(request, m))
  {
    if request.PutRecord? {
      PutStep(request.node, request.record, request.user, current, now, m);
    } else {
      DeleteStep(request.node, request.domain, request.user, current, now, m);
    }
  }

  lemma {:induction false} ListIsMap(log: ConfigLog, key: Keys.Key)
    requires ValidLog(Mutate, log) && OnlyRecordWriters(log, key)
    ensures Represents(log, key)
  {
    if log != [] {
      var n := |log| - 1;
      ValidPrefix(Mutate, log, n);
      ListIsMap(log[..n], key);
      if log[n].key == key {
        assert ValidEvent(Mutate, log, n);
        if log[n].writer.Cas? {
          var before := Lookup(log[..n], key);
          RecordWriteStep(log[n].writer.request, ValueOf(before), RevisionOf(before), log[n].now, Wanted(log[..n], key));
        }
      }
    }
  }

  lemma EveryRunKeepsTheMap(clock: int, steps: seq<Step<Keys.Key, Request>>, key: Keys.Key)
    requires OnlyRecordWriters(Run(Mutate, clock, steps).log, key)
    ensures Represents(Run(Mutate, clock, steps).log, key)
  {
    EveryRunIsExact(Mutate, clock, steps, 0);
    ListIsMap(Run(Mutate, clock, steps).log, key);
  }
}
