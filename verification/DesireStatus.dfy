/** The expected PPPoE state: only dial and hangup move it, as long as nothing restores a payload. */
module DesireStatus {
  import opened Basics
  import opened Etcd
  import opened Config
  import opened CasProtocol
  import opened VersionChain
  import Keys

  /** The user-driven writers of an HSI key. */
  predicate IsUserWriter(request: Request) {
    request.CreateHsi? || request.UpdateHsiRest? || request.UpdateHsiGrpc? || request.SetDesire? || request.DeleteHsi?
  }

  ghost predicate OnlyUserWriters(log: ConfigLog, key: Keys.Key) {
    forall i | 0 <= i < |log| && log[i].key == key && log[i].writer.Cas? :: IsUserWriter(log[i].writer.request)
  }

  /** What the last dial or hangup since the key was created asked for; disconnect if there was none. */
  function LastAsked(log: ConfigLog, key: Keys.Key): string {
    if log == [] then DISCONNECT
    else
      var last := log[|log| - 1];
      if last.key != key then LastAsked(log[..|log| - 1], key)
      else if last.op.Delete? then DISCONNECT
      else if last.writer.Cas? && last.writer.request.SetDesire? then (if last.writer.request.connect then CONNECT else DISCONNECT)
      else LastAsked(log[..|log| - 1], key)
  }

  lemma {:induction false} NothingAskedWhileMissing(log: ConfigLog, key: Keys.Key)
    requires ValidLog(Mutate, log) && Lookup(log, key).None?
    ensures LastAsked(log, key) == DISCONNECT
  {
    if log != [] {
      ValidPrefix(Mutate, log, |log| - 1);
      if log[|log| - 1].key != key {
        NothingAskedWhileMissing(log[..|log| - 1], key);
      }
    }
  }

  ghost predicate Shows(current: Option<Stored>, asked: string) {
    current.Some? ==>
      var value := current.value;
      value.Document? && value.payload.Some? && value.payload.value.Hsi? && value.payload.value.config.desire == asked
  }

  function AskedBy(request: Request, before: string): string {
    if request.SetDesire? then (if request.connect then CONNECT else DISCONNECT) else before
  }

  /** One committed write of a user: what it stores is what was asked for last. */
  lemma UserWriteShows(request: Request, current: Option<Stored>, modRevision: nat, now: int, asked: string)
    requires IsUserWriter(request) && Shows(current, asked) && (asked == CONNECT || asked == DISCONNECT)
    requires current.None? ==> asked == DISCONNECT
    requires Mutate(request, current, modRevision, now).Commit? && Mutate(request, current, modRevision, now).op.Put?
    ensures Shows(Some(Mutate(request, current, modRevision, now).op.value), AskedBy(request, asked))
  {
  }

  /** The stored desire_status is the one the last committed dial or hangup set; no concurrent create
      or update ever undoes it. */
  lemma {:induction false} StoredIsLastAsked(log: ConfigLog, key: Keys.Key)
    requires ValidLog(Mutate, log) && OnlyUserWriters(log, key)
    ensures Shows(ValueOf(Lookup(log, key)), LastAsked(log, key))
    ensures LastAsked(log, key) == CONNECT || LastAsked(log, key) == DISCONNECT
  {
    if log != [] {
      var n := |log| - 1;
      ValidPrefix(Mutate, log, n);
      StoredIsLastAsked(log[..n], key);
      if log[n].key == key && log[n].op.Put? {
        assert ValidEvent(Mutate, log, n);
        var before := Lookup(log[..n], key);
        if before.None? {
          NothingAskedWhileMissing(log[..n], key);
        }
        UserWriteShows(log[n].writer.request, ValueOf(before), RevisionOf(before), log[n].now, LastAsked(log[..n], key));
      }
    }
  }

  lemma EveryRunKeepsTheDial(clock: int, steps: seq<Step<Keys.Key, Request>>, key: Keys.Key)
    requires OnlyUserWriters(Run(Mutate, clock, steps).log, key)
    ensures var log := Run(Mutate, clock, steps).log;
      Lookup(log, key).Some? ==>
        var config := DecodeHsi(Lookup(log, key).value.value);
        config.Some? && config.value.desire == LastAsked(log, key)
  {
    EveryRunIsExact(Mutate, clock, steps, 0);
    StoredIsLastAsked(Run(Mutate, clock, steps).log, key);
  }

  /** The payload a consumer-side writer puts back. */
  function Restores(request: Request): Option<Payload> {
    match request
    case Rollback(Some(Document(payload, _)), _, _) => payload
    case OfflineEdit(p) => p.payload
    case _ => None
  }

  /** Exactly which committed writes other than a dial or hangup leave the stored desire_status alone:
      creates and updates always, a rollback or an offline edit only when the payload it puts back
      happens to ask for the same. */
  lemma PreservedExactlyWhen(request: Request, current: Stored, modRevision: nat, now: int)
    requires DecodeHsi(current).Some? && DecodeHsi(current).value.desire != ""
    requires IsUserWriter(request) || request.Rollback? || request.OfflineEdit?
    requires !request.SetDesire? && Mutate(request, Some(current), modRevision, now).Commit?
    requires Mutate(request, Some(current), modRevision, now).op.Put?
    ensures var after := DecodeHsi(Mutate(request, Some(current), modRevision, now).op.value);
      (after.Some? && after.value.desire == DecodeHsi(current).value.desire) <==>
      (IsUserWriter(request) ||
       (Restores(request).Some? && Restores(request).value.Hsi? &&
        Restores(request).value.config.desire == DecodeHsi(current).value.desire))
  {
  }

  /** A rollback can undo a dial: the last success was stored disconnected, the dialled version fails
      to apply, and the rollback puts "disconnect" back. */
  lemma RollbackUndoesDial(config: HsiConfig, modRevision: nat, now: int)
    ensures
      var previous := Document(Some(Hsi(config.(desire := DISCONNECT))), Some(Metadata("n", Digits(1), "u", Utc(0))));
      var dialled := Document(Some(Hsi(config.(desire := CONNECT))), Some(Metadata("n", Digits(2), "u", Utc(1))));
      var choice := MutateRollback(Some(previous), Digits(2), ModRevision(modRevision), Some(dialled), modRevision, now);
      choice.Commit? && choice.op.Put? && DecodeHsi(choice.op.value).value.desire == DISCONNECT
  {
  }
}
