/** The whole stored value of the HSI and count keys, read off the committed requests field by field:
    every field is what the last request that speaks of it said, since the key was created. */
module StoredConfig {
  import opened Basics
  import opened Etcd
  import opened Config
  import opened CasProtocol
  import opened VersionChain
  import opened DesireStatus
  import Keys

  // ----- what each request says -----

  datatype Toggle = DnsProxy | TcpConntrack | Ipv6

  /** DNS proxy and connection tracking are on unless somebody turns them off, IPv6 is off. */
  function Default(t: Toggle): bool {
    !t.Ipv6?
  }

  function ToggleIn(c: HsiRequest, t: Toggle): Option<bool> {
    match t case DnsProxy => c.dnsProxy case TcpConntrack => c.tcpConntrack case Ipv6 => c.ipv6
  }

  /** A create always turns the first two on, whatever it was sent. */
  function SaidToggle(r: Request, t: Toggle): Option<bool> {
    match r
    case CreateHsi(_, c, _) => if t.Ipv6? && c.ipv6.Some? then c.ipv6 else Some(Default(t))
    case UpdateHsiRest(_, c, _) => ToggleIn(c, t)
    case UpdateHsiGrpc(_, c, _, _) => ToggleIn(c, t)
    case _ => None
  }

  /** An empty list clears the mappings over REST; over gRPC it says nothing, and a flag clears them. */
  function SaidPorts(r: Request): Option<seq<PortMapping>> {
    match r
    case CreateHsi(_, c, _) => if c.ports.Some? then c.ports else Some([])
    case UpdateHsiRest(_, c, _) => c.ports
    case UpdateHsiGrpc(_, c, clearPorts, _) => if clearPorts then Some([]) else if c.ports == Some([]) then None else c.ports
    case _ => None
  }

  datatype Identity = Identity(node: string, user: string, access: Access)

  function SaidIdentity(r: Request): Option<Identity> {
    match r
    case CreateHsi(node, c, _) => Some(Identity(node, c.user, c.access))
    case UpdateHsiRest(node, c, _) => Some(Identity(node, c.user, c.access))
    case UpdateHsiGrpc(node, c, _, _) => Some(Identity(node, c.user, c.access))
    case _ => None
  }

  // ----- what the last of them said -----

  /** The last event of the log is a swap of `key` that did not delete it. */
  predicate PutLast(log: ConfigLog, key: Keys.Key) {
    log != [] && log[|log| - 1].key == key && log[|log| - 1].op.Put? && log[|log| - 1].writer.Cas?
  }

  predicate DeletedLast(log: ConfigLog, key: Keys.Key) {
    log != [] && log[|log| - 1].key == key && log[|log| - 1].op.Delete?
  }

  function LastToggle(log: ConfigLog, key: Keys.Key, t: Toggle): bool {
    if log == [] || DeletedLast(log, key) then Default(t)
    else if PutLast(log, key) && SaidToggle(log[|log| - 1].writer.request, t).Some? then SaidToggle(log[|log| - 1].writer.request, t).value
    else LastToggle(log[..|log| - 1], key, t)
  }

  function LastPorts(log: ConfigLog, key: Keys.Key): seq<PortMapping> {
    if log == [] || DeletedLast(log, key) then []
    else if PutLast(log, key) && SaidPorts(log[|log| - 1].writer.request).Some? then SaidPorts(log[|log| - 1].writer.request).value
    else LastPorts(log[..|log| - 1], key)
  }

  function LastIdentity(log: ConfigLog, key: Keys.Key): Option<Identity> {
    if log == [] || DeletedLast(log, key) then None
    else if PutLast(log, key) && SaidIdentity(log[|log| - 1].writer.request).Some? then SaidIdentity(log[|log| - 1].writer.request)
    else LastIdentity(log[..|log| - 1], key)
  }

  // ----- the stored value is that -----

  datatype Settings = Settings(
    id: Identity, dnsProxy: bool, tcpConntrack: bool, ipv6: bool, ports: seq<PortMapping>, desire: string)

  ghost predicate Holds(s: Stored, t: Settings) {
    && s.Document? && s.metadata.Some? && s.metadata.value.node == t.id.node
    && s.payload == Some(Hsi(HsiConfig(t.id.user, t.id.access, Some(t.dnsProxy), Some(t.tcpConntrack), Some(t.ipv6), t.ports, t.desire)))
  }

  function Said<T>(said: Option<T>, before: T): T {
    if said.Some? then said.value else before
  }

  /** What `r` speaks of changes, and nothing else does. */
  function Changed(r: Request, t: Settings): Settings {
    Settings(Said(SaidIdentity(r), t.id), Said(SaidToggle(r, DnsProxy), t.dnsProxy), Said(SaidToggle(r, TcpConntrack), t.tcpConntrack),
      Said(SaidToggle(r, Ipv6), t.ipv6), Said(SaidPorts(r), t.ports), AskedBy(r, t.desire))
  }

  predicate AtDefaults(t: Settings) {
    t.dnsProxy == Default(DnsProxy) && t.tcpConntrack == Default(TcpConntrack) && t.ipv6 == Default(Ipv6) && t.ports == [] && t.desire == DISCONNECT
  }

  /** One committed write of a user over a value with the settings `t`, or over nothing. */
  ghost predicate ChangesWhatItSays(r: Request, current: Option<Stored>, modRevision: nat, now: int, t: Settings)
    requires IsUserWriter(r)
  {
    var choice := Mutate(r, current, modRevision, now);
    choice.Commit? && choice.op.Put? ==>
      && Holds(choice.op.value, Changed(r, t))
      && choice.op.value.metadata.value.updatedBy == AuthorOf(r) && choice.op.value.metadata.value.updatedAt == Utc(now)
      && (current.None? ==> SaidIdentity(r).Some?)
  }

  ghost predicate Over(current: Option<Stored>, t: Settings) {
    && (t.desire == CONNECT || t.desire == DISCONNECT)
    && if current.Some? then Holds(current.value, t) else AtDefaults(t)
  }

  lemma CreateChangesWhatItSays(r: Request, current: Option<Stored>, modRevision: nat, now: int, t: Settings)
    requires (r.CreateHsi? || r.DeleteHsi?) && Over(current, t)
    ensures ChangesWhatItSays(r, current, modRevision, now, t)
  {
  }

  lemma RestChangesWhatItSays(r: Request, current: Option<Stored>, modRevision: nat, now: int, t: Settings)
    requires r.UpdateHsiRest? && Over(current, t)
    ensures ChangesWhatItSays(r, current, modRevision, now, t)
  {
  }

  lemma GrpcChangesWhatItSays(r: Request, current: Option<Stored>, modRevision: nat, now: int, t: Settings)
    requires r.UpdateHsiGrpc? && Over(current, t)
    ensures ChangesWhatItSays(r, current, modRevision, now, t)
  {
  }

  lemma DialChangesWhatItSays(r: Request, current: Option<Stored>, modRevision: nat, now: int, t: Settings)
    requires r.SetDesire? && Over(current, t)
    ensures ChangesWhatItSays(r, current, modRevision, now, t)
  {
  }

  lemma UserWriteChangesWhatItSays(r: Request, current: Option<Stored>, modRevision: nat, now: int, t: Settings)
    requires IsUserWriter(r) && Over(current, t)
    ensures ChangesWhatItSays(r, current, modRevision, now, t)
  {
    if r.UpdateHsiRest? {
      RestChangesWhatItSays(r, current, modRevision, now, t);
    } else if r.UpdateHsiGrpc? {
      GrpcChangesWhatItSays(r, current, modRevision, now, t);
    } else if r.SetDesire? {
      DialChangesWhatItSays(r, current, modRevision, now, t);
    } else {
      CreateChangesWhatItSays(r, current, modRevision, now, t);
    }
  }

  lemma {:induction false} NothingSaidWhileMissing(log: ConfigLog, key: Keys.Key, t: Toggle)
    requires ValidLog(Mutate, log) && Lookup(log, key).None?
    ensures LastToggle(log, key, t) == Default(t) && LastPorts(log, key) == [] && LastIdentity(log, key).None?
  {
    if log != [] {
      ValidPrefix(Mutate, log, |log| - 1);
      if log[|log| - 1].key != key {
        NothingSaidWhileMissing(log[..|log| - 1], key, t);
      }
    }
  }

  /** What was asked for, field by field. */
  function LastSaid(log: ConfigLog, key: Keys.Key): Settings {
    Settings(Said(LastIdentity(log, key), Identity("", "", EMPTY_CONFIG.access)),
      LastToggle(log, key, DnsProxy), LastToggle(log, key, TcpConntrack), LastToggle(log, key, Ipv6),
      LastPorts(log, key), LastAsked(log, key))
  }

  ghost predicate IsAsAsked(log: ConfigLog, key: Keys.Key) {
    Lookup(log, key).Some? ==> LastIdentity(log, key).Some? && Holds(Lookup(log, key).value.value, LastSaid(log, key))
  }

  /** The write at the end of the log is the live entry, stamped by its own author. */
  ghost predicate LastIsStamped(log: ConfigLog, key: Keys.Key) {
    PutLast(log, key) ==>
      var e := log[|log| - 1];
      && IsUserWriter(e.writer.request)
      && e.op.value.Document? && e.op.value.metadata.Some?
      && e.op.value.metadata.value.updatedBy == AuthorOf(e.writer.request)
      && e.op.value.metadata.value.updatedAt == Utc(e.now)
  }

  /** Every field of a stored HSI config is what the last committed create or update that speaks of it
      said, the desired state what the last dial or hangup said, and the metadata names the node of the
      last create or update and the author of the last write.  So a dial moves nothing but the desired
      state, its own name and the stamp; an update nothing it leaves out. */
  lemma {:induction false} StoredIsAsAsked(log: ConfigLog, key: Keys.Key)
    requires ValidLog(Mutate, log) && OnlyUserWriters(log, key)
    ensures IsAsAsked(log, key) && LastIsStamped(log, key)
  {
    if log != [] {
      var n := |log| - 1;
      ValidPrefix(Mutate, log, n);
      StoredIsAsAsked(log[..n], key);
      if log[n].key == key && log[n].op.Put? {
        assert ValidEvent(Mutate, log, n);
        LastWriteIsAsAsked(log, key);
      }
    }
  }

  lemma DefaultsWhileMissing(log: ConfigLog, key: Keys.Key)
    requires ValidLog(Mutate, log) && Lookup(log, key).None?
    ensures AtDefaults(LastSaid(log, key))
  {
    NothingAskedWhileMissing(log, key);
    NothingSaidWhileMissing(log, key, DnsProxy);
    NothingSaidWhileMissing(log, key, TcpConntrack);
    NothingSaidWhileMissing(log, key, Ipv6);
  }

  lemma LastSaidChanges(log: ConfigLog, key: Keys.Key)
    requires PutLast(log, key)
    ensures var r := log[|log| - 1].writer.request;
      && LastSaid(log, key) == Changed(r, LastSaid(log[..|log| - 1], key))
      && LastIdentity(log, key) == (if SaidIdentity(r).Some? then SaidIdentity(r) else LastIdentity(log[..|log| - 1], key))
  {
  }

  lemma LastWriteIsAsAsked(log: ConfigLog, key: Keys.Key)
    requires ValidLog(Mutate, log) && OnlyUserWriters(log, key) && PutLast(log, key)
    requires IsAsAsked(log[..|log| - 1], key)
    ensures IsAsAsked(log, key) && LastIsStamped(log, key)
  {
    var n := |log| - 1;
    var front, e := log[..n], log[n];
    ValidPrefix(Mutate, log, n);
    StoredIsLastAsked(front, key);
    assert ValidEvent(Mutate, log, n);
    var before := Lookup(front, key);
    if before.None? {
      DefaultsWhileMissing(front, key);
    }
    LastSaidChanges(log, key);
    UserWriteChangesWhatItSays(e.writer.request, ValueOf(before), RevisionOf(before), e.now, LastSaid(front, key));
  }

  lemma EveryRunStoresWhatWasAsked(clock: int, steps: seq<Step<Keys.Key, Request>>, key: Keys.Key)
    requires OnlyUserWriters(Run(Mutate, clock, steps).log, key)
    ensures var log := Run(Mutate, clock, steps).log; IsAsAsked(log, key) && LastIsStamped(log, key)
  {
    EveryRunIsExact(Mutate, clock, steps, 0);
    StoredIsAsAsked(Run(Mutate, clock, steps).log, key);
  }

  // ----- refusals -----

  /** Over a value user writers left, or none: a create is refused exactly when the key is there, a
      delete, dial or hangup exactly when it is not, an update never. */
  lemma RefusedExactlyWhen(r: Request, current: Option<Stored>, modRevision: nat, now: int)
    requires IsUserWriter(r)
    requires current.Some? ==> DecodeHsi(current.value).Some? && DecodeHsi(current.value).value.user != ""
    ensures Mutate(r, current, modRevision, now) == Abort(Exists) <==> r.CreateHsi? && current.Some?
    ensures Mutate(r, current, modRevision, now) == Abort(NotFound) <==> (r.DeleteHsi? || r.SetDesire?) && current.None?
    ensures Mutate(r, current, modRevision, now).Abort? ==> Mutate(r, current, modRevision, now).error in {Exists, NotFound}
    ensures Mutate(r, current, modRevision, now) == Commit(Delete) <==> r.DeleteHsi? && current.Some?
  {
  }

  /** A dial is never let loose on a value that is no HSI config of a user: it would wipe it. */
  lemma DialRefusesForeignValues(connect: bool, user: string, current: Stored, modRevision: nat, now: int)
    ensures Mutate(SetDesire(connect, user), Some(current), modRevision, now) == Abort(Unparsable) <==>
      !(exists config: HsiConfig :: config.user != "" && current.Document? && current.payload == Some(Hsi(config)))
  {
    if current.Document? && current.payload.Some? && current.payload.value.Hsi? {
      var config := current.payload.value.config;
      assert current.payload == Some(Hsi(config));
    }
  }

  // ----- the subscriber count -----

  ghost predicate OnlyCountWriters(log: ConfigLog, key: Keys.Key) {
    forall i | 0 <= i < |log| && log[i].key == key && log[i].writer.Cas? ::
      log[i].writer.request.SetCount? || log[i].writer.request.OfflineEdit?
  }

  /** The last count a user or an accepted offline edit set, while the key is there. */
  function LastCount(log: ConfigLog, key: Keys.Key): Option<Payload> {
    if log == [] || DeletedLast(log, key) then None
    else if PutLast(log, key) && log[|log| - 1].writer.request.SetCount? then Some(Count(log[|log| - 1].writer.request.count))
    else if PutLast(log, key) && log[|log| - 1].writer.request.OfflineEdit? then log[|log| - 1].writer.request.proposal.payload
    else LastCount(log[..|log| - 1], key)
  }

  ghost predicate CountIsAsAsked(log: ConfigLog, key: Keys.Key) {
    match Lookup(log, key)
    case None => LastCount(log, key).None?
    case Some(e) => e.value.Document? && e.value.payload.Some? && e.value.payload == LastCount(log, key)
  }

  lemma {:induction false} CountIsTheLastOne(log: ConfigLog, key: Keys.Key)
    requires ValidLog(Mutate, log) && OnlyCountWriters(log, key)
    ensures CountIsAsAsked(log, key)
  {
    if log != [] {
      var n := |log| - 1;
      ValidPrefix(Mutate, log, n);
      CountIsTheLastOne(log[..n], key);
      if log[n].key == key {
        assert ValidEvent(Mutate, log, n);
      }
    }
  }

  lemma EveryRunKeepsTheCount(clock: int, steps: seq<Step<Keys.Key, Request>>, key: Keys.Key)
    requires OnlyCountWriters(Run(Mutate, clock, steps).log, key)
    ensures CountIsAsAsked(Run(Mutate, clock, steps).log, key)
  {
    EveryRunIsExact(Mutate, clock, steps, 0);
    CountIsTheLastOne(Run(Mutate, clock, steps).log, key);
  }
}
