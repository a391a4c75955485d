/** The node registry: field-by-field edits of a decoded JSON object, run inside compare-and-swap. */
module NodeRegistry {
  import opened Basics
  import opened Etcd
  import opened CasProtocol

  datatype Json = Str(s: string) | Num(n: int) | Else(id: nat)

  /** The keys of the JSON object, by meaning; `Unknown` is any other key. */
  datatype Field =
    | NodeUuid | Uuid | NodeIp | VersionTag | Location | RegisteredAt | LastSeenTime | Status | GrpcPort | HostOs
    | Uptime | NicModelWan | NicModelLan | InactiveAt | InactiveReason | Unknown(name: string)

  type NodeData = map<Field, Json>

  datatype NodeValue = Corrupt | Data(fields: NodeData)

  datatype NodeError = NotRegistered | InvalidData | NoLongerStale

  const HEARTBEAT_TIMEOUT: int := 60
  const ACTIVE := "active"
  const INACTIVE := "inactive"

  datatype NodeRequest =
    | Register(uuid: string, ip: string, version: string, location: string, grpcPort: nat, hostOs: string, at: int)
    | Heartbeat(uuid: string, uptime: int, ip: string, hostOs: string, at: int)
    | MarkStale(at: int)
    | Shutdown(at: int)
    | WriteNics(wan: string, lan: string)

  type NodeChoice = Choice<NodeValue, NodeError>

  function Keep(fields: NodeData, names: set<Field>): NodeData {
    map f | f in fields && f in names :: fields[f]
  }

  function HostOsField(hostOs: string): NodeData {
    if hostOs != "" then map[HostOs := Str(hostOs)] else map[]
  }

  function Inactive(at: int, reason: string): NodeData {
    map[Status := Str(INACTIVE), InactiveAt := Num(at), InactiveReason := Str(reason)]
  }

  predicate IsInactive(fields: NodeData) {
    Status in fields && fields[Status] == Str(INACTIVE)
  }

  function Registered(r: NodeRequest, current: Option<NodeValue>): NodeData
    requires r.Register?
  {
    map[NodeUuid := Str(r.uuid), NodeIp := Str(r.ip), VersionTag := Str(r.version), Location := Str(r.location),
        RegisteredAt := Num(r.at), LastSeenTime := Num(r.at), Status := Str(ACTIVE), GrpcPort := Num(r.grpcPort)]
    + HostOsField(r.hostOs)
    + (if current.Some? && current.value.Data? then Keep(current.value.fields, {NicModelWan, NicModelLan}) else map[])
  }

  function Alive(r: NodeRequest, fields: NodeData): NodeData
    requires r.Heartbeat?
  {
    fields - {InactiveAt, InactiveReason}
    + map[LastSeenTime := Num(r.at), Uuid := Str(r.uuid), Uptime := Num(r.uptime), NodeIp := Str(r.ip), Status := Str(ACTIVE)]
    + HostOsField(r.hostOs)
  }

  function Stale(at: int, fields: NodeData): NodeChoice {
    if LastSeenTime !in fields || !fields[LastSeenTime].Num? then Abort(InvalidData)
    else if IsInactive(fields) || at - fields[LastSeenTime].n <= HEARTBEAT_TIMEOUT then Abort(NoLongerStale)
    else Commit(Put(Data(fields + Inactive(at, "heartbeat_timeout"))))
  }

  /** What each write makes of the current value, field sets at a time.  Only a registration accepts
      a missing or corrupt value. */
  function MutateNode(request: NodeRequest, current: Option<NodeValue>, modRevision: nat, now: int): NodeChoice {
    if request.Register? then Commit(Put(Data(Registered(request, current))))
    else if current.None? then Abort(NotRegistered)
    else if current.value.Corrupt? then Abort(InvalidData)
    else
      var fields := current.value.fields;
      if request.Heartbeat? then Commit(Put(Data(Alive(request, fields))))
      else if request.MarkStale? then Stale(request.at, fields)
      else if request.Shutdown? then Commit(Put(Data(fields + Inactive(request.at, "node_shutdown"))))
      else Commit(Put(Data(fields + map[NicModelWan := Str(request.wan), NicModelLan := Str(request.lan)])))
  }

  // ----- the edits as written, one field at a time -----

  /** The NIC models of the value being replaced, if it decodes, are carried over. */
  method CarryNicsOver(nodeData: NodeData, current: Option<NodeValue>) returns (result: NodeData)
    ensures result == nodeData +
      (if current.Some? && current.value.Data? then Keep(current.value.fields, {NicModelWan, NicModelLan}) else map[])
  {
    result := nodeData;
    if current.Some? && current.value.Data? {
      var existing := current.value.fields;
      if NicModelWan in existing {
        result := result[NicModelWan := existing[NicModelWan]];
      }
      if NicModelLan in existing {
        result := result[NicModelLan := existing[NicModelLan]];
      }
    }
  }

  method RegisterNodeCASValue(current: Option<NodeValue>, r: NodeRequest) returns (choice: NodeChoice)
    requires r.Register?
    ensures choice == MutateNode(r, current, 0, 0)
  {
    var nodeData: NodeData := map[
      NodeUuid := Str(r.uuid), NodeIp := Str(r.ip), VersionTag := Str(r.version), Location := Str(r.location),
      RegisteredAt := Num(r.at), LastSeenTime := Num(r.at), Status := Str(ACTIVE), GrpcPort := Num(r.grpcPort)];
    ghost var blank := nodeData;
    if r.hostOs != "" {
      nodeData := nodeData[HostOs := Str(r.hostOs)];
    }
    assert nodeData == blank + HostOsField(r.hostOs);
    nodeData := CarryNicsOver(nodeData, current);
    choice := Commit(Put(Data(nodeData)));
  }

  method HeartbeatNodeCASValue(current: Option<NodeValue>, r: NodeRequest) returns (choice: NodeChoice)
    requires r.Heartbeat?
    ensures choice == MutateNode(r, current, 0, 0)
  {
    if current.None? {
      return Abort(NotRegistered);
    }
    if current.value.Corrupt? {
      return Abort(InvalidData);
    }
    var nodeData := current.value.fields;
    nodeData := nodeData[LastSeenTime := Num(r.at)];
    nodeData := nodeData[Uuid := Str(r.uuid)];
    nodeData := nodeData[Uptime := Num(r.uptime)];
    nodeData := nodeData[NodeIp := Str(r.ip)];
    nodeData := nodeData[Status := Str(ACTIVE)];
    nodeData := nodeData - {InactiveAt};
    nodeData := nodeData - {InactiveReason};
    assert nodeData == current.value.fields - {InactiveAt, InactiveReason} + map[
      LastSeenTime := Num(r.at), Uuid := Str(r.uuid), Uptime := Num(r.uptime), NodeIp := Str(r.ip),
      Status := Str(ACTIVE)];
    if r.hostOs != "" {
      nodeData := nodeData[HostOs := Str(r.hostOs)];
    }
    assert nodeData == Alive(r, current.value.fields);
    choice := Commit(Put(Data(nodeData)));
  }

  method StaleNodeCASValue(current: Option<NodeValue>, currentTime: int) returns (choice: NodeChoice)
    ensures choice == MutateNode(MarkStale(currentTime), current, 0, 0)
  {
    if current.None? {
      return Abort(NotRegistered);
    }
    if current.value.Corrupt? {
      return Abort(InvalidData);
    }
    var nodeData := current.value.fields;
    if LastSeenTime !in nodeData || !nodeData[LastSeenTime].Num? {
      return Abort(InvalidData);
    }
    if IsInactive(nodeData) {
      return Abort(NoLongerStale);
    }
    if currentTime - nodeData[LastSeenTime].n <= HEARTBEAT_TIMEOUT {
      return Abort(NoLongerStale);
    }
    nodeData := nodeData[Status := Str(INACTIVE)];
    nodeData := nodeData[InactiveAt := Num(currentTime)];
    nodeData := nodeData[InactiveReason := Str("heartbeat_timeout")];
    assert nodeData == current.value.fields + Inactive(currentTime, "heartbeat_timeout");
    choice := Commit(Put(Data(nodeData)));
  }

  method ShutdownNodeCASValue(current: Option<NodeValue>, shutdownAt: int) returns (choice: NodeChoice)
    ensures choice == MutateNode(Shutdown(shutdownAt), current, 0, 0)
  {
    if current.None? {
      return Abort(NotRegistered);
    }
    if current.value.Corrupt? {
      return Abort(InvalidData);
    }
    var nodeData := current.value.fields;
    nodeData := nodeData[Status := Str(INACTIVE)];
    nodeData := nodeData[InactiveAt := Num(shutdownAt)];
    nodeData := nodeData[InactiveReason := Str("node_shutdown")];
    assert nodeData == current.value.fields + Inactive(shutdownAt, "node_shutdown");
    choice := Commit(Put(Data(nodeData)));
  }

  // ----- what every run keeps -----

  type NodeLog = seq<Event<string, NodeValue, NodeRequest>>

  /** The NIC models the last NIC write since the key was created asked for. */
  function LastNics(log: NodeLog, key: string): Option<(string, string)> {
    if log == [] then None
    else
      var last := log[|log| - 1];
      if last.key != key then LastNics(log[..|log| - 1], key)
      else if last.op.Delete? then None
      else if last.writer.Cas? && last.writer.request.WriteNics? then Some((last.writer.request.wan, last.writer.request.lan))
      else LastNics(log[..|log| - 1], key)
  }

  predicate MarkersMatchStatus(fields: NodeData) {
    && (InactiveAt in fields <==> IsInactive(fields))
    && (InactiveReason in fields <==> IsInactive(fields))
  }

  predicate NicsAre(fields: NodeData, nics: Option<(string, string)>) {
    match nics
    case None => NicModelWan !in fields && NicModelLan !in fields
    case Some((wan, lan)) =>
      && NicModelWan in fields && fields[NicModelWan] == Str(wan)
      && NicModelLan in fields && fields[NicModelLan] == Str(lan)
  }

  ghost predicate Good(fields: NodeData, nics: Option<(string, string)>) {
    MarkersMatchStatus(fields) && NicsAre(fields, nics)
  }

  lemma RegisteredIsGood(r: NodeRequest, current: Option<NodeValue>, nics: Option<(string, string)>)
    requires r.Register? && (current.None? ==> nics.None?)
    requires current.Some? ==> current.value.Data? && Good(current.value.fields, nics)
    ensures Good(Registered(r, current), nics)
  {
    assert ACTIVE[0] != INACTIVE[0];
    assert Registered(r, current)[Status] == Str(ACTIVE);
  }

  lemma AliveIsGood(r: NodeRequest, fields: NodeData, nics: Option<(string, string)>)
    requires r.Heartbeat? && Good(fields, nics)
    ensures Good(Alive(r, fields), nics)
  {
    assert ACTIVE[0] != INACTIVE[0];
    assert Alive(r, fields)[Status] == Str(ACTIVE);
  }

  lemma InactiveIsGood(at: int, reason: string, fields: NodeData, nics: Option<(string, string)>)
    requires Good(fields, nics)
    ensures Good(fields + Inactive(at, reason), nics)
  {
  }

  lemma StepKeepsMarkersAndNics(request: NodeRequest, current: Option<NodeValue>, nics: Option<(string, string)>, revision: nat, now: int)
    requires current.None? ==> nics.None?
    requires current.Some? ==> current.value.Data? && Good(current.value.fields, nics)
    requires MutateNode(request, current, revision, now).Commit?
    ensures var op := MutateNode(request, current, revision, now).op;
      && op.Put? && op.value.Data?
      && Good(op.value.fields, if request.WriteNics? then Some((request.wan, request.lan)) else nics)
  {
    match request
    case Register(_, _, _, _, _, _, _) => RegisteredIsGood(request, current, nics);
    case Heartbeat(_, _, _, _, _) => AliveIsGood(request, current.value.fields, nics);
    case MarkStale(at) => InactiveIsGood(at, "heartbeat_timeout", current.value.fields, nics);
    case Shutdown(at) => InactiveIsGood(at, "node_shutdown", current.value.fields, nics);
    case WriteNics(wan, lan) =>
  }

  /** Under any interleaving of registrations, heartbeats, stale sweeps, shutdown reports, NIC writes
      and deletes: the inactive markers are there exactly while the status is inactive, and the stored
      NIC models are those of the last NIC write until the key is deleted. */
  lemma {:induction false} MarkersAndNics(log: NodeLog, key: string)
    requires ValidLog(MutateNode, log)
    ensures match Lookup(log, key)
      case None => LastNics(log, key).None?
      case Some(e) => e.value.Data? && Good(e.value.fields, LastNics(log, key))
  {
    if log != [] {
      var n := |log| - 1;
      ValidPrefix(MutateNode, log, n);
      MarkersAndNics(log[..n], key);
      if log[n].key == key {
        assert ValidEvent(MutateNode, log, n);
        if log[n].writer.Cas? {
          StepKeepsMarkersAndNics(log[n].writer.request, ValueOf(Lookup(log[..n], key)), LastNics(log[..n], key), RevisionOf(Lookup(log[..n], key)), log[n].now);
        }
      }
    }
  }

  lemma EveryRunKeepsMarkersAndNics(clock: int, steps: seq<Step<string, NodeRequest>>, key: string)
    ensures var log := Run(MutateNode, clock, steps).log;
      match Lookup(log, key)
      case None => LastNics(log, key).None?
      case Some(e) => e.value.Data? && Good(e.value.fields, LastNics(log, key))
  {
    EveryRunIsExact(MutateNode, clock, steps, 0);
    MarkersAndNics(Run(MutateNode, clock, steps).log, key);
  }

  // ----- every field -----

  /** What a request says about a field of the stored object. */
  datatype Word = Sets(value: Json) | Clears | Leaves

  /** A registration starts the object afresh, the NIC models apart. */
  function RegisterSays(r: NodeRequest, f: Field): Word
    requires r.Register?
  {
    match f
    case NodeUuid => Sets(Str(r.uuid))
    case NodeIp => Sets(Str(r.ip))
    case VersionTag => Sets(Str(r.version))
    case Location => Sets(Str(r.location))
    case RegisteredAt => Sets(Num(r.at))
    case LastSeenTime => Sets(Num(r.at))
    case Status => Sets(Str("active"))
    case GrpcPort => Sets(Num(r.grpcPort))
    case HostOs => if r.hostOs == "" then Clears else Sets(Str(r.hostOs))
    case NicModelWan => Leaves
    case NicModelLan => Leaves
    case _ => Clears
  }

  function HeartbeatSays(r: NodeRequest, f: Field): Word
    requires r.Heartbeat?
  {
    match f
    case LastSeenTime => Sets(Num(r.at))
    case Uuid => Sets(Str(r.uuid))
    case Uptime => Sets(Num(r.uptime))
    case NodeIp => Sets(Str(r.ip))
    case Status => Sets(Str("active"))
    case InactiveAt => Clears
    case InactiveReason => Clears
    case HostOs => if r.hostOs == "" then Leaves else Sets(Str(r.hostOs))
    case _ => Leaves
  }

  function InactiveSays(at: int, reason: string, f: Field): Word {
    match f
    case Status => Sets(Str("inactive"))
    case InactiveAt => Sets(Num(at))
    case InactiveReason => Sets(Str(reason))
    case _ => Leaves
  }

  function Says(r: NodeRequest, f: Field): Word {
    match r
    case Register(_, _, _, _, _, _, _) => RegisterSays(r, f)
    case Heartbeat(_, _, _, _, _) => HeartbeatSays(r, f)
    case MarkStale(at) => InactiveSays(at, "heartbeat_timeout", f)
    case Shutdown(at) => InactiveSays(at, "node_shutdown", f)
    case WriteNics(wan, lan) => if f.NicModelWan? then Sets(Str(wan)) else if f.NicModelLan? then Sets(Str(lan)) else Leaves
  }

  function After(w: Word, before: Option<Json>): Option<Json> {
    match w case Sets(value) => Some(value) case Clears => None case Leaves => before
  }

  /** What the last committed request that speaks of `f` said, since the key was created. */
  function LastField(log: NodeLog, key: string, f: Field): Option<Json> {
    if log == [] then None
    else
      var last, before := log[|log| - 1], LastField(log[..|log| - 1], key, f);
      if last.key != key then before
      else if last.op.Delete? then None
      else if last.writer.Cas? then After(Says(last.writer.request, f), before)
      else before
  }

  function FieldOf(fields: NodeData, f: Field): Option<Json> {
    if f in fields then Some(fields[f]) else None
  }

  lemma RegisterWritesWhatItSays(r: NodeRequest, current: Option<NodeValue>, f: Field)
    requires r.Register? && (current.Some? ==> current.value.Data?)
    ensures FieldOf(Registered(r, current), f) ==
      After(Says(r, f), if current.Some? then FieldOf(current.value.fields, f) else None)
  {
  }

  lemma HeartbeatWritesWhatItSays(r: NodeRequest, fields: NodeData, f: Field)
    requires r.Heartbeat?
    ensures FieldOf(Alive(r, fields), f) == After(Says(r, f), FieldOf(fields, f))
  {
  }

  lemma WriteChangesWhatItSays(r: NodeRequest, current: Option<NodeValue>, modRevision: nat, now: int, f: Field)
    requires current.Some? ==> current.value.Data?
    requires MutateNode(r, current, modRevision, now).Commit?
    ensures var op := MutateNode(r, current, modRevision, now).op;
      && op.Put? && op.value.Data?
      && FieldOf(op.value.fields, f) == After(Says(r, f), if current.Some? then FieldOf(current.value.fields, f) else None)
  {
    if r.Register? {
      RegisterWritesWhatItSays(r, current, f);
    } else if r.Heartbeat? {
      HeartbeatWritesWhatItSays(r, current.value.fields, f);
    }
  }

  ghost predicate FieldIsAsSaid(log: NodeLog, key: string, f: Field) {
    match Lookup(log, key)
    case None => LastField(log, key, f).None?
    case Some(e) => e.value.Data? && FieldOf(e.value.fields, f) == LastField(log, key, f)
  }

  /** Every field of a stored node is what the last request that speaks of it said. */
  lemma {:induction false} FieldsAreAsSaid(log: NodeLog, key: string, f: Field)
    requires ValidLog(MutateNode, log)
    ensures FieldIsAsSaid(log, key, f)
  {
    if log != [] {
      var n := |log| - 1;
      ValidPrefix(MutateNode, log, n);
      FieldsAreAsSaid(log[..n], key, f);
      if log[n].key == key {
        assert ValidEvent(MutateNode, log, n);
        if log[n].writer.Cas? {
          var before := Lookup(log[..n], key);
          WriteChangesWhatItSays(log[n].writer.request, ValueOf(before), RevisionOf(before), log[n].now, f);
        }
      }
    }
  }

  lemma EveryRunKeepsEveryField(clock: int, steps: seq<Step<string, NodeRequest>>, key: string, f: Field)
    ensures FieldIsAsSaid(Run(MutateNode, clock, steps).log, key, f)
  {
    EveryRunIsExact(MutateNode, clock, steps, 0);
    FieldsAreAsSaid(Run(MutateNode, clock, steps).log, key, f);
  }

  // ----- silence -----

  /** When the node was last heard of: its last registration or heartbeat since the key was created. */
  function LastSeen(log: NodeLog, key: string): Option<int> {
    if log == [] then None
    else
      var last := log[|log| - 1];
      if last.key != key then LastSeen(log[..|log| - 1], key)
      else if last.op.Delete? then None
      else if last.writer.Cas? && (last.writer.request.Register? || last.writer.request.Heartbeat?) then Some(last.writer.request.at)
      else LastSeen(log[..|log| - 1], key)
  }

  lemma {:induction false} LastSeenIsAField(log: NodeLog, key: string)
    ensures LastField(log, key, LastSeenTime) == if LastSeen(log, key).Some? then Some(Num(LastSeen(log, key).value)) else None
  {
    if log != [] {
      LastSeenIsAField(log[..|log| - 1], key);
    }
  }

  /** The stored last_seen_time is that of the last registration or heartbeat. */
  lemma LastSeenIsStored(log: NodeLog, key: string)
    requires ValidLog(MutateNode, log) && Lookup(log, key).Some?
    ensures Lookup(log, key).value.value.Data?
    ensures FieldOf(Lookup(log, key).value.value.fields, LastSeenTime) ==
      if LastSeen(log, key).Some? then Some(Num(LastSeen(log, key).value)) else None
  {
    FieldsAreAsSaid(log, key, LastSeenTime);
    LastSeenIsAField(log, key);
  }

  /** A stale sweep at clock `at` would deactivate a registered node exactly when the node is not
      inactive already and was last heard of more than 60 s before. */
  lemma StaleExactlyWhen(log: NodeLog, key: string, at: int, now: int)
    requires ValidLog(MutateNode, log) && Lookup(log, key).Some?
    ensures var live := Lookup(log, key);
      MutateNode(MarkStale(at), ValueOf(live), RevisionOf(live), now).Commit? <==>
        && LastField(log, key, Status) != Some(Str("inactive"))
        && LastSeen(log, key).Some? && at - LastSeen(log, key).value > 60
  {
    FieldsAreAsSaid(log, key, Status);
    LastSeenIsStored(log, key);
  }

  /** `before` is a still active node that has been silent for over 60 s at `clock`, and `op` deactivates it. */
  ghost predicate SilentThenSwept(before: NodeValue, clock: int, op: Op<NodeValue>) {
    && before.Data? && !IsInactive(before.fields)
    && LastSeenTime in before.fields && before.fields[LastSeenTime].Num?
    && clock - before.fields[LastSeenTime].n > HEARTBEAT_TIMEOUT
    && op == Put(Data(before.fields + Inactive(clock, "heartbeat_timeout")))
  }

  lemma SweepHitsSilentNode(log: NodeLog, j: nat) returns (at: nat)
    requires ValidLog(MutateNode, log) && j < |log| && log[j].writer.Cas? && log[j].writer.request.MarkStale?
    ensures LiveAt(log, log[j].key, j, at)
    ensures SilentThenSwept(log[at].op.value, log[j].writer.request.at, log[j].op)
    ensures LastField(log[..j], log[j].key, Status) != Some(Str("inactive"))
    ensures LastSeen(log[..j], log[j].key).Some? && log[j].writer.request.at - LastSeen(log[..j], log[j].key).value > 60
  {
    assert ValidEvent(MutateNode, log, j);
    LookupIsLive(log, log[j].key, j);
    at := Lookup(log[..j], log[j].key).value.modRevision - FIRST_REVISION;
    ValidPrefix(MutateNode, log, j);
    StaleExactlyWhen(log[..j], log[j].key, log[j].writer.request.at, log[j].now);
  }

  /** In every run a committed stale mark hit a node that was active at that very moment and had not
      been heard of for more than 60 s by the sweep's clock: no registration or heartbeat committed
      before it was more recent.  A heartbeat that lands in between therefore wins.  Nothing but the
      three status fields of the live value changes. */
  lemma SweepOnlyHitsSilentNodes(clock: int, steps: seq<Step<string, NodeRequest>>, j: nat)
    requires var log := Run(MutateNode, clock, steps).log;
      j < |log| && log[j].writer.Cas? && log[j].writer.request.MarkStale?
    ensures var log := Run(MutateNode, clock, steps).log;
      && LastField(log[..j], log[j].key, Status) != Some(Str("inactive"))
      && LastSeen(log[..j], log[j].key).Some?
      && log[j].writer.request.at - LastSeen(log[..j], log[j].key).value > 60
      && exists at: nat :: LiveAt(log, log[j].key, j, at) && SilentThenSwept(log[at].op.value, log[j].writer.request.at, log[j].op)
  {
    EveryRunIsExact(MutateNode, clock, steps, 0);
    var at := SweepHitsSilentNode(Run(MutateNode, clock, steps).log, j);
  }

  /** A stored last_seen_time the sweep can use. */
  predicate Seen(value: NodeValue) {
    value.Data? && LastSeenTime in value.fields && value.fields[LastSeenTime].Num?
  }

  /** A registration is never refused, not even over a corrupt value; anything else is exactly when there
      is no value, none that decodes, or, for a sweep, nothing stale. */
  lemma RefusedExactlyWhen(r: NodeRequest, current: Option<NodeValue>, modRevision: nat, now: int)
    ensures var choice := MutateNode(r, current, modRevision, now);
      && (choice == Abort(NotRegistered) <==> !r.Register? && current.None?)
      && (choice == Abort(InvalidData) <==>
           !r.Register? && current.Some? && (current.value.Corrupt? || (r.MarkStale? && !Seen(current.value))))
      && (choice == Abort(NoLongerStale) <==>
           r.MarkStale? && current.Some? && Seen(current.value)
           && (IsInactive(current.value.fields) || r.at - current.value.fields[LastSeenTime].n <= 60))
  {
  }
}
