/** The values stored under the three config key families, and every mutation the controller runs on
    them inside a compare-and-swap.  JSON text is modelled after decoding. */
module Config {
  import opened Basics
  import opened Etcd
  import Dns

  const INT64_MAX: int := 0x7FFF_FFFF_FFFF_FFFF
  const INT64_MIN: int := -0x8000_0000_0000_0000
  const UINT64_MAX: nat := 0xFFFF_FFFF_FFFF_FFFF

  /** The text of a resourceVersion.  `Digits` is a plain decimal number; `Loose` is other text whose
      leading integer the server's scanner still reads ("-3", "+4", "5x"). */
  datatype Version = Missing | Digits(n: nat) | Loose(i: int) | Junk

  /** strconv.ParseUint in 64 bits, as the consumer reads versions. */
  function ParseUint(v: Version): Option<nat> {
    if v.Digits? && v.n <= UINT64_MAX then Some(v.n) else None
  }

  /** fmt.Sscanf "%d" into an int, as the server reads versions. */
  function ScanInt(v: Version): Option<int> {
    if v.Digits? && v.n <= INT64_MAX then Some(v.n)
    else if v.Loose? && INT64_MIN <= v.i <= INT64_MAX then Some(v.i)
    else None
  }

  function PrintInt(i: int): Version {
    if i >= 0 then Digits(i) else Loose(i)
  }

  /** `updatedAt` as whole UTC seconds, or text that is not an RFC 3339 time in UTC. */
  datatype Stamp = Utc(seconds: int) | Unusable

  datatype Metadata = Metadata(node: string, version: Version, updatedBy: string, updatedAt: Stamp)

  datatype PortMapping = PortMapping(index: string, dip: string, dport: string, eport: string)

  /** The fields an update always takes from the request. */
  datatype Access = Access(vlan: string, account: string, password: string, pool: string, subnet: string, gateway: string)

  datatype HsiConfig = HsiConfig(
    user: string, access: Access, dnsProxy: Option<bool>, tcpConntrack: Option<bool>, ipv6: Option<bool>,
    ports: seq<PortMapping>, desire: string)

  /** A requested config: omitted optional fields are `None`. */
  datatype HsiRequest = HsiRequest(
    user: string, access: Access, dnsProxy: Option<bool>, tcpConntrack: Option<bool>, ipv6: Option<bool>,
    ports: Option<seq<PortMapping>>)

  const CONNECT := "connect"
  const DISCONNECT := "disconnect"

  /** `Other` is JSON of a shape the key family does not use. */
  datatype Payload = Hsi(config: HsiConfig) | Records(records: seq<Dns.Record>) | Count(text: string) | Other(id: nat)

  datatype Stored = NotJson | Document(payload: Option<Payload>, metadata: Option<Metadata>)

  datatype Error =
    | Exists | NotFound | Unparsable | RecordNotFound | RecordLimit   // server writers
    | Superseded                                                     // rollback
    | AlreadyReflected | Discarded                                   // offline edit

  datatype Correlation = NoCorrelation | NotNumeric | ModRevision(revision: int)

  /** A node's offline edit after validation; `payload` is `None` for a tombstone. */
  datatype Proposal = Proposal(node: string, payload: Option<Payload>, version: Version, editedAt: int)

  datatype Request =
    | CreateHsi(node: string, config: HsiRequest, user: string)
    | UpdateHsiRest(node: string, config: HsiRequest, user: string)
    | UpdateHsiGrpc(node: string, config: HsiRequest, clearPorts: bool, user: string)
    | SetDesire(connect: bool, user: string)
    | DeleteHsi
    | PutRecord(node: string, record: Dns.Record, user: string)
    | DeleteRecord(node: string, domain: string, user: string)
    | SetCount(node: string, count: string, user: string)
    | Rollback(previous: Option<Stored>, applied: Version, correlation: Correlation)
    | OfflineEdit(proposal: Proposal)

  // ----- reading stored values -----

  function VersionOf(s: Stored): Version {
    if s.Document? && s.metadata.Some? then s.metadata.value.version else Missing
  }

  /** configResourceVersion and its caller's reading of the live value. */
  function UintVersion(s: Stored): Option<nat> {
    ParseUint(VersionOf(s))
  }

  const EMPTY_CONFIG := HsiConfig("", Access("", "", "", "", "", ""), None, None, None, [], "")

  /** Decoding into the config-with-metadata struct: a missing payload decodes as the zero config. */
  function DecodeHsi(s: Stored): Option<HsiConfig> {
    match s
    case Document(Some(Hsi(config)), _) => Some(config)
    case Document(None, _) => Some(EMPTY_CONFIG)
    case _ => None
  }

  /** A value that is not a record envelope has no records; the next write replaces it. */
  function DecodeRecords(current: Option<Stored>): seq<Dns.Record> {
    match current
    case Some(Document(Some(Records(records)), _)) => records
    case _ => []
  }

  /** The version a server writer stamps next: wrap-around of the signed 64-bit counter included. */
  function NextVersion(current: Option<Stored>): Version {
    match current
    case None => Digits(1)
    case Some(s) =>
      match ScanInt(VersionOf(s))
      case None => Digits(2)
      case Some(n) => PrintInt(if n == INT64_MAX then INT64_MIN else n + 1)
  }

  // ----- merging -----

  function Inherit(requested: Option<bool>, current: Option<bool>, default: bool): Option<bool> {
    if requested.Some? then requested else if current.Some? then current else Some(default)
  }

  function MergeWithPorts(requested: HsiRequest, current: Option<HsiConfig>, ports: seq<PortMapping>): HsiConfig {
    var c := if current.Some? then current.value else EMPTY_CONFIG;
    HsiConfig(
      requested.user, requested.access,
      Inherit(requested.dnsProxy, c.dnsProxy, true),
      Inherit(requested.tcpConntrack, c.tcpConntrack, true),
      Inherit(requested.ipv6, c.ipv6, false),
      ports,
      if c.desire != "" then c.desire else DISCONNECT)
  }

  /** mergeRESTHSIConfigUpdate: a ports list that is present, even empty, replaces the stored one. */
  function MergeRest(requested: HsiRequest, current: Option<HsiConfig>): HsiConfig {
    MergeWithPorts(requested, current,
      if requested.ports.Some? then requested.ports.value
      else if current.Some? then current.value.ports
      else [])
  }

  /** mergeGRPCHSIConfigUpdate: an empty list cannot be told from an omitted one, hence the flag. */
  function MergeGrpc(requested: HsiRequest, current: Option<HsiConfig>, clearPorts: bool): HsiConfig {
    MergeWithPorts(requested, current,
      if clearPorts then []
      else if requested.ports.Some? && requested.ports.value != [] then requested.ports.value
      else if current.Some? then current.value.ports
      else [])
  }

  function NewConfig(requested: HsiRequest): HsiConfig {
    HsiConfig(requested.user, requested.access, Some(true), Some(true),
      if requested.ipv6.Some? then requested.ipv6 else Some(false),
      if requested.ports.Some? then requested.ports.value else [],
      DISCONNECT)
  }

  // ----- the mutations -----

  const ROLLBACK_WRITER := "controller-rollback"
  const OFFLINE_WRITER := "node-offline-edit"

  function ServerPut(node: string, payload: Payload, current: Option<Stored>, user: string, now: int): Choice<Stored, Error> {
    Commit(Put(Document(Some(payload), Some(Metadata(node, NextVersion(current), user, Utc(now))))))
  }

  function MutateSetDesire(connect: bool, user: string, current: Option<Stored>, now: int): Choice<Stored, Error> {
    if current.None? then Abort(NotFound)
    else
      match DecodeHsi(current.value)
      case None => Abort(Unparsable)
      case Some(config) =>
        if config.user == "" then Abort(Unparsable)
        else
          var node := if current.value.metadata.Some? then current.value.metadata.value.node else "";
          ServerPut(node, Hsi(config.(desire := if connect then CONNECT else DISCONNECT)), current, user, now)
  }

  function MutateDeleteRecord(node: string, domain: string, user: string, current: Option<Stored>, now: int): Choice<Stored, Error> {
    if current.None? then Abort(RecordNotFound)
    else
      var records := DecodeRecords(current);
      if Dns.IndexOf(records, domain) == |records| then Abort(RecordNotFound)
      else
        var rest := Dns.Without(records, domain);
        if rest == [] then Commit(Delete) else ServerPut(node, Records(rest), current, user, now)
  }

  function MutatePutRecord(node: string, r: Dns.Record, user: string, current: Option<Stored>, now: int): Choice<Stored, Error> {
    var records := DecodeRecords(current);
    if Dns.IndexOf(records, r.domain) == |records| && |records| >= Dns.MAX_RECORDS then Abort(RecordLimit)
    else ServerPut(node, Records(Dns.AddOrUpdate(records, r)), current, user, now)
  }

  /** The version the failed apply reports is still the live one. */
  predicate StillFailed(previous: Option<Stored>, applied: Version, correlation: Correlation, live: nat, modRevision: nat) {
    match applied
    case Missing =>
      if previous.None? then live == 1
      else UintVersion(previous.value).Some? && live > UintVersion(previous.value).value && live - UintVersion(previous.value).value == 1
    case _ =>
      && ParseUint(applied) == Some(live)
      && (correlation.ModRevision? ==> correlation.revision == modRevision)
  }

  /** guardedRollbackMutation with rollbackConfigValue: payload of the last success, fresh metadata,
      and a 64-bit successor of the live version. */
  function MutateRollback(
    previous: Option<Stored>, applied: Version, correlation: Correlation,
    current: Option<Stored>, modRevision: nat, now: int): Choice<Stored, Error>
  {
    if current.None? || UintVersion(current.value).None? then Abort(Superseded)
    else
      var live := UintVersion(current.value).value;
      if !StillFailed(previous, applied, correlation, live, modRevision) then Abort(Superseded)
      else if previous.None? then Commit(Delete)
      else if previous.value.NotJson? || previous.value.payload.None? then Abort(Superseded)
      else
        Commit(Put(Document(previous.value.payload,
          Some(Metadata(current.value.metadata.value.node, Digits(if live == UINT64_MAX then 0 else live + 1),
            ROLLBACK_WRITER, Utc(now))))))
  }

  /** offlineEditMutation. */
  function MutateOfflineEdit(p: Proposal, current: Option<Stored>, now: int): Choice<Stored, Error> {
    if current.None? then (if p.payload.None? then Abort(AlreadyReflected) else Abort(Discarded))
    else
      var live := current.value;
      if p.payload.Some? && (live.NotJson? || live.payload.None?) then Abort(Discarded)
      else if p.payload.Some? && p.payload == live.payload then Abort(AlreadyReflected)
      else if UintVersion(live).None? || live.metadata.value.updatedAt.Unusable? || ParseUint(p.version).None? then Abort(Discarded)
      else
        var liveVersion, nodeVersion := UintVersion(live).value, ParseUint(p.version).value;
        if p.editedAt <= live.metadata.value.updatedAt.seconds then Abort(Discarded)
        else if p.payload.None? then (if nodeVersion < liveVersion then Abort(Discarded) else Commit(Delete))
        else if nodeVersion <= liveVersion then Abort(Discarded)
        else
          Commit(Put(Document(p.payload, Some(Metadata(p.node, Digits(liveVersion + 1), OFFLINE_WRITER, Utc(now))))))
  }

  function Mutate(request: Request, current: Option<Stored>, modRevision: nat, now: int): Choice<Stored, Error> {
    match request
    case CreateHsi(node, config, user) =>
      if current.Some? then Abort(Exists) else ServerPut(node, Hsi(NewConfig(config)), current, user, now)
    case UpdateHsiRest(node, config, user) =>
      ServerPut(node, Hsi(MergeRest(config, if current.Some? then DecodeHsi(current.value) else None)), current, user, now)
    case UpdateHsiGrpc(node, config, clearPorts, user) =>
      ServerPut(node, Hsi(MergeGrpc(config, if current.Some? then DecodeHsi(current.value) else None, clearPorts)), current, user, now)
    case SetDesire(connect, user) => MutateSetDesire(connect, user, current, now)
    case DeleteHsi => if current.None? then Abort(NotFound) else Commit(Delete)
    case PutRecord(node, record, user) => MutatePutRecord(node, record, user, current, now)
    case DeleteRecord(node, domain, user) => MutateDeleteRecord(node, domain, user, current, now)
    case SetCount(node, count, user) => ServerPut(node, Count(count), current, user, now)
    case Rollback(previous, applied, correlation) => MutateRollback(previous, applied, correlation, current, modRevision, now)
    case OfflineEdit(p) => MutateOfflineEdit(p, current, now)
  }

  /** The two update paths mirror each other: every gRPC update is the REST update that spells out
      its intent about port mappings. */
  lemma GrpcUpdateIsRestUpdate(requested: HsiRequest, current: Option<HsiConfig>, clearPorts: bool)
    ensures MergeGrpc(requested, current, clearPorts) ==
      MergeRest(requested.(ports :=
        if clearPorts then Some([]) else if requested.ports == Some([]) then None else requested.ports), current)
  {
  }

  /** The request that spells out every field of `c`. */
  function Resubmit(c: HsiConfig): HsiRequest {
    HsiRequest(c.user, c.access, c.dnsProxy, c.tcpConntrack, c.ipv6, Some(c.ports))
  }

  /** What an update reads into a stored config: omitted toggles and desired state by their defaults. */
  function Filled(c: HsiConfig): HsiConfig {
    c.(dnsProxy := Inherit(c.dnsProxy, None, true), tcpConntrack := Inherit(c.tcpConntrack, None, true),
       ipv6 := Inherit(c.ipv6, None, false), desire := if c.desire != "" then c.desire else DISCONNECT)
  }

  /** An update that spells everything out stores exactly that, whatever was there, except for the
      desired state, which it never touches; one that omits the optional fields leaves them all alone. */
  lemma UpdateRoundTrip(c: HsiConfig, stored: HsiConfig)
    ensures c.dnsProxy.Some? && c.tcpConntrack.Some? && c.ipv6.Some? ==>
      MergeRest(Resubmit(c), Some(stored)) == c.(desire := Filled(stored).desire)
    ensures MergeRest(Resubmit(c).(dnsProxy := None, tcpConntrack := None, ipv6 := None, ports := None), Some(stored)) ==
      Filled(stored).(user := c.user, access := c.access)
  {
  }

  /** Repeating an update changes nothing, and an update and a dial give the same in either order. */
  lemma UpdatesSettle(r: HsiRequest, current: Option<HsiConfig>, desire: string)
    requires desire != ""
    ensures MergeRest(r, Some(MergeRest(r, current))) == MergeRest(r, current)
    ensures current.Some? ==>
      MergeRest(r, Some(current.value.(desire := desire))) == MergeRest(r, current).(desire := desire)
  {
  }

  /** Who a committed put names as its author. */
  function AuthorOf(r: Request): string {
    match r
    case CreateHsi(_, _, user) => user
    case UpdateHsiRest(_, _, user) => user
    case UpdateHsiGrpc(_, _, _, user) => user
    case SetDesire(_, user) => user
    case PutRecord(_, _, user) => user
    case DeleteRecord(_, _, user) => user
    case SetCount(_, _, user) => user
    case Rollback(_, _, _) => "controller-rollback"
    case OfflineEdit(_) => "node-offline-edit"
    case DeleteHsi => ""
  }

  /** The node a put is filed under: the request's, or for those that do not name one the node already
      on the value. */
  function NodeOf(r: Request, current: Option<Stored>): string {
    match r
    case CreateHsi(node, _, _) => node
    case UpdateHsiRest(node, _, _) => node
    case UpdateHsiGrpc(node, _, _, _) => node
    case PutRecord(node, _, _) => node
    case DeleteRecord(node, _, _) => node
    case SetCount(node, _, _) => node
    case OfflineEdit(p) => p.node
    case _ =>
      if current.Some? && current.value.Document? && current.value.metadata.Some? then current.value.metadata.value.node else ""
  }

  /** Every put stamps the clock its writer read, its author, its node and a version; none but the upserts, the creates and
      the record and count writers ever put a missing key, and a missing key is never deleted. */
  lemma EveryPutIsStamped(request: Request, current: Option<Stored>, modRevision: nat, now: int)
    requires Mutate(request, current, modRevision, now).Commit?
    ensures var op := Mutate(request, current, modRevision, now).op;
      if op.Delete? then current.Some?
      else
        && op.value.Document? && op.value.payload.Some? && op.value.metadata.Some?
        && op.value.metadata.value.updatedAt == Utc(now)
        && op.value.metadata.value.updatedBy == AuthorOf(request)
        && op.value.metadata.value.node == NodeOf(request, current)
        && (current.None? ==> !request.Rollback? && !request.OfflineEdit? && !request.SetDesire? && VersionOf(op.value) == Digits(1))
  {
  }

  /** A server writer counts on from whatever its scanner reads, negative numbers and numbers with a tail
      included, and starts at 2 over a version that does not begin with a number or is out of range. */
  lemma ServerCountsOn(current: Stored, i: int)
    requires -0x8000_0000_0000_0000 <= i < 0x7FFF_FFFF_FFFF_FFFF
    ensures VersionOf(current) == PrintInt(i) || VersionOf(current) == Loose(i) ==>
      NextVersion(Some(current)) == if i + 1 < 0 then Loose(i + 1) else Digits(i + 1)
    ensures Unreadable(VersionOf(current)) ==> NextVersion(Some(current)) == Digits(2)
  {
  }

  predicate Unreadable(v: Version) {
    v.Missing? || v.Junk? || (v.Digits? && v.n > 0x7FFF_FFFF_FFFF_FFFF)
  }
}
