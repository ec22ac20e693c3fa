/**
 The decision rule of the ingest gate, stated key by key and path by path so that it does
 not depend on the order in which a frame lists its fields.
 */
module IngestRule {
  import opened Wrappers
  import opened Json

  datatype DataSource = Http | CloudMqtt | LocalMqtt | Ble

  /** Who delivered the value now held at one field path, and when. */
  datatype Provenance = Provenance(
    source: DataSource,
    section: string,
    observedAt: Option<real>,
    receivedAt: real,
    requestId: Option<string>)

  /**
   Ownership by field path.  A top-level field owns a one-element path, a nested field the
   full path below it.
   */
  type Ledger = map<Path, Provenance>

  /** What stays fixed while one observation is applied. */
  datatype Context = Context(incoming: Provenance, window: real, now: real)

  function Tier(source: DataSource): int {
    match source
    case Http => 0
    case CloudMqtt => 1
    case LocalMqtt => 1
    case Ble => 2
  }

  const PERIODIC_SECTION_PREFIXES: set<string> := {
    "statistic", "device_statistic",
    "device_pv_stat", "device_home_stat", "device_battery_stat", "device_ct_stat",
    "device_eps_stat", "device_socket_stat", "device_symmetry_stat",
    "pv_trends", "home_trends", "battery_trends"
  }

  predicate IsPeriodicSection(section: string) {
    exists prefix :: prefix in PERIODIC_SECTION_PREFIXES && (section == prefix || prefix + "_" <= section)
  }

  predicate IncomingIsStale(c: Context) {
    c.incoming.observedAt.Some? && c.window > 0.0 && c.now - c.incoming.observedAt.value > c.window
  }

  predicate IncomingIsOlder(c: Context, owner: Provenance) {
    c.incoming.observedAt.Some? && owner.observedAt.Some? && c.incoming.observedAt.value < owner.observedAt.value
  }

  function Age(c: Context, owner: Provenance): real {
    if c.incoming.receivedAt - owner.receivedAt > 0.0 then c.incoming.receivedAt - owner.receivedAt else 0.0
  }

  predicate OutrankedAndFresh(c: Context, owner: Provenance) {
    Tier(c.incoming.source) < Tier(owner.source) && Age(c, owner) < c.window
  }

  /** The part of the decision that does not depend on the value held. */
  predicate Protects(c: Context, owner: Option<Provenance>) {
    || (!IsPeriodicSection(c.incoming.section) && IncomingIsStale(c))
    || (owner.Some? && (OutrankedAndFresh(c, owner.value) || IncomingIsOlder(c, owner.value)))
  }

  /** Whether a populated value is protected from the incoming observation. */
  predicate KeepsCurrent(c: Context, current: Value, owner: Option<Provenance>) {
    !Blank(current) && Protects(c, owner)
  }

  function Find(ledger: Ledger, p: Path): Option<Provenance> {
    if p in ledger then Some(ledger[p]) else None
  }

  /** Nested lookups fall back to the owner of the enclosing object. */
  function OwnerOf(ledger: Ledger, p: Path, fallback: Option<Provenance>): Option<Provenance> {
    if p in ledger then Some(ledger[p]) else fallback
  }

  /**
   What `_drop_descendant_provenance` removes.  For a top-level field the prefix itself is
   a plain string key and is not matched; below, the prefix is matched as well.
   */
  predicate IsDropped(prefix: Path, p: Path) {
    prefix <= p && |p| > 1
  }

  function Drop(ledger: Ledger, prefix: Path): Ledger {
    map p | p in ledger && !IsDropped(prefix, p) :: ledger[p]
  }

  // ---- Nested objects ----

  predicate Rejects(c: Context, current: Value, value: Value, owner: Option<Provenance>) {
    (Blank(value) && !Blank(current)) || KeepsCurrent(c, current, owner)
  }

  function NestedFields(c: Context, current: Tree, update: Tree, path: Path, fallback: Option<Provenance>,
      ledger: Ledger): Tree
    decreases Obj(update), 0
  {
    map k | k in current.Keys + update.Keys ::
      if k in update then
        NestedValue(c, Get(current, k), update[k], path + [k], OwnerOf(ledger, path + [k], fallback), ledger)
      else current[k]
  }

  function NestedValue(c: Context, current: Value, value: Value, path: Path, owner: Option<Provenance>,
      ledger: Ledger): Value
    decreases value, 1
  {
    if current.Obj? && value.Obj? then Obj(NestedFields(c, current.fields, value.fields, path, owner, ledger))
    else if Rejects(c, current, value, owner) then current
    else if value.Obj? then Obj(NestedFields(c, map[], value.fields, path, None, Drop(ledger, path)))
    else value
  }

  predicate NestedAccepts(c: Context, current: Tree, update: Tree, path: Path, fallback: Option<Provenance>,
      ledger: Ledger)
    decreases Obj(update), 0
  {
    exists k :: k in update &&
      ValueAccepted(c, Get(current, k), update[k], path + [k], OwnerOf(ledger, path + [k], fallback), ledger)
  }

  predicate ValueAccepted(c: Context, current: Value, value: Value, path: Path, owner: Option<Provenance>,
      ledger: Ledger)
    decreases value, 1
  {
    if current.Obj? && value.Obj? then NestedAccepts(c, current.fields, value.fields, path, owner, ledger)
    else !Rejects(c, current, value, owner)
  }

  /** The owner of `path + q` after the object at `path` has been merged. */
  function NestedOwner(c: Context, current: Tree, update: Tree, path: Path, fallback: Option<Provenance>,
      ledger: Ledger, q: Path): Option<Provenance>
    decreases Obj(update), 0
  {
    if q != [] && q[0] in update then
      ValueOwner(c, Get(current, q[0]), update[q[0]], path + [q[0]], OwnerOf(ledger, path + [q[0]], fallback), ledger,
        q[1..])
    else Find(ledger, path + q)
  }

  function ValueOwner(c: Context, current: Value, value: Value, path: Path, owner: Option<Provenance>, ledger: Ledger,
      q: Path): Option<Provenance>
    decreases value, 1
  {
    if current.Obj? && value.Obj? then NestedOwner(c, current.fields, value.fields, path, owner, ledger, q)
    else if Rejects(c, current, value, owner) then Find(ledger, path + q)
    else if q == [] then Some(c.incoming)
    else if value.Obj? then NestedOwner(c, map[], value.fields, path, None, Drop(ledger, path), q)
    else if current.Obj? then Find(Drop(ledger, path), path + q)
    else Find(ledger, path + q)
  }

  // ---- The top level of one observation ----

  function TopFields(c: Context, current: Tree, update: Tree, ledger: Ledger): Tree {
    map k | k in current.Keys + update.Keys ::
      if k in update then TopValue(c, Get(current, k), update[k], k, ledger) else current[k]
  }

  function TopValue(c: Context, current: Value, value: Value, k: string, ledger: Ledger): Value {
    if current.Obj? && value.Obj? then
      Obj(NestedFields(c, current.fields, value.fields, [k], Find(ledger, [k]), ledger))
    else if KeepsCurrent(c, current, Find(ledger, [k])) then current
    else if value.Obj? then Obj(NestedFields(c, map[], value.fields, [k], None, Drop(ledger, [k])))
    else value
  }

  predicate TopAccepted(c: Context, current: Value, value: Value, k: string, ledger: Ledger) {
    if current.Obj? && value.Obj? then NestedAccepts(c, current.fields, value.fields, [k], Find(ledger, [k]), ledger)
    else !KeepsCurrent(c, current, Find(ledger, [k]))
  }

  function TopOwner(c: Context, current: Value, value: Value, k: string, ledger: Ledger, q: Path): Option<Provenance> {
    if q == [] && TopAccepted(c, current, value, k, ledger)
      && !KeepsCurrent(c, current, Find(ledger, [k])) then Some(c.incoming)
    else if current.Obj? && value.Obj? then
      NestedOwner(c, current.fields, value.fields, [k], Find(ledger, [k]), ledger, q)
    else if KeepsCurrent(c, current, Find(ledger, [k])) then Find(ledger, [k] + q)
    else if value.Obj? then NestedOwner(c, map[], value.fields, [k], None, Drop(ledger, [k]), q)
    else Find(Drop(ledger, [k]), [k] + q)
  }

  /** The owner of any path after one observation. */
  function OwnerAfter(c: Context, current: Tree, update: Tree, ledger: Ledger, q: Path): Option<Provenance> {
    if q != [] && q[0] in update then TopOwner(c, Get(current, q[0]), update[q[0]], q[0], ledger, q[1..])
    else Find(ledger, q)
  }

  function AcceptedFields(c: Context, current: Tree, update: Tree, ledger: Ledger): set<string> {
    set k | k in update && TopAccepted(c, Get(current, k), update[k], k, ledger)
  }

  /** The ledger as a whole; `OwnerAfter` says what it holds path by path. */
  function LedgerAfter(c: Context, current: Tree, update: Tree, ledger: Ledger): Ledger {
    map q | q in ledger.Keys + PathsOf(update) && OwnerAfter(c, current, update, ledger, q).Some? ::
      OwnerAfter(c, current, update, ledger, q).value
  }
}
