/** Abuse quota: sliding-by-reset usage windows and active counters, the
    admission decision, and the reserve and release statements. */
module Quota {
  import opened Basics
  import opened Tables

  const SESSION_CONCURRENCY: int := 1
  const NETWORK_CONCURRENCY: int := 4
  const MAX_COUNTER: int := 1_000_000

  function WindowSeconds(d: WindowDimension): int {
    match d
    case SessionBurst => 600
    case SessionDaily => 86_400
    case NetworkBurst => 600
    case NetworkDaily => 86_400
  }

  function WindowLimit(d: WindowDimension): int {
    match d
    case SessionBurst => 3
    case SessionDaily => 10
    case NetworkBurst => 20
    case NetworkDaily => 100
  }

  function ActiveLimit(k: ActiveKey): int {
    if k.SessionActive? then SESSION_CONCURRENCY else NETWORK_CONCURRENCY
  }

  // ---- the admission decision ---------------------------------------------

  datatype Usage = Usage(count: int, reset: int)

  datatype UsageSnapshot = UsageSnapshot(
    sessionBurst: Usage,
    sessionDaily: Usage,
    networkBurst: Usage,
    networkDaily: Usage,
    sessionActive: int,
    networkActive: int)

  datatype Denial =
    | ScanningPaused
    | SessionConcurrencyLimit
    | NetworkConcurrencyLimit
    | WindowExhausted(dimension: WindowDimension, retryAfter: int)

  datatype Admission = Admit | Refuse(denial: Denial) | BadContext

  predicate ValidCounter(n: int) {
    0 <= n <= MAX_COUNTER
  }

  predicate ValidUsage(u: Usage, now: int, d: WindowDimension) {
    ValidCounter(u.count) && now < u.reset <= UINT64_MAX && u.reset <= now + WindowSeconds(d)
  }

  predicate ValidUsageSnapshot(u: UsageSnapshot, now: int) {
    && 0 <= now <= UINT64_MAX
    && ValidUsage(u.sessionBurst, now, SessionBurst)
    && ValidUsage(u.sessionDaily, now, SessionDaily)
    && ValidUsage(u.networkBurst, now, NetworkBurst)
    && ValidUsage(u.networkDaily, now, NetworkDaily)
    && ValidCounter(u.sessionActive)
    && ValidCounter(u.networkActive)
  }

  function Exhausted(d: WindowDimension, u: Usage, now: int): Admission {
    Refuse(WindowExhausted(d, u.reset - now))
  }

  function DecideAdmission(paused: bool, u: UsageSnapshot, now: int): Admission {
    if !ValidUsageSnapshot(u, now) then BadContext
    else if paused then Refuse(ScanningPaused)
    else if u.sessionActive >= SESSION_CONCURRENCY then Refuse(SessionConcurrencyLimit)
    else if u.sessionBurst.count >= WindowLimit(SessionBurst) then Exhausted(SessionBurst, u.sessionBurst, now)
    else if u.sessionDaily.count >= WindowLimit(SessionDaily) then Exhausted(SessionDaily, u.sessionDaily, now)
    else if u.networkActive >= NETWORK_CONCURRENCY then Refuse(NetworkConcurrencyLimit)
    else if u.networkBurst.count >= WindowLimit(NetworkBurst) then Exhausted(NetworkBurst, u.networkBurst, now)
    else if u.networkDaily.count >= WindowLimit(NetworkDaily) then Exhausted(NetworkDaily, u.networkDaily, now)
    else Admit
  }

  // ---- counter rows -------------------------------------------------------

  type Windows = map<WindowKey, Window>
  type Active = map<ActiveKey, int>

  function WindowSpecs(session: Digest, network: Digest): (keys: seq<WindowKey>)
    ensures forall i, j | 0 <= i < j < |keys| :: keys[i] != keys[j]
  {
    [WindowKey(NetworkBurst, network), WindowKey(NetworkDaily, network),
     WindowKey(SessionBurst, session), WindowKey(SessionDaily, session)]
  }

  function ActiveSpecs(session: Digest, network: Digest): seq<ActiveKey> {
    [NetworkActive(network), SessionActive(session)]
  }

  predicate LiveWindow(ws: Windows, k: WindowKey, now: int) {
    k in ws && ws[k].reset > now
  }

  /** The row an upsert leaves: the live row, or a fresh empty window. */
  function RefreshedWindow(ws: Windows, k: WindowKey, now: int): Window {
    if LiveWindow(ws, k, now) then ws[k] else Window(0, now + WindowSeconds(k.dimension))
  }

  function RefreshWindows(ws: Windows, keys: seq<WindowKey>, now: int): Windows {
    map k | k in ws.Keys + (set i | 0 <= i < |keys| :: keys[i]) ::
      if k in keys then RefreshedWindow(ws, k, now) else ws[k]
  }

  function ZeroActive(active: Active, keys: seq<ActiveKey>): Active {
    map k | k in active.Keys + (set i | 0 <= i < |keys| :: keys[i]) ::
      if k in active then active[k] else 0
  }

  function IncrementWindows(ws: Windows, keys: seq<WindowKey>): Windows {
    map k | k in ws :: if k in keys then Window(ws[k].count + 1, ws[k].reset) else ws[k]
  }

  function IncrementActive(active: Active, keys: seq<ActiveKey>): Active {
    map k | k in active :: if k in keys then active[k] + 1 else active[k]
  }

  // ---- reading usage over every retained digest ---------------------------

  predicate SaneWindow(ws: Windows, k: WindowKey, now: int) {
    k in ws ==> 0 <= ws[k].count <= MAX_COUNTER && ws[k].reset <= now + WindowSeconds(k.dimension)
  }

  /** No loaded row is out of range; one that is aborts the transaction. */
  predicate SaneRows(ws: Windows, session: Digest, networks: seq<Digest>, now: int) {
    && SaneWindow(ws, WindowKey(SessionBurst, session), now)
    && SaneWindow(ws, WindowKey(SessionDaily, session), now)
    && forall i | 0 <= i < |networks| ::
         && SaneWindow(ws, WindowKey(NetworkBurst, networks[i]), now)
         && SaneWindow(ws, WindowKey(NetworkDaily, networks[i]), now)
  }

  function AddUsage(sum: Option<Usage>, w: Window): Usage {
    if sum.None? then Usage(w.count, w.reset)
    else Usage(sum.value.count + w.count, if sum.value.reset > w.reset then sum.value.reset else w.reset)
  }

  /** Counts of the live windows of one dimension, summed over the digests,
      with the latest reset among them. */
  function WindowUsage(ws: Windows, d: WindowDimension, digests: seq<Digest>, now: int): Option<Usage> {
    if digests == [] then None
    else
      var rest := WindowUsage(ws, d, digests[..|digests| - 1], now);
      var k := WindowKey(d, digests[|digests| - 1]);
      if LiveWindow(ws, k, now) then Some(AddUsage(rest, ws[k])) else rest
  }

  function ActiveOf(active: Active, k: ActiveKey): int {
    if k in active then active[k] else 0
  }

  predicate SaneActive(active: Active, k: ActiveKey) {
    k in active ==> 0 <= active[k] <= MAX_COUNTER
  }

  function NetworkUsage(active: Active, digests: seq<Digest>): int {
    if digests == [] then 0
    else NetworkUsage(active, digests[..|digests| - 1]) + ActiveOf(active, NetworkActive(digests[|digests| - 1]))
  }

  /** Both active dimensions have a loaded row. */
  predicate ActivePresent(active: Active, session: Digest, networks: seq<Digest>) {
    && SessionActive(session) in active
    && exists i | 0 <= i < |networks| :: NetworkActive(networks[i]) in active
  }

  function LoadUsage(ws: Windows, active: Active, session: Digest, networks: seq<Digest>, now: int): Tx<UsageSnapshot> {
    var _ :- Ensure(SaneRows(ws, session, networks, now), AbuseState);
    var _ :- Ensure(SaneActive(active, SessionActive(session))
                   && forall i | 0 <= i < |networks| :: SaneActive(active, NetworkActive(networks[i])), AbuseState);
    var _ :- Ensure(ActivePresent(active, session, networks), AbuseState);
    var sb := WindowUsage(ws, SessionBurst, [session], now);
    var sd := WindowUsage(ws, SessionDaily, [session], now);
    var nb := WindowUsage(ws, NetworkBurst, networks, now);
    var nd := WindowUsage(ws, NetworkDaily, networks, now);
    if sb.None? || sd.None? || nb.None? || nd.None? then Throw(AbuseState)
    else Done(UsageSnapshot(sb.value, sd.value, nb.value, nd.value,
                            ActiveOf(active, SessionActive(session)), NetworkUsage(active, networks)))
  }

  // ---- reserve and release ------------------------------------------------

  datatype ReserveOutcome = Reserved(db: Db) | NotReserved(admission: Admission)

  /** Window rows after one admission of `session` on the active digest `network`. */
  function AdmittedWindows(ws: Windows, session: Digest, network: Digest, now: int): Windows {
    IncrementWindows(RefreshWindows(ws, WindowSpecs(session, network), now), WindowSpecs(session, network))
  }

  /** Active rows after one admission of `session` on the active digest `network`. */
  function AdmittedActive(active: Active, session: Digest, network: Digest): Active {
    IncrementActive(ZeroActive(active, ActiveSpecs(session, network)), ActiveSpecs(session, network))
  }

  function ReserveTx(db: Db, id: Id, session: Digest, networks: seq<Digest>, now: int): Tx<ReserveOutcome>
    requires id in db.groups
  {
    if networks == [] then Throw(AbuseState)
    else
      var ws := RefreshWindows(db.windows, WindowSpecs(session, networks[0]), now);
      var active := ZeroActive(db.active, ActiveSpecs(session, networks[0]));
      var usage :- LoadUsage(ws, active, session, networks, now);
      var admission := DecideAdmission(db.paused, usage, now);
      if !admission.Admit? then Done(NotReserved(admission))
      else
        var _ :- Ensure(db.groups[id].reservation.None?, UniqueViolation);
        var reservation := Reservation(session, networks[0], now, now + RETENTION_SECONDS, None);
        Done(Reserved(db.(windows := AdmittedWindows(db.windows, session, networks[0], now),
                          active := AdmittedActive(db.active, session, networks[0]),
                          groups := db.groups[id := db.groups[id].(reservation := Some(reservation))])))
  }

  /** Decrement that fails on a missing or zero row and deletes a row reaching zero. */
  function Decrement(active: Active, k: ActiveKey): Option<Active> {
    if ActiveOf(active, k) <= 0 then None
    else if active[k] == 1 then Some(active - {k})
    else Some(active[k := active[k] - 1])
  }

  function ReleaseTx(db: Db, id: Id, now: int, reason: ReleaseReason): Option<Db> {
    if id !in db.groups || db.groups[id].reservation.None? then None
    else
      var r := db.groups[id].reservation.value;
      if r.released.Some? then Some(db)
      else if now < r.reservedAt || now > r.deletion then None
      else
        var first := Decrement(db.active, NetworkActive(r.network));
        if first.None? then None
        else
          var second := Decrement(first.value, SessionActive(r.session));
          if second.None? then None
          else
            var g := db.groups[id].(reservation := Some(r.(released := Some((now, reason)))));
            Some(db.(active := second.value, groups := db.groups[id := g]))
  }
}
