/** Create, replay and replace: the invariant, and the exact reasons to fail. */
module CreateProofs {
  import opened Basics
  import opened ScanProtocol
  import opened Tables
  import opened Quota
  import opened Transactions
  import opened Invariant
  import opened LedgerProofs
  import opened StepProofs

  // ---- removing and adding a group ----------------------------------------

  lemma RemovalKeepsInv(db: Db, id: Id, active: Active)
    requires Inv(db) && id in db.groups
    requires Balanced(active, db.groups - {id}) && WithinLimits(active)
    ensures Inv(DeleteScan(db.(active := active), id))
  {
    hide GroupOk, Balanced, WithinLimits;
    var db' := DeleteScan(db.(active := active), id);
    assert IndexOk(db') by {
      forall x | x in db'.groups
        ensures (db'.groups[x].scan.session, db'.groups[x].scan.key) in db'.index
        ensures db'.index[(db'.groups[x].scan.session, db'.groups[x].scan.key)] == x
      {
        assert x in db.groups;
      }
    }
  }

  /** An uncharged group can be removed without touching the counters. */
  lemma BalancedWithout(active: Active, groups: map<Id, ScanGroup>, id: Id)
    requires Balanced(active, groups) && id in groups && !Unreleased(groups[id])
    ensures Balanced(active, groups - {id})
  {
    forall k
      ensures LedgerRow(active, groups - {id}, k)
    {
      assert LedgerRow(active, groups, k);
      assert Holders(groups - {id}, k) == Holders(groups, k);
    }
  }

  ghost predicate ReplaceTooLate(g: ScanGroup, now: int) {
    Unreleased(g) && now > g.scan.deletion
  }

  /** Removing an expired scan fails only when its quota is still held past the
      deletion deadline. */
  lemma ReplacedEffect(db: Db, id: Id, now: int)
    requires Inv(db) && id in db.groups && now >= db.groups[id].scan.replayExpires
    ensures var r := ReleaseReplaced(db, Some((id, db.groups[id].scan)), now);
            && (r.Throw? <==> ReplaceTooLate(db.groups[id], now))
            && (r.Throw? ==> r.fault == AbuseRelease)
            && (r.Done? ==> Inv(r.value) && id !in r.value.groups
                            && r.value.groups == db.groups - {id}
                            && r.value.index == db.index - {(db.groups[id].scan.session, db.groups[id].scan.key)}
                            && r.value.windows == db.windows && r.value.paused == db.paused)
  {
    hide Inv, GroupOk, Balanced, WithinLimits;
    InvGroup(db, id);
    ReservationTimes(id, db.groups[id]);
    ReleaseEffect(db, id, now, ExpiredReplacement);
    if ReleaseTx(db, id, now, ExpiredReplacement).Some? {
      var released := ReleaseTx(db, id, now, ExpiredReplacement).value;
      assert released.groups - {id} == db.groups - {id};
      BalancedWithout(released.active, released.groups, id);
      RemovalKeepsInv(db, id, released.active);
    }
  }

  lemma ReservationTimes(id: Id, g: ScanGroup)
    requires GroupOk(id, g)
    ensures g.reservation.Some?
    ensures g.reservation.value.reservedAt == g.scan.created <= g.scan.replayExpires
    ensures g.reservation.value.deletion == g.scan.deletion
  {
  }

  function NewGroup(r: CreateRequest, c: CreateInputs): ScanGroup
    requires r.networks != []
  {
    ScanGroup(NewScan(r, c), map[], None,
              Some(Reservation(r.session, r.networks[0], r.now, r.now + RETENTION_SECONDS, None)))
  }

  lemma NewGroupOk(r: CreateRequest, c: CreateInputs)
    requires ValidCreateRequest(r) && ValidId(c.freshScan)
    ensures GroupOk(c.freshScan, NewGroup(r, c)) && ScanCheck(NewScan(r, c))
  {
  }

  /** A state is still good after a fresh, correctly charged scan was added. */
  lemma AdditionKeepsInv(db: Db, db': Db, id: Id, g: ScanGroup)
    requires Inv(db) && id !in db.groups && GroupOk(id, g) && g.attempts == map[]
    requires (g.scan.session, g.scan.key) !in db.index
    requires db'.groups == db.groups[id := g]
    requires db'.index == db.index[(g.scan.session, g.scan.key) := id]
    requires Balanced(db'.active, db'.groups) && WithinLimits(db'.active) && WindowsOk(db'.windows)
    ensures Inv(db')
  {
    hide GroupOk, Balanced, WithinLimits, WindowsOk, IndexOk, AttemptsApart;
    IndexGains(db, db', id, g);
    AttemptsApartGains(db.groups, id, g);
  }

  lemma IndexGains(db: Db, db': Db, id: Id, g: ScanGroup)
    requires IndexOk(db) && id !in db.groups
    requires (g.scan.session, g.scan.key) !in db.index
    requires db'.groups == db.groups[id := g]
    requires db'.index == db.index[(g.scan.session, g.scan.key) := id]
    ensures IndexOk(db')
  {
    forall p | p in db'.index
      ensures db'.index[p] in db'.groups
      ensures (db'.groups[db'.index[p]].scan.session, db'.groups[db'.index[p]].scan.key) == p
    {
      if p != (g.scan.session, g.scan.key) {
        assert p in db.index;
      }
    }
  }

  lemma AttemptsApartGains(groups: map<Id, ScanGroup>, id: Id, g: ScanGroup)
    requires AttemptsApart(groups) && id !in groups && g.attempts == map[]
    ensures AttemptsApart(groups[id := g])
  {
  }

  lemma BalancedWith(active: Active, groups: map<Id, ScanGroup>, id: Id, g: ScanGroup)
    requires Balanced(active, groups) && id !in groups && g.reservation.None?
    ensures Balanced(active, groups[id := g])
  {
    forall k {:trigger LedgerRow(active, groups[id := g], k)}
      ensures LedgerRow(active, groups[id := g], k)
    {
      assert LedgerRow(active, groups, k);
      assert Holders(groups[id := g], k) == Holders(groups, k);
    }
  }

  // ---- loading usage ------------------------------------------------------

  /** Some loaded window row resets later than a window begun now would. */
  ghost predicate WindowsAhead(ws: Windows, session: Digest, networks: seq<Digest>, now: int) {
    || AheadRow(ws, WindowKey(SessionBurst, session), now)
    || AheadRow(ws, WindowKey(SessionDaily, session), now)
    || exists i | 0 <= i < |networks| ::
         AheadRow(ws, WindowKey(NetworkBurst, networks[i]), now) || AheadRow(ws, WindowKey(NetworkDaily, networks[i]), now)
  }

  predicate AheadRow(ws: Windows, k: WindowKey, now: int) {
    k in ws && ws[k].reset > now + WindowSeconds(k.dimension)
  }

  lemma RefreshedSane(ws: Windows, keys: seq<WindowKey>, k: WindowKey, now: int)
    requires WindowsOk(ws)
    ensures SaneWindow(RefreshWindows(ws, keys, now), k, now) <==> !AheadRow(ws, k, now)
    ensures k in RefreshWindows(ws, keys, now) ==> 0 <= RefreshWindows(ws, keys, now)[k].count <= WindowLimit(k.dimension)
  {
    if k in keys {
      RefreshedIsLive(ws, keys, k, now);
    } else {
      RefreshedElsewhere(ws, keys, k, now);
    }
  }

  lemma SaneRowsExactly(ws: Windows, session: Digest, networks: seq<Digest>, now: int)
    requires WindowsOk(ws) && networks != []
    ensures SaneRows(RefreshWindows(ws, WindowSpecs(session, networks[0]), now), session, networks, now)
            <==> !WindowsAhead(ws, session, networks, now)
  {
    hide WindowsOk, SaneWindow, AheadRow, RefreshWindows;
    var keys := WindowSpecs(session, networks[0]);
    RefreshedSane(ws, keys, WindowKey(SessionBurst, session), now);
    RefreshedSane(ws, keys, WindowKey(SessionDaily, session), now);
    forall i | 0 <= i < |networks|
      ensures SaneWindow(RefreshWindows(ws, keys, now), WindowKey(NetworkBurst, networks[i]), now)
              <==> !AheadRow(ws, WindowKey(NetworkBurst, networks[i]), now)
      ensures SaneWindow(RefreshWindows(ws, keys, now), WindowKey(NetworkDaily, networks[i]), now)
              <==> !AheadRow(ws, WindowKey(NetworkDaily, networks[i]), now)
    {
      RefreshedSane(ws, keys, WindowKey(NetworkBurst, networks[i]), now);
      RefreshedSane(ws, keys, WindowKey(NetworkDaily, networks[i]), now);
    }
  }

  lemma WindowUsageBound(ws: Windows, d: WindowDimension, digests: seq<Digest>, now: int)
    requires forall i | 0 <= i < |digests| :: SaneWindow(ws, WindowKey(d, digests[i]), now)
    requires forall i | 0 <= i < |digests| :: WindowKey(d, digests[i]) in ws ==> ws[WindowKey(d, digests[i])].count <= 100
    ensures WindowUsage(ws, d, digests, now).Some? ==> WindowUsage(ws, d, digests, now).value.count <= 100 * |digests|
  {
    if digests != [] {
      WindowUsageBound(ws, d, digests[..|digests| - 1], now);
    }
  }

  lemma NetworkUsageBound(active: Active, digests: seq<Digest>)
    requires forall i | 0 <= i < |digests| :: 0 <= ActiveOf(active, NetworkActive(digests[i])) <= 4
    ensures 0 <= NetworkUsage(active, digests) <= 4 * |digests|
  {
    if digests != [] {
      NetworkUsageBound(active, digests[..|digests| - 1]);
    }
  }

  /** One dimension of the usage is present, live and in range. */
  lemma DimensionInRange(ws: Windows, d: WindowDimension, session: Digest, network: Digest, digests: seq<Digest>,
                         now: int)
    requires WindowsOk(ws) && 1 <= |digests| <= 3 && WindowKey(d, digests[0]) in WindowSpecs(session, network)
    requires forall i | 0 <= i < |digests| ::
               SaneWindow(RefreshWindows(ws, WindowSpecs(session, network), now), WindowKey(d, digests[i]), now)
    requires 0 <= now && now + RETENTION_SECONDS <= MAX_UNIX_SECONDS
    ensures var u := WindowUsage(RefreshWindows(ws, WindowSpecs(session, network), now), d, digests, now);
            u.Some? && ValidUsage(u.value, now, d)
  {
    hide WindowsOk, RefreshWindows;
    var keys := WindowSpecs(session, network);
    var fresh' := RefreshWindows(ws, keys, now);
    RefreshedIsLive(ws, keys, WindowKey(d, digests[0]), now);
    WindowUsageCovers(fresh', d, digests, now, 0);
    WindowUsageNonNegative(fresh', d, digests, now);
    forall i | 0 <= i < |digests| && WindowKey(d, digests[i]) in fresh'
      ensures fresh'[WindowKey(d, digests[i])].count <= 100
    {
      RefreshedSane(ws, keys, WindowKey(d, digests[i]), now);
    }
    WindowUsageBound(fresh', d, digests, now);
  }

  lemma ZeroActiveKeeps(active: Active, keys: seq<ActiveKey>, k: ActiveKey)
    ensures ActiveOf(ZeroActive(active, keys), k) == ActiveOf(active, k)
    ensures k in ZeroActive(active, keys) <==> k in active || k in keys
  {
  }

  lemma ActiveInRange(active: Active, groups: map<Id, ScanGroup>, k: ActiveKey)
    requires Balanced(active, groups) && WithinLimits(active)
    ensures 0 <= ActiveOf(active, k) <= 4
  {
    assert LedgerRow(active, groups, k);
  }

  /** Usage loads, and is in range, exactly when no row is ahead of the clock. */
  lemma LoadExactly(db: Db, session: Digest, networks: seq<Digest>, now: int)
    requires Balanced(db.active, db.groups) && WithinLimits(db.active) && WindowsOk(db.windows)
    requires 1 <= |networks| <= 3 && 0 <= now && now + RETENTION_SECONDS <= MAX_UNIX_SECONDS
    ensures var r := LoadUsage(RefreshWindows(db.windows, WindowSpecs(session, networks[0]), now),
                               ZeroActive(db.active, ActiveSpecs(session, networks[0])), session, networks, now);
            && (r.Done? <==> !WindowsAhead(db.windows, session, networks, now))
            && (r.Throw? ==> r.fault == AbuseState)
            && (r.Done? ==> ValidUsageSnapshot(r.value, now))
  {
    hide Balanced, WithinLimits, WindowsOk, RefreshWindows, ZeroActive, WindowsAhead, ValidUsage, ActiveOf;
    var keys := WindowSpecs(session, networks[0]);
    var ws := RefreshWindows(db.windows, keys, now);
    var active := ZeroActive(db.active, ActiveSpecs(session, networks[0]));
    SaneRowsExactly(db.windows, session, networks, now);
    ZeroActiveKeeps(db.active, ActiveSpecs(session, networks[0]), SessionActive(session));
    ActiveInRange(db.active, db.groups, SessionActive(session));
    SaneFromRange(active, SessionActive(session));
    forall i | 0 <= i < |networks|
      ensures SaneActive(active, NetworkActive(networks[i]))
      ensures 0 <= ActiveOf(active, NetworkActive(networks[i])) <= 4
    {
      ZeroActiveKeeps(db.active, ActiveSpecs(session, networks[0]), NetworkActive(networks[i]));
      ActiveInRange(db.active, db.groups, NetworkActive(networks[i]));
      SaneFromRange(active, NetworkActive(networks[i]));
    }
    NetworkUsageBound(active, networks);
    assert NetworkActive(networks[0]) in active && SessionActive(session) in active by {
      ZeroActiveKeeps(db.active, ActiveSpecs(session, networks[0]), NetworkActive(networks[0]));
    }
    if SaneRows(ws, session, networks, now) {
      DimensionInRange(db.windows, SessionBurst, session, networks[0], [session], now);
      DimensionInRange(db.windows, SessionDaily, session, networks[0], [session], now);
      DimensionInRange(db.windows, NetworkBurst, session, networks[0], networks, now);
      DimensionInRange(db.windows, NetworkDaily, session, networks[0], networks, now);
    }
  }

  lemma SaneFromRange(active: Active, k: ActiveKey)
    requires 0 <= ActiveOf(active, k) <= 4
    ensures SaneActive(active, k)
  {
  }

  /** Reserving fails only when a window row is ahead of the clock; its context
      is never invalid. */
  lemma ReserveExactly(db: Db, id: Id, session: Digest, networks: seq<Digest>, now: int)
    requires Balanced(db.active, db.groups) && WithinLimits(db.active) && WindowsOk(db.windows)
    requires id in db.groups && db.groups[id].reservation.None?
    requires 1 <= |networks| <= 3 && 0 <= now && now + RETENTION_SECONDS <= MAX_UNIX_SECONDS
    ensures var r := ReserveTx(db, id, session, networks, now);
            && (r.Done? <==> !WindowsAhead(db.windows, session, networks, now))
            && (r.Throw? ==> r.fault == AbuseState)
            && (r.Done? && r.value.NotReserved? ==> r.value.admission.Refuse?)
  {
    hide Balanced, WithinLimits, WindowsOk, RefreshWindows, ZeroActive, WindowsAhead, ValidUsageSnapshot, LoadUsage,
         IncrementWindows, IncrementActive;
    LoadExactly(db, session, networks, now);
  }

  // ---- the whole transaction ----------------------------------------------

  /** The request is not answered from an existing row. */
  ghost predicate NeedsNewScan(db: Db, r: CreateRequest, c: CreateInputs) {
    && (Existing(db, r.session, r.key).Some? ==> r.now >= Existing(db, r.session, r.key).value.1.replayExpires)
    && ValidId(c.freshScan) && |c.freshNonce| == TOKEN_NONCE_BYTES && UsableKey(c.keyring, c.activeKey)
  }

  /** `x` is the scan that the request's session and key name already. */
  ghost predicate Predecessor(db: Db, r: CreateRequest, x: Id) {
    Existing(db, r.session, r.key).Some? && Existing(db, r.session, r.key).value.0 == x
  }

  ghost predicate ReplacesTooLate(db: Db, r: CreateRequest) {
    var existing := Existing(db, r.session, r.key);
    existing.Some? && ReplaceTooLate(db.groups[existing.value.0], r.now)
  }

  /** The generated scan id is still in use by another scan. */
  ghost predicate FreshIdTaken(db: Db, r: CreateRequest, c: CreateInputs) {
    c.freshScan in db.groups && !Predecessor(db, r, c.freshScan)
  }

  lemma ExistingFacts(db: Db, session: Digest, key: string)
    requires Inv(db)
    ensures Existing(db, session, key).None? <==> (session, key) !in db.index
    ensures Existing(db, session, key).Some? ==>
              var (id, scan) := Existing(db, session, key).value;
              && id in db.groups && scan == db.groups[id].scan
              && scan.session == session && scan.key == key
              && scan.replayExpires == scan.created + ACCESS_SECONDS <= MAX_UNIX_SECONDS
  {
    if (session, key) in db.index {
      var id := db.index[(session, key)];
      assert id in db.groups;
      InvGroup(db, id);
    }
    hide Inv, AttemptShape, GroupStates;
  }

  /** State once an expired predecessor, if any, is gone. */
  lemma ClearedEffect(db: Db, r: CreateRequest, c: CreateInputs)
    requires Inv(db) && NeedsNewScan(db, r, c)
    ensures var cleared := ReleaseReplaced(db, Existing(db, r.session, r.key), r.now);
            && (cleared.Throw? <==> ReplacesTooLate(db, r))
            && (cleared.Throw? ==> cleared.fault == AbuseRelease)
            && (cleared.Done? ==>
                  && Inv(cleared.value)
                  && (r.session, r.key) !in cleared.value.index
                  && (c.freshScan in cleared.value.groups <==> FreshIdTaken(db, r, c))
                  && cleared.value.windows == db.windows && cleared.value.paused == db.paused
                  && (forall x | x in cleared.value.groups :: x in db.groups && cleared.value.groups[x] == db.groups[x])
                  && (forall x :: x in cleared.value.groups <==> x in db.groups && !Predecessor(db, r, x)))
  {
    hide Inv, GroupOk, ReleaseReplaced, ReplaceTooLate;
    ExistingFacts(db, r.session, r.key);
    var existing := Existing(db, r.session, r.key);
    if existing.Some? {
      ReplacedEffect(db, existing.value.0, r.now);
    } else {
      NothingReplaced(db, r.now);
    }
  }

  lemma NothingReplaced(db: Db, now: int)
    ensures ReleaseReplaced(db, None, now) == Done(db)
  {
  }

  lemma InvLedgerParts(db: Db)
    requires Inv(db)
    ensures Balanced(db.active, db.groups) && WithinLimits(db.active) && WindowsOk(db.windows)
  {
  }

  /** Inserting the scan and charging it, on a state without its key. */
  lemma InsertedEffect(db: Db, r: CreateRequest, c: CreateInputs)
    requires Inv(db) && ValidCreateRequest(r) && ValidId(c.freshScan)
    requires (r.session, r.key) !in db.index
    ensures InsertScan(db, r, c).Done? <==> c.freshScan !in db.groups
    ensures InsertScan(db, r, c).Throw? ==> InsertScan(db, r, c).fault == UniqueViolation
    ensures InsertScan(db, r, c).Done? ==>
              var reserved := ReserveTx(InsertScan(db, r, c).value, c.freshScan, r.session, r.networks, r.now);
              && InsertScan(db, r, c).value.windows == db.windows
              && (reserved.Done? <==> !WindowsAhead(db.windows, r.session, r.networks, r.now))
              && (reserved.Throw? ==> reserved.fault == AbuseState)
              && (reserved.Done? && reserved.value.NotReserved? ==> reserved.value.admission.Refuse?)
              && (reserved.Done? && reserved.value.Reserved? ==>
                    && Inv(reserved.value.db)
                    && reserved.value.db.groups == db.groups[c.freshScan := NewGroup(r, c)]
                    && reserved.value.db.index == db.index[(r.session, r.key) := c.freshScan]
                    && reserved.value.db.paused == db.paused
                    && reserved.value.db.windows == AdmittedWindows(db.windows, r.session, r.networks[0], r.now)
                    && Admitted(InsertScan(db, r, c).value, r.session, r.networks, r.now)
                    && (forall k | k in WindowSpecs(r.session, r.networks[0]) ::
                          0 <= RefreshedWindow(db.windows, k, r.now).count < WindowLimit(k.dimension)))
  {
    hide Inv, GroupOk, Balanced, WithinLimits, WindowsOk, ReserveTx, ValidId, WindowsAhead, ScanCheck, Admitted,
         RefreshedWindow, AdmittedWindows;
    NewGroupOk(r, c);
    InvLedgerParts(db);
    if InsertScan(db, r, c).Done? {
      var db2 := InsertScan(db, r, c).value;
      var bare := ScanGroup(NewScan(r, c), map[], None, None);
      BalancedWith(db.active, db.groups, c.freshScan, bare);
      ReserveExactly(db2, c.freshScan, r.session, r.networks, r.now);
      var reserved := ReserveTx(db2, c.freshScan, r.session, r.networks, r.now);
      if reserved.Done? && reserved.value.Reserved? {
        ReserveEffect(db2, c.freshScan, r.session, r.networks, r.now);
        var db3 := reserved.value.db;
        assert db3.groups == db.groups[c.freshScan := NewGroup(r, c)];
        AdditionKeepsInv(db, db3, c.freshScan, NewGroup(r, c));
      }
    }
  }

  /** Create keeps the invariant; it is rolled back exactly when the replaced
      scan still holds quota past its deletion deadline, the new id is taken, or
      a window row is ahead of the clock. */
  lemma CreateEffect(db: Db, r: CreateRequest, c: CreateInputs)
    requires Inv(db) && ValidCreateRequest(r)
    ensures var out := CreateTx(db, r, c);
            && (out.Throw? <==>
                  && NeedsNewScan(db, r, c)
                  && (ReplacesTooLate(db, r) || FreshIdTaken(db, r, c)
                      || WindowsAhead(db.windows, r.session, r.networks, r.now)))
            && (out.Throw? ==> out.fault in {AbuseRelease, UniqueViolation, AbuseState})
            && (out.Done? ==> Inv(out.value.0))
            && (out.Done? && !out.value.1.ScanCreated? ==> out.value.0 == db)
            && (out.Done? && out.value.1.ScanCreated? ==>
                  && NeedsNewScan(db, r, c) && !ReplacesTooLate(db, r) && !FreshIdTaken(db, r, c)
                  && (forall x :: x in out.value.0.groups <==>
                        x == c.freshScan || (x in db.groups && !Predecessor(db, r, x)))
                  && out.value.0.groups[c.freshScan] == NewGroup(r, c)
                  && (forall x | x in out.value.0.groups && x != c.freshScan ::
                        x in db.groups && out.value.0.groups[x] == db.groups[x])
                  && out.value.1.scan == c.freshScan
                  && out.value.0.windows == AdmittedWindows(db.windows, r.session, r.networks[0], r.now)
                  && (forall k | k in WindowSpecs(r.session, r.networks[0]) ::
                        0 <= RefreshedWindow(db.windows, k, r.now).count < WindowLimit(k.dimension))
                  && out.value.0.paused == db.paused)
  {
    hide Inv, ReserveTx, ReleaseReplaced, InsertScan, WindowsAhead, ReplacesTooLate, ValidId, Existing,
         RefreshedWindow, AdmittedWindows;
    ExistingFacts(db, r.session, r.key);
    if NeedsNewScan(db, r, c) {
      ClearedEffect(db, r, c);
      var cleared := ReleaseReplaced(db, Existing(db, r.session, r.key), r.now);
      if cleared.Done? {
        InsertedEffect(cleared.value, r, c);
      }
    }
  }
}
