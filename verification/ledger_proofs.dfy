/** The quota ledger under reserve, release and group replacement. */
module LedgerProofs {
  import opened Basics
  import opened ScanProtocol
  import opened Tables
  import opened Quota
  import opened Transactions
  import opened Invariant

  /** Replacing a group by one with the same charge leaves the ledger alone. */
  lemma SameCharge(groups: map<Id, ScanGroup>, id: Id, g: ScanGroup, k: ActiveKey)
    requires id in groups
    requires Holds(groups[id], k) <==> Holds(g, k)
    ensures Holders(groups[id := g], k) == Holders(groups, k)
  {
  }

  lemma BalancedSameCharge(active: Active, groups: map<Id, ScanGroup>, id: Id, g: ScanGroup)
    requires Balanced(active, groups)
    requires id in groups && g.reservation == groups[id].reservation
    ensures Balanced(active, groups[id := g])
  {
    forall k {:trigger LedgerRow(active, groups[id := g], k)}
      ensures LedgerRow(active, groups[id := g], k)
    {
      assert LedgerRow(active, groups, k);
      SameCharge(groups, id, g, k);
    }
  }

  lemma HoldersDrop(groups: map<Id, ScanGroup>, groups': map<Id, ScanGroup>, id: Id, k: ActiveKey)
    requires id in groups && Holds(groups[id], k)
    requires forall x | x != id :: x in groups' <==> x in groups
    requires forall x | x != id && x in groups :: groups'[x].reservation == groups[x].reservation
    requires id in groups' ==> !Holds(groups'[id], k)
    ensures Holders(groups', k) == Holders(groups, k) - {id}
    ensures |Holders(groups', k)| == |Holders(groups, k)| - 1
  {
    assert Holders(groups', k) == Holders(groups, k) - {id};
  }

  /** A charged key has a positive counter, so its decrement succeeds. */
  lemma DecrementSucceeds(active: Active, groups: map<Id, ScanGroup>, id: Id, k: ActiveKey)
    requires LedgerRow(active, groups, k)
    requires id in groups && Holds(groups[id], k)
    ensures Decrement(active, k).Some?
    ensures k in active
  {
    assert id in Holders(groups, k);
  }

  /** Returning both charges of one scan rebalances the ledger. */
  lemma DischargeBalances(active: Active, groups: map<Id, ScanGroup>, groups': map<Id, ScanGroup>, id: Id)
    requires Balanced(active, groups) && WithinLimits(active)
    requires id in groups && Unreleased(groups[id])
    requires forall x | x != id :: x in groups' <==> x in groups
    requires forall x | x != id && x in groups :: groups'[x].reservation == groups[x].reservation
    requires id in groups' ==> !Unreleased(groups'[id])
    ensures var r := groups[id].reservation.value;
            && Decrement(active, NetworkActive(r.network)).Some?
            && Decrement(active, SessionActive(r.session)).Some?
            && var one := Decrement(active, NetworkActive(r.network)).value;
               var other := Decrement(active, SessionActive(r.session)).value;
               && Decrement(one, SessionActive(r.session)).Some?
               && Decrement(other, NetworkActive(r.network)) == Decrement(one, SessionActive(r.session))
               && Balanced(Decrement(one, SessionActive(r.session)).value, groups')
               && WithinLimits(Decrement(one, SessionActive(r.session)).value)
  {
    var r := groups[id].reservation.value;
    var nk, sk := NetworkActive(r.network), SessionActive(r.session);
    assert LedgerRow(active, groups, nk) && LedgerRow(active, groups, sk);
    DecrementSucceeds(active, groups, id, nk);
    DecrementSucceeds(active, groups, id, sk);
    BothDecrements(active, nk, sk);
    var both := Decrement(Decrement(active, nk).value, sk).value;
    forall k
      ensures LedgerRow(both, groups', k)
    {
      assert LedgerRow(active, groups, k);
      if k == nk || k == sk {
        HoldersDrop(groups, groups', id, k);
      } else {
        assert Holders(groups', k) == Holders(groups, k);
      }
    }
    hide Decrement, LedgerRow, Holds;
  }

  /** Two different counters may be decremented in either order. */
  lemma BothDecrements(active: Active, nk: ActiveKey, sk: ActiveKey)
    requires nk != sk && nk in active && sk in active && Decrement(active, nk).Some? && Decrement(active, sk).Some?
    ensures var one, other := Decrement(active, nk).value, Decrement(active, sk).value;
            && Decrement(one, sk).Some? && Decrement(other, nk) == Decrement(one, sk)
            && var both := Decrement(one, sk).value;
               forall k ::
                 && (k == nk || k == sk ==> (k in both <==> active[k] > 1) && (k in both ==> both[k] == active[k] - 1))
                 && (k != nk && k != sk ==> (k in both <==> k in active) && (k in both ==> both[k] == active[k]))
  {
    var one, other := Decrement(active, nk).value, Decrement(active, sk).value;
    assert Decrement(one, sk).value == Decrement(other, nk).value;
  }

  /** Release succeeds exactly when the scan has a reservation and, if that is
      still charged, the clock lies within its lifetime; it keeps the balance. */
  lemma ReleaseEffect(db: Db, id: Id, now: int, reason: ReleaseReason)
    requires Balanced(db.active, db.groups) && WithinLimits(db.active)
    requires id in db.groups && db.groups[id].reservation.Some?
    ensures ReleaseTx(db, id, now, reason).Some? <==>
            !Unreleased(db.groups[id])
            || db.groups[id].reservation.value.reservedAt <= now <= db.groups[id].reservation.value.deletion
    ensures ReleaseTx(db, id, now, reason).Some? ==>
              var db' := ReleaseTx(db, id, now, reason).value;
              && Balanced(db'.active, db'.groups) && WithinLimits(db'.active)
              && db' == db.(active := db'.active, groups := db'.groups)
              && id in db'.groups
              && db'.groups == db.groups[id := db'.groups[id]]
              && !Unreleased(db'.groups[id])
              && db'.groups[id].reservation.Some?
              && db'.groups[id] == db.groups[id].(reservation := db'.groups[id].reservation)
              && (if !Unreleased(db.groups[id]) then db' == db
                  else db'.groups[id].reservation.value
                       == db.groups[id].reservation.value.(released := Some((now, reason))))
  {
    var r := db.groups[id].reservation.value;
    if Unreleased(db.groups[id]) && r.reservedAt <= now <= r.deletion {
      var g := db.groups[id].(reservation := Some(r.(released := Some((now, reason)))));
      DischargeBalances(db.active, db.groups, db.groups[id := g], id);
    } else if !Unreleased(db.groups[id]) {
      assert db.groups == db.groups[id := db.groups[id]];
    }
  }

  // ---- reservation --------------------------------------------------------

  /** The summed usage of the listed digests is at least that of each. */
  lemma NetworkUsageCovers(active: Active, digests: seq<Digest>, i: nat)
    requires i < |digests|
    requires forall j | 0 <= j < |digests| :: SaneActive(active, NetworkActive(digests[j]))
    ensures NetworkUsage(active, digests) >= ActiveOf(active, NetworkActive(digests[i])) >= 0
  {
    var init := digests[..|digests| - 1];
    if i < |digests| - 1 {
      NetworkUsageCovers(active, init, i);
    } else if |init| > 0 {
      NetworkUsageCovers(active, init, 0);
    }
  }

  /** The summed window usage is at least that of each live window. */
  lemma WindowUsageCovers(ws: Windows, d: WindowDimension, digests: seq<Digest>, now: int, i: nat)
    requires i < |digests|
    requires forall j | 0 <= j < |digests| :: SaneWindow(ws, WindowKey(d, digests[j]), now)
    requires LiveWindow(ws, WindowKey(d, digests[i]), now)
    ensures WindowUsage(ws, d, digests, now).Some?
    ensures WindowUsage(ws, d, digests, now).value.count >= ws[WindowKey(d, digests[i])].count
    ensures WindowUsage(ws, d, digests, now).value.reset >= ws[WindowKey(d, digests[i])].reset
  {
    var init := digests[..|digests| - 1];
    WindowUsageNonNegative(ws, d, init, now);
    if i < |digests| - 1 {
      WindowUsageCovers(ws, d, init, now, i);
    }
  }

  lemma WindowUsageNonNegative(ws: Windows, d: WindowDimension, digests: seq<Digest>, now: int)
    requires forall j | 0 <= j < |digests| :: SaneWindow(ws, WindowKey(d, digests[j]), now)
    ensures WindowUsage(ws, d, digests, now).Some? ==>
              && WindowUsage(ws, d, digests, now).value.count >= 0
              && now < WindowUsage(ws, d, digests, now).value.reset <= now + WindowSeconds(d)
  {
    if digests != [] {
      WindowUsageNonNegative(ws, d, digests[..|digests| - 1], now);
    }
  }

  lemma HoldersGain(groups: map<Id, ScanGroup>, id: Id, g: ScanGroup, k: ActiveKey)
    requires id in groups && !Holds(groups[id], k) && Holds(g, k)
    ensures |Holders(groups[id := g], k)| == |Holders(groups, k)| + 1
  {
    assert Holders(groups[id := g], k) == Holders(groups, k) + {id};
  }

  /** The components of a usage snapshot that was loaded without a fault. */
  lemma LoadedUsage(ws: Windows, active: Active, session: Digest, networks: seq<Digest>, now: int)
    requires LoadUsage(ws, active, session, networks, now).Done?
    ensures var u := LoadUsage(ws, active, session, networks, now).value;
            && Some(u.sessionBurst) == WindowUsage(ws, SessionBurst, [session], now)
            && Some(u.sessionDaily) == WindowUsage(ws, SessionDaily, [session], now)
            && Some(u.networkBurst) == WindowUsage(ws, NetworkBurst, networks, now)
            && Some(u.networkDaily) == WindowUsage(ws, NetworkDaily, networks, now)
            && u.sessionActive == ActiveOf(active, SessionActive(session))
            && u.networkActive == NetworkUsage(active, networks)
    ensures SaneRows(ws, session, networks, now)
    ensures SaneActive(active, SessionActive(session))
    ensures forall i | 0 <= i < |networks| :: SaneActive(active, NetworkActive(networks[i]))
  {
  }

  /** An admitted request found every dimension below its limit. */
  lemma AdmittedBelowLimits(paused: bool, u: UsageSnapshot, now: int)
    requires DecideAdmission(paused, u, now).Admit?
    ensures u.sessionActive < SESSION_CONCURRENCY && u.networkActive < NETWORK_CONCURRENCY
    ensures u.sessionBurst.count < WindowLimit(SessionBurst) && u.sessionDaily.count < WindowLimit(SessionDaily)
    ensures u.networkBurst.count < WindowLimit(NetworkBurst) && u.networkDaily.count < WindowLimit(NetworkDaily)
  {
  }

  /** The row of the active digest has room when the summed usage has. */
  lemma WindowHasRoom(ws: Windows, d: WindowDimension, digests: seq<Digest>, now: int)
    requires digests != []
    requires forall j | 0 <= j < |digests| :: SaneWindow(ws, WindowKey(d, digests[j]), now)
    requires LiveWindow(ws, WindowKey(d, digests[0]), now)
    requires WindowUsage(ws, d, digests, now).Some? ==>
               WindowUsage(ws, d, digests, now).value.count < WindowLimit(d)
    ensures 0 <= ws[WindowKey(d, digests[0])].count < WindowLimit(d)
  {
    assert SaneWindow(ws, WindowKey(d, digests[0]), now);
    WindowUsageCovers(ws, d, digests, now, 0);
  }

  lemma RefreshedIsLive(ws: Windows, keys: seq<WindowKey>, k: WindowKey, now: int)
    requires k in keys
    ensures LiveWindow(RefreshWindows(ws, keys, now), k, now)
    ensures RefreshWindows(ws, keys, now)[k] == RefreshedWindow(ws, k, now)
  {
  }

  lemma RefreshedElsewhere(ws: Windows, keys: seq<WindowKey>, k: WindowKey, now: int)
    requires k !in keys
    ensures k in RefreshWindows(ws, keys, now) <==> k in ws
    ensures k in ws ==> RefreshWindows(ws, keys, now)[k] == ws[k]
  {
  }

  ghost predicate Admitted(db: Db, session: Digest, networks: seq<Digest>, now: int) {
    && networks != []
    && var ws := RefreshWindows(db.windows, WindowSpecs(session, networks[0]), now);
       var active := ZeroActive(db.active, ActiveSpecs(session, networks[0]));
       var loaded := LoadUsage(ws, active, session, networks, now);
       loaded.Done? && DecideAdmission(db.paused, loaded.value, now).Admit?
  }

  lemma AdmittedActiveRoom(db: Db, session: Digest, networks: seq<Digest>, now: int)
    requires Admitted(db, session, networks, now)
    ensures ActiveOf(db.active, SessionActive(session)) < SESSION_CONCURRENCY
    ensures ActiveOf(db.active, NetworkActive(networks[0])) < NETWORK_CONCURRENCY
  {
    var ws := RefreshWindows(db.windows, WindowSpecs(session, networks[0]), now);
    var active := ZeroActive(db.active, ActiveSpecs(session, networks[0]));
    LoadedUsage(ws, active, session, networks, now);
    AdmittedBelowLimits(db.paused, LoadUsage(ws, active, session, networks, now).value, now);
    NetworkUsageCovers(active, networks, 0);
  }

  lemma AdmittedWindowRoom(db: Db, session: Digest, networks: seq<Digest>, now: int, k: WindowKey)
    requires Admitted(db, session, networks, now)
    requires k in WindowSpecs(session, networks[0])
    ensures 0 <= RefreshedWindow(db.windows, k, now).count < WindowLimit(k.dimension)
  {
    var keys := WindowSpecs(session, networks[0]);
    var ws := RefreshWindows(db.windows, keys, now);
    var active := ZeroActive(db.active, ActiveSpecs(session, networks[0]));
    LoadedUsage(ws, active, session, networks, now);
    AdmittedBelowLimits(db.paused, LoadUsage(ws, active, session, networks, now).value, now);
    RefreshedIsLive(db.windows, keys, k, now);
    var digests := if k.dimension in {NetworkBurst, NetworkDaily} then networks else [session];
    assert k == WindowKey(k.dimension, digests[0]);
    WindowHasRoom(ws, k.dimension, digests, now);
  }

  /** Window rows after an admission: one more in each of the four rows. */
  lemma WindowsAfterAdmission(before: Windows, session: Digest, network: Digest, now: int, k: WindowKey)
    ensures var ws := AdmittedWindows(before, session, network, now);
            if k in WindowSpecs(session, network) then
              k in ws && ws[k] == Window(RefreshedWindow(before, k, now).count + 1, RefreshedWindow(before, k, now).reset)
            else (k in ws <==> k in before) && (k in ws ==> ws[k] == before[k])
  {
    if k in WindowSpecs(session, network) {
      RefreshedIsLive(before, WindowSpecs(session, network), k, now);
    } else {
      RefreshedElsewhere(before, WindowSpecs(session, network), k, now);
    }
  }

  lemma ActiveAfterAdmission(before: Active, session: Digest, network: Digest, k: ActiveKey)
    ensures var active := AdmittedActive(before, session, network);
            && ActiveOf(active, k) == ActiveOf(before, k) + (if k in ActiveSpecs(session, network) then 1 else 0)
            && (k in active <==> k in before || k in ActiveSpecs(session, network))
  {
  }

  lemma ReserveIsAdmission(db: Db, id: Id, session: Digest, networks: seq<Digest>, now: int)
    requires id in db.groups
    requires ReserveTx(db, id, session, networks, now).Done?
    requires ReserveTx(db, id, session, networks, now).value.Reserved?
    ensures Admitted(db, session, networks, now)
    ensures var db' := ReserveTx(db, id, session, networks, now).value.db;
            && db'.windows == AdmittedWindows(db.windows, session, networks[0], now)
            && db'.active == AdmittedActive(db.active, session, networks[0])
            && db'.groups == db.groups[id := db.groups[id].(reservation :=
                 Some(Reservation(session, networks[0], now, now + RETENTION_SECONDS, None)))]
            && db'.index == db.index && db'.paused == db.paused
  {
  }

  /** An admission charges exactly the session and the active network digest,
      stays within every limit and keeps the ledger balanced. */
  lemma ReserveEffect(db: Db, id: Id, session: Digest, networks: seq<Digest>, now: int)
    requires Balanced(db.active, db.groups) && WithinLimits(db.active) && WindowsOk(db.windows)
    requires id in db.groups && db.groups[id].reservation.None?
    requires ReserveTx(db, id, session, networks, now).Done?
    requires ReserveTx(db, id, session, networks, now).value.Reserved?
    ensures var db' := ReserveTx(db, id, session, networks, now).value.db;
            && Balanced(db'.active, db'.groups) && WithinLimits(db'.active) && WindowsOk(db'.windows)
            && db'.groups == db.groups[id := db.groups[id].(reservation :=
                 Some(Reservation(session, networks[0], now, now + RETENTION_SECONDS, None)))]
            && db'.windows == AdmittedWindows(db.windows, session, networks[0], now)
            && db'.index == db.index && db'.paused == db.paused
    ensures forall k | k in WindowSpecs(session, networks[0]) ::
              0 <= RefreshedWindow(db.windows, k, now).count < WindowLimit(k.dimension)
    ensures Admitted(db, session, networks, now)
  {
    ReserveIsAdmission(db, id, session, networks, now);
    AdmittedActiveRoom(db, session, networks, now);
    var db' := ReserveTx(db, id, session, networks, now).value.db;
    var specs := ActiveSpecs(session, networks[0]);
    forall k
      ensures LedgerRow(db'.active, db'.groups, k)
      ensures k in db'.active ==> db'.active[k] <= ActiveLimit(k)
    {
      assert LedgerRow(db.active, db.groups, k);
      ActiveAfterAdmission(db.active, session, networks[0], k);
      if k in specs {
        HoldersGain(db.groups, id, db'.groups[id], k);
      } else {
        SameCharge(db.groups, id, db'.groups[id], k);
      }
    }
    forall k | k in WindowSpecs(session, networks[0])
      ensures 0 <= RefreshedWindow(db.windows, k, now).count < WindowLimit(k.dimension)
    {
      AdmittedWindowRoom(db, session, networks, now, k);
    }
    forall k | k in db'.windows
      ensures 1 <= db'.windows[k].count <= WindowLimit(k.dimension)
    {
      WindowsAfterAdmission(db.windows, session, networks[0], now, k);
    }
  }
}
