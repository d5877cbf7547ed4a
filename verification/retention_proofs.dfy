/** Retention batches: they keep the invariant, never find the ledger
    inconsistent, and when repeated delete exactly what is due. */
module RetentionProofs {
  import opened Basics
  import opened Tables
  import opened Quota
  import opened Transactions
  import opened Invariant
  import opened LedgerProofs
  import opened StepProofs
  import opened CreateProofs

  /** Returning a due scan's quota: two decrements when it is still charged. */
  lemma ReleaseDueEffect(db: Db, id: Id)
    requires Inv(db) && id in db.groups
    ensures var (active, decrements, inconsistencies) := ReleaseDue(db.active, db.groups[id].reservation);
            && Balanced(active, db.groups - {id}) && WithinLimits(active)
            && decrements == (if Unreleased(db.groups[id]) then 2 else 0)
            && inconsistencies == 0
  {
    hide Inv, GroupOk, Balanced, WithinLimits, Decrement;
    InvGroup(db, id);
    ReservationTimes(id, db.groups[id]);
    if Unreleased(db.groups[id]) {
      DischargeBalances(db.active, db.groups, db.groups - {id}, id);
    } else {
      BalancedWithout(db.active, db.groups, id);
    }
  }

  ghost function Charged(db: Db, due: seq<Id>): nat
    requires forall i | 0 <= i < |due| :: due[i] in db.groups
  {
    if due == [] then 0
    else Charged(db, due[..|due| - 1]) + (if Unreleased(db.groups[due[|due| - 1]]) then 1 else 0)
  }

  lemma {:induction false} DeleteDueEffect(db: Db, due: seq<Id>)
    requires Inv(db)
    requires forall i | 0 <= i < |due| :: due[i] in db.groups
    requires forall i, j | 0 <= i < j < |due| :: due[i] != due[j]
    ensures var (db', decrements, inconsistencies) := DeleteDue(db, due);
            && Inv(db')
            && decrements == 2 * Charged(db, due) <= 2 * |due|
            && inconsistencies == 0
            && db'.windows == db.windows && db'.paused == db.paused
            && forall x | x in db'.groups :: x in db.groups && db'.groups[x] == db.groups[x]
  {
    hide Inv, ReleaseDue;
    if due != [] {
      var init := due[..|due| - 1];
      var id := due[|due| - 1];
      DeleteDueEffect(db, init);
      var before := DeleteDue(db, init).0;
      assert id in before.groups;
      ReleaseDueEffect(before, id);
      RemovalKeepsInv(before, id, ReleaseDue(before.active, before.groups[id].reservation).0);
    }
  }

  lemma DeleteWindowsKeepsInv(db: Db, stale: seq<WindowKey>)
    requires Inv(db)
    ensures Inv(DeleteWindows(db, stale))
  {
    hide GroupOk, Balanced, WithinLimits, AttemptsApart;
  }

  /** One batch: exactly the selected rows go, two decrements for each charged
      scan, and nothing inconsistent to report. */
  lemma RetainEffect(db: Db, now: int, batch: nat, visitScans: seq<Id>, visitWindows: seq<WindowKey>)
    requires Inv(db)
    ensures var (db', totals) := RetainTx(db, now, batch, visitScans, visitWindows);
            var due := SelectDue(db, visitScans, now, batch);
            && Inv(db')
            && totals.inconsistencies == 0 && !totals.alert
            && totals.dueSelected == totals.scansDeleted == |due| <= batch
            && totals.decrements == 2 * Charged(db, due)
            && totals.decrements <= 2 * totals.scansDeleted
            && totals.staleWindows <= batch
            && (forall x :: x in db'.groups <==> x in db.groups && x !in due)
            && (forall x | x in db'.groups :: db'.groups[x] == db.groups[x])
            && (forall k | k in db'.windows :: k in db.windows && db'.windows[k] == db.windows[k])
            && (forall k | k in db.windows && k !in db'.windows :: StaleWindow(db, k, now))
            && db'.paused == db.paused
  {
    hide Inv;
    var due := SelectDue(db, visitScans, now, batch);
    DeleteDueEffect(db, due);
    var db1 := DeleteDue(db, due).0;
    DeleteWindowsKeepsInv(db1, SelectStale(db1, visitWindows, now, batch));
  }

  /** Of the scans: those past their deletion deadline, among the visited. */
  ghost predicate DeletesDue(before: map<Id, ScanGroup>, after: map<Id, ScanGroup>, now: int, batch: nat, visit: seq<Id>, deleted: int) {
    && (forall x | x in before && x !in after :: x in visit && before[x].scan.deletion <= now)
    && deleted == |before.Keys - after.Keys|
    && (deleted < batch ==>
          forall x | x in before && x in visit && before[x].scan.deletion <= now :: x !in after)
  }

  /** Of the windows: those that have ended, among the visited. */
  ghost predicate DeletesStale(before: Windows, after: Windows, now: int, batch: nat, visit: seq<WindowKey>, deleted: int) {
    && (forall k | k in before && k !in after :: k in visit && before[k].reset <= now)
    && deleted == |before.Keys - after.Keys|
    && (deleted < batch ==>
          forall k | k in before && k in visit && before[k].reset <= now :: k !in after)
  }

  lemma DueDeleted(db: Db, now: int, batch: nat, visit: seq<Id>)
    requires Inv(db)
    ensures var due := SelectDue(db, visit, now, batch);
            DeletesDue(db.groups, DeleteDue(db, due).0.groups, now, batch, visit, |due|)
  {
    hide Inv, DeleteDue, SelectDue;
    var due := SelectDue(db, visit, now, batch);
    DeleteDueEffect(db, due);
    var db' := DeleteDue(db, due).0;
    DistinctSize(due);
    assert db.groups.Keys - db'.groups.Keys == SetOf(due);
    if |due| < batch {
      AllDueSelected(db, now, batch, visit);
    }
  }

  lemma AllDueSelected(db: Db, now: int, batch: nat, visit: seq<Id>)
    requires |SelectDue(db, visit, now, batch)| < batch
    ensures forall x | x in db.groups && x in visit && db.groups[x].scan.deletion <= now :: x in SelectDue(db, visit, now, batch)
  {
    hide SelectDue;
    forall x | x in db.groups && x in visit && db.groups[x].scan.deletion <= now
      ensures x in SelectDue(db, visit, now, batch)
    {
      var i :| 0 <= i < |visit| && visit[i] == x;
      assert DueScan(db, visit[i], now);
    }
  }

  lemma StaleDeleted(db: Db, now: int, batch: nat, visit: seq<WindowKey>)
    ensures var stale := SelectStale(db, visit, now, batch);
            DeletesStale(db.windows, DeleteWindows(db, stale).windows, now, batch, visit, |stale|)
  {
    hide SelectStale, SetOf, DeleteWindows;
    var stale := SelectStale(db, visit, now, batch);
    DistinctSize(stale);
    KeysDeleted(db, stale);
    if |stale| < batch {
      AllStaleSelected(db, now, batch, visit);
    }
  }

  lemma KeysDeleted(db: Db, stale: seq<WindowKey>)
    requires forall i | 0 <= i < |stale| :: stale[i] in db.windows
    ensures var db' := DeleteWindows(db, stale);
            && db.windows.Keys - db'.windows.Keys == SetOf(stale)
            && forall k | k in db.windows :: k in db'.windows <==> k !in stale
  {
  }

  lemma AllStaleSelected(db: Db, now: int, batch: nat, visit: seq<WindowKey>)
    requires |SelectStale(db, visit, now, batch)| < batch
    ensures forall k | k in db.windows && k in visit && db.windows[k].reset <= now ::
              k in SelectStale(db, visit, now, batch)
  {
    hide SelectStale;
    forall k | k in db.windows && k in visit && db.windows[k].reset <= now
      ensures k in SelectStale(db, visit, now, batch)
    {
      var i :| 0 <= i < |visit| && visit[i] == k;
      assert StaleWindow(db, visit[i], now);
    }
  }

  /** A batch deletes scans past their deletion deadline and windows that have ended,
      among those visited, no more than the batch size of each and all of them when
      they are fewer; the totals count them and say whether any is left anywhere. */
  lemma RetainMeans(db: Db, now: int, batch: nat, visitScans: seq<Id>, visitWindows: seq<WindowKey>)
    requires Inv(db)
    ensures var (db', totals) := RetainTx(db, now, batch, visitScans, visitWindows);
            && totals.observedAt == now
            && DeletesDue(db.groups, db'.groups, now, batch, visitScans, totals.scansDeleted)
            && DeletesStale(db.windows, db'.windows, now, batch, visitWindows, totals.staleWindows)
            && (totals.moreWork <==>
                  || (exists x | x in db'.groups :: db'.groups[x].scan.deletion <= now)
                  || exists k | k in db'.windows :: db'.windows[k].reset <= now)
  {
    hide Inv, DeleteDue, SelectDue, SelectStale, MoreWork, DeletesDue, DeletesStale;
    var due := SelectDue(db, visitScans, now, batch);
    DeleteDueEffect(db, due);
    var db1 := DeleteDue(db, due).0;
    DueDeleted(db, now, batch, visitScans);
    StaleDeleted(db1, now, batch, visitWindows);
    MoreWorkIs(RetainTx(db, now, batch, visitScans, visitWindows).0, now);
  }

  lemma MoreWorkIs(db: Db, now: int)
    ensures MoreWork(db, now) <==>
              || (exists x | x in db.groups :: db.groups[x].scan.deletion <= now)
              || exists k | k in db.windows :: db.windows[k].reset <= now
  {
    if x :| x in db.groups && db.groups[x].scan.deletion <= now {
      assert DueScan(db, x, now);
    }
    if k :| k in db.windows && db.windows[k].reset <= now {
      assert StaleWindow(db, k, now);
    }
  }

  // ---- repeated batches ---------------------------------------------------

  ghost function DueSet(db: Db, now: int): set<Id> {
    set id | id in db.groups && DueScan(db, id, now)
  }

  ghost function StaleSet(db: Db, now: int): set<WindowKey> {
    set k | k in db.windows && StaleWindow(db, k, now)
  }

  /** Nothing that is due is locked by another transaction. */
  ghost predicate Unlocked(db: Db, now: int, visitScans: seq<Id>, visitWindows: seq<WindowKey>) {
    && (forall id | id in DueSet(db, now) :: id in visitScans)
    && (forall k | k in StaleSet(db, now) :: k in visitWindows)
  }

  ghost function SetOf<T>(s: seq<T>): set<T> {
    set x | x in s
  }

  lemma {:induction false} DistinctSize<T>(s: seq<T>)
    requires forall i, j | 0 <= i < j < |s| :: s[i] != s[j]
    ensures |SetOf(s)| == |s|
  {
    if s != [] {
      var init := s[..|s| - 1];
      DistinctSize(init);
      assert SetOf(s) == SetOf(init) + {s[|s| - 1]};
    }
  }

  /** A limited selection from `all` takes everything or exactly `limit`. */
  lemma SelectionSize<T>(all: set<T>, picked: seq<T>, limit: nat)
    requires forall i, j | 0 <= i < j < |picked| :: picked[i] != picked[j]
    requires SetOf(picked) <= all && |picked| <= limit
    requires |picked| < limit ==> SetOf(picked) == all
    ensures |all - SetOf(picked)| == (if |all| > limit then |all| - limit else 0)
    ensures |all - SetOf(picked)| < |all| || all == {} || limit == 0
  {
    DistinctSize(picked);
    assert |all| == |SetOf(picked)| + |all - SetOf(picked)| by {
      assert all == SetOf(picked) + (all - SetOf(picked));
    }
  }

  function Remaining(n: int, limit: int): int {
    if n > limit then n - limit else 0
  }

  /** An unlocked batch removes `batch` of the due scans and of the stale windows,
      or all of them, and reports whether any is left. */
  lemma UnlockedBatch(db: Db, now: int, batch: nat, visitScans: seq<Id>, visitWindows: seq<WindowKey>)
    requires Inv(db) && Unlocked(db, now, visitScans, visitWindows)
    ensures var (db', totals) := RetainTx(db, now, batch, visitScans, visitWindows);
            && |DueSet(db', now)| == Remaining(|DueSet(db, now)|, batch)
            && |StaleSet(db', now)| == Remaining(|StaleSet(db, now)|, batch)
            && (totals.moreWork <==> DueSet(db', now) != {} || StaleSet(db', now) != {})
  {
    hide Inv, DueScan, StaleWindow, SetOf, DeleteDue, DeleteWindows;
    var due := SelectDue(db, visitScans, now, batch);
    var db1 := DeleteDue(db, due).0;
    BatchDue(db, now, batch, visitScans);
    var stale := SelectStale(db1, visitWindows, now, batch);
    var db2 := DeleteWindows(db1, stale);
    BatchStale(db1, now, batch, visitWindows);
    MoreWorkMeans(db2, now);
  }

  lemma BatchDue(db: Db, now: int, batch: nat, visit: seq<Id>)
    requires Inv(db)
    requires forall id | id in DueSet(db, now) :: id in visit
    ensures var db1 := DeleteDue(db, SelectDue(db, visit, now, batch)).0;
            && |DueSet(db1, now)| == Remaining(|DueSet(db, now)|, batch)
            && StaleSet(db1, now) == StaleSet(db, now)
  {
    hide Inv, DeleteDue, SelectDue;
    var due := SelectDue(db, visit, now, batch);
    var db1 := DeleteDue(db, due).0;
    DeleteDueEffect(db, due);
    SelectedDue(db, now, batch, visit);
    SelectionSize(DueSet(db, now), due, batch);
    forall x
      ensures x in DueSet(db1, now) <==> x in DueSet(db, now) - SetOf(due)
    {
      assert x in db1.groups <==> x in db.groups && x !in due;
      assert x in db1.groups ==> db1.groups[x] == db.groups[x];
      assert x in SetOf(due) <==> x in due;
    }
    assert DueSet(db1, now) == DueSet(db, now) - SetOf(due);
  }

  lemma BatchStale(db: Db, now: int, batch: nat, visit: seq<WindowKey>)
    requires forall k | k in StaleSet(db, now) :: k in visit
    ensures var db' := DeleteWindows(db, SelectStale(db, visit, now, batch));
            && |StaleSet(db', now)| == Remaining(|StaleSet(db, now)|, batch)
            && DueSet(db', now) == DueSet(db, now)
  {
    hide StaleSet, DueSet, SelectStale, DeleteWindows;
    var stale := SelectStale(db, visit, now, batch);
    SelectedStale(db, now, batch, visit);
    SelectionSize(StaleSet(db, now), stale, batch);
    DeletedStale(db, now, stale);
  }

  lemma DeletedStale(db: Db, now: int, stale: seq<WindowKey>)
    ensures StaleSet(DeleteWindows(db, stale), now) == StaleSet(db, now) - SetOf(stale)
    ensures DueSet(DeleteWindows(db, stale), now) == DueSet(db, now)
  {
  }

  lemma MoreWorkMeans(db: Db, now: int)
    ensures MoreWork(db, now) <==> DueSet(db, now) != {} || StaleSet(db, now) != {}
  {
    if exists id | id in db.groups :: DueScan(db, id, now) {
      var id :| id in db.groups && DueScan(db, id, now);
      assert id in DueSet(db, now);
    }
    if exists k | k in db.windows :: StaleWindow(db, k, now) {
      var k :| k in db.windows && StaleWindow(db, k, now);
      assert k in StaleSet(db, now);
    }
  }

  lemma SelectedDue(db: Db, now: int, batch: nat, visit: seq<Id>)
    requires forall id | id in DueSet(db, now) :: id in visit
    ensures var due := SelectDue(db, visit, now, batch);
            SetOf(due) <= DueSet(db, now) && (|due| < batch ==> SetOf(due) == DueSet(db, now))
  {
  }

  lemma SelectedStale(db: Db, now: int, batch: nat, visit: seq<WindowKey>)
    requires forall k | k in StaleSet(db, now) :: k in visit
    ensures var stale := SelectStale(db, visit, now, batch);
            SetOf(stale) <= StaleSet(db, now) && (|stale| < batch ==> SetOf(stale) == StaleSet(db, now))
  {
  }

  datatype Visit = Visit(scans: seq<Id>, windows: seq<WindowKey>)

  /** The state after one batch per visit, all at the same time. */
  function Batches(db: Db, now: int, batch: nat, visits: seq<Visit>): Db {
    if visits == [] then db
    else
      var before := Batches(db, now, batch, visits[..|visits| - 1]);
      RetainTx(before, now, batch, visits[|visits| - 1].scans, visits[|visits| - 1].windows).0
  }

  /** Every batch of the series sees all the rows that are due when it runs. */
  ghost predicate AllUnlocked(db: Db, now: int, batch: nat, visits: seq<Visit>) {
    forall i | 0 <= i < |visits| ::
      Unlocked(Batches(db, now, batch, visits[..i]), now, visits[i].scans, visits[i].windows)
  }

  ghost function Times(n: nat, batch: nat): nat {
    if n == 0 then 0 else Times(n - 1, batch) + batch
  }

  lemma {:induction false} BatchesEffect(db: Db, now: int, batch: nat, visits: seq<Visit>)
    requires Inv(db) && AllUnlocked(db, now, batch, visits)
    ensures var db' := Batches(db, now, batch, visits);
            && Inv(db')
            && |DueSet(db', now)| == Remaining(|DueSet(db, now)|, Times(|visits|, batch))
            && |StaleSet(db', now)| == Remaining(|StaleSet(db, now)|, Times(|visits|, batch))
            && (forall x | x in db'.groups :: x in db.groups && db'.groups[x] == db.groups[x])
            && (forall x | x in db.groups && x !in db'.groups :: DueScan(db, x, now))
            && (forall k | k in db'.windows :: k in db.windows && db'.windows[k] == db.windows[k])
            && (forall k | k in db.windows && k !in db'.windows :: StaleWindow(db, k, now))
  {
    hide Inv, Unlocked, RetainTx;
    if visits != [] {
      var n := |visits| - 1;
      var init := visits[..n];
      assert forall i | 0 <= i < |init| :: init[..i] == visits[..i];
      BatchesEffect(db, now, batch, init);
      var before := Batches(db, now, batch, init);
      RetainEffect(before, now, batch, visits[n].scans, visits[n].windows);
      UnlockedBatch(before, now, batch, visits[n].scans, visits[n].windows);
    }
  }

  /** Enough batches at one time delete every due scan and every stale window,
      and leave every other row exactly as it was. */
  lemma DrainsExactly(db: Db, now: int, batch: nat, visits: seq<Visit>)
    requires Inv(db) && AllUnlocked(db, now, batch, visits)
    requires |DueSet(db, now)| <= Times(|visits|, batch) && |StaleSet(db, now)| <= Times(|visits|, batch)
    ensures var db' := Batches(db, now, batch, visits);
            && !MoreWork(db', now)
            && db'.groups == db.groups - DueSet(db, now)
            && db'.windows == db.windows - StaleSet(db, now)
  {
    hide Inv, AllUnlocked, Batches;
    BatchesEffect(db, now, batch, visits);
    var db' := Batches(db, now, batch, visits);
    MoreWorkMeans(db', now);
    forall x
      ensures x in db'.groups <==> x in db.groups && x !in DueSet(db, now)
    {
      assert x in db'.groups && x in DueSet(db, now) ==> x in DueSet(db', now);
    }
    forall k
      ensures k in db'.windows <==> k in db.windows && k !in StaleSet(db, now)
    {
      assert k in db'.windows && k in StaleSet(db, now) ==> k in StaleSet(db', now);
    }
  }
}
