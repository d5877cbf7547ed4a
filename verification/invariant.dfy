/** What every committed state satisfies, whatever the clocks and the
    interleaving: the shape of one scan's rows, the quota ledger, the indexes. */
module Invariant {
  import opened Basics
  import opened ScanProtocol
  import opened Tables
  import opened Quota
  import opened Transactions

  // ---- one scan and the rows that reference it ----------------------------

  /** Facts about one attempt that no later transaction disturbs. */
  ghost predicate AttemptShape(g: ScanGroup, a: Id)
    requires a in g.attempts
  {
    var t := g.attempts[a];
    && ValidId(a)
    && AttemptCheck(t)
    && t.state != Created && t.state != Failed
    && t.no == t.fence <= g.scan.fence && t.leaseVersion >= 1
    && (g.scan.current == Some(a) <==> t.fence == g.scan.fence)
    && t.leaseExpires.Some?
    && g.scan.created <= t.created <= g.scan.updated
    && t.hardDeadline <= Min(t.created + HARD_DEADLINE_SECONDS, g.scan.accessExpires)
    && Min(t.created + LEASE_SECONDS, t.hardDeadline) + t.leaseVersion - 1 <= t.leaseExpires.value
    && (t.state == Leased ==> t.leaseVersion == 1)
  }

  ghost predicate GroupShape(id: Id, g: ScanGroup) {
    && ValidId(id)
    && ScanCheck(g.scan)
    && 0 <= g.scan.created
    && g.scan.deletion <= MAX_UNIX_SECONDS
    && g.scan.fence <= MAX_ATTEMPTS
    && (g.scan.current.Some? ==> g.scan.current.value in g.attempts)
    && (g.scan.accepted.Some? ==> ValidIdentity(g.scan.accepted.value))
    && (forall a | a in g.attempts :: AttemptShape(g, a))
    && (forall a, b | a in g.attempts && b in g.attempts && a != b :: g.attempts[a].fence != g.attempts[b].fence)
    && g.reservation.Some?
    && ReservationCheck(g.reservation.value)
    && g.reservation.value.session == g.scan.session
    && g.reservation.value.reservedAt == g.scan.created
    && (g.result.Some? <==> g.scan.job == JobSucceeded)
  }

  ghost predicate Unreleased(g: ScanGroup) {
    g.reservation.Some? && g.reservation.value.released.None?
  }

  /** Only the current attempt of a running job is live, only the accepted
      attempt has succeeded, and quota is held exactly while the job is live. */
  ghost predicate GroupStates(g: ScanGroup) {
    && (forall a | a in g.attempts ::
          && (LiveAttempt(g.attempts[a].state) <==> g.scan.job == JobRunning && g.scan.current == Some(a))
          && (g.attempts[a].state == Succeeded <==> g.scan.job == JobSucceeded && g.scan.current == Some(a)))
    && (Unreleased(g) <==> LiveJob(g.scan.job))
    && (g.result.Some? ==> ResultInsertAllowed(g, g.result.value))
  }

  ghost predicate GroupOk(id: Id, g: ScanGroup) {
    GroupShape(id, g) && GroupStates(g)
  }

  // ---- the quota ledger ---------------------------------------------------

  ghost predicate Holds(g: ScanGroup, k: ActiveKey) {
    && Unreleased(g)
    && (k == SessionActive(g.reservation.value.session) || k == NetworkActive(g.reservation.value.network))
  }

  /** The scans whose quota is charged to `k`. */
  ghost function Holders(groups: map<Id, ScanGroup>, k: ActiveKey): set<Id> {
    set id | id in groups && Holds(groups[id], k)
  }

  ghost predicate LedgerRow(active: Active, groups: map<Id, ScanGroup>, k: ActiveKey) {
    && ActiveOf(active, k) == |Holders(groups, k)|
    && (k in active ==> active[k] > 0)
  }

  ghost predicate Balanced(active: Active, groups: map<Id, ScanGroup>) {
    forall k :: LedgerRow(active, groups, k)
  }

  ghost predicate WithinLimits(active: Active) {
    forall k | k in active :: active[k] <= ActiveLimit(k)
  }

  ghost predicate WindowsOk(ws: Windows) {
    forall k | k in ws :: 1 <= ws[k].count <= WindowLimit(k.dimension)
  }

  // ---- uniqueness over scans ----------------------------------------------

  ghost predicate IndexOk(db: Db) {
    && (forall id | id in db.groups ::
          (db.groups[id].scan.session, db.groups[id].scan.key) in db.index
          && db.index[(db.groups[id].scan.session, db.groups[id].scan.key)] == id)
    && (forall p | p in db.index ::
          db.index[p] in db.groups
          && (db.groups[db.index[p]].scan.session, db.groups[db.index[p]].scan.key) == p)
  }

  ghost predicate AttemptsApart(groups: map<Id, ScanGroup>) {
    forall s, t, a | s in groups && t in groups && a in groups[s].attempts && a in groups[t].attempts :: s == t
  }

  ghost predicate Inv(db: Db) {
    && (forall id | id in db.groups :: GroupOk(id, db.groups[id]))
    && Balanced(db.active, db.groups)
    && WithinLimits(db.active)
    && WindowsOk(db.windows)
    && IndexOk(db)
    && AttemptsApart(db.groups)
  }

  const EMPTY: Db := Db(map[], map[], map[], map[], false)

  lemma EmptyInv()
    ensures Inv(EMPTY)
  {
    forall k
      ensures LedgerRow(EMPTY.active, EMPTY.groups, k)
    {
      assert Holders(EMPTY.groups, k) == {};
    }
  }

  // ---- effects of single statements on one group --------------------------

  /** No live attempt is left and none has succeeded. */
  ghost predicate Retired(g: ScanGroup) {
    forall a | a in g.attempts :: TerminalAttempt(g.attempts[a].state) && g.attempts[a].state != Succeeded
  }

  /** Whether the live attempt's row accepts a write stamped `now`. */
  ghost predicate AttemptClockOk(g: ScanGroup, now: int) {
    g.scan.current.Some? && g.scan.current.value in g.attempts ==> g.attempts[g.scan.current.value].updated <= now
  }

  function FinishedRow(t: Attempt, state: AttemptState, now: int): Attempt {
    t.(state := state, finished := Some(now), updated := now)
  }

  lemma FinishedRowAccepted(t: Attempt, state: AttemptState, now: int)
    requires AttemptCheck(t) && AttemptUpdatePath(t.state, state)
    ensures AttemptCheck(FinishedRow(t, state, now)) && AttemptUpdateAllowed(t, FinishedRow(t, state, now))
            <==> t.updated <= now
  {
  }

  ghost function FinishedGroup(g: ScanGroup, a: Id, state: AttemptState, now: int): ScanGroup
    requires a in g.attempts
  {
    g.(attempts := g.attempts[a := FinishedRow(g.attempts[a], state, now)])
  }

  lemma FinishedAttemptShape(g: ScanGroup, a: Id, state: AttemptState, now: int)
    requires a in g.attempts && AttemptShape(g, a)
    requires AttemptUpdatePath(g.attempts[a].state, state)
    requires g.attempts[a].updated <= now
    ensures AttemptShape(FinishedGroup(g, a, state, now), a)
  {
    FinishedRowAccepted(g.attempts[a], state, now);
  }

  lemma FinishedGroupShape(id: Id, g: ScanGroup, a: Id, state: AttemptState, now: int)
    requires GroupShape(id, g) && a in g.attempts
    requires AttemptUpdatePath(g.attempts[a].state, state)
    requires g.attempts[a].updated <= now
    ensures GroupShape(id, FinishedGroup(g, a, state, now))
  {
    hide AttemptCheck, ScanCheck, ValidId, ReservationCheck, AttemptUpdatePath;
    FinishedAttemptShape(g, a, state, now);
    var g' := FinishedGroup(g, a, state, now);
    forall b | b in g'.attempts
      ensures AttemptShape(g', b)
    {
      assert AttemptShape(g, b);
    }
  }

  /** Finishing the live attempt fails only on a clock behind the row. */
  lemma FinishAttemptEffect(id: Id, g: ScanGroup, a: Id, state: AttemptState, now: int)
    requires GroupOk(id, g) && g.scan.job == JobRunning
    requires g.scan.current == Some(a)
    requires AttemptUpdatePath(g.attempts[a].state, state)
    ensures FinishAttempt(g, a, state, now).Done? <==> g.attempts[a].updated <= now
    ensures FinishAttempt(g, a, state, now).Throw? ==> FinishAttempt(g, a, state, now).fault == ConstraintViolation
    ensures FinishAttempt(g, a, state, now).Done? ==>
              var g' := FinishAttempt(g, a, state, now).value;
              && GroupShape(id, g') && Retired(g') && Unreleased(g')
              && g' == g.(attempts := g.attempts[a := FinishedRow(g.attempts[a], state, now)])
  {
    assert AttemptShape(g, a);
    assert GroupShape(id, g) && GroupStates(g) && AttemptCheck(g.attempts[a]);
    hide GroupShape, AttemptCheck, AttemptUpdateAllowed;
    FinishedRowAccepted(g.attempts[a], state, now);
    if g.attempts[a].updated <= now {
      FinishedGroupShape(id, g, a, state, now);
      var g' := FinishAttempt(g, a, state, now).value;
      RetiredAfterFinish(id, g, a, g');
    }
  }

  lemma RetiredAfterFinish(id: Id, g: ScanGroup, a: Id, g': ScanGroup)
    requires GroupOk(id, g) && g.scan.job == JobRunning && g.scan.current == Some(a)
    requires a in g'.attempts && g' == g.(attempts := g.attempts[a := g'.attempts[a]])
    requires g'.attempts[a].state in {TimedOut, Cancelled, Superseded}
    ensures Retired(g')
  {
    forall b | b in g'.attempts
      ensures TerminalAttempt(g'.attempts[b].state) && g'.attempts[b].state != Succeeded
    {
      if b != a {
        assert AttemptShape(g, b);
      }
    }
  }

  ghost predicate AttemptUpdatePath(s: AttemptState, t: AttemptState) {
    (s == Leased && t == Superseded) || (s == Running && t in {TimedOut, Cancelled, Superseded})
  }
}
