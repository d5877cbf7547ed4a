/** Idempotency over runs: one scan per session and key, answered with the same
    token until its replay window ends. */
module RunReplay {
  import opened Basics
  import opened ScanProtocol
  import opened Tables
  import opened Quota
  import opened Transactions
  import opened Invariant
  import opened StepProofs
  import opened CreateProofs
  import opened RetentionProofs
  import opened Evolution
  import opened Runs
  import opened RunFaults

  /** After any run at most one scan exists for a session and an idempotency key. */
  lemma OneScanPerKey(es: seq<Event>, s: Id, t: Id)
    requires s in Run(EMPTY, es).groups && t in Run(EMPTY, es).groups
    requires Run(EMPTY, es).groups[s].scan.session == Run(EMPTY, es).groups[t].scan.session
    requires Run(EMPTY, es).groups[s].scan.key == Run(EMPTY, es).groups[t].scan.key
    ensures s == t
  {
    EmptyInv();
    RunKeepsInv(EMPTY, es);
    hide Run, GroupOk, Balanced, WithinLimits, WindowsOk, AttemptsApart;
    assert IndexOk(Run(EMPTY, es));
  }

  /** Only a create that answers with a new scan writes anything; a refusal, a
      replay and a rolled back replacement leave every table as it was. */
  lemma OnlyCreationWrites(db: Db, r: CreateRequest, c: CreateInputs)
    requires Inv(db)
    ensures CreateStep(db, r, c).1.ScanCreated? || CreateStep(db, r, c).0 == db
  {
    hide Inv, CreateTx, NeedsNewScan, FreshIdTaken, ReplacesTooLate, Predecessor, AdmittedWindows, RefreshedWindow;
    if ValidCreateRequest(r) {
      CreateEffect(db, r, c);
    }
  }

  /** The event happens while the scan may still be replayed. */
  predicate Within(s: Scan, e: Event) {
    TimeOf(e) < s.replayExpires
  }

  lemma WindowEndsBeforeDeletion(id: Id, g: ScanGroup)
    requires GroupOk(id, g)
    ensures g.scan.replayExpires < g.scan.deletion
  {
  }

  /** Nothing removes or replaces a scan inside its replay window. */
  lemma StepKeepsScan(db: Db, e: Event, id: Id)
    requires Inv(db) && id in db.groups && Within(db.groups[id].scan, e)
    ensures id in Step(db, e).0.groups
    ensures Evolves(db.groups[id], Step(db, e).0.groups[id])
  {
    hide Inv, Evolves, CreateTx, RetainTx, AcquireStep, StartStep, RenewStep, CommitStep, CancelStep, GroupOk,
         AdmittedWindows, RefreshedWindow;
    InvGroup(db, id);
    WindowEndsBeforeDeletion(id, db.groups[id]);
    EvolvesRefl(db.groups[id]);
    match e
    case CreateEvent(r, c) =>
      if ValidCreateRequest(r) {
        CreateEffect(db, r, c);
      }
    case AcquireEvent(s, now, a) => AcquireEvolves(db, s, now, a);
    case StartEvent(c, now) => StartEvolves(db, c, now);
    case RenewEvent(c, now) => RenewEvolves(db, c, now);
    case CommitEvent(s, i, p, now) => CommitStepEvolves(db, s, i, p, now);
    case CancelEvent(s, now) => CancelEvolves(db, s, now);
    case RetainEvent(now, n, vs, vw) =>
      if 1 <= n <= MAX_BATCH_SIZE {
        RetainEffect(db, now, n, vs, vw);
      }
    case ServiceEvent(_, _) =>
  }

  ghost predicate AllWithin(s: Scan, es: seq<Event>) {
    forall i | 0 <= i < |es| :: Within(s, es[i])
  }

  lemma {:induction false} RunKeepsScan(db: Db, es: seq<Event>, id: Id)
    requires Inv(db) && id in db.groups && AllWithin(db.groups[id].scan, es)
    ensures id in Run(db, es).groups
    ensures SameScanIdentity(db.groups[id].scan, Run(db, es).groups[id].scan)
    ensures Run(db, es).groups[id].scan.revoked == db.groups[id].scan.revoked
  {
    hide Inv, Step, WorkLeft, JobEdge, RowEvolves;
    if es != [] {
      var init := es[..|es| - 1];
      RunKeepsScan(db, init, id);
      RunKeepsInv(db, init);
      StepKeepsScan(Run(db, init), es[|es| - 1], id);
    }
  }

  /** How a request that finds the scan inside its window is answered. */
  function ReplayAnswer(id: Id, s: Scan, r: CreateRequest, keyring: map<int, seq<char>>): CreateResult {
    if r.requestHash != s.requestHash then KeyReused
    else if s.revoked.Some? then AccessRevoked
    else if !UsableKey(keyring, s.tokenKeyVersion) then TokenUnavailable
    else ScanReplayed(id, Token(id, s.tokenNonce, s.replayExpires, keyring[s.tokenKeyVersion]),
                      s.replayExpires, s.replayExpires - r.now)
  }

  lemma AnsweredFromExisting(db: Db, id: Id, s: Scan, r: CreateRequest, c: CreateInputs)
    requires ValidCreateRequest(r) && Existing(db, r.session, r.key) == Some((id, s))
    requires s.created + ACCESS_SECONDS == s.replayExpires <= UINT64_MAX
    ensures r.now < s.replayExpires ==> CreateStep(db, r, c) == (db, ReplayAnswer(id, s, r, c.keyring))
    ensures r.now >= s.replayExpires ==>
              !(CreateStep(db, r, c).1.ScanReplayed? || CreateStep(db, r, c).1.KeyReused? || CreateStep(db, r, c).1.AccessRevoked?)
  {
    hide Existing, ReleaseReplaced, InsertScan, ReserveTx, ValidId;
  }

  /** A row is answered from exactly while its window is open, without a write. */
  lemma AnsweredFromRow(db: Db, id: Id, r: CreateRequest, c: CreateInputs)
    requires Inv(db) && ValidCreateRequest(r) && id in db.groups
    requires db.groups[id].scan.session == r.session && db.groups[id].scan.key == r.key
    ensures r.now < db.groups[id].scan.replayExpires ==>
              CreateStep(db, r, c) == (db, ReplayAnswer(id, db.groups[id].scan, r, c.keyring))
    ensures r.now >= db.groups[id].scan.replayExpires ==>
              !(CreateStep(db, r, c).1.ScanReplayed? || CreateStep(db, r, c).1.KeyReused? || CreateStep(db, r, c).1.AccessRevoked?)
  {
    hide Inv, Existing, CreateStep, ReplayAnswer;
    RowIsExisting(db, id, r);
    ExistingFacts(db, r.session, r.key);
    AnsweredFromExisting(db, id, db.groups[id].scan, r, c);
  }

  lemma RowIsExisting(db: Db, id: Id, r: CreateRequest)
    requires Inv(db) && id in db.groups
    requires db.groups[id].scan.session == r.session && db.groups[id].scan.key == r.key
    ensures Existing(db, r.session, r.key) == Some((id, db.groups[id].scan))
  {
    hide GroupOk, Balanced, WithinLimits, WindowsOk, AttemptsApart;
    assert (r.session, r.key) in db.index;
  }

  lemma CreatedToken(db: Db, r: CreateRequest, c: CreateInputs)
    requires CreateStep(db, r, c).1.ScanCreated?
    ensures ValidCreateRequest(r) && UsableKey(c.keyring, c.activeKey)
    ensures CreateStep(db, r, c).1
            == ScanCreated(c.freshScan, Token(c.freshScan, c.freshNonce, r.now + ACCESS_SECONDS, c.keyring[c.activeKey]),
                           r.now + ACCESS_SECONDS, CreateStep(db, r, c).1.replaced)
  {
    hide Existing, ReleaseReplaced, InsertScan, ReserveTx, ValidId;
  }

  lemma CreatedRow(db: Db, r: CreateRequest, c: CreateInputs)
    requires Inv(db) && CreateStep(db, r, c).1.ScanCreated?
    ensures c.freshScan in CreateStep(db, r, c).0.groups
    ensures CreateStep(db, r, c).0.groups[c.freshScan].scan == NewScan(r, c)
    ensures Inv(CreateStep(db, r, c).0)
  {
    hide Inv, CreateTx, NeedsNewScan, FreshIdTaken, ReplacesTooLate, Predecessor, AdmittedWindows, RefreshedWindow, NewScan;
    CreatedToken(db, r, c);
    CreateEffect(db, r, c);
  }

  /** The new row is still there, with its identity, however the run went on. */
  lemma RowIsKept(db: Db, r: CreateRequest, c: CreateInputs, es: seq<Event>)
    requires Inv(db) && CreateStep(db, r, c).1.ScanCreated?
    requires forall i | 0 <= i < |es| :: TimeOf(es[i]) < r.now + ACCESS_SECONDS
    ensures var after := Run(CreateStep(db, r, c).0, es);
            && Inv(after) && c.freshScan in after.groups
            && SameScanIdentity(NewScan(r, c), after.groups[c.freshScan].scan)
            && after.groups[c.freshScan].scan.revoked.None?
  {
    hide Inv, CreateStep, Run, Within;
    CreatedRow(db, r, c);
    var created := CreateStep(db, r, c).0;
    WithinWindow(created.groups[c.freshScan].scan, es, r.now + ACCESS_SECONDS);
    RunKeepsScan(created, es, c.freshScan);
    RunKeepsInv(created, es);
  }

  /** What the first answer promised is what `result` says to a repeat at `now`. */
  ghost predicate RepeatsFirst(
    first: CreateResult, result: CreateResult, sameHash: bool, usedKey: int, keyring: map<int, seq<char>>, now: int)
    requires first.ScanCreated?
  {
    if !sameHash then result == KeyReused
    else if !UsableKey(keyring, usedKey) then result == TokenUnavailable
    else result == ScanReplayed(first.scan, first.token.(key := keyring[usedKey]), first.accessExpires,
                                first.accessExpires - now)
  }

  /** From creation until its window ends 1,800 seconds later, whatever happens
      in between, a repeat with the same hash gets the same scan, token and
      absolute expiry as long as the key is retained, and any other hash is a
      conflict; nothing is written. */
  lemma IdempotentReplay(db: Db, r: CreateRequest, c: CreateInputs, es: seq<Event>, again: CreateRequest,
                         c': CreateInputs)
    requires Inv(db) && CreateStep(db, r, c).1.ScanCreated?
    requires forall i | 0 <= i < |es| :: TimeOf(es[i]) < r.now + 1_800
    requires ValidCreateRequest(again) && again.now < r.now + 1_800
    requires again.session == r.session && again.key == r.key
    ensures var (created, first) := CreateStep(db, r, c);
            var after := Run(created, es);
            && CreateStep(after, again, c').0 == after
            && first.accessExpires == r.now + 1_800
            && RepeatsFirst(first, CreateStep(after, again, c').1, again.requestHash == r.requestHash,
                            c.activeKey, c'.keyring, again.now)
  {
    hide Inv, CreateStep, Run, Existing, ValidCreateRequest;
    CreatedToken(db, r, c);
    RowIsKept(db, r, c, es);
    AnsweredFromRow(Run(CreateStep(db, r, c).0, es), c.freshScan, again, c');
  }

  /** With the signing key still in the keyring the repeated token is the first one. */
  lemma SameTokenAgain(db: Db, r: CreateRequest, c: CreateInputs, keyring: map<int, seq<char>>)
    requires CreateStep(db, r, c).1.ScanCreated?
    requires c.activeKey in keyring && keyring[c.activeKey] == c.keyring[c.activeKey]
    ensures UsableKey(keyring, c.activeKey)
    ensures var first := CreateStep(db, r, c).1; first.token.(key := keyring[c.activeKey]) == first.token
  {
    hide CreateStep;
    CreatedToken(db, r, c);
  }

  lemma WithinWindow(s: Scan, es: seq<Event>, t: int)
    requires s.replayExpires == t && forall i | 0 <= i < |es| :: TimeOf(es[i]) < t
    ensures AllWithin(s, es)
  {
  }
}
