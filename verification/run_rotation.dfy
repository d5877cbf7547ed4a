/** Staged key rotation: one network is known by one digest per key. As long as
    a key stays in the keyring until the scans charged under it have ended, the
    live scans of the network stay within the limit, summed over its digests. */
module RunRotation {
  import opened Basics
  import opened ScanProtocol
  import opened Tables
  import opened Quota
  import opened Transactions
  import opened Invariant
  import opened LedgerProofs
  import opened StepProofs
  import opened CommitProofs
  import opened CreateProofs
  import opened RetentionProofs
  import opened Runs
  import opened NetworkAddress

  /** The scan is live and charged to one of the network's digests. */
  ghost predicate Charged(g: ScanGroup, network: set<Digest>) {
    Unreleased(g) && g.reservation.value.network in network
  }

  ghost function ChargedScans(groups: map<Id, ScanGroup>, network: set<Digest>): set<Id> {
    set id | id in groups && Charged(groups[id], network)
  }

  /** The digests a request sends for this network cover every scan still charged
      to it: no key was dropped too early. */
  ghost predicate CoversCharges(db: Db, r: CreateRequest, network: set<Digest>) {
    r.networks != [] && r.networks[0] in network ==>
      forall id | id in ChargedScans(db.groups, network) :: db.groups[id].reservation.value.network in r.networks
  }

  /** Every create of the run covers the charges it meets. */
  ghost predicate Staged(es: seq<Event>, network: set<Digest>) {
    forall i | 0 <= i < |es| && es[i].CreateEvent? :: CoversCharges(Run(EMPTY, es[..i]), es[i].request, network)
  }

  // ---- one admission ------------------------------------------------------

  ghost function ChargedTo(groups: map<Id, ScanGroup>, digests: seq<Digest>): set<Id> {
    set id | id in groups && Unreleased(groups[id]) && groups[id].reservation.value.network in digests
  }

  /** The usage summed over distinct digests counts every scan charged to them. */
  lemma {:induction false} UsageCountsCharges(active: Active, groups: map<Id, ScanGroup>, digests: seq<Digest>)
    requires Balanced(active, groups)
    ensures |ChargedTo(groups, digests)| <= NetworkUsage(active, digests)
  {
    hide Balanced;
    if digests == [] {
      assert ChargedTo(groups, digests) == {};
    } else {
      var init := digests[..|digests| - 1];
      var k := NetworkActive(digests[|digests| - 1]);
      UsageCountsCharges(active, groups, init);
      assert LedgerRow(active, groups, k) by {
        BalancedRow(active, groups, k);
      }
      assert ChargedTo(groups, digests) <= ChargedTo(groups, init) + Holders(groups, k);
      SubsetSize(ChargedTo(groups, digests), ChargedTo(groups, init) + Holders(groups, k));
    }
  }

  lemma BalancedRow(active: Active, groups: map<Id, ScanGroup>, k: ActiveKey)
    requires Balanced(active, groups)
    ensures LedgerRow(active, groups, k)
  {
  }

  lemma {:induction false} SubsetSize<T>(a: set<T>, b: set<T>)
    requires a <= b
    ensures |a| <= |b|
  {
    assert b == a + (b - a);
  }

  lemma {:induction false} SameUsage(active: Active, active': Active, digests: seq<Digest>)
    requires forall k :: ActiveOf(active', k) == ActiveOf(active, k)
    ensures NetworkUsage(active', digests) == NetworkUsage(active, digests)
  {
    if digests != [] {
      SameUsage(active, active', digests[..|digests| - 1]);
    }
  }

  /** An admission is given only below the limit summed over all sent digests. */
  lemma AdmittedBelowTotal(db: Db, session: Digest, networks: seq<Digest>, now: int)
    requires Admitted(db, session, networks, now)
    ensures NetworkUsage(db.active, networks) < NETWORK_CONCURRENCY
  {
    var ws := RefreshWindows(db.windows, WindowSpecs(session, networks[0]), now);
    var active := ZeroActive(db.active, ActiveSpecs(session, networks[0]));
    LoadedUsage(ws, active, session, networks, now);
    AdmittedBelowLimits(db.paused, LoadUsage(ws, active, session, networks, now).value, now);
    forall k
      ensures ActiveOf(active, k) == ActiveOf(db.active, k)
    {
      ZeroActiveKeeps(db.active, ActiveSpecs(session, networks[0]), k);
    }
    SameUsage(db.active, active, networks);
  }

  /** The state a create admitted its scan on: no scan charged that was not. */
  lemma AdmittedOn(db: Db, r: CreateRequest, c: CreateInputs) returns (mid: Db)
    requires Inv(db) && ValidCreateRequest(r)
    requires CreateTx(db, r, c).Done? && CreateTx(db, r, c).value.1.ScanCreated?
    ensures Balanced(mid.active, mid.groups) && Admitted(mid, r.session, r.networks, r.now)
    ensures forall x | x in mid.groups :: x == c.freshScan || (x in db.groups && mid.groups[x] == db.groups[x])
    ensures c.freshScan in mid.groups && mid.groups[c.freshScan].reservation.None?
    ensures CreateTx(db, r, c).value.0.groups == mid.groups[c.freshScan := NewGroup(r, c)]
  {
    hide Inv, ReserveTx, ReleaseReplaced, InsertScan, ReplacesTooLate, FreshIdTaken, Predecessor, ValidId, Existing,
         Admitted, Balanced, WindowsAhead, AdmittedWindows, RefreshedWindow;
    ExistingFacts(db, r.session, r.key);
    ClearedEffect(db, r, c);
    var cleared := ReleaseReplaced(db, Existing(db, r.session, r.key), r.now).value;
    InsertedEffect(cleared, r, c);
    mid := InsertScan(cleared, r, c).value;
    InsertedBalance(cleared, r, c);
  }

  lemma InsertedBalance(db: Db, r: CreateRequest, c: CreateInputs)
    requires Inv(db) && InsertScan(db, r, c).Done?
    ensures Balanced(InsertScan(db, r, c).value.active, InsertScan(db, r, c).value.groups)
    ensures InsertScan(db, r, c).value.groups == db.groups[c.freshScan := ScanGroup(NewScan(r, c), map[], None, None)]
  {
    hide Balanced, WithinLimits, GroupOk, ScanCheck;
    BalancedWith(db.active, db.groups, c.freshScan, ScanGroup(NewScan(r, c), map[], None, None));
  }

  /** An admission to the network leaves at most four scans charged to it. */
  lemma AdmissionStaysWithin(db: Db, r: CreateRequest, c: CreateInputs, network: set<Digest>)
    requires Inv(db) && ValidCreateRequest(r) && CoversCharges(db, r, network) && r.networks[0] in network
    requires CreateTx(db, r, c).Done? && CreateTx(db, r, c).value.1.ScanCreated?
    ensures |ChargedScans(CreateTx(db, r, c).value.0.groups, network)| <= NETWORK_CONCURRENCY
  {
    hide Inv, CreateTx, Balanced, Admitted, NewScan;
    var mid := AdmittedOn(db, r, c);
    AdmittedBelowTotal(mid, r.session, r.networks, r.now);
    UsageCountsCharges(mid.active, mid.groups, r.networks);
    var after := CreateTx(db, r, c).value.0.groups;
    forall id | id in ChargedScans(after, network)
      ensures id in ChargedTo(mid.groups, r.networks) + {c.freshScan}
    {
      if id != c.freshScan {
        assert id in ChargedScans(db.groups, network);
      }
    }
    SubsetSize(ChargedScans(after, network), ChargedTo(mid.groups, r.networks) + {c.freshScan});
  }

  // ---- every other step ---------------------------------------------------

  /** No scan becomes charged that was not. */
  ghost predicate NoNewCharge(groups: map<Id, ScanGroup>, groups': map<Id, ScanGroup>, network: set<Digest>) {
    ChargedScans(groups', network) <= ChargedScans(groups, network)
  }

  lemma GroupNoNewCharge(db: Db, db': Db, id: Id, network: set<Digest>)
    requires OnlyGroup(db, db', id) && (Charged(db'.groups[id], network) ==> Charged(db.groups[id], network))
    ensures NoNewCharge(db.groups, db'.groups, network)
  {
  }

  lemma EndedUncharged(id: Id, g: ScanGroup, network: set<Digest>)
    requires GroupOk(id, g) && !LiveJob(g.scan.job)
    ensures !Charged(g, network)
  {
  }

  lemma CreateNoNewCharge(db: Db, r: CreateRequest, c: CreateInputs, network: set<Digest>)
    requires Inv(db)
    requires !CreateStep(db, r, c).1.ScanCreated? || r.networks[0] !in network
    ensures NoNewCharge(db.groups, CreateStep(db, r, c).0.groups, network)
  {
    hide Inv, CreateTx, NeedsNewScan, FreshIdTaken, ReplacesTooLate, Predecessor, AdmittedWindows, RefreshedWindow;
    if ValidCreateRequest(r) {
      CreateEffect(db, r, c);
    }
  }

  lemma AcquireNoNewCharge(db: Db, id: Id, now: int, a: Id, network: set<Digest>)
    requires Inv(db) && ReadableClock(now) && AcquireTx(db, id, now, a).Done?
    ensures NoNewCharge(db.groups, AcquireTx(db, id, now, a).value.0.groups, network)
  {
    hide Inv, AcquireTx, AcquireWrites, RowsFinished, RowFinished, AcquireBlocked, NoNewCharge;
    AcquireEffect(db, id, now, a);
    var db' := AcquireTx(db, id, now, a).value.0;
    if AcquireWrites(db, id, now) {
      assert id in db.groups by { WritesIn(db, id, now); }
      if AcquireEnds(db, id, now) {
        InvGroup(db', id);
        EndedUncharged(id, db'.groups[id], network);
      }
      GroupNoNewCharge(db, db', id, network);
    } else {
      NothingCharged(db, network);
    }
  }

  lemma WritesIn(db: Db, id: Id, now: int)
    requires AcquireWrites(db, id, now)
    ensures id in db.groups
  {
  }

  lemma NothingCharged(db: Db, network: set<Digest>)
    ensures NoNewCharge(db.groups, db.groups, network)
  {
  }

  lemma StepNoNewCharge(db: Db, e: Event, network: set<Digest>)
    requires Inv(db)
    requires e.CreateEvent? ==> !CreateStep(db, e.request, e.inputs).1.ScanCreated? || e.request.networks[0] !in network
    ensures NoNewCharge(db.groups, Step(db, e).0.groups, network)
  {
    hide Inv, CreateStep, AcquireTx, StartTx, RenewTx, CommitTx, CancelTx, RetainTx, TerminationClockOk, NoNewCharge,
         Acceptable, CommandIsCurrent, RowsFinished;
    NothingCharged(db, network);
    match e
    case CreateEvent(r, c) => CreateNoNewCharge(db, r, c, network);
    case AcquireEvent(id, now, a) =>
      if ReadableClock(now) && AcquireTx(db, id, now, a).Done? {
        AcquireNoNewCharge(db, id, now, a, network);
      }
    case StartEvent(c, now) =>
      StartEffect(db, c, now);
      if StartTx(db, c, now).Done? && StartTx(db, c, now).value.1 == Started {
        GroupNoNewCharge(db, StartTx(db, c, now).value.0, c.scan, network);
      }
    case RenewEvent(c, now) =>
      RenewEffect(db, c, now);
      if RenewTx(db, c, now).Done? && RenewTx(db, c, now).value.1.Renewed? {
        GroupNoNewCharge(db, RenewTx(db, c, now).value.0, c.scan, network);
      }
    case CommitEvent(id, i, p, now) =>
      CommitEffect(db, id, i, p, now);
      if CommitTx(db, id, i, p, now).Done? && CommitTx(db, id, i, p, now).value.1 == Committed {
        var db' := CommitTx(db, id, i, p, now).value.0;
        InvGroup(db', id);
        EndedUncharged(id, db'.groups[id], network);
        GroupNoNewCharge(db, db', id, network);
      }
    case CancelEvent(id, now) =>
      CancelEffect(db, id, now);
      if CancelTx(db, id, now).Done? && CancelTx(db, id, now).value.1 == ScanCancelled {
        var db' := CancelTx(db, id, now).value.0;
        InvGroup(db', id);
        EndedUncharged(id, db'.groups[id], network);
        GroupNoNewCharge(db, db', id, network);
      }
    case RetainEvent(now, n, vs, vw) =>
      if 1 <= n <= MAX_BATCH_SIZE {
        RetainNoNewCharge(db, now, n, vs, vw, network);
      }
    case ServiceEvent(_, _) =>
  }

  lemma RetainNoNewCharge(db: Db, now: int, n: nat, vs: seq<Id>, vw: seq<WindowKey>, network: set<Digest>)
    requires Inv(db)
    ensures NoNewCharge(db.groups, RetainTx(db, now, n, vs, vw).0.groups, network)
  {
    hide Inv, RetainTx;
    RetainEffect(db, now, n, vs, vw);
  }

  /** The limit holds for the network, whatever digest each scan was charged to. */
  lemma {:induction false} RotationKeepsQuota(es: seq<Event>, network: set<Digest>)
    requires Staged(es, network)
    ensures |ChargedScans(Run(EMPTY, es).groups, network)| <= 4
  {
    hide Inv, Step, CoversCharges, CreateStep, CreateTx;
    if es == [] {
      assert ChargedScans(EMPTY.groups, network) == {};
    } else {
      var init := es[..|es| - 1];
      var last := es[|es| - 1];
      assert forall i | 0 <= i < |init| :: init[..i] == es[..i];
      RotationKeepsQuota(init, network);
      EmptyInv();
      RunKeepsInv(EMPTY, init);
      LastStepKeepsQuota(Run(EMPTY, init), last, network);
    }
  }

  lemma LastStepKeepsQuota(db: Db, e: Event, network: set<Digest>)
    requires Inv(db) && |ChargedScans(db.groups, network)| <= NETWORK_CONCURRENCY
    requires e.CreateEvent? ==> CoversCharges(db, e.request, network)
    ensures |ChargedScans(Step(db, e).0.groups, network)| <= NETWORK_CONCURRENCY
  {
    hide Inv, CoversCharges, CreateTx, AcquireStep, StartStep, RenewStep, CommitStep, CancelStep, RetainStep, ChargedScans;
    if e.CreateEvent? && CreateStep(db, e.request, e.inputs).1.ScanCreated? && e.request.networks[0] in network {
      AdmissionStaysWithin(db, e.request, e.inputs, network);
    } else {
      StepNoNewCharge(db, e, network);
      SubsetSize(ChargedScans(Step(db, e).0.groups, network), ChargedScans(db.groups, network));
    }
  }

  // ---- from the keyring ---------------------------------------------------

  /** Where a create request came from: the versions of the keys then in the ring,
      the active one first, and the network address. */
  datatype Sender = Sender(versions: seq<int>, address: Address)

  /** Addresses count as one network when they agree here: an IPv4 address as a
      whole, an IPv6 address in its first 64 bits. */
  datatype Network = WholeV4(octets: seq<int>) | HalfV6(groups: Groups)

  function NetworkFor(a: Address): Network {
    match a
    case V4(octets, _) => WholeV4(octets)
    case V6(groups, _) => HalfV6(if |groups| >= 4 then groups[..4] else groups)
  }

  /** Two IPv4 addresses are one network only when they are the same, two IPv6
      addresses when their first four groups are, and never one of each. */
  lemma SameNetwork(a: Address, b: Address)
    requires (a.V6? ==> |a.groups| == 8) && (b.V6? ==> |b.groups| == 8)
    ensures NetworkFor(a) == NetworkFor(b) <==>
              || (a.V4? && b.V4? && a.octets == b.octets)
              || (&& a.V6? && b.V6? && a.groups[0] == b.groups[0] && a.groups[1] == b.groups[1]
                  && a.groups[2] == b.groups[2] && a.groups[3] == b.groups[3])
  {
    if a.V6? && b.V6? && a.groups[..4] == b.groups[..4] {
      assert forall i | 0 <= i < 4 :: a.groups[..4][i] == a.groups[i] && b.groups[..4][i] == b.groups[i];
    }
  }

  /** What HMAC makes of a key version and a network. */
  type Signal = (int, Network) -> Digest

  function SignalDigests(signal: Signal, s: Sender): (ds: seq<Digest>)
    ensures |ds| == |s.versions| && forall i | 0 <= i < |ds| :: ds[i] == signal(s.versions[i], NetworkFor(s.address))
  {
    seq(|s.versions|, i requires 0 <= i < |s.versions| => signal(s.versions[i], NetworkFor(s.address)))
  }

  /** Every create of the run carries the digests of its sender. */
  ghost predicate Sent(es: seq<Event>, senders: seq<Sender>, signal: Signal) {
    && |senders| == |es|
    && forall i | 0 <= i < |es| && es[i].CreateEvent? ::
         senders[i].versions != [] && es[i].request.networks == SignalDigests(signal, senders[i])
  }

  /** Which create of the run made the scan that now has this id. */
  ghost function MadeBy(es: seq<Event>, id: Id): Option<nat> {
    if es == [] then None
    else if Makes(Run(EMPTY, es[..|es| - 1]), es[|es| - 1], id) then Some(|es| - 1)
    else MadeBy(es[..|es| - 1], id)
  }

  ghost predicate Makes(db: Db, e: Event, id: Id) {
    e.CreateEvent? && e.inputs.freshScan == id && CreateStep(db, e.request, e.inputs).1.ScanCreated?
  }

  /** A key stays in the ring as long as a reservation written under it is held. */
  ghost predicate KeysRetained(es: seq<Event>, senders: seq<Sender>)
    requires |senders| == |es|
  {
    forall i, id | 0 <= i < |es| && es[i].CreateEvent? && Holding(Run(EMPTY, es[..i]), id) ::
      KeptFor(es[..i], senders, senders[i], id)
  }

  ghost predicate Holding(db: Db, id: Id) {
    id in db.groups && Unreleased(db.groups[id])
  }

  ghost predicate KeptFor(es: seq<Event>, senders: seq<Sender>, now: Sender, id: Id)
    requires |es| <= |senders|
  {
    var maker := MadeBy(es, id);
    maker.Some? && maker.value < |es| && senders[maker.value].versions != []
    ==> senders[maker.value].versions[0] in now.versions
  }

  /** HMAC gives no digest to two of the keys and networks that this run uses. */
  ghost predicate Collisionless(senders: seq<Sender>, signal: Signal) {
    forall i, j, v, w | 0 <= i < |senders| && 0 <= j < |senders| && v in senders[i].versions && w in senders[j].versions
                        && signal(v, NetworkFor(senders[i].address)) == signal(w, NetworkFor(senders[j].address)) ::
      v == w && NetworkFor(senders[i].address) == NetworkFor(senders[j].address)
  }

  /** The reservation was charged to the active digest of the create that made it. */
  ghost predicate MadeUnder(es: seq<Event>, senders: seq<Sender>, signal: Signal, g: ScanGroup, id: Id) {
    var maker := MadeBy(es, id);
    && maker.Some? && maker.value < |es| && maker.value < |senders|
    && es[maker.value].CreateEvent? && senders[maker.value].versions != []
    && g.reservation.Some?
    && g.reservation.value.network == signal(senders[maker.value].versions[0], NetworkFor(senders[maker.value].address))
  }

  lemma MadeByPrefix(es: seq<Event>, id: Id)
    ensures MadeBy(es, id).Some? ==> MadeBy(es, id).value < |es|
  {
    if es != [] {
      MadeByPrefix(es[..|es| - 1], id);
    }
  }

  /** A scan that holds quota after a step was just made by it, charged to the
      active digest, or held it before under the same digest. */
  lemma StepOrigin(db: Db, e: Event, id: Id)
    requires Inv(db) && Holding(Step(db, e).0, id)
    ensures if Makes(db, e, id)
            then e.request.networks != [] && Step(db, e).0.groups[id].reservation.value.network == e.request.networks[0]
            else Holding(db, id)
                 && db.groups[id].reservation.value.network == Step(db, e).0.groups[id].reservation.value.network
  {
    hide Inv, CreateTx, AcquireStep, StartStep, RenewStep, CommitStep, CancelStep, RetainStep, NewScan, ValidCreateRequest;
    var d := Step(db, e).0.groups[id].reservation.value.network;
    if e.CreateEvent? && CreateStep(db, e.request, e.inputs).1.ScanCreated? {
      CreatedOn(db, e.request, e.inputs);
    } else {
      StepNoNewCharge(db, e, {d});
      assert id in ChargedScans(Step(db, e).0.groups, {d});
    }
  }

  lemma CreatedOn(db: Db, r: CreateRequest, c: CreateInputs)
    requires Inv(db) && CreateStep(db, r, c).1.ScanCreated?
    ensures var groups := CreateStep(db, r, c).0.groups;
            && r.networks != []
            && c.freshScan in groups && groups[c.freshScan] == NewGroup(r, c)
            && forall x | x in groups && x != c.freshScan :: x in db.groups && groups[x] == db.groups[x]
  {
    hide Inv, CreateTx, NewScan, NeedsNewScan, ReplacesTooLate, FreshIdTaken, Predecessor, AdmittedWindows, RefreshedWindow;
    CreateEffect(db, r, c);
  }

  lemma {:induction false} HoldersMadeUnder(es: seq<Event>, senders: seq<Sender>, signal: Signal, id: Id)
    requires |es| <= |senders| && Sent(es, senders[..|es|], signal) && Holding(Run(EMPTY, es), id)
    ensures MadeUnder(es, senders, signal, Run(EMPTY, es).groups[id], id)
  {
    hide Inv, Step, CreateStep, Unreleased;
    var init, last := es[..|es| - 1], es[|es| - 1];
    EmptyInv();
    RunKeepsInv(EMPTY, init);
    StepOrigin(Run(EMPTY, init), last, id);
    if Makes(Run(EMPTY, init), last, id) {
      assert senders[..|es|][|es| - 1] == senders[|es| - 1];
    } else {
      assert senders[..|es|][..|init|] == senders[..|init|];
      HoldersMadeUnder(init, senders, signal, id);
    }
    HeldIsReserved(Run(EMPTY, es), id);
  }

  lemma HeldIsReserved(db: Db, id: Id)
    requires Holding(db, id)
    ensures db.groups[id].reservation.Some?
  {
  }

  /** The digests that the run ever derives for one network. */
  ghost function NetworkOf(senders: seq<Sender>, signal: Signal, from: Network): set<Digest> {
    set i, v | 0 <= i < |senders| && v in senders[i].versions && NetworkFor(senders[i].address) == from ::
      signal(v, NetworkFor(senders[i].address))
  }

  /** Scans that hold quota and were made from the network. */
  ghost function HeldFrom(es: seq<Event>, senders: seq<Sender>, from: Network): set<Id> {
    set id | id in Run(EMPTY, es).groups && Holding(Run(EMPTY, es), id) && MadeFrom(es, senders, from, id)
  }

  ghost predicate MadeFrom(es: seq<Event>, senders: seq<Sender>, from: Network, id: Id) {
    var maker := MadeBy(es, id);
    maker.Some? && maker.value < |senders| && NetworkFor(senders[maker.value].address) == from
  }

  /** Keys kept long enough cover all charges. */
  lemma RetainedIsStaged(es: seq<Event>, senders: seq<Sender>, signal: Signal, from: Network)
    requires Sent(es, senders, signal) && KeysRetained(es, senders) && Collisionless(senders, signal)
    ensures Staged(es, NetworkOf(senders, signal, from))
  {
    hide Run, Step, MadeBy;
    var network := NetworkOf(senders, signal, from);
    forall i | 0 <= i < |es| && es[i].CreateEvent?
      ensures CoversCharges(Run(EMPTY, es[..i]), es[i].request, network)
    {
      var db := Run(EMPTY, es[..i]);
      if es[i].request.networks != [] && es[i].request.networks[0] in network {
        FromNetwork(senders, signal, from, i, senders[i].versions[0]);
        forall id | id in ChargedScans(db.groups, network)
          ensures db.groups[id].reservation.value.network in es[i].request.networks
        {
          ChargeCovered(es, senders, signal, from, i, id);
        }
      }
    }
  }

  lemma FromNetwork(senders: seq<Sender>, signal: Signal, from: Network, i: nat, v: int)
    requires i < |senders| && v in senders[i].versions && Collisionless(senders, signal)
    requires signal(v, NetworkFor(senders[i].address)) in NetworkOf(senders, signal, from)
    ensures NetworkFor(senders[i].address) == from
  {
  }

  lemma InNetwork(senders: seq<Sender>, signal: Signal, from: Network, i: nat, v: int)
    requires i < |senders| && v in senders[i].versions && NetworkFor(senders[i].address) == from
    ensures signal(v, from) in NetworkOf(senders, signal, from)
  {
  }

  lemma ChargeCovered(es: seq<Event>, senders: seq<Sender>, signal: Signal, from: Network, i: nat, id: Id)
    requires Sent(es, senders, signal) && KeysRetained(es, senders) && Collisionless(senders, signal)
    requires i < |es| && es[i].CreateEvent? && NetworkFor(senders[i].address) == from
    requires id in ChargedScans(Run(EMPTY, es[..i]).groups, NetworkOf(senders, signal, from))
    ensures Run(EMPTY, es[..i]).groups[id].reservation.value.network in es[i].request.networks
  {
    hide Run, Step, MadeBy, NetworkOf, NetworkFor;
    assert senders[..i] == senders[..|es[..i]|];
    HoldersMadeUnder(es[..i], senders, signal, id);
    assert KeptFor(es[..i], senders, senders[i], id);
    var maker := MadeBy(es[..i], id).value;
    FromNetwork(senders, signal, from, maker, senders[maker].versions[0]);
    var k :| 0 <= k < |senders[i].versions| && senders[i].versions[k] == senders[maker].versions[0];
    assert SignalDigests(signal, senders[i])[k] == signal(senders[i].versions[k], from);
  }

  /** Rotation by stages: when every key stays in the ring until the reservations
      written under it are released, at most four live scans come from one network,
      under whichever keys they were charged. */
  lemma KeyringKeepsQuota(es: seq<Event>, senders: seq<Sender>, signal: Signal, from: Network)
    requires Sent(es, senders, signal) && KeysRetained(es, senders) && Collisionless(senders, signal)
    ensures |HeldFrom(es, senders, from)| <= 4
  {
    hide Run, Step, MadeBy, Staged, KeysRetained, Collisionless;
    var network := NetworkOf(senders, signal, from);
    RetainedIsStaged(es, senders, signal, from);
    RotationKeepsQuota(es, network);
    forall id | id in HeldFrom(es, senders, from)
      ensures id in ChargedScans(Run(EMPTY, es).groups, network)
    {
      assert senders[..|es|] == senders;
      HoldersMadeUnder(es, senders, signal, id);
      var maker := MadeBy(es, id).value;
      InNetwork(senders, signal, from, maker, senders[maker].versions[0]);
    }
    SubsetSize(HeldFrom(es, senders, from), ChargedScans(Run(EMPTY, es).groups, network));
  }
}
