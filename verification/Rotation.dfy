/**
 The key-rotation harness: its reference model, its bookkeeping of stale keys, and
 the chaos run itself.

 The harness samples schedules from a generator and asserts. Here the schedule is
 an arbitrary sequence of choices, and every verdict of the run is proved to pass.
 The world drives a `Registry` through its entry points.
 */
module Rotation {
  import opened Types
  import Text
  import L = Lifecycle
  import R = Registry

  datatype Op = Start | Complete | Fail

  // ---- The reference model ----

  function ModelTransition(from: L.TxStatus, op: Op): Option<L.TxStatus> {
    match (from, op)
    case (Pending, Start) => Some(L.Processing)
    case (Processing, Complete) => Some(L.Completed)
    case (Pending, Fail) => Some(L.Failed)
    case (Processing, Fail) => Some(L.Failed)
    case _ => None
  }

  function CallFor(op: Op, id: TxId, caller: Address): R.Call {
    match op
    case Start => R.Start({caller}, id, caller)
    case Complete => R.Complete({caller}, id, "hash", caller)
    case Fail => R.Fail({caller}, id, "err", caller)
  }

  /** What the model expects of a lifecycle call. */
  function Expected(admin: Address, relay: Address, status: L.TxStatus, op: Op, caller: Address)
    : Result<L.TxStatus, ContractError>
  {
    if caller != relay && caller != admin then Err(Unauthorised)
    else
      match ModelTransition(status, op)
      case Some(next) => Ok(next)
      case None => Err(InvalidStatusTransition)
  }

  /** The reply and the records are the ones the model expects: one status moves or
      none does, and nothing else changes. */
  ghost predicate AsExpected(before: R.State, after: R.State, op: Op, id: TxId, caller: Address,
                             reply: Result<R.Reply, ContractError>)
    requires before.admin.Some? && before.relay.Some? && id in before.txs
  {
    var expected := Expected(before.admin.value, before.relay.value, before.txs[id].status, op, caller);
    && reply == (if expected.Ok? then Ok(R.Done) else Err(expected.error))
    && (expected.Err? ==> after == before)
    && after == before.(txs := after.txs)
    && OnlyMoved(before.txs, after.txs, id, if expected.Ok? then expected.value else before.txs[id].status)
  }

  /** `id` is now in `status` and every other record is as it was. */
  ghost predicate OnlyMoved(before: L.Records, after: L.Records, id: TxId, status: L.TxStatus) {
    && after.Keys == before.Keys && id in after && after[id].status == status
    && forall other :: other in before && other != id ==> after[other] == before[other]
  }

  /** The contract's role check and storage guard together refine the model: same
      verdict, same next status, and no other record is touched. */
  lemma ContractRefinesModel(s: R.State, op: Op, id: TxId, caller: Address)
    requires s.admin.Some? && s.relay.Some? && id in s.txs
    ensures AsExpected(s, R.Next(s, CallFor(op, id, caller)), op, id, caller, R.Answer(s, CallFor(op, id, caller)))
  {
  }

  // ---- Bookkeeping of stale keys ----

  datatype RotationKind = Fresh | SameSigner | ToAdmin | BackToOriginal

  /** The harness's view of who holds which key; addresses below `nextAddress` have
      been generated. */
  datatype Book = Book(
    admin: Address,
    relay: Address,
    staleRelays: seq<Address>,
    staleAdmins: seq<Address>,
    relayHistory: seq<Address>,
    nextAddress: nat)

  /** `retain`: the list without two addresses, order kept. */
  function Without(list: seq<Address>, a: Address, b: Address): seq<Address> {
    if list == [] then []
    else (if list[0] == a || list[0] == b then [] else [list[0]]) + Without(list[1..], a, b)
  }

  function AfterRotateTo(b: Book, next: Address): Book {
    var pushed := if b.relay != next && b.relay !in b.staleRelays then b.staleRelays + [b.relay] else b.staleRelays;
    b.(relay := next, staleRelays := Without(pushed, next, b.admin), relayHistory := b.relayHistory + [next])
  }

  function AfterRotate(b: Book, kind: RotationKind): Book
    requires b.relayHistory != []
  {
    var generated := b.(nextAddress := b.nextAddress + 1);
    match kind
    case Fresh => AfterRotateTo(generated, Address(b.nextAddress))
    case SameSigner => AfterRotateTo(b, b.relay)
    case ToAdmin => AfterRotateTo(b, b.admin)
    case BackToOriginal =>
      if b.relay == b.relayHistory[0] then AfterRotateTo(generated, Address(b.nextAddress))
      else AfterRotateTo(b, b.relayHistory[0])
  }

  function AfterTransfer(b: Book): Book {
    b.(admin := Address(b.nextAddress), nextAddress := b.nextAddress + 1,
       staleAdmins := if b.admin != b.relay then b.staleAdmins + [b.admin] else b.staleAdmins)
  }

  /** The lists mean what they say: no current key is stale, and every address that
      ever was the relay is accounted for exactly once. */
  ghost predicate Exact(b: Book) {
    && b.relayHistory != [] && b.relay in b.relayHistory
    && (forall a :: a in b.relayHistory ==>
          a == b.relay || a == b.admin || a in b.staleRelays || a in b.staleAdmins)
    && (forall a :: a in b.staleRelays ==> a in b.relayHistory && a != b.relay && a != b.admin && a !in b.staleAdmins)
    && (forall a :: a in b.staleAdmins ==> a != b.relay && a != b.admin)
    && (forall i, j :: 0 <= i < j < |b.staleRelays| ==> b.staleRelays[i] != b.staleRelays[j])
    // only generated addresses are in use, and the original relay was never admin
    && b.admin.key < b.nextAddress && b.relay.key < b.nextAddress
    && (forall a :: a in b.relayHistory ==> a.key < b.nextAddress)
    && (forall a :: a in b.staleAdmins ==> a.key < b.nextAddress)
    && b.relayHistory[0] != b.admin && b.relayHistory[0] !in b.staleAdmins
  }

  lemma {:induction false} WithoutFacts(list: seq<Address>, a: Address, b: Address)
    ensures forall x :: x in Without(list, a, b) <==> x in list && x != a && x != b
    ensures (forall i, j :: 0 <= i < j < |list| ==> list[i] != list[j]) ==>
              forall i, j :: 0 <= i < j < |Without(list, a, b)| ==> Without(list, a, b)[i] != Without(list, a, b)[j]
  {
    if list != [] {
      WithoutFacts(list[1..], a, b);
      assert forall x :: x in list <==> x == list[0] || x in list[1..];
      if forall i, j :: 0 <= i < j < |list| ==> list[i] != list[j] {
        assert list[0] !in list[1..];
        assert list[0] !in Without(list[1..], a, b);
      }
    }
  }

  /** Whom each kind of rotation makes the relay, and what it does to the lists: the
      history grows by the new relay, and the stale relays gain the old one and lose
      whoever is current. */
  lemma RotationMakes(b: Book, kind: RotationKind)
    requires b.relayHistory != []
    ensures var after := AfterRotate(b, kind);
            && after.relay == (match kind
                               case Fresh => Address(b.nextAddress)
                               case SameSigner => b.relay
                               case ToAdmin => b.admin
                               case BackToOriginal =>
                                 if b.relay == b.relayHistory[0] then Address(b.nextAddress) else b.relayHistory[0])
            && after.relayHistory == b.relayHistory + [after.relay]
            && (forall a :: a in after.staleRelays <==>
                  (a in b.staleRelays || (a == b.relay && b.relay != after.relay)) && a != after.relay && a != b.admin)
            && after.admin == b.admin && after.staleAdmins == b.staleAdmins
            && b.nextAddress <= after.nextAddress <= b.nextAddress + 1
  {
    var next := AfterRotate(b, kind).relay;
    var pushed := if b.relay != next && b.relay !in b.staleRelays then b.staleRelays + [b.relay] else b.staleRelays;
    WithoutFacts(pushed, next, b.admin);
  }

  /** A transfer makes a new address the admin, and the old admin stale unless it is
      the relay. */
  lemma TransferMakes(b: Book)
    ensures AfterTransfer(b).admin == Address(b.nextAddress) && AfterTransfer(b).nextAddress == b.nextAddress + 1
    ensures AfterTransfer(b).staleAdmins == b.staleAdmins + if b.admin == b.relay then [] else [b.admin]
    ensures AfterTransfer(b).relay == b.relay && AfterTransfer(b).staleRelays == b.staleRelays
    ensures AfterTransfer(b).relayHistory == b.relayHistory
  {
  }

  lemma RotateToKeepsExact(b: Book, next: Address)
    requires Exact(b) && next.key < b.nextAddress && next !in b.staleAdmins
    ensures Exact(AfterRotateTo(b, next))
  {
    var pushed := if b.relay != next && b.relay !in b.staleRelays then b.staleRelays + [b.relay] else b.staleRelays;
    WithoutFacts(pushed, next, b.admin);
    assert AfterRotateTo(b, next).relayHistory[0] == b.relayHistory[0];
  }

  lemma RotateKeepsExact(b: Book, kind: RotationKind)
    requires Exact(b)
    ensures Exact(AfterRotate(b, kind))
  {
    var generated := b.(nextAddress := b.nextAddress + 1);
    match kind
    case Fresh => RotateToKeepsExact(generated, Address(b.nextAddress));
    case SameSigner => RotateToKeepsExact(b, b.relay);
    case ToAdmin => RotateToKeepsExact(b, b.admin);
    case BackToOriginal =>
      if b.relay == b.relayHistory[0] {
        RotateToKeepsExact(generated, Address(b.nextAddress));
      } else {
        assert b.relayHistory[0] in b.relayHistory;
        RotateToKeepsExact(b, b.relayHistory[0]);
      }
  }

  lemma TransferKeepsExact(b: Book)
    requires Exact(b)
    ensures Exact(AfterTransfer(b))
  {
  }

  datatype KeyEvent = Rotated(kind: RotationKind) | Transferred | Generated

  function BookAfter(b: Book, events: seq<KeyEvent>): Book {
    if events == [] then b
    else
      var before := BookAfter(b, events[..|events| - 1]);
      match events[|events| - 1]
      case Rotated(kind) => if before.relayHistory == [] then before else AfterRotate(before, kind)
      case Transferred => AfterTransfer(before)
      case Generated => before.(nextAddress := before.nextAddress + 1)
  }

  /** The bookkeeping is exact over every interleaving of rotations of every kind
      and admin transfers, from two distinct initial keys. */
  lemma {:induction false} BookkeepingIsExact(admin: Address, relay: Address, nextAddress: nat, events: seq<KeyEvent>)
    requires admin != relay && admin.key < nextAddress && relay.key < nextAddress
    ensures Exact(BookAfter(Book(admin, relay, [], [], [relay], nextAddress), events))
  {
    if events != [] {
      var init := events[..|events| - 1];
      BookkeepingIsExact(admin, relay, nextAddress, init);
      var before := BookAfter(Book(admin, relay, [], [], [relay], nextAddress), init);
      match events[|events| - 1]
      case Rotated(kind) => RotateKeepsExact(before, kind);
      case Transferred => TransferKeepsExact(before);
      case Generated =>
    }
  }

  // ---- Names and payloads ----

  /** `tx-{n}`, which is also the idempotency key. */
  function TxName(n: nat): TxId {
    "tx-" + Text.Decimal(n)
  }

  lemma TxNameInjective(a: nat, b: nat)
    requires TxName(a) == TxName(b)
    ensures a == b
  {
    assert TxName(a)[3..] == Text.Decimal(a) && TxName(b)[3..] == Text.Decimal(b);
    Text.DecimalInjective(a, b);
  }

  function Pow10(k: nat): nat {
    if k == 0 then 1 else 10 * Pow10(k - 1)
  }

  lemma {:induction false} DecimalLength(n: nat, k: nat)
    requires k > 0 && n < Pow10(k)
    ensures |Text.Decimal(n)| <= k
  {
    if n >= 10 {
      assert k > 1;
      DecimalLength(n / 10, k - 1);
    }
  }

  lemma TxNameFits(n: u32)
    ensures |TxName(n)| <= 64
  {
    assert Pow10(10) == 10_000_000_000;
    DecimalLength(n, 10);
  }

  function Payload(n: nat): CallbackPayload {
    var account := seq(56, i => 'G');
    CallbackPayload(TxName(n), account, 1_000, "USDC", account, TxName(n), "anchor", Deposit, "pending_external")
  }

  // ---- Contract and bookkeeping together ----

  /** Every id and key in use is one of the first `nextTx` names. */
  ghost predicate HandedOut(s: R.State, nextTx: nat) {
    && (forall id :: id in s.txs ==> exists n :: 0 < n <= nextTx && id == TxName(n))
    && (forall k :: k in s.keys ==> exists n :: 0 < n <= nextTx && k == TxName(n))
  }

  /** The harness's copies agree with the contract, and its bookkeeping is exact. */
  ghost predicate Consistent(s: R.State, b: Book, nextTx: nat) {
    && s.admin == Some(b.admin) && s.relay == Some(b.relay)
    && Exact(b)
    && HandedOut(s, nextTx)
  }

  lemma RotationTakesEffect(s: R.State, b: Book, nextTx: nat, next: Address)
    requires Consistent(s, b, nextTx) && next.key < b.nextAddress && next !in b.staleAdmins
    ensures R.Answer(s, R.SetRelaySigner({b.admin}, next)) == Ok(R.Done)
    ensures R.Next(s, R.SetRelaySigner({b.admin}, next)) == s.(relay := Some(next))
    ensures Consistent(s.(relay := Some(next)), AfterRotateTo(b, next), nextTx)
  {
    RotateToKeepsExact(b, next);
  }

  lemma TransferTakesEffect(s: R.State, b: Book, nextTx: nat, next: Address)
    requires Consistent(s, b, nextTx) && next == Address(b.nextAddress)
    ensures R.Next(R.Next(s, R.ProposeAdmin({b.admin}, next)), R.AcceptAdmin({next}, next))
         == s.(admin := Some(next), pendingAdmin := None)
    ensures Consistent(s.(admin := Some(next), pendingAdmin := None), AfterTransfer(b), nextTx)
  {
    TransferKeepsExact(b);
  }

  lemma NameIsNew(s: R.State, n: nat)
    requires HandedOut(s, n)
    ensures TxName(n + 1) !in s.txs && TxName(n + 1) !in s.keys
  {
    forall i | 0 < i <= n ensures TxName(i) != TxName(n + 1) {
      if TxName(i) == TxName(n + 1) {
        TxNameInjective(i, n + 1);
      }
    }
  }

  function AfterRegistration(s: R.State, relay: Address, n: nat): R.State {
    s.(txs := s.txs[TxName(n) := L.NewRecord(1_000, relay)],
       keys := s.keys[TxName(n) := R.KeyEntry(TxName(n), s.now)],
       regEvents := s.regEvents + [TxName(n)])
  }

  lemma RegistrationTakesEffect(s: R.State, b: Book, n: u32)
    requires n > 0 && Consistent(s, b, n - 1)
    ensures var c := R.Register({b.relay}, Payload(n));
            && R.Answer(s, c) == (if s.paused then Err(ContractPaused) else Ok(R.Accepted(TxName(n))))
            && R.Next(s, c) == (if s.paused then s else AfterRegistration(s, b.relay, n))
    ensures TxName(n) !in s.txs
  {
    TxNameFits(n);
    NameIsNew(s, n - 1);
  }

  lemma RegistrationKeepsConsistent(s: R.State, b: Book, n: nat)
    requires n > 0 && Consistent(s, b, n - 1)
    ensures Consistent(s, b, n) && Consistent(AfterRegistration(s, b.relay, n), b, n)
  {
    assert HandedOut(s, n);
    assert HandedOut(AfterRegistration(s, b.relay, n), n);
  }

  lemma MoveKeepsConsistent(s: R.State, b: Book, nextTx: nat, s': R.State)
    requires Consistent(s, b, nextTx) && s' == s.(txs := s'.txs) && s'.txs.Keys == s.txs.Keys
    ensures Consistent(s', b, nextTx)
  {
  }

  type Listing = seq<(TxId, L.TxStatus)>

  function Listed(txs: Listing): set<TxId> {
    set j | 0 <= j < |txs| :: txs[j].0
  }

  /** The status the drain leaves behind. */
  function FinalStatus(status: L.TxStatus): L.TxStatus {
    if status == L.Failed then L.Failed else L.Completed
  }

  /** The listing has every record of the contract once; the first `n` are drained, the
      others are as listed. */
  ghost predicate Drained(records: L.Records, txs: Listing, n: nat) {
    && records.Keys == Listed(txs)
    && (forall i, j :: 0 <= i < j < |txs| ==> txs[i].0 != txs[j].0)
    && (forall j :: 0 <= j < |txs| ==>
          && txs[j].0 in records && txs[j].1 != L.Cancelled
          && records[txs[j].0].status == if j < n then FinalStatus(txs[j].1) else txs[j].1)
  }

  /** The model's statuses are the contract's. */
  ghost predicate Agreement(records: L.Records, txs: Listing) {
    Drained(records, txs, 0)
  }

  lemma NewKeepsAgreement(records: L.Records, txs: Listing, id: TxId, relay: Address)
    requires Agreement(records, txs) && id !in records
    ensures Agreement(records[id := L.NewRecord(1_000, relay)], txs + [(id, L.Pending)])
  {
    var txs' := txs + [(id, L.Pending)];
    assert txs'[|txs|] == (id, L.Pending);
    assert forall j :: 0 <= j < |txs| ==> txs'[j] == txs[j];
    assert Listed(txs') == Listed(txs) + {id};
  }

  lemma MoveKeepsAgreement(before: L.Records, after: L.Records, txs: Listing, i: nat, next: L.TxStatus)
    requires Agreement(before, txs) && i < |txs|
    requires OnlyMoved(before, after, txs[i].0, next) && next != L.Cancelled
    ensures Agreement(after, txs[i := (txs[i].0, next)])
  {
    assert Listed(txs[i := (txs[i].0, next)]) == Listed(txs) by {
      assert forall j :: 0 <= j < |txs| ==> txs[i := (txs[i].0, next)][j].0 == txs[j].0;
    }
  }

  lemma OneMoreDrained(before: L.Records, after: L.Records, txs: Listing, i: nat)
    requires i < |txs| && Drained(before, txs, i)
    requires OnlyMoved(before, after, txs[i].0, FinalStatus(txs[i].1))
    ensures Drained(after, txs, i + 1)
  {
  }

  lemma {:induction false} ListedCount(txs: Listing)
    requires forall i, j :: 0 <= i < j < |txs| ==> txs[i].0 != txs[j].0
    ensures |Listed(txs)| == |txs|
  {
    if txs != [] {
      var init, last := txs[..|txs| - 1], txs[|txs| - 1];
      ListedCount(init);
      assert Listed(txs) == Listed(init) + {last.0};
    }
  }

  // ---- The model of a run ----

  datatype Actor = CurrentRelay | Admin | StaleRelay | StaleAdmin | Stranger

  /** One draw of the generator; indices are taken modulo the list they select from. */
  datatype Choice =
    | RotateKey(kind: RotationKind)
    | ChangeAdmin
    | TogglePause
    | RegisterNext
    | Lifecycle(tx: nat, op: Op, actor: Actor, pick: nat)

  /** What the harness knows between two choices. */
  datatype Model = Model(book: Book, paused: bool, nextTx: nat, txs: Listing)

  /** Where there is no stale key to pick, a fresh address calls. */
  predicate Generates(b: Book, actor: Actor) {
    actor == Stranger || (actor == StaleRelay && b.staleRelays == []) || (actor == StaleAdmin && b.staleAdmins == [])
  }

  function CallerOf(b: Book, actor: Actor, pick: nat): Address {
    if Generates(b, actor) then Address(b.nextAddress)
    else
      match actor
      case CurrentRelay => b.relay
      case Admin => b.admin
      case StaleRelay => b.staleRelays[pick % |b.staleRelays|]
      case StaleAdmin => b.staleAdmins[pick % |b.staleAdmins|]
  }

  function AfterGenerating(b: Book): Book {
    b.(nextAddress := b.nextAddress + 1)
  }

  function AfterCall(admin: Address, relay: Address, txs: Listing, i: nat, op: Op, caller: Address): Listing
    requires i < |txs|
  {
    match Expected(admin, relay, txs[i].1, op, caller)
    case Ok(next) => txs[i := (txs[i].0, next)]
    case Err(_) => txs
  }

  function AfterChoice(m: Model, c: Choice): Model {
    match c
    case RotateKey(kind) => if m.book.relayHistory == [] then m else m.(book := AfterRotate(m.book, kind))
    case ChangeAdmin => m.(book := AfterTransfer(m.book))
    case TogglePause => m.(paused := !m.paused)
    case RegisterNext =>
      m.(nextTx := m.nextTx + 1,
         txs := if m.paused then m.txs else m.txs + [(TxName(m.nextTx + 1), L.Pending)])
    case Lifecycle(tx, op, actor, pick) =>
      if m.txs == [] then m
      else
        m.(book := if Generates(m.book, actor) then AfterGenerating(m.book) else m.book,
           txs := AfterCall(m.book.admin, m.book.relay, m.txs, tx % |m.txs|, op, CallerOf(m.book, actor, pick)))
  }

  /** The model after the choices, the last one last. */
  function ModelRun(m: Model, choices: seq<Choice>): Model {
    if choices == [] then m else AfterChoice(ModelRun(m, choices[..|choices| - 1]), choices[|choices| - 1])
  }

  function Toggles(choices: seq<Choice>): nat {
    if choices == [] then 0
    else Toggles(choices[..|choices| - 1]) + if choices[|choices| - 1].TogglePause? then 1 else 0
  }

  function Registrations(choices: seq<Choice>): nat {
    if choices == [] then 0
    else Registrations(choices[..|choices| - 1]) + if choices[|choices| - 1].RegisterNext? then 1 else 0
  }

  /** Registrations drawn after an even number of pause toggles. */
  function UnpausedRegistrations(choices: seq<Choice>): nat {
    if choices == [] then 0
    else
      var init := choices[..|choices| - 1];
      UnpausedRegistrations(init) + if choices[|choices| - 1].RegisterNext? && Toggles(init) % 2 == 0 then 1 else 0
  }

  lemma OneChoiceCounts(m: Model, c: Choice)
    ensures AfterChoice(m, c).paused == if c.TogglePause? then !m.paused else m.paused
    ensures AfterChoice(m, c).nextTx == m.nextTx + if c.RegisterNext? then 1 else 0
    ensures |AfterChoice(m, c).txs| == |m.txs| + if c.RegisterNext? && !m.paused then 1 else 0
  {
  }

  lemma {:induction false} PauseCount(m: Model, choices: seq<Choice>)
    requires !m.paused
    ensures ModelRun(m, choices).paused <==> Toggles(choices) % 2 == 1
  {
    if choices != [] {
      var init := choices[..|choices| - 1];
      PauseCount(m, init);
      OneChoiceCounts(ModelRun(m, init), choices[|choices| - 1]);
    }
  }

  lemma {:induction false} NameCount(m: Model, choices: seq<Choice>)
    ensures ModelRun(m, choices).nextTx == m.nextTx + Registrations(choices)
  {
    if choices != [] {
      var init := choices[..|choices| - 1];
      NameCount(m, init);
      OneChoiceCounts(ModelRun(m, init), choices[|choices| - 1]);
    }
  }

  lemma {:induction false} RecordCount(m: Model, choices: seq<Choice>)
    requires !m.paused
    ensures |ModelRun(m, choices).txs| == |m.txs| + UnpausedRegistrations(choices)
  {
    if choices != [] {
      var init := choices[..|choices| - 1];
      RecordCount(m, init);
      PauseCount(m, init);
      OneChoiceCounts(ModelRun(m, init), choices[|choices| - 1]);
    }
  }

  /** What a run of the model counts: every toggle flips the pause, every registration
      uses up a name, and those drawn while unpaused, and no others, are listed. */
  lemma ModelCounts(m: Model, choices: seq<Choice>)
    requires !m.paused
    ensures ModelRun(m, choices).paused <==> Toggles(choices) % 2 == 1
    ensures ModelRun(m, choices).nextTx == m.nextTx + Registrations(choices)
    ensures |ModelRun(m, choices).txs| == |m.txs| + UnpausedRegistrations(choices)
  {
    PauseCount(m, choices);
    NameCount(m, choices);
    RecordCount(m, choices);
  }

  /** The key event in a choice: a rotation, a transfer, or an address generated for a
      lifecycle call by a stranger or for want of a stale key. */
  function KeyEventIn(m: Model, c: Choice): seq<KeyEvent> {
    match c
    case RotateKey(kind) => [Rotated(kind)]
    case ChangeAdmin => [Transferred]
    case Lifecycle(_, _, actor, _) =>
      if m.txs != []
         && (actor == Stranger || (actor == StaleRelay && m.book.staleRelays == [])
             || (actor == StaleAdmin && m.book.staleAdmins == []))
      then [Generated] else []
    case _ => []
  }

  function KeyEvents(m: Model, choices: seq<Choice>): seq<KeyEvent> {
    if choices == [] then []
    else
      var init := choices[..|choices| - 1];
      KeyEvents(m, init) + KeyEventIn(ModelRun(m, init), choices[|choices| - 1])
  }

  lemma OneKeyEvent(m: Model, c: Choice)
    ensures AfterChoice(m, c).book == BookAfter(m.book, KeyEventIn(m, c))
  {
    var events := KeyEventIn(m, c);
    if events != [] {
      assert events[..0] == [];
    }
  }

  lemma BookConcat(b: Book, events: seq<KeyEvent>, more: seq<KeyEvent>)
    requires |more| <= 1
    ensures BookAfter(b, events + more) == BookAfter(BookAfter(b, events), more)
  {
    if more == [] {
      assert events + more == events;
    } else {
      assert (events + more)[..|events|] == events && more[..0] == [];
    }
  }

  /** The keys of a run are those its key events make, and nothing else moves a key. */
  lemma {:induction false} KeysFollowTheEvents(m: Model, choices: seq<Choice>)
    ensures ModelRun(m, choices).book == BookAfter(m.book, KeyEvents(m, choices))
  {
    if choices != [] {
      var init, last := choices[..|choices| - 1], choices[|choices| - 1];
      KeysFollowTheEvents(m, init);
      OneKeyEvent(ModelRun(m, init), last);
      BookConcat(m.book, KeyEvents(m, init), KeyEventIn(ModelRun(m, init), last));
    }
  }

  lemma ModelSnoc(m: Model, choices: seq<Choice>, k: nat)
    requires k < |choices|
    ensures ModelRun(m, choices[..k + 1]) == AfterChoice(ModelRun(m, choices[..k]), choices[k])
  {
    assert choices[..k + 1][..k] == choices[..k];
  }

  /** A lifecycle choice moves the chosen transaction along the documented edges if the
      relay or the admin calls, and moves nothing if anyone else does. */
  lemma LifecycleChoice(m: Model, tx: nat, op: Op, actor: Actor, pick: nat)
    requires m.txs != [] && Exact(m.book)
    ensures var i, after := tx % |m.txs|, AfterChoice(m, Lifecycle(tx, op, actor, pick));
            && (actor != CurrentRelay && actor != Admin ==> after.txs == m.txs)
            && (actor == CurrentRelay || actor == Admin ==>
                  && |after.txs| == |m.txs| && after.txs[i].0 == m.txs[i].0
                  && (forall j :: 0 <= j < |m.txs| && j != i ==> after.txs[j] == m.txs[j])
                  && after.txs[i].1
                     == (if op == Start && m.txs[i].1 == L.Pending then L.Processing
                         else if op == Complete && m.txs[i].1 == L.Processing then L.Completed
                         else if op == Fail && (m.txs[i].1 == L.Pending || m.txs[i].1 == L.Processing) then L.Failed
                         else m.txs[i].1))
            && after.paused == m.paused && after.nextTx == m.nextTx
  {
    var caller := CallerOf(m.book, actor, pick);
    if actor == StaleRelay && m.book.staleRelays != [] {
      assert caller in m.book.staleRelays;
    } else if actor == StaleAdmin && m.book.staleAdmins != [] {
      assert caller in m.book.staleAdmins;
    }
  }

  // ---- The world ----

  class World {
    const client: R.Registry
    var admin: Address
    var relay: Address
    var staleRelays: seq<Address>
    var staleAdmins: seq<Address>
    var relayHistory: seq<Address>
    var nextAddress: nat
    var nextTx: u32

    ghost function TheBook(): Book
      reads this
    {
      Book(admin, relay, staleRelays, staleAdmins, relayHistory, nextAddress)
    }

    /** The state of the contract under test. */
    ghost function Contract(): R.State
      reads client, client.store
    {
      client.View()
    }

    ghost predicate Valid()
      reads this, client, client.store
    {
      Consistent(Contract(), TheBook(), nextTx)
    }

    constructor ()
      ensures Valid() && fresh(client) && fresh(client.store) && nextTx == 0
      ensures Contract() == R.Initial(Address(0), Address(1))
      ensures TheBook() == Book(Address(0), Address(1), [], [], [Address(1)], 2)
    {
      client := new R.Registry(Address(0), Address(1));
      admin, relay := Address(0), Address(1);
      staleRelays, staleAdmins, relayHistory := [], [], [Address(1)];
      nextAddress, nextTx := 2, 0;
    }

    method Generate() returns (a: Address)
      requires Valid()
      modifies this`nextAddress
      ensures Valid() && a == Address(old(nextAddress)) && nextAddress == old(nextAddress) + 1
    {
      a := Address(nextAddress);
      nextAddress := nextAddress + 1;
    }

    method RotateTo(next: Address) returns (ok: bool)
      requires Valid() && next.key < nextAddress && next !in staleAdmins
      modifies this`relay, this`staleRelays, this`relayHistory, client`relay
      ensures Valid() && ok
      ensures TheBook() == AfterRotateTo(old(TheBook()), next)
      ensures Contract() == old(Contract()).(relay := Some(next))
    {
      RotationTakesEffect(Contract(), TheBook(), nextTx, next);
      var r := client.SetRelaySigner({admin}, next);
      var previous := relay;
      relay := next;
      if previous != next && previous !in staleRelays {
        staleRelays := staleRelays + [previous];
      }
      staleRelays := Without(staleRelays, next, admin);
      relayHistory := relayHistory + [next];
      ok := r.Ok? && client.relay == Some(relay);
    }

    method Rotate(kind: RotationKind) returns (ok: bool)
      requires Valid()
      modifies this`relay, this`staleRelays, this`relayHistory, this`nextAddress, client`relay
      ensures Valid() && ok
      ensures TheBook() == AfterRotate(old(TheBook()), kind)
      ensures Contract() == old(Contract()).(relay := Some(relay))
    {
      var next := relay;
      match kind {
        case Fresh => next := Generate();
        case SameSigner => next := relay;
        case ToAdmin => next := admin;
        case BackToOriginal =>
          if relay == relayHistory[0] {
            next := Generate();
          } else {
            assert relayHistory[0] in relayHistory;
            next := relayHistory[0];
          }
      }
      ok := RotateTo(next);
    }

    method TransferAdmin()
      requires Valid()
      modifies this`admin, this`staleAdmins, this`nextAddress, client
      ensures Valid()
      ensures TheBook() == AfterTransfer(old(TheBook()))
      ensures Contract() == old(Contract()).(admin := Some(admin), pendingAdmin := None)
    {
      TransferTakesEffect(Contract(), TheBook(), nextTx, Address(nextAddress));
      var next := Generate();
      var proposed := client.ProposeAdmin({admin}, next);
      var accepted := client.AcceptAdmin({next}, next);
      var previous := admin;
      admin := next;
      if previous != relay {
        staleAdmins := staleAdmins + [previous];
      }
    }

    method Step(op: Op, id: TxId, caller: Address) returns (r: Result<R.Reply, ContractError>)
      requires Valid() && id in Contract().txs
      modifies client.store
      ensures Valid() && AsExpected(old(Contract()), Contract(), op, id, caller, r)
    {
      ghost var before := Contract();
      ContractRefinesModel(before, op, id, caller);
      match op {
        case Start => r := client.StartProcessing({caller}, id, caller);
        case Complete => r := client.CompleteTransaction({caller}, id, "hash", caller);
        case Fail => r := client.FailTransaction({caller}, id, "err", caller);
      }
      MoveKeepsConsistent(before, TheBook(), nextTx, Contract());
    }

    /** `get_status`. */
    method Status(id: TxId) returns (status: L.TxStatus)
      requires id in Contract().txs
      ensures status == Contract().txs[id].status
    {
      status := client.store.transactions[id].status;
    }

    /** Every stale relay attempts `op`; each must be turned away with the state as
        it was. */
    method StaleSignersCannot(op: Op, id: TxId) returns (ok: bool)
      requires Valid() && id in Contract().txs
      modifies client.store
      ensures Valid() && ok && Contract() == old(Contract())
    {
      ok := true;
      var before := Status(id);
      for i := 0 to |staleRelays|
        invariant Valid() && ok && Contract() == old(Contract())
      {
        assert staleRelays[i] in staleRelays;
        var r := Step(op, id, staleRelays[i]);
        var after := Status(id);
        ok := ok && r == Err(Unauthorised) && after == before;
      }
    }

    /** One step by the current relay, which the model allows. */
    method RelayStep(op: Op, id: TxId) returns (ok: bool)
      requires Valid() && id in Contract().txs && ModelTransition(Contract().txs[id].status, op).Some?
      modifies client.store
      ensures Valid() && ok && Contract() == old(Contract()).(txs := Contract().txs)
      ensures OnlyMoved(old(Contract().txs), Contract().txs, id,
                        ModelTransition(old(Contract().txs[id].status), op).value)
    {
      var r := Step(op, id, relay);
      ok := r.Ok?;
    }

    /** The current relay takes the transaction to a terminal status. */
    method AssertCanFinish(id: TxId) returns (ok: bool)
      requires Valid() && id in Contract().txs && Contract().txs[id].status != L.Cancelled
      modifies client.store
      ensures Valid() && ok && Contract() == old(Contract()).(txs := Contract().txs)
      ensures OnlyMoved(old(Contract().txs), Contract().txs, id, FinalStatus(old(Contract().txs[id].status)))
    {
      ok := true;
      var status := Status(id);
      match status {
        case Pending =>
          var started := RelayStep(Start, id);
          var completed := RelayStep(Complete, id);
          ok := started && completed;
        case Processing =>
          ok := RelayStep(Complete, id);
        case _ =>
      }
    }

    // ---- Chaos ----

    /** The next payload, registered by the current relay. */
    method RegisterPayload() returns (r: Result<R.Reply, ContractError>, id: TxId)
      requires Valid() && nextTx < U32_MAX
      modifies this`nextTx, client, client.store
      ensures Valid() && nextTx == old(nextTx) + 1 && id == TxName(nextTx) && id !in old(Contract().txs)
      ensures r == if old(Contract().paused) then Err(ContractPaused) else Ok(R.Accepted(id))
      ensures Contract() == if r.Ok? then AfterRegistration(old(Contract()), relay, nextTx) else old(Contract())
    {
      RegistrationTakesEffect(Contract(), TheBook(), nextTx + 1);
      RegistrationKeepsConsistent(Contract(), TheBook(), nextTx + 1);
      nextTx := nextTx + 1;
      id := TxName(nextTx);
      r := client.RegisterCallback({relay}, Payload(nextTx));
    }

    /** Registration is refused exactly while paused. */
    method RegisterNext(txs: Listing, paused: bool) returns (ok: bool, txs': Listing)
      requires Valid() && Agreement(Contract().txs, txs) && Contract().paused == paused && nextTx < U32_MAX
      modifies this`nextTx, client, client.store
      ensures Valid() && Agreement(Contract().txs, txs') && Contract().paused == paused && ok
      ensures nextTx == old(nextTx) + 1
      ensures txs' == if paused then txs else txs + [(TxName(nextTx), L.Pending)]
    {
      ghost var before := Contract().txs;
      var r, id := RegisterPayload();
      if paused {
        return r == Err(ContractPaused), txs;
      }
      NewKeepsAgreement(before, txs, id, relay);
      txs' := txs + [(id, L.Pending)];
      ok := r.Ok?;
    }

    method PickCaller(actor: Actor, pick: nat) returns (caller: Address)
      requires Valid()
      modifies this`nextAddress
      ensures Valid() && caller == CallerOf(old(TheBook()), actor, pick)
      ensures TheBook() == if Generates(old(TheBook()), actor) then AfterGenerating(old(TheBook())) else old(TheBook())
    {
      match actor {
        case CurrentRelay => caller := relay;
        case Admin => caller := admin;
        case StaleRelay =>
          if staleRelays != [] {
            caller := staleRelays[pick % |staleRelays|];
          } else {
            caller := Generate();
          }
        case StaleAdmin =>
          if staleAdmins != [] {
            caller := staleAdmins[pick % |staleAdmins|];
          } else {
            caller := Generate();
          }
        case Stranger => caller := Generate();
      }
    }

    /** What the harness knows now. */
    ghost function TheModel(txs: Listing, paused: bool): Model
      reads this
    {
      Model(TheBook(), paused, nextTx, txs)
    }

    /** A lifecycle call by any actor on any transaction gets the model's verdict. */
    method LifecycleCall(txs: Listing, tx: nat, op: Op, actor: Actor, pick: nat) returns (ok: bool, txs': Listing)
      requires Valid() && Agreement(Contract().txs, txs) && txs != []
      modifies this`nextAddress, client.store
      ensures Valid() && Agreement(Contract().txs, txs') && Contract().paused == old(Contract().paused) && ok
      ensures txs' == old(AfterCall(admin, relay, txs, tx % |txs|, op, CallerOf(TheBook(), actor, pick)))
      ensures TheBook() == if Generates(old(TheBook()), actor) then AfterGenerating(old(TheBook())) else old(TheBook())
    {
      var caller := PickCaller(actor, pick);
      ok, txs' := CheckedCall(txs, tx % |txs|, op, caller);
    }

    method CheckedCall(txs: Listing, i: nat, op: Op, caller: Address) returns (ok: bool, txs': Listing)
      requires Valid() && Agreement(Contract().txs, txs) && i < |txs|
      modifies client.store
      ensures Valid() && Agreement(Contract().txs, txs') && Contract().paused == old(Contract().paused) && ok
      ensures txs' == AfterCall(admin, relay, txs, i, op, caller)
    {
      ghost var before := Contract().txs;
      var expected := Expected(admin, relay, txs[i].1, op, caller);
      var got := Step(op, txs[i].0, caller);
      match expected {
        case Ok(next) =>
          MoveKeepsAgreement(before, Contract().txs, txs, i, next);
          txs' := txs[i := (txs[i].0, next)];
          ok := got == Ok(R.Done);
        case Err(error) =>
          txs' := txs;
          ok := got == Err(error);
      }
    }

    method ChaosStep(choice: Choice, txs: Listing, paused: bool) returns (ok: bool, txs': Listing, paused': bool)
      requires Valid() && Agreement(Contract().txs, txs) && Contract().paused == paused && nextTx < U32_MAX
      modifies this, client, client.store
      ensures Valid() && Agreement(Contract().txs, txs') && Contract().paused == paused' && ok
      ensures TheModel(txs', paused') == AfterChoice(old(TheModel(txs, paused)), choice)
      ensures nextTx <= old(nextTx) + 1
    {
      ok, txs', paused' := true, txs, paused;
      match choice {
        case RotateKey(kind) => ok := Rotate(kind);
        case ChangeAdmin => TransferAdmin();
        case TogglePause =>
          var r := client.SetPaused({admin}, !paused);
          paused' := !paused;
        case RegisterNext => ok, txs' := RegisterNext(txs, paused);
        case Lifecycle(tx, op, actor, pick) =>
          if txs != [] {
            ok, txs' := LifecycleCall(txs, tx, op, actor, pick);
          }
      }
    }

    method FinishOne(id: TxId) returns (ok: bool)
      requires Valid() && id in Contract().txs && Contract().txs[id].status != L.Cancelled
      modifies client.store
      ensures Valid() && ok && Contract() == old(Contract()).(txs := Contract().txs)
      ensures OnlyMoved(old(Contract().txs), Contract().txs, id, FinalStatus(old(Contract().txs[id].status)))
    {
      var rejected := StaleSignersCannot(Fail, id);
      var finished := AssertCanFinish(id);
      ok := rejected && finished;
    }

    method Drain(txs: Listing) returns (ok: bool)
      requires Valid() && Agreement(Contract().txs, txs)
      modifies client.store
      ensures Valid() && ok && Drained(Contract().txs, txs, |txs|)
      ensures Contract() == old(Contract()).(txs := Contract().txs)
    {
      ok := true;
      for i := 0 to |txs|
        invariant Valid() && ok && Drained(Contract().txs, txs, i)
        invariant Contract() == old(Contract()).(txs := Contract().txs)
      {
        ghost var before := Contract().txs;
        var finished := FinishOne(txs[i].0);
        OneMoreDrained(before, Contract().txs, txs, i);
        ok := ok && finished;
      }
    }

    /** The sampled part of the run: contract and model move together, choice by
        choice, and no verdict ever differs. */
    method RunSchedule(choices: seq<Choice>) returns (ok: bool, txs: Listing, paused: bool)
      requires Valid() && !Contract().paused && nextTx == 0 && |choices| <= U32_MAX
      modifies this, client, client.store
      ensures Valid() && ok && Agreement(Contract().txs, txs) && Contract().paused == paused
      ensures TheModel(txs, paused) == ModelRun(old(TheModel([], false)), choices)
    {
      ok, txs, paused := true, [], false;
      ghost var start := TheModel([], false);
      assert choices[..0] == [];
      for step := 0 to |choices|
        invariant Valid() && ok && Agreement(Contract().txs, txs) && Contract().paused == paused && nextTx <= step
        invariant TheModel(txs, paused) == ModelRun(start, choices[..step])
      {
        ModelSnoc(start, choices, step);
        var passed;
        passed, txs, paused := ChaosStep(choices[step], txs, paused);
        ok := ok && passed;
      }
      assert choices[..|choices|] == choices;
    }

    /** Whatever the schedule: the contract answers every call as the model expects, and
        afterwards no stale relay can touch any transaction while the current relay
        finishes all of them. The contract then holds one record per registration drawn
        while unpaused, each Failed if the schedule failed it and Completed otherwise,
        and its keys are those the rotations and transfers made. */
    method RunChaos(choices: seq<Choice>) returns (ok: bool, txs: Listing)
      requires Valid() && !Contract().paused && nextTx == 0 && |choices| <= U32_MAX
      modifies this, client, client.store
      ensures Valid() && ok
      ensures txs == ModelRun(old(TheModel([], false)), choices).txs
      ensures Drained(Contract().txs, txs, |txs|)
      ensures forall id :: id in Contract().txs ==>
                Contract().txs[id].status == L.Completed || Contract().txs[id].status == L.Failed
      ensures |Contract().txs| == UnpausedRegistrations(choices) && nextTx == Registrations(choices)
      ensures Contract().paused <==> Toggles(choices) % 2 == 1
      ensures TheBook() == BookAfter(old(TheBook()), KeyEvents(old(TheModel([], false)), choices))
    {
      ghost var start := TheModel([], false);
      var paused;
      ok, txs, paused := RunSchedule(choices);
      var drained := Drain(txs);
      ok := ok && drained;
      ModelCounts(start, choices);
      KeysFollowTheEvents(start, choices);
      ListedCount(txs);
      assert |Contract().txs| == |Contract().txs.Keys|;
    }
  }
}
