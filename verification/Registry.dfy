/**
 The registry entry points: registration against an expiring idempotency key, the
 relay-or-admin role check in front of the lifecycle, pausing, relay rotation and
 the two-step admin transfer.

 `Answer` and `Next` say what each call replies and leaves behind; the class
 `Registry` runs the calls over stored fields.
 */
module Registry {
  import opened Types
  import Access
  import L = Lifecycle

  const IDEMPOTENCY_TTL: nat := 18_000
  const MAX_TX_HASH_LEN: nat := 72

  /** An idempotency key: the transaction it was written for, and when. */
  datatype KeyEntry = KeyEntry(origin: TxId, writtenAt: nat)

  datatype State = State(
    admin: Option<Address>,
    relay: Option<Address>,
    pendingAdmin: Option<Address>,
    paused: bool,
    now: nat,
    keys: map<string, KeyEntry>,
    txs: L.Records,
    regEvents: seq<TxId>)

  datatype Reply = Done | Accepted(id: TxId)

  /** `auth` is the set of addresses whose signature the host accepts for the call. */
  datatype Call =
    | Advance(ledgers: nat)
    | Register(auth: set<Address>, payload: CallbackPayload)
    | Start(auth: set<Address>, id: TxId, caller: Address)
    | Complete(auth: set<Address>, id: TxId, hash: string, caller: Address)
    | Fail(auth: set<Address>, id: TxId, reason: string, caller: Address)
    | SetRelaySigner(auth: set<Address>, next: Address)
    | ProposeAdmin(auth: set<Address>, next: Address)
    | AcceptAdmin(auth: set<Address>, caller: Address)
    | SetPaused(auth: set<Address>, paused: bool)

  /** Just initialised. */
  function Initial(admin: Address, relay: Address): State {
    State(Some(admin), Some(relay), None, false, 0, map[], map[], [])
  }

  // ---- Registration ----

  /** The length and sign caps on a payload, in one fixed order. */
  function PayloadError(p: CallbackPayload): Option<ContractError> {
    if |p.stellarAccount| != 56 then Some(InvalidStellarAccount)
    else if p.amount <= 0 then Some(InvalidAmount)
    else if |p.assetCode| < 1 || |p.assetCode| > 12 then Some(InvalidAssetCode)
    else if |p.assetIssuer| != 56 then Some(InvalidAssetIssuer)
    else if p.idempotencyKey == "" then Some(MissingIdempotencyKey)
    else if |p.transactionId| > 64 || |p.anchorTransactionId| > 64 || |p.callbackStatus| > 32 then Some(StringTooLong)
    else None
  }

  /** The key is in temporary storage and its time has not run out. */
  predicate Live(s: State, key: string) {
    key in s.keys && s.now <= s.keys[key].writtenAt + IDEMPOTENCY_TTL
  }

  function RegisterAnswer(s: State, auth: set<Address>, p: CallbackPayload): Result<Reply, ContractError> {
    if s.paused then Err(ContractPaused)
    else if s.relay.None? then Err(NotInitialised)
    else if s.relay.value !in auth then Err(AuthRequired)
    else if PayloadError(p).Some? then Err(PayloadError(p).value)
    else if Live(s, p.idempotencyKey) then Ok(Accepted(p.transactionId))
    else if p.transactionId in s.txs then Err(DuplicateRequest)
    else Ok(Accepted(p.transactionId))
  }

  /** The call gets as far as writing: unpaused, signed, valid, with neither its
      key live nor its transaction stored. */
  predicate Writes(s: State, auth: set<Address>, p: CallbackPayload) {
    RegisterAnswer(s, auth, p).Ok? && !Live(s, p.idempotencyKey)
  }

  // ---- Roles and the lifecycle ----

  function AdminOnly(s: State, auth: set<Address>): Result<Reply, ContractError> {
    if s.admin.None? then Err(NotInitialised)
    else if s.admin.value !in auth then Err(AuthRequired)
    else Ok(Done)
  }

  function LifecycleAnswer(s: State, auth: set<Address>, op: L.Op, tooLong: bool): Result<Reply, ContractError> {
    match Access.EntryAnswer(s.txs, s.admin, s.relay, auth, op, tooLong)
    case Err(e) => Err(e)
    case Ok(_) => Ok(Done)
  }

  function Answer(s: State, c: Call): Result<Reply, ContractError> {
    match c
    case Advance(_) => Ok(Done)
    case Register(auth, p) => RegisterAnswer(s, auth, p)
    case Start(auth, id, caller) => LifecycleAnswer(s, auth, L.Start(id, caller), false)
    case Complete(auth, id, hash, caller) =>
      LifecycleAnswer(s, auth, L.Complete(id, caller), |hash| > MAX_TX_HASH_LEN)
    case Fail(auth, id, reason, caller) =>
      LifecycleAnswer(s, auth, L.Fail(id, reason, caller), |reason| > L.MAX_REASON_LEN)
    case SetRelaySigner(auth, _) => AdminOnly(s, auth)
    case ProposeAdmin(auth, _) => AdminOnly(s, auth)
    case AcceptAdmin(auth, caller) =>
      if s.pendingAdmin.None? then Err(NoPendingAdmin)
      else if caller !in auth then Err(AuthRequired)
      else if caller != s.pendingAdmin.value then Err(Unauthorised)
      else Ok(Done)
    case SetPaused(auth, _) => AdminOnly(s, auth)
  }

  function WithHash(txs: L.Records, id: TxId, hash: string): L.Records {
    if id in txs then txs[id := txs[id].(stellarTxHash := hash)] else txs
  }

  /** Errors change nothing. */
  function Next(s: State, c: Call): State {
    if Answer(s, c).Err? then s
    else
      match c
      case Advance(ledgers) => s.(now := s.now + ledgers)
      case Register(auth, p) =>
        if Writes(s, auth, p) then
          s.(txs := s.txs[p.transactionId := L.NewRecord(p.amount, s.relay.value)],
             keys := s.keys[p.idempotencyKey := KeyEntry(p.transactionId, s.now)],
             regEvents := s.regEvents + [p.transactionId])
        else s
      case Start(_, id, caller) => s.(txs := L.Apply(s.txs, L.Start(id, caller)))
      case Complete(_, id, hash, caller) => s.(txs := WithHash(L.Apply(s.txs, L.Complete(id, caller)), id, hash))
      case Fail(_, id, reason, caller) => s.(txs := L.Apply(s.txs, L.Fail(id, reason, caller)))
      case SetRelaySigner(_, next) => s.(relay := Some(next))
      case ProposeAdmin(_, next) => s.(pendingAdmin := Some(next))
      case AcceptAdmin(_, caller) => s.(admin := Some(caller), pendingAdmin := None)
      case SetPaused(_, paused) => s.(paused := paused)
  }

  /** The state after the calls, the last one last. */
  function Run(s: State, calls: seq<Call>): State {
    if calls == [] then s else Next(Run(s, calls[..|calls| - 1]), calls[|calls| - 1])
  }

  // ---- Registration over whole runs ----

  /** One `reg` event per stored transaction; every key points at a stored one; a
      hash is recorded in Completed only. */
  ghost predicate Inv(s: State) {
    && (forall i, j :: 0 <= i < j < |s.regEvents| ==> s.regEvents[i] != s.regEvents[j])
    && (forall id :: id in s.regEvents <==> id in s.txs)
    && (forall k :: k in s.keys ==> s.keys[k].origin in s.txs)
    && (forall id :: id in s.txs && s.txs[id].stellarTxHash != "" ==> s.txs[id].status == L.Completed)
    && (forall id :: id in s.txs ==> s.txs[id].amount > 0)
  }

  lemma RegisterKeepsInv(s: State, auth: set<Address>, p: CallbackPayload)
    requires Inv(s)
    ensures Inv(Next(s, Register(auth, p)))
    ensures forall id :: id in s.txs ==> id in Next(s, Register(auth, p)).txs
  {
  }

  /** A transition keeps the ids and amounts, and touches no hash outside Completed. */
  lemma TransitionKeepsRecords(txs: L.Records, op: L.Op)
    requires forall id :: id in txs && txs[id].stellarTxHash != "" ==> txs[id].status == L.Completed
    ensures L.Apply(txs, op).Keys == txs.Keys
    ensures forall id :: id in txs ==> L.Apply(txs, op)[id].amount == txs[id].amount
    ensures forall id :: id in txs && L.Apply(txs, op)[id].stellarTxHash != "" ==>
              L.Apply(txs, op)[id].status == L.Completed
    ensures L.Outcome(txs, op).Ok? ==> op.id in txs && L.Apply(txs, op)[op.id].status == L.Target(op)
  {
  }

  lemma MovesKeepInv(s: State, txs': L.Records)
    requires Inv(s) && txs'.Keys == s.txs.Keys
    requires forall id :: id in s.txs ==> txs'[id].amount == s.txs[id].amount
    requires forall id :: id in s.txs && txs'[id].stellarTxHash != "" ==> txs'[id].status == L.Completed
    ensures Inv(s.(txs := txs'))
  {
  }

  lemma MoveKeepsInv(s: State, op: L.Op)
    requires Inv(s)
    ensures Inv(s.(txs := L.Apply(s.txs, op))) && L.Apply(s.txs, op).Keys == s.txs.Keys
  {
    TransitionKeepsRecords(s.txs, op);
    MovesKeepInv(s, L.Apply(s.txs, op));
  }

  lemma CompletionKeepsInv(s: State, op: L.Op, hash: string)
    requires Inv(s) && op.Complete? && L.Outcome(s.txs, op).Ok?
    ensures Inv(s.(txs := WithHash(L.Apply(s.txs, op), op.id, hash)))
    ensures WithHash(L.Apply(s.txs, op), op.id, hash).Keys == s.txs.Keys
  {
    TransitionKeepsRecords(s.txs, op);
    MovesKeepInv(s, WithHash(L.Apply(s.txs, op), op.id, hash));
  }

  lemma NextKeepsInv(s: State, c: Call)
    requires Inv(s)
    ensures Inv(Next(s, c))
    ensures forall id :: id in s.txs ==> id in Next(s, c).txs
  {
    if Answer(s, c).Ok? {
      match c
      case Register(auth, p) => RegisterKeepsInv(s, auth, p);
      case Start(_, id, caller) => MoveKeepsInv(s, L.Start(id, caller));
      case Fail(_, id, reason, caller) => MoveKeepsInv(s, L.Fail(id, reason, caller));
      case Complete(_, id, hash, caller) => CompletionKeepsInv(s, L.Complete(id, caller), hash);
      case _ =>
    }
  }

  /** Over every run each id is registered at most once and announced by exactly one
      `reg` event, and no record is ever deleted. */
  lemma {:induction false} InvOverRuns(s: State, calls: seq<Call>)
    requires Inv(s)
    ensures Inv(Run(s, calls))
    ensures forall id :: id in s.txs ==> id in Run(s, calls).txs
  {
    if calls != [] {
      InvOverRuns(s, calls[..|calls| - 1]);
      NextKeepsInv(Run(s, calls[..|calls| - 1]), calls[|calls| - 1]);
    }
  }

  /** A replay of a stored transaction changes nothing at all, under the same or
      another key, in the window or at any later ledger, whatever happened since. */
  lemma ReplayChangesNothing(s: State, calls: seq<Call>, auth: set<Address>, p: CallbackPayload)
    requires Inv(s) && p.transactionId in s.txs
    ensures Next(Run(s, calls), Register(auth, p)) == Run(s, calls)
    ensures !Live(Run(s, calls), p.idempotencyKey) ==> Answer(Run(s, calls), Register(auth, p)).Err?
  {
    InvOverRuns(s, calls);
  }

  /** An accepted registration names a stored transaction iff its key was not live
      or its transaction was already stored. */
  lemma AcceptedIsStoredIff(s: State, auth: set<Address>, p: CallbackPayload)
    requires Answer(s, Register(auth, p)).Ok?
    ensures Answer(s, Register(auth, p)) == Ok(Accepted(p.transactionId))
    ensures p.transactionId in Next(s, Register(auth, p)).txs
            <==> !Live(s, p.idempotencyKey) || p.transactionId in s.txs
  {
  }

  /** If live keys are only ever reused with the id they were written for, every
      accepted registration names a stored transaction. */
  lemma HonestKeysAreStored(s: State, calls: seq<Call>, auth: set<Address>, p: CallbackPayload)
    requires Inv(s)
    requires Live(Run(s, calls), p.idempotencyKey) ==>
               Run(s, calls).keys[p.idempotencyKey].origin == p.transactionId
    requires Answer(Run(s, calls), Register(auth, p)).Ok?
    ensures p.transactionId in Next(Run(s, calls), Register(auth, p)).txs
  {
    InvOverRuns(s, calls);
  }

  /** Between writing a key and the end of its window nothing touches it. */
  lemma {:induction false} KeySurvives(s: State, calls: seq<Call>, key: string)
    requires Live(s, key)
    ensures s.now <= Run(s, calls).now
    ensures Run(s, calls).now <= s.keys[key].writtenAt + IDEMPOTENCY_TTL ==>
              key in Run(s, calls).keys && Run(s, calls).keys[key] == s.keys[key]
  {
    if calls != [] {
      KeySurvives(s, calls[..|calls| - 1], key);
    }
  }

  /** A replay, after any calls whatever, never writes; its key is live at least for
      the whole window, and once it is not, the replay is a duplicate. */
  lemma ReplayNeverWrites(s: State, first: set<Address>, p: CallbackPayload, calls: seq<Call>, auth: set<Address>)
    requires Inv(s) && Writes(s, first, p)
    ensures var s1 := Run(Next(s, Register(first, p)), calls);
            && Next(s1, Register(auth, p)) == s1
            && (s1.now <= s.now + IDEMPOTENCY_TTL ==> Live(s1, p.idempotencyKey))
            && (!s1.paused && s1.relay.Some? && s1.relay.value in auth ==>
                  Answer(s1, Register(auth, p))
                  == if Live(s1, p.idempotencyKey) then Ok(Accepted(p.transactionId)) else Err(DuplicateRequest))
  {
    var written := Next(s, Register(first, p));
    RegisterKeepsInv(s, first, p);
    KeySurvives(written, calls, p.idempotencyKey);
    ReplayChangesNothing(written, calls, auth, p);
  }

  /** No call of the run writes `key`: a registration under it changes nothing. */
  ghost predicate KeyNotRewritten(s: State, calls: seq<Call>, key: string) {
    forall i :: 0 <= i < |calls| && calls[i].Register? && calls[i].payload.idempotencyKey == key ==>
      Run(s, calls[..i + 1]) == Run(s, calls[..i])
  }

  lemma KeyStep(s: State, c: Call, key: string)
    requires key in s.keys
    requires c.Register? && c.payload.idempotencyKey == key ==> Next(s, c) == s
    ensures key in Next(s, c).keys && Next(s, c).keys[key] == s.keys[key]
    ensures s.now <= Next(s, c).now
  {
  }

  lemma {:induction false} KeyStays(s: State, calls: seq<Call>, key: string)
    requires key in s.keys && KeyNotRewritten(s, calls, key)
    ensures key in Run(s, calls).keys && Run(s, calls).keys[key] == s.keys[key]
    ensures s.now <= Run(s, calls).now
  {
    if calls != [] {
      var n := |calls| - 1;
      var init := calls[..n];
      assert forall i :: 0 <= i <= n ==> init[..i] == calls[..i];
      assert calls[..n + 1] == calls;
      KeyStays(s, init, key);
      KeyStep(Run(s, init), calls[n], key);
    }
  }

  /** The fate of a replay, to the ledger: after `p` was written at ledger `n`, and as
      long as nothing else writes under its key, a signed replay while unpaused is
      accepted with the same id up to ledger `n + 18_000`, and is a duplicate from the
      next ledger on. */
  lemma ReplayVerdict(s: State, first: set<Address>, p: CallbackPayload, calls: seq<Call>, auth: set<Address>)
    requires Inv(s) && p.transactionId !in s.txs
    requires p.transactionId in Next(s, Register(first, p)).txs
    requires KeyNotRewritten(Next(s, Register(first, p)), calls, p.idempotencyKey)
    ensures var s1 := Run(Next(s, Register(first, p)), calls);
            && Next(s1, Register(auth, p)) == s1
            && (!s1.paused && s1.relay.Some? && s1.relay.value in auth ==>
                  Answer(s1, Register(auth, p))
                  == if s1.now <= s.now + 18_000 then Ok(Accepted(p.transactionId)) else Err(DuplicateRequest))
  {
    var written := Next(s, Register(first, p));
    RegisterKeepsInv(s, first, p);
    KeyStays(written, calls, p.idempotencyKey);
    ReplayChangesNothing(written, calls, auth, p);
  }

  function Sample(id: TxId): CallbackPayload {
    var account := seq(56, i => 'G');
    CallbackPayload(id, account, 1_000, "USDC", account, "k", "anchor", Deposit, "pending")
  }

  /** Otherwise not: a live key reused for another id is accepted under that id,
      and nothing is stored for it. */
  lemma ReusedKeyNamesNothing(admin: Address, relay: Address)
    ensures var s := Initial(admin, relay);
            var s1 := Next(s, Register({relay}, Sample("a")));
            && Answer(s, Register({relay}, Sample("a"))) == Ok(Accepted("a"))
            && Answer(s1, Register({relay}, Sample("b"))) == Ok(Accepted("b"))
            && "b" !in Next(s1, Register({relay}, Sample("b"))).txs
  {
    var s := Initial(admin, relay);
    assert PayloadError(Sample("a")).None? && PayloadError(Sample("b")).None?;
    assert Writes(s, {relay}, Sample("a"));
    assert "a" != "b";
  }

  // ---- Which registrations are accepted, and what they write ----

  /** Under a key never used before, a registration is accepted iff the contract is
      not paused, the relay signed, every field is within its cap and the id is new;
      each error names a cause that is there. */
  lemma RegistrationReplies(s: State, auth: set<Address>, p: CallbackPayload)
    requires p.idempotencyKey !in s.keys
    ensures var a := Answer(s, Register(auth, p));
            && (a.Ok? <==>
                && !s.paused && s.relay.Some? && s.relay.value in auth
                && |p.stellarAccount| == 56 && |p.assetIssuer| == 56
                && 0 < p.amount && 1 <= |p.assetCode| <= 12 && 1 <= |p.idempotencyKey|
                && |p.transactionId| <= 64 && |p.anchorTransactionId| <= 64 && |p.callbackStatus| <= 32
                && p.transactionId !in s.txs)
            && (a == Err(ContractPaused) <==> s.paused)
            && (a == Err(NotInitialised) <==> !s.paused && s.relay.None?)
            && (a == Err(AuthRequired) <==> !s.paused && s.relay.Some? && s.relay.value !in auth)
            && (a == Err(InvalidStellarAccount) ==> |p.stellarAccount| != 56)
            && (a == Err(InvalidAmount) ==> p.amount <= 0)
            && (a == Err(InvalidAssetCode) ==> |p.assetCode| < 1 || |p.assetCode| > 12)
            && (a == Err(InvalidAssetIssuer) ==> |p.assetIssuer| != 56)
            && (a == Err(MissingIdempotencyKey) ==> |p.idempotencyKey| == 0)
            && (a == Err(StringTooLong) ==>
                  |p.transactionId| > 64 || |p.anchorTransactionId| > 64 || |p.callbackStatus| > 32)
            && (a == Err(DuplicateRequest) ==> p.transactionId in s.txs)
            && (a.Err? ==> a.error in {ContractPaused, NotInitialised, AuthRequired, InvalidStellarAccount,
                                       InvalidAmount, InvalidAssetCode, InvalidAssetIssuer, MissingIdempotencyKey,
                                       StringTooLong, DuplicateRequest})
  {
  }

  /** An accepted registration of a new id under a key that is not in use stores the
      payload's amount, pending, for the relay, announces the id once, and writes
      nothing else. */
  lemma RegistrationWrites(s: State, auth: set<Address>, p: CallbackPayload)
    requires Answer(s, Register(auth, p)).Ok? && p.transactionId !in s.txs
    requires p.idempotencyKey in s.keys ==> s.now > s.keys[p.idempotencyKey].writtenAt + 18_000
    ensures s.relay.Some?
    ensures var after := Next(s, Register(auth, p));
            && after.txs == s.txs[p.transactionId := L.Transaction(L.Pending, p.amount, s.relay.value, None, "")]
            && after.keys == s.keys[p.idempotencyKey := KeyEntry(p.transactionId, s.now)]
            && after.regEvents == s.regEvents + [p.transactionId]
            && after == s.(txs := after.txs, keys := after.keys, regEvents := after.regEvents)
  {
  }

  // ---- What the relay's and the admin's calls reply ----

  /** A signed lifecycle call by relay or admin succeeds iff its text fits (72 for a
      hash, 64 for a reason) and the record is in a source of the transition; what it
      then writes is all that changes. */
  lemma LifecycleReplies(s: State, auth: set<Address>, id: TxId, text: string, caller: Address)
    requires s.admin.Some? && s.relay.Some? && caller in auth
    requires caller == s.admin.value || caller == s.relay.value
    ensures var start, complete, fail := Start(auth, id, caller), Complete(auth, id, text, caller),
                                         Fail(auth, id, text, caller);
            && (Answer(s, start).Ok? <==> id in s.txs && s.txs[id].status == L.Pending)
            && (Answer(s, complete).Ok? <==> |text| <= 72 && id in s.txs && s.txs[id].status == L.Processing)
            && (Answer(s, fail).Ok? <==>
                  |text| <= 64 && id in s.txs && (s.txs[id].status == L.Pending || s.txs[id].status == L.Processing))
            && (Answer(s, complete) == Err(StringTooLong) <==> |text| > 72)
            && (Answer(s, fail) == Err(StringTooLong) <==> |text| > 64)
            && (Answer(s, start) == Err(ContractError.NotFound) <==> id !in s.txs)
            && (Answer(s, complete) == Err(ContractError.NotFound) <==> |text| <= 72 && id !in s.txs)
            && (Answer(s, fail) == Err(ContractError.NotFound) <==> |text| <= 64 && id !in s.txs)
            && (Answer(s, start) == Err(InvalidStatusTransition) <==> id in s.txs && s.txs[id].status != L.Pending)
            && (Answer(s, complete) == Err(InvalidStatusTransition) <==>
                  |text| <= 72 && id in s.txs && s.txs[id].status != L.Processing)
            && (Answer(s, fail) == Err(InvalidStatusTransition) <==>
                  |text| <= 64 && id in s.txs && s.txs[id].status != L.Pending && s.txs[id].status != L.Processing)
            && (Answer(s, start).Ok? ==>
                  Next(s, start).txs
                  == s.txs[id := s.txs[id].(status := L.Processing, caller := caller, reason := None)])
            && (Answer(s, complete).Ok? ==>
                  Next(s, complete).txs
                  == s.txs[id := s.txs[id].(status := L.Completed, caller := caller, reason := None,
                                            stellarTxHash := text)])
            && (Answer(s, fail).Ok? ==>
                  Next(s, fail).txs
                  == s.txs[id := s.txs[id].(status := L.Failed, caller := caller, reason := Some(text))])
  {
  }

  /** With the stored admin's signature these calls change their one field; without
      it they change nothing. */
  lemma AdminReplies(s: State, auth: set<Address>, a: Address, paused: bool)
    ensures s.admin.None? ==>
              forall c :: c == SetRelaySigner(auth, a) || c == ProposeAdmin(auth, a) || c == SetPaused(auth, paused) ==>
                Answer(s, c) == Err(NotInitialised) && Next(s, c) == s
    ensures s.admin.Some? && s.admin.value in auth ==>
              && Next(s, SetRelaySigner(auth, a)) == s.(relay := Some(a))
              && Next(s, ProposeAdmin(auth, a)) == s.(pendingAdmin := Some(a))
              && Next(s, SetPaused(auth, paused)) == s.(paused := paused)
    ensures s.admin.Some? && s.admin.value !in auth ==>
              forall c :: c == SetRelaySigner(auth, a) || c == ProposeAdmin(auth, a) || c == SetPaused(auth, paused) ==>
                Answer(s, c) == Err(AuthRequired) && Next(s, c) == s
  {
  }

  // ---- Admin transfer over whole runs ----

  /** Call `j` is an accepted step of an admin transfer. */
  ghost predicate Transfers(s: State, calls: seq<Call>, j: nat)
    requires j < |calls|
  {
    (calls[j].ProposeAdmin? || calls[j].AcceptAdmin?) && Answer(Run(s, calls[..j]), calls[j]).Ok?
  }

  /** Call `i` proposed `a`, signed by the admin of that moment, and is the latest
      accepted step of a transfer before call `k`. */
  ghost predicate OffersAdmin(s: State, calls: seq<Call>, k: nat, a: Address, i: nat)
    requires k <= |calls|
  {
    && i < k
    && calls[i].ProposeAdmin? && calls[i].next == a
    && Run(s, calls[..i]).admin.Some? && Run(s, calls[..i]).admin.value in calls[i].auth
    && forall j :: i < j < k ==> !Transfers(s, calls, j)
  }

  lemma PendingAdminStep(s: State, c: Call)
    ensures Next(s, c).pendingAdmin
         == if c.ProposeAdmin? && Answer(s, c).Ok? then Some(c.next)
            else if c.AcceptAdmin? && Answer(s, c).Ok? then None
            else s.pendingAdmin
    ensures c.ProposeAdmin? ==> (Answer(s, c).Ok? <==> s.admin.Some? && s.admin.value in c.auth)
  {
  }

  lemma RunSnoc(s: State, calls: seq<Call>, k: nat)
    requires 0 < k <= |calls|
    ensures Run(s, calls[..k]) == Next(Run(s, calls[..k - 1]), calls[k - 1])
  {
    assert calls[..k][..k - 1] == calls[..k - 1];
  }

  lemma {:induction false} PendingAdminIff(s: State, calls: seq<Call>, k: nat, a: Address)
    requires k <= |calls| && s.pendingAdmin.None?
    ensures Run(s, calls[..k]).pendingAdmin == Some(a) <==> exists i :: OffersAdmin(s, calls, k, a, i)
  {
    if k == 0 {
      assert calls[..0] == [];
    } else {
      RunSnoc(s, calls, k);
      PendingAdminStep(Run(s, calls[..k - 1]), calls[k - 1]);
      PendingAdminIff(s, calls, k - 1, a);
      if Transfers(s, calls, k - 1) {
        if calls[k - 1].ProposeAdmin? && calls[k - 1].next == a {
          assert OffersAdmin(s, calls, k, a, k - 1);
        }
        if i :| OffersAdmin(s, calls, k, a, i) {
          assert i == k - 1;
        }
      } else {
        if i :| OffersAdmin(s, calls, k, a, i) {
          assert OffersAdmin(s, calls, k - 1, a, i);
        }
        var last := k - 1;
        if i :| OffersAdmin(s, calls, last, a, i) {
          assert OffersAdmin(s, calls, k, a, i);
        }
      }
    }
  }

  /** An acceptance succeeds iff its signed caller is the one that the latest accepted
      step of a transfer proposed, signed by the admin of that moment; the caller is
      then the admin, and no other call ever changes the admin. */
  lemma AdminChangesByAcceptance(s: State, calls: seq<Call>, k: nat)
    requires k < |calls| && s.pendingAdmin.None?
    ensures calls[k].AcceptAdmin? ==>
              (Answer(Run(s, calls[..k]), calls[k]).Ok? <==>
               calls[k].caller in calls[k].auth && exists i :: OffersAdmin(s, calls, k, calls[k].caller, i))
    ensures Run(s, calls[..k + 1]).admin
         == if calls[k].AcceptAdmin? && Answer(Run(s, calls[..k]), calls[k]).Ok?
            then Some(calls[k].caller) else Run(s, calls[..k]).admin
    ensures calls[k].AcceptAdmin? && calls[k].caller in calls[k].auth ==>
              (Answer(Run(s, calls[..k]), calls[k]) == Err(Unauthorised) <==>
               exists a, i :: a != calls[k].caller && OffersAdmin(s, calls, k, a, i))
  {
    RunSnoc(s, calls, k + 1);
    var before := Run(s, calls[..k]);
    if calls[k].AcceptAdmin? {
      PendingAdminIff(s, calls, k, calls[k].caller);
      if before.pendingAdmin.Some? {
        PendingAdminIff(s, calls, k, before.pendingAdmin.value);
        var i :| OffersAdmin(s, calls, k, before.pendingAdmin.value, i);
      }
      forall a, i | OffersAdmin(s, calls, k, a, i) ensures before.pendingAdmin == Some(a) {
        PendingAdminIff(s, calls, k, a);
      }
    }
  }

  // ---- What one call does to one record ----

  predicate IsCompleted(s: State, id: TxId) {
    id in s.txs && s.txs[id].status == L.Completed
  }

  /** Amounts are fixed at registration, Completed is entered by one accepted
      completion and never left, and ledgers only advance. */
  lemma RecordStep(s: State, c: Call, id: TxId)
    ensures s.now <= Next(s, c).now
    ensures id in s.txs ==> id in Next(s, c).txs && Next(s, c).txs[id].amount == s.txs[id].amount
    ensures id in Next(s, c).txs && id !in s.txs ==> Next(s, c).txs[id].amount > 0
    ensures IsCompleted(Next(s, c), id) && !IsCompleted(s, id) <==> c.Complete? && c.id == id && Answer(s, c).Ok?
    ensures IsCompleted(s, id) ==> IsCompleted(Next(s, c), id)
    ensures c.Complete? && c.id == id && Answer(s, c).Ok? ==> id in s.txs
  {
  }

  // ---- Safety and liveness ----

  /** A lifecycle call by anyone but the relay and the admin of the moment, and a
      registration without the current relay's signature, are rejected and change
      nothing, whatever keys the caller may have held before. */
  lemma OutsidersAreRejected(s: State, c: Call)
    requires s.admin.Some? && s.relay.Some?
    requires (c.Start? || c.Complete? || c.Fail?) && c.caller in c.auth
    requires c.caller != s.admin.value && c.caller != s.relay.value
    ensures Answer(s, c) == Err(Unauthorised) && Next(s, c) == s
  {
  }

  lemma UnsignedRegistrationIsRejected(s: State, auth: set<Address>, p: CallbackPayload)
    requires s.relay.Some? ==> s.relay.value !in auth
    ensures Answer(s, Register(auth, p)).Err? && Next(s, Register(auth, p)) == s
  {
  }

  /** The calls with which the current relay finishes a transaction. */
  function FinishingCalls(s: State, id: TxId, hash: string): seq<Call>
    requires s.relay.Some? && id in s.txs
  {
    var relay := s.relay.value;
    match s.txs[id].status
    case Pending => [Start({relay}, id, relay), Complete({relay}, id, hash, relay)]
    case Processing => [Complete({relay}, id, hash, relay)]
    case _ => []
  }

  /** No rotation, transfer or pause can strand a transaction: from every state the
      current relay alone takes it to a terminal status in at most two calls, both
      accepted, leaving every other record as it was. */
  lemma RelayCanFinish(s: State, id: TxId, hash: string)
    requires s.admin.Some? && s.relay.Some? && id in s.txs && |hash| <= MAX_TX_HASH_LEN
    ensures var calls := FinishingCalls(s, id, hash);
            && |calls| <= 2
            && (forall i :: 0 <= i < |calls| ==> Answer(Run(s, calls[..i]), calls[i]).Ok?)
            && id in Run(s, calls).txs && L.Terminal(Run(s, calls).txs[id].status)
            && forall other :: other in s.txs && other != id ==>
                 other in Run(s, calls).txs && Run(s, calls).txs[other] == s.txs[other]
  {
    var calls := FinishingCalls(s, id, hash);
    if |calls| == 2 {
      assert calls[..1] == [calls[0]];
      assert Run(s, [calls[0]]) == Next(s, calls[0]) by {
        assert [calls[0]][..0] == [];
      }
    } else if |calls| == 1 {
      assert calls[..0] == [];
    }
  }

  // ---- The contract ----

  class Registry {
    var admin: Option<Address>
    var relay: Option<Address>
    var pendingAdmin: Option<Address>
    var paused: bool
    var now: nat
    var keys: map<string, KeyEntry>
    var regEvents: seq<TxId>
    const store: L.Store

    ghost function View(): State
      reads this, store
    {
      State(admin, relay, pendingAdmin, paused, now, keys, store.transactions, regEvents)
    }

    constructor (admin: Address, relay: Address)
      ensures fresh(store) && Inv(View())
      ensures View() == Initial(admin, relay)
    {
      this.admin, this.relay, pendingAdmin, paused := Some(admin), Some(relay), None, false;
      now, keys, regEvents := 0, map[], [];
      store := new L.Store();
    }

    method WritePending(p: CallbackPayload, caller: Address)
      requires p.transactionId !in store.transactions
      modifies this`keys, this`regEvents, store`transactions
      ensures store.transactions == old(store.transactions)[p.transactionId := L.NewRecord(p.amount, caller)]
      ensures keys == old(keys)[p.idempotencyKey := KeyEntry(p.transactionId, now)]
      ensures regEvents == old(regEvents) + [p.transactionId]
    {
      store.transactions := store.transactions[p.transactionId := L.NewRecord(p.amount, caller)];
      keys := keys[p.idempotencyKey := KeyEntry(p.transactionId, now)];
      regEvents := regEvents + [p.transactionId];
    }

    method RegisterCallback(auth: set<Address>, p: CallbackPayload) returns (r: Result<Reply, ContractError>)
      modifies this, store
      ensures r == Answer(old(View()), Register(auth, p))
      ensures View() == Next(old(View()), Register(auth, p))
    {
      if paused {
        return Err(ContractPaused);
      }
      if relay.None? {
        return Err(NotInitialised);
      }
      if relay.value !in auth {
        return Err(AuthRequired);
      }
      var invalid := PayloadError(p);
      if invalid.Some? {
        return Err(invalid.value);
      }
      if p.idempotencyKey in keys && now <= keys[p.idempotencyKey].writtenAt + IDEMPOTENCY_TTL {
        return Ok(Accepted(p.transactionId));
      }
      if p.transactionId in store.transactions {
        return Err(DuplicateRequest);
      }
      WritePending(p, relay.value);
      return Ok(Accepted(p.transactionId));
    }

    method CompleteTransaction(auth: set<Address>, id: TxId, hash: string, caller: Address)
      returns (r: Result<Reply, ContractError>)
      modifies store
      ensures r == Answer(old(View()), Complete(auth, id, hash, caller))
      ensures View() == Next(old(View()), Complete(auth, id, hash, caller))
    {
      var role := Access.RequireRelayOrAdmin(admin, relay, auth, caller);
      if role.Err? {
        return Err(role.error);
      }
      if |hash| > MAX_TX_HASH_LEN {
        return Err(StringTooLong);
      }
      var moved := store.CompleteTransaction(id, caller);
      match moved {
        case Err(NotFound) => return Err(ContractError.NotFound);
        case Err(InvalidSource) => return Err(InvalidStatusTransition);
        case Ok(tx) =>
          store.transactions := store.transactions[id := tx.(stellarTxHash := hash)];
          return Ok(Done);
      }
    }

    method FailTransaction(auth: set<Address>, id: TxId, reason: string, caller: Address)
      returns (r: Result<Reply, ContractError>)
      modifies store
      ensures r == Answer(old(View()), Fail(auth, id, reason, caller))
      ensures View() == Next(old(View()), Fail(auth, id, reason, caller))
    {
      var role := Access.RequireRelayOrAdmin(admin, relay, auth, caller);
      if role.Err? {
        return Err(role.error);
      }
      if |reason| > L.MAX_REASON_LEN {
        return Err(StringTooLong);
      }
      var moved := store.FailTransaction(id, reason, caller);
      match moved {
        case Err(NotFound) => return Err(ContractError.NotFound);
        case Err(InvalidSource) => return Err(InvalidStatusTransition);
        case Ok(_) => return Ok(Done);
      }
    }

    method StartProcessing(auth: set<Address>, id: TxId, caller: Address) returns (r: Result<Reply, ContractError>)
      modifies store
      ensures r == Answer(old(View()), Start(auth, id, caller))
      ensures View() == Next(old(View()), Start(auth, id, caller))
    {
      var role := Access.RequireRelayOrAdmin(admin, relay, auth, caller);
      if role.Err? {
        return Err(role.error);
      }
      var moved := store.StartProcessing(id, caller);
      match moved {
        case Err(NotFound) => return Err(ContractError.NotFound);
        case Err(InvalidSource) => return Err(InvalidStatusTransition);
        case Ok(_) => return Ok(Done);
      }
    }

    method RequireAdmin(auth: set<Address>) returns (r: Result<Reply, ContractError>)
      ensures r == AdminOnly(View(), auth)
      ensures r.Ok? <==> admin.Some? && admin.value in auth
    {
      if admin.None? {
        return Err(NotInitialised);
      }
      if admin.value !in auth {
        return Err(AuthRequired);
      }
      return Ok(Done);
    }

    method SetRelaySigner(auth: set<Address>, next: Address) returns (r: Result<Reply, ContractError>)
      modifies this`relay
      ensures r == Answer(old(View()), Call.SetRelaySigner(auth, next))
      ensures View() == Next(old(View()), Call.SetRelaySigner(auth, next))
    {
      r := RequireAdmin(auth);
      if r.Err? {
        return;
      }
      relay := Some(next);
      return Ok(Done);
    }

    method ProposeAdmin(auth: set<Address>, next: Address) returns (r: Result<Reply, ContractError>)
      modifies this`pendingAdmin
      ensures r == Answer(old(View()), Call.ProposeAdmin(auth, next))
      ensures View() == Next(old(View()), Call.ProposeAdmin(auth, next))
    {
      r := RequireAdmin(auth);
      if r.Err? {
        return;
      }
      pendingAdmin := Some(next);
      return Ok(Done);
    }

    method SetPaused(auth: set<Address>, value: bool) returns (r: Result<Reply, ContractError>)
      modifies this`paused
      ensures r == Answer(old(View()), Call.SetPaused(auth, value))
      ensures View() == Next(old(View()), Call.SetPaused(auth, value))
    {
      r := RequireAdmin(auth);
      if r.Err? {
        return;
      }
      paused := value;
      return Ok(Done);
    }

    method AcceptAdmin(auth: set<Address>, caller: Address) returns (r: Result<Reply, ContractError>)
      modifies this
      ensures r == Answer(old(View()), Call.AcceptAdmin(auth, caller))
      ensures View() == Next(old(View()), Call.AcceptAdmin(auth, caller))
    {
      if pendingAdmin.None? {
        return Err(NoPendingAdmin);
      }
      if caller !in auth {
        return Err(AuthRequired);
      }
      if caller != pendingAdmin.value {
        return Err(Unauthorised);
      }
      admin := Some(caller);
      pendingAdmin := None;
      return Ok(Done);
    }
  }
}
