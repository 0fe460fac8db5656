/**
 Fee accrual and the two-key treasury withdrawal, on top of the registry.

 `Answer` and `Next` say what each call replies and leaves behind, over unbounded
 integers; the class `Treasury` runs the calls over `i128` fields with checked
 arithmetic. The theorems are about `Run`: every sequence of treasury and registry
 calls, by every caller, at advancing ledgers, while relay and admin are rotated
 and the contract is paused and unpaused.
 */
module Treasury {
  import opened Types
  import Fee
  import L = Lifecycle
  import R = Registry

  type Bps = b: u32 | b <= Fee.BPS_SCALE
  type Cap = c: i128 | c > 0 witness 1
  type EpochLength = n: u32 | n > 0 witness 1

  datatype Param = BaseFeeBps | TreasuryEpochCap | TreasuryEpochLength

  datatype Proposal = Proposal(amount: i128, destination: Address)

  datatype Epoch = Epoch(start: nat, withdrawn: int)

  datatype State = State(
    reg: R.State,
    feeBps: Option<Bps>,
    epochCap: Option<Cap>,
    epochLength: Option<EpochLength>,
    balance: int,
    pending: Option<Proposal>,
    epoch: Option<Epoch>)

  /** `Core` is any call of the registry; a completion among them accrues the fee. */
  datatype Call =
    | Core(call: R.Call)
    | SetParam(auth: set<Address>, param: Param, value: int)
    | Propose(auth: set<Address>, proposal: Proposal)
    | Authorize(auth: set<Address>, caller: Address, proposal: Proposal)

  // ---- What each call answers and leaves behind ----

  predicate InRange(param: Param, value: int) {
    match param
    case BaseFeeBps => 0 <= value <= Fee.BPS_SCALE
    case TreasuryEpochCap => 0 < value <= I128_MAX
    case TreasuryEpochLength => 0 < value <= U32_MAX
  }

  predicate Configured(s: State) {
    s.epochCap.Some? && s.epochLength.Some?
  }

  /** The plain floor fee owed on completing `id` now. */
  function FeeDue(s: State, id: TxId): nat {
    if id !in s.reg.txs || s.reg.txs[id].amount <= 0 then 0
    else Fee.FloorFee(s.reg.txs[id].amount, s.feeBps.GetOr(0))
  }

  function Accrual(s: State, c: R.Call): nat {
    if c.Complete? then FeeDue(s, c.id) else 0
  }

  /** The epoch a withdrawal made now falls into. */
  function CurrentEpoch(s: State): Epoch
    requires s.epochLength.Some?
  {
    if s.epoch.Some? && s.reg.now < s.epoch.value.start + s.epochLength.value then s.epoch.value
    else Epoch(s.reg.now, 0)
  }

  function Answer(s: State, c: Call): Result<R.Reply, ContractError> {
    match c
    case Core(call) =>
      var a := R.Answer(s.reg, call);
      if a.Ok? && s.balance + Accrual(s, call) > I128_MAX then Err(ArithmeticOverflow) else a
    case SetParam(auth, param, value) =>
      var a := R.AdminOnly(s.reg, auth);
      if a.Err? then a
      else if !InRange(param, value) then Err(InvalidParamValue)
      else Ok(R.Done)
    case Propose(auth, p) =>
      var a := R.AdminOnly(s.reg, auth);
      if a.Err? then a
      else if !Configured(s) then Err(TreasuryNotConfigured)
      else if p.amount <= 0 then Err(InvalidWithdrawalAmount)
      else if p.amount > s.balance then Err(InsufficientTreasuryBalance)
      else Ok(R.Done)
    case Authorize(auth, caller, p) =>
      if caller !in auth then Err(AuthRequired)
      else if s.reg.relay != Some(caller) then Err(WithdrawalNotRelaySigner)
      else if !Configured(s) then Err(TreasuryNotConfigured)
      else if s.pending.None? then Err(NoPendingWithdrawal)
      else if p != s.pending.value then Err(WithdrawalProposalMismatch)
      else if p.amount > s.balance then Err(InsufficientTreasuryBalance)
      else if CurrentEpoch(s).withdrawn + p.amount > I128_MAX then Err(ArithmeticOverflow)
      else if CurrentEpoch(s).withdrawn + p.amount > s.epochCap.value then Err(WithdrawalCapExceeded)
      else Ok(R.Done)
  }

  /** Errors change nothing. */
  function Next(s: State, c: Call): State {
    if Answer(s, c).Err? then s
    else
      match c
      case Core(call) => s.(reg := R.Next(s.reg, call), balance := s.balance + Accrual(s, call))
      case SetParam(_, BaseFeeBps, v) => s.(feeBps := Some(v))
      case SetParam(_, TreasuryEpochCap, v) => s.(epochCap := Some(v))
      case SetParam(_, TreasuryEpochLength, v) => s.(epochLength := Some(v))
      case Propose(_, p) => s.(pending := Some(p))
      case Authorize(_, _, p) => AfterPayout(s, p)
  }

  function AfterPayout(s: State, p: Proposal): State
    requires s.epochLength.Some?
  {
    s.(balance := s.balance - p.amount, pending := None,
       epoch := Some(Epoch(CurrentEpoch(s).start, CurrentEpoch(s).withdrawn + p.amount)))
  }

  function Run(s: State, calls: seq<Call>): State
    decreases |calls|
  {
    if calls == [] then s else Run(Next(s, calls[0]), calls[1..])
  }

  // ---- The invariant ----

  ghost predicate Inv(s: State) {
    && 0 <= s.balance <= I128_MAX
    && (s.pending.Some? ==> Configured(s) && 0 < s.pending.value.amount <= s.balance)
    && (s.epoch.Some? ==> s.epoch.value.start <= s.reg.now && 0 < s.epoch.value.withdrawn <= I128_MAX)
    && AmountsPositive(s.reg)
  }

  ghost predicate AmountsPositive(s: R.State) {
    forall id :: id in s.txs ==> s.txs[id].amount > 0
  }

  lemma CoreStep(s: R.State, c: R.Call)
    requires AmountsPositive(s)
    ensures AmountsPositive(R.Next(s, c)) && s.now <= R.Next(s, c).now
  {
    forall id | id in R.Next(s, c).txs ensures R.Next(s, c).txs[id].amount > 0 {
      R.RecordStep(s, c, id);
    }
  }

  lemma NextKeepsInv(s: State, c: Call)
    requires Inv(s)
    ensures Inv(Next(s, c))
  {
    if c.Core? {
      CoreStep(s.reg, c.call);
    }
  }

  lemma {:induction false} InvOverRuns(s: State, calls: seq<Call>)
    requires Inv(s)
    ensures Inv(Run(s, calls))
    decreases |calls|
  {
    if calls != [] {
      NextKeepsInv(s, calls[0]);
      InvOverRuns(Next(s, calls[0]), calls[1..]);
    }
  }

  /** Proposals may be replaced, keys rotated and balances moved between the two
      signatures, yet whoever authorises: the debit is always covered, and a pending
      proposal always finds the treasury configured. */
  lemma DebitNeverUnderflows(s: State, calls: seq<Call>, c: Call)
    requires Inv(s) && c.Authorize?
    ensures Answer(Run(s, calls), c) != Err(InsufficientTreasuryBalance)
    ensures Run(s, calls).pending.Some? ==> Answer(Run(s, calls), c) != Err(TreasuryNotConfigured)
    ensures Run(s, calls).pending.Some? ==> Run(s, calls).pending.value.amount <= Run(s, calls).balance
  {
    InvOverRuns(s, calls);
  }

  // ---- Conservation ----

  datatype Completion = Completion(id: TxId, amount: i128, bps: Bps)

  datatype Payout = Payout(ledger: nat, amount: int, epochStart: nat, destination: Address)

  function CompletedBy(s: State, c: Call): seq<Completion> {
    if c.Core? && c.call.Complete? && c.call.id in s.reg.txs && Answer(s, c).Ok?
    then [Completion(c.call.id, s.reg.txs[c.call.id].amount, s.feeBps.GetOr(0))] else []
  }

  function WithdrawnBy(s: State, c: Call): seq<Payout> {
    if c.Authorize? && Answer(s, c).Ok? then [PayoutNow(s, c.proposal)] else []
  }

  function PayoutNow(s: State, p: Proposal): Payout
    requires s.epochLength.Some?
  {
    Payout(s.reg.now, p.amount, CurrentEpoch(s).start, p.destination)
  }

  /** Every completion of the run, with the rate in force at that moment. */
  function Completions(s: State, calls: seq<Call>): seq<Completion>
    decreases |calls|
  {
    if calls == [] then [] else CompletedBy(s, calls[0]) + Completions(Next(s, calls[0]), calls[1..])
  }

  /** Every executed withdrawal of the run. */
  function Withdrawals(s: State, calls: seq<Call>): seq<Payout>
    decreases |calls|
  {
    if calls == [] then [] else WithdrawnBy(s, calls[0]) + Withdrawals(Next(s, calls[0]), calls[1..])
  }

  /** The sum of `compute_fee` over a list of completions. */
  function SumFees(cs: seq<Completion>): int {
    if cs == [] then 0
    else
      var fee := Fee.ComputeFee(cs[0].amount, cs[0].bps);
      (if fee.Ok? then fee.value else 0) + SumFees(cs[1..])
  }

  function SumWithdrawn(ws: seq<Payout>): int {
    if ws == [] then 0 else ws[0].amount + SumWithdrawn(ws[1..])
  }

  lemma SumFeesPrepend(cs: seq<Completion>, rest: seq<Completion>)
    requires |cs| <= 1
    ensures SumFees(cs + rest) == SumFees(cs) + SumFees(rest)
  {
    if cs == [] {
      assert cs + rest == rest;
    } else {
      assert (cs + rest)[1..] == rest && cs[1..] == [];
    }
  }

  lemma SumWithdrawnPrepend(ws: seq<Payout>, rest: seq<Payout>)
    requires |ws| <= 1
    ensures SumWithdrawn(ws + rest) == SumWithdrawn(ws) + SumWithdrawn(rest)
  {
    if ws == [] {
      assert ws + rest == rest;
    } else {
      assert (ws + rest)[1..] == rest && ws[1..] == [];
    }
  }

  lemma FeeOfCompletion(s: State, c: Call)
    requires Inv(s) && c.Core? && c.call.Complete? && Answer(s, c).Ok?
    ensures SumFees(CompletedBy(s, c)) == FeeDue(s, c.call.id)
  {
    R.RecordStep(s.reg, c.call, c.call.id);
    var cs := CompletedBy(s, c);
    Fee.LegalRateFee(cs[0].amount, cs[0].bps);
    assert cs[1..] == [];
  }

  /** What one call does to the balance. */
  lemma BalanceStep(s: State, c: Call)
    requires Inv(s)
    ensures Next(s, c).balance == s.balance + SumFees(CompletedBy(s, c)) - SumWithdrawn(WithdrawnBy(s, c))
  {
    if c.Core? && c.call.Complete? && Answer(s, c).Ok? {
      FeeOfCompletion(s, c);
    } else if c.Authorize? && Answer(s, c).Ok? {
      assert WithdrawnBy(s, c)[1..] == [];
    }
  }

  /** The balance is what was there, plus each completion's fee at the rate of its
      own time, minus what was withdrawn, and it stays within `0..i128::MAX`. */
  lemma {:induction false} Conservation(s: State, calls: seq<Call>)
    requires Inv(s)
    ensures Run(s, calls).balance
         == s.balance + SumFees(Completions(s, calls)) - SumWithdrawn(Withdrawals(s, calls))
    ensures 0 <= Run(s, calls).balance <= I128_MAX
    decreases |calls|
  {
    if calls != [] {
      var s1 := Next(s, calls[0]);
      NextKeepsInv(s, calls[0]);
      Conservation(s1, calls[1..]);
      BalanceStep(s, calls[0]);
      SumFeesPrepend(CompletedBy(s, calls[0]), Completions(s1, calls[1..]));
      SumWithdrawnPrepend(WithdrawnBy(s, calls[0]), Withdrawals(s1, calls[1..]));
    }
  }

  function Count(cs: seq<Completion>, id: TxId): nat {
    if cs == [] then 0 else (if cs[0].id == id then 1 else 0) + Count(cs[1..], id)
  }

  lemma CompletionStep(s: State, c: Call, id: TxId)
    ensures Count(CompletedBy(s, c), id) <= 1
    ensures Count(CompletedBy(s, c), id) == 1 <==> R.IsCompleted(Next(s, c).reg, id) && !R.IsCompleted(s.reg, id)
    ensures R.IsCompleted(s.reg, id) ==> R.IsCompleted(Next(s, c).reg, id)
    ensures id in s.reg.txs ==> id in Next(s, c).reg.txs && Next(s, c).reg.txs[id].amount == s.reg.txs[id].amount
    ensures forall x :: x in CompletedBy(s, c) ==> x.id in s.reg.txs && x.amount == s.reg.txs[x.id].amount
  {
    var cs := CompletedBy(s, c);
    assert cs == [] || (|cs| == 1 && Count(cs, id) == (if cs[0].id == id then 1 else 0) + Count(cs[1..], id));
    if c.Core? {
      R.RecordStep(s.reg, c.call, id);
    }
  }

  lemma {:induction false} CountConcat(a: seq<Completion>, b: seq<Completion>, id: TxId)
    ensures Count(a + b, id) == Count(a, id) + Count(b, id)
  {
    if a == [] {
      assert a + b == b;
    } else {
      assert (a + b)[1..] == a[1..] + b;
      CountConcat(a[1..], b, id);
    }
  }

  /** Fees are charged once per transaction that ends up Completed and for no
      other. */
  lemma {:induction false} CompletionsAreTheCompleted(s: State, calls: seq<Call>, id: TxId)
    ensures Count(Completions(s, calls), id) <= 1
    ensures Count(Completions(s, calls), id) == 1 <==>
            R.IsCompleted(Run(s, calls).reg, id) && !R.IsCompleted(s.reg, id)
    ensures R.IsCompleted(s.reg, id) ==> R.IsCompleted(Run(s, calls).reg, id)
    decreases |calls|
  {
    if calls != [] {
      var s1 := Next(s, calls[0]);
      CompletionStep(s, calls[0], id);
      CompletionsAreTheCompleted(s1, calls[1..], id);
      CountConcat(CompletedBy(s, calls[0]), Completions(s1, calls[1..]), id);
    }
  }

  /** A registered amount never changes, and it is the amount the fee is taken on. */
  lemma {:induction false} AmountsAreTheRegistered(s: State, calls: seq<Call>, id: TxId)
    ensures id in s.reg.txs ==>
              id in Run(s, calls).reg.txs && Run(s, calls).reg.txs[id].amount == s.reg.txs[id].amount
    ensures forall c :: c in Completions(s, calls) && c.id == id ==>
              id in Run(s, calls).reg.txs && c.amount == Run(s, calls).reg.txs[id].amount
    decreases |calls|
  {
    if calls != [] {
      CompletionStep(s, calls[0], id);
      AmountsAreTheRegistered(Next(s, calls[0]), calls[1..], id);
    }
  }

  /** An accrual that would overflow rejects a completion, but it strands nothing:
      the relay can still fail the transaction, at no fee. */
  lemma OverflowStrandsNothing(s: State, id: TxId)
    requires Inv(s) && s.reg.admin.Some? && s.reg.relay.Some?
    requires id in s.reg.txs && !L.Terminal(s.reg.txs[id].status)
    ensures var c := Core(R.Fail({s.reg.relay.value}, id, "", s.reg.relay.value));
            Answer(s, c) == Ok(R.Done) && L.Terminal(Next(s, c).reg.txs[id].status) && Next(s, c).balance == s.balance
  {
  }

  // ---- Two keys ----

  function At(s: State, calls: seq<Call>, k: nat): State
    requires k <= |calls|
    decreases |calls|
  {
    if k == 0 then s else At(Next(s, calls[0]), calls[1..], k - 1)
  }

  lemma {:induction false} AtNext(s: State, calls: seq<Call>, k: nat)
    requires k < |calls|
    ensures At(s, calls, k + 1) == Next(At(s, calls, k), calls[k])
    decreases |calls|
  {
    if k > 0 {
      AtNext(Next(s, calls[0]), calls[1..], k - 1);
    }
  }

  /** Call `i` succeeds as a proposal or as an authorisation. */
  ghost predicate Moves(s: State, calls: seq<Call>, i: nat)
    requires i < |calls|
  {
    (calls[i].Propose? || calls[i].Authorize?) && Answer(At(s, calls, i), calls[i]).Ok?
  }

  ghost predicate SignedBy(auth: set<Address>, key: Option<Address>) {
    key.Some? && key.value in auth
  }

  /** Call `i` is the proposal of `p` that call `k` still sees, signed by the admin
      of that moment. */
  ghost predicate ProposedAt(s: State, calls: seq<Call>, k: nat, p: Proposal, i: nat)
    requires k <= |calls|
  {
    && i < k
    && calls[i].Propose? && calls[i].proposal == p
    && SignedBy(calls[i].auth, At(s, calls, i).reg.admin)
    && Moves(s, calls, i)
    && forall j :: i < j < k ==> !Moves(s, calls, j)
  }

  /** Where a pending proposal comes from, one call back. */
  lemma PendingStep(s: State, c: Call)
    requires Next(s, c).pending.Some?
    ensures c.Propose? && Answer(s, c).Ok? ==>
              Next(s, c).pending.value == c.proposal && SignedBy(c.auth, s.reg.admin)
    ensures !(c.Propose? && Answer(s, c).Ok?) ==>
              Next(s, c).pending == s.pending && !(c.Authorize? && Answer(s, c).Ok?)
  {
  }

  lemma {:induction false} PendingWasProposed(s: State, calls: seq<Call>, k: nat)
    requires k <= |calls| && s.pending.None?
    ensures At(s, calls, k).pending.Some? ==>
              exists i :: ProposedAt(s, calls, k, At(s, calls, k).pending.value, i)
  {
    if k > 0 {
      PendingWasProposed(s, calls, k - 1);
      AtNext(s, calls, k - 1);
      var before, now := At(s, calls, k - 1), At(s, calls, k);
      if now.pending.Some? {
        PendingStep(before, calls[k - 1]);
        if Moves(s, calls, k - 1) {
          assert ProposedAt(s, calls, k, now.pending.value, k - 1);
        } else {
          var i :| ProposedAt(s, calls, k - 1, before.pending.value, i);
          assert ProposedAt(s, calls, k, now.pending.value, i);
        }
      }
    }
  }

  /** No single key moves funds, however the keys are rotated: an executed withdrawal
      carries the signature of the relay of its own moment and restates, to the unit
      and the destination, the latest successful proposal, signed by the admin of
      that proposal's moment; between the two no other proposal or execution
      succeeded, so one proposal pays out at most once. */
  lemma WithdrawalNeedsBothKeys(s: State, calls: seq<Call>, k: nat)
    requires k < |calls| && s.pending.None?
    requires calls[k].Authorize? && Answer(At(s, calls, k), calls[k]).Ok?
    ensures SignedBy(calls[k].auth, At(s, calls, k).reg.relay)
    ensures exists i :: ProposedAt(s, calls, k, calls[k].proposal, i)
    ensures At(s, calls, k + 1).balance == At(s, calls, k).balance - calls[k].proposal.amount
    ensures At(s, calls, k + 1).pending.None?
  {
    PendingWasProposed(s, calls, k);
    AtNext(s, calls, k);
  }

  // ---- The epoch cap ----

  /** The call is accepted and sets `param`. */
  predicate Sets(s: State, c: Call, param: Param) {
    c.SetParam? && c.param == param && Answer(s, c).Ok?
  }

  /** No accepted call of the run sets `param`. */
  ghost predicate Untouched(s: State, calls: seq<Call>, param: Param)
    decreases |calls|
  {
    calls == [] || (!Sets(s, calls[0], param) && Untouched(Next(s, calls[0]), calls[1..], param))
  }

  /** The limits are set to `cap` and `len` and no accepted call changes them. */
  ghost predicate LimitsFixed(s: State, calls: seq<Call>, cap: Cap, len: EpochLength) {
    && s.epochCap == Some(cap) && s.epochLength == Some(len)
    && Untouched(s, calls, TreasuryEpochCap) && Untouched(s, calls, TreasuryEpochLength)
  }

  /** Total withdrawn within the epoch that opened at `start`. */
  function EpochTotal(ws: seq<Payout>, start: nat): int {
    if ws == [] then 0 else (if ws[0].epochStart == start then ws[0].amount else 0) + EpochTotal(ws[1..], start)
  }

  /** Total withdrawn at ledgers `from .. from + len`. */
  function WindowTotal(ws: seq<Payout>, from: int, len: nat): int {
    if ws == [] then 0
    else (if from <= ws[0].ledger < from + len then ws[0].amount else 0) + WindowTotal(ws[1..], from, len)
  }

  function Room(cap: int, withdrawn: int): nat {
    if withdrawn >= cap then 0 else cap - withdrawn
  }

  /** What epoch `start` can still pay out from state `s` on. */
  function EpochRoom(s: State, start: nat, cap: Cap): nat {
    if s.epoch.Some? && s.epoch.value.start == start then Room(cap, s.epoch.value.withdrawn)
    else if s.epoch.Some? && s.epoch.value.start > start then 0
    else cap
  }

  lemma EpochRoomPays(s: State, c: Call, cap: Cap, start: nat)
    requires Inv(s) && s.epochCap == Some(cap) && !Sets(s, c, TreasuryEpochCap)
    ensures EpochTotal(WithdrawnBy(s, c), start) + EpochRoom(Next(s, c), start, cap) <= EpochRoom(s, start, cap)
  {
    if c.Authorize? && Answer(s, c).Ok? {
      var w := PayoutNow(s, c.proposal);
      assert WithdrawnBy(s, c) == [w];
      assert EpochTotal([w], start) == if w.epochStart == start then w.amount else 0;
    }
  }

  lemma {:induction false} EpochTotalConcat(a: seq<Payout>, b: seq<Payout>, start: nat)
    ensures EpochTotal(a + b, start) == EpochTotal(a, start) + EpochTotal(b, start)
  {
    if a == [] {
      assert a + b == b;
    } else {
      assert (a + b)[1..] == a[1..] + b;
      EpochTotalConcat(a[1..], b, start);
    }
  }

  lemma {:induction false} EpochRoomBounds(s: State, calls: seq<Call>, cap: Cap, start: nat)
    requires Inv(s) && s.epochCap == Some(cap) && Untouched(s, calls, TreasuryEpochCap)
    ensures EpochTotal(Withdrawals(s, calls), start) <= EpochRoom(s, start, cap)
    decreases |calls|
  {
    if calls != [] {
      var s1 := Next(s, calls[0]);
      NextKeepsInv(s, calls[0]);
      EpochRoomPays(s, calls[0], cap, start);
      EpochRoomBounds(s1, calls[1..], cap, start);
      EpochTotalConcat(WithdrawnBy(s, calls[0]), Withdrawals(s1, calls[1..]), start);
    }
  }

  /** Withdrawals of one epoch total at most the cap, in every run that leaves the
      cap alone, even with both keys cooperating and the length changing. */
  lemma EpochCap(s: State, calls: seq<Call>, cap: Cap, start: nat)
    requires Inv(s) && s.epochCap == Some(cap) && Untouched(s, calls, TreasuryEpochCap)
    ensures EpochTotal(Withdrawals(s, calls), start) <= cap
  {
    EpochRoomBounds(s, calls, cap, start);
  }

  /** The most a window can see: two epochs share it, unless it is one ledger long. */
  function WindowBound(cap: Cap, len: EpochLength): nat {
    if len == 1 then cap else 2 * cap - 1
  }

  /** What can still be paid out inside the window `from .. from + len` from state
      `s` on: the potential that every call spends from. */
  function WindowRoom(s: State, from: int, cap: Cap, len: EpochLength): nat {
    if s.reg.now >= from + len then 0
    else if s.epoch.Some? && s.epoch.value.start >= from then Room(cap, s.epoch.value.withdrawn)
    else if s.epoch.Some? && s.epoch.value.start > from - len then Room(cap, s.epoch.value.withdrawn) + cap
    else WindowBound(cap, len)
  }

  lemma WindowRoomPays(s: State, c: Call, from: int, cap: Cap, len: EpochLength)
    requires Inv(s) && s.epochCap == Some(cap) && s.epochLength == Some(len)
    requires !Sets(s, c, TreasuryEpochCap) && !Sets(s, c, TreasuryEpochLength)
    ensures WindowTotal(WithdrawnBy(s, c), from, len) + WindowRoom(Next(s, c), from, cap, len)
         <= WindowRoom(s, from, cap, len)
  {
    if c.Authorize? && Answer(s, c).Ok? {
      var w := PayoutNow(s, c.proposal);
      assert WithdrawnBy(s, c) == [w];
      assert WindowTotal([w], from, len) == if from <= s.reg.now < from + len then w.amount else 0;
    } else if c.Core? {
      CoreStep(s.reg, c.call);
    }
  }

  lemma {:induction false} WindowTotalConcat(a: seq<Payout>, b: seq<Payout>, from: int, len: nat)
    ensures WindowTotal(a + b, from, len) == WindowTotal(a, from, len) + WindowTotal(b, from, len)
  {
    if a == [] {
      assert a + b == b;
    } else {
      assert (a + b)[1..] == a[1..] + b;
      WindowTotalConcat(a[1..], b, from, len);
    }
  }

  lemma {:induction false} WindowRoomBounds(s: State, calls: seq<Call>, cap: Cap, len: EpochLength, from: int)
    requires Inv(s) && LimitsFixed(s, calls, cap, len)
    ensures WindowTotal(Withdrawals(s, calls), from, len) <= WindowRoom(s, from, cap, len)
    decreases |calls|
  {
    if calls != [] {
      var s1 := Next(s, calls[0]);
      NextKeepsInv(s, calls[0]);
      WindowRoomPays(s, calls[0], from, cap, len);
      WindowRoomBounds(s1, calls[1..], cap, len, from);
      WindowTotalConcat(WithdrawnBy(s, calls[0]), Withdrawals(s1, calls[1..]), from, len);
    }
  }

  /** Over any `len` consecutive ledgers, wherever the window lies relative to the
      epochs, withdrawals total at most `2 * cap - 1`, and at most `cap` when the
      window is a single ledger. */
  lemma WindowCap(s: State, calls: seq<Call>, cap: Cap, len: EpochLength, from: int)
    requires Inv(s) && LimitsFixed(s, calls, cap, len)
    ensures WindowTotal(Withdrawals(s, calls), from, len) <= WindowBound(cap, len)
  {
    WindowRoomBounds(s, calls, cap, len, from);
  }

  // ---- The bound is reached ----

  lemma {:induction false} RunConcat(s: State, a: seq<Call>, b: seq<Call>)
    ensures Run(s, a + b) == Run(Run(s, a), b)
    ensures Withdrawals(s, a + b) == Withdrawals(s, a) + Withdrawals(Run(s, a), b)
    decreases |a|
  {
    if a == [] {
      assert a + b == b;
    } else {
      assert (a + b)[1..] == a[1..] + b;
      RunConcat(Next(s, a[0]), a[1..], b);
    }
  }

  lemma OneCall(s: State, c: Call)
    ensures Run(s, [c]) == Next(s, c) && Withdrawals(s, [c]) == WithdrawnBy(s, c)
  {
    assert [c][1..] == [];
  }

  /** Both keys exist. */
  predicate Initialised(s: State) {
    s.reg.admin.Some? && s.reg.relay.Some?
  }

  function BothSign(s: State, p: Proposal): seq<Call>
    requires Initialised(s)
  {
    [Propose({s.reg.admin.value}, p)] + [Authorize({s.reg.relay.value}, s.reg.relay.value, p)]
  }

  /** With both signatures a proposal within the balance and the room left in the
      epoch always pays out exactly itself. */
  lemma PayoutSucceeds(s: State, p: Proposal)
    requires Inv(s) && Initialised(s) && Configured(s) && 0 < p.amount <= s.balance
    requires CurrentEpoch(s).withdrawn + p.amount <= s.epochCap.value
    ensures Run(s, BothSign(s, p)) == AfterPayout(s, p)
    ensures Withdrawals(s, BothSign(s, p)) == [PayoutNow(s, p)]
    ensures Inv(AfterPayout(s, p))
  {
    var propose, authorize := BothSign(s, p)[0], BothSign(s, p)[1];
    var s1 := s.(pending := Some(p));
    assert Next(s, propose) == s1 && WithdrawnBy(s, propose) == [];
    assert Next(s1, authorize) == AfterPayout(s, p) && WithdrawnBy(s1, authorize) == [PayoutNow(s, p)];
    RunConcat(s, [propose], [authorize]);
    OneCall(s, propose);
    OneCall(s1, authorize);
    NextKeepsInv(s, propose);
    NextKeepsInv(s1, authorize);
  }

  function Waited(s: State, ledgers: nat): State {
    s.(reg := s.reg.(now := s.reg.now + ledgers))
  }

  lemma WaitingPaysNothing(s: State, ledgers: nat)
    requires Inv(s)
    ensures Run(s, [Core(R.Advance(ledgers))]) == Waited(s, ledgers)
    ensures Withdrawals(s, [Core(R.Advance(ledgers))]) == []
    ensures Inv(Waited(s, ledgers))
  {
    OneCall(s, Core(R.Advance(ledgers)));
  }

  /** A run from `s` that leaves the limits alone, ends in `s1`, and pays out `ws`. */
  ghost predicate Pays(s: State, calls: seq<Call>, s1: State, ws: seq<Payout>) {
    s1 == Run(s, calls) && ws == Withdrawals(s, calls) && forall c :: c in calls ==> !c.SetParam?
  }

  /** Both keys exist, and the limits are `cap` and `len`. */
  ghost predicate Ready(s: State, cap: Cap, len: EpochLength) {
    Inv(s) && Initialised(s) && s.epochCap == Some(cap) && s.epochLength == Some(len)
  }

  /** Wait, then let both keys pay out `p` in the epoch `e` that is then current. */
  lemma WaitThenPay(s: State, cap: Cap, len: EpochLength, ledgers: nat, p: Proposal, e: Epoch)
    returns (calls: seq<Call>, s1: State)
    requires Ready(s, cap, len) && 0 < p.amount <= s.balance
    requires e == CurrentEpoch(Waited(s, ledgers)) && e.withdrawn + p.amount <= cap
    ensures Pays(s, calls, s1, [Payout(s.reg.now + ledgers, p.amount, e.start, p.destination)])
    ensures Ready(s1, cap, len)
    ensures s1.reg.now == s.reg.now + ledgers && s1.balance == s.balance - p.amount
    ensures s1.epoch == Some(Epoch(e.start, e.withdrawn + p.amount))
  {
    var waited := Waited(s, ledgers);
    WaitingPaysNothing(s, ledgers);
    PayoutSucceeds(waited, p);
    RunConcat(s, [Core(R.Advance(ledgers))], BothSign(waited, p));
    calls, s1 := [Core(R.Advance(ledgers))] + BothSign(waited, p), AfterPayout(waited, p);
  }

  lemma PaysConcat(s: State, a: seq<Call>, s1: State, ws1: seq<Payout>, b: seq<Call>, s2: State, ws2: seq<Payout>)
    requires Pays(s, a, s1, ws1) && Pays(s1, b, s2, ws2)
    ensures Pays(s, a + b, s2, ws1 + ws2)
  {
    RunConcat(s, a, b);
  }

  lemma {:induction false} NothingSetMeansUntouched(s: State, calls: seq<Call>, param: Param)
    requires forall c :: c in calls ==> !c.SetParam?
    ensures Untouched(s, calls, param)
    decreases |calls|
  {
    if calls != [] {
      NothingSetMeansUntouched(Next(s, calls[0]), calls[1..], param);
    }
  }

  lemma PaysKeepsLimits(s: State, calls: seq<Call>, s1: State, ws: seq<Payout>, cap: Cap, len: EpochLength)
    requires Ready(s, cap, len) && Pays(s, calls, s1, ws)
    ensures LimitsFixed(s, calls, cap, len) && Withdrawals(s, calls) == ws
  {
    NothingSetMeansUntouched(s, calls, TreasuryEpochCap);
    NothingSetMeansUntouched(s, calls, TreasuryEpochLength);
  }

  /** The epoch that is current after `ledgers` more. */
  lemma EpochAfter(s: State, cap: Cap, len: EpochLength, ledgers: nat)
    requires Ready(s, cap, len)
    ensures s.epoch.None? || s.reg.now + ledgers >= s.epoch.value.start + len ==>
              CurrentEpoch(Waited(s, ledgers)) == Epoch(s.reg.now + ledgers, 0)
    ensures s.epoch.Some? && s.reg.now + ledgers < s.epoch.value.start + len ==>
              CurrentEpoch(Waited(s, ledgers)) == s.epoch.value
    ensures s.epoch.Some? ==> s.epoch.value.start <= s.reg.now
  {
  }

  /** One unit opens an epoch, and `late` goes out in its last ledger. */
  lemma OpenThenDrain(s: State, cap: Cap, len: EpochLength, late: i128, dest: Address)
    returns (calls: seq<Call>, s2: State)
    requires Ready(s, cap, len) && len > 1 && 0 < late < cap && s.balance >= 1 + late
    ensures var open := s.reg.now + len;
            && Pays(s, calls, s2, [Payout(open, 1, open, dest)] + [Payout(open + len - 1, late, open, dest)])
            && s2.reg.now == open + len - 1 && s2.epoch == Some(Epoch(open, 1 + late))
    ensures Ready(s2, cap, len) && s2.balance == s.balance - 1 - late
  {
    var open := s.reg.now + len;
    EpochAfter(s, cap, len, len);
    var a, s1 := WaitThenPay(s, cap, len, len, Proposal(1, dest), Epoch(open, 0));
    EpochAfter(s1, cap, len, len - 1);
    var b;
    b, s2 := WaitThenPay(s1, cap, len, len - 1, Proposal(late, dest), Epoch(open, 1));
    calls := a + b;
    PaysConcat(s, a, s1, [Payout(open, 1, open, dest)], b, s2, [Payout(open + len - 1, late, open, dest)]);
  }

  /** Across an epoch boundary a window of `len > 1` ledgers sees a full cap, paid in
      the first ledger of an epoch, on top of `late`, paid in the last ledger of the
      epoch before: any amount that leaves the one unit that opened that epoch. */
  lemma Straddle(s: State, cap: Cap, len: EpochLength, late: i128, dest: Address)
    returns (calls: seq<Call>, from: nat)
    requires Ready(s, cap, len) && len > 1 && 0 < late < cap && s.balance >= 1 + late + cap
    ensures LimitsFixed(s, calls, cap, len)
    ensures WindowTotal(Withdrawals(s, calls), from, len) == late + cap
  {
    var open := s.reg.now + len;
    from := open + len - 1;
    var w1, w2 := Payout(open, 1, open, dest), Payout(from, late, open, dest);
    var w3 := Payout(from + 1, cap, from + 1, dest);
    var a, s1 := OpenThenDrain(s, cap, len, late, dest);
    EpochAfter(s1, cap, len, 1);
    var b, s2 := WaitThenPay(s1, cap, len, 1, Proposal(cap, dest), Epoch(from + 1, 0));
    PaysConcat(s, a, s1, [w1] + [w2], b, s2, [w3]);
    calls := a + b;
    PaysKeepsLimits(s, calls, s2, [w1] + [w2] + [w3], cap, len);
    LastTwoInWindow(w1, w2, w3, from, len);
  }

  lemma LastTwoInWindow(w1: Payout, w2: Payout, w3: Payout, from: int, len: nat)
    requires w1.ledger < from <= w2.ledger < from + len && from <= w3.ledger < from + len
    ensures WindowTotal([w1] + [w2] + [w3], from, len) == w2.amount + w3.amount
  {
    WindowTotalConcat([w1] + [w2], [w3], from, len);
    WindowTotalConcat([w1], [w2], from, len);
    assert [w1][1..] == [] && [w2][1..] == [] && [w3][1..] == [];
  }

  /** `2 * cap - 1` is reached from every state with the funds for it. */
  lemma WindowCapIsTight(s: State, cap: Cap, len: EpochLength, dest: Address)
    returns (calls: seq<Call>, from: nat)
    requires Ready(s, cap, len)
    requires cap > 1 && len > 1 && s.balance >= 2 * cap
    ensures LimitsFixed(s, calls, cap, len)
    ensures WindowTotal(Withdrawals(s, calls), from, len) == WindowBound(cap, len)
  {
    calls, from := Straddle(s, cap, len, cap - 1, dest);
  }

  /** Every window of `len` ledgers, in every run from `s`, stays within the cap. */
  ghost predicate SlidingCapHolds(s: State, cap: Cap, len: EpochLength) {
    forall calls, from :: LimitsFixed(s, calls, cap, len) ==> WindowTotal(Withdrawals(s, calls), from, len) <= cap
  }

  /** Read as a cap on every window of `epoch_length` ledgers, the limit holds for
      every run iff the cap or the length is 1. */
  lemma SlidingCapIff(s: State, cap: Cap, len: EpochLength)
    requires Ready(s, cap, len)
    requires s.balance >= cap + 2
    ensures SlidingCapHolds(s, cap, len) <==> cap == 1 || len == 1
  {
    if cap == 1 || len == 1 {
      forall calls, from | LimitsFixed(s, calls, cap, len)
        ensures WindowTotal(Withdrawals(s, calls), from, len) <= cap
      {
        WindowCap(s, calls, cap, len, from);
      }
    } else {
      ghost var calls, from := Straddle(s, cap, len, 1, Address(0));
      assert WindowTotal(Withdrawals(s, calls), from, len) == cap + 1;
    }
  }

  // ---- What an accepted parameter does ----

  /** A parameter is accepted exactly within its range and with the stored admin's
      signature, and then nothing but that parameter changes. */
  lemma SetParamReplies(s: State, auth: set<Address>, param: Param, value: int)
    requires s.reg.admin.Some?
    ensures var c := SetParam(auth, param, value);
            var legal := match param
              case BaseFeeBps => 0 <= value <= 10_000
              case TreasuryEpochCap => 0 < value <= I128_MAX
              case TreasuryEpochLength => 0 < value <= U32_MAX;
            && (Answer(s, c) == if s.reg.admin.value !in auth then Err(AuthRequired)
                                else if !legal then Err(InvalidParamValue) else Ok(R.Done))
            && (Answer(s, c).Ok? ==>
                  match param
                  case BaseFeeBps => Next(s, c) == s.(feeBps := Some(value))
                  case TreasuryEpochCap => Next(s, c) == s.(epochCap := Some(value))
                  case TreasuryEpochLength => Next(s, c) == s.(epochLength := Some(value)))
            && (Answer(s, c).Err? ==> Next(s, c) == s)
  {
  }

  /** The value of the last accepted call that sets `param`. */
  function LastAccepted(s: State, calls: seq<Call>, param: Param): Option<int>
    decreases |calls|
  {
    if calls == [] then None
    else
      var later := LastAccepted(Next(s, calls[0]), calls[1..], param);
      if later.None? && Sets(s, calls[0], param) then Some(calls[0].value) else later
  }

  function Value(param: Param, s: State): Option<int> {
    match param
    case BaseFeeBps => if s.feeBps.Some? then Some(s.feeBps.value) else None
    case TreasuryEpochCap => if s.epochCap.Some? then Some(s.epochCap.value) else None
    case TreasuryEpochLength => if s.epochLength.Some? then Some(s.epochLength.value) else None
  }

  lemma ValueStep(s: State, c: Call, param: Param)
    ensures Value(param, Next(s, c)) == if Sets(s, c, param) then Some(c.value) else Value(param, s)
  {
  }

  /** Over every run each parameter holds the value last accepted for it. */
  lemma {:induction false} ParametersAreTheLastAccepted(s: State, calls: seq<Call>, param: Param)
    ensures Value(param, Run(s, calls))
         == if LastAccepted(s, calls, param).Some? then LastAccepted(s, calls, param) else Value(param, s)
    ensures LastAccepted(s, calls, param).None? <==> Untouched(s, calls, param)
    decreases |calls|
  {
    if calls != [] {
      ValueStep(s, calls[0], param);
      ParametersAreTheLastAccepted(Next(s, calls[0]), calls[1..], param);
    }
  }

  /** Once a cap of `v` is accepted, and until another is, no epoch pays more than
      `v`; with the length left alone as well, no window pays more than `2 * v - 1`. */
  lemma AcceptedCapBinds(s: State, auth: set<Address>, v: int, calls: seq<Call>, start: nat, from: int)
    requires Inv(s) && Answer(s, SetParam(auth, TreasuryEpochCap, v)).Ok?
    requires Untouched(Next(s, SetParam(auth, TreasuryEpochCap, v)), calls, TreasuryEpochCap)
    ensures var s1 := Next(s, SetParam(auth, TreasuryEpochCap, v));
            && EpochTotal(Withdrawals(s1, calls), start) <= v
            && (s.epochLength.Some? && Untouched(s1, calls, TreasuryEpochLength) ==>
                  WindowTotal(Withdrawals(s1, calls), from, s.epochLength.value)
                  <= if s.epochLength.value == 1 then v else 2 * v - 1)
  {
    var change := SetParam(auth, TreasuryEpochCap, v);
    NextKeepsInv(s, change);
    EpochCap(Next(s, change), calls, v, start);
    if s.epochLength.Some? && Untouched(Next(s, change), calls, TreasuryEpochLength) {
      WindowCap(Next(s, change), calls, v, s.epochLength.value, from);
    }
  }

  /** What a completion adds to the balance. */
  lemma CompletionCharges(s: State, c: Call)
    requires Inv(s) && c.Core? && c.call.Complete? && Answer(s, c).Ok?
    ensures c.call.id in s.reg.txs
    ensures s.feeBps.None? ==> Next(s, c).balance == s.balance
    ensures s.feeBps.Some? ==>
              Next(s, c).balance == s.balance + s.reg.txs[c.call.id].amount * s.feeBps.value / 10_000
  {
    R.RecordStep(s.reg, c.call, c.call.id);
  }

  /** Once a rate of `v` is accepted, and until another is, every completion adds
      exactly `floor(amount * v / 10_000)`. */
  lemma AcceptedRateCharges(s: State, auth: set<Address>, v: int, calls: seq<Call>, c: Call)
    requires Inv(s) && Answer(s, SetParam(auth, BaseFeeBps, v)).Ok?
    requires Untouched(Next(s, SetParam(auth, BaseFeeBps, v)), calls, BaseFeeBps)
    requires c.Core? && c.call.Complete? && Answer(Run(Next(s, SetParam(auth, BaseFeeBps, v)), calls), c).Ok?
    ensures var s1 := Run(Next(s, SetParam(auth, BaseFeeBps, v)), calls);
            && c.call.id in s1.reg.txs
            && Next(s1, c).balance == s1.balance + s1.reg.txs[c.call.id].amount * v / 10_000
  {
    var change := SetParam(auth, BaseFeeBps, v);
    NextKeepsInv(s, change);
    InvOverRuns(Next(s, change), calls);
    ParametersAreTheLastAccepted(Next(s, change), calls, BaseFeeBps);
    CompletionCharges(Run(Next(s, change), calls), c);
  }

  // ---- What the two withdrawal calls reply ----

  /** A proposal is accepted iff the admin signed, both limits are set, and the amount
      is positive and in the treasury; it then replaces whatever was pending. */
  lemma ProposalReplies(s: State, auth: set<Address>, p: Proposal)
    requires s.reg.admin.Some?
    ensures var c := Propose(auth, p);
            var ready := s.reg.admin.value in auth && s.epochCap.Some? && s.epochLength.Some?;
            && (Answer(s, c).Ok? <==> ready && 0 < p.amount <= s.balance)
            && (Answer(s, c) == Err(AuthRequired) <==> s.reg.admin.value !in auth)
            && (Answer(s, c) == Err(TreasuryNotConfigured) <==> s.reg.admin.value in auth && !ready)
            && (Answer(s, c) == Err(InvalidWithdrawalAmount) <==> ready && p.amount <= 0)
            && (Answer(s, c) == Err(InsufficientTreasuryBalance) <==> ready && p.amount > 0 && p.amount > s.balance)
            && Next(s, c) == if Answer(s, c).Ok? then s.(pending := Some(p)) else s
  {
  }

  /** An authorisation is accepted iff the relay signed, both limits are set, it
      restates the pending proposal, and the epoch has room for it; an epoch is over
      `epochLength` ledgers after it opened. */
  lemma AuthorisationReplies(s: State, auth: set<Address>, caller: Address, p: Proposal)
    requires Inv(s)
    ensures var c := Authorize(auth, caller, p);
            var relayed := caller in auth && s.reg.relay == Some(caller);
            && (Answer(s, c) == Err(AuthRequired) <==> caller !in auth)
            && (Answer(s, c) == Err(WithdrawalNotRelaySigner) <==> caller in auth && s.reg.relay != Some(caller))
            && (relayed && s.epochCap.Some? && s.epochLength.Some? ==>
                  && (Answer(s, c) == Err(NoPendingWithdrawal) <==> s.pending.None?)
                  && (Answer(s, c) == Err(WithdrawalProposalMismatch) <==> s.pending.Some? && s.pending.value != p))
            && (relayed && s.pending == Some(p) ==>
                  var open := s.epoch.Some? && s.reg.now < s.epoch.value.start + s.epochLength.value;
                  var spent := if open then s.epoch.value.withdrawn else 0;
                  && (Answer(s, c).Ok? <==> spent + p.amount <= s.epochCap.value)
                  && (spent + p.amount > I128_MAX ==> Answer(s, c) == Err(ArithmeticOverflow))
                  && (s.epochCap.value < spent + p.amount <= I128_MAX ==> Answer(s, c) == Err(WithdrawalCapExceeded))
                  && (Answer(s, c).Ok? ==>
                        Next(s, c) == s.(balance := s.balance - p.amount, pending := None,
                                         epoch := Some(Epoch(if open then s.epoch.value.start else s.reg.now,
                                                             spent + p.amount)))))
            && (Answer(s, c).Ok? ==> relayed && s.pending == Some(p))
            && (Answer(s, c).Err? ==> Next(s, c) == s)
  {
  }

  // ---- The contract ----

  class Treasury {
    const registry: R.Registry
    var feeBps: Option<Bps>
    var epochCap: Option<Cap>
    var epochLength: Option<EpochLength>
    var balance: i128
    var pending: Option<Proposal>
    var epochStart: Option<nat>
    var epochWithdrawn: i128

    ghost function View(): State
      reads this, registry, registry.store
    {
      State(registry.View(), feeBps, epochCap, epochLength, balance, pending,
            if epochStart.Some? then Some(Epoch(epochStart.value, epochWithdrawn)) else None)
    }

    ghost predicate Valid()
      reads this, registry, registry.store
    {
      Inv(View())
    }

    constructor (admin: Address, relay: Address)
      ensures Valid() && fresh(registry) && fresh(registry.store)
      ensures View() == State(R.Initial(admin, relay), None, None, None, 0, None, None)
    {
      registry := new R.Registry(admin, relay);
      feeBps, epochCap, epochLength := None, None, None;
      balance, pending, epochStart, epochWithdrawn := 0, None, None, 0;
    }

    method SetParam(auth: set<Address>, param: Param, value: i128) returns (r: Result<R.Reply, ContractError>)
      requires Valid()
      modifies this
      ensures Valid()
      ensures r == Answer(old(View()), Call.SetParam(auth, param, value))
      ensures View() == Next(old(View()), Call.SetParam(auth, param, value))
    {
      r := registry.RequireAdmin(auth);
      if r.Err? {
        return;
      }
      match param {
        case BaseFeeBps =>
          if value < 0 || value > Fee.BPS_SCALE {
            return Err(InvalidParamValue);
          }
          feeBps := Some(value);
        case TreasuryEpochCap =>
          if value <= 0 {
            return Err(InvalidParamValue);
          }
          epochCap := Some(value);
        case TreasuryEpochLength =>
          if value <= 0 || value > U32_MAX {
            return Err(InvalidParamValue);
          }
          epochLength := Some(value);
      }
      return Ok(R.Done);
    }

    /** Transition, then accrual; an overflowing accrual restores the records, which
        is what the host's rollback amounts to. */
    method CompleteTransaction(auth: set<Address>, id: TxId, hash: string, caller: Address)
      returns (r: Result<R.Reply, ContractError>)
      requires Valid()
      modifies this`balance, registry.store
      ensures Valid()
      ensures r == Answer(old(View()), Core(R.Complete(auth, id, hash, caller)))
      ensures View() == Next(old(View()), Core(R.Complete(auth, id, hash, caller)))
    {
      ghost var before := View();
      var records := registry.store.transactions;
      r := registry.CompleteTransaction(auth, id, hash, caller);
      if r.Err? {
        return;
      }
      R.RecordStep(before.reg, R.Complete(auth, id, hash, caller), id);
      var amount, bps := registry.store.transactions[id].amount, feeBps.GetOr(0);
      Fee.LegalRateFee(amount, bps);
      var fee := Fee.ComputeFee(amount, bps);
      var total := Fee.CheckedAdd(balance, fee.value);
      if total.None? {
        registry.store.transactions := records;
        return Err(ArithmeticOverflow);
      }
      balance := total.value;
      NextKeepsInv(before, Core(R.Complete(auth, id, hash, caller)));
    }

    method ProposeWithdrawal(auth: set<Address>, amount: i128, destination: Address)
      returns (r: Result<R.Reply, ContractError>)
      requires Valid()
      modifies this`pending
      ensures Valid()
      ensures r == Answer(old(View()), Propose(auth, Proposal(amount, destination)))
      ensures View() == Next(old(View()), Propose(auth, Proposal(amount, destination)))
    {
      r := registry.RequireAdmin(auth);
      if r.Err? {
        return;
      }
      if epochCap.None? || epochLength.None? {
        return Err(TreasuryNotConfigured);
      }
      if amount <= 0 {
        return Err(InvalidWithdrawalAmount);
      }
      if amount > balance {
        return Err(InsufficientTreasuryBalance);
      }
      pending := Some(Proposal(amount, destination));
    }

    method AuthorizeWithdrawal(auth: set<Address>, caller: Address, amount: i128, destination: Address)
      returns (r: Result<R.Reply, ContractError>)
      requires Valid()
      modifies this
      ensures Valid()
      ensures r == Answer(old(View()), Authorize(auth, caller, Proposal(amount, destination)))
      ensures View() == Next(old(View()), Authorize(auth, caller, Proposal(amount, destination)))
    {
      ghost var before := View();
      if caller !in auth {
        return Err(AuthRequired);
      }
      if registry.relay != Some(caller) {
        return Err(WithdrawalNotRelaySigner);
      }
      if epochCap.None? || epochLength.None? {
        return Err(TreasuryNotConfigured);
      }
      if pending.None? {
        return Err(NoPendingWithdrawal);
      }
      if amount != pending.value.amount || destination != pending.value.destination {
        return Err(WithdrawalProposalMismatch);
      }
      if amount > balance {
        return Err(InsufficientTreasuryBalance);
      }
      var start, withdrawn := registry.now, 0;
      if epochStart.Some? && registry.now < epochStart.value + epochLength.value {
        start, withdrawn := epochStart.value, epochWithdrawn;
      }
      var total := Fee.CheckedAdd(withdrawn, amount);
      if total.None? {
        return Err(ArithmeticOverflow);
      }
      if total.value > epochCap.value {
        return Err(WithdrawalCapExceeded);
      }
      epochStart, epochWithdrawn := Some(start), total.value;
      balance := balance - amount;
      pending := None;
      NextKeepsInv(before, Authorize(auth, caller, Proposal(amount, destination)));
      return Ok(R.Done);
    }
  }
}
