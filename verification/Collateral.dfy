/**
 The collateral ledger: bonding, delayed unbonding, claiming and slashing.

 `Answer` and `Next` work over unbounded integers; the class `Ledger` runs
 the same calls over `i128` and `u32` fields. The theorems are about every run.
 */
module Collateral {
  import opened Types
  import Fee

  datatype Bond = Bond(amount: int, bondedAt: u32, updatedAt: u32)

  datatype Unbond = Unbond(amount: int, claimableAt: u32)

  datatype Evidence = Evidence(txId: TxId, payloadA: CallbackPayload, payloadB: CallbackPayload)

  datatype Param = UnbondDelayLedgers | SlashBps

  /** `defaultDelay` is the delay in force while the parameter is unset. */
  datatype State = State(
    admin: Address,
    defaultDelay: u32,
    now: u32,
    unbondDelay: Option<i128>,
    slashBps: Option<i128>,
    bonds: map<Address, Bond>,
    unbonds: map<Address, Unbond>)

  datatype Call =
    | Advance(ledger: u32)
    | SetParam(auth: set<Address>, param: Param, value: i128)
    | BondCollateral(auth: set<Address>, signer: Address, amount: i128)
    | UnbondCollateral(auth: set<Address>, signer: Address, amount: i128)
    | ClaimUnbond(auth: set<Address>, signer: Address)
    | SlashSigner(auth: set<Address>, signer: Address, evidence: Evidence, caller: Address)

  // ---- Parameters ----

  function Clamp(x: int, lo: int, hi: int): int
    requires lo <= hi
  {
    if x < lo then lo else if x > hi then hi else x
  }

  function Delay(s: State): u32 {
    match s.unbondDelay
    case None => s.defaultDelay
    case Some(d) => Clamp(d, 0, U32_MAX)
  }

  /** When an unbond requested now becomes claimable; the sum saturates. */
  function ClaimableAt(s: State): u32 {
    Clamp(s.now + Delay(s), 0, U32_MAX)
  }

  function EffectiveSlashBps(s: State): nat {
    Clamp(s.slashBps.GetOr(Fee.BPS_SCALE), 0, Fee.BPS_SCALE)
  }

  function SlashAmount(s: State, bonded: int): int {
    bonded * EffectiveSlashBps(s) / Fee.BPS_SCALE
  }

  /** Two different callbacks for the one transaction named; the idempotency key
      alone does not make them different. */
  predicate Conflicting(e: Evidence) {
    && e.payloadA.transactionId == e.txId && e.payloadB.transactionId == e.txId
    && e.payloadA.(idempotencyKey := "") != e.payloadB.(idempotencyKey := "")
  }

  // ---- What each call answers and leaves behind ----

  function Held(s: State, signer: Address): int {
    if signer in s.bonds then s.bonds[signer].amount else 0
  }

  function Answer(s: State, c: Call): Result<Unit, ContractError> {
    match c
    case Advance(_) => Ok(Unit)
    case SetParam(auth, _, _) => if s.admin !in auth then Err(AuthRequired) else Ok(Unit)
    case BondCollateral(auth, signer, amount) =>
      if signer !in auth then Err(AuthRequired)
      else if amount <= 0 then Err(InvalidBondAmount)
      else if Held(s, signer) + amount > I128_MAX then Err(HostTrap)
      else Ok(Unit)
    case UnbondCollateral(auth, signer, amount) =>
      if signer !in auth then Err(AuthRequired)
      else if amount <= 0 then Err(InvalidBondAmount)
      else if signer !in s.bonds then Err(SignerNotBonded)
      else if signer in s.unbonds then Err(UnbondAlreadyPending)
      else if amount > s.bonds[signer].amount then Err(InsufficientBond)
      else Ok(Unit)
    case ClaimUnbond(auth, signer) =>
      if signer !in auth then Err(AuthRequired)
      else if signer !in s.unbonds then Err(NoPendingUnbond)
      else if s.now < s.unbonds[signer].claimableAt then Err(UnbondDelayNotElapsed)
      else Ok(Unit)
    case SlashSigner(auth, signer, evidence, caller) =>
      if caller !in auth then Err(AuthRequired)
      else if caller != s.admin then Err(Unauthorised)
      else if !Conflicting(evidence) then Err(InvalidSlashEvidence)
      else if signer !in s.bonds then Err(SignerNotBonded)
      else if s.bonds[signer].amount * EffectiveSlashBps(s) > I128_MAX then Err(HostTrap)
      else Ok(Unit)
  }

  /** The bond table with `signer` holding `amount`: nothing is kept at zero. */
  function WithHeld(s: State, signer: Address, amount: int): map<Address, Bond> {
    if amount == 0 then s.bonds - {signer}
    else s.bonds[signer := Bond(amount, if signer in s.bonds then s.bonds[signer].bondedAt else s.now, s.now)]
  }

  function Next(s: State, c: Call): State {
    if Answer(s, c).Err? then s
    else
      match c
      case Advance(ledger) => if s.now <= ledger then s.(now := ledger) else s
      case SetParam(_, UnbondDelayLedgers, v) => s.(unbondDelay := Some(v))
      case SetParam(_, SlashBps, v) => s.(slashBps := Some(v))
      case BondCollateral(_, signer, amount) => s.(bonds := WithHeld(s, signer, Held(s, signer) + amount))
      case UnbondCollateral(_, signer, amount) =>
        s.(unbonds := s.unbonds[signer := Unbond(amount, ClaimableAt(s))])
      case ClaimUnbond(_, signer) =>
        s.(bonds := WithHeld(s, signer, Held(s, signer) - s.unbonds[signer].amount), unbonds := s.unbonds - {signer})
      case SlashSigner(_, signer, _, _) =>
        s.(bonds := WithHeld(s, signer, Held(s, signer) - SlashAmount(s, Held(s, signer))),
           unbonds := s.unbonds - {signer})
  }

  /** The state after the calls, the last one last. */
  function Run(s: State, calls: seq<Call>): State {
    if calls == [] then s else Next(Run(s, calls[..|calls| - 1]), calls[|calls| - 1])
  }

  // ---- The invariant ----

  /** Bonds are positive and in range, and a pending unbond is covered by the bond. */
  ghost predicate Inv(s: State) {
    && (forall a :: a in s.bonds ==> 0 < s.bonds[a].amount <= I128_MAX)
    && (forall a :: a in s.unbonds ==> a in s.bonds && 0 < s.unbonds[a].amount <= s.bonds[a].amount)
  }

  lemma SlashWithinBond(s: State, bonded: int)
    requires 0 <= bonded
    ensures 0 <= SlashAmount(s, bonded) <= bonded
    ensures EffectiveSlashBps(s) == Fee.BPS_SCALE ==> SlashAmount(s, bonded) == bonded
  {
    Fee.FloorFeeAtMostAmount(bonded, EffectiveSlashBps(s));
  }

  lemma NextKeepsInv(s: State, c: Call)
    requires Inv(s)
    ensures Inv(Next(s, c))
  {
    if c.SlashSigner? && Answer(s, c).Ok? {
      SlashWithinBond(s, Held(s, c.signer));
    }
  }

  lemma {:induction false} InvOverRuns(s: State, calls: seq<Call>)
    requires Inv(s)
    ensures Inv(Run(s, calls))
  {
    if calls != [] {
      InvOverRuns(s, calls[..|calls| - 1]);
      NextKeepsInv(Run(s, calls[..|calls| - 1]), calls[|calls| - 1]);
    }
  }

  /** In every reachable state a claim is covered: the request is at most the bond,
      so the subtraction never underflows, whatever top-ups and slashes came
      between. */
  lemma ClaimNeverUnderflows(s: State, calls: seq<Call>, signer: Address)
    requires Inv(s) && signer in Run(s, calls).unbonds
    ensures 0 < Run(s, calls).unbonds[signer].amount <= Held(Run(s, calls), signer)
  {
    InvOverRuns(s, calls);
  }

  // ---- Conservation ----

  datatype Flow = Flow(paidIn: int, claimed: int, slashed: int)

  /** What one call moves for one signer. */
  function FlowOf(s: State, c: Call, signer: Address): Flow {
    if Answer(s, c).Err? then Flow(0, 0, 0)
    else if c.BondCollateral? && c.signer == signer then Flow(c.amount, 0, 0)
    else if c.ClaimUnbond? && c.signer == signer then Flow(0, s.unbonds[signer].amount, 0)
    else if c.SlashSigner? && c.signer == signer then Flow(0, 0, SlashAmount(s, Held(s, signer)))
    else Flow(0, 0, 0)
  }

  function Flows(s: State, calls: seq<Call>, signer: Address): Flow {
    if calls == [] then Flow(0, 0, 0)
    else
      var init := calls[..|calls| - 1];
      var before, now := Flows(s, init, signer), FlowOf(Run(s, init), calls[|calls| - 1], signer);
      Flow(before.paidIn + now.paidIn, before.claimed + now.claimed, before.slashed + now.slashed)
  }

  lemma FlowStep(s: State, c: Call, signer: Address)
    requires Inv(s)
    ensures Held(Next(s, c), signer) - Held(s, signer)
         == FlowOf(s, c, signer).paidIn - FlowOf(s, c, signer).claimed - FlowOf(s, c, signer).slashed
    ensures FlowOf(s, c, signer).paidIn >= 0 && FlowOf(s, c, signer).claimed >= 0 && FlowOf(s, c, signer).slashed >= 0
  {
    SlashWithinBond(s, Held(s, signer));
  }

  /** For every signer: bonded = paid in - claimed - slashed, over every run, and
      each of the three only grows. */
  lemma {:induction false} Conservation(s: State, calls: seq<Call>, signer: Address)
    requires Inv(s)
    ensures Held(Run(s, calls), signer) - Held(s, signer)
         == Flows(s, calls, signer).paidIn - Flows(s, calls, signer).claimed - Flows(s, calls, signer).slashed
    ensures Flows(s, calls, signer).paidIn >= 0
    ensures Flows(s, calls, signer).claimed >= 0
    ensures Flows(s, calls, signer).slashed >= 0
  {
    if calls != [] {
      var init := calls[..|calls| - 1];
      Conservation(s, init, signer);
      InvOverRuns(s, init);
      FlowStep(Run(s, init), calls[|calls| - 1], signer);
    }
  }

  /** All the collateral in the bond table. */
  ghost function Total(bonds: map<Address, Bond>): int
    decreases |bonds|
  {
    if bonds == map[] then 0
    else
      var a :| a in bonds;
      bonds[a].amount + Total(bonds - {a})
  }

  function AmountIn(bonds: map<Address, Bond>, signer: Address): int {
    if signer in bonds then bonds[signer].amount else 0
  }

  /** The total does not depend on the order in which the table is walked. */
  lemma {:induction false} TotalWithout(bonds: map<Address, Bond>, signer: Address)
    ensures Total(bonds) == AmountIn(bonds, signer) + Total(bonds - {signer})
    decreases |bonds|
  {
    if signer !in bonds {
      assert bonds - {signer} == bonds;
    } else {
      var a :| a in bonds && Total(bonds) == bonds[a].amount + Total(bonds - {a});
      if a != signer {
        TotalWithout(bonds - {a}, signer);
        TotalWithout(bonds - {signer}, a);
        assert bonds - {a} - {signer} == bonds - {signer} - {a};
      }
    }
  }

  /** Tables that differ for one signer only differ by that signer's amounts. */
  lemma TotalMoves(before: map<Address, Bond>, after: map<Address, Bond>, signer: Address)
    requires after - {signer} == before - {signer}
    ensures Total(after) - Total(before) == AmountIn(after, signer) - AmountIn(before, signer)
  {
    TotalWithout(before, signer);
    TotalWithout(after, signer);
  }

  /** What one call moves, whoever it is for. */
  function Moved(s: State, c: Call): Flow {
    match c
    case BondCollateral(_, signer, _) => FlowOf(s, c, signer)
    case ClaimUnbond(_, signer) => FlowOf(s, c, signer)
    case SlashSigner(_, signer, _, _) => FlowOf(s, c, signer)
    case _ => Flow(0, 0, 0)
  }

  /** Everything paid in, claimed and slashed along the run. */
  function TotalFlows(s: State, calls: seq<Call>): Flow {
    if calls == [] then Flow(0, 0, 0)
    else
      var init := calls[..|calls| - 1];
      var before, now := TotalFlows(s, init), Moved(Run(s, init), calls[|calls| - 1]);
      Flow(before.paidIn + now.paidIn, before.claimed + now.claimed, before.slashed + now.slashed)
  }

  /** A call touches the bond of the signer it names and no other. */
  lemma OneBondMoves(s: State, c: Call)
    requires Inv(s)
    ensures c.BondCollateral? || c.ClaimUnbond? || c.SlashSigner? ==>
              Next(s, c).bonds - {c.signer} == s.bonds - {c.signer}
    ensures !c.BondCollateral? && !c.ClaimUnbond? && !c.SlashSigner? ==> Next(s, c).bonds == s.bonds
  {
  }

  lemma TotalStep(s: State, c: Call)
    requires Inv(s)
    ensures Total(Next(s, c).bonds) - Total(s.bonds) == Moved(s, c).paidIn - Moved(s, c).claimed - Moved(s, c).slashed
  {
    OneBondMoves(s, c);
    if c.BondCollateral? || c.ClaimUnbond? || c.SlashSigner? {
      TotalMoves(s.bonds, Next(s, c).bonds, c.signer);
      FlowStep(s, c, c.signer);
    }
  }

  /** The whole ledger: over every run, what all signers together hold changes by
      exactly what was paid in, less what was claimed and what was slashed. */
  lemma {:induction false} TotalConservation(s: State, calls: seq<Call>)
    requires Inv(s)
    ensures Total(Run(s, calls).bonds)
         == Total(s.bonds) + TotalFlows(s, calls).paidIn - TotalFlows(s, calls).claimed - TotalFlows(s, calls).slashed
  {
    if calls != [] {
      var init := calls[..|calls| - 1];
      TotalConservation(s, init);
      InvOverRuns(s, init);
      TotalStep(Run(s, init), calls[|calls| - 1]);
    }
  }

  // ---- Parameters over whole runs ----

  /** The value of the last accepted call that sets `param`. */
  function LastAccepted(s: State, calls: seq<Call>, param: Param): Option<int> {
    if calls == [] then None
    else
      var init, last := calls[..|calls| - 1], calls[|calls| - 1];
      if last.SetParam? && last.param == param && Answer(Run(s, init), last).Ok? then Some(last.value)
      else LastAccepted(s, init, param)
  }

  /** A parameter is accepted, whatever its value, iff the stored admin signed. */
  lemma SetParamReplies(s: State, auth: set<Address>, param: Param, value: i128)
    ensures Answer(s, SetParam(auth, param, value)) == if s.admin in auth then Ok(Unit) else Err(AuthRequired)
    ensures Next(s, SetParam(auth, param, value))
         == if s.admin !in auth then s
            else match param
              case UnbondDelayLedgers => s.(unbondDelay := Some(value))
              case SlashBps => s.(slashBps := Some(value))
  {
  }

  /** The delay parameter of a state reached by `calls`: the last accepted value, else
      the one `s` started with, else the default. */
  ghost function DelayParameter(s: State, calls: seq<Call>): int {
    if LastAccepted(s, calls, UnbondDelayLedgers).Some? then LastAccepted(s, calls, UnbondDelayLedgers).value
    else if s.unbondDelay.Some? then s.unbondDelay.value
    else s.defaultDelay
  }

  /** The slashing rate likewise, with 10_000 for the default. */
  ghost function RateParameter(s: State, calls: seq<Call>): int {
    if LastAccepted(s, calls, SlashBps).Some? then LastAccepted(s, calls, SlashBps).value
    else if s.slashBps.Some? then s.slashBps.value
    else 10_000
  }

  lemma ParameterStep(s: State, c: Call)
    ensures Next(s, c).unbondDelay
         == if c.SetParam? && c.param == UnbondDelayLedgers && Answer(s, c).Ok? then Some(c.value) else s.unbondDelay
    ensures Next(s, c).slashBps
         == if c.SetParam? && c.param == SlashBps && Answer(s, c).Ok? then Some(c.value) else s.slashBps
    ensures Next(s, c).defaultDelay == s.defaultDelay && Next(s, c).admin == s.admin
  {
  }

  lemma {:induction false} ParametersAreTheLastAccepted(s: State, calls: seq<Call>)
    ensures Run(s, calls).defaultDelay == s.defaultDelay && Run(s, calls).admin == s.admin
    ensures DelayParameter(s, calls) == DelayParameter(Run(s, calls), [])
    ensures RateParameter(s, calls) == RateParameter(Run(s, calls), [])
  {
    if calls != [] {
      ParametersAreTheLastAccepted(s, calls[..|calls| - 1]);
      ParameterStep(Run(s, calls[..|calls| - 1]), calls[|calls| - 1]);
    }
  }

  // ---- The delay ----

  /** Call `j` settles `signer`'s request: a claim or a slash that succeeds. */
  ghost predicate Settles(s: State, calls: seq<Call>, j: nat, signer: Address)
    requires j < |calls|
  {
    && (calls[j].ClaimUnbond? || calls[j].SlashSigner?) && calls[j].signer == signer
    && Answer(Run(s, calls[..j]), calls[j]).Ok?
  }

  /** Call `i` is a successful, signed request that nothing has settled before call `k`. */
  ghost predicate RequestedAt(s: State, calls: seq<Call>, k: nat, signer: Address, i: nat)
    requires k <= |calls|
  {
    && i < k
    && calls[i].UnbondCollateral? && calls[i].signer == signer && signer in calls[i].auth
    && Answer(Run(s, calls[..i]), calls[i]).Ok?
    && forall j :: i < j < k ==> !Settles(s, calls, j, signer)
  }

  /** What the request at call `i` left behind. */
  ghost function RequestOf(s: State, calls: seq<Call>, i: nat): Unbond
    requires i < |calls| && calls[i].UnbondCollateral?
  {
    Unbond(calls[i].amount, ClaimableAt(Run(s, calls[..i])))
  }

  /** Where a pending request comes from, one call back. */
  lemma PendingStep(s: State, c: Call, signer: Address)
    requires signer in Next(s, c).unbonds
    ensures signer in s.unbonds ==>
              && Next(s, c).unbonds[signer] == s.unbonds[signer]
              && !((c.ClaimUnbond? || c.SlashSigner?) && c.signer == signer && Answer(s, c).Ok?)
    ensures signer !in s.unbonds ==>
              && c.UnbondCollateral? && c.signer == signer && signer in c.auth && Answer(s, c).Ok?
              && Next(s, c).unbonds[signer] == Unbond(c.amount, ClaimableAt(s))
  {
  }

  lemma RunSnoc(s: State, calls: seq<Call>, k: nat)
    requires 0 < k <= |calls|
    ensures Run(s, calls[..k]) == Next(Run(s, calls[..k - 1]), calls[k - 1])
  {
    assert calls[..k][..k - 1] == calls[..k - 1];
  }

  lemma {:induction false} PendingWasRequested(s: State, calls: seq<Call>, k: nat, signer: Address)
    requires k <= |calls| && signer !in s.unbonds
    ensures signer in Run(s, calls[..k]).unbonds ==>
              exists i: nat :: RequestedAt(s, calls, k, signer, i)
                               && Run(s, calls[..k]).unbonds[signer] == RequestOf(s, calls, i)
  {
    if k == 0 {
      assert calls[..0] == [];
    } else {
      PendingWasRequested(s, calls, k - 1, signer);
      RunSnoc(s, calls, k);
      var before, after := Run(s, calls[..k - 1]), Run(s, calls[..k]);
      if signer in after.unbonds {
        PendingStep(before, calls[k - 1], signer);
        if signer in before.unbonds {
          var last := k - 1;
          var i: nat :| RequestedAt(s, calls, last, signer, i) && before.unbonds[signer] == RequestOf(s, calls, i);
          assert RequestedAt(s, calls, k, signer, i);
        } else {
          assert RequestedAt(s, calls, k, signer, k - 1);
        }
      }
    }
  }

  /** Ledger `ledger` is late enough for a request made at ledger `asked` under delay
      parameter `delay`: negative delays count as none, and the sum saturates. */
  predicate LateEnough(ledger: u32, asked: u32, delay: int) {
    if delay < 0 then ledger >= asked
    else if asked + delay <= 0xFFFF_FFFF then ledger >= asked + delay
    else ledger == 0xFFFF_FFFF
  }

  lemma LateEnoughIff(s: State, calls: seq<Call>, ledger: u32)
    ensures ledger >= ClaimableAt(Run(s, calls)) <==>
            LateEnough(ledger, Run(s, calls).now, DelayParameter(s, calls))
  {
    ParametersAreTheLastAccepted(s, calls);
  }

  /** A claim pays out exactly one earlier request of the same signer that nothing has
      settled since, and not before the delay in force at that request has passed. */
  lemma ClaimWaits(s: State, calls: seq<Call>, k: nat, signer: Address)
    requires Inv(s) && k < |calls| && signer !in s.unbonds
    requires calls[k].ClaimUnbond? && calls[k].signer == signer && Answer(Run(s, calls[..k]), calls[k]).Ok?
    ensures exists i: nat :: RequestedAt(s, calls, k, signer, i)
              && LateEnough(Run(s, calls[..k]).now, Run(s, calls[..i]).now, DelayParameter(s, calls[..i]))
  {
    PendingWasRequested(s, calls, k, signer);
    var i: nat :| RequestedAt(s, calls, k, signer, i)
                  && Run(s, calls[..k]).unbonds[signer] == RequestOf(s, calls, i);
    LateEnoughIff(s, calls[..i], Run(s, calls[..k]).now);
  }

  /** A request that nothing has settled is still pending, unchanged. */
  lemma {:induction false} RequestStays(s: State, calls: seq<Call>, k: nat, signer: Address, i: nat)
    requires k <= |calls| && RequestedAt(s, calls, k, signer, i)
    ensures signer in Run(s, calls[..k]).unbonds && Run(s, calls[..k]).unbonds[signer] == RequestOf(s, calls, i)
  {
    RunSnoc(s, calls, k);
    if i < k - 1 {
      RequestStays(s, calls, k - 1, signer, i);
      assert !Settles(s, calls, k - 1, signer);
      UnsettledStep(Run(s, calls[..k - 1]), calls[k - 1], signer);
    }
  }

  lemma UnsettledStep(s: State, c: Call, signer: Address)
    requires signer in s.unbonds
    requires !((c.ClaimUnbond? || c.SlashSigner?) && c.signer == signer && Answer(s, c).Ok?)
    ensures signer in Next(s, c).unbonds && Next(s, c).unbonds[signer] == s.unbonds[signer]
  {
  }

  /** An unsettled request can be claimed exactly from its ledger on: the ledger of
      the request plus the delay in force then, whatever the parameter has been set to
      since. The claim pays out the requested amount and no more. */
  lemma ClaimableIff(s: State, calls: seq<Call>, k: nat, signer: Address, i: nat, auth: set<Address>)
    requires Inv(s) && k <= |calls| && RequestedAt(s, calls, k, signer, i) && signer in auth
    ensures var s1 := Run(s, calls[..k]);
            var claim := ClaimUnbond(auth, signer);
            && (Answer(s1, claim).Ok? <==>
                LateEnough(s1.now, Run(s, calls[..i]).now, DelayParameter(s, calls[..i])))
            && (Answer(s1, claim).Err? ==> Answer(s1, claim) == Err(UnbondDelayNotElapsed))
            && (Answer(s1, claim).Ok? ==>
                  Held(Next(s1, claim), signer) == Held(s1, signer) - calls[i].amount >= 0
                  && signer !in Next(s1, claim).unbonds)
  {
    RequestStays(s, calls, k, signer, i);
    InvOverRuns(s, calls[..k]);
    LateEnoughIff(s, calls[..i], Run(s, calls[..k]).now);
  }

  // ---- What the bonding calls reply ----

  /** A bond is accepted iff it is signed and positive and the total fits; it is added
      to what is held, under the ledger of the first bond. */
  lemma BondReplies(s: State, auth: set<Address>, signer: Address, amount: i128)
    requires Inv(s)
    ensures var c := BondCollateral(auth, signer, amount);
            var held := if signer in s.bonds then s.bonds[signer].amount else 0;
            && (Answer(s, c) == Err(AuthRequired) <==> signer !in auth)
            && (Answer(s, c) == Err(InvalidBondAmount) <==> signer in auth && amount <= 0)
            && (Answer(s, c) == Err(HostTrap) <==> signer in auth && amount > 0 && held + amount > I128_MAX)
            && (Answer(s, c).Ok? <==> signer in auth && amount > 0 && held + amount <= I128_MAX)
            && (Answer(s, c).Ok? ==>
                  Next(s, c) == s.(bonds := s.bonds[signer := Bond(held + amount,
                                                                   if signer in s.bonds then s.bonds[signer].bondedAt
                                                                   else s.now, s.now)]))
  {
  }

  /** A request is accepted iff it is signed, positive, within the bond and the only
      one pending; it moves no collateral. */
  lemma RequestReplies(s: State, auth: set<Address>, signer: Address, amount: i128)
    ensures var c := UnbondCollateral(auth, signer, amount);
            var proper := signer in auth && amount > 0;
            && (Answer(s, c) == Err(AuthRequired) <==> signer !in auth)
            && (Answer(s, c) == Err(InvalidBondAmount) <==> signer in auth && amount <= 0)
            && (Answer(s, c) == Err(SignerNotBonded) <==> proper && signer !in s.bonds)
            && (Answer(s, c) == Err(UnbondAlreadyPending) <==> proper && signer in s.bonds && signer in s.unbonds)
            && (Answer(s, c) == Err(InsufficientBond) <==>
                  proper && signer in s.bonds && signer !in s.unbonds && amount > s.bonds[signer].amount)
            && (Answer(s, c).Ok? <==>
                  proper && signer in s.bonds && signer !in s.unbonds && amount <= s.bonds[signer].amount)
            && Next(s, c).bonds == s.bonds
            && (forall other :: other in s.unbonds ==>
                  other in Next(s, c).unbonds && Next(s, c).unbonds[other] == s.unbonds[other])
  {
  }

  /** A claim without a pending request, or unsigned, is refused; an accepted claim
      keeps the ledger of the first bond, and drops a bond that reaches zero. */
  lemma ClaimReplies(s: State, auth: set<Address>, signer: Address)
    requires Inv(s)
    ensures var c := ClaimUnbond(auth, signer);
            && (Answer(s, c) == Err(AuthRequired) <==> signer !in auth)
            && (Answer(s, c) == Err(NoPendingUnbond) <==> signer in auth && signer !in s.unbonds)
            && (Answer(s, c).Ok? ==>
                  var left := s.bonds[signer].amount - s.unbonds[signer].amount;
                  && Next(s, c) == s.(bonds := Next(s, c).bonds, unbonds := s.unbonds - {signer})
                  && Next(s, c).bonds
                     == if left == 0 then s.bonds - {signer}
                        else s.bonds[signer := Bond(left, s.bonds[signer].bondedAt, s.now)])
  {
  }

  // ---- Slashing ----

  /** A request does not shield collateral: a slash after it answers the same and
      takes the same as without it, and cancels the request. */
  lemma RequestsStaySlashable(s: State, request: Call, slash: Call)
    requires request.UnbondCollateral? && slash.SlashSigner? && slash.signer == request.signer
    ensures Answer(Next(s, request), slash) == Answer(s, slash)
    ensures Next(Next(s, request), slash).bonds == Next(s, slash).bonds
    ensures Answer(s, slash).Ok? ==> request.signer !in Next(Next(s, request), slash).unbonds
  {
  }

  /** A bonded signer can be slashed on valid evidence iff the bond is within the
      head-room of the multiplication; at the default 100 % that is
      `i128::MAX / 10_000`. */
  lemma SlashableIff(s: State, auth: set<Address>, signer: Address, e: Evidence)
    requires Inv(s) && s.admin in auth && signer in s.bonds && Conflicting(e)
    ensures Answer(s, SlashSigner(auth, signer, e, s.admin)).Ok? <==>
              EffectiveSlashBps(s) == 0 || s.bonds[signer].amount <= I128_MAX / EffectiveSlashBps(s)
  {
    var bps, amount := EffectiveSlashBps(s), s.bonds[signer].amount;
    if bps > 0 {
      if amount * bps <= I128_MAX {
        Fee.QuotientAtLeast(I128_MAX, bps, amount);
      } else {
        Fee.QuotientBelow(I128_MAX, bps, amount);
      }
    }
  }

  /** Evidence conflicts iff both payloads are for the named transaction and differ
      in a field other than the idempotency key. */
  lemma ConflictingIff(e: Evidence)
    ensures var a, b := e.payloadA, e.payloadB;
            Conflicting(e) <==>
            && a.transactionId == e.txId && b.transactionId == e.txId
            && (|| a.stellarAccount != b.stellarAccount || a.amount != b.amount || a.assetCode != b.assetCode
                || a.assetIssuer != b.assetIssuer || a.anchorTransactionId != b.anchorTransactionId
                || a.callbackType != b.callbackType || a.callbackStatus != b.callbackStatus)
  {
  }

  /** The rate a slash applies: the parameter held within 0 and 10_000. */
  function HeldWithin(rate: int): nat {
    if rate < 0 then 0 else if rate > 10_000 then 10_000 else rate
  }

  /** After any run, a slash is refused to all but the signed admin, needs conflicting
      evidence and a bond, takes exactly `floor(bond * rate / 10_000)` at the rate in
      force, keeps the ledger of the first bond, drops a bond that reaches zero, and
      cancels the pending request. */
  lemma SlashReplies(s: State, calls: seq<Call>, auth: set<Address>, signer: Address, e: Evidence, caller: Address)
    requires Inv(s)
    ensures var s1 := Run(s, calls);
            var c := SlashSigner(auth, signer, e, caller);
            var rate := HeldWithin(RateParameter(s, calls));
            && (Answer(s1, c) == Err(AuthRequired) <==> caller !in auth)
            && (Answer(s1, c) == Err(Unauthorised) <==> caller in auth && caller != s.admin)
            && (caller in auth && caller == s.admin ==>
                  && (Answer(s1, c) == Err(InvalidSlashEvidence) <==> !Conflicting(e))
                  && (Answer(s1, c) == Err(SignerNotBonded) <==> Conflicting(e) && signer !in s1.bonds)
                  && (Conflicting(e) && signer in s1.bonds ==>
                        (Answer(s1, c).Ok? <==> s1.bonds[signer].amount * rate <= I128_MAX)))
            && (Answer(s1, c).Ok? ==>
                  && signer in s1.bonds
                  && var left := s1.bonds[signer].amount - s1.bonds[signer].amount * rate / 10_000;
                     Next(s1, c)
                     == s1.(unbonds := s1.unbonds - {signer},
                            bonds := if left == 0 then s1.bonds - {signer}
                                     else s1.bonds[signer := Bond(left, s1.bonds[signer].bondedAt, s1.now)]))
  {
    ParametersAreTheLastAccepted(s, calls);
    assert HeldWithin(RateParameter(s, calls)) == EffectiveSlashBps(Run(s, calls));
  }

  // ---- Storage ----

  class Ledger {
    const admin: Address
    const defaultDelay: u32
    var now: u32
    var unbondDelay: Option<i128>
    var slashBps: Option<i128>
    var bonds: map<Address, Bond>
    var unbonds: map<Address, Unbond>

    ghost function View(): State
      reads this
    {
      State(admin, defaultDelay, now, unbondDelay, slashBps, bonds, unbonds)
    }

    ghost predicate Valid()
      reads this
    {
      Inv(View())
    }

    constructor (admin: Address, defaultDelay: u32)
      ensures Valid()
      ensures View() == State(admin, defaultDelay, 0, None, None, map[], map[])
    {
      this.admin, this.defaultDelay := admin, defaultDelay;
      now, unbondDelay, slashBps, bonds, unbonds := 0, None, None, map[], map[];
    }

    /** Neither parameter is range-checked; both are clamped where they are read. */
    method SetParam(auth: set<Address>, param: Param, value: i128) returns (r: Result<Unit, ContractError>)
      requires Valid()
      modifies this`unbondDelay, this`slashBps
      ensures Valid()
      ensures r == Answer(old(View()), Call.SetParam(auth, param, value))
      ensures View() == Next(old(View()), Call.SetParam(auth, param, value))
    {
      if admin !in auth {
        return Err(AuthRequired);
      }
      match param {
        case UnbondDelayLedgers => unbondDelay := Some(value);
        case SlashBps => slashBps := Some(value);
      }
      return Ok(Unit);
    }

    method AddBond(auth: set<Address>, signer: Address, amount: i128) returns (r: Result<Unit, ContractError>)
      requires Valid()
      modifies this`bonds
      ensures Valid()
      ensures r == Answer(old(View()), BondCollateral(auth, signer, amount))
      ensures View() == Next(old(View()), BondCollateral(auth, signer, amount))
    {
      if signer !in auth {
        return Err(AuthRequired);
      }
      if amount <= 0 {
        return Err(InvalidBondAmount);
      }
      var record := Bond(0, now, now);
      if signer in bonds {
        record := bonds[signer];
      }
      var total := Fee.CheckedAdd(record.amount, amount);
      if total.None? {
        return Err(HostTrap);
      }
      bonds := bonds[signer := record.(amount := total.value, updatedAt := now)];
      return Ok(Unit);
    }

    method RequestUnbond(auth: set<Address>, signer: Address, amount: i128) returns (r: Result<Unit, ContractError>)
      requires Valid()
      modifies this`unbonds
      ensures Valid()
      ensures r == Answer(old(View()), UnbondCollateral(auth, signer, amount))
      ensures View() == Next(old(View()), UnbondCollateral(auth, signer, amount))
    {
      if signer !in auth {
        return Err(AuthRequired);
      }
      if amount <= 0 {
        return Err(InvalidBondAmount);
      }
      if signer !in bonds {
        return Err(SignerNotBonded);
      }
      if signer in unbonds {
        return Err(UnbondAlreadyPending);
      }
      if amount > bonds[signer].amount {
        return Err(InsufficientBond);
      }
      var delay := defaultDelay;
      if unbondDelay.Some? {
        delay := if unbondDelay.value < 0 then 0
                 else if unbondDelay.value > U32_MAX then U32_MAX else unbondDelay.value;
      }
      var claimableAt: u32 := if now + delay > U32_MAX then U32_MAX else now + delay;
      unbonds := unbonds[signer := Unbond(amount, claimableAt)];
      return Ok(Unit);
    }

    method Claim(auth: set<Address>, signer: Address) returns (r: Result<Unit, ContractError>)
      requires Valid()
      modifies this`bonds, this`unbonds
      ensures Valid()
      ensures r == Answer(old(View()), ClaimUnbond(auth, signer))
      ensures View() == Next(old(View()), ClaimUnbond(auth, signer))
    {
      if signer !in auth {
        return Err(AuthRequired);
      }
      if signer !in unbonds {
        return Err(NoPendingUnbond);
      }
      var request := unbonds[signer];
      if now < request.claimableAt {
        return Err(UnbondDelayNotElapsed);
      }
      var record := bonds[signer];
      var remaining: nat := record.amount - request.amount;
      if remaining == 0 {
        bonds := bonds - {signer};
      } else {
        bonds := bonds[signer := record.(amount := remaining, updatedAt := now)];
      }
      unbonds := unbonds - {signer};
      return Ok(Unit);
    }

    method Slash(auth: set<Address>, signer: Address, evidence: Evidence, caller: Address)
      returns (r: Result<Unit, ContractError>)
      requires Valid()
      modifies this`bonds, this`unbonds
      ensures Valid()
      ensures r == Answer(old(View()), SlashSigner(auth, signer, evidence, caller))
      ensures View() == Next(old(View()), SlashSigner(auth, signer, evidence, caller))
    {
      if caller !in auth {
        return Err(AuthRequired);
      }
      if caller != admin {
        return Err(Unauthorised);
      }
      if !Conflicting(evidence) {
        return Err(InvalidSlashEvidence);
      }
      if signer !in bonds {
        return Err(SignerNotBonded);
      }
      var record := bonds[signer];
      var bps := if slashBps.None? || slashBps.value > Fee.BPS_SCALE then Fee.BPS_SCALE
                 else if slashBps.value < 0 then 0 else slashBps.value;
      var product := Fee.CheckedMul(record.amount, bps);
      if product.None? {
        return Err(HostTrap);
      }
      SlashWithinBond(View(), record.amount);
      var remaining: nat := record.amount - product.value / Fee.BPS_SCALE;
      if remaining == 0 {
        bonds := bonds - {signer};
      } else {
        bonds := bonds[signer := record.(amount := remaining, updatedAt := now)];
      }
      unbonds := unbonds - {signer};
      return Ok(Unit);
    }
  }
}
