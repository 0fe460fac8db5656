/**
 The relay-signer quorum: lazy promotion of the single signer to a set, distinct
 approvals, and consumption of the approvals at quorum.

 The theorems are about every run of additions, approvals and expiries under a
 fixed threshold, in terms of the set of distinct callers.
 */
module Quorum {
  import opened Types

  datatype State = State(
    admin: Option<Address>,
    relaySigner: Option<Address>,
    relaySigners: Option<seq<Address>>,
    threshold: Option<u32>,
    approvals: map<u64, seq<Address>>)

  /** `Expire` is the host dropping a temporary entry whose time has run out. */
  datatype Call =
    | Add(auth: set<Address>, caller: Address, newSigner: Address)
    | Approve(auth: set<Address>, callId: u64, caller: Address)
    | Expire(callId: u64)

  function Signers(s: State): seq<Address> {
    if s.relaySigners.Some? then s.relaySigners.value
    else if s.relaySigner.Some? then [s.relaySigner.value]
    else []
  }

  function Approvals(s: State, callId: u64): seq<Address> {
    if callId in s.approvals then s.approvals[callId] else []
  }

  function WithCaller(list: seq<Address>, caller: Address): seq<Address> {
    if caller in list then list else list + [caller]
  }

  function Answer(s: State, c: Call): Result<bool, ContractError> {
    match c
    case Add(auth, caller, newSigner) =>
      if caller !in auth then Err(AuthRequired)
      else if s.admin.None? then Err(NotInitialised)
      else if caller != s.admin.value then Err(Unauthorised)
      else if newSigner in Signers(s) then Err(SignerAlreadyExists)
      else Ok(true)
    case Approve(auth, callId, caller) =>
      if caller !in auth then Err(AuthRequired)
      else if caller !in Signers(s) then Err(Unauthorised)
      else Ok(|WithCaller(Approvals(s, callId), caller)| >= s.threshold.GetOr(1))
    case Expire(_) => Ok(true)
  }

  function Next(s: State, c: Call): State {
    if Answer(s, c).Err? then s
    else
      match c
      case Add(_, _, newSigner) => s.(relaySigners := Some(Signers(s) + [newSigner]))
      case Approve(_, callId, caller) =>
        if Answer(s, c).value then s.(approvals := s.approvals - {callId})
        else s.(approvals := s.approvals[callId := WithCaller(Approvals(s, callId), caller)])
      case Expire(callId) => s.(approvals := s.approvals - {callId})
  }

  /** The state after the calls, the last one last. */
  function Run(s: State, calls: seq<Call>): State {
    if calls == [] then s else Next(Run(s, calls[..|calls| - 1]), calls[|calls| - 1])
  }

  // ---- Sets behind the lists ----

  function ToSet(list: seq<Address>): set<Address> {
    set a | a in list
  }

  predicate NoDuplicates(list: seq<Address>) {
    forall i, j :: 0 <= i < j < |list| ==> list[i] != list[j]
  }

  lemma {:induction false} DistinctCount(list: seq<Address>)
    requires NoDuplicates(list)
    ensures |ToSet(list)| == |list|
  {
    if list != [] {
      var init, last := list[..|list| - 1], list[|list| - 1];
      DistinctCount(init);
      assert ToSet(list) == ToSet(init) + {last};
      assert last !in init;
    }
  }

  // ---- The invariant ----

  ghost predicate Inv(s: State, threshold: nat) {
    && threshold >= 1 && s.threshold.GetOr(1) == threshold
    && NoDuplicates(Signers(s))
    && forall c :: c in s.approvals ==>
         && NoDuplicates(s.approvals[c])
         && (forall a :: a in s.approvals[c] ==> a in Signers(s))
         && 0 < |s.approvals[c]| < threshold
  }

  lemma NextKeepsInv(s: State, c: Call, threshold: nat)
    requires Inv(s, threshold)
    ensures Inv(Next(s, c), threshold)
    ensures forall a :: a in Signers(s) ==> a in Signers(Next(s, c))
  {
    if c.Approve? && Answer(s, c).Ok? {
      var list := WithCaller(Approvals(s, c.callId), c.caller);
      assert NoDuplicates(list);
      assert forall a :: a in list ==> a in Signers(s);
    } else if c.Add? && Answer(s, c).Ok? {
      assert Signers(Next(s, c)) == Signers(s) + [c.newSigner];
    }
  }

  lemma {:induction false} InvOverRuns(s: State, calls: seq<Call>, threshold: nat)
    requires Inv(s, threshold)
    ensures Inv(Run(s, calls), threshold)
    ensures forall a :: a in Signers(s) ==> a in Signers(Run(s, calls))
  {
    if calls != [] {
      var init := calls[..|calls| - 1];
      InvOverRuns(s, init, threshold);
      NextKeepsInv(Run(s, init), calls[|calls| - 1], threshold);
    }
  }

  // ---- Who the signers are ----

  /** The stored set, and before there is one, the baseline signer alone. */
  predicate IsSigner(s: State, a: Address) {
    match s.relaySigners
    case Some(list) => a in list
    case None => s.relaySigner == Some(a)
  }

  /** An addition is accepted iff its caller signed, is the stored admin, and the
      address is not yet a signer; each error has its own cause. */
  lemma AdditionReplies(s: State, auth: set<Address>, caller: Address, newSigner: Address)
    ensures var c := Add(auth, caller, newSigner);
            var byAdmin := caller in auth && s.admin == Some(caller);
            && (Answer(s, c).Ok? <==> byAdmin && !IsSigner(s, newSigner))
            && (Answer(s, c) == Err(AuthRequired) <==> caller !in auth)
            && (Answer(s, c) == Err(NotInitialised) <==> caller in auth && s.admin.None?)
            && (Answer(s, c) == Err(Unauthorised) <==> caller in auth && s.admin.Some? && s.admin != Some(caller))
            && (Answer(s, c) == Err(SignerAlreadyExists) <==> byAdmin && IsSigner(s, newSigner))
  {
  }

  /** The addresses that accepted additions of the run brought in. */
  ghost function Added(s: State, calls: seq<Call>): set<Address> {
    set i | 0 <= i < |calls| && calls[i].Add? && Answer(Run(s, calls[..i]), calls[i]).Ok? :: calls[i].newSigner
  }

  lemma AddedStep(s: State, calls: seq<Call>)
    requires calls != []
    ensures var init, last := calls[..|calls| - 1], calls[|calls| - 1];
            Added(s, calls)
            == Added(s, init) + if last.Add? && Answer(Run(s, init), last).Ok? then {last.newSigner} else {}
  {
    var init := calls[..|calls| - 1];
    assert forall i :: 0 <= i < |init| ==> init[i] == calls[i] && init[..i] == calls[..i];
  }

  lemma SignerStep(s: State, c: Call, a: Address)
    ensures IsSigner(Next(s, c), a) <==> IsSigner(s, a) || (c.Add? && Answer(s, c).Ok? && c.newSigner == a)
    ensures Next(s, c).admin == s.admin && Next(s, c).threshold == s.threshold
  {
  }

  /** Over every run the signers are the initial ones and exactly those that accepted
      additions brought in, and the signed approvals that are turned away are exactly
      those of everyone else. */
  lemma {:induction false} SignersAreTheAdded(s: State, calls: seq<Call>, a: Address, auth: set<Address>, callId: u64)
    ensures IsSigner(Run(s, calls), a) <==> IsSigner(s, a) || a in Added(s, calls)
    ensures a in auth ==>
              (Answer(Run(s, calls), Approve(auth, callId, a)).Ok? <==> IsSigner(s, a) || a in Added(s, calls))
    ensures a in auth && Answer(Run(s, calls), Approve(auth, callId, a)).Err? ==>
              Answer(Run(s, calls), Approve(auth, callId, a)) == Err(Unauthorised)
  {
    if calls != [] {
      var init := calls[..|calls| - 1];
      SignersAreTheAdded(s, init, a, auth, callId);
      AddedStep(s, calls);
      SignerStep(Run(s, init), calls[|calls| - 1], a);
    }
  }

  // ---- Quorum over whole runs ----

  /** The distinct callers approved since `callId` last reached quorum (or its
      entry expired), counted from the replies alone. */
  ghost function Tally(s: State, calls: seq<Call>, callId: u64): set<Address> {
    if calls == [] then {}
    else
      var init, last := calls[..|calls| - 1], calls[|calls| - 1];
      var before := Tally(s, init, callId);
      if last.Expire? && last.callId == callId then {}
      else if last.Approve? && last.callId == callId then
        match Answer(Run(s, init), last)
        case Ok(true) => {}
        case Ok(false) => before + {last.caller}
        case Err(_) => before
      else before
  }

  lemma ToSetWithCaller(list: seq<Address>, caller: Address)
    ensures ToSet(WithCaller(list, caller)) == ToSet(list) + {caller}
  {
  }

  lemma StoredStep(s: State, c: Call, callId: u64)
    ensures ToSet(Approvals(Next(s, c), callId))
         == if c.Expire? && c.callId == callId then {}
            else if c.Approve? && c.callId == callId && Answer(s, c).Ok?
            then (if Answer(s, c).value then {} else ToSet(Approvals(s, callId)) + {c.caller})
            else ToSet(Approvals(s, callId))
  {
    if c.Approve? {
      ToSetWithCaller(Approvals(s, c.callId), c.caller);
    }
  }

  lemma {:induction false} StoredIsTally(s: State, calls: seq<Call>, callId: u64, threshold: nat)
    requires Inv(s, threshold) && s.approvals == map[]
    ensures ToSet(Approvals(Run(s, calls), callId)) == Tally(s, calls, callId)
    ensures |Tally(s, calls, callId)| == |Approvals(Run(s, calls), callId)| < threshold
  {
    InvOverRuns(s, calls, threshold);
    DistinctCount(Approvals(Run(s, calls), callId));
    if calls != [] {
      var init := calls[..|calls| - 1];
      StoredIsTally(s, init, callId, threshold);
      StoredStep(Run(s, init), calls[|calls| - 1], callId);
    }
  }

  /** An approval by a signer is answered `true` exactly when it brings the
      distinct callers since the last `true` to the threshold; repeats by the same
      signer never count twice. */
  lemma QuorumExactlyAtThreshold(s: State, calls: seq<Call>, threshold: nat, auth: set<Address>, callId: u64,
                                 caller: Address)
    requires Inv(s, threshold) && s.approvals == map[]
    requires caller in auth && caller in Signers(Run(s, calls))
    ensures Answer(Run(s, calls), Approve(auth, callId, caller))
         == Ok(|Tally(s, calls, callId) + {caller}| == threshold)
    ensures |Tally(s, calls, callId) + {caller}| <= threshold
  {
    var s1 := Run(s, calls);
    InvOverRuns(s, calls, threshold);
    StoredIsTally(s, calls, callId, threshold);
    var list := WithCaller(Approvals(s1, callId), caller);
    assert NoDuplicates(list);
    DistinctCount(list);
    assert ToSet(list) == Tally(s, calls, callId) + {caller};
  }

  /** A call by an unauthenticated caller or a non-signer changes nothing, and an
      approval touches no other call id. */
  lemma OutsidersChangeNothing(s: State, auth: set<Address>, callId: u64, caller: Address, other: u64)
    ensures caller !in auth || caller !in Signers(s) ==>
              Answer(s, Approve(auth, callId, caller)).Err? && Next(s, Approve(auth, callId, caller)) == s
    ensures other != callId ==>
              Approvals(Next(s, Approve(auth, callId, caller)), other) == Approvals(s, other)
    ensures Signers(Next(s, Approve(auth, callId, caller))) == Signers(s)
  {
  }

  /** At quorum the approvals are consumed: the same call id starts from nothing. */
  lemma QuorumConsumes(s: State, calls: seq<Call>, threshold: nat, auth: set<Address>, callId: u64, caller: Address)
    requires Inv(s, threshold) && s.approvals == map[]
    requires Answer(Run(s, calls), Approve(auth, callId, caller)) == Ok(true)
    ensures Approvals(Next(Run(s, calls), Approve(auth, callId, caller)), callId) == []
    ensures Tally(s, calls + [Approve(auth, callId, caller)], callId) == {}
  {
    assert (calls + [Approve(auth, callId, caller)])[..|calls|] == calls;
  }

  /** Everyone whose approval of `callId` was accepted along the run, whenever they
      became a signer. */
  ghost function Approvers(s: State, calls: seq<Call>, callId: u64): set<Address> {
    set i | 0 <= i < |calls| && calls[i].Approve? && calls[i].callId == callId
            && Answer(Run(s, calls[..i]), calls[i]).Ok? :: calls[i].caller
  }

  /** Call `i` of the run is an approval of `callId` that is told the quorum is met. */
  ghost predicate ReachesAt(s: State, calls: seq<Call>, callId: u64, i: nat)
    requires i < |calls|
  {
    calls[i].Approve? && calls[i].callId == callId && Answer(Run(s, calls[..i]), calls[i]) == Ok(true)
  }

  lemma ApproversStep(s: State, calls: seq<Call>, callId: u64)
    requires calls != []
    ensures var init, last := calls[..|calls| - 1], calls[|calls| - 1];
            Approvers(s, calls, callId)
            == Approvers(s, init, callId)
               + if last.Approve? && last.callId == callId && Answer(Run(s, init), last).Ok? then {last.caller} else {}
  {
    var init := calls[..|calls| - 1];
    assert forall i :: 0 <= i < |init| ==> init[i] == calls[i] && init[..i] == calls[..i];
  }

  lemma ReachesEarlier(s: State, calls: seq<Call>, callId: u64, i: nat)
    requires i < |calls| - 1
    ensures ReachesAt(s, calls, callId, i) == ReachesAt(s, calls[..|calls| - 1], callId, i)
  {
    assert calls[..|calls| - 1][..i] == calls[..i];
  }

  lemma {:induction false} NoQuorumMeansAllTallied(s: State, calls: seq<Call>, callId: u64)
    requires forall i :: 0 <= i < |calls| ==> calls[i] != Expire(callId)
    requires forall i :: 0 <= i < |calls| ==> !ReachesAt(s, calls, callId, i)
    ensures Approvers(s, calls, callId) == Tally(s, calls, callId)
  {
    if calls != [] {
      var init := calls[..|calls| - 1];
      forall i | 0 <= i < |init| ensures !ReachesAt(s, init, callId, i) {
        ReachesEarlier(s, calls, callId, i);
      }
      NoQuorumMeansAllTallied(s, init, callId);
      ApproversStep(s, calls, callId);
      assert !ReachesAt(s, calls, callId, |calls| - 1);
    }
  }

  /** Liveness: once `threshold` distinct signers have approved, in any order, with
      repeats and with any other calls in between, including the additions that made
      some of them signers, one of them was told `true`. */
  lemma AnyThresholdOfSignersReachesQuorum(s: State, calls: seq<Call>, callId: u64, threshold: nat)
    requires Inv(s, threshold) && s.approvals == map[]
    requires forall i :: 0 <= i < |calls| ==> calls[i] != Expire(callId)
    requires |Approvers(s, calls, callId)| >= threshold
    ensures exists i :: 0 <= i < |calls| && ReachesAt(s, calls, callId, i)
  {
    if forall i :: 0 <= i < |calls| ==> !ReachesAt(s, calls, callId, i) {
      NoQuorumMeansAllTallied(s, calls, callId);
      StoredIsTally(s, calls, callId, threshold);
    }
  }

  // ---- Storage ----

  class RelayQuorum {
    var admin: Option<Address>
    var relaySigner: Option<Address>
    var relaySigners: Option<seq<Address>>
    var threshold: Option<u32>
    var approvals: map<u64, seq<Address>>

    ghost function View(): State
      reads this
    {
      State(admin, relaySigner, relaySigners, threshold, approvals)
    }

    constructor (admin: Address, relaySigner: Address)
      ensures View() == State(Some(admin), Some(relaySigner), None, None, map[])
      ensures Inv(View(), 1)
    {
      this.admin, this.relaySigner := Some(admin), Some(relaySigner);
      relaySigners, threshold, approvals := None, None, map[];
    }

    /** The stored set, or the single baseline signer as a one-of-one set. */
    method GetRelaySigners() returns (signers: seq<Address>)
      ensures signers == Signers(View())
    {
      if relaySigners.Some? {
        return relaySigners.value;
      }
      signers := [];
      if relaySigner.Some? {
        signers := signers + [relaySigner.value];
      }
    }

    method AddRelaySigner(auth: set<Address>, caller: Address, newSigner: Address)
      returns (r: Result<bool, ContractError>)
      modifies this`relaySigners
      ensures r == Answer(old(View()), Add(auth, caller, newSigner))
      ensures View() == Next(old(View()), Add(auth, caller, newSigner))
    {
      if caller !in auth {
        return Err(AuthRequired);
      }
      if admin.None? {
        return Err(NotInitialised);
      }
      if caller != admin.value {
        return Err(Unauthorised);
      }
      var signers := GetRelaySigners();
      for i := 0 to |signers|
        invariant newSigner !in signers[..i]
      {
        if signers[i] == newSigner {
          return Err(SignerAlreadyExists);
        }
      }
      assert signers[..|signers|] == signers;
      relaySigners := Some(signers + [newSigner]);
      return Ok(true);
    }

    /** Scans a list for an address, stopping at the first match. */
    method Contains(list: seq<Address>, a: Address) returns (found: bool)
      ensures found <==> a in list
    {
      found := false;
      for i := 0 to |list|
        invariant !found && a !in list[..i]
      {
        if list[i] == a {
          found := true;
          break;
        }
      }
    }

    method ApproveRelayCall(auth: set<Address>, callId: u64, caller: Address)
      returns (r: Result<bool, ContractError>)
      modifies this`approvals
      ensures r == Answer(old(View()), Approve(auth, callId, caller))
      ensures View() == Next(old(View()), Approve(auth, callId, caller))
    {
      if caller !in auth {
        return Err(AuthRequired);
      }
      var signers := GetRelaySigners();
      var isSigner := Contains(signers, caller);
      if !isSigner {
        return Err(Unauthorised);
      }
      var list := if callId in approvals then approvals[callId] else [];
      var alreadyApproved := Contains(list, caller);
      if !alreadyApproved {
        list := list + [caller];
      }
      var quorumMet := |list| >= threshold.GetOr(1);
      if quorumMet {
        approvals := approvals - {callId};
      } else {
        approvals := approvals[callId := list];
      }
      return Ok(quorumMet);
    }
  }
}
