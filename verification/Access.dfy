/**
 The role check in front of the lifecycle entry points. Roles are the ones stored
 at the moment of the call; `auth` is the set of addresses whose signature the host
 accepts for it.
 */
module Access {
  import opened Types
  import L = Lifecycle

  function RelayOrAdmin(admin: Option<Address>, relay: Option<Address>, auth: set<Address>, caller: Address)
    : Result<Unit, ContractError>
  {
    if admin.None? || relay.None? then Err(NotInitialised)
    else if caller !in auth then Err(AuthRequired)
    else if caller != admin.value && caller != relay.value then Err(Unauthorised)
    else Ok(Unit)
  }

  method RequireRelayOrAdmin(admin: Option<Address>, relay: Option<Address>, auth: set<Address>, caller: Address)
    returns (r: Result<Unit, ContractError>)
    ensures r == RelayOrAdmin(admin, relay, auth, caller)
    ensures r.Ok? <==> admin.Some? && relay.Some? && caller in auth && (Some(caller) == admin || Some(caller) == relay)
    ensures r == Err(NotInitialised) <==> admin.None? || relay.None?
    ensures r == Err(AuthRequired) <==> admin.Some? && relay.Some? && caller !in auth
  {
    if admin.None? || relay.None? {
      return Err(NotInitialised);
    }
    if caller !in auth {
      return Err(AuthRequired);
    }
    if caller != admin.value && caller != relay.value {
      return Err(Unauthorised);
    }
    return Ok(Unit);
  }

  /** What a lifecycle entry point answers: the role, then the length cap on its
      text argument, then the state diagram. */
  function EntryAnswer(txs: L.Records, admin: Option<Address>, relay: Option<Address>, auth: set<Address>, op: L.Op,
                       tooLong: bool): Result<Unit, ContractError>
  {
    var role := RelayOrAdmin(admin, relay, auth, op.caller);
    if role.Err? then role
    else if tooLong then Err(StringTooLong)
    else
      match L.Outcome(txs, op)
      case Err(NotFound) => Err(ContractError.NotFound)
      case Err(InvalidSource) => Err(InvalidStatusTransition)
      case Ok(_) => Ok(Unit)
  }
}
