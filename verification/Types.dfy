/**
 Shared vocabulary: the contract's integer widths, identities, error codes and
 the two failure-carrying datatypes.
 */
module Types {

  const U32_MAX: nat := 0xFFFF_FFFF
  const U64_MAX: nat := 0xFFFF_FFFF_FFFF_FFFF
  const U128_MAX: nat := 0xFFFF_FFFF_FFFF_FFFF_FFFF_FFFF_FFFF_FFFF
  const I128_MAX: int := 0x7FFF_FFFF_FFFF_FFFF_FFFF_FFFF_FFFF_FFFF
  const I128_MIN: int := -0x8000_0000_0000_0000_0000_0000_0000_0000

  type u32 = x: nat | x <= U32_MAX
  type u64 = x: nat | x <= U64_MAX
  type i128 = x: int | I128_MIN <= x <= I128_MAX

  datatype Option<+T> = None | Some(value: T) {
    function GetOr(default: T): T {
      if None? then default else value
    }
  }

  datatype Result<+T, +E> = Ok(value: T) | Err(error: E)

  /** An account or contract address. */
  datatype Address = Address(key: nat)

  /** The one abstract transaction identifier (the source mixes several types). */
  type TxId = string

  datatype Unit = Unit

  datatype CallbackType = Deposit | Withdrawal

  /** What the relay submits for one anchor callback. */
  datatype CallbackPayload = CallbackPayload(
    transactionId: TxId,
    stellarAccount: string,
    amount: i128,
    assetCode: string,
    assetIssuer: string,
    idempotencyKey: string,
    anchorTransactionId: string,
    callbackType: CallbackType,
    callbackStatus: string)

  datatype ContractError =
      // Access
    | AuthRequired
    | Unauthorised
      // Registry
    | ContractPaused
    | NotInitialised
    | NotFound
    | InvalidStatusTransition
    | DuplicateRequest
    | NoPendingAdmin
    | StringTooLong
    | InvalidAmount
    | InvalidStellarAccount
    | InvalidAssetCode
    | InvalidAssetIssuer
    | MissingIdempotencyKey
    | InvalidPageLimit
      // Fees and treasury
    | InvalidParamValue
    | ArithmeticOverflow
    | TreasuryNotConfigured
    | InvalidWithdrawalAmount
    | InsufficientTreasuryBalance
    | WithdrawalNotRelaySigner
    | NoPendingWithdrawal
    | WithdrawalProposalMismatch
    | WithdrawalCapExceeded
      // Relay quorum
    | SignerAlreadyExists
      // Collateral
    | InvalidBondAmount
    | SignerNotBonded
    | UnbondAlreadyPending
    | InsufficientBond
    | NoPendingUnbond
    | UnbondDelayNotElapsed
    | InvalidSlashEvidence
      // A host trap from an overflow check: the whole call is rolled back
    | HostTrap
}
