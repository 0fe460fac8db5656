# A verified model of the callback registry and its tooling

The repository is a Soroban contract that registers anchor callbacks on chain, together with the tooling that guards
it. This project models the parts that carry state, arithmetic or a protocol, and proves what they promise over every
input, every run and every interleaving.

| file | part of the system |
|---|---|
| `Types.dfy` | integer widths, addresses, payloads, error codes |
| `Fee.dfy` | the overflow-free basis-points fee |
| `Lifecycle.dfy` | transaction records, the shared transition guard and its four callers, the paged status query |
| `Access.dfy` | the relay-or-admin role check in front of the lifecycle |
| `Treasury.dfy` | fee accrual, admin proposal, relay authorisation, the epoch cap |
| `Registry.dfy` | registration against an expiring idempotency key, roles, pausing, rotation, admin transfer |
| `Rotation.dfy` | the key-rotation harness: reference model, bookkeeping, chaos run |
| `Quorum.dfy` | relay-signer set and distinct approvals |
| `Collateral.dfy` | bond, unbond, claim, slash |
| `Text.dfy` | the string operations the tooling uses: lines, trim, split, decimal, key order |
| `BaselineFile.dfy`, `RoundTrip.dfy` | parser and printer of the resource baseline, and their round trip |
| `Gate.dfy` | the regression gate and its self-test |
| `LineDiff.dfy`, `SchemaDiff.dfy` | the line differ; schema-version diffs |

**How the model is built.** Each stateful component has a `State`, a function `Answer` (what a call replies) and a
function `Next` (what it leaves behind, nothing when it replies an error), and a class whose methods work step by step
over fields and lists and are proved equal to them. The theorems are about `Run`, which is any sequence of calls by any
callers. Authentication is a set `auth` of addresses whose signature the host accepts; a rejected or trapping call
leaves the state alone, which is the host's rollback; time is a ledger number; the host dropping an expired temporary
approval is a call `Expire`.

**Where the code and its documents disagree, or are silent.**

- The README and `register_callback` differ on a reused key: the document says the original id comes back, the code
  returns the id in the new payload. The code is followed; `AcceptedIsStoredIff` gives the exact condition under which
  the returned id is stored, and `ReusedKeyNamesNothing` an input for which it is not.
- The ADR speaks of the total withdrawn per window of `epoch_length` ledgers; the code caps it per epoch. Any `length`
  consecutive ledgers see at most `2 * cap - 1`, or `cap` when the length is 1 (`WindowCap`), and that much is reached
  (`WindowCapIsTight`). With a balance of at least `cap + 2` the sliding reading holds exactly when the cap or the length
  is 1 (`SlidingCapIff`).
- `exceeds` is exact for thresholds up to `u64::MAX - 98`; above that some input traps (`NeverTrapsIff`).
- The differ loses a carriage return at the end of a line; `Lossless` states exactly when it loses nothing.
- Schema diffs compose exactly for ascending manifests (`ComposesIffSorted`), as multisets for all.
- A negative unbond delay clamps to zero as `src/test_boundaries.rs` says, not to "never" as `CHANGELOG.md` says. The
  early-claim error is the `UnbondDelayNotElapsed` of `src/test_boundaries.rs`.
- The storage layer answers `InvalidSource` to an over-long reason, the entry points answer `StringTooLong`; each level
  is modelled as it is. The role check is named `NotAuthorized` in `src/admin.rs` and `Unauthorised` in the tests; the
  illegal page limit is `InvalidLimit` in `src/storage.rs` and `InvalidPageLimit` in `src/tests.rs`; the tests' names
  are used.
- The reason cap of 64 and the page limit of 50 come from the tests; the constants' definitions are not part of this
  model. The default unbond delay is a constructor parameter.
- Entry points whose bodies the repository does not contain (treasury, collateral, most of the registry) follow what
  their tests pin.
  The order of checks no test distinguishes is a choice: authentication, role, configuration, pending proposal,
  mismatch, balance, cap for `authorize_withdrawal`. No theorem depends on the choice except for which error is named.
- Conflicting slash evidence is two payloads for the named transaction that differ in any field but the idempotency
  key. A slash refreshes `updated_at`, which no test pins.

## Model

| member | source | states |
|---|---|---|
| Fee.ComputeFeeIsFloor | docs/adr/0008-fee-accrual-and-treasury-withdrawal.md:41-48 | for every positive `i128` and every `u32` rate the checked split formula is exactly `floor(amount * bps / 10_000)`, and overflows only when that floor does not fit |
| Fee.LegalRateFee | src/test_fee_treasury.rs:599-649 | at legal rates the fee never overflows, is at least 0 and at most the amount; non-positive amounts are free |
| Fee.SplittingAPayment | src/test_fee_treasury.rs:599-626 | the whole payment pays the two parts plus one unit exactly when `a * bps % 10_000 + b * bps % 10_000 >= 10_000`, and nothing more otherwise |
| Fee.SplittingCanSaveOne | src/test_fee_treasury.rs:138-147 | an instance: two payments of 5_000 at one basis point pay one unit less than one of 10_000 |
| Lifecycle.Store.TransitionStatus | src/storage.rs:267-287 | unknown id, illegal source, or exactly one record with new status, caller and reason; errors write nothing |
| Lifecycle.Store.StartProcessing | src/storage.rs:342-355 | reply and new records are those the state diagram prescribes |
| Lifecycle.Store.CompleteTransaction | src/storage.rs:363-376 | reply and new records are those the state diagram prescribes |
| Lifecycle.Store.CancelTransaction | src/storage.rs:390-409 | the same, with the reason stored and its length cap enforced first |
| Lifecycle.Store.FailTransaction | src/storage.rs:431-450 | the same, with the reason stored and its length cap enforced first |
| Lifecycle.SucceedsIff | src/storage.rs:342-450 | a transition succeeds iff the record exists, is in one of its sources and the reason is at most 64 characters; `NotFound` iff only the id is wrong |
| Lifecycle.RecordShowsLastMove | src/storage.rs:275-286 | over every run a record shows exactly its last successful transition: target, caller, reason; amount and hash stay |
| Lifecycle.RegistrationWrites | src/lib.rs:339-342 | a new record is pending with its amount and caller; existing ones are left alone |
| Lifecycle.StepFollowsAnEdge | src/storage.rs:300-306 | no step deletes a record; a record that changes moved along one documented edge, by the operation that named it, and lost rank |
| Lifecycle.TransactionHistory | src/storage.rs:298-306 | over every run a transaction stays on the diagram, has at most two successful transitions, and never changes once terminal |
| Lifecycle.ReasonsOverRuns | src/storage.rs:390-450 | over every run a reason is stored exactly in Failed and Cancelled and is within the cap |
| Lifecycle.Store.GetTransactionsByStatus | src/storage.rs:764-801 | limit 0 or above 50 is refused; otherwise the filtered index range, the saturating `u32` end being exact |
| Lifecycle.PagingIsFiltering | src/storage.rs:764-801 | consecutive pages of any size concatenate to the whole filtered index in order, each within its limit |
| Lifecycle.PageIsExact | src/storage.rs:777-800 | a page shows exactly the indexed ids among its positions that exist with that status, in index order |
| Access.RequireRelayOrAdmin | src/admin.rs:43-55 | passes iff the caller signed and is the stored admin or relay of the moment; an unsigned call is told so before its role |
| Treasury.Treasury.SetParam | src/test_fee_treasury.rs:674-691 | admin only; each of the three parameters is range-checked; only that parameter changes |
| Treasury.SetParamReplies | src/test_fee_treasury.rs:204-228 | each parameter is accepted exactly in its literal range with the stored admin's signature, and nothing else changes |
| Treasury.ParametersAreTheLastAccepted | src/test_fee_treasury.rs:559-585 | over every run each parameter holds the value last accepted for it |
| Treasury.AcceptedCapBinds | src/test_fee_treasury.rs:454-471 | once a cap of `v` is accepted, and until another is, no epoch pays more than `v` and no window more than `2 * v - 1` |
| Treasury.AcceptedRateCharges | src/test_fee_treasury.rs:284-295 | once a rate of `v` is accepted, and until another is, every completion adds exactly `floor(amount * v / 10_000)` |
| Treasury.CompletionCharges | src/test_fee_treasury.rs:270-283 | a completion adds the floor fee at the stored rate, and nothing while no rate is set |
| Treasury.Treasury.CompleteTransaction | src/test_fee_treasury.rs:652-671 | the registry's completion, then accrual of the floor fee at the current rate; an accrual past `i128::MAX` is refused and the transition rolled back |
| Treasury.Treasury.ProposeWithdrawal | src/test_fee_treasury.rs:300-372 | admin signature, configuration, positive amount, balance, in that order; success replaces the pending proposal and nothing else |
| Treasury.ProposalReplies | src/test_fee_treasury.rs:300-372 | the exact condition of acceptance and of each error; a new proposal replaces whatever was pending |
| Treasury.Treasury.AuthorizeWithdrawal | src/test_fee_treasury.rs:375-500 | relay only, exact restatement of the proposal, epoch reset at `start + length`, cap; success debits, counts in the epoch, clears the proposal |
| Treasury.AuthorisationReplies | src/test_fee_treasury.rs:701-765 | the exact condition of acceptance and of each error in every reachable state, with the epoch over `epochLength` ledgers after it opened |
| Treasury.InvOverRuns | src/test_fee_treasury.rs:347-386 | in every reachable state the balance is in `0..i128::MAX` and a pending proposal is configured, positive and covered by the balance |
| Treasury.DebitNeverUnderflows | src/test_fee_treasury.rs:727-745 | after any run, rotations included, whoever authorises, the debit is covered and a pending proposal finds the treasury configured |
| Treasury.Conservation | src/test_fee_treasury.rs:284-295 | over every run of treasury and registry calls, balance = initial balance + the fee of each completion at the rate of its own time - executed withdrawals |
| Treasury.CompletionsAreTheCompleted | src/test_fee_treasury.rs:158-202 | a fee is taken exactly once for each transaction that ends Completed and for no other |
| Treasury.AmountsAreTheRegistered | src/test_fee_treasury.rs:83-96 | a registered amount never changes and is the one the fee is taken on |
| Treasury.OverflowStrandsNothing | src/test_fee_treasury.rs:659-671 | where accrual would overflow, the relay can still fail the transaction, at no fee |
| Treasury.WithdrawalNeedsBothKeys | src/test_accepted_risks.rs:657-730 | through rotations of both keys, every executed withdrawal is signed by the relay of its own moment, restates the latest successful proposal, signed by the admin of that proposal's moment, debits exactly it and leaves nothing pending |
| Treasury.EpochCap | src/test_fee_treasury.rs:454-500 | withdrawals of one epoch total at most the cap in every run that leaves the cap alone, both keys cooperating and the length changing |
| Treasury.WindowRoomPays | docs/adr/0008-fee-accrual-and-treasury-withdrawal.md:97-104 | every call pays for what it withdraws inside a window from a bounded potential |
| Treasury.WindowCap | docs/adr/0008-fee-accrual-and-treasury-withdrawal.md:97-104 | withdrawals in any `length` consecutive ledgers total at most `2 * cap - 1`, and at most `cap` when the length is 1, wherever the window lies |
| Treasury.Straddle | src/test_fee_treasury.rs:475-500 | for length above 1 a window across an epoch boundary sees a full cap on top of any `late < cap` |
| Treasury.WindowCapIsTight | src/test_fee_treasury.rs:701-724 | from every state with both keys set and a balance of `2 * cap`, for cap and length above 1, a run reaches `2 * cap - 1` |
| Treasury.SlidingCapIff | docs/adr/0008-fee-accrual-and-treasury-withdrawal.md:97-104 | read as a cap on every window of `epoch_length` ledgers, the limit holds in every run iff the cap or the length is 1 |
| Treasury.PayoutSucceeds | src/test_fee_treasury.rs:375-386 | with both signatures a proposal within balance and epoch room always pays out exactly it |
| Registry.Registry.RegisterCallback | src/lib.rs:329-343 | pause, relay signature, payload caps, live key, stored id, in that order; the last case writes record, key and event together |
| Registry.RegistrationReplies | src/test_boundaries.rs:156-377 | under an unused key, accepted iff unpaused, relay-signed, every field within its literal cap and the id new; each error names a cause that is there |
| Registry.RegistrationWrites | src/lib.rs:333-343 | a write stores the payload's amount, pending, for the relay, without reason, its key at this ledger and one event, and nothing else |
| Registry.Registry.RequireAdmin | src/admin.rs:28-35 | passes iff the stored admin signed |
| Registry.Registry.StartProcessing | src/test_rotation_chaos.rs:166-185 | role check, then the guard, with the entry point's error codes |
| Registry.Registry.CompleteTransaction | src/test_boundaries.rs:381-413 | role check, hash cap, guard; success records the hash, failure changes nothing |
| Registry.Registry.FailTransaction | src/test_boundaries.rs:417-439 | role check, reason cap, guard |
| Registry.LifecycleReplies | src/test_boundaries.rs:381-439 | the exact condition of success and of each error (72 for a hash, 64 for a reason) and the record that results |
| Registry.Registry.SetRelaySigner | src/test_rotation_chaos.rs:113-122 | admin only; the relay becomes the new address and nothing else changes |
| Registry.Registry.ProposeAdmin | src/test_rotation_chaos.rs:552-560 | admin only; replaces the pending admin, the admin stays |
| Registry.Registry.SetPaused | src/test_rotation_chaos.rs:561-569 | admin only; sets the pause flag and nothing else |
| Registry.AdminReplies | src/admin.rs:28-35 | with the stored admin's signature each of the three calls changes its one field, otherwise nothing |
| Registry.Registry.AcceptAdmin | src/admin.rs:63-74 | only the signed pending admin becomes admin |
| Registry.AdminChangesByAcceptance | src/admin.rs:57-74 | over every run an acceptance succeeds iff its signed caller is whom the latest accepted step of a transfer proposed, signed by the admin of that moment; anyone else is `Unauthorised`; no other call changes the admin |
| Registry.InvOverRuns | src/tests.rs:973-1048 | over every run each id is written at most once and announced by exactly one `reg` event, every key points at a stored transaction, no record is deleted |
| Registry.ReplayChangesNothing | src/tests.rs:1015-1048 | a replay of a stored id, under any key, at any later ledger, after any calls, changes nothing |
| Registry.ReplayVerdict | src/tests.rs:973-1013 | after a write at ledger `n`, while nothing else writes under its key, a signed unpaused replay is accepted with the same id up to ledger `n + 18_000` and is a duplicate from the next on; it never writes |
| Registry.ReplayNeverWrites | src/tests.rs:1015-1048 | after any calls whatever a replay writes nothing, its key is live for at least the window, and once it is not the replay is a duplicate |
| Registry.AcceptedIsStoredIff | README.md:189-198 | an accepted registration names a stored transaction iff its key was not live or its id was already stored |
| Registry.HonestKeysAreStored | README.md:189-198 | if a live key is reused only with its original id, every accepted registration names a stored transaction |
| Registry.ReusedKeyNamesNothing | src/lib.rs:336-338 | otherwise not: a concrete reused key is accepted under an id that is nowhere stored |
| Registry.OutsidersAreRejected | src/test_rotation_chaos.rs:187-200 | a signed lifecycle call by anyone but the current relay and admin is `Unauthorised` and changes nothing |
| Registry.UnsignedRegistrationIsRejected | src/test_rotation_chaos.rs:142-160 | a registration without the current relay's signature is refused and changes nothing |
| Registry.RelayCanFinish | src/test_rotation_chaos.rs:202-217 | from every state the current relay alone terminates any transaction in at most two accepted calls, other records untouched |
| Rotation.ContractRefinesModel | src/test_rotation_chaos.rs:510-518 | role check plus guard give the model's verdict and next status on every call, and touch no other record |
| Rotation.RotateToKeepsExact | src/test_rotation_chaos.rs:113-122 | rotating to any generated address that is not a stale admin keeps the bookkeeping exact |
| Rotation.RotationMakes | src/test_rotation_chaos.rs:113-138 | whom each kind makes the relay, and that the stale relays gain the old relay and lose whoever is current |
| Rotation.TransferMakes | src/test_rotation_chaos.rs:551-560 | the new admin is a new address and the old one is stale unless it is the relay |
| Rotation.World.RotateTo | src/test_rotation_chaos.rs:113-122 | keeps the bookkeeping exact, moves the contract's relay, and its own assertion holds |
| Rotation.World.Rotate | src/test_rotation_chaos.rs:124-138 | each of the four kinds does what the bookkeeping prescribes |
| Rotation.World.TransferAdmin | src/test_rotation_chaos.rs:551-560 | two-step transfer succeeds; the old admin becomes stale unless it is the relay |
| Rotation.BookkeepingIsExact | src/test_rotation_chaos.rs:113-138 | over every interleaving of rotations and transfers no current key is stale, stale relays are distinct, and every address of the history is current relay, current admin, stale relay or stale admin |
| Rotation.LifecycleChoice | src/test_rotation_chaos.rs:582-619 | in the model of a run, a call by relay or admin moves the chosen transaction along the documented edges, and a call by anyone else moves nothing |
| Rotation.ModelCounts | src/test_rotation_chaos.rs:561-581 | every toggle flips the pause, and exactly the registrations drawn while unpaused are listed |
| Rotation.KeysFollowTheEvents | src/test_rotation_chaos.rs:549-560 | the keys of a run are those its rotations, transfers and generated callers make |
| Rotation.World.Step | src/test_rotation_chaos.rs:166-185 | the call gets the model's verdict and effect |
| Rotation.World.StaleSignersCannot | src/test_rotation_chaos.rs:188-199 | every stale relay is turned away with the state unchanged, so the check passes |
| Rotation.World.AssertCanFinish | src/test_rotation_chaos.rs:202-217 | the current relay reaches Completed or Failed, so the check passes; other records untouched |
| Rotation.World.LifecycleCall | src/test_rotation_chaos.rs:586-626 | any actor's call on any transaction gets the expected verdict and model and contract stay in agreement |
| Rotation.World.ChaosStep | src/test_rotation_chaos.rs:546-626 | one choice moves contract and model together |
| Rotation.World.RunSchedule | src/test_rotation_chaos.rs:538-626 | the sampled part of the run leaves contract, keys and listing exactly as the model of those choices |
| Rotation.World.RunChaos | src/test_rotation_chaos.rs:538-633 | for every schedule all assertions pass; the list is the model's, it names every record of the contract, each ends Failed if the schedule failed it and Completed otherwise, there are as many as registrations drawn while unpaused, and keys and pause flag are those of the choices |
| Quorum.RelayQuorum.GetRelaySigners | src/storage.rs:576-587 | the stored set, else the baseline signer as a set of one |
| Quorum.RelayQuorum.AddRelaySigner | src/storage.rs:598-628 | admin only, duplicates refused, otherwise the set grows by exactly the new signer |
| Quorum.AdditionReplies | src/storage.rs:598-621 | accepted iff the caller signed, is the stored admin, and the address is not yet a signer; each error has its own cause |
| Quorum.SignersAreTheAdded | src/storage.rs:576-628 | over every run the signers are the initial ones and exactly those of accepted additions, and signed approvals are refused to exactly everyone else |
| Quorum.RelayQuorum.ApproveRelayCall | src/storage.rs:683-730 | signers only; the caller is recorded once; at the threshold the approvals are consumed |
| Quorum.InvOverRuns | src/storage.rs:598-730 | over every run stored approvals are duplicate-free current signers, fewer than the threshold, and the signer set only grows |
| Quorum.StoredIsTally | src/storage.rs:665-730 | stored approvals are exactly the distinct callers since the last `true` |
| Quorum.QuorumExactlyAtThreshold | src/storage.rs:653-730 | an approval answers `true` exactly when it brings those distinct callers to the threshold |
| Quorum.OutsidersChangeNothing | src/storage.rs:683-702 | unsigned callers and non-signers change nothing; other call ids and the signer set are untouched |
| Quorum.QuorumConsumes | src/storage.rs:716-722 | at quorum the same call id starts again from nothing |
| Quorum.AnyThresholdOfSignersReachesQuorum | src/storage.rs:683-730 | any threshold-many distinct signers, in any order, with repeats and other calls between, reach quorum |
| Collateral.Ledger.SetParam | src/test_wave2.rs:79-147 | admin only; overwrites one parameter, unchecked |
| Collateral.SetParamReplies | src/test_wave2.rs:79-147 | accepted iff the stored admin signed, whatever the value; only that parameter changes |
| Collateral.ParametersAreTheLastAccepted | src/test_wave2.rs:87-94 | over every run delay and rate are those last accepted, else the initial ones, else the defaults |
| Collateral.Ledger.AddBond | src/test_boundaries.rs:524-555 | positive amounts only; tops up, keeps `bonded_at`; a total past `i128::MAX` reverts |
| Collateral.BondReplies | src/test_wave2.rs:151-195 | the exact condition of acceptance and of each error; a top-up adds and keeps the ledger of the first bond |
| Collateral.Ledger.RequestUnbond | src/test_boundaries.rs:559-591 | one pending request, at most the bond, claimable at the clamped, saturating ledger |
| Collateral.RequestReplies | src/test_wave2.rs:209-263 | the exact condition of acceptance and of each error; a request moves no collateral |
| Collateral.Ledger.Claim | src/test_boundaries.rs:595-612 | refused before its ledger; then pays the request and removes a bond at zero |
| Collateral.ClaimReplies | src/test_wave2.rs:268-327 | unsigned or without a request it is refused; a bond at zero is dropped, otherwise it keeps the ledger of the first bond |
| Collateral.Ledger.Slash | src/test_boundaries.rs:656-710 | valid evidence only; clamped rate; removes the slashed part and cancels the request |
| Collateral.ConflictingIff | src/test_wave2.rs:415-500 | evidence conflicts iff both payloads are for the named transaction and differ in a field other than the key |
| Collateral.SlashReplies | src/test_boundaries.rs:656-710 | after any run, the exact condition of acceptance and of each error; it takes `floor(bond * rate / 10_000)` at the last accepted rate held within 0 and 10_000, and cancels the request |
| Collateral.InvOverRuns | src/test_wave2.rs:248-318 | in every reachable state bonds are positive and in range and a pending request is at most its bond |
| Collateral.ClaimNeverUnderflows | src/test_wave2.rs:268-303 | the claim's subtraction never underflows, whatever top-ups and slashes came between |
| Collateral.Conservation | src/test_wave2.rs:150-303 | per signer over every run, bonded = paid in - claimed - slashed, and none of the three flows is negative |
| Collateral.TotalConservation | src/test_wave2.rs:150-303 | over every run, all collateral in the bond table = what it was + everything paid in - everything claimed - everything slashed |
| Collateral.ClaimWaits | src/test_boundaries.rs:596-652 | a successful claim pays one earlier signed request not settled since, and only once the delay last accepted before that request (none if negative, saturating at `u32::MAX`) has passed |
| Collateral.ClaimableIff | src/test_boundaries.rs:596-612 | an unsettled request is claimable exactly from its ledger plus that delay on, whatever was accepted since, and pays exactly the requested amount |
| Collateral.RequestsStaySlashable | src/test_wave2.rs:390-403 | a pending request shields nothing: a slash answers and takes the same, and cancels it |
| Collateral.SlashWithinBond | src/test_boundaries.rs:656-678 | a slash takes between nothing and the bond, all of it at the full rate |
| Collateral.SlashableIff | src/test_boundaries.rs:684-710 | a bonded signer can be slashed iff the bond is within the multiplication's head-room |
| Text.ParseDecimal | src/bench_resources.rs:375-378 | every `u64` printed in decimal parses back to itself |
| Text.NumberParses | src/bench_resources.rs:375-378 | an optional plus sign, any zeros and the decimal of a `u64` parse to that `u64` |
| Text.ParsedIsANumber | src/bench_resources.rs:375-378 | and nothing else parses |
| Text.RemoveAtFirst | src/bench_resources.rs:376 | every occurrence is removed, up to the first and from there on |
| Text.RemoveIsExact | src/bench_resources.rs:376 | and no other character is |
| Text.SplitAtFirst | src/bench_resources.rs:372-374 | the cut is at the first occurrence |
| Text.TrimCuts | src/bench_resources.rs:362 | white space is cut off both ends, all of it and nothing else |
| Text.WhiteSpaceIs | src/bench_resources.rs:362 | which characters those are |
| Text.EveryText | src/test_support.rs:185-186 | every text is ended lines and what follows the last newline |
| Text.LinesAre | src/test_support.rs:185-186 | its lines are the ended ones less a carriage return, and an unterminated last one as it is |
| Text.LessIff | src/bench_resources.rs:388 | the map order is lexicographic |
| BaselineFile.ParseBaseline | src/bench_resources.rs:356-406 | returns the backward-looking meaning of the file, or its first error with its line number; the section lookup never fails |
| BaselineFile.ReadAll | src/bench_resources.rs:357-385 | the first illegal line, by number, or the threshold and table after all lines |
| BaselineFile.Assemble | src/bench_resources.rs:387-406 | the first section in key order without both metrics is reported, otherwise the whole table is returned |
| BaselineFile.AcceptedIff | src/bench_resources.rs:356-406 | accepted iff every line is legal in its section and every section has both metrics; the result is then the last assignments, section by section |
| BaselineFile.LegalIff | src/bench_resources.rs:379-384 | where a line may stand, by the literal keys |
| BaselineFile.ErrorIsFirst | src/bench_resources.rs:372-383 | the error is that of the first illegal line, by its number |
| BaselineFile.IncompleteIsLeast | src/bench_resources.rs:387-400 | the section reported is the least in key order that lacks a metric |
| BaselineFile.DefaultsTo15 | src/bench_resources.rs:357 | without a threshold line the threshold is 15 |
| BaselineFile.SectionIsLastHeader | src/bench_resources.rs:366-371 | the open section is the last header's |
| BaselineFile.NamesAreHeaders | src/bench_resources.rs:366-371 | the sections are exactly those some header names |
| BaselineFile.OnlyTheTrimmedMatters | src/bench_resources.rs:362 | a line means what it means without comment and outer white space |
| BaselineFile.BracketedLine | src/bench_resources.rs:366-371 | a bracketed line is a header of the trimmed name |
| BaselineFile.LineWithoutEquals | src/bench_resources.rs:372-374 | any other line needs an equals sign |
| BaselineFile.LineWithEquals | src/bench_resources.rs:372-379 | it is split at the first one into a trimmed key and a trimmed number, or reported as not a number |
| BaselineFile.LastAssignmentWins | src/bench_resources.rs:366-384 | a key's value is that of its last assignment in its section, across reopened sections |
| BaselineFile.CommentsDoNotMatter | src/bench_resources.rs:362-365 | whatever follows `#` on a line changes nothing |
| RoundTrip.UnderscoresDoNotMatter | src/bench_resources.rs:375-378 | any two values that agree once underscores are removed are read as the same number, wherever and however many the underscores are |
| BaselineFile.RenderBaseline | src/bench_resources.rs:409-424 | prints the comment, the threshold and one block per scenario in key order |
| BaselineFile.PrintedHead | src/bench_resources.rs:409-418 | the printed lines begin with the comment and the threshold |
| BaselineFile.PrintedBlock | src/bench_resources.rs:418-423 | the `k`-th scenario in key order has its four lines at their place |
| RoundTrip.ParseOfRender | src/bench_resources.rs:356-424 | under whatever comment, parsing a printed file gives back exactly the threshold and the table iff every name has no `#`, no newline and no outer white space |
| RoundTrip.ParsedNamesAreClean | src/bench_resources.rs:362-371 | every name the parser yields is of that kind, whatever the file |
| Gate.NeverTrapsIff | src/bench_resources.rs:454-456 | the `u128` products never overflow iff the threshold is at most `u64::MAX - 98` |
| Gate.ReportMatchesVerdict | src/bench_resources.rs:445-456 | over a positive baseline a reported regression is at least the threshold, anything else at most |
| Gate.DeltaIsTruncated | src/bench_resources.rs:445-450 | the reported change is the quotient truncated toward zero; from a zero baseline it is 0 or `i128::MAX` |
| Gate.Compare | src/bench_resources.rs:459-494 | traps iff some compared product overflows, otherwise returns the findings in report order |
| Gate.FindingIffViolation | src/bench_resources.rs:459-494 | a finding is reported iff what it claims is true of the two tables |
| Gate.OneFindingPerViolation | src/bench_resources.rs:459-494 | no violation is reported twice |
| Gate.FindingsAreOrdered | src/bench_resources.rs:464-493 | measured scenarios come first in key order, instructions before memory, then stale ones in key order |
| Gate.PassesIff | src/bench_resources.rs:459-494 | no finding iff the key sets agree and no metric is above the threshold |
| Gate.Measurements.Inject | src/bench_resources.rs:532-542 | raises one scenario's cpu metric by the rounded-down percentage, or aborts with the table unchanged |
| Gate.InjectsIff | src/bench_resources.rs:532-541 | `name:pct` takes effect iff the scenario exists and nothing overflows, and raises its instructions alone |
| Gate.NoColonNoInjection | src/bench_resources.rs:533-535 | a spec without a colon never takes effect |
| Gate.SelfTest | src/bench_resources.rs:532-542 | from equal tables an injection fires iff its rounded-down increase is above the threshold, with exactly the one finding naming it; never at `p <= t`, always at `base * (p - t) >= 100`; up to `u64::MAX - 98` that is what the comparison returns |
| LineDiff.Run | src/test_support.rs:181-202 | prints the line-by-line diff, or nothing on equal strings |
| LineDiff.DiffShows | src/test_support.rs:181-202 | the unmarked and `-` lines are the expected lines and the unmarked and `+` lines the actual lines, in order, less a trailing carriage return |
| LineDiff.UnmarkedIffCommon | src/test_support.rs:188-190 | the unmarked lines are exactly those both sides have at the same position |
| LineDiff.ExpectedComesFirst | src/test_support.rs:191-198 | where the sides differ the expected line comes first |
| LineDiff.Lossless | src/test_support.rs:178-202 | silent exactly on equal strings; otherwise each side is rebuilt exactly iff none of its lines ends in a carriage return |
| SchemaDiff.CompareSchemaVersions | src/migration.rs:81-98 | the changes above the lower and up to the higher version, in manifest order, with the emptiness flag |
| SchemaDiff.DiffIsExact | src/migration.rs:87-98 | the diff holds an entry exactly if it is above the lower and up to the higher version, as often as the manifest lists it, and is empty iff there are none |
| SchemaDiff.SwappingIsHarmless | src/migration.rs:87-91 | swapping the arguments gives the same diff |
| SchemaDiff.ComposesIffSorted | src/migration.rs:93-98 | diffs compose at every `a <= b <= c` iff the manifest is ascending |
| SchemaDiff.ChainComposes | src/migration.rs:93-98 | hence along any ascending chain of versions |
| SchemaDiff.ComposesAsMultiset | src/migration.rs:93-98 | for any manifest no change is lost or repeated |

## Left out

- The Soroban host: signature checking, XDR, rent, archival, WASM swapping, event payloads. Signatures are the set
  `auth`, rollback is an unchanged state, expiry is a ledger number.
- Character-set, strkey and checksum validation of payload fields, and the packed storage form of a transaction; only
  the length and sign caps are modelled.
- The optional amount ceiling, the batch registration and its cost estimator, disputes, tags and pagination of other
  queries.
- Who may cancel after a rotation: the repository does not contain that entry point, so cancelling is modelled at
  storage level only.
- Maintenance of the status index: the paged query is proved for any index content.
- The older two-party withdrawal record, `relay_signer_set` and `relay_threshold` in `src/storage.rs`: they disagree
  with the current design or call helpers that do not exist.
- Changing the quorum threshold while approvals are pending: the threshold is fixed along a run.
- Upgrade, migration dispatch, guardian and recovery flows: the repository does not contain their bodies.
- Effective fees and anchor tiers: one-branch arithmetic.
- Percentage formatting, environment variables and the metering itself; hex, hashing and ledger-state rendering.
- Treasury.Treasury.AuthorizeWithdrawal: the epoch's `start + length` is an unbounded sum, since ledger numbers near
  `u32::MAX` are not pinned.
- Treasury.SlidingCapIff: speaks of states whose balance is at least `cap + 2`; with less in the treasury the cap can
  only be exceeded after further fees, and the upper bound of `WindowCap` is what holds.
- Registry.Registry.RegisterCallback: of the payload validation only the length and sign caps are modelled, not the
  character sets and checksums, whose code the repository does not contain; what the write step stores is taken from
  the README and the tests for the same reason.
- Rotation.World.RunChaos: the generator's draws are arbitrary choices, at most `u32::MAX` of them, and the client calls
  the registry without fees.
- BaselineFile.ParseBaseline: errors are values carrying the line number and the offending text, not formatted
  messages.
- BaselineFile.RenderBaseline: the wording of the fixed comment is a parameter, any lines that are empty or start
  with `#`.
