# Verified models of the AVM example contracts and guest SDK

Dafny models of the money protocols in this repository's example contracts and of the guest SDK they run on, with
proofs of what the protocols promise.

- **Revenue hub** (`revenue_core`, `vault_*`, `revenue_receiver`, `hub_*`, `audit_*`). A vault splits deposits by
  basis-point weights, with a remainder of less than one unit per member. Each member has at most one payout under
  way, which its callback settles or rolls back. Two of three signers govern it behind a timelock. Receivers take each
  payment once and report it to an audit ledger, which handles messages one at a time or in batches and exists in a
  legacy and a compact layout.
- **Vesting streams** (`vesting_*`). Linear vesting with cliff and steps; a claim lane and a refund lane per stream;
  cancellation that freezes what had vested; a clock that never runs back.
- **Bounty escrow** (`escrow_*`). Milestones that move through phases under a single lock, at most 64 transfers, and
  a growing list of distinct receipts.
- **Guest SDK** (`sdk_*`, `event_fields`, `wire`). A two-region arena over one byte array, output validation, size
  prediction and serialisation into it, the decoders of both input envelopes, and event field lists. Outputs are read
  back by a reader written from the host's side (`sdk_readback`, `sdk_answers`); what gets in and out is listed in
  `sdk_accepted` and `sdk_permits`, and where each field stands in `sdk_positions`.
- Shared parts: `bytes` (machine integers, results, little-endian forms), `sums`, `arithmetic`, `buffers`, `blocks`,
  `admission` (what several contracts ask of a message).

## How the models are built

Machine integers are bounded subset types, and every checked operation of the source appears as a check with its own
error branch; that the check never fails where the source relies on it is proved, not assumed. For each contract there
is

- a value-level meaning of every message (`VaultSpec`, `VestingSpec`, `EscrowSpec`, `AuditCore`), written with
  unbounded sums and quantified invariants;
- a class whose methods assign fields step by step, run the loops with their running sums and early exits, and
  re-validate before every reply as the source does (`VaultContract`, `VestingContract`, `EscrowContract`,
  `AuditContract`), proved to compute that meaning with the same error codes;
- the stored image as bytes, proved canonical, and the entrypoint on bytes (`*_codec`, `*_image`);
- a second description of every handler that uses none of the handler functions above: the exact condition under which each
  message is accepted, the exact new state, messages and figures it then gives, the code of every refusal, and for each
  kind of change the only sender who can bring it about (`vault_authority`, `vesting_authority`, `escrow_authority`,
  `audit_authority`, `*_receiver_authority`), lifted to whole runs there and in `hub_authority` and
  `audit_fleet_authority`; likewise which configurations, images and deployments are accepted (`accepted_images`) and
  at which byte every stored field stands (`positions`);
- theorems over all runs (`hub_*`, `vesting_runs`, `vesting_system*`, `vesting_handshake`, `escrow_runs`,
  `escrow_system*`, `audit_flow`, `audit_fleet`).

The run theorems hold for any interleaving of the steps listed in `HubSystem.Action`, `VestingSystem.Action`,
`EscrowSystem.Action` and `AuditFleet.Action`. The host is an environment with these assumptions: value is credited
before a call runs; every transfer that asked for a callback gets exactly one; a failed delivery leaves the receiver
unchanged and gives the exact principal back with an empty body; logical time does not run backwards; message hashes do
not repeat; internal messages name their true source. They follow crates/avm-contract-sdk/src/input.rs:668-674,
scripts/tests/fixture_oracle.py:355-361 and scripts/tests/packaged_lifecycle.py:470-482. Receivers are bound by their
owners to the one contract of the run. Fees and rent are SHELL and do not enter principal.

Three places where the code is not what one might expect, and what is proved about them:

- The vault writes its fuel limit into the `initial_fuel` slot of the stored configuration
  (examples/revenue-hub/core/src/vault.rs:180-181, 299-301). `VaultCodec.DecodeAfterEncode` says that decoding after
  encoding is the identity if and only if the two values are equal, and what it gives otherwise.
- `deposit` assigns before it validates (examples/revenue-hub/core/src/vault.rs:355-357). It is atomic all the same:
  `VaultContract.Vault.DepositAmount` rests on the proof that the validation cannot fail there.
- The audit batch answers internal BIND and STATUS messages with other codes than the isolated path, refuses external
  messages, and in the legacy layout refuses full replacement. The equivalence of the two paths
  (`AuditCore.BatchIsOneByOne`, `AuditContract.ProcessBatch`) is therefore about internal messages in an admitted
  batch and compares successes, events and ledgers, not codes.

## Model

| member | source | states |
|---|---|---|
| `HubProof.Conservation` | examples/revenue-hub/contracts/vault/src/lib.rs:36-241 | Over every run of calls, deliveries (taken or refused) and callbacks in any order: everything received equals the vault's balance plus the principal under way in both directions plus the receivers' balances; the vault's balance is what its books hold; each receiver's total is that member's `paid` plus what undelivered success callbacks acknowledge. |
| `HubProof.LockIffPacket` | examples/revenue-hub/contracts/vault/src/lib.rs:81-125 | Over every run, a member is locked exactly while one transfer or callback of its payout is under way, and never two. |
| `HubProof.RefusesOnlyWhenTold` | examples/revenue-hub/contracts/receiver/src/lib.rs:102-131 | A payment under way is refused only by a receiver that is not bound to this vault or was told to reject: its nonce is always fresh and its total and count always have room; otherwise the receipt, echo and reports are exactly these. |
| `HubProof.AnswerAccepted` | examples/revenue-hub/contracts/vault/src/lib.rs:193-241 | The callback for the payout under way is always accepted, settles or rolls back exactly that payout and sends nothing. |
| `HubProof.AnswerOpens` | examples/revenue-hub/contracts/vault/src/lib.rs:227-239 | Delivering a callback leaves that member unlocked. |
| `HubProof.LockCanOpen` | examples/revenue-hub/contracts/vault/src/lib.rs:81-125 | From every reachable hub at most two further host steps open any member's lock, as long as logical time has not run out. |
| `HubProof.StepKeepsInv` | examples/revenue-hub/contracts/vault/src/lib.rs:36-241 | Every single step, of a contract or of the host, keeps the hub's invariant. |
| `HubProof.RunKeepsInv` | examples/revenue-hub/contracts/vault/src/lib.rs:36-241 | Every run of steps keeps the hub's invariant. |
| `HubGovernance.GovernanceIsQuorate` | examples/revenue-hub/contracts/vault/src/lib.rs:126-184 | Over every run, whatever was enacted had ballots of at least two different signers for the same nonce, action and value, ran inside its ready-to-expiry window, and ran at most once per nonce; the configuration never changes. |
| `HubGovernance.OnlyEnactmentsSwitch` | examples/revenue-hub/contracts/vault/src/lib.rs:159-184 | `paused` and the fuel limit change only with an enactment, and then as its action says. |
| `VaultSpec.ProcessKeepsValid` | examples/revenue-hub/contracts/vault/src/lib.rs:36-241 | Every accepted message leaves books that validate again and the same configuration. |
| `VaultSpec.BooksNeverBroken` | examples/revenue-hub/core/src/vault.rs:243-296 | No message to a valid vault ends in E_STATE: re-validation after a handler never fails. |
| `VaultSpec.EntitlementIgnoresHistory` | examples/revenue-hub/core/src/vault.rs:257-262 | Two valid vaults with the same configuration and the same sum received owe each member the same paid + claimable + pending, whatever happened before. |
| `VaultSpec.DepositTotality` | examples/revenue-hub/contracts/vault/src/lib.rs:55-76 | Past the guards, a deposit succeeds if and only if it is nonzero and the sum received still fits; then the sum grows by it and the dust stays below the member count. |
| `VaultSpec.CallEffect` | examples/revenue-hub/contracts/vault/src/lib.rs:46-187 | What an accepted call moves: a claim sends exactly the member's claimable; every other call sends nothing and only credits what it carried. |
| `VaultSpec.CallbackEffect` | examples/revenue-hub/contracts/vault/src/lib.rs:193-241 | A callback with the right sender, figures and payload is accepted and leads to exactly the settled or rolled-back state. |
| `VaultSpec.EventBalances` | examples/revenue-hub/contracts/vault/src/lib.rs:251-271 | The figures every event reports add up: received = paid + pending + held, with dust below the member count and inside what is held. |
| `VaultSpec.LockedIsValid` | examples/revenue-hub/contracts/vault/src/lib.rs:105-111 | Locking a payout keeps the books valid and takes exactly the payout out of what is held. |
| `VaultSpec.UnlockedIsValid` | examples/revenue-hub/contracts/vault/src/lib.rs:227-239 | Settling or rolling back keeps the books valid; only a rollback returns the amount to what is held. |
| `VaultSpec.WithVote` | examples/revenue-hub/contracts/vault/src/lib.rs:148-155 | Adding a vote sets that signer's bit and no other. |
| `VaultSpec.NextProposal` | examples/revenue-hub/contracts/vault/src/lib.rs:126-140 | A proposal that is opened is a legal live proposal. |
| `VaultSpec.MemberAt` | examples/revenue-hub/contracts/vault/src/lib.rs:200-203 | The payer of a callback is looked up by destination: a hit is a member with that destination, a miss means there is none. |
| `VaultState.ValidateConfig` | examples/revenue-hub/core/src/vault.rs:64-100 | The check passes exactly the legal configurations: fuel, weights summing to 10000, distinct nonzero keys and destinations, three distinct signers, unused rows zero. |
| `VaultState.SignerIndex` | examples/revenue-hub/core/src/vault.rs:118-121 | A key is a signer exactly when it is found among the three. |
| `VaultState.ProposalRoundTrip` | examples/revenue-hub/core/src/vault.rs:143-165 | Reading a 25-byte proposal body inverts writing it, on exactly the legal actions. |
| `VaultState.Solvent` | examples/revenue-hub/core/src/vault.rs:327-342 | On valid books the undistributed dust is below the member count, and what was paid plus what is in flight never exceeds the entitlements. |
| `VaultState.CreditKeepsValid` | examples/revenue-hub/core/src/vault.rs:343-358 | Crediting a deposit keeps the books valid, raises what is held by exactly that much, and lowers no claimable balance. |
| `VaultState.InitialIsValid` | examples/revenue-hub/core/src/vault.rs:183-196 | A fresh vault is valid and holds nothing. |
| `RevenueCore.EntitlementExact` | examples/revenue-hub/core/src/lib.rs:69-79 | The checked two-step division never overflows and is the exact floor of total * weight / 10000, for every 128-bit total and legal weight. |
| `RevenueCore.ShareMonotone` | examples/revenue-hub/core/src/lib.rs:69-79 | Entitlements never fall as the total grows. |
| `RevenueCore.DustBound` | examples/revenue-hub/core/src/vault.rs:336-342 | With weights summing to 10000 the floors leave less than one unit per member undistributed. |
| `RevenueCore.PaymentRoundTrip` | examples/revenue-hub/core/src/lib.rs:80-96 | Reading a payment body inverts writing it, on exactly the legal index, nonce and amount. |
| `VaultContract.Vault.Validate` | examples/revenue-hub/core/src/vault.rs:243-296 | The running-sum validation with early exits decides exactly the quantified invariant. |
| `VaultContract.Vault.CheckMembers` | examples/revenue-hub/core/src/vault.rs:248-274 | The member loop accepts exactly sound books and returns their sums. |
| `VaultContract.Vault.CheckProposal` | examples/revenue-hub/core/src/vault.rs:281-294 | Accepts exactly the legal live proposals. |
| `VaultContract.Vault.Pending` | examples/revenue-hub/core/src/vault.rs:327-329 | The sum in flight, without overflow. |
| `VaultContract.Vault.HeldPrincipal` | examples/revenue-hub/core/src/vault.rs:330-335 | Received less paid less in flight, without underflow. |
| `VaultContract.Vault.Undistributed` | examples/revenue-hub/core/src/vault.rs:336-342 | Received less all entitlements, without overflow. |
| `VaultContract.Vault.DepositAmount` | examples/revenue-hub/core/src/vault.rs:343-358 | Fails only on zero or on overflow of the sum received, changing nothing; otherwise credits every member, though it assigns before it validates. |
| `VaultContract.Vault.DepositCall` | examples/revenue-hub/contracts/vault/src/lib.rs:55-76 | The handler computes what a deposit means, or refuses with the same code and no change. |
| `VaultContract.Vault.ClaimCall` | examples/revenue-hub/contracts/vault/src/lib.rs:81-125 | The step-by-step handler computes exactly what a claim means, or refuses with the same code and no change; the state is locked and the one transfer sent. |
| `VaultContract.Vault.ProposeCall` | examples/revenue-hub/contracts/vault/src/lib.rs:126-142 | The step-by-step handler computes exactly what opening a proposal means, or refuses with the same code and no change. |
| `VaultContract.Vault.VoteCall` | examples/revenue-hub/contracts/vault/src/lib.rs:143-158 | The step-by-step handler computes exactly what a vote means, or refuses with the same code and no change. |
| `VaultContract.Vault.ExecuteCall` | examples/revenue-hub/contracts/vault/src/lib.rs:159-184 | The step-by-step handler computes exactly what executing an approved proposal means, or refuses with the same code and no change. |
| `VaultContract.Vault.CallbackCall` | examples/revenue-hub/contracts/vault/src/lib.rs:193-241 | The step-by-step handler computes exactly what the callback of a payout means, or refuses with the same code and no change. |
| `VaultContract.Vault.Settle` | examples/revenue-hub/contracts/vault/src/lib.rs:227-239 | Settling always validates again. |
| `VaultContract.Vault.Finish` | examples/revenue-hub/contracts/vault/src/lib.rs:251-271 | The event reports exactly the books' figures, and never fails on valid books. |
| `VaultContract.Vault.ProcessMessage` | examples/revenue-hub/contracts/vault/src/lib.rs:36-187 | The dispatcher as a whole computes the meaning of every message. |
| `VaultCodec.EncodeAfterDecode` | examples/revenue-hub/core/src/vault.rs:197-326 | Encoding an accepted image gives the same bytes back. |
| `VaultCodec.DecodeAfterEncode` | examples/revenue-hub/core/src/vault.rs:197-326 | Decoding an encoded valid state gives that state with its config's `initial_fuel` replaced by the fuel limit; so it is the identity if and only if the two are equal. |
| `VaultCodec.ImagesDistinguish` | examples/revenue-hub/core/src/vault.rs:297-326 | States with the same image differ at most in that one slot. |
| `VaultCodec.ConfigImageOfView` | examples/revenue-hub/core/src/vault.rs:33-63 | A well-shaped configuration image is the encoding of what it reads as. |
| `VaultCodec.ViewOfConfigImage` | examples/revenue-hub/core/src/vault.rs:101-117 | Reading an encoded configuration gives it back. |
| `VaultCodec.EncodeConfig` | examples/revenue-hub/core/src/vault.rs:101-117 | The buffer writes produce the configuration's image. |
| `VaultCodec.Encode` | examples/revenue-hub/core/src/vault.rs:297-326 | The buffer writes produce the state's image. |
| `VaultImage.LoadConfig` | examples/revenue-hub/core/src/vault.rs:33-63 | Decoding with early returns agrees with the layout: same acceptance, same value, same code. |
| `VaultImage.Load` | examples/revenue-hub/core/src/vault.rs:197-242 | Decoding a stored state with early returns agrees with the layout: same acceptance, same value, same code. |
| `VaultImage.ProcessImage` | examples/revenue-hub/contracts/vault/src/lib.rs:36-187 | The entrypoint on stored bytes: decode, run, encode. |
| `VaultImage.WrittenImagesDecode` | examples/revenue-hub/contracts/vault/src/lib.rs:251-271 | Every image the vault writes is accepted by its own decoder, and decodes to the state meant. |
| `VaultImage.InitializeImage` | examples/revenue-hub/contracts/vault/src/lib.rs:19-35 | Initialisation on bytes writes exactly the fresh vault of the configuration in its data. |
| `VaultImage.InitialImage` | examples/revenue-hub/contracts/vault/src/lib.rs:19-35 | The first image is valid, holds nothing, and decodes to itself. |
| `RevenueReceiver.ProcessImage` | examples/revenue-hub/contracts/receiver/src/lib.rs:50-146 | The entrypoint that overwrites byte ranges computes the meaning on the receiver those bytes stand for, with the same codes. |
| `RevenueReceiver.OwnCall` | examples/revenue-hub/contracts/receiver/src/lib.rs:73-101 | Binding and the two flags, on bytes. |
| `RevenueReceiver.AcceptCall` | examples/revenue-hub/contracts/receiver/src/lib.rs:102-146 | A payment is taken once per rising nonce, echoed, and reported once or twice. |
| `RevenueReceiver.Stamp` | examples/revenue-hub/contracts/receiver/src/lib.rs:125-131 | The three overwritten ranges are exactly nonce, total and count; overflow refuses. |
| `RevenueReceiver.OnlyPaymentsMoveValue` | examples/revenue-hub/contracts/receiver/src/lib.rs:50-146 | A receiver's total rises only by what the bound vault's payment carried; owner calls move no figure. |
| `RevenueReceiver.ImageOfView` | examples/revenue-hub/contracts/receiver/src/lib.rs:50-60 | An accepted image is the encoding of what it reads as. |
| `RevenueReceiver.ViewOfImage` | examples/revenue-hub/contracts/receiver/src/lib.rs:50-60 | Reading an encoded receiver gives it back. |
| `AuditCore.BatchIsOneByOne` | examples/revenue-hub/contracts/audit/src/lib.rs:150-320 | For internal messages, the batch's tally equals handling them one at a time: same final ledger, same events by input index, same successes; untouched records are unchanged. |
| `AuditCore.StepKeepsValid` | examples/revenue-hub/contracts/audit/src/lib.rs:186-252 | An accepted message leaves a ledger that validates. |
| `AuditCore.RunKeepsValid` | examples/revenue-hub/contracts/audit/src/lib.rs:186-252 | Any list of messages handled one at a time leaves a ledger that validates. |
| `AuditCore.SlotPassesIffValid` | examples/revenue-hub/contracts/audit/src/lib.rs:86-101 | The incremental duplicate check of one slot decides exactly that slot's validity. |
| `AuditCore.SlotsUpToAll` | examples/revenue-hub/contracts/audit/src/lib.rs:86-101 | The validation loop over slots decides validity of all slots. |
| `AuditContract.Validate` | examples/revenue-hub/contracts/audit/src/lib.rs:69-103 | Validation on bytes accepts exactly the images of valid ledgers and returns their count. |
| `AuditContract.Accept` | examples/revenue-hub/contracts/audit/src/lib.rs:150-184 | Credits the record of the message's source in the array, or refuses with the code and no change. |
| `AuditContract.Isolated` | examples/revenue-hub/contracts/audit/src/lib.rs:186-252 | The isolated path on bytes, in either output mode and either layout: its update leads to the ledger one message means. |
| `AuditContract.BindCall` | examples/revenue-hub/contracts/audit/src/lib.rs:203-235 | Binding a source on bytes. |
| `AuditContract.ProcessBatch` | examples/revenue-hub/contracts/audit/src/lib.rs:255-320 | The batch path on bytes: refused batches change nothing; an admitted batch, whatever it holds, leads to the ledger with the tallied records, with the tallied codes and events; one of internal messages to the same ledger, successes and events as the isolated path message by message. |
| `AuditContract.Refuse` | examples/revenue-hub/contracts/audit/src/lib.rs:255-271 | A refused batch: no change, one code per message. |
| `SdkUpdates.ValidateUpdate` | crates/avm-contract-sdk/src/output.rs:463-478 | Accepts exactly full images and patch lists that ascend without overlap, end below 2^32 and fit the length fields. |
| `SdkUpdates.Replacement` | examples/revenue-hub/contracts/audit/src/lib.rs:119-129 | The update in either mode: the patches themselves, or the image with them written in. |
| `SdkUpdates.PatchedIsOverwritten` | examples/revenue-hub/contracts/audit/src/lib.rs:119-129 | For ascending patches, stitching the stretches between them equals overwriting one after the other. |
| `SdkUpdates.ModesAgree` | examples/revenue-hub/contracts/audit/src/lib.rs:119-129 | Applying the patch list gives byte for byte the full-replacement image. |
| `AuditLayout.PatchesAreEncodable` | examples/revenue-hub/contracts/audit/src/lib.rs:309-316 | The coalesced patches are ascending, disjoint, of unchanged length, in range, and pass the SDK's check. |
| `AuditLayout.PatchesGiveRecords` | examples/revenue-hub/contracts/audit/src/lib.rs:112-129 | Writing those patches into the image gives the image of the ledger with the new records. |
| `AuditLayout.SpliceRecord` | examples/revenue-hub/contracts/audit/src/lib.rs:112-118 | Overwriting one record's 32 bytes is replacing that record. |
| `AuditLayout.SpliceSource` | examples/revenue-hub/contracts/audit/src/lib.rs:225-229 | Overwriting one source's 64 bytes is rebinding it. |
| `AuditLayout.ImageOfView` | examples/revenue-hub/contracts/audit/src/lib.rs:69-103 | A well-shaped image, legacy or compact, is the encoding of what it reads as. |
| `AuditLayout.ViewOfImage` | examples/revenue-hub/experiments/compact-audit/src/lib.rs:10-21 | Reading an encoded ledger gives it back, in both layouts. |
| `AuditConversion.CompactLegacy` | examples/revenue-hub/experiments/compact-audit/src/lib.rs:330-356 | Accepts exactly the legacy images, and gives the compact image of the same ledger. |
| `AuditConversion.ExpandLegacy` | examples/revenue-hub/experiments/compact-audit/src/lib.rs:357-366 | Accepts exactly the compact images, and gives the legacy image of the same ledger. |
| `AuditConversion.ConversionInverts` | examples/revenue-hub/experiments/compact-audit/src/lib.rs:330-366 | The two conversions are mutual inverses on accepted images and keep the ledger. |
| `AuditConversion.StepCommutes` | examples/revenue-hub/experiments/compact-audit/src/lib.rs:153-255 | Compacting after a legacy step equals the compact step on the compacted state. |
| `AuditConversion.StepBoth` | examples/revenue-hub/experiments/compact-audit/src/lib.rs:189-255 | Running one message through both contracts: same success, same code, same event, and converted results equal. |
| `AuditFleet.NeverOverstates` | examples/revenue-hub/contracts/audit/src/lib.rs:170-183 | Over every run of a whole ledger and its receivers, with reports repeated, reordered and lost, foreign messages and bindings in between: the record of a slot never shows more, in sum or in number, than the receiver bound there got, and is the sum over its strictly rising accepted nonces. |
| `AuditFleet.DrainedAgrees` | examples/revenue-hub/contracts/receiver/src/lib.rs:117-144 | A receiver bound before it is first paid, whose reports come in order and are all delivered, has the same figures as its record, even if it reports everything twice and whatever the ledger hears from others. |
| `AuditFleet.QueuedIsReported` | examples/revenue-hub/contracts/receiver/src/lib.rs:132-144 | The reports a payment queues are exactly the messages the run delivers for it. |
| `AuditFleet.ReportCredits` | examples/revenue-hub/contracts/audit/src/lib.rs:150-184 | A report is credited to its receiver's own record exactly if its nonce is higher and the slot is bound to it, and changes nothing else. |
| `AuditFleet.OtherKeepsSite` | examples/revenue-hub/contracts/audit/src/lib.rs:186-252 | Messages of anyone else, and the binding of slots, leave every receiver's record as it was. |
| `AuditFleet.RunKeepsInv` | examples/revenue-hub/contracts/audit/src/lib.rs:186-252 | Every run keeps the agreement of all receivers and slots. |
| `AuditFlow.NeverOverstates` | examples/revenue-hub/contracts/audit/src/lib.rs:170-183 | For one receiver and its record: under any repetition and reordering of reports, a record is the sum over its strictly rising accepted nonces and never exceeds the receiver's total. |
| `AuditFlow.DrainedAgrees` | examples/revenue-hub/contracts/receiver/src/lib.rs:117-144 | For one receiver and its record: with in-order delivery and a drained queue, the record equals the receiver's figures, even when every report is sent twice. |
| `AuditFlow.ReportReachesRecord` | examples/revenue-hub/contracts/receiver/src/lib.rs:132-144 | A receiver's report is credited by the ledger to that receiver's record and to no other. |
| `VestingCore.VestedExact` | examples/vesting-streams/core/src/lib.rs:73-103 | The checked arithmetic refuses exactly the illegal schedules, never overflows on legal ones, and computes the vesting function. |
| `VestingCore.ScaledExact` | examples/vesting-streams/core/src/lib.rs:93-102 | The split division is exactly total * elapsed / duration. |
| `VestingCore.VestedIsFloor` | examples/vesting-streams/core/src/lib.rs:73-103 | Between start and end it is the exact floor over step-quantised time. |
| `VestingCore.VestedMonotone` | examples/vesting-streams/core/src/lib.rs:73-103 | It never falls as time passes, across start, cliff, steps and end. |
| `VestingCore.VestedBounded` | examples/vesting-streams/core/src/lib.rs:73-103 | It never exceeds the total. |
| `VestingCore.VestedBoundaries` | examples/vesting-streams/core/src/lib.rs:73-103 | Nothing before start and cliff, everything from the end, constant within a step. |
| `VestingCore.PaymentRoundTrip` | examples/vesting-streams/core/src/lib.rs:104-120 | Reading a payment body inverts writing it, on exactly the legal fields. |
| `VestingState.Solvent` | examples/vesting-streams/core/src/state.rs:195-220 | Claimed, refunded and pending together never exceed the total, so what is held is never negative. |
| `VestingState.TimeKeepsSound` | examples/vesting-streams/core/src/state.rs:172-178 | Moving the clock forward keeps a valid state valid: caps only rise. |
| `VestingState.ReplaceKeepsValid` | examples/vesting-streams/core/src/state.rs:221-273 | Replacing one stream's progress by a sound one keeps the whole state valid and moves the sums by the difference. |
| `VestingState.InitialIsValid` | examples/vesting-streams/core/src/state.rs:163-171 | A fresh state is valid and holds nothing. |
| `VestingSpec.ProcessKeepsValid` | examples/vesting-streams/contracts/vesting/src/lib.rs:48-224 | Every message at any block time leaves a valid state, and none ends in E_STATE. |
| `VestingSpec.CutIsSound` | examples/vesting-streams/contracts/vesting/src/lib.rs:103-118 | Cancelling freezes the cap at what had vested and keeps the stream sound. |
| `VestingSpec.DispatchedIsValid` | examples/vesting-streams/contracts/vesting/src/lib.rs:135-152 | Locking a lane keeps the state valid and takes exactly the amount out of what is held. |
| `VestingSpec.SettledIsValid` | examples/vesting-streams/contracts/vesting/src/lib.rs:207-217 | Settling or rolling back keeps the state valid; only a rollback returns the amount. |
| `VestingSpec.LaneAt` | examples/vesting-streams/contracts/vesting/src/lib.rs:179-191 | The lane of a callback is looked up by destination: a hit is a lane paying there, a miss means none does. |
| `VestingRuns.RunStaysWithinCaps` | examples/vesting-streams/contracts/vesting/src/lib.rs:48-224 | Over every run at any block times: claimed plus pending stays within the cap, refunded plus pending within total less cap, and no next message ends in E_STATE. |
| `VestingRuns.RunOnward` | examples/vesting-streams/contracts/vesting/src/lib.rs:48-224 | Over every run the clock, claims, refunds and cancellations only move forward. |
| `VestingRuns.CancellationIsFinal` | examples/vesting-streams/contracts/vesting/src/lib.rs:103-118 | A cancelled stream stays cancelled, with the cap vested at its cutoff. |
| `VestingRuns.CancelledStreamPaysExactly` | examples/vesting-streams/core/src/state.rs:179-194 | A cancelled stream with idle lanes has nothing due if and only if claimed plus refunded is exactly its total. |
| `VestingRuns.FinishedStreamPaysExactly` | examples/vesting-streams/core/src/state.rs:179-194 | A finished stream that was never cancelled has nothing due if and only if it was claimed in full; nothing of it was refunded. |
| `VestingRuns.AnswerAccepted` | examples/vesting-streams/contracts/vesting/src/lib.rs:167-224 | The native callback for a locked lane is always accepted and settles or rolls back that lane. |
| `VestingRuns.PayoutSettlesOrRollsBack` | examples/vesting-streams/contracts/vesting/src/lib.rs:119-224 | A payout followed by its callback: the lane is open again, and the amount is paid or due again in full. |
| `VestingSystemProof.Conservation` | examples/vesting-streams/contracts/vesting/src/lib.rs:48-224 | Over every run of contract, receivers and host, in any order: what was funded equals the contract's balance plus what is under way plus the receivers' balances; the contract's balance is what its books hold; each receiver's slot total is what its lane booked as paid plus an undelivered success callback. |
| `VestingSystemProof.LockedIffUnderWay` | examples/vesting-streams/contracts/vesting/src/lib.rs:119-224 | Over every run, a lane is locked exactly while its payout or the answer to it is under way. |
| `VestingSystemProof.RefusedOnlyWhenTold` | examples/vesting-streams/contracts/receiver/src/lib.rs:90-125 | A payout under way is refused only by a receiver that is not bound to the contract or was told to reject: its nonce is always fresh and its slot always has room. |
| `VestingSystemProof.AnswerAccepted` | examples/vesting-streams/contracts/vesting/src/lib.rs:167-224 | The callback under way is always accepted and settles or rolls back exactly its lane. |
| `VestingSystemProof.StepKeepsInv` | examples/vesting-streams/contracts/vesting/src/lib.rs:48-224 | Every step of the contract, a receiver or the host keeps the system's invariant. |
| `VestingSystemProof.RunKeepsInv` | examples/vesting-streams/contracts/vesting/src/lib.rs:48-224 | Every run of steps keeps the system's invariant. |
| `VestingSystemProof.CallShape` | examples/vesting-streams/contracts/vesting/src/lib.rs:54-165 | What an accepted call does: a claim or refund locks one idle lane with exactly the payout it sends, and takes that much out of what is held; every other call sends nothing, leaves all lanes alone, and adds the principal it carried to what is held. |
| `VestingHandshake.PayoutArrivesAndSettles` | examples/vesting-streams/contracts/receiver/src/lib.rs:90-125 | After any run, a payout put on a lane, delivered to its bound receiver and answered is taken and settled: both sides' totals rise by exactly the amount sent and the lane is open again. |
| `VestingHandshake.LaneCanOpen` | examples/vesting-streams/contracts/vesting/src/lib.rs:167-224 | After any run, at most two further host steps open any lane, as long as logical time has not run out. |
| `VestingContract.ConfigTotal` | examples/vesting-streams/core/src/state.rs:79-83 | The sum of totals, or overflow. |
| `VestingContract.ValidateConfig` | examples/vesting-streams/core/src/state.rs:49-78 | Accepts exactly legal configurations; overflow of the sum is told apart. |
| `VestingContract.FirstStart` | examples/vesting-streams/core/src/state.rs:84-86 | The time at which the first stream starts: before it nothing has started, from it on something has. |
| `VestingContract.CheckCallbackValue` | examples/vesting-streams/contracts/vesting/src/lib.rs:228-237 | The flag-carrying loop accepts exactly the value a callback may carry. |
| `VestingContract.Vesting.Cap` | examples/vesting-streams/core/src/state.rs:172-178 | The cap at the clamped time. |
| `VestingContract.Vesting.DueAmount` | examples/vesting-streams/core/src/state.rs:179-194 | Due on a lane: zero before funding, refused on an uncancelled refund lane, E_STATE exactly when the books would be negative. |
| `VestingContract.Vesting.CheckStream` | examples/vesting-streams/core/src/state.rs:229-267 | One stream passes exactly when its progress is sound. |
| `VestingContract.Vesting.Validate` | examples/vesting-streams/core/src/state.rs:221-273 | Validation with early returns decides exactly the quantified invariant. |
| `VestingContract.Vesting.RunningTotals` | examples/vesting-streams/core/src/state.rs:195-208 | The three running sums, without overflow. |
| `VestingContract.Vesting.HeldPrincipal` | examples/vesting-streams/core/src/state.rs:209-220 | What is held, without underflow. |
| `VestingContract.Vesting.Finish` | examples/vesting-streams/contracts/vesting/src/lib.rs:239-270 | The event reports exactly the books' figures, and never fails on a valid state. |
| `VestingContract.Vesting.FundCall` | examples/vesting-streams/contracts/vesting/src/lib.rs:72-90 | The handler computes what funding means, or refuses with the same code and no change. |
| `VestingContract.Vesting.CancelCall` | examples/vesting-streams/contracts/vesting/src/lib.rs:103-118 | The step-by-step handler computes exactly what a cancellation means, or refuses with the same code and no change. |
| `VestingContract.Vesting.CheckPayable` | examples/vesting-streams/contracts/vesting/src/lib.rs:119-146 | The guards of a payout: who, which lane, how much. |
| `VestingContract.Vesting.LockLane` | examples/vesting-streams/contracts/vesting/src/lib.rs:147-152 | The lane's new fields and nothing else. |
| `VestingContract.Vesting.PayCall` | examples/vesting-streams/contracts/vesting/src/lib.rs:119-165 | The step-by-step handler computes exactly what a claim or refund means, or refuses with the same code and no change; the lane is locked and the one transfer sent. |
| `VestingContract.Vesting.CallbackCall` | examples/vesting-streams/contracts/vesting/src/lib.rs:167-224 | The step-by-step handler computes exactly what the callback of a payout means, or refuses with the same code and no change. |
| `VestingContract.Vesting.Settle` | examples/vesting-streams/contracts/vesting/src/lib.rs:207-217 | Settling always validates again. |
| `VestingContract.Vesting.ProcessMessage` | examples/vesting-streams/contracts/vesting/src/lib.rs:48-165 | The dispatcher with its clamped clock computes the meaning of every message. |
| `VestingCodec.ImagesAreCanonical` | examples/vesting-streams/core/src/state.rs:274-332 | Bytes decode to a state if and only if the state is valid and the bytes are its image. |
| `VestingCodec.ConfigImageOfView` | examples/vesting-streams/core/src/state.rs:105-134 | A well-shaped configuration image is the encoding of what it reads as. |
| `VestingCodec.ViewOfConfigImage` | examples/vesting-streams/core/src/state.rs:87-104 | Reading an encoded configuration gives it back. |
| `VestingCodec.Encode` | examples/vesting-streams/core/src/state.rs:274-297 | The buffer writes produce the image. |
| `VestingImage.LoadConfig` | examples/vesting-streams/core/src/state.rs:105-134 | Decoding with early returns agrees with the layout. |
| `VestingImage.Load` | examples/vesting-streams/core/src/state.rs:298-332 | Decoding a stored state with early returns agrees with the layout: same acceptance, same value, same code. |
| `VestingImage.ProcessImage` | examples/vesting-streams/contracts/vesting/src/lib.rs:48-165 | The entrypoint on stored bytes: decode, run, encode. |
| `VestingImage.WrittenImagesDecode` | examples/vesting-streams/contracts/vesting/src/lib.rs:239-270 | Every image written is accepted again and decodes to the state meant. |
| `VestingImage.InitializeImage` | examples/vesting-streams/contracts/vesting/src/lib.rs:24-47 | Initialisation on bytes writes exactly the fresh state of the configuration in its data. |
| `VestingReceiver.TakesExactlyItsOwn` | examples/vesting-streams/contracts/receiver/src/lib.rs:91-125 | A payment is taken if and only if it comes from the bound contract as a request, names this stream and kind with a fresh nonce and exact value, is not rejected, and fits; and then it is recorded and echoed. |
| `VestingReceiver.ProcessImage` | examples/vesting-streams/contracts/receiver/src/lib.rs:50-125 | The entrypoint that overwrites byte ranges computes that meaning, with the same codes. |
| `VestingReceiver.OwnCall` | examples/vesting-streams/contracts/receiver/src/lib.rs:53-88 | Binding and the reject flag, on bytes. |
| `VestingReceiver.AcceptCall` | examples/vesting-streams/contracts/receiver/src/lib.rs:102-125 | A payment on bytes. |
| `VestingReceiver.Stamp` | examples/vesting-streams/contracts/receiver/src/lib.rs:116-122 | The three overwritten ranges are exactly nonce, total and count of this stream's slot; overflow refuses. |
| `VestingReceiver.ImageOfView` | examples/vesting-streams/contracts/receiver/src/lib.rs:19-30 | An accepted image is the encoding of what it reads as. |
| `VestingReceiver.ViewOfImage` | examples/vesting-streams/contracts/receiver/src/lib.rs:19-30 | Reading an encoded receiver gives it back. |
| `EscrowRuns.RunConserves` | examples/bounty-escrow/contracts/escrow/src/lib.rs:309-539 | Over every run once funded, paid plus refunded plus the unsettled milestones is the total; transfers sent equal the attempts counted and are at most 64; receipts stay distinct; no next message ends in ERR_STATE. |
| `EscrowRuns.RunForward` | examples/bounty-escrow/contracts/escrow/src/lib.rs:309-539 | Over every run phases only move forward, receipts are only appended, and attempts count exactly the transfers sent. |
| `EscrowRuns.SettledOnce` | examples/bounty-escrow/contracts/escrow/src/lib.rs:190-248 | A paid or refunded milestone never changes again. |
| `EscrowRuns.SettledRefundIsFinal` | examples/bounty-escrow/contracts/escrow/src/lib.rs:424-438 | After a refund has settled, nothing is refundable ever again. |
| `EscrowRuns.ReceiptUsedOnce` | examples/bounty-escrow/contracts/escrow/src/lib.rs:483-539 | A callback whose hash is already a receipt is refused in every later state. |
| `EscrowRuns.AnswerAccepted` | examples/bounty-escrow/contracts/escrow/src/lib.rs:483-539 | The native callback for the pending transfer is always accepted: it settles the amount, or changes nothing but the lock and the receipts. |
| `EscrowState.Conserved` | examples/bounty-escrow/contracts/escrow/src/lib.rs:190-255 | On valid books paid plus refunded plus unsettled is the total, and the refundable sum fits. |
| `EscrowState.BucketsCover` | examples/bounty-escrow/contracts/escrow/src/lib.rs:190-255 | Paid, refunded and unsettled milestones cover all amounts once; refundable ones are unsettled. |
| `EscrowState.RefundMovesBuckets` | examples/bounty-escrow/contracts/escrow/src/lib.rs:519-525 | Marking moves exactly the refundable amounts to refunded and empties the refundable bucket. |
| `EscrowState.PhaseUpdate` | examples/bounty-escrow/contracts/escrow/src/lib.rs:366-409 | Changing one phase moves one amount between buckets. |
| `EscrowState.InitialIsValid` | examples/bounty-escrow/contracts/escrow/src/lib.rs:137-148 | A fresh escrow is valid. |
| `EscrowSpec.OwedMoveIsValid` | examples/bounty-escrow/contracts/escrow/src/lib.rs:366-409 | Submitting and approving move between unsettled phases and keep the books valid. |
| `EscrowSpec.SettledIsValid` | examples/bounty-escrow/contracts/escrow/src/lib.rs:516-532 | Settling or dropping the pending transfer keeps the books valid. |
| `EscrowSpec.PaymentBodyInjective` | examples/bounty-escrow/contracts/escrow/src/lib.rs:541-547 | Different pending transfers have different bodies. |
| `EscrowSpec.Process` | examples/bounty-escrow/contracts/escrow/src/lib.rs:309-440 | Every accepted message leaves valid books under the same terms; no message ends in ERR_STATE. |
| `EscrowContract.AmountsTotal` | examples/bounty-escrow/contracts/escrow/src/lib.rs:91-94 | The checked sum of the amounts, or overflow. |
| `EscrowContract.CheckConfig` | examples/bounty-escrow/contracts/escrow/src/lib.rs:74-94 | Accepts exactly the legal terms. |
| `EscrowContract.CheckReceipts` | examples/bounty-escrow/contracts/escrow/src/lib.rs:194-198 | The nested loop decides exactly distinctness of nonzero receipts. |
| `EscrowContract.Escrow.Validate` | examples/bounty-escrow/contracts/escrow/src/lib.rs:190-248 | The accumulating validation decides exactly the quantified invariant. |
| `EscrowContract.Escrow.CheckMilestones` | examples/bounty-escrow/contracts/escrow/src/lib.rs:206-222 | The milestone loop accepts exactly sound phases, and its sums are the paid and refunded buckets. |
| `EscrowContract.Escrow.RefundableAmount` | examples/bounty-escrow/contracts/escrow/src/lib.rs:249-255 | The fold is the refundable bucket, without overflow. |
| `EscrowContract.Escrow.Finish` | examples/bounty-escrow/contracts/escrow/src/lib.rs:549-571 | The event reports exactly the books' figures. |
| `EscrowContract.Escrow.FundCall` | examples/bounty-escrow/contracts/escrow/src/lib.rs:339-365 | The handler computes what funding means, or refuses with the same code and no change. |
| `EscrowContract.Escrow.SubmitCall` | examples/bounty-escrow/contracts/escrow/src/lib.rs:366-387 | The step-by-step handler computes exactly what a submission means, or refuses with the same code and no change. |
| `EscrowContract.Escrow.ApproveCall` | examples/bounty-escrow/contracts/escrow/src/lib.rs:388-409 | The step-by-step handler computes exactly what an approval of the exact delivery hash means, or refuses with the same code and no change. |
| `EscrowContract.Escrow.PayCall` | examples/bounty-escrow/contracts/escrow/src/lib.rs:410-423 | The step-by-step handler computes exactly what paying a milestone means, or refuses with the same code and no change. |
| `EscrowContract.Escrow.RefundCall` | examples/bounty-escrow/contracts/escrow/src/lib.rs:424-438 | The step-by-step handler computes exactly what a refund after the deadline means, or refuses with the same code and no change. |
| `EscrowContract.Escrow.DispatchCall` | examples/bounty-escrow/contracts/escrow/src/lib.rs:442-481 | The attempt budget, the balance check, the lock and the one transfer. |
| `EscrowContract.Escrow.MarkRefunded` | examples/bounty-escrow/contracts/escrow/src/lib.rs:520-524 | The marking loop. |
| `EscrowContract.Escrow.Settle` | examples/bounty-escrow/contracts/escrow/src/lib.rs:516-532 | Settling always validates again. |
| `EscrowContract.Escrow.CallbackCall` | examples/bounty-escrow/contracts/escrow/src/lib.rs:483-539 | The step-by-step handler computes exactly what the callback of the pending transfer means, or refuses with the same code and no change. |
| `EscrowContract.Escrow.ProcessMessage` | examples/bounty-escrow/contracts/escrow/src/lib.rs:309-440 | The dispatcher computes the meaning of every message. |
| `EscrowCodec.ImagesAreCanonical` | examples/bounty-escrow/contracts/escrow/src/lib.rs:150-277 | Bytes decode to a state if and only if the state is valid and the bytes are its image. |
| `EscrowCodec.ConfigImageOfView` | examples/bounty-escrow/contracts/escrow/src/lib.rs:55-97 | A well-shaped configuration image is the encoding of what it reads as. |
| `EscrowCodec.ViewOfConfigImage` | examples/bounty-escrow/contracts/escrow/src/lib.rs:98-112 | Reading an encoded configuration gives it back. |
| `EscrowCodec.WriteConfig` | examples/bounty-escrow/contracts/escrow/src/lib.rs:98-112 | The buffer writes produce the terms' image. |
| `EscrowCodec.Encode` | examples/bounty-escrow/contracts/escrow/src/lib.rs:256-277 | The buffer writes produce the state's image. |
| `EscrowImage.LoadConfig` | examples/bounty-escrow/contracts/escrow/src/lib.rs:55-97 | Decoding with early returns agrees with the layout. |
| `EscrowImage.Load` | examples/bounty-escrow/contracts/escrow/src/lib.rs:150-189 | Decoding a stored state with early returns agrees with the layout: same acceptance, same value, same code. |
| `EscrowImage.ProcessImage` | examples/bounty-escrow/contracts/escrow/src/lib.rs:309-440 | The entrypoint on stored bytes: decode, run, encode. |
| `EscrowImage.WrittenImagesDecode` | examples/bounty-escrow/contracts/escrow/src/lib.rs:549-571 | Every image written is accepted again and decodes to the state meant. |
| `EscrowImage.InitializeImage` | examples/bounty-escrow/contracts/escrow/src/lib.rs:294-308 | Initialisation on bytes writes exactly the fresh escrow of the terms in its data. |
| `EscrowReceiver.ProcessImage` | examples/bounty-escrow/contracts/receiver/src/lib.rs:38-114 | The entrypoint that overwrites byte ranges computes the meaning on the receiver those bytes stand for, with the same codes. |
| `EscrowReceiver.OwnCall` | examples/bounty-escrow/contracts/receiver/src/lib.rs:45-71 | Binding and the reject flag, on bytes. |
| `EscrowReceiver.AcceptCall` | examples/bounty-escrow/contracts/receiver/src/lib.rs:85-114 | A transfer is taken once per rising attempt and echoed. |
| `EscrowReceiver.Stamp` | examples/bounty-escrow/contracts/receiver/src/lib.rs:104-111 | The three overwritten ranges are exactly attempt, sum and count; overflow refuses. |
| `EscrowReceiver.TransferExact` | examples/bounty-escrow/contracts/receiver/src/lib.rs:88-102 | Reading a transfer body inverts the escrow's writing it, on exactly the legal fields. |
| `EscrowReceiver.OnlyTransfersMoveValue` | examples/bounty-escrow/contracts/receiver/src/lib.rs:38-114 | A receiver's sum rises only by what the bound escrow's transfer carried; owner calls move no figure. |
| `EscrowReceiver.ImagesAreCanonical` | examples/bounty-escrow/contracts/receiver/src/lib.rs:39-42 | Bytes are accepted and read as a receiver if and only if they are its image. |
| `EscrowSystemProof.Conservation` | examples/bounty-escrow/contracts/escrow/src/lib.rs:442-539 | Over every run of escrow, payee and refundee: what was funded equals the escrow's balance plus what is under way plus both recipients' balances, and each recipient's sum is what the escrow books as paid to it plus an undelivered success callback. |
| `EscrowSystemProof.LockedIffUnderWay` | examples/bounty-escrow/contracts/escrow/src/lib.rs:442-539 | Over every run, the escrow is locked exactly while its transfer or its callback is under way. |
| `EscrowSystemProof.RefusedOnlyWhenTold` | examples/bounty-escrow/contracts/receiver/src/lib.rs:72-111 | A transfer under way is refused only by a recipient that is not bound or was told to reject. |
| `EscrowSystemProof.AnswerAlwaysAccepted` | examples/bounty-escrow/contracts/escrow/src/lib.rs:483-539 | The callback under way is always accepted and settles exactly that transfer. |
| `EscrowSystemProof.StepKeepsInv` | examples/bounty-escrow/contracts/escrow/src/lib.rs:309-539 | Every step of the escrow, its recipients or the host keeps the system's invariant. |
| `EscrowSystemProof.RunKeepsInv` | examples/bounty-escrow/contracts/escrow/src/lib.rs:309-539 | Every run of steps keeps the system's invariant. |
| `SdkArena.RegionsStayApart` | crates/avm-contract-sdk/src/runtime.rs:36-89 | After every sequence of allocations and frees the live regions are at most two, contiguous from the start, nonempty, disjoint and within capacity. |
| `SdkArena.FreeUndoesAllocate` | crates/avm-contract-sdk/src/runtime.rs:36-89 | Freeing a region right after allocating it restores the live regions. |
| `SdkArena.GuestArena.constructor` | crates/avm-contract-sdk/src/runtime.rs:25-35 | A fresh arena has nothing live. |
| `SdkArena.GuestArena.Allocate` | crates/avm-contract-sdk/src/runtime.rs:36-65 | Grants exactly the requests that fit, at the pointer above the live ones; refuses with zero and no change. |
| `SdkArena.GuestArena.Free` | crates/avm-contract-sdk/src/runtime.rs:67-89 | Frees exactly the topmost live region, named exactly; refuses anything else with no change. |
| `SdkArena.GuestArena.Read` | crates/avm-contract-sdk/src/runtime.rs:91-116 | Reads exactly ranges inside the live part. |
| `SdkArena.GuestArena.Reserve` | crates/avm-contract-sdk/src/runtime.rs:118-133 | A region and a writer over it, or nothing. |
| `SdkArena.GuestArena.Settle` | crates/avm-contract-sdk/src/runtime.rs:134-143 | Keeps a filled region and packs pointer and length; frees an unfilled one. |
| `SdkArena.GuestArena.WriteMessageOutput` | crates/avm-contract-sdk/src/runtime.rs:118-143 | Leaves exactly the serialised output right after the intact live bytes if the predicted length is the real one and fits; otherwise zero and everything live as before. |
| `SdkArena.GuestArena.WriteBatchOutput` | crates/avm-contract-sdk/src/runtime.rs:118-143 | Leaves exactly the serialised batch output right after the intact live bytes if the predicted length is the real one and fits; otherwise zero and everything live as before. |
| `SdkDispatch.DispatchMessage` | crates/avm-contract-sdk/src/runtime.rs:201-221 | For any contract function: success exactly when the live input decodes, the output passes every check, its size fits 32 bits and the arena has room; then exactly the serialised output is delivered; any failure restores the live regions. |
| `SdkDispatch.DispatchBatch` | crates/avm-contract-sdk/src/runtime.rs:224-240 | For any batch contract function: success exactly when the live input decodes, the output passes every check, its size fits 32 bits and the arena has room; then exactly the serialised output is delivered; any failure restores the live regions. |
| `SdkDispatch.OutputLength` | crates/avm-contract-sdk/src/output.rs:182-200 | A predicted length exists exactly for outputs that pass every check and fit the machine; below 2^32 it is the number of bytes serialised. |
| `SdkDispatch.BatchOutputLength` | crates/avm-contract-sdk/src/output.rs:192-200 | A predicted length exists exactly for batch outputs that pass every check and fit the machine; below 2^32 it is the number of bytes serialised. |
| `SdkDispatch.ValidateMessageContext` | crates/avm-contract-sdk/src/output.rs:403-432 | Accepts exactly outputs that fit the input they answer. |
| `SdkDispatch.ValidateBatchContext` | crates/avm-contract-sdk/src/output.rs:434-453 | Accepts exactly outputs with one status per message and effects of succeeded ones. |
| `SdkSizes.CheckedLen` | crates/avm-contract-sdk/src/output.rs:285-289 | The sum, or an error exactly when it does not fit the machine. |
| `SdkSizes.UpdateLen` | crates/avm-contract-sdk/src/output.rs:295-303 | The size of a state update, or overflow. |
| `SdkSizes.OutboundLen` | crates/avm-contract-sdk/src/output.rs:304-309 | The size of the outbound section, or overflow. |
| `SdkSizes.EventsLen` | crates/avm-contract-sdk/src/output.rs:310-319 | The size of the event section, or overflow. |
| `SdkSizes.MessageLen` | crates/avm-contract-sdk/src/output.rs:320-333 | The exact size of the serialised output, or overflow. |
| `SdkSizes.BatchLen` | crates/avm-contract-sdk/src/output.rs:334-343 | The exact size of the serialised batch, or overflow. |
| `SdkOutput.MessageBytes` | crates/avm-contract-sdk/src/output.rs:226-257 | The serialised output is exactly as long as its predicted size. |
| `SdkOutput.BatchBytes` | crates/avm-contract-sdk/src/output.rs:269-282 | The serialised batch output is exactly as long as its predicted size. |
| `SdkShape.ValidateMessageShape` | crates/avm-contract-sdk/src/output.rs:345-386 | Accepts exactly well-shaped outputs. |
| `SdkShape.ValidateBatchShape` | crates/avm-contract-sdk/src/output.rs:388-401 | Accepts exactly well-shaped batch outputs. |
| `SdkShape.ValidateOutbound` | crates/avm-contract-sdk/src/output.rs:480-490 | Accepts exactly outbound lists with nonzero destinations, canonical currencies and sized bodies. |
| `SdkShape.ValidateExtra` | crates/avm-contract-sdk/src/output.rs:492-498 | Accepts exactly canonical currency lists, told apart by code from too long ones. |
| `SdkShape.ValidateEvents` | crates/avm-contract-sdk/src/output.rs:500-512 | Accepts exactly event lists with sized topics and legal field lists. |
| `SdkShape.ValidateCallbacks` | crates/avm-contract-sdk/src/output.rs:368-379 | Accepts exactly callbacks that each name a handler and an outbound message of their own. |
| `SdkShape.ValidMessageIsSized` | crates/avm-contract-sdk/src/output.rs:345-386 | A validated output with a result and full state below 2^32 bytes fits every length field. |
| `SdkWriter.OutputWriter.Window` | crates/avm-contract-sdk/src/runtime.rs:159-162 | A writer over a stretch of the arena, nothing written. |
| `SdkWriter.OutputWriter.Write` | crates/avm-contract-sdk/src/runtime.rs:163-175 | Appends exactly the bytes if they fit, refuses otherwise; nothing outside its window changes. |
| `SdkWriter.WriteUpdate` | crates/avm-contract-sdk/src/output.rs:514-534 | Emits exactly the update's bytes, or LENGTH_OVERFLOW exactly when a length field or the window is too small. |
| `SdkWriter.WriteOutbound` | crates/avm-contract-sdk/src/output.rs:536-555 | Emits exactly the bytes of the outbound intents, or LENGTH_OVERFLOW exactly when a length field or the window is too small. |
| `SdkWriter.WriteEvents` | crates/avm-contract-sdk/src/output.rs:557-576 | Emits exactly the bytes of the events, or LENGTH_OVERFLOW exactly when a length field or the window is too small. |
| `SdkWriter.WriteMessage` | crates/avm-contract-sdk/src/output.rs:226-257 | Emits exactly the bytes of a whole output, or LENGTH_OVERFLOW exactly when a length field or the window is too small. |
| `SdkWriter.WriteBatch` | crates/avm-contract-sdk/src/output.rs:269-282 | Emits exactly the bytes of a whole batch output, or LENGTH_OVERFLOW exactly when a length field or the window is too small. |
| `SdkWriter.EncodeMessageOutput` | crates/avm-contract-sdk/src/output.rs:174-224 | The growing-vector serialiser succeeds exactly on valid sized outputs, with those same bytes. |
| `SdkWriter.EncodeBatchOutput` | crates/avm-contract-sdk/src/output.rs:178-267 | The growing-vector serialiser succeeds exactly on valid sized batch outputs, with those same bytes. |
| `EventFields.EncodeEventFields` | crates/avm-contract-sdk/src/output.rs:152-172 | The encoder's loop produces the count and the records, or the first error. |
| `EventFields.ValidateEventFieldList` | crates/avm-contract-sdk/src/output.rs:599-629 | The validator's loop decides exactly whether the bytes read as a list. |
| `EventFields.CheckField` | crates/avm-contract-sdk/src/output.rs:605-627 | One turn of that loop: one record read, its name above the one before. |
| `EventFields.ListExact` | crates/avm-contract-sdk/src/output.rs:152-172 | Bytes read as a field list if and only if that list encodes to those bytes. |
| `EventFields.AcceptsExactlyEncodings` | crates/avm-contract-sdk/src/output.rs:599-629 | The accepted byte strings are exactly the encodings of some well-typed field list. |
| `EventFields.EncodedNamesAscend` | crates/avm-contract-sdk/src/output.rs:152-172 | Every list that encodes is strictly sorted by name. |
| `EventFields.ValueExact` | crates/avm-contract-sdk/src/output.rs:578-597 | Kind and bytes determine a value and back. |
| `SdkMessages.InternalExact` | crates/avm-contract-sdk/src/input.rs:583-691 | Bytes decode to an internal message if and only if it is well formed and they are its layout. |
| `SdkMessages.ExternalExact` | crates/avm-contract-sdk/src/input.rs:693-737 | Bytes decode to an external message if and only if it is well formed and they are its layout. |
| `SdkMessages.MessageExact` | crates/avm-contract-sdk/src/input.rs:575-581 | Bytes decode to a canonical message of either kind if and only if it is well formed and they are its layout. |
| `SdkMessages.ExtraExact` | crates/avm-contract-sdk/src/input.rs:753-769 | A currency list is read from the front of some bytes if and only if it is strictly ascending and they start with its layout. |
| `SdkMessages.TailExact` | crates/avm-contract-sdk/src/input.rs:612-674 | What follows an internal header reads as callback, handler, event reads, currencies and body if and only if these are legal and the bytes are their layout. |
| `SdkMessages.FlagsFromBits` | crates/avm-contract-sdk/src/input.rs:585-596 | The flag byte is determined by its four meanings. |
| `SdkInput.InputExact` | crates/avm-contract-sdk/src/input.rs:459-514 | Bytes decode to a single-message input if and only if it is well formed and they are its layout. |
| `SdkInput.PayloadExact` | crates/avm-contract-sdk/src/input.rs:473-480 | The part after the envelope's head reads as currencies, state, message and results if and only if it is their layout. |
| `SdkInput.FrontExact` | crates/avm-contract-sdk/src/input.rs:460-472 | The envelope's head is read from the front of some bytes if and only if they start with its layout. |
| `SdkBatch.BatchExact` | crates/avm-contract-sdk/src/input.rs:516-573 | Bytes decode to a batch if and only if it is well formed and they are its layout. |
| `SdkBatch.ItemsExact` | crates/avm-contract-sdk/src/input.rs:543-559 | Offsets and blob read as messages if and only if the blob is the messages end to end and the offsets are where they start. |
| `SdkBatch.OffsetsExact` | crates/avm-contract-sdk/src/input.rs:528-538 | The offset table is read from the front of some bytes if and only if it starts at zero and they start with its layout. |
| `Wire.Reader.constructor` | crates/avm-contract-sdk/src/input.rs:837-848 | A cursor at a position of borrowed bytes. |
| `Wire.Reader.Next` | crates/avm-contract-sdk/src/input.rs:849-855 | Takes exactly that many bytes, or fails without moving. |
| `Wire.Reader.NextPrefixed` | crates/avm-contract-sdk/src/input.rs:880-884 | Takes a length and that many bytes. |
| `Wire.Reader.AtEnd` | crates/avm-contract-sdk/src/input.rs:885-891 | Holds exactly when nothing is left. |
| `SdkDecoders.AscendingCurrencies` | crates/avm-contract-sdk/src/input.rs:753-769 | The loop over entries accepts exactly canonical lists. |
| `SdkDecoders.DecodeInternal` | crates/avm-contract-sdk/src/input.rs:583-691 | The cursor with early returns accepts exactly the layout of internal messages, and as the value printed. |
| `SdkDecoders.DecodeExternal` | crates/avm-contract-sdk/src/input.rs:693-737 | The cursor with early returns accepts exactly the layout of external messages, and as the value printed. |
| `SdkDecoders.DecodeMessage` | crates/avm-contract-sdk/src/input.rs:575-581 | The decoder accepts exactly the layout of either kind of message, and as the value printed. |
| `SdkDecoders.DecodeMessageInput` | crates/avm-contract-sdk/src/input.rs:459-514 | The cursor with early returns accepts exactly the layout of single-message inputs, and as the value printed. |
| `SdkDecoders.ReadOffset` | crates/avm-contract-sdk/src/input.rs:779-785 | An entry of the offset table, or UNEXPECTED_EOF. |
| `SdkDecoders.DecodeItems` | crates/avm-contract-sdk/src/input.rs:543-559 | The checking loop over a batch's messages. |
| `SdkBatchDecoder.DecodeBatchInput` | crates/avm-contract-sdk/src/input.rs:516-573 | Accepts exactly the batch layout, and hands out a view that stands for that batch. |
| `SdkBatchDecoder.BlobSlice` | crates/avm-contract-sdk/src/input.rs:408-423 | Message k is what lies between offsets k and k+1 of the blob. |
| `SdkBatchDecoder.BatchMessageIter.Next` | crates/avm-contract-sdk/src/input.rs:431-450 | Yields the message at the index and moves on, never an error, until the count is reached. |
| `SdkBatchDecoder.Drain` | crates/avm-contract-sdk/src/input.rs:431-455 | Draining yields exactly the batch's messages. |
| `SdkBatchDecoder.Collect` | crates/avm-contract-sdk/src/input.rs:408-455 | Decoding and draining yields exactly the messages whose bytes make up the blob. |
| `SdkSeen.DecodedInputsAreSound` | crates/avm-contract-sdk/src/input.rs:583-691 | What decoding already guarantees the contracts: nonzero sources, callbacks addressed to this account without request or deployment, failed ones with empty bodies. |
| `SdkSeen.RepeatedChecksNeverDecide` | examples/revenue-hub/contracts/vault/src/lib.rs:205-219 | The callback checks the contracts repeat never decide on a decoded input: what remains is exactly these conditions. |
| `VaultAuthority.ClaimExact` | examples/revenue-hub/contracts/vault/src/lib.rs:81-125 | A claim is accepted if and only if it is an external message without value of the member's own key to an unpaused vault whose balance for it is idle and positive and whose funds suffice; it then moves exactly that balance to pending under the next nonce and sends exactly that payout. |
| `VaultAuthority.DepositExact` | examples/revenue-hub/contracts/vault/src/lib.rs:55-76 | A deposit is accepted if and only if the vault is unpaused and the value is nonzero, in hub currencies, present and fits; afterwards every member is owed exactly its share of the new total. |
| `VaultAuthority.ProposeExact` | examples/revenue-hub/contracts/vault/src/lib.rs:126-142 | A proposal is opened if and only if a signer names the next nonce and a known action while none is live; it gets the configured deadlines and the signer's one vote. |
| `VaultAuthority.VoteExact` | examples/revenue-hub/contracts/vault/src/lib.rs:143-158 | A vote counts if and only if a signer that has not voted repeats the live proposal before it expires; then exactly that signer's bit is added. |
| `VaultAuthority.ExecuteExact` | examples/revenue-hub/contracts/vault/src/lib.rs:159-184 | A proposal is enacted if and only if it is named by nonce inside its window after votes of two keys; exactly its action takes effect and the proposal ends. |
| `VaultAuthority.CallbackExact` | examples/revenue-hub/contracts/vault/src/lib.rs:193-241 | A callback is accepted if and only if it answers the pending payout of the member it comes from, later than everything before, under a new hash, with the echo or with the exact principal. |
| `VaultAuthority.SettleEffect` | examples/revenue-hub/contracts/vault/src/lib.rs:227-239 | An accepted callback changes that member's figures and the sum paid in exactly this way. |
| `VaultAuthority.AcceptedExactly` | examples/revenue-hub/contracts/vault/src/lib.rs:36-187 | The messages a valid vault accepts are exactly those of eight kinds, each given by its conditions; no unknown method and no other internal message is. |
| `VaultAuthority.ChangesAreAuthorised` | examples/revenue-hub/contracts/vault/src/lib.rs:36-241 | Whoever sends whatever: a balance is locked or lowered only by the member's own claim on an unpaused vault, unlocked and paid only by its callback, the sum received rises only by a deposit, and switches move only by enactment. |
| `VaultAuthority.RefusalsAreExact` | examples/revenue-hub/contracts/vault/src/lib.rs:36-187 | Every refusal carries the code of the first condition that fails, in the source's order. |
| `HubAuthority.StepsNeedTheOwner` | examples/revenue-hub/contracts/vault/src/lib.rs:81-125 | In any hub the invariant holds of, a step locks a member or lowers its balance only if it is that member's own claim on an unpaused vault; its lock opens and it is paid only by handing back the answer; only a deposit to an unpaused vault adds money. |
| `HubAuthority.PaidMeansClaimed` | examples/revenue-hub/contracts/vault/src/lib.rs:81-125 | Over every run from deployment, a member that was ever paid or is locked claimed with the key the vault was deployed with. |
| `HubAuthority.UnclaimedStays` | examples/revenue-hub/contracts/vault/src/lib.rs:81-125 | Over every run without a claim of its owner, a member stays unlocked and unpaid and its balance does not fall. |
| `EscrowAuthority.FundExact` | examples/bounty-escrow/contracts/escrow/src/lib.rs:339-359 | Funding is accepted if and only if the owner pays in the whole total, once, before the deadline. |
| `EscrowAuthority.SubmitExact` | examples/bounty-escrow/contracts/escrow/src/lib.rs:366-387 | A delivery is accepted if and only if the worker names a nonzero hash for an unapproved milestone of a funded idle escrow before the deadline; exactly that milestone and hash change. |
| `EscrowAuthority.ApproveExact` | examples/bounty-escrow/contracts/escrow/src/lib.rs:388-409 | An approval is accepted if and only if the owner, before the deadline, names a submitted milestone together with exactly the hash on record. |
| `EscrowAuthority.PayExact` | examples/bounty-escrow/contracts/escrow/src/lib.rs:410-423 | A payment is accepted if and only if a party asks for an approved milestone while attempts, principal and fuel are there; it locks and sends exactly that amount to the payee. |
| `EscrowAuthority.RefundExact` | examples/bounty-escrow/contracts/escrow/src/lib.rs:424-436 | A refund is accepted if and only if the owner asks from the deadline on while something is unapproved; it locks and sends exactly the sum of the unapproved amounts. |
| `EscrowAuthority.CallbackExact` | examples/bounty-escrow/contracts/escrow/src/lib.rs:483-539 | A callback is accepted if and only if it answers the transfer under way under a hash not yet recorded; then exactly that transfer is settled or dropped. |
| `EscrowAuthority.AcceptedExactly` | examples/bounty-escrow/contracts/escrow/src/lib.rs:309-440 | The messages a valid escrow accepts are exactly those of eight kinds, each given by its conditions. |
| `EscrowAuthority.ChangesAreAuthorised` | examples/bounty-escrow/contracts/escrow/src/lib.rs:309-539 | Whoever sends whatever: a milestone becomes submitted, approved, paid or refunded, and the lock, the totals and the receipts move, only by the message entitled to it. |
| `EscrowAuthority.RefusalsAreExact` | examples/bounty-escrow/contracts/escrow/src/lib.rs:309-440 | Every refusal carries the code of the first condition that fails, in the source's order. |
| `EscrowAuthority.PaidIsWhatTheOwnerNamed` | examples/bounty-escrow/contracts/escrow/src/lib.rs:388-409 | Over every run of a deployed escrow, an approved or paid milestone carries a hash that the worker delivered and that the owner named for it in an external message before the deadline. |
| `EscrowAuthority.ApprovedIsKept` | examples/bounty-escrow/contracts/escrow/src/lib.rs:366-409 | Over every run, an approved milestone keeps its hash and can only go on to be paid. |
| `EscrowAuthority.RefundIsTheOwners` | examples/bounty-escrow/contracts/escrow/src/lib.rs:424-436 | Over every run, nothing is refunded unless the owner asks for it at or after the deadline. |
| `VestingAuthority.FundExact` | examples/vesting-streams/contracts/vesting/src/lib.rs:72-89 | Funding is accepted if and only if the owner pays in exactly the total, once, before the first stream starts. |
| `VestingAuthority.CancelExact` | examples/vesting-streams/contracts/vesting/src/lib.rs:103-118 | A cancellation is accepted if and only if the owner cancels a revocable, uncancelled stream of a funded contract before its end; the cutoff is now and the cap what has vested. |
| `VestingAuthority.ClaimExact` | examples/vesting-streams/contracts/vesting/src/lib.rs:119-166 | A claim is accepted if and only if the stream's own key asks while its lane is idle and something earned is unclaimed; all of it is locked and sent to the payout address. |
| `VestingAuthority.RefundExact` | examples/vesting-streams/contracts/vesting/src/lib.rs:119-166 | A refund is accepted if and only if the owner asks for a cancelled stream while its lane is idle and the cap leaves something; all of it is locked and sent to the refund address. |
| `VestingAuthority.CallbackExact` | examples/vesting-streams/contracts/vesting/src/lib.rs:167-224 | A callback is accepted if and only if it answers the payout in the lane it comes from. |
| `VestingAuthority.SettleExact` | examples/vesting-streams/contracts/vesting/src/lib.rs:199-218 | That callback empties exactly that lane, and on success counts its amount as claimed or refunded. |
| `VestingAuthority.AcceptedExactly` | examples/vesting-streams/contracts/vesting/src/lib.rs:48-166 | The messages a valid vesting contract accepts are exactly those of seven kinds, each given by its conditions. |
| `VestingAuthority.ChangesAreAuthorised` | examples/vesting-streams/contracts/vesting/src/lib.rs:48-224 | Whoever sends whatever: a stream is cancelled only by the owner, its claims lane locked only by its key, its refunds lane only by the owner, funding is the owner's, and only the callback of a payout settles it. |
| `VestingAuthority.RefusalsAreExact` | examples/vesting-streams/contracts/vesting/src/lib.rs:48-152 | Every refusal carries the code of the first condition that fails, in the source's order. |
| `VestingAuthority.MovedMeansAsked` | examples/vesting-streams/contracts/vesting/src/lib.rs:103-133 | Over every run from deployment, a cancelled stream was cancelled by the owner, what was claimed or is on its way was asked for by the stream's key, and what was refunded or is on its way back by the owner. |
| `AuditAuthority.BindExact` | examples/revenue-hub/contracts/audit/src/lib.rs:203-239 | A source is bound if and only if the owner binds an unbound slot to a proper address of this dapp, other than the ledger, that no slot has; only that slot changes. |
| `AuditAuthority.RecordExact` | examples/revenue-hub/contracts/audit/src/lib.rs:150-184 | A report is credited if and only if it comes plainly from the source bound to its slot, under a higher nonce, and fits; exactly that record changes and exactly this event is reported. |
| `AuditAuthority.AcceptedExactly` | examples/revenue-hub/contracts/audit/src/lib.rs:186-252 | The isolated messages the ledger accepts are exactly those of three kinds, each given by its conditions. |
| `AuditAuthority.ChangesAreAuthorised` | examples/revenue-hub/contracts/audit/src/lib.rs:186-252 | Whoever sends whatever: sources change only by an external bind of the owner, in exactly one formerly unbound slot; a record changes only by its bound source's report. |
| `AuditAuthority.RefusalsAreExact` | examples/revenue-hub/contracts/audit/src/lib.rs:150-252 | Every refusal carries the code of the first condition that fails. |
| `AuditAuthority.BatchStatusExact` | examples/revenue-hub/contracts/audit/src/lib.rs:286-316 | In any batch, also with external or misaddressed messages, a message counts if and only if it is an internal one to this ledger whose report the records, as left by the messages before it, would credit; every other gets the code of the first thing wrong. |
| `AuditFleetAuthority.StepsNeedTheRightVoice` | examples/revenue-hub/contracts/audit/src/lib.rs:203-239 | In any fleet run a step binds a slot only if it is the owner's message naming that slot and address, and adds to a record only with a message of the address bound there. |
| `AuditFleetAuthority.BoundMeansNamed` | examples/revenue-hub/contracts/audit/src/lib.rs:203-239 | Over every fleet run, each slot that came to be bound was unbound before and was bound by a message of the owner naming that very address. |
| `AuditFleetAuthority.SourceStays` | examples/revenue-hub/contracts/audit/src/lib.rs:203-239 | Over every fleet run without the owner's message naming a slot, the slot keeps its source. |
| `RevenueReceiverAuthority.AcceptedExactly` | examples/revenue-hub/contracts/receiver/src/lib.rs:50-145 | The messages the receiver accepts are exactly those of five kinds, each given by its conditions: only the owner binds and switches, only the bound vault pays. |
| `RevenueReceiverAuthority.PayExact` | examples/revenue-hub/contracts/receiver/src/lib.rs:102-145 | A payment is taken if and only if it is the bound vault's, for this member, fresh, exact and with room; the receipt, the echo and the one or two reports are exactly these. |
| `RevenueReceiverAuthority.ChangesAreAuthorised` | examples/revenue-hub/contracts/receiver/src/lib.rs:50-145 | The receiver is bound once and by its owner, switched by its owner, and richer only by the bound vault's payment. |
| `EscrowReceiverAuthority.AcceptedExactly` | examples/bounty-escrow/contracts/receiver/src/lib.rs:38-115 | The messages the recipient accepts are exactly those of three kinds, each given by its conditions. |
| `EscrowReceiverAuthority.PayExact` | examples/bounty-escrow/contracts/receiver/src/lib.rs:74-113 | A transfer is taken if and only if it is the bound escrow's, legal, fresh, exact and with room; exactly the receipt figures move. |
| `EscrowReceiverAuthority.ChangesAreAuthorised` | examples/bounty-escrow/contracts/receiver/src/lib.rs:38-115 | The recipient is bound once and by its owner, switched by its owner, and richer only by the bound escrow's transfer. |
| `VestingReceiverAuthority.AcceptedExactly` | examples/vesting-streams/contracts/receiver/src/lib.rs:50-128 | The messages a stream's recipient accepts are exactly those of four kinds, each given by its conditions. |
| `VestingReceiverAuthority.PayExact` | examples/vesting-streams/contracts/receiver/src/lib.rs:90-128 | A payment is taken if and only if it is the bound contract's, for this stream and lane, fresh, exact and with room; exactly its own slot moves. |
| `VestingReceiverAuthority.ChangesAreAuthorised` | examples/vesting-streams/contracts/receiver/src/lib.rs:50-128 | The recipient is bound once and by its owner, switched by its owner, and richer only by the bound contract's payment. |
| `AcceptedImages.VaultTermsExact` | examples/revenue-hub/core/src/vault.rs:64-100 | The legal vault configurations, condition by condition. |
| `AcceptedImages.VaultImageExact` | examples/revenue-hub/core/src/vault.rs:197-296 | A stored vault image is accepted if and only if it has the layout and its books meet these conditions, member by member. |
| `AcceptedImages.VaultDeploymentExact` | examples/revenue-hub/contracts/vault/src/lib.rs:19-34 | A vault is deployed if and only if one of its signers deploys it without value to pay other accounts of its dapp; it starts empty, unpaused and without a proposal. |
| `AcceptedImages.EscrowTermsExact` | examples/bounty-escrow/contracts/escrow/src/lib.rs:55-97 | The legal escrow terms, condition by condition. |
| `AcceptedImages.EscrowImageExact` | examples/bounty-escrow/contracts/escrow/src/lib.rs:150-248 | A stored escrow image is accepted if and only if it has the layout and its books meet these conditions, milestone by milestone. |
| `AcceptedImages.EscrowDeploymentExact` | examples/bounty-escrow/contracts/escrow/src/lib.rs:294-307 | An escrow is deployed if and only if its owner deploys it without value before the deadline, paying to other accounts; it starts empty. |
| `AcceptedImages.VestingTermsExact` | examples/vesting-streams/core/src/state.rs:49-78 | The legal vesting configurations, condition by condition. |
| `AcceptedImages.VestingImageExact` | examples/vesting-streams/core/src/state.rs:221-330 | A stored vesting image is accepted if and only if it has the layout and its books meet these conditions, stream by stream. |
| `AcceptedImages.VestingDeploymentExact` | examples/vesting-streams/contracts/vesting/src/lib.rs:24-46 | A vesting contract is deployed if and only if its owner deploys it without value before any stream starts, paying other accounts of its dapp; it starts unfunded. |
| `AcceptedImages.LedgerImageExact` | examples/revenue-hub/contracts/audit/src/lib.rs:69-103 | A stored ledger image, in either form, is accepted if and only if it has the layout and its slots meet these conditions. |
| `SdkAnswers.OutputExact` | crates/avm-contract-sdk/src/output.rs:216-257 | A host-side reader returns an output if and only if the bytes are its serialisation: nothing of it is lost and no other output has those bytes. |
| `SdkAnswers.BatchOutputExact` | crates/avm-contract-sdk/src/output.rs:259-283 | The same for batch outputs, with every status, message and event in its place. |
| `SdkAnswers.AnswerReadsBack` | crates/avm-contract-sdk/src/runtime.rs:201-222 | Whatever the single-message entrypoint answers reads back as exactly what the contract returned for the decoded input. |
| `SdkAnswers.BatchAnswerReadsBack` | crates/avm-contract-sdk/src/runtime.rs:224-243 | Whatever the batch entrypoint answers reads back as exactly what the contract returned for the decoded batch. |
| `SdkAnswers.DeliveredReadsBack` | crates/avm-contract-sdk/src/runtime.rs:118-143 | After a successful call the region named by the result lies right above what was live, and reading it gives what the contract returned. |
| `SdkAnswers.UpdatePositions` | crates/avm-contract-sdk/src/output.rs:514-534 | Mode at byte 0, zeros to 4, then the length and the state from 8, or the count and the patches from 8. |
| `SdkAnswers.PatchPositions` | crates/avm-contract-sdk/src/output.rs:524-530 | A patch is its offset, the replaced length, the new length and the new bytes, in this order. |
| `SdkAnswers.IntentPositions` | crates/avm-contract-sdk/src/output.rs:536-555 | Where each field of an outbound message stands. |
| `SdkAnswers.EventPositions` | crates/avm-contract-sdk/src/output.rs:557-576 | Where each field of an event stands. |
| `SdkAnswers.OutputPositions` | crates/avm-contract-sdk/src/output.rs:216-257 | Where magic, status, flags, update and upgrade of an output stand. |
| `SdkReadback.UpdateExact` | crates/avm-contract-sdk/src/output.rs:514-534 | A state update is read from the front of some bytes if and only if they start with its serialisation. |
| `SdkReadback.IntentExact` | crates/avm-contract-sdk/src/output.rs:536-555 | An outbound message is read back if and only if the bytes start with its serialisation. |
| `SdkReadback.EventExact` | crates/avm-contract-sdk/src/output.rs:557-576 | An event is read back if and only if the bytes start with its serialisation. |
| `SdkReadback.PatchesExact` | crates/avm-contract-sdk/src/output.rs:522-531 | A list of patches is read back, in order and complete, if and only if the bytes start with its serialisation. |
| `SdkPermits.AnswerExact` | crates/avm-contract-sdk/src/output.rs:345-432 | For any contract and any input, an output gets through the single-message entrypoint if and only if it meets these conditions on status, mode, patches, effects, callbacks, result, upgrade and size. |
| `SdkPermits.BatchAnswerExact` | crates/avm-contract-sdk/src/output.rs:388-453 | The same for batches: one status each, effects only of messages that succeeded. |
| `SdkAccepted.InputsExact` | crates/avm-contract-sdk/src/input.rs:459-514 | Some bytes decode to a given input if and only if it meets these conditions, and then exactly one byte string does. |
| `SdkAccepted.BatchesExact` | crates/avm-contract-sdk/src/input.rs:516-573 | Some bytes decode to a given batch if and only if it meets these conditions, and then exactly one byte string does. |
| `SdkAccepted.MessagesExact` | crates/avm-contract-sdk/src/input.rs:575-737 | Some bytes decode to a given message if and only if it meets these conditions on addresses, callback, handler, event reads, currencies and sizes. |
| `SdkPositions.SeenStands` | crates/avm-contract-sdk/src/input.rs:459-514 | What a handler sees of an accepted input is what stands at these bytes: clocks, own address, caller, balances, method, times, flags, callback header and body. |
| `SdkPositions.InputStands` | crates/avm-contract-sdk/src/input.rs:459-480 | Where each part of the single-message envelope stands. |
| `SdkPositions.TailOrder` | crates/avm-contract-sdk/src/input.rs:583-674 | The optional parts of an internal message are there exactly when their flags are set, in this order, at these bytes. |
| `SdkPositions.OffsetsStand` | crates/avm-contract-sdk/src/input.rs:528-538 | The offset table holds the number of messages and then each offset. |
| `SdkPositions.FieldStands` | crates/avm-contract-sdk/src/output.rs:152-172 | Where name length, kind, value length, name and value of an event field stand. |
| `SdkPositions.KindsAreThese` | crates/avm-contract-sdk/src/output.rs:578-597 | The nine value kinds with their numbers and byte forms, signed numbers in two's complement. |
| `SdkMessages.HeaderFields` | crates/avm-contract-sdk/src/input.rs:583-607 | Where each field of an internal message's header stands. |
| `SdkMessages.ExternalHeaderFields` | crates/avm-contract-sdk/src/input.rs:693-722 | Where each field of an external message's header stands. |
| `SdkArena.GrantsAndFreesExactly` | crates/avm-contract-sdk/src/runtime.rs:36-90 | After any sequence of calls a region is granted if and only if fewer than two are live, it is not empty, it fits above them and its pointer is a nonzero 32-bit number; it is freed if and only if it is the newest, named exactly. |
| `SdkArena.TwoRegionsFit` | crates/avm-contract-sdk/src/runtime.rs:307-331 | Any input and output that fit together are granted one after the other and can be freed in reverse order. |
| `Positions.VaultStands` | examples/revenue-hub/core/src/vault.rs:101-117 | Where every field of the stored vault stands, with its member and state rows. |
| `Positions.EscrowStands` | examples/bounty-escrow/contracts/escrow/src/lib.rs:98-136 | Where every field of the stored escrow stands, with its amounts, hashes and receipts. |
| `Positions.VestingStands` | examples/vesting-streams/core/src/state.rs:274-297 | Where every field of the stored vesting contract stands, with its stream and progress rows. |
| `Positions.LedgerStands` | examples/revenue-hub/experiments/compact-audit/src/lib.rs:330-367 | Where every field of the ledger stands in the legacy and in the compact form. |
| `Positions.MemberStateStands` | examples/revenue-hub/core/src/vault.rs:297-326 | Where every figure of a member's state row stands. |
| `Positions.ProgressStands` | examples/vesting-streams/core/src/state.rs:274-297 | Where every figure of a stream's progress row stands, with its two lanes. |
| `Positions.RevenueReceiverStands` | examples/revenue-hub/contracts/receiver/src/lib.rs:21-48 | Where every field of the stored receiver stands. |
| `Positions.VestingReceiverStands` | examples/vesting-streams/contracts/receiver/src/lib.rs:19-48 | Where every field of the stored recipient of a stream stands. |
| `Positions.EscrowReceiverStands` | examples/bounty-escrow/contracts/receiver/src/lib.rs:74-113 | Where every field of the stored recipient of an escrow stands. |
| `Positions.LittleEndian` | examples/revenue-hub/core/src/vault.rs:297-326 | Byte k of a number's bytes is its digit of weight 256 to the power k. |
| `Positions.LessIsFirstDifference` | crates/avm-contract-sdk/src/output.rs:599-629 | Byte strings are ordered by their first difference, a proper beginning first. |
| `Positions.PrincipalIsFirstZero` | examples/revenue-hub/core/src/lib.rs:13-16 | The principal of a value list is the amount of its first entry with identifier zero, or nothing. |
| `EventFields.EncodableExactly` | crates/avm-contract-sdk/src/output.rs:152-172 | A field list can be encoded if and only if its names strictly ascend and it, its names and its values are short enough. |
| `EventFields.FirstBadFieldDecides` | crates/avm-contract-sdk/src/output.rs:152-172 | A refused list carries the code of its first bad field: one out of order, or else one with a part too long. |
| `AuditContract.AdmittedExactly` | examples/revenue-hub/contracts/audit/src/lib.rs:256-274 | A batch is admitted if and only if the image is accepted, it has at most 256 messages and, in the legacy form, patches are asked for. |
| `AuditCore.UntouchedStays` | examples/revenue-hub/contracts/audit/src/lib.rs:286-326 | Whatever a batch holds, a record it did not touch is the one it began with. |

## Left out

- SdkShape.ValidateMessageShape: when several checks fail, which of their codes comes back is not stated, only that the output is refused; the order of the checks is in the body.
- SdkShape.ValidateBatchShape: as for single outputs, refusal without the particular code.
- SdkShape.ValidateOutbound: refusal without the particular code.
- SdkShape.ValidateEvents: refusal without the particular code.
- SdkUpdates.ValidateUpdate: refusal without the particular code.
- SdkDispatch.ValidateMessageContext: refusal without the particular code.
- SdkDispatch.OutputLength: refusal without the particular code.
- SdkDispatch.BatchOutputLength: refusal without the particular code.
- SdkWriter.EncodeMessageOutput: refusal without the particular code.
- SdkWriter.EncodeBatchOutput: refusal without the particular code.
- SdkDecoders.DecodeInternal: which decode error a rejected input gets is not stated, only that it is rejected; likewise for the other decoders of `SdkDecoders` and `SdkBatchDecoder`.
- SdkDecoders.DecodeExternal: rejection without the particular code.
- SdkDecoders.DecodeMessage: rejection without the particular code.
- SdkDecoders.DecodeMessageInput: rejection without the particular code.
- SdkDecoders.DecodeItems: rejection without the particular code.
- SdkBatchDecoder.DecodeBatchInput: rejection without the particular code.
- SdkBatchDecoder.Collect: rejection without the particular code.
- SdkSizes.MessageLen: `usize` is a parameter of at least 32 bits, because the host also links the SDK natively; smaller machines are not covered.
- SdkArena.GuestArena.Allocate: the atomic cells of the arena are plain fields and an array, because a guest runs on one thread; the address of the array is a parameter that may be missing.
- SdkWriter.OutputWriter.Write: one class stands for both writers behind the source's trait, the growing vector and the arena window.
- Wire.Reader.Next: one cursor stands for the input `Reader` and the event `FieldReader`; overflow of its position cannot occur for bytes in memory and has no branch.
- EscrowContract.Escrow.Validate: stated for a legal configuration, because a state is only ever built from a configuration that was decoded and so checked.
- VestingContract.Vesting.Cap: stated for a legal schedule, for the same reason.
- VaultContract.Vault.HeldPrincipal: stated for valid books, because it only runs on decoded states and after validation; likewise the other totals of the vault, the vesting contract and the escrow.
- HubProof.Conservation: receivers start unbound, and their owners bind them to this vault only; SHELL is not counted.
- EscrowSystemProof.Conservation: both recipients start unbound and their owners bind them to this escrow only; SHELL is not counted.
- VestingSystemProof.Conservation: the receivers start unbound, one deployed for each lane, and their owners bind them to this contract only; SHELL is not counted.
- AuditFleet.NeverOverstates: runs are of single messages; what a batch of internal messages leaves is what its messages leave one at a time (`AuditCore.BatchIsOneByOne`).
- Event names, classes, topics and field encodings in contract replies: replies carry the figures of the event and the messages sent.
- The receivers' and the audit ledger's initialisation, and the parsing of deployment data around it; the deployment data of the three main contracts is a parameter.
- Text validity (section 4 of RFC 3629) is a predicate parameter; names compare as bytes.
- Hashes, signatures and address derivation: hashes are opaque 32-byte values.
- The host runtime: fees, rent, scheduling, storage, and how callbacks are built beyond the assumptions above.
- `fungible-token`, `factory-child-provenance` and the small fixture contracts, the export macros, the scripts and the release tooling.
