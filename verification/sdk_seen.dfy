/** What the contract models see of a decoded input, and what decoding already guarantees them. */
module SdkSeen {
  import opened Bytes
  import opened Sdk
  import opened SdkMessages
  import opened SdkInput
  import RevenueCore
  import VaultState
  import VaultSpec
  import EscrowState
  import EscrowSpec

  /** The input a contract handler works on. */
  function Seen(i: MessageInput): Input {
    Input(i.context.blockLt, i.context.blockTime, i.message.Destination(), i.extra,
          match i.message
          case InternalKind(m) =>
            Internal(m.source, m.methodId, m.body, m.extra, m.destination, m.createdLt, m.callback, m.deploy,
                     m.handler.Some?, m.reads_.Some?)
          case ExternalKind(m) => External(m.pubkey, m.methodId, m.body, m.extra))
  }

  /** Every input the decoder lets through is for the account it names, sorted, and consistent in its callback. */
  lemma DecodedInputsAreSound(b: seq<byte>)
    requires ReadInput(b).Some?
    ensures var in_ := Seen(ReadInput(b).value);
      && Canonical(in_.balance) && Canonical(in_.message.extra)
      && (in_.message.External? ==> in_.message.actor != ZERO32)
      && (in_.message.Internal? ==> NonzeroAddress(in_.message.source) && in_.message.destination == in_.here)
      && (in_.message.Internal? && in_.message.callback.Some? ==>
            && !in_.message.callbackRequest && !in_.message.deploy
            && in_.message.callback.value.causeAddress == in_.here && in_.message.callback.value.causeHash != ZERO32
            && (in_.message.callback.value.status != 0 ==> in_.message.body == []))
  {
    var i := ReadInput(b).value;
    InputExact(b, i);
    if i.message.InternalKind? {
      FlagBits(i.message.internal);
    }
  }

  /** So of the checks the vault and the escrow repeat on a decoded callback, these never turn one away. */
  lemma RepeatedChecksNeverDecide(b: seq<byte>, m: VaultState.MemberState, e: EscrowState.State)
    requires ReadInput(b).Some?
    requires Seen(ReadInput(b).value).message.Internal? && Seen(ReadInput(b).value).message.callback.Some?
    ensures var in_ := Seen(ReadInput(b).value);
      && (VaultSpec.CallbackAdmissible(m, in_.here, in_.message) <==>
            && m.pending != 0 && in_.message.methodId == RevenueCore.CALLBACK
            && in_.message.callback.value.causeHash != m.lastHash
            && in_.message.createdLt > m.afterLt && in_.message.createdLt > m.lastLt
            && VaultSpec.OnlyHubCurrencies(in_.message.extra))
      && (EscrowSpec.Admissible(e, in_.here, in_.message) <==>
            && e.pending.kind != 0 && in_.message.methodId == EscrowSpec.CALLBACK
            && in_.message.source == EscrowSpec.Recipient(e)
            && in_.message.callback.value.causeHash !in e.receipts
            && EscrowSpec.KnownCurrencies(in_.message.extra))
  {
    DecodedInputsAreSound(b);
  }
}
