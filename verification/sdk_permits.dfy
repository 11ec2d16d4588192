/** Which outputs get through the entrypoints, condition by condition, and that no other does. */
module SdkPermits {
  import opened Bytes
  import opened SdkUpdates
  import opened SdkOutput
  import opened SdkShape
  import opened SdkDispatch
  import EventFields
  import SdkBatch
  import SdkBatchDecoder
  import SdkInput

  ghost predicate PermittedUpdate(u: StateUpdate, mode: Mode) {
    match u
    case Full(_) => mode == FullReplace
    case Patches(ps) =>
      && mode == DataPatchList && |ps| < 0x1_0000
      && (forall k | 0 <= k < |ps| :: ps[k].offset + ps[k].oldLen < U32_END && |ps[k].newBytes| < U32_END)
      && (forall j, k | 0 <= j < k < |ps| :: ps[j].offset + ps[j].oldLen <= ps[k].offset)
  }

  ghost predicate PermittedIntent(o: OutboundIntent) {
    && o.destination.dapp != ZERO32 && o.destination.account != ZERO32
    && |o.extra| < 0x1_0000 && |o.body| < U32_END
    && (forall j, k :: 0 <= j < k < |o.extra| ==> o.extra[j].id < o.extra[k].id)
  }

  predicate PermittedEvent(utf8: seq<byte> -> bool, e: EventIntent) {
    && |e.name| < 0x1_0000 && |e.topics| < 0x1_0000 && |e.fields| < U32_END
    && (forall k | 0 <= k < |e.topics| :: |e.topics[k]| < 0x1_0000)
    && EventFields.ReadList(utf8, e.fields).Some?
  }

  ghost predicate PermittedEffects(utf8: seq<byte> -> bool, os: seq<OutboundIntent>, es: seq<EventIntent>) {
    && |os| < U32_END && |es| < U32_END
    && (forall k | 0 <= k < |os| :: PermittedIntent(os[k]))
    && (forall k | 0 <= k < |es| :: PermittedEvent(utf8, es[k]))
  }

  /** Each callback request names a handler, and an outbound message that no other one names. */
  predicate PermittedCallbacks(cs: seq<CallbackIntent>, outbound: nat) {
    && (forall k | 0 <= k < |cs| :: cs[k].outboundIndex < outbound && cs[k].handler > 0)
    && (forall j, k | 0 <= j < k < |cs| :: cs[j].outboundIndex != cs[k].outboundIndex)
  }

  /** A success: new state in the mode asked for, and effects that all belong to the one message. */
  ghost predicate PermittedSuccess(utf8: seq<byte> -> bool, mode: Mode, m: MessageOutput) {
    && m.status == 0
    && m.update.Some? && PermittedUpdate(m.update.value, mode)
    && PermittedEffects(utf8, m.outbound, m.events)
    && PermittedCallbacks(m.callbacks, |m.outbound|)
    && (forall k | 0 <= k < |m.outbound| :: m.outbound[k].inputIndex == 0)
    && (forall k | 0 <= k < |m.events| :: m.events[k].inputIndex == 0)
  }

  /** A failure: a code from 1000 on and nothing else. */
  predicate PermittedFailure(m: MessageOutput) {
    m.status >= 1000 && m == MessageOutput(m.status, None, [], [], [], [], None)
  }

  /** A deployment returns no result, asks for no callback and upgrades nothing. */
  predicate FitsDeployment(i: SdkInput.MessageInput, m: MessageOutput) {
    i.message.IsDeploy() && m.result == [] && m.callbacks == [] && m.upgrade.None?
  }

  /** A result only to a caller that waits for one; an upgrade exactly when the upgrade method succeeds. */
  predicate FitsMessage(i: SdkInput.MessageInput, m: MessageOutput) {
    && !i.message.IsDeploy()
    && (m.result != [] ==> i.message.InternalKind? && i.message.internal.handler.Some?)
    && (m.upgrade.Some? ==> i.message.MethodId() == 0xc2c6c51bc610249d)
    && (i.message.MethodId() == 0xc2c6c51bc610249d && m.status == 0 ==> m.upgrade.Some?)
  }

  /** What the single-message entrypoint lets out, for any contract and any input: exactly this. */
  lemma AnswerExact(utf8: seq<byte> -> bool, contract: SdkInput.MessageInput -> MessageOutput, isInit: bool,
                    input: seq<byte>)
    ensures Answer(utf8, contract, isInit, Some(input)).Some? <==>
      && SdkInput.ReadInput(input).Some?
      && var i := SdkInput.ReadInput(input).value;
      && var m := contract(i);
      && (if isInit then FitsDeployment(i, m) else FitsMessage(i, m))
      && (PermittedSuccess(utf8, i.mode, m) || PermittedFailure(m))
      && MessageSize(m) < U32_END
  {
    hide SdkInput.ReadInput, MessageBytes, MessageSize, ValidMessage, PermittedSuccess, PermittedFailure, SizedMessage;
    if SdkInput.ReadInput(input).Some? {
      var i := SdkInput.ReadInput(input).value;
      ShapeExact(utf8, i.mode, contract(i));
    }
  }

  lemma ShapeExact(utf8: seq<byte> -> bool, mode: Mode, m: MessageOutput)
    ensures ValidMessage(utf8, m, Some(mode)) <==> PermittedSuccess(utf8, mode, m) || PermittedFailure(m)
  {
    hide EventFields.ReadList;
    EffectsExact(utf8, m.outbound, m.events);
  }

  lemma EffectsExact(utf8: seq<byte> -> bool, os: seq<OutboundIntent>, es: seq<EventIntent>)
    ensures PermittedEffects(utf8, os, es) <==> ValidOutbound(os) && ValidEvents(utf8, es)
  {
    hide EventFields.ReadList;
    assert forall k | 0 <= k < |os| :: PermittedIntent(os[k]) <==> ValidIntent(os[k]);
    assert forall k | 0 <= k < |es| :: PermittedEvent(utf8, es[k]) <==> ValidEvent(utf8, es[k]);
  }

  /** One status for each message, a success or a code from 1000 on; effects only of messages that succeeded. */
  ghost predicate PermittedBatch(utf8: seq<byte> -> bool, count: nat, mode: Mode, o: BatchOutput) {
    && PermittedUpdate(o.update, mode)
    && |o.statuses| == count && (forall k | 0 <= k < count :: o.statuses[k] == 0 || o.statuses[k] >= 1000)
    && PermittedEffects(utf8, o.outbound, o.events)
    && (forall k | 0 <= k < |o.outbound| ::
          o.outbound[k].inputIndex < count && o.statuses[o.outbound[k].inputIndex] == 0)
    && (forall k | 0 <= k < |o.events| :: o.events[k].inputIndex < count && o.statuses[o.events[k].inputIndex] == 0)
  }

  /** What the batch entrypoint lets out: exactly this. */
  lemma BatchAnswerExact(utf8: seq<byte> -> bool, contract: SdkBatchDecoder.BatchView -> BatchOutput,
                         input: seq<byte>)
    ensures AnswerBatch(utf8, contract, Some(input)).Some? <==>
      && SdkBatch.ReadBatch(input).Some?
      && var i := SdkBatch.ReadBatch(input).value;
      && SdkBatch.ValidBatch(i)
      && PermittedBatch(utf8, |i.messages|, i.target.mode, contract(ViewOf(i)))
      && BatchSize(contract(ViewOf(i))) < U32_END
  {
    hide SdkBatch.ReadBatch, SdkBatch.ValidBatch, BatchBytes, BatchSize, SizedBatch, EventFields.ReadList;
    if SdkBatch.ReadBatch(input).Some? {
      var i := SdkBatch.ReadBatch(input).value;
      SdkBatch.BatchExact(input, i);
      var o := contract(ViewOf(i));
      EffectsExact(utf8, o.outbound, o.events);
      BatchShapeExact(utf8, |i.messages|, i.target.mode, o);
    }
  }

  lemma BatchShapeExact(utf8: seq<byte> -> bool, count: nat, mode: Mode, o: BatchOutput)
    ensures ValidBatchContext(count, o) && ValidBatch(utf8, o, Some(mode)) <==> PermittedBatch(utf8, count, mode, o)
  {
    hide EventFields.ReadList, PermittedEffects, ValidOutbound, ValidEvents;
    EffectsExact(utf8, o.outbound, o.events);
    assert forall k | 0 <= k < |o.outbound| :: Succeeded(o, o.outbound[k].inputIndex) ==>
      o.outbound[k].inputIndex < |o.statuses|;
  }
}
