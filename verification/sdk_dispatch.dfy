/**
 * The guest entrypoints: read the live input, decode it, run the contract, and leave its serialised output in the
 * arena. The contract is any function from decoded input to output.
 */
module SdkDispatch {
  import opened Bytes
  import opened Sdk
  import opened SdkUpdates
  import opened SdkOutput
  import opened SdkShape
  import opened SdkSizes
  import opened SdkArena
  import SdkBatch
  import opened SdkBatchDecoder
  import opened SdkDecoders
  import SdkInput
  import Blocks

  /** What an output may contain given the message it answers. */
  predicate ValidContext(i: SdkInput.MessageInput, isInit: bool, m: MessageOutput) {
    if isInit then
      i.message.IsDeploy() && m.result == [] && m.callbacks == [] && m.upgrade.None?
    else
      && !i.message.IsDeploy()
      && (!i.message.HasCallbackRequest() ==> m.result == [])
      && (m.status == 0 && i.message.MethodId() == CODE_UPGRADE ==> m.upgrade.Some?)
      && (i.message.MethodId() != CODE_UPGRADE ==> m.upgrade.None?)
  }

  /** `validate_message_context`. */
  method ValidateMessageContext(i: SdkInput.MessageInput, isInit: bool, m: MessageOutput) returns (r: Result<()>)
    ensures r.Ok? <==> ValidContext(i, isInit, m)
  {
    if isInit {
      if !i.message.IsDeploy() || m.result != [] || m.callbacks != [] || m.upgrade.Some? {
        return Err(INVALID_CALLBACK);
      }
      return Ok(());
    }
    if i.message.IsDeploy() {
      return Err(INVALID_CALLBACK);
    }
    if !i.message.HasCallbackRequest() && m.result != [] {
      return Err(INVALID_CALLBACK);
    }
    var upgradeCall := i.message.MethodId() == CODE_UPGRADE;
    if m.status == 0 && upgradeCall && m.upgrade.None? {
      return Err(UPGRADE_REQUIRED);
    }
    if !upgradeCall && m.upgrade.Some? {
      return Err(UPGRADE_FORBIDDEN);
    }
    return Ok(());
  }

  /** Every effect of a batch belongs to a message that succeeded, and every message has a status. */
  predicate ValidBatchContext(count: nat, b: BatchOutput) {
    && |b.statuses| == count
    && (forall k | 0 <= k < |b.outbound| :: Succeeded(b, b.outbound[k].inputIndex))
    && (forall k | 0 <= k < |b.events| :: Succeeded(b, b.events[k].inputIndex))
  }

  predicate Succeeded(b: BatchOutput, index: nat) { index < |b.statuses| && b.statuses[index] == 0 }

  /** `validate_batch_context`. */
  method ValidateBatchContext(count: nat, b: BatchOutput) returns (r: Result<()>)
    ensures r == if ValidBatchContext(count, b) then Ok(()) else Err(INVALID_INDEX)
  {
    if |b.statuses| != count {
      return Err(INVALID_INDEX);
    }
    for k := 0 to |b.outbound|
      invariant forall j | 0 <= j < k :: Succeeded(b, b.outbound[j].inputIndex)
    {
      if !Succeeded(b, b.outbound[k].inputIndex) {
        return Err(INVALID_INDEX);
      }
    }
    for k := 0 to |b.events|
      invariant forall j | 0 <= j < k :: Succeeded(b, b.events[j].inputIndex)
    {
      if !Succeeded(b, b.events[k].inputIndex) {
        return Err(INVALID_INDEX);
      }
    }
    return Ok(());
  }

  /** An acceptable output short enough for a 32-bit length has all its parts short enough for their length fields. */
  lemma ShortIsSized(utf8: seq<byte> -> bool, m: MessageOutput, mode: Option<Mode>)
    requires ValidMessage(utf8, m, mode) && MessageSize(m) < U32_END
    ensures SizedMessage(m)
  {
    ValidMessageIsSized(utf8, m, mode);
  }

  lemma ShortBatchIsSized(utf8: seq<byte> -> bool, b: BatchOutput, mode: Option<Mode>)
    requires ValidBatch(utf8, b, mode) && BatchSize(b) < U32_END
    ensures SizedBatch(b)
  {
    forall k | 0 <= k < |b.events| ensures SizedEvent(b.events[k]) {
      assert ValidEvent(utf8, b.events[k]);
    }
    forall k | 0 <= k < |b.outbound| ensures SizedIntent(b.outbound[k]) {
      assert ValidIntent(b.outbound[k]);
    }
  }

  /** What the host should find for an output: its bytes, if it is acceptable for this input and short enough. */
  ghost function MessageAnswer(utf8: seq<byte> -> bool, i: SdkInput.MessageInput, isInit: bool,
                               m: MessageOutput): Option<seq<byte>>
  {
    if ValidContext(i, isInit, m) && ValidMessage(utf8, m, Some(i.mode)) && MessageSize(m) < U32_END then
      ShortIsSized(utf8, m, Some(i.mode));
      Some(MessageBytes(m))
    else None
  }

  ghost function BatchAnswer(utf8: seq<byte> -> bool, count: nat, mode: Mode, b: BatchOutput): Option<seq<byte>> {
    if ValidBatchContext(count, b) && ValidBatch(utf8, b, Some(mode)) && BatchSize(b) < U32_END then
      ShortBatchIsSized(utf8, b, Some(mode));
      Some(BatchBytes(b))
    else None
  }

  /** The live bytes a pointer and length name. */
  ghost function Named(arena: GuestArena, ptr: u32, len: u32): Option<seq<byte>>
    requires arena.Valid()
    reads arena, arena.bytes
  {
    if arena.Offset(ptr).Some? && arena.Offset(ptr).value + len <= arena.next
    then Some(arena.bytes[arena.Offset(ptr).value..arena.Offset(ptr).value + len]) else None
  }

  /** The answer a call should produce from the bytes it was pointed at. */
  ghost function Answer(utf8: seq<byte> -> bool, contract: SdkInput.MessageInput -> MessageOutput, isInit: bool,
                        input: Option<seq<byte>>): Option<seq<byte>>
  {
    var b :- input;
    var i :- SdkInput.ReadInput(b);
    if i.message.IsDeploy() != isInit then None else MessageAnswer(utf8, i, isInit, contract(i))
  }

  /** An answer that fits is delivered; without one, or without room for it, the arena is as before. */
  twostate predicate Dispatched(arena: GuestArena, answer: Option<seq<byte>>, packed: nat)
    requires old(arena.Valid()) && arena.Valid()
    reads arena, arena.bytes
  {
    arena.Delivered(answer, if answer.Some? then |answer.value| else 0, packed)
  }

  /** `dispatch_init` and `dispatch_message`. */
  method DispatchMessage(utf8: seq<byte> -> bool, contract: SdkInput.MessageInput -> MessageOutput, limit: nat,
                         arena: GuestArena, ptr: u32, len: u32, isInit: bool) returns (packed: nat)
    requires arena.Valid() && limit >= U32_END
    modifies arena, arena.bytes
    ensures arena.Valid()
    ensures Dispatched(arena, old(Answer(utf8, contract, isInit, Named(arena, ptr, len))), packed)
  {
    hide SdkInput.ReadInput, ValidMessage, MessageBytes, MessageSize, SizedMessage;
    var input := arena.Read(ptr, len);
    if input.None? {
      return 0;
    }
    var decoded := DecodeMessageInput(input.value);
    if decoded.Err? {
      return 0;
    }
    var i := decoded.value;
    if i.message.IsDeploy() != isInit {
      return 0;
    }
    var m := contract(i);
    var length := OutputLength(utf8, i, isInit, m, limit);
    if length.Err? {
      return 0;
    }
    packed := arena.WriteMessageOutput(length.value, m);
  }

  /** `message_output_len_for`: the length of the answer, if there is one and the machine can count that far. */
  method OutputLength(utf8: seq<byte> -> bool, i: SdkInput.MessageInput, isInit: bool, m: MessageOutput, limit: nat)
    returns (r: Result<nat>)
    requires limit >= U32_END
    ensures r.Ok? <==> ValidContext(i, isInit, m) && ValidMessage(utf8, m, Some(i.mode)) && MessageSize(m) < limit
    ensures r.Ok? ==> r.value == MessageSize(m)
    ensures r.Ok? && r.value < U32_END ==> SizedMessage(m) && |MessageBytes(m)| == r.value
  {
    var _ :- ValidateMessageContext(i, isInit, m);
    var _ :- ValidateMessageShape(utf8, m, Some(i.mode));
    r := MessageLen(m, limit);
    if MessageSize(m) < U32_END {
      ShortIsSized(utf8, m, Some(i.mode));
    }
  }

  // Batches.

  /** The parts a decoded batch is handed out as. */
  ghost function ViewOf(i: SdkBatch.BatchInput): BatchView
    requires SdkBatch.ValidBatch(i)
  {
    SdkBatch.ValidBatchTable(i);
    BatchView(i.context, i.target, i.extra, i.state,
              Blocks.Flat(SdkBatch.OffsetRows(SdkBatch.Offsets(i.messages, 0)), 4), SdkBatch.Blob(i.messages),
              |i.messages|, i.results)
  }

  ghost function AnswerBatch(utf8: seq<byte> -> bool, contract: BatchView -> BatchOutput,
                             input: Option<seq<byte>>): Option<seq<byte>>
  {
    var b :- input;
    if SdkBatch.ReadBatch(b).None? then None else
      var i := SdkBatch.ReadBatch(b).value;
      SdkBatch.BatchExact(b, i);
      BatchAnswer(utf8, |i.messages|, i.target.mode, contract(ViewOf(i)))
  }

  /** `batch_output_len_for`. */
  method BatchOutputLength(utf8: seq<byte> -> bool, count: nat, mode: Mode, b: BatchOutput,
                           limit: nat) returns (r: Result<nat>)
    requires limit >= U32_END
    ensures r.Ok? <==> ValidBatchContext(count, b) && ValidBatch(utf8, b, Some(mode)) && BatchSize(b) < limit
    ensures r.Ok? ==> r.value == BatchSize(b)
    ensures r.Ok? && r.value < U32_END ==> SizedBatch(b) && |BatchBytes(b)| == r.value
  {
    var _ :- ValidateBatchContext(count, b);
    var _ :- ValidateBatchShape(utf8, b, Some(mode));
    r := BatchLen(b, limit);
    if BatchSize(b) < U32_END {
      ShortBatchIsSized(utf8, b, Some(mode));
    }
  }

  /** `dispatch_batch`. */
  method DispatchBatch(utf8: seq<byte> -> bool, contract: BatchView -> BatchOutput, limit: nat,
                       arena: GuestArena, ptr: u32, len: u32) returns (packed: nat)
    requires arena.Valid() && limit >= U32_END
    modifies arena, arena.bytes
    ensures arena.Valid()
    ensures Dispatched(arena, old(AnswerBatch(utf8, contract, Named(arena, ptr, len))), packed)
  {
    hide SdkBatch.ReadBatch, ValidBatch, BatchBytes, BatchSize, SizedBatch;
    var input := arena.Read(ptr, len);
    if input.None? {
      return 0;
    }
    var decoded := DecodeBatchInput(input.value);
    if decoded.Err? {
      return 0;
    }
    var view := decoded.value;
    SdkBatch.BatchExact(input.value, SdkBatch.ReadBatch(input.value).value);
    assert view == ViewOf(SdkBatch.ReadBatch(input.value).value);
    var b := contract(view);
    var length := BatchOutputLength(utf8, view.count, view.target.mode, b, limit);
    if length.Err? {
      return 0;
    }
    packed := arena.WriteBatchOutput(length.value, b);
  }
}
