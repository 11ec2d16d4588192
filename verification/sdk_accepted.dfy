/** Which inputs the decoders accept, condition by condition: some bytes decode to an input exactly if this holds. */
module SdkAccepted {
  import opened Bytes
  import opened Sdk
  import opened Admission
  import opened SdkMessages
  import SdkInput
  import SdkBatch

  predicate Ascending(extra: seq<Currency>) {
    |extra| < 0x1_0000 && forall j, k :: 0 <= j < k < |extra| ==> extra[j].id < extra[k].id
  }

  /** Keys in the order of DApp, account and class, each after the one just before it. */
  predicate AscendingReads(rs: seq<EventRead>) {
    forall k | 0 < k < |rs| ::
      var a, b := rs[k - 1], rs[k];
      || Less(a.source.dapp, b.source.dapp)
      || (a.source.dapp == b.source.dapp && Less(a.source.account, b.source.account))
      || (a.source == b.source && a.eventClass < b.eventClass)
  }

  /**
   * A callback names a cause at this very account, does not deploy and asks for no callback; a success answers a real
   * method and a failure has no body.
   */
  predicate CallbackFits(m: InternalMessage, c: CallbackHeader) {
    && c.causeHash != ZERO32 && c.causeAddress == m.destination
    && !m.deploy && m.handler.None?
    && (if c.status == 0 then m.methodId > 0 else m.body == [])
  }

  predicate InternalFits(m: InternalMessage) {
    && Proper(m.source) && Proper(m.destination)
    && (m.callback.Some? ==> CallbackFits(m, m.callback.value))
    && (m.handler.Some? ==> m.handler.value > 0)
    && (m.reads_.Some? ==> 0 < |m.reads_.value| < 0x1_0000 && AscendingReads(m.reads_.value))
    && Ascending(m.extra) && |m.body| < U32_END
  }

  predicate ExternalFits(m: ExternalMessage) {
    Proper(m.destination) && m.pubkey != ZERO32 && Ascending(m.extra) && |m.body| < U32_END && |m.signature| == 64
  }

  predicate MessageFits(m: CanonicalMessage) {
    match m
    case InternalKind(i) => InternalFits(i)
    case ExternalKind(e) => ExternalFits(e)
  }

  function MessageLength(m: CanonicalMessage): nat {
    match m
    case InternalKind(i) =>
      176 + (if i.callback.Some? then 100 else 0) + (if i.handler.Some? then 8 else 0)
      + (if i.reads_.Some? then 4 + 72 * |i.reads_.value| else 0) + 20 * |i.extra| + |i.body|
    case ExternalKind(e) => 192 + 20 * |e.extra| + |e.body| + 64
  }

  /** Some message bytes decode to `m` exactly when `m` is put together like this. */
  lemma MessagesExact(m: CanonicalMessage)
    ensures (exists b :: ReadMessage(b) == Some(m)) <==> MessageFits(m)
  {
    MessageFitsExact(m);
    if ValidMessage(m) {
      MessageExact(MessageBytes(m), m);
    }
    forall b | ReadMessage(b) == Some(m) ensures ValidMessage(m) {
      MessageExact(b, m);
    }
  }

  lemma MessageFitsExact(m: CanonicalMessage)
    ensures ValidMessage(m) <==> MessageFits(m)
  {
    match m
    case InternalKind(i) => InternalFitsExact(i);
    case ExternalKind(_) =>
  }

  lemma InternalFitsExact(m: InternalMessage)
    ensures ValidInternal(m) <==> InternalFits(m)
  {
    FlagBits(m);
    if m.reads_.Some? {
      ReadsOrder(m.reads_.value);
    }
  }

  lemma ReadsOrder(rs: seq<EventRead>)
    ensures AscendingKeys(rs) <==> AscendingReads(rs)
  {
  }

  lemma LengthExact(m: CanonicalMessage)
    requires ValidMessage(m)
    ensures |MessageBytes(m)| == MessageLength(m)
  {
  }

  /** A single-message input: sorted balances, and parts and a message that fit their lengths. */
  predicate InputFits(i: SdkInput.MessageInput) {
    && Ascending(i.extra) && |i.state| < U32_END && |i.results| < U32_END
    && MessageFits(i.message) && MessageLength(i.message) < U32_END
  }

  /** Some bytes decode to this input exactly when it fits; then exactly one byte string does. */
  lemma InputsExact(i: SdkInput.MessageInput)
    ensures (exists b :: SdkInput.ReadInput(b) == Some(i)) <==> InputFits(i)
    ensures forall b, c :: SdkInput.ReadInput(b) == Some(i) && SdkInput.ReadInput(c) == Some(i) ==> b == c
  {
    hide SdkInput.ReadInput, SdkInput.InputBytes, ValidMessage, MessageFits, MessageLength;
    MessageFitsExact(i.message);
    if ValidMessage(i.message) {
      LengthExact(i.message);
    }
    if SdkInput.ValidInput(i) {
      SdkInput.InputExact(SdkInput.InputBytes(i), i);
    }
    forall b | SdkInput.ReadInput(b) == Some(i) ensures SdkInput.ValidInput(i) && b == SdkInput.InputBytes(i) {
      SdkInput.InputExact(b, i);
    }
  }

  /** Messages of a batch go to the batch's account and are neither callbacks nor ask for one. */
  predicate ItemFits(m: CanonicalMessage, destination: Address) {
    && MessageFits(m) && m.Destination() == destination
    && (m.InternalKind? ==> m.internal.callback.None? && m.internal.handler.None?)
  }

  function TotalLength(ms: seq<CanonicalMessage>): nat {
    if ms == [] then 0 else MessageLength(ms[0]) + TotalLength(ms[1..])
  }

  predicate BatchFits(i: SdkBatch.BatchInput) {
    && Ascending(i.extra) && |i.state| < U32_END && |i.results| < U32_END
    && (forall k | 0 <= k < |i.messages| :: ItemFits(i.messages[k], i.target.destination))
    && |i.messages| < U32_END - 1 && TotalLength(i.messages) < U32_END
  }

  lemma {:induction false} BlobLength(ms: seq<CanonicalMessage>)
    requires forall k | 0 <= k < |ms| :: ValidMessage(ms[k])
    ensures |SdkBatch.Blob(ms)| == TotalLength(ms)
  {
    hide ValidMessage, MessageBytes, MessageLength;
    if ms != [] {
      LengthExact(ms[0]);
      BlobLength(ms[1..]);
    }
  }

  lemma ItemsFitExact(ms: seq<CanonicalMessage>, destination: Address)
    ensures SdkBatch.ValidItems(ms, destination) <==> forall k | 0 <= k < |ms| :: ItemFits(ms[k], destination)
  {
    hide ValidMessage, MessageFits;
    forall k | 0 <= k < |ms| ensures SdkBatch.ValidItem(ms[k], destination) <==> ItemFits(ms[k], destination) {
      MessageFitsExact(ms[k]);
    }
  }

  /** Some bytes decode to this batch exactly when it fits; then exactly one byte string does. */
  lemma BatchesExact(i: SdkBatch.BatchInput)
    ensures (exists b :: SdkBatch.ReadBatch(b) == Some(i)) <==> BatchFits(i)
    ensures forall b, c :: SdkBatch.ReadBatch(b) == Some(i) && SdkBatch.ReadBatch(c) == Some(i) ==> b == c
  {
    hide SdkBatch.ReadBatch, SdkBatch.BatchBytes, SdkBatch.ValidItem, ItemFits, SdkBatch.Blob, TotalLength;
    ItemsFitExact(i.messages, i.target.destination);
    if SdkBatch.ValidItems(i.messages, i.target.destination) {
      ItemsAreMessages(i.messages, i.target.destination);
      BlobLength(i.messages);
    }
    if SdkBatch.ValidBatch(i) {
      SdkBatch.BatchExact(SdkBatch.BatchBytes(i), i);
    }
    forall b | SdkBatch.ReadBatch(b) == Some(i) ensures SdkBatch.ValidBatch(i) && b == SdkBatch.BatchBytes(i) {
      SdkBatch.BatchExact(b, i);
    }
  }

  lemma ItemsAreMessages(ms: seq<CanonicalMessage>, destination: Address)
    requires SdkBatch.ValidItems(ms, destination)
    ensures forall k | 0 <= k < |ms| :: ValidMessage(ms[k])
  {
    forall k | 0 <= k < |ms| ensures ValidMessage(ms[k]) {
      assert SdkBatch.ValidItem(ms[k], destination);
    }
  }
}
