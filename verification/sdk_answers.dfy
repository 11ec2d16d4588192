/**
 * Reading a whole output back: the host finds an output in the bytes exactly when they are its serialisation, so what
 * the entrypoints leave in the arena is what the contract returned; and where each field of a record stands.
 */
module SdkAnswers {
  import opened Bytes
  import opened Sdk
  import opened Buffers
  import opened Wire
  import opened SdkUpdates
  import opened SdkCurrencies
  import opened SdkOutput
  import opened SdkReadback
  import opened SdkDispatch
  import Blocks
  import SdkArena
  import SdkBatch
  import SdkBatchDecoder
  import SdkInput
  import Sums

  function TakeOptionalUpdate(b: seq<byte>, present: bool): Option<(Option<StateUpdate>, seq<byte>)> {
    if !present then Some((None, b)) else
      var (u, rest) :- TakeUpdate(b);
      Some((Some(u), rest))
  }

  lemma OptionalUpdateExact(b: seq<byte>, u: Option<StateUpdate>, rest: seq<byte>)
    ensures TakeOptionalUpdate(b, u.Some?) == Some((u, rest)) <==>
            (u.Some? ==> SizedUpdate(u.value)) && b == OptionalUpdateBytes(u) + rest
  {
    hide TakeUpdate, UpdateBytes, SizedUpdate;
    match u
    case None => assert [] + rest == rest;
    case Some(v) =>
      UpdateExact(b, v, rest);
      if TakeUpdate(b).Some? {
        var (w, b1) := TakeUpdate(b).value;
        UpdateExact(b, w, b1);
      }
  }

  function TakeUpgrade(b: seq<byte>, present: bool): Option<(Option<UpgradeIntent>, seq<byte>)> {
    if !present then Some((None, b)) else
      var (target, b1) :- TakeId(b);
      var (codeHash, rest) :- TakeId(b1);
      Some((Some(UpgradeIntent(target, codeHash)), rest))
  }

  lemma UpgradeExact(b: seq<byte>, u: Option<UpgradeIntent>, rest: seq<byte>)
    ensures TakeUpgrade(b, u.Some?) == Some((u, rest)) <==> b == UpgradeBytes(u) + rest
  {
    match u
    case None => assert [] + rest == rest;
    case Some(v) =>
      var target: seq<byte> := v.target;
      NestTwo(target, v.codeHash, rest);
      IdExact(b, v.target, v.codeHash + rest);
      IdExact(v.codeHash + rest, v.codeHash, rest);
      if TakeUpgrade(b, true) == Some((u, rest)) {
        var (t, b1) := TakeId(b).value;
        IdExact(b, t, b1);
        IdExact(b1, v.codeHash, rest);
      }
  }

  /** What comes before the effects. */
  datatype Head = Head(status: u32, update: Option<StateUpdate>, upgraded: bool, result: seq<byte>)

  function TakeHead(b: seq<byte>): Option<(Head, seq<byte>)> {
    var b1 :- SdkInput.TakeMagic(b, [0x41, 0x43, 0x4d, 0x4f]);
    var (status, b2) :- Take32(b1);
    var (flags, b3) :- TakeByte(b2);
    if flags > 3 then None else
      var (update, b4) :- TakeOptionalUpdate(b3, flags % 2 == 1);
      var (result, rest) :- TakePrefixed(b4);
      Some((Head(status, update, flags / 2 == 1, result), rest))
  }

  function HeadOf(m: MessageOutput): Head { Head(m.status, m.update, m.upgrade.Some?, m.result) }

  predicate SizedHead(h: Head) { (h.update.Some? ==> SizedUpdate(h.update.value)) && |h.result| < U32_END }

  function FlagsOf(h: Head): byte { (if h.update.Some? then 1 else 0) + (if h.upgraded then 2 else 0) }

  function HeadPrint(h: Head): seq<byte>
    requires SizedHead(h)
  {
    [0x41, 0x43, 0x4d, 0x4f] + (Le32(h.status) + ([FlagsOf(h)] + (OptionalUpdateBytes(h.update) + Prefixed(h.result))))
  }

  lemma HeadExact(b: seq<byte>, h: Head, rest: seq<byte>)
    ensures TakeHead(b) == Some((h, rest)) <==> SizedHead(h) && b == HeadPrint(h) + rest
  {
    hide TakeHead, HeadPrint;
    if SizedHead(h) && b == HeadPrint(h) + rest {
      PrintedHeadReads(h, rest);
    }
    if TakeHead(b) == Some((h, rest)) {
      ReadHeadPrints(b, h, rest);
    }
  }

  lemma HeadSplits(h: Head, rest: seq<byte>)
    requires SizedHead(h)
    ensures HeadPrint(h) + rest == [0x41, 0x43, 0x4d, 0x4f] +
            (Le32(h.status) + ([FlagsOf(h)] + (OptionalUpdateBytes(h.update) + (Prefixed(h.result) + rest))))
  {
    hide Le, OptionalUpdateBytes, Prefixed, SizedUpdate;
    var magic: seq<byte> := [0x41, 0x43, 0x4d, 0x4f];
    var s, f, u, r := Le32(h.status), [FlagsOf(h)], OptionalUpdateBytes(h.update), Prefixed(h.result);
    NestFive(magic, s, f, u, r, rest);
    NestFour(magic, s, f, u, r);
  }

  lemma PrintedHeadReads(h: Head, rest: seq<byte>)
    requires SizedHead(h)
    ensures TakeHead(HeadPrint(h) + rest) == Some((h, rest))
  {
    hide TakeOptionalUpdate, OptionalUpdateBytes, TakePrefixed, Prefixed, SdkInput.TakeMagic, HeadPrint, SizedUpdate;
    HeadSplits(h, rest);
    var b4 := Prefixed(h.result) + rest;
    var b3 := OptionalUpdateBytes(h.update) + b4;
    var b2 := [FlagsOf(h)] + b3;
    var b1 := Le32(h.status) + b2;
    SdkInput.MagicExact(HeadPrint(h) + rest, [0x41, 0x43, 0x4d, 0x4f], b1);
    Exact32(b1, h.status, b2);
    ByteExact(b2, FlagsOf(h), b3);
    OptionalUpdateExact(b3, h.update, b4);
    PrefixedExact(b4, h.result, rest);
  }

  lemma ReadHeadPrints(b: seq<byte>, h: Head, rest: seq<byte>)
    requires TakeHead(b) == Some((h, rest))
    ensures SizedHead(h) && b == HeadPrint(h) + rest
  {
    hide OptionalUpdateBytes, TakePrefixed, Prefixed, SdkInput.TakeMagic, HeadPrint, SizedUpdate, TakeUpdate;
    var b1 := SdkInput.TakeMagic(b, [0x41, 0x43, 0x4d, 0x4f]).value;
    var (status, b2) := Take32(b1).value;
    var (flags, b3) := TakeByte(b2).value;
    var (update, b4) := TakeOptionalUpdate(b3, flags % 2 == 1).value;
    var (result, b5) := TakePrefixed(b4).value;
    SdkInput.MagicExact(b, [0x41, 0x43, 0x4d, 0x4f], b1);
    Exact32(b1, status, b2);
    ByteExact(b2, flags, b3);
    OptionalUpdateExact(b3, update, b4);
    PrefixedExact(b4, result, b5);
    assert FlagsOf(h) == flags;
    HeadSplits(h, rest);
  }

  /** The host's reader of a message output: every part in turn, and nothing after them. */
  function ReadOutput(b: seq<byte>): Option<MessageOutput> {
    var (h, b1) :- TakeHead(b);
    var (outbound, b2) :- TakeOutbound(b1);
    var (callbacks, b3) :- TakeCallbacks(b2);
    var (events, b4) :- TakeEvents(b3);
    var (upgrade, rest) :- TakeUpgrade(b4, h.upgraded);
    if rest == [] then Some(MessageOutput(h.status, h.update, h.result, outbound, callbacks, events, upgrade)) else None
  }

  lemma MessageSplits(m: MessageOutput)
    requires SizedMessage(m)
    ensures MessageBytes(m) == HeadPrint(HeadOf(m)) +
            (OutboundBytes(m.outbound) + ((Le32(|m.callbacks|) + CallbacksBytes(m.callbacks))
              + (EventsBytes(m.events) + UpgradeBytes(m.upgrade))))
  {
    hide Le, OptionalUpdateBytes, OutboundBytes, CallbacksBytes, EventsBytes, UpgradeBytes, SizedUpdate, SizedOutbound,
         SizedEvents;
    var s, f, u, r := Le32(m.status), [Flags(m)], OptionalUpdateBytes(m.update), Le32(|m.result|) + m.result;
    NestFour(ACMO, s, f, u, r);
    assert HeadBytes(m) + r == HeadPrint(HeadOf(m));
    var o, c, e, g := OutboundBytes(m.outbound), Le32(|m.callbacks|) + CallbacksBytes(m.callbacks),
      EventsBytes(m.events), UpgradeBytes(m.upgrade);
    NestThree(o, c, e, g);
  }

  /**
   * A message output is read back exactly: the bytes give back this output if and only if they are its serialisation,
   * so no other output has those bytes and no byte of them is lost.
   */
  lemma OutputExact(b: seq<byte>, m: MessageOutput)
    ensures ReadOutput(b) == Some(m) <==> SizedMessage(m) && b == MessageBytes(m)
  {
    hide ReadOutput, MessageBytes;
    if SizedMessage(m) && b == MessageBytes(m) {
      PrintedOutputReads(m);
    }
    if ReadOutput(b) == Some(m) {
      ReadOutputPrints(b, m);
    }
  }

  lemma PrintedOutputReads(m: MessageOutput)
    requires SizedMessage(m)
    ensures ReadOutput(MessageBytes(m)) == Some(m)
  {
    hide TakeHead, HeadPrint, TakeOutbound, OutboundBytes, TakeCallbacks, CallbacksBytes, TakeEvents, EventsBytes,
         TakeUpgrade, UpgradeBytes, MessageBytes, SizedUpdate, SizedOutbound, SizedEvents;
    MessageSplits(m);
    var b4 := UpgradeBytes(m.upgrade);
    var b3 := EventsBytes(m.events) + b4;
    var b2 := (Le32(|m.callbacks|) + CallbacksBytes(m.callbacks)) + b3;
    var b1 := OutboundBytes(m.outbound) + b2;
    HeadExact(MessageBytes(m), HeadOf(m), b1);
    OutboundExact(b1, m.outbound, b2);
    CallbacksExact(b2, m.callbacks, b3);
    EventsExact(b3, m.events, b4);
    assert b4 + [] == b4;
    UpgradeExact(b4, m.upgrade, []);
  }

  lemma ReadOutputPrints(b: seq<byte>, m: MessageOutput)
    requires ReadOutput(b) == Some(m)
    ensures SizedMessage(m) && b == MessageBytes(m)
  {
    hide TakeHead, HeadPrint, TakeOutbound, OutboundBytes, TakeCallbacks, CallbacksBytes, TakeEvents, EventsBytes,
         UpgradeBytes, MessageBytes, SizedUpdate, SizedOutbound, SizedEvents;
    var (h, b1) := TakeHead(b).value;
    var (outbound, b2) := TakeOutbound(b1).value;
    var (callbacks, b3) := TakeCallbacks(b2).value;
    var (events, b4) := TakeEvents(b3).value;
    var (upgrade, rest) := TakeUpgrade(b4, h.upgraded).value;
    HeadExact(b, h, b1);
    OutboundExact(b1, outbound, b2);
    CallbacksExact(b2, callbacks, b3);
    EventsExact(b3, events, b4);
    assert upgrade.Some? == h.upgraded;
    UpgradeExact(b4, upgrade, rest);
    assert UpgradeBytes(upgrade) + [] == UpgradeBytes(upgrade);
    MessageSplits(m);
  }

  /** The host's reader of a batch output. */
  function ReadBatchOutput(b: seq<byte>): Option<BatchOutput> {
    var b1 :- SdkInput.TakeMagic(b, [0x41, 0x43, 0x42, 0x4f]);
    var (update, b2) :- TakeUpdate(b1);
    var (statuses, b3) :- TakeStatuses(b2);
    var (outbound, b4) :- TakeOutbound(b3);
    var (events, rest) :- TakeEvents(b4);
    if rest == [] then Some(BatchOutput(update, statuses, outbound, events)) else None
  }

  lemma BatchSplits(o: BatchOutput)
    requires SizedBatch(o)
    ensures BatchBytes(o) == [0x41, 0x43, 0x42, 0x4f] + (UpdateBytes(o.update)
            + ((Le32(|o.statuses|) + StatusesBytes(o.statuses)) + (OutboundBytes(o.outbound) + EventsBytes(o.events))))
  {
    hide Le, UpdateBytes, OutboundBytes, StatusesBytes, EventsBytes, SizedUpdate, SizedOutbound, SizedEvents;
    NestFour(ACBO, UpdateBytes(o.update), Le32(|o.statuses|) + StatusesBytes(o.statuses), OutboundBytes(o.outbound),
      EventsBytes(o.events));
  }

  /** A batch output is read back exactly, with every status, message and event in its place. */
  lemma BatchOutputExact(b: seq<byte>, o: BatchOutput)
    ensures ReadBatchOutput(b) == Some(o) <==> SizedBatch(o) && b == BatchBytes(o)
  {
    hide ReadBatchOutput, BatchBytes;
    if SizedBatch(o) && b == BatchBytes(o) {
      PrintedBatchReads(o);
    }
    if ReadBatchOutput(b) == Some(o) {
      ReadBatchPrints(b, o);
    }
  }

  lemma PrintedBatchReads(o: BatchOutput)
    requires SizedBatch(o)
    ensures ReadBatchOutput(BatchBytes(o)) == Some(o)
  {
    hide SdkInput.TakeMagic, TakeUpdate, UpdateBytes, TakeStatuses, StatusesBytes, TakeOutbound, OutboundBytes,
         TakeEvents, EventsBytes, BatchBytes, SizedUpdate, SizedOutbound, SizedEvents;
    BatchSplits(o);
    var b4 := EventsBytes(o.events);
    var b3 := OutboundBytes(o.outbound) + b4;
    var b2 := (Le32(|o.statuses|) + StatusesBytes(o.statuses)) + b3;
    var b1 := UpdateBytes(o.update) + b2;
    SdkInput.MagicExact(BatchBytes(o), [0x41, 0x43, 0x42, 0x4f], b1);
    UpdateExact(b1, o.update, b2);
    StatusesExact(b2, o.statuses, b3);
    OutboundExact(b3, o.outbound, b4);
    assert b4 + [] == b4;
    EventsExact(b4, o.events, []);
  }

  lemma ReadBatchPrints(b: seq<byte>, o: BatchOutput)
    requires ReadBatchOutput(b) == Some(o)
    ensures SizedBatch(o) && b == BatchBytes(o)
  {
    hide SdkInput.TakeMagic, TakeUpdate, UpdateBytes, TakeStatuses, StatusesBytes, TakeOutbound, OutboundBytes,
         TakeEvents, EventsBytes, BatchBytes, SizedUpdate, SizedOutbound, SizedEvents;
    var b1 := SdkInput.TakeMagic(b, [0x41, 0x43, 0x42, 0x4f]).value;
    var (update, b2) := TakeUpdate(b1).value;
    var (statuses, b3) := TakeStatuses(b2).value;
    var (outbound, b4) := TakeOutbound(b3).value;
    var (events, rest) := TakeEvents(b4).value;
    SdkInput.MagicExact(b, [0x41, 0x43, 0x42, 0x4f], b1);
    UpdateExact(b1, update, b2);
    StatusesExact(b2, statuses, b3);
    OutboundExact(b3, outbound, b4);
    EventsExact(b4, events, rest);
    assert EventsBytes(events) + [] == EventsBytes(events);
    BatchSplits(o);
  }

  // Where the fields stand.

  /** Mode at 0, zeros to 4, length or count from 4, the state or the patches from 8. */
  lemma UpdatePositions(u: StateUpdate)
    requires SizedUpdate(u)
    ensures var b := UpdateBytes(u);
      && |b| >= 8 && b[1..4] == [0, 0, 0]
      && (u.Full? ==> b[0] == 0 && b[4..8] == Le32(|u.state|) && b[8..] == u.state)
      && (u.Patches? ==> b[0] == 1 && b[4..6] == Le16(|u.patches|) && b[6..8] == [0, 0]
                         && b[8..] == PatchesBytes(u.patches))
  {
    hide PatchesBytes, Sums.Sum;
    var b := UpdateBytes(u);
    assert b[..1] == [b[0]];
    if u.Patches? {
      assert b[4..] == Le16(|u.patches|) + Le16(0) + PatchesBytes(u.patches);
      assert b[4..][..2] == Le16(|u.patches|) && b[4..][2..4] == Le16(0) && b[4..][4..] == PatchesBytes(u.patches);
      Le16Zero();
    } else {
      assert b[4..] == Le32(|u.state|) + u.state;
    }
  }

  /** Offset, replaced length, new length, new bytes. */
  lemma PatchPositions(p: StatePatch)
    requires SizedPatch(p)
    ensures var b := PatchBytes(p);
      b[..4] == Le32(p.offset) && b[4..8] == Le32(p.oldLen) && b[8..12] == Le32(|p.newBytes|) && b[12..] == p.newBytes
  {
  }

  /** Input index, DApp, account, fuel, number of currencies; then the currencies, method and body. */
  lemma IntentPositions(o: OutboundIntent)
    requires SizedIntent(o)
    ensures var b := IntentBytes(o);
      && b[..4] == Le32(o.inputIndex) && b[4..36] == o.destination.dapp && b[36..68] == o.destination.account
      && b[68..84] == Le128(o.fuel) && b[84..86] == Le16(|o.extra|)
      && var at := 86 + 20 * |o.extra|;
      && b[86..at] == ExtraBytes(o.extra) && b[at..at + 8] == Le64(o.methodId)
      && b[at + 8..at + 12] == Le32(|o.body|) && b[at + 12..] == o.body
  {
    hide ExtraBytes, Le;
    var b := IntentBytes(o);
    var front := Le32(o.inputIndex) + AddressBytes(o.destination) + Le128(o.fuel) + Le16(|o.extra|);
    assert b[..86] == front;
    assert front[..4] == Le32(o.inputIndex) && front[4..68] == AddressBytes(o.destination)
        && front[68..84] == Le128(o.fuel) && front[84..] == Le16(|o.extra|);
    assert front[4..68][..32] == o.destination.dapp && front[4..68][32..] == o.destination.account;
  }

  /** Currency id before its amount. */
  lemma CurrencyPositions(extra: seq<Currency>, k: nat)
    requires k < |extra|
    ensures 20 * k + 20 <= |ExtraBytes(extra)|
    ensures ExtraBytes(extra)[20 * k..20 * k + 20] == Le32(extra[k].id) + Le128(extra[k].amount)
  {
    Blocks.FlatRow(CurrencyRows(extra), 20, k);
  }

  /** Input index, kind, class, name behind its length, topics behind their number, fields behind their length. */
  lemma EventPositions(e: EventIntent)
    requires SizedEvent(e)
    ensures var b, n := EventBytes(e), |e.name|;
      && b[..4] == Le32(e.inputIndex) && b[4] == (if e.kind == ExternalEvent then 0 else 1)
      && b[5..13] == Le64(e.eventClass) && b[13..15] == Le16(n) && b[15..15 + n] == e.name
      && b[15 + n..17 + n] == Le16(|e.topics|)
      && var at := 17 + n + |TopicsBytes(e.topics)|;
      && b[17 + n..at] == TopicsBytes(e.topics) && b[at..at + 4] == Le32(|e.fields|) && b[at + 4..] == e.fields
  {
    hide TopicsBytes, Le, Sums.Sum;
    var b, n := EventBytes(e), |e.name|;
    var kind: seq<byte> := [if e.kind == ExternalEvent then 0 else 1];
    assert b[..13] == Le32(e.inputIndex) + kind + Le64(e.eventClass);
    assert b[..13][..4] == Le32(e.inputIndex) && b[..13][4] == kind[0] && b[..13][5..] == Le64(e.eventClass);
  }

  /** Outbound index before the handler. */
  lemma CallbackPositions(c: CallbackIntent)
    ensures CallbackBytes(c)[..4] == Le32(c.outboundIndex) && CallbackBytes(c)[4..12] == Le64(c.handler)
  {
  }

  /** The magic word, the status, the flags for update and upgrade, and the upgrade in the last 64 bytes. */
  lemma OutputPositions(m: MessageOutput)
    requires SizedMessage(m)
    ensures var b := MessageBytes(m);
      && |b| >= 9 && b[..4] == [0x41, 0x43, 0x4d, 0x4f] && b[4..8] == Le32(m.status)
      && (b[8] % 2 == 1 <==> m.update.Some?) && (b[8] / 2 == 1 <==> m.upgrade.Some?) && b[8] < 4
      && (m.update.Some? ==> b[9..9 + |UpdateBytes(m.update.value)|] == UpdateBytes(m.update.value))
      && (m.upgrade.Some? ==>
            |b| >= 64 && b[|b| - 64..|b| - 32] == m.upgrade.value.target && b[|b| - 32..] == m.upgrade.value.codeHash)
  {
    hide Le, OutboundBytes, CallbacksBytes, EventsBytes, SizedUpdate, SizedOutbound, SizedEvents, UpdateBytes;
    var h, r, e := HeadBytes(m), Le32(|m.result|) + m.result, EffectBytes(m);
    var b := MessageBytes(m);
    assert b[..|h|] == h;
    assert h[..9] == ACMO + Le32(m.status) + [Flags(m)];
    assert h[..4] == ACMO && h[4..8] == Le32(m.status) && h[8] == Flags(m);
    assert h[9..] == OptionalUpdateBytes(m.update);
    if m.upgrade.Some? {
      var g := UpgradeBytes(m.upgrade);
      assert e[|e| - 64..] == g;
      assert b[|b| - 64..] == g;
      assert g[..32] == m.upgrade.value.target && g[32..] == m.upgrade.value.codeHash;
    }
  }

  // The entrypoints.

  /** Whatever answer the single-message entrypoint produces reads back as what the contract returned. */
  lemma AnswerReadsBack(utf8: seq<byte> -> bool, contract: SdkInput.MessageInput -> MessageOutput, isInit: bool,
                        input: seq<byte>)
    requires Answer(utf8, contract, isInit, Some(input)).Some?
    ensures SdkInput.ReadInput(input).Some?
    ensures ReadOutput(Answer(utf8, contract, isInit, Some(input)).value)
            == Some(contract(SdkInput.ReadInput(input).value))
  {
    hide SdkInput.ReadInput, MessageBytes, ReadOutput, MessageSize;
    var i := SdkInput.ReadInput(input).value;
    ShortIsSized(utf8, contract(i), Some(i.mode));
    OutputExact(MessageBytes(contract(i)), contract(i));
  }

  /** The same for batches. */
  lemma BatchAnswerReadsBack(utf8: seq<byte> -> bool, contract: SdkBatchDecoder.BatchView -> BatchOutput,
                             input: seq<byte>)
    requires AnswerBatch(utf8, contract, Some(input)).Some?
    ensures SdkBatch.ReadBatch(input).Some? && SdkBatch.ValidBatch(SdkBatch.ReadBatch(input).value)
    ensures ReadBatchOutput(AnswerBatch(utf8, contract, Some(input)).value)
            == Some(contract(ViewOf(SdkBatch.ReadBatch(input).value)))
  {
    hide SdkBatch.ReadBatch, BatchBytes, ReadBatchOutput, BatchSize;
    var i := SdkBatch.ReadBatch(input).value;
    SdkBatch.BatchExact(input, i);
    var o := contract(ViewOf(i));
    ShortBatchIsSized(utf8, o, Some(i.target.mode));
    BatchOutputExact(BatchBytes(o), o);
  }

  /**
   * After a successful call of the single-message entrypoint, the region its result names lies right above what was
   * live before, and reading it gives what the contract returned for the decoded input.
   */
  twostate lemma DeliveredReadsBack(utf8: seq<byte> -> bool, contract: SdkInput.MessageInput -> MessageOutput,
                                    isInit: bool, arena: SdkArena.GuestArena, input: seq<byte>, packed: nat)
    requires old(arena.Valid()) && arena.Valid() && packed != 0
    requires Dispatched(arena, Answer(utf8, contract, isInit, Some(input)), packed)
    ensures old(arena.next) <= arena.next && arena.next <= arena.bytes.Length && SdkInput.ReadInput(input).Some?
    ensures ReadOutput(arena.bytes[old(arena.next)..arena.next]) == Some(contract(SdkInput.ReadInput(input).value))
    ensures arena.base.Some? && packed / U32_END == arena.base.value + old(arena.next)
    ensures packed % U32_END == arena.next - old(arena.next)
  {
    hide SdkInput.ReadInput, Answer, ReadOutput, Sums.Sum;
    AnswerReadsBack(utf8, contract, isInit, input);
    var answer := Answer(utf8, contract, isInit, Some(input)).value;
    assert arena.bytes[old(arena.next)..arena.next] == arena.Contents()[old(arena.next)..] == answer;
  }

  /** After a successful batch call, reading the new region gives what the contract returned for the decoded batch. */
  twostate lemma DeliveredBatchReadsBack(utf8: seq<byte> -> bool, contract: SdkBatchDecoder.BatchView -> BatchOutput,
                                         arena: SdkArena.GuestArena, input: seq<byte>, packed: nat)
    requires old(arena.Valid()) && arena.Valid() && packed != 0
    requires Dispatched(arena, AnswerBatch(utf8, contract, Some(input)), packed)
    ensures old(arena.next) <= arena.next && arena.next <= arena.bytes.Length
    ensures SdkBatch.ReadBatch(input).Some? && SdkBatch.ValidBatch(SdkBatch.ReadBatch(input).value)
    ensures ReadBatchOutput(arena.bytes[old(arena.next)..arena.next])
            == Some(contract(ViewOf(SdkBatch.ReadBatch(input).value)))
    ensures arena.base.Some? && packed / U32_END == arena.base.value + old(arena.next)
    ensures packed % U32_END == arena.next - old(arena.next)
  {
    hide SdkBatch.ReadBatch, AnswerBatch, ReadBatchOutput, Sums.Sum;
    BatchAnswerReadsBack(utf8, contract, input);
    var answer := AnswerBatch(utf8, contract, Some(input)).value;
    assert arena.bytes[old(arena.next)..arena.next] == arena.Contents()[old(arena.next)..] == answer;
  }
}
