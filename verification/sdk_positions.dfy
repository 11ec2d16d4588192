/** Where each field of the input envelopes, the messages and the event fields stands. */
module SdkPositions {
  import opened Bytes
  import opened Sdk
  import opened Blocks
  import opened Buffers
  import opened Wire
  import opened SdkUpdates
  import opened SdkMessages
  import opened Positions
  import SdkInput
  import SdkBatch
  import EventFields
  import SdkSeen
  import SdkCurrencies

  lemma ContextStands(c: SdkInput.Context)
    ensures var b := SdkInput.ContextBytes(c);
      && |b| == 48 && Has(b, 0, Le64(c.blockLt)) && Has(b, 8, Le32(c.blockTime)) && Has(b, 12, Le32(c.sequence))
      && Has(b, 16, c.rand)
  {
  }

  lemma OriginStands(o: SdkInput.Origin)
    ensures var b := SdkInput.OriginBytes(o);
      && |b| == 104 && b[0] == o.kind && Has(b, 1, Zeros(7)) && Has(b, 8, o.dapp) && Has(b, 40, o.account)
      && Has(b, 72, o.pubkey)
  {
  }

  lemma TargetStands(t: SdkInput.Target)
    ensures var b := SdkInput.TargetBytes(t);
      && |b| == 104 && HasAddress(b, 0, t.destination) && Has(b, 64, t.codeId)
      && b[96] == (if t.mode == FullReplace then 0 else 1) && Has(b, 97, Zeros(7))
  {
    AddressStands(SdkInput.TargetBytes(t), 0, t.destination);
  }

  /** The single-message envelope: magic, context, caller, destination and code; then four lengths with their bytes. */
  lemma InputStands(i: SdkInput.MessageInput)
    requires SdkInput.ValidInput(i)
    ensures var b := SdkInput.InputBytes(i);
      && Has(b, 0, [0x41, 0x43, 0x4d, 0x49]) && Has(b, 4, SdkInput.ContextBytes(i.context))
      && Has(b, 52, SdkInput.OriginBytes(SdkInput.OriginOf(i.message)))
      && Has(b, 156, SdkInput.TargetBytes(SdkInput.Target(i.message.Destination(), i.codeId, i.mode)))
      && Has(b, 260, Le16(|i.extra|)) && Has(b, 262, SdkCurrencies.ExtraBytes(i.extra))
      && var at := 262 + 20 * |i.extra|;
      && Has(b, at, Le32(|i.state|)) && Has(b, at + 4, i.state)
      && var next := at + 4 + |i.state|;
      && Has(b, next, Le32(|MessageBytes(i.message)|)) && Has(b, next + 4, MessageBytes(i.message))
      && var last := next + 4 + |MessageBytes(i.message)|;
      && Has(b, last, Le32(|i.results|)) && Has(b, last + 4, i.results) && |b| == last + 4 + |i.results|
  {
    hide SdkInput.ContextBytes, SdkInput.OriginBytes, SdkInput.TargetBytes, SdkCurrencies.ExtraBytes, MessageBytes, Le,
         SdkInput.OriginOf, SdkInput.ValidInput;
    FrontStands(i);
    TailStands(i, SdkInput.FrontBytes(i));
  }

  lemma FrontStands(i: SdkInput.MessageInput)
    ensures var b := SdkInput.FrontBytes(i);
      && |b| == 260 && Has(b, 0, [0x41, 0x43, 0x4d, 0x49]) && Has(b, 4, SdkInput.ContextBytes(i.context))
      && Has(b, 52, SdkInput.OriginBytes(SdkInput.OriginOf(i.message)))
      && Has(b, 156, SdkInput.TargetBytes(SdkInput.Target(i.message.Destination(), i.codeId, i.mode)))
  {
    hide SdkInput.ContextBytes, SdkInput.OriginBytes, SdkInput.TargetBytes, SdkInput.OriginOf;
    ContextStands(i.context);
    OriginStands(SdkInput.OriginOf(i.message));
    TargetStands(SdkInput.Target(i.message.Destination(), i.codeId, i.mode));
  }

  lemma TailStands(i: SdkInput.MessageInput, front: seq<byte>)
    requires SdkInput.ValidInput(i) && front == SdkInput.FrontBytes(i)
    ensures var b, f := SdkInput.InputBytes(i), |front|;
      && |b| >= f && b[..f] == front
      && Has(b, f, Le16(|i.extra|)) && Has(b, f + 2, SdkCurrencies.ExtraBytes(i.extra))
      && var at := f + 2 + 20 * |i.extra|;
      && Has(b, at, Le32(|i.state|)) && Has(b, at + 4, i.state)
      && var next := at + 4 + |i.state|;
      && Has(b, next, Le32(|MessageBytes(i.message)|)) && Has(b, next + 4, MessageBytes(i.message))
      && var last := next + 4 + |MessageBytes(i.message)|;
      && Has(b, last, Le32(|i.results|)) && Has(b, last + 4, i.results) && |b| == last + 4 + |i.results|
  {
    hide SdkInput.FrontBytes, SdkCurrencies.ExtraBytes, MessageBytes, Le, ValidMessage, Has;
    var m := MessageBytes(i.message);
    var b, x := SdkInput.InputBytes(i), SdkCurrencies.ExtraBytes(i.extra);
    var p1 := front + Le16(|i.extra|);
    var p2 := p1 + x;
    var p3 := p2 + Le32(|i.state|);
    var p4 := p3 + i.state;
    var p5 := p4 + Le32(|m|);
    var p6 := p5 + m;
    var p7 := p6 + Le32(|i.results|);
    InputIsFlat(i, front, m);
    Appended(b, p7, i.results);
    Appended(b, p6, Le32(|i.results|));
    Appended(b, p5, m);
    Appended(b, p4, Le32(|m|));
    Appended(b, p3, i.state);
    Appended(b, p2, Le32(|i.state|));
    Appended(b, p1, x);
    Appended(b, front, Le16(|i.extra|));
  }

  lemma InputIsFlat(i: SdkInput.MessageInput, front: seq<byte>, m: seq<byte>)
    requires SdkInput.ValidInput(i) && front == SdkInput.FrontBytes(i) && m == MessageBytes(i.message)
    ensures SdkInput.InputBytes(i) == front + Le16(|i.extra|) + SdkCurrencies.ExtraBytes(i.extra) + Le32(|i.state|)
            + i.state + Le32(|m|) + m + Le32(|i.results|) + i.results
  {
    hide SdkInput.FrontBytes, SdkCurrencies.ExtraBytes, MessageBytes, Le, ValidMessage;
    var x, n := SdkCurrencies.ExtraBytes(i.extra), Le16(|i.extra|);
    var s, t, r := Prefixed(i.state), Prefixed(m), Prefixed(i.results);
    NestTwo(front, n + x, s + (t + r));
    NestTwo(front, n, x);
    NestTwo(front + n + x, s, t + r);
    NestTwo(front + n + x, Le32(|i.state|), i.state);
    var p4 := front + n + x + Le32(|i.state|) + i.state;
    NestTwo(p4, t, r);
    NestTwo(p4, Le32(|m|), m);
    NestTwo(p4 + Le32(|m|) + m, Le32(|i.results|), i.results);
  }

  /** The batch envelope's head: magic, context, destination and code. */
  lemma BatchHeadStands(c: SdkInput.Context, t: SdkInput.Target)
    ensures var b := SdkBatch.HeadBytes(c, t);
      && |b| == 156 && Has(b, 0, [0x41, 0x43, 0x42, 0x49]) && Has(b, 4, SdkInput.ContextBytes(c))
      && Has(b, 52, SdkInput.TargetBytes(t))
  {
    hide SdkInput.ContextBytes, SdkInput.TargetBytes;
    ContextStands(c);
    TargetStands(t);
  }

  /** The offset table: the number of messages, then where each starts and where the last ends. */
  lemma OffsetsStand(offs: seq<nat>, k: nat)
    requires SdkBatch.TableFits(offs) && k < |offs|
    ensures var b := SdkBatch.OffsetTable(offs);
      |b| == 4 + 4 * |offs| && Has(b, 0, Le32(|offs| - 1)) && Has(b, 4 + 4 * k, Le32(offs[k]))
  {
    hide Flat, Le;
    var rows := SdkBatch.OffsetRows(offs);
    var b := SdkBatch.OffsetTable(offs);
    FlatRow(rows, 4, k);
    assert b[4..4 + 4 * |offs|] == Flat(rows, 4);
    Within(b, 4, 4 + 4 * |offs|, 4 * k, 4 * k + 4);
  }

  /** A callback header: the hash of the cause, its address, its status. */
  lemma CallbackStands(c: CallbackHeader)
    ensures var b := CallbackBytes(Some(c));
      |b| == 100 && Has(b, 0, c.causeHash) && HasAddress(b, 32, c.causeAddress) && Has(b, 96, Le32(c.status))
  {
    AddressStands(CallbackBytes(Some(c)), 32, c.causeAddress);
  }

  /** An event-read key: the source, then the class. */
  lemma ReadStands(r: EventRead)
    ensures var b := ReadBytes(r); |b| == 72 && HasAddress(b, 0, r.source) && Has(b, 64, Le64(r.eventClass))
  {
    AddressStands(ReadBytes(r), 0, r.source);
  }

  /** The optional parts of an internal message, each there exactly when its flag is set, in this order. */
  lemma TailOrder(m: InternalMessage)
    requires |m.extra| < 0x1_0000 && |m.body| < U32_END && (m.reads_.Some? ==> |m.reads_.value| < 0x1_0000)
    ensures var b := InternalBytes(m);
      && (b[1] / 1 % 2 == 1 <==> m.callback.Some?) && (b[1] / 2 % 2 == 1 <==> m.deploy)
      && (b[1] / 4 % 2 == 1 <==> m.handler.Some?) && (b[1] / 8 % 2 == 1 <==> m.reads_.Some?) && b[1] < 16
      && var h := 176 + (if m.callback.Some? then 100 else 0);
      && var r := h + (if m.handler.Some? then 8 else 0);
      && var x := r + (if m.reads_.Some? then 4 + 72 * |m.reads_.value| else 0);
      && (m.callback.Some? ==> Has(b, 176, CallbackBytes(m.callback)))
      && (m.handler.Some? ==> Has(b, h, Le64(m.handler.value)))
      && (m.reads_.Some? ==>
            && Has(b, r, Le16(|m.reads_.value|)) && Has(b, r + 2, [0, 0])
            && Has(b, r + 4, Flat(ReadRows(m.reads_.value), 72)))
      && Has(b, x, SdkCurrencies.ExtraBytes(m.extra)) && Has(b, x + 20 * |m.extra|, m.body)
      && |b| == x + 20 * |m.extra| + |m.body|
  {
    hide SdkCurrencies.ExtraBytes, Flat, Le, ReadRows, InternalHeader, Has, CallbackBytes, HandlerBytes, ReadsBytes;
    var head, c, a, r, x := InternalHeader(m), CallbackBytes(m.callback), HandlerBytes(m.handler),
      ReadsBytes(m.reads_), SdkCurrencies.ExtraBytes(m.extra);
    HeaderFields(m);
    FlagBits(m);
    PartLengths(m);
    var b := InternalBytes(m);
    assert b[1] == head[1];
    NestFive(head, c, a, r, x, m.body);
    assert b == head + c + a + r + x + m.body;
    Appended(b, head + c + a + r + x, m.body);
    Appended(b, head + c + a + r, x);
    Appended(b, head + c + a, r);
    Appended(b, head + c, a);
    Appended(b, head, c);
    if m.reads_.Some? {
      ReadsStand(b, |head + c + a|, m.reads_.value);
    }
  }

  lemma ReadsStand(b: seq<byte>, at: nat, rs: seq<EventRead>)
    requires |rs| < 0x1_0000 && Has(b, at, ReadsBytes(Some(rs)))
    ensures Has(b, at, Le16(|rs|)) && Has(b, at + 2, [0, 0]) && Has(b, at + 4, Flat(ReadRows(rs), 72))
  {
    hide Flat, ReadRows, Le;
    Le16Zero();
    var part := ReadsBytes(Some(rs));
    assert part[..2] == Le16(|rs|) && part[2..4] == [0, 0] && part[4..] == Flat(ReadRows(rs), 72);
    Within(b, at, at + |part|, 0, 2);
    Within(b, at, at + |part|, 2, 4);
    Within(b, at, at + |part|, 4, |part|);
  }

  /** How long each optional part is, and what a callback request consists of. */
  lemma PartLengths(m: InternalMessage)
    requires m.reads_.Some? ==> |m.reads_.value| < 0x1_0000
    ensures |CallbackBytes(m.callback)| == if m.callback.Some? then 100 else 0
    ensures |HandlerBytes(m.handler)| == if m.handler.Some? then 8 else 0
    ensures m.handler.Some? ==> HandlerBytes(m.handler) == Le64(m.handler.value)
    ensures |ReadsBytes(m.reads_)| == if m.reads_.Some? then 4 + 72 * |m.reads_.value| else 0
  {
  }

  /** A field record: name length, kind, value length, name, value. */
  lemma FieldStands(f: EventFields.EventField)
    requires |f.name| < 0x1_0000 && |EventFields.ValueBytes(f.value)| < 0x1_0000
    ensures var b, v := EventFields.FieldBytes(f), EventFields.ValueBytes(f.value);
      && Has(b, 0, Le16(|f.name|)) && |b| == 5 + |f.name| + |v| && b[2] == EventFields.Kind(f.value)
      && Has(b, 3, Le16(|v|)) && Has(b, 5, f.name) && Has(b, 5 + |f.name|, v)
  {
    hide EventFields.ValueBytes, EventFields.Kind, Le;
  }

  /** The nine kinds, each with its number and the form of its value; signed numbers are in two's complement. */
  lemma KindsAreThese(v: EventFields.EventValue)
    ensures var k, b := EventFields.Kind(v), EventFields.ValueBytes(v);
      && (v.Null? ==> k == 0 && b == [])
      && (v.Truth? ==> k == 1 && b == [if v.flag then 1 else 0])
      && (v.Unsigned64? ==> k == 2 && b == Le64(v.u64))
      && (v.Signed64? ==> k == 3 && |b| == 8 && Nat64(b) == v.i64 % U64_END)
      && (v.Unsigned128? ==> k == 4 && b == Le128(v.u128))
      && (v.Signed128? ==> k == 5 && |b| == 16 && Nat128(b) == v.i128 % U128_END)
      && (v.Text? ==> k == 6 && b == v.text)
      && (v.Data? ==> k == 7 && b == v.data)
      && (v.AddressOf? ==> k == 8 && |b| == 64 && HasAddress(b, 0, v.address))
  {
    match v
    case Signed64(x) => Le64Inverse(EventFields.Twos64(x));
    case Signed128(x) => Le128Inverse(EventFields.Twos128(x));
    case AddressOf(a) => AddressStands(AddressBytes(a), 0, a);
    case _ =>
  }

  /** The number that stands in `b` from `at` on. */
  predicate Has64(b: seq<byte>, at: nat, n: u64) { Has(b, at, Le64(n)) }

  /** The envelope's part: the block's clocks, the account itself, the caller, the balances, and the message's bytes. */
  ghost predicate EnvelopeShows(b: seq<byte>, in_: Input, state: nat, message: seq<byte>) {
    && Has64(b, 4, in_.blockLt) && Has(b, 12, Le32(in_.blockTime)) && HasAddress(b, 156, in_.here)
    && (in_.message.Internal? ==> Has(b, 52, [0]) && HasAddress(b, 60, in_.message.source))
    && (in_.message.External? ==> Has(b, 52, [1]) && Has(b, 124, in_.message.actor))
    && |in_.balance| < 0x1_0000 && Has(b, 260, Le16(|in_.balance|))
    && Has(b, 262, SdkCurrencies.ExtraBytes(in_.balance))
    && Has(b, 270 + 20 * |in_.balance| + state, message)
  }

  /** The message's part: kind, method, times, addresses and flags at fixed places, the body where the bytes end. */
  ghost predicate MessageShows(b: seq<byte>, m: Message) {
    && |b| >= 176 && Has64(b, 8, m.methodId)
    && match m
       case Internal(source, _, body, _, destination, createdLt, callback, deploy, callbackRequest, eventReads) =>
         && b[0] == 0 && Has64(b, 32, createdLt) && HasAddress(b, 48, source) && HasAddress(b, 112, destination)
         && (b[1] / 1 % 2 == 1 <==> callback.Some?) && (b[1] / 2 % 2 == 1 <==> deploy)
         && (b[1] / 4 % 2 == 1 <==> callbackRequest) && (b[1] / 8 % 2 == 1 <==> eventReads)
         && (callback.Some? ==> Has(b, 176, CallbackBytes(callback)))
         && |body| <= |b| && Has(b, |b| - |body|, body)
       case External(actor, _, body, _) =>
         b[0] == 1 && Has(b, 112, actor) && |body| + 64 <= |b| && Has(b, |b| - 64 - |body|, body)
  }

  /** What a contract's handler sees of an accepted input is what stands in its bytes. */
  lemma SeenStands(b: seq<byte>)
    requires SdkInput.ReadInput(b).Some?
    ensures var i := SdkInput.ReadInput(b).value;
      && SdkInput.ValidInput(i)
      && EnvelopeShows(b, SdkSeen.Seen(i), |i.state|, MessageBytes(i.message))
      && MessageShows(MessageBytes(i.message), SdkSeen.Seen(i).message)
  {
    hide SdkInput.ReadInput, SdkCurrencies.ExtraBytes, SdkInput.InputBytes, Le, EnvelopeShows, MessageShows,
         MessageBytes, ValidMessage;
    var i := SdkInput.ReadInput(b).value;
    SdkInput.InputExact(b, i);
    SeenEnvelope(i);
    match i.message
    case InternalKind(m) => SeenInternal(i);
    case ExternalKind(m) => SeenExternal(i);
  }

  lemma SeenEnvelope(i: SdkInput.MessageInput)
    requires SdkInput.ValidInput(i)
    ensures EnvelopeShows(SdkInput.InputBytes(i), SdkSeen.Seen(i), |i.state|, MessageBytes(i.message))
  {
    hide SdkInput.InputBytes, SdkInput.ContextBytes, SdkInput.OriginBytes, SdkInput.TargetBytes, Le, ValidMessage,
         SdkCurrencies.ExtraBytes, MessageBytes;
    var b, o := SdkInput.InputBytes(i), SdkInput.OriginOf(i.message);
    var t := SdkInput.Target(i.message.Destination(), i.codeId, i.mode);
    InputStands(i);
    ContextStands(i.context);
    OriginStands(o);
    TargetStands(t);
    Inner(b, 4, SdkInput.ContextBytes(i.context), 0, Le64(i.context.blockLt));
    Inner(b, 4, SdkInput.ContextBytes(i.context), 8, Le32(i.context.blockTime));
    assert Has(SdkInput.OriginBytes(o), 0, [o.kind]);
    Inner(b, 52, SdkInput.OriginBytes(o), 0, [o.kind]);
    Inner(b, 52, SdkInput.OriginBytes(o), 8, o.dapp);
    Inner(b, 52, SdkInput.OriginBytes(o), 40, o.account);
    Inner(b, 52, SdkInput.OriginBytes(o), 72, o.pubkey);
    Inner(b, 156, SdkInput.TargetBytes(t), 0, t.destination.dapp);
    Inner(b, 156, SdkInput.TargetBytes(t), 32, t.destination.account);
  }

  /** What stands in a part stands in the whole, that much further on. */
  lemma Inner(b: seq<byte>, at: nat, part: seq<byte>, k: nat, x: seq<byte>)
    requires Has(b, at, part) && Has(part, k, x)
    ensures Has(b, at + k, x)
  {
    Within(b, at, at + |part|, k, k + |x|);
  }

  lemma SeenInternal(i: SdkInput.MessageInput)
    requires i.message.InternalKind? && ValidMessage(i.message)
    ensures MessageShows(MessageBytes(i.message), SdkSeen.Seen(i).message)
  {
    hide InternalBytes, ValidInternal, Has, Has64, HasAddress, CallbackBytes;
    var m := i.message.internal;
    InternalStands(m);
    FlagsStand(m);
  }

  lemma SeenExternal(i: SdkInput.MessageInput)
    requires i.message.ExternalKind? && ValidMessage(i.message)
    ensures MessageShows(MessageBytes(i.message), SdkSeen.Seen(i).message)
  {
    hide ExternalBytes, ValidExternal, Has, Has64, HasAddress;
    ExternalStands(i.message.external);
  }

  lemma FlagsStand(m: InternalMessage)
    requires ValidInternal(m)
    ensures var b := InternalBytes(m);
      && |b| >= 176
      && (b[1] / 1 % 2 == 1 <==> m.callback.Some?) && (b[1] / 2 % 2 == 1 <==> m.deploy)
      && (b[1] / 4 % 2 == 1 <==> m.handler.Some?) && (b[1] / 8 % 2 == 1 <==> m.reads_.Some?)
      && (m.callback.Some? ==> Has(b, 176, CallbackBytes(m.callback)))
      && |m.body| <= |b| && Has(b, |b| - |m.body|, m.body)
  {
    hide InternalBytes, Has, CallbackBytes;
    TailOrder(m);
  }

  lemma InternalStands(i: InternalMessage)
    requires ValidInternal(i)
    ensures var b := InternalBytes(i);
      && |b| >= 176 && b[0] == 0 && Has64(b, 8, i.methodId) && Has(b, 16, Le128(i.fuel))
      && Has64(b, 32, i.createdLt) && Has(b, 40, Le32(i.createdAt))
      && HasAddress(b, 48, i.source) && HasAddress(b, 112, i.destination)
  {
    hide TailBytes, InternalHeader, Le;
    var h, b := InternalHeader(i), InternalBytes(i);
    HeaderFields(i);
    assert b[..176] == h;
    PrefixSlices(b, h);
    AddressStands(b, 48, i.source);
    AddressStands(b, 112, i.destination);
  }

  lemma ExternalStands(e: ExternalMessage)
    requires ValidExternal(e)
    ensures var b := ExternalBytes(e);
      && |b| >= 256 + |e.body| && b[0] == 1 && b[1] == (if e.deploy then 3 else 1)
      && Has64(b, 8, e.methodId) && Has(b, 16, Le128(e.fuel)) && Has64(b, 32, e.nonce)
      && Has(b, 40, Le32(e.createdAt)) && Has(b, 44, Le32(e.expireAt))
      && HasAddress(b, 48, e.destination) && Has(b, 112, e.pubkey)
      && Has(b, |b| - 64 - |e.body|, e.body) && Has(b, |b| - 64, e.signature)
  {
    hide ExternalHeader, Le, SdkCurrencies.ExtraBytes;
    var h, b, x := ExternalHeader(e), ExternalBytes(e), SdkCurrencies.ExtraBytes(e.extra);
    ExternalHeaderFields(e);
    assert b[..192] == h;
    PrefixSlices(b, h);
    AddressStands(b, 48, e.destination);
    NestThree(h, x, e.body, e.signature);
    Appended(b, h + x + e.body, e.signature);
    Appended(b, h + x, e.body);
  }
}
