/** The single-message input envelope: its value, its bytes, and decoding as the exact inverse of printing. */
module SdkInput {
  import opened Bytes
  import opened Sdk
  import opened Wire
  import opened SdkUpdates
  import opened SdkCurrencies
  import opened SdkMessages

  datatype Context = Context(blockLt: u64, blockTime: u32, sequence: u32, rand: Id32)

  /** Who the envelope says is calling. */
  datatype Origin = Origin(kind: byte, dapp: Id32, account: Id32, pubkey: Id32)

  /** Whom the envelope is for, under which code, and how the state is to be returned. */
  datatype Target = Target(destination: Address, codeId: Id32, mode: Mode)

  /** A message input; caller and destination are the message's own. */
  datatype MessageInput = MessageInput(context: Context, codeId: Id32, mode: Mode, extra: seq<Currency>,
                                       state: seq<byte>, message: CanonicalMessage, results: seq<byte>)

  const ACMI: seq<byte> := [0x41, 0x43, 0x4d, 0x49]

  function TakeMagic(b: seq<byte>, magic: seq<byte>): Option<seq<byte>> {
    var (p, rest) :- Take(b, 4);
    if p == magic then Some(rest) else None
  }

  lemma MagicExact(b: seq<byte>, magic: seq<byte>, rest: seq<byte>)
    requires |magic| == 4
    ensures TakeMagic(b, magic) == Some(rest) <==> b == magic + rest
  {
    TakeExact(b, 4, magic, rest);
  }

  function TakeZeros(b: seq<byte>, n: nat): Option<seq<byte>> {
    var (p, rest) :- Take(b, n);
    if p == Zeros(n) then Some(rest) else None
  }

  lemma ZerosExact(b: seq<byte>, n: nat, rest: seq<byte>)
    ensures TakeZeros(b, n) == Some(rest) <==> b == Zeros(n) + rest
  {
    TakeExact(b, n, Zeros(n), rest);
  }

  function ContextBytes(c: Context): seq<byte> {
    Le64(c.blockLt) + (Le32(c.blockTime) + (Le32(c.sequence) + c.rand))
  }

  function TakeContext(b: seq<byte>): Option<(Context, seq<byte>)> {
    var (lt, b1) :- Take64(b);
    var (time, b2) :- Take32(b1);
    var (sequence, b3) :- Take32(b2);
    var (rand, rest) :- TakeId(b3);
    Some((Context(lt, time, sequence, rand), rest))
  }

  lemma ContextExact(b: seq<byte>, c: Context, rest: seq<byte>)
    ensures TakeContext(b) == Some((c, rest)) <==> b == ContextBytes(c) + rest
  {
    var b3 := c.rand + rest;
    var b2 := Le32(c.sequence) + b3;
    var b1 := Le32(c.blockTime) + b2;
    assert ContextBytes(c) + rest == Le64(c.blockLt) + b1;
    Exact64(b, c.blockLt, b1);
    Exact32(b1, c.blockTime, b2);
    Exact32(b2, c.sequence, b3);
    IdExact(b3, c.rand, rest);
    if TakeContext(b) == Some((c, rest)) {
      var c1 := Take64(b).value.1;
      var c2 := Take32(c1).value.1;
      var c3 := Take32(c2).value.1;
      Exact64(b, c.blockLt, c1);
      Exact32(c1, c.blockTime, c2);
      Exact32(c2, c.sequence, c3);
      IdExact(c3, c.rand, rest);
    }
  }

  function OriginBytes(o: Origin): seq<byte> {
    [o.kind] + (Zeros(7) + (o.dapp + (o.account + o.pubkey)))
  }

  function TakeOrigin(b: seq<byte>): Option<(Origin, seq<byte>)> {
    var (kind, b1) :- TakeByte(b);
    var b2 :- TakeZeros(b1, 7);
    var (dapp, b3) :- TakeId(b2);
    var (account, b4) :- TakeId(b3);
    var (pubkey, rest) :- TakeId(b4);
    Some((Origin(kind, dapp, account, pubkey), rest))
  }

  lemma OriginExact(b: seq<byte>, o: Origin, rest: seq<byte>)
    ensures TakeOrigin(b) == Some((o, rest)) <==> b == OriginBytes(o) + rest
  {
    var b4 := o.pubkey + rest;
    var b3 := o.account + b4;
    var b2 := o.dapp + b3;
    var b1 := Zeros(7) + b2;
    assert OriginBytes(o) + rest == [o.kind] + b1;
    ByteExact(b, o.kind, b1);
    ZerosExact(b1, 7, b2);
    IdExact(b2, o.dapp, b3);
    IdExact(b3, o.account, b4);
    IdExact(b4, o.pubkey, rest);
    if TakeOrigin(b) == Some((o, rest)) {
      var c1 := TakeByte(b).value.1;
      var c2 := TakeZeros(c1, 7).value;
      var c3 := TakeId(c2).value.1;
      var c4 := TakeId(c3).value.1;
      ByteExact(b, o.kind, c1);
      ZerosExact(c1, 7, c2);
      IdExact(c2, o.dapp, c3);
      IdExact(c3, o.account, c4);
      IdExact(c4, o.pubkey, rest);
    }
  }

  function ModeByte(m: Mode): byte { if m == FullReplace then 0 else 1 }

  function TargetBytes(t: Target): seq<byte> {
    AddressBytes(t.destination) + (t.codeId + ([ModeByte(t.mode)] + Zeros(7)))
  }

  function TakeTarget(b: seq<byte>): Option<(Target, seq<byte>)> {
    var (destination, b1) :- TakeAddress(b);
    var (codeId, b2) :- TakeId(b1);
    var (mode, b3) :- TakeByte(b2);
    var rest :- TakeZeros(b3, 7);
    if mode > 1 then None
    else Some((Target(destination, codeId, if mode == 0 then FullReplace else DataPatchList), rest))
  }

  lemma TargetExact(b: seq<byte>, t: Target, rest: seq<byte>)
    ensures TakeTarget(b) == Some((t, rest)) <==> b == TargetBytes(t) + rest
  {
    var b3 := Zeros(7) + rest;
    var b2 := [ModeByte(t.mode)] + b3;
    var b1 := t.codeId + b2;
    assert TargetBytes(t) + rest == AddressBytes(t.destination) + b1;
    AddressExact(b, t.destination, b1);
    IdExact(b1, t.codeId, b2);
    ByteExact(b2, ModeByte(t.mode), b3);
    ZerosExact(b3, 7, rest);
    if TakeTarget(b) == Some((t, rest)) {
      var c1 := TakeAddress(b).value.1;
      var c2 := TakeId(c1).value.1;
      var c3 := TakeByte(c2).value.1;
      AddressExact(b, t.destination, c1);
      IdExact(c1, t.codeId, c2);
      ByteExact(c2, ModeByte(t.mode), c3);
      ZerosExact(c3, 7, rest);
    }
  }

  function CountedBytes(extra: seq<Currency>): seq<byte>
    requires |extra| < U16_END
  {
    Le16(|extra|) + ExtraBytes(extra)
  }

  /** A currency list behind its own count. */
  ghost function TakeCounted(b: seq<byte>): Option<(seq<Currency>, seq<byte>)> {
    var (count, rest) :- Take16(b);
    TakeExtra(rest, count)
  }

  lemma CountedExact(b: seq<byte>, extra: seq<Currency>, rest: seq<byte>)
    ensures TakeCounted(b) == Some((extra, rest)) <==>
            |extra| < U16_END && Canonical(extra) && b == CountedBytes(extra) + rest
  {
    if |extra| < U16_END {
      assert CountedBytes(extra) + rest == Le16(|extra|) + (ExtraBytes(extra) + rest);
      Exact16(b, |extra|, ExtraBytes(extra) + rest);
      ExtraExact(ExtraBytes(extra) + rest, |extra|, extra, rest);
    }
    if TakeCounted(b) == Some((extra, rest)) {
      var (count, c1) := Take16(b).value;
      Exact16(b, count, c1);
      ExtraExact(c1, count, extra, rest);
    }
  }

  // One message.

  /** What the envelope has to say about its caller: the message's own source or signer, and zeros elsewhere. */
  function OriginOf(m: CanonicalMessage): Origin {
    match m
    case InternalKind(i) => Origin(0, i.source.dapp, i.source.account, ZERO32)
    case ExternalKind(e) => Origin(1, ZERO32, ZERO32, e.pubkey)
  }

  ghost predicate ValidInput(i: MessageInput) {
    && |i.extra| < U16_END && Canonical(i.extra) && |i.state| < U32_END && |i.results| < U32_END
    && ValidMessage(i.message) && |MessageBytes(i.message)| < U32_END
  }

  /** The envelope up to the currency list. */
  function FrontBytes(i: MessageInput): seq<byte> {
    ACMI + (ContextBytes(i.context) + (OriginBytes(OriginOf(i.message))
            + TargetBytes(Target(i.message.Destination(), i.codeId, i.mode))))
  }

  ghost function InputBytes(i: MessageInput): seq<byte>
    requires ValidInput(i)
  {
    FrontBytes(i) + (CountedBytes(i.extra) + (Prefixed(i.state)
      + (Prefixed(MessageBytes(i.message)) + Prefixed(i.results))))
  }

  datatype Front = Front(context: Context, origin: Origin, target: Target)

  function TakeFront(b: seq<byte>): Option<(Front, seq<byte>)> {
    var b1 :- TakeMagic(b, ACMI);
    var (context, b2) :- TakeContext(b1);
    var (origin, b3) :- TakeOrigin(b2);
    var (target, rest) :- TakeTarget(b3);
    Some((Front(context, origin, target), rest))
  }

  lemma FrontExact(b: seq<byte>, f: Front, rest: seq<byte>)
    ensures TakeFront(b) == Some((f, rest)) <==>
            b == ACMI + (ContextBytes(f.context) + (OriginBytes(f.origin) + TargetBytes(f.target))) + rest
  {
    hide TakeContext, TakeOrigin, TakeTarget, ContextBytes, OriginBytes, TargetBytes;
    var b3 := TargetBytes(f.target) + rest;
    var b2 := OriginBytes(f.origin) + b3;
    var b1 := ContextBytes(f.context) + b2;
    assert ACMI + (ContextBytes(f.context) + (OriginBytes(f.origin) + TargetBytes(f.target))) + rest == ACMI + b1;
    MagicExact(b, ACMI, b1);
    ContextExact(b1, f.context, b2);
    OriginExact(b2, f.origin, b3);
    TargetExact(b3, f.target, rest);
    if TakeFront(b) == Some((f, rest)) {
      var c1 := TakeMagic(b, ACMI).value;
      var (context, c2) := TakeContext(c1).value;
      var (origin, c3) := TakeOrigin(c2).value;
      var (target, c4) := TakeTarget(c3).value;
      MagicExact(b, ACMI, c1);
      ContextExact(c1, context, c2);
      OriginExact(c2, origin, c3);
      TargetExact(c3, target, c4);
    }
  }

  datatype Payload = Payload(extra: seq<Currency>, state: seq<byte>, message: seq<byte>, results: seq<byte>)

  ghost predicate ValidPayload(p: Payload) {
    |p.extra| < U16_END && Canonical(p.extra) && |p.state| < U32_END && |p.message| < U32_END && |p.results| < U32_END
  }

  ghost function TakePayload(b: seq<byte>): Option<Payload> {
    var (extra, b1) :- TakeCounted(b);
    var (state, b2) :- TakePrefixed(b1);
    var (message, b3) :- TakePrefixed(b2);
    var (results, rest) :- TakePrefixed(b3);
    if rest == [] then Some(Payload(extra, state, message, results)) else None
  }

  lemma PayloadExact(b: seq<byte>, p: Payload)
    ensures TakePayload(b) == Some(p) <==>
      && ValidPayload(p)
      && b == CountedBytes(p.extra) + (Prefixed(p.state) + (Prefixed(p.message) + Prefixed(p.results)))
  {
    hide TakeCounted, TakePrefixed, CountedBytes, Prefixed;
    if ValidPayload(p) {
      var b3 := Prefixed(p.results);
      var b2 := Prefixed(p.message) + b3;
      var b1 := Prefixed(p.state) + b2;
      assert b3 + [] == b3;
      CountedExact(b, p.extra, b1);
      PrefixedExact(b1, p.state, b2);
      PrefixedExact(b2, p.message, b3);
      PrefixedExact(b3, p.results, []);
    }
    if TakePayload(b) == Some(p) {
      var (extra, c1) := TakeCounted(b).value;
      var (state, c2) := TakePrefixed(c1).value;
      var (message, c3) := TakePrefixed(c2).value;
      var (results, c4) := TakePrefixed(c3).value;
      CountedExact(b, extra, c1);
      PrefixedExact(c1, state, c2);
      PrefixedExact(c2, message, c3);
      PrefixedExact(c3, results, c4);
      assert Prefixed(p.results) + [] == Prefixed(p.results);
    }
  }

  /** `decode_message_input` as a function. */
  ghost function ReadInput(b: seq<byte>): Option<MessageInput> {
    var (front, rest) :- TakeFront(b);
    var p :- TakePayload(rest);
    var m :- ReadMessage(p.message);
    if m.Destination() != front.target.destination || front.origin != OriginOf(m) then None
    else Some(MessageInput(front.context, front.target.codeId, front.target.mode, p.extra, p.state, m, p.results))
  }

  /** The message envelope is canonical: decoding accepts exactly the printed inputs, each from its own bytes. */
  lemma InputExact(b: seq<byte>, i: MessageInput)
    ensures ReadInput(b) == Some(i) <==> ValidInput(i) && b == InputBytes(i)
  {
    hide TakeFront, TakePayload, ReadMessage, FrontBytes, CountedBytes, Prefixed;
    if ValidInput(i) && b == InputBytes(i) {
      PrintedInputReads(i);
    }
    if ReadInput(b) == Some(i) {
      ReadInputPrints(b, i);
    }
  }

  lemma PrintedInputReads(i: MessageInput)
    requires ValidInput(i)
    ensures ReadInput(InputBytes(i)) == Some(i)
  {
    hide TakeFront, TakePayload, ReadMessage, CountedBytes, Prefixed, ContextBytes, OriginBytes, TargetBytes, OriginOf,
         MessageBytes;
    var front := Front(i.context, OriginOf(i.message), Target(i.message.Destination(), i.codeId, i.mode));
    var p := Payload(i.extra, i.state, MessageBytes(i.message), i.results);
    var rest := CountedBytes(i.extra) + (Prefixed(i.state) + (Prefixed(MessageBytes(i.message)) + Prefixed(i.results)));
    FrontExact(InputBytes(i), front, rest);
    PayloadExact(rest, p);
    MessageExact(MessageBytes(i.message), i.message);
  }

  lemma ReadInputPrints(b: seq<byte>, i: MessageInput)
    requires ReadInput(b) == Some(i)
    ensures ValidInput(i) && b == InputBytes(i)
  {
    hide TakeFront, TakePayload, ReadMessage, CountedBytes, Prefixed, ContextBytes, OriginBytes, TargetBytes, OriginOf,
         MessageBytes;
    var (front, rest) := TakeFront(b).value;
    var p := TakePayload(rest).value;
    FrontExact(b, front, rest);
    PayloadExact(rest, p);
    MessageExact(p.message, i.message);
  }
}
