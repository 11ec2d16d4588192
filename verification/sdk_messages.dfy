/** Canonical messages: their values, their bytes, and decoding as the exact inverse of printing. */
module SdkMessages {
  import opened Bytes
  import opened Sdk
  import opened Buffers
  import opened Blocks
  import opened Wire
  import opened SdkCurrencies

  const U16_END := 0x1_0000

  datatype EventRead = EventRead(source: Address, eventClass: u64)

  /** An internal message; which optional parts are present is what its flags say. */
  datatype InternalMessage = InternalMessage(
    methodId: u64, fuel: u128, createdLt: u64, createdAt: u32, source: Address, destination: Address, deploy: bool,
    callback: Option<CallbackHeader>, handler: Option<u64>, reads_: Option<seq<EventRead>>, extra: seq<Currency>,
    body: seq<byte>)

  datatype ExternalMessage = ExternalMessage(
    methodId: u64, fuel: u128, nonce: u64, createdAt: u32, expireAt: u32, destination: Address, pubkey: Id32,
    deploy: bool, extra: seq<Currency>, body: seq<byte>, signature: seq<byte>)

  datatype CanonicalMessage = InternalKind(internal: InternalMessage) | ExternalKind(external: ExternalMessage) {
    function Destination(): Address { if InternalKind? then internal.destination else external.destination }
    predicate IsDeploy() { if InternalKind? then internal.deploy else external.deploy }
    predicate HasCallbackRequest() { InternalKind? && internal.handler.Some? }
    predicate IsCallback() { InternalKind? && internal.callback.Some? }
    function MethodId(): u64 { if InternalKind? then internal.methodId else external.methodId }
  }

  /** `count` currency amounts in strictly ascending order. */
  ghost function TakeExtra(b: seq<byte>, count: nat): Option<(seq<Currency>, seq<byte>)> {
    var (p, rest) :- Take(b, 20 * count);
    var cs := CurrenciesFrom(Cut(p, 20, count));
    if Canonical(cs) then Some((cs, rest)) else None
  }

  lemma ExtraExact(b: seq<byte>, count: nat, cs: seq<Currency>, rest: seq<byte>)
    ensures TakeExtra(b, count) == Some((cs, rest)) <==> |cs| == count && Canonical(cs) && b == ExtraBytes(cs) + rest
  {
    if |cs| == count && b == ExtraBytes(cs) + rest {
      TakeExact(b, 20 * count, ExtraBytes(cs), rest);
      CutOfFlat(CurrencyRows(cs), 20);
      CurrenciesInverse(cs);
    }
    if TakeExtra(b, count) == Some((cs, rest)) {
      var p := Take(b, 20 * count).value.0;
      TakeExact(b, 20 * count, p, rest);
      FlatOfCut(p, 20, count);
    }
  }

  // Event read requests.

  function ReadBytes(r: EventRead): (b: seq<byte>)
    ensures |b| == 72
  {
    AddressBytes(r.source) + Le64(r.eventClass)
  }

  function ReadAt(b: seq<byte>): (r: EventRead)
    requires |b| == 72
    ensures ReadBytes(r) == b
  {
    assert b == b[..64] + b[64..72];
    EventRead(AddressAt(b[..64]), Nat64(b[64..72]))
  }

  lemma ReadInverse(r: EventRead)
    ensures ReadAt(ReadBytes(r)) == r
  {
    var b := ReadBytes(r);
    assert b[..64] == AddressBytes(r.source) && b[64..72] == Le64(r.eventClass);
    AddressInverse(r.source);
    Le64Inverse(r.eventClass);
  }

  function ReadRows(rs: seq<EventRead>): (rows: seq<seq<byte>>)
    ensures |rows| == |rs| && Rows(rows, 72)
  {
    seq(|rs|, i requires 0 <= i < |rs| => ReadBytes(rs[i]))
  }

  function ReadsFrom(rows: seq<seq<byte>>): (rs: seq<EventRead>)
    requires Rows(rows, 72)
    ensures |rs| == |rows| && ReadRows(rs) == rows
  {
    seq(|rows|, i requires 0 <= i < |rows| => ReadAt(rows[i]))
  }

  lemma ReadsInverse(rs: seq<EventRead>)
    ensures ReadsFrom(ReadRows(rs)) == rs
  {
    forall i | 0 <= i < |rs| ensures ReadsFrom(ReadRows(rs))[i] == rs[i] {
      ReadInverse(rs[i]);
    }
  }

  /** The order of the keys: DApp, then account, then class. */
  predicate Before(a: EventRead, b: EventRead) {
    || Less(a.source.dapp, b.source.dapp)
    || (a.source.dapp == b.source.dapp
        && (Less(a.source.account, b.source.account)
            || (a.source.account == b.source.account && a.eventClass < b.eventClass)))
  }

  /** Each key after the one just before it. */
  predicate AscendingKeys(rs: seq<EventRead>) {
    forall i | 0 < i < |rs| :: Before(rs[i - 1], rs[i])
  }

  ghost predicate ValidReads(r: Option<seq<EventRead>>) {
    r.Some? ==> 0 < |r.value| < U16_END && AscendingKeys(r.value)
  }

  function ReadsBytes(r: Option<seq<EventRead>>): seq<byte>
    requires r.Some? ==> |r.value| < U16_END
  {
    if r.None? then [] else Le16(|r.value|) + Le16(0) + Flat(ReadRows(r.value), 72)
  }

  function TakeReads(b: seq<byte>, present: bool): Option<(Option<seq<EventRead>>, seq<byte>)> {
    if !present then Some((None, b)) else
      var (count, b1) :- Take16(b);
      var (reserved, b2) :- Take16(b1);
      var (p, rest) :- Take(b2, 72 * count);
      var rs := ReadsFrom(Cut(p, 72, count));
      if count != 0 && reserved == 0 && AscendingKeys(rs) then Some((Some(rs), rest)) else None
  }

  lemma ReadsExact(b: seq<byte>, present: bool, r: Option<seq<EventRead>>, rest: seq<byte>)
    ensures TakeReads(b, present) == Some((r, rest)) <==>
            r.Some? == present && ValidReads(r) && b == ReadsBytes(r) + rest
  {
    if r.Some? && ValidReads(r) && b == ReadsBytes(r) + rest {
      var n, p := |r.value|, Flat(ReadRows(r.value), 72);
      assert b == Le16(n) + (Le16(0) + (p + rest));
      Exact16(b, n, Le16(0) + (p + rest));
      Exact16(Le16(0) + (p + rest), 0, p + rest);
      TakeExact(p + rest, 72 * n, p, rest);
      CutOfFlat(ReadRows(r.value), 72);
      ReadsInverse(r.value);
    }
    if present && TakeReads(b, present) == Some((r, rest)) {
      ReadsPrint(b, r.value, rest);
    }
    if r.None? {
      assert [] + rest == rest;
    }
  }

  lemma ReadsPrint(b: seq<byte>, rs: seq<EventRead>, rest: seq<byte>)
    requires TakeReads(b, true) == Some((Some(rs), rest))
    ensures ValidReads(Some(rs)) && b == ReadsBytes(Some(rs)) + rest
  {
    hide Take16, Take, Cut, Flat, ReadRows, AscendingKeys;
    var (count, b1) := Take16(b).value;
    var (reserved, b2) := Take16(b1).value;
    var n: nat := count;
    var (p, b3) := Take(b2, 72 * n).value;
    Exact16(b, count, b1);
    Exact16(b1, reserved, b2);
    TakeExact(b2, 72 * n, p, b3);
    FlatOfCut(p, 72, n);
    NestThree(Le16(count), Le16(0), p, rest);
  }

  // Callback headers and callback requests.

  predicate ValidCallback(c: Option<CallbackHeader>, destination: Address) {
    c.Some? ==>
      c.value.causeHash != ZERO32 && NonzeroAddress(c.value.causeAddress) && c.value.causeAddress == destination
  }

  function CallbackBytes(c: Option<CallbackHeader>): seq<byte> {
    if c.None? then [] else
      var hash: seq<byte> := c.value.causeHash;
      hash + AddressBytes(c.value.causeAddress) + Le32(c.value.status)
  }

  function TakeAddress(b: seq<byte>): Option<(Address, seq<byte>)> {
    var (p, rest) :- Take(b, 64);
    Some((AddressAt(p), rest))
  }

  lemma AddressExact(b: seq<byte>, a: Address, rest: seq<byte>)
    ensures TakeAddress(b) == Some((a, rest)) <==> b == AddressBytes(a) + rest
  {
    TakeExact(b, 64, AddressBytes(a), rest);
    AddressInverse(a);
  }

  function TakeCallback(b: seq<byte>, present: bool, destination: Address): Option<(Option<CallbackHeader>, seq<byte>)>
  {
    if !present then Some((None, b)) else
      var (hash, b1) :- TakeId(b);
      var (address, b2) :- TakeAddress(b1);
      var (status, rest) :- Take32(b2);
      var c := Some(CallbackHeader(hash, address, status));
      if ValidCallback(c, destination) then Some((c, rest)) else None
  }

  lemma CallbackExact(b: seq<byte>, present: bool, destination: Address, c: Option<CallbackHeader>, rest: seq<byte>)
    ensures TakeCallback(b, present, destination) == Some((c, rest)) <==>
            c.Some? == present && ValidCallback(c, destination) && b == CallbackBytes(c) + rest
  {
    if c.Some? {
      var b1 := AddressBytes(c.value.causeAddress) + (Le32(c.value.status) + rest);
      assert CallbackBytes(c) + rest == c.value.causeHash + b1;
      IdExact(b, c.value.causeHash, b1);
      AddressExact(b1, c.value.causeAddress, Le32(c.value.status) + rest);
      Exact32(Le32(c.value.status) + rest, c.value.status, rest);
      if present && TakeCallback(b, present, destination) == Some((c, rest)) {
        var (hash, c1) := TakeId(b).value;
        var (address, c2) := TakeAddress(c1).value;
        IdExact(b, hash, c1);
        AddressExact(c1, address, c2);
        Exact32(c2, c.value.status, rest);
      }
    } else {
      assert [] + rest == rest;
    }
  }

  predicate ValidHandler(h: Option<u64>) { h.Some? ==> h.value != 0 }

  function HandlerBytes(h: Option<u64>): seq<byte> { if h.None? then [] else Le64(h.value) }

  function TakeHandler(b: seq<byte>, present: bool): Option<(Option<u64>, seq<byte>)> {
    if !present then Some((None, b)) else
      var (id, rest) :- Take64(b);
      if id == 0 then None else Some((Some(id), rest))
  }

  lemma HandlerExact(b: seq<byte>, present: bool, h: Option<u64>, rest: seq<byte>)
    ensures TakeHandler(b, present) == Some((h, rest)) <==>
            h.Some? == present && ValidHandler(h) && b == HandlerBytes(h) + rest
  {
    if h.Some? {
      Exact64(b, h.value, rest);
    } else {
      assert [] + rest == rest;
    }
  }

  // The variable part of an internal message.

  datatype Tail = Tail(callback: Option<CallbackHeader>, handler: Option<u64>, reads_: Option<seq<EventRead>>,
                       extra: seq<Currency>, body: seq<byte>)

  ghost predicate ValidTail(t: Tail, destination: Address) {
    && ValidCallback(t.callback, destination) && ValidHandler(t.handler) && ValidReads(t.reads_)
    && |t.extra| < U16_END && Canonical(t.extra) && |t.body| < U32_END
  }

  function TailBytes(t: Tail): seq<byte>
    requires t.reads_.Some? ==> |t.reads_.value| < U16_END
  {
    CallbackBytes(t.callback) + (HandlerBytes(t.handler) + (ReadsBytes(t.reads_) + (ExtraBytes(t.extra) + t.body)))
  }

  /** Which optional parts the flags announce, and how long the rest is. */
  datatype Shape = Shape(callback: bool, handler: bool, reads_: bool, extra: nat, body: nat)

  predicate Fits(t: Tail, s: Shape) {
    t.callback.Some? == s.callback && t.handler.Some? == s.handler && t.reads_.Some? == s.reads_
    && |t.extra| == s.extra && |t.body| == s.body
  }

  ghost function TakeTail(b: seq<byte>, s: Shape, destination: Address): Option<Tail> {
    var (callback, b1) :- TakeCallback(b, s.callback, destination);
    var (handler, b2) :- TakeHandler(b1, s.handler);
    var (rs, b3) :- TakeReads(b2, s.reads_);
    var (extra, b4) :- TakeExtra(b3, s.extra);
    if |b4| == s.body then Some(Tail(callback, handler, rs, extra, b4)) else None
  }

  lemma TailExact(b: seq<byte>, s: Shape, destination: Address, t: Tail)
    requires s.extra < U16_END && s.body < U32_END
    ensures TakeTail(b, s, destination) == Some(t) <==> ValidTail(t, destination) && Fits(t, s) && b == TailBytes(t)
  {
    if ValidTail(t, destination) && Fits(t, s) && b == TailBytes(t) {
      PrintedTailReads(b, s, destination, t);
    }
    if TakeTail(b, s, destination) == Some(t) {
      ReadTailPrints(b, s, destination, t);
    }
  }

  lemma PrintedTailReads(b: seq<byte>, s: Shape, destination: Address, t: Tail)
    requires ValidTail(t, destination) && Fits(t, s) && b == TailBytes(t)
    ensures TakeTail(b, s, destination) == Some(t)
  {
    hide TakeCallback, TakeHandler, TakeReads, TakeExtra, CallbackBytes, HandlerBytes, ReadsBytes, ExtraBytes;
    var b3 := ExtraBytes(t.extra) + t.body;
    var b2 := ReadsBytes(t.reads_) + b3;
    var b1 := HandlerBytes(t.handler) + b2;
    CallbackExact(b, s.callback, destination, t.callback, b1);
    HandlerExact(b1, s.handler, t.handler, b2);
    ReadsExact(b2, s.reads_, t.reads_, b3);
    ExtraExact(b3, s.extra, t.extra, t.body);
  }

  lemma ReadTailPrints(b: seq<byte>, s: Shape, destination: Address, t: Tail)
    requires s.extra < U16_END && s.body < U32_END
    requires TakeTail(b, s, destination) == Some(t)
    ensures ValidTail(t, destination) && Fits(t, s) && b == TailBytes(t)
  {
    hide TakeCallback, TakeHandler, TakeReads, TakeExtra, CallbackBytes, HandlerBytes, ReadsBytes, ExtraBytes;
    var (callback, b1) := TakeCallback(b, s.callback, destination).value;
    var (handler, b2) := TakeHandler(b1, s.handler).value;
    var (rs, b3) := TakeReads(b2, s.reads_).value;
    var (extra, b4) := TakeExtra(b3, s.extra).value;
    CallbackExact(b, s.callback, destination, callback, b1);
    HandlerExact(b1, s.handler, handler, b2);
    ReadsExact(b2, s.reads_, rs, b3);
    ExtraExact(b3, s.extra, extra, b4);
  }

  // Internal messages.

  function Flags(m: InternalMessage): byte {
    (if m.callback.Some? then 1 else 0) + (if m.deploy then 2 else 0)
    + (if m.handler.Some? then 4 else 0) + (if m.reads_.Some? then 8 else 0)
  }

  predicate Bit(flags: byte, weight: nat)
    requires weight > 0
  {
    flags / weight % 2 == 1
  }

  /** Known flags only, and a callback neither deploys nor asks for a callback itself. */
  predicate LegalFlags(flags: byte) {
    flags < 16 && (Bit(flags, 1) ==> !Bit(flags, 2) && !Bit(flags, 4))
  }

  lemma FlagBits(m: InternalMessage)
    ensures var f := Flags(m);
      && f < 16 && (Bit(f, 1) <==> m.callback.Some?) && (Bit(f, 2) <==> m.deploy)
      && (Bit(f, 4) <==> m.handler.Some?) && (Bit(f, 8) <==> m.reads_.Some?)
  {
  }

  lemma FlagsFromBits(f: byte, m: InternalMessage)
    requires f < 16
    requires (Bit(f, 1) <==> m.callback.Some?) && (Bit(f, 2) <==> m.deploy)
    requires (Bit(f, 4) <==> m.handler.Some?) && (Bit(f, 8) <==> m.reads_.Some?)
    ensures Flags(m) == f
  {
  }

  function TailOf(m: InternalMessage): Tail { Tail(m.callback, m.handler, m.reads_, m.extra, m.body) }

  /** A success callback answers a real method, a failure callback carries no body. */
  predicate ConsistentCallback(m: InternalMessage) {
    m.callback.Some? ==>
      && (m.callback.value.status == 0 ==> m.methodId != 0)
      && (m.callback.value.status != 0 ==> m.body == [])
  }

  ghost predicate ValidInternal(m: InternalMessage) {
    && LegalFlags(Flags(m))
    && NonzeroAddress(m.source) && NonzeroAddress(m.destination)
    && ValidTail(TailOf(m), m.destination)
    && ConsistentCallback(m)
  }

  function InternalHeader(m: InternalMessage): (b: seq<byte>)
    requires |m.extra| < U16_END && |m.body| < U32_END
    ensures |b| == 176
  {
    [0, Flags(m)] + Le16(|m.extra|) + Le32(|m.body|) + Le64(m.methodId) + Le128(m.fuel) + Le64(m.createdLt)
    + Le32(m.createdAt) + Zeros(4) + AddressBytes(m.source) + AddressBytes(m.destination)
  }

  function InternalBytes(m: InternalMessage): seq<byte>
    requires |m.extra| < U16_END && |m.body| < U32_END && (m.reads_.Some? ==> |m.reads_.value| < U16_END)
  {
    InternalHeader(m) + TailBytes(TailOf(m))
  }

  function ShapeAt(h: seq<byte>): Shape
    requires |h| == 176
  {
    Shape(Bit(h[1], 1), Bit(h[1], 4), Bit(h[1], 8), Nat16(h[2..4]), Nat32(h[4..8]))
  }

  function InternalAt(h: seq<byte>, t: Tail): InternalMessage
    requires |h| == 176
  {
    InternalMessage(Nat64(h[8..16]), Nat128(h[16..32]), Nat64(h[32..40]), Nat32(h[40..44]), AddressAt(h[48..112]),
                    AddressAt(h[112..176]), Bit(h[1], 2), t.callback, t.handler, t.reads_, t.extra, t.body)
  }

  predicate LegalHeader(h: seq<byte>)
    requires |h| == 176
  {
    && h[0] == 0 && LegalFlags(h[1]) && h[44..48] == Zeros(4)
    && NonzeroAddress(AddressAt(h[48..112])) && NonzeroAddress(AddressAt(h[112..176]))
  }

  /** What a byte string means as an internal message, if anything. */
  ghost function ReadInternal(b: seq<byte>): Option<InternalMessage> {
    var (h, rest) :- Take(b, 176);
    if !LegalHeader(h) then None else
      var t :- TakeTail(rest, ShapeAt(h), AddressAt(h[112..176]));
      var m := InternalAt(h, t);
      if ConsistentCallback(m) then Some(m) else None
  }

  lemma HeaderFields(m: InternalMessage)
    requires |m.extra| < U16_END && |m.body| < U32_END
    ensures var h := InternalHeader(m);
      && h[0] == 0 && h[1] == Flags(m) && Nat16(h[2..4]) == |m.extra| && Nat32(h[4..8]) == |m.body|
      && Nat64(h[8..16]) == m.methodId && Nat128(h[16..32]) == m.fuel && Nat64(h[32..40]) == m.createdLt
      && Nat32(h[40..44]) == m.createdAt && h[44..48] == Zeros(4)
      && AddressAt(h[48..112]) == m.source && AddressAt(h[112..176]) == m.destination
  {
    var h := InternalHeader(m);
    assert h[2..4] == Le16(|m.extra|) && h[4..8] == Le32(|m.body|) && h[8..16] == Le64(m.methodId)
           && h[16..32] == Le128(m.fuel);
    assert h[32..40] == Le64(m.createdLt) && h[40..44] == Le32(m.createdAt) && h[44..48] == Zeros(4);
    assert h[48..112] == AddressBytes(m.source) && h[112..] == AddressBytes(m.destination) && h[112..176] == h[112..];
    Le16Inverse(|m.extra|);
    Le32Inverse(|m.body|);
    Le64Inverse(m.methodId);
    Le128Inverse(m.fuel);
    Le64Inverse(m.createdLt);
    Le32Inverse(m.createdAt);
    AddressInverse(m.source);
    AddressInverse(m.destination);
  }

  /** The fields both kinds of header start with lie one after the other. */
  lemma CommonHeader(h: seq<byte>)
    requires |h| >= 48
    ensures h[..48] == [h[0], h[1]] + h[2..4] + h[4..8] + h[8..16] + h[16..32] + h[32..40] + h[40..44] + h[44..48]
  {
    assert h[..2] == [h[0], h[1]];
    assert h[..4] == h[..2] + h[2..4];
    assert h[..8] == h[..4] + h[4..8];
    assert h[..16] == h[..8] + h[8..16];
    assert h[..32] == h[..16] + h[16..32];
    assert h[..40] == h[..32] + h[32..40];
    assert h[..44] == h[..40] + h[40..44];
    assert h[..48] == h[..44] + h[44..48];
  }

  lemma HeaderPrints(h: seq<byte>, t: Tail)
    requires |h| == 176 && LegalHeader(h) && Fits(t, ShapeAt(h))
    ensures |t.extra| < U16_END && |t.body| < U32_END && InternalHeader(InternalAt(h, t)) == h
  {
    FlagsFromBits(h[1], InternalAt(h, t));
    CommonHeader(h);
    assert h[..112] == h[..48] + h[48..112];
    assert h == h[..112] + h[112..] && h[112..176] == h[112..];
  }

  /** Decoding internal messages is the exact inverse of printing them. */
  lemma InternalExact(b: seq<byte>, m: InternalMessage)
    ensures ReadInternal(b) == Some(m) <==> ValidInternal(m) && b == InternalBytes(m)
  {
    if ValidInternal(m) && b == InternalBytes(m) {
      PrintedInternalReads(m);
    }
    if ReadInternal(b) == Some(m) {
      ReadInternalPrints(b, m);
    }
  }

  lemma PrintedInternalReads(m: InternalMessage)
    requires ValidInternal(m)
    ensures ReadInternal(InternalBytes(m)) == Some(m)
  {
    var h, t := InternalHeader(m), TailOf(m);
    TakeExact(InternalBytes(m), 176, h, TailBytes(t));
    HeaderFields(m);
    FlagBits(m);
    TailExact(TailBytes(t), ShapeAt(h), m.destination, t);
  }

  lemma ReadInternalPrints(b: seq<byte>, m: InternalMessage)
    requires ReadInternal(b) == Some(m)
    ensures ValidInternal(m) && b == InternalBytes(m)
  {
    var (h, rest) := Take(b, 176).value;
    TakeExact(b, 176, h, rest);
    var t := TakeTail(rest, ShapeAt(h), AddressAt(h[112..176])).value;
    TailExact(rest, ShapeAt(h), AddressAt(h[112..176]), t);
    HeaderPrints(h, t);
    FlagsFromBits(h[1], m);
  }

  // External messages.

  ghost predicate ValidExternal(m: ExternalMessage) {
    && NonzeroAddress(m.destination) && m.pubkey != ZERO32
    && |m.extra| < U16_END && Canonical(m.extra) && |m.body| < U32_END && |m.signature| == 64
  }

  function ExternalHeader(m: ExternalMessage): (b: seq<byte>)
    requires |m.extra| < U16_END && |m.body| < U32_END
    ensures |b| == 192
  {
    [1, if m.deploy then 3 else 1] + Le16(|m.extra|) + Le32(|m.body|) + Le64(m.methodId) + Le128(m.fuel) + Le64(m.nonce)
    + Le32(m.createdAt) + Le32(m.expireAt) + AddressBytes(m.destination) + m.pubkey + Le16(64) + Zeros(46)
  }

  function ExternalBytes(m: ExternalMessage): seq<byte>
    requires |m.extra| < U16_END && |m.body| < U32_END
  {
    ExternalHeader(m) + (ExtraBytes(m.extra) + (m.body + m.signature))
  }

  predicate LegalExternalHeader(h: seq<byte>)
    requires |h| == 192
  {
    && h[0] == 1 && (h[1] == 1 || h[1] == 3) && Nat16(h[144..146]) == 64 && h[146..192] == Zeros(46)
    && NonzeroAddress(AddressAt(h[48..112])) && h[112..144] != ZERO32
  }

  function ExternalAt(h: seq<byte>, extra: seq<Currency>, body: seq<byte>, signature: seq<byte>): ExternalMessage
    requires |h| == 192
  {
    ExternalMessage(Nat64(h[8..16]), Nat128(h[16..32]), Nat64(h[32..40]), Nat32(h[40..44]), Nat32(h[44..48]),
                    AddressAt(h[48..112]), h[112..144], h[1] == 3, extra, body, signature)
  }

  /** What a byte string means as an external message, if anything. */
  ghost function ReadExternal(b: seq<byte>): Option<ExternalMessage> {
    var (h, b1) :- Take(b, 192);
    if !LegalExternalHeader(h) then None else
      var (extra, b2) :- TakeExtra(b1, Nat16(h[2..4]));
      var (body, b3) :- Take(b2, Nat32(h[4..8]));
      if |b3| == 64 then Some(ExternalAt(h, extra, body, b3)) else None
  }

  lemma ExternalHeaderFields(m: ExternalMessage)
    requires |m.extra| < U16_END && |m.body| < U32_END
    ensures var h := ExternalHeader(m);
      && h[0] == 1 && h[1] == (if m.deploy then 3 else 1) && Nat16(h[2..4]) == |m.extra| && Nat32(h[4..8]) == |m.body|
      && Nat64(h[8..16]) == m.methodId && Nat128(h[16..32]) == m.fuel && Nat64(h[32..40]) == m.nonce
      && Nat32(h[40..44]) == m.createdAt && Nat32(h[44..48]) == m.expireAt
      && AddressAt(h[48..112]) == m.destination && h[112..144] == m.pubkey
      && Nat16(h[144..146]) == 64 && h[146..192] == Zeros(46)
  {
    var h := ExternalHeader(m);
    assert h[2..4] == Le16(|m.extra|) && h[4..8] == Le32(|m.body|) && h[8..16] == Le64(m.methodId)
           && h[16..32] == Le128(m.fuel);
    assert h[32..40] == Le64(m.nonce) && h[40..44] == Le32(m.createdAt) && h[44..48] == Le32(m.expireAt);
    assert h[48..112] == AddressBytes(m.destination) && h[112..144] == m.pubkey && h[144..146] == Le16(64);
    assert h[146..] == Zeros(46) && h[146..192] == h[146..];
    Le16Inverse(|m.extra|);
    Le32Inverse(|m.body|);
    Le64Inverse(m.methodId);
    Le128Inverse(m.fuel);
    Le64Inverse(m.nonce);
    Le32Inverse(m.createdAt);
    Le32Inverse(m.expireAt);
    AddressInverse(m.destination);
    Le16Inverse(64);
  }

  lemma ExternalHeaderPrints(h: seq<byte>, extra: seq<Currency>, body: seq<byte>, signature: seq<byte>)
    requires |h| == 192 && LegalExternalHeader(h) && |extra| == Nat16(h[2..4]) && |body| == Nat32(h[4..8])
    ensures ExternalHeader(ExternalAt(h, extra, body, signature)) == h
  {
    CommonHeader(h);
    assert h[..112] == h[..48] + h[48..112];
    assert h[..144] == h[..112] + h[112..144];
    assert h[..146] == h[..144] + h[144..146];
    assert h == h[..146] + h[146..] && h[146..192] == h[146..];
  }

  /** Decoding external messages is the exact inverse of printing them. */
  lemma ExternalExact(b: seq<byte>, m: ExternalMessage)
    ensures ReadExternal(b) == Some(m) <==> ValidExternal(m) && b == ExternalBytes(m)
  {
    if ValidExternal(m) && b == ExternalBytes(m) {
      var h := ExternalHeader(m);
      var b2 := m.body + m.signature;
      TakeExact(b, 192, h, ExtraBytes(m.extra) + b2);
      ExternalHeaderFields(m);
      ExtraExact(ExtraBytes(m.extra) + b2, |m.extra|, m.extra, b2);
      TakeExact(b2, |m.body|, m.body, m.signature);
    }
    if ReadExternal(b) == Some(m) {
      var (h, b1) := Take(b, 192).value;
      var (extra, b2) := TakeExtra(b1, Nat16(h[2..4])).value;
      var (body, b3) := Take(b2, Nat32(h[4..8])).value;
      TakeExact(b, 192, h, b1);
      ExtraExact(b1, Nat16(h[2..4]), extra, b2);
      TakeExact(b2, Nat32(h[4..8]), body, b3);
      ExternalHeaderPrints(h, extra, body, b3);
    }
  }

  // Either kind.

  ghost predicate ValidMessage(m: CanonicalMessage) {
    if m.InternalKind? then ValidInternal(m.internal) else ValidExternal(m.external)
  }

  ghost function MessageBytes(m: CanonicalMessage): (b: seq<byte>)
    requires ValidMessage(m)
    ensures |b| >= 176
  {
    if m.InternalKind? then InternalBytes(m.internal) else ExternalBytes(m.external)
  }

  /** What a byte string means as a message; the first byte decides the kind. */
  ghost function ReadMessage(b: seq<byte>): Option<CanonicalMessage> {
    if b == [] then None
    else if b[0] == 0 then
      var m :- ReadInternal(b);
      Some(InternalKind(m))
    else if b[0] == 1 then
      var m :- ReadExternal(b);
      Some(ExternalKind(m))
    else None
  }

  /** Messages are canonical: one value, one byte string. */
  lemma MessageExact(b: seq<byte>, m: CanonicalMessage)
    ensures ReadMessage(b) == Some(m) <==> ValidMessage(m) && b == MessageBytes(m)
  {
    match m
    case InternalKind(i) => InternalExact(b, i);
    case ExternalKind(e) => ExternalExact(b, e);
  }
}
