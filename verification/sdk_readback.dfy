/**
 * Reading an output back, part by part: a host-side reader of each record and list, and that it returns a part
 * exactly when the bytes in front are that part as the guest writes it.
 */
module SdkReadback {
  import opened Bytes
  import opened Sdk
  import opened Buffers
  import opened Blocks
  import opened Wire
  import opened SdkUpdates
  import opened SdkCurrencies
  import opened SdkOutput
  import SdkMessages
  import Sums

  function Take128(b: seq<byte>): Option<(u128, seq<byte>)> {
    var (p, rest) :- Take(b, 16);
    Some((Nat128(p), rest))
  }

  lemma Exact128(b: seq<byte>, x: u128, rest: seq<byte>)
    ensures Take128(b) == Some((x, rest)) <==> b == Le128(x) + rest
  {
    TakeExact(b, 16, Le128(x), rest);
    Le128Inverse(x);
  }

  // State updates.

  function TakePatch(b: seq<byte>): Option<(StatePatch, seq<byte>)> {
    var (offset, b1) :- Take32(b);
    var (oldLen, b2) :- Take32(b1);
    var (bytes, rest) :- TakePrefixed(b2);
    Some((StatePatch(offset, oldLen, bytes), rest))
  }

  lemma PatchExact(b: seq<byte>, p: StatePatch, rest: seq<byte>)
    ensures TakePatch(b) == Some((p, rest)) <==> SizedPatch(p) && b == PatchBytes(p) + rest
  {
    if SizedPatch(p) {
      var b2 := Prefixed(p.newBytes) + rest;
      var b1 := Le32(p.oldLen) + b2;
      assert PatchBytes(p) + rest == Le32(p.offset) + b1 by {
        NestFour(Le32(p.offset), Le32(p.oldLen), Le32(|p.newBytes|), p.newBytes, rest);
        assert Prefixed(p.newBytes) + rest == Le32(|p.newBytes|) + (p.newBytes + rest);
      }
      Exact32(b, p.offset, b1);
      Exact32(b1, p.oldLen, b2);
      PrefixedExact(b2, p.newBytes, rest);
    }
    if TakePatch(b) == Some((p, rest)) {
      var (_, c1) := Take32(b).value;
      var (_, c2) := Take32(c1).value;
      Exact32(b, p.offset, c1);
      Exact32(c1, p.oldLen, c2);
      PrefixedExact(c2, p.newBytes, rest);
    }
  }

  /** `n` patches, front to back. */
  function TakePatches(b: seq<byte>, n: nat): Option<(seq<StatePatch>, seq<byte>)> {
    if n == 0 then Some(([], b)) else
      var (ps, b1) :- TakePatches(b, n - 1);
      var (p, rest) :- TakePatch(b1);
      Some((ps + [p], rest))
  }

  predicate SizedPatches(ps: seq<StatePatch>) { forall i | 0 <= i < |ps| :: SizedPatch(ps[i]) }

  lemma {:induction false} PatchesExact(b: seq<byte>, n: nat, ps: seq<StatePatch>, rest: seq<byte>)
    ensures TakePatches(b, n) == Some((ps, rest)) <==>
            |ps| == n && SizedPatches(ps) && b == PatchesBytes(ps) + rest
  {
    if |ps| == n && SizedPatches(ps) && b == PatchesBytes(ps) + rest {
      PrintedPatchesRead(ps, rest);
    }
    if TakePatches(b, n) == Some((ps, rest)) {
      ReadPatchesPrint(b, n, ps, rest);
    }
  }

  lemma {:induction false} PrintedPatchesRead(ps: seq<StatePatch>, rest: seq<byte>)
    requires SizedPatches(ps)
    ensures TakePatches(PatchesBytes(ps) + rest, |ps|) == Some((ps, rest))
  {
    hide TakePatch, PatchBytes, Sums.Sum;
    if ps == [] {
      assert [] + rest == rest;
    } else {
      var head, p := ps[..|ps| - 1], ps[|ps| - 1];
      NestTwo(PatchesBytes(head), PatchBytes(p), rest);
      PrintedPatchesRead(head, PatchBytes(p) + rest);
      PatchExact(PatchBytes(p) + rest, p, rest);
      assert ps == head + [p];
    }
  }

  lemma {:induction false} ReadPatchesPrint(b: seq<byte>, n: nat, ps: seq<StatePatch>, rest: seq<byte>)
    requires TakePatches(b, n) == Some((ps, rest))
    ensures |ps| == n && SizedPatches(ps) && b == PatchesBytes(ps) + rest
  {
    hide TakePatch, PatchBytes, Sums.Sum;
    if n == 0 {
      assert [] + rest == rest;
    } else {
      var (head, b1) := TakePatches(b, n - 1).value;
      var (p, b2) := TakePatch(b1).value;
      ReadPatchesPrint(b, n - 1, head, b1);
      PatchExact(b1, p, b2);
      assert ps == head + [p] && ps[..n - 1] == head;
      NestTwo(PatchesBytes(head), PatchBytes(p), rest);
    }
  }

  /** Two bytes of count, two reserved, and the patches. */
  function TakePatchList(b: seq<byte>): Option<(seq<StatePatch>, seq<byte>)> {
    var (count, b1) :- Take16(b);
    var (reserved, b2) :- Take16(b1);
    if reserved != 0 then None else TakePatches(b2, count)
  }

  lemma PatchListExact(b: seq<byte>, ps: seq<StatePatch>, rest: seq<byte>)
    ensures TakePatchList(b) == Some((ps, rest)) <==>
            |ps| < U16_END && SizedPatches(ps) && b == Le16(|ps|) + Le16(0) + PatchesBytes(ps) + rest
  {
    hide TakePatches, PatchesBytes;
    if |ps| < U16_END && SizedPatches(ps) {
      var b2 := PatchesBytes(ps) + rest;
      NestThree(Le16(|ps|), Le16(0), PatchesBytes(ps), rest);
      Exact16(b, |ps|, Le16(0) + b2);
      Exact16(Le16(0) + b2, 0, b2);
      PatchesExact(b2, |ps|, ps, rest);
    }
    if TakePatchList(b) == Some((ps, rest)) {
      var (count, c1) := Take16(b).value;
      var (reserved, c2) := Take16(c1).value;
      Exact16(b, count, c1);
      Exact16(c1, reserved, c2);
      PatchesExact(c2, count, ps, rest);
    }
  }

  function TakeUpdate(b: seq<byte>): Option<(StateUpdate, seq<byte>)> {
    var (mode, b1) :- TakeByte(b);
    var (reserved, b2) :- Take(b1, 3);
    if reserved != [0, 0, 0] || mode > 1 then None
    else if mode == 0 then
      var (state, rest) :- TakePrefixed(b2);
      Some((Full(state), rest))
    else
      var (ps, rest) :- TakePatchList(b2);
      Some((Patches(ps), rest))
  }

  /** A state update is read back exactly: its mode, the reserved bytes, and the state or every patch. */
  lemma UpdateExact(b: seq<byte>, u: StateUpdate, rest: seq<byte>)
    ensures TakeUpdate(b) == Some((u, rest)) <==> SizedUpdate(u) && b == UpdateBytes(u) + rest
  {
    hide UpdateBytes, UpdateTail, TakeUpdate;
    if SizedUpdate(u) && b == UpdateBytes(u) + rest {
      PrintedUpdateReads(u, rest);
    }
    if TakeUpdate(b) == Some((u, rest)) {
      ReadUpdatePrints(b, u, rest);
    }
  }

  /** What follows the mode and the reserved bytes. */
  function UpdateTail(u: StateUpdate): seq<byte>
    requires SizedUpdate(u)
  {
    match u
    case Full(state) => Prefixed(state)
    case Patches(ps) => Le16(|ps|) + Le16(0) + PatchesBytes(ps)
  }

  lemma UpdateSplits(u: StateUpdate, rest: seq<byte>)
    requires SizedUpdate(u)
    ensures UpdateBytes(u) + rest == [if u.Full? then 0 else 1] + ([0, 0, 0] + (UpdateTail(u) + rest))
  {
    hide PatchesBytes, Le16, Le32;
    assert UpdateBytes(u) == [if u.Full? then 0 else 1] + [0, 0, 0] + UpdateTail(u);
    NestThree([if u.Full? then 0 else 1], [0, 0, 0], UpdateTail(u), rest);
  }

  lemma PrintedUpdateReads(u: StateUpdate, rest: seq<byte>)
    requires SizedUpdate(u)
    ensures TakeUpdate(UpdateBytes(u) + rest) == Some((u, rest))
  {
    hide TakePatchList, PatchesBytes, TakePrefixed, UpdateBytes, TakeByte, Take;
    UpdateSplits(u, rest);
    var b2 := UpdateTail(u) + rest;
    ByteExact(UpdateBytes(u) + rest, if u.Full? then 0 else 1, [0, 0, 0] + b2);
    TakeExact([0, 0, 0] + b2, 3, [0, 0, 0], b2);
    match u
    case Full(state) => PrefixedExact(b2, state, rest);
    case Patches(ps) => PatchListExact(b2, ps, rest);
  }

  lemma ReadUpdatePrints(b: seq<byte>, u: StateUpdate, rest: seq<byte>)
    requires TakeUpdate(b) == Some((u, rest))
    ensures SizedUpdate(u) && b == UpdateBytes(u) + rest
  {
    hide TakePatchList, PatchesBytes, TakePrefixed, UpdateBytes;
    var (mode, b1) := TakeByte(b).value;
    var (reserved, b2) := Take(b1, 3).value;
    ByteExact(b, mode, b1);
    TakeExact(b1, 3, reserved, b2);
    if mode == 0 {
      var (state, b3) := TakePrefixed(b2).value;
      PrefixedExact(b2, state, b3);
    } else {
      var (ps, b3) := TakePatchList(b2).value;
      PatchListExact(b2, ps, b3);
    }
    UpdateSplits(u, rest);
  }

  // Outbound messages.

  /** `count` currency amounts, in whatever order. */
  function TakeCurrencies(b: seq<byte>, count: nat): Option<(seq<Currency>, seq<byte>)> {
    var (p, rest) :- Take(b, 20 * count);
    Some((CurrenciesFrom(Cut(p, 20, count)), rest))
  }

  lemma CurrenciesExact(b: seq<byte>, count: nat, cs: seq<Currency>, rest: seq<byte>)
    ensures TakeCurrencies(b, count) == Some((cs, rest)) <==> |cs| == count && b == ExtraBytes(cs) + rest
  {
    if |cs| == count && b == ExtraBytes(cs) + rest {
      TakeExact(b, 20 * count, ExtraBytes(cs), rest);
      CutOfFlat(CurrencyRows(cs), 20);
      CurrenciesInverse(cs);
    }
    if TakeCurrencies(b, count) == Some((cs, rest)) {
      var p := Take(b, 20 * count).value.0;
      TakeExact(b, 20 * count, p, rest);
      FlatOfCut(p, 20, count);
    }
  }

  function TakeIntent(b: seq<byte>): Option<(OutboundIntent, seq<byte>)> {
    var (inputIndex, b1) :- Take32(b);
    var (destination, b2) :- SdkMessages.TakeAddress(b1);
    var (fuel, b3) :- Take128(b2);
    var (count, b4) :- Take16(b3);
    var (extra, b5) :- TakeCurrencies(b4, count);
    var (methodId, b6) :- Take64(b5);
    var (body, rest) :- TakePrefixed(b6);
    Some((OutboundIntent(inputIndex, destination, fuel, extra, methodId, body), rest))
  }

  /** An outbound message is read back exactly, field for field. */
  lemma IntentExact(b: seq<byte>, o: OutboundIntent, rest: seq<byte>)
    ensures TakeIntent(b) == Some((o, rest)) <==> SizedIntent(o) && b == IntentBytes(o) + rest
  {
    if SizedIntent(o) && b == IntentBytes(o) + rest {
      PrintedIntentReads(o, rest);
    }
    if TakeIntent(b) == Some((o, rest)) {
      ReadIntentPrints(b, o, rest);
    }
  }

  lemma IntentSplits(o: OutboundIntent, rest: seq<byte>)
    requires SizedIntent(o)
    ensures IntentBytes(o) + rest ==
            Le32(o.inputIndex) + (AddressBytes(o.destination) + (Le128(o.fuel) + (Le16(|o.extra|)
              + (ExtraBytes(o.extra) + (Le64(o.methodId) + (Prefixed(o.body) + rest))))))
  {
    hide ExtraBytes, AddressBytes, Le;
    var tail := Le32(|o.body|) + o.body;
    var front := Le32(o.inputIndex) + AddressBytes(o.destination) + Le128(o.fuel) + Le16(|o.extra|)
                 + ExtraBytes(o.extra);
    NestThree(front, Le64(o.methodId), tail, rest);
    assert IntentBytes(o) == front + Le64(o.methodId) + tail;
    NestFive(Le32(o.inputIndex), AddressBytes(o.destination), Le128(o.fuel), Le16(|o.extra|), ExtraBytes(o.extra),
      Le64(o.methodId) + (tail + rest));
  }

  lemma PrintedIntentReads(o: OutboundIntent, rest: seq<byte>)
    requires SizedIntent(o)
    ensures TakeIntent(IntentBytes(o) + rest) == Some((o, rest))
  {
    hide ExtraBytes, TakeCurrencies, TakePrefixed, Prefixed, AddressBytes, SdkMessages.TakeAddress;
    IntentSplits(o, rest);
    var b6 := Prefixed(o.body) + rest;
    var b5 := Le64(o.methodId) + b6;
    var b4 := ExtraBytes(o.extra) + b5;
    var b3 := Le16(|o.extra|) + b4;
    var b2 := Le128(o.fuel) + b3;
    var b1 := AddressBytes(o.destination) + b2;
    Exact32(IntentBytes(o) + rest, o.inputIndex, b1);
    SdkMessages.AddressExact(b1, o.destination, b2);
    Exact128(b2, o.fuel, b3);
    Exact16(b3, |o.extra|, b4);
    CurrenciesExact(b4, |o.extra|, o.extra, b5);
    Exact64(b5, o.methodId, b6);
    PrefixedExact(b6, o.body, rest);
  }

  lemma ReadIntentPrints(b: seq<byte>, o: OutboundIntent, rest: seq<byte>)
    requires TakeIntent(b) == Some((o, rest))
    ensures SizedIntent(o) && b == IntentBytes(o) + rest
  {
    hide ExtraBytes, TakeCurrencies, TakePrefixed, Prefixed, AddressBytes, SdkMessages.TakeAddress, IntentBytes;
    var (inputIndex, b1) := Take32(b).value;
    var (destination, b2) := SdkMessages.TakeAddress(b1).value;
    var (fuel, b3) := Take128(b2).value;
    var (count, b4) := Take16(b3).value;
    var (extra, b5) := TakeCurrencies(b4, count).value;
    var (methodId, b6) := Take64(b5).value;
    var (body, b7) := TakePrefixed(b6).value;
    Exact32(b, inputIndex, b1);
    SdkMessages.AddressExact(b1, destination, b2);
    Exact128(b2, fuel, b3);
    Exact16(b3, count, b4);
    CurrenciesExact(b4, count, extra, b5);
    Exact64(b5, methodId, b6);
    PrefixedExact(b6, body, b7);
    IntentSplits(o, rest);
  }

  function TakeIntents(b: seq<byte>, n: nat): Option<(seq<OutboundIntent>, seq<byte>)> {
    if n == 0 then Some(([], b)) else
      var (os, b1) :- TakeIntents(b, n - 1);
      var (o, rest) :- TakeIntent(b1);
      Some((os + [o], rest))
  }

  predicate SizedIntents(os: seq<OutboundIntent>) { forall i | 0 <= i < |os| :: SizedIntent(os[i]) }

  lemma {:induction false} IntentsExact(b: seq<byte>, n: nat, os: seq<OutboundIntent>, rest: seq<byte>)
    ensures TakeIntents(b, n) == Some((os, rest)) <==>
            |os| == n && SizedIntents(os) && b == IntentsBytes(os) + rest
  {
    if |os| == n && SizedIntents(os) && b == IntentsBytes(os) + rest {
      PrintedIntentsRead(os, rest);
    }
    if TakeIntents(b, n) == Some((os, rest)) {
      ReadIntentsPrint(b, n, os, rest);
    }
  }

  lemma {:induction false} PrintedIntentsRead(os: seq<OutboundIntent>, rest: seq<byte>)
    requires SizedIntents(os)
    ensures TakeIntents(IntentsBytes(os) + rest, |os|) == Some((os, rest))
  {
    hide TakeIntent, IntentBytes, IntentSize, Sums.Sum;
    if os == [] {
      assert [] + rest == rest;
    } else {
      var head, o := os[..|os| - 1], os[|os| - 1];
      NestTwo(IntentsBytes(head), IntentBytes(o), rest);
      PrintedIntentsRead(head, IntentBytes(o) + rest);
      IntentExact(IntentBytes(o) + rest, o, rest);
      assert os == head + [o];
    }
  }

  lemma {:induction false} ReadIntentsPrint(b: seq<byte>, n: nat, os: seq<OutboundIntent>, rest: seq<byte>)
    requires TakeIntents(b, n) == Some((os, rest))
    ensures |os| == n && SizedIntents(os) && b == IntentsBytes(os) + rest
  {
    hide TakeIntent, IntentBytes, IntentSize, Sums.Sum;
    if n == 0 {
      assert [] + rest == rest;
    } else {
      var (head, b1) := TakeIntents(b, n - 1).value;
      var (o, b2) := TakeIntent(b1).value;
      ReadIntentsPrint(b, n - 1, head, b1);
      IntentExact(b1, o, b2);
      assert os == head + [o] && os[..n - 1] == head;
      NestTwo(IntentsBytes(head), IntentBytes(o), rest);
    }
  }

  function TakeOutbound(b: seq<byte>): Option<(seq<OutboundIntent>, seq<byte>)> {
    var (n, rest) :- Take32(b);
    TakeIntents(rest, n)
  }

  lemma OutboundExact(b: seq<byte>, os: seq<OutboundIntent>, rest: seq<byte>)
    ensures TakeOutbound(b) == Some((os, rest)) <==> SizedOutbound(os) && b == OutboundBytes(os) + rest
  {
    hide TakeIntents, IntentsBytes;
    if SizedOutbound(os) && b == OutboundBytes(os) + rest {
      assert b == Le32(|os|) + (IntentsBytes(os) + rest);
      Exact32(b, |os|, IntentsBytes(os) + rest);
      IntentsExact(IntentsBytes(os) + rest, |os|, os, rest);
    }
    if TakeOutbound(b) == Some((os, rest)) {
      var (n, b1) := Take32(b).value;
      Exact32(b, n, b1);
      IntentsExact(b1, n, os, rest);
      assert OutboundBytes(os) + rest == Le32(|os|) + (IntentsBytes(os) + rest);
    }
  }

  // Callback requests.

  function TakeCallback(b: seq<byte>): Option<(CallbackIntent, seq<byte>)> {
    var (index, b1) :- Take32(b);
    var (handler, rest) :- Take64(b1);
    Some((CallbackIntent(index, handler), rest))
  }

  lemma CallbackExact(b: seq<byte>, c: CallbackIntent, rest: seq<byte>)
    ensures TakeCallback(b) == Some((c, rest)) <==> b == CallbackBytes(c) + rest
  {
    assert CallbackBytes(c) + rest == Le32(c.outboundIndex) + (Le64(c.handler) + rest);
    Exact32(b, c.outboundIndex, Le64(c.handler) + rest);
    Exact64(Le64(c.handler) + rest, c.handler, rest);
    if TakeCallback(b) == Some((c, rest)) {
      var (index, b1) := Take32(b).value;
      Exact32(b, index, b1);
      Exact64(b1, c.handler, rest);
    }
  }

  function TakeCallbackList(b: seq<byte>, n: nat): Option<(seq<CallbackIntent>, seq<byte>)> {
    if n == 0 then Some(([], b)) else
      var (cs, b1) :- TakeCallbackList(b, n - 1);
      var (c, rest) :- TakeCallback(b1);
      Some((cs + [c], rest))
  }

  lemma {:induction false} CallbackListExact(b: seq<byte>, n: nat, cs: seq<CallbackIntent>, rest: seq<byte>)
    ensures TakeCallbackList(b, n) == Some((cs, rest)) <==>
            |cs| == n && b == CallbacksBytes(cs) + rest
  {
    if |cs| == n && b == CallbacksBytes(cs) + rest {
      PrintedCallbackListRead(cs, rest);
    }
    if TakeCallbackList(b, n) == Some((cs, rest)) {
      ReadCallbackListPrint(b, n, cs, rest);
    }
  }

  lemma {:induction false} PrintedCallbackListRead(cs: seq<CallbackIntent>, rest: seq<byte>)
    ensures TakeCallbackList(CallbacksBytes(cs) + rest, |cs|) == Some((cs, rest))
  {
    hide TakeCallback, CallbackBytes;
    if cs == [] {
      assert [] + rest == rest;
    } else {
      var head, c := cs[..|cs| - 1], cs[|cs| - 1];
      NestTwo(CallbacksBytes(head), CallbackBytes(c), rest);
      PrintedCallbackListRead(head, CallbackBytes(c) + rest);
      CallbackExact(CallbackBytes(c) + rest, c, rest);
      assert cs == head + [c];
    }
  }

  lemma {:induction false} ReadCallbackListPrint(b: seq<byte>, n: nat, cs: seq<CallbackIntent>, rest: seq<byte>)
    requires TakeCallbackList(b, n) == Some((cs, rest))
    ensures |cs| == n && b == CallbacksBytes(cs) + rest
  {
    hide TakeCallback, CallbackBytes;
    if n == 0 {
      assert [] + rest == rest;
    } else {
      var (head, b1) := TakeCallbackList(b, n - 1).value;
      var (c, b2) := TakeCallback(b1).value;
      ReadCallbackListPrint(b, n - 1, head, b1);
      CallbackExact(b1, c, b2);
      assert cs == head + [c] && cs[..n - 1] == head;
      NestTwo(CallbacksBytes(head), CallbackBytes(c), rest);
    }
  }

  function TakeCallbacks(b: seq<byte>): Option<(seq<CallbackIntent>, seq<byte>)> {
    var (n, rest) :- Take32(b);
    TakeCallbackList(rest, n)
  }

  lemma CallbacksExact(b: seq<byte>, cs: seq<CallbackIntent>, rest: seq<byte>)
    ensures TakeCallbacks(b) == Some((cs, rest)) <==>
            |cs| < U32_END && b == Le32(|cs|) + CallbacksBytes(cs) + rest
  {
    hide TakeCallbackList, CallbacksBytes;
    if |cs| < U32_END {
      assert Le32(|cs|) + CallbacksBytes(cs) + rest == Le32(|cs|) + (CallbacksBytes(cs) + rest);
      Exact32(b, |cs|, CallbacksBytes(cs) + rest);
      CallbackListExact(CallbacksBytes(cs) + rest, |cs|, cs, rest);
    }
    if TakeCallbacks(b) == Some((cs, rest)) {
      var (n, b1) := Take32(b).value;
      Exact32(b, n, b1);
      CallbackListExact(b1, n, cs, rest);
    }
  }

  // Events.

  function TakeTopic(b: seq<byte>): Option<(seq<byte>, seq<byte>)> {
    var (n, rest) :- Take16(b);
    Take(rest, n)
  }

  function TopicBytes(t: seq<byte>): seq<byte>
    requires |t| < U16_END
  {
    Le16(|t|) + t
  }

  lemma TopicExact(b: seq<byte>, t: seq<byte>, rest: seq<byte>)
    ensures TakeTopic(b) == Some((t, rest)) <==> |t| < U16_END && b == TopicBytes(t) + rest
  {
    if |t| < U16_END {
      NestTwo(Le16(|t|), t, rest);
      Exact16(b, |t|, t + rest);
      TakeExact(t + rest, |t|, t, rest);
    }
    if TakeTopic(b) == Some((t, rest)) {
      var (n, b1) := Take16(b).value;
      Exact16(b, n, b1);
      TakeExact(b1, n, t, rest);
    }
  }

  function TakeTopics(b: seq<byte>, n: nat): Option<(seq<seq<byte>>, seq<byte>)> {
    if n == 0 then Some(([], b)) else
      var (ts, b1) :- TakeTopics(b, n - 1);
      var (t, rest) :- TakeTopic(b1);
      Some((ts + [t], rest))
  }

  predicate ShortTopics(ts: seq<seq<byte>>) { forall i | 0 <= i < |ts| :: |ts[i]| < U16_END }

  lemma {:induction false} TopicsExact(b: seq<byte>, n: nat, ts: seq<seq<byte>>, rest: seq<byte>)
    ensures TakeTopics(b, n) == Some((ts, rest)) <==>
            |ts| == n && ShortTopics(ts) && b == TopicsBytes(ts) + rest
  {
    if |ts| == n && ShortTopics(ts) && b == TopicsBytes(ts) + rest {
      PrintedTopicsRead(ts, rest);
    }
    if TakeTopics(b, n) == Some((ts, rest)) {
      ReadTopicsPrint(b, n, ts, rest);
    }
  }

  lemma {:induction false} PrintedTopicsRead(ts: seq<seq<byte>>, rest: seq<byte>)
    requires ShortTopics(ts)
    ensures TakeTopics(TopicsBytes(ts) + rest, |ts|) == Some((ts, rest))
  {
    hide TakeTopic, Sums.Sum;
    if ts == [] {
      assert [] + rest == rest;
    } else {
      var head, t := ts[..|ts| - 1], ts[|ts| - 1];
      NestTwo(TopicsBytes(head), TopicBytes(t), rest);
      PrintedTopicsRead(head, TopicBytes(t) + rest);
      TopicExact(TopicBytes(t) + rest, t, rest);
      assert ts == head + [t];
    }
  }

  lemma {:induction false} ReadTopicsPrint(b: seq<byte>, n: nat, ts: seq<seq<byte>>, rest: seq<byte>)
    requires TakeTopics(b, n) == Some((ts, rest))
    ensures |ts| == n && ShortTopics(ts) && b == TopicsBytes(ts) + rest
  {
    hide TakeTopic, Sums.Sum;
    if n == 0 {
      assert [] + rest == rest;
    } else {
      var (head, b1) := TakeTopics(b, n - 1).value;
      var (t, b2) := TakeTopic(b1).value;
      ReadTopicsPrint(b, n - 1, head, b1);
      TopicExact(b1, t, b2);
      assert ts == head + [t] && ts[..n - 1] == head;
      NestTwo(TopicsBytes(head), TopicBytes(t), rest);
    }
  }

  function TakeEvent(b: seq<byte>): Option<(EventIntent, seq<byte>)> {
    var (inputIndex, b1) :- Take32(b);
    var (kind, b2) :- TakeByte(b1);
    var (eventClass, b3) :- Take64(b2);
    var (name, b4) :- TakeTopic(b3);
    var (count, b5) :- Take16(b4);
    var (topics, b6) :- TakeTopics(b5, count);
    var (fields, rest) :- TakePrefixed(b6);
    if kind > 1 then None
    else Some((EventIntent(inputIndex, if kind == 0 then ExternalEvent else InternalEvent, eventClass, name, topics,
                           fields), rest))
  }

  /** An event is read back exactly, field for field. */
  lemma EventExact(b: seq<byte>, e: EventIntent, rest: seq<byte>)
    ensures TakeEvent(b) == Some((e, rest)) <==> SizedEvent(e) && b == EventBytes(e) + rest
  {
    hide TakeEvent, EventBytes;
    if SizedEvent(e) && b == EventBytes(e) + rest {
      PrintedEventReads(e, rest);
    }
    if TakeEvent(b) == Some((e, rest)) {
      ReadEventPrints(b, e, rest);
    }
  }

  function KindByte(k: EventKind): byte { if k == ExternalEvent then 0 else 1 }

  lemma EventSplits(e: EventIntent, rest: seq<byte>)
    requires SizedEvent(e)
    ensures EventBytes(e) + rest ==
            Le32(e.inputIndex) + ([KindByte(e.kind)] + (Le64(e.eventClass) + (TopicBytes(e.name)
              + (Le16(|e.topics|) + (TopicsBytes(e.topics) + (Prefixed(e.fields) + rest))))))
  {
    hide TopicsBytes, Le, Sums.Sum;
    var a, k, c, name := Le32(e.inputIndex), [KindByte(e.kind)], Le64(e.eventClass), TopicBytes(e.name);
    var n, ts, fs := Le16(|e.topics|), TopicsBytes(e.topics), Prefixed(e.fields);
    assert EventBytes(e) == a + k + c + Le16(|e.name|) + e.name + n + ts + Le32(|e.fields|) + e.fields;
    NestTwo(a + k + c, Le16(|e.name|), e.name);
    NestTwo(a + k + c + name + n + ts, Le32(|e.fields|), e.fields);
    assert EventBytes(e) + rest == a + k + c + name + n + ts + fs + rest;
    NestThree(a + k + c + name, n, ts, fs + rest);
    NestTwo(a + k + c + name + n + ts, fs, rest);
    NestFour(a, k, c, name, n + (ts + (fs + rest)));
  }

  lemma PrintedEventReads(e: EventIntent, rest: seq<byte>)
    requires SizedEvent(e)
    ensures TakeEvent(EventBytes(e) + rest) == Some((e, rest))
  {
    hide TakeTopics, TopicsBytes, TakePrefixed, Prefixed, TakeTopic, TopicBytes, EventBytes;
    EventSplits(e, rest);
    var b6 := Prefixed(e.fields) + rest;
    var b5 := TopicsBytes(e.topics) + b6;
    var b4 := Le16(|e.topics|) + b5;
    var b3 := TopicBytes(e.name) + b4;
    var b2 := Le64(e.eventClass) + b3;
    var b1 := [KindByte(e.kind)] + b2;
    Exact32(EventBytes(e) + rest, e.inputIndex, b1);
    ByteExact(b1, KindByte(e.kind), b2);
    Exact64(b2, e.eventClass, b3);
    TopicExact(b3, e.name, b4);
    Exact16(b4, |e.topics|, b5);
    TopicsExact(b5, |e.topics|, e.topics, b6);
    PrefixedExact(b6, e.fields, rest);
  }

  lemma ReadEventPrints(b: seq<byte>, e: EventIntent, rest: seq<byte>)
    requires TakeEvent(b) == Some((e, rest))
    ensures SizedEvent(e) && b == EventBytes(e) + rest
  {
    hide TakeTopics, TopicsBytes, TakePrefixed, Prefixed, TakeTopic, TopicBytes, EventBytes;
    var (inputIndex, b1) := Take32(b).value;
    var (kind, b2) := TakeByte(b1).value;
    var (eventClass, b3) := Take64(b2).value;
    var (name, b4) := TakeTopic(b3).value;
    var (count, b5) := Take16(b4).value;
    var (topics, b6) := TakeTopics(b5, count).value;
    var (fields, b7) := TakePrefixed(b6).value;
    Exact32(b, inputIndex, b1);
    ByteExact(b1, kind, b2);
    Exact64(b2, eventClass, b3);
    TopicExact(b3, name, b4);
    Exact16(b4, count, b5);
    TopicsExact(b5, count, topics, b6);
    PrefixedExact(b6, fields, b7);
    EventSplits(e, rest);
  }

  function TakeEventList(b: seq<byte>, n: nat): Option<(seq<EventIntent>, seq<byte>)> {
    if n == 0 then Some(([], b)) else
      var (es, b1) :- TakeEventList(b, n - 1);
      var (e, rest) :- TakeEvent(b1);
      Some((es + [e], rest))
  }

  predicate SizedEventList(es: seq<EventIntent>) { forall i | 0 <= i < |es| :: SizedEvent(es[i]) }

  lemma {:induction false} EventListExact(b: seq<byte>, n: nat, es: seq<EventIntent>, rest: seq<byte>)
    ensures TakeEventList(b, n) == Some((es, rest)) <==>
            |es| == n && SizedEventList(es) && b == EventListBytes(es) + rest
  {
    if |es| == n && SizedEventList(es) && b == EventListBytes(es) + rest {
      PrintedEventListRead(es, rest);
    }
    if TakeEventList(b, n) == Some((es, rest)) {
      ReadEventListPrint(b, n, es, rest);
    }
  }

  lemma {:induction false} PrintedEventListRead(es: seq<EventIntent>, rest: seq<byte>)
    requires SizedEventList(es)
    ensures TakeEventList(EventListBytes(es) + rest, |es|) == Some((es, rest))
  {
    hide TakeEvent, EventBytes, EventSize, Sums.Sum;
    if es == [] {
      assert [] + rest == rest;
    } else {
      var head, e := es[..|es| - 1], es[|es| - 1];
      NestTwo(EventListBytes(head), EventBytes(e), rest);
      PrintedEventListRead(head, EventBytes(e) + rest);
      EventExact(EventBytes(e) + rest, e, rest);
      assert es == head + [e];
    }
  }

  lemma {:induction false} ReadEventListPrint(b: seq<byte>, n: nat, es: seq<EventIntent>, rest: seq<byte>)
    requires TakeEventList(b, n) == Some((es, rest))
    ensures |es| == n && SizedEventList(es) && b == EventListBytes(es) + rest
  {
    hide TakeEvent, EventBytes, EventSize, Sums.Sum;
    if n == 0 {
      assert [] + rest == rest;
    } else {
      var (head, b1) := TakeEventList(b, n - 1).value;
      var (e, b2) := TakeEvent(b1).value;
      ReadEventListPrint(b, n - 1, head, b1);
      EventExact(b1, e, b2);
      assert es == head + [e] && es[..n - 1] == head;
      NestTwo(EventListBytes(head), EventBytes(e), rest);
    }
  }

  function TakeEvents(b: seq<byte>): Option<(seq<EventIntent>, seq<byte>)> {
    var (n, rest) :- Take32(b);
    TakeEventList(rest, n)
  }

  lemma EventsExact(b: seq<byte>, es: seq<EventIntent>, rest: seq<byte>)
    ensures TakeEvents(b) == Some((es, rest)) <==> SizedEvents(es) && b == EventsBytes(es) + rest
  {
    hide TakeEventList, EventListBytes;
    if SizedEvents(es) && b == EventsBytes(es) + rest {
      NestTwo(Le32(|es|), EventListBytes(es), rest);
      Exact32(b, |es|, EventListBytes(es) + rest);
      EventListExact(EventListBytes(es) + rest, |es|, es, rest);
    }
    if TakeEvents(b) == Some((es, rest)) {
      var (n, b1) := Take32(b).value;
      Exact32(b, n, b1);
      EventListExact(b1, n, es, rest);
      NestTwo(Le32(|es|), EventListBytes(es), rest);
    }
  }

  // Statuses of a batch.

  function TakeStatusList(b: seq<byte>, n: nat): Option<(seq<u32>, seq<byte>)> {
    if n == 0 then Some(([], b)) else
      var (ss, b1) :- TakeStatusList(b, n - 1);
      var (s, rest) :- Take32(b1);
      Some((ss + [s], rest))
  }

  lemma {:induction false} StatusListExact(b: seq<byte>, n: nat, ss: seq<u32>, rest: seq<byte>)
    ensures TakeStatusList(b, n) == Some((ss, rest)) <==>
            |ss| == n && b == StatusesBytes(ss) + rest
  {
    if |ss| == n && b == StatusesBytes(ss) + rest {
      PrintedStatusListRead(ss, rest);
    }
    if TakeStatusList(b, n) == Some((ss, rest)) {
      ReadStatusListPrint(b, n, ss, rest);
    }
  }

  lemma {:induction false} PrintedStatusListRead(ss: seq<u32>, rest: seq<byte>)
    ensures TakeStatusList(StatusesBytes(ss) + rest, |ss|) == Some((ss, rest))
  {
    hide Take32, Le32;
    if ss == [] {
      assert [] + rest == rest;
    } else {
      var head, s := ss[..|ss| - 1], ss[|ss| - 1];
      NestTwo(StatusesBytes(head), Le32(s), rest);
      PrintedStatusListRead(head, Le32(s) + rest);
      Exact32(Le32(s) + rest, s, rest);
      assert ss == head + [s];
    }
  }

  lemma {:induction false} ReadStatusListPrint(b: seq<byte>, n: nat, ss: seq<u32>, rest: seq<byte>)
    requires TakeStatusList(b, n) == Some((ss, rest))
    ensures |ss| == n && b == StatusesBytes(ss) + rest
  {
    hide Take32, Le32;
    if n == 0 {
      assert [] + rest == rest;
    } else {
      var (head, b1) := TakeStatusList(b, n - 1).value;
      var (s, b2) := Take32(b1).value;
      ReadStatusListPrint(b, n - 1, head, b1);
      Exact32(b1, s, b2);
      assert ss == head + [s] && ss[..n - 1] == head;
      NestTwo(StatusesBytes(head), Le32(s), rest);
    }
  }

  function TakeStatuses(b: seq<byte>): Option<(seq<u32>, seq<byte>)> {
    var (n, rest) :- Take32(b);
    TakeStatusList(rest, n)
  }

  lemma StatusesExact(b: seq<byte>, ss: seq<u32>, rest: seq<byte>)
    ensures TakeStatuses(b) == Some((ss, rest)) <==>
            |ss| < U32_END && b == Le32(|ss|) + StatusesBytes(ss) + rest
  {
    hide TakeStatusList, StatusesBytes;
    if |ss| < U32_END {
      NestTwo(Le32(|ss|), StatusesBytes(ss), rest);
      Exact32(b, |ss|, StatusesBytes(ss) + rest);
      StatusListExact(StatusesBytes(ss) + rest, |ss|, ss, rest);
    }
    if TakeStatuses(b) == Some((ss, rest)) {
      var (n, b1) := Take32(b).value;
      Exact32(b, n, b1);
      StatusListExact(b1, n, ss, rest);
    }
  }
}
