/** Which outputs the SDK lets a contract return, and the checks that decide it. */
module SdkShape {
  import opened Bytes
  import opened Sdk
  import opened SdkUpdates
  import opened SdkOutput
  import EventFields

  // The encoder's error values, by position in the enumeration.
  const INVALID_STATUS_CODE := 1
  const MISSING_STATE_UPDATE := 2
  const EFFECTS_ON_FAILURE := 3
  const STATE_MODE_MISMATCH := 4
  const INVALID_EXTRA_CURRENCIES := 5
  const INVALID_INDEX := 7
  const INVALID_CALLBACK := 8
  const UPGRADE_FORBIDDEN := 10
  const UPGRADE_REQUIRED := 11

  predicate ValidStatus(status: u32) { status == 0 || status >= 1000 }

  ghost predicate ValidExtra(extra: seq<Currency>) { |extra| < U16_END && Canonical(extra) }

  ghost predicate ValidIntent(o: OutboundIntent) {
    NonzeroAddress(o.destination) && ValidExtra(o.extra) && |o.body| < U32_END
  }

  ghost predicate ValidOutbound(os: seq<OutboundIntent>) {
    |os| < U32_END && forall i | 0 <= i < |os| :: ValidIntent(os[i])
  }

  predicate ValidEvent(utf8: seq<byte> -> bool, e: EventIntent) {
    SizedEvent(e) && EventFields.ReadList(utf8, e.fields).Some?
  }

  predicate ValidEvents(utf8: seq<byte> -> bool, es: seq<EventIntent>) {
    |es| < U32_END && forall i | 0 <= i < |es| :: ValidEvent(utf8, es[i])
  }

  ghost predicate ValidUpdate(u: Option<StateUpdate>) {
    u.Some? && u.value.Patches? ==> Encodable(u.value.patches)
  }

  /** Each callback names a handler and an outbound message of its own. */
  predicate ValidCallbacks(cs: seq<CallbackIntent>, outbound: nat) {
    && (forall i | 0 <= i < |cs| :: cs[i].handler != 0 && cs[i].outboundIndex < outbound)
    && (forall i, j | 0 <= i < j < |cs| :: cs[i].outboundIndex != cs[j].outboundIndex)
  }

  predicate Effectless(m: MessageOutput) {
    m.update.None? && m.result == [] && m.outbound == [] && m.callbacks == [] && m.events == [] && m.upgrade.None?
  }

  predicate FirstInputOnly(m: MessageOutput) {
    && (forall i | 0 <= i < |m.outbound| :: m.outbound[i].inputIndex == 0)
    && (forall i | 0 <= i < |m.events| :: m.events[i].inputIndex == 0)
  }

  /** A success brings a state update, in the mode asked for if one is; a failure brings nothing at all. */
  ghost predicate ValidMessage(utf8: seq<byte> -> bool, m: MessageOutput, mode: Option<Mode>) {
    && ValidStatus(m.status)
    && (if m.status == 0 then m.update.Some? && (mode.Some? ==> mode.value == m.update.value.UpdateMode())
        else Effectless(m))
    && ValidUpdate(m.update)
    && ValidOutbound(m.outbound)
    && ValidEvents(utf8, m.events)
    && ValidCallbacks(m.callbacks, |m.outbound|)
    && FirstInputOnly(m)
  }

  ghost predicate ValidBatch(utf8: seq<byte> -> bool, b: BatchOutput, mode: Option<Mode>) {
    && (mode.Some? ==> mode.value == b.update.UpdateMode())
    && ValidUpdate(Some(b.update))
    && (forall i | 0 <= i < |b.statuses| :: ValidStatus(b.statuses[i]))
    && ValidOutbound(b.outbound)
    && ValidEvents(utf8, b.events)
  }

  /** Different slots below `n`: there are at most `n` of them. */
  lemma {:induction false} DistinctBelow(xs: seq<nat>, n: nat)
    requires forall i | 0 <= i < |xs| :: xs[i] < n
    requires forall i, j | 0 <= i < j < |xs| :: xs[i] != xs[j]
    ensures |xs| <= n
  {
    if xs != [] {
      assert xs[0] < n;
      if n - 1 in xs {
        var k :| 0 <= k < |xs| && xs[k] == n - 1;
        var rest := xs[..k] + xs[k + 1..];
        forall i | 0 <= i < |rest| ensures rest[i] < n - 1 {
          assert rest[i] == xs[if i < k then i else i + 1];
        }
        DistinctBelow(rest, n - 1);
      } else {
        DistinctBelow(xs, n - 1);
      }
    }
  }

  /** Every acceptable output fits its length fields, callbacks included: each has an outbound message to itself. */
  lemma ValidMessageIsSized(utf8: seq<byte> -> bool, m: MessageOutput, mode: Option<Mode>)
    requires ValidMessage(utf8, m, mode) && |m.result| < U32_END
    requires m.update.Some? && m.update.value.Full? ==> |m.update.value.state| < U32_END
    ensures SizedMessage(m)
  {
    DistinctBelow(seq(|m.callbacks|, i requires 0 <= i < |m.callbacks| => m.callbacks[i].outboundIndex), |m.outbound|);
    forall i | 0 <= i < |m.events| ensures SizedEvent(m.events[i]) {
      assert ValidEvent(utf8, m.events[i]);
    }
    forall i | 0 <= i < |m.outbound| ensures SizedIntent(m.outbound[i]) {
      assert ValidIntent(m.outbound[i]);
    }
  }

  /** An adjacent check of the currency order is enough. */
  method ValidateExtra(extra: seq<Currency>) returns (r: Result<()>)
    ensures r == if |extra| >= U16_END then Err(LENGTH_OVERFLOW)
                 else if Canonical(extra) then Ok(()) else Err(INVALID_EXTRA_CURRENCIES)
  {
    if |extra| >= U16_END {
      return Err(LENGTH_OVERFLOW);
    }
    for i := 0 to |extra|
      invariant forall j, k | 0 <= j < k < i :: extra[j].id < extra[k].id
    {
      if i > 0 && extra[i - 1].id >= extra[i].id {
        assert !Canonical(extra);
        return Err(INVALID_EXTRA_CURRENCIES);
      }
    }
    return Ok(());
  }

  method ValidateOutbound(os: seq<OutboundIntent>) returns (r: Result<()>)
    ensures r.Ok? <==> ValidOutbound(os)
  {
    if |os| >= U32_END {
      return Err(LENGTH_OVERFLOW);
    }
    for i := 0 to |os|
      invariant forall k | 0 <= k < i :: ValidIntent(os[k])
    {
      var o := os[i];
      if o.destination.dapp == ZERO32 || o.destination.account == ZERO32 {
        assert !ValidIntent(os[i]);
        return Err(INVALID_INDEX);
      }
      var _ :- ValidateExtra(o.extra);
      if |o.body| >= U32_END {
        assert !ValidIntent(os[i]);
        return Err(LENGTH_OVERFLOW);
      }
    }
    return Ok(());
  }

  method ValidateTopics(ts: seq<seq<byte>>) returns (r: Result<()>)
    ensures r == if SizedTopics(ts) then Ok(()) else Err(LENGTH_OVERFLOW)
  {
    if |ts| >= U16_END {
      return Err(LENGTH_OVERFLOW);
    }
    for i := 0 to |ts|
      invariant forall k | 0 <= k < i :: |ts[k]| < U16_END
    {
      if |ts[i]| >= U16_END {
        return Err(LENGTH_OVERFLOW);
      }
    }
    return Ok(());
  }

  method ValidateEvents(utf8: seq<byte> -> bool, es: seq<EventIntent>) returns (r: Result<()>)
    ensures r.Ok? <==> ValidEvents(utf8, es)
  {
    hide EventFields.ReadList;
    if |es| >= U32_END {
      return Err(LENGTH_OVERFLOW);
    }
    for i := 0 to |es|
      invariant forall k | 0 <= k < i :: ValidEvent(utf8, es[k])
    {
      var e := es[i];
      if |e.name| >= U16_END {
        assert !ValidEvent(utf8, es[i]);
        return Err(LENGTH_OVERFLOW);
      }
      var _ :- ValidateTopics(e.topics);
      if |e.fields| >= U32_END {
        assert !ValidEvent(utf8, es[i]);
        return Err(LENGTH_OVERFLOW);
      }
      var _ :- EventFields.ValidateEventFieldList(utf8, e.fields);
    }
    return Ok(());
  }

  /** The callback loop with its list of slots seen. */
  method ValidateCallbacks(cs: seq<CallbackIntent>, outbound: nat) returns (r: Result<()>)
    ensures r == if ValidCallbacks(cs, outbound) then Ok(()) else Err(INVALID_CALLBACK)
  {
    var seen: seq<u32> := [];
    for i := 0 to |cs|
      invariant |seen| == i && forall k | 0 <= k < i :: seen[k] == cs[k].outboundIndex
      invariant forall k | 0 <= k < i :: cs[k].handler != 0 && cs[k].outboundIndex < outbound
      invariant forall j, k | 0 <= j < k < i :: cs[j].outboundIndex != cs[k].outboundIndex
    {
      if cs[i].handler == 0 || cs[i].outboundIndex >= outbound || cs[i].outboundIndex in seen {
        return Err(INVALID_CALLBACK);
      }
      seen := seen + [cs[i].outboundIndex];
    }
    return Ok(());
  }

  /** `validate_message_shape`. */
  method ValidateMessageShape(utf8: seq<byte> -> bool, m: MessageOutput, mode: Option<Mode>) returns (r: Result<()>)
    ensures r.Ok? <==> ValidMessage(utf8, m, mode)
  {
    if !ValidStatus(m.status) {
      return Err(INVALID_STATUS_CODE);
    }
    if m.status == 0 {
      if m.update.None? {
        return Err(MISSING_STATE_UPDATE);
      }
      if mode.Some? && mode.value != m.update.value.UpdateMode() {
        return Err(STATE_MODE_MISMATCH);
      }
    } else if !Effectless(m) {
      return Err(EFFECTS_ON_FAILURE);
    }
    if m.update.Some? {
      var _ :- ValidateUpdate(m.update.value);
    }
    var _ :- ValidateOutbound(m.outbound);
    var _ :- ValidateEvents(utf8, m.events);
    var _ :- ValidateCallbacks(m.callbacks, |m.outbound|);
    if !FirstInputOnly(m) {
      return Err(INVALID_INDEX);
    }
    return Ok(());
  }

  /** `validate_batch_shape`. */
  method ValidateBatchShape(utf8: seq<byte> -> bool, b: BatchOutput, mode: Option<Mode>) returns (r: Result<()>)
    ensures r.Ok? <==> ValidBatch(utf8, b, mode)
  {
    if mode.Some? && mode.value != b.update.UpdateMode() {
      return Err(STATE_MODE_MISMATCH);
    }
    var _ :- ValidateUpdate(b.update);
    for i := 0 to |b.statuses|
      invariant forall k | 0 <= k < i :: ValidStatus(b.statuses[k])
    {
      if !ValidStatus(b.statuses[i]) {
        return Err(INVALID_STATUS_CODE);
      }
    }
    var _ :- ValidateOutbound(b.outbound);
    r := ValidateEvents(utf8, b.events);
  }
}
