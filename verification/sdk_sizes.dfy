/**
 * Predicting the length of an output without serialising it. `limit` is one past the largest `usize`
 * of the machine; every addition and multiplication is checked against it.
 */
module SdkSizes {
  import opened Bytes
  import opened Sums
  import opened SdkUpdates
  import opened SdkOutput

  /** The prediction: the exact size when the machine can count that far. */
  function Predicted(size: nat, limit: nat): Result<nat> {
    if size < limit then Ok(size) else Err(LENGTH_OVERFLOW)
  }

  /** `checked_len`. */
  method CheckedLen(parts: seq<nat>, limit: nat) returns (r: Result<nat>)
    requires limit > 0
    ensures r == Predicted(Sum(parts), limit)
  {
    var total := 0;
    for i := 0 to |parts|
      invariant total == Sum(parts[..i]) && total < limit
    {
      SumPrefix(parts, i);
      SumPrefixLe(parts, i + 1);
      if total + parts[i] >= limit {
        return Err(LENGTH_OVERFLOW);
      }
      total := total + parts[i];
    }
    assert parts[..|parts|] == parts;
    return Ok(total);
  }

  /** `repeated_len`. */
  method RepeatedLen(count: nat, width: nat, limit: nat) returns (r: Result<nat>)
    ensures r == Predicted(width * count, limit)
  {
    if width * count >= limit {
      return Err(LENGTH_OVERFLOW);
    }
    return Ok(width * count);
  }

  lemma SumCons(x: nat, xs: seq<nat>)
    ensures Sum([x] + xs) == x + Sum(xs)
  {
    SumConcat([x], xs);
    assert [x][..0] == [];
  }

  lemma SumThree(a: nat, b: nat, c: nat)
    ensures Sum([a, b, c]) == a + b + c
  {
    assert [a, b, c] == [a] + ([b] + ([c] + []));
    SumCons(a, [b] + ([c] + []));
    SumCons(b, [c] + []);
    SumCons(c, []);
  }

  lemma SumFour(a: nat, b: nat, c: nat, d: nat)
    ensures Sum([a, b, c, d]) == a + b + c + d
  {
    assert [a, b, c, d] == [a] + [b, c, d];
    SumCons(a, [b, c, d]);
    SumThree(b, c, d);
  }

  lemma SumFive(a: nat, b: nat, c: nat, d: nat, e: nat)
    ensures Sum([a, b, c, d, e]) == a + b + c + d + e
  {
    assert [a, b, c, d, e] == [a] + [b, c, d, e];
    SumCons(a, [b, c, d, e]);
    SumFour(b, c, d, e);
  }

  /** `state_update_len`. */
  method UpdateLen(u: StateUpdate, limit: nat) returns (r: Result<nat>)
    requires limit > 8
    ensures r == Predicted(UpdateSize(u), limit)
  {
    match u
    case Full(state) =>
      SumThree(8, |state|, 0);
      SumSnoc([8, |state|], 0);
      assert [8, |state|] + [0] == [8, |state|, 0];
      r := CheckedLen([8, |state|], limit);
    case Patches(ps) =>
      ghost var sizes := PatchSizes(ps);
      var total := 8;
      for i := 0 to |ps|
        invariant total == 8 + Sum(sizes[..i]) && total < limit
      {
        SumPrefix(sizes, i);
        SumPrefixLe(sizes, i + 1);
        SumThree(total, 12, |ps[i].newBytes|);
        total :- CheckedLen([total, 12, |ps[i].newBytes|], limit);
      }
      assert sizes[..|ps|] == sizes;
      return Ok(total);
  }

  /** `outbound_intents_len`. */
  method OutboundLen(os: seq<OutboundIntent>, limit: nat) returns (r: Result<nat>)
    requires limit > 4
    ensures r == Predicted(OutboundSize(os), limit)
  {
    ghost var sizes := IntentSizes(os);
    var total := 4;
    for i := 0 to |os|
      invariant total == 4 + Sum(sizes[..i]) && total < limit
    {
      SumPrefix(sizes, i);
      SumPrefixLe(sizes, i + 1);
      var extra :- RepeatedLen(|os[i].extra|, 20, limit);
      SumFour(total, 98, extra, |os[i].body|);
      total :- CheckedLen([total, 98, extra, |os[i].body|], limit);
    }
    assert sizes[..|os|] == sizes;
    return Ok(total);
  }

  method TopicsLen(ts: seq<seq<byte>>, limit: nat) returns (r: Result<nat>)
    requires limit > 0
    ensures r == Predicted(Sum(TopicSizes(ts)), limit)
  {
    ghost var sizes := TopicSizes(ts);
    var total := 0;
    for i := 0 to |ts|
      invariant total == Sum(sizes[..i]) && total < limit
    {
      SumPrefix(sizes, i);
      SumPrefixLe(sizes, i + 1);
      SumThree(total, 2, |ts[i]|);
      total :- CheckedLen([total, 2, |ts[i]|], limit);
    }
    assert sizes[..|ts|] == sizes;
    return Ok(total);
  }

  /** `event_intents_len`. */
  method EventsLen(es: seq<EventIntent>, limit: nat) returns (r: Result<nat>)
    requires limit > 4
    ensures r == Predicted(EventsSize(es), limit)
  {
    ghost var sizes := EventSizes(es);
    var total := 4;
    for i := 0 to |es|
      invariant total == 4 + Sum(sizes[..i]) && total < limit
    {
      SumPrefix(sizes, i);
      SumPrefixLe(sizes, i + 1);
      var topics :- TopicsLen(es[i].topics, limit);
      SumFive(total, 21, |es[i].name|, topics, |es[i].fields|);
      total :- CheckedLen([total, 21, |es[i].name|, topics, |es[i].fields|], limit);
    }
    assert sizes[..|es|] == sizes;
    return Ok(total);
  }

  lemma SumNine(a: nat, b: nat, c: nat, d: nat, e: nat, f: nat, g: nat, h: nat, i: nat)
    ensures Sum([a, b, c, d, e, f, g, h, i]) == a + b + c + d + e + f + g + h + i
  {
    assert [a, b, c, d, e, f, g, h, i] == [a, b, c, d] + [e, f, g, h, i];
    SumConcat([a, b, c, d], [e, f, g, h, i]);
    SumFour(a, b, c, d);
    SumFive(e, f, g, h, i);
  }

  lemma SumSix(a: nat, b: nat, c: nat, d: nat, e: nat, f: nat)
    ensures Sum([a, b, c, d, e, f]) == a + b + c + d + e + f
  {
    assert [a, b, c, d, e, f] == [a] + [b, c, d, e, f];
    SumCons(a, [b, c, d, e, f]);
    SumFive(b, c, d, e, f);
  }

  /** `message_output_len`: exactly the number of bytes the serialised output has, whenever that is representable. */
  method MessageLen(m: MessageOutput, limit: nat) returns (r: Result<nat>)
    requires limit >= U32_END
    ensures r == Predicted(MessageSize(m), limit)
  {
    var update := 0;
    if m.update.Some? {
      update :- UpdateLen(m.update.value, limit);
    }
    var outbound :- OutboundLen(m.outbound, limit);
    var callbacks :- RepeatedLen(|m.callbacks|, 12, limit);
    var events :- EventsLen(m.events, limit);
    var upgrade := if m.upgrade.Some? then 64 else 0;
    SumNine(9, update, 4, |m.result|, outbound, 4, callbacks, events, upgrade);
    r := CheckedLen([9, update, 4, |m.result|, outbound, 4, callbacks, events, upgrade], limit);
  }

  /** `batch_output_len`. */
  method BatchLen(b: BatchOutput, limit: nat) returns (r: Result<nat>)
    requires limit >= U32_END
    ensures r == Predicted(BatchSize(b), limit)
  {
    var update :- UpdateLen(b.update, limit);
    var statuses :- RepeatedLen(|b.statuses|, 4, limit);
    var outbound :- OutboundLen(b.outbound, limit);
    var events :- EventsLen(b.events, limit);
    SumSix(4, update, 4, statuses, outbound, events);
    r := CheckedLen([4, update, 4, statuses, outbound, events], limit);
  }
}
