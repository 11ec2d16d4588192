/**
 * Writing an output piece by piece. One writer stands for both the source has: a growing vector, and a fixed
 * window of the guest arena that refuses what no longer fits.
 */
module SdkWriter {
  import opened Bytes
  import opened Sdk
  import opened Sums
  import opened Blocks
  import opened Buffers
  import opened SdkUpdates
  import opened SdkCurrencies
  import opened SdkOutput
  import opened SdkShape

  class OutputWriter {
    const windowed: bool
    const cells: array<byte>
    const start: nat
    const end: nat
    var at: nat
    var grown: seq<byte>

    ghost predicate Valid()
      reads this
    {
      start <= at <= end <= cells.Length
    }

    /** Everything written so far. */
    ghost function Written(): seq<byte>
      requires Valid()
      reads this, cells
    {
      if windowed then cells[start..at] else grown
    }

    /** Whether `n` more bytes can be written. */
    ghost predicate Fits(n: nat)
      requires Valid()
      reads this
    {
      windowed ==> n <= end - at
    }

    /** The cells the writer must not touch. */
    ghost function Outside(): (seq<byte>, seq<byte>)
      requires Valid()
      reads this, cells
    {
      (cells[..start], cells[end..])
    }

    constructor Growing()
      ensures Valid() && !windowed && Written() == [] && fresh(cells)
    {
      windowed := false;
      cells := new byte[0];
      start, end, at := 0, 0, 0;
      grown := [];
    }

    constructor Window(cells: array<byte>, start: nat, end: nat)
      requires start <= end <= cells.Length
      ensures Valid() && windowed && Written() == [] && at == start
      ensures this.cells == cells && this.start == start && this.end == end
    {
      windowed := true;
      this.cells := cells;
      this.start, this.end, this.at := start, end, start;
      grown := [];
    }

    /** Append `bytes`, or refuse and write nothing. */
    method Write(bytes: seq<byte>) returns (r: Result<()>)
      requires Valid()
      modifies this, cells
      ensures Valid() && Outside() == old(Outside())
      ensures r == if old(Fits(|bytes|)) then Ok(()) else Err(LENGTH_OVERFLOW)
      ensures Written() == if r.Ok? then old(Written()) + bytes else old(Written())
      ensures at == old(at) + (if windowed && r.Ok? then |bytes| else 0)
    {
      if !windowed {
        grown := grown + bytes;
        return Ok(());
      }
      if |bytes| > end - at {
        return Err(LENGTH_OVERFLOW);
      }
      ghost var before := cells[..];
      assert before[..start] == cells[..start] && before[end..] == cells[end..];
      assert before[start..at] == cells[start..at];
      SpliceWindow(before, start, at, end, bytes);
      Overwrite(cells, at, bytes);
      assert cells[..start] == cells[..][..start] && cells[end..] == cells[..][end..];
      assert cells[start..at + |bytes|] == cells[..][start..at + |bytes|];
      at := at + |bytes|;
      return Ok(());
    }
  }

  /**
   * The writer took exactly `bytes`. Otherwise it failed: a length did not fit its field, or the window had no
   * room for all of them. Cells outside its window are untouched either way.
   */
  twostate predicate Emitted(w: OutputWriter, sized: bool, bytes: seq<byte>, new r: Result<()>)
    requires old(w.Valid())
    reads w, w.cells
  {
    && w.Valid() && w.Outside() == old(w.Outside())
    && if sized && old(w.Fits(|bytes|))
       then r == Ok(()) && w.Written() == old(w.Written()) + bytes
         && w.at == old(w.at) + (if w.windowed then |bytes| else 0)
       else r == Err(LENGTH_OVERFLOW)
  }

  /** Pieces written one after the other are written as one. */
  lemma Joined(done: seq<byte>, a: seq<byte>, b: seq<byte>, c: seq<byte>)
    ensures done + a + b == done + (a + b)
    ensures done + a + b + c == done + (a + b + c)
  {
  }

  /** Two writes in a row. */
  method WriteTwo(w: OutputWriter, a: seq<byte>, b: seq<byte>) returns (r: Result<()>)
    requires w.Valid()
    modifies w, w.cells
    ensures Emitted(w, true, a + b, r)
  {
    hide OutputWriter.Written, OutputWriter.Outside;
    var _ :- w.Write(a);
    r := w.Write(b);
    assert r.Ok? ==> w.Written() == old(w.Written()) + (a + b);
  }

  /** Four writes in a row. */
  method WriteFour(w: OutputWriter, a: seq<byte>, b: seq<byte>, c: seq<byte>, d: seq<byte>) returns (r: Result<()>)
    requires w.Valid()
    modifies w, w.cells
    ensures Emitted(w, true, a + b + c + d, r)
  {
    hide OutputWriter.Written, OutputWriter.Outside;
    var _ :- WriteTwo(w, a, b);
    r := WriteTwo(w, c, d);
    assert r.Ok? ==> w.Written() == old(w.Written()) + (a + b + c + d);
  }

  /** `push_length_prefixed_u32`. */
  method WritePrefixed(w: OutputWriter, p: seq<byte>) returns (r: Result<()>)
    requires w.Valid()
    modifies w, w.cells
    ensures Emitted(w, |p| < U32_END, if |p| < U32_END then Le32(|p|) + p else [], r)
  {
    hide OutputWriter.Written, OutputWriter.Outside;
    if |p| >= U32_END {
      return Err(LENGTH_OVERFLOW);
    }
    r := WriteTwo(w, Le32(|p|), p);
  }

  method WritePatch(w: OutputWriter, p: StatePatch) returns (r: Result<()>)
    requires w.Valid()
    modifies w, w.cells
    ensures Emitted(w, SizedPatch(p), if SizedPatch(p) then PatchBytes(p) else [], r)
  {
    hide OutputWriter.Written, OutputWriter.Outside;
    var _ :- WriteTwo(w, Le32(p.offset), Le32(p.oldLen));
    r := WritePrefixed(w, p.newBytes);
    assert r.Ok? ==> w.Written() == old(w.Written()) + PatchBytes(p);
  }

  ghost predicate SizedPatches(ps: seq<StatePatch>) {
    forall i | 0 <= i < |ps| :: SizedPatch(ps[i])
  }

  ghost function PatchesUpTo(ps: seq<StatePatch>, i: nat): seq<byte>
    requires i <= |ps| && SizedPatches(ps[..i])
  {
    PatchesBytes(ps[..i])
  }

  /** Extending a list of patches by one. */
  lemma PatchesNext(ps: seq<StatePatch>, i: nat)
    requires i < |ps| && SizedPatches(ps[..i])
    ensures SizedPatch(ps[i]) <==> SizedPatches(ps[..i + 1])
    ensures SizedPatch(ps[i]) ==> PatchesUpTo(ps, i + 1) == PatchesUpTo(ps, i) + PatchBytes(ps[i])
    ensures SizedPatches(ps) ==> SizedPatch(ps[i]) && |PatchesUpTo(ps, i)| + |PatchBytes(ps[i])| <= |PatchesBytes(ps)|
  {
    hide PatchBytes, SizedPatch;
    assert ps[..i + 1] == ps[..i] + [ps[i]];
    assert PatchSizes(ps)[..i + 1] == PatchSizes(ps[..i + 1]);
    SumPrefixLe(PatchSizes(ps), i + 1);
    if SizedPatch(ps[i]) {
      assert SizedPatches(ps[..i + 1]);
    } else {
      assert !SizedPatch(ps[..i + 1][i]);
    }
  }

  method WritePatches(w: OutputWriter, ps: seq<StatePatch>) returns (r: Result<()>)
    requires w.Valid()
    modifies w, w.cells
    ensures Emitted(w, SizedPatches(ps), if SizedPatches(ps) then PatchesBytes(ps) else [], r)
  {
    hide OutputWriter.Written, OutputWriter.Outside;
    hide PatchesBytes, PatchBytes;
    ghost var done := PatchesUpTo(ps, 0);
    assert w.Written() + done == w.Written();
    for i := 0 to |ps|
      invariant SizedPatches(ps[..i]) && done == PatchesUpTo(ps, i)
      invariant Emitted(w, true, done, Ok(()))
    {
      PatchesNext(ps, i);
      var _ :- WritePatch(w, ps[i]);
      assert old(w.Written()) + done + PatchBytes(ps[i]) == old(w.Written()) + (done + PatchBytes(ps[i]));
      done := done + PatchBytes(ps[i]);
    }
    assert ps[..|ps|] == ps;
    return Ok(());
  }

  method WriteUpdate(w: OutputWriter, u: StateUpdate) returns (r: Result<()>)
    requires w.Valid()
    modifies w, w.cells
    ensures Emitted(w, SizedUpdate(u), if SizedUpdate(u) then UpdateBytes(u) else [], r)
  {
    hide PatchesBytes;
    hide OutputWriter.Written, OutputWriter.Outside;
    var _ :- WriteTwo(w, [ModeByte(u.UpdateMode())], [0, 0, 0]);
    ghost var head := [ModeByte(u.UpdateMode())] + [0, 0, 0];
    match u
    case Full(state) =>
      r := WritePrefixed(w, state);
      if |state| < U32_END {
        Joined(old(w.Written()), head, Le32(|state|) + state, []);
        assert UpdateBytes(u) == head + (Le32(|state|) + state);
      }
    case Patches(ps) =>
      r := WritePatchList(w, ps);
      if SizedUpdate(u) {
        Joined(old(w.Written()), head, Le16(|ps|) + Le16(0) + PatchesBytes(ps), []);
        assert UpdateBytes(u) == head + (Le16(|ps|) + Le16(0) + PatchesBytes(ps));
      }
  }

  method WritePatchList(w: OutputWriter, ps: seq<StatePatch>) returns (r: Result<()>)
    requires w.Valid()
    modifies w, w.cells
    ensures Emitted(w, SizedUpdate(Patches(ps)),
                    if SizedUpdate(Patches(ps)) then Le16(|ps|) + Le16(0) + PatchesBytes(ps) else [], r)
  {
    hide OutputWriter.Written, OutputWriter.Outside;
    if |ps| >= U16_END {
      return Err(LENGTH_OVERFLOW);
    }
    var _ :- WriteTwo(w, Le16(|ps|), Le16(0));
    r := WritePatches(w, ps);
    assert r.Ok? ==> w.Written() == old(w.Written()) + (Le16(|ps|) + Le16(0) + PatchesBytes(ps));
  }

  method WriteExtra(w: OutputWriter, extra: seq<Currency>) returns (r: Result<()>)
    requires w.Valid()
    modifies w, w.cells
    ensures Emitted(w, true, ExtraBytes(extra), r)
  {
    hide OutputWriter.Written, OutputWriter.Outside;
    ghost var rows := CurrencyRows(extra);
    assert w.Written() + Flat(rows[..0], 20) == w.Written();
    for i := 0 to |extra|
      invariant Emitted(w, true, Flat(rows[..i], 20), Ok(()))
    {
      FlatNext(rows, 20, i);
      var _ :- WriteTwo(w, Le32(extra[i].id), Le128(extra[i].amount));
      assert w.Written() == old(w.Written()) + (Flat(rows[..i], 20) + rows[i]);
    }
    assert rows[..|extra|] == rows;
    return Ok(());
  }

  method WriteIntentHead(w: OutputWriter, o: OutboundIntent) returns (r: Result<()>)
    requires w.Valid()
    modifies w, w.cells
    ensures Emitted(w, |o.extra| < U16_END,
                    if |o.extra| < U16_END
                    then Le32(o.inputIndex) + o.destination.dapp + o.destination.account + Le128(o.fuel)
                      + Le16(|o.extra|)
                    else [], r)
  {
    hide OutputWriter.Written, OutputWriter.Outside;
    var _ :- WriteFour(w, Le32(o.inputIndex), o.destination.dapp, o.destination.account, Le128(o.fuel));
    if |o.extra| >= U16_END {
      return Err(LENGTH_OVERFLOW);
    }
    r := w.Write(Le16(|o.extra|));
  }

  method WriteIntentTail(w: OutputWriter, o: OutboundIntent) returns (r: Result<()>)
    requires w.Valid()
    modifies w, w.cells
    ensures Emitted(w, |o.body| < U32_END,
                    if |o.body| < U32_END then ExtraBytes(o.extra) + Le64(o.methodId) + (Le32(|o.body|) + o.body)
                    else [], r)
  {
    hide OutputWriter.Written, OutputWriter.Outside;
    var _ :- WriteExtra(w, o.extra);
    var _ :- w.Write(Le64(o.methodId));
    r := WritePrefixed(w, o.body);
    if |o.body| < U32_END {
      Joined(old(w.Written()), ExtraBytes(o.extra), Le64(o.methodId), Le32(|o.body|) + o.body);
    }
    assert r.Ok? ==>
             w.Written() == old(w.Written()) + (ExtraBytes(o.extra) + Le64(o.methodId) + (Le32(|o.body|) + o.body));
  }

  method WriteIntent(w: OutputWriter, o: OutboundIntent) returns (r: Result<()>)
    requires w.Valid()
    modifies w, w.cells
    ensures Emitted(w, SizedIntent(o), if SizedIntent(o) then IntentBytes(o) else [], r)
  {
    hide OutputWriter.Written, OutputWriter.Outside;
    hide IntentBytes, ExtraBytes;
    if SizedIntent(o) {
      IntentParts(w.Written(), o);
    }
    var _ :- WriteIntentHead(w, o);
    r := WriteIntentTail(w, o);
  }

  lemma IntentParts(before: seq<byte>, o: OutboundIntent)
    requires SizedIntent(o)
    ensures var head := Le32(o.inputIndex) + o.destination.dapp + o.destination.account + Le128(o.fuel)
            + Le16(|o.extra|);
      var tail := ExtraBytes(o.extra) + Le64(o.methodId) + (Le32(|o.body|) + o.body);
      before + head + tail == before + IntentBytes(o) && |head| + |tail| == |IntentBytes(o)|
  {
  }

  ghost predicate SizedIntentList(os: seq<OutboundIntent>) {
    forall i | 0 <= i < |os| :: SizedIntent(os[i])
  }

  ghost function IntentUpTo(os: seq<OutboundIntent>, i: nat): seq<byte>
    requires i <= |os| && SizedIntentList(os[..i])
  {
    IntentsBytes(os[..i])
  }

  /** Extending a list of outbound messages by one. */
  lemma IntentNext(os: seq<OutboundIntent>, i: nat)
    requires i < |os| && SizedIntentList(os[..i])
    ensures SizedIntent(os[i]) <==> SizedIntentList(os[..i + 1])
    ensures SizedIntent(os[i]) ==> IntentUpTo(os, i + 1) == IntentUpTo(os, i) + IntentBytes(os[i])
    ensures SizedIntentList(os) ==>
      SizedIntent(os[i]) && |IntentUpTo(os, i)| + |IntentBytes(os[i])| <= |IntentsBytes(os)|
  {
    hide IntentBytes, ExtraBytes, IntentSize, SizedIntent;
    assert os[..i + 1] == os[..i] + [os[i]];
    assert IntentSizes(os)[..i + 1] == IntentSizes(os[..i + 1]);
    SumPrefixLe(IntentSizes(os), i + 1);
    if SizedIntent(os[i]) {
      assert SizedIntentList(os[..i + 1]);
    } else {
      assert !(SizedIntent(os[..i + 1][i]));
    }
  }

  method WriteIntents(w: OutputWriter, os: seq<OutboundIntent>) returns (r: Result<()>)
    requires w.Valid()
    modifies w, w.cells
    ensures Emitted(w, SizedIntentList(os), if SizedIntentList(os) then IntentsBytes(os) else [], r)
  {
    hide OutputWriter.Written, OutputWriter.Outside;
    hide IntentsBytes, IntentBytes;
    ghost var done := IntentUpTo(os, 0);
    assert w.Written() + done == w.Written();
    for i := 0 to |os|
      invariant SizedIntentList(os[..i]) && done == IntentUpTo(os, i)
      invariant Emitted(w, true, done, Ok(()))
    {
      IntentNext(os, i);
      var _ :- WriteIntent(w, os[i]);
      assert old(w.Written()) + done + IntentBytes(os[i]) == old(w.Written()) + (done + IntentBytes(os[i]));
      done := done + IntentBytes(os[i]);
    }
    assert os[..|os|] == os;
    return Ok(());
  }

  /** `encode_outbound_intents`. */
  method WriteOutbound(w: OutputWriter, os: seq<OutboundIntent>) returns (r: Result<()>)
    requires w.Valid()
    modifies w, w.cells
    ensures Emitted(w, SizedOutbound(os), if SizedOutbound(os) then OutboundBytes(os) else [], r)
  {
    hide IntentsBytes;
    hide OutputWriter.Written, OutputWriter.Outside;
    if |os| >= U32_END {
      return Err(LENGTH_OVERFLOW);
    }
    var _ :- w.Write(Le32(|os|));
    r := WriteIntents(w, os);
    assert r.Ok? ==> w.Written() == old(w.Written()) + OutboundBytes(os);
  }

  method WriteCallbackList(w: OutputWriter, cs: seq<CallbackIntent>) returns (r: Result<()>)
    requires w.Valid()
    modifies w, w.cells
    ensures Emitted(w, true, CallbacksBytes(cs), r)
  {
    hide OutputWriter.Written, OutputWriter.Outside;
    assert w.Written() + CallbacksBytes(cs[..0]) == w.Written();
    for i := 0 to |cs|
      invariant Emitted(w, true, CallbacksBytes(cs[..i]), Ok(()))
    {
      assert cs[..i + 1][..i] == cs[..i];
      var _ :- WriteTwo(w, Le32(cs[i].outboundIndex), Le64(cs[i].handler));
      assert w.Written() == old(w.Written()) + (CallbacksBytes(cs[..i]) + CallbackBytes(cs[i]));
    }
    assert cs[..|cs|] == cs;
    return Ok(());
  }

  method WriteCallbacks(w: OutputWriter, cs: seq<CallbackIntent>) returns (r: Result<()>)
    requires w.Valid()
    modifies w, w.cells
    ensures Emitted(w, |cs| < U32_END, if |cs| < U32_END then Le32(|cs|) + CallbacksBytes(cs) else [], r)
  {
    hide CallbacksBytes;
    hide OutputWriter.Written, OutputWriter.Outside;
    if |cs| >= U32_END {
      return Err(LENGTH_OVERFLOW);
    }
    var _ :- w.Write(Le32(|cs|));
    r := WriteCallbackList(w, cs);
    Joined(old(w.Written()), Le32(|cs|), CallbacksBytes(cs), []);
    assert r.Ok? ==> w.Written() == old(w.Written()) + (Le32(|cs|) + CallbacksBytes(cs));
  }

  method WriteTopic(w: OutputWriter, topic: seq<byte>) returns (r: Result<()>)
    requires w.Valid()
    modifies w, w.cells
    ensures Emitted(w, |topic| < U16_END, if |topic| < U16_END then Le16(|topic|) + topic else [], r)
  {
    hide OutputWriter.Written, OutputWriter.Outside;
    if |topic| >= U16_END {
      return Err(LENGTH_OVERFLOW);
    }
    r := WriteTwo(w, Le16(|topic|), topic);
  }

  ghost predicate SizedTopicList(ts: seq<seq<byte>>) {
    forall i | 0 <= i < |ts| :: |ts[i]| < U16_END
  }

  ghost function TopicUpTo(ts: seq<seq<byte>>, i: nat): seq<byte>
    requires i <= |ts| && SizedTopicList(ts[..i])
  {
    TopicsBytes(ts[..i])
  }

  /** Extending a list of topics by one. */
  lemma TopicNext(ts: seq<seq<byte>>, i: nat)
    requires i < |ts| && SizedTopicList(ts[..i])
    ensures |ts[i]| < U16_END <==> SizedTopicList(ts[..i + 1])
    ensures |ts[i]| < U16_END ==> TopicUpTo(ts, i + 1) == TopicUpTo(ts, i) + (Le16(|ts[i]|) + ts[i])
    ensures SizedTopicList(ts) ==>
      |ts[i]| < U16_END && |TopicUpTo(ts, i)| + |(Le16(|ts[i]|) + ts[i])| <= |TopicsBytes(ts)|
  {
    assert ts[..i + 1] == ts[..i] + [ts[i]];
    assert TopicSizes(ts)[..i + 1] == TopicSizes(ts[..i + 1]);
    SumPrefixLe(TopicSizes(ts), i + 1);
    if |ts[i]| < U16_END {
      assert SizedTopicList(ts[..i + 1]);
    } else {
      assert !(|ts[..i + 1][i]| < U16_END);
    }
  }

  method WriteTopics(w: OutputWriter, ts: seq<seq<byte>>) returns (r: Result<()>)
    requires w.Valid()
    modifies w, w.cells
    ensures Emitted(w, SizedTopicList(ts), if SizedTopicList(ts) then TopicsBytes(ts) else [], r)
  {
    hide OutputWriter.Written, OutputWriter.Outside;
    hide TopicsBytes;
    ghost var done := TopicUpTo(ts, 0);
    assert w.Written() + done == w.Written();
    for i := 0 to |ts|
      invariant SizedTopicList(ts[..i]) && done == TopicUpTo(ts, i)
      invariant Emitted(w, true, done, Ok(()))
    {
      TopicNext(ts, i);
      var _ :- WriteTopic(w, ts[i]);
      assert old(w.Written()) + done + (Le16(|ts[i]|) + ts[i]) == old(w.Written()) + (done + (Le16(|ts[i]|) + ts[i]));
      done := done + (Le16(|ts[i]|) + ts[i]);
    }
    assert ts[..|ts|] == ts;
    return Ok(());
  }

  method WriteEventHead(w: OutputWriter, e: EventIntent) returns (r: Result<()>)
    requires w.Valid()
    modifies w, w.cells
    ensures Emitted(w, |e.name| < U16_END,
                    if |e.name| < U16_END
                    then Le32(e.inputIndex) + [if e.kind == ExternalEvent then 0 else 1] + Le64(e.eventClass)
                      + Le16(|e.name|) + e.name
                    else [], r)
  {
    hide OutputWriter.Written, OutputWriter.Outside;
    var kind: byte := if e.kind == ExternalEvent then 0 else 1;
    var _ :- WriteTwo(w, Le32(e.inputIndex), [kind]);
    var _ :- w.Write(Le64(e.eventClass));
    if |e.name| >= U16_END {
      return Err(LENGTH_OVERFLOW);
    }
    r := WriteTwo(w, Le16(|e.name|), e.name);
    assert r.Ok? ==> w.Written() == old(w.Written())
                                    + (Le32(e.inputIndex) + [kind] + Le64(e.eventClass) + Le16(|e.name|) + e.name);
  }

  method WriteEventTail(w: OutputWriter, e: EventIntent) returns (r: Result<()>)
    requires w.Valid()
    modifies w, w.cells
    ensures Emitted(w, SizedTopics(e.topics) && |e.fields| < U32_END,
                    if SizedTopics(e.topics) && |e.fields| < U32_END
                    then Le16(|e.topics|) + TopicsBytes(e.topics) + (Le32(|e.fields|) + e.fields) else [], r)
  {
    hide OutputWriter.Written, OutputWriter.Outside;
    hide TopicsBytes;
    if |e.topics| >= U16_END {
      return Err(LENGTH_OVERFLOW);
    }
    var _ :- w.Write(Le16(|e.topics|));
    var _ :- WriteTopics(w, e.topics);
    r := WritePrefixed(w, e.fields);
    assert r.Ok? ==>
             w.Written() == old(w.Written())
                            + (Le16(|e.topics|) + TopicsBytes(e.topics) + (Le32(|e.fields|) + e.fields));
  }

  method WriteEvent(w: OutputWriter, e: EventIntent) returns (r: Result<()>)
    requires w.Valid()
    modifies w, w.cells
    ensures Emitted(w, SizedEvent(e), if SizedEvent(e) then EventBytes(e) else [], r)
  {
    hide OutputWriter.Written, OutputWriter.Outside;
    hide TopicsBytes, SizedTopics;
    var _ :- WriteEventHead(w, e);
    r := WriteEventTail(w, e);
    assert r.Ok? ==> w.Written() == old(w.Written()) + EventBytes(e);
  }

  ghost predicate SizedEventList(es: seq<EventIntent>) {
    forall i | 0 <= i < |es| :: SizedEvent(es[i])
  }

  ghost function EventUpTo(es: seq<EventIntent>, i: nat): seq<byte>
    requires i <= |es| && SizedEventList(es[..i])
  {
    EventListBytes(es[..i])
  }

  /** Extending a list of events by one. */
  lemma EventNext(es: seq<EventIntent>, i: nat)
    requires i < |es| && SizedEventList(es[..i])
    ensures SizedEvent(es[i]) <==> SizedEventList(es[..i + 1])
    ensures SizedEvent(es[i]) ==> EventUpTo(es, i + 1) == EventUpTo(es, i) + EventBytes(es[i])
    ensures SizedEventList(es) ==>
      SizedEvent(es[i]) && |EventUpTo(es, i)| + |EventBytes(es[i])| <= |EventListBytes(es)|
  {
    hide EventBytes, EventSize, SizedEvent;
    assert es[..i + 1] == es[..i] + [es[i]];
    assert EventSizes(es)[..i + 1] == EventSizes(es[..i + 1]);
    SumPrefixLe(EventSizes(es), i + 1);
    if SizedEvent(es[i]) {
      assert SizedEventList(es[..i + 1]);
    } else {
      assert !(SizedEvent(es[..i + 1][i]));
    }
  }

  method WriteEventList(w: OutputWriter, es: seq<EventIntent>) returns (r: Result<()>)
    requires w.Valid()
    modifies w, w.cells
    ensures Emitted(w, SizedEventList(es), if SizedEventList(es) then EventListBytes(es) else [], r)
  {
    hide OutputWriter.Written, OutputWriter.Outside;
    hide EventListBytes, EventBytes;
    ghost var done := EventUpTo(es, 0);
    assert w.Written() + done == w.Written();
    for i := 0 to |es|
      invariant SizedEventList(es[..i]) && done == EventUpTo(es, i)
      invariant Emitted(w, true, done, Ok(()))
    {
      EventNext(es, i);
      var _ :- WriteEvent(w, es[i]);
      assert old(w.Written()) + done + EventBytes(es[i]) == old(w.Written()) + (done + EventBytes(es[i]));
      done := done + EventBytes(es[i]);
    }
    assert es[..|es|] == es;
    return Ok(());
  }

  /** `encode_event_intents`. */
  method WriteEvents(w: OutputWriter, es: seq<EventIntent>) returns (r: Result<()>)
    requires w.Valid()
    modifies w, w.cells
    ensures Emitted(w, SizedEvents(es), if SizedEvents(es) then EventsBytes(es) else [], r)
  {
    hide OutputWriter.Written, OutputWriter.Outside;
    hide EventListBytes;
    if |es| >= U32_END {
      return Err(LENGTH_OVERFLOW);
    }
    var _ :- w.Write(Le32(|es|));
    r := WriteEventList(w, es);
    assert r.Ok? ==> w.Written() == old(w.Written()) + EventsBytes(es);
  }

  method WriteMessageHead(w: OutputWriter, m: MessageOutput) returns (r: Result<()>)
    requires w.Valid()
    modifies w, w.cells
    ensures var sized := m.update.Some? ==> SizedUpdate(m.update.value);
            Emitted(w, sized, if sized then HeadBytes(m) else [], r)
  {
    hide UpdateBytes, SizedUpdate;
    hide OutputWriter.Written, OutputWriter.Outside;
    var _ :- WriteTwo(w, ACMO, Le32(m.status));
    var flags: byte := 0;
    if m.update.Some? {
      flags := flags + 1;
    }
    if m.upgrade.Some? {
      flags := flags + 2;
    }
    var _ :- w.Write([flags]);
    if m.update.Some? {
      r := WriteUpdate(w, m.update.value);
    } else {
      r := Ok(());
    }
    assert r.Ok? ==> w.Written() == old(w.Written()) + HeadBytes(m);
  }

  method WriteUpgrade(w: OutputWriter, u: Option<UpgradeIntent>) returns (r: Result<()>)
    requires w.Valid()
    modifies w, w.cells
    ensures Emitted(w, true, UpgradeBytes(u), r)
  {
    hide OutputWriter.Written, OutputWriter.Outside;
    if u.Some? {
      r := WriteTwo(w, u.value.target, u.value.codeHash);
    } else {
      assert w.Written() + [] == w.Written();
      r := Ok(());
    }
  }

  method WriteEffects(w: OutputWriter, m: MessageOutput) returns (r: Result<()>)
    requires w.Valid()
    modifies w, w.cells
    ensures Emitted(w, SizedEffects(m), if SizedEffects(m) then EffectBytes(m) else [], r)
  {
    hide OutputWriter.Written, OutputWriter.Outside;
    hide OutboundBytes, CallbacksBytes, EventsBytes, UpgradeBytes, SizedOutbound, SizedEvents;
    var _ :- WriteOutbound(w, m.outbound);
    var _ :- WriteCallbacks(w, m.callbacks);
    var _ :- WriteEvents(w, m.events);
    r := WriteUpgrade(w, m.upgrade);
    if SizedEffects(m) {
      var a, b := OutboundBytes(m.outbound), Le32(|m.callbacks|) + CallbacksBytes(m.callbacks);
      var c := EventsBytes(m.events);
      Joined(old(w.Written()), a, b, c);
      Joined(old(w.Written()), a + b + c, UpgradeBytes(m.upgrade), []);
    }
    assert r.Ok? ==> w.Written() == old(w.Written()) + EffectBytes(m);
  }

  /** `write_message_output`. */
  method WriteMessage(w: OutputWriter, m: MessageOutput) returns (r: Result<()>)
    requires w.Valid()
    modifies w, w.cells
    ensures Emitted(w, SizedMessage(m), if SizedMessage(m) then MessageBytes(m) else [], r)
  {
    hide OutputWriter.Written, OutputWriter.Outside;
    hide HeadBytes, EffectBytes, SizedEffects;
    var _ :- WriteMessageHead(w, m);
    var _ :- WritePrefixed(w, m.result);
    r := WriteEffects(w, m);
    if SizedMessage(m) {
      Joined(old(w.Written()), HeadBytes(m), Le32(|m.result|) + m.result, EffectBytes(m));
    }
    assert r.Ok? ==> w.Written() == old(w.Written()) + MessageBytes(m);
  }

  method WriteStatuses(w: OutputWriter, ss: seq<u32>) returns (r: Result<()>)
    requires w.Valid()
    modifies w, w.cells
    ensures Emitted(w, true, StatusesBytes(ss), r)
  {
    hide OutputWriter.Written, OutputWriter.Outside;
    assert w.Written() + StatusesBytes(ss[..0]) == w.Written();
    for i := 0 to |ss|
      invariant Emitted(w, true, StatusesBytes(ss[..i]), Ok(()))
    {
      assert ss[..i + 1][..i] == ss[..i];
      var _ :- w.Write(Le32(ss[i]));
      assert w.Written() == old(w.Written()) + (StatusesBytes(ss[..i]) + Le32(ss[i]));
    }
    assert ss[..|ss|] == ss;
    return Ok(());
  }

  method WriteBatchHead(w: OutputWriter, b: BatchOutput) returns (r: Result<()>)
    requires w.Valid()
    modifies w, w.cells
    ensures Emitted(w, SizedUpdate(b.update) && |b.statuses| < U32_END,
                    if SizedUpdate(b.update) && |b.statuses| < U32_END
                    then ACBO + UpdateBytes(b.update) + (Le32(|b.statuses|) + StatusesBytes(b.statuses)) else [], r)
  {
    hide OutputWriter.Written, OutputWriter.Outside;
    hide UpdateBytes, StatusesBytes, SizedUpdate;
    var _ :- w.Write(ACBO);
    var _ :- WriteUpdate(w, b.update);
    if |b.statuses| >= U32_END {
      return Err(LENGTH_OVERFLOW);
    }
    var _ :- w.Write(Le32(|b.statuses|));
    r := WriteStatuses(w, b.statuses);
    Joined(old(w.Written()) + ACBO + UpdateBytes(b.update), Le32(|b.statuses|), StatusesBytes(b.statuses), []);
    Joined(old(w.Written()), ACBO, UpdateBytes(b.update), Le32(|b.statuses|) + StatusesBytes(b.statuses));
    assert r.Ok? ==> w.Written() == old(w.Written())
                                    + (ACBO + UpdateBytes(b.update) + (Le32(|b.statuses|) + StatusesBytes(b.statuses)));
  }

  /** `write_batch_output`. */
  method WriteBatch(w: OutputWriter, b: BatchOutput) returns (r: Result<()>)
    requires w.Valid()
    modifies w, w.cells
    ensures Emitted(w, SizedBatch(b), if SizedBatch(b) then BatchBytes(b) else [], r)
  {
    hide OutputWriter.Written, OutputWriter.Outside;
    hide UpdateBytes, StatusesBytes, SizedUpdate, OutboundBytes, EventsBytes, SizedOutbound, SizedEvents;
    var _ :- WriteBatchHead(w, b);
    var _ :- WriteOutbound(w, b.outbound);
    r := WriteEvents(w, b.events);
    if SizedBatch(b) {
      var head := ACBO + UpdateBytes(b.update) + (Le32(|b.statuses|) + StatusesBytes(b.statuses));
      Joined(old(w.Written()), head, OutboundBytes(b.outbound), EventsBytes(b.events));
    }
    assert r.Ok? ==> w.Written() == old(w.Written()) + BatchBytes(b);
  }

  /** Serialise into a fresh window; `filled` says the bytes are all there and fill it exactly. */
  method FillMessage(w: OutputWriter, m: MessageOutput) returns (filled: bool)
    requires w.Valid() && w.windowed && w.at == w.start
    modifies w, w.cells
    ensures filled <==> SizedMessage(m) && |MessageBytes(m)| == w.end - w.start
    ensures w.cells[..w.start] == old(w.cells[..w.start])
    ensures filled ==> w.cells[w.start..w.end] == MessageBytes(m)
  {
    hide SizedMessage, MessageBytes;
    var written := WriteMessage(w, m);
    assert w.cells[..w.start] == w.Outside().0;
    if written.Ok? {
      assert [] + MessageBytes(m) == MessageBytes(m);
    }
    return written.Ok? && w.at == w.end;
  }

  /** Serialise into a fresh window; `filled` says the bytes are all there and fill it exactly. */
  method FillBatch(w: OutputWriter, b: BatchOutput) returns (filled: bool)
    requires w.Valid() && w.windowed && w.at == w.start
    modifies w, w.cells
    ensures filled <==> SizedBatch(b) && |BatchBytes(b)| == w.end - w.start
    ensures w.cells[..w.start] == old(w.cells[..w.start])
    ensures filled ==> w.cells[w.start..w.end] == BatchBytes(b)
  {
    hide SizedBatch, BatchBytes;
    var written := WriteBatch(w, b);
    assert w.cells[..w.start] == w.Outside().0;
    if written.Ok? {
      assert [] + BatchBytes(b) == BatchBytes(b);
    }
    return written.Ok? && w.at == w.end;
  }

  /** `encode_message_output`: what an acceptable output looks like as bytes. */
  method EncodeMessageOutput(utf8: seq<byte> -> bool, m: MessageOutput) returns (r: Result<seq<byte>>)
    ensures r.Ok? <==> ValidMessage(utf8, m, None) && SizedMessage(m)
    ensures r.Ok? ==> r.value == MessageBytes(m)
  {
    var _ :- ValidateMessageShape(utf8, m, None);
    var w := new OutputWriter.Growing();
    var _ :- WriteMessage(w, m);
    assert [] + MessageBytes(m) == MessageBytes(m);
    return Ok(w.grown);
  }

  /** `encode_batch_output`. */
  method EncodeBatchOutput(utf8: seq<byte> -> bool, b: BatchOutput) returns (r: Result<seq<byte>>)
    ensures r.Ok? <==> ValidBatch(utf8, b, None) && SizedBatch(b)
    ensures r.Ok? ==> r.value == BatchBytes(b)
  {
    var _ :- ValidateBatchShape(utf8, b, None);
    var w := new OutputWriter.Growing();
    var _ :- WriteBatch(w, b);
    assert [] + BatchBytes(b) == BatchBytes(b);
    return Ok(w.grown);
  }
}
