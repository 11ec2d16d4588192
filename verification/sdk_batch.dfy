/** The batch envelope: messages end to end behind a table of offsets, and the iterator over them. */
module SdkBatch {
  import opened Bytes
  import opened Sdk
  import opened Blocks
  import opened Wire
  import opened SdkMessages
  import opened SdkInput

  datatype BatchInput = BatchInput(context: Context, target: Target, extra: seq<Currency>, state: seq<byte>,
                                   messages: seq<CanonicalMessage>, results: seq<byte>)

  const ACBI: seq<byte> := [0x41, 0x43, 0x42, 0x49]

  /** A batch carries plain messages to one account: no callbacks, no callback requests. */
  ghost predicate ValidItem(m: CanonicalMessage, destination: Address) {
    ValidMessage(m) && m.Destination() == destination && !m.IsCallback() && !m.HasCallbackRequest()
  }

  ghost predicate ValidItems(ms: seq<CanonicalMessage>, destination: Address) {
    forall i | 0 <= i < |ms| :: ValidItem(ms[i], destination)
  }

  /** The messages end to end. */
  ghost function Blob(ms: seq<CanonicalMessage>): seq<byte>
    requires forall i | 0 <= i < |ms| :: ValidMessage(ms[i])
  {
    if ms == [] then [] else MessageBytes(ms[0]) + Blob(ms[1..])
  }

  /** Where each message starts, and where the last one ends. */
  ghost function Offsets(ms: seq<CanonicalMessage>, base: nat): (offs: seq<nat>)
    requires forall i | 0 <= i < |ms| :: ValidMessage(ms[i])
    ensures |offs| == |ms| + 1 && offs[0] == base
  {
    if ms == [] then [base] else [base] + Offsets(ms[1..], base + |MessageBytes(ms[0])|)
  }

  lemma {:induction false} OffsetsBounds(ms: seq<CanonicalMessage>, base: nat)
    requires forall i | 0 <= i < |ms| :: ValidMessage(ms[i])
    ensures Offsets(ms, base)[|ms|] == base + |Blob(ms)|
    ensures forall k | 0 <= k <= |ms| :: base <= Offsets(ms, base)[k] <= base + |Blob(ms)|
  {
    hide MessageBytes, ValidMessage;
    if ms != [] {
      var n := |MessageBytes(ms[0])|;
      var rest := Offsets(ms[1..], base + n);
      OffsetsBounds(ms[1..], base + n);
      forall k | 0 <= k <= |ms| ensures base <= Offsets(ms, base)[k] <= base + |Blob(ms)| {
        assert k > 0 ==> Offsets(ms, base)[k] == rest[k - 1];
      }
    }
  }

  /** The messages between consecutive offsets, or nothing if any stretch is empty, too long or not such a message. */
  ghost function ReadItems(offs: seq<nat>, blob: seq<byte>, destination: Address): Option<seq<CanonicalMessage>>
    requires offs != []
    decreases |offs|
  {
    if |offs| == 1 then
      if blob == [] then Some([]) else None
    else if offs[1] <= offs[0] || offs[1] - offs[0] > |blob| then None
    else
      var n := offs[1] - offs[0];
      var m :- ReadMessage(blob[..n]);
      if m.Destination() != destination || m.IsCallback() || m.HasCallbackRequest() then None else
        var rest :- ReadItems(offs[1..], blob[n..], destination);
        Some([m] + rest)
  }

  lemma {:induction false} ItemsExact(offs: seq<nat>, blob: seq<byte>, destination: Address, ms: seq<CanonicalMessage>)
    requires offs != []
    ensures ReadItems(offs, blob, destination) == Some(ms) <==>
            ValidItems(ms, destination) && blob == Blob(ms) && offs == Offsets(ms, offs[0])
    decreases |offs|
  {
    if ReadItems(offs, blob, destination) == Some(ms) {
      ReadItemsPrint(offs, blob, destination, ms);
    }
    if ValidItems(ms, destination) && blob == Blob(ms) && offs == Offsets(ms, offs[0]) {
      PrintedItemsRead(offs, blob, destination, ms);
    }
  }

  lemma {:induction false} ReadItemsPrint(offs: seq<nat>, blob: seq<byte>, destination: Address,
                                          ms: seq<CanonicalMessage>)
    requires offs != [] && ReadItems(offs, blob, destination) == Some(ms)
    ensures ValidItems(ms, destination) && blob == Blob(ms) && offs == Offsets(ms, offs[0])
    decreases |offs|
  {
    hide ReadMessage, MessageBytes, ValidMessage;
    if |offs| > 1 {
      var n := offs[1] - offs[0];
      var m := ReadMessage(blob[..n]).value;
      var rest := ReadItems(offs[1..], blob[n..], destination).value;
      MessageExact(blob[..n], m);
      ReadItemsPrint(offs[1..], blob[n..], destination, rest);
      assert ([m] + rest)[1..] == rest;
      assert blob == blob[..n] + blob[n..];
      assert offs == [offs[0]] + offs[1..];
    }
  }

  lemma {:induction false} PrintedItemsRead(offs: seq<nat>, blob: seq<byte>, destination: Address,
                                            ms: seq<CanonicalMessage>)
    requires ValidItems(ms, destination) && blob == Blob(ms) && offs != [] && offs == Offsets(ms, offs[0])
    ensures ReadItems(offs, blob, destination) == Some(ms)
    decreases |ms|
  {
    hide ReadMessage, MessageBytes, ValidMessage;
    if ms != [] {
      var m, rest := ms[0], ms[1..];
      var n := |MessageBytes(m)|;
      assert ValidItem(m, destination);
      MessageExact(MessageBytes(m), m);
      assert blob[..n] == MessageBytes(m) && blob[n..] == Blob(rest);
      assert offs[1..] == Offsets(rest, offs[0] + n);
      PrintedItemsRead(offs[1..], blob[n..], destination, rest);
      assert ms == [m] + rest;
    }
  }

  // The offset table.

  function OffsetRows(offs: seq<nat>): (rows: seq<seq<byte>>)
    requires forall i | 0 <= i < |offs| :: offs[i] < U32_END
    ensures |rows| == |offs| && Rows(rows, 4)
  {
    seq(|offs|, i requires 0 <= i < |offs| => Le32(offs[i]))
  }

  function OffsetsFrom(rows: seq<seq<byte>>): (offs: seq<nat>)
    requires Rows(rows, 4)
    ensures |offs| == |rows| && (forall i | 0 <= i < |offs| :: offs[i] < U32_END) && OffsetRows(offs) == rows
  {
    var offs := seq(|rows|, i requires 0 <= i < |rows| => Nat32(rows[i]));
    assert forall i | 0 <= i < |offs| :: offs[i] == Nat32(rows[i]);
    offs
  }

  lemma OffsetsInverse(offs: seq<nat>)
    requires forall i | 0 <= i < |offs| :: offs[i] < U32_END
    ensures OffsetsFrom(OffsetRows(offs)) == offs
  {
    forall i | 0 <= i < |offs| ensures OffsetsFrom(OffsetRows(offs))[i] == offs[i] {
      Le32Inverse(offs[i]);
    }
  }

  /** `count + 1` offsets, from zero to the length of the messages that follow them. */
  function TakeOffsets(b: seq<byte>): Option<(seq<nat>, seq<byte>)> {
    var (count, b1) :- Take32(b);
    if count + 1 >= U32_END then None else
      var (table, rest) :- Take(b1, 4 * (count + 1));
      var offs := OffsetsFrom(Cut(table, 4, count + 1));
      if offs[0] == 0 then Some((offs, rest)) else None
  }

  function OffsetTable(offs: seq<nat>): seq<byte>
    requires 0 < |offs| < U32_END && forall i | 0 <= i < |offs| :: offs[i] < U32_END
  {
    Le32(|offs| - 1) + Flat(OffsetRows(offs), 4)
  }

  ghost predicate TableFits(offs: seq<nat>) {
    0 < |offs| < U32_END && (forall i | 0 <= i < |offs| :: offs[i] < U32_END) && offs[0] == 0
  }

  lemma OffsetsExact(b: seq<byte>, offs: seq<nat>, rest: seq<byte>)
    ensures TakeOffsets(b) == Some((offs, rest)) <==> TableFits(offs) && b == OffsetTable(offs) + rest
  {
    if TableFits(offs) && b == OffsetTable(offs) + rest {
      PrintedOffsetsRead(offs, rest);
    }
    if TakeOffsets(b) == Some((offs, rest)) {
      ReadOffsetsPrint(b, offs, rest);
    }
  }

  lemma PrintedOffsetsRead(offs: seq<nat>, rest: seq<byte>)
    requires TableFits(offs)
    ensures TakeOffsets(OffsetTable(offs) + rest) == Some((offs, rest))
  {
    hide OffsetRows, Flat, Cut;
    var count, table := |offs| - 1, Flat(OffsetRows(offs), 4);
    assert OffsetTable(offs) + rest == Le32(count) + (table + rest);
    Exact32(OffsetTable(offs) + rest, count, table + rest);
    TakeExact(table + rest, 4 * (count + 1), table, rest);
    CutOfFlat(OffsetRows(offs), 4);
    OffsetsInverse(offs);
  }

  lemma ReadOffsetsPrint(b: seq<byte>, offs: seq<nat>, rest: seq<byte>)
    requires TakeOffsets(b) == Some((offs, rest))
    ensures TableFits(offs) && b == OffsetTable(offs) + rest
  {
    hide OffsetRows, Flat, Cut;
    var (count, b1) := Take32(b).value;
    var (table, b2) := Take(b1, 4 * (count + 1)).value;
    Exact32(b, count, b1);
    TakeExact(b1, 4 * (count + 1), table, b2);
    FlatOfCut(table, 4, count + 1);
    assert OffsetTable(offs) == Le32(count) + table;
    assert Le32(count) + (table + rest) == (Le32(count) + table) + rest;
  }

  // The whole envelope.

  ghost predicate ValidBatch(i: BatchInput) {
    && |i.extra| < U16_END && Canonical(i.extra) && |i.state| < U32_END && |i.results| < U32_END
    && ValidItems(i.messages, i.target.destination)
    && |i.messages| + 1 < U32_END && |Blob(i.messages)| < U32_END
  }

  lemma ValidBatchTable(i: BatchInput)
    requires ValidBatch(i)
    ensures TableFits(Offsets(i.messages, 0))
  {
    OffsetsBounds(i.messages, 0);
  }

  function HeadBytes(context: Context, target: Target): seq<byte> {
    ACBI + (ContextBytes(context) + TargetBytes(target))
  }

  function TakeHead(b: seq<byte>): Option<((Context, Target), seq<byte>)> {
    var b1 :- TakeMagic(b, ACBI);
    var (context, b2) :- TakeContext(b1);
    var (target, rest) :- TakeTarget(b2);
    Some(((context, target), rest))
  }

  lemma HeadExact(b: seq<byte>, context: Context, target: Target, rest: seq<byte>)
    ensures TakeHead(b) == Some(((context, target), rest)) <==> b == HeadBytes(context, target) + rest
  {
    hide TakeContext, TakeTarget, ContextBytes, TargetBytes;
    var b2 := TargetBytes(target) + rest;
    var b1 := ContextBytes(context) + b2;
    assert HeadBytes(context, target) + rest == ACBI + b1;
    MagicExact(b, ACBI, b1);
    ContextExact(b1, context, b2);
    TargetExact(b2, target, rest);
    if TakeHead(b) == Some(((context, target), rest)) {
      var c1 := TakeMagic(b, ACBI).value;
      var (x, c2) := TakeContext(c1).value;
      var (t, c3) := TakeTarget(c2).value;
      MagicExact(b, ACBI, c1);
      ContextExact(c1, x, c2);
      TargetExact(c2, t, c3);
    }
  }

  /** The rest of the envelope before the messages are looked at. */
  datatype BatchPayload = BatchPayload(extra: seq<Currency>, state: seq<byte>, offsets: seq<nat>, blob: seq<byte>,
                                       results: seq<byte>)

  ghost predicate ValidPayload(p: BatchPayload) {
    && |p.extra| < U16_END && Canonical(p.extra) && |p.state| < U32_END && |p.results| < U32_END
    && TableFits(p.offsets) && p.offsets[|p.offsets| - 1] == |p.blob|
  }

  ghost function PayloadBytes(p: BatchPayload): seq<byte>
    requires ValidPayload(p)
  {
    CountedBytes(p.extra) + (Prefixed(p.state) + (OffsetTable(p.offsets) + (p.blob + Prefixed(p.results))))
  }

  ghost function TakePayload(b: seq<byte>): Option<BatchPayload> {
    var (extra, b1) :- TakeCounted(b);
    var (state, b2) :- TakePrefixed(b1);
    var (offs, b3) :- TakeOffsets(b2);
    if offs == [] then None else
      var (blob, b4) :- Take(b3, offs[|offs| - 1]);
      var (results, rest) :- TakePrefixed(b4);
      if rest == [] then Some(BatchPayload(extra, state, offs, blob, results)) else None
  }

  lemma PayloadExact(b: seq<byte>, p: BatchPayload)
    ensures TakePayload(b) == Some(p) <==> ValidPayload(p) && b == PayloadBytes(p)
  {
    if ValidPayload(p) && b == PayloadBytes(p) {
      PrintedPayloadReads(p);
    }
    if TakePayload(b) == Some(p) {
      ReadPayloadPrints(b, p);
    }
  }

  lemma PrintedPayloadReads(p: BatchPayload)
    requires ValidPayload(p)
    ensures TakePayload(PayloadBytes(p)) == Some(p)
  {
    hide TakeCounted, TakePrefixed, TakeOffsets, CountedBytes, Prefixed, OffsetTable;
    var b4 := Prefixed(p.results);
    var b3 := p.blob + b4;
    var b2 := OffsetTable(p.offsets) + b3;
    var b1 := Prefixed(p.state) + b2;
    assert b4 + [] == b4;
    CountedExact(PayloadBytes(p), p.extra, b1);
    PrefixedExact(b1, p.state, b2);
    OffsetsExact(b2, p.offsets, b3);
    TakeExact(b3, |p.blob|, p.blob, b4);
    PrefixedExact(b4, p.results, []);
  }

  lemma ReadPayloadPrints(b: seq<byte>, p: BatchPayload)
    requires TakePayload(b) == Some(p)
    ensures ValidPayload(p) && b == PayloadBytes(p)
  {
    hide TakeCounted, TakePrefixed, TakeOffsets, CountedBytes, Prefixed, OffsetTable;
    var (extra, c1) := TakeCounted(b).value;
    var (state, c2) := TakePrefixed(c1).value;
    var (offs, c3) := TakeOffsets(c2).value;
    var (blob, c4) := Take(c3, offs[|offs| - 1]).value;
    var (results, c5) := TakePrefixed(c4).value;
    CountedExact(b, extra, c1);
    PrefixedExact(c1, state, c2);
    OffsetsExact(c2, offs, c3);
    TakeExact(c3, offs[|offs| - 1], blob, c4);
    PrefixedExact(c4, results, c5);
    assert Prefixed(results) + [] == Prefixed(results);
  }

  ghost function BatchBytes(i: BatchInput): seq<byte>
    requires ValidBatch(i)
  {
    ValidBatchTable(i);
    OffsetsBounds(i.messages, 0);
    HeadBytes(i.context, i.target)
    + PayloadBytes(BatchPayload(i.extra, i.state, Offsets(i.messages, 0), Blob(i.messages), i.results))
  }

  /** `decode_batch_input` as a function. */
  ghost function ReadBatch(b: seq<byte>): Option<BatchInput> {
    var (head, rest) :- TakeHead(b);
    var p :- TakePayload(rest);
    if p.offsets == [] then None else
      var ms :- ReadItems(p.offsets, p.blob, head.1.destination);
      Some(BatchInput(head.0, head.1, p.extra, p.state, ms, p.results))
  }

  /** The batch envelope is canonical: decoding accepts exactly the printed batches, each from its own bytes. */
  lemma BatchExact(b: seq<byte>, i: BatchInput)
    ensures ReadBatch(b) == Some(i) <==> ValidBatch(i) && b == BatchBytes(i)
  {
    if ValidBatch(i) && b == BatchBytes(i) {
      PrintedBatchReads(i);
    }
    if ReadBatch(b) == Some(i) {
      ReadBatchPrints(b, i);
    }
  }

  lemma PrintedBatchReads(i: BatchInput)
    requires ValidBatch(i)
    ensures ReadBatch(BatchBytes(i)) == Some(i)
  {
    hide TakeHead, TakePayload, ReadItems, HeadBytes, PayloadBytes;
    var offs := Offsets(i.messages, 0);
    var p := BatchPayload(i.extra, i.state, offs, Blob(i.messages), i.results);
    ValidBatchTable(i);
    OffsetsBounds(i.messages, 0);
    HeadExact(BatchBytes(i), i.context, i.target, PayloadBytes(p));
    PayloadExact(PayloadBytes(p), p);
    ItemsExact(offs, p.blob, i.target.destination, i.messages);
  }

  lemma ReadBatchPrints(b: seq<byte>, i: BatchInput)
    requires ReadBatch(b) == Some(i)
    ensures ValidBatch(i) && b == BatchBytes(i)
  {
    hide TakeHead, TakePayload, ReadItems, HeadBytes, PayloadBytes;
    var ((context, target), rest) := TakeHead(b).value;
    var p := TakePayload(rest).value;
    HeadExact(b, context, target, rest);
    PayloadExact(rest, p);
    ItemsExact(p.offsets, p.blob, target.destination, i.messages);
    assert p == BatchPayload(i.extra, i.state, Offsets(i.messages, 0), Blob(i.messages), i.results);
  }
}
