/** Decoding a batch into borrowed parts, and the iterator that hands its messages out one by one. */
module SdkBatchDecoder {
  import opened Bytes
  import opened Sdk
  import opened Blocks
  import opened Wire
  import opened SdkMessages
  import opened SdkInput
  import opened SdkBatch
  import opened SdkDecoders

  /** A decoded batch as the contract gets it: the messages stay bytes behind their offset table. */
  datatype BatchView = BatchView(context: Context, target: Target, extra: seq<Currency>, state: seq<byte>,
                                 offsets: seq<byte>, messages: seq<byte>, count: u32, results: seq<byte>)

  /** The table and blob a list of messages has. */
  ghost predicate Holds(offsets: seq<byte>, messages: seq<byte>, count: nat, ms: seq<CanonicalMessage>) {
    && count == |ms| && (forall i | 0 <= i < |ms| :: ValidMessage(ms[i]))
    && TableFits(Offsets(ms, 0)) && messages == Blob(ms)
    && offsets == Flat(OffsetRows(Offsets(ms, 0)), 4)
  }

  ghost predicate Represents(v: BatchView, i: BatchInput) {
    && v.context == i.context && v.target == i.target && v.extra == i.extra && v.state == i.state
       && v.results == i.results
    && Holds(v.offsets, v.messages, v.count, i.messages)
  }

  lemma HoldsWhatWasRead(table: seq<byte>, count: nat, blob: seq<byte>, destination: Address, ms: seq<CanonicalMessage>)
    requires |table| == 4 * (count + 1) && count + 1 < U32_END
    requires OffsetsFrom(Cut(table, 4, count + 1))[0] == 0
    requires ReadItems(OffsetsFrom(Cut(table, 4, count + 1)), blob, destination) == Some(ms)
    ensures Holds(table, blob, count, ms)
  {
    hide Cut, Flat, OffsetRows, Offsets, Blob, ReadItems, ValidMessage;
    var offs := OffsetsFrom(Cut(table, 4, count + 1));
    ItemsExact(offs, blob, destination, ms);
    FlatOfCut(table, 4, count + 1);
    forall i | 0 <= i < |ms| ensures ValidMessage(ms[i]) {
      assert ValidItem(ms[i], destination);
    }
  }

  method NextHead(reader: Reader) returns (r: Result<(Context, Target)>)
    requires reader.Valid()
    modifies reader
    ensures reader.Valid() && Advances(r, TakeHead(old(reader.Rest())), reader.Rest())
  {
    hide TakeMagic, TakeContext, TakeTarget;
    var _ :- SkipMagic(reader, ACBI);
    var context :- NextContext(reader);
    var target :- NextTarget(reader);
    return Ok((context, target));
  }

  /** The message count and the offset table behind it. */
  method NextTable(reader: Reader) returns (r: Result<(u32, seq<byte>)>)
    requires reader.Valid()
    modifies reader
    ensures reader.Valid()
    ensures match TakeOffsets(old(reader.Rest()))
            case Some((offs, rest)) =>
              && r.Ok? && r.value.0 + 1 < U32_END && |r.value.1| == 4 * (r.value.0 + 1)
              && offs == OffsetsFrom(Cut(r.value.1, 4, r.value.0 + 1)) && offs[0] == 0 && reader.Rest() == rest
            case None => r.Err?
  {
    var count :- reader.Next32();
    if count + 1 >= U32_END {
      return Err(INTEGER_OVERFLOW);
    }
    var n: nat := count;
    var table :- reader.Next(4 * (n + 1));
    OffsetEntry(table, count, 0);
    var first :- ReadOffset(table, 0);
    if first != 0 {
      return Err(INVALID_LENGTH);
    }
    return Ok((count, table));
  }

  /** What follows the envelope's head, messages unread. */
  method NextBatchPayload(reader: Reader, head: (Context, Target)) returns (r: Result<BatchView>)
    requires reader.Valid()
    modifies reader
    ensures match SdkBatch.TakePayload(old(reader.Rest()))
            case Some(p) =>
              && r.Ok? && r.value.context == head.0 && r.value.target == head.1 && r.value.extra == p.extra
              && r.value.state == p.state && r.value.results == p.results && r.value.messages == p.blob
              && r.value.count + 1 < U32_END && |r.value.offsets| == 4 * (r.value.count + 1)
              && p.offsets == OffsetsFrom(Cut(r.value.offsets, 4, r.value.count + 1))
              && p.offsets[0] == 0 && p.offsets[r.value.count] == |p.blob|
            case None => r.Err?
  {
    hide TakeCounted, TakePrefixed, TakeOffsets, OffsetRows;
    var extra :- NextCounted(reader);
    var state :- reader.NextPrefixed();
    var counted :- NextTable(reader);
    var (count, table) := counted;
    OffsetEntry(table, count, count);
    var length :- ReadOffset(table, count);
    var messages :- reader.Next(length);
    var results :- reader.NextPrefixed();
    var done := reader.AtEnd();
    if !done {
      return Err(TRAILING_BYTES);
    }
    return Ok(BatchView(head.0, head.1, extra, state, table, messages, count, results));
  }

  /** `decode_batch_input`: the view is handed out only after every message in it was decoded and checked. */
  method DecodeBatchInput(b: seq<byte>) returns (r: Result<BatchView>)
    ensures match ReadBatch(b)
            case Some(i) => r.Ok? && Represents(r.value, i)
            case None => r.Err?
  {
    hide TakeHead, SdkBatch.TakePayload, ReadItems;
    var reader := new Reader(b, 0, UNEXPECTED_EOF);
    assert b[0..] == b;
    var head :- NextHead(reader);
    var view :- NextBatchPayload(reader, head);
    ghost var offs := OffsetsFrom(Cut(view.offsets, 4, view.count + 1));
    var ms :- DecodeItems(view.offsets, view.count, view.messages, view.target.destination, offs);
    HoldsWhatWasRead(view.offsets, view.count, view.messages, view.target.destination, ms);
    return Ok(view);
  }

  lemma SliceAfter(head: seq<byte>, tail: seq<byte>, lo: nat, hi: nat)
    requires lo <= hi <= |tail|
    ensures (head + tail)[|head| + lo..|head| + hi] == tail[lo..hi]
  {
  }

  /** Message `k` lies between its two offsets. */
  lemma {:induction false} BlobSlice(ms: seq<CanonicalMessage>, base: nat, k: nat)
    requires (forall i | 0 <= i < |ms| :: ValidMessage(ms[i])) && k < |ms|
    ensures var offs := Offsets(ms, base);
      && base <= offs[k] < offs[k + 1] <= base + |Blob(ms)|
      && Blob(ms)[offs[k] - base..offs[k + 1] - base] == MessageBytes(ms[k])
  {
    hide MessageBytes, ValidMessage;
    var first, rest := MessageBytes(ms[0]), ms[1..];
    var n := |first|;
    OffsetsBounds(ms, base);
    assert Offsets(ms, base)[1..] == Offsets(rest, base + n);
    if k > 0 {
      BlobSlice(rest, base + n, k - 1);
      SliceAfter(first, Blob(rest), Offsets(rest, base + n)[k - 1] - (base + n),
        Offsets(rest, base + n)[k] - (base + n));
    } else {
      MessageLength(ms[0]);
    }
  }

  lemma MessageLength(m: CanonicalMessage)
    requires ValidMessage(m)
    ensures |MessageBytes(m)| > 0
  {
  }

  /** Between the two offsets the iterator reads stands exactly the message it should yield. */
  lemma ItemAt(offsets: seq<byte>, messages: seq<byte>, count: nat, ms: seq<CanonicalMessage>, k: nat)
    requires Holds(offsets, messages, count, ms) && k < count
    ensures |ms| == count && |offsets| == 4 * (count + 1)
    ensures var start, end := Nat32(offsets[4 * k..4 * k + 4]), Nat32(offsets[4 * k + 4..4 * k + 8]);
            start < end <= |messages| && ReadMessage(messages[start..end]) == Some(ms[k])
  {
    hide ReadMessage, MessageBytes, ValidMessage, Cut, Flat, Offsets, Blob, OffsetRows;
    var offs := Offsets(ms, 0);
    CutOfFlat(OffsetRows(offs), 4);
    OffsetsInverse(offs);
    OffsetEntry(offsets, count, k);
    OffsetEntry(offsets, count, k + 1);
    BlobSlice(ms, 0, k);
    MessageExact(MessageBytes(ms[k]), ms[k]);
  }

  class BatchMessageIter {
    const offsets: seq<byte>
    const messages: seq<byte>
    const count: u32
    ghost const items: seq<CanonicalMessage>
    var index: u32

    ghost predicate Valid()
      reads this
    {
      Holds(offsets, messages, count, items) && index <= count == |items|
    }

    constructor (v: BatchView, ghost i: BatchInput)
      requires Represents(v, i)
      ensures Valid() && index == 0 && items == i.messages && messages == v.messages
    {
      offsets := v.offsets;
      messages := v.messages;
      count := v.count;
      items := i.messages;
      index := 0;
    }

    /** `next`: the message at the index, decoded again, until there are no more. */
    method Next() returns (item: Option<Result<CanonicalMessage>>)
      requires Valid()
      modifies this
      ensures Valid() && index == if old(index) < count then old(index) + 1 else old(index)
      ensures item == if old(index) < |items| then Some(Ok(items[old(index)])) else None
    {
      hide ReadMessage, Holds;
      if index >= count {
        return None;
      }
      ItemAt(offsets, messages, count, items, index);
      var start := ReadOffset(offsets, index);
      var end := ReadOffset(offsets, index + 1);
      index := index + 1;
      if start.Err? {
        return Some(start.PropagateFailure());
      }
      if end.Err? {
        return Some(end.PropagateFailure());
      }
      if start.value > end.value || end.value > |messages| {
        return Some(Err(INVALID_LENGTH));
      }
      var m := DecodeMessage(messages[start.value..end.value]);
      return Some(m);
    }
  }

  /** Running the iterator dry: it never fails, and it yields every message, in order. */
  method Drain(iter: BatchMessageIter) returns (r: Result<seq<CanonicalMessage>>)
    requires iter.Valid() && iter.index == 0
    modifies iter
    ensures r == Ok(iter.items)
  {
    hide Holds;
    var out: seq<CanonicalMessage> := [];
    while true
      invariant iter.Valid() && iter.index <= |iter.items| && out == iter.items[..iter.index]
      decreases |iter.items| - |out|
    {
      var item := iter.Next();
      if item.None? {
        assert out == iter.items;
        return Ok(out);
      }
      var m :- item.value;
      out := out + [m];
    }
  }

  /** Over an accepted batch the iterator yields all of the batch, in order. */
  method Collect(b: seq<byte>) returns (r: Result<seq<CanonicalMessage>>)
    ensures match ReadBatch(b)
            case Some(i) => r == Ok(i.messages)
            case None => r.Err?
  {
    hide ReadBatch, Holds;
    var view :- DecodeBatchInput(b);
    var iter := new BatchMessageIter(view, ReadBatch(b).value);
    r := Drain(iter);
  }
}
