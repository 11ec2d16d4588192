/** The decoders as they run: a cursor over borrowed bytes, early returns, and loops over the fixed-width tables. */
module SdkDecoders {
  import opened Bytes
  import opened Sdk
  import opened Blocks
  import opened Wire
  import opened SdkUpdates
  import opened SdkCurrencies
  import opened SdkMessages
  import opened SdkInput
  import opened SdkBatch

  // The decoder's error values, by position in the enumeration.
  const UNEXPECTED_EOF := 0
  const INTEGER_OVERFLOW := 1
  const BAD_MAGIC := 2
  const NONZERO_RESERVED := 3
  const UNKNOWN_TAG := 4
  const INVALID_LENGTH := 5
  const INVALID_VALUE := 6
  const UNSORTED := 7
  const CALLER_MISMATCH := 8
  const DESTINATION_MISMATCH := 9
  const CALLBACK_FORBIDDEN := 10
  const TRAILING_BYTES := 11

  /** The method succeeds exactly when there is something to read, and then with exactly that. */
  ghost predicate Agrees<T(!new)>(r: Result<T>, meaning: Option<T>) {
    match meaning
    case Some(x) => r == Ok(x)
    case None => r.Err?
  }

  /** The same for a read that moves a cursor past what it read. */
  ghost predicate Advances<T(!new)>(r: Result<T>, meaning: Option<(T, seq<byte>)>, rest: seq<byte>) {
    match meaning
    case Some((x, after)) => r == Ok(x) && rest == after
    case None => r.Err?
  }

  lemma CurrencyEntry(p: seq<byte>, count: nat, i: nat)
    requires |p| == 20 * count && i < count
    ensures 20 * i + 20 <= |p| && CurrencyAt(p[20 * i..20 * i + 20]) == CurrenciesFrom(Cut(p, 20, count))[i]
  {
    CutRow(p, 20, count, i);
  }

  /** The amounts in a table, if each currency is above the one before. */
  method AscendingCurrencies(p: seq<byte>, count: nat) returns (r: Option<seq<Currency>>)
    requires |p| == 20 * count
    ensures var all := CurrenciesFrom(Cut(p, 20, count));
            r == if Canonical(all) then Some(all) else None
  {
    hide CurrencyAt, CurrencyRows;
    ghost var all := CurrenciesFrom(Cut(p, 20, count));
    var cs: seq<Currency> := [];
    for i := 0 to count
      invariant cs == all[..i]
      invariant forall j, k | 0 <= j < k < i :: all[j].id < all[k].id
    {
      CurrencyEntry(p, count, i);
      var c := CurrencyAt(p[20 * i..20 * i + 20]);
      if i > 0 && cs[i - 1].id >= c.id {
        assert all[i - 1].id >= all[i].id;
        return None;
      }
      cs := cs + [c];
    }
    assert cs == all;
    return Some(cs);
  }

  /** `read_currency_amounts_with_count`. */
  method NextExtra(reader: Reader, count: nat) returns (r: Result<seq<Currency>>)
    requires reader.Valid()
    modifies reader
    ensures reader.Valid() && Advances(r, TakeExtra(old(reader.Rest()), count), reader.Rest())
  {
    var p :- reader.Next(20 * count);
    var cs := AscendingCurrencies(p, count);
    if cs.None? {
      return Err(UNSORTED);
    }
    return Ok(cs.value);
  }

  method NextAddress(reader: Reader) returns (r: Result<Address>)
    requires reader.Valid()
    modifies reader
    ensures reader.Valid() && Advances(r, TakeAddress(old(reader.Rest())), reader.Rest())
  {
    var b := reader.Rest();
    var dapp :- reader.NextId();
    var account :- reader.NextId();
    assert b[..64] == b[..32] + b[32..][..32] && b[32..][32..] == b[64..];
    return Ok(Address(dapp, account));
  }

  method NextCallback(reader: Reader, present: bool, destination: Address) returns (r: Result<Option<CallbackHeader>>)
    requires reader.Valid()
    modifies reader
    ensures reader.Valid() && Advances(r, TakeCallback(old(reader.Rest()), present, destination), reader.Rest())
  {
    if !present {
      return Ok(None);
    }
    var hash :- reader.NextId();
    var address :- NextAddress(reader);
    var status :- reader.Next32();
    if hash == ZERO32 || !NonzeroAddress(address) || address != destination {
      return Err(INVALID_VALUE);
    }
    return Ok(Some(CallbackHeader(hash, address, status)));
  }

  method NextHandler(reader: Reader, present: bool) returns (r: Result<Option<u64>>)
    requires reader.Valid()
    modifies reader
    ensures reader.Valid() && Advances(r, TakeHandler(old(reader.Rest()), present), reader.Rest())
  {
    if !present {
      return Ok(None);
    }
    var id :- reader.Next64();
    if id == 0 {
      return Err(INVALID_VALUE);
    }
    return Ok(Some(id));
  }

  lemma ReadEntry(p: seq<byte>, count: nat, i: nat)
    requires |p| == 72 * count && i < count
    ensures 72 * i + 72 <= |p| && ReadAt(p[72 * i..72 * i + 72]) == ReadsFrom(Cut(p, 72, count))[i]
  {
    CutRow(p, 72, count, i);
  }

  /** The requests in a table, if each key is above the one before. */
  method AscendingReads(p: seq<byte>, count: nat) returns (r: Option<seq<EventRead>>)
    requires |p| == 72 * count
    ensures var all := ReadsFrom(Cut(p, 72, count));
            r == if AscendingKeys(all) then Some(all) else None
  {
    hide ReadAt, ReadRows, Before;
    ghost var all := ReadsFrom(Cut(p, 72, count));
    var rs: seq<EventRead> := [];
    for i := 0 to count
      invariant rs == all[..i]
      invariant forall k | 0 < k < i :: Before(all[k - 1], all[k])
    {
      ReadEntry(p, count, i);
      var next := ReadAt(p[72 * i..72 * i + 72]);
      if i > 0 && !Before(rs[i - 1], next) {
        assert !Before(all[i - 1], all[i]);
        return None;
      }
      rs := rs + [next];
    }
    assert rs == all;
    return Some(rs);
  }

  method NextReads(reader: Reader, present: bool) returns (r: Result<Option<seq<EventRead>>>)
    requires reader.Valid()
    modifies reader
    ensures reader.Valid() && Advances(r, TakeReads(old(reader.Rest()), present), reader.Rest())
  {
    if !present {
      return Ok(None);
    }
    var count :- reader.Next16();
    if count == 0 {
      return Err(INVALID_VALUE);
    }
    var reserved :- reader.Next16();
    if reserved != 0 {
      return Err(NONZERO_RESERVED);
    }
    var n: nat := count;
    var p :- reader.Next(72 * n);
    var rs := AscendingReads(p, n);
    if rs.None? {
      return Err(UNSORTED);
    }
    return Ok(rs);
  }

  /** The variable part of an internal message. */
  method NextTail(reader: Reader, shape: Shape, destination: Address) returns (r: Result<Tail>)
    requires reader.Valid()
    modifies reader
    ensures Agrees(r, TakeTail(old(reader.Rest()), shape, destination))
  {
    hide TakeCallback, TakeHandler, TakeReads, TakeExtra;
    var callback :- NextCallback(reader, shape.callback, destination);
    var handler :- NextHandler(reader, shape.handler);
    var rs :- NextReads(reader, shape.reads_);
    var extra :- NextExtra(reader, shape.extra);
    ghost var last := reader.Rest();
    var body :- reader.Next(shape.body);
    var done := reader.AtEnd();
    if !done {
      return Err(TRAILING_BYTES);
    }
    assert last[..|last|] == last;
    return Ok(Tail(callback, handler, rs, extra, body));
  }

  /** `decode_internal_message`. */
  method DecodeInternal(b: seq<byte>) returns (r: Result<InternalMessage>)
    requires b != [] && b[0] == 0
    ensures Agrees(r, ReadInternal(b))
  {
    if |b| < 176 {
      return Err(UNEXPECTED_EOF);
    }
    var h := b[..176];
    if !LegalFlags(h[1]) {
      return Err(INVALID_VALUE);
    }
    if h[44..48] != Zeros(4) {
      return Err(NONZERO_RESERVED);
    }
    var source, destination := AddressAt(h[48..112]), AddressAt(h[112..176]);
    if !NonzeroAddress(source) || !NonzeroAddress(destination) {
      return Err(INVALID_VALUE);
    }
    var reader := new Reader(b, 176, UNEXPECTED_EOF);
    var tail :- NextTail(reader, ShapeAt(h), destination);
    var m := InternalAt(h, tail);
    if !ConsistentCallback(m) {
      return Err(INVALID_VALUE);
    }
    return Ok(m);
  }

  /** `decode_external_message`. */
  method DecodeExternal(b: seq<byte>) returns (r: Result<ExternalMessage>)
    requires b != [] && b[0] == 1
    ensures Agrees(r, ReadExternal(b))
  {
    hide TakeExtra;
    if |b| < 192 {
      return Err(UNEXPECTED_EOF);
    }
    var h := b[..192];
    if h[1] != 1 && h[1] != 3 {
      return Err(INVALID_VALUE);
    }
    if h[146..192] != Zeros(46) {
      return Err(NONZERO_RESERVED);
    }
    if Nat16(h[144..146]) != 64 {
      return Err(INVALID_LENGTH);
    }
    if !NonzeroAddress(AddressAt(h[48..112])) || h[112..144] == ZERO32 {
      return Err(INVALID_VALUE);
    }
    var reader := new Reader(b, 192, UNEXPECTED_EOF);
    var extra :- NextExtra(reader, Nat16(h[2..4]));
    var body :- reader.Next(Nat32(h[4..8]));
    ghost var last := reader.Rest();
    var signature :- reader.Next(64);
    var done := reader.AtEnd();
    if !done {
      return Err(TRAILING_BYTES);
    }
    assert last[..|last|] == last;
    return Ok(ExternalAt(h, extra, body, signature));
  }

  /** `decode_canonical_message`. */
  method DecodeMessage(b: seq<byte>) returns (r: Result<CanonicalMessage>)
    ensures Agrees(r, ReadMessage(b))
  {
    hide ReadInternal, ReadExternal;
    if b == [] {
      return Err(UNEXPECTED_EOF);
    }
    if b[0] == 0 {
      var m :- DecodeInternal(b);
      return Ok(InternalKind(m));
    } else if b[0] == 1 {
      var m :- DecodeExternal(b);
      return Ok(ExternalKind(m));
    } else {
      return Err(UNKNOWN_TAG);
    }
  }

  method NextContext(reader: Reader) returns (r: Result<Context>)
    requires reader.Valid()
    modifies reader
    ensures reader.Valid() && Advances(r, TakeContext(old(reader.Rest())), reader.Rest())
  {
    var lt :- reader.Next64();
    var time :- reader.Next32();
    var sequence :- reader.Next32();
    var rand :- reader.NextId();
    return Ok(Context(lt, time, sequence, rand));
  }

  method SkipZeroBytes(reader: Reader, n: nat) returns (r: Result<()>)
    requires reader.Valid()
    modifies reader
    ensures reader.Valid()
    ensures match TakeZeros(old(reader.Rest()), n)
            case Some(rest) => r == Ok(()) && reader.Rest() == rest
            case None => r.Err?
  {
    var p :- reader.Next(n);
    if p != Zeros(n) {
      return Err(NONZERO_RESERVED);
    }
    return Ok(());
  }

  method SkipMagic(reader: Reader, magic: seq<byte>) returns (r: Result<()>)
    requires reader.Valid()
    modifies reader
    ensures reader.Valid()
    ensures match TakeMagic(old(reader.Rest()), magic)
            case Some(rest) => r == Ok(()) && reader.Rest() == rest
            case None => r.Err?
  {
    var p :- reader.Next(4);
    if p != magic {
      return Err(BAD_MAGIC);
    }
    return Ok(());
  }

  method NextOrigin(reader: Reader) returns (r: Result<Origin>)
    requires reader.Valid()
    modifies reader
    ensures reader.Valid() && Advances(r, TakeOrigin(old(reader.Rest())), reader.Rest())
  {
    hide TakeZeros;
    var kind :- reader.NextByte();
    var _ :- SkipZeroBytes(reader, 7);
    var dapp :- reader.NextId();
    var account :- reader.NextId();
    var pubkey :- reader.NextId();
    return Ok(Origin(kind, dapp, account, pubkey));
  }

  method NextTarget(reader: Reader) returns (r: Result<Target>)
    requires reader.Valid()
    modifies reader
    ensures reader.Valid() && Advances(r, TakeTarget(old(reader.Rest())), reader.Rest())
  {
    hide TakeZeros, TakeAddress;
    var destination :- NextAddress(reader);
    var codeId :- reader.NextId();
    var mode :- reader.NextByte();
    if mode > 1 {
      return Err(INVALID_VALUE);
    }
    var _ :- SkipZeroBytes(reader, 7);
    return Ok(Target(destination, codeId, if mode == 0 then FullReplace else DataPatchList));
  }

  method NextCounted(reader: Reader) returns (r: Result<seq<Currency>>)
    requires reader.Valid()
    modifies reader
    ensures reader.Valid() && Advances(r, TakeCounted(old(reader.Rest())), reader.Rest())
  {
    hide TakeExtra;
    var count :- reader.Next16();
    r := NextExtra(reader, count);
  }

  method NextFront(reader: Reader) returns (r: Result<Front>)
    requires reader.Valid()
    modifies reader
    ensures reader.Valid() && Advances(r, TakeFront(old(reader.Rest())), reader.Rest())
  {
    hide TakeMagic, TakeContext, TakeOrigin, TakeTarget;
    var _ :- SkipMagic(reader, ACMI);
    var context :- NextContext(reader);
    var origin :- NextOrigin(reader);
    var target :- NextTarget(reader);
    return Ok(Front(context, origin, target));
  }

  method NextPayload(reader: Reader) returns (r: Result<Payload>)
    requires reader.Valid()
    modifies reader
    ensures Agrees(r, SdkInput.TakePayload(old(reader.Rest())))
  {
    hide TakeCounted, TakePrefixed;
    var extra :- NextCounted(reader);
    var state :- reader.NextPrefixed();
    var message :- reader.NextPrefixed();
    var results :- reader.NextPrefixed();
    var done := reader.AtEnd();
    if !done {
      return Err(TRAILING_BYTES);
    }
    return Ok(Payload(extra, state, message, results));
  }

  /** `decode_message_input`. */
  method DecodeMessageInput(b: seq<byte>) returns (r: Result<MessageInput>)
    ensures Agrees(r, ReadInput(b))
  {
    hide TakeFront, SdkInput.TakePayload, ReadMessage;
    var reader := new Reader(b, 0, UNEXPECTED_EOF);
    assert b[0..] == b;
    var front :- NextFront(reader);
    var p :- NextPayload(reader);
    var m :- DecodeMessage(p.message);
    if m.Destination() != front.target.destination {
      return Err(DESTINATION_MISMATCH);
    }
    if front.origin.kind > 1 {
      return Err(UNKNOWN_TAG);
    }
    if front.origin != OriginOf(m) {
      return Err(CALLER_MISMATCH);
    }
    return Ok(MessageInput(front.context, front.target.codeId, front.target.mode, p.extra, p.state, m, p.results));
  }

  /** `read_offset`: entry `index` of the offset table. */
  method ReadOffset(table: seq<byte>, index: nat) returns (r: Result<nat>)
    ensures r == if 4 * index + 4 <= |table| then Ok(Nat32(table[4 * index..4 * index + 4])) else Err(UNEXPECTED_EOF)
  {
    var offset := 4 * index;
    if offset + 4 > |table| {
      return Err(UNEXPECTED_EOF);
    }
    return Ok(Nat32(table[offset..offset + 4]));
  }

  lemma OffsetEntry(table: seq<byte>, count: nat, index: nat)
    requires |table| == 4 * (count + 1) && index <= count
    ensures 4 * index + 4 <= |table|
    ensures Nat32(table[4 * index..4 * index + 4]) == OffsetsFrom(Cut(table, 4, count + 1))[index]
  {
    CutRow(table, 4, count + 1, index);
  }

  /** Messages already decoded, followed by what the rest of the blob decodes to. */
  function Following<T>(done: seq<T>, rest: Option<seq<T>>): Option<seq<T>> {
    if rest.Some? then Some(done + rest.value) else None
  }

  lemma NothingBefore<T>(rest: Option<seq<T>>)
    ensures Following([], rest) == rest
  {
    if rest.Some? {
      assert [] + rest.value == rest.value;
    }
  }

  /** One stretch of the blob: where the loop stops with an error, the meaning is nothing; otherwise it moves on. */
  lemma ItemsStep(offs: seq<nat>, blob: seq<byte>, destination: Address, done: seq<CanonicalMessage>)
    requires |offs| > 1
    ensures offs[1] <= offs[0] || offs[1] - offs[0] > |blob| ==> ReadItems(offs, blob, destination).None?
    ensures offs[0] < offs[1] <= offs[0] + |blob| ==>
      var meaning, n := ReadMessage(blob[..offs[1] - offs[0]]), offs[1] - offs[0];
      if meaning.None? || meaning.value.Destination() != destination
         || meaning.value.IsCallback() || meaning.value.HasCallbackRequest()
      then ReadItems(offs, blob, destination).None?
      else Following(done, ReadItems(offs, blob, destination))
           == Following(done + [meaning.value], ReadItems(offs[1..], blob[n..], destination))
  {
    if offs[0] < offs[1] <= offs[0] + |blob| {
      var n := offs[1] - offs[0];
      var rest := ReadItems(offs[1..], blob[n..], destination);
      if ReadMessage(blob[..n]).Some? && rest.Some? {
        var m := ReadMessage(blob[..n]).value;
        assert done + ([m] + rest.value) == done + [m] + rest.value;
      }
    }
  }

  /** The message loop of the batch decoder. */
  method DecodeItems(table: seq<byte>, count: nat, blob: seq<byte>, destination: Address, ghost offs: seq<nat>)
    returns (r: Result<seq<CanonicalMessage>>)
    requires |table| == 4 * (count + 1) && offs == OffsetsFrom(Cut(table, 4, count + 1))
    requires offs[0] == 0 && offs[count] == |blob|
    ensures Agrees(r, ReadItems(offs, blob, destination))
  {
    hide ReadMessage, ReadItems, OffsetsFrom, Cut;
    var previous := 0;
    var ms: seq<CanonicalMessage> := [];
    assert offs[0..] == offs && blob[0..] == blob;
    NothingBefore(ReadItems(offs, blob, destination));
    for index := 0 to count
      invariant previous == offs[index] <= |blob|
      invariant ReadItems(offs, blob, destination)
                == Following(ms, ReadItems(offs[index..], blob[previous..], destination))
    {
      OffsetEntry(table, count, index + 1);
      var end :- ReadOffset(table, index + 1);
      ghost var left, later := blob[previous..], offs[index..];
      assert later[0] == previous && later[1] == end && later[1..] == offs[index + 1..];
      ItemsStep(later, left, destination, ms);
      if end <= previous || end > |blob| {
        return Err(INVALID_LENGTH);
      }
      assert left[..end - previous] == blob[previous..end] && left[end - previous..] == blob[end..];
      var m :- DecodeMessage(blob[previous..end]);
      if m.Destination() != destination {
        return Err(DESTINATION_MISMATCH);
      }
      if m.IsCallback() || m.HasCallbackRequest() {
        return Err(CALLBACK_FORBIDDEN);
      }
      ms := ms + [m];
      previous := end;
    }
    NothingLeft(offs[count..], blob[previous..], destination);
    assert ms + [] == ms;
    return Ok(ms);
  }

  lemma NothingLeft(offs: seq<nat>, blob: seq<byte>, destination: Address)
    requires |offs| == 1 && blob == []
    ensures ReadItems(offs, blob, destination) == Some([])
  {
  }
}
