/**
 * Event field lists: the encoder, and the validator that accepts exactly what the encoder can produce.
 * Text is kept as its bytes; which byte strings are text (section 4 of RFC 3629) is a parameter.
 */
module EventFields {
  import opened Bytes
  import opened Sdk
  import opened Buffers
  import opened Wire

  // The encoder's error values, by position in the enumeration.
  const LENGTH_OVERFLOW := 0
  const INVALID_EVENT := 9

  const U16_END := 0x1_0000
  const I64_LIMIT := 0x8000_0000_0000_0000
  const I128_LIMIT := 0x8000_0000_0000_0000_0000_0000_0000_0000

  type i64 = x: int | -0x8000_0000_0000_0000 <= x < 0x8000_0000_0000_0000
  type i128 = x: int | -0x8000_0000_0000_0000_0000_0000_0000_0000 <= x < 0x8000_0000_0000_0000_0000_0000_0000_0000

  datatype EventValue =
    | Null
    | Truth(flag: bool)
    | Unsigned64(u64: u64)
    | Signed64(i64: i64)
    | Unsigned128(u128: u128)
    | Signed128(i128: i128)
    | Text(text: seq<byte>)
    | Data(data: seq<byte>)
    | AddressOf(address: Address)

  datatype EventField = EventField(name: seq<byte>, value: EventValue)

  function Twos64(x: i64): u64 { if x < 0 then x + U64_END else x }

  function Signed64Of(n: u64): (x: i64)
    ensures Twos64(x) == n
  {
    if n < I64_LIMIT then n else n - U64_END
  }

  function Twos128(x: i128): u128 { if x < 0 then x + U128_END else x }

  function Signed128Of(n: u128): (x: i128)
    ensures Twos128(x) == n
  {
    if n < I128_LIMIT then n else n - U128_END
  }

  function Kind(v: EventValue): byte {
    match v
    case Null => 0
    case Truth(_) => 1
    case Unsigned64(_) => 2
    case Signed64(_) => 3
    case Unsigned128(_) => 4
    case Signed128(_) => 5
    case Text(_) => 6
    case Data(_) => 7
    case AddressOf(_) => 8
  }

  function ValueBytes(v: EventValue): seq<byte> {
    match v
    case Null => []
    case Truth(flag) => [if flag then 1 else 0]
    case Unsigned64(n) => Le64(n)
    case Signed64(x) => Le64(Twos64(x))
    case Unsigned128(n) => Le128(n)
    case Signed128(x) => Le128(Twos128(x))
    case Text(text) => text
    case Data(data) => data
    case AddressOf(a) => AddressBytes(a)
  }

  /** Names and texts are text. */
  predicate TextValue(utf8: seq<byte> -> bool, v: EventValue) { v.Text? ==> utf8(v.text) }

  predicate WellTyped(utf8: seq<byte> -> bool, f: EventField) { utf8(f.name) && TextValue(utf8, f.value) }

  predicate AllWellTyped(utf8: seq<byte> -> bool, fields: seq<EventField>) {
    forall i | 0 <= i < |fields| :: WellTyped(utf8, fields[i])
  }

  predicate After(prev: Option<seq<byte>>, name: seq<byte>) { prev.None? || Less(prev.value, name) }

  /** One record: name length, kind, value length, name, value. */
  function FieldBytes(f: EventField): seq<byte>
    requires |f.name| < U16_END && |ValueBytes(f.value)| < U16_END
  {
    Le16(|f.name|) + [Kind(f.value)] + Le16(|ValueBytes(f.value)|) + f.name + ValueBytes(f.value)
  }

  /** The records of a list, or the first thing wrong with it. */
  function Records(fields: seq<EventField>, prev: Option<seq<byte>>): Result<seq<byte>>
    decreases |fields|
  {
    if fields == [] then Ok([])
    else if !After(prev, fields[0].name) then Err(INVALID_EVENT)
    else if |fields[0].name| >= U16_END || |ValueBytes(fields[0].value)| >= U16_END then Err(LENGTH_OVERFLOW)
    else
      var rest :- Records(fields[1..], Some(fields[0].name));
      Ok(FieldBytes(fields[0]) + rest)
  }

  function EncodeFields(fields: seq<EventField>): Result<seq<byte>> {
    if |fields| >= U16_END then Err(LENGTH_OVERFLOW)
    else
      var records :- Records(fields, None);
      Ok(Le16(|fields|) + Le16(0) + records)
  }

  /** A refused list is refused for its first bad field: one out of order, or else one with a part too long. */
  lemma {:induction false} FirstBadFieldDecides(fields: seq<EventField>, prev: Option<seq<byte>>)
    requires Records(fields, prev).Err?
    ensures exists k: nat | k < |fields| :: BadAt(fields, prev, k, Records(fields, prev).code)
    decreases |fields|
  {
    var code := Records(fields, prev).code;
    if Before(fields, prev, 0, fields[0].name) && Short(fields[0]) {
      var rest := fields[1..];
      FirstBadFieldDecides(rest, Some(fields[0].name));
      var k: nat :| k < |rest| && BadAt(rest, Some(fields[0].name), k, code);
      forall j: nat | j < k + 1 ensures Before(fields, prev, j, fields[j].name) && Short(fields[j]) {
        assert j > 0 ==> Before(rest, Some(fields[0].name), j - 1, rest[j - 1].name) && Short(rest[j - 1]);
      }
      assert BadAt(fields, prev, k + 1, code);
    } else {
      assert BadAt(fields, prev, 0, code);
    }
  }

  predicate Short(f: EventField) { |f.name| < U16_END && |ValueBytes(f.value)| < U16_END }

  /** `name` comes after the field before position `k`, or after `prev` at the front. */
  predicate Before(fields: seq<EventField>, prev: Option<seq<byte>>, k: nat, name: seq<byte>)
    requires k <= |fields|
  {
    if k > 0 then Less(fields[k - 1].name, name) else prev.Some? ==> Less(prev.value, name)
  }

  /** Everything before field `k` is in order and short, and field `k` is what the code says is wrong. */
  predicate BadAt(fields: seq<EventField>, prev: Option<seq<byte>>, k: nat, code: int)
    requires k < |fields|
  {
    && (forall j: nat | j < k :: Before(fields, prev, j, fields[j].name) && Short(fields[j]))
    && (if Before(fields, prev, k, fields[k].name) then code == LENGTH_OVERFLOW && !Short(fields[k])
        else code == INVALID_EVENT)
  }

  /** An encodable list has its names in strictly ascending byte order. */
  lemma {:induction false} EncodedNamesAscend(fields: seq<EventField>, prev: Option<seq<byte>>)
    requires Records(fields, prev).Ok?
    ensures forall i | 0 <= i < |fields| :: After(prev, fields[i].name)
    ensures forall i, j | 0 <= i < j < |fields| :: Less(fields[i].name, fields[j].name)
    decreases |fields|
  {
    if fields != [] {
      var f, rest := fields[0], fields[1..];
      EncodedNamesAscend(rest, Some(f.name));
      forall i | 0 <= i < |fields| ensures After(prev, fields[i].name) && (i > 0 ==> Less(f.name, fields[i].name)) {
        if i > 0 {
          assert fields[i] == rest[i - 1] && After(Some(f.name), rest[i - 1].name);
          if prev.Some? {
            LessTransitive(prev.value, f.name, fields[i].name);
          }
        }
      }
      forall i, j | 0 <= i < j < |fields| ensures Less(fields[i].name, fields[j].name) {
        if i > 0 {
          assert fields[i] == rest[i - 1] && fields[j] == rest[j - 1];
        }
      }
    }
  }

  lemma {:induction false} EncodedAreShort(fields: seq<EventField>, prev: Option<seq<byte>>)
    requires Records(fields, prev).Ok?
    ensures forall i | 0 <= i < |fields| :: Short(fields[i])
    decreases |fields|
  {
    if fields != [] {
      EncodedAreShort(fields[1..], Some(fields[0].name));
      assert forall i | 0 < i < |fields| :: fields[i] == fields[1..][i - 1];
    }
  }

  /** A list can be encoded exactly when it is short, its names strictly ascend, and its names and values are short. */
  lemma EncodableExactly(fields: seq<EventField>)
    ensures EncodeFields(fields).Ok? <==>
      && |fields| < U16_END
      && (forall i | 0 <= i < |fields| :: |fields[i].name| < U16_END && |ValueBytes(fields[i].value)| < U16_END)
      && (forall i, j | 0 <= i < j < |fields| :: Less(fields[i].name, fields[j].name))
  {
    hide Records, ValueBytes, Less;
    if Records(fields, None).Ok? {
      EncodedNamesAscend(fields, None);
      EncodedAreShort(fields, None);
    } else {
      FirstBadFieldDecides(fields, None);
      var k: nat :| k < |fields| && BadAt(fields, None, k, Records(fields, None).code);
    }
  }

  /** The value a kind and its bytes stand for. */
  function ValueOf(utf8: seq<byte> -> bool, kind: byte, b: seq<byte>): Option<EventValue> {
    if kind == 0 && b == [] then Some(Null)
    else if kind == 1 && b == [0] then Some(Truth(false))
    else if kind == 1 && b == [1] then Some(Truth(true))
    else if kind == 2 && |b| == 8 then Some(Unsigned64(Nat64(b)))
    else if kind == 3 && |b| == 8 then Some(Signed64(Signed64Of(Nat64(b))))
    else if kind == 4 && |b| == 16 then Some(Unsigned128(Nat128(b)))
    else if kind == 5 && |b| == 16 then Some(Signed128(Signed128Of(Nat128(b))))
    else if kind == 6 && utf8(b) then Some(Text(b))
    else if kind == 7 then Some(Data(b))
    else if kind == 8 && |b| == 64 then Some(AddressOf(AddressAt(b)))
    else None
  }

  lemma ValueExact(utf8: seq<byte> -> bool, kind: byte, b: seq<byte>, v: EventValue)
    ensures ValueOf(utf8, kind, b) == Some(v) <==> TextValue(utf8, v) && kind == Kind(v) && b == ValueBytes(v)
  {
    match v
    case Unsigned64(n) => Le64Inverse(n);
    case Signed64(x) => Le64Inverse(Twos64(x));
    case Unsigned128(n) => Le128Inverse(n);
    case Signed128(x) => Le128Inverse(Twos128(x));
    case AddressOf(a) => AddressInverse(a);
    case _ =>
  }

  /** One record read from the front. */
  function TakeField(utf8: seq<byte> -> bool, b: seq<byte>): Option<(EventField, seq<byte>)> {
    var (nameLen, b1) :- Take16(b);
    var (kind, b2) :- TakeByte(b1);
    var (valueLen, b3) :- Take16(b2);
    var (name, b4) :- Take(b3, nameLen);
    var (bytes, b5) :- Take(b4, valueLen);
    var value :- ValueOf(utf8, kind, bytes);
    if utf8(name) then Some((EventField(name, value), b5)) else None
  }

  lemma FieldExact(utf8: seq<byte> -> bool, b: seq<byte>, f: EventField, rest: seq<byte>)
    ensures TakeField(utf8, b) == Some((f, rest)) <==>
      && WellTyped(utf8, f) && |f.name| < U16_END && |ValueBytes(f.value)| < U16_END
      && b == FieldBytes(f) + rest
  {
    var bytes := ValueBytes(f.value);
    if |f.name| < U16_END && |bytes| < U16_END {
      PrintedFieldReads(utf8, f, rest);
    }
    if TakeField(utf8, b) == Some((f, rest)) {
      ReadFieldPrints(utf8, b, f, rest);
    }
  }

  lemma PrintedFieldReads(utf8: seq<byte> -> bool, f: EventField, rest: seq<byte>)
    requires |f.name| < U16_END && |ValueBytes(f.value)| < U16_END
    ensures TakeField(utf8, FieldBytes(f) + rest) == if WellTyped(utf8, f) then Some((f, rest)) else None
  {
    var bytes := ValueBytes(f.value);
    var b4 := bytes + rest;
    var b3 := f.name + b4;
    var b2 := Le16(|bytes|) + b3;
    var b1 := [Kind(f.value)] + b2;
    NestFive(Le16(|f.name|), [Kind(f.value)], Le16(|bytes|), f.name, bytes, rest);
    Exact16(FieldBytes(f) + rest, |f.name|, b1);
    ByteExact(b1, Kind(f.value), b2);
    Exact16(b2, |bytes|, b3);
    TakeExact(b3, |f.name|, f.name, b4);
    TakeExact(b4, |bytes|, bytes, rest);
    ValueExact(utf8, Kind(f.value), bytes, f.value);
    if ValueOf(utf8, Kind(f.value), bytes).Some? {
      ValueExact(utf8, Kind(f.value), bytes, ValueOf(utf8, Kind(f.value), bytes).value);
      SameKindAndBytes(f.value, ValueOf(utf8, Kind(f.value), bytes).value);
    }
  }

  /** Kind and bytes determine the value. */
  lemma SameKindAndBytes(v: EventValue, w: EventValue)
    requires Kind(v) == Kind(w) && ValueBytes(v) == ValueBytes(w)
    ensures v == w
  {
    ValueExact(_ => true, Kind(v), ValueBytes(v), v);
    ValueExact(_ => true, Kind(w), ValueBytes(w), w);
  }

  lemma ReadFieldPrints(utf8: seq<byte> -> bool, b: seq<byte>, f: EventField, rest: seq<byte>)
    requires TakeField(utf8, b) == Some((f, rest))
    ensures WellTyped(utf8, f) && |f.name| < U16_END && |ValueBytes(f.value)| < U16_END
    ensures b == FieldBytes(f) + rest
  {
    hide Take16, TakeByte, Take, ValueBytes, ValueOf;
    var (nameLen, b1) := Take16(b).value;
    var (kind, b2) := TakeByte(b1).value;
    var (valueLen, b3) := Take16(b2).value;
    var (name, b4) := Take(b3, nameLen).value;
    var (bytes, b5) := Take(b4, valueLen).value;
    Exact16(b, nameLen, b1);
    ByteExact(b1, kind, b2);
    Exact16(b2, valueLen, b3);
    TakeExact(b3, nameLen, name, b4);
    TakeExact(b4, valueLen, bytes, b5);
    ValueExact(utf8, kind, bytes, f.value);
    NestFive(Le16(nameLen), [kind], Le16(valueLen), name, bytes, rest);
  }

  /** `count` records in ascending name order, and nothing after them. */
  function TakeFields(utf8: seq<byte> -> bool, b: seq<byte>, count: nat,
                      prev: Option<seq<byte>>): Option<seq<EventField>>
    decreases count
  {
    if count == 0 then
      if b == [] then Some([]) else None
    else
      var (f, rest) :- TakeField(utf8, b);
      if !After(prev, f.name) then None else
        var tail :- TakeFields(utf8, rest, count - 1, Some(f.name));
        Some([f] + tail)
  }

  lemma {:induction false} FieldsExact(utf8: seq<byte> -> bool, b: seq<byte>, prev: Option<seq<byte>>,
                                       fields: seq<EventField>)
    ensures TakeFields(utf8, b, |fields|, prev) == Some(fields) <==>
            AllWellTyped(utf8, fields) && Records(fields, prev) == Ok(b)
    decreases |fields|
  {
    hide TakeField, FieldBytes, WellTyped;
    if fields != [] {
      var f, rest := fields[0], fields[1..];
      assert fields == [f] + rest;
      if TakeFields(utf8, b, |fields|, prev) == Some(fields) {
        var (g, after) := TakeField(utf8, b).value;
        FieldExact(utf8, b, g, after);
        FieldsExact(utf8, after, Some(g.name), TakeFields(utf8, after, |fields| - 1, Some(g.name)).value);
        assert ([g] + TakeFields(utf8, after, |fields| - 1, Some(g.name)).value)[1..] == rest;
      }
      if AllWellTyped(utf8, fields) && Records(fields, prev) == Ok(b) {
        var after := Records(rest, Some(f.name)).value;
        assert WellTyped(utf8, f);
        FieldExact(utf8, b, f, after);
        FieldsExact(utf8, after, Some(f.name), rest);
      }
    }
  }

  lemma {:induction false} TakeFieldsCount(utf8: seq<byte> -> bool, b: seq<byte>, count: nat, prev: Option<seq<byte>>)
    requires TakeFields(utf8, b, count, prev).Some?
    ensures |TakeFields(utf8, b, count, prev).value| == count
    decreases count
  {
    hide TakeField;
    if count > 0 {
      var (f, rest) := TakeField(utf8, b).value;
      TakeFieldsCount(utf8, rest, count - 1, Some(f.name));
    }
  }

  /** The whole list as the validator walks it. */
  function ReadList(utf8: seq<byte> -> bool, b: seq<byte>): Option<seq<EventField>> {
    var (count, b1) :- Take16(b);
    var (reserved, b2) :- Take16(b1);
    if reserved != 0 then None else TakeFields(utf8, b2, count, None)
  }

  /** Reading is the exact inverse of encoding, on well-typed lists and on accepted bytes alike. */
  lemma ListExact(utf8: seq<byte> -> bool, b: seq<byte>, fields: seq<EventField>)
    ensures ReadList(utf8, b) == Some(fields) <==> AllWellTyped(utf8, fields) && EncodeFields(fields) == Ok(b)
  {
    if EncodeFields(fields) == Ok(b) {
      var records := Records(fields, None).value;
      assert b == Le16(|fields|) + (Le16(0) + records);
      Exact16(b, |fields|, Le16(0) + records);
      Exact16(Le16(0) + records, 0, records);
      FieldsExact(utf8, records, None, fields);
    }
    if ReadList(utf8, b) == Some(fields) {
      var (count, b1) := Take16(b).value;
      var (reserved, b2) := Take16(b1).value;
      Exact16(b, count, b1);
      Exact16(b1, reserved, b2);
      TakeFieldsCount(utf8, b2, count, None);
      FieldsExact(utf8, b2, None, fields);
      assert b == Le16(count) + Le16(0) + b2;
    }
  }

  /** The validator's language is exactly the encoder's image. */
  lemma AcceptsExactlyEncodings(utf8: seq<byte> -> bool, b: seq<byte>)
    ensures ReadList(utf8, b).Some? <==>
            exists fields: seq<EventField> :: AllWellTyped(utf8, fields) && EncodeFields(fields) == Ok(b)
  {
    if ReadList(utf8, b).Some? {
      ListExact(utf8, b, ReadList(utf8, b).value);
    }
    if fields: seq<EventField> :| AllWellTyped(utf8, fields) && EncodeFields(fields) == Ok(b) {
      ListExact(utf8, b, fields);
    }
  }

  /** Bytes already written, followed by what the rest of the list encodes to. */
  function Then(done: seq<byte>, r: Result<seq<byte>>): Result<seq<byte>> {
    match r
    case Ok(rest) => Ok(done + rest)
    case Err(code) => Err(code)
  }

  lemma ThenNothing(r: Result<seq<byte>>)
    ensures Then([], r) == r
  {
    if r.Ok? {
      assert [] + r.value == r.value;
    }
  }

  lemma ThenRecord(done: seq<byte>, fields: seq<EventField>, prev: Option<seq<byte>>)
    requires fields != [] && After(prev, fields[0].name)
    requires |fields[0].name| < U16_END && |ValueBytes(fields[0].value)| < U16_END
    ensures Then(done, Records(fields, prev))
            == Then(done + FieldBytes(fields[0]), Records(fields[1..], Some(fields[0].name)))
  {
    var rest := Records(fields[1..], Some(fields[0].name));
    if rest.Ok? {
      assert done + (FieldBytes(fields[0]) + rest.value) == done + FieldBytes(fields[0]) + rest.value;
    }
  }

  /** `encode_event_fields`. */
  method EncodeEventFields(fields: seq<EventField>) returns (r: Result<seq<byte>>)
    ensures r == EncodeFields(fields)
  {
    if |fields| >= U16_END {
      return Err(LENGTH_OVERFLOW);
    }
    ghost var head := Le16(|fields|) + Le16(0);
    var bytes := Le16(|fields|) + Le16(0);
    ghost var done: seq<byte> := [];
    var previous: Option<seq<byte>> := None;
    ThenNothing(Records(fields, None));
    assert fields[0..] == fields;
    for i := 0 to |fields|
      invariant bytes == head + done
      invariant Records(fields, None) == Then(done, Records(fields[i..], previous))
    {
      var f := fields[i];
      assert fields[i..][1..] == fields[i + 1..];
      if previous.Some? && !Less(previous.value, f.name) {
        return Err(INVALID_EVENT);
      }
      if |f.name| >= U16_END {
        return Err(LENGTH_OVERFLOW);
      }
      var kind, value := Kind(f.value), ValueBytes(f.value);
      if |value| >= U16_END {
        return Err(LENGTH_OVERFLOW);
      }
      ThenRecord(done, fields[i..], previous);
      previous := Some(f.name);
      bytes := bytes + Le16(|f.name|);
      bytes := bytes + [kind];
      bytes := bytes + Le16(|value|);
      bytes := bytes + f.name;
      bytes := bytes + value;
      assert bytes == head + (done + FieldBytes(f));
      done := done + FieldBytes(f);
    }
    assert done + [] == done;
    return Ok(bytes);
  }

  /** The value check of the validator, without building the value. */
  predicate LegalValue(utf8: seq<byte> -> bool, kind: byte, value: seq<byte>) {
    || (kind == 0 && value == [])
    || (kind == 1 && (value == [0] || value == [1]))
    || ((kind == 2 || kind == 3) && |value| == 8)
    || ((kind == 4 || kind == 5) && |value| == 16)
    || (kind == 6 && utf8(value))
    || kind == 7
    || (kind == 8 && |value| == 64)
  }

  /** One turn of the validator's loop: the name read, if the record and its place in the order are right. */
  method CheckField(utf8: seq<byte> -> bool, reader: Reader, previous: Option<seq<byte>>) returns (r: Result<seq<byte>>)
    requires reader.Valid() && reader.eof == INVALID_EVENT
    modifies reader
    ensures reader.Valid()
    ensures match TakeField(utf8, old(reader.Rest()))
            case Some((f, rest)) => r == (if After(previous, f.name) then Ok(f.name) else Err(INVALID_EVENT))
                                    && (r.Ok? ==> reader.Rest() == rest)
            case None => r == Err(INVALID_EVENT)
  {
    hide Less, Reader.Rest, Take16, TakeByte, Take;
    var nameLen :- reader.Next16();
    var kind :- reader.NextByte();
    var valueLen :- reader.Next16();
    var name :- reader.Next(nameLen);
    if !utf8(name) {
      return Err(INVALID_EVENT);
    }
    if previous.Some? && !Less(previous.value, name) {
      return Err(INVALID_EVENT);
    }
    var value :- reader.Next(valueLen);
    if !LegalValue(utf8, kind, value) {
      return Err(INVALID_EVENT);
    }
    return Ok(name);
  }

  /** A list reads if its first record does, comes in order, and the rest reads after it. */
  lemma FirstFieldDecides(utf8: seq<byte> -> bool, b: seq<byte>, count: nat, prev: Option<seq<byte>>)
    ensures count == 0 ==> (TakeFields(utf8, b, count, prev).Some? <==> b == [])
    ensures count > 0 ==>
      match TakeField(utf8, b)
      case None => TakeFields(utf8, b, count, prev).None?
      case Some((f, rest)) =>
        TakeFields(utf8, b, count, prev).Some? <==>
        After(prev, f.name) && TakeFields(utf8, rest, count - 1, Some(f.name)).Some?
  {
    hide TakeField, After;
  }

  /** The validator's loop over the records, and the check that nothing follows them. */
  method CheckFields(utf8: seq<byte> -> bool, reader: Reader, count: nat) returns (r: Result<()>)
    requires reader.Valid() && reader.eof == INVALID_EVENT
    modifies reader
    ensures r == if TakeFields(utf8, old(reader.Rest()), count, None).Some? then Ok(()) else Err(INVALID_EVENT)
  {
    hide TakeField, TakeFields, After, Reader.Rest;
    ghost var list := reader.Rest();
    var previous: Option<seq<byte>> := None;
    for i := 0 to count
      invariant reader.Valid()
      invariant TakeFields(utf8, list, count, None).Some? <==>
                TakeFields(utf8, reader.Rest(), count - i, previous).Some?
    {
      FirstFieldDecides(utf8, reader.Rest(), count - i, previous);
      var name :- CheckField(utf8, reader, previous);
      previous := Some(name);
    }
    FirstFieldDecides(utf8, reader.Rest(), 0, previous);
    var done := reader.AtEnd();
    return if done then Ok(()) else Err(INVALID_EVENT);
  }

  /** `validate_event_field_list`. */
  method ValidateEventFieldList(utf8: seq<byte> -> bool, bytes: seq<byte>) returns (r: Result<()>)
    ensures r == if ReadList(utf8, bytes).Some? then Ok(()) else Err(INVALID_EVENT)
  {
    hide TakeFields, TakeField;
    var reader := new Reader(bytes, 0, INVALID_EVENT);
    assert bytes[0..] == bytes;
    var count :- reader.Next16();
    var reserved :- reader.Next16();
    if reserved != 0 {
      return Err(INVALID_EVENT);
    }
    r := CheckFields(utf8, reader, count);
  }
}
