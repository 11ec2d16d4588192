/** A stream's payee or refundee: accepts each nonce once, for its own stream and kind, and echoes the payment. */
module VestingReceiver {
  import opened Bytes
  import opened Sdk
  import opened Buffers
  import opened Blocks
  import opened VestingCore
  import opened VestingSpec

  const STATE_BYTES := 368
  const E_RECEIVER_AUTH := 4100
  const E_RECEIVER_ARGS := 4101
  const E_REJECT := 4102

  datatype Slot = Slot(lastNonce: u64, total: u128, count: u64)

  type Slots = s: seq<Slot> | |s| == MAX_STREAMS witness seq(MAX_STREAMS, _ => Slot(0, 0, 0))

  datatype Receiver = Receiver(owner: Id32, bound: Address, reject: bool, kind: byte, index: byte, slots: Slots)

  function Flag(b: bool): byte { if b then 1 else 0 }

  function SlotBytes(s: Slot): (b: seq<byte>)
    ensures |b| == 32
  {
    Le64(s.lastNonce) + Le128(s.total) + Le64(s.count)
  }

  function SlotAt(b: seq<byte>): (s: Slot)
    requires |b| == 32
    ensures SlotBytes(s) == b
  {
    assert b == b[..8] + b[8..24] + b[24..32];
    Slot(Nat64(b[..8]), Nat128(b[8..24]), Nat64(b[24..32]))
  }

  lemma SlotInverse(s: Slot)
    ensures SlotAt(SlotBytes(s)) == s
  {
    var b := SlotBytes(s);
    assert b[..8] == Le64(s.lastNonce) && b[8..24] == Le128(s.total) && b[24..32] == Le64(s.count);
    Le64Inverse(s.lastNonce);
    Le128Inverse(s.total);
    Le64Inverse(s.count);
  }

  function SlotRows(slots: seq<Slot>): (rows: seq<seq<byte>>)
    ensures |rows| == |slots| && Rows(rows, 32)
  {
    seq(|slots|, i requires 0 <= i < |slots| => SlotBytes(slots[i]))
  }

  function SlotsFrom(rows: seq<seq<byte>>): (slots: seq<Slot>)
    requires Rows(rows, 32)
    ensures |slots| == |rows| && SlotRows(slots) == rows
  {
    seq(|rows|, i requires 0 <= i < |rows| => SlotAt(rows[i]))
  }

  lemma SlotsInverse(slots: seq<Slot>)
    ensures SlotsFrom(SlotRows(slots)) == slots
  {
    forall i | 0 <= i < |slots| ensures SlotsFrom(SlotRows(slots))[i] == slots[i] {
      SlotInverse(slots[i]);
    }
  }

  function Head(r: Receiver): (b: seq<byte>)
    ensures |b| == 104
  {
    var owner: seq<byte> := r.owner;
    owner + AddressBytes(r.bound) + [Flag(r.reject), r.kind, r.index] + Zeros(5)
  }

  function Image(r: Receiver): (b: seq<byte>)
    ensures |b| == STATE_BYTES
  {
    Head(r) + Flat(SlotRows(r.slots), 32) + Zeros(8)
  }

  predicate Shaped(b: seq<byte>) {
    |b| == STATE_BYTES && b[96] <= 1 && b[97] <= 1 && b[98] < 8 && b[99..104] == Zeros(5) && b[360..368] == Zeros(8)
  }

  function View(b: seq<byte>): Receiver
    requires Shaped(b)
  {
    Receiver(b[..32], AddressAt(b[32..96]), b[96] == 1, b[97], b[98], SlotsFrom(Table(b, 104, 32, MAX_STREAMS)))
  }

  lemma ImageOfView(b: seq<byte>)
    requires Shaped(b)
    ensures Image(View(b)) == b
  {
    FlatOfTable(b, 104, 32, MAX_STREAMS);
    assert Head(View(b)) == b[..104] by {
      assert b[..104] == b[..32] + b[32..96] + [b[96], b[97], b[98]] + b[99..104];
    }
    assert b == b[..104] + b[104..104 + 32 * MAX_STREAMS] + b[360..368];
  }

  lemma ViewOfImage(r: Receiver)
    requires r.kind <= 1 && r.index < 8
    ensures Shaped(Image(r)) && View(Image(r)) == r
  {
    var b, h := Image(r), Head(r);
    TableOfFlat(h, SlotRows(r.slots), 32, Zeros(8));
    SlotsInverse(r.slots);
    assert b[..104] == h && b[360..368] == Zeros(8);
    assert h[..32] == r.owner && h[32..96] == AddressBytes(r.bound) && h[99..104] == Zeros(5);
    assert h[96] == Flag(r.reject) && h[97] == r.kind && h[98] == r.index;
    PrefixSlices(b, h);
    assert b[96] == b[..104][96] && b[97] == b[..104][97] && b[98] == b[..104][98];
    AddressInverse(r.bound);
  }

  datatype Receipt = Receipt(state: Receiver, result: seq<byte>)

  function Own(r: Receiver, here: Address, methodId: u64, body: seq<byte>): Result<Receipt> {
    if methodId == BIND then
      if |body| != 64 || r.bound != ZERO_ADDRESS then Err(E_RECEIVER_ARGS) else
        var a := AddressAt(body);
        if !NonzeroAddress(a) || a == here || a.dapp != here.dapp then Err(E_RECEIVER_ARGS)
        else Ok(Receipt(r.(bound := a), []))
    else if |body| != 1 || body[0] > 1 then Err(E_RECEIVER_ARGS)
    else Ok(Receipt(r.(reject := body[0] == 1), []))
  }

  predicate HasRoom(s: Slot, amount: u128) { s.total + amount < U128_END && s.count + 1 < U64_END }

  function Paid(r: Receiver, nonce: u64, amount: u128): Receiver
    requires r.index < 8 && HasRoom(r.slots[r.index], amount)
  {
    var s := r.slots[r.index];
    r.(slots := r.slots[r.index := Slot(nonce, s.total + amount, s.count + 1)])
  }

  function Accept(r: Receiver, extra: seq<Currency>, body: seq<byte>): Result<Receipt>
    requires r.index < 8
  {
    if r.reject then Err(E_REJECT) else
      var (index, kind, nonce, amount) :- ReadPayment(body);
      if index != r.index || kind != r.kind || PrincipalValue(extra) != Some(amount) then Err(E_RECEIVER_ARGS)
      else if nonce <= r.slots[r.index].lastNonce || !HasRoom(r.slots[r.index], amount) then Err(E_RECEIVER_ARGS)
      else Ok(Receipt(Paid(r, nonce, amount), body))
  }

  function Process(r: Receiver, in_: Input): Result<Receipt>
    requires r.index < 8
  {
    var m := in_.message;
    if m.methodId == RECEIVER_STATUS || m.methodId == BIND || m.methodId == REJECT then
      if m.Internal? then Err(E_RECEIVER_AUTH)
      else if m.extra != [] then Err(E_RECEIVER_ARGS)
      else if m.methodId == RECEIVER_STATUS then if m.body != [] then Err(E_ARGS) else Ok(Receipt(r, []))
      else if m.actor != r.owner then Err(E_RECEIVER_AUTH)
      else Own(r, in_.here, m.methodId, m.body)
    else if m.External? then Err(E_RECEIVER_AUTH)
    else if m.methodId != RECEIVE || m.source != r.bound || !NonzeroAddress(m.source) || !m.callbackRequest
            || m.callback.Some?
    then Err(E_RECEIVER_AUTH)
    else Accept(r, m.extra, m.body)
  }

  /**
   * A receiver takes a payment exactly when it is a fresh one for its own stream and kind, with room, from its
   * contract.
   */
  lemma TakesExactlyItsOwn(r: Receiver, in_: Input, nonce: u64, amount: u128)
    requires r.index < 8 && r.kind <= 1 && in_.message.Internal?
    requires in_.message.body == PaymentBody(r.index, r.kind, nonce, amount)
    ensures Process(r, in_).Ok? <==>
      && in_.message.methodId == RECEIVE && in_.message.source == r.bound && NonzeroAddress(r.bound)
      && in_.message.callbackRequest && in_.message.callback.None?
      && !r.reject && nonce != 0 && amount != 0 && PrincipalValue(in_.message.extra) == Some(amount)
      && r.slots[r.index].lastNonce < nonce && HasRoom(r.slots[r.index], amount)
    ensures Process(r, in_).Ok? ==> Process(r, in_).value == Receipt(Paid(r, nonce, amount), in_.message.body)
  {
    var body := in_.message.body;
    PaymentRoundTrip(body, r.index, r.kind, nonce, amount);
    if ReadPayment(body).Ok? {
      var p := ReadPayment(body).value;
      PaymentRoundTrip(body, p.0, p.1, p.2, p.3);
      SamePayment(r.index, r.kind, nonce, amount, p.0, p.1, p.2, p.3);
    }
  }

  /** Different payments have different bodies. */
  lemma SamePayment(i: byte, k: byte, n: u64, a: u128, j: nat, l: nat, m: u64, c: u128)
    requires j < MAX_STREAMS && l < 2 && PaymentBody(i, k, n, a) == PaymentBody(j, l, m, c)
    ensures i == j && k == l && n == m && a == c
  {
    var x, y := PaymentBody(i, k, n, a), PaymentBody(j, l, m, c);
    assert x[0] == i && x[1] == k && x[2..10] == Le64(n) && x[10..26] == Le128(a);
    assert y[0] == j && y[1] == l && y[2..10] == Le64(m) && y[10..26] == Le128(c);
    Le64Inverse(n);
    Le64Inverse(m);
    Le128Inverse(a);
    Le128Inverse(c);
  }

  datatype Output = Output(next: seq<byte>, result: seq<byte>)

  ghost predicate Answers(spec: Result<Receipt>, r: Result<Output>) {
    match spec
    case Ok(o) => r == Ok(Output(Image(o.state), o.result))
    case Err(code) => r == Err(code)
  }

  /** Overwriting three adjoining ranges is overwriting their concatenation. */
  lemma SpliceThree(b: seq<byte>, at: nat, x: seq<byte>, y: seq<byte>, z: seq<byte>)
    requires at + |x| + |y| + |z| <= |b|
    ensures Splice(Splice(Splice(b, at, x), at + |x|, y), at + |x| + |y|, z) == Splice(b, at, x + y + z)
  {
  }

  /** Overwriting a slot's 32 bytes is replacing that slot. */
  lemma Stamped(r: Receiver, s: Slot)
    requires r.index < 8
    ensures Splice(Image(r), 104 + 32 * r.index, SlotBytes(s)) == Image(r.(slots := r.slots[r.index := s]))
  {
    var rows := SlotRows(r.slots);
    FlatUpdate(rows, 32, r.index, SlotBytes(s));
    assert rows[r.index := SlotBytes(s)] == SlotRows(r.slots[r.index := s]);
    SpliceInside(Head(r), Flat(rows, 32), Zeros(8), 32 * r.index, SlotBytes(s));
  }

  lemma Bound(r: Receiver, a: Address)
    ensures Splice(Image(r), 32, AddressBytes(a)) == Image(r.(bound := a))
  {
    var b := Image(r);
    assert b[..32] == r.owner;
    assert b[96..] == [Flag(r.reject), r.kind, r.index] + Zeros(5) + Flat(SlotRows(r.slots), 32) + Zeros(8);
  }

  lemma Flagged(r: Receiver, flag: bool)
    ensures Splice(Image(r), 96, [Flag(flag)]) == Image(r.(reject := flag))
  {
    var b := Image(r);
    var owner: seq<byte> := r.owner;
    assert b[..96] == owner + AddressBytes(r.bound);
    assert b[97..] == [r.kind, r.index] + Zeros(5) + Flat(SlotRows(r.slots), 32) + Zeros(8);
  }

  method OwnCall(b: seq<byte>, here: Address, methodId: u64, body: seq<byte>) returns (r: Result<Output>)
    requires Shaped(b) && (methodId == BIND || methodId == REJECT)
    ensures Answers(Own(View(b), here, methodId, body), r)
  {
    ImageOfView(b);
    var next := CopyOf(b);
    if methodId == BIND {
      assert b[32..96] == Zeros(64) <==> View(b).bound == ZERO_ADDRESS by {
        assert AddressBytes(ZERO_ADDRESS) == Zeros(64);
        AddressInverse(ZERO_ADDRESS);
      }
      if |body| != 64 || b[32..96] != Zeros(64) {
        return Err(E_RECEIVER_ARGS);
      }
      var a := AddressAt(body);
      if !NonzeroAddress(a) || a == here || a.dapp != here.dapp {
        return Err(E_RECEIVER_ARGS);
      }
      Overwrite(next, 32, AddressBytes(a));
      Bound(View(b), a);
    } else {
      if |body| != 1 || body[0] > 1 {
        return Err(E_RECEIVER_ARGS);
      }
      Overwrite(next, 96, [body[0]]);
      Flagged(View(b), body[0] == 1);
    }
    return Ok(Output(next[..], []));
  }

  /** The slot the receiver reads and stamps lies at its own index. */
  lemma OwnSlot(b: seq<byte>)
    requires Shaped(b)
    ensures var i: nat := b[98];
      var o := 104 + 32 * i;
      && o + 32 <= 360
      && Nat64(b[o..o + 8]) == View(b).slots[i].lastNonce
      && Nat128(b[o + 8..o + 24]) == View(b).slots[i].total
      && Nat64(b[o + 24..o + 32]) == View(b).slots[i].count
  {
    var i: nat := b[98];
    var o := 104 + 32 * i;
    TableRow(b, 104, 32, MAX_STREAMS, i);
    Within(b, o, o + 32, 0, 8);
    Within(b, o, o + 32, 8, 24);
    Within(b, o, o + 32, 24, 32);
  }

  method AcceptCall(b: seq<byte>, extra: seq<Currency>, body: seq<byte>) returns (r: Result<Output>)
    requires Shaped(b)
    ensures Answers(Accept(View(b), extra, body), r)
  {
    if b[96] == 1 {
      return Err(E_REJECT);
    }
    var payment :- ReadPayment(body);
    var (index, kind, nonce, amount) := payment;
    if index != b[98] || kind != b[97] || PrincipalValue(extra) != Some(amount) {
      return Err(E_RECEIVER_ARGS);
    }
    var o: nat := 104 + index * 32;
    OwnSlot(b);
    if nonce <= Nat64(b[o..o + 8]) {
      return Err(E_RECEIVER_ARGS);
    }
    var next :- Stamp(b, nonce, amount);
    return Ok(Output(next, body));
  }

  /** The three overwritten ranges of an accepted payment. */
  method Stamp(b: seq<byte>, nonce: u64, amount: u128) returns (r: Result<seq<byte>>)
    requires Shaped(b)
    ensures r == if HasRoom(View(b).slots[b[98]], amount) then Ok(Image(Paid(View(b), nonce, amount)))
            else Err(E_RECEIVER_ARGS)
  {
    hide NonzeroAddress, AddressAt, AddressBytes, Image, SlotsFrom;
    var i: nat := b[98];
    var o := 104 + 32 * i;
    OwnSlot(b);
    ImageOfView(b);
    var next := CopyOf(b);
    Overwrite(next, o, Le64(nonce));
    var total := CheckedAdd(Nat128(b[o + 8..o + 24]), amount);
    if total.None? {
      return Err(E_RECEIVER_ARGS);
    }
    Overwrite(next, o + 8, Le128(total.value));
    var count := Nat64(b[o + 24..o + 32]);
    if count + 1 >= U64_END {
      return Err(E_RECEIVER_ARGS);
    }
    Overwrite(next, o + 24, Le64(count + 1));
    SpliceThree(b, o, Le64(nonce), Le128(total.value), Le64(count + 1));
    Stamped(View(b), Slot(nonce, total.value, count + 1));
    return Ok(next[..]);
  }

  /** The entrypoint on bytes agrees with the specification on the receiver those bytes stand for. */
  method ProcessImage(b: seq<byte>, in_: Input) returns (r: Result<Output>)
    ensures !Shaped(b) ==> r == Err(E_RECEIVER_ARGS)
    ensures Shaped(b) ==> Answers(Process(View(b), in_), r)
  {
    if |b| != STATE_BYTES || b[96] > 1 || b[97] > 1 || b[98] >= 8 || b[99..104] != Zeros(5) || b[360..368] != Zeros(8) {
      return Err(E_RECEIVER_ARGS);
    }
    ImageOfView(b);
    var m := in_.message;
    if m.methodId == RECEIVER_STATUS || m.methodId == BIND || m.methodId == REJECT {
      if m.Internal? {
        return Err(E_RECEIVER_AUTH);
      }
      if m.extra != [] {
        return Err(E_RECEIVER_ARGS);
      }
      if m.methodId == RECEIVER_STATUS {
        if m.body != [] {
          return Err(E_ARGS);
        }
        return Ok(Output(b, []));
      }
      if m.actor != b[..32] {
        return Err(E_RECEIVER_AUTH);
      }
      r := OwnCall(b, in_.here, m.methodId, m.body);
      return;
    }
    if m.External? {
      return Err(E_RECEIVER_AUTH);
    }
    if m.methodId != RECEIVE || m.source != AddressAt(b[32..96]) || !NonzeroAddress(m.source) || !m.callbackRequest
       || m.callback.Some?
    {
      return Err(E_RECEIVER_AUTH);
    }
    r := AcceptCall(b, m.extra, m.body);
  }
}
