/** The payout receiver: accepts each nonce once, echoes the payment, and reports it for audit. */
module RevenueReceiver {
  import opened Bytes
  import opened Sdk
  import opened Buffers
  import opened RevenueCore

  const STATE_BYTES := 224
  const E_RECEIVER_AUTH := 3100
  const E_RECEIVER_ARGS := 3101
  const E_REJECT := 3102

  datatype Receiver = Receiver(owner: Id32, audit: Address, vault: Address, index: byte, reject: bool,
                               lastNonce: u64, total: u128, count: u64, fuel: u128, duplicate: bool)

  function Flag(b: bool): byte { if b then 1 else 0 }

  /** The stored image of a receiver. */
  function Image(r: Receiver): (b: seq<byte>)
    ensures |b| == STATE_BYTES
  {
    r.owner + AddressBytes(r.audit) + AddressBytes(r.vault) + [r.index, Flag(r.reject)] + Zeros(6)
    + Le64(r.lastNonce) + Le128(r.total) + Le64(r.count) + Le128(r.fuel) + [Flag(r.duplicate)] + Zeros(7)
  }

  predicate Shaped(b: seq<byte>) {
    && |b| == STATE_BYTES
    && b[162..168] == Zeros(6) && b[217..224] == Zeros(7)
    && b[216] <= 1 && b[161] <= 1 && b[160] < 16
  }

  function View(b: seq<byte>): Receiver
    requires Shaped(b)
  {
    Receiver(b[..32], AddressAt(b[32..96]), AddressAt(b[96..160]), b[160], b[161] == 1, Nat64(b[168..176]),
             Nat128(b[176..192]), Nat64(b[192..200]), Nat128(b[200..216]), b[216] == 1)
  }

  /** Accepted images and receivers with a legal index correspond one to one. */
  lemma ImageOfView(b: seq<byte>)
    requires Shaped(b)
    ensures Image(View(b)) == b
  {
    assert b == b[..32] + b[32..96] + b[96..160] + [b[160], b[161]] + b[162..168] + b[168..176] + b[176..192]
              + b[192..200] + b[200..216] + [b[216]] + b[217..224];
  }

  lemma ViewOfImage(r: Receiver)
    requires r.index < 16
    ensures Shaped(Image(r)) && View(Image(r)) == r
  {
    var b := Image(r);
    assert b[..32] == r.owner && b[32..96] == AddressBytes(r.audit) && b[96..160] == AddressBytes(r.vault);
    assert b[160] == r.index && b[161] == Flag(r.reject) && b[216] == Flag(r.duplicate);
    assert b[162..168] == Zeros(6) && b[217..224] == Zeros(7);
    assert b[168..176] == Le64(r.lastNonce) && b[192..200] == Le64(r.count);
    assert b[176..192] == Le128(r.total) && b[200..216] == Le128(r.fuel);
    AddressInverse(r.audit);
    AddressInverse(r.vault);
    Le64Inverse(r.lastNonce);
    Le64Inverse(r.count);
    Le128Inverse(r.total);
    Le128Inverse(r.fuel);
  }

  /** A successful call: new state, the body returned to the caller, and the audit reports it queues. */
  datatype Receipt = Receipt(state: Receiver, result: seq<byte>, reports: seq<Outbound>)

  function Report(r: Receiver, body: seq<byte>): Outbound {
    Outbound(r.audit, r.fuel, 0, AUDIT_RECORD, body, None)
  }

  function Own(r: Receiver, here: Address, methodId: u64, body: seq<byte>): Result<Receipt> {
    if methodId == BIND then
      if |body| != 64 || r.vault != ZERO_ADDRESS then Err(E_RECEIVER_ARGS) else
        var v := AddressAt(body);
        if !NonzeroAddress(v) || v == here || v.dapp != here.dapp then Err(E_RECEIVER_ARGS)
        else Ok(Receipt(r.(vault := v), [], []))
    else if |body| != 1 || body[0] > 1 then Err(E_RECEIVER_ARGS)
    else if methodId == REJECT then Ok(Receipt(r.(reject := body[0] == 1), [], []))
    else Ok(Receipt(r.(duplicate := body[0] == 1), [], []))
  }

  function Accept(r: Receiver, extra: seq<Currency>, body: seq<byte>): Result<Receipt> {
    if r.reject then Err(E_REJECT) else
      var (index, nonce, amount) :- ReadPayment(body);
      if index != r.index || nonce <= r.lastNonce || amount != Principal(extra) || |extra| != 1
      then Err(E_RECEIVER_ARGS)
      else if r.total + amount >= U128_END || r.count + 1 >= U64_END then Err(E_RECEIVER_ARGS)
      else Ok(Receipt(Paid(r, nonce, amount), body, Reports(r, body)))
  }

  function Paid(r: Receiver, nonce: u64, amount: u128): Receiver
    requires r.total + amount < U128_END && r.count + 1 < U64_END
  {
    r.(lastNonce := nonce, total := r.total + amount, count := r.count + 1)
  }

  function Reports(r: Receiver, body: seq<byte>): seq<Outbound> {
    if r.duplicate then [Report(r, body), Report(r, body)] else [Report(r, body)]
  }

  function Process(r: Receiver, in_: Input): Result<Receipt> {
    var m := in_.message;
    if m.methodId == RECEIVER_STATUS then
      if m.Internal? then Err(E_RECEIVER_AUTH)
      else if m.body != [] then Err(E_ARGS)
      else if m.extra != [] then Err(E_RECEIVER_ARGS)
      else Ok(Receipt(r, [], []))
    else if m.methodId == BIND || m.methodId == REJECT || m.methodId == DUPLICATE_AUDIT then
      if m.Internal? || m.actor != r.owner then Err(E_RECEIVER_AUTH)
      else if m.extra != [] then Err(E_RECEIVER_ARGS)
      else Own(r, in_.here, m.methodId, m.body)
    else if m.External? then Err(E_RECEIVER_AUTH)
    else if m.source != r.vault || m.methodId != RECEIVE || !m.callbackRequest || m.callback.Some?
    then Err(E_RECEIVER_AUTH)
    else Accept(r, m.extra, m.body)
  }

  /** Only the bound vault's payments move value into a receiver, and each raises its total by what it carried. */
  lemma OnlyPaymentsMoveValue(r: Receiver, in_: Input)
    requires Process(r, in_).Ok?
    ensures var t := Process(r, in_).value.state;
      && t.index == r.index && t.owner == r.owner && t.audit == r.audit
      && t.total == r.total + Principal(in_.message.extra)
      && (in_.message.External? ==> t.lastNonce == r.lastNonce && t.count == r.count && t.total == r.total)
      && (in_.message.Internal? ==>
            in_.message.source == r.vault
            && t == r.(lastNonce := t.lastNonce, total := t.total, count := t.count))
  {
  }

  /** The field a payment overwrites lies between bytes that stay. */
  lemma Stamped(r: Receiver, nonce: u64, total: u128, count: u64)
    ensures var b := Image(r);
            Splice(Splice(Splice(b, 168, Le64(nonce)), 176, Le128(total)), 192, Le64(count))
            == Image(r.(lastNonce := nonce, total := total, count := count))
  {
    var b := Image(r);
    var head := b[..168];
    assert head == r.owner + AddressBytes(r.audit) + AddressBytes(r.vault) + [r.index, Flag(r.reject)] + Zeros(6);
    var tail := b[200..];
    assert tail == Le128(r.fuel) + [Flag(r.duplicate)] + Zeros(7);
    var one := Splice(b, 168, Le64(nonce));
    assert one == head + Le64(nonce) + Le128(r.total) + Le64(r.count) + tail;
    var two := Splice(one, 176, Le128(total));
    assert two == head + Le64(nonce) + Le128(total) + Le64(r.count) + tail;
    assert Splice(two, 192, Le64(count)) == head + Le64(nonce) + Le128(total) + Le64(count) + tail;
  }

  lemma Bound(r: Receiver, v: Address)
    ensures Splice(Image(r), 96, AddressBytes(v)) == Image(r.(vault := v))
  {
    var b := Image(r);
    assert b[..96] == r.owner + AddressBytes(r.audit);
    assert b[160..] == [r.index, Flag(r.reject)] + Zeros(6) + Le64(r.lastNonce) + Le128(r.total)
                       + Le64(r.count) + Le128(r.fuel) + [Flag(r.duplicate)] + Zeros(7);
  }

  lemma Flagged(r: Receiver, flag: bool)
    ensures Splice(Image(r), 161, [Flag(flag)]) == Image(r.(reject := flag))
    ensures Splice(Image(r), 216, [Flag(flag)]) == Image(r.(duplicate := flag))
  {
    var b := Image(r);
    var head := r.owner + AddressBytes(r.audit) + AddressBytes(r.vault);
    assert b[..161] == head + [r.index];
    assert b[162..] == Zeros(6) + Le64(r.lastNonce) + Le128(r.total) + Le64(r.count) + Le128(r.fuel)
                       + [Flag(r.duplicate)] + Zeros(7);
    assert b[..216] == head + [r.index, Flag(r.reject)] + Zeros(6) + Le64(r.lastNonce) + Le128(r.total)
                       + Le64(r.count) + Le128(r.fuel);
    assert b[217..] == Zeros(7);
  }

  /** What the entrypoint returns: the replacement image, the result body and the queued reports. */
  datatype Output = Output(next: seq<byte>, result: seq<byte>, reports: seq<Outbound>)

  ghost predicate Answers(spec: Result<Receipt>, r: Result<Output>) {
    match spec
    case Ok(o) => r == Ok(Output(Image(o.state), o.result, o.reports))
    case Err(code) => r == Err(code)
  }

  /** The owner's calls on the stored image. */
  method OwnCall(b: seq<byte>, here: Address, methodId: u64, body: seq<byte>) returns (r: Result<Output>)
    requires Shaped(b) && (methodId == BIND || methodId == REJECT || methodId == DUPLICATE_AUDIT)
    ensures Answers(Own(View(b), here, methodId, body), r)
  {
    hide Image;
    ImageOfView(b);
    var next := CopyOf(b);
    if methodId == BIND {
      if |body| != 64 || b[96..160] != Zeros(64) {
        assert |body| == 64 ==> View(b).vault != ZERO_ADDRESS;
        return Err(E_RECEIVER_ARGS);
      }
      assert View(b).vault == ZERO_ADDRESS by {
        assert AddressBytes(ZERO_ADDRESS) == Zeros(64);
        AddressInverse(ZERO_ADDRESS);
      }
      var vault := AddressAt(body);
      if !NonzeroAddress(vault) || vault == here || vault.dapp != here.dapp {
        return Err(E_RECEIVER_ARGS);
      }
      Overwrite(next, 96, AddressBytes(vault));
      Bound(View(b), vault);
    } else {
      if |body| != 1 || body[0] > 1 {
        return Err(E_RECEIVER_ARGS);
      }
      Overwrite(next, if methodId == REJECT then 161 else 216, [body[0]]);
      Flagged(View(b), body[0] == 1);
    }
    return Ok(Output(next[..], [], []));
  }

  /** The three overwritten ranges of an accepted payment. */
  method Stamp(b: seq<byte>, nonce: u64, amount: u128) returns (r: Result<seq<byte>>)
    requires Shaped(b)
    ensures var v := View(b);
      if v.total + amount >= U128_END || v.count + 1 >= U64_END then r == Err(E_RECEIVER_ARGS)
      else r == Ok(Image(Paid(v, nonce, amount)))
  {
    ImageOfView(b);
    var next := CopyOf(b);
    Overwrite(next, 168, Le64(nonce));
    var total := CheckedAdd(Nat128(b[176..192]), amount);
    if total.None? {
      return Err(E_RECEIVER_ARGS);
    }
    Overwrite(next, 176, Le128(total.value));
    var count := Nat64(b[192..200]);
    if count + 1 >= U64_END {
      return Err(E_RECEIVER_ARGS);
    }
    Overwrite(next, 192, Le64(count + 1));
    Stamped(View(b), nonce, total.value, count + 1);
    return Ok(next[..]);
  }

  method AcceptCall(b: seq<byte>, extra: seq<Currency>, body: seq<byte>) returns (r: Result<Output>)
    requires Shaped(b)
    ensures Answers(Accept(View(b), extra, body), r)
  {
    hide Image, Principal, ReadPayment, Le, Nat;
    if b[161] == 1 {
      return Err(E_REJECT);
    }
    var payment :- ReadPayment(body);
    var (index, nonce, amount) := payment;
    if index != b[160] || nonce <= Nat64(b[168..176]) || amount != Principal(extra) || |extra| != 1 {
      return Err(E_RECEIVER_ARGS);
    }
    var next :- Stamp(b, nonce, amount);
    var reports := [Outbound(AddressAt(b[32..96]), Nat128(b[200..216]), 0, AUDIT_RECORD, body, None)];
    if b[216] == 1 {
      reports := reports + [reports[0]];
    }
    assert reports == Reports(View(b), body);
    return Ok(Output(next, body, reports));
  }

  /** The entrypoint on bytes agrees with the specification on the receiver those bytes stand for. */
  method ProcessImage(b: seq<byte>, in_: Input) returns (r: Result<Output>)
    ensures !Shaped(b) ==> r == Err(E_RECEIVER_ARGS)
    ensures Shaped(b) ==> Answers(Process(View(b), in_), r)
  {
    if |b| != STATE_BYTES || b[162..168] != Zeros(6) || b[217..224] != Zeros(7) || b[216] > 1 || b[161] > 1
       || b[160] >= 16
    {
      return Err(E_RECEIVER_ARGS);
    }
    ImageOfView(b);
    var m := in_.message;
    if m.methodId == RECEIVER_STATUS {
      if m.Internal? {
        return Err(E_RECEIVER_AUTH);
      }
      if m.body != [] {
        return Err(E_ARGS);
      }
      if m.extra != [] {
        return Err(E_RECEIVER_ARGS);
      }
      return Ok(Output(b, [], []));
    }
    if m.methodId == BIND || m.methodId == REJECT || m.methodId == DUPLICATE_AUDIT {
      if m.Internal? || m.actor != b[..32] {
        return Err(E_RECEIVER_AUTH);
      }
      if m.extra != [] {
        return Err(E_RECEIVER_ARGS);
      }
      r := OwnCall(b, in_.here, m.methodId, m.body);
      return;
    }
    if m.External? {
      return Err(E_RECEIVER_AUTH);
    }
    if m.source != AddressAt(b[96..160]) || m.methodId != RECEIVE || !m.callbackRequest || m.callback.Some? {
      return Err(E_RECEIVER_AUTH);
    }
    r := AcceptCall(b, m.extra, m.body);
  }
}
