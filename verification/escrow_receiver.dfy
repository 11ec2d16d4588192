/** The escrow's payee and refundee: accepts each attempt once and echoes it. */
module EscrowReceiver {
  import opened Bytes
  import opened Sdk
  import opened Buffers
  import opened EscrowState
  import opened EscrowSpec

  const STATE_BYTES := 136
  const ERR_RECEIVER_AUTH := 2100
  const ERR_RECEIVER_ARGS := 2101
  const ERR_REJECT := 2102

  datatype Receiver = Receiver(owner: Id32, bound: Address, lastAttempt: u64, received: u128, count: u64, reject: bool)

  function Flag(b: bool): byte { if b then 1 else 0 }

  /** What precedes the receipt figures. */
  function Identity(r: Receiver): (b: seq<byte>)
    ensures |b| == 96
  {
    var owner: seq<byte> := r.owner;
    owner + AddressBytes(r.bound)
  }

  function Image(r: Receiver): (b: seq<byte>)
    ensures |b| == STATE_BYTES
  {
    Identity(r) + Le64(r.lastAttempt) + Le128(r.received) + Le64(r.count) + [Flag(r.reject)] + Zeros(7)
  }

  predicate Shaped(b: seq<byte>) {
    |b| == STATE_BYTES && b[129..136] == Zeros(7) && b[128] <= 1
  }

  function View(b: seq<byte>): Receiver
    requires Shaped(b)
  {
    Receiver(b[..32], AddressAt(b[32..96]), Nat64(b[96..104]), Nat128(b[104..120]), Nat64(b[120..128]), b[128] == 1)
  }

  /** Accepted images and receivers correspond one to one. */
  lemma ImagesAreCanonical(b: seq<byte>, r: Receiver)
    ensures Shaped(b) && View(b) == r <==> b == Image(r)
  {
    var i := Image(r);
    assert i[..32] == r.owner && i[32..96] == AddressBytes(r.bound) && i[96..104] == Le64(r.lastAttempt);
    assert i[104..120] == Le128(r.received) && i[120..128] == Le64(r.count) && i[128] == Flag(r.reject)
           && i[129..136] == Zeros(7);
    AddressInverse(r.bound);
    Le64Inverse(r.lastAttempt);
    Le128Inverse(r.received);
    Le64Inverse(r.count);
    if Shaped(b) {
      assert b == b[..32] + b[32..96] + b[96..104] + b[104..120] + b[120..128] + [b[128]] + b[129..136];
    }
  }

  /** A successful call: the new state and the body returned to the caller. */
  datatype Receipt = Receipt(state: Receiver, result: seq<byte>)

  /** A transfer's body names a milestone payment or a whole refund. */
  predicate LegalTransfer(p: Pending) {
    (p.kind == 1 && p.index < 8) || (p.kind == 2 && p.index == 255)
  }

  function ReadTransfer(b: seq<byte>): Option<Pending> {
    if |b| != 32 || b[..4] != BEP1 || b[6..8] != [0, 0] then None else
      var p := Pending(b[4], b[5], Nat128(b[16..32]), Nat64(b[8..16]));
      if LegalTransfer(p) then Some(p) else None
  }

  /** The reader accepts exactly the bodies of legal transfers, each as the transfer it was written for. */
  lemma TransferExact(b: seq<byte>, p: Pending)
    ensures ReadTransfer(b) == Some(p) <==> LegalTransfer(p) && b == PaymentBody(p)
  {
    var body := PaymentBody(p);
    assert body[..4] == BEP1 && body[4] == p.kind && body[5] == p.index && body[6..8] == [0, 0];
    assert body[8..16] == Le64(p.attempt) && body[16..32] == Le128(p.amount);
    Le64Inverse(p.attempt);
    Le128Inverse(p.amount);
    if |b| == 32 {
      assert b == b[..4] + [b[4], b[5]] + b[6..8] + b[8..16] + b[16..32];
    }
  }

  function Own(r: Receiver, here: Address, methodId: u64, body: seq<byte>): Result<Receipt> {
    if methodId == BIND then
      if |body| != 64 || r.bound != ZERO_ADDRESS then Err(ERR_RECEIVER_ARGS) else
        var source := AddressAt(body);
        if !NonzeroAddress(source) || source == here then Err(ERR_RECEIVER_ARGS)
        else Ok(Receipt(r.(bound := source), []))
    else if |body| != 1 || body[0] > 1 then Err(ERR_RECEIVER_ARGS)
    else Ok(Receipt(r.(reject := body[0] == 1), []))
  }

  function Credited(r: Receiver, p: Pending): Receiver
    requires r.received + p.amount < U128_END && r.count + 1 < U64_END
  {
    r.(lastAttempt := p.attempt, received := r.received + p.amount, count := r.count + 1)
  }

  function Accept(r: Receiver, extra: seq<Currency>, body: seq<byte>): Result<Receipt> {
    if r.reject then Err(ERR_REJECT)
    else if ReadTransfer(body).None? || |extra| != 1 then Err(ERR_RECEIVER_ARGS)
    else
      var p := ReadTransfer(body).value;
      if p.attempt <= r.lastAttempt || p.amount == 0 || Principal(extra) != p.amount then Err(ERR_RECEIVER_ARGS)
      else if r.received + p.amount >= U128_END || r.count + 1 >= U64_END then Err(ERR_RECEIVER_ARGS)
      else Ok(Receipt(Credited(r, p), body))
  }

  function Process(r: Receiver, in_: Input): Result<Receipt> {
    var m := in_.message;
    if m.methodId == BIND || m.methodId == REJECT then
      if m.Internal? || m.actor != r.owner then Err(ERR_RECEIVER_AUTH)
      else if m.extra != [] then Err(ERR_RECEIVER_ARGS)
      else Own(r, in_.here, m.methodId, m.body)
    else if m.External? then Err(ERR_RECEIVER_AUTH)
    else if m.source != r.bound || m.methodId != RECEIVE || m.callback.Some? || !m.callbackRequest
            then Err(ERR_RECEIVER_AUTH)
    else Accept(r, m.extra, m.body)
  }

  /** Only transfers move value into a receiver; each raises what it received by what it carried, once. */
  lemma OnlyTransfersMoveValue(r: Receiver, in_: Input)
    requires Process(r, in_).Ok?
    ensures var t := Process(r, in_).value.state;
      && t.owner == r.owner && t.received == r.received + Principal(in_.message.extra)
      && (in_.message.External? ==> t.lastAttempt == r.lastAttempt && t.count == r.count && t.received == r.received)
      && (in_.message.Internal? ==>
            in_.message.source == r.bound && t.lastAttempt > r.lastAttempt && t.count == r.count + 1
            && t.bound == r.bound && t.reject == r.reject)
  {
  }

  /** What the entrypoint returns: the replacement image and the result body. */
  datatype Output = Output(next: seq<byte>, result: seq<byte>)

  ghost predicate Answers(spec: Result<Receipt>, r: Result<Output>) {
    match spec
    case Ok(o) => r == Ok(Output(Image(o.state), o.result))
    case Err(code) => r == Err(code)
  }

  /** Overwriting the receipt figures, the binding or the flag is updating the receiver. */
  lemma Stamped(r: Receiver, attempt: u64, received: u128, count: u64)
    ensures Splice(Splice(Splice(Image(r), 96, Le64(attempt)), 104, Le128(received)), 120, Le64(count))
            == Image(r.(lastAttempt := attempt, received := received, count := count))
  {
    var b, head, tail := Image(r), Identity(r), [Flag(r.reject)] + Zeros(7);
    assert b == head + Le64(r.lastAttempt) + Le128(r.received) + Le64(r.count) + tail;
    var one := Splice(b, 96, Le64(attempt));
    assert one == head + Le64(attempt) + Le128(r.received) + Le64(r.count) + tail;
    var two := Splice(one, 104, Le128(received));
    assert two == head + Le64(attempt) + Le128(received) + Le64(r.count) + tail;
    assert Splice(two, 120, Le64(count)) == head + Le64(attempt) + Le128(received) + Le64(count) + tail;
  }

  lemma Bound(r: Receiver, source: Address)
    ensures Splice(Image(r), 32, AddressBytes(source)) == Image(r.(bound := source))
  {
    var b := Image(r);
    assert b[..32] == r.owner;
    assert b[96..] == Le64(r.lastAttempt) + Le128(r.received) + Le64(r.count) + [Flag(r.reject)] + Zeros(7);
  }

  lemma Flagged(r: Receiver, flag: bool)
    ensures Splice(Image(r), 128, [Flag(flag)]) == Image(r.(reject := flag))
  {
    var b := Image(r);
    assert b[..128] == Identity(r) + Le64(r.lastAttempt) + Le128(r.received) + Le64(r.count);
    assert b[129..] == Zeros(7);
  }

  method OwnCall(b: seq<byte>, here: Address, methodId: u64, body: seq<byte>) returns (r: Result<Output>)
    requires Shaped(b) && (methodId == BIND || methodId == REJECT)
    ensures Answers(Own(View(b), here, methodId, body), r)
  {
    ImagesAreCanonical(b, View(b));
    var state := CopyOf(b);
    if methodId == BIND {
      assert b[32..96] == Zeros(64) <==> View(b).bound == ZERO_ADDRESS by {
        assert AddressBytes(ZERO_ADDRESS) == Zeros(64);
        AddressInverse(ZERO_ADDRESS);
      }
      if |body| != 64 || b[32..96] != Zeros(64) {
        return Err(ERR_RECEIVER_ARGS);
      }
      var source := AddressAt(body);
      if source.account == ZERO32 || source.dapp == ZERO32 || source == here {
        return Err(ERR_RECEIVER_ARGS);
      }
      Overwrite(state, 32, AddressBytes(source));
      Bound(View(b), source);
    } else {
      if |body| != 1 || body[0] > 1 {
        return Err(ERR_RECEIVER_ARGS);
      }
      Overwrite(state, 128, [body[0]]);
      Flagged(View(b), body[0] == 1);
    }
    return Ok(Output(state[..], []));
  }

  method AcceptCall(b: seq<byte>, extra: seq<Currency>, body: seq<byte>) returns (r: Result<Output>)
    requires Shaped(b)
    ensures Answers(Accept(View(b), extra, body), r)
  {
    if b[128] == 1 {
      return Err(ERR_REJECT);
    }
    if |body| != 32 || body[..4] != BEP1 || body[6..8] != [0, 0] || (body[4] != 1 && body[4] != 2)
       || (body[4] == 1 && body[5] >= 8) || (body[4] == 2 && body[5] != 255) || |extra| != 1
    {
      return Err(ERR_RECEIVER_ARGS);
    }
    var attempt, amount := Nat64(body[8..16]), Nat128(body[16..32]);
    var lastAttempt := Nat64(b[96..104]);
    if attempt <= lastAttempt || amount == 0 || Principal(extra) != amount {
      return Err(ERR_RECEIVER_ARGS);
    }
    var next :- Stamp(b, Pending(body[4], body[5], amount, attempt));
    return Ok(Output(next, body));
  }

  /** The three overwritten ranges of an accepted transfer. */
  method Stamp(b: seq<byte>, p: Pending) returns (r: Result<seq<byte>>)
    requires Shaped(b)
    ensures var v := View(b);
            r == if v.received + p.amount >= U128_END || v.count + 1 >= U64_END then Err(ERR_RECEIVER_ARGS)
                 else Ok(Image(Credited(v, p)))
  {
    var received := CheckedAdd(Nat128(b[104..120]), p.amount);
    if received.None? {
      return Err(ERR_RECEIVER_ARGS);
    }
    var count := Nat64(b[120..128]);
    if count + 1 >= U64_END {
      return Err(ERR_RECEIVER_ARGS);
    }
    ImagesAreCanonical(b, View(b));
    var state := CopyOf(b);
    Overwrite(state, 96, Le64(p.attempt));
    Overwrite(state, 104, Le128(received.value));
    Overwrite(state, 120, Le64(count + 1));
    Stamped(View(b), p.attempt, received.value, count + 1);
    return Ok(state[..]);
  }

  /** The entrypoint on bytes agrees with the specification on the receiver those bytes stand for. */
  method ProcessImage(b: seq<byte>, in_: Input) returns (r: Result<Output>)
    ensures !Shaped(b) ==> r == Err(ERR_RECEIVER_ARGS)
    ensures Shaped(b) ==> Answers(Process(View(b), in_), r)
  {
    if |b| != STATE_BYTES || b[129..136] != Zeros(7) || b[128] > 1 {
      return Err(ERR_RECEIVER_ARGS);
    }
    var m := in_.message;
    if m.methodId == BIND || m.methodId == REJECT {
      if m.Internal? || m.actor != b[..32] {
        return Err(ERR_RECEIVER_AUTH);
      }
      if m.extra != [] {
        return Err(ERR_RECEIVER_ARGS);
      }
      r := OwnCall(b, in_.here, m.methodId, m.body);
      return;
    }
    if m.External? {
      return Err(ERR_RECEIVER_AUTH);
    }
    if m.source != AddressAt(b[32..96]) || m.methodId != RECEIVE || m.callback.Some? || !m.callbackRequest {
      return Err(ERR_RECEIVER_AUTH);
    }
    r := AcceptCall(b, m.extra, m.body);
  }
}
