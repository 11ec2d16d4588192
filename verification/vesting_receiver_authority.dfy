/**
 * Which messages a stream's recipient accepts and what each one does to it, said condition by condition; who alone can
 * bind it, switch it, or add to what it received.
 */
module VestingReceiverAuthority {
  import opened Bytes
  import opened Sdk
  import opened Admission
  import opened VestingCore
  import R = VestingReceiver

  predicate OwnerCalls(r: R.Receiver, in_: Input, methodId: u64) {
    in_.message.External? && in_.message.methodId == methodId && in_.message.extra == [] && in_.message.actor == r.owner
  }

  predicate MayAskStatus(in_: Input) {
    var m := in_.message;
    m.External? && m.methodId == RECEIVER_STATUS && m.body == [] && m.extra == []
  }

  /** The owner binds an unbound recipient to another account of its own dapp. */
  predicate MayBind(r: R.Receiver, in_: Input, a: Address) {
    && OwnerCalls(r, in_, BIND) && in_.message.body == a.dapp + a.account
    && r.bound == Address(ZERO32, ZERO32)
    && a.dapp != ZERO32 && a.account != ZERO32 && a.dapp == in_.here.dapp && a != in_.here
  }

  predicate MaySwitch(r: R.Receiver, in_: Input, on: bool) {
    OwnerCalls(r, in_, REJECT) && in_.message.body == [if on then 1 else 0]
  }

  /** The bound contract pays this stream's lane, under a fresh nonce, waiting for the answer, exactly what it says. */
  predicate MayPay(r: R.Receiver, in_: Input, nonce: u64, amount: u128) {
    var m := in_.message;
    && m.Internal? && m.methodId == RECEIVE
    && m.source == r.bound && m.source.dapp != ZERO32 && m.source.account != ZERO32
    && m.callbackRequest && m.callback.None?
    && r.index < 8 && r.kind < 2 && m.body == [r.index, r.kind] + Le64(nonce) + Le128(amount)
    && !r.reject
    && |m.extra| == 1 && m.extra[0] == Currency(0, amount)
    && amount > 0 && r.slots[r.index].lastNonce < nonce
    && r.slots[r.index].total + amount < U128_END && r.slots[r.index].count < U64_END - 1
  }

  ghost predicate Granted(r: R.Receiver, in_: Input) {
    || MayAskStatus(in_)
    || (exists a :: MayBind(r, in_, a))
    || (exists on :: MaySwitch(r, in_, on))
    || (exists nonce, amount :: MayPay(r, in_, nonce, amount))
  }

  lemma BindExact(r: R.Receiver, in_: Input)
    requires r.index < 8 && in_.message.methodId == BIND
    ensures R.Process(r, in_).Ok? <==> exists a :: MayBind(r, in_, a)
    ensures forall a | MayBind(r, in_, a) :: R.Process(r, in_) == Ok(R.Receipt(r.(bound := a), []))
  {
    if R.Process(r, in_).Ok? {
      AddressBody(in_.message.body, AddressAt(in_.message.body));
      assert MayBind(r, in_, AddressAt(in_.message.body));
    }
    forall a | MayBind(r, in_, a) ensures R.Process(r, in_) == Ok(R.Receipt(r.(bound := a), [])) {
      AddressBody(in_.message.body, a);
    }
  }

  lemma SwitchExact(r: R.Receiver, in_: Input)
    requires r.index < 8 && (in_.message.methodId == REJECT || in_.message.methodId == RECEIVER_STATUS)
    ensures R.Process(r, in_).Ok? <==> MayAskStatus(in_) || exists on :: MaySwitch(r, in_, on)
    ensures MayAskStatus(in_) ==> R.Process(r, in_) == Ok(R.Receipt(r, []))
    ensures forall on | MaySwitch(r, in_, on) :: R.Process(r, in_) == Ok(R.Receipt(r.(reject := on), []))
  {
    if R.Process(r, in_).Ok? && in_.message.methodId == REJECT {
      assert MaySwitch(r, in_, in_.message.body[0] == 1);
    }
  }

  /** The receiver after a payment: its own slot, and only that, moves on. */
  function AfterPayment(r: R.Receiver, nonce: u64, amount: u128): R.Receiver
    requires r.index < 8
    requires r.slots[r.index].total + amount < U128_END && r.slots[r.index].count < U64_END - 1
  {
    var s := r.slots[r.index];
    r.(slots := r.slots[r.index := R.Slot(nonce, s.total + amount, s.count + 1)])
  }

  /** A payment is taken exactly when it is due, and echoed. */
  lemma PayExact(r: R.Receiver, in_: Input)
    requires r.index < 8 && r.kind < 2
    requires in_.message.methodId != BIND && in_.message.methodId != REJECT && in_.message.methodId != RECEIVER_STATUS
    ensures R.Process(r, in_).Ok? <==> exists nonce, amount :: MayPay(r, in_, nonce, amount)
    ensures forall nonce, amount | MayPay(r, in_, nonce, amount) ::
      R.Process(r, in_) == Ok(R.Receipt(AfterPayment(r, nonce, amount), in_.message.body))
  {
    var body := in_.message.body;
    if R.Process(r, in_).Ok? {
      var (index, kind, nonce, amount) := ReadPayment(body).value;
      PaymentRoundTrip(body, index, kind, nonce, amount);
      assert MayPay(r, in_, nonce, amount);
    }
    forall nonce, amount | MayPay(r, in_, nonce, amount)
      ensures R.Process(r, in_) == Ok(R.Receipt(AfterPayment(r, nonce, amount), body))
    {
      assert body == PaymentBody(r.index, r.kind, nonce, amount);
      R.TakesExactlyItsOwn(r, in_, nonce, amount);
    }
  }

  /** The messages the recipient accepts are exactly these. */
  lemma AcceptedExactly(r: R.Receiver, in_: Input)
    requires r.index < 8 && r.kind < 2
    ensures R.Process(r, in_).Ok? <==> Granted(r, in_)
  {
    hide R.Process;
    var id := in_.message.methodId;
    if id == BIND {
      BindExact(r, in_);
    } else if id == REJECT || id == RECEIVER_STATUS {
      SwitchExact(r, in_);
    } else {
      PayExact(r, in_);
    }
  }

  /** Bound once and only by the owner; switched only by the owner; richer only by the bound contract's payment. */
  ghost predicate Authorised(r: R.Receiver, in_: Input, t: R.Receiver) {
    && t.owner == r.owner && t.kind == r.kind && t.index == r.index
    && (t.bound != r.bound ==> MayBind(r, in_, t.bound))
    && (t.reject != r.reject ==> MaySwitch(r, in_, t.reject))
    && (t.slots != r.slots ==>
          exists nonce, amount :: MayPay(r, in_, nonce, amount) && t == AfterPayment(r, nonce, amount))
  }

  lemma ChangesAreAuthorised(r: R.Receiver, in_: Input)
    requires r.index < 8 && r.kind < 2 && R.Process(r, in_).Ok?
    ensures Authorised(r, in_, R.Process(r, in_).value.state)
  {
    hide R.Process;
    var id := in_.message.methodId;
    if id == BIND {
      BindExact(r, in_);
    } else if id == REJECT || id == RECEIVER_STATUS {
      SwitchExact(r, in_);
    } else {
      PayExact(r, in_);
    }
  }

  /** Why a message is refused: the code of the first thing wrong. */
  predicate Refused(r: R.Receiver, in_: Input, code: int) {
    var m := in_.message;
    if m.methodId == RECEIVER_STATUS || m.methodId == BIND || m.methodId == REJECT then
      if m.Internal? then code == R.E_RECEIVER_AUTH
      else if m.extra != [] then code == R.E_RECEIVER_ARGS
      else if m.methodId == RECEIVER_STATUS then code == E_ARGS
      else code == (if m.actor != r.owner then R.E_RECEIVER_AUTH else R.E_RECEIVER_ARGS)
    else if m.External? || m.methodId != RECEIVE || m.source != r.bound || m.source.dapp == ZERO32
            || m.source.account == ZERO32 || !m.callbackRequest || m.callback.Some?
    then code == R.E_RECEIVER_AUTH
    else if r.reject then code == R.E_REJECT
    else if |m.body| != 26 || m.body[0] >= 8 || m.body[1] > 1 || m.body[2..10] == Le64(0) || m.body[10..26] == Le128(0)
    then code == E_ARGS
    else code == R.E_RECEIVER_ARGS
  }

  lemma RefusalsAreExact(r: R.Receiver, in_: Input)
    requires r.index < 8 && R.Process(r, in_).Err?
    ensures Refused(r, in_, R.Process(r, in_).code)
  {
    hide Le, Nat;
    Le64Inverse(0);
    Le128Inverse(0);
  }
}
