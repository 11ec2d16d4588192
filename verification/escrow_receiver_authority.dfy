/**
 * Which messages the escrow's recipient accepts and what each one does to it, said condition by condition; who alone
 * can bind it, switch it, or add to what it received.
 */
module EscrowReceiverAuthority {
  import opened Bytes
  import opened Sdk
  import opened Admission
  import EscrowState
  import EscrowSpec
  import EscrowAuthority
  import R = EscrowReceiver

  predicate OwnerCalls(r: R.Receiver, in_: Input, methodId: u64) {
    in_.message.External? && in_.message.methodId == methodId && in_.message.extra == [] && in_.message.actor == r.owner
  }

  /** The owner binds an unbound recipient to another account. */
  predicate MayBind(r: R.Receiver, in_: Input, a: Address) {
    && OwnerCalls(r, in_, EscrowSpec.BIND) && in_.message.body == a.dapp + a.account
    && r.bound == Address(ZERO32, ZERO32)
    && a.dapp != ZERO32 && a.account != ZERO32 && a != in_.here
  }

  predicate MaySwitch(r: R.Receiver, in_: Input, on: bool) {
    OwnerCalls(r, in_, EscrowSpec.REJECT) && in_.message.body == [if on then 1 else 0]
  }

  /** The bound escrow sends a milestone payment or a refund, under a fresh attempt, with exactly what it says. */
  predicate MayPay(r: R.Receiver, in_: Input, kind: byte, index: byte, attempt: u64, amount: u128) {
    var m := in_.message;
    && m.Internal? && m.methodId == EscrowSpec.RECEIVE && m.source == r.bound
    && m.callbackRequest && m.callback.None?
    && m.body == EscrowAuthority.BodyOf(kind, index, attempt, amount)
    && ((kind == 1 && index < 8) || (kind == 2 && index == 255))
    && !r.reject
    && r.lastAttempt < attempt && amount > 0
    && |m.extra| == 1 && Principal(m.extra) == amount
    && r.received + amount < U128_END && r.count < U64_END - 1
  }

  ghost predicate Granted(r: R.Receiver, in_: Input) {
    || (exists a :: MayBind(r, in_, a))
    || (exists on :: MaySwitch(r, in_, on))
    || (exists kind, index, attempt, amount :: MayPay(r, in_, kind, index, attempt, amount))
  }

  lemma BindExact(r: R.Receiver, in_: Input)
    requires in_.message.methodId == EscrowSpec.BIND
    ensures R.Process(r, in_).Ok? <==> exists a :: MayBind(r, in_, a)
    ensures forall a | MayBind(r, in_, a) :: R.Process(r, in_) == Ok(R.Receipt(r.(bound := a), []))
  {
    if R.Process(r, in_).Ok? {
      AddressBody(in_.message.body, AddressAt(in_.message.body));
      assert MayBind(r, in_, AddressAt(in_.message.body));
    }
    forall a | MayBind(r, in_, a) ensures R.Process(r, in_) == Ok(R.Receipt(r.(bound := a), [])) {
      AddressBody(in_.message.body, a);
    }
  }

  lemma SwitchExact(r: R.Receiver, in_: Input)
    requires in_.message.methodId == EscrowSpec.REJECT
    ensures R.Process(r, in_).Ok? <==> exists on :: MaySwitch(r, in_, on)
    ensures forall on | MaySwitch(r, in_, on) :: R.Process(r, in_) == Ok(R.Receipt(r.(reject := on), []))
  {
    if R.Process(r, in_).Ok? {
      assert MaySwitch(r, in_, in_.message.body[0] == 1);
    }
  }

  /** A transfer is taken exactly when it is due, and echoed. */
  lemma PayExact(r: R.Receiver, in_: Input)
    requires in_.message.methodId != EscrowSpec.BIND && in_.message.methodId != EscrowSpec.REJECT
    ensures R.Process(r, in_).Ok? <==>
            exists kind, index, attempt, amount :: MayPay(r, in_, kind, index, attempt, amount)
    ensures forall kind, index, attempt, amount | MayPay(r, in_, kind, index, attempt, amount) ::
      R.Process(r, in_) == Ok(R.Receipt(r.(lastAttempt := attempt, received := r.received + amount,
                                           count := r.count + 1), in_.message.body))
  {
    hide Principal, R.ReadTransfer, EscrowSpec.PaymentBody;
    var body := in_.message.body;
    if R.ReadTransfer(body).Some? {
      var p := R.ReadTransfer(body).value;
      R.TransferExact(body, p);
      EscrowAuthority.BodySpelled(p);
      if R.Process(r, in_).Ok? {
        assert MayPay(r, in_, p.kind, p.index, p.attempt, p.amount);
      }
    }
    forall kind, index, attempt, amount | MayPay(r, in_, kind, index, attempt, amount)
      ensures R.Process(r, in_) == Ok(R.Receipt(r.(lastAttempt := attempt, received := r.received + amount,
                                                   count := r.count + 1), body))
    {
      var p := EscrowState.Pending(kind, index, amount, attempt);
      R.TransferExact(body, p);
      EscrowAuthority.BodySpelled(p);
    }
  }

  /** The messages the recipient accepts are exactly these. */
  lemma AcceptedExactly(r: R.Receiver, in_: Input)
    ensures R.Process(r, in_).Ok? <==> Granted(r, in_)
  {
    hide R.Process;
    var id := in_.message.methodId;
    if id == EscrowSpec.BIND {
      BindExact(r, in_);
    } else if id == EscrowSpec.REJECT {
      SwitchExact(r, in_);
    } else {
      PayExact(r, in_);
    }
  }

  /** Bound once and only by the owner; switched only by the owner; richer only by the bound escrow's transfer. */
  ghost predicate Authorised(r: R.Receiver, in_: Input, t: R.Receiver) {
    && t.owner == r.owner
    && (t.bound != r.bound ==> MayBind(r, in_, t.bound))
    && (t.reject != r.reject ==> MaySwitch(r, in_, t.reject))
    && (t.lastAttempt != r.lastAttempt || t.received != r.received || t.count != r.count ==>
          && t.count == r.count + 1
          && exists kind, index, attempt, amount :: MayPay(r, in_, kind, index, attempt, amount)
               && t.lastAttempt == attempt && t.received == r.received + amount)
  }

  lemma ChangesAreAuthorised(r: R.Receiver, in_: Input)
    requires R.Process(r, in_).Ok?
    ensures Authorised(r, in_, R.Process(r, in_).value.state)
  {
    hide R.Process;
    var id := in_.message.methodId;
    if id == EscrowSpec.BIND {
      BindExact(r, in_);
    } else if id == EscrowSpec.REJECT {
      SwitchExact(r, in_);
    } else {
      PayExact(r, in_);
    }
  }

  /** Why a message is refused: the code of the first thing wrong. */
  predicate Refused(r: R.Receiver, in_: Input, code: int) {
    var m := in_.message;
    if m.methodId == EscrowSpec.BIND || m.methodId == EscrowSpec.REJECT then
      code == (if m.Internal? || m.actor != r.owner then R.ERR_RECEIVER_AUTH else R.ERR_RECEIVER_ARGS)
    else if m.External? || m.methodId != EscrowSpec.RECEIVE || m.source != r.bound || !m.callbackRequest
            || m.callback.Some?
    then code == R.ERR_RECEIVER_AUTH
    else code == (if r.reject then R.ERR_REJECT else R.ERR_RECEIVER_ARGS)
  }

  lemma RefusalsAreExact(r: R.Receiver, in_: Input)
    requires R.Process(r, in_).Err?
    ensures Refused(r, in_, R.Process(r, in_).code)
  {
    hide Principal, R.ReadTransfer;
  }
}
