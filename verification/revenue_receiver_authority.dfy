/**
 * Which messages the revenue hub's receiver accepts and what each one does to it, said condition by condition; who
 * alone can bind it, switch it, or add to what it received.
 */
module RevenueReceiverAuthority {
  import opened Bytes
  import opened Sdk
  import opened Admission
  import opened RevenueCore
  import R = RevenueReceiver

  predicate OwnerCalls(r: R.Receiver, in_: Input, methodId: u64) {
    in_.message.External? && in_.message.methodId == methodId && in_.message.extra == [] && in_.message.actor == r.owner
  }

  predicate MayAskStatus(in_: Input) {
    var m := in_.message;
    m.External? && m.methodId == RECEIVER_STATUS && m.body == [] && m.extra == []
  }

  /** The owner binds an unbound receiver to another account of its own dapp. */
  predicate MayBind(r: R.Receiver, in_: Input, a: Address) {
    && OwnerCalls(r, in_, BIND) && in_.message.body == a.dapp + a.account
    && r.vault == Address(ZERO32, ZERO32)
    && a.dapp != ZERO32 && a.account != ZERO32 && a.dapp == in_.here.dapp && a != in_.here
  }

  predicate MaySwitch(r: R.Receiver, in_: Input, methodId: u64, on: bool) {
    OwnerCalls(r, in_, methodId) && in_.message.body == [if on then 1 else 0]
  }

  /** The bound vault pays this member, under a fresh nonce, waiting for the answer, and exactly what it says. */
  predicate MayPay(r: R.Receiver, in_: Input, nonce: u64, amount: u128) {
    var m := in_.message;
    && m.Internal? && m.methodId == RECEIVE && m.source == r.vault
    && m.callbackRequest && m.callback.None?
    && r.index < 16 && m.body == [r.index] + Le64(nonce) + Le128(amount)
    && !r.reject
    && r.lastNonce < nonce && amount > 0
    && |m.extra| == 1 && Principal(m.extra) == amount
    && r.total + amount < U128_END && r.count < U64_END - 1
  }

  ghost predicate Granted(r: R.Receiver, in_: Input) {
    || MayAskStatus(in_)
    || (exists a :: MayBind(r, in_, a))
    || (exists on: bool :: MaySwitch(r, in_, REJECT, on) || MaySwitch(r, in_, DUPLICATE_AUDIT, on))
    || (exists nonce, amount :: MayPay(r, in_, nonce, amount))
  }

  lemma BindExact(r: R.Receiver, in_: Input)
    requires in_.message.methodId == BIND
    ensures R.Process(r, in_).Ok? <==> exists a :: MayBind(r, in_, a)
    ensures forall a | MayBind(r, in_, a) :: R.Process(r, in_) == Ok(R.Receipt(r.(vault := a), [], []))
  {
    if R.Process(r, in_).Ok? {
      AddressBody(in_.message.body, AddressAt(in_.message.body));
      assert MayBind(r, in_, AddressAt(in_.message.body));
    }
    forall a | MayBind(r, in_, a) ensures R.Process(r, in_) == Ok(R.Receipt(r.(vault := a), [], [])) {
      AddressBody(in_.message.body, a);
    }
  }

  lemma SwitchExact(r: R.Receiver, in_: Input)
    requires in_.message.methodId == REJECT || in_.message.methodId == DUPLICATE_AUDIT
    ensures R.Process(r, in_).Ok? <==> exists on :: MaySwitch(r, in_, in_.message.methodId, on)
    ensures forall on | MaySwitch(r, in_, REJECT, on) ::
      R.Process(r, in_) == Ok(R.Receipt(r.(reject := on), [], []))
    ensures forall on | MaySwitch(r, in_, DUPLICATE_AUDIT, on) ::
      R.Process(r, in_) == Ok(R.Receipt(r.(duplicate := on), [], []))
  {
    if R.Process(r, in_).Ok? {
      assert MaySwitch(r, in_, in_.message.methodId, in_.message.body[0] == 1);
    }
  }

  /** A payment is taken exactly when it is due; it is echoed, and reported once, or twice when told to. */
  lemma PayExact(r: R.Receiver, in_: Input)
    requires in_.message.methodId == RECEIVE
    ensures R.Process(r, in_).Ok? <==> exists nonce, amount :: MayPay(r, in_, nonce, amount)
    ensures forall nonce, amount | MayPay(r, in_, nonce, amount) ::
      var report := Outbound(r.audit, r.fuel, 0, AUDIT_RECORD, in_.message.body, None);
      R.Process(r, in_) == Ok(R.Receipt(r.(lastNonce := nonce, total := r.total + amount, count := r.count + 1),
                                        in_.message.body, if r.duplicate then [report, report] else [report]))
  {
    hide Principal;
    if R.Process(r, in_).Ok? {
      var (index, nonce, amount) := ReadPayment(in_.message.body).value;
      PaymentRoundTrip(in_.message.body, index, nonce, amount);
      assert MayPay(r, in_, nonce, amount);
    }
    forall nonce, amount | MayPay(r, in_, nonce, amount)
      ensures var report := Outbound(r.audit, r.fuel, 0, AUDIT_RECORD, in_.message.body, None);
        R.Process(r, in_) == Ok(R.Receipt(r.(lastNonce := nonce, total := r.total + amount, count := r.count + 1),
                                          in_.message.body, if r.duplicate then [report, report] else [report]))
    {
      assert in_.message.body == PaymentBody(r.index, nonce, amount);
      PaymentRoundTrip(in_.message.body, r.index, nonce, amount);
    }
  }

  lemma StatusExact(r: R.Receiver, in_: Input)
    requires in_.message.methodId == RECEIVER_STATUS
    ensures R.Process(r, in_).Ok? <==> MayAskStatus(in_)
    ensures MayAskStatus(in_) ==> R.Process(r, in_) == Ok(R.Receipt(r, [], []))
  {
  }

  lemma OthersRefused(r: R.Receiver, in_: Input)
    requires in_.message.methodId != RECEIVER_STATUS && in_.message.methodId != BIND && in_.message.methodId != REJECT
    requires in_.message.methodId != DUPLICATE_AUDIT && in_.message.methodId != RECEIVE
    ensures R.Process(r, in_) == Err(R.E_RECEIVER_AUTH)
  {
  }

  /** The messages the receiver accepts are exactly these. */
  lemma AcceptedExactly(r: R.Receiver, in_: Input)
    ensures R.Process(r, in_).Ok? <==> Granted(r, in_)
  {
    hide R.Process;
    var id := in_.message.methodId;
    if id == RECEIVER_STATUS {
      StatusExact(r, in_);
    } else if id == BIND {
      BindExact(r, in_);
    } else if id == REJECT || id == DUPLICATE_AUDIT {
      SwitchExact(r, in_);
    } else if id == RECEIVE {
      PayExact(r, in_);
    } else {
      OthersRefused(r, in_);
    }
  }

  /** Bound once and only by the owner; switched only by the owner; richer only by the bound vault's payment. */
  ghost predicate Authorised(r: R.Receiver, in_: Input, t: R.Receiver) {
    && t.owner == r.owner && t.audit == r.audit && t.index == r.index && t.fuel == r.fuel
    && (t.vault != r.vault ==> MayBind(r, in_, t.vault))
    && (t.reject != r.reject ==> MaySwitch(r, in_, REJECT, t.reject))
    && (t.duplicate != r.duplicate ==> MaySwitch(r, in_, DUPLICATE_AUDIT, t.duplicate))
    && (t.lastNonce != r.lastNonce || t.total != r.total || t.count != r.count ==>
          && t.total > r.total && t.count == r.count + 1
          && MayPay(r, in_, t.lastNonce, t.total - r.total))
  }

  lemma ChangesAreAuthorised(r: R.Receiver, in_: Input)
    requires R.Process(r, in_).Ok?
    ensures Authorised(r, in_, R.Process(r, in_).value.state)
  {
    hide R.Process;
    var id := in_.message.methodId;
    if id == RECEIVER_STATUS {
      StatusExact(r, in_);
    } else if id == BIND {
      BindExact(r, in_);
    } else if id == REJECT || id == DUPLICATE_AUDIT {
      SwitchExact(r, in_);
    } else if id == RECEIVE {
      PayExact(r, in_);
    } else {
      OthersRefused(r, in_);
    }
  }

  /** Why a message is refused: the code of the first thing wrong. */
  predicate Refused(r: R.Receiver, in_: Input, code: int) {
    var m := in_.message;
    if m.methodId == RECEIVER_STATUS then
      code == (if m.Internal? then R.E_RECEIVER_AUTH else if m.body != [] then E_ARGS else R.E_RECEIVER_ARGS)
    else if m.methodId == BIND || m.methodId == REJECT || m.methodId == DUPLICATE_AUDIT then
      code == (if m.Internal? || m.actor != r.owner then R.E_RECEIVER_AUTH else R.E_RECEIVER_ARGS)
    else if m.External? || m.methodId != RECEIVE || m.source != r.vault || !m.callbackRequest || m.callback.Some? then
      code == R.E_RECEIVER_AUTH
    else if r.reject then code == R.E_REJECT
    else if |m.body| != 25 || m.body[0] >= 16 || m.body[1..9] == Le64(0) || m.body[9..25] == Le128(0) then
      code == E_ARGS
    else code == R.E_RECEIVER_ARGS
  }

  lemma RefusalsAreExact(r: R.Receiver, in_: Input)
    requires R.Process(r, in_).Err?
    ensures Refused(r, in_, R.Process(r, in_).code)
  {
    hide Le, Nat, Principal;
    Le64Inverse(0);
    Le128Inverse(0);
  }
}
