/** What every run of the escrow and its receivers keeps. */
module EscrowSystemProof {
  import opened Bytes
  import opened Sdk
  import opened EscrowState
  import opened EscrowSystem
  import E = EscrowSpec
  import R = EscrowReceiver

  lemma InitKeepsInv(s: System)
    requires Init(s)
    ensures Inv(s)
  {
    InitialIsValid(s.escrow.config);
    Conserved(s.escrow);
  }

  lemma NoPrincipal(shell: u128)
    ensures Principal(Change(shell)) == 0 && E.OnlyShell(Change(shell))
  {
  }

  /** What a call that changes no transfer state leaves alone. */
  lemma CallKeepsInv(s: System, in_: Input, hash: Id32)
    requires Inv(s) && Enabled(s, CallEscrow(in_, hash))
    ensures Inv(AfterCall(s, in_, hash))
  {
    if E.Process(s.escrow, in_).Ok? {
      var o := E.Process(s.escrow, in_).value;
      CallShape(s.escrow, in_);
      if o.reply.sends != [] {
        Conserved(s.escrow);
        E.PaidFits(o.state);
      }
    }
  }

  /** What a successful external call can be: quiet, the funding, or a dispatch. */
  lemma CallShape(e: State, in_: Input)
    requires Valid(e) && E.Process(e, in_).Ok? && (in_.message.Internal? ==> in_.message.callback.None?)
    ensures var o := E.Process(e, in_).value;
      && o.state.paid == e.paid && o.state.refunded == e.refunded && o.state.receipts == e.receipts
      && (if o.reply.sends == []
          then o.state.pending == e.pending && o.state.attempts == e.attempts && o.state.config == e.config
               && o.state.funded == e.funded + Principal(in_.message.extra)
               && (o.state.pending.kind != 0 ==> E.Transfer(o.state) == E.Transfer(e))
          else e.pending.kind == 0 && o.state.funded == e.funded && Principal(in_.message.extra) == 0
               && o.state.attempts == e.attempts + 1 && o.state.pending.kind != 0
               && o.state.pending.attempt == o.state.attempts
               && o.reply.sends == [E.Transfer(o.state)])
  {
    hide Valid;
    NoShellPrincipal(in_.message.extra);
  }

  lemma {:induction false} NoShellPrincipal(extra: seq<Currency>)
    ensures E.OnlyShell(extra) ==> Principal(extra) == 0
  {
    if extra != [] {
      NoShellPrincipal(extra[1..]);
    }
  }

  /** An owner's call, or a stranger's, leaves a receiver's figures and binding as the books need them. */
  lemma OwnerCallKeepsReceiver(r: R.Receiver, in_: Input, s: System, destination: Address)
    requires OwnerCall(s, in_, destination) && NonzeroAddress(s.here) && (r.bound == ZERO_ADDRESS || r.bound == s.here)
    ensures var t := CalledReceiver(r, in_);
      && (t.bound == ZERO_ADDRESS || t.bound == s.here)
      && t.received == r.received && t.count == r.count && t.lastAttempt == r.lastAttempt
  {
    AddressInverse(s.here);
    if R.Process(r, in_).Ok? {
      R.OnlyTransfersMoveValue(r, in_);
    }
  }

  lemma ReceiverCallKeepsInv(s: System, a: Action)
    requires Inv(s) && Enabled(s, a) && (a.CallPayee? || a.CallRefundee?)
    ensures Inv(Apply(s, a))
  {
    if a.CallPayee? {
      OwnerCallKeepsReceiver(s.payee, a.toPayee, s, s.escrow.config.payTo);
    } else {
      OwnerCallKeepsReceiver(s.refundee, a.toRefundee, s, s.escrow.config.refundTo);
    }
  }

  function Recipient(s: System): R.Receiver { if s.escrow.pending.kind == 1 then s.payee else s.refundee }

  /**
   * A transfer that reaches its recipient is refused only because the recipient is not bound or was told to reject:
   * its attempt is always fresh, and its sums have room.
   */
  lemma RefusedOnlyWhenTold(s: System, blockLt: u64, lt: u64)
    requires Inv(s) && s.packet.Outgoing?
    ensures var r, p := Recipient(s), s.escrow.pending;
      && r.received + p.amount < U128_END && r.count + 1 < U64_END
      && R.Process(r, Arrival(s, s.packet.out, blockLt, lt)) ==
         if r.bound != s.here then Err(R.ERR_RECEIVER_AUTH)
         else if r.reject then Err(R.ERR_REJECT)
         else Ok(R.Receipt(R.Credited(r, p), s.packet.out.body))
  {
    var r, p := Recipient(s), s.escrow.pending;
    E.PaidFits(s.escrow);
    R.TransferExact(s.packet.out.body, p);
    var arrival := Arrival(s, s.packet.out, blockLt, lt);
    assert Principal(arrival.message.extra) == p.amount;
  }

  /** The host's answer to the transfer under way is one the escrow's lock takes. */
  lemma ReactionFits(s: System, status: u32, result: seq<byte>, lt: u64, refund: u128)
    requires Inv(s) && s.packet.Outgoing? && (status == 0 ==> result == s.packet.out.body)
    ensures var q := Reaction(s, s.packet.hash, s.packet.out, status, result, lt, refund);
      && ReturningSound(s.(packet := q))
      && Carried(q) + Acked(q) == s.escrow.pending.amount
      && Acked(q) == if status == 0 then s.escrow.pending.amount else 0
  {
    NoPrincipal(refund);
    var q := Reaction(s, s.packet.hash, s.packet.out, status, result, lt, refund);
    if status != 0 {
      assert q.msg.extra[0] == Currency(PRINCIPAL, s.escrow.pending.amount);
    }
  }

  lemma DeliveryKeepsInv(s: System, a: Action)
    requires Inv(s) && Enabled(s, a) && a.Deliver?
    ensures Inv(Apply(s, a))
  {
    hide Valid, Delivered, R.Process, E.Admissible, E.Payload, E.PaymentBody;
    RefusedOnlyWhenTold(s, a.blockLt, a.lt);
    DeliveredShape(s, a);
    PendingShape(s.escrow);
    var status := DeliveryStatus(s, a);
    ReactionFits(s, status, if status == 0 then s.packet.out.body else [], a.lt, a.refund);
  }

  lemma PendingShape(e: State)
    requires Valid(e) && e.pending.kind != 0
    ensures e.pending.kind <= 2 && e.pending.attempt == e.attempts
  {
  }

  /** The status a delivery ends with. */
  function DeliveryStatus(s: System, a: Action): u32
    requires a.Deliver? && s.packet.Outgoing?
  {
    if a.hostStatus != 0 then a.hostStatus else
      match R.Process(Recipient(s), Arrival(s, s.packet.out, a.blockLt, a.lt))
      case Ok(_) => 0
      case Err(code) => FailureStatus(code)
  }

  /** Either the recipient takes the whole transfer and its callback carries nothing, or nobody is touched. */
  lemma DeliveredShape(s: System, a: Action)
    requires Inv(s) && Enabled(s, a) && a.Deliver?
    ensures var t, p, status := Delivered(s, a), s.escrow.pending, DeliveryStatus(s, a);
      var q := Reaction(s, s.packet.hash, s.packet.out, status, if status == 0 then s.packet.out.body else [], a.lt,
                        a.refund);
      var r := Recipient(s);
      if status != 0 then t == s.(packet := q)
      else
        && r.received + p.amount < U128_END && r.count + 1 < U64_END
        && t == (if p.kind == 1
                 then s.(packet := q, payee := R.Credited(r, p), payeeBalance := s.payeeBalance + p.amount)
                 else s.(packet := q, refundee := R.Credited(r, p), refundeeBalance := s.refundeeBalance + p.amount))
  {
    hide Valid, R.Process;
    RefusedOnlyWhenTold(s, a.blockLt, a.lt);
    ToPayeeIffPayment(s);
  }

  lemma ToPayeeIffPayment(s: System)
    requires Inv(s) && s.packet.Outgoing?
    ensures s.packet.out.destination == s.escrow.config.payTo <==> s.escrow.pending.kind == 1
  {
  }

  /** Once a transfer was delivered or refused, its callback is always accepted and opens the lock. */
  lemma AnswerAlwaysAccepted(s: System, in_: Input)
    requires Inv(s) && Enabled(s, Answer(in_))
    ensures E.Process(s.escrow, in_).Ok?
    ensures var h := in_.message.callback.value;
            E.Process(s.escrow, in_).value.state == E.Settled(s.escrow, h.status == 0, h.causeHash)
  {
  }

  lemma AnswerKeepsInv(s: System, in_: Input)
    requires Inv(s) && Enabled(s, Answer(in_))
    ensures Inv(Answered(s, in_)) && Answered(s, in_).packet == Nothing
  {
    AnswerAlwaysAccepted(s, in_);
    var h := in_.message.callback.value;
    E.SettledIsValid(s.escrow, h.status == 0, h.causeHash);
  }

  lemma StepKeepsInv(s: System, a: Action)
    requires Inv(s)
    ensures Inv(Apply(s, a))
  {
    if Enabled(s, a) {
      match a
      case CallEscrow(in_, hash) => CallKeepsInv(s, in_, hash);
      case CallPayee(_) => ReceiverCallKeepsInv(s, a);
      case CallRefundee(_) => ReceiverCallKeepsInv(s, a);
      case Deliver(_, _, _, _) => DeliveryKeepsInv(s, a);
      case Answer(in_) => AnswerKeepsInv(s, in_);
    }
  }

  lemma {:induction false} RunKeepsInv(s: System, actions: seq<Action>)
    requires Inv(s)
    ensures Inv(Exec(s, actions))
    decreases |actions|
  {
    if actions == [] {
    } else {
      StepKeepsInv(s, actions[0]);
      RunKeepsInv(Apply(s, actions[0]), actions[1..]);
    }
  }

  /**
   * In every run, whatever the order of calls, deliveries and answers: what was funded is in the escrow's balance,
   * under way, or with a receiver, and each receiver holds exactly what the escrow has settled with it or is about to.
   */
  lemma Conservation(s: System, actions: seq<Action>)
    requires Init(s)
    ensures var t := Exec(s, actions);
      && t.balance + Carried(t.packet) + t.payeeBalance + t.refundeeBalance == t.escrow.funded
      && t.payee.received == t.payeeBalance == t.escrow.paid + AckedTo(t, 1)
      && t.refundee.received == t.refundeeBalance == t.escrow.refunded + AckedTo(t, 2)
  {
    InitKeepsInv(s);
    RunKeepsInv(s, actions);
    assert Exec(s, actions).escrow.pending.kind <= 2;
  }

  /** In every run the escrow is locked exactly while a transfer or its answer is under way. */
  lemma LockedIffUnderWay(s: System, actions: seq<Action>)
    requires Init(s)
    ensures var t := Exec(s, actions);
            t.packet == Nothing <==> t.escrow.pending.kind == 0
  {
    InitKeepsInv(s);
    RunKeepsInv(s, actions);
    assert PacketSound(Exec(s, actions));
  }
}
