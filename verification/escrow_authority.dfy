/**
 * Which messages the escrow accepts and what each accepted one does to every field, said condition by condition and
 * without the functions that compute it; who alone can bring each change about; and, over whole runs, whose word
 * stands behind every approved delivery.
 */
module EscrowAuthority {
  import opened Bytes
  import opened Sdk
  import opened Admission
  import opened Sums
  import opened EscrowState
  import E = EscrowSpec
  import Runs = EscrowRuns

  predicate MayAskStatus(s: State, in_: Input) {
    Calls(in_, E.STATUS) && in_.message.body == [] && in_.message.extra == []
  }

  predicate MayTopup(s: State, in_: Input) {
    var m := in_.message;
    && Calls(in_, E.TOPUP) && m.body == [] && m.extra != [] && AllShell(m.extra) && AllNonzero(m.extra)
  }

  /** The owner pays in the whole total, once, before the deadline. */
  predicate MayFund(s: State, in_: Input) {
    var m := in_.message;
    && Calls(in_, E.FUND) && m.body == []
    && m.actor == s.config.owner && in_.blockTime < s.config.deadline
    && s.pending.kind == 0 && s.funded == 0
    && |m.extra| == 1 && Principal(m.extra) == s.config.total
    && s.config.total <= Principal(in_.balance)
  }

  /** What every call on a funded, idle escrow needs. */
  predicate Ready(s: State, in_: Input) {
    s.funded != 0 && s.pending.kind == 0 && in_.message.extra == []
  }

  /** The worker delivers, or revises, milestone `i` before the deadline, naming a hash. */
  predicate MaySubmit(s: State, in_: Input, i: nat) {
    var m := in_.message;
    && Calls(in_, E.SUBMIT) && Ready(s, in_)
    && m.actor == s.config.worker && in_.blockTime < s.config.deadline
    && i < s.config.count && i < MAX_MILESTONES && |m.body| == 33 && m.body[0] == i && m.body[1..] != ZERO32
    && (s.phases[i] == 0 || s.phases[i] == 1)
  }

  /** The owner approves milestone `i` before the deadline, naming exactly the delivery on record. */
  predicate MayApprove(s: State, in_: Input, i: nat) {
    var m := in_.message;
    && Calls(in_, E.APPROVE) && Ready(s, in_)
    && m.actor == s.config.owner && in_.blockTime < s.config.deadline
    && i < s.config.count && i < MAX_MILESTONES && m.body == [i] + s.hashes[i]
    && s.phases[i] == 1
  }

  /** Attempts are left, the unsettled principal is there, and the fuel. */
  predicate CanSend(s: State, in_: Input) {
    && s.attempts < 64
    && s.funded - s.paid - s.refunded <= Principal(in_.balance)
    && FuelAtHand(in_.balance, s.config.fuelReserve)
  }

  /** Either party has the approved milestone `i` paid. */
  predicate MayPay(s: State, in_: Input, i: nat) {
    var m := in_.message;
    && Calls(in_, E.PAY) && Ready(s, in_)
    && (m.actor == s.config.owner || m.actor == s.config.worker)
    && i < s.config.count && i < MAX_MILESTONES && |m.body| == 1 && m.body[0] == i
    && s.phases[i] == 2
    && CanSend(s, in_)
  }

  /** The amounts of the milestones that are open or submitted. */
  function Unapproved(c: Config, phases: Phases): nat {
    Sum(seq(MAX_MILESTONES, i requires 0 <= i < MAX_MILESTONES => if phases[i] <= 1 then c.amounts[i] else 0))
  }

  lemma UnapprovedIsRefundable(c: Config, phases: Phases)
    ensures Unapproved(c, phases) == InBucket(c, phases, Refundable)
  {
    assert Column(c.amounts, phases, Refundable)
        == seq(MAX_MILESTONES, i requires 0 <= i < MAX_MILESTONES => if phases[i] <= 1 then c.amounts[i] else 0);
  }

  /** The owner takes back everything unapproved, from the deadline on. */
  predicate MayRefund(s: State, in_: Input) {
    var m := in_.message;
    && Calls(in_, E.REFUND) && Ready(s, in_)
    && m.actor == s.config.owner && s.config.deadline <= in_.blockTime
    && m.body == [] && Unapproved(s.config, s.phases) > 0
    && CanSend(s, in_)
  }

  /** The body of a transfer, byte by byte. */
  function BodyOf(kind: byte, index: byte, attempt: u64, amount: u128): seq<byte> {
    [0x42, 0x45, 0x50, 0x31, kind, index, 0, 0] + Le64(attempt) + Le128(amount)
  }

  /** The native callback of the transfer under way: a success that echoes it, or the principal returned. */
  predicate MaySettle(s: State, in_: Input) {
    var m, p := in_.message, s.pending;
    && m.Internal? && m.callback.Some?
    && p.kind != 0
    && m.source == (if p.kind == 1 then s.config.payTo else s.config.refundTo)
    && m.methodId == E.CALLBACK && !m.callbackRequest
    && m.callback.value.causeAddress == in_.here
    && m.callback.value.causeHash != ZERO32
    && (forall k | 0 <= k < |s.receipts| :: s.receipts[k] != m.callback.value.causeHash)
    && (if m.callback.value.status == 0
        then AllShell(m.extra) && m.body == BodyOf(p.kind, p.index, p.attempt, p.amount)
        else
          && (forall k | 0 <= k < |m.extra| :: m.extra[k].id == 0 || m.extra[k].id == 2)
          && Principal(m.extra) == p.amount && m.body == [])
  }

  /** The reported figures, each one named, and what is sent. */
  ghost predicate Leads(s: State, in_: Input, t: State, index: byte, amount: nat, sends: seq<Outbound>)
    requires Valid(s)
  {
    && E.Process(s, in_).Ok?
    && E.Process(s, in_).value.state == t
    && E.Process(s, in_).value.reply.sends == sends
    && var e := E.Process(s, in_).value.reply.event;
      && e.index == index && e.amount == amount && e.attempt == t.attempts
      && e.funded == t.funded && e.paid == t.paid && e.refunded == t.refunded && e.pending == t.pending.amount
  }

  lemma StatusExact(s: State, in_: Input)
    requires Valid(s) && Calls(in_, E.STATUS)
    ensures E.Process(s, in_).Ok? <==> MayAskStatus(s, in_)
    ensures MayAskStatus(s, in_) ==> Leads(s, in_, s, 255, 0, [])
  {
    hide Valid;
  }

  lemma TopupExact(s: State, in_: Input)
    requires Valid(s) && Calls(in_, E.TOPUP)
    ensures E.Process(s, in_).Ok? <==> MayTopup(s, in_)
    ensures MayTopup(s, in_) ==> Leads(s, in_, s, 255, 0, [])
  {
    hide Valid;
  }

  /** Funding is accepted exactly from the owner, once, in full and in time. */
  lemma FundExact(s: State, in_: Input)
    requires Valid(s) && Calls(in_, E.FUND)
    ensures E.Process(s, in_).Ok? <==> MayFund(s, in_)
    ensures MayFund(s, in_) ==> Leads(s, in_, s.(funded := s.config.total), 255, s.config.total, [])
  {
    hide Valid;
  }

  /** A delivery is accepted exactly from the worker, in time, for an unapproved milestone. */
  lemma SubmitExact(s: State, in_: Input)
    requires Valid(s) && Calls(in_, E.SUBMIT)
    ensures E.Process(s, in_).Ok? <==> |in_.message.body| == 33 && MaySubmit(s, in_, in_.message.body[0])
    ensures E.Process(s, in_).Ok? ==>
      var i: nat, hash := in_.message.body[0], in_.message.body[1..];
      Leads(s, in_, s.(phases := s.phases[i := 1], hashes := s.hashes[i := hash]), i, 0, [])
  {
    hide SoundMilestones, InBucket, SoundReceipts, SoundPending;
  }

  /** An approval is accepted exactly from the owner, in time, and naming the delivery on record. */
  lemma ApproveExact(s: State, in_: Input)
    requires Valid(s) && Calls(in_, E.APPROVE)
    ensures E.Process(s, in_).Ok? <==> |in_.message.body| == 33 && MayApprove(s, in_, in_.message.body[0])
    ensures E.Process(s, in_).Ok? ==>
      var i: nat := in_.message.body[0];
      Leads(s, in_, s.(phases := s.phases[i := 2]), i, 0, [])
  {
    hide SoundMilestones, InBucket, SoundReceipts, SoundPending;
    var body := in_.message.body;
    if |body| == 33 {
      assert body == [body[0]] + body[1..];
      if body[0] < s.config.count {
        assert ([body[0]] + s.hashes[body[0]])[1..] == s.hashes[body[0]];
      }
    }
  }

  /** The state a transfer leaves: the next attempt, and the lock that remembers it. */
  function Locked(s: State, kind: byte, index: byte, amount: u128): State
    requires s.attempts < 64
  {
    s.(attempts := s.attempts + 1, pending := Pending(kind, index, amount, s.attempts + 1))
  }

  /** A milestone payment: to the worker's address, its amount, under the next attempt. */
  lemma PayExact(s: State, in_: Input)
    requires Valid(s) && Calls(in_, E.PAY)
    ensures E.Process(s, in_).Ok? <==> |in_.message.body| == 1 && MayPay(s, in_, in_.message.body[0])
    ensures E.Process(s, in_).Ok? ==>
      var i: nat := in_.message.body[0];
      var amount := s.config.amounts[i];
      Leads(s, in_, Locked(s, 1, i, amount), i, amount,
            [Outbound(s.config.payTo, s.config.fuelReserve, amount, E.RECEIVE, BodyOf(1, i, s.attempts + 1, amount),
                      Some(E.CALLBACK))])
  {
    hide SoundMilestones, InBucket, SoundReceipts;
    if E.Process(s, in_).Ok? {
      var i: nat := in_.message.body[0];
      BodySpelled(E.Dispatched(s, 1, i, s.config.amounts[i]).pending);
    }
  }

  lemma BodySpelled(p: Pending)
    ensures E.PaymentBody(p) == BodyOf(p.kind, p.index, p.attempt, p.amount)
  {
  }

  lemma RefundFits(s: State)
    requires Valid(s)
    ensures Unapproved(s.config, s.phases) < U128_END
  {
    UnapprovedIsRefundable(s.config, s.phases);
    Conserved(s);
  }

  /** A refund: everything unapproved, to the owner's address, only for the owner and only from the deadline on. */
  lemma RefundExact(s: State, in_: Input)
    requires Valid(s) && Calls(in_, E.REFUND)
    ensures E.Process(s, in_).Ok? <==> MayRefund(s, in_)
    ensures Unapproved(s.config, s.phases) < U128_END
    ensures E.Process(s, in_).Ok? ==>
      var amount := Unapproved(s.config, s.phases);
      Leads(s, in_, Locked(s, 2, 255, amount), 255, amount,
            [Outbound(s.config.refundTo, s.config.fuelReserve, amount, E.RECEIVE,
                      BodyOf(2, 255, s.attempts + 1, amount), Some(E.CALLBACK))])
  {
    hide SoundMilestones, InBucket, Unapproved, SoundReceipts;
    RefundFits(s);
    UnapprovedIsRefundable(s.config, s.phases);
    if E.Process(s, in_).Ok? {
      BodySpelled(E.Dispatched(s, 2, 255, Unapproved(s.config, s.phases)).pending);
    }
  }

  /** What the callback of the transfer under way leaves: the receipt, an open lock, and on success the settlement. */
  ghost predicate Settles(s: State, t: State, success: bool, hash: Id32) {
    var p := s.pending;
    && t == s.(pending := t.pending, receipts := t.receipts, phases := t.phases, paid := t.paid,
               refunded := t.refunded)
    && t.pending == Pending(0, 0, 0, 0)
    && t.receipts == s.receipts + [hash]
    && t.paid == s.paid + (if success && p.kind == 1 then p.amount else 0)
    && t.refunded == s.refunded + (if success && p.kind == 2 then p.amount else 0)
    && (forall i: nat | i < MAX_MILESTONES ::
          t.phases[i] == (if success && p.kind == 1 && p.index == i then 3
                          else if success && p.kind == 2 && i < s.config.count && s.phases[i] <= 1 then 4
                          else s.phases[i]))
  }

  lemma SettledSettles(s: State, success: bool, hash: Id32)
    requires Valid(s) && s.pending.kind != 0
    ensures Settles(s, E.Settled(s, success, hash), success, hash)
  {
    hide SoundMilestones, SoundReceipts;
  }

  /** A callback is accepted exactly when it answers the transfer under way, under a hash not recorded before. */
  lemma CallbackExact(s: State, in_: Input)
    requires Valid(s) && in_.message.Internal? && in_.message.callback.Some?
    ensures E.Process(s, in_).Ok? <==> MaySettle(s, in_)
    ensures MaySettle(s, in_) ==>
      var t, h := E.Process(s, in_).value.state, in_.message.callback.value;
      && Settles(s, t, h.status == 0, h.causeHash)
      && Leads(s, in_, t, s.pending.index, s.pending.amount, [])
  {
    hide SoundMilestones, InBucket, SoundReceipts, E.Settled, Settles;
    BodySpelled(s.pending);
    if s.pending.kind != 0 {
      SettledSettles(s, in_.message.callback.value.status == 0, in_.message.callback.value.causeHash);
    }
  }

  predicate KnownMethod(id: u64) {
    || id == E.STATUS || id == E.TOPUP || id == E.FUND || id == E.SUBMIT || id == E.APPROVE || id == E.PAY
    || id == E.REFUND
  }

  /** No other message is accepted. */
  lemma OthersRefused(s: State, in_: Input)
    requires Valid(s)
    requires if in_.message.Internal? then in_.message.callback.None? else !KnownMethod(in_.message.methodId)
    ensures E.Process(s, in_).Err?
  {
    hide Valid;
  }

  ghost predicate Granted(s: State, in_: Input) {
    || MayAskStatus(s, in_) || MayTopup(s, in_) || MayFund(s, in_)
    || (exists i: nat :: MaySubmit(s, in_, i))
    || (exists i: nat :: MayApprove(s, in_, i))
    || (exists i: nat :: MayPay(s, in_, i))
    || MayRefund(s, in_) || MaySettle(s, in_)
  }

  /** Each kind of permission is about messages of its own kind. */
  lemma KindsApart(s: State, in_: Input)
    ensures MayAskStatus(s, in_) ==> Calls(in_, E.STATUS)
    ensures MayTopup(s, in_) ==> Calls(in_, E.TOPUP)
    ensures MayFund(s, in_) ==> Calls(in_, E.FUND)
    ensures forall i: nat | MaySubmit(s, in_, i) ::
              Calls(in_, E.SUBMIT) && |in_.message.body| == 33 && i == in_.message.body[0]
    ensures forall i: nat | MayApprove(s, in_, i) ::
              Calls(in_, E.APPROVE) && |in_.message.body| == 33 && i == in_.message.body[0]
    ensures forall i: nat | MayPay(s, in_, i) ::
              Calls(in_, E.PAY) && |in_.message.body| == 1 && i == in_.message.body[0]
    ensures MayRefund(s, in_) ==> Calls(in_, E.REFUND)
    ensures MaySettle(s, in_) ==> in_.message.Internal? && in_.message.callback.Some?
  {
  }

  /** The messages a valid escrow accepts are exactly these. */
  lemma AcceptedExactly(s: State, in_: Input)
    requires Valid(s)
    ensures E.Process(s, in_).Ok? <==> Granted(s, in_)
  {
    hide Valid, E.Process, MayAskStatus, MayTopup, MayFund, MaySubmit, MayApprove, MayPay, MayRefund, MaySettle;
    var m := in_.message;
    KindsApart(s, in_);
    if m.Internal? {
      if m.callback.Some? {
        CallbackExact(s, in_);
      } else {
        OthersRefused(s, in_);
      }
    } else if m.methodId == E.STATUS {
      StatusExact(s, in_);
    } else if m.methodId == E.TOPUP {
      TopupExact(s, in_);
    } else if m.methodId == E.FUND {
      FundExact(s, in_);
    } else if m.methodId == E.SUBMIT {
      SubmitExact(s, in_);
    } else if m.methodId == E.APPROVE {
      ApproveExact(s, in_);
    } else if m.methodId == E.PAY {
      PayExact(s, in_);
    } else if m.methodId == E.REFUND {
      RefundExact(s, in_);
    } else {
      OthersRefused(s, in_);
    }
  }

  /**
   * Milestone `i` becomes submitted only by the worker's delivery, approved only by the owner naming the delivery on
   * record in time, paid or refunded only by the callback of its own transfer; its hash is only what the worker named.
   */
  ghost predicate MilestoneChange(s: State, in_: Input, t: State, i: nat)
    requires i < MAX_MILESTONES
  {
    && (t.phases[i] != s.phases[i] ==>
          || (t.phases[i] == SUBMITTED && MaySubmit(s, in_, i) && t.hashes[i] == in_.message.body[1..])
          || (t.phases[i] == APPROVED && MayApprove(s, in_, i))
          || (t.phases[i] == PAID && MaySettle(s, in_) && s.pending.kind == 1 && s.pending.index == i
              && in_.message.callback.value.status == 0)
          || (t.phases[i] == REFUNDED && MaySettle(s, in_) && s.pending.kind == 2 && s.phases[i] <= SUBMITTED
              && in_.message.callback.value.status == 0))
    && (t.hashes[i] != s.hashes[i] ==> MaySubmit(s, in_, i) && t.hashes[i] == in_.message.body[1..])
  }

  /** What one message changed, and for each change the only kind of message that can bring it about. */
  ghost predicate Authorised(s: State, in_: Input, t: State) {
    && t.config == s.config
    && (forall i: nat | i < MAX_MILESTONES :: MilestoneChange(s, in_, t, i))
    && (t.pending != s.pending ==>
          || (t.pending == IDLE && MaySettle(s, in_))
          || (t.pending.kind == 1 && MayPay(s, in_, t.pending.index))
          || (t.pending.kind == 2 && MayRefund(s, in_)))
    && (t.funded != s.funded ==> MayFund(s, in_) && t.funded == s.config.total)
    && (t.attempts != s.attempts ==> s.pending.kind == 0 && t.pending.kind != 0)
    && (t.paid != s.paid ==> MaySettle(s, in_) && s.pending.kind == 1 && t.paid == s.paid + s.pending.amount)
    && (t.refunded != s.refunded ==>
          MaySettle(s, in_) && s.pending.kind == 2 && t.refunded == s.refunded + s.pending.amount)
    && (t.receipts != s.receipts ==>
          MaySettle(s, in_) && t.receipts == s.receipts + [in_.message.callback.value.causeHash])
  }

  lemma SettlesIsAuthorised(s: State, in_: Input, t: State)
    requires MaySettle(s, in_)
    requires Settles(s, t, in_.message.callback.value.status == 0, in_.message.callback.value.causeHash)
    ensures Authorised(s, in_, t)
  {
    hide MaySubmit, MayApprove, MayPay, MayRefund, MayFund;
    var p := s.pending;
    var success := in_.message.callback.value.status == 0;
    forall i: nat | i < MAX_MILESTONES ensures MilestoneChange(s, in_, t, i) {
      assert t.phases[i] == (if success && p.kind == 1 && p.index == i then 3
                             else if success && p.kind == 2 && i < s.config.count && s.phases[i] <= 1 then 4
                             else s.phases[i]);
    }
  }

  /** Whoever sends whatever at whatever time: no message changes more than its sender may change. */
  lemma ChangesAreAuthorised(s: State, in_: Input)
    requires Valid(s)
    ensures Authorised(s, in_, Runs.After(s, in_))
  {
    hide Valid, E.Process, MayAskStatus, MayTopup, MayFund, MaySubmit, MayApprove, MayPay, MayRefund, MaySettle,
         Settles, AllShell, Unapproved;
    var m := in_.message;
    if E.Process(s, in_).Ok? {
      AcceptedExactly(s, in_);
      KindsApart(s, in_);
      if m.Internal? {
        CallbackExact(s, in_);
        SettlesIsAuthorised(s, in_, Runs.After(s, in_));
      } else if m.methodId == E.STATUS {
        StatusExact(s, in_);
      } else if m.methodId == E.TOPUP {
        TopupExact(s, in_);
      } else if m.methodId == E.FUND {
        FundExact(s, in_);
      } else if m.methodId == E.SUBMIT {
        SubmitExact(s, in_);
      } else if m.methodId == E.APPROVE {
        ApproveExact(s, in_);
      } else if m.methodId == E.PAY {
        PayExact(s, in_);
        IdleBefore(s, in_);
      } else if m.methodId == E.REFUND {
        RefundExact(s, in_);
        IdleBefore(s, in_);
      }
    }
  }

  lemma IdleBefore(s: State, in_: Input)
    ensures MayRefund(s, in_) || (exists i: nat :: MayPay(s, in_, i)) ==> s.pending.kind == 0
  {
  }

  /** Why a call without the right to it, or out of its time, is refused: the code of the first thing wrong. */
  ghost predicate Refused(s: State, in_: Input, code: int) {
    var m := in_.message;
    if m.Internal? then code == (if m.callback.Some? then ERR_CALLBACK else ERR_AUTH)
    else if m.methodId == E.STATUS || m.methodId == E.TOPUP then code == (if m.body != [] then ERR_ARGS else ERR_VALUE)
    else if s.pending.kind != 0 then code == ERR_PENDING
    else if m.methodId == E.FUND then FundRefusal(s, in_, code)
    else if m.extra != [] then code == ERR_VALUE
    else if s.funded == 0 then code == ERR_PHASE
    else if m.methodId == E.SUBMIT then DeliveryRefusal(s, in_, code, s.config.worker)
    else if m.methodId == E.APPROVE then DeliveryRefusal(s, in_, code, s.config.owner)
    else if m.methodId == E.PAY then PayRefusal(s, in_, code)
    else if m.methodId == E.REFUND then RefundRefusal(s, in_, code)
    else code == ERR_ARGS
  }

  predicate FundRefusal(s: State, in_: Input, code: int)
    requires in_.message.External?
  {
    var m := in_.message;
    var entitled := m.body == [] && m.actor == s.config.owner;
    var inTime := entitled && in_.blockTime < s.config.deadline;
    var whole := |m.extra| == 1 && Principal(m.extra) == s.config.total;
    || (code == ERR_ARGS && m.body != [])
    || (code == ERR_AUTH && m.body == [] && m.actor != s.config.owner)
    || (code == ERR_DEADLINE && entitled && s.config.deadline <= in_.blockTime)
    || (code == ERR_PHASE && inTime && s.funded != 0)
    || (code == ERR_VALUE && inTime && s.funded == 0 && !whole)
    || (code == ERR_BALANCE && inTime && s.funded == 0 && whole && Principal(in_.balance) < s.config.total)
  }

  /** A delivery or its approval, which only `party` may send. */
  predicate DeliveryRefusal(s: State, in_: Input, code: int, party: Id32)
    requires in_.message.External?
  {
    var m := in_.message;
    var submit := m.methodId == E.SUBMIT;
    var inTime := m.actor == party && in_.blockTime < s.config.deadline;
    var shaped := |m.body| == 33 && m.body[0] < s.config.count && m.body[0] < MAX_MILESTONES
                  && (submit ==> m.body[1..] != ZERO32);
    var ripe := shaped && if submit then s.phases[m.body[0]] <= SUBMITTED else s.phases[m.body[0]] == SUBMITTED;
    || (code == ERR_AUTH && m.actor != party)
    || (code == ERR_DEADLINE && m.actor == party && s.config.deadline <= in_.blockTime)
    || (code == ERR_ARGS && inTime && !shaped)
    || (code == ERR_PHASE && inTime && shaped && !ripe)
    || (code == ERR_ARGS && inTime && ripe && !submit && m.body[1..] != s.hashes[m.body[0]])
  }

  predicate SendRefusal(s: State, in_: Input, code: int) {
    || (code == ERR_LIMIT && s.attempts == 64)
    || (code == ERR_BALANCE && s.attempts < 64
        && (Principal(in_.balance) < s.funded - s.paid - s.refunded
            || !FuelAtHand(in_.balance, s.config.fuelReserve)))
  }

  predicate PayRefusal(s: State, in_: Input, code: int)
    requires in_.message.External?
  {
    var m := in_.message;
    var party := m.actor == s.config.owner || m.actor == s.config.worker;
    var shaped := party && |m.body| == 1 && m.body[0] < s.config.count && m.body[0] < MAX_MILESTONES;
    || (code == ERR_AUTH && !party)
    || (code == ERR_ARGS && party && !shaped)
    || (code == ERR_PHASE && shaped && s.phases[m.body[0]] != APPROVED)
    || (shaped && s.phases[m.body[0]] == APPROVED && SendRefusal(s, in_, code))
  }

  predicate RefundRefusal(s: State, in_: Input, code: int)
    requires in_.message.External?
  {
    var m := in_.message;
    var due := m.actor == s.config.owner && m.body == [] && s.config.deadline <= in_.blockTime;
    || (code == ERR_AUTH && m.actor != s.config.owner)
    || (code == ERR_ARGS && m.actor == s.config.owner && m.body != [])
    || (code == ERR_DEADLINE && m.actor == s.config.owner && m.body == [] && in_.blockTime < s.config.deadline)
    || (code == ERR_PHASE && due && Unapproved(s.config, s.phases) == 0)
    || (due && Unapproved(s.config, s.phases) > 0 && SendRefusal(s, in_, code))
  }

  lemma FewAttempts(s: State)
    requires Valid(s)
    ensures s.attempts <= 64 && s.config.count <= MAX_MILESTONES
  {
  }

  lemma DeliveryRefusals(s: State, in_: Input)
    requires Valid(s) && E.Process(s, in_).Err? && (Calls(in_, E.SUBMIT) || Calls(in_, E.APPROVE))
    ensures Refused(s, in_, E.Process(s, in_).code)
  {
    hide SoundMilestones, InBucket, SoundReceipts, SoundPending;
  }

  lemma SendRefusals(s: State, in_: Input)
    requires Valid(s) && E.Process(s, in_).Err? && (Calls(in_, E.PAY) || Calls(in_, E.REFUND))
    ensures Refused(s, in_, E.Process(s, in_).code)
  {
    hide Valid, InBucket, Unapproved;
    FewAttempts(s);
    UnapprovedIsRefundable(s.config, s.phases);
  }

  /** Every refusal carries the code of the first thing that was wrong. */
  lemma RefusalsAreExact(s: State, in_: Input)
    requires Valid(s) && E.Process(s, in_).Err?
    ensures Refused(s, in_, E.Process(s, in_).code)
  {
    hide Valid, DeliveryRefusal, PayRefusal, RefundRefusal;
    var m := in_.message;
    if Calls(in_, E.SUBMIT) || Calls(in_, E.APPROVE) {
      DeliveryRefusals(s, in_);
    } else if Calls(in_, E.PAY) || Calls(in_, E.REFUND) {
      SendRefusals(s, in_);
    }
  }

  /** Among these messages is one that `party` signed, with this method and body, before the deadline. */
  ghost predicate Named(ins: seq<Input>, party: Id32, methodId: u64, body: seq<byte>, deadline: u32) {
    exists k | 0 <= k < |ins| ::
      && Calls(ins[k], methodId) && ins[k].message.actor == party && ins[k].message.body == body
      && ins[k].blockTime < deadline
  }

  lemma NamedLasts(ins: seq<Input>, more: seq<Input>, party: Id32, methodId: u64, body: seq<byte>, deadline: u32)
    requires Named(ins, party, methodId, body, deadline)
    ensures Named(ins + more, party, methodId, body, deadline)
  {
    var k :| 0 <= k < |ins| && Calls(ins[k], methodId) && ins[k].message.actor == party
             && ins[k].message.body == body && ins[k].blockTime < deadline;
    assert (ins + more)[k] == ins[k];
  }

  /** The worker named the delivery of milestone `i`; once approved or paid, the owner named that very delivery. */
  ghost predicate Backed(c: Config, phase: byte, hash: Id32, i: byte, log: seq<Input>) {
    && (SUBMITTED <= phase <= PAID ==> Named(log, c.worker, E.SUBMIT, [i] + hash, c.deadline))
    && (phase == APPROVED || phase == PAID ==> Named(log, c.owner, E.APPROVE, [i] + hash, c.deadline))
  }

  ghost predicate AllBacked(s: State, log: seq<Input>) {
    forall i: nat | i < MAX_MILESTONES :: Backed(s.config, s.phases[i], s.hashes[i], i, log)
  }

  lemma BackedLasts(c: Config, phase: byte, hash: Id32, i: byte, log: seq<Input>, more: seq<Input>)
    requires Backed(c, phase, hash, i, log)
    ensures Backed(c, phase, hash, i, log + more)
  {
    if SUBMITTED <= phase <= PAID {
      NamedLasts(log, more, c.worker, E.SUBMIT, [i] + hash, c.deadline);
    }
    if phase == APPROVED || phase == PAID {
      NamedLasts(log, more, c.owner, E.APPROVE, [i] + hash, c.deadline);
    }
  }

  lemma LastIsNamed(log: seq<Input>, in_: Input, party: Id32, methodId: u64, body: seq<byte>, deadline: u32)
    requires Calls(in_, methodId) && in_.message.actor == party && in_.message.body == body && in_.blockTime < deadline
    ensures Named(log + [in_], party, methodId, body, deadline)
  {
    assert (log + [in_])[|log|] == in_;
  }

  /** One message: what stood behind every delivery still does, and what is new has this message behind it. */
  lemma SlotStaysBacked(s: State, in_: Input, t: State, i: nat, log: seq<Input>)
    requires i < MAX_MILESTONES && MilestoneChange(s, in_, t, i)
    requires s.pending.kind == 1 && s.pending.index == i ==> s.phases[i] == APPROVED
    requires Backed(s.config, s.phases[i], s.hashes[i], i, log)
    ensures Backed(s.config, t.phases[i], t.hashes[i], i, log + [in_])
  {
    hide Named;
    var c := s.config;
    BackedLasts(c, s.phases[i], s.hashes[i], i, log, [in_]);
    if MaySubmit(s, in_, i) {
      assert in_.message.body == [in_.message.body[0]] + in_.message.body[1..];
      LastIsNamed(log, in_, c.worker, E.SUBMIT, in_.message.body, c.deadline);
    } else if MayApprove(s, in_, i) {
      LastIsNamed(log, in_, c.owner, E.APPROVE, in_.message.body, c.deadline);
    }
  }

  lemma StepStaysBacked(s: State, in_: Input, log: seq<Input>)
    requires Valid(s) && AllBacked(s, log)
    ensures AllBacked(Runs.After(s, in_), log + [in_])
  {
    hide SoundMilestones, InBucket, SoundReceipts, E.Process, Backed, MilestoneChange;
    ChangesAreAuthorised(s, in_);
    var t := Runs.After(s, in_);
    forall i: nat | i < MAX_MILESTONES ensures Backed(t.config, t.phases[i], t.hashes[i], i, log + [in_]) {
      SlotStaysBacked(s, in_, t, i, log);
    }
  }

  lemma {:induction false} RunStaysBacked(s: State, log: seq<Input>, ins: seq<Input>)
    requires Valid(s) && AllBacked(s, log)
    ensures AllBacked(Runs.Exec(s, ins), log + ins)
    decreases |ins|
  {
    hide Valid, AllBacked;
    if ins == [] {
      assert log + ins == log;
    } else {
      StepStaysBacked(s, ins[0], log);
      RunStaysBacked(Runs.After(s, ins[0]), log + [ins[0]], ins[1..]);
      assert log + [ins[0]] + ins[1..] == log + ins;
    }
  }

  /**
   * Over every run of a deployed escrow, a milestone that is approved or paid carries a hash that the worker
   * delivered and that the owner, in an external message before the deadline, named together with that milestone.
   */
  lemma PaidIsWhatTheOwnerNamed(c: Config, ins: seq<Input>, i: nat)
    requires ValidConfig(c) && i < c.count
    ensures Valid(Initial(c))
    ensures var t := Runs.Exec(Initial(c), ins);
      t.phases[i] == APPROVED || t.phases[i] == PAID ==>
        && Named(ins, c.owner, E.APPROVE, [i] + t.hashes[i], c.deadline)
        && Named(ins, c.worker, E.SUBMIT, [i] + t.hashes[i], c.deadline)
  {
    hide Named;
    InitialIsValid(c);
    RunStaysBacked(Initial(c), [], ins);
    assert [] + ins == ins;
    var t := Runs.Exec(Initial(c), ins);
    assert Backed(t.config, t.phases[i], t.hashes[i], i, ins);
  }

  /** Once approved, a milestone keeps its hash and is never taken back: it can only go on to be paid. */
  lemma {:induction false} ApprovedIsKept(s: State, ins: seq<Input>, i: nat)
    requires Valid(s) && i < MAX_MILESTONES && (s.phases[i] == APPROVED || s.phases[i] == PAID)
    ensures var t := Runs.Exec(s, ins); t.hashes[i] == s.hashes[i] && (t.phases[i] == APPROVED || t.phases[i] == PAID)
    decreases |ins|
  {
    if ins != [] {
      var t := Runs.After(s, ins[0]);
      ChangesAreAuthorised(s, ins[0]);
      ApprovedStep(s, ins[0], t, i);
      ApprovedIsKept(t, ins[1..], i);
    }
  }

  lemma ApprovedStep(s: State, in_: Input, t: State, i: nat)
    requires i < MAX_MILESTONES && (s.phases[i] == APPROVED || s.phases[i] == PAID) && MilestoneChange(s, in_, t, i)
    ensures t.hashes[i] == s.hashes[i] && (t.phases[i] == APPROVED || t.phases[i] == PAID)
  {
  }

  /** Some message of the owner, at or after the deadline, asks for the refund. */
  ghost predicate RefundAsked(c: Config, ins: seq<Input>) {
    exists k | 0 <= k < |ins| ::
      Calls(ins[k], E.REFUND) && ins[k].message.actor == c.owner && c.deadline <= ins[k].blockTime
  }

  /** From any state with no refund under way, nothing is refunded unless the owner asks for it after the deadline. */
  lemma {:induction false} RefundIsTheOwners(s: State, ins: seq<Input>)
    requires Valid(s) && s.pending.kind != 2 && !RefundAsked(s.config, ins)
    ensures Runs.Exec(s, ins).refunded == s.refunded && Runs.Exec(s, ins).pending.kind != 2
    decreases |ins|
  {
    if ins != [] {
      var t := Runs.After(s, ins[0]);
      ChangesAreAuthorised(s, ins[0]);
      NoRefundStep(s, ins[0], t);
      assert !(Calls(ins[0], E.REFUND) && ins[0].message.actor == s.config.owner
               && s.config.deadline <= ins[0].blockTime);
      assert forall k | 0 <= k < |ins| - 1 :: ins[1..][k] == ins[k + 1];
      RefundIsTheOwners(t, ins[1..]);
    }
  }

  lemma NoRefundStep(s: State, in_: Input, t: State)
    requires s.pending.kind != 2 && Authorised(s, in_, t)
    ensures t.refunded == s.refunded
    ensures t.pending.kind == 2 ==>
      Calls(in_, E.REFUND) && in_.message.actor == s.config.owner && s.config.deadline <= in_.blockTime
  {
    hide MilestoneChange;
  }
}
