/**
 * Payouts from end to end: whatever came before, a payout reaches its receiver and settles, and no lane stays
 * locked.
 */
module VestingHandshake {
  import opened Bytes
  import opened Sdk
  import opened VestingCore
  import opened VestingState
  import opened VestingSystem
  import opened VestingSystemProof
  import Sums
  import V = VestingSpec
  import R = VestingReceiver

  lemma ExecOne(s: System, a: Action)
    ensures Exec(s, [a]) == Apply(s, a)
  {
    assert Exec(s, [a]) == Exec(Apply(s, a), [a][1..]);
  }

  lemma ExecTwo(s: System, a: Action, b: Action)
    ensures Exec(s, [a, b]) == Apply(Apply(s, a), b)
  {
    assert [a, b][1..] == [b];
    ExecOne(Apply(s, a), b);
  }

  /** A call that puts a payout on an idle lane leaves what the lane's receiver and books show. */
  lemma SendingSide(s: System, in_: Input, hash: Id32, j: nat)
    requires Inv(s) && j < |s.sites| && s.sites[j].packet == Nothing
    requires var t := Apply(s, CallVesting(in_, hash)); |t.sites| == |s.sites| && t.sites[j].packet.Outgoing?
    ensures var t := Apply(s, CallVesting(in_, hash));
      && t.here == s.here && t.sites[j].receiver == s.sites[j].receiver
      && PaidOf(t.vesting, j) == PaidOf(s.vesting, j)
  {
    hide V.Process, Valid;
    if V.Process(s.vesting, in_).Ok? {
      CallShape(s.vesting, in_);
      if Payout?(in_.message) {
        PayoutIsLaunched(s, in_, hash);
      }
    }
  }

  /** A bound receiver that was not told to reject takes what reaches it. */
  lemma ReceivingSide(t: System, j: nat, atLt: u64, lt: u64, refund: u128)
    requires Inv(t) && Enabled(t, Deliver(j, atLt, lt, 0, refund))
    requires t.sites[j].receiver.bound == t.here && !t.sites[j].receiver.reject
    ensures var u, l, i := Apply(t, Deliver(j, atLt, lt, 0, refund)), LaneOf(t.vesting, j), StreamOf(j);
      && u.vesting == t.vesting && |u.sites| == |t.sites| && i < MAX_STREAMS
      && l.pending != 0 && t.sites[j].packet.out.principal == l.pending
      && u.sites[j].receiver.slots[i].total == t.sites[j].receiver.slots[i].total + l.pending
      && u.sites[j].packet.Returning? && u.sites[j].packet.msg.Internal? && u.sites[j].packet.msg.callback.Some?
      && u.sites[j].packet.msg.callback.value.status == 0
  {
    hide R.Process, Valid, PaymentBody;
    assert SiteSound(t, j);
    RefusedOnlyWhenTold(t, j, atLt, lt);
    DeliveredSite(t, j, atLt, lt, 0, refund);
  }

  /**
   * After any run: a payout that a call puts on a lane, delivered to its bound receiver and answered, is taken and
   * settled. Both sides move by exactly the amount sent, and the lane is open again.
   */
  lemma PayoutArrivesAndSettles(s0: System, before: seq<Action>, in_: Input, hash: Id32, j: nat, atLt: u64, lt: u64,
                                refund: u128, answer: Input)
    requires Init(s0)
    requires var s := Exec(s0, before);
      var t := Apply(s, CallVesting(in_, hash));
      var d := Deliver(j, atLt, lt, 0, refund);
      && j < |s.sites| && s.sites[j].packet == Nothing && |t.sites| == |s.sites| && t.sites[j].packet.Outgoing?
      && s.sites[j].receiver.bound == s.here && !s.sites[j].receiver.reject
      && Enabled(t, d) && Enabled(Apply(t, d), Answer(j, answer))
    ensures var s := Exec(s0, before);
      var t := Apply(s, CallVesting(in_, hash));
      var u := Apply(Apply(t, Deliver(j, atLt, lt, 0, refund)), Answer(j, answer));
      var amount := t.sites[j].packet.out.principal;
      && j < LANES && |u.sites| == |s.sites| && amount > 0
      && PaidOf(u.vesting, j) == PaidOf(s.vesting, j) + amount && LaneOf(u.vesting, j).pending == 0
      && u.sites[j].receiver.slots[StreamOf(j)].total == s.sites[j].receiver.slots[StreamOf(j)].total + amount
  {
    hide Valid, V.Process, SiteSound, Enabled;
    InitKeepsInv(s0);
    RunKeepsInv(s0, before);
    var s := Exec(s0, before);
    var c, d := CallVesting(in_, hash), Deliver(j, atLt, lt, 0, refund);
    StepKeepsInv(s, c);
    SendingSide(s, in_, hash, j);
    StepKeepsInv(Apply(s, c), d);
    ReceivingSide(Apply(s, c), j, atLt, lt, refund);
    AnswerSettles(Apply(Apply(s, c), d), j, answer);
  }

  lemma AnswerSettles(s: System, j: nat, answer: Input)
    requires Inv(s) && Enabled(s, Answer(j, answer))
    ensures s.sites[j].packet.msg.Internal? && s.sites[j].packet.msg.callback.Some? && j < LANES
    ensures var u, l := Apply(s, Answer(j, answer)), LaneOf(s.vesting, j);
      && |u.sites| == |s.sites| && u.sites[j].receiver == s.sites[j].receiver && LaneOf(u.vesting, j).pending == 0
      && PaidOf(u.vesting, j) == PaidOf(s.vesting, j)
         + (if s.sites[j].packet.msg.callback.value.status == 0 then l.pending else 0)
  {
    hide Valid, V.Process;
    AnswerShape(s, j, answer);
  }

  /** The next moment's delivery of what is under way on a lane. */
  function NextDelivery(s: System, j: nat): Action
    requires V.Max(s.blockLt, s.lastLt) + 1 < U64_END
  {
    Deliver(j, s.blockLt, V.Max(s.blockLt, s.lastLt) + 1, 0, 0)
  }

  lemma BalanceFits(s: System, j: nat)
    requires Inv(s) && j < |s.sites|
    ensures s.balance + Carried(s.sites[j].packet) < U128_END
  {
    Solvent(s.vesting);
    LanesAddUp(s, s.vesting.config.count);
    assert s.sites[..2 * s.vesting.config.count] == s.sites;
    Sums.SumElementLe(CarriedColumn(s.sites), j);
    if !s.vesting.funded {
      FundedFromNothing(s.vesting);
    }
  }

  ghost predicate Open(s: System, j: nat) { j < LANES && LaneOf(s.vesting, j).pending == 0 }

  lemma AnswerOpens(s: System, j: nat)
    requires Inv(s) && j < |s.sites| && s.sites[j].packet.Returning?
    ensures exists a :: Open(Apply(s, a), j)
  {
    BalanceFits(s, j);
    var funds := [Currency(PRINCIPAL, s.balance + Carried(s.sites[j].packet))];
    var a := Answer(j, Input(s.blockLt, 0, s.here, funds, s.sites[j].packet.msg));
    assert Principal(funds) == funds[0].amount;
    assert Enabled(s, a);
    AnswerKeepsInv(s, j, a.answer);
    IdleMeansNothing(Apply(s, a), j);
    assert Open(Apply(s, a), j);
  }

  lemma DeliveryReturns(s: System, j: nat)
    requires Inv(s) && j < |s.sites| && s.sites[j].packet.Outgoing? && V.Max(s.blockLt, s.lastLt) + 1 < U64_END
    ensures var t := Apply(s, NextDelivery(s, j)); Inv(t) && j < |t.sites| && t.sites[j].packet.Returning?
  {
    hide R.Process, Valid, PaymentBody;
    assert SiteSound(s, j);
    StepKeepsInv(s, NextDelivery(s, j));
  }

  /** No lane sticks: after any run, two host steps at most open any given lane. */
  lemma LaneCanOpen(s0: System, actions: seq<Action>, j: nat)
    requires Init(s0) && j < |s0.sites|
    requires var s := Exec(s0, actions); V.Max(s.blockLt, s.lastLt) + 1 < U64_END
    ensures exists more :: |more| <= 2 && Open(Exec(Exec(s0, actions), more), j)
  {
    InitKeepsInv(s0);
    RunKeepsInv(s0, actions);
    RunKeepsTerms(s0, actions);
    var s := Exec(s0, actions);
    if s.sites[j].packet.Nothing? {
      IdleMeansNothing(s, j);
      assert Exec(s, []) == s;
    } else if s.sites[j].packet.Returning? {
      AnswerOpens(s, j);
      var a :| Open(Apply(s, a), j);
      ExecOne(s, a);
      assert |[a]| <= 2;
    } else {
      var d := NextDelivery(s, j);
      DeliveryReturns(s, j);
      AnswerOpens(Apply(s, d), j);
      var a :| Open(Apply(Apply(s, d), a), j);
      ExecTwo(s, d, a);
      assert |[d, a]| <= 2;
    }
  }
}
