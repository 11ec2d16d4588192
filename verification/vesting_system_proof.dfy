/** What every run of the vesting contract and its receivers keeps. */
module VestingSystemProof {
  import opened Bytes
  import opened Sdk
  import opened Sums
  import opened VestingCore
  import opened VestingState
  import opened VestingSystem
  import V = VestingSpec
  import R = VestingReceiver
  import Runs = VestingRuns

  lemma InitKeepsInv(s: System)
    requires Init(s)
    ensures Inv(s)
  {
    var now :| s.vesting == Initial(s.vesting.config, now);
    InitialIsValid(s.vesting.config, now);
    forall j | 0 <= j < |s.sites| ensures SiteSound(s, j) {
      assert FreshSite(s.sites[j], j);
    }
  }

  /** A lane stays sound while only its surroundings move on. */
  lemma SiteKept(s: System, t: System, j: nat)
    requires j < |s.sites| == |t.sites| <= LANES && SiteSound(s, j) && t.sites[j] == s.sites[j]
    requires t.here == s.here && t.vesting.config == s.vesting.config
    requires LaneOf(t.vesting, j) == LaneOf(s.vesting, j) && PaidOf(t.vesting, j) == PaidOf(s.vesting, j)
    requires s.vesting.nonce <= t.vesting.nonce && s.blockLt <= t.blockLt && s.lastLt <= t.lastLt && s.used <= t.used
    ensures SiteSound(t, j)
  {
  }

  /** A call that sends nothing leaves every lane alone. */
  ghost predicate Quiet(v: State, r: Result<V.Outcome>, gained: nat)
    requires Valid(v)
  {
    r.Ok? ==>
      var t := r.value.state;
      && r.value.reply.sends == [] && Valid(t) && t.config == v.config && t.nonce == v.nonce
      && (forall j | 0 <= j < LANES :: LaneOf(t, j) == LaneOf(v, j) && PaidOf(t, j) == PaidOf(v, j))
      && Held(t) == Held(v) + gained
  }

  /** A call that pays locks its lane with exactly the payout it sends. */
  ghost predicate Pays(v: State, r: Result<V.Outcome>, j: nat, blockLt: u64)
    requires Valid(v)
  {
    r.Ok? ==>
      var t := r.value.state;
      && Valid(t) && t.config == v.config && t.nonce == v.nonce + 1 && v.funded
      && j < 2 * v.config.count
      && (forall n | 0 <= n < LANES && n != j :: LaneOf(t, n) == LaneOf(v, n))
      && (forall n | 0 <= n < LANES :: PaidOf(t, n) == PaidOf(v, n))
      && LaneOf(v, j).pending == 0 && LaneOf(t, j).pending != 0 && LaneOf(t, j).nonce == t.nonce
      && LaneOf(t, j).afterLt == V.Max(blockLt, LaneOf(v, j).lastLt)
      && LaneOf(t, j).lastLt == LaneOf(v, j).lastLt && LaneOf(t, j).lastHash == LaneOf(v, j).lastHash
      && Held(t) == Held(v) - LaneOf(t, j).pending
      && r.value.reply.sends == [PayoutOf(t, j)]
  }

  lemma ShellIsNoPrincipal(extra: seq<Currency>)
    requires V.OnlyNonzeroShell(extra)
    ensures Principal(extra) == 0
  {
    if extra != [] {
      assert extra[0].id == SHELL;
      ShellIsNoPrincipal(extra[1..]);
    }
  }

  lemma TopupIsQuiet(v: State, body: seq<byte>, extra: seq<Currency>)
    requires Valid(v)
    ensures Quiet(v, V.Topup(v, body, extra), Principal(extra))
  {
    if V.OnlyNonzeroShell(extra) {
      ShellIsNoPrincipal(extra);
    }
  }

  lemma FundedFromNothing(v: State)
    requires Valid(v) && !v.funded
    ensures Valid(v.(funded := true)) && Held(v.(funded := true)) == Total(v.config)
  {
    SumZero(ClaimedColumn(Live(v)));
    SumZero(RefundedColumn(Live(v)));
    SumZero(PendingColumn(Live(v)));
  }

  lemma FundIsQuiet(v: State, actor: Id32, body: seq<byte>, extra: seq<Currency>, balance: seq<Currency>)
    requires Valid(v)
    ensures Quiet(v, V.Fund(v, actor, body, extra, balance), Principal(extra))
  {
    if V.Fund(v, actor, body, extra, balance).Ok? {
      FundedFromNothing(v);
    }
  }

  /** Replacing a stream's progress leaves the lanes of other streams, and what it does not touch of its own. */
  lemma LaneAfter(v: State, i: nat, q: Progress, nonce: u64, n: nat)
    requires i < MAX_STREAMS && n < LANES
    ensures var t := WithProgress(v, i, q, nonce);
      if StreamOf(n) == i
      then LaneOf(t, n) == V.LaneOf(q, KindOf(n)) && PaidOf(t, n) == V.PaidOf(q, KindOf(n))
      else LaneOf(t, n) == LaneOf(v, n) && PaidOf(t, n) == PaidOf(v, n)
  {
  }

  /** Only the lane named moves when a stream's other lane and both its sums stay. */
  lemma OtherLanesStay(v: State, i: nat, kind: nat, q: Progress, nonce: u64)
    requires i < MAX_STREAMS && kind < 2
    requires var p := v.progress[i];
      p.claimed == q.claimed && p.refunded == q.refunded && V.LaneOf(q, 1 - kind) == V.LaneOf(p, 1 - kind)
    ensures var t := WithProgress(v, i, q, nonce);
      && (forall n | 0 <= n < LANES && n != LaneNo(i, kind) :: LaneOf(t, n) == LaneOf(v, n))
      && (forall n | 0 <= n < LANES :: PaidOf(t, n) == PaidOf(v, n))
  {
    var t := WithProgress(v, i, q, nonce);
    forall n | 0 <= n < LANES
      ensures (n != LaneNo(i, kind) ==> LaneOf(t, n) == LaneOf(v, n)) && PaidOf(t, n) == PaidOf(v, n)
    {
      LaneAfter(v, i, q, nonce, n);
      if StreamOf(n) == i && n != LaneNo(i, kind) {
        assert KindOf(n) == 1 - kind;
      }
    }
  }

  lemma CancelIsQuiet(v: State, actor: Id32, i: nat)
    requires Valid(v) && v.funded && i < v.config.count
    ensures Quiet(v, V.Cancel(v, actor, i), 0)
  {
    if V.Cancel(v, actor, i).Ok? {
      assert Sound(v, i);
      var q := V.Cut(v.config.streams[i], v.progress[i], v.lastTime);
      V.CutIsSound(v.config.streams[i], v.progress[i], v.lastTime, v.nonce);
      ReplaceKeepsValid(v, i, q, v.nonce);
      var t := V.Cancel(v, actor, i).value.state;
      assert t == WithProgress(v, i, q, v.nonce);
      forall j | 0 <= j < LANES ensures LaneOf(t, j) == LaneOf(v, j) && PaidOf(t, j) == PaidOf(v, j) {
        LaneAfter(v, i, q, v.nonce, j);
      }
    }
  }

  lemma LaneAt(v: State, i: nat, kind: nat)
    requires i < MAX_STREAMS && kind < 2
    ensures LaneOf(v, LaneNo(i, kind)) == V.LaneOf(v.progress[i], kind)
    ensures StreamOf(LaneNo(i, kind)) == i && KindOf(LaneNo(i, kind)) == kind && LaneNo(i, kind) == 2 * i + kind
  {
  }

  lemma PayPays(v: State, in_: Input, actor: Id32, i: nat, kind: nat)
    requires Valid(v) && v.funded && i < v.config.count && kind < 2
    ensures Pays(v, V.Pay(v, in_, actor, i, kind), LaneNo(i, kind), in_.blockLt)
  {
    hide PaymentBody, Sum, SoundBooks, LaneOf, PaidOf, StreamOf, KindOf, LaneNo, Held;
    if V.Payable(v, in_, actor, i, kind).Ok? {
      var amount := V.Payable(v, in_, actor, i, kind).value;
      V.DispatchedIsValid(v, i, kind, amount, in_.blockLt);
      var t, q := V.Dispatched(v, i, kind, amount, in_.blockLt),
                  V.Locked(v.progress[i], kind, amount, v.nonce + 1, in_.blockLt);
      OtherLanesStay(v, i, kind, q, v.nonce + 1);
      LaneAt(v, i, kind);
      LaneAt(t, i, kind);
    }
  }

  /** The lane a CLAIM or REFUND call is about. */
  function LaneCalled(m: Message): nat {
    if m.body == [] then 0 else LaneNo(m.body[0], if m.methodId == CLAIM then V.CLAIMS else V.REFUNDS)
  }

  predicate Payout?(m: Message) { m.methodId == CLAIM || m.methodId == REFUND }

  /** A call's effect is measured the same before and after the clock moves. */
  lemma ClockMovesNothing(v: State, now: u32, r: Result<V.Outcome>, gained: nat, j: nat, blockLt: u64)
    requires Valid(v) && Valid(V.Clocked(v, now))
    ensures Quiet(V.Clocked(v, now), r, gained) ==> Quiet(v, r, gained)
    ensures Pays(V.Clocked(v, now), r, j, blockLt) ==> Pays(v, r, j, blockLt)
  {
    hide Sum, PaymentBody;
  }

  lemma FailureIsEither(v: State, r: Result<V.Outcome>, gained: nat, j: nat, blockLt: u64)
    requires Valid(v) && r.Err?
    ensures Quiet(v, r, gained) && Pays(v, r, j, blockLt)
  {
  }

  lemma StatusIsQuiet(v: State)
    requires Valid(v)
    ensures Quiet(v, V.Finished(v, 255, 255, 0), 0)
  {
  }

  /** What one accepted call does to lanes and money. */
  lemma CallShape(v: State, in_: Input)
    requires Valid(v) && (in_.message.Internal? ==> in_.message.callback.None?)
    ensures
      if Payout?(in_.message)
      then Pays(v, V.Process(v, in_), LaneCalled(in_.message), in_.blockLt)
           && (V.Process(v, in_).Ok? ==> Principal(in_.message.extra) == 0)
      else Quiet(v, V.Process(v, in_), Principal(in_.message.extra))
  {
    hide Quiet, Pays, V.Topup, V.Fund, V.Cancel, V.Pay, V.Finished, Valid;
    TimeKeepsSound(v, V.Max(v.lastTime, in_.blockTime));
    var c, r, m := V.Clocked(v, in_.blockTime), V.Process(v, in_), in_.message;
    ClockMovesNothing(v, in_.blockTime, r, Principal(m.extra), LaneCalled(m), in_.blockLt);
    if r.Err? {
      FailureIsEither(v, r, Principal(m.extra), LaneCalled(m), in_.blockLt);
    } else if m.methodId == TOPUP {
      TopupIsQuiet(c, m.body, m.extra);
    } else if m.methodId == FUND {
      FundIsQuiet(c, m.actor, m.body, m.extra, in_.balance);
    } else if m.methodId == STATUS {
      StatusIsQuiet(c);
    } else if m.methodId == CANCEL {
      CancelIsQuiet(c, m.actor, m.body[0]);
    } else if m.methodId == CLAIM {
      PayPays(c, in_, m.actor, m.body[0], V.CLAIMS);
    } else {
      PayPays(c, in_, m.actor, m.body[0], V.REFUNDS);
    }
  }

  /** A payout is routed to its own lane. */
  lemma LaunchedThere(s: System, j: nat, out: Outbound, hash: Id32)
    requires Valid(s.vesting) && j < 2 * s.vesting.config.count == |s.sites|
             && out.destination == Dest(s.vesting.config, j)
    ensures Launched(s, out, hash) == s.(sites := s.sites[j := s.sites[j].(packet := Outgoing(hash, out))])
  {
    Runs.LaneAtFinds(s.vesting.config, StreamOf(j), KindOf(j), 0);
  }

  /** A call that sends nothing leaves all sites as they were. */
  lemma QuietCallKeepsInv(s: System, in_: Input, hash: Id32)
    requires Inv(s) && Enabled(s, CallVesting(in_, hash)) && V.Process(s.vesting, in_).Ok? && !Payout?(in_.message)
    ensures Inv(AfterCall(s, in_, hash))
  {
    hide V.Process, Valid, SiteSound;
    CallShape(s.vesting, in_);
    var t := AfterCall(s, in_, hash);
    forall j | 0 <= j < |t.sites| ensures SiteSound(t, j) {
      SiteKept(s, t, j);
    }
  }

  lemma IdleMeansNothing(s: System, j: nat)
    requires Inv(s) && j < |s.sites|
    ensures LaneOf(s.vesting, j).pending == 0 <==> s.sites[j].packet == Nothing
  {
    assert SiteSound(s, j);
  }

  lemma LaneNonce(v: State, j: nat)
    requires Valid(v) && j < 2 * v.config.count
    ensures LaneOf(v, j).nonce <= v.nonce
  {
    assert Sound(v, StreamOf(j));
  }

  /** A payout's message takes the place of nothing: its lane was idle. */
  lemma PayoutIsLaunched(s: System, in_: Input, hash: Id32)
    requires Inv(s) && Enabled(s, CallVesting(in_, hash)) && V.Process(s.vesting, in_).Ok? && Payout?(in_.message)
    ensures var j, t := LaneCalled(in_.message), AfterCall(s, in_, hash);
      && Pays(s.vesting, V.Process(s.vesting, in_), j, in_.blockLt)
      && j < |s.sites| && s.sites[j].packet == Nothing
      && t.here == s.here && t.vesting == V.Process(s.vesting, in_).value.state && t.balance == Held(t.vesting)
      && t.blockLt == in_.blockLt && t.lastLt == s.lastLt && t.used == s.used + {hash}
      && t.sites == s.sites[j := s.sites[j].(packet := Outgoing(hash, PayoutOf(t.vesting, j)))]
  {
    hide V.Process, Valid, Held, PaymentBody, SiteSound, Launched;
    CallShape(s.vesting, in_);
    var o, j := V.Process(s.vesting, in_).value, LaneCalled(in_.message);
    Solvent(o.state);
    IdleMeansNothing(s, j);
    LaunchedThere(s, j, PayoutOf(o.state, j), hash);
  }

  lemma PayoutSiteIsSound(s: System, in_: Input, hash: Id32)
    requires Inv(s) && Enabled(s, CallVesting(in_, hash)) && V.Process(s.vesting, in_).Ok? && Payout?(in_.message)
    requires |AfterCall(s, in_, hash).sites| <= LANES && LaneCalled(in_.message) < |AfterCall(s, in_, hash).sites|
    ensures SiteSound(AfterCall(s, in_, hash), LaneCalled(in_.message))
  {
    hide V.Process, Valid, AfterCall, Held, PaymentBody;
    PayoutIsLaunched(s, in_, hash);
    assert SiteSound(s, LaneCalled(in_.message));
  }

  lemma PayoutCallKeepsInv(s: System, in_: Input, hash: Id32)
    requires Inv(s) && Enabled(s, CallVesting(in_, hash)) && V.Process(s.vesting, in_).Ok? && Payout?(in_.message)
    ensures Inv(AfterCall(s, in_, hash))
  {
    hide V.Process, Valid, AfterCall, Held, PaymentBody, SiteSound;
    PayoutIsLaunched(s, in_, hash);
    PayoutSiteIsSound(s, in_, hash);
    var t, c := AfterCall(s, in_, hash), LaneCalled(in_.message);
    forall j | 0 <= j < |t.sites| && j != c ensures SiteSound(t, j) {
      SiteKept(s, t, j);
    }
  }

  lemma CallKeepsInv(s: System, in_: Input, hash: Id32)
    requires Inv(s) && Enabled(s, CallVesting(in_, hash))
    ensures Inv(AfterCall(s, in_, hash))
  {
    if V.Process(s.vesting, in_).Err? {
      var t := AfterCall(s, in_, hash);
      forall j | 0 <= j < |t.sites| ensures SiteSound(t, j) {
        SiteKept(s, t, j);
      }
    } else if Payout?(in_.message) {
      PayoutCallKeepsInv(s, in_, hash);
    } else {
      QuietCallKeepsInv(s, in_, hash);
    }
  }

  /** Its owner, and anyone but its contract, can only bind a receiver or set its flag. */
  lemma OwnerCallKeepsReceiver(s: System, j: nat, call: Input)
    requires Inv(s) && Enabled(s, CallReceiver(j, call))
             && (var r := s.sites[j].receiver; r.bound == ZERO_ADDRESS || r.bound == s.here)
    ensures var r, t := s.sites[j].receiver, CalledReceiver(s.sites[j].receiver, call);
      (t.bound == ZERO_ADDRESS || t.bound == s.here) && t == r.(bound := t.bound, reject := t.reject)
  {
    AddressInverse(s.here);
  }

  lemma ReceiverCallKeepsInv(s: System, j: nat, call: Input)
    requires Inv(s) && Enabled(s, CallReceiver(j, call))
    ensures Inv(Apply(s, CallReceiver(j, call)))
  {
    hide R.Process, Valid;
    assert SiteSound(s, j);
    OwnerCallKeepsReceiver(s, j, call);
    var t := Apply(s, CallReceiver(j, call));
    forall n | 0 <= n < |t.sites| ensures SiteSound(t, n) {
      assert SiteSound(s, n);
      if n != j {
        SiteKept(s, t, n);
      }
    }
  }

  /** A lane's payout fits what its stream has in total. */
  lemma LaneFits(v: State, j: nat)
    requires Valid(v) && j < 2 * v.config.count
    ensures PaidOf(v, j) + LaneOf(v, j).pending < U128_END
  {
    var i := StreamOf(j);
    assert Sound(v, i);
    V.PaidFits(v.config.streams[i], v.progress[i], v.lastTime, v.nonce, KindOf(j));
  }

  /**
   * A payout that reaches its receiver is refused only because the receiver is not bound or was told to reject: its
   * nonce is always fresh, and its slot has room.
   */
  lemma RefusedOnlyWhenTold(s: System, j: nat, atLt: u64, lt: u64)
    requires Inv(s) && j < |s.sites| && s.sites[j].packet.Outgoing?
    ensures var x, l := s.sites[j], LaneOf(s.vesting, j);
      && x.receiver.index == StreamOf(j) < MAX_STREAMS && R.HasRoom(x.receiver.slots[StreamOf(j)], l.pending)
      && x.packet.out == PayoutOf(s.vesting, j)
      && R.Process(x.receiver, Arrival(s.here, x.packet.out, atLt, lt)) ==
         if x.receiver.bound != s.here then Err(R.E_RECEIVER_AUTH)
         else if x.receiver.reject then Err(R.E_REJECT)
         else Ok(R.Receipt(R.Paid(x.receiver, l.nonce, l.pending), x.packet.out.body))
  {
    hide Valid, PaymentBody, ReadPayment;
    assert SiteSound(s, j);
    LaneFits(s.vesting, j);
    R.TakesExactlyItsOwn(s.sites[j].receiver, Arrival(s.here, s.sites[j].packet.out, atLt, lt),
                         LaneOf(s.vesting, j).nonce, LaneOf(s.vesting, j).pending);
  }

  lemma ChangeIsNoPrincipal(shell: u128)
    ensures Principal(Change(shell)) == 0 && V.CallbackValue(Change(shell), None)
  {
  }

  lemma ReturnedValue(amount: u128, shell: u128)
    ensures var extra := [Currency(PRINCIPAL, amount)] + Change(shell);
      Principal(extra) == amount && V.CallbackValue(extra, Some(amount))
  {
    var extra := [Currency(PRINCIPAL, amount)] + Change(shell);
    assert extra[0] == Currency(PRINCIPAL, amount);
  }

  /** The host's callback answers the payout it was built for. */
  lemma ReactionAnswers(here: Address, hash: Id32, out: Outbound, status: u32, result: seq<byte>, lt: u64, refund: u128)
    requires out.callbackMethod.Some? && hash != ZERO32 && (status == 0 ==> result == out.body)
    ensures var q := Reaction(here, hash, out, status, result, lt, refund);
      && q.Returning? && q.msg.Internal? && q.msg.callback.Some? && q.msg.callback.value.status == status
      && Runs.Answers(q.msg, out, here, status) && q.msg.createdLt == lt && q.msg.callback.value.causeHash == hash
      && Principal(q.msg.extra) == (if status == 0 then 0 else out.principal)
      && q.acked == (if status == 0 then out.principal else 0)
  {
    ChangeIsNoPrincipal(refund);
    ReturnedValue(out.principal, refund);
    var nothing: seq<Currency> := [];
    assert nothing + Change(refund) == Change(refund);
  }

  /** The status a delivery ends with. */
  ghost function DeliveryStatus(s: System, j: nat, atLt: u64, lt: u64, hostStatus: u32): u32
    requires Inv(s) && j < |s.sites| && s.sites[j].packet.Outgoing?
  {
    assert SiteSound(s, j);
    if hostStatus != 0 then hostStatus else
      match R.Process(s.sites[j].receiver, Arrival(s.here, s.sites[j].packet.out, atLt, lt))
      case Ok(_) => 0
      case Err(code) => FailureStatus(code)
  }

  /** A delivery: either the whole amount moves into the receiver and is acknowledged, or the receiver is untouched. */
  lemma DeliveredSite(s: System, j: nat, atLt: u64, lt: u64, hostStatus: u32, refund: u128)
    requires Inv(s) && Enabled(s, Deliver(j, atLt, lt, hostStatus, refund))
    ensures var x, l, status := s.sites[j], LaneOf(s.vesting, j), DeliveryStatus(s, j, atLt, lt, hostStatus);
      && R.HasRoom(x.receiver.slots[x.receiver.index], l.pending)
      && Delivered(s.here, x, atLt, lt, hostStatus, refund) ==
         Site(if status == 0 then R.Paid(x.receiver, l.nonce, l.pending) else x.receiver,
              x.balance + (if status == 0 then l.pending else 0),
              Reaction(s.here, x.packet.hash, x.packet.out, status,
                       if status == 0 then x.packet.out.body else [], lt, refund))
  {
    hide Valid, R.Process, PaymentBody;
    assert SiteSound(s, j);
    RefusedOnlyWhenTold(s, j, atLt, lt);
  }

  lemma DeliveredIsSound(s: System, j: nat, atLt: u64, lt: u64, hostStatus: u32, refund: u128)
    requires Inv(s) && Enabled(s, Deliver(j, atLt, lt, hostStatus, refund))
    ensures SiteSound(Apply(s, Deliver(j, atLt, lt, hostStatus, refund)), j)
  {
    hide Valid, R.Process, PaymentBody, V.CallbackValue, Reaction;
    assert SiteSound(s, j);
    var x, status := s.sites[j], DeliveryStatus(s, j, atLt, lt, hostStatus);
    DeliveredSite(s, j, atLt, lt, hostStatus, refund);
    ReactionAnswers(s.here, x.packet.hash, x.packet.out, status,
                    if status == 0 then x.packet.out.body else [], lt, refund);
    var t := Apply(s, Deliver(j, atLt, lt, hostStatus, refund));
    LaneNonce(s.vesting, j);
    assert ReceiverSound(t.sites[j], j, PaidOf(t.vesting, j), t.here, t.vesting.nonce);
    assert ClockSound(LaneOf(t.vesting, j), t.blockLt, t.lastLt, t.used);
    assert ReturningSound(t.sites[j].packet, LaneOf(t.vesting, j), PayoutOf(t.vesting, j), t.here, t.lastLt, t.used);
  }

  lemma DeliveryKeepsInv(s: System, j: nat, atLt: u64, lt: u64, hostStatus: u32, refund: u128)
    requires Inv(s) && Enabled(s, Deliver(j, atLt, lt, hostStatus, refund))
    ensures Inv(Apply(s, Deliver(j, atLt, lt, hostStatus, refund)))
  {
    hide Valid, Delivered, SiteSound;
    DeliveredIsSound(s, j, atLt, lt, hostStatus, refund);
    var t := Apply(s, Deliver(j, atLt, lt, hostStatus, refund));
    forall n | 0 <= n < |t.sites| && n != j ensures SiteSound(t, n) {
      SiteKept(s, t, n);
    }
  }

  /** The callback under way is always accepted, and settles or rolls back exactly its lane. */
  lemma AnswerAccepted(s: System, j: nat, in_: Input)
    requires Inv(s) && Enabled(s, Answer(j, in_))
    ensures in_.message.Internal? && in_.message.callback.Some? && j < LANES
    ensures var h := in_.message.callback.value;
      && V.Process(s.vesting, in_).Ok? && h.causeHash in s.used && h.causeHash != ZERO32
      && 0 < in_.message.createdLt <= s.lastLt
      && Valid(V.Clocked(s.vesting, in_.blockTime))
      && V.Process(s.vesting, in_).value.state ==
         V.SettledState(V.Clocked(s.vesting, in_.blockTime), StreamOf(j), KindOf(j), h.status == 0,
                        in_.message.createdLt, h.causeHash)
  {
    hide V.Admissible, V.Payload, V.CallbackValue, PaymentBody, Valid;
    assert SiteSound(s, j);
    TimeKeepsSound(s.vesting, V.Max(s.vesting.lastTime, in_.blockTime));
    Runs.AnswerAccepted(V.Clocked(s.vesting, in_.blockTime), StreamOf(j), KindOf(j), s.here, in_.message,
                        in_.message.callback.value.status);
  }

  /** What settling does to the lanes. */
  lemma SettledLanes(v: State, j: nat, success: bool, lt: u64, hash: Id32)
    requires Valid(v) && j < 2 * v.config.count && lt != 0 && hash != ZERO32 && LaneOf(v, j).pending != 0
    ensures var t, l := V.SettledState(v, StreamOf(j), KindOf(j), success, lt, hash), LaneOf(v, j);
      && Valid(t) && t.config == v.config && t.nonce == v.nonce
      && Held(t) == Held(v) + (if success then 0 else l.pending)
      && LaneOf(t, j) == Lane(0, 0, 0, lt, hash) && PaidOf(t, j) == PaidOf(v, j) + (if success then l.pending else 0)
      && (forall n | 0 <= n < LANES && n != j :: LaneOf(t, n) == LaneOf(v, n) && PaidOf(t, n) == PaidOf(v, n))
  {
    hide Sum, SoundBooks;
    var i := StreamOf(j);
    V.SettledIsValid(v, i, KindOf(j), success, lt, hash);
    LaneFits(v, j);
    var t, q := V.SettledState(v, i, KindOf(j), success, lt, hash),
                V.Settled(v.progress[i], KindOf(j), success, lt, hash);
    forall n | 0 <= n < LANES && n != j ensures LaneOf(t, n) == LaneOf(v, n) && PaidOf(t, n) == PaidOf(v, n) {
      assert t.progress[StreamOf(n)] == if StreamOf(n) == i then q else v.progress[StreamOf(n)];
    }
  }

  /** The whole effect of an answer. */
  lemma AnswerShape(s: System, j: nat, in_: Input)
    requires Inv(s) && Enabled(s, Answer(j, in_))
    ensures in_.message.Internal? && in_.message.callback.Some? && j < LANES
    ensures var t, l, h := AfterAnswer(s, j, in_), LaneOf(s.vesting, j), in_.message.callback.value;
      && t == s.(vesting := t.vesting, balance := Held(t.vesting), blockLt := in_.blockLt,
                 sites := s.sites[j := s.sites[j].(packet := Nothing)])
      && Valid(t.vesting) && t.vesting.config == s.vesting.config && t.vesting.nonce == s.vesting.nonce
      && LaneOf(t.vesting, j) == Lane(0, 0, 0, in_.message.createdLt, h.causeHash)
      && PaidOf(t.vesting, j) == PaidOf(s.vesting, j) + (if h.status == 0 then l.pending else 0)
      && (forall n | 0 <= n < LANES && n != j ::
            LaneOf(t.vesting, n) == LaneOf(s.vesting, n) && PaidOf(t.vesting, n) == PaidOf(s.vesting, n))
  {
    hide V.Process, V.SettledState, V.CallbackValue, PaymentBody, Sum, SoundBooks, SoundBooks;
    AnswerAccepted(s, j, in_);
    assert SiteSound(s, j);
    var h := in_.message.callback.value;
    SettledLanes(V.Clocked(s.vesting, in_.blockTime), j, h.status == 0, in_.message.createdLt, h.causeHash);
  }

  lemma AnsweredSiteIsSound(s: System, j: nat, in_: Input)
    requires Inv(s) && Enabled(s, Answer(j, in_))
    ensures |AfterAnswer(s, j, in_).sites| == |s.sites| && SiteSound(AfterAnswer(s, j, in_), j)
    ensures AfterAnswer(s, j, in_).sites[j].packet == Nothing
  {
    hide V.Process, Valid, V.CallbackValue, PaymentBody, AfterAnswer, Held;
    AnswerShape(s, j, in_);
    AnswerAccepted(s, j, in_);
    assert SiteSound(s, j);
  }

  lemma AnswerKeepsInv(s: System, j: nat, in_: Input)
    requires Inv(s) && Enabled(s, Answer(j, in_))
    ensures Inv(AfterAnswer(s, j, in_)) && AfterAnswer(s, j, in_).sites[j].packet == Nothing
  {
    hide V.Process, Valid, AfterAnswer, Held, SiteSound;
    AnswerShape(s, j, in_);
    AnsweredSiteIsSound(s, j, in_);
    var t := AfterAnswer(s, j, in_);
    forall n | 0 <= n < |t.sites| && n != j ensures SiteSound(t, n) {
      SiteKept(s, t, n);
    }
  }

  lemma StepKeepsInv(s: System, a: Action)
    requires Inv(s)
    ensures Inv(Apply(s, a))
  {
    if Enabled(s, a) {
      match a
      case CallVesting(in_, hash) => CallKeepsInv(s, in_, hash);
      case CallReceiver(j, call) => ReceiverCallKeepsInv(s, j, call);
      case Deliver(j, atLt, lt, hostStatus, refund) => DeliveryKeepsInv(s, j, atLt, lt, hostStatus, refund);
      case Answer(j, in_) => AnswerKeepsInv(s, j, in_);
    }
  }

  lemma {:induction false} RunKeepsInv(s: System, actions: seq<Action>)
    requires Inv(s)
    ensures Inv(Exec(s, actions))
    decreases |actions|
  {
    if actions == [] {
    } else {
      StepKeepsInv(s, actions[0]);
      RunKeepsInv(Apply(s, actions[0]), actions[1..]);
    }
  }

  /** What is with the receivers and under way is, lane by lane, what the books call paid and pending. */
  lemma LaneBalances(s: System, j: nat)
    requires Inv(s) && j < |s.sites|
    ensures s.sites[j].balance + Carried(s.sites[j].packet) == PaidOf(s.vesting, j) + LaneOf(s.vesting, j).pending
  {
    assert SiteSound(s, j);
  }

  lemma TwoMoreSites(sites: seq<Site>, n: nat)
    requires n + 2 <= |sites|
    ensures Sum(BalanceColumn(sites[..n + 2]))
            == Sum(BalanceColumn(sites[..n])) + sites[n].balance + sites[n + 1].balance
    ensures Sum(CarriedColumn(sites[..n + 2])) ==
            Sum(CarriedColumn(sites[..n])) + Carried(sites[n].packet) + Carried(sites[n + 1].packet)
  {
    assert BalanceColumn(sites[..n + 2]) == BalanceColumn(sites[..n]) + [sites[n].balance] + [sites[n + 1].balance];
    SumSnoc(BalanceColumn(sites[..n]), sites[n].balance);
    SumSnoc(BalanceColumn(sites[..n]) + [sites[n].balance], sites[n + 1].balance);
    var c, d := Carried(sites[n].packet), Carried(sites[n + 1].packet);
    assert CarriedColumn(sites[..n + 2]) == CarriedColumn(sites[..n]) + [c] + [d];
    SumSnoc(CarriedColumn(sites[..n]), c);
    SumSnoc(CarriedColumn(sites[..n]) + [c], d);
  }

  lemma NoLanes(s: System)
    ensures Sum(BalanceColumn(s.sites[..0])) == Sum(CarriedColumn(s.sites[..0])) == 0
    ensures Sum(ClaimedColumn(s.vesting.progress[..0])) == Sum(RefundedColumn(s.vesting.progress[..0]))
            == Sum(PendingColumn(s.vesting.progress[..0])) == 0
  {
  }

  lemma StreamBalances(s: System, i: nat)
    requires Inv(s) && i < s.vesting.config.count
    ensures var x, y, p := s.sites[2 * i], s.sites[2 * i + 1], s.vesting.progress[i];
      x.balance + Carried(x.packet) + y.balance + Carried(y.packet)
      == p.claimed + p.refunded + (p.claims.pending + p.refunds.pending)
  {
    LaneBalances(s, 2 * i);
    LaneBalances(s, 2 * i + 1);
  }

  lemma {:induction false} LanesAddUp(s: System, n: nat)
    requires Inv(s) && n <= s.vesting.config.count
    ensures Sum(BalanceColumn(s.sites[..2 * n])) + Sum(CarriedColumn(s.sites[..2 * n]))
            == Sum(ClaimedColumn(s.vesting.progress[..n])) + Sum(RefundedColumn(s.vesting.progress[..n]))
               + Sum(PendingColumn(s.vesting.progress[..n]))
  {
    hide Valid, SiteSound, Sum, Carried, Held;
    if n == 0 {
      NoLanes(s);
    } else {
      LanesAddUp(s, n - 1);
      TwoMoreSites(s.sites, 2 * (n - 1));
      ColumnsPrefix(s.vesting.progress, n - 1);
      StreamBalances(s, n - 1);
    }
  }

  /**
   * In every run, whatever the order of calls, deliveries and answers: what was funded is in the contract's balance,
   * under way, or with a receiver; the contract really holds what its books call held; and each receiver's slot shows
   * what its lane has settled plus what is acknowledged but not yet answered.
   */
  lemma Conservation(s0: System, actions: seq<Action>)
    requires Init(s0)
    ensures var s := Exec(s0, actions);
      && s.vesting.config == s0.vesting.config && s.vesting.config.count <= MAX_STREAMS
      && s.balance + Sum(CarriedColumn(s.sites)) + Sum(BalanceColumn(s.sites))
         == (if s.vesting.funded then Total(s.vesting.config) else 0)
      && s.balance == Held(s.vesting)
      && |s.sites| == 2 * s.vesting.config.count
      && (forall j | 0 <= j < |s.sites| ::
            var x := s.sites[j];
            && x.receiver.index == StreamOf(j) < MAX_STREAMS && x.receiver.kind == KindOf(j)
            && x.receiver.slots[StreamOf(j)].total == x.balance == PaidOf(s.vesting, j) + Acked(x.packet))
  {
    InitKeepsInv(s0);
    RunKeepsInv(s0, actions);
    RunKeepsTerms(s0, actions);
    var s := Exec(s0, actions);
    LanesAddUp(s, s.vesting.config.count);
    assert s.sites[..2 * s.vesting.config.count] == s.sites;
    if !s.vesting.funded {
      FundedFromNothing(s.vesting);
    }
    forall j | 0 <= j < |s.sites|
      ensures s.sites[j].receiver.index == StreamOf(j) < MAX_STREAMS && s.sites[j].receiver.kind == KindOf(j)
      ensures s.sites[j].receiver.slots[StreamOf(j)].total == s.sites[j].balance
              == PaidOf(s.vesting, j) + Acked(s.sites[j].packet)
    {
      assert SiteSound(s, j);
    }
  }

  lemma StepKeepsTerms(s: System, a: Action)
    requires Inv(s)
    ensures Apply(s, a).vesting.config == s.vesting.config
  {
    if Enabled(s, a) && a.CallVesting? {
      V.ProcessKeepsValid(s.vesting, a.in_);
    } else if Enabled(s, a) && a.Answer? {
      V.ProcessKeepsValid(s.vesting, a.answer);
    }
  }

  lemma {:induction false} RunKeepsTerms(s: System, actions: seq<Action>)
    requires Inv(s)
    ensures Exec(s, actions).vesting.config == s.vesting.config
    decreases |actions|
  {
    if actions == [] {
    } else {
      StepKeepsInv(s, actions[0]);
      StepKeepsTerms(s, actions[0]);
      RunKeepsTerms(Apply(s, actions[0]), actions[1..]);
    }
  }

  /** In every run a lane is locked exactly while its payout or the answer to it is under way. */
  lemma LockedIffUnderWay(s0: System, actions: seq<Action>, j: nat)
    requires Init(s0)
    ensures var s := Exec(s0, actions);
      j < |s.sites| ==> j < LANES && (LaneOf(s.vesting, j).pending == 0 <==> s.sites[j].packet == Nothing)
  {
    InitKeepsInv(s0);
    RunKeepsInv(s0, actions);
    if j < |Exec(s0, actions).sites| {
      IdleMeansNothing(Exec(s0, actions), j);
    }
  }
}
