/** Safety of whole vesting runs: any messages, in any order, at any block times. */
module VestingRuns {
  import opened Bytes
  import opened Sdk
  import opened VestingCore
  import opened VestingState
  import opened VestingSpec

  /** A failed message stores nothing. */
  ghost function After(s: State, in_: Input): State
    requires Valid(s)
  {
    match Process(s, in_)
    case Ok(o) => o.state
    case Err(_) => s
  }

  ghost function Exec(s: State, ins: seq<Input>): (t: State)
    requires Valid(s)
    ensures Valid(t) && t.config == s.config
    decreases |ins|
  {
    if ins == [] then s else
      ProcessKeepsValid(s, ins[0]);
      Exec(After(s, ins[0]), ins[1..])
  }

  /** Amounts paid never shrink, and a cancellation with its cap is final. */
  ghost predicate Onward(p: Progress, q: Progress) {
    && p.claimed <= q.claimed && p.refunded <= q.refunded
    && (p.cancelled ==> q.cancelled && q.cutoff == p.cutoff && q.cap == p.cap)
  }

  ghost predicate AllOnward(s: State, t: State) {
    && s.lastTime <= t.lastTime && s.nonce <= t.nonce && (s.funded ==> t.funded)
    && forall i | 0 <= i < MAX_STREAMS :: Onward(s.progress[i], t.progress[i])
  }

  lemma CallbackOnward(s: State, here: Address, msg: Message)
    requires Valid(s) && msg.Internal? && msg.callback.Some? && Callback(s, here, msg).Ok?
    ensures AllOnward(s, Callback(s, here, msg).value.state)
  {
    var (i, kind) := LaneAt(s.config, msg.source, 0).value;
    var h := msg.callback.value;
    assert Sound(s, i);
    PaidFits(s.config.streams[i], s.progress[i], s.lastTime, s.nonce, kind);
    assert Onward(s.progress[i], Settled(s.progress[i], kind, h.status == 0, msg.createdLt, h.causeHash));
  }

  lemma PayOnward(s: State, in_: Input, actor: Id32, i: nat, kind: nat)
    requires Valid(s) && s.funded && i < s.config.count && kind < 2 && Pay(s, in_, actor, i, kind).Ok?
    ensures AllOnward(s, Pay(s, in_, actor, i, kind).value.state)
  {
    var amount := Payable(s, in_, actor, i, kind).value;
    assert Onward(s.progress[i], Locked(s.progress[i], kind, amount, s.nonce + 1, in_.blockLt));
  }

  lemma StepOnward(s: State, in_: Input)
    requires Valid(s)
    ensures AllOnward(s, After(s, in_))
  {
    if Process(s, in_).Ok? {
      TimeKeepsSound(s, Max(s.lastTime, in_.blockTime));
      var c := Clocked(s, in_.blockTime);
      match in_.message
      case Internal(_, _, _, _, _, _, _, _, _, _) => CallbackOnward(c, in_.here, in_.message);
      case External(actor, methodId, body, _) =>
        if methodId != TOPUP && methodId != FUND && methodId != STATUS {
          if methodId == CLAIM {
            PayOnward(c, in_, actor, body[0], CLAIMS);
          } else if methodId == REFUND {
            PayOnward(c, in_, actor, body[0], REFUNDS);
          }
        }
    }
  }

  lemma {:induction false} RunOnward(s: State, ins: seq<Input>)
    requires Valid(s)
    ensures AllOnward(s, Exec(s, ins))
    decreases |ins|
  {
    if ins != [] {
      ProcessKeepsValid(s, ins[0]);
      StepOnward(s, ins[0]);
      RunOnward(After(s, ins[0]), ins[1..]);
    }
  }

  /**
   * Over every run of a deployed contract, per stream: claims paid and under way stay within the cap, refunds within
   * what the cap leaves, and the contract is never asked to continue from a state it would call broken.
   */
  lemma RunStaysWithinCaps(c: Config, created: u32, ins: seq<Input>, next: Input, i: nat)
    requires ValidConfig(c) && i < c.count
    ensures Valid(Initial(c, created))
    ensures var t := Exec(Initial(c, created), ins);
      var x, p := c.streams[i], t.progress[i];
      && ValidSchedule(x.terms)
      && p.claimed + p.claims.pending <= CapOf(x, p, t.lastTime) <= x.terms.total
      && p.refunded + p.refunds.pending <= (if p.cancelled then x.terms.total - p.cap else 0)
      && Process(t, next) != Err(E_STATE)
  {
    InitialIsValid(c, created);
    var t := Exec(Initial(c, created), ins);
    assert Sound(t, i);
    StreamSolvent(c.streams[i], t.progress[i], t.lastTime, t.nonce);
    ProcessKeepsValid(t, next);
  }

  /** Once a stream is cancelled, no later run moves its cap, and its payee still gets all that had vested. */
  lemma CancellationIsFinal(s: State, ins: seq<Input>, i: nat)
    requires Valid(s) && i < s.config.count && s.progress[i].cancelled
    ensures var t := Exec(s, ins);
      && t.progress[i].cancelled && t.progress[i].cap == s.progress[i].cap
      && ValidSchedule(s.config.streams[i].terms)
      && t.progress[i].cap == Vested(s.config.streams[i].terms, s.progress[i].cutoff)
  {
    RunOnward(s, ins);
    var t := Exec(s, ins);
    assert Onward(s.progress[i], t.progress[i]);
    assert Sound(t, i);
  }

  ghost predicate LanesIdle(p: Progress) {
    p.claims.pending == 0 && p.refunds.pending == 0
  }

  /** Nothing is lost: a funded, cancelled stream with idle lanes and nothing due has paid out exactly its total. */
  lemma CancelledStreamPaysExactly(s: State, i: nat)
    requires Valid(s) && s.funded && i < s.config.count && s.progress[i].cancelled && LanesIdle(s.progress[i])
    ensures Due(s, i, CLAIMS) == Ok(0) && Due(s, i, REFUNDS) == Ok(0) <==>
            s.progress[i].claimed + s.progress[i].refunded == s.config.streams[i].terms.total
  {
    assert Sound(s, i);
  }

  /** So has a stream left to run past its end, to the payee alone. */
  lemma FinishedStreamPaysExactly(s: State, i: nat)
    requires Valid(s) && s.funded && i < s.config.count && !s.progress[i].cancelled && LanesIdle(s.progress[i])
    requires s.lastTime >= s.config.streams[i].terms.end
    ensures Due(s, i, CLAIMS) == Ok(0) <==> s.progress[i].claimed == s.config.streams[i].terms.total
    ensures s.progress[i].refunded == 0
  {
    assert Sound(s, i);
    VestedBoundaries(s.config.streams[i].terms, s.lastTime);
  }

  /** The reply a destination's delivery produces for a payout that was sent. */
  ghost predicate Answers(msg: Message, out: Outbound, here: Address, status: u32) {
    && msg.Internal? && msg.callback.Some?
    && msg.source == out.destination && Some(msg.methodId) == out.callbackMethod && !msg.callbackRequest
    && msg.callback.value.causeAddress == here && msg.callback.value.causeHash != ZERO32
    && msg.callback.value.status == status
    && (if status == 0 then msg.body == out.body && CallbackValue(msg.extra, None)
        else msg.body == [] && CallbackValue(msg.extra, Some(out.principal)))
  }

  lemma {:induction false} LaneAtFinds(c: Config, i: nat, kind: nat, from: nat)
    requires c.count <= MAX_STREAMS && LegalStreams(c.streams, c.count) && from <= i < c.count && kind < 2
    ensures LaneAt(c, Destination(c.streams[i], kind), from) == Some((i, kind))
    decreases i - from
  {
    assert LegalStream(c.streams[i]);
    if from < i {
      assert NewStream(c.streams, i);
      assert Apart(c.streams[from], c.streams[i]);
      LaneAtFinds(c, i, kind, from + 1);
    }
  }

  lemma PaySends(s: State, in_: Input, actor: Id32, i: nat, kind: nat)
    requires Valid(s) && s.funded && i < s.config.count && kind < 2 && Payable(s, in_, actor, i, kind).Ok?
    ensures var amount, sent := Payable(s, in_, actor, i, kind).value, Pay(s, in_, actor, i, kind);
      && sent.Ok? && sent.value.state == Dispatched(s, i, kind, amount, in_.blockLt)
      && sent.value.reply.sends == [Payout(s.config, i, kind, s.nonce + 1, amount)]
  {
  }

  /** Sending takes the whole amount due, so nothing more is due on that lane until it settles. */
  lemma SendingEmptiesDue(s: State, in_: Input, actor: Id32, i: nat, kind: nat)
    requires Valid(s) && s.funded && i < s.config.count && kind < 2 && Payable(s, in_, actor, i, kind).Ok?
    ensures var amount := Payable(s, in_, actor, i, kind).value;
      var t := Dispatched(s, i, kind, amount, in_.blockLt);
      && Valid(t) && Due(t, i, kind) == Ok(0)
      && LaneOf(t.progress[i], kind).pending == amount && PaidOf(t.progress[i], kind) == PaidOf(s.progress[i], kind)
  {
    DispatchedIsValid(s, i, kind, Payable(s, in_, actor, i, kind).value, in_.blockLt);
    assert Sound(s, i);
  }

  /** Settling moves the lane's amount to what was paid, or back to what is due. */
  lemma SettlingMovesTheAmount(t: State, i: nat, kind: nat, success: bool, lt: u64, hash: Id32)
    requires Valid(t) && i < t.config.count && kind < 2 && lt != 0 && hash != ZERO32
    requires LaneOf(t.progress[i], kind).pending != 0 && Due(t, i, kind) == Ok(0)
    ensures var u, amount := SettledState(t, i, kind, success, lt, hash), LaneOf(t.progress[i], kind).pending;
      && Valid(u) && LaneOf(u.progress[i], kind).pending == 0
      && PaidOf(u.progress[i], kind) == PaidOf(t.progress[i], kind) + (if success then amount else 0)
      && Due(u, i, kind) == Ok(if success then 0 else amount)
  {
    SettledIsValid(t, i, kind, success, lt, hash);
    PendingMeansFunded(t, i, kind);
    assert Sound(t, i);
  }

  /** The callback that answers the payout in a lane is always accepted. */
  lemma AnswerAccepted(t: State, i: nat, kind: nat, here: Address, msg: Message, status: u32)
    requires Valid(t) && i < t.config.count && kind < 2 && LaneOf(t.progress[i], kind).pending != 0
    requires var l := LaneOf(t.progress[i], kind);
      Answers(msg, Payout(t.config, i, kind, l.nonce, l.pending), here, status)
    requires msg.createdLt > LaneOf(t.progress[i], kind).afterLt
    requires msg.callback.value.causeHash != LaneOf(t.progress[i], kind).lastHash
    ensures Callback(t, here, msg).Ok?
    ensures Callback(t, here, msg).value.state ==
            SettledState(t, i, kind, status == 0, msg.createdLt, msg.callback.value.causeHash)
  {
    assert Sound(t, i);
    LaneAtFinds(t.config, i, kind, 0);
  }

  /**
   * A payout meets its answer: the callback for the payout just sent is always accepted. Success moves exactly the
   * sent amount to claimed or refunded; failure leaves the amount due as if the payout had never been sent.
   */
  lemma PayoutSettlesOrRollsBack(s: State, in_: Input, actor: Id32, i: nat, kind: nat, msg: Message, status: u32)
    requires Valid(s) && s.funded && i < s.config.count && kind < 2 && Payable(s, in_, actor, i, kind).Ok?
    requires Answers(msg, Payout(s.config, i, kind, s.nonce + 1, Payable(s, in_, actor, i, kind).value), in_.here,
             status)
    requires msg.createdLt > Max(in_.blockLt, LaneOf(s.progress[i], kind).lastLt)
    requires msg.callback.value.causeHash != LaneOf(s.progress[i], kind).lastHash
    ensures var amount, sent := Payable(s, in_, actor, i, kind).value, Pay(s, in_, actor, i, kind);
      && sent.Ok? && sent.value.reply.sends == [Payout(s.config, i, kind, s.nonce + 1, amount)]
      && Callback(sent.value.state, in_.here, msg).Ok?
      && var u := Callback(sent.value.state, in_.here, msg).value.state;
      && Valid(u) && LaneOf(u.progress[i], kind).pending == 0
      && PaidOf(u.progress[i], kind) == PaidOf(s.progress[i], kind) + (if status == 0 then amount else 0)
      && Due(u, i, kind) == Ok(if status == 0 then 0 else amount)
  {
    var amount := Payable(s, in_, actor, i, kind).value;
    var t := Dispatched(s, i, kind, amount, in_.blockLt);
    PaySends(s, in_, actor, i, kind);
    SendingEmptiesDue(s, in_, actor, i, kind);
    LockedLane(s.progress[i], kind, amount, s.nonce + 1, in_.blockLt);
    AnswerAccepted(t, i, kind, in_.here, msg, status);
    SettlingMovesTheAmount(t, i, kind, status == 0, msg.createdLt, msg.callback.value.causeHash);
  }

  lemma LockedLane(p: Progress, kind: nat, amount: u128, nonce: u64, blockLt: u64)
    ensures var l, m := LaneOf(p, kind), LaneOf(Locked(p, kind, amount, nonce, blockLt), kind);
            m.pending == amount && m.nonce == nonce && m.afterLt == Max(blockLt, l.lastLt) && m.lastHash == l.lastHash
  {
  }
}
