/** Safety of whole escrow runs: any messages in any order. */
module EscrowRuns {
  import opened Bytes
  import opened Sdk
  import opened Sums
  import opened EscrowState
  import opened EscrowSpec

  ghost function After(s: State, in_: Input): State
    requires Valid(s)
  {
    match Process(s, in_)
    case Ok(o) => o.state
    case Err(_) => s
  }

  /** What one message made the escrow send. */
  ghost function Sent(s: State, in_: Input): seq<Outbound>
    requires Valid(s)
  {
    match Process(s, in_)
    case Ok(o) => o.reply.sends
    case Err(_) => []
  }

  ghost function Exec(s: State, ins: seq<Input>): (t: State)
    requires Valid(s)
    ensures Valid(t) && t.config == s.config
    decreases |ins|
  {
    if ins == [] then s else Exec(After(s, ins[0]), ins[1..])
  }

  /** Everything a run sent, in order. */
  ghost function AllSent(s: State, ins: seq<Input>): seq<Outbound>
    requires Valid(s)
    decreases |ins|
  {
    if ins == [] then [] else Sent(s, ins[0]) + AllSent(After(s, ins[0]), ins[1..])
  }

  predicate Terminal(phase: byte) { phase == PAID || phase == REFUNDED }

  /** A milestone moves along open, submitted, approved, paid, or from unapproved to refunded; what is settled stays. */
  predicate Forward(p: byte, q: byte) {
    && p <= q
    && (Terminal(p) ==> q == p)
    && (q == REFUNDED && p != REFUNDED ==> In(Refundable, p))
    && (q == PAID ==> p != REFUNDED)
  }

  ghost predicate AllForward(s: State, t: State) {
    && (forall i | 0 <= i < MAX_MILESTONES :: Forward(s.phases[i], t.phases[i]))
    && s.attempts <= t.attempts
    && (s.funded != 0 ==> t.funded == s.funded)
    && |s.receipts| <= |t.receipts| && t.receipts[..|s.receipts|] == s.receipts
  }

  lemma CallbackForward(s: State, here: Address, msg: Message)
    requires Valid(s) && msg.Internal? && msg.callback.Some? && Callback(s, here, msg).Ok?
    ensures AllForward(s, Callback(s, here, msg).value.state)
  {
    var t := Callback(s, here, msg).value.state;
    forall i | 0 <= i < MAX_MILESTONES ensures Forward(s.phases[i], t.phases[i]) {
      assert i < s.config.count ==> SoundMilestone(s.phases[i], s.hashes[i]);
    }
  }

  lemma StepForward(s: State, in_: Input)
    requires Valid(s)
    ensures AllForward(s, After(s, in_))
    ensures After(s, in_).attempts == s.attempts + |Sent(s, in_)|
  {
    match in_.message
    case Internal(_, _, _, _, _, _, callback, _, _, _) =>
      if callback.Some? && Process(s, in_).Ok? {
        CallbackForward(s, in_.here, in_.message);
      }
    case External(actor, methodId, body, extra) =>
      ExternalForward(s, in_);
  }

  /** Outside callbacks, only one milestone moves, one step, and sending is what counts an attempt. */
  lemma ExternalForward(s: State, in_: Input)
    requires Valid(s) && in_.message.External?
    ensures AllForward(s, After(s, in_))
    ensures After(s, in_).attempts == s.attempts + |Sent(s, in_)|
  {
    hide InBucket, Distinct, SoundMilestones, ValidConfig;
    if Process(s, in_).Ok? {
      var (actor, body) := (in_.message.actor, in_.message.body);
      if in_.message.methodId == SUBMIT {
        SubmitForward(s, in_.blockTime, actor, body);
      } else if in_.message.methodId == APPROVE {
        ApproveForward(s, in_.blockTime, actor, body);
      }
    }
  }

  lemma SubmitForward(s: State, now: u32, actor: Id32, body: seq<byte>)
    requires Valid(s) && s.funded != 0 && s.pending.kind == 0 && Submit(s, now, actor, body).Ok?
    ensures var o := Submit(s, now, actor, body).value;
            AllForward(s, o.state) && o.state.attempts == s.attempts && o.reply.sends == []
  {
  }

  lemma ApproveForward(s: State, now: u32, actor: Id32, body: seq<byte>)
    requires Valid(s) && s.funded != 0 && s.pending.kind == 0 && Approve(s, now, actor, body).Ok?
    ensures var o := Approve(s, now, actor, body).value;
            AllForward(s, o.state) && o.state.attempts == s.attempts && o.reply.sends == []
  {
  }

  lemma ForwardTransitive(s: State, t: State, u: State)
    requires AllForward(s, t) && AllForward(t, u)
    ensures AllForward(s, u)
  {
    forall i | 0 <= i < MAX_MILESTONES ensures Forward(s.phases[i], u.phases[i]) {
      assert Forward(s.phases[i], t.phases[i]) && Forward(t.phases[i], u.phases[i]);
    }
    assert u.receipts[..|s.receipts|] == u.receipts[..|t.receipts|][..|s.receipts|];
  }

  /** Over every run, phases only move forward, settled milestones stay settled, and no receipt is forgotten. */
  lemma {:induction false} RunForward(s: State, ins: seq<Input>)
    requires Valid(s)
    ensures AllForward(s, Exec(s, ins))
    ensures Exec(s, ins).attempts == s.attempts + |AllSent(s, ins)|
    decreases |ins|
  {
    if ins != [] {
      var t := After(s, ins[0]);
      StepForward(s, ins[0]);
      RunForward(t, ins[1..]);
      ForwardTransitive(s, t, Exec(t, ins[1..]));
    }
  }

  /**
   * Over every run of a deployed escrow: once funded, what was paid, refunded and is still owed makes the total;
   * receipts are distinct; at most 64 transfers were ever sent; and no message ever finds a broken state.
   */
  lemma RunConserves(c: Config, ins: seq<Input>, next: Input)
    requires ValidConfig(c)
    ensures Valid(Initial(c))
    ensures var t := Exec(Initial(c), ins);
      && (t.funded != 0 ==> t.paid + t.refunded + InBucket(c, t.phases, Unsettled) == c.total)
      && (t.funded == 0 ==> AllSent(Initial(c), ins) == [])
      && |AllSent(Initial(c), ins)| == t.attempts <= MAX_ATTEMPTS
      && Distinct(t.receipts)
      && Process(t, next) != Err(ERR_STATE)
  {
    InitialIsValid(c);
    RunForward(Initial(c), ins);
    Conserved(Exec(Initial(c), ins));
  }

  lemma NothingRefundable(c: Config, phases: Phases)
    requires AmountsUsed(c)
    ensures InBucket(c, phases, Refundable) == 0 <==> forall i | 0 <= i < c.count :: !In(Refundable, phases[i])
  {
    var column := Column(c.amounts, phases, Refundable);
    if forall i | 0 <= i < c.count :: !In(Refundable, phases[i]) {
      SumZero(column);
    } else {
      var i :| 0 <= i < c.count && In(Refundable, phases[i]);
      SumElementLe(column, i);
    }
  }

  /** A settled refund is final: nothing is refundable right after it, nor after any run that follows. */
  lemma SettledRefundIsFinal(s: State, in_: Input, ins: seq<Input>)
    requires Valid(s) && s.pending.kind == 2
    requires in_.message.Internal? && in_.message.callback.Some? && in_.message.callback.value.status == 0
    requires Process(s, in_).Ok?
    ensures var t := Exec(After(s, in_), ins);
      InBucket(t.config, t.phases, Refundable) == 0
  {
    var u := After(s, in_);
    RefundMovesBuckets(s.config, s.phases);
    NothingRefundable(u.config, u.phases);
    RunForward(u, ins);
    var t := Exec(u, ins);
    forall i | 0 <= i < t.config.count ensures !In(Refundable, t.phases[i]) {
      assert Forward(u.phases[i], t.phases[i]) && SoundMilestone(u.phases[i], u.hashes[i]);
    }
    NothingRefundable(t.config, t.phases);
  }

  /** A milestone once settled is settled the same way after every run, whoever asks for it again. */
  lemma SettledOnce(s: State, ins: seq<Input>, i: nat)
    requires Valid(s) && i < s.config.count && Terminal(s.phases[i])
    ensures Exec(s, ins).phases[i] == s.phases[i]
  {
    RunForward(s, ins);
    assert Forward(s.phases[i], Exec(s, ins).phases[i]);
  }

  /** No hash settles two attempts: a receipt already recorded is refused in every later state. */
  lemma ReceiptUsedOnce(s: State, ins: seq<Input>, in_: Input, k: nat)
    requires Valid(s) && k < |s.receipts|
    requires in_.message.Internal? && in_.message.callback.Some?
             && in_.message.callback.value.causeHash == s.receipts[k]
    ensures Process(Exec(s, ins), in_) == Err(ERR_CALLBACK)
  {
    RunForward(s, ins);
    var t := Exec(s, ins);
    assert t.receipts[k] == t.receipts[..|s.receipts|][k];
  }

  /** The answer the host owes for the transfer under way, with a hash not seen before, is always accepted. */
  lemma AnswerAccepted(s: State, here: Address, msg: Message, status: u32, change: seq<Currency>)
    requires Valid(s) && s.pending.kind != 0 && OnlyShell(change)
    requires msg.Internal? && msg.callback.Some? && msg.methodId == CALLBACK && msg.source == Recipient(s)
             && !msg.callbackRequest
    requires msg.callback.value.causeAddress == here && msg.callback.value.status == status
    requires msg.callback.value.causeHash != ZERO32 && msg.callback.value.causeHash !in s.receipts
    requires if status == 0 then msg.body == Transfer(s).body && msg.extra == change
             else msg.body == [] && msg.extra == [Currency(PRINCIPAL, s.pending.amount)] + change
    ensures Callback(s, here, msg).Ok?
    ensures var t := Callback(s, here, msg).value.state;
      && t.pending == IDLE && t.receipts == s.receipts + [msg.callback.value.causeHash]
      && t.paid + t.refunded == s.paid + s.refunded + (if status == 0 then s.pending.amount else 0)
      && (status != 0 ==> t == s.(pending := IDLE, receipts := t.receipts))
  {
    if status != 0 {
      assert msg.extra[0] == Currency(PRINCIPAL, s.pending.amount);
    }
  }
}
