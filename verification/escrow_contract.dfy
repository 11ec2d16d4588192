/** The escrow as it runs: fields updated in place, checked arithmetic, full validation before each reply. */
module EscrowContract {
  import opened Bytes
  import opened Sdk
  import opened Sums
  import opened EscrowState
  import opened EscrowSpec

  /** The method answered with `r` and left state `t`, exactly as `spec` says; a failure leaves the state alone. */
  ghost predicate Refines(s: State, spec: Result<Outcome>, t: State, r: Result<Reply>) {
    match spec
    case Ok(o) => r == Ok(o.reply) && t == o.state
    case Err(code) => r == Err(code) && t == s
  }

  /** The checked running sum of all milestone amounts. */
  method AmountsTotal(amounts: Amounts) returns (r: Option<u128>)
    ensures r == if Sum(amounts) < U128_END then Some(Sum(amounts)) else None
  {
    var v: u128 := 0;
    for i := 0 to MAX_MILESTONES
      invariant v == Sum(amounts[..i])
    {
      SumPrefix(amounts, i);
      SumPrefixLe(amounts, i + 1);
      var next := CheckedAdd(v, amounts[i]);
      if next.None? {
        return None;
      }
      v := next.value;
    }
    assert amounts[..MAX_MILESTONES] == amounts;
    return Some(v);
  }

  /** The checks `Config::decode` ends with. */
  method CheckConfig(c: Config) returns (r: Result<()>)
    ensures r == if ValidConfig(c) then Ok(()) else Err(ERR_ARGS)
  {
    if c.count == 0 || c.count > MAX_MILESTONES || c.owner == ZERO32 || c.worker == ZERO32 || c.owner == c.worker
       || !NonzeroAddress(c.payTo) || !NonzeroAddress(c.refundTo) || c.payTo == c.refundTo
       || c.total == 0 || c.deadline == 0 || c.fuelReserve == 0
    {
      return Err(ERR_ARGS);
    }
    for i := 0 to MAX_MILESTONES
      invariant forall k | 0 <= k < i :: (c.amounts[k] != 0 <==> k < c.count)
    {
      if (c.amounts[i] != 0) != (i < c.count) {
        return Err(ERR_ARGS);
      }
    }
    var sum := AmountsTotal(c.amounts);
    if sum != Some(c.total) {
      return Err(ERR_ARGS);
    }
    return Ok(());
  }

  method CheckReceipts(receipts: seq<Id32>) returns (ok: bool)
    ensures ok <==> Distinct(receipts)
  {
    for i := 0 to |receipts|
      invariant Distinct(receipts[..i])
    {
      if receipts[i] == ZERO32 || receipts[i] in receipts[..i] {
        assert !Distinct(receipts);
        return false;
      }
    }
    assert receipts[..|receipts|] == receipts;
    return true;
  }

  class Escrow {
    var config: Config
    var funded: u128
    var paid: u128
    var refunded: u128
    var attempts: u64
    var pending: Pending
    var phases: Phases
    var hashes: Hashes
    var receipts: seq<Id32>

    ghost function Value(): State
      reads this
    {
      State(config, funded, paid, refunded, attempts, pending, phases, hashes, receipts)
    }

    constructor (s: State)
      ensures Value() == s
    {
      config := s.config;
      funded := s.funded;
      paid := s.paid;
      refunded := s.refunded;
      attempts := s.attempts;
      pending := s.pending;
      phases := s.phases;
      hashes := s.hashes;
      receipts := s.receipts;
    }

    /** `State::refundable`: a fold over the milestones nobody has approved. */
    method RefundableAmount() returns (r: Result<u128>)
      requires ValidConfig(config)
      ensures r.Ok? && r.value == InBucket(config, phases, Refundable)
    {
      ghost var column := Column(config.amounts, phases, Refundable);
      BucketsCover(config, phases);
      var sum: u128 := 0;
      for i := 0 to config.count
        invariant sum == Sum(column[..i])
      {
        SumPrefix(column, i);
        SumPrefixLe(column, i + 1);
        if phases[i] == OPEN || phases[i] == SUBMITTED {
          var next := CheckedAdd(sum, config.amounts[i]);
          if next.None? {
            return Err(ERR_STATE);
          }
          sum := next.value;
        }
      }
      SumZeroTail(column, config.count);
      return Ok(sum);
    }

    /** The checks that come before the milestone loop. */
    method CheckFixed() returns (ok: bool)
      requires ValidConfig(config)
      ensures ok <==> SoundReceipts(Value()) && SoundFunding(Value())
                      && forall i | config.count as int <= i < MAX_MILESTONES ::
                           phases[i] == OPEN && hashes[i] == ZERO32
    {
      var distinct := CheckReceipts(receipts);
      if attempts > MAX_ATTEMPTS || |receipts| + (if pending.kind != 0 then 1 else 0) != attempts || !distinct
         || (funded != 0 && funded != config.total)
         || (funded == 0 && (attempts != 0 || phases != seq(MAX_MILESTONES, _ => OPEN)))
      {
        return false;
      }
      for i: nat := config.count to MAX_MILESTONES
        invariant forall k | config.count as int <= k < i :: phases[k] == OPEN && hashes[k] == ZERO32
      {
        if phases[i] != OPEN || hashes[i] != ZERO32 {
          return false;
        }
      }
      return true;
    }

    ghost predicate SoundUpTo(n: nat)
      requires n <= MAX_MILESTONES
      reads this
    {
      forall k | 0 <= k < n :: SoundMilestone(phases[k], hashes[k])
    }

    method CheckMilestone(i: nat) returns (ok: bool)
      requires i < MAX_MILESTONES
      ensures ok <==> SoundMilestone(phases[i], hashes[i])
    {
      var p := phases[i];
      return !(p > REFUNDED || (p == OPEN && hashes[i] != ZERO32)
               || ((p == SUBMITTED || p == APPROVED || p == PAID) && hashes[i] == ZERO32));
    }

    /** The amounts of the first `n` milestones in one bucket. */
    ghost function BucketUpTo(bucket: Bucket, n: nat): nat
      requires n <= MAX_MILESTONES
      reads this
    {
      Sum(Column(config.amounts, phases, bucket)[..n])
    }

    lemma BucketNext(bucket: Bucket, i: nat)
      requires ValidConfig(config) && i < MAX_MILESTONES && bucket != Unsettled
      ensures BucketUpTo(bucket, i + 1) < U128_END
      ensures BucketUpTo(bucket, i + 1) ==
              BucketUpTo(bucket, i) + (if In(bucket, phases[i]) then config.amounts[i] else 0)
    {
      var column := Column(config.amounts, phases, bucket);
      BucketsCover(config, phases);
      SumPrefix(column, i);
      SumPrefixLe(column, i + 1);
    }

    lemma BucketWhole(bucket: Bucket, n: nat)
      requires n <= MAX_MILESTONES && (bucket == PaidOut || bucket == PaidBack)
      requires forall i | n <= i < MAX_MILESTONES :: phases[i] == OPEN
      ensures BucketUpTo(bucket, n) == InBucket(config, phases, bucket)
    {
      SumZeroTail(Column(config.amounts, phases, bucket), n);
    }

    /** The milestone loop: phase by phase, with the sums of what was paid out and back. */
    method CheckMilestones() returns (r: Option<(u128, u128)>)
      requires ValidConfig(config)
      ensures r.Some? <==> SoundUpTo(config.count)
      ensures r.Some? && (forall i | config.count as int <= i < MAX_MILESTONES :: phases[i] == OPEN) ==>
                r.value == (InBucket(config, phases, PaidOut), InBucket(config, phases, PaidBack))
    {
      hide SoundMilestone, BucketUpTo, InBucket;
      NothingYet();
      var x: u128, y: u128 := 0, 0;
      for i := 0 to config.count
        invariant SoundUpTo(i)
        invariant x == BucketUpTo(PaidOut, i) && y == BucketUpTo(PaidBack, i)
      {
        var p := phases[i];
        var sound := CheckMilestone(i);
        if !sound {
          return None;
        }
        BucketNext(PaidOut, i);
        BucketNext(PaidBack, i);
        if p == PAID {
          var next := CheckedAdd(x, config.amounts[i]);
          if next.None? {
            return None;
          }
          x := next.value;
        }
        if p == REFUNDED {
          var next := CheckedAdd(y, config.amounts[i]);
          if next.None? {
            return None;
          }
          y := next.value;
        }
      }
      if forall i | config.count as int <= i < MAX_MILESTONES :: phases[i] == OPEN {
        BucketWhole(PaidOut, config.count);
        BucketWhole(PaidBack, config.count);
      }
      return Some((x, y));
    }

    lemma NothingYet()
      ensures BucketUpTo(PaidOut, 0) == BucketUpTo(PaidBack, 0) == 0
    {
    }

    method CheckPending() returns (ok: bool)
      requires ValidConfig(config)
      ensures ok <==> SoundPending(Value())
    {
      var p := pending;
      if p.kind == 0 {
        return p == IDLE;
      }
      if p.kind == 1 {
        if p.index >= config.count || phases[p.index] != APPROVED || p.amount != config.amounts[p.index] {
          return false;
        }
      } else if p.kind == 2 {
        if p.index != 255 || p.amount == 0 {
          return false;
        }
        var refundable := RefundableAmount();
        if refundable.Err? || p.amount != refundable.value {
          return false;
        }
      } else {
        return false;
      }
      return p.attempt == attempts && funded != 0;
    }

    /** `State::validate` accepts exactly the valid states; its bound on what was settled never decides. */
    method Validate() returns (r: Result<()>)
      requires ValidConfig(config)
      ensures r == if Valid(Value()) then Ok(()) else Err(ERR_STATE)
    {
      var fixed := CheckFixed();
      if !fixed {
        return Err(ERR_STATE);
      }
      var sums := CheckMilestones();
      if sums.None? {
        return Err(ERR_STATE);
      }
      var (x, y) := sums.value;
      SettledWithinFunded(Value());
      var settled := CheckedAdd(x, y);
      if x != paid || y != refunded || settled.None? || settled.value > funded {
        return Err(ERR_STATE);
      }
      var sound := CheckPending();
      if !sound {
        return Err(ERR_STATE);
      }
      return Ok(());
    }

    lemma SettledWithinFunded(s: State)
      requires ValidConfig(s.config) && SoundFunding(s)
      ensures InBucket(s.config, s.phases, PaidOut) + InBucket(s.config, s.phases, PaidBack) <= s.funded < U128_END
    {
      BucketsCover(s.config, s.phases);
      if s.funded == 0 {
        NothingSettled(s.config, s.phases);
      }
    }

    /** `finish`: on a valid state the re-validation cannot fail. */
    method Finish(index: byte, amount: u128) returns (r: Result<Reply>)
      requires Valid(Value())
      ensures r == Ok(Reply(EventOf(Value(), index, amount), []))
    {
      var _ :- Validate();
      return Ok(Reply(Event(amount, attempts, funded, index, paid, pending.amount, refunded), []));
    }

    method FundCall(in_: Input, actor: Id32, body: seq<byte>, extra: seq<Currency>) returns (r: Result<Reply>)
      requires Valid(Value()) && pending.kind == 0
      modifies this
      ensures Refines(old(Value()), Fund(old(Value()), in_, actor, body, extra), Value(), r)
    {
      if body != [] {
        return Err(ERR_ARGS);
      }
      if actor != config.owner {
        return Err(ERR_AUTH);
      }
      if in_.blockTime >= config.deadline {
        return Err(ERR_DEADLINE);
      }
      if funded != 0 {
        return Err(ERR_PHASE);
      }
      if Principal(extra) != config.total || |extra| != 1 {
        return Err(ERR_VALUE);
      }
      if Principal(in_.balance) < config.total {
        return Err(ERR_BALANCE);
      }
      funded := config.total;
      r := Finish(255, Principal(extra));
    }

    method SubmitCall(now: u32, actor: Id32, body: seq<byte>) returns (r: Result<Reply>)
      requires Valid(Value()) && funded != 0 && pending.kind == 0
      modifies this
      ensures Refines(old(Value()), Submit(old(Value()), now, actor, body), Value(), r)
    {
      if actor != config.worker {
        return Err(ERR_AUTH);
      }
      if now >= config.deadline {
        return Err(ERR_DEADLINE);
      }
      if |body| != 33 || body[0] >= config.count {
        return Err(ERR_ARGS);
      }
      var i: nat := body[0];
      var hash := body[1..];
      if hash == ZERO32 {
        return Err(ERR_ARGS);
      }
      if phases[i] != OPEN && phases[i] != SUBMITTED {
        return Err(ERR_PHASE);
      }
      OwedMoveIsValid(Value(), i, SUBMITTED, hash);
      phases := phases[i := SUBMITTED];
      hashes := hashes[i := hash];
      r := Finish(i, 0);
    }

    method ApproveCall(now: u32, actor: Id32, body: seq<byte>) returns (r: Result<Reply>)
      requires Valid(Value()) && funded != 0 && pending.kind == 0
      modifies this
      ensures Refines(old(Value()), Approve(old(Value()), now, actor, body), Value(), r)
    {
      if actor != config.owner {
        return Err(ERR_AUTH);
      }
      if now >= config.deadline {
        return Err(ERR_DEADLINE);
      }
      if |body| != 33 || body[0] >= config.count {
        return Err(ERR_ARGS);
      }
      var i: nat := body[0];
      if phases[i] != SUBMITTED {
        return Err(ERR_PHASE);
      }
      if body[1..] != hashes[i] {
        return Err(ERR_ARGS);
      }
      OwedMoveIsValid(Value(), i, APPROVED, hashes[i]);
      assert hashes[i := hashes[i]] == hashes;
      phases := phases[i := APPROVED];
      r := Finish(i, 0);
    }

    /** `dispatch`: within the attempt budget, lock the transfer and send it. */
    method DispatchCall(in_: Input, kind: byte, index: byte, amount: u128) returns (r: Result<Reply>)
      requires MayDispatch(Value(), kind, index, amount)
      modifies this
      ensures Refines(old(Value()), Dispatch(old(Value()), in_, kind, index, amount), Value(), r)
    {
      hide InBucket, SoundMilestones;
      if attempts >= MAX_ATTEMPTS {
        return Err(ERR_LIMIT);
      }
      Conserved(Value());
      var kept: u128 := funded - paid - refunded;
      if Principal(in_.balance) < kept {
        return Err(ERR_BALANCE);
      }
      if !HasShell(in_.balance, config.fuelReserve) {
        return Err(ERR_BALANCE);
      }
      attempts := attempts + 1;
      pending := Pending(kind, index, amount, attempts);
      var destination := if kind == 1 then config.payTo else config.refundTo;
      var out :- Finish(index, amount);
      var transfer := Outbound(destination, config.fuelReserve, amount, RECEIVE, PaymentBody(pending), Some(CALLBACK));
      return Ok(out.(sends := [transfer]));
    }

    method PayCall(in_: Input, actor: Id32, body: seq<byte>) returns (r: Result<Reply>)
      requires Valid(Value()) && funded != 0 && pending.kind == 0
      modifies this
      ensures Refines(old(Value()), Pay(old(Value()), in_, actor, body), Value(), r)
    {
      if actor != config.owner && actor != config.worker {
        return Err(ERR_AUTH);
      }
      if |body| != 1 || body[0] >= config.count {
        return Err(ERR_ARGS);
      }
      if phases[body[0]] != APPROVED {
        return Err(ERR_PHASE);
      }
      r := DispatchCall(in_, 1, body[0], config.amounts[body[0]]);
    }

    method RefundCall(in_: Input, actor: Id32, body: seq<byte>) returns (r: Result<Reply>)
      requires Valid(Value()) && funded != 0 && pending.kind == 0
      modifies this
      ensures Refines(old(Value()), Refund(old(Value()), in_, actor, body), Value(), r)
    {
      if actor != config.owner {
        return Err(ERR_AUTH);
      }
      if body != [] {
        return Err(ERR_ARGS);
      }
      if in_.blockTime < config.deadline {
        return Err(ERR_DEADLINE);
      }
      var amount :- RefundableAmount();
      if amount == 0 {
        return Err(ERR_PHASE);
      }
      r := DispatchCall(in_, 2, 255, amount);
    }

    /** The loop that marks everything unapproved as refunded. */
    method MarkRefunded() returns (marked: Phases)
      requires config.count <= MAX_MILESTONES
      ensures marked == RefundedPhases(config, phases)
    {
      marked := phases;
      for i := 0 to config.count
        invariant forall k | 0 <= k < i :: marked[k] == RefundedPhases(config, phases)[k]
        invariant forall k | i <= k < MAX_MILESTONES :: marked[k] == phases[k]
      {
        if marked[i] == OPEN || marked[i] == SUBMITTED {
          marked := marked[i := REFUNDED];
        }
      }
    }

    /** The assignments of an accepted callback. */
    method Settle(success: bool, hash: Id32) returns (r: Result<()>)
      requires Valid(Value()) && pending.kind != 0
      modifies this
      ensures r == Ok(()) && Value() == Settled(old(Value()), success, hash)
    {
      PaidFits(Value());
      if success {
        if pending.kind == 1 {
          phases := phases[pending.index := PAID];
          var next := CheckedAdd(paid, pending.amount);
          if next.None? {
            return Err(ERR_STATE);
          }
          paid := next.value;
        } else {
          phases := MarkRefunded();
          var next := CheckedAdd(refunded, pending.amount);
          if next.None? {
            return Err(ERR_STATE);
          }
          refunded := next.value;
        }
      }
      receipts := receipts + [hash];
      pending := IDLE;
      return Ok(());
    }

    method CallbackCall(here: Address, msg: Message) returns (r: Result<Reply>)
      requires Valid(Value()) && msg.Internal? && msg.callback.Some?
      modifies this
      ensures Refines(old(Value()), Callback(old(Value()), here, msg), Value(), r)
    {
      var h := msg.callback.value;
      var p := pending;
      var recipient := if p.kind == 1 then config.payTo else config.refundTo;
      if p.kind == 0 || msg.methodId != CALLBACK || msg.source != recipient || h.causeAddress != here
         || h.causeHash == ZERO32 || h.causeHash in receipts || msg.callbackRequest || !KnownCurrencies(msg.extra)
      {
        return Err(ERR_CALLBACK);
      }
      var success := h.status == 0;
      if success {
        if !OnlyShell(msg.extra) || msg.body != PaymentBody(p) {
          return Err(ERR_CALLBACK);
        }
      } else if Principal(msg.extra) != p.amount || msg.body != [] {
        return Err(ERR_CALLBACK);
      }
      SettledIsValid(Value(), success, h.causeHash);
      var _ :- Settle(success, h.causeHash);
      r := Finish(p.index, p.amount);
    }

    /** The entrypoint after decoding. */
    method ProcessMessage(in_: Input) returns (r: Result<Reply>)
      requires Valid(Value())
      modifies this
      ensures Refines(old(Value()), Process(old(Value()), in_), Value(), r)
    {
      match in_.message
      case Internal(_, _, _, _, _, _, callback, _, _, _) =>
        if callback.Some? {
          r := CallbackCall(in_.here, in_.message);
        } else {
          r := Err(ERR_AUTH);
        }
      case External(actor, methodId, body, extra) =>
        if methodId == STATUS {
          if body != [] {
            return Err(ERR_ARGS);
          }
          if extra != [] {
            return Err(ERR_VALUE);
          }
          r := Finish(255, 0);
        } else if methodId == TOPUP {
          if body != [] {
            return Err(ERR_ARGS);
          }
          if extra == [] || !OnlyShell(extra) || !NoZeroAmounts(extra) {
            return Err(ERR_VALUE);
          }
          r := Finish(255, 0);
        } else if pending.kind != 0 {
          r := Err(ERR_PENDING);
        } else if methodId == FUND {
          r := FundCall(in_, actor, body, extra);
        } else if extra != [] {
          r := Err(ERR_VALUE);
        } else if funded == 0 {
          r := Err(ERR_PHASE);
        } else if methodId == SUBMIT {
          r := SubmitCall(in_.blockTime, actor, body);
        } else if methodId == APPROVE {
          r := ApproveCall(in_.blockTime, actor, body);
        } else if methodId == PAY {
          r := PayCall(in_, actor, body);
        } else if methodId == REFUND {
          r := RefundCall(in_, actor, body);
        } else {
          r := Err(ERR_ARGS);
        }
    }
  }
}
