/** What each message to the escrow means, as functions on states. */
module EscrowSpec {
  import opened Bytes
  import opened Sdk
  import opened Sums
  import opened EscrowState

  const FUND: u64 := 0xc3a7a41d8d4c90a8
  const SUBMIT: u64 := 0x054f8b90c305da8c
  const APPROVE: u64 := 0x23db96fd54277c79
  const PAY: u64 := 0x5dcaae75e94d2d7e
  const REFUND: u64 := 0x8be8755cbb65918a
  const CALLBACK: u64 := 0x0abddfd8d4552187
  const STATUS: u64 := 0x937ea1663d7fddb7
  const TOPUP: u64 := 0x87655bb82b51d673
  const RECEIVE: u64 := 0xb914fe67cce93577
  const BIND: u64 := 0x4ce368a64e18d258
  const REJECT: u64 := 0x95bd52c9e37338ec

  const BEP1: seq<byte> := [0x42, 0x45, 0x50, 0x31]

  datatype Event = Event(amount: u128, attempt: u64, funded: u128, index: byte, paid: u128, pending: u128,
                         refunded: u128)

  datatype Reply = Reply(event: Event, sends: seq<Outbound>)

  datatype Outcome = Outcome(state: State, reply: Reply)

  function EventOf(s: State, index: byte, amount: u128): Event {
    Event(amount, s.attempts, s.funded, index, s.paid, s.pending.amount, s.refunded)
  }

  function Finished(s: State, index: byte, amount: u128): Result<Outcome> {
    Ok(Outcome(s, Reply(EventOf(s, index, amount), [])))
  }

  ghost predicate Keeps(s: State, r: Result<Outcome>) {
    r.Ok? ==> Valid(r.value.state) && r.value.state.config == s.config
  }

  predicate OnlyShell(extra: seq<Currency>) {
    forall k | 0 <= k < |extra| :: extra[k].id == SHELL
  }

  predicate NoZeroAmounts(extra: seq<Currency>) {
    forall k | 0 <= k < |extra| :: extra[k].amount != 0
  }

  predicate KnownCurrencies(extra: seq<Currency>) {
    forall k | 0 <= k < |extra| :: extra[k].id == SHELL || extra[k].id == PRINCIPAL
  }

  ghost function Fund(s: State, in_: Input, actor: Id32, body: seq<byte>, extra: seq<Currency>): (r: Result<Outcome>)
    requires Valid(s) && s.pending.kind == 0
    ensures Keeps(s, r)
  {
    if body != [] then Err(ERR_ARGS)
    else if actor != s.config.owner then Err(ERR_AUTH)
    else if in_.blockTime >= s.config.deadline then Err(ERR_DEADLINE)
    else if s.funded != 0 then Err(ERR_PHASE)
    else if Principal(extra) != s.config.total || |extra| != 1 then Err(ERR_VALUE)
    else if Principal(in_.balance) < s.config.total then Err(ERR_BALANCE)
    else Finished(s.(funded := s.config.total), 255, Principal(extra))
  }

  /** Moving one milestone between phases that both still owe its amount keeps the books. */
  lemma OwedMoveIsValid(s: State, i: nat, phase: byte, hash: Id32)
    requires Valid(s) && s.funded != 0 && s.pending.kind == 0 && i < s.config.count
    requires In(Unsettled, s.phases[i]) && In(Unsettled, phase) && SoundMilestone(phase, hash)
    ensures Valid(s.(phases := s.phases[i := phase], hashes := s.hashes[i := hash]))
  {
    PhaseUpdate(s.config, s.phases, i, phase, PaidOut);
    PhaseUpdate(s.config, s.phases, i, phase, PaidBack);
  }

  ghost function Submit(s: State, now: u32, actor: Id32, body: seq<byte>): (r: Result<Outcome>)
    requires Valid(s) && s.funded != 0 && s.pending.kind == 0
    ensures Keeps(s, r)
  {
    if actor != s.config.worker then Err(ERR_AUTH)
    else if now >= s.config.deadline then Err(ERR_DEADLINE)
    else if |body| != 33 || body[0] >= s.config.count || body[1..] == ZERO32 then Err(ERR_ARGS)
    else
      var i: nat := body[0];
      if !In(Refundable, s.phases[i]) then Err(ERR_PHASE) else
        OwedMoveIsValid(s, i, SUBMITTED, body[1..]);
        Finished(s.(phases := s.phases[i := SUBMITTED], hashes := s.hashes[i := body[1..]]), i, 0)
  }

  /** The owner approves exactly the delivery on record. */
  ghost function Approve(s: State, now: u32, actor: Id32, body: seq<byte>): (r: Result<Outcome>)
    requires Valid(s) && s.funded != 0 && s.pending.kind == 0
    ensures Keeps(s, r)
  {
    if actor != s.config.owner then Err(ERR_AUTH)
    else if now >= s.config.deadline then Err(ERR_DEADLINE)
    else if |body| != 33 || body[0] >= s.config.count then Err(ERR_ARGS)
    else
      var i: nat := body[0];
      if s.phases[i] != SUBMITTED then Err(ERR_PHASE)
      else if body[1..] != s.hashes[i] then Err(ERR_ARGS)
      else
        OwedMoveIsValid(s, i, APPROVED, s.hashes[i]);
        assert s.hashes[i := s.hashes[i]] == s.hashes;
        Finished(s.(phases := s.phases[i := APPROVED]), i, 0)
  }

  function PaymentBody(p: Pending): (b: seq<byte>)
    ensures |b| == 32
  {
    BEP1 + [p.kind, p.index, 0, 0] + Le64(p.attempt) + Le128(p.amount)
  }

  /** Different transfers never have the same body: it names kind, milestone, attempt and amount. */
  lemma PaymentBodyInjective(p: Pending, q: Pending)
    requires PaymentBody(p) == PaymentBody(q)
    ensures p == q
  {
    var a, b := PaymentBody(p), PaymentBody(q);
    assert a[4] == p.kind && a[5] == p.index && a[8..16] == Le64(p.attempt) && a[16..32] == Le128(p.amount);
    assert b[4] == q.kind && b[5] == q.index && b[8..16] == Le64(q.attempt) && b[16..32] == Le128(q.amount);
    Le64Inverse(p.attempt);
    Le64Inverse(q.attempt);
    Le128Inverse(p.amount);
    Le128Inverse(q.amount);
  }

  function Recipient(s: State): Address { if s.pending.kind == 1 then s.config.payTo else s.config.refundTo }

  function Transfer(s: State): Outbound {
    Outbound(Recipient(s), s.config.fuelReserve, s.pending.amount, RECEIVE, PaymentBody(s.pending), Some(CALLBACK))
  }

  function Dispatched(s: State, kind: byte, index: byte, amount: u128): State
    requires s.attempts + 1 < U64_END
  {
    s.(attempts := s.attempts + 1, pending := Pending(kind, index, amount, s.attempts + 1))
  }

  /** What a transfer may be about. */
  ghost predicate MayDispatch(s: State, kind: byte, index: byte, amount: u128) {
    && Valid(s) && s.funded != 0 && s.pending.kind == 0
    && (|| (kind == 1 && index < s.config.count && s.phases[index] == APPROVED && amount == s.config.amounts[index])
        || (kind == 2 && index == 255 && 0 != amount == InBucket(s.config, s.phases, Refundable)))
  }

  ghost function Dispatch(s: State, in_: Input, kind: byte, index: byte, amount: u128): (r: Result<Outcome>)
    requires MayDispatch(s, kind, index, amount)
    ensures Keeps(s, r)
  {
    if s.attempts >= MAX_ATTEMPTS then Err(ERR_LIMIT)
    else if Principal(in_.balance) < s.funded - s.paid - s.refunded then Err(ERR_BALANCE)
    else if !HasShell(in_.balance, s.config.fuelReserve) then Err(ERR_BALANCE)
    else
      var t := Dispatched(s, kind, index, amount);
      Ok(Outcome(t, Reply(EventOf(t, index, amount), [Transfer(t)])))
  }

  ghost function Pay(s: State, in_: Input, actor: Id32, body: seq<byte>): (r: Result<Outcome>)
    requires Valid(s) && s.funded != 0 && s.pending.kind == 0
    ensures Keeps(s, r)
  {
    if actor != s.config.owner && actor != s.config.worker then Err(ERR_AUTH)
    else if |body| != 1 || body[0] >= s.config.count then Err(ERR_ARGS)
    else if s.phases[body[0]] != APPROVED then Err(ERR_PHASE)
    else Dispatch(s, in_, 1, body[0], s.config.amounts[body[0]])
  }

  ghost function Refund(s: State, in_: Input, actor: Id32, body: seq<byte>): (r: Result<Outcome>)
    requires Valid(s) && s.funded != 0 && s.pending.kind == 0
    ensures Keeps(s, r)
  {
    Conserved(s);
    if actor != s.config.owner then Err(ERR_AUTH)
    else if body != [] then Err(ERR_ARGS)
    else if in_.blockTime < s.config.deadline then Err(ERR_DEADLINE)
    else if InBucket(s.config, s.phases, Refundable) == 0 then Err(ERR_PHASE)
    else Dispatch(s, in_, 2, 255, InBucket(s.config, s.phases, Refundable))
  }

  /** What the escrow demands of a callback before it looks at the outcome. */
  predicate Admissible(s: State, here: Address, msg: Message)
    requires msg.Internal? && msg.callback.Some?
  {
    && s.pending.kind != 0
    && msg.methodId == CALLBACK
    && msg.source == Recipient(s)
    && msg.callback.value.causeAddress == here
    && msg.callback.value.causeHash != ZERO32
    && msg.callback.value.causeHash !in s.receipts
    && !msg.callbackRequest
    && KnownCurrencies(msg.extra)
  }

  predicate Payload(p: Pending, msg: Message)
    requires msg.Internal? && msg.callback.Some?
  {
    if msg.callback.value.status == 0
    then OnlyShell(msg.extra) && msg.body == PaymentBody(p)
    else Principal(msg.extra) == p.amount && msg.body == []
  }

  /** The state once the transfer under way has succeeded. */
  ghost function Paid(s: State): State
    requires Valid(s) && s.pending.kind != 0
  {
    PaidFits(s);
    if s.pending.kind == 1
    then s.(phases := s.phases[s.pending.index := PAID], paid := s.paid + s.pending.amount)
    else s.(phases := RefundedPhases(s.config, s.phases), refunded := s.refunded + s.pending.amount)
  }

  lemma PaidFits(s: State)
    requires Valid(s) && s.pending.kind != 0
    ensures s.paid + s.refunded + s.pending.amount <= s.config.total
  {
    Conserved(s);
    BucketsCover(s.config, s.phases);
    if s.pending.kind == 1 {
      var column := Column(s.config.amounts, s.phases, Unsettled);
      assert column[s.pending.index] == s.pending.amount;
      SumElementLe(column, s.pending.index);
    }
  }

  /** The receipt is recorded and the lock opens; on success the money counts as settled. */
  ghost function Settled(s: State, success: bool, hash: Id32): State
    requires Valid(s) && s.pending.kind != 0
  {
    (if success then Paid(s) else s).(receipts := s.receipts + [hash], pending := IDLE)
  }

  lemma SettledIsValid(s: State, success: bool, hash: Id32)
    requires Valid(s) && s.pending.kind != 0 && hash != ZERO32 && hash !in s.receipts
    ensures Valid(Settled(s, success, hash))
  {
    PaidFits(s);
    if s.pending.kind == 1 {
      PhaseUpdate(s.config, s.phases, s.pending.index, PAID, PaidOut);
      PhaseUpdate(s.config, s.phases, s.pending.index, PAID, PaidBack);
    } else {
      RefundMovesBuckets(s.config, s.phases);
    }
  }

  ghost function Callback(s: State, here: Address, msg: Message): (r: Result<Outcome>)
    requires Valid(s) && msg.Internal? && msg.callback.Some?
    ensures Keeps(s, r)
  {
    if !Admissible(s, here, msg) || !Payload(s.pending, msg) then Err(ERR_CALLBACK)
    else
      var h := msg.callback.value;
      SettledIsValid(s, h.status == 0, h.causeHash);
      Finished(Settled(s, h.status == 0, h.causeHash), s.pending.index, s.pending.amount)
  }

  /** The meaning of one message to an initialised escrow. */
  ghost function Process(s: State, in_: Input): (r: Result<Outcome>)
    requires Valid(s)
    ensures Keeps(s, r)
    ensures r != Err(ERR_STATE)
  {
    match in_.message
    case Internal(_, _, _, _, _, _, callback, _, _, _) =>
      if callback.Some? then Callback(s, in_.here, in_.message) else Err(ERR_AUTH)
    case External(actor, methodId, body, extra) =>
      if methodId == STATUS then
        if body != [] then Err(ERR_ARGS) else if extra != [] then Err(ERR_VALUE) else Finished(s, 255, 0)
      else if methodId == TOPUP then
        if body != [] then Err(ERR_ARGS)
        else if extra == [] || !OnlyShell(extra) || !NoZeroAmounts(extra) then Err(ERR_VALUE)
        else Finished(s, 255, 0)
      else if s.pending.kind != 0 then Err(ERR_PENDING)
      else if methodId == FUND then Fund(s, in_, actor, body, extra)
      else if extra != [] then Err(ERR_VALUE)
      else if s.funded == 0 then Err(ERR_PHASE)
      else if methodId == SUBMIT then Submit(s, in_.blockTime, actor, body)
      else if methodId == APPROVE then Approve(s, in_.blockTime, actor, body)
      else if methodId == PAY then Pay(s, in_, actor, body)
      else if methodId == REFUND then Refund(s, in_, actor, body)
      else Err(ERR_ARGS)
  }
}
