/** What each message to the vesting contract means, as functions on states. */
module VestingSpec {
  import opened Bytes
  import opened Sdk
  import opened VestingCore
  import opened VestingState

  const CLAIMS := 0
  const REFUNDS := 1

  datatype Event = Event(amount: u128, claimed: u128, held: u128, index: byte, kind: byte, nonce: u64,
                         pending: u128, refunded: u128, time: u32)

  datatype Reply = Reply(event: Event, sends: seq<Outbound>)

  datatype Outcome = Outcome(state: State, reply: Reply)

  ghost function EventOf(s: State, index: byte, kind: byte, amount: u128): Event
    requires Valid(s)
  {
    Solvent(s);
    Event(amount, Claimed(s), Held(s), index, kind, s.nonce, Pending(s), Refunded(s), s.lastTime)
  }

  ghost function Finished(s: State, index: byte, kind: byte, amount: u128): Result<Outcome>
    requires Valid(s)
  {
    Ok(Outcome(s, Reply(EventOf(s, index, kind, amount), [])))
  }

  /** A successful call leaves a valid state under the same terms. */
  ghost predicate Keeps(s: State, r: Result<Outcome>) {
    r.Ok? ==>
      var t := r.value.state;
      Valid(t) && t.config == s.config && t.lastTime == s.lastTime && s.nonce <= t.nonce && (s.funded ==> t.funded)
  }

  function Max(a: nat, b: nat): nat { if a < b then b else a }

  /** The state with its clock moved to the block's time, never backwards. */
  function Clocked(s: State, now: u32): State {
    s.(lastTime := Max(s.lastTime, now))
  }

  predicate OnlyNonzeroShell(extra: seq<Currency>) {
    forall k | 0 <= k < |extra| :: extra[k].id == SHELL && extra[k].amount != 0
  }

  /** The value of a message that carries principal and nothing else. */
  function PrincipalValue(extra: seq<Currency>): Option<u128> {
    if |extra| == 1 && extra[0].id == PRINCIPAL then Some(extra[0].amount) else None
  }

  ghost function Topup(s: State, body: seq<byte>, extra: seq<Currency>): (r: Result<Outcome>)
    requires Valid(s)
    ensures Keeps(s, r)
  {
    if body != [] then Err(E_ARGS)
    else if extra == [] || !OnlyNonzeroShell(extra) then Err(E_VALUE)
    else Finished(s, 255, 255, 0)
  }

  ghost predicate Started(c: Config, t: u32)
    requires c.count <= MAX_STREAMS
  {
    exists i | 0 <= i < c.count :: c.streams[i].terms.start <= t
  }

  ghost function Fund(s: State, actor: Id32, body: seq<byte>, extra: seq<Currency>,
                      balance: seq<Currency>): (r: Result<Outcome>)
    requires Valid(s)
    ensures Keeps(s, r)
  {
    if body != [] then Err(E_ARGS)
    else if actor != s.config.owner then Err(E_AUTH)
    else if s.funded || Started(s.config, s.lastTime) then Err(E_PHASE)
    else if PrincipalValue(extra) != Some(Total(s.config)) then Err(E_VALUE)
    else if Principal(balance) < Total(s.config) then Err(E_BALANCE)
    else Finished(s.(funded := true), 255, 255, Total(s.config))
  }

  function Cut(x: Stream, p: Progress, t: u32): Progress
    requires ValidSchedule(x.terms)
  {
    VestedBounded(x.terms, t);
    p.(cancelled := true, cutoff := t, cap := Vested(x.terms, t))
  }

  /** Cancelling freezes the cap at what has vested; it takes nothing back that was claimed or is under way. */
  lemma CutIsSound(x: Stream, p: Progress, t: u32, nonce: u64)
    requires ValidSchedule(x.terms) && SoundProgress(x, p, t, nonce)
    requires x.revocable && !p.cancelled && t < x.terms.end
    ensures SoundProgress(x, Cut(x, p, t), t, nonce)
    ensures CapOf(x, Cut(x, p, t), t) == CapOf(x, p, t)
  {
    VestedBounded(x.terms, t);
  }

  ghost function Cancel(s: State, actor: Id32, i: nat): (r: Result<Outcome>)
    requires Valid(s) && s.funded && i < s.config.count
    ensures Keeps(s, r)
  {
    assert Sound(s, i);
    var x, p := s.config.streams[i], s.progress[i];
    if actor != s.config.owner then Err(E_AUTH)
    else if !x.revocable then Err(E_IRREVOCABLE)
    else if p.cancelled || s.lastTime >= x.terms.end then Err(E_PHASE)
    else
      CutIsSound(x, p, s.lastTime, s.nonce);
      ReplaceKeepsValid(s, i, Cut(x, p, s.lastTime), s.nonce);
      Finished(WithProgress(s, i, Cut(x, p, s.lastTime), s.nonce), i, 255, Cut(x, p, s.lastTime).cap)
  }

  function LaneOf(p: Progress, kind: nat): Lane { if kind == CLAIMS then p.claims else p.refunds }

  function WithLane(p: Progress, kind: nat, l: Lane): Progress {
    if kind == CLAIMS then p.(claims := l) else p.(refunds := l)
  }

  /** What one lane may still send now. */
  function DueOf(x: Stream, p: Progress, t: u32, kind: nat): int
    requires ValidSchedule(x.terms)
  {
    if kind == CLAIMS
    then CapOf(x, p, t) - p.claimed - p.claims.pending
    else x.terms.total - CapOf(x, p, t) - p.refunded - p.refunds.pending
  }

  /** `due`: nothing before funding, and no refunds before cancellation. */
  ghost function Due(s: State, i: nat, kind: nat): (r: Result<u128>)
    requires Valid(s) && i < s.config.count
    ensures r.Ok? && s.funded ==> DueOf(s.config.streams[i], s.progress[i], s.lastTime, kind) == r.value
  {
    assert Sound(s, i);
    var x, p := s.config.streams[i], s.progress[i];
    StreamSolvent(x, p, s.lastTime, s.nonce);
    if !s.funded then Ok(0)
    else if kind != CLAIMS && !p.cancelled then Err(E_PHASE)
    else Ok(DueOf(x, p, s.lastTime, kind))
  }

  function Locked(p: Progress, kind: nat, amount: u128, nonce: u64, blockLt: u64): Progress {
    var l := LaneOf(p, kind);
    WithLane(p, kind, Lane(amount, nonce, Max(blockLt, l.lastLt), l.lastLt, l.lastHash))
  }

  function Destination(x: Stream, kind: nat): Address { if kind == CLAIMS then x.payout else x.refund }

  function Payout(c: Config, i: nat, kind: nat, nonce: u64, amount: u128): Outbound
    requires i < MAX_STREAMS && kind < 2
  {
    Outbound(Destination(c.streams[i], kind), c.fuel, amount, RECEIVE, PaymentBody(i, kind, nonce, amount),
      Some(CALLBACK))
  }

  lemma LockedIsSound(x: Stream, p: Progress, t: u32, kind: nat, nonce: u64, next: u64, blockLt: u64)
    requires ValidSchedule(x.terms) && SoundProgress(x, p, t, nonce) && nonce < next
    requires LaneOf(p, kind).pending == 0 && (kind != CLAIMS ==> p.cancelled)
    requires 0 < DueOf(x, p, t, kind) < U128_END
    ensures SoundProgress(x, Locked(p, kind, DueOf(x, p, t, kind), next, blockLt), t, next)
  {
  }

  /** The state after `amount` moved into the lane under the next nonce. */
  function Dispatched(s: State, i: nat, kind: nat, amount: u128, blockLt: u64): State
    requires i < MAX_STREAMS && s.nonce + 1 < U64_END
  {
    WithProgress(s, i, Locked(s.progress[i], kind, amount, s.nonce + 1, blockLt), s.nonce + 1)
  }

  /** Dispatching keeps the invariant and takes exactly the amount due out of held principal. */
  lemma DispatchedIsValid(s: State, i: nat, kind: nat, amount: u128, blockLt: u64)
    requires Valid(s) && s.funded && i < s.config.count && kind < 2 && s.nonce + 1 < U64_END
    requires LaneOf(s.progress[i], kind).pending == 0
    requires Due(s, i, kind) == Ok(amount) && amount != 0
    ensures Valid(Dispatched(s, i, kind, amount, blockLt))
    ensures Held(Dispatched(s, i, kind, amount, blockLt)) == Held(s) - amount
  {
    var nonce := s.nonce + 1;
    var q := Locked(s.progress[i], kind, amount, nonce, blockLt);
    DueLockIsSound(s, i, kind, amount, blockLt);
    ReplaceKeepsValid(s, i, q, nonce);
    LockedAmounts(s.progress[i], kind, amount, nonce, blockLt);
  }

  lemma LockedAmounts(p: Progress, kind: nat, amount: u128, nonce: u64, blockLt: u64)
    requires LaneOf(p, kind).pending == 0
    ensures var q := Locked(p, kind, amount, nonce, blockLt);
            && q.claimed == p.claimed && q.refunded == p.refunded
            && q.claims.pending + q.refunds.pending == p.claims.pending + p.refunds.pending + amount
  {
  }

  lemma DueLockIsSound(s: State, i: nat, kind: nat, amount: u128, blockLt: u64)
    requires Valid(s) && s.funded && i < s.config.count && kind < 2 && s.nonce + 1 < U64_END
    requires LaneOf(s.progress[i], kind).pending == 0
    requires Due(s, i, kind) == Ok(amount) && amount != 0
    ensures var x := s.config.streams[i];
      && ValidSchedule(x.terms)
      && SoundProgress(x, Locked(s.progress[i], kind, amount, s.nonce + 1, blockLt), s.lastTime, s.nonce + 1)
  {
    assert Sound(s, i);
    LockedIsSound(s.config.streams[i], s.progress[i], s.lastTime, kind, s.nonce, s.nonce + 1, blockLt);
  }

  /** The amount CLAIM or REFUND may send now, or why it may not. */
  ghost function Payable(s: State, in_: Input, actor: Id32, i: nat, kind: nat): (r: Result<u128>)
    requires Valid(s) && s.funded && i < s.config.count && kind < 2
    ensures r.Ok? ==>
              LaneOf(s.progress[i], kind).pending == 0 && Due(s, i, kind) == r && r.value != 0 && s.nonce + 1 < U64_END
  {
    if actor != (if kind == CLAIMS then s.config.streams[i].key else s.config.owner) then Err(E_AUTH)
    else if LaneOf(s.progress[i], kind).pending != 0 then Err(E_BUSY)
    else
      var amount :- Due(s, i, kind);
      if amount == 0 then Err(E_EMPTY)
      else if Principal(in_.balance) < Held(s) || !HasShell(in_.balance, s.config.fuel) then Err(E_BALANCE)
      else if s.nonce + 1 >= U64_END then Err(E_OVERFLOW)
      else Ok(amount)
  }

  /** CLAIM and REFUND: the whole amount due goes out, under a fresh nonce. */
  ghost function Pay(s: State, in_: Input, actor: Id32, i: nat, kind: nat): (r: Result<Outcome>)
    requires Valid(s) && s.funded && i < s.config.count && kind < 2
    ensures Keeps(s, r)
  {
    var amount :- Payable(s, in_, actor, i, kind);
    DispatchedIsValid(s, i, kind, amount, in_.blockLt);
    var t := Dispatched(s, i, kind, amount, in_.blockLt);
    Ok(Outcome(t, Reply(EventOf(t, i, kind, amount), [Payout(s.config, i, kind, s.nonce + 1, amount)])))
  }

  /** The stream and lane a callback's sender belongs to. */
  function LaneAt(c: Config, source: Address, from: nat): (r: Option<(nat, nat)>)
    requires from <= c.count <= MAX_STREAMS
    ensures r.Some? ==> from <= r.value.0 < c.count && r.value.1 < 2
    ensures r.Some? ==> Destination(c.streams[r.value.0], r.value.1) == source
    ensures r.None? ==> forall i | from <= i < c.count :: c.streams[i].payout != source && c.streams[i].refund != source
    decreases c.count - from
  {
    if from == c.count then None
    else if c.streams[from].payout == source then Some((from, CLAIMS))
    else if c.streams[from].refund == source then Some((from, REFUNDS))
    else LaneAt(c, source, from + 1)
  }

  predicate Admissible(l: Lane, here: Address, msg: Message)
    requires msg.Internal? && msg.callback.Some?
  {
    && l.pending != 0
    && msg.methodId == CALLBACK
    && !msg.callbackRequest
    && msg.callback.value.causeAddress == here
    && msg.callback.value.causeHash != ZERO32
    && msg.callback.value.causeHash != l.lastHash
    && msg.createdLt > l.afterLt
    && msg.createdLt > l.lastLt
  }

  /** What a callback may carry: SHELL change always, and exactly the returned principal when one is due back. */
  predicate CallbackValue(extra: seq<Currency>, principal: Option<u128>) {
    && (forall k | 0 <= k < |extra| ::
          || (extra[k].id == PRINCIPAL && principal == Some(extra[k].amount))
          || (extra[k].id == SHELL && extra[k].amount > 0))
    && (principal.None? || exists k | 0 <= k < |extra| :: extra[k].id == PRINCIPAL)
  }

  predicate Payload(l: Lane, i: nat, kind: nat, msg: Message)
    requires i < MAX_STREAMS && kind < 2 && msg.Internal? && msg.callback.Some?
  {
    if msg.callback.value.status == 0
    then CallbackValue(msg.extra, None) && msg.body == PaymentBody(i, kind, l.nonce, l.pending)
    else CallbackValue(msg.extra, Some(l.pending)) && msg.body == []
  }

  function PaidOf(p: Progress, kind: nat): u128 { if kind == CLAIMS then p.claimed else p.refunded }

  /** The lane empties; on success its amount counts as claimed or refunded. */
  function Settled(p: Progress, kind: nat, success: bool, lt: u64, hash: Id32): Progress
    requires PaidOf(p, kind) + LaneOf(p, kind).pending < U128_END
  {
    var q := WithLane(p, kind, Lane(0, 0, 0, lt, hash));
    var paid := PaidOf(p, kind) + LaneOf(p, kind).pending;
    if !success then q
    else if kind == CLAIMS then q.(claimed := paid)
    else q.(refunded := paid)
  }

  lemma PaidFits(x: Stream, p: Progress, t: u32, nonce: u64, kind: nat)
    requires ValidSchedule(x.terms) && SoundProgress(x, p, t, nonce)
    ensures PaidOf(p, kind) + LaneOf(p, kind).pending <= x.terms.total
  {
    StreamSolvent(x, p, t, nonce);
  }

  /** The state after stream `i`'s lane settled. */
  ghost function SettledState(s: State, i: nat, kind: nat, success: bool, lt: u64, hash: Id32): State
    requires Valid(s) && i < s.config.count
  {
    assert Sound(s, i);
    PaidFits(s.config.streams[i], s.progress[i], s.lastTime, s.nonce, kind);
    WithProgress(s, i, Settled(s.progress[i], kind, success, lt, hash), s.nonce)
  }

  lemma PendingMeansFunded(s: State, i: nat, kind: nat)
    requires Valid(s) && i < s.config.count && LaneOf(s.progress[i], kind).pending != 0
    ensures s.funded
  {
  }

  /** Settling keeps the invariant: on success pending becomes paid, on failure it returns to what is held. */
  lemma SettledIsValid(s: State, i: nat, kind: nat, success: bool, lt: u64, hash: Id32)
    requires Valid(s) && i < s.config.count && kind < 2 && lt != 0 && hash != ZERO32
    requires LaneOf(s.progress[i], kind).pending != 0
    ensures var t := SettledState(s, i, kind, success, lt, hash);
      && Valid(t)
      && Held(t) == Held(s) + (if success then 0 else LaneOf(s.progress[i], kind).pending)
  {
    assert Sound(s, i);
    PendingMeansFunded(s, i, kind);
    PaidFits(s.config.streams[i], s.progress[i], s.lastTime, s.nonce, kind);
    ReplaceKeepsValid(s, i, Settled(s.progress[i], kind, success, lt, hash), s.nonce);
  }

  ghost function Callback(s: State, here: Address, msg: Message): (r: Result<Outcome>)
    requires Valid(s) && msg.Internal? && msg.callback.Some?
    ensures Keeps(s, r)
  {
    match LaneAt(s.config, msg.source, 0)
    case None => Err(E_CALLBACK)
    case Some((i, kind)) =>
      var l := LaneOf(s.progress[i], kind);
      if !Admissible(l, here, msg) || !Payload(l, i, kind, msg) then Err(E_CALLBACK)
      else
        var h := msg.callback.value;
        SettledIsValid(s, i, kind, h.status == 0, msg.createdLt, h.causeHash);
        Finished(SettledState(s, i, kind, h.status == 0, msg.createdLt, h.causeHash), i, kind, l.pending)
  }

  /** The meaning of one message, at the time its block carries. */
  ghost function Process(before: State, in_: Input): Result<Outcome>
    requires Valid(before)
  {
    TimeKeepsSound(before, Max(before.lastTime, in_.blockTime));
    var s := Clocked(before, in_.blockTime);
    match in_.message
    case Internal(_, _, _, _, _, _, callback, _, _, _) =>
      if callback.Some? then Callback(s, in_.here, in_.message) else Err(E_AUTH)
    case External(actor, methodId, body, extra) =>
      if methodId == TOPUP then Topup(s, body, extra)
      else if methodId == FUND then Fund(s, actor, body, extra, in_.balance)
      else if extra != [] then Err(E_VALUE)
      else if methodId == STATUS then if body == [] then Finished(s, 255, 255, 0) else Err(E_ARGS)
      else if |body| != 1 || body[0] >= s.config.count then Err(E_ARGS)
      else if !s.funded then Err(E_PHASE)
      else if methodId == CANCEL then Cancel(s, actor, body[0])
      else if methodId == CLAIM then Pay(s, in_, actor, body[0], CLAIMS)
      else if methodId == REFUND then Pay(s, in_, actor, body[0], REFUNDS)
      else Err(E_ARGS)
  }

  /** The invariant is inductive whatever the block time, and no handler ever meets a broken state. */
  lemma ProcessKeepsValid(s: State, in_: Input)
    requires Valid(s)
    ensures Keeps(Clocked(s, in_.blockTime), Process(s, in_))
    ensures Process(s, in_) != Err(E_STATE)
  {
    TimeKeepsSound(s, Max(s.lastTime, in_.blockTime));
  }
}
