/**
 * Which messages the vesting contract accepts and what each accepted one does to every field, said condition by
 * condition and without the functions that compute it; who alone can bring each change about; and, over whole runs,
 * whose message stands behind every cancellation and every amount that left.
 */
module VestingAuthority {
  import opened Bytes
  import opened Sdk
  import opened Admission
  import opened VestingCore
  import opened VestingState
  import V = VestingSpec
  import Runs = VestingRuns

  predicate ShellOnly(extra: seq<Currency>) {
    forall k | 0 <= k < |extra| :: extra[k].id == 2 && extra[k].amount > 0
  }

  /** Exactly `amount` principal comes back, perhaps with SHELL change. */
  predicate ReturnsPrincipal(extra: seq<Currency>, amount: u128) {
    && (forall k | 0 <= k < |extra| ::
          (extra[k].id == 0 && extra[k].amount == amount) || (extra[k].id == 2 && extra[k].amount > 0))
    && (exists k | 0 <= k < |extra| :: extra[k].id == 0)
  }

  /** The contract's time: the block's, unless an earlier block already showed a later one. */
  function Now(s: State, in_: Input): (t: u32)
    ensures t == in_.blockTime || t == s.lastTime
    ensures s.lastTime <= t && in_.blockTime <= t
  {
    if in_.blockTime <= s.lastTime then s.lastTime else in_.blockTime
  }

  predicate MayTopup(s: State, in_: Input) {
    Calls(in_, TOPUP) && in_.message.body == [] && in_.message.extra != [] && ShellOnly(in_.message.extra)
  }

  predicate MayAskStatus(s: State, in_: Input) {
    Calls(in_, STATUS) && in_.message.body == [] && in_.message.extra == []
  }

  /** The owner pays in exactly what the streams add up to, once, before the first of them starts. */
  predicate MayFund(s: State, in_: Input) {
    var m := in_.message;
    && Calls(in_, FUND) && m.body == []
    && m.actor == s.config.owner
    && !s.funded
    && s.config.count <= MAX_STREAMS
    && (forall i: nat | i < s.config.count :: Now(s, in_) < s.config.streams[i].terms.start)
    && |m.extra| == 1 && m.extra[0].id == 0 && m.extra[0].amount == Total(s.config)
    && Total(s.config) <= Principal(in_.balance)
  }

  /** A plain call about stream `i` of a funded contract. */
  predicate Names(s: State, in_: Input, methodId: u64, i: nat) {
    && Calls(in_, methodId) && in_.message.extra == []
    && i < s.config.count && i < MAX_STREAMS && |in_.message.body| == 1 && in_.message.body[0] == i
    && s.funded
  }

  /** The owner cancels a revocable, uncancelled stream before its end. */
  predicate MayCancel(s: State, in_: Input, i: nat) {
    && Names(s, in_, CANCEL, i)
    && in_.message.actor == s.config.owner
    && s.config.streams[i].revocable && !s.progress[i].cancelled
    && Now(s, in_) < s.config.streams[i].terms.end
  }

  /** What the payee of stream `i` may have claimed by now: the frozen cap, or what has vested. */
  function Earned(s: State, in_: Input, i: nat): nat
    requires i < MAX_STREAMS && ValidSchedule(s.config.streams[i].terms)
  {
    if s.progress[i].cancelled then s.progress[i].cap else Vested(s.config.streams[i].terms, Now(s, in_))
  }

  predicate CanSend(s: State, in_: Input)
    requires s.config.count <= MAX_STREAMS
  {
    && Held(s) <= Principal(in_.balance) && FuelAtHand(in_.balance, s.config.fuel)
    && s.nonce < U64_END - 1
  }

  /** The key of stream `i` claims what it has earned and not yet had. */
  predicate MayClaim(s: State, in_: Input, i: nat) {
    && Names(s, in_, CLAIM, i)
    && in_.message.actor == s.config.streams[i].key
    && s.progress[i].claims.pending == 0
    && ValidSchedule(s.config.streams[i].terms) && s.progress[i].claimed < Earned(s, in_, i)
    && s.config.count <= MAX_STREAMS && CanSend(s, in_)
  }

  /** The owner takes back what the cap of a cancelled stream leaves. */
  predicate MayRefund(s: State, in_: Input, i: nat) {
    && Names(s, in_, REFUND, i)
    && in_.message.actor == s.config.owner
    && s.progress[i].cancelled
    && s.progress[i].refunds.pending == 0
    && s.progress[i].cap + s.progress[i].refunded < s.config.streams[i].terms.total
    && s.config.count <= MAX_STREAMS && CanSend(s, in_)
  }

  /** Lane 0 pays claims, lane 1 refunds. */
  function TheLane(p: Progress, kind: nat): Lane { if kind == 0 then p.claims else p.refunds }

  function Payee(x: Stream, kind: nat): Address { if kind == 0 then x.payout else x.refund }

  function BodyOf(i: byte, kind: byte, nonce: u64, amount: u128): seq<byte> {
    [i, kind] + Le64(nonce) + Le128(amount)
  }

  /** The native callback of the payout in one lane: a success that echoes it, or the principal returned. */
  predicate MaySettle(s: State, in_: Input, i: nat, kind: nat) {
    var m := in_.message;
    && m.Internal? && m.callback.Some?
    && i < s.config.count && i < MAX_STREAMS && kind < 2
    && m.source == Payee(s.config.streams[i], kind)
    && m.methodId == CALLBACK && !m.callbackRequest
    && m.callback.value.causeAddress == in_.here && m.callback.value.causeHash != ZERO32
    && var l := TheLane(s.progress[i], kind);
    && l.pending > 0 && m.callback.value.causeHash != l.lastHash
    && l.afterLt < m.createdLt && l.lastLt < m.createdLt
    && (if m.callback.value.status == 0
        then ShellOnly(m.extra) && m.body == BodyOf(i, kind, l.nonce, l.pending)
        else ReturnsPrincipal(m.extra, l.pending) && m.body == [])
  }

  /** The reported figures, each one named. */
  ghost predicate Reports(e: V.Event, t: State, index: byte, kind: byte, amount: nat) {
    && t.config.count <= MAX_STREAMS
    && e.index == index && e.kind == kind && e.amount == amount
    && e.claimed == Claimed(t) && e.refunded == Refunded(t) && e.pending == Pending(t) && e.held == Held(t)
    && e.nonce == t.nonce && e.time == t.lastTime
  }

  ghost predicate Leads(s: State, in_: Input, t: State, index: byte, kind: byte, amount: nat, sends: seq<Outbound>)
    requires Valid(s)
  {
    && V.Process(s, in_).Ok?
    && V.Process(s, in_).value.state == t
    && V.Process(s, in_).value.reply.sends == sends
    && Reports(V.Process(s, in_).value.reply.event, t, index, kind, amount)
  }

  lemma EventReports(s: State, index: byte, kind: byte, amount: u128)
    requires Valid(s)
    ensures Reports(V.EventOf(s, index, kind, amount), s, index, kind, amount)
  {
    hide SoundBooks, Sums.Sum;
    Solvent(s);
  }

  /** `s` at the time of the message. */
  function Timed(s: State, in_: Input): State { s.(lastTime := Now(s, in_)) }

  lemma TimedIsValid(s: State, in_: Input)
    requires Valid(s)
    ensures Valid(Timed(s, in_)) && V.Clocked(s, in_.blockTime) == Timed(s, in_)
    ensures s.config.count <= MAX_STREAMS
    ensures forall i: nat | i < s.config.count :: ValidSchedule(s.config.streams[i].terms)
  {
    TimeKeepsSound(s, Now(s, in_));
    forall i: nat | i < s.config.count ensures ValidSchedule(s.config.streams[i].terms) {
      assert Sound(s, i);
    }
  }

  lemma PlainExact(s: State, in_: Input)
    requires Valid(s) && (Calls(in_, TOPUP) || Calls(in_, STATUS))
    ensures V.Process(s, in_).Ok? <==> MayTopup(s, in_) || MayAskStatus(s, in_)
    ensures V.Process(s, in_).Ok? ==> Leads(s, in_, Timed(s, in_), 255, 255, 0, [])
  {
    hide Valid, V.EventOf;
    TimedIsValid(s, in_);
    EventReports(Timed(s, in_), 255, 255, 0);
  }

  /** Funding is accepted exactly from the owner, once, in full, before the first stream starts. */
  lemma FundExact(s: State, in_: Input)
    requires Valid(s) && Calls(in_, FUND)
    ensures s.config.count <= MAX_STREAMS
    ensures V.Process(s, in_).Ok? <==> MayFund(s, in_)
    ensures V.Process(s, in_).Ok? ==> Leads(s, in_, Timed(s, in_).(funded := true), 255, 255, Total(s.config), [])
  {
    hide Valid, V.EventOf, Total;
    TimedIsValid(s, in_);
    if V.Process(s, in_).Ok? {
      V.ProcessKeepsValid(s, in_);
      EventReports(Timed(s, in_).(funded := true), 255, 255, Total(s.config));
    }
  }

  /** A stream is cancelled exactly by the owner, when it is revocable, running and not cancelled; the cap freezes. */
  lemma CancelExact(s: State, in_: Input)
    requires Valid(s) && Calls(in_, CANCEL)
    ensures V.Process(s, in_).Ok? <==> |in_.message.body| == 1 && MayCancel(s, in_, in_.message.body[0])
    ensures V.Process(s, in_).Ok? ==>
      var i: nat := in_.message.body[0];
      && ValidSchedule(s.config.streams[i].terms) && Vested(s.config.streams[i].terms, Now(s, in_)) < U128_END
      && var cap: u128 := Vested(s.config.streams[i].terms, Now(s, in_));
      Leads(s, in_, Timed(s, in_).(progress := s.progress[i := s.progress[i].(cancelled := true,
                                                                            cutoff := Now(s, in_), cap := cap)]),
            i, 255, cap, [])
  {
    hide Valid, V.EventOf, Vested;
    TimedIsValid(s, in_);
    if V.Process(s, in_).Ok? {
      V.ProcessKeepsValid(s, in_);
      var i: nat := in_.message.body[0];
      VestedBounded(s.config.streams[i].terms, Now(s, in_));
      EventReports(V.Process(s, in_).value.state, i, 255, Vested(s.config.streams[i].terms, Now(s, in_)));
    }
  }

  /** The lane a payout leaves locked: the amount, under the next nonce, waiting for a later callback. */
  function SentLane(l: Lane, amount: u128, nonce: u64, blockLt: u64): Lane {
    Lane(amount, nonce, if blockLt >= l.lastLt then blockLt else l.lastLt, l.lastLt, l.lastHash)
  }

  lemma EarnedFits(s: State, in_: Input, i: nat)
    requires Valid(s) && i < s.config.count
    ensures i < MAX_STREAMS && ValidSchedule(s.config.streams[i].terms)
    ensures s.progress[i].claimed + s.progress[i].claims.pending <= Earned(s, in_, i)
    ensures Earned(s, in_, i) <= s.config.streams[i].terms.total
    ensures s.progress[i].cancelled ==>
      s.progress[i].cap + s.progress[i].refunded + s.progress[i].refunds.pending <= s.config.streams[i].terms.total
  {
    TimedIsValid(s, in_);
    assert Sound(Timed(s, in_), i);
    StreamSolvent(s.config.streams[i], s.progress[i], Now(s, in_), s.nonce);
  }

  /** What a granted claim leaves: the amount in the claims lane, under the next nonce. */
  function AfterClaim(s: State, in_: Input, i: nat, amount: u128): State
    requires i < MAX_STREAMS && s.nonce < U64_END - 1
  {
    var p := s.progress[i];
    Timed(s, in_).(nonce := s.nonce + 1,
                   progress := s.progress[i := p.(claims := SentLane(p.claims, amount, s.nonce + 1, in_.blockLt))])
  }

  /** A claim is granted exactly to the stream's key; it sends what is earned and not yet claimed, all of it. */
  lemma ClaimExact(s: State, in_: Input)
    requires Valid(s) && Calls(in_, CLAIM)
    ensures V.Process(s, in_).Ok? <==> |in_.message.body| == 1 && MayClaim(s, in_, in_.message.body[0])
    ensures V.Process(s, in_).Ok? ==>
      var i: nat := in_.message.body[0];
      && Earned(s, in_, i) < U128_END
      && var amount: u128 := Earned(s, in_, i) - s.progress[i].claimed;
      Leads(s, in_, AfterClaim(s, in_, i, amount), i, 0, amount,
            [Outbound(s.config.streams[i].payout, s.config.fuel, amount, RECEIVE, BodyOf(i, 0, s.nonce + 1, amount),
                      Some(CALLBACK))])
  {
    hide Valid, V.Process, V.EventOf, Vested, Held, Leads, AfterClaim;
    if |in_.message.body| == 1 && in_.message.body[0] < s.config.count {
      ClaimGranted(s, in_, in_.message.body[0]);
    } else {
      StreamNamed(s, in_);
    }
  }

  lemma StreamNamed(s: State, in_: Input)
    requires Valid(s) && (Calls(in_, CLAIM) || Calls(in_, REFUND))
    requires |in_.message.body| != 1 || in_.message.body[0] >= s.config.count
    ensures V.Process(s, in_).Err?
  {
    hide Valid;
    TimedIsValid(s, in_);
  }

  lemma ClaimGranted(s: State, in_: Input, i: nat)
    requires Valid(s) && Calls(in_, CLAIM) && |in_.message.body| == 1 && i == in_.message.body[0] < s.config.count
    ensures V.Process(s, in_).Ok? <==> MayClaim(s, in_, i)
    ensures V.Process(s, in_).Ok? ==>
      && Earned(s, in_, i) < U128_END
      && var amount: u128 := Earned(s, in_, i) - s.progress[i].claimed;
      Leads(s, in_, AfterClaim(s, in_, i, amount), i, 0, amount,
            [Outbound(s.config.streams[i].payout, s.config.fuel, amount, RECEIVE, BodyOf(i, 0, s.nonce + 1, amount),
                      Some(CALLBACK))])
  {
    hide Valid, V.EventOf, Vested, Held;
    TimedIsValid(s, in_);
    EarnedFits(s, in_, i);
    HeldNow(s, in_);
    if V.Process(s, in_).Ok? {
      V.ProcessKeepsValid(s, in_);
      EventReports(V.Process(s, in_).value.state, i, 0, Earned(s, in_, i) - s.progress[i].claimed);
    }
  }

  lemma HeldNow(s: State, in_: Input)
    requires s.config.count <= MAX_STREAMS
    ensures Held(Timed(s, in_)) == Held(s)
  {
    hide Sums.Sum;
    assert Live(Timed(s, in_)) == Live(s);
  }

  /** What a granted refund leaves: the amount in the refunds lane, under the next nonce. */
  function AfterRefund(s: State, in_: Input, i: nat, amount: u128): State
    requires i < MAX_STREAMS && s.nonce < U64_END - 1
  {
    var p := s.progress[i];
    Timed(s, in_).(nonce := s.nonce + 1,
                   progress := s.progress[i := p.(refunds := SentLane(p.refunds, amount, s.nonce + 1, in_.blockLt))])
  }

  /** What the cap of stream `i` leaves and was not refunded yet. */
  function Left(s: State, i: nat): int
    requires i < MAX_STREAMS
  {
    s.config.streams[i].terms.total - s.progress[i].cap - s.progress[i].refunded
  }

  /** A refund is granted exactly to the owner of a cancelled stream; it sends what the cap leaves, all of it. */
  lemma RefundExact(s: State, in_: Input)
    requires Valid(s) && Calls(in_, REFUND)
    ensures V.Process(s, in_).Ok? <==> |in_.message.body| == 1 && MayRefund(s, in_, in_.message.body[0])
    ensures V.Process(s, in_).Ok? ==>
      var i: nat := in_.message.body[0];
      && 0 < Left(s, i)
      && var amount: u128 := Left(s, i);
      Leads(s, in_, AfterRefund(s, in_, i, amount), i, 1, amount,
            [Outbound(s.config.streams[i].refund, s.config.fuel, amount, RECEIVE, BodyOf(i, 1, s.nonce + 1, amount),
                      Some(CALLBACK))])
  {
    hide Valid, V.Process, V.EventOf, Vested, Held, Leads, AfterRefund;
    if |in_.message.body| == 1 && in_.message.body[0] < s.config.count {
      RefundGranted(s, in_, in_.message.body[0]);
    } else {
      StreamNamed(s, in_);
    }
  }

  lemma RefundGranted(s: State, in_: Input, i: nat)
    requires Valid(s) && Calls(in_, REFUND) && |in_.message.body| == 1 && i == in_.message.body[0] < s.config.count
    ensures V.Process(s, in_).Ok? <==> MayRefund(s, in_, i)
    ensures V.Process(s, in_).Ok? ==>
      && 0 < Left(s, i)
      && var amount: u128 := Left(s, i);
      Leads(s, in_, AfterRefund(s, in_, i, amount), i, 1, amount,
            [Outbound(s.config.streams[i].refund, s.config.fuel, amount, RECEIVE, BodyOf(i, 1, s.nonce + 1, amount),
                      Some(CALLBACK))])
  {
    hide Valid, V.EventOf, Vested, Held;
    TimedIsValid(s, in_);
    EarnedFits(s, in_, i);
    HeldNow(s, in_);
    if V.Process(s, in_).Ok? {
      V.ProcessKeepsValid(s, in_);
      EventReports(V.Process(s, in_).value.state, i, 1, Left(s, i));
    }
  }

  /** What the callback of a payout leaves: an empty lane that remembers it, and on success the amount as settled. */
  ghost predicate Settles(s: State, in_: Input, t: State, i: nat, kind: nat, success: bool, lt: u64, hash: Id32)
    requires i < MAX_STREAMS
  {
    var p, q, amount := s.progress[i], t.progress[i], TheLane(s.progress[i], kind).pending;
    && t == Timed(s, in_).(progress := s.progress[i := q])
    && q == p.(claims := q.claims, refunds := q.refunds, claimed := q.claimed, refunded := q.refunded)
    && q.claims == (if kind == 0 then Lane(0, 0, 0, lt, hash) else p.claims)
    && q.refunds == (if kind == 0 then p.refunds else Lane(0, 0, 0, lt, hash))
    && q.claimed == p.claimed + (if success && kind == 0 then amount else 0)
    && q.refunded == p.refunded + (if success && kind != 0 then amount else 0)
  }

  lemma SettledSettles(s: State, in_: Input, i: nat, kind: nat, success: bool, lt: u64, hash: Id32)
    requires Valid(s) && i < s.config.count && i < MAX_STREAMS && kind < 2 && Valid(Timed(s, in_))
    ensures Settles(s, in_, V.SettledState(Timed(s, in_), i, kind, success, lt, hash), i, kind, success, lt, hash)
  {
    hide ValidConfig;
    assert Sound(Timed(s, in_), i);
  }

  lemma AddressesDiffer(c: Config)
    requires ValidConfig(c)
    ensures c.count <= MAX_STREAMS && LegalStreams(c.streams, c.count)
  {
  }

  lemma BodySpelled(i: byte, kind: byte, nonce: u64, amount: u128)
    ensures PaymentBody(i, kind, nonce, amount) == BodyOf(i, kind, nonce, amount)
  {
  }

  /** What the contract demands of a callback's value is just this. */
  lemma ValueSpelled(extra: seq<Currency>, amount: u128)
    ensures V.CallbackValue(extra, None) <==> ShellOnly(extra)
    ensures V.CallbackValue(extra, Some(amount)) <==> ReturnsPrincipal(extra, amount)
  {
  }

  /** A callback that answers the payout of lane `kind` of stream `i` is accepted and settles that lane alone. */
  lemma SettleExact(s: State, in_: Input, i: nat, kind: nat)
    requires Valid(s) && in_.message.Internal? && in_.message.callback.Some?
    requires i < s.config.count && i < MAX_STREAMS && kind < 2 && in_.message.source == Payee(s.config.streams[i], kind)
    ensures V.Process(s, in_).Ok? <==> MaySettle(s, in_, i, kind)
    ensures V.Process(s, in_).Ok? ==>
      var t, h := V.Process(s, in_).value.state, in_.message.callback.value;
      && Settles(s, in_, t, i, kind, h.status == 0, in_.message.createdLt, h.causeHash)
      && Leads(s, in_, t, i, kind, TheLane(s.progress[i], kind).pending, [])
  {
    hide Valid, V.EventOf, V.SettledState, Settles, V.CallbackValue, ShellOnly, ReturnsPrincipal, PaymentBody, BodyOf;
    var l, m, h := TheLane(s.progress[i], kind), in_.message, in_.message.callback.value;
    TimedIsValid(s, in_);
    AddressesDiffer(s.config);
    Runs.LaneAtFinds(s.config, i, kind, 0);
    BodySpelled(i, kind, l.nonce, l.pending);
    ValueSpelled(m.extra, l.pending);
    if V.Process(s, in_).Ok? {
      V.ProcessKeepsValid(s, in_);
      SettledSettles(s, in_, i, kind, h.status == 0, m.createdLt, h.causeHash);
      EventReports(V.Process(s, in_).value.state, i, kind, l.pending);
    }
  }

  /** A native callback is accepted exactly when it answers the payout in the lane it comes from. */
  lemma CallbackExact(s: State, in_: Input)
    requires Valid(s) && in_.message.Internal? && in_.message.callback.Some?
    ensures V.Process(s, in_).Ok? <==> exists i: nat, kind: nat :: MaySettle(s, in_, i, kind)
  {
    hide Valid, V.EventOf, V.SettledState, MaySettle;
    TimedIsValid(s, in_);
    match V.LaneAt(s.config, in_.message.source, 0)
    case None =>
      forall i: nat, kind: nat ensures !MaySettle(s, in_, i, kind) {
        NoSuchLane(s, in_, i, kind);
      }
    case Some((i, kind)) =>
      SettleExact(s, in_, i, kind);
      forall j: nat, k: nat | MaySettle(s, in_, j, k) ensures V.Process(s, in_).Ok? {
        SettleShape(s, in_, j, k);
        SettleExact(s, in_, j, k);
      }
  }

  lemma SettleShape(s: State, in_: Input, i: nat, kind: nat)
    requires MaySettle(s, in_, i, kind)
    ensures i < s.config.count && i < MAX_STREAMS && kind < 2
    ensures in_.message.Internal? && in_.message.source == Payee(s.config.streams[i], kind)
  {
  }

  lemma NoSuchLane(s: State, in_: Input, i: nat, kind: nat)
    requires in_.message.Internal? && s.config.count <= MAX_STREAMS
    requires V.LaneAt(s.config, in_.message.source, 0).None?
    ensures !MaySettle(s, in_, i, kind)
  {
  }

  predicate KnownMethod(id: u64) {
    id == TOPUP || id == FUND || id == STATUS || id == CANCEL || id == CLAIM || id == REFUND
  }

  lemma OthersRefused(s: State, in_: Input)
    requires Valid(s)
    requires if in_.message.Internal? then in_.message.callback.None? else !KnownMethod(in_.message.methodId)
    ensures V.Process(s, in_).Err?
  {
    hide Valid;
    TimedIsValid(s, in_);
  }

  ghost predicate Granted(s: State, in_: Input) {
    || MayTopup(s, in_) || MayAskStatus(s, in_) || MayFund(s, in_)
    || (exists i: nat :: MayCancel(s, in_, i))
    || (exists i: nat :: MayClaim(s, in_, i))
    || (exists i: nat :: MayRefund(s, in_, i))
    || (exists i: nat, kind: nat :: MaySettle(s, in_, i, kind))
  }

  /** Each kind of permission is about messages of its own kind. */
  lemma KindsApart(s: State, in_: Input)
    ensures MayTopup(s, in_) ==> Calls(in_, TOPUP)
    ensures MayAskStatus(s, in_) ==> Calls(in_, STATUS)
    ensures MayFund(s, in_) ==> Calls(in_, FUND)
    ensures forall i: nat | MayCancel(s, in_, i) :: Names(s, in_, CANCEL, i)
    ensures forall i: nat | MayClaim(s, in_, i) :: Names(s, in_, CLAIM, i)
    ensures forall i: nat | MayRefund(s, in_, i) :: Names(s, in_, REFUND, i)
    ensures forall i: nat, kind: nat | MaySettle(s, in_, i, kind) :: in_.message.Internal?
  {
  }

  /** The messages a valid vesting contract accepts are exactly these. */
  lemma AcceptedExactly(s: State, in_: Input)
    requires Valid(s)
    ensures V.Process(s, in_).Ok? <==> Granted(s, in_)
  {
    hide Valid, V.Process, MayTopup, MayAskStatus, MayFund, MayCancel, MayClaim, MayRefund, MaySettle;
    var m := in_.message;
    KindsApart(s, in_);
    if m.Internal? {
      if m.callback.Some? {
        CallbackExact(s, in_);
      } else {
        OthersRefused(s, in_);
        NoCallback(s, in_);
      }
    } else if m.methodId == TOPUP || m.methodId == STATUS {
      PlainExact(s, in_);
    } else if m.methodId == FUND {
      FundExact(s, in_);
    } else if m.methodId == CANCEL {
      CancelExact(s, in_);
    } else if m.methodId == CLAIM {
      ClaimExact(s, in_);
    } else if m.methodId == REFUND {
      RefundExact(s, in_);
    } else {
      OthersRefused(s, in_);
    }
  }

  lemma NoCallback(s: State, in_: Input)
    requires in_.message.Internal? && in_.message.callback.None?
    ensures forall i: nat, kind: nat :: !MaySettle(s, in_, i, kind)
  {
  }

  /**
   * Stream `i`: cancelled only by the owner, its claims lane locked only by its key, its refunds lane only by the
   * owner; a lock opens, and an amount counts as paid, only by the callback of its own payout.
   */
  ghost predicate StreamChange(s: State, in_: Input, t: State, i: nat)
    requires i < MAX_STREAMS
  {
    var p, q := s.progress[i], t.progress[i];
    && (q.cancelled != p.cancelled ==> q.cancelled && MayCancel(s, in_, i) && q.cutoff == Now(s, in_))
    && (q.cutoff != p.cutoff || q.cap != p.cap ==> MayCancel(s, in_, i))
    && (q.claims != p.claims ==>
          || (p.claims.pending == 0 && q.claims.pending > 0 && MayClaim(s, in_, i))
          || (p.claims.pending > 0 && q.claims.pending == 0 && MaySettle(s, in_, i, 0)))
    && (q.refunds != p.refunds ==>
          || (p.refunds.pending == 0 && q.refunds.pending > 0 && MayRefund(s, in_, i))
          || (p.refunds.pending > 0 && q.refunds.pending == 0 && MaySettle(s, in_, i, 1)))
    && (q.claimed != p.claimed ==>
          MaySettle(s, in_, i, 0) && in_.message.callback.value.status == 0
          && q.claimed == p.claimed + p.claims.pending)
    && (q.refunded != p.refunded ==>
          MaySettle(s, in_, i, 1) && in_.message.callback.value.status == 0
          && q.refunded == p.refunded + p.refunds.pending)
  }

  /** What one message changed, and for each change the only kind of message that can bring it about. */
  ghost predicate Authorised(s: State, in_: Input, t: State) {
    && t.config == s.config
    && (t.lastTime == s.lastTime || t.lastTime == in_.blockTime)
    && (t.funded != s.funded ==> t.funded && MayFund(s, in_))
    && (t.nonce != s.nonce ==> exists i: nat :: MayClaim(s, in_, i) || MayRefund(s, in_, i))
    && (forall i: nat | i < MAX_STREAMS :: StreamChange(s, in_, t, i))
  }

  lemma SettlesIsAuthorised(s: State, in_: Input, t: State, i: nat, kind: nat)
    requires MaySettle(s, in_, i, kind)
    requires var h := in_.message.callback.value;
      Settles(s, in_, t, i, kind, h.status == 0, in_.message.createdLt, h.causeHash)
    ensures Authorised(s, in_, t)
  {
    hide MayCancel, MayClaim, MayRefund, MayFund;
  }

  /** Whoever sends whatever at whatever time: no message changes more than its sender may change. */
  lemma ChangesAreAuthorised(s: State, in_: Input)
    requires Valid(s)
    ensures Authorised(s, in_, Runs.After(s, in_))
  {
    hide Valid, V.Process, MayTopup, MayAskStatus, MayFund, MayCancel, MayRefund, MaySettle, Settles, Earned, Vested,
         CanSend, ReturnsPrincipal, ShellOnly;
    var m := in_.message;
    if V.Process(s, in_).Ok? {
      AcceptedExactly(s, in_);
      KindsApart(s, in_);
      if m.Internal? {
        var i: nat, kind: nat :| MaySettle(s, in_, i, kind);
        SettleShape(s, in_, i, kind);
        OnlyCallbacks(s, in_, i, kind);
        SettleExact(s, in_, i, kind);
        SettlesIsAuthorised(s, in_, Runs.After(s, in_), i, kind);
      } else if m.methodId == TOPUP || m.methodId == STATUS {
        PlainExact(s, in_);
      } else if m.methodId == FUND {
        FundExact(s, in_);
      } else if m.methodId == CANCEL {
        CancelExact(s, in_);
      } else if m.methodId == CLAIM {
        ClaimExact(s, in_);
        LanesIdle(s, in_, m.body[0]);
      } else if m.methodId == REFUND {
        RefundExact(s, in_);
        LanesIdle(s, in_, m.body[0]);
      }
    }
  }

  lemma OnlyCallbacks(s: State, in_: Input, i: nat, kind: nat)
    requires MaySettle(s, in_, i, kind)
    ensures in_.message.Internal? && in_.message.callback.Some?
  {
  }

  lemma LanesIdle(s: State, in_: Input, i: nat)
    ensures MayClaim(s, in_, i) ==> s.progress[i].claims.pending == 0
    ensures MayRefund(s, in_, i) ==> s.progress[i].refunds.pending == 0
  {
  }

  ghost predicate FundRefusal(s: State, in_: Input, code: int)
    requires in_.message.External? && s.config.count <= MAX_STREAMS
  {
    var m := in_.message;
    var entitled := m.body == [] && m.actor == s.config.owner;
    var early := entitled && !s.funded
                 && (forall i: nat | i < s.config.count :: Now(s, in_) < s.config.streams[i].terms.start);
    var whole := |m.extra| == 1 && m.extra[0].id == 0 && m.extra[0].amount == Total(s.config);
    || (code == E_ARGS && m.body != [])
    || (code == E_AUTH && m.body == [] && m.actor != s.config.owner)
    || (code == E_PHASE && entitled && !early)
    || (code == E_VALUE && early && !whole)
    || (code == E_BALANCE && early && whole && Principal(in_.balance) < Total(s.config))
  }

  predicate CancelRefusal(s: State, in_: Input, i: nat, code: int)
    requires in_.message.External? && i < MAX_STREAMS
  {
    var x, p := s.config.streams[i], s.progress[i];
    var own := in_.message.actor == s.config.owner;
    || (code == E_AUTH && !own)
    || (code == E_IRREVOCABLE && own && !x.revocable)
    || (code == E_PHASE && own && x.revocable && (p.cancelled || x.terms.end <= Now(s, in_)))
  }

  /** Whoever is not entitled to a lane learns nothing else about it. */
  predicate PayRefusal(s: State, in_: Input, code: int, own: bool, busy: bool, due: int)
    requires s.config.count <= MAX_STREAMS
  {
    var funded := Held(s) <= Principal(in_.balance) && FuelAtHand(in_.balance, s.config.fuel);
    || (code == E_AUTH && !own)
    || (code == E_BUSY && own && busy)
    || (code == E_EMPTY && own && !busy && due == 0)
    || (code == E_BALANCE && own && !busy && due > 0 && !funded)
    || (code == E_OVERFLOW && own && !busy && due > 0 && funded && s.nonce == U64_END - 1)
  }

  predicate ClaimRefusal(s: State, in_: Input, i: nat, code: int)
    requires in_.message.External? && i < s.config.count <= MAX_STREAMS && ValidSchedule(s.config.streams[i].terms)
  {
    var p := s.progress[i];
    PayRefusal(s, in_, code, in_.message.actor == s.config.streams[i].key, p.claims.pending > 0,
               Earned(s, in_, i) - p.claimed - p.claims.pending)
  }

  predicate RefundRefusal(s: State, in_: Input, i: nat, code: int)
    requires in_.message.External? && i < s.config.count <= MAX_STREAMS
  {
    var p := s.progress[i];
    var own, busy := in_.message.actor == s.config.owner, p.refunds.pending > 0;
    || (code == E_PHASE && own && !busy && !p.cancelled)
    || ((!own || busy || p.cancelled) &&
        PayRefusal(s, in_, code, own, busy, s.config.streams[i].terms.total - p.cap - p.refunded - p.refunds.pending))
  }

  ghost predicate Refused(s: State, in_: Input, code: int)
    requires Valid(s)
  {
    var m := in_.message;
    TimedIsValid(s, in_);
    if m.Internal? then code == (if m.callback.Some? then E_CALLBACK else E_AUTH)
    else if m.methodId == TOPUP then code == (if m.body != [] then E_ARGS else E_VALUE)
    else if m.methodId == FUND then FundRefusal(s, in_, code)
    else if m.extra != [] then code == E_VALUE
    else if m.methodId == STATUS then code == E_ARGS
    else if |m.body| != 1 || m.body[0] >= s.config.count then code == E_ARGS
    else if !s.funded then code == E_PHASE
    else if m.methodId == CANCEL then CancelRefusal(s, in_, m.body[0], code)
    else if m.methodId == CLAIM then ClaimRefusal(s, in_, m.body[0], code)
    else if m.methodId == REFUND then RefundRefusal(s, in_, m.body[0], code)
    else code == E_ARGS
  }

  lemma PayRefusals(s: State, in_: Input)
    requires Valid(s) && V.Process(s, in_).Err? && (Calls(in_, CLAIM) || Calls(in_, REFUND))
    ensures Refused(s, in_, V.Process(s, in_).code)
  {
    hide Valid, Vested, Held;
    TimedIsValid(s, in_);
    HeldNow(s, in_);
    if |in_.message.body| == 1 && in_.message.body[0] < s.config.count {
      EarnedFits(s, in_, in_.message.body[0]);
    }
  }

  lemma OwnerRefusals(s: State, in_: Input)
    requires Valid(s) && V.Process(s, in_).Err? && (Calls(in_, FUND) || Calls(in_, CANCEL))
    ensures Refused(s, in_, V.Process(s, in_).code)
  {
    hide Valid, Total, Vested;
    TimedIsValid(s, in_);
  }

  /** Every refusal carries the code of the first thing that was wrong. */
  lemma RefusalsAreExact(s: State, in_: Input)
    requires Valid(s) && V.Process(s, in_).Err?
    ensures Refused(s, in_, V.Process(s, in_).code)
  {
    hide Valid, FundRefusal, CancelRefusal, ClaimRefusal, RefundRefusal;
    TimedIsValid(s, in_);
    var m := in_.message;
    if Calls(in_, CLAIM) || Calls(in_, REFUND) {
      PayRefusals(s, in_);
    } else if Calls(in_, FUND) || Calls(in_, CANCEL) {
      OwnerRefusals(s, in_);
    }
  }

  predicate Signed(in_: Input, party: Id32, methodId: u64, i: byte) {
    Calls(in_, methodId) && in_.message.actor == party && in_.message.body == [i]
  }

  /** Among these messages is one about stream `i` that `party` signed. */
  ghost predicate Asked(ins: seq<Input>, party: Id32, methodId: u64, i: byte) {
    exists k | 0 <= k < |ins| :: Signed(ins[k], party, methodId, i)
  }

  lemma FirstOrLater(ins: seq<Input>, party: Id32, methodId: u64, i: byte)
    requires ins != []
    ensures Asked(ins, party, methodId, i) <==>
            Signed(ins[0], party, methodId, i) || Asked(ins[1..], party, methodId, i)
  {
    assert forall k | 0 <= k < |ins| - 1 :: ins[1..][k] == ins[k + 1];
  }

  /** One message changes a stream's standing only in the ways its sender's key allows. */
  lemma StepNeedsAsking(s: State, in_: Input, t: State, i: nat)
    requires i < s.config.count && i < MAX_STREAMS && StreamChange(s, in_, t, i)
    ensures var p, q, c := s.progress[i], t.progress[i], s.config;
      && (!p.cancelled && q.cancelled ==> Signed(in_, c.owner, CANCEL, i))
      && (!Signed(in_, c.streams[i].key, CLAIM, i) && p.claims.pending == 0 ==>
            q.claims == p.claims && q.claimed == p.claimed)
      && (!Signed(in_, c.owner, REFUND, i) && p.refunds.pending == 0 ==>
            q.refunds == p.refunds && q.refunded == p.refunded)
  {
    hide Earned, CanSend;
  }

  /** From any state with an idle claims lane: until the stream's key asks, nothing is claimed or sent to it. */
  lemma {:induction false} UnclaimedStays(s: State, ins: seq<Input>, i: nat)
    requires Valid(s) && i < s.config.count && i < MAX_STREAMS && s.progress[i].claims.pending == 0
    requires !Asked(ins, s.config.streams[i].key, CLAIM, i)
    ensures var t := Runs.Exec(s, ins);
      t.progress[i].claims == s.progress[i].claims && t.progress[i].claimed == s.progress[i].claimed
    decreases |ins|
  {
    if ins != [] {
      FirstOrLater(ins, s.config.streams[i].key, CLAIM, i);
      V.ProcessKeepsValid(s, ins[0]);
      ChangesAreAuthorised(s, ins[0]);
      StepNeedsAsking(s, ins[0], Runs.After(s, ins[0]), i);
      UnclaimedStays(Runs.After(s, ins[0]), ins[1..], i);
    }
  }

  /** From any state with an idle refunds lane: until the owner asks, nothing is refunded. */
  lemma {:induction false} UnrefundedStays(s: State, ins: seq<Input>, i: nat)
    requires Valid(s) && i < s.config.count && i < MAX_STREAMS && s.progress[i].refunds.pending == 0
    requires !Asked(ins, s.config.owner, REFUND, i)
    ensures var t := Runs.Exec(s, ins);
      t.progress[i].refunds == s.progress[i].refunds && t.progress[i].refunded == s.progress[i].refunded
    decreases |ins|
  {
    if ins != [] {
      FirstOrLater(ins, s.config.owner, REFUND, i);
      V.ProcessKeepsValid(s, ins[0]);
      ChangesAreAuthorised(s, ins[0]);
      StepNeedsAsking(s, ins[0], Runs.After(s, ins[0]), i);
      UnrefundedStays(Runs.After(s, ins[0]), ins[1..], i);
    }
  }

  /** From any state, a stream is cancelled during a run only if the owner asks for it. */
  lemma {:induction false} UncancelledStays(s: State, ins: seq<Input>, i: nat)
    requires Valid(s) && i < s.config.count && i < MAX_STREAMS && !s.progress[i].cancelled
    requires !Asked(ins, s.config.owner, CANCEL, i)
    ensures !Runs.Exec(s, ins).progress[i].cancelled
    decreases |ins|
  {
    if ins != [] {
      FirstOrLater(ins, s.config.owner, CANCEL, i);
      V.ProcessKeepsValid(s, ins[0]);
      ChangesAreAuthorised(s, ins[0]);
      StepNeedsAsking(s, ins[0], Runs.After(s, ins[0]), i);
      UncancelledStays(Runs.After(s, ins[0]), ins[1..], i);
    }
  }

  /**
   * Over every run from deployment, whoever else sends whatever: a stream that is cancelled was cancelled by the
   * owner; what was claimed or is on its way to the payee was asked for by the stream's key; what was refunded or is
   * on its way back was asked for by the owner.
   */
  lemma MovedMeansAsked(c: Config, created: u32, ins: seq<Input>, i: nat)
    requires ValidConfig(c) && i < c.count
    ensures i < MAX_STREAMS && Valid(Initial(c, created))
    ensures var p := Runs.Exec(Initial(c, created), ins).progress[i];
      && (p.cancelled ==> Asked(ins, c.owner, CANCEL, i))
      && (p.claimed != 0 || p.claims.pending != 0 ==> Asked(ins, c.streams[i].key, CLAIM, i))
      && (p.refunded != 0 || p.refunds.pending != 0 ==> Asked(ins, c.owner, REFUND, i))
  {
    hide ValidConfig, Valid, Asked;
    AddressesDiffer(c);
    InitialIsValid(c, created);
    var s := Initial(c, created);
    if !Asked(ins, c.owner, CANCEL, i) {
      UncancelledStays(s, ins, i);
    }
    if !Asked(ins, c.streams[i].key, CLAIM, i) {
      UnclaimedStays(s, ins, i);
    }
    if !Asked(ins, c.owner, REFUND, i) {
      UnrefundedStays(s, ins, i);
    }
  }
}
