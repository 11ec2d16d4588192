/** The vesting contract as it runs: fields updated in place, checked arithmetic, full validation before each reply. */
module VestingContract {
  import opened Bytes
  import opened Sdk
  import opened Sums
  import opened VestingCore
  import opened VestingState
  import opened VestingSpec

  /** The method answered with `r` and left state `t`, exactly as `spec` says; a failure leaves the state alone. */
  ghost predicate Refines(s: State, spec: Result<Outcome>, t: State, r: Result<Reply>) {
    match spec
    case Ok(o) => r == Ok(o.reply) && t == o.state
    case Err(code) => r == Err(code) && t == s
  }

  /** `Config::total`: a checked running sum. */
  method ConfigTotal(c: Config) returns (r: Result<u128>)
    requires c.count <= MAX_STREAMS
    ensures r == if Total(c) < U128_END then Ok(Total(c)) else Err(E_OVERFLOW)
  {
    ghost var totals := Totals(c);
    var v: u128 := 0;
    for i := 0 to c.count
      invariant v == Sum(totals[..i])
    {
      SumPrefix(totals, i);
      SumPrefixLe(totals, i + 1);
      var next := CheckedAdd(v, c.streams[i].terms.total);
      if next.None? {
        return Err(E_OVERFLOW);
      }
      v := next.value;
    }
    assert totals[..c.count] == totals;
    return Ok(v);
  }

  method LegalStreamAt(c: Config, i: nat) returns (ok: bool)
    requires c.count <= MAX_STREAMS && i < c.count
    ensures ok <==> LegalStream(c.streams[i]) && NewStream(c.streams, i)
  {
    var x := c.streams[i];
    VestedExact(x.terms, x.terms.start);
    if x.key == ZERO32 || !NonzeroAddress(x.payout) || !NonzeroAddress(x.refund) || x.payout == x.refund
       || VestedChecked(x.terms, x.terms.start).Err?
    {
      return false;
    }
    for p := 0 to i
      invariant forall q | 0 <= q < p :: Apart(c.streams[q], x)
    {
      if !Apart(c.streams[p], x) {
        return false;
      }
    }
    return true;
  }

  method LegalStreamList(c: Config) returns (ok: bool)
    requires c.count <= MAX_STREAMS
    ensures ok <==> LegalStreams(c.streams, c.count)
  {
    for i := 0 to c.count
      invariant LegalStreams(c.streams, i)
    {
      var legal := LegalStreamAt(c, i);
      if !legal {
        return false;
      }
    }
    return true;
  }

  /** `Config::validate`. */
  method ValidateConfig(c: Config) returns (r: Result<()>)
    ensures r == if !LegalConfig(c) then Err(E_ARGS) else if Total(c) < U128_END then Ok(()) else Err(E_OVERFLOW)
  {
    if c.owner == ZERO32 || c.fuel == 0 || c.count == 0 || c.count > MAX_STREAMS {
      return Err(E_ARGS);
    }
    var legal := LegalStreamList(c);
    if !legal {
      return Err(E_ARGS);
    }
    for i := c.count to MAX_STREAMS
      invariant forall k | c.count <= k < i :: c.streams[k] == NO_STREAM
    {
      if c.streams[i] != NO_STREAM {
        return Err(E_ARGS);
      }
    }
    var _ :- ConfigTotal(c);
    return Ok(());
  }

  /** `Config::first_start`: the earliest start among the live streams. */
  method FirstStart(c: Config) returns (first: u32)
    requires 0 < c.count <= MAX_STREAMS
    ensures forall t: u32 :: Started(c, t) <==> first <= t
  {
    first := c.streams[0].terms.start;
    var at := 0;
    for i := 1 to c.count
      invariant 0 <= at < c.count && first == c.streams[at].terms.start
      invariant forall k | 0 <= k < i :: first <= c.streams[k].terms.start
    {
      if c.streams[i].terms.start < first {
        first, at := c.streams[i].terms.start, i;
      }
    }
  }

  /** `callback_value`: one pass with a flag. */
  method CheckCallbackValue(extra: seq<Currency>, principal: Option<u128>) returns (ok: bool)
    ensures ok <==> CallbackValue(extra, principal)
  {
    var hasPrincipal := principal.None?;
    var i := 0;
    while i < |extra|
      invariant 0 <= i <= |extra|
      invariant CallbackValue(extra[..i], None) || principal.Some?
      invariant forall k | 0 <= k < i ::
        || (extra[k].id == PRINCIPAL && principal == Some(extra[k].amount))
        || (extra[k].id == SHELL && extra[k].amount > 0)
      invariant hasPrincipal <==> principal.None? || exists k | 0 <= k < i :: extra[k].id == PRINCIPAL
    {
      var currency := extra[i];
      if currency.id == PRINCIPAL && principal == Some(currency.amount) {
        hasPrincipal := true;
      } else if currency.id == SHELL && currency.amount > 0 {
      } else {
        return false;
      }
      i := i + 1;
    }
    return hasPrincipal;
  }

  class Vesting {
    var config: Config
    var funded: bool
    var lastTime: u32
    var nonce: u64
    var progress: ProgressRow

    ghost function Value(): State
      reads this
    {
      State(config, funded, lastTime, nonce, progress)
    }

    constructor (s: State)
      ensures Value() == s
    {
      config := s.config;
      funded := s.funded;
      lastTime := s.lastTime;
      nonce := s.nonce;
      progress := s.progress;
    }

    /** `State::cap`: the frozen cap, or what has vested by the later of `now` and the stored clock. */
    method Cap(i: nat, now: u32) returns (r: Result<u128>)
      requires i < MAX_STREAMS && ValidSchedule(config.streams[i].terms)
      ensures r.Ok? && r.value == CapOf(config.streams[i], progress[i], Max(now, lastTime))
    {
      if progress[i].cancelled {
        return Ok(progress[i].cap);
      }
      VestedExact(config.streams[i].terms, Max(now, lastTime));
      return VestedChecked(config.streams[i].terms, Max(now, lastTime));
    }

    /** `State::due`, on any state: subtraction by subtraction. */
    method DueAmount(i: nat, kind: nat, now: u32) returns (r: Result<u128>)
      requires i < MAX_STREAMS && kind < 2 && ValidSchedule(config.streams[i].terms)
      ensures !funded ==> r == Ok(0)
      ensures funded && kind != CLAIMS && !progress[i].cancelled ==> r == Err(E_PHASE)
      ensures funded && (kind == CLAIMS || progress[i].cancelled) ==>
        var due := DueOf(config.streams[i], progress[i], Max(now, lastTime), kind);
        if due < 0 then r == Err(E_STATE) else r.Ok? && r.value == due
    {
      if !funded {
        return Ok(0);
      }
      var p := progress[i];
      var cap :- Cap(i, now);
      var limit, paid := cap, p.claimed;
      if kind != CLAIMS {
        if !p.cancelled {
          return Err(E_PHASE);
        }
        var rest := CheckedSub(config.streams[i].terms.total, cap);
        if rest.None? {
          return Err(E_STATE);
        }
        limit, paid := rest.value, p.refunded;
      }
      var unpaid := CheckedSub(limit, paid);
      if unpaid.None? {
        return Err(E_STATE);
      }
      var due := CheckedSub(unpaid.value, LaneOf(p, kind).pending);
      if due.None? {
        return Err(E_STATE);
      }
      return Ok(due.value);
    }

    /** The checks on both lanes of a stream. */
    method CheckLanes(p: Progress) returns (ok: bool)
      ensures ok <==> SoundLane(p.claims, nonce) && SoundLane(p.refunds, nonce)
    {
      for kind := 0 to 2
        invariant kind > 0 ==> SoundLane(p.claims, nonce)
        invariant kind > 1 ==> SoundLane(p.refunds, nonce)
      {
        var l := LaneOf(p, kind);
        if (l.lastLt == 0 && l.lastHash != ZERO32) || (l.lastLt > 0 && l.lastHash == ZERO32) {
          return false;
        }
        if l.pending == 0 {
          if l.nonce != 0 || l.afterLt != 0 {
            return false;
          }
        } else if l.nonce == 0 || l.nonce > nonce || l.afterLt < l.lastLt {
          return false;
        }
      }
      return true;
    }

    /** The checks on a stream's cancellation record. */
    method CheckCut(i: nat) returns (ok: bool)
      requires i < MAX_STREAMS && ValidSchedule(config.streams[i].terms)
      ensures ok <==> SoundCut(config.streams[i], progress[i], lastTime)
    {
      var x, p := config.streams[i], progress[i];
      if p.cancelled {
        VestedExact(x.terms, p.cutoff);
        return x.revocable && p.cutoff <= lastTime && p.cutoff < x.terms.end
               && VestedChecked(x.terms, p.cutoff) == Ok(p.cap);
      }
      return p.cutoff == 0 && p.cap == 0 && p.refunded == 0 && p.refunds == IDLE;
    }

    /** The per-stream part of `State::validate`. */
    method CheckStream(i: nat) returns (r: Result<()>)
      requires i < config.count <= MAX_STREAMS && ValidSchedule(config.streams[i].terms)
      requires !funded ==> progress[i] == UNTOUCHED
      ensures r == if SoundSlot(config, progress, lastTime, nonce, i) then Ok(()) else Err(E_STATE)
    {
      var cut := CheckCut(i);
      if !cut {
        return Err(E_STATE);
      }
      var lanes := CheckLanes(progress[i]);
      if !lanes {
        return Err(E_STATE);
      }
      if funded {
        var _ :- DueAmount(i, CLAIMS, lastTime);
        if progress[i].cancelled {
          var _ :- DueAmount(i, REFUNDS, lastTime);
        }
      }
      return Ok(());
    }

    method Untouched(from: nat) returns (ok: bool)
      requires from <= MAX_STREAMS
      ensures ok <==> AllUntouched(progress, from)
    {
      for i := from to MAX_STREAMS
        invariant forall k | from <= k < i :: progress[k] == UNTOUCHED
      {
        if progress[i] != UNTOUCHED {
          return false;
        }
      }
      return true;
    }

    method CheckStreams() returns (r: Result<()>)
      requires LegalConfig(config) && (!funded ==> Unfunded(Value()))
      ensures r == if forall i | 0 <= i < config.count :: SoundSlot(config, progress, lastTime, nonce, i)
                   then Ok(()) else Err(E_STATE)
    {
      for i := 0 to config.count
        invariant forall k | 0 <= k < i :: SoundSlot(config, progress, lastTime, nonce, k)
      {
        assert LegalStream(config.streams[i]);
        var _ :- CheckStream(i);
      }
      return Ok(());
    }

    /** `State::validate` accepts exactly the valid states; its closing check on held principal never decides. */
    method Validate() returns (r: Result<()>)
      ensures r == if Valid(Value()) then Ok(()) else Err(E_STATE)
    {
      var c := ValidateConfig(config);
      if c.Err? {
        return Err(E_STATE);
      }
      if !funded {
        var untouched := Untouched(0);
        if nonce != 0 || !untouched {
          return Err(E_STATE);
        }
      }
      var _ :- CheckStreams();
      var rest := Untouched(config.count);
      RestUntouched(Value());
      if !rest {
        return Err(E_STATE);
      }
      var _ :- HeldPrincipal();
      return Ok(());
    }

    /** `State::totals`: three checked running sums over the live streams. */
    method RunningTotals() returns (r: Result<(u128, u128, u128)>)
      requires Valid(Value())
      ensures r.Ok? && r.value == (Claimed(Value()), Refunded(Value()), Pending(Value()))
    {
      ghost var s := Value();
      Solvent(s);
      var n := config.count;
      var a: u128, b: u128, c: u128 := 0, 0, 0;
      for i := 0 to n
        invariant a == Sum(ClaimedColumn(progress[..i])) && b == Sum(RefundedColumn(progress[..i]))
        invariant c == Sum(PendingColumn(progress[..i]))
      {
        var p := progress[i];
        ColumnsPrefix(progress, i);
        PrefixSums(s, i + 1);
        var nextA, nextB := CheckedAdd(a, p.claimed), CheckedAdd(b, p.refunded);
        if nextA.None? || nextB.None? {
          return Err(E_STATE);
        }
        var half := CheckedAdd(c, p.claims.pending);
        if half.None? {
          return Err(E_STATE);
        }
        var nextC := CheckedAdd(half.value, p.refunds.pending);
        if nextC.None? {
          return Err(E_STATE);
        }
        a, b, c := nextA.value, nextB.value, nextC.value;
      }
      return Ok((a, b, c));
    }

    lemma PrefixSums(s: State, n: nat)
      requires Valid(s) && n <= s.config.count
      ensures Sum(ClaimedColumn(s.progress[..n])) + Sum(RefundedColumn(s.progress[..n]))
              + Sum(PendingColumn(s.progress[..n])) <= Total(s.config)
    {
      SolventPrefix(s, n);
      SumPrefixLe(Totals(s.config), n);
    }

    method HeldPrincipal() returns (r: Result<u128>)
      requires Valid(Value())
      ensures r.Ok? && r.value == Held(Value())
    {
      if !funded {
        return Ok(0);
      }
      Solvent(Value());
      var sums :- RunningTotals();
      var (a, b, c) := sums;
      var total :- ConfigTotal(config);
      var x := CheckedSub(total, a);
      if x.None? {
        return Err(E_STATE);
      }
      var y := CheckedSub(x.value, b);
      if y.None? {
        return Err(E_STATE);
      }
      var z := CheckedSub(y.value, c);
      if z.None? {
        return Err(E_STATE);
      }
      return Ok(z.value);
    }

    /** `finish`: on a valid state, re-validation and the reported figures cannot fail. */
    method Finish(index: byte, kind: byte, amount: u128) returns (r: Result<Reply>)
      requires Valid(Value())
      ensures r == Ok(Reply(EventOf(Value(), index, kind, amount), []))
    {
      var _ :- Validate();
      var sums :- RunningTotals();
      var held :- HeldPrincipal();
      return Ok(Reply(Event(amount, sums.0, held, index, kind, nonce, sums.2, sums.1, lastTime), []));
    }

    method FundCall(actor: Id32, body: seq<byte>, extra: seq<Currency>,
                    balance: seq<Currency>) returns (r: Result<Reply>)
      requires Valid(Value())
      modifies this
      ensures Refines(old(Value()), Fund(old(Value()), actor, body, extra, balance), Value(), r)
    {
      if body != [] {
        return Err(E_ARGS);
      }
      if actor != config.owner {
        return Err(E_AUTH);
      }
      var first := FirstStart(config);
      assert Started(config, lastTime) <==> first <= lastTime;
      if funded || lastTime >= first {
        return Err(E_PHASE);
      }
      var total :- ConfigTotal(config);
      if PrincipalValue(extra) != Some(total) {
        return Err(E_VALUE);
      }
      if Principal(balance) < total {
        return Err(E_BALANCE);
      }
      funded := true;
      r := Finish(255, 255, total);
    }

    method CancelCall(actor: Id32, i: nat) returns (r: Result<Reply>)
      requires Valid(Value()) && funded && i < config.count
      modifies this
      ensures Refines(old(Value()), Cancel(old(Value()), actor, i), Value(), r)
    {
      assert Sound(Value(), i);
      var x := config.streams[i];
      if actor != config.owner {
        return Err(E_AUTH);
      }
      if !x.revocable {
        return Err(E_IRREVOCABLE);
      }
      if progress[i].cancelled || lastTime >= x.terms.end {
        return Err(E_PHASE);
      }
      VestedExact(x.terms, lastTime);
      var cap :- VestedChecked(x.terms, lastTime);
      CutIsSound(x, progress[i], lastTime, nonce);
      ReplaceKeepsValid(Value(), i, Cut(x, progress[i], lastTime), nonce);
      progress := progress[i := progress[i].(cancelled := true)];
      progress := progress[i := progress[i].(cutoff := lastTime)];
      progress := progress[i := progress[i].(cap := cap)];
      assert Value() == WithProgress(old(Value()), i, Cut(x, old(progress)[i], lastTime), nonce);
      r := Finish(i, 255, cap);
    }

    /** The assignments of a claim or refund. */
    method LockLane(i: nat, kind: nat, amount: u128, blockLt: u64)
      requires i < MAX_STREAMS && nonce + 1 < U64_END
      modifies this
      ensures Value() == Dispatched(old(Value()), i, kind, amount, blockLt)
    {
      nonce := nonce + 1;
      var l := LaneOf(progress[i], kind);
      l := l.(pending := amount);
      l := l.(nonce := nonce);
      l := l.(afterLt := Max(blockLt, l.lastLt));
      progress := progress[i := WithLane(progress[i], kind, l)];
    }

    /** The checks of CLAIM and REFUND. */
    method CheckPayable(in_: Input, actor: Id32, i: nat, kind: nat) returns (r: Result<u128>)
      requires Valid(Value()) && funded && i < config.count && kind < 2
      ensures r == Payable(Value(), in_, actor, i, kind)
    {
      assert Sound(Value(), i);
      if actor != (if kind == CLAIMS then config.streams[i].key else config.owner) {
        return Err(E_AUTH);
      }
      if LaneOf(progress[i], kind).pending != 0 {
        return Err(E_BUSY);
      }
      var amount :- DueAmount(i, kind, lastTime);
      if amount == 0 {
        return Err(E_EMPTY);
      }
      var held :- HeldPrincipal();
      if Principal(in_.balance) < held || !HasShell(in_.balance, config.fuel) {
        return Err(E_BALANCE);
      }
      if nonce + 1 >= U64_END {
        return Err(E_OVERFLOW);
      }
      return Ok(amount);
    }

    method PayCall(in_: Input, actor: Id32, i: nat, kind: nat) returns (r: Result<Reply>)
      requires Valid(Value()) && funded && i < config.count && kind < 2
      modifies this
      ensures Refines(old(Value()), Pay(old(Value()), in_, actor, i, kind), Value(), r)
    {
      var amount :- CheckPayable(in_, actor, i, kind);
      DispatchedIsValid(Value(), i, kind, amount, in_.blockLt);
      LockLane(i, kind, amount, in_.blockLt);
      var out :- Finish(i, kind, amount);
      return Ok(out.(sends := [Outbound(Destination(config.streams[i], kind), config.fuel, amount, RECEIVE,
                                        PaymentBody(i, kind, nonce, amount), Some(CALLBACK))]));
    }

    /** The payload checks of `callback`, for a lane with a payout under way. */
    method CheckPayload(i: nat, kind: nat, msg: Message) returns (ok: bool)
      requires Valid(Value()) && i < config.count && kind < 2 && msg.Internal? && msg.callback.Some?
      requires LaneOf(progress[i], kind).pending != 0
      ensures ok <==> Payload(LaneOf(progress[i], kind), i, kind, msg)
    {
      var l := LaneOf(progress[i], kind);
      if msg.callback.value.status == 0 {
        assert Sound(Value(), i);
        PaymentRoundTrip(msg.body, i, kind, l.nonce, l.pending);
        ok := CheckCallbackValue(msg.extra, None);
        return ok && ReadPayment(msg.body) == Ok((i, kind, l.nonce, l.pending));
      }
      ok := CheckCallbackValue(msg.extra, Some(l.pending));
      return ok && msg.body == [];
    }

    method CallbackCall(here: Address, msg: Message) returns (r: Result<Reply>)
      requires Valid(Value()) && msg.Internal? && msg.callback.Some?
      modifies this
      ensures Refines(old(Value()), Callback(old(Value()), here, msg), Value(), r)
    {
      var h := msg.callback.value;
      if msg.methodId != CALLBACK || msg.callbackRequest {
        return Err(E_CALLBACK);
      }
      if h.causeAddress != here || h.causeHash == ZERO32 {
        return Err(E_CALLBACK);
      }
      var found := LaneAt(config, msg.source, 0);
      if found.None? {
        return Err(E_CALLBACK);
      }
      var (i, kind) := found.value;
      var l := LaneOf(progress[i], kind);
      if l.pending == 0 || msg.createdLt <= l.afterLt || msg.createdLt <= l.lastLt || h.causeHash == l.lastHash {
        return Err(E_CALLBACK);
      }
      var payload := CheckPayload(i, kind, msg);
      if !payload {
        return Err(E_CALLBACK);
      }
      SettledIsValid(Value(), i, kind, h.status == 0, msg.createdLt, h.causeHash);
      var _ :- Settle(i, kind, h.status == 0, msg.createdLt, h.causeHash);
      r := Finish(i, kind, l.pending);
    }

    /** The assignments of `callback` once the message is accepted; no sum can overflow. */
    method Settle(i: nat, kind: nat, success: bool, lt: u64, hash: Id32) returns (r: Result<()>)
      requires Valid(Value()) && i < config.count && kind < 2
      modifies this
      ensures r == Ok(()) && Value() == SettledState(old(Value()), i, kind, success, lt, hash)
    {
      hide LegalStreams;
      assert Sound(Value(), i);
      PaidFits(config.streams[i], progress[i], lastTime, nonce, kind);
      var pending := LaneOf(progress[i], kind).pending;
      if success {
        var paid := CheckedAdd(PaidOf(progress[i], kind), pending);
        if paid.None? {
          return Err(E_OVERFLOW);
        }
        if kind == CLAIMS {
          progress := progress[i := progress[i].(claimed := paid.value)];
        } else {
          progress := progress[i := progress[i].(refunded := paid.value)];
        }
      }
      progress := progress[i := WithLane(progress[i], kind, Lane(0, 0, 0, lt, hash))];
      assert progress == old(progress)[i := Settled(old(progress)[i], kind, success, lt, hash)];
      return Ok(());
    }

    /**
     * The entrypoint after decoding. A failure leaves nothing behind but the clock, and the host then stores
     * nothing.
     */
    method ProcessMessage(in_: Input) returns (r: Result<Reply>)
      requires Valid(Value())
      modifies this
      ensures Refines(Clocked(old(Value()), in_.blockTime), Process(old(Value()), in_), Value(), r)
    {
      TimeKeepsSound(Value(), Max(lastTime, in_.blockTime));
      lastTime := Max(lastTime, in_.blockTime);
      match in_.message
      case Internal(_, _, _, _, _, _, callback, _, _, _) =>
        if callback.Some? {
          r := CallbackCall(in_.here, in_.message);
        } else {
          r := Err(E_AUTH);
        }
      case External(actor, methodId, body, extra) =>
        if methodId == TOPUP {
          if body != [] {
            return Err(E_ARGS);
          }
          if extra == [] || !OnlyNonzeroShell(extra) {
            return Err(E_VALUE);
          }
          r := Finish(255, 255, 0);
        } else if methodId == FUND {
          r := FundCall(actor, body, extra, in_.balance);
        } else if extra != [] {
          r := Err(E_VALUE);
        } else if methodId == STATUS {
          if body != [] {
            return Err(E_ARGS);
          }
          r := Finish(255, 255, 0);
        } else if |body| != 1 || body[0] >= config.count {
          r := Err(E_ARGS);
        } else if !funded {
          r := Err(E_PHASE);
        } else if methodId == CANCEL {
          r := CancelCall(actor, body[0]);
        } else if methodId == CLAIM {
          r := PayCall(in_, actor, body[0], CLAIMS);
        } else if methodId == REFUND {
          r := PayCall(in_, actor, body[0], REFUNDS);
        } else {
          r := Err(E_ARGS);
        }
    }
  }
}
