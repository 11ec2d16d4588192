/** What each vault message means, as functions on states. The methods of VaultContract refine these. */
module VaultSpec {
  import opened Bytes
  import opened Sdk
  import opened Sums
  import opened RevenueCore
  import opened VaultState

  /** The figures every successful call reports. */
  datatype Event = Event(member: byte, amount: u128, dust: u128, held: u128, pending: u128, paid: u128,
                         received: u128, claimNonce: u64, proposalNonce: u64, paused: bool)

  datatype Reply = Reply(event: Event, sends: seq<Outbound>)

  /** A successful call: the state it leaves and what it sends out. */
  datatype Outcome = Outcome(state: State, reply: Reply)

  ghost function EventOf(s: State, member: byte, amount: u128): Event
    requires Valid(s)
  {
    Solvent(s);
    DustBound(s.received, Weights(s.config));
    Event(member, amount, Dust(s), Held(s), InFlight(s), s.paid, s.received, s.claimNonce, s.proposalNonce, s.paused)
  }

  /** Every reported event balances: what came in is paid out, under way, or held. */
  lemma EventBalances(s: State, member: byte, amount: u128)
    requires Valid(s)
    ensures var e := EventOf(s, member, amount);
            e.received == e.paid + e.pending + e.held && e.dust < s.config.count && e.dust <= e.held
  {
    Solvent(s);
  }

  /** A successful call leaves a valid state with the same fixed terms, and never lowers a running total. */
  ghost predicate Keeps(s: State, r: Result<Outcome>) {
    r.Ok? ==>
      var t := r.value.state;
      && Valid(t)
      && t.config == s.config
      && s.received <= t.received && s.claimNonce <= t.claimNonce && s.proposalNonce <= t.proposalNonce
  }

  /** A call that sends nothing and leaves all money figures alone. */
  ghost predicate Quiet(s: State, r: Result<Outcome>) {
    r.Ok? ==>
      var t := r.value.state;
      && r.value.reply.sends == []
      && t.config == s.config && t.received == s.received && t.paid == s.paid
      && t.claimNonce == s.claimNonce && t.members == s.members
  }

  ghost function Finished(s: State, member: byte, amount: u128): Result<Outcome>
    requires Valid(s)
  {
    Ok(Outcome(s, Reply(EventOf(s, member, amount), [])))
  }

  predicate OnlyShell(extra: seq<Currency>) {
    forall k | 0 <= k < |extra| :: extra[k].id == SHELL
  }

  predicate OnlyHubCurrencies(extra: seq<Currency>) {
    forall k | 0 <= k < |extra| :: extra[k].id == PRINCIPAL || extra[k].id == SHELL
  }

  predicate NoZeroAmounts(extra: seq<Currency>) {
    forall k | 0 <= k < |extra| :: extra[k].amount != 0
  }

  ghost function Topup(s: State, body: seq<byte>, extra: seq<Currency>): (r: Result<Outcome>)
    requires Valid(s)
    ensures Keeps(s, r) && Quiet(s, r)
  {
    if body != [] then Err(E_ARGS)
    else if extra == [] || !OnlyShell(extra) || !NoZeroAmounts(extra) then Err(E_VALUE)
    else Finished(s, 255, 0)
  }

  ghost function Deposit(s: State, body: seq<byte>, extra: seq<Currency>, balance: seq<Currency>): (r: Result<Outcome>)
    requires Valid(s)
    ensures Keeps(s, r)
  {
    var amount := Principal(extra);
    if body != [] then Err(E_ARGS)
    else if s.paused then Err(E_PAUSED)
    else if !OnlyHubCurrencies(extra) || !NoZeroAmounts(extra) then Err(E_VALUE)
    else if amount == 0 then Err(E_VALUE)
    else if Held(s) + amount > Principal(balance) then Err(E_BALANCE)
    else if s.received + amount >= U128_END then Err(E_OVERFLOW)
    else
      CreditKeepsValid(s, amount);
      Finished(Credit(s, amount), 255, amount)
  }

  function Max(a: u64, b: u64): u64 { if a < b then b else a }

  /** The member's whole claimable balance moves to pending under a fresh nonce. */
  function Locked(s: State, i: nat, blockLt: u64): State
    requires i < MAX_MEMBERS && s.claimNonce + 1 < U64_END
  {
    var m := s.members[i];
    var nonce := s.claimNonce + 1;
    s.(members := s.members[i := m.(pending := m.claimable, claimable := 0, nonce := nonce,
                                    afterLt := Max(blockLt, m.lastLt))],
       claimNonce := nonce)
  }

  /** The transfer a claim sends. */
  function Payout(s: State, i: nat): Outbound
    requires i < MAX_MEMBERS
  {
    var m := s.members[i];
    Outbound(s.config.members[i].destination, s.fuelLimit, m.pending, RECEIVE,
             PaymentBody(i, m.nonce, m.pending), Some(CALLBACK))
  }

  ghost function Claim(s: State, in_: Input, actor: Id32, body: seq<byte>): (r: Result<Outcome>)
    requires Valid(s)
    ensures Keeps(s, r)
  {
    if |body| != 1 || body[0] >= s.config.count then Err(E_ARGS) else
      var i: nat := body[0];
      if actor != s.config.members[i].key then Err(E_AUTH)
      else if s.paused then Err(E_PAUSED)
      else if s.members[i].pending != 0 then Err(E_BUSY)
      else if s.members[i].claimable == 0 then Err(E_EMPTY)
      else if Principal(in_.balance) < Held(s) || !HasShell(in_.balance, s.fuelLimit) then Err(E_BALANCE)
      else if s.claimNonce + 1 >= U64_END then Err(E_OVERFLOW)
      else
        LockedIsValid(s, i, in_.blockLt);
        var t := Locked(s, i, in_.blockLt);
        Ok(Outcome(t, Reply(EventOf(t, i, s.members[i].claimable), [Payout(t, i)])))
  }

  /** Replacing one member by one with the same entitlement keeps the state valid. */
  lemma ReplaceKeepsValid(s: State, i: nat, m: MemberState, claimNonce: u64, t: State)
    requires Valid(s) && i < s.config.count && s.claimNonce <= claimNonce
    requires ValidMember(m, Share(s.received, s.config.members[i].weight), claimNonce)
    requires t.paid == s.paid - s.members[i].paid + m.paid
    requires t == s.(members := s.members[i := m], claimNonce := claimNonce, paid := t.paid)
    ensures Valid(t)
    ensures InFlight(t) == InFlight(s) - s.members[i].pending + m.pending
  {
    assert PaidColumn(t.members) == PaidColumn(s.members)[i := m.paid];
    SumUpdate(PaidColumn(s.members), i, m.paid);
    assert PendingColumn(t.members) == PendingColumn(s.members)[i := m.pending];
    SumUpdate(PendingColumn(s.members), i, m.pending);
    ReplaceMembers(s, i, m, t);
  }

  lemma ReplaceMembers(s: State, i: nat, m: MemberState, t: State)
    requires Valid(s) && i < s.config.count && s.claimNonce <= t.claimNonce
    requires ValidMember(m, Share(s.received, s.config.members[i].weight), t.claimNonce)
    requires t == s.(members := s.members[i := m], claimNonce := t.claimNonce, paid := t.paid)
    ensures SoundBooks(t.config, t.received, t.claimNonce, t.members)
  {
    forall j | 0 <= j < MAX_MEMBERS ensures SoundSlot(t.config, t.received, t.claimNonce, t.members, j) {
      assert Sound(s, j);
    }
  }

  /** A claim keeps the invariant and takes exactly the claimed amount out of held principal. */
  lemma LockedIsValid(s: State, i: nat, blockLt: u64)
    requires Valid(s) && i < s.config.count && s.claimNonce + 1 < U64_END
    requires s.members[i].pending == 0 && s.members[i].claimable != 0
    ensures Valid(Locked(s, i, blockLt))
    ensures Held(Locked(s, i, blockLt)) == Held(s) - s.members[i].claimable
  {
    assert Sound(s, i);
    var t := Locked(s, i, blockLt);
    ReplaceKeepsValid(s, i, t.members[i], t.claimNonce, t);
  }

  function Bit(signer: nat): (b: nat)
    requires signer < 3
  {
    if signer == 0 then 1 else if signer == 1 then 2 else 4
  }

  predicate HasVote(votes: byte, signer: nat)
    requires signer < 3
  {
    votes / Bit(signer) % 2 == 1
  }

  function WithVote(votes: byte, signer: nat): (v: byte)
    requires signer < 3 && votes < 8
    ensures v < 8 && v != 0
    ensures forall k | 0 <= k < 3 :: HasVote(v, k) <==> HasVote(votes, k) || k == signer
  {
    if HasVote(votes, signer) then votes else votes + Bit(signer)
  }

  /** `u8::count_ones`. */
  function CountOnes(v: byte): nat {
    v % 2 + v / 2 % 2 + v / 4 % 2 + v / 8 % 2 + v / 16 % 2 + v / 32 % 2 + v / 64 % 2 + v / 128 % 2
  }

  /** The proposal a signer may open now: next nonce, no live predecessor, deadlines that fit. */
  function NextProposal(s: State, now: u32, actor: Id32, body: seq<byte>): (r: Result<Proposal>)
    ensures r.Ok? && ValidConfig(s.config) ==> ValidProposal(r.value, s.config, r.value.nonce)
  {
    var signer :- SignerIndex(s.config, actor);
    var (nonce, action, value) :- ReadProposal(body);
    if s.proposal.nonce != 0 && now < s.proposal.expires then Err(E_GOVERNANCE)
    else if s.proposalNonce + 1 >= U64_END then Err(E_OVERFLOW)
    else if nonce != s.proposalNonce + 1 then Err(E_GOVERNANCE)
    else if now + s.config.delay + s.config.voteWindow >= U32_END then Err(E_OVERFLOW)
    else
      var ready := now + s.config.delay;
      Ok(Proposal(nonce, action, Bit(signer), value, now, ready, ready + s.config.voteWindow))
  }

  ghost function Propose(s: State, now: u32, actor: Id32, body: seq<byte>): (r: Result<Outcome>)
    requires Valid(s)
    ensures Keeps(s, r) && Quiet(s, r)
  {
    var p :- NextProposal(s, now, actor, body);
    assert p.nonce == s.proposalNonce + 1;
    Finished(s.(proposal := p, proposalNonce := p.nonce), 255, p.value)
  }

  ghost function Vote(s: State, now: u32, actor: Id32, body: seq<byte>): (r: Result<Outcome>)
    requires Valid(s)
    ensures Keeps(s, r) && Quiet(s, r)
  {
    var signer :- SignerIndex(s.config, actor);
    var (nonce, action, value) :- ReadProposal(body);
    if s.proposal.nonce == 0 || body != ProposalBody(s.proposal) then Err(E_GOVERNANCE)
    else if now >= s.proposal.expires then Err(E_EXPIRED)
    else if HasVote(s.proposal.votes, signer) then Err(E_DUPLICATE_VOTE)
    else
      Finished(s.(proposal := s.proposal.(votes := WithVote(s.proposal.votes, signer))), 255, value)
  }

  /** The effect of an approved action. */
  function Enacted(s: State, action: byte, value: u128): State {
    if action == PAUSE then s.(paused := true)
    else if action == RESUME then s.(paused := false)
    else s.(fuelLimit := value)
  }

  ghost function Execute(s: State, now: u32, body: seq<byte>): (r: Result<Outcome>)
    requires Valid(s)
    ensures Keeps(s, r) && Quiet(s, r)
  {
    if |body| != 8 then Err(E_ARGS) else
      var p := s.proposal;
      if p.nonce == 0 || Nat64(body) != p.nonce then Err(E_GOVERNANCE)
      else if now >= p.expires then Err(E_EXPIRED)
      else if CountOnes(p.votes) < 2 then Err(E_QUORUM)
      else if now < p.ready then Err(E_TIMELOCK)
      else Finished(Enacted(s, p.action, p.value).(proposal := NO_PROPOSAL), 255, p.value)
  }

  /** The member whose destination is `source`. */
  function MemberAt(c: Config, source: Address, from: nat): (r: Option<nat>)
    requires from <= c.count <= MAX_MEMBERS
    ensures r.Some? ==> from <= r.value < c.count && c.members[r.value].destination == source
    ensures r.None? ==> forall k | from <= k < c.count :: c.members[k].destination != source
    decreases c.count - from
  {
    if from == c.count then None
    else if c.members[from].destination == source then Some(from)
    else MemberAt(c, source, from + 1)
  }

  /** Everything the vault demands of a native callback before it looks at the payload. */
  predicate CallbackAdmissible(m: MemberState, here: Address, msg: Message)
    requires msg.Internal? && msg.callback.Some?
  {
    && m.pending != 0
    && msg.methodId == CALLBACK
    && msg.callback.value.causeAddress == here
    && msg.callback.value.causeHash != ZERO32
    && msg.callback.value.causeHash != m.lastHash
    && msg.createdLt > m.afterLt
    && msg.createdLt > m.lastLt
    && !msg.callbackRequest
    && OnlyHubCurrencies(msg.extra)
  }

  predicate CallbackPayload(m: MemberState, i: nat, msg: Message)
    requires i < MAX_MEMBERS && msg.Internal? && msg.callback.Some?
  {
    if msg.callback.value.status == 0
    then OnlyShell(msg.extra) && msg.body == PaymentBody(i, m.nonce, m.pending)
    else Principal(msg.extra) == m.pending && msg.body == []
  }

  /** The pending payout becomes paid, or claimable again, and the lock opens. */
  ghost function Unlocked(s: State, i: nat, success: bool, lt: u64, hash: Id32): State
    requires Valid(s) && i < s.config.count
  {
    var m := s.members[i];
    assert Sound(s, i);
    PaidFits(s, i);
    ValidIsWeighted(s.config);
    ShareFits(s, s.received, i);
    var n := m.(pending := 0, nonce := 0, afterLt := 0, lastLt := lt, lastHash := hash);
    if success
    then s.(members := s.members[i := n.(paid := m.paid + m.pending)], paid := s.paid + m.pending)
    else s.(members := s.members[i := n.(claimable := m.claimable + m.pending)])
  }

  lemma PaidFits(s: State, i: nat)
    requires Valid(s) && i < s.config.count
    ensures s.paid + s.members[i].pending <= s.received
  {
    Solvent(s);
    SumElementLe(PendingColumn(s.members), i);
  }

  lemma UnlockedIsValid(s: State, i: nat, success: bool, lt: u64, hash: Id32)
    requires Valid(s) && i < s.config.count && lt != 0 && hash != ZERO32
    ensures var t := Unlocked(s, i, success, lt, hash);
            && Valid(t)
            && Held(t) == Held(s) + (if success then 0 else s.members[i].pending)
  {
    assert Sound(s, i);
    var t := Unlocked(s, i, success, lt, hash);
    ReplaceKeepsValid(s, i, t.members[i], t.claimNonce, t);
  }

  ghost function Callback(s: State, here: Address, msg: Message): (r: Result<Outcome>)
    requires Valid(s) && msg.Internal? && msg.callback.Some?
    ensures Keeps(s, r)
  {
    match MemberAt(s.config, msg.source, 0)
    case None => Err(E_CALLBACK)
    case Some(i) =>
      if !CallbackAdmissible(s.members[i], here, msg) || !CallbackPayload(s.members[i], i, msg) then Err(E_CALLBACK)
      else
        var h := msg.callback.value;
        UnlockedIsValid(s, i, h.status == 0, msg.createdLt, h.causeHash);
        Finished(Unlocked(s, i, h.status == 0, msg.createdLt, h.causeHash), i, s.members[i].pending)
  }

  /** The meaning of one message to an initialised vault. */
  ghost function Process(s: State, in_: Input): Result<Outcome>
    requires Valid(s)
  {
    match in_.message
    case Internal(_, _, _, _, _, _, callback, _, _, _) =>
      if callback.Some? then Callback(s, in_.here, in_.message) else Err(E_AUTH)
    case External(actor, methodId, body, extra) =>
      if methodId == TOPUP then Topup(s, body, extra)
      else if methodId == DEPOSIT then Deposit(s, body, extra, in_.balance)
      else if extra != [] then Err(E_VALUE)
      else if methodId == STATUS then if body == [] then Finished(s, 255, 0) else Err(E_ARGS)
      else if methodId == CLAIM then Claim(s, in_, actor, body)
      else if methodId == PROPOSE then Propose(s, in_.blockTime, actor, body)
      else if methodId == VOTE then Vote(s, in_.blockTime, actor, body)
      else if methodId == EXECUTE then Execute(s, in_.blockTime, body)
      else Err(E_ARGS)
  }

  /** The invariant is inductive: whatever message succeeds, it leaves a valid state and the same fixed terms. */
  lemma ProcessKeepsValid(s: State, in_: Input)
    requires Valid(s)
    ensures Keeps(s, Process(s, in_))
  {
    assert Keeps(s, Finished(s, 255, 0));
  }

  /** No message to a valid vault is ever turned down because the vault finds its own books broken. */
  lemma BooksNeverBroken(s: State, in_: Input)
    requires Valid(s)
    ensures Process(s, in_) != Err(E_STATE)
  {
    hide Locked, Credit, Unlocked, EventOf, Payout, ValidConfig, SoundBooks, ValidProposal, Keeps, Quiet;
  }

  /** However deposits, claims and failed deliveries interleave, a member's total is a function of what came in. */
  lemma EntitlementIgnoresHistory(s: State, t: State, i: nat)
    requires Valid(s) && Valid(t) && s.config == t.config && s.received == t.received
    requires i < s.config.count
    ensures s.members[i].paid + s.members[i].claimable + s.members[i].pending
         == t.members[i].paid + t.members[i].claimable + t.members[i].pending
  {
    assert Sound(s, i);
    assert Sound(t, i);
  }

  /** From any valid state a deposit of `amount` can only fail on a zero amount or an overflowing total. */
  lemma DepositTotality(s: State, body: seq<byte>, extra: seq<Currency>, balance: seq<Currency>)
    requires Valid(s) && body == [] && !s.paused && OnlyHubCurrencies(extra) && NoZeroAmounts(extra)
    requires Held(s) + Principal(extra) <= Principal(balance)
    ensures Deposit(s, body, extra, balance).Ok? <==> Principal(extra) != 0 && s.received + Principal(extra) < U128_END
    ensures Deposit(s, body, extra, balance).Ok? ==>
      var t := Deposit(s, body, extra, balance).value.state;
      t.received == s.received + Principal(extra) && 0 <= Dust(t) < t.config.count
  {
    if Principal(extra) != 0 && s.received + Principal(extra) < U128_END {
      CreditKeepsValid(s, Principal(extra));
      Solvent(Credit(s, Principal(extra)));
    }
  }

  /** Nothing but claimable balances and governance fields differ, and `amount` was added to what is held. */
  ghost predicate OnlyCredits(s: State, t: State, amount: nat) {
    && t.config == s.config && t.claimNonce == s.claimNonce && t.paid == s.paid
    && t.received == s.received + amount
    && Held(t) == Held(s) + amount
    && (forall i | 0 <= i < MAX_MEMBERS :: t.members[i] == s.members[i].(claimable := t.members[i].claimable))
  }

  /** The claim that an ordinary call amounted to, if it was one. */
  ghost predicate Claims(s: State, o: Outcome, i: nat, blockLt: u64) {
    && i < s.config.count <= MAX_MEMBERS && s.members[i].pending == 0 && s.members[i].claimable != 0
    && s.claimNonce + 1 < U64_END
    && o.state == Locked(s, i, blockLt)
    && o.reply.sends == [Payout(o.state, i)]
  }

  /** An ordinary successful call either locks one member's whole balance and sends exactly that, or sends nothing. */
  lemma CallEffect(s: State, in_: Input)
    requires Valid(s) && Process(s, in_).Ok?
    requires in_.message.Internal? ==> in_.message.callback.None?
    ensures var o := Process(s, in_).value;
      if in_.message.methodId == CLAIM
      then in_.message.extra == [] && |in_.message.body| == 1 && Claims(s, o, in_.message.body[0], in_.blockLt)
      else o.reply.sends == [] && OnlyCredits(s, o.state, Principal(in_.message.extra))
  {
    var m := in_.message;
    if m.methodId == DEPOSIT {
      DepositEffect(s, m.body, m.extra, in_.balance);
    } else if m.methodId == TOPUP {
      NoPrincipal(m.extra);
      QuietEffect(s, Process(s, in_));
    } else if m.methodId == CLAIM {
      assert Process(s, in_) == Claim(s, in_, m.actor, m.body);
    } else {
      assert Quiet(s, Finished(s, 255, 0));
      QuietEffect(s, Process(s, in_));
    }
  }

  lemma DepositEffect(s: State, body: seq<byte>, extra: seq<Currency>, balance: seq<Currency>)
    requires Valid(s) && Deposit(s, body, extra, balance).Ok?
    ensures OnlyCredits(s, Deposit(s, body, extra, balance).value.state, Principal(extra))
  {
    CreditKeepsValid(s, Principal(extra));
    CreditColumns(s, Principal(extra));
  }

  lemma QuietEffect(s: State, r: Result<Outcome>)
    requires Quiet(s, r) && r.Ok?
    ensures r.value.reply.sends == [] && OnlyCredits(s, r.value.state, 0)
  {
  }

  lemma {:induction false} NoPrincipal(extra: seq<Currency>)
    requires OnlyShell(extra)
    ensures Principal(extra) == 0
  {
    if extra != [] {
      NoPrincipal(extra[1..]);
    }
  }

  lemma DestinationsDiffer(c: Config)
    requires ValidConfig(c)
    ensures forall i, j | 0 <= i < j < c.count :: c.members[i].destination != c.members[j].destination
  {
    forall i, j | 0 <= i < j < c.count ensures c.members[i].destination != c.members[j].destination {
      assert NewMember(c.members, j);
    }
  }

  /** An accepted callback releases the lock of the member it came from, and only that. */
  lemma CallbackEffect(s: State, in_: Input, i: nat)
    requires Valid(s) && i < s.config.count
    requires in_.message.Internal? && in_.message.callback.Some?
    requires in_.message.source == s.config.members[i].destination
    requires CallbackAdmissible(s.members[i], in_.here, in_.message)
    requires CallbackPayload(s.members[i], i, in_.message)
    ensures var h := in_.message.callback.value;
      && Process(s, in_).Ok?
      && Process(s, in_).value.state == Unlocked(s, i, h.status == 0, in_.message.createdLt, h.causeHash)
      && Process(s, in_).value.reply.sends == []
  {
    DestinationsDiffer(s.config);
    assert MemberAt(s.config, in_.message.source, 0) == Some(i);
  }
}
