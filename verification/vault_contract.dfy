/** The vault as it runs: fields updated in place, checked arithmetic, and a full re-validation before every reply. */
module VaultContract {
  import opened Bytes
  import opened Sdk
  import opened Sums
  import opened RevenueCore
  import opened VaultState
  import opened VaultSpec

  /** The method answered with `r` and left state `t`, exactly as `spec` says; a failure leaves the state alone. */
  ghost predicate Refines(s: State, spec: Result<Outcome>, t: State, r: Result<Reply>) {
    match spec
    case Ok(o) => r == Ok(o.reply) && t == o.state
    case Err(code) => r == Err(code) && t == s
  }

  class Vault {
    var config: Config
    var received: u128
    var paid: u128
    var claimNonce: u64
    var proposalNonce: u64
    var paused: bool
    var proposal: Proposal
    var members: MemberStates
    var fuelLimit: u128

    ghost function Value(): State
      reads this
    {
      State(config, received, paid, claimNonce, proposalNonce, paused, proposal, members, fuelLimit)
    }

    constructor (s: State)
      ensures Value() == s
    {
      config := s.config;
      received := s.received;
      paid := s.paid;
      claimNonce := s.claimNonce;
      proposalNonce := s.proposalNonce;
      paused := s.paused;
      proposal := s.proposal;
      members := s.members;
      fuelLimit := s.fuelLimit;
    }

    /** The per-member part of `State::validate`: on success, the member's share. */
    method CheckMember(i: nat) returns (r: Result<u128>)
      requires Weighted(config) && i < config.count
      ensures r == if SoundSlot(config, received, claimNonce, members, i)
                   then Ok(Share(received, config.members[i].weight)) else Err(E_STATE)
    {
      var m := members[i];
      ShareFits(Value(), received, i);
      EntitlementExact(received, config.members[i].weight);
      var first := CheckedAdd(m.paid, m.claimable);
      if first.None? {
        return Err(E_STATE);
      }
      var sum := CheckedAdd(first.value, m.pending);
      if sum.None? {
        return Err(E_STATE);
      }
      var share :- Entitlement(received, config.members[i].weight);
      if sum.value != share
         || (m.pending == 0 && (m.nonce != 0 || m.afterLt != 0))
         || (m.pending != 0 && (m.nonce == 0 || m.nonce > claimNonce || m.afterLt < m.lastLt))
         || ((m.lastLt == 0) != (m.lastHash == ZERO32))
      {
        return Err(E_STATE);
      }
      return Ok(sum.value);
    }

    /** What one slot adds to the two totals; a sound one never adds more to the first than to the second. */
    lemma SlotEntries(i: nat)
      requires config.count <= MAX_MEMBERS && i < MAX_MEMBERS
      ensures PaidColumn(members)[i] == members[i].paid
      ensures i >= config.count ==> (SoundSlot(config, received, claimNonce, members, i) <==> members[i] == IDLE)
      ensures i < config.count ==>
        && Shares(received, Weights(config))[i] == Share(received, config.members[i].weight)
        && (SoundSlot(config, received, claimNonce, members, i) ==>
              members[i].paid <= Share(received, config.members[i].weight))
    {
    }

    lemma NothingSummed(xs: seq<nat>, ys: seq<nat>)
      ensures Sum(xs[..0]) == Sum(ys[..0]) == 0
    {
    }

    /** The loop of `State::validate` with its two running totals. */
    method CheckMembers() returns (r: Result<(u128, u128)>)
      requires Weighted(config)
      ensures r.Ok? <==> SoundBooks(config, received, claimNonce, members)
      ensures r.Ok? ==> r.value == (Sum(PaidColumn(members)), Sum(Shares(received, Weights(config))))
      ensures r.Err? ==> r.code == E_STATE
    {
      hide LegalMembers, Sum, PaidColumn, Shares, SoundSlot;
      var n := config.count;
      ghost var column := PaidColumn(members);
      ghost var shares := Shares(received, Weights(config));
      DustBound(received, Weights(config));
      NothingSummed(column, shares);
      var total: u128, all: u128 := 0, 0;
      for i := 0 to MAX_MEMBERS
        invariant forall k | 0 <= k < i :: SoundSlot(config, received, claimNonce, members, k)
        invariant total == Sum(column[..i])
        invariant all == Sum(shares[..if i < n then i else n])
        invariant total <= all <= received
      {
        SumPrefix(column, i);
        SlotEntries(i);
        if i >= n {
          if members[i] != IDLE {
            assert !SoundSlot(config, received, claimNonce, members, i);
            return Err(E_STATE);
          }
        } else {
          var share :- CheckMember(i);
          SumPrefix(shares, i);
          SumPrefixLe(shares, i + 1);
          total := total + members[i].paid;
          all := all + share;
        }
      }
      assert column[..MAX_MEMBERS] == column && shares[..n] == shares;
      return Ok((total, all));
    }

    /** `State::validate` accepts exactly the valid states; its check on undistributed dust never decides. */
    method Validate() returns (r: Result<()>)
      ensures r == if Valid(Value()) then Ok(()) else Err(E_STATE)
    {
      var c := ValidateConfig(config);
      if c.Err? {
        return Err(E_STATE);
      }
      if fuelLimit == 0 {
        return Err(E_STATE);
      }
      ValidIsWeighted(config);
      var sums :- CheckMembers();
      var (total, all) := sums;
      DustBound(received, Weights(config));
      if total != paid || all > received || received - all >= config.count {
        return Err(E_STATE);
      }
      r := CheckProposal();
    }

    method CheckProposal() returns (r: Result<()>)
      ensures r == if ValidProposal(proposal, config, proposalNonce) then Ok(()) else Err(E_STATE)
    {
      var p := proposal;
      ReadProposalErr(p);
      if p.nonce == 0 {
        if p != NO_PROPOSAL {
          return Err(E_STATE);
        }
      } else if p.nonce != proposalNonce || p.votes == 0 || p.votes >= 8
         || ReadProposal(ProposalBody(p)).Err?
         || p.created + config.delay != p.ready
         || p.ready + config.voteWindow != p.expires
      {
        return Err(E_STATE);
      }
      return Ok(());
    }

    /** `State::pending`, a checked fold. */
    method Pending() returns (r: Result<u128>)
      requires Valid(Value())
      ensures r == Ok(InFlight(Value()))
    {
      Solvent(Value());
      ghost var column := PendingColumn(members);
      var v: u128 := 0;
      for i := 0 to MAX_MEMBERS
        invariant v == Sum(column[..i])
      {
        SumPrefix(column, i);
        SumPrefixLe(column, i + 1);
        var next := CheckedAdd(v, members[i].pending);
        if next.None? {
          return Err(E_STATE);
        }
        v := next.value;
      }
      assert column[..MAX_MEMBERS] == column;
      return Ok(v);
    }

    method HeldPrincipal() returns (r: Result<u128>)
      requires Valid(Value())
      ensures r.Ok? && r.value == Held(Value())
    {
      Solvent(Value());
      var rest := CheckedSub(received, paid);
      if rest.None? {
        return Err(E_STATE);
      }
      var pending :- Pending();
      var held := CheckedSub(rest.value, pending);
      if held.None? {
        return Err(E_STATE);
      }
      return Ok(held.value);
    }

    method Undistributed() returns (r: Result<u128>)
      requires Valid(Value())
      ensures r.Ok? && r.value == Dust(Value())
    {
      hide LegalMembers, SoundBooks, LegalSigners;
      ghost var shares := Shares(received, Weights(config));
      DustBound(received, Weights(config));
      ValidIsWeighted(config);
      var sum: u128 := 0;
      for i := 0 to config.count
        invariant sum == Sum(shares[..i])
      {
        SumPrefix(shares, i);
        SumPrefixLe(shares, i + 1);
        ShareFits(Value(), received, i);
        EntitlementExact(received, config.members[i].weight);
        var share :- Entitlement(received, config.members[i].weight);
        var next := CheckedAdd(sum, share);
        if next.None? {
          return Err(E_STATE);
        }
        sum := next.value;
      }
      assert shares[..config.count] == shares;
      var dust := CheckedSub(received, sum);
      if dust.None? {
        return Err(E_STATE);
      }
      return Ok(dust.value);
    }

    /** One iteration of the deposit loop, on the local copy of the member array. */
    method Raised(next: u128, i: nat) returns (r: Result<MemberState>)
      requires received <= next && CanCredit(Value(), next - received) && i < config.count
      ensures r == Ok(Credited(Value(), next - received, i))
    {
      hide SoundBooks, Sum, ValidConfig;
      ValidIsWeighted(config);
      ShareFits(Value(), received, i);
      EntitlementExact(received, config.members[i].weight);
      EntitlementExact(next, config.members[i].weight);
      IncrementFits(Value(), next - received, i);
      var after :- Entitlement(next, config.members[i].weight);
      var before :- Entitlement(received, config.members[i].weight);
      var delta := CheckedSub(after, before);
      if delta.None? {
        return Err(E_STATE);
      }
      var claimable := CheckedAdd(members[i].claimable, delta.value);
      if claimable.None? {
        return Err(E_OVERFLOW);
      }
      return Ok(members[i].(claimable := claimable.value));
    }

    /** `State::deposit`. It assigns before it validates, and the validation is shown unable to fail there. */
    method DepositAmount(amount: u128) returns (r: Result<()>)
      requires Valid(Value())
      modifies this
      ensures amount == 0 ==> r == Err(E_VALUE) && Value() == old(Value())
      ensures amount != 0 && old(received) + amount >= U128_END ==> r == Err(E_OVERFLOW) && Value() == old(Value())
      ensures amount != 0 && old(received) + amount < U128_END ==>
        r == Ok(()) && Value() == Credit(old(Value()), amount)
    {
      hide SoundBooks, ValidConfig, ValidProposal;
      if amount == 0 {
        return Err(E_VALUE);
      }
      var next := CheckedAdd(received, amount);
      if next.None? {
        return Err(E_OVERFLOW);
      }
      ghost var s := Value();
      var copy :- RaisedMembers(next.value);
      received := next.value;
      members := copy;
      CreditKeepsValid(s, amount);
      r := Validate();
    }

    /** The deposit loop over a copy of the member array. */
    method RaisedMembers(next: u128) returns (r: Result<MemberStates>)
      requires received <= next && CanCredit(Value(), next - received)
      ensures r == Ok(Credit(Value(), next - received).members)
    {
      hide SoundBooks;
      var copy := members;
      for i := 0 to config.count
        invariant forall k | 0 <= k < i :: copy[k] == Credited(Value(), next - received, k)
        invariant forall k | i <= k < MAX_MEMBERS :: copy[k] == members[k]
      {
        var raised :- Raised(next, i);
        copy := copy[i := raised];
      }
      assert copy == Credit(Value(), next - received).members;
      return Ok(copy);
    }

    /** `finish`: re-validate, compute the reported figures, reply. On a valid state nothing here can fail. */
    method Finish(member: byte, amount: u128) returns (r: Result<Reply>)
      requires Valid(Value())
      ensures r == Ok(Reply(EventOf(Value(), member, amount), []))
    {
      var _ :- Validate();
      var dust :- Undistributed();
      var held :- HeldPrincipal();
      var pending :- Pending();
      return Ok(Reply(Event(member, amount, dust, held, pending, paid, received, claimNonce, proposalNonce, paused),
             []));
    }

    method DepositCall(body: seq<byte>, extra: seq<Currency>, balance: seq<Currency>) returns (r: Result<Reply>)
      requires Valid(Value())
      modifies this
      ensures Refines(old(Value()), Deposit(old(Value()), body, extra, balance), Value(), r)
    {
      if body != [] {
        return Err(E_ARGS);
      }
      if paused {
        return Err(E_PAUSED);
      }
      if !OnlyHubCurrencies(extra) || !NoZeroAmounts(extra) {
        return Err(E_VALUE);
      }
      var amount := Principal(extra);
      if amount == 0 {
        return Err(E_VALUE);
      }
      Solvent(Value());
      var held :- HeldPrincipal();
      var needed := CheckedAdd(held, amount);
      if needed.None? || needed.value > Principal(balance) {
        return Err(E_BALANCE);
      }
      var _ :- DepositAmount(amount);
      CreditKeepsValid(old(Value()), amount);
      r := Finish(255, amount);
    }

    method ClaimCall(in_: Input, actor: Id32, body: seq<byte>) returns (r: Result<Reply>)
      requires Valid(Value())
      modifies this
      ensures Refines(old(Value()), Claim(old(Value()), in_, actor, body), Value(), r)
    {
      if |body| != 1 || body[0] >= config.count {
        return Err(E_ARGS);
      }
      var i := body[0];
      var member := config.members[i];
      if actor != member.key {
        return Err(E_AUTH);
      }
      if paused {
        return Err(E_PAUSED);
      }
      if members[i].pending != 0 {
        return Err(E_BUSY);
      }
      var amount := members[i].claimable;
      if amount == 0 {
        return Err(E_EMPTY);
      }
      var held :- HeldPrincipal();
      if Principal(in_.balance) < held || !HasShell(in_.balance, fuelLimit) {
        return Err(E_BALANCE);
      }
      if claimNonce + 1 >= U64_END {
        return Err(E_OVERFLOW);
      }
      var nonce := claimNonce + 1;
      LockedIsValid(Value(), i, in_.blockLt);
      members := members[i := members[i].(pending := amount, claimable := 0, nonce := nonce,
                                          afterLt := Max(in_.blockLt, members[i].lastLt))];
      claimNonce := nonce;
      assert Value() == Locked(old(Value()), i, in_.blockLt);
      var out :- Finish(i, amount);
      return Ok(out.(sends := [Outbound(member.destination, fuelLimit, amount, RECEIVE,
                                        PaymentBody(i, nonce, amount), Some(CALLBACK))]));
    }

    /** The checks of PROPOSE, with each addition checked on its own. */
    method CheckedProposal(now: u32, actor: Id32, body: seq<byte>) returns (r: Result<Proposal>)
      ensures r == NextProposal(Value(), now, actor, body)
    {
      var signer :- SignerIndex(config, actor);
      var fields :- ReadProposal(body);
      var (nonce, action, value) := fields;
      if proposal.nonce != 0 && now < proposal.expires {
        return Err(E_GOVERNANCE);
      }
      if proposalNonce + 1 >= U64_END {
        return Err(E_OVERFLOW);
      }
      if nonce != proposalNonce + 1 {
        return Err(E_GOVERNANCE);
      }
      if now + config.delay >= U32_END {
        return Err(E_OVERFLOW);
      }
      var ready := now + config.delay;
      if ready + config.voteWindow >= U32_END {
        return Err(E_OVERFLOW);
      }
      return Ok(Proposal(nonce, action, Bit(signer), value, now, ready, ready + config.voteWindow));
    }

    method ProposeCall(now: u32, actor: Id32, body: seq<byte>) returns (r: Result<Reply>)
      requires Valid(Value())
      modifies this
      ensures Refines(old(Value()), Propose(old(Value()), now, actor, body), Value(), r)
    {
      var p :- CheckedProposal(now, actor, body);
      proposal := p;
      proposalNonce := p.nonce;
      r := Finish(255, p.value);
    }

    method VoteCall(now: u32, actor: Id32, body: seq<byte>) returns (r: Result<Reply>)
      requires Valid(Value())
      modifies this
      ensures Refines(old(Value()), Vote(old(Value()), now, actor, body), Value(), r)
    {
      var signer :- SignerIndex(config, actor);
      var fields :- ReadProposal(body);
      if proposal.nonce == 0 || body != ProposalBody(proposal) {
        return Err(E_GOVERNANCE);
      }
      if now >= proposal.expires {
        return Err(E_EXPIRED);
      }
      var bit := Bit(signer);
      if proposal.votes / bit % 2 != 0 {
        return Err(E_DUPLICATE_VOTE);
      }
      proposal := proposal.(votes := WithVote(proposal.votes, signer));
      r := Finish(255, fields.2);
    }

    method ExecuteCall(now: u32, body: seq<byte>) returns (r: Result<Reply>)
      requires Valid(Value())
      modifies this
      ensures Refines(old(Value()), Execute(old(Value()), now, body), Value(), r)
    {
      if |body| != 8 {
        return Err(E_ARGS);
      }
      var p := proposal;
      if p.nonce == 0 || Nat64(body) != p.nonce {
        return Err(E_GOVERNANCE);
      }
      if now >= p.expires {
        return Err(E_EXPIRED);
      }
      if CountOnes(p.votes) < 2 {
        return Err(E_QUORUM);
      }
      if now < p.ready {
        return Err(E_TIMELOCK);
      }
      if p.action == PAUSE {
        paused := true;
      } else if p.action == RESUME {
        paused := false;
      } else if p.action == SET_FUEL {
        fuelLimit := p.value;
      } else {
        return Err(E_STATE);
      }
      proposal := NO_PROPOSAL;
      r := Finish(255, p.value);
    }

    method CallbackCall(here: Address, msg: Message) returns (r: Result<Reply>)
      requires Valid(Value()) && msg.Internal? && msg.callback.Some?
      modifies this
      ensures Refines(old(Value()), Callback(old(Value()), here, msg), Value(), r)
    {
      var h := msg.callback.value;
      var position := MemberAt(config, msg.source, 0);
      if position.None? {
        return Err(E_CALLBACK);
      }
      var i := position.value;
      var m := members[i];
      if m.pending == 0 || msg.methodId != CALLBACK || h.causeAddress != here || h.causeHash == ZERO32
         || h.causeHash == m.lastHash || msg.createdLt <= m.afterLt || msg.createdLt <= m.lastLt
         || msg.callbackRequest || !OnlyHubCurrencies(msg.extra)
      {
        return Err(E_CALLBACK);
      }
      var success := h.status == 0;
      if success {
        if !OnlyShell(msg.extra) || msg.body != PaymentBody(i, m.nonce, m.pending) {
          return Err(E_CALLBACK);
        }
      } else if Principal(msg.extra) != m.pending || msg.body != [] {
        return Err(E_CALLBACK);
      }
      UnlockedIsValid(Value(), i, success, msg.createdLt, h.causeHash);
      var _ :- Settle(i, success, msg.createdLt, h.causeHash);
      r := Finish(i, m.pending);
    }

    /** The assignments of `callback` once the message is accepted. */
    method Settle(i: nat, success: bool, lt: u64, hash: Id32) returns (r: Result<()>)
      requires Valid(Value()) && i < config.count
      modifies this
      ensures r == Ok(()) && Value() == Unlocked(old(Value()), i, success, lt, hash)
    {
      hide ValidProposal, PaidColumn, PendingColumn, LegalMembers, LegalSigners;
      var m := members[i];
      PaidFits(Value(), i);
      ValidIsWeighted(config);
      ShareFits(Value(), received, i);
      assert Sound(Value(), i);
      if success {
        var memberPaid := CheckedAdd(m.paid, m.pending);
        if memberPaid.None? {
          return Err(E_OVERFLOW);
        }
        members := members[i := members[i].(paid := memberPaid.value)];
        var totalPaid := CheckedAdd(paid, m.pending);
        if totalPaid.None? {
          return Err(E_OVERFLOW);
        }
        paid := totalPaid.value;
      } else {
        var claimable := CheckedAdd(m.claimable, m.pending);
        if claimable.None? {
          return Err(E_OVERFLOW);
        }
        members := members[i := members[i].(claimable := claimable.value)];
      }
      members := members[i := members[i].(pending := 0, nonce := 0, afterLt := 0, lastLt := lt, lastHash := hash)];
      return Ok(());
    }

    /** The entrypoint after decoding: dispatch on the kind of message and its method. */
    method ProcessMessage(in_: Input) returns (r: Result<Reply>)
      requires Valid(Value())
      modifies this
      ensures Refines(old(Value()), Process(old(Value()), in_), Value(), r)
    {
      match in_.message
      case Internal(_, _, _, _, _, _, callback, _, _, _) =>
        if callback.Some? {
          r := CallbackCall(in_.here, in_.message);
        } else {
          r := Err(E_AUTH);
        }
      case External(actor, methodId, body, extra) =>
        if methodId == TOPUP {
          if body != [] {
            return Err(E_ARGS);
          }
          if extra == [] || !OnlyShell(extra) || !NoZeroAmounts(extra) {
            return Err(E_VALUE);
          }
          r := Finish(255, 0);
        } else if methodId == DEPOSIT {
          r := DepositCall(body, extra, in_.balance);
        } else if extra != [] {
          r := Err(E_VALUE);
        } else if methodId == STATUS {
          if body != [] {
            return Err(E_ARGS);
          }
          r := Finish(255, 0);
        } else if methodId == CLAIM {
          r := ClaimCall(in_, actor, body);
        } else if methodId == PROPOSE {
          r := ProposeCall(in_.blockTime, actor, body);
        } else if methodId == VOTE {
          r := VoteCall(in_.blockTime, actor, body);
        } else if methodId == EXECUTE {
          r := ExecuteCall(in_.blockTime, body);
        } else {
          r := Err(E_ARGS);
        }
    }
  }

  /** The body reader turns down the body of any proposal that is not a legal action. */
  lemma ReadProposalErr(p: Proposal)
    ensures ReadProposal(ProposalBody(p)).Err? <==> !LegalAction(p.nonce, p.action, p.value)
  {
    ProposalRoundTrip(ProposalBody(p), p);
    if ReadProposal(ProposalBody(p)).Ok? {
      var v := ReadProposal(ProposalBody(p)).value;
      ProposalRoundTrip(ProposalBody(p), p.(nonce := v.0, action := v.1, value := v.2));
      var body := ProposalBody(p);
      assert body[..8] == Le64(p.nonce) && body[9..25] == Le128(p.value);
      Le64Inverse(p.nonce);
      Le128Inverse(p.value);
    }
  }
}
