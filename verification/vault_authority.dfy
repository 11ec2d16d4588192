/**
 * Which messages the vault accepts and what each accepted one does to every field, said condition by condition and
 * without the functions that compute it; and who alone can bring each change about.
 */
module VaultAuthority {
  import opened Bytes
  import opened Sdk
  import opened Admission
  import opened Sums
  import opened RevenueCore
  import opened VaultState
  import V = VaultSpec

  predicate AllHubCurrencies(extra: seq<Currency>) {
    forall k | 0 <= k < |extra| :: extra[k].id == 0 || extra[k].id == 2
  }

  predicate MayTopup(s: State, in_: Input) {
    var m := in_.message;
    && Calls(in_, TOPUP) && m.body == [] && m.extra != [] && AllShell(m.extra) && AllNonzero(m.extra)
  }

  predicate MayDeposit(s: State, in_: Input) {
    var m := in_.message;
    && Calls(in_, DEPOSIT) && m.body == []
    && !s.paused
    && AllHubCurrencies(m.extra) && AllNonzero(m.extra) && Principal(m.extra) > 0
    && Held(s) + Principal(m.extra) <= Principal(in_.balance)
    && s.received + Principal(m.extra) < U128_END
  }

  predicate MayAskStatus(s: State, in_: Input) {
    Calls(in_, STATUS) && in_.message.body == [] && in_.message.extra == []
  }

  /** Member `i` takes out its own claimable balance from an unpaused vault. */
  predicate MayClaim(s: State, in_: Input, i: nat) {
    var m := in_.message;
    && Calls(in_, CLAIM) && m.extra == []
    && i < s.config.count && i < MAX_MEMBERS && |m.body| == 1 && m.body[0] == i
    && m.actor == s.config.members[i].key
    && !s.paused
    && s.members[i].pending == 0 && s.members[i].claimable > 0
    && Held(s) <= Principal(in_.balance) && FuelAtHand(in_.balance, s.fuelLimit)
    && s.claimNonce < U64_END - 1
  }

  predicate IsSigner(c: Config, key: Id32) {
    key == c.signers[0] || key == c.signers[1] || key == c.signers[2]
  }

  /** `bits` holds the bit of every governance key that is `key`, and no other. */
  predicate OwnBit(c: Config, key: Id32, bits: byte) {
    (bits == 1 && key == c.signers[0]) || (bits == 2 && key == c.signers[1]) || (bits == 4 && key == c.signers[2])
  }

  predicate KnownAction(action: byte, value: u128) {
    ((action == 1 || action == 2) && value == 0) || (action == 3 && value > 0)
  }

  /** A signer opens `p`: the next nonce, no live predecessor, the configured deadlines, one vote. */
  predicate MayPropose(s: State, in_: Input, p: Proposal) {
    var m := in_.message;
    && Calls(in_, PROPOSE) && m.extra == []
    && OwnBit(s.config, m.actor, p.votes)
    && m.body == Le64(p.nonce) + [p.action] + Le128(p.value)
    && KnownAction(p.action, p.value)
    && (s.proposal.nonce == 0 || s.proposal.expires <= in_.blockTime)
    && p.nonce == s.proposalNonce + 1
    && p.created == in_.blockTime
    && p.ready == p.created + s.config.delay
    && p.expires == p.ready + s.config.voteWindow
  }

  /** The bit of governance key `k` in a vote byte. */
  predicate Voted(votes: byte, k: nat)
    requires k < 3
  {
    (if k == 0 then votes else if k == 1 then votes / 2 else votes / 4) % 2 == 1
  }

  predicate MayVote(s: State, in_: Input) {
    var m := in_.message;
    && Calls(in_, VOTE) && m.extra == []
    && IsSigner(s.config, m.actor)
    && s.proposal.nonce != 0 && in_.blockTime < s.proposal.expires
    && m.body == Le64(s.proposal.nonce) + [s.proposal.action] + Le128(s.proposal.value)
    && (forall k: nat | k < 3 && s.config.signers[k] == m.actor :: !Voted(s.proposal.votes, k))
  }

  /** Anyone enacts a live, ripe proposal that two different keys voted for, by naming its nonce. */
  predicate MayExecute(s: State, in_: Input) {
    var m, p := in_.message, s.proposal;
    && Calls(in_, EXECUTE) && m.extra == []
    && m.body == Le64(p.nonce) && p.nonce != 0
    && p.ready <= in_.blockTime < p.expires
    && (exists j: nat, k: nat :: j < k < 3 && Voted(p.votes, j) && Voted(p.votes, k))
  }

  /** The native callback of member `i`'s payout: a success that echoes the payment, or the principal returned. */
  predicate MaySettle(s: State, in_: Input, i: nat) {
    var m := in_.message;
    && m.Internal? && m.callback.Some?
    && i < s.config.count && i < MAX_MEMBERS && m.source == s.config.members[i].destination
    && s.members[i].pending > 0
    && m.methodId == CALLBACK && !m.callbackRequest
    && m.callback.value.causeAddress == in_.here
    && m.callback.value.causeHash != ZERO32 && m.callback.value.causeHash != s.members[i].lastHash
    && s.members[i].afterLt < m.createdLt && s.members[i].lastLt < m.createdLt
    && (if m.callback.value.status == 0
        then AllShell(m.extra) && m.body == [i] + Le64(s.members[i].nonce) + Le128(s.members[i].pending)
        else AllHubCurrencies(m.extra) && Principal(m.extra) == s.members[i].pending && m.body == [])
  }

  ghost predicate Granted(s: State, in_: Input) {
    || MayTopup(s, in_) || MayDeposit(s, in_) || MayAskStatus(s, in_)
    || (exists i: nat :: MayClaim(s, in_, i))
    || (exists p :: MayPropose(s, in_, p))
    || MayVote(s, in_) || MayExecute(s, in_)
    || (exists i: nat :: MaySettle(s, in_, i))
  }

  /** The reported figures, each one named. */
  ghost predicate Reports(e: V.Event, s: State, member: byte, amount: nat) {
    && e.member == member && e.amount == amount
    && e.received == s.received && e.paid == s.paid && e.pending == InFlight(s)
    && e.held == s.received - s.paid - InFlight(s)
    && s.config.count <= MAX_MEMBERS && e.dust == s.received - Sum(Shares(s.received, Weights(s.config)))
    && e.claimNonce == s.claimNonce && e.proposalNonce == s.proposalNonce && e.paused == s.paused
  }

  ghost predicate Leads(s: State, in_: Input, t: State, member: byte, amount: nat)
    requires Valid(s)
  {
    && V.Process(s, in_).Ok?
    && V.Process(s, in_).value.state == t
    && Reports(V.Process(s, in_).value.reply.event, t, member, amount)
  }

  ghost predicate Sends(s: State, in_: Input, sends: seq<Outbound>)
    requires Valid(s)
  {
    V.Process(s, in_).Ok? && V.Process(s, in_).value.reply.sends == sends
  }

  lemma FinishedReports(s: State, member: byte, amount: u128)
    requires Valid(s)
    ensures Reports(V.EventOf(s, member, amount), s, member, amount)
  {
    hide Sum, SoundBooks;
  }

  /** Fees and status: accepted in exactly these cases, and nothing at all changes. */
  lemma TopupExact(s: State, in_: Input)
    requires Valid(s) && Calls(in_, TOPUP)
    ensures V.Process(s, in_).Ok? <==> MayTopup(s, in_)
    ensures MayTopup(s, in_) ==> Leads(s, in_, s, 255, 0) && Sends(s, in_, [])
  {
    hide Valid, V.EventOf;
    FinishedReports(s, 255, 0);
  }

  lemma StatusExact(s: State, in_: Input)
    requires Valid(s) && Calls(in_, STATUS)
    ensures V.Process(s, in_).Ok? <==> MayAskStatus(s, in_)
    ensures MayAskStatus(s, in_) ==> Leads(s, in_, s, 255, 0) && Sends(s, in_, [])
  {
    hide Valid, V.EventOf;
    FinishedReports(s, 255, 0);
  }

  /** Every member's balance after `amount` came in: its exact share of the new total, less what is paid or pending. */
  ghost predicate Deposited(s: State, t: State, amount: nat) {
    && s.config.count <= MAX_MEMBERS
    && t == s.(received := t.received, members := t.members)
    && t.received == s.received + amount
    && (forall i: nat | i < MAX_MEMBERS :: t.members[i] == s.members[i].(claimable := t.members[i].claimable))
    && (forall i: nat | s.config.count <= i < MAX_MEMBERS :: t.members[i].claimable == s.members[i].claimable)
    && (forall i: nat | i < s.config.count ::
          t.members[i].claimable + t.members[i].paid + t.members[i].pending
          == (s.received + amount) * s.config.members[i].weight / 10_000)
  }

  lemma CreditIsDeposit(s: State, amount: nat)
    requires CanCredit(s, amount)
    ensures Deposited(s, Credit(s, amount), amount)
  {
    CreditKeepsValid(s, amount);
    forall i: nat | i < s.config.count
      ensures var t := Credit(s, amount);
        t.members[i].claimable + t.members[i].paid + t.members[i].pending
        == (s.received + amount) * s.config.members[i].weight / 10_000
    {
      assert Sound(Credit(s, amount), i);
    }
  }

  /** A deposit is taken exactly when the vault is unpaused and the money is there; it is split exactly by weight. */
  lemma DepositExact(s: State, in_: Input)
    requires Valid(s) && Calls(in_, DEPOSIT)
    ensures V.Process(s, in_).Ok? <==> MayDeposit(s, in_)
    ensures MayDeposit(s, in_) ==>
      && Leads(s, in_, V.Process(s, in_).value.state, 255, Principal(in_.message.extra))
      && Deposited(s, V.Process(s, in_).value.state, Principal(in_.message.extra))
      && Sends(s, in_, [])
  {
    hide Valid, V.EventOf, Credit;
    if MayDeposit(s, in_) {
      var amount := Principal(in_.message.extra);
      CreditIsDeposit(s, amount);
      CreditKeepsValid(s, amount);
      FinishedReports(Credit(s, amount), 255, amount);
    }
  }

  /** The state a claim leaves: the balance moved to pending under the next nonce, waiting for a later callback. */
  function AfterClaim(s: State, i: nat, blockLt: u64): State
    requires i < MAX_MEMBERS && s.claimNonce < U64_END - 1
  {
    var m := s.members[i];
    var after := if blockLt >= m.lastLt then blockLt else m.lastLt;
    s.(claimNonce := s.claimNonce + 1,
       members := s.members[i := MemberState(0, m.paid, m.claimable, s.claimNonce + 1, after, m.lastLt, m.lastHash)])
  }

  /** A claim is granted exactly to the member's own key on an unpaused vault, and sends exactly its balance. */
  lemma ClaimExact(s: State, in_: Input)
    requires Valid(s) && Calls(in_, CLAIM)
    ensures V.Process(s, in_).Ok? <==> |in_.message.body| == 1 && MayClaim(s, in_, in_.message.body[0])
    ensures V.Process(s, in_).Ok? ==>
      var i: nat := in_.message.body[0];
      && Leads(s, in_, AfterClaim(s, i, in_.blockLt), i, s.members[i].claimable)
      && Sends(s, in_, [Outbound(s.config.members[i].destination, s.fuelLimit, s.members[i].claimable, RECEIVE,
                                 [i] + Le64(s.claimNonce + 1) + Le128(s.members[i].claimable), Some(CALLBACK))])
  {
    hide Valid, V.EventOf;
    ConfigFits(s);
    if V.Process(s, in_).Ok? {
      var i: nat := in_.message.body[0];
      V.LockedIsValid(s, i, in_.blockLt);
      FinishedReports(V.Locked(s, i, in_.blockLt), i, s.members[i].claimable);
    }
  }

  lemma ConfigFits(s: State)
    requires Valid(s)
    ensures s.config.count <= MAX_MEMBERS
  {
  }

  /** A signer's bit is set in the vote byte of the proposal it opens. */
  lemma OpenedBySigner(s: State, now: u32, actor: Id32, body: seq<byte>)
    requires V.NextProposal(s, now, actor, body).Ok?
    ensures var p := V.NextProposal(s, now, actor, body).value;
      && OwnBit(s.config, actor, p.votes)
      && body == Le64(p.nonce) + [p.action] + Le128(p.value)
      && KnownAction(p.action, p.value)
      && (s.proposal.nonce == 0 || s.proposal.expires <= now)
      && p.nonce == s.proposalNonce + 1
      && p.created == now && p.ready == now + s.config.delay && p.expires == p.ready + s.config.voteWindow
  {
    ProposalRoundTrip(body, V.NextProposal(s, now, actor, body).value);
  }

  /** A proposal is opened exactly by a signer, under the next nonce, with no live predecessor, and with one vote. */
  lemma ProposeExact(s: State, in_: Input)
    requires Valid(s) && Calls(in_, PROPOSE)
    ensures V.Process(s, in_).Ok? <==> exists p :: MayPropose(s, in_, p)
    ensures forall p | MayPropose(s, in_, p) ::
      && Leads(s, in_, s.(proposal := p, proposalNonce := p.nonce), 255, p.value) && Sends(s, in_, [])
  {
    if V.Process(s, in_).Ok? {
      assert V.Process(s, in_) == V.Propose(s, in_.blockTime, in_.message.actor, in_.message.body);
      OpenedBySigner(s, in_.blockTime, in_.message.actor, in_.message.body);
      assert MayPropose(s, in_, V.NextProposal(s, in_.blockTime, in_.message.actor, in_.message.body).value);
    }
    forall p | MayPropose(s, in_, p)
      ensures Leads(s, in_, s.(proposal := p, proposalNonce := p.nonce), 255, p.value) && Sends(s, in_, [])
    {
      ProposeEffect(s, in_, p);
    }
  }

  lemma SignersDiffer(c: Config)
    requires ValidConfig(c)
    ensures LegalSigners(c.signers)
  {
  }

  lemma OpensThis(s: State, in_: Input, p: Proposal)
    requires LegalSigners(s.config.signers) && MayPropose(s, in_, p)
    ensures V.NextProposal(s, in_.blockTime, in_.message.actor, in_.message.body) == Ok(p)
  {
    hide ReadProposal, Le64, Le128;
    assert in_.message.body == ProposalBody(p);
    ProposalRoundTrip(in_.message.body, p);
  }

  lemma ProposeEffect(s: State, in_: Input, p: Proposal)
    requires Valid(s) && MayPropose(s, in_, p)
    ensures Leads(s, in_, s.(proposal := p, proposalNonce := p.nonce), 255, p.value) && Sends(s, in_, [])
  {
    hide V.NextProposal, V.EventOf, SoundBooks;
    SignersDiffer(s.config);
    OpensThis(s, in_, p);
    assert V.Process(s, in_) == V.Propose(s, in_.blockTime, in_.message.actor, in_.message.body);
    FinishedReports(s.(proposal := p, proposalNonce := p.nonce), 255, p.value);
  }

  /** `after` is `before` with the bit of every key equal to `actor` set. */
  predicate OneMoreVote(c: Config, actor: Id32, before: byte, after: byte) {
    after < 8 && (forall k: nat | k < 3 :: Voted(after, k) <==> Voted(before, k) || c.signers[k] == actor)
  }

  lemma VotesSame(v: byte, k: nat)
    requires k < 3
    ensures V.HasVote(v, k) <==> Voted(v, k)
  {
  }

  lemma AddsOwnVote(c: Config, actor: Id32, votes: byte)
    requires LegalSigners(c.signers) && votes < 8 && SignerIndex(c, actor).Ok?
    ensures OneMoreVote(c, actor, votes, V.WithVote(votes, SignerIndex(c, actor).value))
  {
    var j := SignerIndex(c, actor).value;
    var v := V.WithVote(votes, j);
    forall k: nat | k < 3 ensures Voted(v, k) <==> Voted(votes, k) || c.signers[k] == actor {
      VotesSame(v, k);
      VotesSame(votes, k);
      assert c.signers[k] == actor <==> k == j;
    }
  }

  /** A vote counts exactly when a signer that has not voted yet repeats the live proposal. */
  lemma VoteExact(s: State, in_: Input)
    requires Valid(s) && Calls(in_, VOTE)
    ensures V.Process(s, in_).Ok? <==> MayVote(s, in_)
    ensures MayVote(s, in_) ==>
      var t := V.Process(s, in_).value.state;
      && OneMoreVote(s.config, in_.message.actor, s.proposal.votes, t.proposal.votes)
      && Leads(s, in_, s.(proposal := s.proposal.(votes := t.proposal.votes)), 255, s.proposal.value)
      && Sends(s, in_, [])
  {
    hide V.EventOf, SoundBooks, ReadProposal, ValidConfig, V.HasVote, Voted;
    var m, p := in_.message, s.proposal;
    SignersDiffer(s.config);
    ProposalRoundTrip(m.body, p);
    assert m.extra == [] ==> V.Process(s, in_) == V.Vote(s, in_.blockTime, m.actor, m.body);
    if SignerIndex(s.config, m.actor).Ok? {
      var j := SignerIndex(s.config, m.actor).value;
      VotesSame(p.votes, j);
      assert forall k: nat | k < 3 && s.config.signers[k] == m.actor :: k == j;
      if V.Process(s, in_).Ok? {
        AddsOwnVote(s.config, m.actor, p.votes);
        FinishedReports(V.Process(s, in_).value.state, 255, p.value);
      }
    }
  }

  lemma TwoOfThree(v: byte)
    requires v < 8
    ensures V.CountOnes(v) >= 2 <==> exists j: nat, k: nat :: j < k < 3 && Voted(v, j) && Voted(v, k)
  {
    if V.CountOnes(v) >= 2 {
      assert (Voted(v, 0) && Voted(v, 1)) || (Voted(v, 0) && Voted(v, 2)) || (Voted(v, 1) && Voted(v, 2));
    }
  }

  function AfterExecute(s: State): State {
    var p := s.proposal;
    s.(proposal := NO_PROPOSAL,
       paused := if p.action == 1 then true else if p.action == 2 then false else s.paused,
       fuelLimit := if p.action == 3 then p.value else s.fuelLimit)
  }

  /** Enactment happens exactly inside the window, after two votes; it does what was voted for and ends the proposal. */
  lemma ExecuteExact(s: State, in_: Input)
    requires Valid(s) && Calls(in_, EXECUTE)
    ensures V.Process(s, in_).Ok? <==> MayExecute(s, in_)
    ensures MayExecute(s, in_) ==> Leads(s, in_, AfterExecute(s), 255, s.proposal.value) && Sends(s, in_, [])
  {
    hide V.EventOf, SoundBooks, V.CountOnes, Voted;
    var m, p := in_.message, s.proposal;
    Le64Inverse(p.nonce);
    if p.nonce != 0 {
      TwoOfThree(p.votes);
    }
    if V.Process(s, in_).Ok? {
      FinishedReports(V.Process(s, in_).value.state, 255, p.value);
    }
  }

  function AfterSettle(s: State, i: nat, success: bool, lt: u64, hash: Id32): State
    requires i < MAX_MEMBERS
    requires s.paid + s.members[i].pending < U128_END && s.members[i].paid + s.members[i].pending < U128_END
    requires s.members[i].claimable + s.members[i].pending < U128_END
  {
    var m := s.members[i];
    if success
    then s.(paid := s.paid + m.pending,
            members := s.members[i := MemberState(m.claimable, m.paid + m.pending, 0, 0, 0, lt, hash)])
    else s.(members := s.members[i := MemberState(m.claimable + m.pending, m.paid, 0, 0, 0, lt, hash)])
  }

  lemma SettleFits(s: State, i: nat)
    requires Valid(s) && i < s.config.count
    ensures i < MAX_MEMBERS
    ensures s.paid + s.members[i].pending < U128_END && s.members[i].paid + s.members[i].pending < U128_END
    ensures s.members[i].claimable + s.members[i].pending < U128_END
  {
    V.PaidFits(s, i);
    ValidIsWeighted(s.config);
    ShareFits(s, s.received, i);
    assert Sound(s, i);
  }

  lemma SettleEffect(s: State, in_: Input, i: nat)
    requires Valid(s) && MaySettle(s, in_, i)
    ensures i < MAX_MEMBERS
    ensures s.paid + s.members[i].pending < U128_END && s.members[i].paid + s.members[i].pending < U128_END
    ensures s.members[i].claimable + s.members[i].pending < U128_END
    ensures var h := in_.message.callback.value;
      && Leads(s, in_, AfterSettle(s, i, h.status == 0, in_.message.createdLt, h.causeHash), i, s.members[i].pending)
      && Sends(s, in_, [])
  {
    hide V.EventOf, SoundBooks, ValidConfig, V.Unlocked;
    SettleFits(s, i);
    ConfigFits(s);
    V.DestinationsDiffer(s.config);
    var h := in_.message.callback.value;
    var t := V.Unlocked(s, i, h.status == 0, in_.message.createdLt, h.causeHash);
    V.UnlockedIsValid(s, i, h.status == 0, in_.message.createdLt, h.causeHash);
    FinishedReports(t, i, s.members[i].pending);
    assert V.MemberAt(s.config, in_.message.source, 0) == Some(i);
    UnlockedIsSettled(s, i, h.status == 0, in_.message.createdLt, h.causeHash);
  }

  lemma UnlockedIsSettled(s: State, i: nat, success: bool, lt: u64, hash: Id32)
    requires Valid(s) && i < s.config.count && i < MAX_MEMBERS
    requires s.paid + s.members[i].pending < U128_END && s.members[i].paid + s.members[i].pending < U128_END
    requires s.members[i].claimable + s.members[i].pending < U128_END
    ensures V.Unlocked(s, i, success, lt, hash) == AfterSettle(s, i, success, lt, hash)
  {
    hide SoundBooks, ValidConfig, Sum;
  }

  /** A native callback is accepted exactly when it answers the pending payout of the member it comes from. */
  lemma CallbackExact(s: State, in_: Input)
    requires Valid(s) && in_.message.Internal? && in_.message.callback.Some?
    ensures V.Process(s, in_).Ok? <==> exists i: nat :: MaySettle(s, in_, i)
  {
    hide V.EventOf, SoundBooks, ValidConfig, V.Unlocked;
    ConfigFits(s);
    if V.Process(s, in_).Ok? {
      var i := V.MemberAt(s.config, in_.message.source, 0).value;
      assert MaySettle(s, in_, i);
    }
    forall i: nat | MaySettle(s, in_, i) ensures V.Process(s, in_).Ok? {
      SettleEffect(s, in_, i);
    }
  }

  predicate KnownMethod(methodId: u64) {
    || methodId == TOPUP || methodId == DEPOSIT || methodId == STATUS || methodId == CLAIM
    || methodId == PROPOSE || methodId == VOTE || methodId == EXECUTE
  }

  /** No other message is accepted: no unknown method, and nothing from another contract but a native callback. */
  lemma OthersRefused(s: State, in_: Input)
    requires Valid(s)
    requires if in_.message.Internal? then in_.message.callback.None? else !KnownMethod(in_.message.methodId)
    ensures V.Process(s, in_).Err?
  {
    hide Valid;
  }

  /** The messages a valid vault accepts are exactly these. */
  lemma AcceptedExactly(s: State, in_: Input)
    requires Valid(s)
    ensures V.Process(s, in_).Ok? <==> Granted(s, in_)
  {
    hide Valid, V.Process, MayTopup, MayDeposit, MayVote, MayExecute;
    var m := in_.message;
    if m.Internal? {
      if m.callback.Some? {
        CallbackExact(s, in_);
        KindsApart(s, in_);
      } else {
        OthersRefused(s, in_);
        KindsApart(s, in_);
      }
    } else {
      KindsApart(s, in_);
      if m.methodId == TOPUP {
        TopupExact(s, in_);
      } else if m.methodId == DEPOSIT {
        DepositExact(s, in_);
      } else if m.methodId == STATUS {
        StatusExact(s, in_);
      } else if m.methodId == CLAIM {
        ClaimExact(s, in_);
      } else if m.methodId == PROPOSE {
        ProposeExact(s, in_);
      } else if m.methodId == VOTE {
        VoteExact(s, in_);
      } else if m.methodId == EXECUTE {
        ExecuteExact(s, in_);
      } else {
        OthersRefused(s, in_);
      }
    }
  }

  /** Each kind of permission is about messages of its own kind. */
  lemma KindsApart(s: State, in_: Input)
    ensures MayTopup(s, in_) ==> Calls(in_, TOPUP)
    ensures MayDeposit(s, in_) ==> Calls(in_, DEPOSIT)
    ensures MayVote(s, in_) ==> Calls(in_, VOTE)
    ensures MayExecute(s, in_) ==> Calls(in_, EXECUTE)
    ensures forall i: nat | MayClaim(s, in_, i) ::
              Calls(in_, CLAIM) && |in_.message.body| == 1 && i == in_.message.body[0]
    ensures forall p | MayPropose(s, in_, p) :: Calls(in_, PROPOSE)
    ensures forall i: nat | MaySettle(s, in_, i) :: in_.message.Internal?
  {
  }

  /** What one accepted message changed, and for each change the only kind of message that can bring it about. */
  ghost predicate Authorised(s: State, in_: Input, t: State) {
    && t.config == s.config
    && (forall i: nat | i < MAX_MEMBERS :: MemberChange(s, in_, t, i))
    && (t.received != s.received ==> MayDeposit(s, in_) && t.received == s.received + Principal(in_.message.extra))
    && (t.claimNonce != s.claimNonce ==> Calls(in_, CLAIM))
    && (t.paused != s.paused ==> MayExecute(s, in_) && s.proposal.action == (if t.paused then 1 else 2))
    && (t.fuelLimit != s.fuelLimit ==> MayExecute(s, in_) && s.proposal.action == 3 && t.fuelLimit == s.proposal.value)
    && (t.proposal != s.proposal ==> MayPropose(s, in_, t.proposal) || MayVote(s, in_) || MayExecute(s, in_))
  }

  /**
   * A balance is locked, and taken from what is claimable, only by the member's own key on an unpaused vault; the
   * lock opens only by the payout's callback, and only a successful one counts as paid.
   */
  ghost predicate MemberChange(s: State, in_: Input, t: State, i: nat)
    requires i < MAX_MEMBERS
  {
    var m, n := s.members[i], t.members[i];
    && (n.pending != m.pending ==>
          if m.pending == 0 then MayClaim(s, in_, i) && n.pending == m.claimable
          else MaySettle(s, in_, i) && n.pending == 0)
    && (n.claimable < m.claimable ==> MayClaim(s, in_, i) && n.claimable == 0 && n.pending == m.claimable)
    && (n.claimable > m.claimable ==> MayDeposit(s, in_) || MaySettle(s, in_, i))
    && (n.paid != m.paid ==>
          && MaySettle(s, in_, i) && in_.message.callback.value.status == 0
          && n.paid == m.paid + m.pending && n.pending == 0)
    && (n.nonce != m.nonce || n.afterLt != m.afterLt ==> MayClaim(s, in_, i) || MaySettle(s, in_, i))
    && (n.lastLt != m.lastLt || n.lastHash != m.lastHash ==> MaySettle(s, in_, i))
  }

  lemma ClaimIsAuthorised(s: State, in_: Input, i: nat)
    requires MayClaim(s, in_, i)
    ensures Authorised(s, in_, AfterClaim(s, i, in_.blockLt))
  {
    hide AllShell, FuelAtHand, Sum;
  }

  lemma SettleIsAuthorised(s: State, in_: Input, i: nat)
    requires Valid(s) && MaySettle(s, in_, i)
    ensures V.Process(s, in_).Ok? && Authorised(s, in_, V.Process(s, in_).value.state)
  {
    hide Sum, V.Process, SoundBooks, ValidConfig;
    SettleEffect(s, in_, i);
  }

  lemma DepositIsAuthorised(s: State, in_: Input, t: State)
    requires Valid(s) && MayDeposit(s, in_) && Deposited(s, t, Principal(in_.message.extra))
    ensures Authorised(s, in_, t)
  {
    hide ValidConfig, Sum;
    forall i: nat | i < MAX_MEMBERS ensures MemberChange(s, in_, t, i) {
      assert Sound(s, i);
      if i < s.config.count {
        ShareMonotone(s.received, t.received, s.config.members[i].weight);
      }
    }
  }

  /** Whoever sends whatever at whatever time: no accepted message changes more than its sender may change. */
  lemma ChangesAreAuthorised(s: State, in_: Input)
    requires Valid(s) && V.Process(s, in_).Ok?
    ensures Authorised(s, in_, V.Process(s, in_).value.state)
    ensures V.Process(s, in_).value.reply.sends != [] ==> exists i: nat :: MayClaim(s, in_, i)
  {
    hide Valid, V.Process, MayTopup, MayDeposit, MayVote, MayExecute, MayPropose, Deposited;
    AcceptedExactly(s, in_);
    var m := in_.message;
    if m.Internal? {
      KindsApart(s, in_);
      var i: nat :| MaySettle(s, in_, i);
      SettleEffect(s, in_, i);
      SettleIsAuthorised(s, in_, i);
    } else if m.methodId == CLAIM {
      ClaimExact(s, in_);
      ClaimIsAuthorised(s, in_, m.body[0]);
    } else {
      KindsApart(s, in_);
      OwnCallsAreAuthorised(s, in_);
    }
  }

  lemma OwnCallsAreAuthorised(s: State, in_: Input)
    requires Valid(s) && V.Process(s, in_).Ok? && in_.message.External? && in_.message.methodId != CLAIM
    ensures Authorised(s, in_, V.Process(s, in_).value.state)
    ensures V.Process(s, in_).value.reply.sends == []
  {
    hide Valid, V.Process, MayTopup, MayDeposit, MayVote, MayExecute, MayPropose, Deposited, Principal;
    var m := in_.message;
    if m.methodId == TOPUP {
      TopupExact(s, in_);
    } else if m.methodId == DEPOSIT {
      DepositExact(s, in_);
      DepositIsAuthorised(s, in_, V.Process(s, in_).value.state);
    } else if m.methodId == STATUS {
      StatusExact(s, in_);
    } else if m.methodId == PROPOSE {
      ProposeExact(s, in_);
      var p :| MayPropose(s, in_, p);
      assert Leads(s, in_, s.(proposal := p, proposalNonce := p.nonce), 255, p.value);
    } else if m.methodId == VOTE {
      VoteExact(s, in_);
    } else if m.methodId == EXECUTE {
      ExecuteExact(s, in_);
      ActionIsKnown(s, in_);
    } else {
      OthersRefused(s, in_);
      assert false;
    }
  }

  lemma ActionIsKnown(s: State, in_: Input)
    requires Valid(s) && MayExecute(s, in_)
    ensures KnownAction(s.proposal.action, s.proposal.value)
  {
  }

  /** Why a deposit is refused: each code with what was wrong, and what was already found in order. */
  predicate DepositRefusal(s: State, in_: Input, code: int) {
    var m := in_.message;
    var clean := AllHubCurrencies(m.extra) && AllNonzero(m.extra) && Principal(m.extra) > 0;
    || (code == E_ARGS && m.body != [])
    || (code == E_PAUSED && m.body == [] && s.paused)
    || (code == E_VALUE && m.body == [] && !s.paused && !clean)
    || (code == E_BALANCE && m.body == [] && !s.paused && clean
        && Held(s) + Principal(m.extra) > Principal(in_.balance))
    || (code == E_OVERFLOW && m.body == [] && !s.paused && clean
        && Held(s) + Principal(m.extra) <= Principal(in_.balance) && s.received + Principal(m.extra) >= U128_END)
  }

  /** Why a claim without value is refused. A foreign key learns nothing but that it is one. */
  predicate ClaimRefusal(s: State, in_: Input, code: int)
    requires in_.message.External?
  {
    var m := in_.message;
    if !(|m.body| == 1 && m.body[0] < s.config.count && m.body[0] < MAX_MEMBERS) then code == E_ARGS else
      var i: nat := m.body[0];
      var funded := Held(s) <= Principal(in_.balance) && FuelAtHand(in_.balance, s.fuelLimit);
      var open := m.actor == s.config.members[i].key && !s.paused;
      || (code == E_AUTH && m.actor != s.config.members[i].key)
      || (code == E_PAUSED && m.actor == s.config.members[i].key && s.paused)
      || (code == E_BUSY && open && s.members[i].pending > 0)
      || (code == E_EMPTY && open && s.members[i].pending == 0 && s.members[i].claimable == 0)
      || (code == E_BALANCE && open && s.members[i].pending == 0 && s.members[i].claimable > 0 && !funded)
      || (code == E_OVERFLOW && open && s.members[i].pending == 0 && s.members[i].claimable > 0 && funded
          && s.claimNonce == U64_END - 1)
  }

  /** The body is no proposal at all, or names no legal action. */
  predicate BadBody(body: seq<byte>, code: int) {
    || (code == E_ARGS && |body| != 25)
    || (code == E_GOVERNANCE && |body| == 25 && (body[..8] == Le64(0) || !KnownAction(body[8], Nat128(body[9..25]))))
  }

  predicate GoodBody(body: seq<byte>) {
    |body| == 25 && body[..8] != Le64(0) && KnownAction(body[8], Nat128(body[9..25]))
  }

  predicate ProposeRefusal(s: State, in_: Input, code: int)
    requires in_.message.External?
  {
    var m, now := in_.message, in_.blockTime;
    var live := s.proposal.nonce != 0 && now < s.proposal.expires;
    if !IsSigner(s.config, m.actor) then code == E_AUTH
    else if !GoodBody(m.body) then BadBody(m.body, code)
    else
      || (code == E_GOVERNANCE && (live || (s.proposalNonce < U64_END - 1 && m.body[..8] != Le64(s.proposalNonce + 1))))
      || (code == E_OVERFLOW && !live
          && (s.proposalNonce == U64_END - 1
              || (m.body[..8] == Le64(s.proposalNonce + 1)
                  && now + s.config.delay + s.config.voteWindow >= U32_END)))
  }

  predicate VoteRefusal(s: State, in_: Input, code: int)
    requires in_.message.External?
  {
    var m, p := in_.message, s.proposal;
    var same := p.nonce != 0 && m.body == Le64(p.nonce) + [p.action] + Le128(p.value);
    if !IsSigner(s.config, m.actor) then code == E_AUTH
    else if !GoodBody(m.body) then BadBody(m.body, code)
    else
      || (code == E_GOVERNANCE && !same)
      || (code == E_EXPIRED && same && p.expires <= in_.blockTime)
      || (code == E_DUPLICATE_VOTE && same && in_.blockTime < p.expires
          && exists k: nat :: k < 3 && s.config.signers[k] == m.actor && Voted(p.votes, k))
  }

  predicate ExecuteRefusal(s: State, in_: Input, code: int) {
    var m, p, now := in_.message, s.proposal, in_.blockTime;
    var named := p.nonce != 0 && m.body == Le64(p.nonce);
    var quorum := exists j: nat, k: nat :: j < k < 3 && Voted(p.votes, j) && Voted(p.votes, k);
    || (code == E_ARGS && |m.body| != 8)
    || (code == E_GOVERNANCE && |m.body| == 8 && !named)
    || (code == E_EXPIRED && named && p.expires <= now)
    || (code == E_QUORUM && named && now < p.expires && !quorum)
    || (code == E_TIMELOCK && named && now < p.expires && quorum && now < p.ready)
  }

  ghost predicate Refused(s: State, in_: Input, code: int) {
    var m := in_.message;
    if m.Internal? then code == (if m.callback.Some? then E_CALLBACK else E_AUTH)
    else if m.methodId == TOPUP then code == (if m.body != [] then E_ARGS else E_VALUE)
    else if m.methodId == DEPOSIT then DepositRefusal(s, in_, code)
    else if m.extra != [] then code == E_VALUE
    else if m.methodId == CLAIM then ClaimRefusal(s, in_, code)
    else if m.methodId == PROPOSE then ProposeRefusal(s, in_, code)
    else if m.methodId == VOTE then VoteRefusal(s, in_, code)
    else if m.methodId == EXECUTE then ExecuteRefusal(s, in_, code)
    else code == E_ARGS
  }

  lemma MoneyRefusals(s: State, in_: Input)
    requires Valid(s) && V.Process(s, in_).Err? && in_.message.External?
    requires in_.message.methodId == TOPUP || in_.message.methodId == DEPOSIT || in_.message.methodId == CLAIM
    ensures Refused(s, in_, V.Process(s, in_).code)
  {
    hide Valid, V.EventOf, Credit;
    ConfigFits(s);
  }

  lemma BodyVerdict(body: seq<byte>)
    ensures ReadProposal(body).Ok? <==> GoodBody(body)
    ensures ReadProposal(body).Err? ==> BadBody(body, ReadProposal(body).code)
    ensures GoodBody(body) ==> Le64(ReadProposal(body).value.0) == body[..8]
  {
    Le64Inverse(0);
  }

  lemma ProposeRefusals(s: State, in_: Input)
    requires Valid(s) && V.Process(s, in_).Err? && Calls(in_, PROPOSE)
    ensures Refused(s, in_, V.Process(s, in_).code)
  {
    hide Valid, ReadProposal, GoodBody, BadBody;
    BodyVerdict(in_.message.body);
    if s.proposalNonce + 1 < U64_END && GoodBody(in_.message.body) {
      Le64Inverse(s.proposalNonce + 1);
      Le64Inverse(ReadProposal(in_.message.body).value.0);
    }
    assert in_.message.extra == [] ==>
      V.Process(s, in_) == V.Propose(s, in_.blockTime, in_.message.actor, in_.message.body);
  }

  lemma VoteRefusals(s: State, in_: Input)
    requires Valid(s) && V.Process(s, in_).Err? && Calls(in_, VOTE)
    ensures Refused(s, in_, V.Process(s, in_).code)
  {
    hide Valid, ReadProposal, GoodBody, BadBody, V.HasVote, Voted;
    BodyVerdict(in_.message.body);
    assert in_.message.extra == [] ==>
      V.Process(s, in_) == V.Vote(s, in_.blockTime, in_.message.actor, in_.message.body);
    if SignerIndex(s.config, in_.message.actor).Ok? {
      VotesSame(s.proposal.votes, SignerIndex(s.config, in_.message.actor).value);
    }
  }

  lemma ExecuteRefusals(s: State, in_: Input)
    requires Valid(s) && V.Process(s, in_).Err? && Calls(in_, EXECUTE)
    ensures Refused(s, in_, V.Process(s, in_).code)
  {
    hide SoundBooks, V.CountOnes, Voted;
    Le64Inverse(s.proposal.nonce);
    if s.proposal.nonce != 0 {
      TwoOfThree(s.proposal.votes);
    }
  }

  /** Every refusal carries the code of the first thing that was wrong. */
  lemma RefusalsAreExact(s: State, in_: Input)
    requires Valid(s) && V.Process(s, in_).Err?
    ensures Refused(s, in_, V.Process(s, in_).code)
  {
    hide Valid, DepositRefusal, ClaimRefusal, ProposeRefusal, VoteRefusal, ExecuteRefusal;
    var m := in_.message;
    if m.External? {
      if m.methodId == TOPUP || m.methodId == DEPOSIT || m.methodId == CLAIM {
        MoneyRefusals(s, in_);
      } else if m.methodId == PROPOSE {
        ProposeRefusals(s, in_);
      } else if m.methodId == VOTE {
        VoteRefusals(s, in_);
      } else if m.methodId == EXECUTE {
        ExecuteRefusals(s, in_);
      }
    }
  }
}
