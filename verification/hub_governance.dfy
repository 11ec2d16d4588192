/** Governance over whole runs of the vault: who approved what, and when it took effect. */
module HubGovernance {
  import opened Bytes
  import opened Sdk
  import opened RevenueCore
  import opened VaultState
  import V = VaultSpec

  /** A signer backing one exact action under one nonce. */
  datatype Ballot = Ballot(signer: nat, nonce: u64, action: byte, value: u128)

  datatype Enactment = Enactment(nonce: u64, action: byte, value: u128, time: u32)

  /** The vault together with what an outside observer has written down about its successful calls. */
  datatype Watched = Watched(state: State, ballots: set<Ballot>, openedAt: map<u64, u32>, enacted: seq<Enactment>)

  ghost function Observe(w: Watched, in_: Input): Watched {
    if !Valid(w.state) then w else
      match V.Process(w.state, in_)
      case Err(_) => w
      case Ok(o) =>
        var m, p, q := in_.message, w.state.proposal, o.state.proposal;
        var t := w.(state := o.state);
        if m.Internal? then t
        else if m.methodId == PROPOSE then
          t.(ballots := w.ballots + Cast(w.state.config, m.actor, q), openedAt := w.openedAt[q.nonce := in_.blockTime])
        else if m.methodId == VOTE then
          t.(ballots := w.ballots + Cast(w.state.config, m.actor, q))
        else if m.methodId == EXECUTE then
          t.(enacted := w.enacted + [Enactment(p.nonce, p.action, p.value, in_.blockTime)])
        else t
  }

  /** The ballot a governance key casts for a proposal. */
  function Cast(c: Config, actor: Id32, p: Proposal): set<Ballot> {
    match SignerIndex(c, actor)
    case Ok(i) => {Ballot(i, p.nonce, p.action, p.value)}
    case Err(_) => {}
  }

  ghost function ObserveAll(w: Watched, inputs: seq<Input>): Watched
    decreases |inputs|
  {
    if inputs == [] then w else ObserveAll(Observe(w, inputs[0]), inputs[1..])
  }

  /** Two different signers backed exactly this action under this nonce, and it ran inside its window. */
  ghost predicate Approved(c: Config, ballots: set<Ballot>, openedAt: map<u64, u32>, e: Enactment) {
    && (exists j: nat, k: nat :: j < k < 3
          && Ballot(j, e.nonce, e.action, e.value) in ballots && Ballot(k, e.nonce, e.action, e.value) in ballots)
    && e.nonce in openedAt
    && openedAt[e.nonce] + c.delay <= e.time < openedAt[e.nonce] + c.delay + c.voteWindow
  }

  ghost predicate LiveSound(p: Proposal, ballots: set<Ballot>, openedAt: map<u64, u32>) {
    p.nonce != 0 ==>
      && (forall j: nat | j < 3 && V.HasVote(p.votes, j) :: Ballot(j, p.nonce, p.action, p.value) in ballots)
      && p.nonce in openedAt && openedAt[p.nonce] == p.created
  }

  ghost predicate Inv(w: Watched) {
    && Valid(w.state)
    && LiveSound(w.state.proposal, w.ballots, w.openedAt)
    && (forall n | n in w.openedAt :: n <= w.state.proposalNonce)
    && (forall i | 0 <= i < |w.enacted| :: Approved(w.state.config, w.ballots, w.openedAt, w.enacted[i]))
    && (forall i | 0 <= i < |w.enacted| ::
          w.enacted[i].nonce <= w.state.proposalNonce
          && (w.state.proposal.nonce != 0 ==> w.enacted[i].nonce < w.state.proposal.nonce))
    && (forall i, j | 0 <= i < j < |w.enacted| :: w.enacted[i].nonce < w.enacted[j].nonce)
  }

  /** At least two set bits among three name two different signers. */
  lemma TwoVotes(votes: byte)
    requires votes < 8 && V.CountOnes(votes) >= 2
    ensures exists j: nat, k: nat :: j < k < 3 && V.HasVote(votes, j) && V.HasVote(votes, k)
  {
    if V.HasVote(votes, 0) && V.HasVote(votes, 1) {
    } else if V.HasVote(votes, 0) && V.HasVote(votes, 2) {
    } else {
      assert V.HasVote(votes, 1) && V.HasVote(votes, 2);
    }
  }

  lemma ApprovalLasts(c: Config, ballots: set<Ballot>, openedAt: map<u64, u32>, more: set<Ballot>, later: map<u64, u32>,
                      e: Enactment)
    requires Approved(c, ballots, openedAt, e) && ballots <= more
    requires e.nonce in later && later[e.nonce] == openedAt[e.nonce]
    ensures Approved(c, more, later, e)
  {
  }

  lemma ApprovalsLast(c: Config, ballots: set<Ballot>, openedAt: map<u64, u32>, more: set<Ballot>,
                      later: map<u64, u32>, enacted: seq<Enactment>)
    requires forall i | 0 <= i < |enacted| :: Approved(c, ballots, openedAt, enacted[i])
    requires ballots <= more
    requires forall i | 0 <= i < |enacted| ::
        var n := enacted[i].nonce; n in openedAt && n in later && later[n] == openedAt[n]
    ensures forall i | 0 <= i < |enacted| :: Approved(c, more, later, enacted[i])
  {
    forall i | 0 <= i < |enacted| ensures Approved(c, more, later, enacted[i]) {
      ApprovalLasts(c, ballots, openedAt, more, later, enacted[i]);
    }
  }

  /** What approved actions have in the books: the moment their proposal opened. */
  lemma EnactedAreOpened(w: Watched)
    requires Inv(w)
    ensures forall i | 0 <= i < |w.enacted| ::
              w.enacted[i].nonce in w.openedAt && w.enacted[i].nonce <= w.state.proposalNonce
  {
    forall i | 0 <= i < |w.enacted|
      ensures w.enacted[i].nonce in w.openedAt && w.enacted[i].nonce <= w.state.proposalNonce
    {
      assert Approved(w.state.config, w.ballots, w.openedAt, w.enacted[i]);
    }
  }

  lemma EnactedIsApproved(w: Watched, now: u32, body: seq<byte>)
    requires Inv(w) && V.Execute(w.state, now, body).Ok?
    ensures var p := w.state.proposal;
      p.nonce != 0 && Approved(w.state.config, w.ballots, w.openedAt, Enactment(p.nonce, p.action, p.value, now))
  {
    var p := w.state.proposal;
    TwoVotes(p.votes);
  }

  lemma ProposedSound(w: Watched, in_: Input)
    requires Inv(w) && in_.message.External? && in_.message.methodId == PROPOSE && V.Process(w.state, in_).Ok?
    ensures Inv(Observe(w, in_))
  {
    hide Valid, Sums.Sum, Approved, ReadProposal;
    var m := in_.message;
    assert V.Process(w.state, in_) == V.Propose(w.state, in_.blockTime, m.actor, m.body);
    V.ProcessKeepsValid(w.state, in_);
    var t := Observe(w, in_);
    var p := V.NextProposal(w.state, in_.blockTime, m.actor, m.body).value;
    assert t.state.proposal == p && p.nonce == w.state.proposalNonce + 1;
    var s := SignerIndex(w.state.config, m.actor).value;
    assert forall j: nat | j < 3 && V.HasVote(V.Bit(s), j) :: j == s;
    EnactedAreOpened(w);
    ApprovalsLast(w.state.config, w.ballots, w.openedAt, t.ballots, t.openedAt, w.enacted);
  }

  lemma VotedSound(w: Watched, in_: Input)
    requires Inv(w) && in_.message.External? && in_.message.methodId == VOTE && V.Process(w.state, in_).Ok?
    ensures Inv(Observe(w, in_))
  {
    hide Valid, Sums.Sum;
    var m := in_.message;
    assert V.Process(w.state, in_) == V.Vote(w.state, in_.blockTime, m.actor, m.body);
    V.ProcessKeepsValid(w.state, in_);
    var t := Observe(w, in_);
    EnactedAreOpened(w);
    ApprovalsLast(w.state.config, w.ballots, w.openedAt, t.ballots, t.openedAt, w.enacted);
  }

  lemma ExecutedSound(w: Watched, in_: Input)
    requires Inv(w) && in_.message.External? && in_.message.methodId == EXECUTE && V.Process(w.state, in_).Ok?
    ensures Inv(Observe(w, in_))
  {
    var m := in_.message;
    assert V.Process(w.state, in_) == V.Execute(w.state, in_.blockTime, m.body);
    V.ProcessKeepsValid(w.state, in_);
    EnactedIsApproved(w, in_.blockTime, m.body);
  }

  /** Money calls and callbacks leave the open proposal as it is. */
  lemma OtherCallsKeepProposal(w: Watched, in_: Input)
    requires Valid(w.state) && V.Process(w.state, in_).Ok?
    requires in_.message.External? ==>
      in_.message.methodId != PROPOSE && in_.message.methodId != VOTE && in_.message.methodId != EXECUTE
    ensures var t := V.Process(w.state, in_).value.state;
      t.proposal == w.state.proposal && t.proposalNonce == w.state.proposalNonce && t.fuelLimit == w.state.fuelLimit
      && t.paused == w.state.paused
  {
  }

  lemma ObserveKeepsInv(w: Watched, in_: Input)
    requires Inv(w)
    ensures Inv(Observe(w, in_)) && Observe(w, in_).state.config == w.state.config
  {
    V.ProcessKeepsValid(w.state, in_);
    if V.Process(w.state, in_).Ok? {
      var m := in_.message;
      if m.External? && m.methodId == PROPOSE {
        ProposedSound(w, in_);
      } else if m.External? && m.methodId == VOTE {
        VotedSound(w, in_);
      } else if m.External? && m.methodId == EXECUTE {
        ExecutedSound(w, in_);
      } else {
        OtherCallsKeepProposal(w, in_);
      }
    }
  }

  lemma {:induction false} ObserveAllKeepsInv(w: Watched, inputs: seq<Input>)
    requires Inv(w)
    ensures Inv(ObserveAll(w, inputs)) && ObserveAll(w, inputs).state.config == w.state.config
    decreases |inputs|
  {
    if inputs != [] {
      ObserveKeepsInv(w, inputs[0]);
      ObserveAllKeepsInv(Observe(w, inputs[0]), inputs[1..]);
    }
  }

  /**
   * Over every run from deployment, with any messages and any block times: each executed action was backed by
   * two different signers on the same nonce, action and value, ran inside its ready-to-expiry window, and ran
   * once for its nonce; signers, weights, keys and destinations are the deployed ones.
   */
  lemma GovernanceIsQuorate(c: Config, inputs: seq<Input>)
    requires ValidConfig(c)
    ensures var w := ObserveAll(Watched(Initial(c), {}, map[], []), inputs);
      && w.state.config == c
      && (forall i | 0 <= i < |w.enacted| :: Approved(c, w.ballots, w.openedAt, w.enacted[i]))
      && (forall i, j | 0 <= i < j < |w.enacted| :: w.enacted[i].nonce < w.enacted[j].nonce)
  {
    InitialIsValid(c);
    ObserveAllKeepsInv(Watched(Initial(c), {}, map[], []), inputs);
  }

  lemma EnactmentSwitches(w: Watched, in_: Input)
    requires Valid(w.state) && V.Process(w.state, in_).Ok? && in_.message.External? && in_.message.methodId == EXECUTE
    ensures var p, t := w.state.proposal, Observe(w, in_);
      && t.enacted == w.enacted + [Enactment(p.nonce, p.action, p.value, in_.blockTime)]
      && t.state.paused == (if p.action == PAUSE then true else if p.action == RESUME then false else w.state.paused)
      && t.state.fuelLimit == (if p.action == SET_FUEL then p.value else w.state.fuelLimit)
  {
    assert V.Process(w.state, in_) == V.Execute(w.state, in_.blockTime, in_.message.body);
  }

  /** Only an executed action switches the pause or the reserve, and each does exactly what it says. */
  lemma OnlyEnactmentsSwitch(w: Watched, in_: Input)
    requires Inv(w)
    ensures var t := Observe(w, in_);
      if |t.enacted| == |w.enacted|
      then t.state.paused == w.state.paused && t.state.fuelLimit == w.state.fuelLimit
      else
        && t.enacted[..|w.enacted|] == w.enacted && |t.enacted| == |w.enacted| + 1
        && (var e := t.enacted[|w.enacted|];
            && t.state.paused == (if e.action == PAUSE then true else if e.action == RESUME then false
                                  else w.state.paused)
            && t.state.fuelLimit == (if e.action == SET_FUEL then e.value else w.state.fuelLimit))
  {
    if V.Process(w.state, in_).Ok? {
      var m := in_.message;
      if m.Internal? || (m.methodId != PROPOSE && m.methodId != VOTE && m.methodId != EXECUTE) {
        OtherCallsKeepProposal(w, in_);
      } else if m.methodId == EXECUTE {
        EnactmentSwitches(w, in_);
      }
    }
  }
}
