/**
 * Which configurations, stored images and deployments the three main contracts and the audit ledger accept, condition
 * by condition, for every byte string: what the loaders decide is exactly this.
 */
module AcceptedImages {
  import opened Bytes
  import opened Sdk
  import opened Admission
  import opened Sums
  import VaultState
  import VaultSpec
  import VaultCodec
  import VaultImage
  import EscrowState
  import EscrowCodec
  import EscrowImage
  import EscrowAuthority
  import VestingCore
  import VestingState
  import VestingSpec
  import VestingCodec
  import VestingImage
  import AuditCore
  import AuditLayout

  // The vault.

  /** Three different signers, a delay, a window and a reserve; members with different keys and addresses; 10,000. */
  predicate VaultTerms(c: VaultState.Config) {
    && 1 <= c.count <= 16
    && c.delay > 0 && c.voteWindow > 0 && c.initialFuel > 0
    && (forall i: nat | i < 3 :: c.signers[i] != ZERO32)
    && (forall i: nat, j: nat | i < j < 3 :: c.signers[i] != c.signers[j])
    && (forall i: nat | i < c.count ::
          c.members[i].key != ZERO32 && Proper(c.members[i].destination) && c.members[i].weight > 0)
    && (forall i: nat, j: nat | i < j < c.count ::
          c.members[i].key != c.members[j].key && c.members[i].destination != c.members[j].destination)
    && (forall i: nat | c.count <= i < 16 :: c.members[i] == VaultState.Member(ZERO32, Address(ZERO32, ZERO32), 0))
    && Sum(VaultState.Weights(c)) == 10_000
  }

  lemma VaultTermsExact(c: VaultState.Config)
    ensures VaultState.ValidConfig(c) <==> VaultTerms(c)
  {
    hide Sum;
    assert VaultState.LegalSigners(c.signers) <==>
      (forall i: nat | i < 3 :: c.signers[i] != ZERO32)
      && (forall i: nat, j: nat | i < j < 3 :: c.signers[i] != c.signers[j]);
    if 1 <= c.count <= 16 {
      VaultMembersExact(c);
    }
  }

  lemma VaultMembersExact(c: VaultState.Config)
    requires c.count <= 16
    ensures VaultState.LegalMembers(c.members, c.count) <==>
      && (forall i: nat | i < c.count ::
            c.members[i].key != ZERO32 && Proper(c.members[i].destination) && c.members[i].weight > 0)
      && (forall i: nat, j: nat | i < j < c.count ::
            c.members[i].key != c.members[j].key && c.members[i].destination != c.members[j].destination)
  {
    if VaultState.LegalMembers(c.members, c.count) {
      forall i: nat, j: nat | i < j < c.count
        ensures c.members[i].key != c.members[j].key && c.members[i].destination != c.members[j].destination
      {
        assert VaultState.NewMember(c.members, j);
      }
      forall i: nat | i < c.count
        ensures c.members[i].key != ZERO32 && Proper(c.members[i].destination) && c.members[i].weight > 0
      {
        assert VaultState.LegalMember(c.members[i]);
      }
    }
  }

  /** One member's figures: they make its share; nothing pending leaves no trace; a callback left both or neither. */
  ghost predicate MemberBooks(m: VaultState.MemberState, received: nat, weight: nat, claimNonce: nat) {
    && m.claimable + m.paid + m.pending == received * weight / 10_000
    && (if m.pending == 0 then m.nonce == 0 && m.afterLt == 0
        else 1 <= m.nonce <= claimNonce && m.lastLt <= m.afterLt)
    && (m.lastLt == 0 <==> m.lastHash == ZERO32)
  }

  /** No proposal, or a known action under the current nonce with at least one vote and the configured deadlines. */
  ghost predicate ProposalBooks(p: VaultState.Proposal, c: VaultState.Config, proposalNonce: nat) {
    || p == VaultState.Proposal(0, 0, 0, 0, 0, 0, 0)
    || (p.nonce == proposalNonce && p.nonce > 0
        && (((p.action == 1 || p.action == 2) && p.value == 0) || (p.action == 3 && p.value > 0))
        && 1 <= p.votes <= 7
        && p.ready == p.created + c.delay && p.expires == p.created + c.delay + c.voteWindow)
  }

  ghost predicate VaultBooks(s: VaultState.State) {
    && VaultTerms(s.config) && s.fuelLimit > 0
    && (forall i: nat | i < s.config.count ::
          MemberBooks(s.members[i], s.received, s.config.members[i].weight, s.claimNonce))
    && (forall i: nat | s.config.count <= i < 16 :: s.members[i] == VaultState.MemberState(0, 0, 0, 0, 0, 0, ZERO32))
    && s.paid == Sum(VaultState.PaidColumn(s.members))
    && ProposalBooks(s.proposal, s.config, s.proposalNonce)
  }

  /** The images a vault continues from are exactly these. */
  lemma VaultImageExact(b: seq<byte>)
    ensures VaultCodec.Decode(b).Ok? <==> VaultCodec.Shaped(b) && VaultBooks(VaultCodec.View(b))
  {
    hide Sum, VaultCodec.Shaped, VaultCodec.View, VaultTerms, VaultState.ValidConfig;
    if VaultCodec.Shaped(b) {
      VaultBooksExact(VaultCodec.View(b));
    }
  }

  lemma VaultBooksExact(s: VaultState.State)
    ensures VaultState.Valid(s) <==> VaultBooks(s)
  {
    hide Sum, VaultTerms, VaultState.ValidConfig;
    VaultTermsExact(s.config);
    if VaultTerms(s.config) {
      VaultCount(s.config);
      VaultSlotsExact(s);
      ProposalExact(s);
    }
  }

  lemma VaultCount(c: VaultState.Config)
    requires VaultTerms(c)
    ensures 1 <= c.count <= 16
  {
  }

  lemma ProposalExact(s: VaultState.State)
    ensures VaultState.ValidProposal(s.proposal, s.config, s.proposalNonce) <==>
            ProposalBooks(s.proposal, s.config, s.proposalNonce)
  {
  }

  lemma VaultSlotsExact(s: VaultState.State)
    requires 1 <= s.config.count <= 16
    ensures VaultState.SoundBooks(s.config, s.received, s.claimNonce, s.members) <==>
      && (forall i: nat | i < s.config.count ::
            MemberBooks(s.members[i], s.received, s.config.members[i].weight, s.claimNonce))
      && (forall i: nat | s.config.count <= i < 16 :: s.members[i] == VaultState.MemberState(0, 0, 0, 0, 0, 0, ZERO32))
  {
    forall i: nat | i < 16
      ensures VaultState.SoundSlot(s.config, s.received, s.claimNonce, s.members, i) <==>
              if i < s.config.count then MemberBooks(s.members[i], s.received, s.config.members[i].weight, s.claimNonce)
              else s.members[i] == VaultState.MemberState(0, 0, 0, 0, 0, 0, ZERO32)
    {
      VaultSlotExact(s, i);
    }
    if VaultState.SoundBooks(s.config, s.received, s.claimNonce, s.members) {
      forall i: nat | i < 16 ensures VaultState.SoundSlot(s.config, s.received, s.claimNonce, s.members, i) {
      }
    }
  }

  lemma VaultSlotExact(s: VaultState.State, i: nat)
    requires i < 16
    ensures VaultState.SoundSlot(s.config, s.received, s.claimNonce, s.members, i) <==>
            if i < s.config.count then MemberBooks(s.members[i], s.received, s.config.members[i].weight, s.claimNonce)
            else s.members[i] == VaultState.MemberState(0, 0, 0, 0, 0, 0, ZERO32)
  {
  }

  /** A vault is deployed exactly by one of its signers, without value, to pay other accounts of its own dapp. */
  lemma VaultDeploymentExact(stored: seq<byte>, in_: Input, data: seq<byte>)
    ensures var r := VaultImage.Initialized(stored, in_, data);
      && (r.Ok? <==>
            && VaultCodec.ShapedConfig(data)
            && var c := VaultCodec.ViewConfig(data);
            && VaultTerms(c)
            && in_.message.External? && in_.message.actor in c.signers && in_.message.extra == []
            && stored == []
            && (forall i: nat | i < c.count ::
                  c.members[i].destination.dapp == in_.here.dapp && c.members[i].destination != in_.here))
      && (r.Ok? ==>
            var s := r.value.0;
            && s.config == VaultCodec.ViewConfig(data) && s.fuelLimit == s.config.initialFuel
            && s.received == s.paid == s.claimNonce == s.proposalNonce == 0 && !s.paused
            && s.proposal == VaultState.Proposal(0, 0, 0, 0, 0, 0, 0)
            && (forall i: nat | i < 16 :: s.members[i] == VaultState.MemberState(0, 0, 0, 0, 0, 0, ZERO32)))
  {
    hide Sum, VaultCodec.ShapedConfig, VaultCodec.ViewConfig, VaultState.ValidConfig, VaultSpec.EventOf, VaultTerms;
    if VaultCodec.ShapedConfig(data) {
      var c := VaultCodec.ViewConfig(data);
      VaultTermsExact(c);
      if VaultTerms(c) {
        VaultCount(c);
      }
    }
  }

  // The escrow.

  /** Two parties, two proper addresses, positive amounts that make the total, a deadline and fuel. */
  predicate EscrowTerms(c: EscrowState.Config) {
    && 1 <= c.count <= 8
    && c.owner != ZERO32 && c.worker != ZERO32 && c.owner != c.worker
    && Proper(c.payTo) && Proper(c.refundTo) && c.payTo != c.refundTo
    && c.total > 0 && c.deadline > 0 && c.fuelReserve > 0
    && (forall i: nat | i < c.count :: c.amounts[i] > 0)
    && (forall i: nat | c.count <= i < 8 :: c.amounts[i] == 0)
    && Sum(c.amounts) == c.total
  }

  lemma EscrowTermsExact(c: EscrowState.Config)
    ensures EscrowState.ValidConfig(c) <==> EscrowTerms(c)
  {
    hide Sum;
  }

  /** The amounts of the milestones in one phase. */
  function InPhase(c: EscrowState.Config, phases: EscrowState.Phases, phase: byte): nat {
    Sum(seq(8, i requires 0 <= i < 8 => if phases[i] == phase then c.amounts[i] else 0))
  }

  lemma PhasesExact(c: EscrowState.Config, phases: EscrowState.Phases)
    ensures EscrowState.InBucket(c, phases, EscrowState.PaidOut) == InPhase(c, phases, 3)
    ensures EscrowState.InBucket(c, phases, EscrowState.PaidBack) == InPhase(c, phases, 4)
    ensures EscrowState.InBucket(c, phases, EscrowState.Refundable) == EscrowAuthority.Unapproved(c, phases)
  {
    hide Sum;
    assert EscrowState.Column(c.amounts, phases, EscrowState.PaidOut)
        == seq(8, i requires 0 <= i < 8 => if phases[i] == 3 then c.amounts[i] else 0);
    assert EscrowState.Column(c.amounts, phases, EscrowState.PaidBack)
        == seq(8, i requires 0 <= i < 8 => if phases[i] == 4 then c.amounts[i] else 0);
    EscrowAuthority.UnapprovedIsRefundable(c, phases);
  }

  /** An open milestone has no hash; a submitted, approved or paid one has; a refunded one may. */
  predicate MilestoneBooks(phase: byte, hash: Id32) {
    (phase == 0 && hash == ZERO32) || (1 <= phase <= 3 && hash != ZERO32) || phase == 4
  }

  ghost predicate PendingBooks(s: EscrowState.State) {
    var p := s.pending;
    || p == EscrowState.Pending(0, 0, 0, 0)
    || (p.kind == 1 && p.attempt == s.attempts && s.funded > 0 && p.index < s.config.count <= 8
        && s.phases[p.index] == 2 && p.amount == s.config.amounts[p.index])
    || (p.kind == 2 && p.attempt == s.attempts && s.funded > 0 && p.index == 255 && p.amount > 0
        && p.amount == EscrowAuthority.Unapproved(s.config, s.phases))
  }

  ghost predicate EscrowBooks(s: EscrowState.State) {
    && EscrowTerms(s.config)
    && s.attempts <= 64 && |s.receipts| == s.attempts - (if s.pending.kind == 0 then 0 else 1)
    && (forall i: nat | i < |s.receipts| :: s.receipts[i] != ZERO32)
    && (forall i: nat, j: nat | i < j < |s.receipts| :: s.receipts[i] != s.receipts[j])
    && (s.funded == s.config.total
        || (s.funded == 0 && s.attempts == 0 && forall i: nat | i < 8 :: s.phases[i] == 0))
    && (forall i: nat | i < s.config.count :: MilestoneBooks(s.phases[i], s.hashes[i]))
    && (forall i: nat | s.config.count <= i < 8 :: s.phases[i] == 0 && s.hashes[i] == ZERO32)
    && s.paid == InPhase(s.config, s.phases, 3)
    && s.refunded == InPhase(s.config, s.phases, 4)
    && PendingBooks(s)
  }

  lemma EscrowBooksExact(s: EscrowState.State)
    ensures EscrowState.Valid(s) <==> EscrowBooks(s)
  {
    hide Sum, EscrowTerms, EscrowState.ValidConfig, EscrowState.InBucket, InPhase, EscrowAuthority.Unapproved;
    EscrowTermsExact(s.config);
    PhasesExact(s.config, s.phases);
    if EscrowTerms(s.config) {
      EscrowCount(s.config);
    }
  }

  lemma EscrowCount(c: EscrowState.Config)
    requires EscrowTerms(c)
    ensures 1 <= c.count <= 8 && c.total > 0
  {
  }

  /** The images an escrow continues from are exactly these. */
  lemma EscrowImageExact(b: seq<byte>)
    ensures EscrowCodec.Decode(b).Ok? <==> EscrowCodec.Shaped(b) && EscrowBooks(EscrowCodec.View(b))
  {
    hide Sum, EscrowCodec.Shaped, EscrowCodec.View, EscrowState.Valid, EscrowBooks;
    if EscrowCodec.Shaped(b) {
      EscrowBooksExact(EscrowCodec.View(b));
    }
  }

  /** An escrow is deployed exactly by its owner, without value, before the deadline, paying to other accounts. */
  lemma EscrowDeploymentExact(stored: seq<byte>, in_: Input, data: seq<byte>)
    ensures var r := EscrowImage.Initialized(stored, in_, data);
      && (r.Ok? <==>
            && EscrowCodec.ShapedConfig(data)
            && var c := EscrowCodec.ViewConfig(data);
            && EscrowTerms(c)
            && in_.message.External? && in_.message.actor == c.owner && in_.message.extra == []
            && stored == [] && in_.blockTime < c.deadline
            && c.payTo != in_.here && c.refundTo != in_.here)
      && (r.Ok? ==>
            var s := r.value.0;
            && s.config == EscrowCodec.ViewConfig(data)
            && s.funded == s.paid == s.refunded == s.attempts == 0 && s.receipts == []
            && s.pending == EscrowState.Pending(0, 0, 0, 0)
            && (forall i: nat | i < 8 :: s.phases[i] == 0 && s.hashes[i] == ZERO32))
  {
    hide Sum, EscrowCodec.ShapedConfig, EscrowCodec.ViewConfig, EscrowState.ValidConfig, EscrowTerms;
    if EscrowCodec.ShapedConfig(data) {
      EscrowTermsExact(EscrowCodec.ViewConfig(data));
    }
  }

  // The vesting contract.

  /** A positive total, a start before the end, a cliff between them, and steps no longer than the whole. */
  predicate StreamTerms(x: VestingCore.Schedule) {
    x.total > 0 && x.start > 0 && x.start < x.end && x.start <= x.cliff <= x.end && x.step <= x.end - x.start
  }

  predicate Shares(a: VestingState.Stream, b: VestingState.Stream) {
    a.payout == b.payout || a.payout == b.refund || a.refund == b.payout || a.refund == b.refund
  }

  /** An owner, fuel, streams with keys and addresses of their own, and a total that fits. */
  predicate VestingTerms(c: VestingState.Config) {
    && c.owner != ZERO32 && c.fuel > 0 && 1 <= c.count <= 8
    && (forall i: nat | i < c.count ::
          && c.streams[i].key != ZERO32 && Proper(c.streams[i].payout) && Proper(c.streams[i].refund)
          && c.streams[i].payout != c.streams[i].refund && StreamTerms(c.streams[i].terms))
    && (forall i: nat, j: nat | i < j < c.count :: !Shares(c.streams[i], c.streams[j]))
    && (forall i: nat | c.count <= i < 8 :: c.streams[i] == VestingState.NO_STREAM)
    && Sum(VestingState.Totals(c)) < U128_END
  }

  lemma VestingTermsExact(c: VestingState.Config)
    ensures VestingState.ValidConfig(c) <==> VestingTerms(c)
  {
    hide Sum;
    if 1 <= c.count <= 8 {
      VestingStreamsExact(c);
    }
  }

  lemma VestingStreamsExact(c: VestingState.Config)
    requires c.count <= 8
    ensures VestingState.LegalStreams(c.streams, c.count) <==>
      && (forall i: nat | i < c.count ::
            && c.streams[i].key != ZERO32 && Proper(c.streams[i].payout) && Proper(c.streams[i].refund)
            && c.streams[i].payout != c.streams[i].refund && StreamTerms(c.streams[i].terms))
      && (forall i: nat, j: nat | i < j < c.count :: !Shares(c.streams[i], c.streams[j]))
  {
    if VestingState.LegalStreams(c.streams, c.count) {
      forall i: nat, j: nat | i < j < c.count ensures !Shares(c.streams[i], c.streams[j]) {
        assert VestingState.NewStream(c.streams, j);
        assert VestingState.Apart(c.streams[i], c.streams[j]);
      }
      forall i: nat | i < c.count
        ensures && c.streams[i].key != ZERO32 && Proper(c.streams[i].payout) && Proper(c.streams[i].refund)
                && c.streams[i].payout != c.streams[i].refund && StreamTerms(c.streams[i].terms)
      {
        assert VestingState.LegalStream(c.streams[i]);
      }
    }
  }

  ghost predicate LaneBooks(l: VestingState.Lane, nonce: nat) {
    && (l.lastLt == 0 <==> l.lastHash == ZERO32)
    && (if l.pending == 0 then l.nonce == 0 && l.afterLt == 0 else 1 <= l.nonce <= nonce && l.lastLt <= l.afterLt)
  }

  /** A running stream pays from what has vested and refunds nothing; a cancelled one pays within its cap. */
  ghost predicate StreamBooks(x: VestingState.Stream, p: VestingState.Progress, now: nat, nonce: nat)
    requires VestingCore.ValidSchedule(x.terms)
  {
    && LaneBooks(p.claims, nonce) && LaneBooks(p.refunds, nonce)
    && if p.cancelled then
         && x.revocable && p.cutoff <= now && p.cutoff < x.terms.end && p.cap == VestingCore.Vested(x.terms, p.cutoff)
         && p.claimed + p.claims.pending <= p.cap
         && p.refunded + p.refunds.pending + p.cap <= x.terms.total
       else
         && p.cutoff == 0 && p.cap == 0 && p.refunded == 0 && p.refunds == VestingState.Lane(0, 0, 0, 0, ZERO32)
         && p.claimed + p.claims.pending <= VestingCore.Vested(x.terms, now)
  }

  ghost predicate VestingBooks(s: VestingState.State) {
    && VestingTerms(s.config)
    && (!s.funded ==> s.nonce == 0 && forall i: nat | i < 8 :: s.progress[i] == VestingState.UNTOUCHED)
    && (forall i: nat | i < s.config.count ::
          && VestingCore.ValidSchedule(s.config.streams[i].terms)
          && StreamBooks(s.config.streams[i], s.progress[i], s.lastTime, s.nonce))
    && (forall i: nat | s.config.count <= i < 8 :: s.progress[i] == VestingState.UNTOUCHED)
  }

  lemma StreamBooksExact(x: VestingState.Stream, p: VestingState.Progress, now: u32, nonce: u64)
    requires VestingCore.ValidSchedule(x.terms)
    ensures VestingState.SoundProgress(x, p, now, nonce) <==> StreamBooks(x, p, now, nonce)
  {
    hide VestingCore.Vested;
  }

  lemma VestingSlotsExact(s: VestingState.State)
    requires 1 <= s.config.count <= 8
    ensures VestingState.SoundBooks(s.config, s.progress, s.lastTime, s.nonce) <==>
      && (forall i: nat | i < s.config.count ::
            && VestingCore.ValidSchedule(s.config.streams[i].terms)
            && StreamBooks(s.config.streams[i], s.progress[i], s.lastTime, s.nonce))
      && (forall i: nat | s.config.count <= i < 8 :: s.progress[i] == VestingState.UNTOUCHED)
  {
    hide VestingState.SoundProgress, StreamBooks, VestingCore.ValidSchedule, VestingState.SoundSlot;
    forall i: nat | i < 8
      ensures VestingState.SoundSlot(s.config, s.progress, s.lastTime, s.nonce, i) <==>
              if i < s.config.count
              then VestingCore.ValidSchedule(s.config.streams[i].terms)
                   && StreamBooks(s.config.streams[i], s.progress[i], s.lastTime, s.nonce)
              else s.progress[i] == VestingState.UNTOUCHED
    {
      VestingSlotExact(s, i);
    }
  }

  lemma VestingSlotExact(s: VestingState.State, i: nat)
    requires i < 8
    ensures VestingState.SoundSlot(s.config, s.progress, s.lastTime, s.nonce, i) <==>
            if i < s.config.count
            then VestingCore.ValidSchedule(s.config.streams[i].terms)
                 && StreamBooks(s.config.streams[i], s.progress[i], s.lastTime, s.nonce)
            else s.progress[i] == VestingState.UNTOUCHED
  {
    hide VestingState.SoundProgress, StreamBooks, VestingCore.ValidSchedule;
    if i < s.config.count && VestingCore.ValidSchedule(s.config.streams[i].terms) {
      StreamBooksExact(s.config.streams[i], s.progress[i], s.lastTime, s.nonce);
    }
  }

  lemma VestingBooksExact(s: VestingState.State)
    ensures VestingState.Valid(s) <==> VestingBooks(s)
  {
    hide Sum, VestingTerms, VestingState.ValidConfig, VestingState.SoundBooks, StreamBooks, VestingCore.ValidSchedule;
    VestingTermsExact(s.config);
    if VestingTerms(s.config) {
      VestingCount(s.config);
      VestingSlotsExact(s);
    }
  }

  lemma VestingCount(c: VestingState.Config)
    requires VestingTerms(c)
    ensures 1 <= c.count <= 8
  {
  }

  /** The images a vesting contract continues from are exactly these. */
  lemma VestingImageExact(b: seq<byte>)
    ensures VestingCodec.Decode(b).Ok? <==> VestingCodec.Shaped(b) && VestingBooks(VestingCodec.View(b))
  {
    hide Sum, VestingCodec.Shaped, VestingCodec.View, VestingState.Valid, VestingBooks;
    if VestingCodec.Shaped(b) {
      VestingBooksExact(VestingCodec.View(b));
    }
  }

  /** Every stream starts after `now` and pays other accounts of the dapp of `here`. */
  predicate BeforeAndWithin(c: VestingState.Config, now: u32, here: Address)
    requires c.count <= 8
  {
    forall i: nat | i < c.count ::
      && now < c.streams[i].terms.start
      && c.streams[i].payout.dapp == here.dapp && c.streams[i].payout != here
      && c.streams[i].refund.dapp == here.dapp && c.streams[i].refund != here
  }

  /** It is deployed exactly by its owner, without value, before any stream starts, paying within its own dapp. */
  lemma VestingDeploymentExact(stored: seq<byte>, in_: Input, data: seq<byte>)
    ensures var r := VestingImage.Initialized(stored, in_, data);
      && (r.Ok? <==>
            && VestingCodec.ShapedConfig(data)
            && var c := VestingCodec.ViewConfig(data);
            && VestingTerms(c)
            && in_.message.External? && in_.message.actor == c.owner && in_.message.extra == []
            && stored == []
            && BeforeAndWithin(c, in_.blockTime, in_.here))
      && (r.Ok? ==>
            var s := r.value.0;
            && s.config == VestingCodec.ViewConfig(data) && !s.funded && s.nonce == 0 && s.lastTime == in_.blockTime
            && (forall i: nat | i < 8 :: s.progress[i] == VestingState.UNTOUCHED))
  {
    hide Sum, VestingCodec.ShapedConfig, VestingCodec.ViewConfig, VestingState.LegalConfig, VestingTerms,
         VestingSpec.EventOf, VestingSpec.Started, VestingImage.LocalStreams, BeforeAndWithin;
    if VestingCodec.ShapedConfig(data) {
      var c := VestingCodec.ViewConfig(data);
      VestingTermsExact(c);
      if VestingTerms(c) {
        VestingCount(c);
        LocalExact(c, in_.blockTime, in_.here);
      }
    }
  }

  lemma LocalExact(c: VestingState.Config, now: u32, here: Address)
    requires c.count <= 8
    ensures !VestingSpec.Started(c, now) && VestingImage.LocalStreams(c, here) <==> BeforeAndWithin(c, now, here)
  {
  }

  // The audit ledger.

  /** Each slot unbound or bound to a proper address of its own, with an empty record or one that shows something. */
  ghost predicate LedgerBooks(g: AuditCore.Ledger) {
    && 1 <= |g.sources| <= 16 && |g.records| == |g.sources| && g.owner != ZERO32
    && (forall i: nat | i < |g.sources| :: g.sources[i] == Address(ZERO32, ZERO32) || Proper(g.sources[i]))
    && (forall i: nat, j: nat | i < j < |g.sources| ::
          g.sources[i] != g.sources[j] || g.sources[j] == Address(ZERO32, ZERO32))
    && (forall i: nat | i < |g.records| :: RecordBooks(g.records[i]))
  }

  predicate RecordBooks(r: AuditCore.Record) {
    r == AuditCore.Record(0, 0, 0) || (r.count > 0 && r.lastNonce > 0 && r.total > 0)
  }

  /** The images the ledger continues from, in either stored form, are exactly these. */
  lemma LedgerImageExact(l: AuditLayout.Layout, b: seq<byte>)
    ensures AuditLayout.AcceptedImage(l, b) <==> AuditLayout.Shaped(l, b) && LedgerBooks(AuditLayout.View(l, b))
  {
    hide AuditLayout.Shaped, AuditLayout.View;
    if AuditLayout.Shaped(l, b) {
      LedgerBooksExact(AuditLayout.View(l, b));
    }
  }

  lemma LedgerBooksExact(g: AuditCore.Ledger)
    ensures AuditCore.ValidLedger(g) <==> LedgerBooks(g)
  {
    if AuditCore.Sized(g) {
      SourcesExact(g.sources);
      forall i: nat | i < |g.sources|
        ensures AuditCore.ValidSlot(g, i) <==> AuditCore.ValidSource(g.sources, i) && RecordBooks(g.records[i])
      {
      }
    }
  }

  lemma SourcesExact(sources: seq<Address>)
    ensures (forall i: nat | i < |sources| :: AuditCore.ValidSource(sources, i)) <==>
      && (forall i: nat | i < |sources| :: sources[i] == Address(ZERO32, ZERO32) || Proper(sources[i]))
      && (forall i: nat, j: nat | i < j < |sources| ::
            sources[i] != sources[j] || sources[j] == Address(ZERO32, ZERO32))
  {
    if forall i: nat | i < |sources| :: AuditCore.ValidSource(sources, i) {
      forall i: nat, j: nat | i < j < |sources|
        ensures sources[i] != sources[j] || sources[j] == Address(ZERO32, ZERO32)
      {
        assert AuditCore.ValidSource(sources, j) && sources[..j][i] == sources[i];
      }
      forall i: nat | i < |sources| ensures sources[i] == Address(ZERO32, ZERO32) || Proper(sources[i]) {
        assert AuditCore.ValidSource(sources, i);
      }
    }
  }
}
