/** Over whole runs of the hub: nobody's money moves without the key it belongs to. */
module HubAuthority {
  import opened Bytes
  import opened Sdk
  import opened RevenueCore
  import opened VaultState
  import opened HubSystem
  import opened HubProof
  import A = VaultAuthority
  import V = VaultSpec

  /** The message a step puts before the vault, if it does. */
  function Shown(h: Hub, a: Action): Option<Input> {
    match a
    case CallVault(in_, _) => Some(in_)
    case Answer(k, blockLt, time, balance) =>
      if k < |h.bag| && h.bag[k].Return? then Some(AnswerInput(h, k, blockLt, time, balance)) else None
    case _ => None
  }

  lemma ReturnsAreCallbacks(h: Hub, k: nat)
    requires Inv(h) && k < |h.bag| && h.bag[k].Return?
    ensures h.bag[k].msg.Internal?
  {
    assert SlotSound(h, k);
  }

  /** A step that changes the vault shows it a message that it accepts, and changes what that message may change. */
  lemma StepIsAuthorised(h: Hub, a: Action)
    requires Inv(h) && Apply(h, a).vault != h.vault
    ensures Shown(h, a).Some?
    ensures A.Granted(h.vault, Shown(h, a).value) && A.Authorised(h.vault, Shown(h, a).value, Apply(h, a).vault)
    ensures a.CallVault? <==> Shown(h, a).value.message.External?
  {
    hide Valid, V.Process, A.Granted, A.Authorised;
    var in_ := Shown(h, a).value;
    A.AcceptedExactly(h.vault, in_);
    A.ChangesAreAuthorised(h.vault, in_);
    if a.Answer? {
      ReturnsAreCallbacks(h, a.k);
    } else if in_.message.Internal? {
      A.OthersRefused(h.vault, in_);
    }
  }

  /** The owner of member `i` claims: its key, an external message, an unpaused vault, an idle lock. */
  predicate ClaimedByOwner(h: Hub, a: Action, i: nat)
    requires i < MAX_MEMBERS
  {
    && a.CallVault? && a.in_.message.External? && a.in_.message.methodId == CLAIM
    && a.in_.message.actor == h.vault.config.members[i].key && a.in_.message.body == [i]
    && !h.vault.paused && h.vault.members[i].pending == 0
  }

  /**
   * One step from any hub the invariant holds of: a member's money is locked, sent or taken from its balance only by
   * that member's own claim; its lock opens only when the answer to its payout is handed back; and money is taken in
   * only by a deposit into an unpaused vault.
   */
  lemma StepsNeedTheOwner(h: Hub, a: Action, i: nat)
    requires Inv(h) && i < MAX_MEMBERS
    ensures var t, m, n := Apply(h, a), h.vault.members[i], Apply(h, a).vault.members[i];
      && t.vault.config == h.vault.config
      && (m.pending == 0 && n.pending != 0 ==> ClaimedByOwner(h, a, i) && n.pending == m.claimable)
      && (n.claimable < m.claimable ==> ClaimedByOwner(h, a, i) && n.claimable == 0)
      && (m.pending != 0 && n.pending != m.pending ==> a.Answer? && n.pending == 0)
      && (n.paid != m.paid ==> a.Answer? && n.paid == m.paid + m.pending && n.pending == 0)
      && (t.vault.received != h.vault.received ==>
            a.CallVault? && a.in_.message.External? && a.in_.message.methodId == DEPOSIT && !h.vault.paused)
  {
    hide Valid, Inv, Apply, Principal;
    if Apply(h, a).vault != h.vault {
      StepIsAuthorised(h, a);
      var in_ := Shown(h, a).value;
      ChangeNeedsTheOwner(h.vault, in_, Apply(h, a).vault, i);
    }
  }

  lemma ChangeNeedsTheOwner(s: State, in_: Input, t: State, i: nat)
    requires i < MAX_MEMBERS && A.Authorised(s, in_, t)
    ensures var m, n := s.members[i], t.members[i];
      && (m.pending == 0 && n.pending != 0 ==> A.MayClaim(s, in_, i) && n.pending == m.claimable)
      && (n.claimable < m.claimable ==> A.MayClaim(s, in_, i) && n.claimable == 0)
      && (m.pending != 0 && n.pending != m.pending ==> A.MaySettle(s, in_, i) && n.pending == 0)
      && (n.paid != m.paid ==> A.MaySettle(s, in_, i) && n.paid == m.paid + m.pending && n.pending == 0)
  {
    assert A.MemberChange(s, in_, t, i);
  }

  /** Somewhere in the run the owner of member `i` claims. */
  ghost predicate OwnerClaims(h: Hub, actions: seq<Action>, i: nat)
    requires i < MAX_MEMBERS
    decreases |actions|
  {
    actions != [] && (ClaimedByOwner(h, actions[0], i) || OwnerClaims(Apply(h, actions[0]), actions[1..], i))
  }

  /** However a run goes on: without a claim of its owner a member's lock stays shut, nothing is paid, nothing taken. */
  lemma {:induction false} UnclaimedStays(h: Hub, actions: seq<Action>, i: nat)
    requires Inv(h) && i < MAX_MEMBERS && h.vault.members[i].pending == 0 && !OwnerClaims(h, actions, i)
    ensures var m, n := h.vault.members[i], Exec(h, actions).vault.members[i];
      n.pending == 0 && n.paid == m.paid && n.claimable >= m.claimable
    decreases |actions|
  {
    if actions != [] {
      StepsNeedTheOwner(h, actions[0], i);
      StepKeepsInv(h, actions[0]);
      UnclaimedStays(Apply(h, actions[0]), actions[1..], i);
    }
  }

  /**
   * Over every run from deployment: a member that was ever paid, or whose balance is locked, claimed it with the key
   * the vault was deployed with, by an external message to a vault that was not paused.
   */
  lemma PaidMeansClaimed(h: Hub, actions: seq<Action>, i: nat)
    requires Init(h) && i < MAX_MEMBERS
    requires Exec(h, actions).vault.members[i].paid != 0 || Exec(h, actions).vault.members[i].pending != 0
    ensures OwnerClaims(h, actions, i)
  {
    InitInv(h);
    if !OwnerClaims(h, actions, i) {
      UnclaimedStays(h, actions, i);
    }
  }
}
