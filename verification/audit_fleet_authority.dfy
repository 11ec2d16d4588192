/** Over whole runs of a fleet: a slot is bound only by the owner's word, and only its own source adds to its record. */
module AuditFleetAuthority {
  import opened Bytes
  import opened Sdk
  import opened RevenueCore
  import opened AuditCore
  import opened AuditFleet
  import opened AuditAuthority

  /** The owner's message that binds slot `i` to address `a`. */
  predicate Binds(action: Action, owner: Id32, i: nat, a: Address) {
    && action.Other? && action.m.External? && action.m.methodId == AUDIT_BIND && action.m.actor == owner
    && i < 256 && action.m.body == [i] + a.dapp + a.account
  }

  /** The address an action speaks for, if it shows the ledger an internal message. */
  function Speaker(w: Fleet, action: Action): Option<Address> {
    match action
    case Deliver(k, _) => if k < |w.sites| then Some(w.sites[k].at) else None
    case Repeat(k, _, _) => if k < |w.sites| then Some(w.sites[k].at) else None
    case Other(m) => if m.Internal? then Some(m.source) else None
    case _ => None
  }

  ghost predicate SlotStep(w: Fleet, action: Action, t: Fleet, i: nat)
    requires i < |w.ledger.sources| == |w.ledger.records| == |t.ledger.sources| == |t.ledger.records|
  {
    && (t.ledger.sources[i] != w.ledger.sources[i] ==>
          w.ledger.sources[i] == ZERO_ADDRESS && Binds(action, w.ledger.owner, i, t.ledger.sources[i]))
    && (t.ledger.records[i] != w.ledger.records[i] ==>
          Speaker(w, action) == Some(w.ledger.sources[i]) && t.ledger.records[i].total > w.ledger.records[i].total)
  }

  lemma ShownIsAuthorised(w: Fleet, action: Action, m: Message, t: Fleet, i: nat)
    requires Sized(w.ledger) && i < |w.ledger.sources|
    requires t.ledger == w.ledger || (Step(w.ledger, w.here, m).Ok? && t.ledger == Step(w.ledger, w.here, m).value.0)
    requires m.Internal? ==> Speaker(w, action) == Some(m.source)
    requires m.External? ==> action == Other(m)
    ensures Sized(t.ledger) && |t.ledger.sources| == |w.ledger.sources| && t.ledger.owner == w.ledger.owner
    ensures SlotStep(w, action, t, i)
  {
    hide Step;
    if t.ledger != w.ledger {
      ChangesAreAuthorised(w.ledger, w.here, m);
      assert SlotChange(w.ledger, w.here, m, t.ledger, i);
    }
  }

  /**
   * One action, whatever it is: slot `i` is bound only by the owner's message naming it, and only if it was unbound;
   * its record is added to only by what the address bound there says.
   */
  lemma StepsNeedTheRightVoice(w: Fleet, action: Action, i: nat)
    requires Sized(w.ledger) && i < |w.ledger.sources|
    ensures var t := Apply(w, action);
      && Sized(t.ledger) && |t.ledger.sources| == |w.ledger.sources| && t.ledger.owner == w.ledger.owner
      && SlotStep(w, action, t, i)
  {
    hide Step, SlotStep, Handled;
    var t := Apply(w, action);
    if Enabled(w, action) {
      match action
      case Receive(_, _) => Unmoved(w, action, t, i);
      case Deliver(k, lt) =>
        var site := w.sites[k];
        ShownIsAuthorised(w, action, ReportOf(site.(queue := site.queue[1..]), site.queue[0], lt), t, i);
      case Repeat(k, n, lt) => ShownIsAuthorised(w, action, ReportOf(w.sites[k], w.sites[k].history[n], lt), t, i);
      case Lose(_) => Unmoved(w, action, t, i);
      case Other(m) => ShownIsAuthorised(w, action, m, t, i);
    } else {
      Unmoved(w, action, t, i);
    }
  }

  lemma Unmoved(w: Fleet, action: Action, t: Fleet, i: nat)
    requires Sized(w.ledger) && i < |w.ledger.sources| && t.ledger == w.ledger
    ensures SlotStep(w, action, t, i)
  {
  }

  /** From any ledger, over any run: without the owner's message naming slot `i`, the slot stays as it is. */
  lemma {:induction false} SourceStays(w: Fleet, actions: seq<Action>, i: nat)
    requires Sized(w.ledger) && i < |w.ledger.sources|
    requires forall n, a | 0 <= n < |actions| :: !Binds(actions[n], w.ledger.owner, i, a)
    ensures var t := Exec(w, actions);
      |t.ledger.sources| == |w.ledger.sources| && t.ledger.sources[i] == w.ledger.sources[i]
    decreases |actions|
  {
    if actions != [] {
      StepsNeedTheRightVoice(w, actions[0], i);
      assert forall n | 0 <= n < |actions| - 1 :: actions[1..][n] == actions[n + 1];
      SourceStays(Apply(w, actions[0]), actions[1..], i);
    }
  }

  /** A bound slot keeps its source whatever comes. */
  lemma {:induction false} BoundStays(w: Fleet, actions: seq<Action>, i: nat)
    requires Sized(w.ledger) && i < |w.ledger.sources| && w.ledger.sources[i] != ZERO_ADDRESS
    ensures var t := Exec(w, actions);
      |t.ledger.sources| == |w.ledger.sources| && t.ledger.sources[i] == w.ledger.sources[i]
    decreases |actions|
  {
    if actions != [] {
      StepsNeedTheRightVoice(w, actions[0], i);
      BoundStays(Apply(w, actions[0]), actions[1..], i);
    }
  }

  /** Over any run, every slot that came to be bound was bound by a message of the owner naming that very address. */
  lemma {:induction false} BoundMeansNamed(w: Fleet, actions: seq<Action>, i: nat)
    requires Sized(w.ledger) && i < |w.ledger.sources|
    ensures |Exec(w, actions).ledger.sources| == |w.ledger.sources|
    ensures var a := Exec(w, actions).ledger.sources[i];
      a != w.ledger.sources[i] ==>
        w.ledger.sources[i] == ZERO_ADDRESS && exists n | 0 <= n < |actions| :: Binds(actions[n], w.ledger.owner, i, a)
    decreases |actions|
  {
    if actions != [] {
      var u := Apply(w, actions[0]);
      StepsNeedTheRightVoice(w, actions[0], i);
      BoundMeansNamed(u, actions[1..], i);
      var a := Exec(w, actions).ledger.sources[i];
      if u.ledger.sources[i] != ZERO_ADDRESS {
        BoundStays(u, actions[1..], i);
      }
      if a != u.ledger.sources[i] {
        var n :| 0 <= n < |actions| - 1 && Binds(actions[1..][n], w.ledger.owner, i, a);
        assert Binds(actions[n + 1], w.ledger.owner, i, a);
      }
    }
  }
}
