/**
 * One ledger and all the receivers that report to it, run against an environment that pays, binds, delivers, repeats
 * and loses in any order, and that sends the ledger anything else it likes. The host is assumed to name the true
 * source of an internal message, so nobody reports in a receiver's name. A batch of internal messages leaves what its
 * messages leave one at a time (AuditCore.BatchIsOneByOne), so runs of single messages cover batches.
 */
module AuditFleet {
  import opened Bytes
  import opened Sdk
  import opened RevenueCore
  import opened AuditCore
  import F = AuditFlow
  import R = RevenueReceiver

  /** A receiver at its address; `history` and `taken` note what it was paid and what the ledger credited of that. */
  datatype Site = Site(at: Address, receiver: R.Receiver, history: seq<F.Payment>, taken: seq<F.Payment>,
                       queue: seq<F.Payment>)

  datatype Fleet = Fleet(here: Address, ledger: Ledger, sites: seq<Site>)

  datatype Action =
    | Receive(k: nat, in_: Input)
    | Deliver(k: nat, lt: u64)
    | Repeat(k: nat, n: nat, lt: u64)
    | Lose(k: nat)
    | Other(m: Message)

  /** The report of one payment, as the ledger sees it. */
  function ReportOf(s: Site, p: F.Payment, lt: u64): Message {
    var out := R.Report(s.receiver, PaymentBody(s.receiver.index, p.nonce, p.amount));
    F.ReportMessage(s.at, out, out.destination, lt)
  }

  /** A receiver handles a message, and queues what it has to report. */
  function Handled(s: Site, in_: Input): Site {
    var f := F.Apply(F.Flow(s.receiver, EMPTY, s.history, s.taken, s.queue), F.Call(in_));
    s.(receiver := f.receiver, history := f.history, queue := f.queue)
  }

  function WithSite(w: Fleet, k: nat, s: Site): Fleet
    requires k < |w.sites|
  {
    w.(sites := w.sites[k := s])
  }

  /** A report arrives where its receiver was told to send it, and is credited there or refused. */
  function Arrive(w: Fleet, k: nat, p: F.Payment, lt: u64): Fleet
    requires k < |w.sites| && Sized(w.ledger)
  {
    var s := w.sites[k];
    if s.receiver.audit != w.here then w else
      match Step(w.ledger, w.here, ReportOf(s, p, lt))
      case Err(_) => w
      case Ok((g, _)) => WithSite(w, k, s.(taken := s.taken + [p])).(ledger := g)
  }

  function Dequeued(w: Fleet, k: nat): Fleet
    requires k < |w.sites| && w.sites[k].queue != []
  {
    WithSite(w, k, w.sites[k].(queue := w.sites[k].queue[1..]))
  }

  predicate Enabled(w: Fleet, a: Action) {
    match a
    case Receive(k, _) => k < |w.sites|
    case Deliver(k, _) => k < |w.sites| && w.sites[k].queue != []
    case Repeat(k, n, _) => k < |w.sites| && n < |w.sites[k].history|
    case Lose(k) => k < |w.sites| && w.sites[k].queue != []
    case Other(m) =>
      m.Internal? ==> m.source != ZERO_ADDRESS && forall k | 0 <= k < |w.sites| :: w.sites[k].at != m.source
  }

  function Apply(w: Fleet, a: Action): Fleet {
    if !Enabled(w, a) || !Sized(w.ledger) then w else
      match a
      case Receive(k, in_) => WithSite(w, k, Handled(w.sites[k], in_))
      case Deliver(k, lt) => Arrive(Dequeued(w, k), k, w.sites[k].queue[0], lt)
      case Repeat(k, n, lt) => Arrive(w, k, w.sites[k].history[n], lt)
      case Lose(k) => Dequeued(w, k)
      case Other(m) =>
        match Step(w.ledger, w.here, m)
        case Err(_) => w
        case Ok((g, _)) => w.(ledger := g)
  }

  function Exec(w: Fleet, actions: seq<Action>): Fleet
    decreases |actions|
  {
    if actions == [] then w else Exec(Apply(w, actions[0]), actions[1..])
  }

  predicate Apart(sites: seq<Site>) {
    && (forall k | 0 <= k < |sites| :: sites[k].at != ZERO_ADDRESS)
    && (forall j, k | 0 <= j < k < |sites| :: sites[j].at != sites[k].at)
  }

  predicate Fresh(s: Site) {
    s.receiver.lastNonce == s.receiver.total == s.receiver.count == 0 && s.history == s.taken == s.queue == []
  }

  /** An empty ledger, with any slots bound already, and receivers nobody has paid yet. */
  predicate Init(w: Fleet) {
    && Sized(w.ledger) && Apart(w.sites)
    && (forall i | 0 <= i < |w.ledger.records| :: w.ledger.records[i] == EMPTY)
    && (forall k | 0 <= k < |w.sites| :: Fresh(w.sites[k]))
  }

  /** The slot a receiver reports for is bound to it. */
  predicate BoundTo(g: Ledger, s: Site) {
    s.receiver.index < |g.sources| && g.sources[s.receiver.index] == s.at
  }

  /** One receiver and its own record; a record that is not its own counts as none. */
  function Project(g: Ledger, s: Site): F.Flow
    requires Sized(g)
  {
    F.Flow(s.receiver, if BoundTo(g, s) then g.records[s.receiver.index] else EMPTY, s.history, s.taken, s.queue)
  }

  /** Every payment noted is one whose report can be read. */
  ghost predicate Genuine(s: Site) {
    forall p | p in F.Elements(s.history) :: p.amount != 0 && s.receiver.index < MAX_MEMBERS
  }

  ghost predicate SiteSound(g: Ledger, s: Site)
    requires Sized(g)
  {
    F.Inv(Project(g, s)) && Genuine(s)
  }

  /** Nothing was ever credited to a slot that is unbound, or whose receiver reports for another slot. */
  predicate SlotSound(g: Ledger, sites: seq<Site>, i: nat)
    requires i < |g.sources| == |g.records|
  {
    && (g.sources[i] == ZERO_ADDRESS ==> g.records[i] == EMPTY)
    && (forall k | 0 <= k < |sites| ::
          g.sources[i] == sites[k].at && i != sites[k].receiver.index ==> g.records[i] == EMPTY)
  }

  ghost predicate Inv(w: Fleet) {
    && Sized(w.ledger) && Apart(w.sites)
    && (forall i | 0 <= i < |w.ledger.sources| :: SlotSound(w.ledger, w.sites, i))
    && (forall k | 0 <= k < |w.sites| :: SiteSound(w.ledger, w.sites[k]))
  }

  lemma InitKeepsInv(w: Fleet)
    requires Init(w)
    ensures Inv(w)
  {
    forall k | 0 <= k < |w.sites| ensures SiteSound(w.ledger, w.sites[k]) {
      assert Fresh(w.sites[k]);
    }
  }

  /** What a receiver queues is, message by message, what the run later delivers for the payments it noted. */
  lemma QueuedIsReported(s: Site, in_: Input, lt: u64)
    requires R.Process(s.receiver, in_).Ok? && in_.message.Internal?
    ensures var o, t := R.Process(s.receiver, in_).value, Handled(s, in_);
      && |t.history| == |s.history| + 1 && t.queue == s.queue + t.queue[|s.queue|..]
      && |t.queue| == |s.queue| + |o.reports|
      && (forall n | 0 <= n < |o.reports| ::
            F.ReportMessage(s.at, o.reports[n], s.receiver.audit, lt) == ReportOf(t, t.queue[|s.queue| + n], lt))
  {
    F.ReportsOf(s.receiver, in_);
    R.OnlyPaymentsMoveValue(s.receiver, in_);
    var (index, nonce, amount) := ReadPayment(in_.message.body).value;
    PaymentRoundTrip(in_.message.body, index, nonce, amount);
  }

  /** A receiver's identity never changes. */
  lemma HandledStays(s: Site, in_: Input)
    ensures var t := Handled(s, in_);
      t.at == s.at && t.receiver.audit == s.receiver.audit && t.receiver.index == s.receiver.index
  {
    if R.Process(s.receiver, in_).Ok? {
      R.OnlyPaymentsMoveValue(s.receiver, in_);
    }
  }

  /** A message adds at most one payment to a receiver's history: one with a higher nonce, whose report can be read. */
  lemma HandledHistory(s: Site, in_: Input)
    ensures var h := Handled(s, in_).history;
      || h == s.history
      || (|h| > 0 && h == s.history + [h[|h| - 1]] && h[|h| - 1].nonce > s.receiver.lastNonce
          && h[|h| - 1].amount != 0 && s.receiver.index < MAX_MEMBERS)
  {
    if R.Process(s.receiver, in_).Ok? {
      F.ReportsOf(s.receiver, in_);
      if in_.message.Internal? {
        var (index, nonce, amount) := ReadPayment(in_.message.body).value;
        PaymentRoundTrip(in_.message.body, index, nonce, amount);
      }
    }
  }

  lemma HandledIsGenuine(s: Site, in_: Input)
    requires Genuine(s) && F.Increasing(s.history) && F.LastNonce(s.history) == s.receiver.lastNonce
    ensures Genuine(Handled(s, in_))
  {
    hide R.Process;
    HandledStays(s, in_);
    HandledHistory(s, in_);
    var h := Handled(s, in_).history;
    if h != s.history {
      F.Snoc(s.history, h[|h| - 1]);
    }
  }

  lemma HandledIsSound(g: Ledger, s: Site, in_: Input)
    requires Sized(g) && SiteSound(g, s)
    ensures SiteSound(g, Handled(s, in_))
    ensures Project(g, Handled(s, in_)) == F.Apply(Project(g, s), F.Call(in_))
  {
    HandledStays(s, in_);
    HandledIsGenuine(s, in_);
    F.StepKeepsInv(Project(g, s), F.Call(in_));
  }

  /** A receiver's report is credited to its own record exactly as the list of payments takes it, or changes nothing. */
  lemma ReportCredits(g: Ledger, here: Address, s: Site, p: F.Payment, lt: u64)
    requires Sized(g) && SiteSound(g, s) && p in F.Elements(s.history)
    ensures var r := Step(g, here, ReportOf(s, p, lt));
      if !BoundTo(g, s) then r.Err?
      else
        match Credit(g.records[s.receiver.index], p.nonce, p.amount)
        case Err(_) => r.Err?
        case Ok(record) => r.Ok? && r.value.0 == g.(records := g.records[s.receiver.index := record])
  {
    F.NoncesBelowLast(s.history);
    PaymentRoundTrip(PaymentBody(s.receiver.index, p.nonce, p.amount), s.receiver.index, p.nonce, p.amount);
  }

  /** Crediting a record leaves every receiver's view alone, except that of the receiver its slot is bound to. */
  lemma OthersKeepTheirs(g: Ledger, i: nat, r: Record, s: Site)
    requires Sized(g) && i < |g.records| && s.at != g.sources[i]
    ensures Project(g.(records := g.records[i := r]), s) == Project(g, s)
  {
  }

  lemma ArriveKeepsInv(w: Fleet, k: nat, p: F.Payment, lt: u64)
    requires Inv(w) && k < |w.sites| && p in F.Elements(w.sites[k].history)
    ensures Inv(Arrive(w, k, p, lt))
    ensures BoundTo(w.ledger, w.sites[k]) && w.sites[k].receiver.audit == w.here ==>
      Project(Arrive(w, k, p, lt).ledger, Arrive(w, k, p, lt).sites[k]) == F.Credited(Project(w.ledger, w.sites[k]), p)
  {
    hide F.Inv;
    var s, t := w.sites[k], Arrive(w, k, p, lt);
    ReportCredits(w.ledger, w.here, s, p, lt);
    if t != w {
      var i: nat := s.receiver.index;
      var r := Credit(w.ledger.records[i], p.nonce, p.amount).value;
      assert t.ledger == w.ledger.(records := w.ledger.records[i := r]);
      F.CreditIsOffer(Project(w.ledger, s), p);
      assert Project(t.ledger, t.sites[k]) == F.Credited(Project(w.ledger, s), p);
      forall j | 0 <= j < |t.sites| ensures SiteSound(t.ledger, t.sites[j]) {
        assert SiteSound(w.ledger, w.sites[j]);
        if j != k {
          OthersKeepTheirs(w.ledger, i, r, w.sites[j]);
        }
      }
      forall n | 0 <= n < |t.ledger.sources| ensures SlotSound(t.ledger, t.sites, n) {
        assert SlotSound(w.ledger, w.sites, n);
      }
    }
  }

  lemma SiteChangeKeepsInv(w: Fleet, k: nat, s: Site)
    requires Inv(w) && k < |w.sites| && SiteSound(w.ledger, s)
    requires s.at == w.sites[k].at && s.receiver.index == w.sites[k].receiver.index
    ensures Inv(WithSite(w, k, s))
  {
    hide F.Inv;
    var t := WithSite(w, k, s);
    forall i | 0 <= i < |t.ledger.sources| ensures SlotSound(t.ledger, t.sites, i) {
      assert SlotSound(w.ledger, w.sites, i);
    }
  }

  lemma DequeuedIsSound(w: Fleet, k: nat)
    requires Inv(w) && k < |w.sites| && w.sites[k].queue != []
    ensures Inv(Dequeued(w, k)) && w.sites[k].queue[0] in F.Elements(w.sites[k].history)
    ensures Project(w.ledger, Dequeued(w, k).sites[k]) == F.Apply(Project(w.ledger, w.sites[k]), F.Lose)
  {
    assert SiteSound(w.ledger, w.sites[k]);
    F.StepKeepsInv(Project(w.ledger, w.sites[k]), F.Lose);
    SiteChangeKeepsInv(w, k, w.sites[k].(queue := w.sites[k].queue[1..]));
  }

  /** Messages of anyone else credit only slots of their own, and binding a slot binds an empty one. */
  lemma OtherKeepsSite(w: Fleet, m: Message, k: nat)
    requires Inv(w) && Enabled(w, Other(m)) && k < |w.sites| && Step(w.ledger, w.here, m).Ok?
    ensures Sized(Step(w.ledger, w.here, m).value.0)
    ensures Project(Step(w.ledger, w.here, m).value.0, w.sites[k]) == Project(w.ledger, w.sites[k])
  {
    if m.Internal? {
      var e := Accepted(w.ledger.sources, w.ledger.records, m).value;
      OthersKeepTheirs(w.ledger, e.member, e.record, w.sites[k]);
    } else if m.methodId == AUDIT_BIND {
      assert SlotSound(w.ledger, w.sites, m.body[0]);
    }
  }

  lemma OtherKeepsSlot(w: Fleet, m: Message, i: nat)
    requires Inv(w) && Enabled(w, Other(m)) && i < |w.ledger.sources| && Step(w.ledger, w.here, m).Ok?
    ensures var g := Step(w.ledger, w.here, m).value.0;
      Sized(g) && |g.sources| == |w.ledger.sources| && SlotSound(g, w.sites, i)
  {
    assert SlotSound(w.ledger, w.sites, i);
  }

  lemma OtherKeepsInv(w: Fleet, m: Message)
    requires Inv(w) && Enabled(w, Other(m))
    ensures Inv(Apply(w, Other(m)))
  {
    hide F.Inv;
    if Step(w.ledger, w.here, m).Ok? {
      var t := Apply(w, Other(m));
      StepKeepsSize(w.ledger, w.here, m);
      forall k | 0 <= k < |t.sites| ensures SiteSound(t.ledger, t.sites[k]) {
        assert SiteSound(w.ledger, w.sites[k]);
        OtherKeepsSite(w, m, k);
      }
      forall i | 0 <= i < |t.ledger.sources| ensures SlotSound(t.ledger, t.sites, i) {
        OtherKeepsSlot(w, m, 0);
        OtherKeepsSlot(w, m, i);
      }
    }
  }

  lemma StepKeepsInv(w: Fleet, a: Action)
    requires Inv(w)
    ensures Inv(Apply(w, a))
  {
    if Enabled(w, a) {
      match a
      case Receive(k, in_) =>
        assert SiteSound(w.ledger, w.sites[k]);
        HandledStays(w.sites[k], in_);
        HandledIsSound(w.ledger, w.sites[k], in_);
        SiteChangeKeepsInv(w, k, Handled(w.sites[k], in_));
      case Deliver(k, lt) =>
        DequeuedIsSound(w, k);
        ArriveKeepsInv(Dequeued(w, k), k, w.sites[k].queue[0], lt);
      case Repeat(k, n, lt) =>
        F.ElementAt(w.sites[k].history, n);
        ArriveKeepsInv(w, k, w.sites[k].history[n], lt);
      case Lose(k) => DequeuedIsSound(w, k);
      case Other(m) => OtherKeepsInv(w, m);
    }
  }

  lemma {:induction false} RunKeepsInv(w: Fleet, actions: seq<Action>)
    requires Inv(w)
    ensures Inv(Exec(w, actions))
    decreases |actions|
  {
    if actions == [] {
    } else {
      StepKeepsInv(w, actions[0]);
      RunKeepsInv(Apply(w, actions[0]), actions[1..]);
    }
  }

  /**
   * Over every run, with any repetition, reordering and loss of reports, any foreign messages and any binding: the
   * record of a slot never shows more than the receiver bound there holds.
   */
  lemma NeverOverstates(w: Fleet, actions: seq<Action>, i: nat, k: nat)
    requires Init(w)
    ensures var t := Exec(w, actions);
      && |t.ledger.sources| == |t.ledger.records|
      && (i < |t.ledger.sources| && k < |t.sites| && t.ledger.sources[i] == t.sites[k].at ==>
            && t.ledger.records[i].total <= t.sites[k].receiver.total
            && t.ledger.records[i].count <= t.sites[k].receiver.count
            && t.sites[k].receiver.total == F.Total(t.sites[k].history)
            && (i == t.sites[k].receiver.index ==>
                  && t.ledger.records[i].total == F.Total(t.sites[k].taken) && F.Increasing(t.sites[k].taken)
                  && F.Elements(t.sites[k].taken) <= F.Elements(t.sites[k].history)))
  {
    InitKeepsInv(w);
    RunKeepsInv(w, actions);
    var t := Exec(w, actions);
    if i < |t.ledger.sources| && k < |t.sites| && t.ledger.sources[i] == t.sites[k].at {
      assert SiteSound(t.ledger, t.sites[k]) && SlotSound(t.ledger, t.sites, i);
      F.DrawnFrom(t.sites[k].taken, t.sites[k].history);
    }
  }

  /** Nothing of receiver `k` is repeated or lost. */
  predicate InOrder(actions: seq<Action>, k: nat) {
    forall n | 0 <= n < |actions| :: (actions[n].Repeat? || actions[n].Lose?) ==> actions[n].k != k
  }

  /** Receiver `k` reports to this ledger, which has it bound, and what it queued will make up its history. */
  ghost predicate Promises(w: Fleet, k: nat) {
    && k < |w.sites| && w.sites[k].receiver.audit == w.here && BoundTo(w.ledger, w.sites[k])
    && F.OfferAll(w.sites[k].taken, w.sites[k].queue) == w.sites[k].history
  }

  /** Once bound, a slot stays bound. */
  lemma BoundStays(g: Ledger, here: Address, m: Message, s: Site)
    requires Sized(g) && BoundTo(g, s) && s.at != ZERO_ADDRESS && Step(g, here, m).Ok?
    ensures BoundTo(Step(g, here, m).value.0, s)
  {
  }

  lemma StepKeepsPromise(w: Fleet, a: Action, k: nat)
    requires Inv(w) && Promises(w, k) && InOrder([a], k)
    ensures Promises(Apply(w, a), k)
  {
    assert a == [a][0];
    hide F.Inv;
    assert SiteSound(w.ledger, w.sites[k]);
    if Enabled(w, a) {
      match a
      case Receive(j, in_) =>
        if j == k {
          HandledIsSound(w.ledger, w.sites[k], in_);
          HandledStays(w.sites[k], in_);
          F.StepKeepsPromise(Project(w.ledger, w.sites[k]), F.Call(in_));
        }
      case Deliver(j, lt) =>
        DequeuedIsSound(w, j);
        DeliveryKeepsPromise(w, j, lt, k);
      case Repeat(j, n, lt) =>
        ArrivalLeaves(w, j, w.sites[j].history[n], lt, k);
      case Lose(j) =>
      case Other(m) =>
        if Step(w.ledger, w.here, m).Ok? {
          BoundStays(w.ledger, w.here, m, w.sites[k]);
        }
    }
  }

  /** Another receiver's report takes nothing from receiver `k`. */
  lemma ArrivalLeaves(w: Fleet, j: nat, p: F.Payment, lt: u64, k: nat)
    requires Sized(w.ledger) && Apart(w.sites) && j < |w.sites| && k < |w.sites| && j != k
             && BoundTo(w.ledger, w.sites[k])
    ensures var t := Arrive(w, j, p, lt);
      t.here == w.here && |t.sites| == |w.sites| && t.sites[k] == w.sites[k] && BoundTo(t.ledger, t.sites[k])
  {
    if Step(w.ledger, w.here, ReportOf(w.sites[j], p, lt)).Ok? {
      BoundStays(w.ledger, w.here, ReportOf(w.sites[j], p, lt), w.sites[k]);
    }
  }

  lemma DeliveryKeepsPromise(w: Fleet, j: nat, lt: u64, k: nat)
    requires Inv(w) && Promises(w, k) && j < |w.sites| && w.sites[j].queue != []
    ensures Promises(Apply(w, Deliver(j, lt)), k)
  {
    hide F.Inv;
    DequeuedIsSound(w, j);
    var d, p := Dequeued(w, j), w.sites[j].queue[0];
    if j == k {
      assert SiteSound(w.ledger, w.sites[k]);
      ArriveKeepsInv(d, k, p, lt);
      F.StepKeepsPromise(Project(w.ledger, w.sites[k]), F.DeliverNext);
      assert F.Apply(Project(w.ledger, w.sites[k]), F.DeliverNext) == F.Credited(Project(w.ledger, d.sites[k]), p);
      ReportCredits(w.ledger, w.here, d.sites[k], p, lt);
    } else {
      ArrivalLeaves(d, j, p, lt, k);
    }
  }

  lemma {:induction false} RunKeepsPromise(w: Fleet, actions: seq<Action>, k: nat)
    requires Inv(w) && Promises(w, k) && InOrder(actions, k)
    ensures Promises(Exec(w, actions), k)
    decreases |actions|
  {
    if actions == [] {
    } else {
      assert [actions[0]][0] == actions[0];
      StepKeepsInv(w, actions[0]);
      StepKeepsPromise(w, actions[0], k);
      RunKeepsPromise(Apply(w, actions[0]), actions[1..], k);
    }
  }

  /**
   * A receiver bound before it is first paid, whose reports come in order and are all delivered, agrees with its
   * record, even if it reports everything twice and whatever the ledger hears from others meanwhile.
   */
  lemma DrainedAgrees(w: Fleet, before: seq<Action>, actions: seq<Action>, k: nat)
    requires Init(w) && InOrder(actions, k)
    requires var f := Exec(w, before);
      k < |f.sites| && f.sites[k].history == [] && f.sites[k].receiver.audit == f.here && BoundTo(f.ledger, f.sites[k])
    ensures var t := Exec(Exec(w, before), actions);
      && k < |t.sites| && BoundTo(t.ledger, t.sites[k]) && |t.ledger.sources| == |t.ledger.records|
      && (t.sites[k].queue == [] ==>
            var r, s := t.ledger.records[t.sites[k].receiver.index], t.sites[k].receiver;
            r.total == s.total && r.count == s.count && r.lastNonce == s.lastNonce)
  {
    InitKeepsInv(w);
    RunKeepsInv(w, before);
    var f := Exec(w, before);
    assert SiteSound(f.ledger, f.sites[k]);
    assert f.sites[k].queue == [] by {
      if f.sites[k].queue != [] {
        assert f.sites[k].queue[0] in F.Elements(f.sites[k].history);
      }
    }
    assert f.sites[k].taken == [];
    RunKeepsPromise(f, actions, k);
    RunKeepsInv(f, actions);
    var t := Exec(f, actions);
    assert SiteSound(t.ledger, t.sites[k]);
  }
}
