/**
 * A receiver and its record in the audit ledger, with reports in between that may be repeated, overtaken or lost.
 * The ledger never shows more than the receiver got; delivered in order and drained, it shows exactly that,
 * even when every report is sent twice.
 */
module AuditFlow {
  import opened Bytes
  import opened Sdk
  import opened RevenueCore
  import opened AuditCore
  import R = RevenueReceiver

  datatype Payment = Payment(nonce: u64, amount: u128)

  function Total(ps: seq<Payment>): nat {
    if ps == [] then 0 else Total(ps[..|ps| - 1]) + ps[|ps| - 1].amount
  }

  function LastNonce(ps: seq<Payment>): u64 {
    if ps == [] then 0 else ps[|ps| - 1].nonce
  }

  /** Positive nonces, each above the one before. */
  predicate Increasing(ps: seq<Payment>) {
    ps == [] || (Increasing(ps[..|ps| - 1]) && LastNonce(ps[..|ps| - 1]) < LastNonce(ps))
  }

  function Elements(ps: seq<Payment>): set<Payment> {
    if ps == [] then {} else Elements(ps[..|ps| - 1]) + {ps[|ps| - 1]}
  }

  lemma {:induction false} NoncesBelowLast(ps: seq<Payment>)
    requires Increasing(ps)
    ensures forall p | p in Elements(ps) :: 0 < p.nonce <= LastNonce(ps)
  {
    if ps != [] {
      NoncesBelowLast(ps[..|ps| - 1]);
    }
  }

  lemma Snoc(ps: seq<Payment>, p: Payment)
    requires Increasing(ps) && LastNonce(ps) < p.nonce
    ensures Increasing(ps + [p]) && Total(ps + [p]) == Total(ps) + p.amount && LastNonce(ps + [p]) == p.nonce
    ensures Elements(ps + [p]) == Elements(ps) + {p}
  {
    assert (ps + [p])[..|ps|] == ps;
  }

  /** A list after being offered one more payment: it takes only what comes under a higher nonce. */
  function Offer(ps: seq<Payment>, p: Payment): seq<Payment> {
    if LastNonce(ps) < p.nonce then ps + [p] else ps
  }

  function OfferAll(ps: seq<Payment>, queue: seq<Payment>): seq<Payment>
    decreases |queue|
  {
    if queue == [] then ps else OfferAll(Offer(ps, queue[0]), queue[1..])
  }

  datatype Flow = Flow(receiver: R.Receiver, record: Record, history: seq<Payment>, taken: seq<Payment>,
                       queue: seq<Payment>)

  datatype Action =
    | Call(in_: Input)
    | DeliverNext
    | Redeliver(k: nat)
    | Lose

  /** The payment in a report's body. */
  function Reported(out: Outbound): seq<Payment> {
    match ReadPayment(out.body)
    case Ok((_, nonce, amount)) => [Payment(nonce, amount)]
    case Err(_) => []
  }

  function ReportedAll(outs: seq<Outbound>): seq<Payment> {
    if outs == [] then [] else Reported(outs[0]) + ReportedAll(outs[1..])
  }

  function Credited(f: Flow, p: Payment): Flow {
    match Credit(f.record, p.nonce, p.amount)
    case Err(_) => f
    case Ok(r) => f.(record := r, taken := f.taken + [p])
  }

  /** One step; `history` notes each payment the receiver takes, `taken` each report the ledger takes. */
  function Apply(f: Flow, a: Action): Flow {
    match a
    case Call(in_) =>
      (match R.Process(f.receiver, in_)
       case Err(_) => f
       case Ok(o) =>
         var reports := ReportedAll(o.reports);
         f.(receiver := o.state, history := f.history + (if reports == [] then [] else [reports[0]]),
            queue := f.queue + reports))
    case DeliverNext => if f.queue == [] then f else Credited(f.(queue := f.queue[1..]), f.queue[0])
    case Redeliver(k) => if k < |f.history| then Credited(f, f.history[k]) else f
    case Lose => if f.queue == [] then f else f.(queue := f.queue[1..])
  }

  function Exec(f: Flow, actions: seq<Action>): Flow
    decreases |actions|
  {
    if actions == [] then f else Exec(Apply(f, actions[0]), actions[1..])
  }

  ghost predicate Init(f: Flow) {
    f.receiver.lastNonce == f.receiver.total == f.receiver.count == 0
    && f.record == EMPTY && f.history == [] && f.taken == [] && f.queue == []
  }

  /** The three running figures stand for this list of payments. */
  ghost predicate Stands(lastNonce: u64, total: u128, count: u64, ps: seq<Payment>) {
    lastNonce == LastNonce(ps) && total == Total(ps) && count == |ps| && Increasing(ps)
  }

  ghost predicate Inv(f: Flow) {
    && Stands(f.receiver.lastNonce, f.receiver.total, f.receiver.count, f.history)
    && Stands(f.record.lastNonce, f.record.total, f.record.count, f.taken)
    && Elements(f.taken) <= Elements(f.history)
    && (forall p | p in f.queue :: p in Elements(f.history))
  }

  /** Increasing lists: one drawn from another has no more entries and no larger total. */
  lemma {:induction false} DrawnFrom(ps: seq<Payment>, all: seq<Payment>)
    requires Increasing(ps) && Increasing(all) && Elements(ps) <= Elements(all)
    ensures Total(ps) <= Total(all) && |ps| <= |all|
    decreases |all|
  {
    if ps != [] {
      assert ps[|ps| - 1] in Elements(all);
      var rest, front := all[..|all| - 1], ps[..|ps| - 1];
      NoncesBelowLast(rest);
      NoncesBelowLast(front);
      NoncesBelowLast(ps);
      if ps[|ps| - 1] == all[|all| - 1] {
        DrawnFrom(front, rest);
      } else {
        DrawnFrom(ps, rest);
      }
    }
  }

  /** The ledger's rule on its record is the list's rule, and an overflow can never be the reason to refuse. */
  lemma CreditIsOffer(f: Flow, p: Payment)
    requires Inv(f) && p in Elements(f.history)
    ensures Credit(f.record, p.nonce, p.amount).Err? ==> Credit(f.record, p.nonce, p.amount).code == E_AUDIT_REPLAY
    ensures Credited(f, p).taken == Offer(f.taken, p)
    ensures Inv(Credited(f, p))
  {
    if LastNonce(f.taken) < p.nonce {
      Snoc(f.taken, p);
      DrawnFrom(f.taken + [p], f.history);
    }
  }

  /** What a receiver reports of a payment: the payment itself, once or twice. */
  lemma ReportsOf(r: R.Receiver, in_: Input)
    requires R.Process(r, in_).Ok?
    ensures var o := R.Process(r, in_).value;
      if in_.message.External? then o.reports == [] && ReportedAll(o.reports) == []
      else
        ReadPayment(in_.message.body).Ok? &&
        var (index, nonce, amount) := ReadPayment(in_.message.body).value;
        && nonce > r.lastNonce && nonce == o.state.lastNonce
        && amount != 0 && o.state.total == r.total + amount && o.state.count == r.count + 1
        && ReportedAll(o.reports) == (if r.duplicate then [Payment(nonce, amount), Payment(nonce, amount)]
                                      else [Payment(nonce, amount)])
  {
    if in_.message.Internal? {
      var body := in_.message.body;
      var one := R.Report(r, body);
      PaymentRoundTrip(body, ReadPayment(body).value.0, ReadPayment(body).value.1, ReadPayment(body).value.2);
      assert [one, one][1..] == [one] && [one][1..] == [];
      assert ReportedAll([one]) == Reported(one) + ReportedAll([]);
      assert ReportedAll([one, one]) == Reported(one) + ReportedAll([one]);
    }
  }

  lemma CallKeepsInv(f: Flow, in_: Input)
    requires Inv(f)
    ensures Inv(Apply(f, Call(in_)))
  {
    if R.Process(f.receiver, in_).Ok? {
      ReportsOf(f.receiver, in_);
      R.OnlyPaymentsMoveValue(f.receiver, in_);
      if in_.message.Internal? {
        var (_, nonce, amount) := ReadPayment(in_.message.body).value;
        var p := Payment(nonce, amount);
        Snoc(f.history, p);
        var t := Apply(f, Call(in_));
        assert t.history == f.history + [p];
        assert t.queue == f.queue + [p] || t.queue == f.queue + [p, p];
      } else {
        var t := Apply(f, Call(in_));
        assert t.history == f.history && t.queue == f.queue;
      }
    }
  }

  lemma {:induction false} ElementAt(ps: seq<Payment>, k: nat)
    requires k < |ps|
    ensures ps[k] in Elements(ps)
  {
    if k < |ps| - 1 {
      ElementAt(ps[..|ps| - 1], k);
    }
  }

  lemma StepKeepsInv(f: Flow, a: Action)
    requires Inv(f)
    ensures Inv(Apply(f, a))
  {
    match a
    case Call(in_) => CallKeepsInv(f, in_);
    case DeliverNext =>
      if f.queue != [] {
        CreditIsOffer(f.(queue := f.queue[1..]), f.queue[0]);
      }
    case Redeliver(k) =>
      if k < |f.history| {
        ElementAt(f.history, k);
        CreditIsOffer(f, f.history[k]);
      }
    case Lose =>
  }

  lemma {:induction false} RunKeepsInv(f: Flow, actions: seq<Action>)
    requires Inv(f)
    ensures Inv(Exec(f, actions))
    decreases |actions|
  {
    if actions != [] {
      StepKeepsInv(f, actions[0]);
      RunKeepsInv(Apply(f, actions[0]), actions[1..]);
    }
  }

  /**
   * However reports are repeated and reordered, the record is the sum over the strictly increasing nonces it
   * took, each of them a payment the receiver really got, and it never shows more than the receiver holds.
   */
  lemma NeverOverstates(f: Flow, actions: seq<Action>)
    requires Init(f)
    ensures var t := Exec(f, actions);
      && t.record.total == Total(t.taken) && t.record.count == |t.taken| && Increasing(t.taken)
      && Elements(t.taken) <= Elements(t.history)
      && t.receiver.total == Total(t.history)
      && t.record.total <= t.receiver.total && t.record.count <= t.receiver.count
  {
    RunKeepsInv(f, actions);
    var t := Exec(f, actions);
    DrawnFrom(t.taken, t.history);
  }

  predicate InOrder(actions: seq<Action>) {
    forall i | 0 <= i < |actions| :: !actions[i].Redeliver? && !actions[i].Lose?
  }

  lemma {:induction false} OfferAllSnoc(ps: seq<Payment>, queue: seq<Payment>, p: Payment)
    ensures OfferAll(ps, queue + [p]) == Offer(OfferAll(ps, queue), p)
    decreases |queue|
  {
    if queue == [] {
      assert (queue + [p])[1..] == [];
    } else {
      assert (queue + [p])[1..] == queue[1..] + [p];
      OfferAllSnoc(Offer(ps, queue[0]), queue[1..], p);
    }
  }

  /** Queueing a fresh payment once or twice promises exactly one more payment. */
  lemma QueueKeepsPromise(taken: seq<Payment>, queue: seq<Payment>, history: seq<Payment>, p: Payment)
    requires OfferAll(taken, queue) == history && LastNonce(history) < p.nonce
    ensures OfferAll(taken, queue + [p]) == OfferAll(taken, queue + [p, p]) == history + [p]
  {
    OfferAllSnoc(taken, queue, p);
    OfferAllSnoc(taken, queue + [p], p);
    assert queue + [p] + [p] == queue + [p, p];
  }

  lemma CallKeepsPromise(f: Flow, in_: Input)
    requires Inv(f) && OfferAll(f.taken, f.queue) == f.history
    ensures OfferAll(Apply(f, Call(in_)).taken, Apply(f, Call(in_)).queue) == Apply(f, Call(in_)).history
  {
    if R.Process(f.receiver, in_).Ok? {
      ReportsOf(f.receiver, in_);
      if in_.message.Internal? {
        var (_, nonce, amount) := ReadPayment(in_.message.body).value;
        QueueKeepsPromise(f.taken, f.queue, f.history, Payment(nonce, amount));
      } else {
        assert Apply(f, Call(in_)).history == f.history && Apply(f, Call(in_)).queue == f.queue;
      }
    }
  }

  /** In order, what the ledger has plus what the queue will still add is always the whole history. */
  lemma StepKeepsPromise(f: Flow, a: Action)
    requires Inv(f) && OfferAll(f.taken, f.queue) == f.history && !a.Redeliver? && !a.Lose?
    ensures OfferAll(Apply(f, a).taken, Apply(f, a).queue) == Apply(f, a).history
  {
    match a
    case Call(in_) => CallKeepsPromise(f, in_);
    case DeliverNext =>
      if f.queue != [] {
        CreditIsOffer(f.(queue := f.queue[1..]), f.queue[0]);
      }
  }

  lemma {:induction false} RunKeepsPromise(f: Flow, actions: seq<Action>)
    requires Inv(f) && OfferAll(f.taken, f.queue) == f.history && InOrder(actions)
    ensures OfferAll(Exec(f, actions).taken, Exec(f, actions).queue) == Exec(f, actions).history
    decreases |actions|
  {
    if actions != [] {
      StepKeepsInv(f, actions[0]);
      StepKeepsPromise(f, actions[0]);
      RunKeepsPromise(Apply(f, actions[0]), actions[1..]);
    }
  }

  /** Delivered in order and drained, ledger and receiver agree, whether reports went out once or twice. */
  lemma DrainedAgrees(f: Flow, actions: seq<Action>)
    requires Init(f) && InOrder(actions) && Exec(f, actions).queue == []
    ensures var t := Exec(f, actions);
      && t.record.total == t.receiver.total && t.record.count == t.receiver.count
      && t.record.lastNonce == t.receiver.lastNonce
  {
    RunKeepsInv(f, actions);
    RunKeepsPromise(f, actions);
  }

  /** The message a queued report arrives as at the ledger. */
  function ReportMessage(source: Address, out: Outbound, ledger: Address, lt: u64): Message {
    Internal(source, out.methodId, out.body, [], ledger, lt, None, false, out.callbackMethod.Some?, false)
  }

  /** At a ledger that has the receiver bound, a report is credited to that member's record and to no other. */
  lemma ReportReachesRecord(g: Ledger, ledger: Address, r: R.Receiver, at: Address, in_: Input, lt: u64)
    requires Sized(g) && R.Process(r, in_).Ok? && in_.message.Internal?
    requires r.index < |g.sources| && g.sources[r.index] == at
    ensures var o := R.Process(r, in_).value;
      var (_, nonce, amount) := ReadPayment(in_.message.body).value;
      var s := Step(g, ledger, ReportMessage(at, R.Report(r, in_.message.body), ledger, lt));
      match Credit(g.records[r.index], nonce, amount)
      case Err(code) => s == Err(code)
      case Ok(record) => s.Ok? && s.value.0 == g.(records := g.records[r.index := record])
  {
  }
}
