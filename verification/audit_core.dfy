/** The audit ledger as a value: what one message means, and what a batch of them means. */
module AuditCore {
  import opened Bytes
  import opened Sdk
  import opened RevenueCore

  const E_AUDIT_ARGS := 3200
  const E_AUDIT_AUTH := 3201
  const E_AUDIT_REPLAY := 3202
  const E_AUDIT_OVERFLOW := 3203
  const MAX_BATCH := 256

  datatype Record = Record(lastNonce: u64, total: u128, count: u64)

  const EMPTY := Record(0, 0, 0)

  datatype Ledger = Ledger(owner: Id32, sources: seq<Address>, records: seq<Record>)

  predicate Sized(g: Ledger) {
    1 <= |g.sources| == |g.records| <= MAX_MEMBERS
  }

  predicate ValidRecord(r: Record) {
    if r.count == 0 then r == EMPTY else r.lastNonce != 0 && r.total != 0
  }

  /** Slot `i` is unbound, or bound to a proper address no earlier slot has. */
  predicate ValidSource(sources: seq<Address>, i: nat)
    requires i < |sources|
  {
    sources[i] == ZERO_ADDRESS || (NonzeroAddress(sources[i]) && sources[i] !in sources[..i])
  }

  predicate ValidLedger(g: Ledger) {
    && Sized(g)
    && g.owner != ZERO32
    && (forall i | 0 <= i < |g.sources| :: ValidSlot(g, i))
  }

  predicate ValidSlot(g: Ledger, i: nat)
    requires i < |g.sources| == |g.records|
  {
    ValidSource(g.sources, i) && ValidRecord(g.records[i])
  }

  /** The sources that are bound, in slot order. */
  function Bound(sources: seq<Address>): seq<Address> {
    if sources == [] then [] else
      var n := |sources| - 1;
      if sources[n] == ZERO_ADDRESS then Bound(sources[..n]) else Bound(sources[..n]) + [sources[n]]
  }

  lemma {:induction false} BoundMember(sources: seq<Address>, a: Address)
    ensures a in Bound(sources) <==> a != ZERO_ADDRESS && a in sources
  {
    if sources != [] {
      var n := |sources| - 1;
      BoundMember(sources[..n], a);
      assert sources == sources[..n] + [sources[n]];
    }
  }

  /** The first `n` slots are valid. */
  predicate SlotsUpTo(g: Ledger, n: nat)
    requires n <= |g.sources| == |g.records|
  {
    n == 0 || (SlotsUpTo(g, n - 1) && ValidSlot(g, n - 1))
  }

  lemma {:induction false} SlotsUpToAll(g: Ledger, n: nat)
    requires n <= |g.sources| == |g.records|
    ensures SlotsUpTo(g, n) <==> forall k | 0 <= k < n :: ValidSlot(g, k)
  {
    if n > 0 {
      SlotsUpToAll(g, n - 1);
    }
  }

  /** The validation loop's test on one slot, given the bound sources before it. */
  predicate SlotPasses(seen: seq<Address>, source: Address, r: Record) {
    && (source != ZERO_ADDRESS ==> NonzeroAddress(source) && source !in seen)
    && (r.count == 0 ==> r == EMPTY)
    && (r.count != 0 ==> r.lastNonce != 0 && r.total != 0)
  }

  lemma SlotPassesIffValid(g: Ledger, i: nat)
    requires i < |g.sources| == |g.records|
    ensures SlotPasses(Bound(g.sources[..i]), g.sources[i], g.records[i]) <==> ValidSlot(g, i)
  {
    BoundMember(g.sources[..i], g.sources[i]);
  }

  /** An accepted report: whose, under which nonce, how much, and the record it leaves. */
  datatype Entry = Entry(member: nat, nonce: u64, amount: u128, record: Record)

  datatype AuditEvent = AuditEvent(member: nat, nonce: u64, amount: u128, receipts: u64, total: u128)

  function EventOf(e: Entry): AuditEvent {
    AuditEvent(e.member, e.nonce, e.amount, e.record.count, e.record.total)
  }

  /** A record takes a payment only under a higher nonce than its last, and only if the sums fit. */
  function Credit(r: Record, nonce: u64, amount: u128): Result<Record> {
    if nonce <= r.lastNonce then Err(E_AUDIT_REPLAY)
    else if r.total + amount >= U128_END || r.count + 1 >= U64_END then Err(E_AUDIT_OVERFLOW)
    else Ok(Record(nonce, r.total + amount, r.count + 1))
  }

  /** `accepted`: the shared acceptance rule of both paths. */
  function Accepted(sources: seq<Address>, records: seq<Record>, m: Message): (r: Result<Entry>)
    requires |sources| == |records|
    ensures r.Ok? ==> r.value.member < |records|
  {
    if m.External? then Err(E_AUDIT_AUTH)
    else if m.methodId != AUDIT_RECORD || m.callback.Some? || m.deploy || m.callbackRequest || m.eventReads
            || m.extra != []
    then Err(E_AUDIT_ARGS)
    else
      var (index, nonce, amount) :- ReadPayment(m.body);
      if index >= |sources| || m.source != sources[index] then Err(E_AUDIT_AUTH)
      else
        var r :- Credit(records[index], nonce, amount);
        Ok(Entry(index, nonce, amount, r))
  }

  function Bind(g: Ledger, here: Address, body: seq<byte>, extra: seq<Currency>): Result<Ledger>
    requires Sized(g)
  {
    if |body| != 65 || body[0] >= |g.sources| || extra != [] then Err(E_AUDIT_ARGS) else
      var source := AddressAt(body[1..]);
      if !NonzeroAddress(source) || source.dapp != here.dapp || source == here || g.sources[body[0]] != ZERO_ADDRESS
         || source in g.sources
      then Err(E_AUDIT_ARGS)
      else Ok(Rebound(g, body[0], source))
  }

  function Rebound(g: Ledger, i: nat, a: Address): Ledger
    requires i < |g.sources|
  {
    g.(sources := g.sources[i := a])
  }

  /** What one isolated message does to the ledger. */
  function Step(g: Ledger, here: Address, m: Message): Result<(Ledger, Option<AuditEvent>)>
    requires Sized(g)
  {
    if m.methodId == AUDIT_STATUS then
      if m.Internal? then Err(E_AUDIT_AUTH)
      else if m.body != [] then Err(E_ARGS)
      else if m.extra != [] then Err(E_AUDIT_ARGS)
      else Ok((g, None))
    else if m.methodId == AUDIT_BIND then
      if m.Internal? || m.actor != g.owner then Err(E_AUDIT_AUTH) else
        var t :- Bind(g, here, m.body, m.extra);
        Ok((t, None))
    else if m.External? then Err(E_AUDIT_AUTH)
    else
      var e :- Accepted(g.sources, g.records, m);
      Ok((g.(records := g.records[e.member := e.record]), Some(EventOf(e))))
  }

  /** No message takes the ledger out of its valid states. */
  lemma StepKeepsValid(g: Ledger, here: Address, m: Message)
    requires ValidLedger(g) && Step(g, here, m).Ok?
    ensures ValidLedger(Step(g, here, m).value.0)
  {
    var t := Step(g, here, m).value.0;
    if m.methodId == AUDIT_BIND {
      var k := m.body[0];
      forall i | 0 <= i < |t.sources| ensures ValidSlot(t, i) {
        assert ValidSlot(g, i);
        if i != k && g.sources[i] != ZERO_ADDRESS {
          assert g.sources[i] in g.sources;
        }
      }
    } else if m.Internal? {
      var e := Accepted(g.sources, g.records, m).value;
      PaymentRoundTrip(m.body, e.member, e.nonce, e.amount);
      forall i | 0 <= i < |t.sources| ensures ValidSlot(t, i) {
        assert ValidSlot(g, i);
      }
    }
  }

  /** One at a time: the ledger after a list of messages, which of them succeeded, and their events by position. */
  datatype Run = Run(ledger: Ledger, ok: seq<bool>, events: seq<(nat, AuditEvent)>)

  function RunOf(g: Ledger, here: Address, msgs: seq<Message>): (r: Run)
    requires Sized(g)
    ensures Sized(r.ledger) && |r.ok| == |msgs|
  {
    if msgs == [] then Run(g, [], []) else
      var n := |msgs| - 1;
      var r := RunOf(g, here, msgs[..n]);
      match Step(r.ledger, here, msgs[n])
      case Err(_) => r.(ok := r.ok + [false])
      case Ok((t, e)) =>
        StepKeepsSize(r.ledger, here, msgs[n]);
        Run(t, r.ok + [true], if e.Some? then r.events + [(n, e.value)] else r.events)
  }

  lemma StepKeepsSize(g: Ledger, here: Address, m: Message)
    requires Sized(g) && Step(g, here, m).Ok?
    ensures Sized(Step(g, here, m).value.0)
  {
  }

  /** All at once: staged records, which of them changed, a status for each message, events by position. */
  datatype Tally = Tally(records: seq<Record>, touched: seq<bool>, statuses: seq<int>, events: seq<(nat, AuditEvent)>)

  /** The batch loop's verdict on one message against the staged records. */
  function Verdict(sources: seq<Address>, records: seq<Record>, here: Address, m: Message): (r: Result<Entry>)
    requires |sources| == |records|
    ensures r.Ok? ==> r.value.member < |records|
  {
    if m.Internal? && m.destination == here then Accepted(sources, records, m) else Err(E_AUDIT_AUTH)
  }

  function Untouched(n: nat): (t: seq<bool>)
    ensures |t| == n && forall i | 0 <= i < n :: !t[i]
  {
    seq(n, _ => false)
  }

  function Counted(t: Tally, n: nat, v: Result<Entry>): Tally
    requires v.Ok? ==> v.value.member < |t.records| == |t.touched|
  {
    match v
    case Err(code) => t.(statuses := t.statuses + [code])
    case Ok(e) => Tally(t.records[e.member := e.record], t.touched[e.member := true], t.statuses + [0],
                        t.events + [(n, EventOf(e))])
  }

  function TallyOf(g: Ledger, here: Address, msgs: seq<Message>): (t: Tally)
    requires Sized(g)
    ensures |t.records| == |t.touched| == |g.records| && |t.statuses| == |msgs|
  {
    if msgs == [] then Tally(g.records, Untouched(|g.records|), [], []) else
      var n := |msgs| - 1;
      var t := TallyOf(g, here, msgs[..n]);
      Counted(t, n, Verdict(g.sources, t.records, here, msgs[n]))
  }

  predicate InternalTo(here: Address, msgs: seq<Message>) {
    forall i | 0 <= i < |msgs| :: msgs[i].Internal? && msgs[i].destination == here
  }

  lemma VerdictNonzero(sources: seq<Address>, records: seq<Record>, here: Address, m: Message)
    requires |sources| == |records| && Verdict(sources, records, here, m).Err?
    ensures Verdict(sources, records, here, m).code != 0
  {
  }

  /**
   * A batch of internal messages is the same as sending them one at a time: the same ones succeed, each with
   * the same event under its position, and the records end up the same. An untouched record never moved.
   */
  lemma {:induction false} BatchIsOneByOne(g: Ledger, here: Address, msgs: seq<Message>)
    requires Sized(g) && InternalTo(here, msgs)
    ensures var t, r := TallyOf(g, here, msgs), RunOf(g, here, msgs);
      && r.ledger == g.(records := t.records)
      && r.events == t.events
      && (forall i | 0 <= i < |msgs| :: r.ok[i] <==> t.statuses[i] == 0)
      && (forall i | 0 <= i < |g.records| && !t.touched[i] :: t.records[i] == g.records[i])
  {
    if msgs != [] {
      var n := |msgs| - 1;
      BatchIsOneByOne(g, here, msgs[..n]);
      var t, r := TallyOf(g, here, msgs[..n]), RunOf(g, here, msgs[..n]);
      var v := Verdict(g.sources, t.records, here, msgs[n]);
      if v.Err? {
        VerdictNonzero(g.sources, t.records, here, msgs[n]);
      }
      assert Step(r.ledger, here, msgs[n]).Ok? <==> v.Ok?;
    }
  }

  /** Whatever the batch holds, a record that was not touched is the one the batch began with. */
  lemma {:induction false} UntouchedStays(g: Ledger, here: Address, msgs: seq<Message>)
    requires Sized(g)
    ensures var t := TallyOf(g, here, msgs);
      forall i | 0 <= i < |g.records| && !t.touched[i] :: t.records[i] == g.records[i]
  {
    if msgs != [] {
      UntouchedStays(g, here, msgs[..|msgs| - 1]);
    }
  }

  lemma {:induction false} RunKeepsValid(g: Ledger, here: Address, msgs: seq<Message>)
    requires ValidLedger(g)
    ensures ValidLedger(RunOf(g, here, msgs).ledger)
  {
    if msgs != [] {
      var n := |msgs| - 1;
      RunKeepsValid(g, here, msgs[..n]);
      var r := RunOf(g, here, msgs[..n]);
      if Step(r.ledger, here, msgs[n]).Ok? {
        StepKeepsValid(r.ledger, here, msgs[n]);
      }
    }
  }
}
