/**
 * Which messages the audit ledger accepts and what each one does to it, said condition by condition and without the
 * functions that compute it; who alone can bind a source or add to a record; and the same over whole runs of a fleet.
 */
module AuditAuthority {
  import opened Bytes
  import opened Sdk
  import opened RevenueCore
  import opened AuditCore

  predicate MayAskStatus(m: Message) {
    m.External? && m.methodId == AUDIT_STATUS && m.body == [] && m.extra == []
  }

  /** The owner binds the unbound slot `i` to a proper address of its own dapp that no slot has. */
  predicate MayBind(g: Ledger, here: Address, m: Message, i: nat, a: Address) {
    && m.External? && m.methodId == AUDIT_BIND && m.extra == []
    && m.actor == g.owner
    && i < 256 && m.body == [i] + a.dapp + a.account
    && i < |g.sources| && g.sources[i] == ZERO_ADDRESS
    && a.dapp != ZERO32 && a.account != ZERO32 && a.dapp == here.dapp && a != here
    && (forall k | 0 <= k < |g.sources| :: g.sources[k] != a)
  }

  /** The source bound to slot `i` reports a payment under a higher nonce, in a plain message, and the sums fit. */
  predicate MayRecord(g: Ledger, m: Message, i: nat, nonce: u64, amount: u128) {
    && m.Internal? && m.methodId == AUDIT_RECORD && m.extra == []
    && m.callback.None? && !m.deploy && !m.callbackRequest && !m.eventReads
    && i < |g.sources| && |g.sources| == |g.records| && m.source == g.sources[i]
    && i < 256 && m.body == [i] + Le64(nonce) + Le128(amount)
    && amount > 0 && g.records[i].lastNonce < nonce
    && g.records[i].total + amount < U128_END && g.records[i].count < U64_END - 1
  }

  ghost predicate Granted(g: Ledger, here: Address, m: Message) {
    || MayAskStatus(m)
    || (exists i: nat, a :: MayBind(g, here, m, i, a))
    || (exists i: nat, nonce, amount :: MayRecord(g, m, i, nonce, amount))
  }

  lemma StatusExact(g: Ledger, here: Address, m: Message)
    requires Sized(g) && m.methodId == AUDIT_STATUS
    ensures Step(g, here, m).Ok? <==> MayAskStatus(m)
    ensures MayAskStatus(m) ==> Step(g, here, m) == Ok((g, None))
  {
  }

  /** The 65 bytes of a bind name a slot and an address, and nothing else names the same. */
  lemma BindBody(body: seq<byte>, i: nat, a: Address)
    ensures i < 256 && body == [i] + a.dapp + a.account <==> |body| == 65 && body[0] == i && AddressAt(body[1..]) == a
  {
    if i < 256 && body == [i] + a.dapp + a.account {
      assert body[1..] == AddressBytes(a);
      AddressInverse(a);
    }
    if |body| == 65 && AddressAt(body[1..]) == a {
      assert body == [body[0]] + body[1..];
      assert body[1..] == a.dapp + a.account;
      assert body == [body[0]] + a.dapp + a.account;
    }
  }

  /** A source is bound exactly by the owner, in an empty slot, to an address that fits; only that slot changes. */
  lemma BindExact(g: Ledger, here: Address, m: Message)
    requires Sized(g) && m.methodId == AUDIT_BIND
    ensures Step(g, here, m).Ok? <==> exists i: nat, a :: MayBind(g, here, m, i, a)
    ensures forall i: nat, a | MayBind(g, here, m, i, a) ::
      Step(g, here, m) == Ok((g.(sources := g.sources[i := a]), None))
  {
    if Step(g, here, m).Ok? {
      var i: nat, a := m.body[0], AddressAt(m.body[1..]);
      BindBody(m.body, i, a);
      assert MayBind(g, here, m, i, a);
    }
    forall i: nat, a | MayBind(g, here, m, i, a)
      ensures Step(g, here, m) == Ok((g.(sources := g.sources[i := a]), None))
    {
      BindBody(m.body, i, a);
    }
  }

  /** A report is credited exactly when it comes from the slot's own source, plainly, under a higher nonce. */
  lemma RecordExact(g: Ledger, here: Address, m: Message)
    requires Sized(g) && m.methodId != AUDIT_STATUS && m.methodId != AUDIT_BIND
    ensures Step(g, here, m).Ok? <==> exists i: nat, nonce, amount :: MayRecord(g, m, i, nonce, amount)
    ensures forall i: nat, nonce, amount | MayRecord(g, m, i, nonce, amount) ::
      var r := Record(nonce, g.records[i].total + amount, g.records[i].count + 1);
      Step(g, here, m) == Ok((g.(records := g.records[i := r]),
                              Some(AuditEvent(i, nonce, amount, r.count, r.total))))
  {
    if Step(g, here, m).Ok? {
      var e := Accepted(g.sources, g.records, m).value;
      PaymentRoundTrip(m.body, e.member, e.nonce, e.amount);
      assert MayRecord(g, m, e.member, e.nonce, e.amount);
    }
    forall i: nat, nonce, amount | MayRecord(g, m, i, nonce, amount)
      ensures var r := Record(nonce, g.records[i].total + amount, g.records[i].count + 1);
        Step(g, here, m) == Ok((g.(records := g.records[i := r]), Some(AuditEvent(i, nonce, amount, r.count, r.total))))
    {
      assert m.body == PaymentBody(i, nonce, amount);
      PaymentRoundTrip(m.body, i, nonce, amount);
    }
  }

  /** The messages the ledger accepts are exactly these. */
  lemma AcceptedExactly(g: Ledger, here: Address, m: Message)
    requires Sized(g)
    ensures Step(g, here, m).Ok? <==> Granted(g, here, m)
  {
    hide Step;
    if m.methodId == AUDIT_STATUS {
      StatusExact(g, here, m);
    } else if m.methodId == AUDIT_BIND {
      BindExact(g, here, m);
    } else {
      RecordExact(g, here, m);
    }
  }

  /** Slot `i`: bound only by the owner and only once; added to only by the report of the source bound there. */
  ghost predicate SlotChange(g: Ledger, here: Address, m: Message, t: Ledger, i: nat)
    requires i < |g.sources| == |g.records| == |t.sources| == |t.records|
  {
    && (t.sources[i] != g.sources[i] ==> g.sources[i] == ZERO_ADDRESS && MayBind(g, here, m, i, t.sources[i]))
    && (t.records[i] != g.records[i] ==>
          && m.Internal? && m.source == g.sources[i]
          && t.records[i].total > g.records[i].total
          && MayRecord(g, m, i, t.records[i].lastNonce, t.records[i].total - g.records[i].total))
  }

  ghost predicate Authorised(g: Ledger, here: Address, m: Message, t: Ledger) {
    && t.owner == g.owner
    && |g.sources| == |g.records| == |t.sources| == |t.records|
    && (forall i | 0 <= i < |g.sources| :: SlotChange(g, here, m, t, i))
    && (t.sources != g.sources ==>
          && t.records == g.records && m.External? && m.actor == g.owner
          && exists i: nat, a :: MayBind(g, here, m, i, a) && t.sources == g.sources[i := a])
  }

  /** No accepted message changes more than its sender may change. */
  lemma ChangesAreAuthorised(g: Ledger, here: Address, m: Message)
    requires Sized(g) && Step(g, here, m).Ok?
    ensures Authorised(g, here, m, Step(g, here, m).value.0)
  {
    hide Step;
    if m.methodId == AUDIT_STATUS {
      StatusExact(g, here, m);
    } else if m.methodId == AUDIT_BIND {
      BindExact(g, here, m);
    } else {
      RecordExact(g, here, m);
    }
  }

  /** Why a message is refused: the code of the first thing wrong. */
  ghost predicate Refused(g: Ledger, here: Address, m: Message, code: int) {
    if m.methodId == AUDIT_STATUS then
      code == (if m.Internal? then E_AUDIT_AUTH else if m.body != [] then E_ARGS else E_AUDIT_ARGS)
    else if m.methodId == AUDIT_BIND then
      code == (if m.Internal? || m.actor != g.owner then E_AUDIT_AUTH else E_AUDIT_ARGS)
    else RecordRefusal(g, m, code)
  }

  /** A report is weighed in this order: its shape, its body, its source, its nonce, its size. */
  predicate RecordRefusal(g: Ledger, m: Message, code: int) {
    if m.External? then code == E_AUDIT_AUTH
    else if m.methodId != AUDIT_RECORD || m.extra != [] || m.callback.Some? || m.deploy || m.callbackRequest
            || m.eventReads
    then code == E_AUDIT_ARGS
    else if |m.body| != 25 || m.body[0] >= MAX_MEMBERS || m.body[1..9] == Le64(0) || m.body[9..25] == Le128(0)
    then code == E_ARGS
    else if m.body[0] >= |g.sources| || m.body[0] >= |g.records| || m.source != g.sources[m.body[0]]
    then code == E_AUDIT_AUTH
    else code == (if Nat64(m.body[1..9]) <= g.records[m.body[0]].lastNonce then E_AUDIT_REPLAY else E_AUDIT_OVERFLOW)
  }

  lemma RefusalsAreExact(g: Ledger, here: Address, m: Message)
    requires Sized(g) && Step(g, here, m).Err?
    ensures Refused(g, here, m, Step(g, here, m).code)
  {
    hide Le, Nat;
    if m.methodId != AUDIT_STATUS && m.methodId != AUDIT_BIND && m.Internal? {
      PaymentVerdict(m.body);
    }
  }

  lemma PaymentVerdict(body: seq<byte>)
    ensures ReadPayment(body).Err? <==>
            |body| != 25 || body[0] >= MAX_MEMBERS || body[1..9] == Le64(0) || body[9..25] == Le128(0)
    ensures ReadPayment(body).Err? ==> ReadPayment(body) == Err(E_ARGS)
    ensures ReadPayment(body).Ok? ==> ReadPayment(body).value == (body[0], Nat64(body[1..9]), Nat128(body[9..25]))
  {
    Le64Inverse(0);
    Le128Inverse(0);
  }

  /** The status of a message in a batch: zero, or the code of the first thing wrong with it. */
  ghost predicate StatusFits(g: Ledger, here: Address, m: Message, status: int) {
    if !(m.Internal? && m.destination == here) then status == E_AUDIT_AUTH
    else if status == 0 then exists i: nat, nonce, amount :: MayRecord(g, m, i, nonce, amount)
    else
      && (forall i: nat, nonce, amount :: !MayRecord(g, m, i, nonce, amount))
      && RecordRefusal(g, m, status)
  }

  /**
   * In any batch, whatever messages it holds: a message counts exactly when it is an internal one to this ledger
   * whose report the ledger, as the messages before it left it, would credit; every other one gets its code.
   */
  lemma {:induction false} BatchStatusExact(g: Ledger, here: Address, msgs: seq<Message>, k: nat)
    requires Sized(g) && k < |msgs|
    ensures StatusFits(g.(records := TallyOf(g, here, msgs[..k]).records), here, msgs[k],
                       TallyOf(g, here, msgs).statuses[k])
    decreases |msgs|
  {
    hide StatusFits, Verdict;
    var n := |msgs| - 1;
    if k < n {
      BatchStatusExact(g, here, msgs[..n], k);
      assert msgs[..n][..k] == msgs[..k] && msgs[..n][k] == msgs[k];
      TallyKeepsStatuses(g, here, msgs, k);
    } else {
      var t := TallyOf(g, here, msgs[..n]);
      VerdictExact(g.(records := t.records), here, msgs[n]);
      LastStatus(g, here, msgs);
    }
  }

  lemma TallyKeepsStatuses(g: Ledger, here: Address, msgs: seq<Message>, k: nat)
    requires Sized(g) && k < |msgs| - 1
    ensures TallyOf(g, here, msgs).statuses[k] == TallyOf(g, here, msgs[..|msgs| - 1]).statuses[k]
  {
  }

  function StatusOf(v: Result<Entry>): int {
    match v
    case Ok(_) => 0
    case Err(code) => code
  }

  lemma LastStatus(g: Ledger, here: Address, msgs: seq<Message>)
    requires Sized(g) && msgs != []
    ensures var n := |msgs| - 1;
      TallyOf(g, here, msgs).statuses[n]
      == StatusOf(Verdict(g.sources, TallyOf(g, here, msgs[..n]).records, here, msgs[n]))
  {
  }

  lemma VerdictExact(g: Ledger, here: Address, m: Message)
    requires Sized(g)
    ensures StatusFits(g, here, m, StatusOf(Verdict(g.sources, g.records, here, m)))
  {
    if m.Internal? && m.destination == here {
      var v := Verdict(g.sources, g.records, here, m);
      if m.methodId == AUDIT_RECORD {
        RecordExact(g, here, m);
        if v.Err? {
          RefusalsAreExact(g, here, m);
          VerdictNonzero(g.sources, g.records, here, m);
        }
      }
    }
  }
}
