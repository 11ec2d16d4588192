/** The audit contract on stored images: validation, the isolated path, the batch path, and layout conversion. */
module AuditContract {
  import opened Bytes
  import opened Sdk
  import opened Buffers
  import opened RevenueCore
  import opened AuditCore
  import opened AuditLayout
  import opened SdkUpdates

  /** `u` is a well-formed update that turns image `b` into image `c`. */
  ghost predicate Leads(b: seq<byte>, u: StateUpdate, c: seq<byte>) {
    && (u.Patches? ==> Encodable(u.patches) && Fits(u.patches, |b|))
    && Applied(b, u) == c
  }

  predicate ZeroRange(b: seq<byte>, lo: nat, hi: nat)
    requires lo <= hi <= |b|
  {
    forall k | lo <= k < hi :: b[k] == 0
  }

  lemma ZeroRangeIs(b: seq<byte>, lo: nat, hi: nat)
    requires lo <= hi <= |b|
    ensures ZeroRange(b, lo, hi) <==> b[lo..hi] == Zeros(hi - lo)
  {
    if b[lo..hi] == Zeros(hi - lo) {
      forall k | lo <= k < hi ensures b[k] == 0 {
        assert b[k] == b[lo..hi][k - lo];
      }
    }
  }

  /** The header and padding checks at the start of `validate`. */
  method CheckShape(l: Layout, b: seq<byte>) returns (ok: bool)
    ensures ok <==> Shaped(l, b)
  {
    if l.Legacy? {
      if |b| != LEGACY_BYTES || b[..4] != Le32(65_536) || b[36] == 0 || b[36] > 16 || b[37..68] != Zeros(31) {
        return false;
      }
      var n := Count(l, b);
      ZeroRangeIs(b, 68 + n * 64, 2052);
      ZeroRangeIs(b, 2052 + n * 32, |b|);
      assert b[2052 + 32 * n..|b|] == b[2052 + 32 * n..];
      return ZeroRange(b, 68 + n * 64, 2052) && ZeroRange(b, 2052 + n * 32, |b|);
    } else {
      if |b| < 44 || b[4..8] != AUC2 || b[40] == 0 || b[40] > 16 || b[41..44] != Zeros(3)
         || |b| != StateBytes(l, b[40]) || Nat32(b[..4]) != |b| - 4 {
        return false;
      }
      return true;
    }
  }

  /** `validate` on either layout: the member count of an accepted image, or the one error. */
  method Validate(l: Layout, b: seq<byte>) returns (r: Result<nat>)
    ensures r == if AcceptedImage(l, b) then Ok(Count(l, b)) else Err(E_AUDIT_ARGS)
  {
    var ok := CheckShape(l, b);
    if !ok {
      return Err(E_AUDIT_ARGS);
    }
    if b[OwnerAt(l)..OwnerAt(l) + 32] == ZERO32 {
      return Err(E_AUDIT_ARGS);
    }
    SlotsUpToAll(View(l, b), Count(l, b));
    var bound := CheckSources(l, b);
    if !bound {
      return Err(E_AUDIT_ARGS);
    }
    return Ok(Count(l, b));
  }

  /** The loop of `validate`: each bound source is new to the list seen so far, each record is empty or complete. */
  method CheckSources(l: Layout, b: seq<byte>) returns (ok: bool)
    requires Shaped(l, b)
    ensures ok <==> SlotsUpTo(View(l, b), Count(l, b))
  {
    hide RecordOf, SourceAt, AddressAt;
    ghost var g := View(l, b);
    var seen: seq<Address> := [];
    for i := 0 to Count(l, b)
      invariant SlotsUpTo(g, i)
      invariant seen == Bound(g.sources[..i])
    {
      var source := SourceAt(l, b, i);
      SlotPassesIffValid(g, i);
      if !SlotPasses(seen, source, RecordOf(l, b, i)) {
        SlotsUpToAll(g, Count(l, b));
        return false;
      }
      assert g.sources[..i + 1][..i] == g.sources[..i];
      if source != ZERO_ADDRESS {
        seen := seen + [source];
      }
    }
    return true;
  }

  /** The records of an accepted image, staged in an array of full size. */
  method Stage(l: Layout, b: seq<byte>, count: nat) returns (records: array<Record>)
    requires Shaped(l, b) && count == Count(l, b)
    ensures fresh(records) && records.Length == MAX_MEMBERS && records[..count] == View(l, b).records
  {
    hide RecordOf;
    records := new Record[MAX_MEMBERS](_ => EMPTY);
    for i := 0 to count
      invariant records[..i] == View(l, b).records[..i]
    {
      records[i] := RecordOf(l, b, i);
      assert records[..i + 1] == records[..i] + [records[i]];
    }
  }

  /** `accepted`: checks one report against the image's bindings and the staged records, and stages its effect. */
  method Accept(l: Layout, b: seq<byte>, count: nat, m: Message, records: array<Record>) returns (r: Result<Entry>)
    requires Shaped(l, b) && count == Count(l, b) && records.Length == MAX_MEMBERS
    modifies records
    ensures r == Accepted(View(l, b).sources, old(records[..count]), m)
    ensures records[..count] == if r.Ok? then old(records[..count])[r.value.member := r.value.record]
                                else old(records[..count])
  {
    ghost var before := records[..count];
    if m.External? {
      return Err(E_AUDIT_AUTH);
    }
    if m.methodId != AUDIT_RECORD || m.callback.Some? || m.deploy || m.callbackRequest || m.eventReads || m.extra != []
    {
      return Err(E_AUDIT_ARGS);
    }
    var payment :- ReadPayment(m.body);
    var (index, nonce, amount) := payment;
    if index >= count || m.source != SourceAt(l, b, index) {
      return Err(E_AUDIT_AUTH);
    }
    var was := records[index];
    assert was == before[index];
    if nonce <= was.lastNonce {
      return Err(E_AUDIT_REPLAY);
    }
    var total := CheckedAdd(was.total, amount);
    if total.None? || was.count + 1 >= U64_END {
      return Err(E_AUDIT_OVERFLOW);
    }
    var next := Record(nonce, total.value, was.count + 1);
    records[index] := next;
    return Ok(Entry(index, nonce, amount, next));
  }

  datatype Output = Output(update: StateUpdate, event: Option<AuditEvent>)

  /** The isolated answer agrees with the ledger step: same error, or an update to the stepped ledger's image. */
  ghost predicate Answers(l: Layout, b: seq<byte>, mode: Mode, spec: Result<(Ledger, Option<AuditEvent>)>,
                          r: Result<Output>)
  {
    match spec
    case Err(code) => r == Err(code)
    case Ok((t, e)) =>
      && r.Ok? && r.value.event == e && r.value.update.UpdateMode() == mode
      && Sized(t) && Leads(b, r.value.update, Image(l, t))
  }

  /** A single same-length patch in either mode. */
  method Replaced(b: seq<byte>, mode: Mode, p: StatePatch) returns (u: StateUpdate)
    requires |p.newBytes| == p.oldLen < U32_END && End(p) <= |b| < U32_END
    ensures u.UpdateMode() == mode && Leads(b, u, Splice(b, p.offset, p.newBytes))
  {
    u := Replacement(b, mode, [p]);
    ModesAgree(b, [p]);
    assert [p][1..] == [];
    assert Overwritten(b, [p]) == Splice(b, p.offset, p.newBytes);
  }

  method Unchanged(b: seq<byte>, mode: Mode) returns (u: StateUpdate)
    ensures u.UpdateMode() == mode && Leads(b, u, b)
  {
    u := Replacement(b, mode, []);
    ModesAgree(b, []);
  }

  method SourceTaken(l: Layout, b: seq<byte>, source: Address) returns (taken: bool)
    requires Shaped(l, b)
    ensures taken <==> source in View(l, b).sources
  {
    ghost var sources := View(l, b).sources;
    for i := 0 to Count(l, b)
      invariant source !in sources[..i]
    {
      assert sources[..i + 1] == sources[..i] + [sources[i]];
      if SourceAt(l, b, i) == source {
        assert sources[i] in sources;
        return true;
      }
    }
    assert sources[..Count(l, b)] == sources;
    return false;
  }

  /** The checks of BIND, in order. */
  method CheckBind(l: Layout, b: seq<byte>, here: Address, body: seq<byte>, extra: seq<Currency>) returns (ok: bool)
    requires Shaped(l, b)
    ensures ok <==> Bind(View(l, b), here, body, extra).Ok?
  {
    if |body| != 65 || body[0] >= Count(l, b) || extra != [] {
      return false;
    }
    var source := AddressAt(body[1..]);
    if !NonzeroAddress(source) || source.dapp != here.dapp || source == here || SourceAt(l, b, body[0]) != ZERO_ADDRESS
    {
      return false;
    }
    var taken := SourceTaken(l, b, source);
    return !taken;
  }

  method BindCall(l: Layout, b: seq<byte>, mode: Mode, here: Address, body: seq<byte>, extra: seq<Currency>)
    returns (r: Result<StateUpdate>)
    requires Shaped(l, b)
    ensures match Bind(View(l, b), here, body, extra)
      case Err(code) => r == Err(code)
      case Ok(t) => r.Ok? && r.value.UpdateMode() == mode && Sized(t) && Leads(b, r.value, Image(l, t))
  {
    var ok := CheckBind(l, b, here, body, extra);
    if !ok {
      return Err(E_AUDIT_ARGS);
    }
    ImageOfView(l, b);
    SpliceSource(l, View(l, b), body[0], AddressAt(body[1..]));
    var u := Replaced(b, mode, SourcePatch(l, body[0], AddressAt(body[1..])));
    return Ok(u);
  }

  /** The isolated path on bytes. */
  method Isolated(l: Layout, b: seq<byte>, mode: Mode, here: Address, m: Message) returns (r: Result<Output>)
    ensures !AcceptedImage(l, b) ==> r == Err(E_AUDIT_ARGS)
    ensures AcceptedImage(l, b) ==> Answers(l, b, mode, Step(View(l, b), here, m), r)
  {
    var count :- Validate(l, b);
    ImageOfView(l, b);
    if m.methodId == AUDIT_STATUS {
      if m.Internal? {
        return Err(E_AUDIT_AUTH);
      }
      if m.body != [] {
        return Err(E_ARGS);
      }
      if m.extra != [] {
        return Err(E_AUDIT_ARGS);
      }
      var u := Unchanged(b, mode);
      return Ok(Output(u, None));
    }
    if m.methodId == AUDIT_BIND {
      if m.Internal? || m.actor != b[OwnerAt(l)..OwnerAt(l) + 32] {
        return Err(E_AUDIT_AUTH);
      }
      var u :- BindCall(l, b, mode, here, m.body, m.extra);
      return Ok(Output(u, None));
    }
    if m.External? {
      return Err(E_AUDIT_AUTH);
    }
    r := Record1(l, b, mode, count, m);
  }

  method Record1(l: Layout, b: seq<byte>, mode: Mode, count: nat, m: Message) returns (r: Result<Output>)
    requires Shaped(l, b) && count == Count(l, b)
    ensures match Accepted(View(l, b).sources, View(l, b).records, m)
      case Err(code) => r == Err(code)
      case Ok(e) =>
        && r.Ok? && r.value.event == Some(EventOf(e)) && r.value.update.UpdateMode() == mode
        && Leads(b, r.value.update, Image(l, View(l, b).(records := View(l, b).records[e.member := e.record])))
  {
    var records := Stage(l, b, count);
    var e :- Accept(l, b, count, m, records);
    ImageOfView(l, b);
    SpliceRecord(l, View(l, b), e.member, e.record);
    var u := Replaced(b, mode, RecordPatch(l, count, e.member, e.record));
    return Ok(Output(u, Some(EventOf(e))));
  }

  datatype BatchOutput = BatchOutput(update: StateUpdate, statuses: seq<int>, events: seq<(nat, AuditEvent)>)

  function Repeat(code: int, n: nat): seq<int> { seq(n, _ => code) }

  /** A refused batch: no ledger change, one code for every message, no events. */
  method Refuse(b: seq<byte>, mode: Mode, n: nat, code: nat) returns (o: BatchOutput)
    ensures o.update.UpdateMode() == mode && Leads(b, o.update, b)
    ensures o.statuses == Repeat(code, n) && o.events == []
  {
    var u := Unchanged(b, mode);
    return BatchOutput(u, Repeat(code, n), []);
  }

  predicate Refused(l: Layout, b: seq<byte>, mode: Mode, msgs: seq<Message>) {
    !AcceptedImage(l, b) || (l.Legacy? && mode != DataPatchList) || |msgs| > MAX_BATCH
  }

  /** In either mode, the patches of the touched records turn the image into the one with the staged records. */
  lemma PatchesLead(l: Layout, b: seq<byte>, records: seq<Record>, touched: seq<bool>)
    requires Shaped(l, b) && |records| == |touched| == Count(l, b)
    requires forall i | 0 <= i < |records| && !touched[i] :: records[i] == View(l, b).records[i]
    ensures var ps := TouchedPatches(l, records, touched, 0);
      && SameLength(ps) && Fits(ps, |b|)
      && Leads(b, Patches(ps), Image(l, View(l, b).(records := records)))
      && Leads(b, Full(Overwritten(b, ps)), Image(l, View(l, b).(records := records)))
  {
    hide Image;
    ImageOfView(l, b);
    PatchesAreEncodable(l, records, touched);
    TouchedPatchesFrom(l, records, touched, 0);
    PatchesGiveRecords(l, View(l, b), records, touched, 0);
    ModesAgree(b, TouchedPatches(l, records, touched, 0));
  }

  /** A batch is admitted exactly on an accepted image, up to 256 messages, and in the legacy form only for patches. */
  lemma AdmittedExactly(l: Layout, b: seq<byte>, mode: Mode, msgs: seq<Message>)
    ensures !Refused(l, b, mode, msgs) <==>
            AcceptedImage(l, b) && |msgs| <= 256 && (l == Compact || mode == DataPatchList)
  {
  }

  /**
   * The batch path on bytes. An admitted batch leads to the ledger that the same internal messages reach one
   * at a time, with the same successes and the same events by position.
   */
  method ProcessBatch(l: Layout, b: seq<byte>, mode: Mode, here: Address, msgs: seq<Message>) returns (o: BatchOutput)
    ensures o.update.UpdateMode() == mode
    ensures Refused(l, b, mode, msgs) ==>
      Leads(b, o.update, b) && o.statuses == Repeat(E_AUDIT_ARGS, |msgs|) && o.events == []
    ensures !Refused(l, b, mode, msgs) ==>
      var t := TallyOf(View(l, b), here, msgs);
      && o.statuses == t.statuses && o.events == t.events
      && Leads(b, o.update, Image(l, View(l, b).(records := t.records)))
    ensures !Refused(l, b, mode, msgs) && InternalTo(here, msgs) ==>
      var run := RunOf(View(l, b), here, msgs);
      && Leads(b, o.update, Image(l, run.ledger))
      && o.events == run.events
      && (forall i | 0 <= i < |msgs| :: o.statuses[i] == 0 <==> run.ok[i])
  {
    hide Image;
    var valid := Validate(l, b);
    if valid.Err? {
      o := Refuse(b, mode, |msgs|, E_AUDIT_ARGS);
      return;
    }
    if (l.Legacy? && mode != DataPatchList) || |msgs| > MAX_BATCH {
      o := Refuse(b, mode, |msgs|, E_AUDIT_ARGS);
      return;
    }
    ghost var g := View(l, b);
    var count := valid.value;
    var records := Stage(l, b, count);
    var touched := Untouched(count);
    var statuses: seq<int> := [];
    var events: seq<(nat, AuditEvent)> := [];
    for i := 0 to |msgs|
      invariant Tally(records[..count], touched, statuses, events) == TallyOf(g, here, msgs[..i])
    {
      assert msgs[..i + 1][..i] == msgs[..i];
      var m := msgs[i];
      var v: Result<Entry>;
      if m.Internal? && m.destination == here {
        v := Accept(l, b, count, m, records);
      } else {
        v := Err(E_AUDIT_AUTH);
      }
      match v
      case Ok(e) =>
        touched := touched[e.member := true];
        statuses := statuses + [0];
        events := events + [(i, EventOf(e))];
      case Err(code) =>
        statuses := statuses + [code];
    }
    assert msgs[..|msgs|] == msgs;
    var patches := TouchedPatches(l, records[..count], touched, 0);
    UntouchedStays(g, here, msgs);
    PatchesLead(l, b, records[..count], touched);
    var u := Replacement(b, mode, patches);
    if InternalTo(here, msgs) {
      BatchIsOneByOne(g, here, msgs);
    }
    return BatchOutput(u, statuses, events);
  }
}
