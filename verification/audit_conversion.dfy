/** Converting stored ledgers between the two layouts, and why nothing is lost or reordered by it. */
module AuditConversion {
  import opened Bytes
  import opened Sdk
  import opened Buffers
  import opened Blocks
  import opened RevenueCore
  import opened AuditCore
  import opened AuditLayout
  import opened AuditContract
  import opened SdkUpdates

  /** The same ledger in the other layout. */
  function Converted(to: Layout, from: Layout, b: seq<byte>): seq<byte>
    requires Shaped(from, b)
  {
    Image(to, View(from, b))
  }

  /** A header of either layout, field by field, at the front of a zeroed buffer. */
  method FillHeader(l: Layout, owner: Id32, n: nat, b: array<byte>)
    requires n <= MAX_MEMBERS && b.Length == StateBytes(l, n) && Filled(b, [])
    modifies b
    ensures Filled(b, Header(l, owner, n))
  {
    var len := if l.Legacy? then Le32(65_536) else Le32(40 + 96 * n);
    WriteNext(b, 0, len, []);
    ghost var done := [] + len;
    if l.Compact? {
      WriteNext(b, 4, AUC2, done);
      done := done + AUC2;
    }
    WriteNext(b, OwnerAt(l), owner, done);
    done := done + owner;
    WriteNext(b, CountAt(l), [n], done);
    done := done + [n];
    SkipZeros(b, done, if l.Legacy? then 31 else 3);
    assert done + Zeros(if l.Legacy? then 31 else 3) == Header(l, owner, n);
  }

  /** Sources and records after the header, with whatever padding the layout has between them. */
  method FillTables(l: Layout, ghost g: Ledger, n: nat, sources: seq<byte>, records: seq<byte>, b: array<byte>)
    requires Sized(g) && n == |g.sources| && b.Length == StateBytes(l, n)
    requires sources == Flat(SourceRows(g.sources), 64) && records == Flat(RecordRows(g.records), 32)
    requires Filled(b, Header(l, g.owner, n))
    modifies b
    ensures b[..] == Image(l, g)
  {
    ghost var done := Header(l, g.owner, n);
    WriteNext(b, SourceBase(l), sources, done);
    done := done + sources;
    SkipZeros(b, done, GapLen(l, n));
    done := done + Zeros(GapLen(l, n));
    WriteNext(b, RecordBase(l, n), records, done);
  }

  method FillCompact(legacy: seq<byte>) returns (b: array<byte>)
    requires Shaped(Legacy, legacy)
    ensures fresh(b) && b[..] == Converted(Compact, Legacy, legacy)
  {
    var n := Count(Legacy, legacy);
    b := ZeroBuffer(StateBytes(Compact, n));
    FillHeader(Compact, legacy[4..36], n, b);
    SourcesOfView(Legacy, legacy);
    RecordsOfView(Legacy, legacy);
    FillTables(Compact, View(Legacy, legacy), n, legacy[68..68 + 64 * n], legacy[2052..2052 + 32 * n], b);
  }

  /** `compact_legacy` accepts exactly the valid legacy images and gives the compact image of the same ledger. */
  method CompactLegacy(legacy: seq<byte>) returns (r: Result<seq<byte>>)
    ensures r == if AcceptedImage(Legacy, legacy) then Ok(Converted(Compact, Legacy, legacy)) else Err(E_AUDIT_ARGS)
  {
    var ok := CheckShape(Legacy, legacy);
    if !ok {
      return Err(E_AUDIT_ARGS);
    }
    var b := FillCompact(legacy);
    ViewOfImage(Compact, View(Legacy, legacy));
    var _ :- Validate(Compact, b[..]);
    return Ok(b[..]);
  }

  method FillLegacy(b: seq<byte>) returns (legacy: array<byte>)
    requires Shaped(Compact, b)
    ensures fresh(legacy) && legacy[..] == Converted(Legacy, Compact, b)
  {
    var n := Count(Compact, b);
    legacy := ZeroBuffer(LEGACY_BYTES);
    FillHeader(Legacy, b[8..40], n, legacy);
    SourcesOfView(Compact, b);
    RecordsOfView(Compact, b);
    assert b[44 + 64 * n..] == b[44 + 64 * n..44 + 64 * n + 32 * n];
    FillTables(Legacy, View(Compact, b), n, b[44..44 + 64 * n], b[44 + 64 * n..], legacy);
  }

  /** `expand_legacy` accepts exactly the valid compact images. */
  method ExpandLegacy(b: seq<byte>) returns (r: Result<seq<byte>>)
    ensures r == if AcceptedImage(Compact, b) then Ok(Converted(Legacy, Compact, b)) else Err(E_AUDIT_ARGS)
  {
    var _ :- Validate(Compact, b);
    var legacy := FillLegacy(b);
    return Ok(legacy[..]);
  }

  /** Conversion is lossless: it keeps acceptance, and converting back gives the same bytes. */
  lemma ConversionInverts(to: Layout, from: Layout, b: seq<byte>)
    requires AcceptedImage(from, b)
    ensures AcceptedImage(to, Converted(to, from, b))
    ensures View(to, Converted(to, from, b)) == View(from, b)
    ensures Converted(from, to, Converted(to, from, b)) == b
  {
    ViewOfImage(to, View(from, b));
    ImageOfView(from, b);
  }

  /**
   * Every isolated step commutes with conversion: stepping the legacy image and compacting gives the same bytes
   * as compacting and stepping the compact image, whichever update modes the two steps were asked for.
   */
  lemma StepCommutes(legacy: seq<byte>, here: Address, m: Message, t: Ledger, u: StateUpdate, v: StateUpdate)
    requires AcceptedImage(Legacy, legacy) && Step(View(Legacy, legacy), here, m).Ok?
    requires t == Step(View(Legacy, legacy), here, m).value.0 && Sized(t)
    requires Leads(legacy, u, Image(Legacy, t))
    requires Leads(Converted(Compact, Legacy, legacy), v, Image(Compact, t))
    ensures AcceptedImage(Legacy, Applied(legacy, u))
    ensures AcceptedImage(Compact, Applied(Converted(Compact, Legacy, legacy), v))
    ensures Converted(Compact, Legacy, Applied(legacy, u)) == Applied(Converted(Compact, Legacy, legacy), v)
  {
    StepKeepsValid(View(Legacy, legacy), here, m);
    ViewOfImage(Legacy, t);
    ViewOfImage(Compact, t);
  }

  /**
   * The two contracts side by side on one message: same error or same event, and updates that convert into each
   * other.
   */
  method StepBoth(legacy: seq<byte>, here: Address, m: Message, legacyMode: Mode, compactMode: Mode)
    returns (a: Result<Output>, b: Result<Output>)
    requires AcceptedImage(Legacy, legacy)
    ensures a.Ok? <==> b.Ok?
    ensures a.Err? && b.Err? ==> a.code == b.code
    ensures a.Ok? && b.Ok? ==>
      var small := Converted(Compact, Legacy, legacy);
      && a.value.event == b.value.event
      && (a.value.update.Patches? ==> Encodable(a.value.update.patches) && Fits(a.value.update.patches, |legacy|))
      && (b.value.update.Patches? ==> Encodable(b.value.update.patches) && Fits(b.value.update.patches, |small|))
      && AcceptedImage(Legacy, Applied(legacy, a.value.update))
      && Converted(Compact, Legacy, Applied(legacy, a.value.update)) == Applied(small, b.value.update)
  {
    ConversionInverts(Compact, Legacy, legacy);
    var compacted := CompactLegacy(legacy);
    a := Isolated(Legacy, legacy, legacyMode, here, m);
    b := Isolated(Compact, compacted.value, compactMode, here, m);
    if a.Ok? {
      StepCommutes(legacy, here, m, Step(View(Legacy, legacy), here, m).value.0, a.value.update, b.value.update);
    }
  }
}
