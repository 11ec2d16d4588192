/** The two stored forms of the audit ledger, legacy and compact, and the value each stands for. */
module AuditLayout {
  import opened Bytes
  import opened Sdk
  import opened Buffers
  import opened Blocks
  import opened RevenueCore
  import opened AuditCore
  import opened SdkUpdates

  datatype Layout = Legacy | Compact

  const LEGACY_BYTES := 65_540
  const AUC2: seq<byte> := [0x41, 0x55, 0x43, 0x32]

  function OwnerAt(l: Layout): nat { if l.Legacy? then 4 else 8 }
  function CountAt(l: Layout): nat { if l.Legacy? then 36 else 40 }
  function SourceBase(l: Layout): nat { if l.Legacy? then 68 else 44 }
  function RecordBase(l: Layout, n: nat): nat { if l.Legacy? then 2052 else 44 + 64 * n }
  function StateBytes(l: Layout, n: nat): nat { if l.Legacy? then LEGACY_BYTES else 44 + 96 * n }

  /** Padding between sources and records, and after the records; only the legacy form has any. */
  function GapLen(l: Layout, n: nat): nat
    requires n <= MAX_MEMBERS
  {
    if l.Legacy? then 1984 - 64 * n else 0
  }

  function TailLen(l: Layout, n: nat): nat
    requires n <= MAX_MEMBERS
  {
    if l.Legacy? then 63_488 - 32 * n else 0
  }

  function RecordBytes(r: Record): (b: seq<byte>)
    ensures |b| == 32
  {
    Le64(r.lastNonce) + Le128(r.total) + Le64(r.count)
  }

  function RecordAt(b: seq<byte>): (r: Record)
    requires |b| == 32
    ensures RecordBytes(r) == b
  {
    assert b == b[..8] + b[8..24] + b[24..];
    Record(Nat64(b[..8]), Nat128(b[8..24]), Nat64(b[24..]))
  }

  lemma RecordInverse(r: Record)
    ensures RecordAt(RecordBytes(r)) == r
  {
    var b := RecordBytes(r);
    assert b[..8] == Le64(r.lastNonce) && b[8..24] == Le128(r.total) && b[24..] == Le64(r.count);
    Le64Inverse(r.lastNonce);
    Le128Inverse(r.total);
    Le64Inverse(r.count);
  }

  function SourceRows(sources: seq<Address>): (rows: seq<seq<byte>>)
    ensures |rows| == |sources| && Rows(rows, 64)
  {
    seq(|sources|, i requires 0 <= i < |sources| => AddressBytes(sources[i]))
  }

  function RecordRows(records: seq<Record>): (rows: seq<seq<byte>>)
    ensures |rows| == |records| && Rows(rows, 32)
  {
    seq(|records|, i requires 0 <= i < |records| => RecordBytes(records[i]))
  }

  function Header(l: Layout, owner: Id32, n: byte): (b: seq<byte>)
    requires n <= MAX_MEMBERS
    ensures |b| == SourceBase(l)
  {
    if l.Legacy?
    then Le32(65_536) + owner + [n] + Zeros(31)
    else Le32(40 + 96 * n) + AUC2 + owner + [n] + Zeros(3)
  }

  function Image(l: Layout, g: Ledger): (b: seq<byte>)
    requires Sized(g)
    ensures |b| == StateBytes(l, |g.sources|)
  {
    var n := |g.sources|;
    Header(l, g.owner, n) + Flat(SourceRows(g.sources), 64) + Zeros(GapLen(l, n))
    + Flat(RecordRows(g.records), 32) + Zeros(TailLen(l, n))
  }

  predicate Headed(l: Layout, b: seq<byte>)
    requires |b| >= 68
  {
    if l.Legacy? then
      b[..4] == Le32(65_536) && b[37..68] == Zeros(31)
    else
      Nat32(b[..4]) == |b| - 4 && b[4..8] == AUC2 && b[41..44] == Zeros(3)
  }

  function Count(l: Layout, b: seq<byte>): nat
    requires |b| >= 68
  {
    b[CountAt(l)]
  }

  /** The structural part of `validate`: length, header, reserved bytes. */
  predicate Shaped(l: Layout, b: seq<byte>) {
    && |b| >= 68
    && Headed(l, b)
    && 1 <= Count(l, b) <= MAX_MEMBERS
    && |b| == StateBytes(l, Count(l, b))
    && (l.Legacy? ==>
          var n := Count(l, b);
          b[68 + 64 * n..2052] == Zeros(GapLen(l, n)) && b[2052 + 32 * n..] == Zeros(TailLen(l, n)))
  }

  function SourceAt(l: Layout, b: seq<byte>, i: nat): Address
    requires Shaped(l, b) && i < Count(l, b)
  {
    AddressAt(b[SourceBase(l) + 64 * i..SourceBase(l) + 64 * i + 64])
  }

  function RecordOf(l: Layout, b: seq<byte>, i: nat): Record
    requires Shaped(l, b) && i < Count(l, b)
  {
    var o := RecordBase(l, Count(l, b)) + 32 * i;
    RecordAt(b[o..o + 32])
  }

  function View(l: Layout, b: seq<byte>): (g: Ledger)
    requires Shaped(l, b)
    ensures Sized(g) && |g.sources| == Count(l, b)
  {
    var n := Count(l, b);
    Ledger(b[OwnerAt(l)..OwnerAt(l) + 32],
           seq(n, i requires 0 <= i < n => SourceAt(l, b, i)),
           seq(n, i requires 0 <= i < n => RecordOf(l, b, i)))
  }

  /** An image the contract accepts: right shape, and a valid ledger inside. */
  predicate AcceptedImage(l: Layout, b: seq<byte>) {
    Shaped(l, b) && ValidLedger(View(l, b))
  }

  lemma SourcesOfView(l: Layout, b: seq<byte>)
    requires Shaped(l, b)
    ensures var n, s := Count(l, b), SourceBase(l);
            s + 64 * n <= |b| && Flat(SourceRows(View(l, b).sources), 64) == b[s..s + 64 * n]
  {
    var n, s := Count(l, b), SourceBase(l);
    SourceTable(l, b);
    FlatOfTable(b, s, 64, n);
  }

  lemma SourceTable(l: Layout, b: seq<byte>)
    requires Shaped(l, b)
    ensures var n, s := Count(l, b), SourceBase(l);
            s + 64 * n <= |b| && Table(b, s, 64, n) == SourceRows(View(l, b).sources)
  {
    hide Table, AddressAt;
    var n, s := Count(l, b), SourceBase(l);
    forall i | 0 <= i < n ensures Table(b, s, 64, n)[i] == AddressBytes(SourceAt(l, b, i)) {
      TableRow(b, s, 64, n, i);
    }
  }

  lemma RecordsOfView(l: Layout, b: seq<byte>)
    requires Shaped(l, b)
    ensures var n := Count(l, b);
            var o := RecordBase(l, n);
            o + 32 * n <= |b| && Flat(RecordRows(View(l, b).records), 32) == b[o..o + 32 * n]
  {
    var n := Count(l, b);
    var o := RecordBase(l, n);
    RecordTable(l, b);
    FlatOfTable(b, o, 32, n);
  }

  lemma RecordTable(l: Layout, b: seq<byte>)
    requires Shaped(l, b)
    ensures var n := Count(l, b);
            var o := RecordBase(l, n);
            o + 32 * n <= |b| && Table(b, o, 32, n) == RecordRows(View(l, b).records)
  {
    hide Table, RecordAt;
    var n := Count(l, b);
    var o := RecordBase(l, n);
    forall i | 0 <= i < n ensures Table(b, o, 32, n)[i] == RecordBytes(RecordOf(l, b, i)) {
      TableRow(b, o, 32, n, i);
    }
  }

  lemma HeaderOfView(l: Layout, b: seq<byte>)
    requires Shaped(l, b)
    ensures Header(l, View(l, b).owner, Count(l, b)) == b[..SourceBase(l)]
  {
    if l.Legacy? {
      assert b[..68] == b[..4] + b[4..36] + [b[36]] + b[37..68];
    } else {
      assert b[..44] == b[..4] + b[4..8] + b[8..40] + [b[40]] + b[41..44];
    }
  }

  /** Nothing in a well-shaped image is lost: it is the image of the ledger read out of it. */
  lemma ImageOfView(l: Layout, b: seq<byte>)
    requires Shaped(l, b)
    ensures Image(l, View(l, b)) == b
  {
    hide Flat, SourceRows, RecordRows, Header, View;
    var n := Count(l, b);
    var s, o := SourceBase(l), RecordBase(l, n);
    HeaderOfView(l, b);
    SourcesOfView(l, b);
    RecordsOfView(l, b);
    PaddingOfView(l, b);
    FiveParts(b, s, s + 64 * n, o, o + 32 * n);
  }

  lemma PaddingOfView(l: Layout, b: seq<byte>)
    requires Shaped(l, b)
    ensures var n := Count(l, b);
            var j, o := SourceBase(l) + 64 * n, RecordBase(l, n);
            j <= o <= o + 32 * n <= |b| && b[j..o] == Zeros(GapLen(l, n)) && b[o + 32 * n..] == Zeros(TailLen(l, n))
  {
  }

  lemma FiveParts(b: seq<byte>, i: nat, j: nat, k: nat, m: nat)
    requires i <= j <= k <= m <= |b|
    ensures b[..i] + b[i..j] + b[j..k] + b[k..m] + b[m..] == b
  {
  }

  lemma ImageParts(l: Layout, g: Ledger)
    requires Sized(g)
    ensures var n, b := |g.sources|, Image(l, g);
            var s, o := SourceBase(l), RecordBase(l, n);
            && b[..s] == Header(l, g.owner, n)
            && b[s..s + 64 * n] == Flat(SourceRows(g.sources), 64)
            && b[s + 64 * n..o] == Zeros(GapLen(l, n))
            && b[o..o + 32 * n] == Flat(RecordRows(g.records), 32)
            && b[o + 32 * n..] == Zeros(TailLen(l, n))
  {
  }

  /** The header's fields, read out of anything that starts with it. */
  lemma HeaderFields(l: Layout, owner: Id32, n: byte, b: seq<byte>)
    requires 1 <= n <= MAX_MEMBERS && |b| == StateBytes(l, n) && b[..SourceBase(l)] == Header(l, owner, n)
    ensures Headed(l, b) && Count(l, b) == n && b[OwnerAt(l)..OwnerAt(l) + 32] == owner
  {
    var h := Header(l, owner, n);
    if l.Legacy? {
      assert h[..4] == Le32(65_536) && h[4..36] == owner && h[36] == n && h[37..68] == Zeros(31);
      assert b[..4] == b[..68][..4] && b[4..36] == b[..68][4..36] && b[37..68] == b[..68][37..68];
    } else {
      assert h[..4] == Le32(40 + 96 * n) && h[4..8] == AUC2 && h[8..40] == owner && h[40] == n && h[41..44] == Zeros(3);
      assert b[..4] == b[..44][..4] && b[4..8] == b[..44][4..8] && b[8..40] == b[..44][8..40]
             && b[41..44] == b[..44][41..44];
      Le32Inverse(40 + 96 * n);
    }
  }

  lemma ImageIsShaped(l: Layout, g: Ledger)
    requires Sized(g)
    ensures Shaped(l, Image(l, g)) && Count(l, Image(l, g)) == |g.sources|
    ensures Image(l, g)[OwnerAt(l)..OwnerAt(l) + 32] == g.owner
  {
    ImageParts(l, g);
    HeaderFields(l, g.owner, |g.sources|, Image(l, g));
  }

  lemma SourcesFrom(l: Layout, b: seq<byte>, sources: seq<Address>)
    requires Shaped(l, b) && |sources| == Count(l, b)
    requires SourceBase(l) + 64 * |sources| <= |b|
    requires b[SourceBase(l)..SourceBase(l) + 64 * |sources|] == Flat(SourceRows(sources), 64)
    ensures View(l, b).sources == sources
  {
    forall i | 0 <= i < |sources| ensures SourceAt(l, b, i) == sources[i] {
      AddressRow(b, SourceBase(l), sources, i);
    }
  }

  lemma AddressRow(b: seq<byte>, at: nat, sources: seq<Address>, i: nat)
    requires i < |sources| && at + 64 * |sources| <= |b|
    requires b[at..at + 64 * |sources|] == Flat(SourceRows(sources), 64)
    ensures AddressAt(b[at + 64 * i..at + 64 * i + 64]) == sources[i]
  {
    var size, row := 64 * |sources|, 64 * i;
    FlatRow(SourceRows(sources), 64, i);
    Within(b, at, at + size, row, row + 64);
    AddressInverse(sources[i]);
  }

  lemma RecordRow(b: seq<byte>, at: nat, records: seq<Record>, i: nat)
    requires i < |records| && at + 32 * |records| <= |b|
    requires b[at..at + 32 * |records|] == Flat(RecordRows(records), 32)
    ensures RecordAt(b[at + 32 * i..at + 32 * i + 32]) == records[i]
  {
    var size, row := 32 * |records|, 32 * i;
    FlatRow(RecordRows(records), 32, i);
    Within(b, at, at + size, row, row + 32);
    RecordInverse(records[i]);
  }

  lemma RecordsFrom(l: Layout, b: seq<byte>, records: seq<Record>)
    requires Shaped(l, b) && |records| == Count(l, b)
    requires RecordBase(l, |records|) + 32 * |records| <= |b|
    requires b[RecordBase(l, |records|)..RecordBase(l, |records|) + 32 * |records|] == Flat(RecordRows(records), 32)
    ensures View(l, b).records == records
  {
    forall i | 0 <= i < |records| ensures RecordOf(l, b, i) == records[i] {
      RecordRow(b, RecordBase(l, |records|), records, i);
    }
  }

  /** And reading the image of a ledger gives that ledger back. */
  lemma ViewOfImage(l: Layout, g: Ledger)
    requires Sized(g)
    ensures Shaped(l, Image(l, g)) && View(l, Image(l, g)) == g
  {
    ImageIsShaped(l, g);
    ImageParts(l, g);
    SourcesFrom(l, Image(l, g), g.sources);
    RecordsFrom(l, Image(l, g), g.records);
  }

  /** Overwriting a record's 32 bytes is updating that record. */
  lemma SpliceRecord(l: Layout, g: Ledger, i: nat, r: Record)
    requires Sized(g) && i < |g.records|
    ensures RecordBase(l, |g.sources|) + 32 * i + 32 <= StateBytes(l, |g.sources|)
    ensures Splice(Image(l, g), RecordBase(l, |g.sources|) + 32 * i, RecordBytes(r))
            == Image(l, g.(records := g.records[i := r]))
  {
    var n := |g.sources|;
    var before := Header(l, g.owner, n) + Flat(SourceRows(g.sources), 64) + Zeros(GapLen(l, n));
    var rows := RecordRows(g.records);
    var after := Zeros(TailLen(l, n));
    FlatUpdate(rows, 32, i, RecordBytes(r));
    assert rows[i := RecordBytes(r)] == RecordRows(g.records[i := r]);
    SpliceInside(before, Flat(rows, 32), after, 32 * i, RecordBytes(r));
  }

  /** Overwriting a source's 64 bytes is binding that slot. */
  lemma SpliceSource(l: Layout, g: Ledger, i: nat, a: Address)
    requires Sized(g) && i < |g.sources|
    ensures SourceBase(l) + 64 * i + 64 <= StateBytes(l, |g.sources|)
    ensures Splice(Image(l, g), SourceBase(l) + 64 * i, AddressBytes(a)) == Image(l, Rebound(g, i, a))
  {
    var n := |g.sources|;
    var before := Header(l, g.owner, n);
    var rows := SourceRows(g.sources);
    var after := Zeros(GapLen(l, n)) + Flat(RecordRows(g.records), 32) + Zeros(TailLen(l, n));
    FlatUpdate(rows, 64, i, AddressBytes(a));
    assert rows[i := AddressBytes(a)] == SourceRows(g.sources[i := a]);
    SpliceInside(before, Flat(rows, 64), after, 64 * i, AddressBytes(a));
    Regroup(before, Flat(rows, 64), Zeros(GapLen(l, n)), Flat(RecordRows(g.records), 32), Zeros(TailLen(l, n)));
    var t := Rebound(g, i, a);
    Regroup(before, Flat(SourceRows(t.sources), 64), Zeros(GapLen(l, n)), Flat(RecordRows(g.records), 32),
      Zeros(TailLen(l, n)));
  }

  lemma Regroup(a: seq<byte>, b: seq<byte>, c: seq<byte>, d: seq<byte>, e: seq<byte>)
    ensures a + b + c + d + e == a + b + (c + d + e)
  {
  }

  function RecordPatch(l: Layout, n: nat, i: nat, r: Record): (p: StatePatch)
    requires n <= MAX_MEMBERS && i < n
  {
    StatePatch(RecordBase(l, n) + 32 * i, 32, RecordBytes(r))
  }

  function SourcePatch(l: Layout, i: nat, a: Address): StatePatch
    requires i < MAX_MEMBERS
  {
    StatePatch(SourceBase(l) + 64 * i, 64, AddressBytes(a))
  }

  /** One patch for each touched record, in member order. */
  function TouchedPatches(l: Layout, records: seq<Record>, touched: seq<bool>, from: nat): (ps: seq<StatePatch>)
    requires |records| == |touched| <= MAX_MEMBERS && from <= |records|
    decreases |records| - from
  {
    if from == |records| then []
    else if touched[from] then
      [RecordPatch(l, |records|, from, records[from])] + TouchedPatches(l, records, touched, from + 1)
    else TouchedPatches(l, records, touched, from + 1)
  }

  /** Patches of whole records, all between `lo` and `hi`. */
  ghost predicate RecordPatches(ps: seq<StatePatch>, lo: nat, hi: nat) {
    forall i | 0 <= i < |ps| :: lo <= ps[i].offset && ps[i].offset + 32 <= hi && ps[i].oldLen == 32 == |ps[i].newBytes|
  }

  lemma {:induction false} TouchedPatchesRange(l: Layout, records: seq<Record>, touched: seq<bool>, from: nat)
    requires |records| == |touched| <= MAX_MEMBERS && from <= |records|
    ensures var ps, base := TouchedPatches(l, records, touched, from), RecordBase(l, |records|);
            RecordPatches(ps, base + 32 * from, base + 32 * |records|) && |ps| <= |records| - from
    decreases |records| - from
  {
    if from < |records| {
      TouchedPatchesRange(l, records, touched, from + 1);
    }
  }

  lemma {:induction false} TouchedPatchesFrom(l: Layout, records: seq<Record>, touched: seq<bool>, from: nat)
    requires |records| == |touched| <= MAX_MEMBERS && from <= |records|
    ensures var ps := TouchedPatches(l, records, touched, from);
      && Ascending(ps) && SameLength(ps) && Fits(ps, StateBytes(l, |records|)) && |ps| <= |records| - from
    decreases |records| - from
  {
    TouchedPatchesRange(l, records, touched, from);
    assert RecordBase(l, |records|) + 32 * |records| <= StateBytes(l, |records|);
    if from < |records| {
      TouchedPatchesRange(l, records, touched, from + 1);
      TouchedPatchesFrom(l, records, touched, from + 1);
    }
  }

  /** The ledger's patches pass the SDK's own check on patch lists: ascending, disjoint, in range. */
  lemma PatchesAreEncodable(l: Layout, records: seq<Record>, touched: seq<bool>)
    requires |records| == |touched| <= MAX_MEMBERS
    ensures Encodable(TouchedPatches(l, records, touched, 0))
    ensures Fits(TouchedPatches(l, records, touched, 0), StateBytes(l, |records|))
  {
    TouchedPatchesFrom(l, records, touched, 0);
  }

  lemma OverwriteHead(b: seq<byte>, p: StatePatch, rest: seq<StatePatch>)
    requires SameLength([p] + rest) && Fits([p] + rest, |b|)
    ensures |p.newBytes| == p.oldLen && p.offset + p.oldLen <= |b| && SameLength(rest) && Fits(rest, |b|)
    ensures Overwritten(b, [p] + rest) == Overwritten(Splice(b, p.offset, p.newBytes), rest)
  {
    var ps := [p] + rest;
    assert ps[0] == p && ps[1..] == rest;
    assert forall i | 0 <= i < |rest| :: rest[i] == ps[i + 1];
  }

  /** Writing the patches turns the old image into the image with the new records, byte for byte. */
  lemma {:induction false} PatchesGiveRecords(l: Layout, g: Ledger, records: seq<Record>, touched: seq<bool>, from: nat)
    requires Sized(g) && |records| == |touched| == |g.records| && from <= |records|
    requires forall i | from <= i < |records| && !touched[i] :: records[i] == g.records[i]
    requires forall i | 0 <= i < from :: records[i] == g.records[i]
    ensures SameLength(TouchedPatches(l, records, touched, from))
    ensures Fits(TouchedPatches(l, records, touched, from), StateBytes(l, |records|))
    ensures Overwritten(Image(l, g), TouchedPatches(l, records, touched, from)) == Image(l, g.(records := records))
    decreases |records| - from
  {
    hide Image;
    TouchedPatchesFrom(l, records, touched, from);
    if from == |records| {
      assert records == g.records;
    } else if touched[from] {
      var h := g.(records := g.records[from := records[from]]);
      var p, rest := RecordPatch(l, |records|, from, records[from]), TouchedPatches(l, records, touched, from + 1);
      SpliceRecord(l, g, from, records[from]);
      PatchesGiveRecords(l, h, records, touched, from + 1);
      OverwriteHead(Image(l, g), p, rest);
    } else {
      PatchesGiveRecords(l, g, records, touched, from + 1);
    }
  }
}
