/** The vesting contract's stored image: a fixed layout, canonical in both directions. */
module VestingCodec {
  import opened Bytes
  import opened Sdk
  import opened Buffers
  import opened Blocks
  import opened VestingCore
  import opened VestingState

  const CONFIG_BYTES := 1656
  const STATE_BYTES := 3272
  const ROW := 200

  function Flag(b: bool): byte { if b then 1 else 0 }

  function TermsBytes(x: Schedule): (b: seq<byte>)
    ensures |b| == 32
  {
    Le128(x.total) + Le32(x.start) + Le32(x.cliff) + Le32(x.end) + Le32(x.step)
  }

  function TermsAt(b: seq<byte>): (x: Schedule)
    requires |b| == 32
    ensures TermsBytes(x) == b
  {
    assert b == b[..16] + b[16..20] + b[20..24] + b[24..28] + b[28..32];
    Schedule(Nat128(b[..16]), Nat32(b[16..20]), Nat32(b[20..24]), Nat32(b[24..28]), Nat32(b[28..32]))
  }

  lemma TermsInverse(x: Schedule)
    ensures TermsAt(TermsBytes(x)) == x
  {
    var b := TermsBytes(x);
    assert b[..16] == Le128(x.total) && b[16..20] == Le32(x.start) && b[20..24] == Le32(x.cliff);
    assert b[24..28] == Le32(x.end) && b[28..] == Le32(x.step) && b[28..32] == b[28..];
    Le128Inverse(x.total);
    Le32Inverse(x.start);
    Le32Inverse(x.cliff);
    Le32Inverse(x.end);
    Le32Inverse(x.step);
  }

  function StreamRow(x: Stream): (b: seq<byte>)
    ensures |b| == ROW
  {
    x.key + AddressBytes(x.payout) + AddressBytes(x.refund) + TermsBytes(x.terms) + [Flag(x.revocable)] + Zeros(7)
  }

  predicate ShapedStream(b: seq<byte>) {
    |b| == ROW && b[192] <= 1 && b[193..200] == Zeros(7)
  }

  function StreamOf(b: seq<byte>): (x: Stream)
    requires ShapedStream(b)
    ensures StreamRow(x) == b
  {
    assert b == b[..32] + b[32..96] + b[96..160] + b[160..192] + [b[192]] + b[193..200];
    Stream(b[..32], AddressAt(b[32..96]), AddressAt(b[96..160]), TermsAt(b[160..192]), b[192] == 1)
  }

  lemma StreamInverse(x: Stream)
    ensures ShapedStream(StreamRow(x)) && StreamOf(StreamRow(x)) == x
  {
    var b := StreamRow(x);
    assert b[..32] == x.key && b[32..96] == AddressBytes(x.payout) && b[96..160] == AddressBytes(x.refund);
    assert b[160..192] == TermsBytes(x.terms) && b[192] == Flag(x.revocable) && b[193..200] == Zeros(7);
    AddressInverse(x.payout);
    AddressInverse(x.refund);
    TermsInverse(x.terms);
  }

  function StreamRows(xs: seq<Stream>): (rows: seq<seq<byte>>)
    ensures |rows| == |xs| && Rows(rows, ROW)
  {
    seq(|xs|, i requires 0 <= i < |xs| => StreamRow(xs[i]))
  }

  function ConfigHead(c: Config): (b: seq<byte>)
    ensures |b| == 56
  {
    c.owner + Le128(c.fuel) + [c.count] + Zeros(7)
  }

  function ConfigImage(c: Config): (b: seq<byte>)
    ensures |b| == CONFIG_BYTES
  {
    ConfigHead(c) + Flat(StreamRows(c.streams), ROW)
  }

  predicate ShapedConfig(b: seq<byte>) {
    && |b| == CONFIG_BYTES
    && b[49..56] == Zeros(7)
    && forall i | 0 <= i < MAX_STREAMS :: ShapedStream(Table(b, 56, ROW, MAX_STREAMS)[i])
  }

  function ViewConfig(b: seq<byte>): Config
    requires ShapedConfig(b)
  {
    var rows := Table(b, 56, ROW, MAX_STREAMS);
    Config(b[..32], Nat128(b[32..48]), b[48], seq(MAX_STREAMS, i requires 0 <= i < MAX_STREAMS => StreamOf(rows[i])))
  }

  lemma ConfigImageOfView(b: seq<byte>)
    requires ShapedConfig(b)
    ensures ConfigImage(ViewConfig(b)) == b
  {
    assert StreamRows(ViewConfig(b).streams) == Table(b, 56, ROW, MAX_STREAMS);
    FlatOfTable(b, 56, ROW, MAX_STREAMS);
    assert ConfigHead(ViewConfig(b)) == b[..56] by {
      assert b[..56] == b[..32] + b[32..48] + [b[48]] + b[49..56];
    }
    assert b == b[..56] + b[56..56 + ROW * MAX_STREAMS];
  }

  lemma ViewOfConfigImage(c: Config)
    ensures ShapedConfig(ConfigImage(c)) && ViewConfig(ConfigImage(c)) == c
  {
    var b, head := ConfigImage(c), ConfigHead(c);
    assert b == head + Flat(StreamRows(c.streams), ROW) + [];
    TableOfFlat(head, StreamRows(c.streams), ROW, []);
    forall i | 0 <= i < MAX_STREAMS
      ensures ShapedStream(StreamRows(c.streams)[i]) && StreamOf(StreamRows(c.streams)[i]) == c.streams[i]
    {
      StreamInverse(c.streams[i]);
    }
    ConfigHeadFields(c, b);
    assert ViewConfig(b).streams == c.streams;
  }

  lemma ConfigHeadFields(c: Config, b: seq<byte>)
    requires |b| >= 56 && b[..56] == ConfigHead(c)
    ensures b[..32] == c.owner && Nat128(b[32..48]) == c.fuel && b[48] == c.count && b[49..56] == Zeros(7)
  {
    var h := ConfigHead(c);
    assert h[..32] == c.owner && h[32..48] == Le128(c.fuel) && h[48] == c.count && h[49..56] == Zeros(7);
    Le128Inverse(c.fuel);
    PrefixSlices(b, h);
  }

  function LaneBytes(l: Lane): (b: seq<byte>)
    ensures |b| == 72
  {
    Le128(l.pending) + Le64(l.nonce) + Le64(l.afterLt) + Le64(l.lastLt) + l.lastHash
  }

  function LaneAt(b: seq<byte>): (l: Lane)
    requires |b| == 72
    ensures LaneBytes(l) == b
  {
    assert b == b[..16] + b[16..24] + b[24..32] + b[32..40] + b[40..72];
    Lane(Nat128(b[..16]), Nat64(b[16..24]), Nat64(b[24..32]), Nat64(b[32..40]), b[40..72])
  }

  lemma LaneInverse(l: Lane)
    ensures LaneAt(LaneBytes(l)) == l
  {
    var b := LaneBytes(l);
    assert b[..16] == Le128(l.pending) && b[16..24] == Le64(l.nonce) && b[24..32] == Le64(l.afterLt);
    assert b[32..40] == Le64(l.lastLt) && b[40..] == l.lastHash && b[40..72] == b[40..];
    Le128Inverse(l.pending);
    Le64Inverse(l.nonce);
    Le64Inverse(l.afterLt);
    Le64Inverse(l.lastLt);
  }

  function ProgressHead(p: Progress): (b: seq<byte>)
    ensures |b| == 56
  {
    [Flag(p.cancelled)] + Zeros(3) + Le32(p.cutoff) + Le128(p.cap) + Le128(p.claimed) + Le128(p.refunded)
  }

  function ProgressBytes(p: Progress): (b: seq<byte>)
    ensures |b| == ROW
  {
    ProgressHead(p) + LaneBytes(p.claims) + LaneBytes(p.refunds)
  }

  predicate ShapedProgress(b: seq<byte>) {
    |b| == ROW && b[0] <= 1 && b[1..4] == Zeros(3)
  }

  function ProgressOf(b: seq<byte>): (p: Progress)
    requires ShapedProgress(b)
    ensures ProgressBytes(p) == b
  {
    assert b == b[..56] + b[56..128] + b[128..200];
    assert b[..56] == [b[0]] + b[1..4] + b[4..8] + b[8..24] + b[24..40] + b[40..56];
    Progress(b[0] == 1, Nat32(b[4..8]), Nat128(b[8..24]), Nat128(b[24..40]), Nat128(b[40..56]),
             LaneAt(b[56..128]), LaneAt(b[128..200]))
  }

  lemma ProgressInverse(p: Progress)
    ensures ShapedProgress(ProgressBytes(p)) && ProgressOf(ProgressBytes(p)) == p
  {
    var b, h := ProgressBytes(p), ProgressHead(p);
    assert b[..56] == h && b[56..128] == LaneBytes(p.claims) && b[128..200] == LaneBytes(p.refunds);
    PrefixSlices(b, h);
    assert h[0] == Flag(p.cancelled) && h[1..4] == Zeros(3) && h[4..8] == Le32(p.cutoff);
    assert h[8..24] == Le128(p.cap) && h[24..40] == Le128(p.claimed) && h[40..56] == Le128(p.refunded);
    assert b[0] == b[..56][0];
    Le32Inverse(p.cutoff);
    Le128Inverse(p.cap);
    Le128Inverse(p.claimed);
    Le128Inverse(p.refunded);
    LaneInverse(p.claims);
    LaneInverse(p.refunds);
  }

  function ProgressRows(ps: seq<Progress>): (rows: seq<seq<byte>>)
    ensures |rows| == |ps| && Rows(rows, ROW)
  {
    seq(|ps|, i requires 0 <= i < |ps| => ProgressBytes(ps[i]))
  }

  predicate AllShaped(rows: seq<seq<byte>>) {
    forall i | 0 <= i < |rows| :: ShapedProgress(rows[i])
  }

  function ProgressFrom(rows: seq<seq<byte>>): (ps: seq<Progress>)
    requires AllShaped(rows)
    ensures |ps| == |rows|
  {
    seq(|rows|, i requires 0 <= i < |rows| => ProgressOf(rows[i]))
  }

  /** The 16 bytes between the configuration and the progress rows. */
  function Clock(s: State): (b: seq<byte>)
    ensures |b| == 16
  {
    [Flag(s.funded)] + Zeros(3) + Le32(s.lastTime) + Le64(s.nonce)
  }

  function Image(s: State): (b: seq<byte>)
    ensures |b| == STATE_BYTES
  {
    ConfigImage(s.config) + Clock(s) + Flat(ProgressRows(s.progress), ROW)
  }

  predicate Shaped(b: seq<byte>) {
    && |b| == STATE_BYTES
    && b[1656] <= 1 && b[1657..1660] == Zeros(3)
    && ShapedConfig(b[..1656])
    && AllShaped(Table(b, 1672, ROW, MAX_STREAMS))
  }

  function View(b: seq<byte>): State
    requires Shaped(b)
  {
    State(ViewConfig(b[..1656]), b[1656] == 1, Nat32(b[1660..1664]), Nat64(b[1664..1672]),
          ProgressFrom(Table(b, 1672, ROW, MAX_STREAMS)))
  }

  /** Re-encoding what was read from a well-shaped image gives the same bytes. */
  lemma ImageOfView(b: seq<byte>)
    requires Shaped(b)
    ensures Image(View(b)) == b
  {
    ConfigImageOfView(b[..1656]);
    assert Clock(View(b)) == b[1656..1672] by {
      assert b[1656..1672] == [b[1656]] + b[1657..1660] + b[1660..1664] + b[1664..1672];
    }
    assert ProgressRows(View(b).progress) == Table(b, 1672, ROW, MAX_STREAMS);
    FlatOfTable(b, 1672, ROW, MAX_STREAMS);
    ThreeParts(b);
  }

  lemma ThreeParts(b: seq<byte>)
    requires |b| == STATE_BYTES
    ensures b == b[..1656] + b[1656..1672] + b[1672..1672 + ROW * MAX_STREAMS]
  {
  }

  lemma ImageSlices(s: State)
    ensures var b := Image(s);
      && b[..1656] == ConfigImage(s.config)
      && b[1656..1672] == Clock(s)
      && Table(b, 1672, ROW, MAX_STREAMS) == ProgressRows(s.progress)
  {
    var before := ConfigImage(s.config) + Clock(s);
    assert Image(s) == before + Flat(ProgressRows(s.progress), ROW) + [];
    TableOfFlat(before, ProgressRows(s.progress), ROW, []);
  }

  lemma ClockFields(s: State, b: seq<byte>)
    requires |b| == STATE_BYTES && b[1656..1672] == Clock(s)
    ensures b[1656] == Flag(s.funded) && b[1657..1660] == Zeros(3)
    ensures Nat32(b[1660..1664]) == s.lastTime && Nat64(b[1664..1672]) == s.nonce
  {
    var t := Clock(s);
    assert t[0] == Flag(s.funded) && t[1..4] == Zeros(3) && t[4..8] == Le32(s.lastTime) && t[8..16] == Le64(s.nonce);
    Within(b, 1656, 1672, 1, 4);
    Within(b, 1656, 1672, 4, 8);
    Within(b, 1656, 1672, 8, 16);
    assert b[1656] == b[1656..1672][0];
    Le32Inverse(s.lastTime);
    Le64Inverse(s.nonce);
  }

  /** Reading the image of a state gives that state back. */
  lemma ViewOfImage(s: State)
    ensures Shaped(Image(s)) && View(Image(s)) == s
  {
    var b := Image(s);
    ImageSlices(s);
    ClockFields(s, b);
    ViewOfConfigImage(s.config);
    forall i | 0 <= i < MAX_STREAMS
      ensures ShapedProgress(ProgressRows(s.progress)[i]) && ProgressOf(ProgressRows(s.progress)[i]) == s.progress[i]
    {
      ProgressInverse(s.progress[i]);
    }
    assert View(b).progress == s.progress;
  }

  /** `State::decode` as a function: the state of an accepted image. */
  ghost function Decode(b: seq<byte>): Result<State> {
    if Shaped(b) && Valid(View(b)) then Ok(View(b)) else Err(E_STATE)
  }

  /** Encode after decode is the identity on accepted images, decode after encode on valid states. */
  lemma ImagesAreCanonical(b: seq<byte>, s: State)
    ensures Decode(b) == Ok(s) <==> Valid(s) && b == Image(s)
  {
    ViewOfImage(s);
    if Decode(b) == Ok(s) {
      ImageOfView(b);
    }
  }

  method WriteTerms(b: array<byte>, at: nat, x: Schedule, ghost done: seq<byte>)
    requires Filled(b, done) && at == |done| && at + 32 <= b.Length
    modifies b
    ensures Filled(b, done + TermsBytes(x))
  {
    WriteNext(b, at, Le128(x.total), done);
    ghost var all := done + Le128(x.total);
    WriteNext(b, at + 16, Le32(x.start), all);
    all := all + Le32(x.start);
    WriteNext(b, at + 20, Le32(x.cliff), all);
    all := all + Le32(x.cliff);
    WriteNext(b, at + 24, Le32(x.end), all);
    all := all + Le32(x.end);
    WriteNext(b, at + 28, Le32(x.step), all);
    assert all + Le32(x.step) == done + TermsBytes(x);
  }

  method WriteStream(b: array<byte>, at: nat, x: Stream, ghost done: seq<byte>)
    requires Filled(b, done) && at == |done| && at + ROW <= b.Length
    modifies b
    ensures Filled(b, done + StreamRow(x))
  {
    WriteNext(b, at, x.key, done);
    ghost var all := done + x.key;
    WriteNext(b, at + 32, AddressBytes(x.payout), all);
    all := all + AddressBytes(x.payout);
    WriteNext(b, at + 96, AddressBytes(x.refund), all);
    all := all + AddressBytes(x.refund);
    WriteTerms(b, at + 160, x.terms, all);
    all := all + TermsBytes(x.terms);
    WriteNext(b, at + 192, [Flag(x.revocable)], all);
    all := all + [Flag(x.revocable)];
    SkipZeros(b, all, 7);
    assert all + Zeros(7) == done + StreamRow(x);
  }

  method WriteConfigHead(b: array<byte>, c: Config)
    requires Filled(b, []) && 56 <= b.Length
    modifies b
    ensures Filled(b, ConfigHead(c))
  {
    WriteNext(b, 0, c.owner, []);
    ghost var all: seq<byte> := [] + c.owner;
    WriteNext(b, 32, Le128(c.fuel), all);
    all := all + Le128(c.fuel);
    WriteNext(b, 48, [c.count], all);
    all := all + [c.count];
    SkipZeros(b, all, 7);
    assert all + Zeros(7) == ConfigHead(c);
  }

  /** `Config::encode`, into the front of a zeroed buffer. */
  method WriteConfig(b: array<byte>, c: Config)
    requires Filled(b, []) && CONFIG_BYTES <= b.Length
    modifies b
    ensures Filled(b, ConfigImage(c))
  {
    hide ConfigHead, StreamRow;
    WriteConfigHead(b, c);
    ghost var head, rows := ConfigHead(c), StreamRows(c.streams);
    assert head + Flat(rows[..0], ROW) == head;
    for i := 0 to MAX_STREAMS
      invariant Filled(b, head + Flat(rows[..i], ROW))
    {
      FlatNext(rows, ROW, i);
      WriteStream(b, 56 + i * 200, c.streams[i], head + Flat(rows[..i], ROW));
      assert head + Flat(rows[..i], ROW) + rows[i] == head + Flat(rows[..i + 1], ROW);
    }
    assert rows[..MAX_STREAMS] == rows;
  }

  method WriteLane(b: array<byte>, at: nat, l: Lane, ghost done: seq<byte>)
    requires Filled(b, done) && at == |done| && at + 72 <= b.Length
    modifies b
    ensures Filled(b, done + LaneBytes(l))
  {
    WriteNext(b, at, Le128(l.pending), done);
    ghost var all := done + Le128(l.pending);
    WriteNext(b, at + 16, Le64(l.nonce), all);
    all := all + Le64(l.nonce);
    WriteNext(b, at + 24, Le64(l.afterLt), all);
    all := all + Le64(l.afterLt);
    WriteNext(b, at + 32, Le64(l.lastLt), all);
    all := all + Le64(l.lastLt);
    WriteNext(b, at + 40, l.lastHash, all);
    assert all + l.lastHash == done + LaneBytes(l);
  }

  method WriteProgress(b: array<byte>, at: nat, p: Progress, ghost done: seq<byte>)
    requires Filled(b, done) && at == |done| && at + ROW <= b.Length
    modifies b
    ensures Filled(b, done + ProgressBytes(p))
  {
    hide Filled;
    WriteNext(b, at, [Flag(p.cancelled)], done);
    ghost var all := done + [Flag(p.cancelled)];
    SkipZeros(b, all, 3);
    all := all + Zeros(3);
    WriteNext(b, at + 4, Le32(p.cutoff), all);
    all := all + Le32(p.cutoff);
    WriteNext(b, at + 8, Le128(p.cap), all);
    all := all + Le128(p.cap);
    WriteNext(b, at + 24, Le128(p.claimed), all);
    all := all + Le128(p.claimed);
    WriteNext(b, at + 40, Le128(p.refunded), all);
    all := all + Le128(p.refunded);
    assert all == done + ProgressHead(p);
    WriteLane(b, at + 56, p.claims, done + ProgressHead(p));
    WriteLane(b, at + 128, p.refunds, done + ProgressHead(p) + LaneBytes(p.claims));
    assert done + ProgressHead(p) + LaneBytes(p.claims) + LaneBytes(p.refunds) == done + ProgressBytes(p);
  }

  method WriteClock(b: array<byte>, s: State, ghost done: seq<byte>)
    requires Filled(b, done) && |done| == CONFIG_BYTES && b.Length == STATE_BYTES
    modifies b
    ensures Filled(b, done + Clock(s))
  {
    WriteNext(b, CONFIG_BYTES, [Flag(s.funded)], done);
    ghost var all := done + [Flag(s.funded)];
    SkipZeros(b, all, 3);
    all := all + Zeros(3);
    WriteNext(b, 1660, Le32(s.lastTime), all);
    all := all + Le32(s.lastTime);
    WriteNext(b, 1664, Le64(s.nonce), all);
    assert all + Le64(s.nonce) == done + Clock(s);
  }

  /** `State::encode`. */
  method Encode(s: State) returns (r: seq<byte>)
    ensures r == Image(s)
  {
    hide ConfigImage, Clock, ProgressBytes;
    var b := ZeroBuffer(STATE_BYTES);
    WriteConfig(b, s.config);
    WriteClock(b, s, ConfigImage(s.config));
    ghost var before, rows := ConfigImage(s.config) + Clock(s), ProgressRows(s.progress);
    assert before + Flat(rows[..0], ROW) == before;
    for i := 0 to MAX_STREAMS
      invariant Filled(b, before + Flat(rows[..i], ROW))
    {
      FlatNext(rows, ROW, i);
      WriteProgress(b, 1672 + i * 200, s.progress[i], before + Flat(rows[..i], ROW));
      assert before + Flat(rows[..i], ROW) + rows[i] == before + Flat(rows[..i + 1], ROW);
    }
    assert rows[..MAX_STREAMS] == rows;
    assert Image(s) + Zeros(0) == Image(s);
    return b[..];
  }
}
