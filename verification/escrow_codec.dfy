/** The escrow's stored image: a fixed layout, canonical in both directions. */
module EscrowCodec {
  import opened Bytes
  import opened Sdk
  import opened Buffers
  import opened Blocks
  import opened EscrowState

  const CONFIG_BYTES := 360
  const STATE_BYTES := 2768

  function AmountRows(amounts: seq<u128>): (rows: seq<seq<byte>>)
    ensures |rows| == |amounts| && Rows(rows, 16)
  {
    seq(|amounts|, i requires 0 <= i < |amounts| => Le128(amounts[i]))
  }

  function AmountsFrom(rows: seq<seq<byte>>): (amounts: seq<u128>)
    requires Rows(rows, 16)
    ensures |amounts| == |rows| && AmountRows(amounts) == rows
  {
    seq(|rows|, i requires 0 <= i < |rows| => Nat128(rows[i]))
  }

  lemma AmountsInverse(amounts: seq<u128>)
    ensures AmountsFrom(AmountRows(amounts)) == amounts
  {
    forall i | 0 <= i < |amounts| ensures AmountsFrom(AmountRows(amounts))[i] == amounts[i] {
      Le128Inverse(amounts[i]);
    }
  }

  function Parties(c: Config): (b: seq<byte>)
    ensures |b| == 192
  {
    var keys: seq<byte> := c.owner;
    keys + c.worker + AddressBytes(c.refundTo) + AddressBytes(c.payTo)
  }

  function ConfigHead(c: Config): (b: seq<byte>)
    ensures |b| == 216
  {
    Parties(c) + Le128(c.total) + Le32(c.deadline) + [c.count] + Zeros(3)
  }

  function ConfigImage(c: Config): (b: seq<byte>)
    ensures |b| == CONFIG_BYTES
  {
    ConfigHead(c) + Flat(AmountRows(c.amounts), 16) + Le128(c.fuelReserve)
  }

  predicate ShapedConfig(b: seq<byte>) {
    |b| == CONFIG_BYTES && b[213..216] == Zeros(3)
  }

  function ViewConfig(b: seq<byte>): Config
    requires ShapedConfig(b)
  {
    Config(b[..32], b[32..64], AddressAt(b[64..128]), AddressAt(b[128..192]), Nat128(b[192..208]), Nat32(b[208..212]),
           b[212], AmountsFrom(Table(b, 216, 16, MAX_MILESTONES)), Nat128(b[344..360]))
  }

  lemma ConfigImageOfView(b: seq<byte>)
    requires ShapedConfig(b)
    ensures ConfigImage(ViewConfig(b)) == b
  {
    FlatOfTable(b, 216, 16, MAX_MILESTONES);
    assert ConfigHead(ViewConfig(b)) == b[..216] by {
      assert b[..216] == b[..32] + b[32..64] + b[64..128] + b[128..192] + b[192..208] + b[208..212] + [b[212]]
             + b[213..216];
    }
    assert b == b[..216] + b[216..344] + b[344..360];
  }

  lemma ConfigHeadFields(c: Config, b: seq<byte>)
    requires |b| >= 216 && b[..216] == ConfigHead(c)
    ensures b[..32] == c.owner && b[32..64] == c.worker
    ensures AddressAt(b[64..128]) == c.refundTo && AddressAt(b[128..192]) == c.payTo
    ensures Nat128(b[192..208]) == c.total && Nat32(b[208..212]) == c.deadline && b[212] == c.count
            && b[213..216] == Zeros(3)
  {
    var h := ConfigHead(c);
    assert h[..32] == c.owner && h[32..64] == c.worker;
    assert h[64..128] == AddressBytes(c.refundTo) && h[128..192] == AddressBytes(c.payTo);
    assert h[192..208] == Le128(c.total) && h[208..212] == Le32(c.deadline) && h[212] == c.count
           && h[213..216] == Zeros(3);
    AddressInverse(c.refundTo);
    AddressInverse(c.payTo);
    Le128Inverse(c.total);
    Le32Inverse(c.deadline);
    PrefixSlices(b, h);
  }

  lemma ViewOfConfigImage(c: Config)
    ensures ShapedConfig(ConfigImage(c)) && ViewConfig(ConfigImage(c)) == c
  {
    var b, head, fuel := ConfigImage(c), ConfigHead(c), Le128(c.fuelReserve);
    TableOfFlat(head, AmountRows(c.amounts), 16, fuel);
    AmountsInverse(c.amounts);
    assert b[..216] == head && b[344..360] == fuel;
    ConfigHeadFields(c, b);
    Le128Inverse(c.fuelReserve);
  }

  /** Totals, attempt counter, the transfer under way, and the phases. */
  function StateHead(s: State): (b: seq<byte>)
    ensures |b| == 96
  {
    Le128(s.funded) + Le128(s.paid) + Le128(s.refunded) + Le64(s.attempts) + [s.pending.kind, s.pending.index]
      + Zeros(6)
    + Le128(s.pending.amount) + Le64(s.pending.attempt) + s.phases
  }

  function HashRows(hashes: seq<Id32>): (rows: seq<seq<byte>>)
    ensures |rows| == |hashes| && Rows(rows, 32)
  {
    seq(|hashes|, i requires 0 <= i < |hashes| => hashes[i])
  }

  function HashesFrom(rows: seq<seq<byte>>): (hashes: seq<Id32>)
    requires Rows(rows, 32)
    ensures |hashes| == |rows| && HashRows(hashes) == rows
  {
    seq(|rows|, i requires 0 <= i < |rows| => (var h: Id32 := rows[i]; h))
  }

  lemma HashesInverse(hashes: seq<Id32>)
    ensures HashesFrom(HashRows(hashes)) == hashes
  {
  }

  /** The receipt ledger: as many rows as there are attempts, the unused ones zero. */
  function ReceiptRows(receipts: seq<Id32>): (rows: seq<seq<byte>>)
    ensures |rows| == MAX_ATTEMPTS && Rows(rows, 32)
  {
    seq(MAX_ATTEMPTS, i requires 0 <= i < MAX_ATTEMPTS => if i < |receipts| then receipts[i] else ZERO32)
  }

  predicate ZeroRows(rows: seq<seq<byte>>, from: nat) {
    forall i | from <= i < |rows| :: rows[i] == ZERO32
  }

  function Image(s: State): (b: seq<byte>)
    requires |s.receipts| <= MAX_ATTEMPTS
    ensures |b| == STATE_BYTES
  {
    ConfigImage(s.config) + StateHead(s) + Flat(HashRows(s.hashes), 32) + Le64(|s.receipts|)
      + Flat(ReceiptRows(s.receipts), 32)
  }

  predicate Shaped(b: seq<byte>) {
    && |b| == STATE_BYTES
    && b[418..424] == Zeros(6)
    && ShapedConfig(b[..360])
    && Nat64(b[712..720]) <= MAX_ATTEMPTS
    && ZeroRows(Table(b, 720, 32, MAX_ATTEMPTS), Nat64(b[712..720]))
  }

  function View(b: seq<byte>): (s: State)
    requires Shaped(b)
    ensures |s.receipts| <= MAX_ATTEMPTS
  {
    State(ViewConfig(b[..360]), Nat128(b[360..376]), Nat128(b[376..392]), Nat128(b[392..408]), Nat64(b[408..416]),
          Pending(b[416], b[417], Nat128(b[424..440]), Nat64(b[440..448])), b[448..456],
          HashesFrom(Table(b, 456, 32, MAX_MILESTONES)),
          HashesFrom(Table(b, 720, 32, MAX_ATTEMPTS))[..Nat64(b[712..720])])
  }

  lemma HeadOfView(b: seq<byte>)
    requires Shaped(b)
    ensures StateHead(View(b)) == b[360..456]
  {
    assert b[360..456] == b[360..376] + b[376..392] + b[392..408] + b[408..416] + [b[416], b[417]] + b[418..424]
                          + b[424..440] + b[440..448] + b[448..456];
  }

  /** Re-encoding what was read from a well-shaped image gives the same bytes. */
  lemma ImageOfView(b: seq<byte>)
    requires Shaped(b)
    ensures Image(View(b)) == b
  {
    ConfigImageOfView(b[..360]);
    HeadOfView(b);
    FlatOfTable(b, 456, 32, MAX_MILESTONES);
    ReceiptsOfView(b);
    FiveParts(b);
  }

  lemma ReceiptsOfView(b: seq<byte>)
    requires Shaped(b)
    ensures Flat(ReceiptRows(View(b).receipts), 32) == b[720..720 + 32 * MAX_ATTEMPTS]
    ensures Le64(|View(b).receipts|) == b[712..720]
  {
    assert ReceiptRows(View(b).receipts) == Table(b, 720, 32, MAX_ATTEMPTS);
    FlatOfTable(b, 720, 32, MAX_ATTEMPTS);
  }

  lemma FiveParts(b: seq<byte>)
    requires |b| == STATE_BYTES
    ensures b[..360] + b[360..456] + b[456..456 + 32 * MAX_MILESTONES] + b[712..720] + b[720..720 + 32 * MAX_ATTEMPTS]
            == b
  {
  }

  lemma ImageSlices(s: State)
    requires |s.receipts| <= MAX_ATTEMPTS
    ensures var b := Image(s);
      && b[..360] == ConfigImage(s.config)
      && b[360..456] == StateHead(s)
      && Table(b, 456, 32, MAX_MILESTONES) == HashRows(s.hashes)
      && b[712..720] == Le64(|s.receipts|)
      && Table(b, 720, 32, MAX_ATTEMPTS) == ReceiptRows(s.receipts)
  {
    var b := Image(s);
    var front := ConfigImage(s.config) + StateHead(s);
    var hashes, count, ledger := Flat(HashRows(s.hashes), 32), Le64(|s.receipts|), Flat(ReceiptRows(s.receipts), 32);
    assert b == front + hashes + (count + ledger);
    TableOfFlat(front, HashRows(s.hashes), 32, count + ledger);
    assert b == (front + hashes + count) + ledger + [];
    TableOfFlat(front + hashes + count, ReceiptRows(s.receipts), 32, []);
  }

  lemma HeadFields(s: State, b: seq<byte>)
    requires |b| == STATE_BYTES && b[360..456] == StateHead(s)
    ensures Nat128(b[360..376]) == s.funded && Nat128(b[376..392]) == s.paid && Nat128(b[392..408]) == s.refunded
    ensures Nat64(b[408..416]) == s.attempts && b[416] == s.pending.kind && b[417] == s.pending.index
            && b[418..424] == Zeros(6)
    ensures Nat128(b[424..440]) == s.pending.amount && Nat64(b[440..448]) == s.pending.attempt
            && b[448..456] == s.phases
  {
    var h := StateHead(s);
    assert h[..16] == Le128(s.funded) && h[16..32] == Le128(s.paid) && h[32..48] == Le128(s.refunded)
           && h[48..56] == Le64(s.attempts);
    assert h[56] == s.pending.kind && h[57] == s.pending.index && h[58..64] == Zeros(6);
    assert h[64..80] == Le128(s.pending.amount) && h[80..88] == Le64(s.pending.attempt) && h[88..] == s.phases
           && h[88..96] == h[88..];
    HeadSlices(b);
    assert b[416] == b[360..456][56] && b[417] == b[360..456][57];
    Le128Inverse(s.funded);
    Le128Inverse(s.paid);
    Le128Inverse(s.refunded);
    Le64Inverse(s.attempts);
    Le128Inverse(s.pending.amount);
    Le64Inverse(s.pending.attempt);
  }

  lemma HeadSlices(b: seq<byte>)
    requires |b| == STATE_BYTES
    ensures var h := b[360..456];
      && h[..16] == b[360..376] && h[16..32] == b[376..392] && h[32..48] == b[392..408] && h[48..56] == b[408..416]
      && h[58..64] == b[418..424] && h[64..80] == b[424..440] && h[80..88] == b[440..448] && h[88..96] == b[448..456]
  {
    Within(b, 360, 456, 0, 16);
    Within(b, 360, 456, 16, 32);
    Within(b, 360, 456, 32, 48);
    Within(b, 360, 456, 48, 56);
    Within(b, 360, 456, 58, 64);
    Within(b, 360, 456, 64, 80);
    Within(b, 360, 456, 80, 88);
    Within(b, 360, 456, 88, 96);
  }

  /** Reading the image of a state gives that state back. */
  lemma ViewOfImage(s: State)
    requires |s.receipts| <= MAX_ATTEMPTS
    ensures Shaped(Image(s)) && View(Image(s)) == s
  {
    ImageSlices(s);
    HeadFields(s, Image(s));
    ViewOfConfigImage(s.config);
    HashesInverse(s.hashes);
    Le64Inverse(|s.receipts|);
    assert HashesFrom(ReceiptRows(s.receipts))[..|s.receipts|] == s.receipts;
  }

  /** `State::decode` as a function: the state of an accepted image. */
  ghost function Decode(b: seq<byte>): Result<State> {
    if Shaped(b) && Valid(View(b)) then Ok(View(b)) else Err(ERR_STATE)
  }

  /** Encode after decode is the identity on accepted images, decode after encode on valid states. */
  lemma ImagesAreCanonical(b: seq<byte>, s: State)
    ensures Decode(b) == Ok(s) <==> Valid(s) && b == Image(s)
  {
    if Valid(s) {
      ViewOfImage(s);
    }
    if Decode(b) == Ok(s) {
      ImageOfView(b);
    }
  }

  method WriteConfigHead(b: array<byte>, c: Config)
    requires Filled(b, []) && 216 <= b.Length
    modifies b
    ensures Filled(b, ConfigHead(c))
  {
    ghost var all: seq<byte> := c.owner;
    WriteNext(b, 0, c.owner, []);
    assert [] + c.owner == all;
    WriteNext(b, 32, c.worker, all);
    all := all + c.worker;
    WriteNext(b, 64, AddressBytes(c.refundTo), all);
    all := all + AddressBytes(c.refundTo);
    WriteNext(b, 128, AddressBytes(c.payTo), all);
    all := all + AddressBytes(c.payTo);
    WriteNext(b, 192, Le128(c.total), all);
    all := all + Le128(c.total);
    WriteNext(b, 208, Le32(c.deadline), all);
    all := all + Le32(c.deadline);
    WriteNext(b, 212, [c.count], all);
    all := all + [c.count];
    SkipZeros(b, all, 3);
    assert all + Zeros(3) == ConfigHead(c);
  }

  /** Writing a table row by row. */
  method WriteRows(b: array<byte>, at: nat, rows: seq<seq<byte>>, width: nat, ghost done: seq<byte>)
    requires Rows(rows, width) && Filled(b, done) && at == |done| && at + width * |rows| <= b.Length
    modifies b
    ensures Filled(b, done + Flat(rows, width))
  {
    assert done + Flat(rows[..0], width) == done;
    for i := 0 to |rows|
      invariant Filled(b, done + Flat(rows[..i], width))
    {
      FlatNext(rows, width, i);
      WriteNext(b, at + width * i, rows[i], done + Flat(rows[..i], width));
      assert done + Flat(rows[..i], width) + rows[i] == done + Flat(rows[..i + 1], width);
    }
    assert rows[..|rows|] == rows;
  }

  /** `Config::encode`, into the front of a zeroed buffer. */
  method WriteConfig(b: array<byte>, c: Config)
    requires Filled(b, []) && CONFIG_BYTES <= b.Length
    modifies b
    ensures Filled(b, ConfigImage(c))
  {
    WriteConfigHead(b, c);
    WriteRows(b, 216, AmountRows(c.amounts), 16, ConfigHead(c));
    WriteNext(b, 344, Le128(c.fuelReserve), ConfigHead(c) + Flat(AmountRows(c.amounts), 16));
  }

  method WriteHead(b: array<byte>, s: State, ghost done: seq<byte>)
    requires Filled(b, done) && |done| == CONFIG_BYTES && b.Length == STATE_BYTES
    modifies b
    ensures Filled(b, done + StateHead(s))
  {
    ghost var all := done;
    WriteNext(b, 360, Le128(s.funded), all);
    all := all + Le128(s.funded);
    WriteNext(b, 376, Le128(s.paid), all);
    all := all + Le128(s.paid);
    WriteNext(b, 392, Le128(s.refunded), all);
    all := all + Le128(s.refunded);
    WriteNext(b, 408, Le64(s.attempts), all);
    all := all + Le64(s.attempts);
    WriteNext(b, 416, [s.pending.kind, s.pending.index], all);
    all := all + [s.pending.kind, s.pending.index];
    SkipZeros(b, all, 6);
    all := all + Zeros(6);
    WriteNext(b, 424, Le128(s.pending.amount), all);
    all := all + Le128(s.pending.amount);
    WriteNext(b, 440, Le64(s.pending.attempt), all);
    all := all + Le64(s.pending.attempt);
    WriteNext(b, 448, s.phases, all);
    assert all + s.phases == done + StateHead(s);
  }

  /** Written receipts followed by untouched zeros are the whole padded ledger. */
  lemma PaddedLedger(receipts: seq<Id32>)
    requires |receipts| <= MAX_ATTEMPTS
    ensures Flat(HashRows(receipts), 32) + Zeros(32 * (MAX_ATTEMPTS - |receipts|)) == Flat(ReceiptRows(receipts), 32)
  {
    assert ReceiptRows(receipts)[..|receipts|] == HashRows(receipts);
    PaddedPrefix(receipts, MAX_ATTEMPTS);
    assert ReceiptRows(receipts)[..MAX_ATTEMPTS] == ReceiptRows(receipts);
  }

  lemma {:induction false} PaddedPrefix(receipts: seq<Id32>, n: nat)
    requires |receipts| <= n <= MAX_ATTEMPTS
    ensures Flat(ReceiptRows(receipts)[..n], 32)
            == Flat(ReceiptRows(receipts)[..|receipts|], 32) + Zeros(32 * (n - |receipts|))
  {
    if n > |receipts| {
      PaddedPrefix(receipts, n - 1);
      FlatNext(ReceiptRows(receipts), 32, n - 1);
      assert Zeros(32 * (n - 1 - |receipts|)) + Zeros(32) == Zeros(32 * (n - |receipts|));
    }
  }

  /** `State::encode`. */
  method Encode(s: State) returns (r: seq<byte>)
    requires |s.receipts| <= MAX_ATTEMPTS
    ensures r == Image(s)
  {
    var b := ZeroBuffer(STATE_BYTES);
    WriteConfig(b, s.config);
    WriteHead(b, s, ConfigImage(s.config));
    ghost var all := ConfigImage(s.config) + StateHead(s);
    WriteRows(b, 456, HashRows(s.hashes), 32, all);
    all := all + Flat(HashRows(s.hashes), 32);
    WriteNext(b, 712, Le64(|s.receipts|), all);
    all := all + Le64(|s.receipts|);
    WriteRows(b, 720, HashRows(s.receipts), 32, all);
    PaddedLedger(s.receipts);
    assert all + Flat(HashRows(s.receipts), 32) + Zeros(32 * (MAX_ATTEMPTS - |s.receipts|))
           == all + Flat(ReceiptRows(s.receipts), 32);
    return b[..];
  }
}
