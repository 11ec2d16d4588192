/** Where each field of a stored or transmitted record stands, byte by byte, and in which order its bytes come. */
module Positions {
  import opened Bytes
  import opened Sdk
  import opened Arithmetic
  import opened Blocks
  import opened Buffers
  import RevenueCore
  import VaultState
  import VaultCodec
  import EscrowState
  import EscrowSpec
  import EscrowCodec
  import EscrowReceiver
  import VestingCore
  import VestingState
  import VestingCodec
  import VestingReceiver
  import RevenueReceiver
  import AuditCore
  import AuditLayout
  import SdkCurrencies

  /** `part` stands in `b` from `at` on. */
  predicate Has(b: seq<byte>, at: nat, part: seq<byte>) {
    at + |part| <= |b| && b[at..at + |part|] == part
  }

  lemma Fields(parts: seq<byte>, before: seq<byte>, part: seq<byte>, after: seq<byte>)
    requires parts == before + part + after
    ensures Has(parts, |before|, part)
  {
  }

  /** What was appended to a prefix of `b` stands right behind it. */
  lemma Appended(b: seq<byte>, before: seq<byte>, part: seq<byte>)
    requires before + part <= b
    ensures before <= b && Has(b, |before|, part)
  {
    assert b[..|before + part|] == before + part;
    assert b[..|before|] == b[..|before + part|][..|before|];
    assert b[|before|..|before| + |part|] == b[..|before + part|][|before|..];
  }

  /** An address: its DApp, then its account. */
  predicate HasAddress(b: seq<byte>, at: nat, a: Address) {
    Has(b, at, a.dapp) && Has(b, at + 32, a.account)
  }

  lemma AddressStands(b: seq<byte>, at: nat, a: Address)
    requires Has(b, at, AddressBytes(a))
    ensures HasAddress(b, at, a)
  {
    var s := b[at..at + 64];
    assert s[..32] == a.dapp && s[32..] == a.account;
    Within(b, at, at + 64, 0, 32);
    Within(b, at, at + 64, 32, 64);
  }

  // Numbers, byte order, currencies.

  /** Byte `k` of a number's bytes is its digit of weight 256 to the power `k`. */
  lemma {:induction false} LittleEndian(n: nat, width: nat, k: nat)
    requires k < width
    ensures Le(n, width)[k] == n / Pow256(k) % 0x100
  {
    if k > 0 {
      LittleEndian(n / 0x100, width - 1, k - 1);
      DivideTwice(n, Pow256(k - 1));
    }
  }

  lemma DivideTwice(n: nat, b: nat)
    requires b > 0
    ensures n / 0x100 / b == n / (0x100 * b)
  {
    var q, r := n / 0x100 / b, n / 0x100 % b;
    assert n / 0x100 == q * b + r;
    assert q * (0x100 * b) == 0x100 * (q * b);
    DivisionIs(n, 0x100 * b, q, 0x100 * r + n % 0x100);
  }

  /** One byte string comes before another at the first difference, or as a proper beginning of it. */
  lemma {:induction false} LessIsFirstDifference(a: seq<byte>, b: seq<byte>)
    ensures Less(a, b) <==>
            exists k | 0 <= k <= |a| :: k < |b| && a[..k] == b[..k] && (k == |a| || a[k] < b[k])
    decreases |a|
  {
    if a != [] && b != [] && a[0] == b[0] {
      LessIsFirstDifference(a[1..], b[1..]);
      if Less(a[1..], b[1..]) {
        var k :| 0 <= k <= |a| - 1 && k < |b| - 1 && a[1..][..k] == b[1..][..k]
                 && (k == |a| - 1 || a[1..][k] < b[1..][k]);
        assert a[..k + 1] == [a[0]] + a[1..][..k] && b[..k + 1] == [b[0]] + b[1..][..k];
        assert 0 <= k + 1 <= |a|;
      }
      if k :| 0 <= k <= |a| && k < |b| && a[..k] == b[..k] && (k == |a| || a[k] < b[k]) {
        assert k > 0;
        assert a[1..][..k - 1] == a[..k][1..] && b[1..][..k - 1] == b[..k][1..];
        assert 0 <= k - 1 <= |a| - 1;
      }
    } else if a != [] && b != [] && a[0] < b[0] {
      assert a[..0] == b[..0];
    } else if a == [] && b != [] {
      assert a[..0] == b[..0];
    } else if a != [] && b != [] {
      forall k | 0 < k <= |a| && k < |b| ensures a[..k] != b[..k] {
        assert a[..k][0] != b[..k][0];
      }
    }
  }

  /** The principal of a list is the amount of its first entry with identifier zero, or nothing. */
  lemma {:induction false} PrincipalIsFirstZero(extra: seq<Currency>, k: nat)
    requires k <= |extra| && forall j | 0 <= j < k :: extra[j].id != 0
    ensures k == |extra| ==> Principal(extra) == 0
    ensures k < |extra| && extra[k].id == 0 ==> Principal(extra) == extra[k].amount
  {
    if k > 0 {
      assert forall j | 0 <= j < k - 1 :: extra[1..][j] == extra[j + 1];
      PrincipalIsFirstZero(extra[1..], k - 1);
    }
  }

  lemma CurrencyStands(c: Currency)
    ensures var b := SdkCurrencies.CurrencyBytes(c); Has(b, 0, Le32(c.id)) && Has(b, 4, Le128(c.amount))
  {
  }

  // Payment bodies.

  lemma VaultPaymentStands(i: byte, nonce: u64, amount: u128)
    ensures var b := RevenueCore.PaymentBody(i, nonce, amount);
      |b| == 25 && b[0] == i && Has(b, 1, Le64(nonce)) && Has(b, 9, Le128(amount))
  {
  }

  lemma VestingPaymentStands(i: byte, kind: byte, nonce: u64, amount: u128)
    ensures var b := VestingCore.PaymentBody(i, kind, nonce, amount);
      |b| == 26 && b[0] == i && b[1] == kind && Has(b, 2, Le64(nonce)) && Has(b, 10, Le128(amount))
  {
  }

  lemma EscrowPaymentStands(p: EscrowState.Pending)
    ensures var b := EscrowSpec.PaymentBody(p);
      && |b| == 32 && Has(b, 0, [0x42, 0x45, 0x50, 0x31]) && b[4] == p.kind && b[5] == p.index && b[6] == b[7] == 0
      && Has(b, 8, Le64(p.attempt)) && Has(b, 16, Le128(p.amount))
  {
  }

  lemma ProposalBodyStands(p: VaultState.Proposal)
    ensures var b := VaultState.ProposalBody(p);
      |b| == 25 && Has(b, 0, Le64(p.nonce)) && b[8] == p.action && Has(b, 9, Le128(p.value))
  {
  }

  // Stored records of the vault.

  lemma MemberStands(m: VaultState.Member)
    ensures var b := VaultCodec.MemberRow(m);
      && |b| == 104 && Has(b, 0, m.key) && HasAddress(b, 32, m.destination) && Has(b, 96, Le16(m.weight))
      && Has(b, 98, Zeros(6))
  {
    var b := VaultCodec.MemberRow(m);
    AddressStands(b, 32, m.destination);
    Fields(b, m.key + AddressBytes(m.destination) + Le16(m.weight), Zeros(6), []);
  }

  lemma MemberStateStands(m: VaultState.MemberState)
    ensures var b := VaultCodec.StateRow(m);
      && |b| == 104 && Has(b, 0, Le128(m.claimable)) && Has(b, 16, Le128(m.paid)) && Has(b, 32, Le128(m.pending))
      && Has(b, 48, Le64(m.nonce)) && Has(b, 56, Le64(m.afterLt)) && Has(b, 64, Le64(m.lastLt))
      && Has(b, 72, m.lastHash)
  {
  }

  lemma ProposalStands(p: VaultState.Proposal)
    ensures var b := VaultCodec.ProposalImage(p);
      && |b| == 48 && Has(b, 0, Le64(p.nonce)) && b[8] == p.action && b[9] == p.votes && Has(b, 10, Zeros(6))
      && Has(b, 16, Le128(p.value)) && Has(b, 32, Le32(p.created)) && Has(b, 36, Le32(p.ready))
      && Has(b, 40, Le32(p.expires)) && Has(b, 44, Zeros(4))
  {
  }

  // Stored records of the vesting contract.

  lemma TermsStand(x: VestingCore.Schedule)
    ensures var b := VestingCodec.TermsBytes(x);
      && |b| == 32 && Has(b, 0, Le128(x.total)) && Has(b, 16, Le32(x.start)) && Has(b, 20, Le32(x.cliff))
      && Has(b, 24, Le32(x.end)) && Has(b, 28, Le32(x.step))
  {
  }

  lemma StreamStands(x: VestingState.Stream)
    ensures var b := VestingCodec.StreamRow(x);
      && |b| == 200 && Has(b, 0, x.key) && HasAddress(b, 32, x.payout) && HasAddress(b, 96, x.refund)
      && Has(b, 160, VestingCodec.TermsBytes(x.terms))
      && b[192] == (if x.revocable then 1 else 0) && Has(b, 193, Zeros(7))
  {
    hide VestingCodec.TermsBytes;
    var b := VestingCodec.StreamRow(x);
    AddressStands(b, 32, x.payout);
    AddressStands(b, 96, x.refund);
  }

  lemma LaneStands(l: VestingState.Lane)
    ensures var b := VestingCodec.LaneBytes(l);
      && |b| == 72 && Has(b, 0, Le128(l.pending)) && Has(b, 16, Le64(l.nonce)) && Has(b, 24, Le64(l.afterLt))
      && Has(b, 32, Le64(l.lastLt)) && Has(b, 40, l.lastHash)
  {
  }

  lemma ProgressStands(p: VestingState.Progress)
    ensures var b := VestingCodec.ProgressBytes(p);
      && |b| == 200 && b[0] == (if p.cancelled then 1 else 0) && Has(b, 1, Zeros(3)) && Has(b, 4, Le32(p.cutoff))
      && Has(b, 8, Le128(p.cap)) && Has(b, 24, Le128(p.claimed)) && Has(b, 40, Le128(p.refunded))
      && Has(b, 56, VestingCodec.LaneBytes(p.claims)) && Has(b, 128, VestingCodec.LaneBytes(p.refunds))
  {
    hide VestingCodec.LaneBytes;
  }

  // The receivers and the audit ledger.

  lemma RevenueReceiverStands(r: RevenueReceiver.Receiver)
    ensures var b := RevenueReceiver.Image(r);
      && |b| == 224 && Has(b, 0, r.owner) && HasAddress(b, 32, r.audit) && HasAddress(b, 96, r.vault)
      && b[160] == r.index && b[161] == (if r.reject then 1 else 0) && Has(b, 162, Zeros(6))
      && Has(b, 168, Le64(r.lastNonce)) && Has(b, 176, Le128(r.total)) && Has(b, 192, Le64(r.count))
      && Has(b, 200, Le128(r.fuel)) && b[216] == (if r.duplicate then 1 else 0) && Has(b, 217, Zeros(7))
  {
    var b := RevenueReceiver.Image(r);
    AddressStands(b, 32, r.audit);
    AddressStands(b, 96, r.vault);
  }

  lemma EscrowReceiverStands(r: EscrowReceiver.Receiver)
    ensures var b := EscrowReceiver.Image(r);
      && |b| == 136 && Has(b, 0, r.owner) && HasAddress(b, 32, r.bound) && Has(b, 96, Le64(r.lastAttempt))
      && Has(b, 104, Le128(r.received)) && Has(b, 120, Le64(r.count)) && b[128] == (if r.reject then 1 else 0)
      && Has(b, 129, Zeros(7))
  {
    AddressStands(EscrowReceiver.Image(r), 32, r.bound);
  }

  lemma VestingReceiverStands(r: VestingReceiver.Receiver, i: nat)
    requires i < 8
    ensures var b := VestingReceiver.Image(r);
      && |b| == 368 && Has(b, 0, r.owner) && HasAddress(b, 32, r.bound)
      && b[96] == (if r.reject then 1 else 0) && b[97] == r.kind && b[98] == r.index && Has(b, 99, Zeros(5))
      && Has(b, 104 + 32 * i, VestingReceiver.SlotBytes(r.slots[i])) && Has(b, 360, Zeros(8))
  {
    hide Flat, VestingReceiver.SlotBytes;
    var b, h := VestingReceiver.Image(r), VestingReceiver.Head(r);
    AddressStands(h, 32, r.bound);
    assert b[..104] == h;
    PrefixSlices(b, h);
    assert forall k | 0 <= k < 104 :: b[k] == b[..104][k];
    FlatRow(VestingReceiver.SlotRows(r.slots), 32, i);
    assert b[104..360] == Flat(VestingReceiver.SlotRows(r.slots), 32);
    Within(b, 104, 360, 32 * i, 32 * i + 32);
  }

  lemma SlotStands(s: VestingReceiver.Slot)
    ensures var b := VestingReceiver.SlotBytes(s);
      |b| == 32 && Has(b, 0, Le64(s.lastNonce)) && Has(b, 8, Le128(s.total)) && Has(b, 24, Le64(s.count))
  {
  }

  lemma RecordStands(r: AuditCore.Record)
    ensures var b := AuditLayout.RecordBytes(r);
      |b| == 32 && Has(b, 0, Le64(r.lastNonce)) && Has(b, 8, Le128(r.total)) && Has(b, 24, Le64(r.count))
  {
  }

  // Whole images of the three main contracts.

  /** The vault: signers, timing, reserve and count; 16 members; totals; the proposal; 16 member states. */
  lemma VaultStands(s: VaultState.State, i: nat)
    requires i < 16
    ensures var b, c := VaultCodec.Image(s), s.config;
      && |b| == 3560 && Has(b, 0, c.signers[0]) && Has(b, 32, c.signers[1]) && Has(b, 64, c.signers[2])
      && Has(b, 96, Le32(c.delay)) && Has(b, 100, Le32(c.voteWindow)) && Has(b, 104, Le128(s.fuelLimit))
      && b[120] == c.count && Has(b, 121, Zeros(7))
      && Has(b, 128 + 104 * i, VaultCodec.MemberRow(c.members[i]))
      && Has(b, 1792, Le128(s.received)) && Has(b, 1808, Le128(s.paid)) && Has(b, 1824, Le64(s.claimNonce))
      && Has(b, 1832, Le64(s.proposalNonce)) && b[1840] == (if s.paused then 1 else 0) && Has(b, 1841, Zeros(7))
      && Has(b, 1848, VaultCodec.ProposalImage(s.proposal))
      && Has(b, 1896 + 104 * i, VaultCodec.StateRow(s.members[i]))
  {
    hide VaultCodec.MemberRow, VaultCodec.StateRow, VaultCodec.ProposalImage, Flat, Cut, VaultCodec.Image,
         VaultCodec.ConfigImage, VaultCodec.ConfigHead, VaultCodec.Totals, Le;
    var b, c := VaultCodec.Image(s), VaultCodec.StoredConfig(s);
    VaultCodec.ImageSlices(s);
    VaultCodec.TotalsFields(s, b);
    TableRow(b, 1896, 104, 16, i);
    VaultConfigStands(c, i);
    assert forall k, n: nat | 0 <= k <= n <= 1792 :: b[..1792][k..n] == b[k..n];
    assert b[120] == b[..1792][120];
  }

  lemma VaultConfigStands(c: VaultState.Config, i: nat)
    requires i < 16
    ensures var b := VaultCodec.ConfigImage(c);
      && |b| == 1792 && Has(b, 0, c.signers[0]) && Has(b, 32, c.signers[1]) && Has(b, 64, c.signers[2])
      && Has(b, 96, Le32(c.delay)) && Has(b, 100, Le32(c.voteWindow)) && Has(b, 104, Le128(c.initialFuel))
      && b[120] == c.count && Has(b, 121, Zeros(7)) && Has(b, 128 + 104 * i, VaultCodec.MemberRow(c.members[i]))
  {
    hide VaultCodec.MemberRow, Flat, VaultCodec.ConfigHead, Le;
    var b := VaultCodec.ConfigImage(c);
    assert b[..128] == VaultCodec.ConfigHead(c);
    VaultCodec.ConfigHeadFields(c, b);
    FlatRow(VaultCodec.MemberRows(c.members), 104, i);
    assert b[128..1792] == Flat(VaultCodec.MemberRows(c.members), 104);
    Within(b, 128, 1792, 104 * i, 104 * i + 104);
  }

  /** The escrow: parties, terms, 8 amounts, fuel; totals and the transfer under way; 8 hashes; the receipts. */
  lemma EscrowStands(s: EscrowState.State, i: nat, k: nat)
    requires |s.receipts| <= 64 && i < 8 && k < 64
    ensures var b, c := EscrowCodec.Image(s), s.config;
      && |b| == 2768 && Has(b, 0, c.owner) && Has(b, 32, c.worker) && HasAddress(b, 64, c.refundTo)
      && HasAddress(b, 128, c.payTo) && Has(b, 192, Le128(c.total)) && Has(b, 208, Le32(c.deadline))
      && b[212] == c.count && Has(b, 213, Zeros(3)) && Has(b, 216 + 16 * i, Le128(c.amounts[i]))
      && Has(b, 344, Le128(c.fuelReserve))
    ensures var b, p := EscrowCodec.Image(s), s.pending;
      && Has(b, 360, Le128(s.funded)) && Has(b, 376, Le128(s.paid)) && Has(b, 392, Le128(s.refunded))
      && Has(b, 408, Le64(s.attempts)) && b[416] == p.kind && b[417] == p.index && Has(b, 418, Zeros(6))
      && Has(b, 424, Le128(p.amount)) && Has(b, 440, Le64(p.attempt)) && b[448 + i] == s.phases[i]
      && Has(b, 456 + 32 * i, s.hashes[i]) && Has(b, 712, Le64(|s.receipts|))
      && Has(b, 720 + 32 * k, if k < |s.receipts| then s.receipts[k] else ZERO32)
  {
    hide Flat, Cut, EscrowCodec.Image, EscrowCodec.ConfigImage, EscrowCodec.StateHead, Le;
    var b := EscrowCodec.Image(s);
    EscrowCodec.ImageSlices(s);
    EscrowCodec.HeadFields(s, b);
    TableRow(b, 456, 32, 8, i);
    TableRow(b, 720, 32, 64, k);
    EscrowConfigStands(s.config, i);
    assert forall j, n: nat | 0 <= j <= n <= 360 :: b[..360][j..n] == b[j..n];
    assert b[212] == b[..360][212] && b[448 + i] == b[448..456][i];
  }

  lemma EscrowConfigStands(c: EscrowState.Config, i: nat)
    requires i < 8
    ensures var b := EscrowCodec.ConfigImage(c);
      && |b| == 360 && Has(b, 0, c.owner) && Has(b, 32, c.worker) && HasAddress(b, 64, c.refundTo)
      && HasAddress(b, 128, c.payTo) && Has(b, 192, Le128(c.total)) && Has(b, 208, Le32(c.deadline))
      && b[212] == c.count && Has(b, 213, Zeros(3)) && Has(b, 216 + 16 * i, Le128(c.amounts[i]))
      && Has(b, 344, Le128(c.fuelReserve))
  {
    hide Flat, EscrowCodec.ConfigHead, Le;
    var b := EscrowCodec.ConfigImage(c);
    assert b[..216] == EscrowCodec.ConfigHead(c);
    EscrowCodec.ConfigHeadFields(c, b);
    AddressStands(b, 64, c.refundTo);
    AddressStands(b, 128, c.payTo);
    FlatRow(EscrowCodec.AmountRows(c.amounts), 16, i);
    assert b[216..344] == Flat(EscrowCodec.AmountRows(c.amounts), 16);
    Within(b, 216, 344, 16 * i, 16 * i + 16);
  }

  /** The vesting contract: owner, fuel, count; 8 streams; the clock; the progress of 8 streams. */
  lemma VestingStands(s: VestingState.State, i: nat)
    requires i < 8
    ensures var b, c := VestingCodec.Image(s), s.config;
      && |b| == 3272 && Has(b, 0, c.owner) && Has(b, 32, Le128(c.fuel)) && b[48] == c.count && Has(b, 49, Zeros(7))
      && Has(b, 56 + 200 * i, VestingCodec.StreamRow(c.streams[i]))
      && b[1656] == (if s.funded then 1 else 0) && Has(b, 1657, Zeros(3)) && Has(b, 1660, Le32(s.lastTime))
      && Has(b, 1664, Le64(s.nonce)) && Has(b, 1672 + 200 * i, VestingCodec.ProgressBytes(s.progress[i]))
  {
    hide Flat, Cut, VestingCodec.Image, VestingCodec.ConfigImage, VestingCodec.Clock, VestingCodec.StreamRow,
         VestingCodec.ProgressBytes, Le;
    var b := VestingCodec.Image(s);
    VestingCodec.ImageSlices(s);
    VestingCodec.ClockFields(s, b);
    TableRow(b, 1672, 200, 8, i);
    VestingConfigStands(s.config, i);
    assert forall k, n: nat | 0 <= k <= n <= 1656 :: b[..1656][k..n] == b[k..n];
    assert b[48] == b[..1656][48];
  }

  lemma VestingConfigStands(c: VestingState.Config, i: nat)
    requires i < 8
    ensures var b := VestingCodec.ConfigImage(c);
      && |b| == 1656 && Has(b, 0, c.owner) && Has(b, 32, Le128(c.fuel)) && b[48] == c.count && Has(b, 49, Zeros(7))
      && Has(b, 56 + 200 * i, VestingCodec.StreamRow(c.streams[i]))
  {
    hide Flat, VestingCodec.ConfigHead, VestingCodec.StreamRow, Le;
    var b := VestingCodec.ConfigImage(c);
    assert b[..56] == VestingCodec.ConfigHead(c);
    VestingCodec.ConfigHeadFields(c, b);
    FlatRow(VestingCodec.StreamRows(c.streams), 200, i);
    assert b[56..1656] == Flat(VestingCodec.StreamRows(c.streams), 200);
    Within(b, 56, 1656, 200 * i, 200 * i + 200);
  }

  /** The audit ledger in both stored forms: header, sources, records, and zeros everywhere else. */
  lemma LedgerStands(g: AuditCore.Ledger, i: nat)
    requires AuditCore.Sized(g) && i < |g.sources|
    ensures var b, n := AuditLayout.Image(AuditLayout.Legacy, g), |g.sources|;
      && |b| == 65_540 && Has(b, 0, Le32(65_536)) && Has(b, 4, g.owner) && b[36] == n && Has(b, 37, Zeros(31))
      && HasAddress(b, 68 + 64 * i, g.sources[i]) && Has(b, 2052 + 32 * i, AuditLayout.RecordBytes(g.records[i]))
    ensures var b, n := AuditLayout.Image(AuditLayout.Compact, g), |g.sources|;
      && |b| == 44 + 96 * n && Has(b, 0, Le32(40 + 96 * n)) && Has(b, 4, [0x41, 0x55, 0x43, 0x32]) && Has(b, 8, g.owner)
      && b[40] == n && Has(b, 41, Zeros(3))
      && HasAddress(b, 44 + 64 * i, g.sources[i])
      && Has(b, 44 + 64 * n + 32 * i, AuditLayout.RecordBytes(g.records[i]))
  {
    hide Has, HasAddress, AuditLayout.Image, AuditLayout.RecordBytes, Le;
    LegacyHeaderStands(g);
    CompactHeaderStands(g);
    RowsStand(AuditLayout.Legacy, g, i);
    RowsStand(AuditLayout.Compact, g, i);
  }

  lemma LegacyHeaderStands(g: AuditCore.Ledger)
    requires AuditCore.Sized(g)
    ensures var b, n := AuditLayout.Image(AuditLayout.Legacy, g), |g.sources|;
      |b| == 65_540 && Has(b, 0, Le32(65_536)) && Has(b, 4, g.owner) && b[36] == n && Has(b, 37, Zeros(31))
  {
    hide Flat, Le, AuditLayout.Image;
    var l := AuditLayout.Legacy;
    var b, h := AuditLayout.Image(l, g), AuditLayout.Header(l, g.owner, |g.sources|);
    AuditLayout.ImageParts(l, g);
    assert h[..4] == Le32(65_536) && h[4..36] == g.owner && h[36] == |g.sources| && h[37..68] == Zeros(31);
    PrefixSlices(b, h);
    assert b[36] == b[..68][36];
  }

  lemma CompactHeaderStands(g: AuditCore.Ledger)
    requires AuditCore.Sized(g)
    ensures var b, n := AuditLayout.Image(AuditLayout.Compact, g), |g.sources|;
      && |b| == 44 + 96 * n && Has(b, 0, Le32(40 + 96 * n)) && Has(b, 4, [0x41, 0x55, 0x43, 0x32]) && Has(b, 8, g.owner)
      && b[40] == n && Has(b, 41, Zeros(3))
  {
    hide Flat, Le, AuditLayout.Image;
    var l := AuditLayout.Compact;
    var b, h := AuditLayout.Image(l, g), AuditLayout.Header(l, g.owner, |g.sources|);
    AuditLayout.ImageParts(l, g);
    assert h[..4] == Le32(40 + 96 * |g.sources|) && h[4..8] == AuditLayout.AUC2 && h[8..40] == g.owner
        && h[40] == |g.sources| && h[41..44] == Zeros(3);
    PrefixSlices(b, h);
    assert b[40] == b[..44][40];
  }

  lemma RowsStand(l: AuditLayout.Layout, g: AuditCore.Ledger, i: nat)
    requires AuditCore.Sized(g) && i < |g.sources|
    ensures var b := AuditLayout.Image(l, g);
      && HasAddress(b, AuditLayout.SourceBase(l) + 64 * i, g.sources[i])
      && Has(b, AuditLayout.RecordBase(l, |g.sources|) + 32 * i, AuditLayout.RecordBytes(g.records[i]))
  {
    hide Flat, AuditLayout.Image, AuditLayout.RecordBytes, AuditLayout.Header, Has, HasAddress;
    var b, n := AuditLayout.Image(l, g), |g.sources|;
    AuditLayout.ImageParts(l, g);
    RowStands(b, AuditLayout.SourceBase(l), AuditLayout.SourceRows(g.sources), 64, i);
    RowStands(b, AuditLayout.RecordBase(l, n), AuditLayout.RecordRows(g.records), 32, i);
    AddressStands(b, AuditLayout.SourceBase(l) + 64 * i, g.sources[i]);
  }

  /** A row of a table that stands in some bytes. */
  lemma RowStands(b: seq<byte>, at: nat, rows: seq<seq<byte>>, width: nat, i: nat)
    requires Rows(rows, width) && i < |rows| && at + width * |rows| <= |b|
    requires b[at..at + width * |rows|] == Flat(rows, width)
    ensures Has(b, at + width * i, rows[i])
  {
    hide Flat;
    FlatRow(rows, width, i);
    var end, row := width * |rows|, width * i;
    Within(b, at, at + end, row, row + width);
  }
}
