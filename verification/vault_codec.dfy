/** The vault's stored image: fixed layout, canonical in both directions up to the shared reserve slot. */
module VaultCodec {
  import opened Bytes
  import opened Sdk
  import opened Buffers
  import opened Blocks
  import opened RevenueCore
  import opened VaultState

  const CONFIG_BYTES := 1792
  const STATE_BYTES := 3560
  const ROW := 104

  function MemberRow(m: Member): (b: seq<byte>)
    ensures |b| == ROW
  {
    m.key + AddressBytes(m.destination) + Le16(m.weight) + Zeros(6)
  }

  predicate PaddedRow(b: seq<byte>) {
    |b| == ROW && b[98..104] == Zeros(6)
  }

  function MemberOf(b: seq<byte>): (m: Member)
    requires PaddedRow(b)
    ensures MemberRow(m) == b
  {
    assert b == b[..32] + b[32..96] + b[96..98] + b[98..104];
    Member(b[..32], AddressAt(b[32..96]), Nat16(b[96..98]))
  }

  lemma MemberInverse(m: Member)
    ensures PaddedRow(MemberRow(m)) && MemberOf(MemberRow(m)) == m
  {
    var b := MemberRow(m);
    assert b[..32] == m.key && b[32..96] == AddressBytes(m.destination) && b[96..98] == Le16(m.weight)
           && b[98..104] == Zeros(6);
    AddressInverse(m.destination);
    Le16Inverse(m.weight);
  }

  function MemberRows(ms: seq<Member>): (rows: seq<seq<byte>>)
    ensures |rows| == |ms| && Rows(rows, ROW)
  {
    seq(|ms|, i requires 0 <= i < |ms| => MemberRow(ms[i]))
  }

  function SignerBytes(c: Config, n: nat): (b: seq<byte>)
    requires n <= 3
    ensures |b| == 32 * n
  {
    if n == 0 then [] else SignerBytes(c, n - 1) + c.signers[n - 1]
  }

  function ConfigHead(c: Config): (b: seq<byte>)
    ensures |b| == 128
  {
    SignerBytes(c, 3) + Le32(c.delay) + Le32(c.voteWindow) + Le128(c.initialFuel)
    + [c.count] + Zeros(7)
  }

  function ConfigImage(c: Config): (b: seq<byte>)
    ensures |b| == CONFIG_BYTES
  {
    ConfigHead(c) + Flat(MemberRows(c.members), ROW)
  }

  predicate ShapedConfig(b: seq<byte>) {
    && |b| == CONFIG_BYTES
    && b[121..128] == Zeros(7)
    && forall i | 0 <= i < MAX_MEMBERS :: PaddedRow(Table(b, 128, ROW, MAX_MEMBERS)[i])
  }

  function ViewConfig(b: seq<byte>): Config
    requires ShapedConfig(b)
  {
    var rows := Table(b, 128, ROW, MAX_MEMBERS);
    Config([b[..32], b[32..64], b[64..96]], Nat32(b[96..100]), Nat32(b[100..104]), Nat128(b[104..120]), b[120],
           seq(MAX_MEMBERS, i requires 0 <= i < MAX_MEMBERS => MemberOf(rows[i])))
  }

  lemma ConfigImageOfView(b: seq<byte>)
    requires ShapedConfig(b)
    ensures ConfigImage(ViewConfig(b)) == b
  {
    var rows := Table(b, 128, ROW, MAX_MEMBERS);
    assert MemberRows(ViewConfig(b).members) == rows;
    FlatOfTable(b, 128, ROW, MAX_MEMBERS);
    ConfigHeadOfView(b);
    assert b == b[..128] + b[128..128 + ROW * MAX_MEMBERS];
  }

  lemma ConfigHeadOfView(b: seq<byte>)
    requires ShapedConfig(b)
    ensures ConfigHead(ViewConfig(b)) == b[..128]
  {
    var c := ViewConfig(b);
    assert SignerBytes(c, 1) == b[..32];
    assert SignerBytes(c, 3) == b[..32] + b[32..64] + b[64..96];
    assert b[..128] == b[..32] + b[32..64] + b[64..96] + b[96..100] + b[100..104] + b[104..120] + [b[120]]
           + b[121..128];
  }

  lemma ViewOfConfigImage(c: Config)
    ensures ShapedConfig(ConfigImage(c)) && ViewConfig(ConfigImage(c)) == c
  {
    var b, head := ConfigImage(c), ConfigHead(c);
    assert b == head + Flat(MemberRows(c.members), ROW) + [];
    TableOfFlat(head, MemberRows(c.members), ROW, []);
    forall i | 0 <= i < MAX_MEMBERS
      ensures PaddedRow(MemberRows(c.members)[i]) && MemberOf(MemberRows(c.members)[i]) == c.members[i]
    {
      MemberInverse(c.members[i]);
    }
    ConfigHeadFields(c, b);
    assert ViewConfig(b).members == c.members;
    assert ViewConfig(b).signers == c.signers;
  }

  lemma ConfigHeadFields(c: Config, b: seq<byte>)
    requires |b| >= 128 && b[..128] == ConfigHead(c)
    ensures b[..32] == c.signers[0] && b[32..64] == c.signers[1] && b[64..96] == c.signers[2]
    ensures Nat32(b[96..100]) == c.delay && Nat32(b[100..104]) == c.voteWindow && Nat128(b[104..120]) == c.initialFuel
    ensures b[120] == c.count && b[121..128] == Zeros(7)
  {
    var h := ConfigHead(c);
    assert SignerBytes(c, 2) == SignerBytes(c, 1) + c.signers[1];
    assert h[..32] == c.signers[0] && h[32..64] == c.signers[1] && h[64..96] == c.signers[2];
    assert h[96..100] == Le32(c.delay) && h[100..104] == Le32(c.voteWindow) && h[104..120] == Le128(c.initialFuel);
    assert h[120] == c.count && h[121..128] == Zeros(7);
    Le32Inverse(c.delay);
    Le32Inverse(c.voteWindow);
    Le128Inverse(c.initialFuel);
    PrefixSlices(b, h);
  }

  function ProposalImage(p: Proposal): (b: seq<byte>)
    ensures |b| == 48
  {
    Le64(p.nonce) + [p.action, p.votes] + Zeros(6) + Le128(p.value) + Le32(p.created) + Le32(p.ready)
      + Le32(p.expires) + Zeros(4)
  }

  predicate ShapedProposal(b: seq<byte>) {
    |b| == 48 && b[10..16] == Zeros(6) && b[44..48] == Zeros(4)
  }

  function ViewProposal(b: seq<byte>): (p: Proposal)
    requires ShapedProposal(b)
    ensures ProposalImage(p) == b
  {
    assert b == b[..8] + [b[8], b[9]] + b[10..16] + b[16..32] + b[32..36] + b[36..40] + b[40..44] + b[44..48];
    Proposal(Nat64(b[..8]), b[8], b[9], Nat128(b[16..32]), Nat32(b[32..36]), Nat32(b[36..40]), Nat32(b[40..44]))
  }

  lemma ViewOfProposalImage(p: Proposal)
    ensures ShapedProposal(ProposalImage(p)) && ViewProposal(ProposalImage(p)) == p
  {
    var b := ProposalImage(p);
    assert b[..8] == Le64(p.nonce) && b[8] == p.action && b[9] == p.votes && b[10..16] == Zeros(6)
           && b[16..32] == Le128(p.value);
    assert b[32..36] == Le32(p.created) && b[36..40] == Le32(p.ready) && b[40..44] == Le32(p.expires)
           && b[44..48] == Zeros(4);
    Le64Inverse(p.nonce);
    Le128Inverse(p.value);
    Le32Inverse(p.created);
    Le32Inverse(p.ready);
    Le32Inverse(p.expires);
  }

  function StateRow(m: MemberState): (b: seq<byte>)
    ensures |b| == ROW
  {
    Le128(m.claimable) + Le128(m.paid) + Le128(m.pending) + Le64(m.nonce) + Le64(m.afterLt) + Le64(m.lastLt)
      + m.lastHash
  }

  function StateOf(b: seq<byte>): (m: MemberState)
    requires |b| == ROW
    ensures StateRow(m) == b
  {
    assert b == b[..16] + b[16..32] + b[32..48] + b[48..56] + b[56..64] + b[64..72] + b[72..104];
    MemberState(Nat128(b[..16]), Nat128(b[16..32]), Nat128(b[32..48]), Nat64(b[48..56]), Nat64(b[56..64]),
                Nat64(b[64..72]), b[72..104])
  }

  lemma StateInverse(m: MemberState)
    ensures StateOf(StateRow(m)) == m
  {
    var b := StateRow(m);
    assert b[..16] == Le128(m.claimable) && b[16..32] == Le128(m.paid) && b[32..48] == Le128(m.pending);
    assert b[48..56] == Le64(m.nonce) && b[56..64] == Le64(m.afterLt) && b[64..72] == Le64(m.lastLt);
    assert b[72..] == m.lastHash;
    assert b[72..104] == b[72..];
    Le128Inverse(m.claimable);
    Le128Inverse(m.paid);
    Le128Inverse(m.pending);
    Le64Inverse(m.nonce);
    Le64Inverse(m.afterLt);
    Le64Inverse(m.lastLt);
  }

  function StateRows(ms: seq<MemberState>): (rows: seq<seq<byte>>)
    ensures |rows| == |ms| && Rows(rows, ROW)
  {
    seq(|ms|, i requires 0 <= i < |ms| => StateRow(ms[i]))
  }

  function Flag(b: bool): byte { if b then 1 else 0 }

  /** The 56 bytes of totals between the configuration and the proposal. */
  function Totals(s: State): (b: seq<byte>)
    ensures |b| == 56
  {
    Le128(s.received) + Le128(s.paid) + Le64(s.claimNonce) + Le64(s.proposalNonce) + [Flag(s.paused)] + Zeros(7)
  }

  /** The stored configuration carries the current reserve in its initial-reserve slot. */
  function StoredConfig(s: State): Config { s.config.(initialFuel := s.fuelLimit) }

  function Image(s: State): (b: seq<byte>)
    ensures |b| == STATE_BYTES
  {
    ConfigImage(StoredConfig(s)) + Totals(s) + ProposalImage(s.proposal) + Flat(StateRows(s.members), ROW)
  }

  predicate Shaped(b: seq<byte>) {
    && |b| == STATE_BYTES
    && ShapedConfig(b[..1792])
    && b[1840] <= 1 && b[1841..1848] == Zeros(7)
    && ShapedProposal(b[1848..1896])
  }

  function View(b: seq<byte>): State
    requires Shaped(b)
  {
    var c := ViewConfig(b[..1792]);
    var rows := Table(b, 1896, ROW, MAX_MEMBERS);
    State(c, Nat128(b[1792..1808]), Nat128(b[1808..1824]), Nat64(b[1824..1832]), Nat64(b[1832..1840]), b[1840] == 1,
          ViewProposal(b[1848..1896]), seq(MAX_MEMBERS, i requires 0 <= i < MAX_MEMBERS => StateOf(rows[i])),
          c.initialFuel)
  }

  /** Re-encoding what was read from a well-shaped image gives the same bytes. */
  lemma ImageOfView(b: seq<byte>)
    requires Shaped(b)
    ensures Image(View(b)) == b
  {
    hide ViewConfig, ConfigImage, Totals, ViewProposal, ProposalImage, StateOf, StateRows, Table, Flat;
    ConfigImageOfView(b[..1792]);
    StoredConfigOfView(b);
    TotalsOfView(b);
    StateRowsOfView(b);
    FlatOfTable(b, 1896, ROW, MAX_MEMBERS);
    FourParts(b);
  }

  lemma StoredConfigOfView(b: seq<byte>)
    requires Shaped(b)
    ensures StoredConfig(View(b)) == ViewConfig(b[..1792])
  {
  }

  lemma TotalsOfView(b: seq<byte>)
    requires Shaped(b)
    ensures Totals(View(b)) == b[1792..1848]
  {
    assert b[1792..1848] == b[1792..1808] + b[1808..1824] + b[1824..1832] + b[1832..1840] + [b[1840]] + b[1841..1848];
  }

  lemma StateRowsOfView(b: seq<byte>)
    requires Shaped(b)
    ensures StateRows(View(b).members) == Table(b, 1896, ROW, MAX_MEMBERS)
  {
    hide Table;
  }

  lemma FourParts(b: seq<byte>)
    requires |b| == STATE_BYTES
    ensures b == b[..1792] + b[1792..1848] + b[1848..1896] + b[1896..1896 + ROW * MAX_MEMBERS]
  {
  }

  lemma ImageSlices(s: State)
    ensures var b := Image(s);
      && b[..1792] == ConfigImage(StoredConfig(s))
      && b[1792..1848] == Totals(s)
      && b[1848..1896] == ProposalImage(s.proposal)
      && Table(b, 1896, ROW, MAX_MEMBERS) == StateRows(s.members)
  {
    var b := Image(s);
    var before := ConfigImage(StoredConfig(s)) + Totals(s) + ProposalImage(s.proposal);
    assert b == before + Flat(StateRows(s.members), ROW) + [];
    TableOfFlat(before, StateRows(s.members), ROW, []);
  }

  lemma TotalsFields(s: State, b: seq<byte>)
    requires |b| == STATE_BYTES && b[1792..1848] == Totals(s)
    ensures Nat128(b[1792..1808]) == s.received && Nat128(b[1808..1824]) == s.paid
    ensures Nat64(b[1824..1832]) == s.claimNonce && Nat64(b[1832..1840]) == s.proposalNonce
    ensures b[1840] == Flag(s.paused) && b[1841..1848] == Zeros(7)
  {
    var t := Totals(s);
    assert t[..16] == Le128(s.received) && t[16..32] == Le128(s.paid) && t[32..40] == Le64(s.claimNonce);
    assert t[40..48] == Le64(s.proposalNonce) && t[48] == Flag(s.paused) && t[49..56] == Zeros(7);
    Within(b, 1792, 1848, 0, 16);
    Within(b, 1792, 1848, 16, 32);
    Within(b, 1792, 1848, 32, 40);
    Within(b, 1792, 1848, 40, 48);
    Within(b, 1792, 1848, 49, 56);
    assert b[1840] == b[1792..1848][48];
    Le128Inverse(s.received);
    Le128Inverse(s.paid);
    Le64Inverse(s.claimNonce);
    Le64Inverse(s.proposalNonce);
  }

  /** Reading the image of a state gives it back, with the reserve in both places the image has one slot for. */
  lemma ViewOfImage(s: State)
    ensures Shaped(Image(s)) && View(Image(s)) == s.(config := StoredConfig(s))
  {
    var b := Image(s);
    ImageSlices(s);
    TotalsFields(s, b);
    ViewOfConfigImage(StoredConfig(s));
    ViewOfProposalImage(s.proposal);
    forall i | 0 <= i < MAX_MEMBERS ensures StateOf(StateRows(s.members)[i]) == s.members[i] {
      StateInverse(s.members[i]);
    }
    assert View(b).members == s.members;
  }

  /** `State::decode` as a function: the state of an accepted image. */
  ghost function Decode(b: seq<byte>): Result<State> {
    if Shaped(b) && Valid(View(b)) then Ok(View(b)) else Err(E_STATE)
  }

  /** Encode after decode is the identity on every accepted image. */
  lemma EncodeAfterDecode(b: seq<byte>)
    requires Decode(b).Ok?
    ensures Image(Decode(b).value) == b
  {
    ImageOfView(b);
  }

  lemma StoredConfigIsValid(s: State)
    requires Valid(s)
    ensures Valid(s.(config := StoredConfig(s)))
  {
    assert Weights(StoredConfig(s)) == Weights(s.config);
    forall i | 0 <= i < MAX_MEMBERS ensures SoundSlot(StoredConfig(s), s.received, s.claimNonce, s.members, i) {
      assert Sound(s, i);
    }
  }

  /** Decode after encode is the identity on valid states once the reserve slot holds the current reserve. */
  lemma DecodeAfterEncode(s: State)
    requires Valid(s)
    ensures Decode(Image(s)) == Ok(s.(config := StoredConfig(s)))
    ensures Decode(Image(s)) == Ok(s) <==> s.config.initialFuel == s.fuelLimit
  {
    ViewOfImage(s);
    StoredConfigIsValid(s);
  }

  /** Distinct states, up to that slot, never share an image. */
  lemma ImagesDistinguish(s: State, t: State)
    requires Image(s) == Image(t)
    ensures s.(config := StoredConfig(s)) == t.(config := StoredConfig(t))
  {
    ViewOfImage(s);
    ViewOfImage(t);
  }

  method WriteMember(b: array<byte>, at: nat, m: Member, ghost done: seq<byte>)
    requires Filled(b, done) && at == |done| && at + ROW <= b.Length
    modifies b
    ensures Filled(b, done + MemberRow(m))
  {
    WriteNext(b, at, m.key, done);
    WriteNext(b, at + 32, AddressBytes(m.destination), done + m.key);
    WriteNext(b, at + 96, Le16(m.weight), done + m.key + AddressBytes(m.destination));
    ghost var all := done + m.key + AddressBytes(m.destination) + Le16(m.weight);
    SkipZeros(b, all, 6);
    assert all + Zeros(6) == done + MemberRow(m);
  }

  method WriteConfigHead(b: array<byte>, c: Config)
    requires b.Length == CONFIG_BYTES && Filled(b, [])
    modifies b
    ensures Filled(b, ConfigHead(c))
  {
    ghost var done: seq<byte> := [];
    for i := 0 to 3
      invariant done == SignerBytes(c, i) && Filled(b, done)
    {
      WriteNext(b, i * 32, c.signers[i], done);
      done := done + c.signers[i];
    }
    WriteNext(b, 96, Le32(c.delay), done);
    done := done + Le32(c.delay);
    WriteNext(b, 100, Le32(c.voteWindow), done);
    done := done + Le32(c.voteWindow);
    WriteNext(b, 104, Le128(c.initialFuel), done);
    done := done + Le128(c.initialFuel);
    WriteNext(b, 120, [c.count], done);
    done := done + [c.count];
    SkipZeros(b, done, 7);
  }

  /** `Config::encode`. */
  method EncodeConfig(c: Config) returns (r: seq<byte>)
    ensures r == ConfigImage(c)
  {
    hide ConfigHead, MemberRow;
    var b := ZeroBuffer(CONFIG_BYTES);
    WriteConfigHead(b, c);
    ghost var rows := MemberRows(c.members);
    for i := 0 to MAX_MEMBERS
      invariant Filled(b, ConfigHead(c) + Flat(rows[..i], ROW))
    {
      FlatNext(rows, ROW, i);
      WriteMember(b, 128 + i * 104, c.members[i], ConfigHead(c) + Flat(rows[..i], ROW));
      assert ConfigHead(c) + Flat(rows[..i], ROW) + MemberRow(c.members[i]) == ConfigHead(c) + Flat(rows[..i + 1], ROW);
    }
    assert rows[..MAX_MEMBERS] == rows;
    assert ConfigImage(c) + Zeros(0) == ConfigImage(c);
    return b[..];
  }

  method WriteState(b: array<byte>, at: nat, m: MemberState, ghost done: seq<byte>)
    requires Filled(b, done) && at == |done| && at + ROW <= b.Length
    modifies b
    ensures Filled(b, done + StateRow(m))
  {
    ghost var all := done;
    WriteNext(b, at, Le128(m.claimable), all);
    all := all + Le128(m.claimable);
    WriteNext(b, at + 16, Le128(m.paid), all);
    all := all + Le128(m.paid);
    WriteNext(b, at + 32, Le128(m.pending), all);
    all := all + Le128(m.pending);
    WriteNext(b, at + 48, Le64(m.nonce), all);
    all := all + Le64(m.nonce);
    WriteNext(b, at + 56, Le64(m.afterLt), all);
    all := all + Le64(m.afterLt);
    WriteNext(b, at + 64, Le64(m.lastLt), all);
    all := all + Le64(m.lastLt);
    WriteNext(b, at + 72, m.lastHash, all);
    assert all + m.lastHash == done + StateRow(m);
  }

  method WriteTotals(b: array<byte>, s: State, ghost done: seq<byte>)
    requires Filled(b, done) && |done| == 1792 && b.Length == STATE_BYTES
    modifies b
    ensures Filled(b, done + Totals(s))
  {
    ghost var all := done;
    WriteNext(b, 1792, Le128(s.received), all);
    all := all + Le128(s.received);
    WriteNext(b, 1808, Le128(s.paid), all);
    all := all + Le128(s.paid);
    WriteNext(b, 1824, Le64(s.claimNonce), all);
    all := all + Le64(s.claimNonce);
    WriteNext(b, 1832, Le64(s.proposalNonce), all);
    all := all + Le64(s.proposalNonce);
    WriteNext(b, 1840, [Flag(s.paused)], all);
    all := all + [Flag(s.paused)];
    SkipZeros(b, all, 7);
    assert all + Zeros(7) == done + Totals(s);
  }

  method WriteProposal(b: array<byte>, p: Proposal, ghost done: seq<byte>)
    requires Filled(b, done) && |done| == 1848 && b.Length == STATE_BYTES
    modifies b
    ensures Filled(b, done + ProposalImage(p))
  {
    ghost var all := done;
    WriteNext(b, 1848, Le64(p.nonce), all);
    all := all + Le64(p.nonce);
    WriteNext(b, 1856, [p.action], all);
    all := all + [p.action];
    WriteNext(b, 1857, [p.votes], all);
    all := all + [p.votes];
    SkipZeros(b, all, 6);
    all := all + Zeros(6);
    WriteNext(b, 1864, Le128(p.value), all);
    all := all + Le128(p.value);
    WriteNext(b, 1880, Le32(p.created), all);
    all := all + Le32(p.created);
    WriteNext(b, 1884, Le32(p.ready), all);
    all := all + Le32(p.ready);
    WriteNext(b, 1888, Le32(p.expires), all);
    all := all + Le32(p.expires);
    SkipZeros(b, all, 4);
    assert all + Zeros(4) == done + ProposalImage(p);
  }

  /** `State::encode`: configuration with the current reserve, totals, proposal, then the member rows in order. */
  method Encode(s: State) returns (r: seq<byte>)
    ensures r == Image(s)
  {
    hide ConfigImage, Totals, ProposalImage, StateRow;
    var b := ZeroBuffer(STATE_BYTES);
    var config := EncodeConfig(s.config.(initialFuel := s.fuelLimit));
    WriteNext(b, 0, config, []);
    assert [] + config == config;
    WriteTotals(b, s, config);
    WriteProposal(b, s.proposal, config + Totals(s));
    ghost var before := config + Totals(s) + ProposalImage(s.proposal);
    ghost var rows := StateRows(s.members);
    assert before + Flat(rows[..0], ROW) == before;
    for i := 0 to MAX_MEMBERS
      invariant Filled(b, before + Flat(rows[..i], ROW))
    {
      FlatNext(rows, ROW, i);
      WriteState(b, 1896 + i * 104, s.members[i], before + Flat(rows[..i], ROW));
      assert before + Flat(rows[..i], ROW) + StateRow(s.members[i]) == before + Flat(rows[..i + 1], ROW);
    }
    assert rows[..MAX_MEMBERS] == rows;
    assert Image(s) + Zeros(0) == Image(s);
    return b[..];
  }
}
