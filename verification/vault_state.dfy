/** The vault's configuration, its accounting state, and the invariant every stored image meets. */
module VaultState {
  import opened Bytes
  import opened Sdk
  import opened Sums
  import opened RevenueCore

  const PAUSE := 1
  const RESUME := 2
  const SET_FUEL := 3

  datatype Member = Member(key: Id32, destination: Address, weight: u16)

  const NO_MEMBER := Member(ZERO32, ZERO_ADDRESS, 0)

  type Signers = s: seq<Id32> | |s| == 3 witness seq<Id32>(3, _ => ZERO32)
  type Members = s: seq<Member> | |s| == MAX_MEMBERS witness seq(MAX_MEMBERS, _ => NO_MEMBER)

  datatype Config = Config(signers: Signers, delay: u32, voteWindow: u32, initialFuel: u128,
                           count: byte, members: Members)

  function Weights(c: Config): (w: seq<nat>)
    requires c.count <= MAX_MEMBERS
    ensures |w| == c.count
  {
    seq(c.count, i requires 0 <= i < c.count => c.members[i].weight)
  }

  predicate LegalMember(m: Member) {
    m.key != ZERO32 && NonzeroAddress(m.destination) && m.weight != 0
  }

  predicate Distinct(a: Member, b: Member) {
    a.key != b.key && a.destination != b.destination
  }

  /** Member `n` repeats neither the key nor the destination of an earlier one. */
  predicate NewMember(ms: seq<Member>, n: nat)
    requires n < |ms|
  {
    forall p | 0 <= p < n :: Distinct(ms[p], ms[n])
  }

  predicate LegalMembers(ms: seq<Member>, n: nat)
    requires n <= |ms|
  {
    && (forall i | 0 <= i < n :: LegalMember(ms[i]))
    && (forall i | 0 <= i < n :: NewMember(ms, i))
  }

  predicate LegalSigners(k: Signers) {
    k[0] != ZERO32 && k[1] != ZERO32 && k[2] != ZERO32 && k[0] != k[1] && k[0] != k[2] && k[1] != k[2]
  }

  /** The part of a valid configuration the money arithmetic rests on. */
  ghost predicate Weighted(c: Config) {
    && 0 < c.count <= MAX_MEMBERS
    && (forall i | 0 <= i < c.count :: c.members[i].weight != 0)
    && Sum(Weights(c)) == DENOMINATOR
  }

  lemma ValidIsWeighted(c: Config)
    requires ValidConfig(c)
    ensures Weighted(c)
  {
    forall i | 0 <= i < c.count ensures c.members[i].weight != 0 {
      assert LegalMember(c.members[i]);
    }
  }

  predicate ValidConfig(c: Config) {
    && 0 < c.count <= MAX_MEMBERS
    && c.delay != 0 && c.voteWindow != 0 && c.initialFuel != 0
    && LegalSigners(c.signers)
    && LegalMembers(c.members, c.count)
    && (forall i | c.count <= i < MAX_MEMBERS :: c.members[i] == NO_MEMBER)
    && Sum(Weights(c)) == DENOMINATOR
  }

  /** `Config::validate`: early returns and a running weight sum; it accepts exactly the valid configurations. */
  method ValidateConfig(c: Config) returns (r: Result<()>)
    ensures r == if ValidConfig(c) then Ok(()) else Err(E_ARGS)
  {
    hide LegalMember, NewMember;
    var n := c.count;
    if n == 0 || n > MAX_MEMBERS || c.delay == 0 || c.voteWindow == 0 || c.initialFuel == 0 {
      return Err(E_ARGS);
    }
    var badSigner := SomeBadSigner(c.signers);
    if badSigner {
      return Err(E_ARGS);
    }
    var total: u32 := 0;
    for i := 0 to MAX_MEMBERS
      invariant LegalMembers(c.members, if i < n then i else n)
      invariant forall k | n <= k < i :: c.members[k] == NO_MEMBER
      invariant total == Sum(Weights(c)[..if i < n then i else n])
      invariant total <= i * 0xFFFF
    {
      var m := c.members[i];
      if i < n {
        if !LegalMember(m) || !NewMember(c.members, i) {
          return Err(E_ARGS);
        }
        assert LegalMembers(c.members, i + 1);
        SumPrefix(Weights(c), i);
        total := total + m.weight;
      } else if m != NO_MEMBER {
        return Err(E_ARGS);
      }
    }
    assert Weights(c)[..n] == Weights(c);
    if total != 10_000 {
      return Err(E_ARGS);
    }
    return Ok(());
  }

  /** The scan over the three keys for a zero key or a repeat of an earlier one. */
  method SomeBadSigner(k: Signers) returns (bad: bool)
    ensures bad <==> !LegalSigners(k)
  {
    bad := false;
    for i := 0 to 3
      invariant !bad
      invariant forall p | 0 <= p < i :: k[p] != ZERO32
      invariant forall p, q | 0 <= p < q < i :: k[p] != k[q]
    {
      if k[i] == ZERO32 || k[i] in k[..i] {
        return true;
      }
    }
  }

  /** `Config::signer`: the position of a governance key. */
  function SignerIndex(c: Config, key: Id32): (r: Result<nat>)
    ensures r.Ok? ==> r.value < 3 && c.signers[r.value] == key
    ensures r.Err? ==> r.code == E_AUTH && key !in c.signers
  {
    if c.signers[0] == key then Ok(0)
    else if c.signers[1] == key then Ok(1)
    else if c.signers[2] == key then Ok(2)
    else Err(E_AUTH)
  }

  datatype MemberState = MemberState(claimable: u128, paid: u128, pending: u128, nonce: u64,
                                     afterLt: u64, lastLt: u64, lastHash: Id32)

  const IDLE := MemberState(0, 0, 0, 0, 0, 0, ZERO32)

  type MemberStates = s: seq<MemberState> | |s| == MAX_MEMBERS witness seq(MAX_MEMBERS, _ => IDLE)

  datatype Proposal = Proposal(nonce: u64, action: byte, votes: byte, value: u128,
                               created: u32, ready: u32, expires: u32)

  const NO_PROPOSAL := Proposal(0, 0, 0, 0, 0, 0, 0)

  function ProposalBody(p: Proposal): (b: seq<byte>)
    ensures |b| == 25
  {
    Le64(p.nonce) + [p.action] + Le128(p.value)
  }

  predicate LegalAction(nonce: u64, action: byte, value: u128) {
    && nonce != 0
    && (action == PAUSE || action == RESUME || action == SET_FUEL)
    && (action == SET_FUEL <==> value != 0)
  }

  function ReadProposal(b: seq<byte>): Result<(u64, byte, u128)> {
    if |b| != 25 then Err(E_ARGS) else
      var nonce := Nat64(b[..8]);
      var action := b[8];
      var value := Nat128(b[9..25]);
      if nonce == 0
         || !(action == PAUSE || action == RESUME || action == SET_FUEL)
         || (action != SET_FUEL && value != 0)
         || (action == SET_FUEL && value == 0)
      then Err(E_GOVERNANCE)
      else Ok((nonce, action, value))
  }

  /** The body reader accepts a body exactly when it is the body of a legal proposal with those fields. */
  lemma ProposalRoundTrip(b: seq<byte>, p: Proposal)
    ensures ReadProposal(b) == Ok((p.nonce, p.action, p.value)) <==>
            LegalAction(p.nonce, p.action, p.value) && b == ProposalBody(p)
  {
    var body := ProposalBody(p);
    assert body[..8] == Le64(p.nonce) && body[9..25] == Le128(p.value);
    Le64Inverse(p.nonce);
    Le128Inverse(p.value);
    if |b| == 25 {
      assert b == b[..8] + [b[8]] + b[9..25];
    }
  }

  datatype State = State(config: Config, received: u128, paid: u128, claimNonce: u64, proposalNonce: u64,
                         paused: bool, proposal: Proposal, members: MemberStates, fuelLimit: u128)

  function Initial(c: Config): State {
    State(c, 0, 0, 0, 0, false, NO_PROPOSAL, seq(|c.members|, _ => IDLE), c.initialFuel)
  }

  function PaidColumn(ms: seq<MemberState>): (c: seq<nat>)
    ensures |c| == |ms|
  {
    seq(|ms|, i requires 0 <= i < |ms| => ms[i].paid)
  }

  function PendingColumn(ms: seq<MemberState>): (c: seq<nat>)
    ensures |c| == |ms|
  {
    seq(|ms|, i requires 0 <= i < |ms| => ms[i].pending)
  }

  ghost predicate ValidMember(m: MemberState, share: nat, claimNonce: u64) {
    && m.paid + m.claimable + m.pending == share
    && (m.pending == 0 ==> m.nonce == 0 && m.afterLt == 0)
    && (m.pending != 0 ==> 0 < m.nonce <= claimNonce && m.lastLt <= m.afterLt)
    && (m.lastLt == 0 <==> m.lastHash == ZERO32)
  }

  ghost predicate ValidProposal(p: Proposal, c: Config, proposalNonce: u64) {
    if p.nonce == 0 then p == NO_PROPOSAL else
      && p.nonce == proposalNonce
      && LegalAction(p.nonce, p.action, p.value)
      && 0 < p.votes < 8
      && p.ready == p.created + c.delay
      && p.expires == p.ready + c.voteWindow
  }

  /** Slot `i` of the member array balances against its share, or is untouched when no member owns it. */
  ghost predicate SoundSlot(c: Config, received: nat, claimNonce: u64, ms: MemberStates, i: nat)
    requires i < MAX_MEMBERS
  {
    if i < c.count
    then ValidMember(ms[i], Share(received, c.members[i].weight), claimNonce)
    else ms[i] == IDLE
  }

  ghost predicate SoundBooks(c: Config, received: nat, claimNonce: u64, ms: MemberStates) {
    forall i | 0 <= i < MAX_MEMBERS :: SoundSlot(c, received, claimNonce, ms, i)
  }

  /** Slot `i` of a valid state. */
  ghost predicate Sound(s: State, i: nat)
    requires i < MAX_MEMBERS
  {
    SoundSlot(s.config, s.received, s.claimNonce, s.members, i)
  }

  /** What a stored vault always satisfies. The code's further check on dust follows from the weights. */
  ghost predicate Valid(s: State) {
    && ValidConfig(s.config)
    && s.fuelLimit != 0
    && SoundBooks(s.config, s.received, s.claimNonce, s.members)
    && s.paid == Sum(PaidColumn(s.members))
    && ValidProposal(s.proposal, s.config, s.proposalNonce)
  }

  /** Principal reserved for payouts under way. */
  function InFlight(s: State): nat {
    Sum(PendingColumn(s.members))
  }

  /** Principal the vault itself should hold. */
  function Held(s: State): int {
    s.received - s.paid - InFlight(s)
  }

  /** Principal no member is entitled to yet. */
  function Dust(s: State): int
    requires s.config.count <= MAX_MEMBERS
  {
    s.received - Sum(Shares(s.received, Weights(s.config)))
  }

  lemma InitialMembers(c: Config)
    requires ValidConfig(c)
    ensures SoundBooks(c, 0, 0, Initial(c).members)
  {
    forall i | 0 <= i < MAX_MEMBERS ensures SoundSlot(c, 0, 0, Initial(c).members, i) {
      assert 0 * c.members[i].weight == 0;
    }
  }

  lemma NothingMoved(ms: MemberStates)
    requires forall i | 0 <= i < MAX_MEMBERS :: ms[i] == IDLE
    ensures Sum(PaidColumn(ms)) == 0 && Sum(PendingColumn(ms)) == 0
  {
    SumZero(PaidColumn(ms));
    SumZero(PendingColumn(ms));
  }

  /** A freshly initialised vault is valid and holds nothing. */
  lemma InitialIsValid(c: Config)
    requires ValidConfig(c)
    ensures Valid(Initial(c)) && Held(Initial(c)) == 0
  {
    NothingMoved(Initial(c).members);
    InitialMembers(c);
  }

  /** In a valid state, paid and pending amounts fit inside the shares, and the shares inside what came in. */
  lemma Solvent(s: State)
    requires Valid(s)
    ensures 0 <= Dust(s) < s.config.count
    ensures s.paid + InFlight(s) <= Sum(Shares(s.received, Weights(s.config)))
    ensures 0 <= Held(s) <= s.received
  {
    var n := s.config.count;
    var paid, pending := PaidColumn(s.members), PendingColumn(s.members);
    var shares := Shares(s.received, Weights(s.config));
    DustBound(s.received, Weights(s.config));
    forall i | n <= i < MAX_MEMBERS ensures paid[i] == 0 && pending[i] == 0 {
      assert Sound(s, i);
    }
    SumZeroTail(paid, n);
    SumZeroTail(pending, n);
    var both: seq<nat> := seq(n, i requires 0 <= i < n => paid[i] + pending[i]);
    SumPointwise(paid[..n], pending[..n], both);
    forall i | 0 <= i < n ensures both[i] <= shares[i] {
      assert Sound(s, i);
    }
    SumMonotone(both, shares);
  }

  lemma ShareFits(s: State, total: u128, i: nat)
    requires Weighted(s.config) && i < s.config.count
    ensures 1 <= s.config.members[i].weight <= DENOMINATOR
    ensures Share(total, s.config.members[i].weight) <= total
  {
    SumElementLe(Weights(s.config), i);
    ShareBounds(total, s.config.members[i].weight);
  }

  /** The share of what has been received that a deposit of `amount` adds for member `i`. */
  function Increment(s: State, amount: nat, i: nat): nat
    requires i < MAX_MEMBERS
  {
    ShareMonotone(s.received, s.received + amount, s.config.members[i].weight);
    Share(s.received + amount, s.config.members[i].weight) - Share(s.received, s.config.members[i].weight)
  }

  ghost predicate CanCredit(s: State, amount: nat) {
    Valid(s) && s.received + amount < U128_END
  }

  lemma IncrementFits(s: State, amount: nat, i: nat)
    requires CanCredit(s, amount) && i < s.config.count
    ensures s.members[i].claimable + Increment(s, amount, i) < U128_END
  {
    assert Sound(s, i);
    ValidIsWeighted(s.config);
    ShareFits(s, s.received + amount, i);
  }

  ghost function Credited(s: State, amount: nat, i: nat): MemberState
    requires CanCredit(s, amount) && i < MAX_MEMBERS
  {
    if i >= s.config.count then s.members[i] else
      IncrementFits(s, amount, i);
      s.members[i].(claimable := s.members[i].claimable + Increment(s, amount, i))
  }

  /** A deposit raises every claimable balance by its share increment and touches nothing else. */
  ghost function Credit(s: State, amount: nat): State
    requires CanCredit(s, amount)
  {
    s.(received := s.received + amount,
       members := seq(MAX_MEMBERS, i requires 0 <= i < MAX_MEMBERS => Credited(s, amount, i)))
  }

  lemma CreditMembers(s: State, amount: nat)
    requires CanCredit(s, amount)
    ensures SoundBooks(s.config, s.received + amount, s.claimNonce, Credit(s, amount).members)
  {
    var t := Credit(s, amount);
    forall i | 0 <= i < MAX_MEMBERS ensures SoundSlot(t.config, t.received, t.claimNonce, t.members, i) {
      assert Sound(s, i);
    }
  }

  lemma CreditColumns(s: State, amount: nat)
    requires CanCredit(s, amount)
    ensures PaidColumn(Credit(s, amount).members) == PaidColumn(s.members)
    ensures PendingColumn(Credit(s, amount).members) == PendingColumn(s.members)
  {
  }

  /** A deposit keeps the invariant, lowers no claimable balance, and all of it lands in held principal. */
  lemma CreditKeepsValid(s: State, amount: nat)
    requires CanCredit(s, amount)
    ensures Valid(Credit(s, amount))
    ensures Held(Credit(s, amount)) == Held(s) + amount
    ensures forall i | 0 <= i < MAX_MEMBERS :: Credit(s, amount).members[i].claimable >= s.members[i].claimable
  {
    CreditMembers(s, amount);
    CreditColumns(s, amount);
  }
}
