/** The escrow's terms, its accounting state, and the invariant every stored image meets. */
module EscrowState {
  import opened Bytes
  import opened Sdk
  import opened Sums

  const MAX_MILESTONES := 8
  const MAX_ATTEMPTS := 64

  const OPEN := 0
  const SUBMITTED := 1
  const APPROVED := 2
  const PAID := 3
  const REFUNDED := 4

  const ERR_ARGS := 2000
  const ERR_AUTH := 2001
  const ERR_STATE := 2002
  const ERR_PHASE := 2003
  const ERR_VALUE := 2004
  const ERR_DEADLINE := 2005
  const ERR_PENDING := 2006
  const ERR_CALLBACK := 2007
  const ERR_LIMIT := 2008
  const ERR_BALANCE := 2009

  type Amounts = s: seq<u128> | |s| == MAX_MILESTONES witness seq(MAX_MILESTONES, _ => 0)
  type Phases = s: seq<byte> | |s| == MAX_MILESTONES witness seq(MAX_MILESTONES, _ => 0)
  type Hashes = s: seq<Id32> | |s| == MAX_MILESTONES witness seq<Id32>(MAX_MILESTONES, _ => ZERO32)

  datatype Config = Config(owner: Id32, worker: Id32, refundTo: Address, payTo: Address, total: u128, deadline: u32,
                           count: byte, amounts: Amounts, fuelReserve: u128)

  predicate AmountsUsed(c: Config) {
    && c.count <= MAX_MILESTONES
    && (forall i | 0 <= i < c.count :: c.amounts[i] != 0)
    && (forall i | c.count <= i < MAX_MILESTONES :: c.amounts[i] == 0)
  }

  predicate LegalTerms(c: Config) {
    && 0 < c.count <= MAX_MILESTONES
    && c.owner != ZERO32 && c.worker != ZERO32 && c.owner != c.worker
    && NonzeroAddress(c.payTo) && NonzeroAddress(c.refundTo) && c.payTo != c.refundTo
    && c.total != 0 && c.deadline != 0 && c.fuelReserve != 0
    && AmountsUsed(c)
  }

  predicate ValidConfig(c: Config) {
    LegalTerms(c) && Sum(c.amounts) == c.total
  }

  /** kind 0: idle; 1: a milestone payment; 2: the refund of everything unapproved. */
  datatype Pending = Pending(kind: byte, index: byte, amount: u128, attempt: u64)

  const IDLE := Pending(0, 0, 0, 0)

  datatype State = State(config: Config, funded: u128, paid: u128, refunded: u128, attempts: u64, pending: Pending,
                         phases: Phases, hashes: Hashes, receipts: seq<Id32>)

  function Initial(c: Config): State {
    State(c, 0, 0, 0, 0, IDLE, seq(MAX_MILESTONES, _ => OPEN), seq<Id32>(MAX_MILESTONES, _ => ZERO32), [])
  }

  /** What the phase of a milestone says about its money. */
  datatype Bucket = PaidOut | PaidBack | Refundable | Unsettled

  predicate In(bucket: Bucket, phase: byte) {
    match bucket
    case PaidOut => phase == PAID
    case PaidBack => phase == REFUNDED
    case Refundable => phase == OPEN || phase == SUBMITTED
    case Unsettled => phase != PAID && phase != REFUNDED
  }

  function Column(amounts: seq<u128>, phases: seq<byte>, bucket: Bucket): (xs: seq<nat>)
    requires |amounts| == |phases|
    ensures |xs| == |amounts|
  {
    seq(|amounts|, i requires 0 <= i < |amounts| => if In(bucket, phases[i]) then amounts[i] else 0)
  }

  /** The amounts of the milestones in one bucket. */
  function InBucket(c: Config, phases: Phases, bucket: Bucket): nat {
    Sum(Column(c.amounts, phases, bucket))
  }

  /** Every milestone's amount is paid out, paid back, or still owed; nothing else. */
  lemma BucketsCover(c: Config, phases: Phases)
    ensures InBucket(c, phases, PaidOut) + InBucket(c, phases, PaidBack) + InBucket(c, phases, Unsettled)
            == Sum(c.amounts)
    ensures InBucket(c, phases, Refundable) <= InBucket(c, phases, Unsettled)
  {
    var p, q, u := Column(c.amounts, phases, PaidOut), Column(c.amounts, phases, PaidBack),
      Column(c.amounts, phases, Unsettled);
    var settled: seq<nat> := seq(MAX_MILESTONES, i requires 0 <= i < MAX_MILESTONES => p[i] + q[i]);
    SumPointwise(p, q, settled);
    SumPointwise(settled, u, c.amounts);
    SumMonotone(Column(c.amounts, phases, Refundable), u);
  }

  ghost predicate SoundMilestone(phase: byte, hash: Id32) {
    && phase <= REFUNDED
    && (phase == OPEN ==> hash == ZERO32)
    && (phase == SUBMITTED || phase == APPROVED || phase == PAID ==> hash != ZERO32)
  }

  ghost predicate SoundMilestones(c: Config, phases: Phases, hashes: Hashes) {
    forall i | 0 <= i < MAX_MILESTONES ::
      if i < c.count then SoundMilestone(phases[i], hashes[i]) else phases[i] == OPEN && hashes[i] == ZERO32
  }

  /** A transfer under way is the payment of one approved milestone or the refund of everything refundable. */
  ghost predicate SoundPending(s: State) {
    && s.pending.kind <= 2
    && (s.pending.kind == 0 ==> s.pending == IDLE)
    && (s.pending.kind == 1 ==>
          && s.pending.index < s.config.count && s.config.count <= MAX_MILESTONES
          && s.phases[s.pending.index] == APPROVED && s.pending.amount == s.config.amounts[s.pending.index])
    && (s.pending.kind == 2 ==>
          s.pending.index == 255 && 0 != s.pending.amount == InBucket(s.config, s.phases, Refundable))
    && (s.pending.kind != 0 ==> s.pending.attempt == s.attempts && s.funded != 0)
  }

  predicate Distinct(receipts: seq<Id32>) {
    && (forall i | 0 <= i < |receipts| :: receipts[i] != ZERO32)
    && (forall i, j | 0 <= i < j < |receipts| :: receipts[i] != receipts[j])
  }

  ghost predicate SoundReceipts(s: State) {
    && s.attempts <= MAX_ATTEMPTS
    && |s.receipts| + (if s.pending.kind != 0 then 1 else 0) == s.attempts
    && Distinct(s.receipts)
  }

  ghost predicate Unfunded(s: State) {
    s.attempts == 0 && forall i | 0 <= i < MAX_MILESTONES :: s.phases[i] == OPEN
  }

  ghost predicate SoundFunding(s: State) {
    && (s.funded == 0 || s.funded == s.config.total)
    && (s.funded == 0 ==> Unfunded(s))
  }

  /** What a stored escrow always satisfies. The code's further bound on what was paid follows. */
  ghost predicate Valid(s: State) {
    && ValidConfig(s.config)
    && SoundReceipts(s)
    && SoundFunding(s)
    && SoundMilestones(s.config, s.phases, s.hashes)
    && s.paid == InBucket(s.config, s.phases, PaidOut)
    && s.refunded == InBucket(s.config, s.phases, PaidBack)
    && SoundPending(s)
  }

  lemma NothingSettled(c: Config, phases: Phases)
    requires forall i | 0 <= i < MAX_MILESTONES :: phases[i] == OPEN
    ensures InBucket(c, phases, PaidOut) == InBucket(c, phases, PaidBack) == 0
    ensures InBucket(c, phases, Unsettled) == Sum(c.amounts)
  {
    SumZero(Column(c.amounts, phases, PaidOut));
    SumZero(Column(c.amounts, phases, PaidBack));
    BucketsCover(c, phases);
  }

  lemma InitialIsValid(c: Config)
    requires ValidConfig(c)
    ensures Valid(Initial(c))
  {
    NothingSettled(c, Initial(c).phases);
  }

  /** Once funded, everything paid out, paid back or still owed adds up to the total; before, nothing has moved. */
  lemma Conserved(s: State)
    requires Valid(s)
    ensures s.funded != 0 ==>
              s.paid + s.refunded + InBucket(s.config, s.phases, Unsettled) == s.config.total == s.funded
    ensures s.funded == 0 ==> s.paid == s.refunded == 0
    ensures s.paid + s.refunded <= s.funded
    ensures InBucket(s.config, s.phases, Refundable) < U128_END
  {
    BucketsCover(s.config, s.phases);
    if s.funded == 0 {
      NothingSettled(s.config, s.phases);
    }
  }

  lemma PhaseUpdate(c: Config, phases: Phases, i: nat, phase: byte, bucket: Bucket)
    requires i < MAX_MILESTONES
    ensures InBucket(c, phases[i := phase], bucket) ==
            InBucket(c, phases, bucket)
            - (if In(bucket, phases[i]) then c.amounts[i] else 0) + (if In(bucket, phase) then c.amounts[i] else 0)
  {
    var x: nat := if In(bucket, phase) then c.amounts[i] else 0;
    assert Column(c.amounts, phases[i := phase], bucket) == Column(c.amounts, phases, bucket)[i := x];
    SumUpdate(Column(c.amounts, phases, bucket), i, x);
  }

  /** The phases once a refund settled: everything not yet approved is refunded. */
  function RefundedPhases(c: Config, phases: Phases): Phases {
    seq(MAX_MILESTONES, i requires 0 <= i < MAX_MILESTONES =>
      if i < c.count && In(Refundable, phases[i]) then REFUNDED else phases[i])
  }

  lemma RefundMovesBuckets(c: Config, phases: Phases)
    requires AmountsUsed(c)
    ensures InBucket(c, RefundedPhases(c, phases), PaidOut) == InBucket(c, phases, PaidOut)
    ensures InBucket(c, RefundedPhases(c, phases), PaidBack)
            == InBucket(c, phases, PaidBack) + InBucket(c, phases, Refundable)
    ensures InBucket(c, RefundedPhases(c, phases), Refundable) == 0
  {
    var after := RefundedPhases(c, phases);
    assert Column(c.amounts, after, PaidOut) == Column(c.amounts, phases, PaidOut);
    SumPointwise(Column(c.amounts, phases, PaidBack), Column(c.amounts, phases, Refundable),
      Column(c.amounts, after, PaidBack));
    SumZero(Column(c.amounts, after, Refundable));
  }
}
