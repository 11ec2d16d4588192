/** Streams, their progress, and the invariant every stored vesting image meets. */
module VestingState {
  import opened Bytes
  import opened Sdk
  import opened Sums
  import opened VestingCore

  datatype Stream = Stream(key: Id32, payout: Address, refund: Address, terms: Schedule, revocable: bool)

  const NO_STREAM := Stream(ZERO32, ZERO_ADDRESS, ZERO_ADDRESS, Schedule(0, 0, 0, 0, 0), false)

  type Streams = s: seq<Stream> | |s| == MAX_STREAMS witness seq(MAX_STREAMS, _ => NO_STREAM)

  datatype Config = Config(owner: Id32, fuel: u128, count: byte, streams: Streams)

  predicate LegalStream(x: Stream) {
    && x.key != ZERO32 && NonzeroAddress(x.payout) && NonzeroAddress(x.refund)
    && x.payout != x.refund
    && ValidSchedule(x.terms)
  }

  predicate Apart(a: Stream, b: Stream) {
    a.payout != b.payout && a.payout != b.refund && a.refund != b.payout && a.refund != b.refund
  }

  /** Stream `n` shares no address with an earlier one. */
  predicate NewStream(xs: seq<Stream>, n: nat)
    requires n < |xs|
  {
    forall p | 0 <= p < n :: Apart(xs[p], xs[n])
  }

  predicate LegalStreams(xs: seq<Stream>, n: nat)
    requires n <= |xs|
  {
    && (forall i | 0 <= i < n :: LegalStream(xs[i]))
    && (forall i | 0 <= i < n :: NewStream(xs, i))
  }

  predicate LegalConfig(c: Config) {
    && c.owner != ZERO32 && c.fuel != 0
    && 0 < c.count <= MAX_STREAMS
    && LegalStreams(c.streams, c.count)
    && (forall i | c.count <= i < MAX_STREAMS :: c.streams[i] == NO_STREAM)
  }

  function Totals(c: Config): (t: seq<nat>)
    requires c.count <= MAX_STREAMS
    ensures |t| == c.count
  {
    seq(c.count, i requires 0 <= i < c.count => c.streams[i].terms.total)
  }

  /** Everything the owner promises. */
  function Total(c: Config): nat
    requires c.count <= MAX_STREAMS
  {
    Sum(Totals(c))
  }

  predicate ValidConfig(c: Config) {
    LegalConfig(c) && Total(c) < U128_END
  }

  datatype Lane = Lane(pending: u128, nonce: u64, afterLt: u64, lastLt: u64, lastHash: Id32)

  const IDLE := Lane(0, 0, 0, 0, ZERO32)

  /** One stream's progress; the two lanes are the array of two in the source, claims first. */
  datatype Progress = Progress(cancelled: bool, cutoff: u32, cap: u128, claimed: u128, refunded: u128,
                               claims: Lane, refunds: Lane)

  const UNTOUCHED := Progress(false, 0, 0, 0, 0, IDLE, IDLE)

  type ProgressRow = s: seq<Progress> | |s| == MAX_STREAMS witness seq(MAX_STREAMS, _ => UNTOUCHED)

  datatype State = State(config: Config, funded: bool, lastTime: u32, nonce: u64, progress: ProgressRow)

  function Initial(c: Config, now: u32): State {
    State(c, false, now, 0, seq(MAX_STREAMS, _ => UNTOUCHED))
  }

  /** What the payee may ever have claimed by time `t`: the frozen cap, or what has vested. */
  function CapOf(x: Stream, p: Progress, t: nat): nat
    requires ValidSchedule(x.terms)
  {
    if p.cancelled then p.cap else Vested(x.terms, t)
  }

  ghost predicate SoundLane(l: Lane, nonce: u64) {
    && (l.lastLt == 0 <==> l.lastHash == ZERO32)
    && (l.pending == 0 ==> l.nonce == 0 && l.afterLt == 0)
    && (l.pending != 0 ==> 0 < l.nonce <= nonce && l.lastLt <= l.afterLt)
  }

  /** The cancellation record of one stream. */
  ghost predicate SoundCut(x: Stream, p: Progress, t: u32)
    requires ValidSchedule(x.terms)
  {
    if p.cancelled
    then x.revocable && p.cutoff <= t && p.cutoff < x.terms.end && p.cap == Vested(x.terms, p.cutoff)
    else p.cutoff == 0 && p.cap == 0 && p.refunded == 0 && p.refunds == IDLE
  }

  /** Claims stay within the cap, refunds within what the cap leaves. */
  ghost predicate WithinCaps(x: Stream, p: Progress, t: u32)
    requires ValidSchedule(x.terms)
  {
    && p.claimed + p.claims.pending <= CapOf(x, p, t)
    && (p.cancelled ==> p.refunded + p.refunds.pending <= x.terms.total - p.cap)
  }

  ghost predicate SoundProgress(x: Stream, p: Progress, t: u32, nonce: u64)
    requires ValidSchedule(x.terms)
  {
    SoundCut(x, p, t) && SoundLane(p.claims, nonce) && SoundLane(p.refunds, nonce) && WithinCaps(x, p, t)
  }

  /** Every live stream is sound, every other slot untouched. */
  ghost predicate SoundSlot(c: Config, ps: ProgressRow, t: u32, nonce: u64, i: nat)
    requires i < MAX_STREAMS
  {
    if i < c.count
    then ValidSchedule(c.streams[i].terms) && SoundProgress(c.streams[i], ps[i], t, nonce)
    else ps[i] == UNTOUCHED
  }

  ghost predicate SoundBooks(c: Config, ps: ProgressRow, t: u32, nonce: u64) {
    forall i | 0 <= i < MAX_STREAMS :: SoundSlot(c, ps, t, nonce, i)
  }

  ghost predicate Sound(s: State, i: nat)
    requires i < MAX_STREAMS
  {
    SoundSlot(s.config, s.progress, s.lastTime, s.nonce, i)
  }

  ghost predicate AllUntouched(ps: ProgressRow, from: nat) {
    forall i | from <= i < MAX_STREAMS :: ps[i] == UNTOUCHED
  }

  ghost predicate Unfunded(s: State) {
    s.nonce == 0 && AllUntouched(s.progress, 0)
  }

  /** What a stored vesting contract always satisfies. The code's further check on held principal follows. */
  ghost predicate Valid(s: State) {
    && ValidConfig(s.config)
    && (!s.funded ==> Unfunded(s))
    && SoundBooks(s.config, s.progress, s.lastTime, s.nonce)
  }

  lemma RestUntouched(s: State)
    ensures Valid(s) ==> AllUntouched(s.progress, s.config.count)
  {
    if Valid(s) {
      forall i: nat | s.config.count <= i < MAX_STREAMS ensures s.progress[i] == UNTOUCHED {
        assert Sound(s, i);
      }
    }
  }

  function ClaimedColumn(ps: seq<Progress>): (c: seq<nat>)
    ensures |c| == |ps|
  {
    seq(|ps|, i requires 0 <= i < |ps| => ps[i].claimed)
  }

  function RefundedColumn(ps: seq<Progress>): (c: seq<nat>)
    ensures |c| == |ps|
  {
    seq(|ps|, i requires 0 <= i < |ps| => ps[i].refunded)
  }

  function PendingColumn(ps: seq<Progress>): (c: seq<nat>)
    ensures |c| == |ps|
  {
    seq(|ps|, i requires 0 <= i < |ps| => ps[i].claims.pending + ps[i].refunds.pending)
  }

  /** Claimed, refunded and pending of the live streams. */
  function Live(s: State): (ps: seq<Progress>)
    requires s.config.count <= MAX_STREAMS
  {
    s.progress[..s.config.count]
  }

  function Claimed(s: State): nat requires s.config.count <= MAX_STREAMS { Sum(ClaimedColumn(Live(s))) }
  function Refunded(s: State): nat requires s.config.count <= MAX_STREAMS { Sum(RefundedColumn(Live(s))) }
  function Pending(s: State): nat requires s.config.count <= MAX_STREAMS { Sum(PendingColumn(Live(s))) }

  /** Principal the contract itself should hold. */
  function Held(s: State): int
    requires s.config.count <= MAX_STREAMS
  {
    if s.funded then Total(s.config) - Claimed(s) - Refunded(s) - Pending(s) else 0
  }

  /** Nothing is ever promised twice: per stream, all four amounts fit in the total. */
  lemma StreamSolvent(x: Stream, p: Progress, t: u32, nonce: u64)
    requires ValidSchedule(x.terms) && SoundProgress(x, p, t, nonce)
    ensures CapOf(x, p, t) <= x.terms.total
    ensures p.claimed + p.refunded + (p.claims.pending + p.refunds.pending) <= x.terms.total
  {
    VestedBounded(x.terms, t);
    VestedBounded(x.terms, p.cutoff);
  }

  /** Over all streams, too, what was paid and what is under way fit in what was funded. */
  lemma Solvent(s: State)
    requires Valid(s)
    ensures Claimed(s) + Refunded(s) + Pending(s) <= Total(s.config) < U128_END
    ensures 0 <= Held(s) <= Total(s.config)
  {
    SolventPrefix(s, s.config.count);
    assert Totals(s.config)[..s.config.count] == Totals(s.config);
    assert Live(s)[..s.config.count] == Live(s);
  }

  lemma {:induction false} SolventPrefix(s: State, n: nat)
    requires Valid(s) && n <= s.config.count
    ensures Sum(ClaimedColumn(s.progress[..n])) + Sum(RefundedColumn(s.progress[..n]))
            + Sum(PendingColumn(s.progress[..n]))
            <= Sum(Totals(s.config)[..n])
  {
    if n == 0 {
    } else {
      SolventPrefix(s, n - 1);
      assert Sound(s, n - 1);
      StreamSolvent(s.config.streams[n - 1], s.progress[n - 1], s.lastTime, s.nonce);
      SumPrefix(Totals(s.config), n - 1);
      ColumnsPrefix(s.progress, n - 1);
    }
  }

  lemma ColumnsPrefix(ps: seq<Progress>, n: nat)
    requires n < |ps|
    ensures Sum(ClaimedColumn(ps[..n + 1])) == Sum(ClaimedColumn(ps[..n])) + ps[n].claimed
    ensures Sum(RefundedColumn(ps[..n + 1])) == Sum(RefundedColumn(ps[..n])) + ps[n].refunded
    ensures Sum(PendingColumn(ps[..n + 1])) == Sum(PendingColumn(ps[..n]))
            + (ps[n].claims.pending + ps[n].refunds.pending)
  {
    assert ClaimedColumn(ps[..n + 1])[..n] == ClaimedColumn(ps[..n]);
    assert RefundedColumn(ps[..n + 1])[..n] == RefundedColumn(ps[..n]);
    assert PendingColumn(ps[..n + 1])[..n] == PendingColumn(ps[..n]);
  }

  lemma InitialIsValid(c: Config, now: u32)
    requires ValidConfig(c)
    ensures Valid(Initial(c, now)) && Held(Initial(c, now)) == 0
  {
    forall i | 0 <= i < MAX_STREAMS ensures SoundSlot(c, Initial(c, now).progress, now, 0, i) {
      if i < c.count {
        assert LegalStream(c.streams[i]);
      }
    }
  }

  /** Letting time pass keeps every state valid, because no schedule ever takes vested amounts back. */
  lemma TimeKeepsSound(s: State, t: u32)
    requires Valid(s) && s.lastTime <= t
    ensures Valid(s.(lastTime := t))
  {
    forall i | 0 <= i < MAX_STREAMS ensures SoundSlot(s.config, s.progress, t, s.nonce, i) {
      assert Sound(s, i);
      if i < s.config.count {
        VestedMonotone(s.config.streams[i].terms, s.lastTime, t);
      }
    }
  }

  /** `s` after stream `i` moves to progress `p` at nonce `nonce`. */
  function WithProgress(s: State, i: nat, p: Progress, nonce: u64): State
    requires i < MAX_STREAMS
  {
    s.(progress := s.progress[i := p], nonce := nonce)
  }

  /** Replacing one stream's progress by a sound one keeps the state valid and moves the sums by the difference. */
  lemma ReplaceKeepsValid(s: State, i: nat, p: Progress, nonce: u64)
    requires Valid(s) && s.funded && i < s.config.count && s.nonce <= nonce
    requires ValidSchedule(s.config.streams[i].terms) && SoundProgress(s.config.streams[i], p, s.lastTime, nonce)
    ensures Valid(WithProgress(s, i, p, nonce))
    ensures var t, q := WithProgress(s, i, p, nonce), s.progress[i];
      && Claimed(t) == Claimed(s) - q.claimed + p.claimed
      && Refunded(t) == Refunded(s) - q.refunded + p.refunded
      && Pending(t) == Pending(s) - (q.claims.pending + q.refunds.pending) + (p.claims.pending + p.refunds.pending)
  {
    ReplaceSums(s, i, p, nonce);
    var t := WithProgress(s, i, p, nonce);
    forall j | 0 <= j < MAX_STREAMS ensures SoundSlot(t.config, t.progress, t.lastTime, t.nonce, j) {
      assert Sound(s, j);
    }
  }

  lemma ReplaceSums(s: State, i: nat, p: Progress, nonce: u64)
    requires s.config.count <= MAX_STREAMS && i < s.config.count
    ensures var t, q := WithProgress(s, i, p, nonce), s.progress[i];
      && Claimed(t) == Claimed(s) - q.claimed + p.claimed
      && Refunded(t) == Refunded(s) - q.refunded + p.refunded
      && Pending(t) == Pending(s) - (q.claims.pending + q.refunds.pending) + (p.claims.pending + p.refunds.pending)
  {
    var t := WithProgress(s, i, p, nonce);
    assert Live(t) == Live(s)[i := p];
    assert ClaimedColumn(Live(t)) == ClaimedColumn(Live(s))[i := p.claimed];
    assert RefundedColumn(Live(t)) == RefundedColumn(Live(s))[i := p.refunded];
    assert PendingColumn(Live(t)) == PendingColumn(Live(s))[i := p.claims.pending + p.refunds.pending];
    SumUpdate(ClaimedColumn(Live(s)), i, p.claimed);
    SumUpdate(RefundedColumn(Live(s)), i, p.refunded);
    SumUpdate(PendingColumn(Live(s)), i, p.claims.pending + p.refunds.pending);
  }
}
