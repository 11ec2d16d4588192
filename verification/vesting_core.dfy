/** Linear vesting with a cliff and steps, and the payment bodies the streams exchange. */
module VestingCore {
  import opened Bytes
  import opened Arithmetic

  const MAX_STREAMS := 8

  const E_ARGS := 4000
  const E_AUTH := 4001
  const E_STATE := 4002
  const E_VALUE := 4003
  const E_PHASE := 4004
  const E_EMPTY := 4005
  const E_BUSY := 4006
  const E_CALLBACK := 4007
  const E_OVERFLOW := 4008
  const E_BALANCE := 4009
  const E_IRREVOCABLE := 4010

  const FUND: u64 := 0x21a7a770a198334c
  const CLAIM: u64 := 0x670d5504a402c5a0
  const CANCEL: u64 := 0x52a8b019669a89ed
  const REFUND: u64 := 0x9b5d16b61097135d
  const CALLBACK: u64 := 0xd71c9b61d009c1b2
  const STATUS: u64 := 0xd47305678521c1bc
  const TOPUP: u64 := 0xf0929ae1e1dda9f2
  const RECEIVE: u64 := 0xf332e40c80382ec6
  const BIND: u64 := 0x00b2b020c4a87d26
  const REJECT: u64 := 0x6df484c38c9bb260
  const RECEIVER_STATUS: u64 := 0x5ba55ef8f7d7c531

  /** The terms an amount vests under. */
  datatype Schedule = Schedule(total: u128, start: u32, cliff: u32, end: u32, step: u32)

  predicate ValidSchedule(x: Schedule) {
    && x.total != 0 && x.start != 0
    && x.start <= x.cliff <= x.end
    && x.start < x.end
    && x.step <= x.end - x.start
  }

  /** Elapsed time rounded down to whole steps; a zero step does not round. */
  function Stepped(elapsed: nat, step: nat): nat {
    if step == 0 then elapsed else elapsed / step * step
  }

  lemma SteppedBounds(elapsed: nat, step: nat)
    ensures Stepped(elapsed, step) <= elapsed
    ensures step != 0 ==> elapsed < Stepped(elapsed, step) + step
  {
  }

  lemma SteppedMonotone(a: nat, b: nat, step: nat)
    requires a <= b
    ensures Stepped(a, step) <= Stepped(b, step)
  {
    if step != 0 {
      DivisionMonotone(a, b, step);
      MulMonotone(a / step, b / step, step);
    }
  }

  /** floor(total * e / d) */
  function Fraction(total: nat, e: nat, d: nat): nat
    requires d > 0
  {
    MulMonotone(0, total, e);
    total * e / d
  }

  /** What has vested by `now`, in unbounded arithmetic. */
  function Vested(x: Schedule, now: nat): nat
    requires ValidSchedule(x)
  {
    if now < x.cliff || now <= x.start then 0
    else if now >= x.end then x.total
    else Fraction(x.total, Stepped(now - x.start, x.step), x.end - x.start)
  }

  /** Whole periods times the step, in u32; a zero step divides by nothing and keeps the elapsed time. */
  function Aligned(elapsed: u32, step: u32): (e: u32)
    ensures e == Stepped(elapsed, step)
  {
    SteppedBounds(elapsed, step);
    if step == 0 then elapsed else elapsed / step * step
  }

  /** total * e / d with the division first, every product within its machine width. */
  function Scaled(total: u128, e: u32, d: u32): Result<u128>
    requires e <= d && d > 0
  {
    var r: u32 := total % d;
    ProductFits(r, e, d);
    var product: u64 := r * e;
    var q: nat := total / d;
    MulMonotone(0, q, e);
    var v: nat := q * e;
    if v >= U128_END then Err(E_OVERFLOW) else
      match CheckedAdd(v, product / d)
      case Some(sum) => Ok(sum)
      case None => Err(E_OVERFLOW)
  }

  /** Dividing the whole and the rest apart gives the same as dividing once. */
  lemma Recombined(total: nat, e: nat, d: nat)
    requires d > 0
    ensures total / d * e + total % d * e / d == total * e / d
  {
    var q, r := total / d, total % d;
    assert q * d + r == total;
    SplitDivision(q, r, e, d);
  }

  lemma QuotientFits(r: nat, e: nat, d: nat)
    requires d > 0
    ensures r * e / d >= 0
  {
    MulMonotone(0, r, e);
  }

  lemma ScaledExact(total: u128, e: u32, d: u32)
    requires e <= d && d > 0
    ensures Scaled(total, e, d) == Ok(total * e / d)
  {
    var q, r := total / d, total % d;
    ProductFits(r, e, d);
    MulMonotone(0, q, e);
    Recombined(total, e, d);
    FractionBound(total, e, d);
    QuotientFits(r, e, d);
  }

  /** What has vested as the code computes it. */
  function VestedChecked(x: Schedule, now: u32): Result<u128> {
    if x.total == 0 || x.start == 0 || x.start >= x.end || x.cliff < x.start || x.cliff > x.end
       || x.step > x.end - x.start
    then Err(E_ARGS)
    else if now < x.cliff || now <= x.start then Ok(0)
    else if now >= x.end then Ok(x.total)
    else
      SteppedBounds(now - x.start, x.step);
      Scaled(x.total, Aligned(now - x.start, x.step), x.end - x.start)
  }

  lemma ProductFits(r: nat, e: nat, d: nat)
    requires r < d && e <= d && d < U32_END
    ensures 0 <= r * e < U64_END
  {
    MulMonotone(r, U32_END, e);
    MulMonotone(e, U32_END, U32_END);
  }

  /** A quotient by the whole is at most the part: total * e / d <= total when e <= d. */
  lemma FractionBound(total: nat, e: nat, d: nat)
    requires d > 0 && e <= d
    ensures total * e / d <= total
  {
    MulMonotone(e, d, total);
    DivisionMonotone(total * e, total * d, d);
    DivisionIs(total * d, d, total, 0);
  }

  lemma DivisionMonotone(a: nat, b: nat, d: nat)
    requires d > 0 && a <= b
    ensures a / d <= b / d
  {
    var p, q := a / d, b / d;
    MulMonotone(if q < p then q + 1 else p, p, d);
  }

  lemma VestedBounded(x: Schedule, now: nat)
    requires ValidSchedule(x)
    ensures Vested(x, now) <= x.total
  {
    if x.start < now < x.end {
      SteppedBounds(now - x.start, x.step);
      FractionBound(x.total, Stepped(now - x.start, x.step), x.end - x.start);
    }
  }

  /** No later moment has vested less, whichever of start, cliff, step and end boundaries lie between. */
  lemma VestedMonotone(x: Schedule, a: nat, b: nat)
    requires ValidSchedule(x) && a <= b
    ensures Vested(x, a) <= Vested(x, b)
  {
    VestedBounded(x, a);
    if x.start < a && b < x.end {
      var p, q := Stepped(a - x.start, x.step), Stepped(b - x.start, x.step);
      SteppedMonotone(a - x.start, b - x.start, x.step);
      MulMonotone(p, q, x.total);
      DivisionMonotone(x.total * p, x.total * q, x.end - x.start);
    }
  }

  /** Between cliff and end, the vested amount is the exact floor of total * stepped / duration. */
  lemma VestedIsFloor(x: Schedule, now: nat, v: nat)
    requires ValidSchedule(x) && x.cliff <= now && x.start < now < x.end
    ensures var e, d := Stepped(now - x.start, x.step), x.end - x.start;
            v == Vested(x, now) <==> v * d <= x.total * e < v * d + d
  {
    var e, d := Stepped(now - x.start, x.step), x.end - x.start;
    var w := Vested(x, now);
    assert x.total * e == w * d + x.total * e % d;
    if v * d <= x.total * e < v * d + d {
      DivisionIs(x.total * e, d, v, x.total * e - v * d);
    }
  }

  /**
   * Nothing vests before both start and cliff are reached, everything has vested at the end, and nothing is lost
   * inside a step.
   */
  lemma VestedBoundaries(x: Schedule, now: nat)
    requires ValidSchedule(x)
    ensures now <= x.start || now < x.cliff ==> Vested(x, now) == 0
    ensures now >= x.end ==> Vested(x, now) == x.total
    ensures x.step != 0 && x.cliff <= now && x.start < now < x.end && (now - x.start) % x.step == 0 ==>
      forall later | now <= later < now + x.step && later < x.end :: Vested(x, later) == Vested(x, now)
  {
    if x.step != 0 && x.cliff <= now && x.start < now < x.end && (now - x.start) % x.step == 0 {
      forall later | now <= later < now + x.step && later < x.end ensures Vested(x, later) == Vested(x, now) {
        var p := (now - x.start) / x.step;
        DivisionIs(later - x.start, x.step, p, later - now);
      }
    }
  }

  /** The checked computation gives exactly the vested amount on every legal schedule, and never overflows. */
  lemma VestedExact(x: Schedule, now: u32)
    ensures VestedChecked(x, now) == if ValidSchedule(x) then Ok(Vested(x, now)) else Err(E_ARGS)
  {
    if ValidSchedule(x) && x.cliff <= now && x.start < now < x.end {
      SteppedBounds(now - x.start, x.step);
      ScaledExact(x.total, Aligned(now - x.start, x.step), x.end - x.start);
    }
  }

  function PaymentBody(index: byte, kind: byte, nonce: u64, amount: u128): (b: seq<byte>)
    ensures |b| == 26
  {
    [index, kind] + Le64(nonce) + Le128(amount)
  }

  function ReadPayment(b: seq<byte>): Result<(nat, nat, u64, u128)> {
    if |b| != 26 || b[0] >= MAX_STREAMS || b[1] > 1 then Err(E_ARGS) else
      var nonce := Nat64(b[2..10]);
      var amount := Nat128(b[10..26]);
      if nonce == 0 || amount == 0 then Err(E_ARGS) else Ok((b[0], b[1], nonce, amount))
  }

  /** The reader accepts exactly the bodies written for real payments. */
  lemma PaymentRoundTrip(b: seq<byte>, index: nat, kind: nat, nonce: u64, amount: u128)
    ensures ReadPayment(b) == Ok((index, kind, nonce, amount)) <==>
            index < MAX_STREAMS && kind < 2 && nonce != 0 && amount != 0 && b == PaymentBody(index, kind, nonce, amount)
  {
    if index < MAX_STREAMS && kind < 2 {
      var p := PaymentBody(index, kind, nonce, amount);
      assert p[2..10] == Le64(nonce) && p[10..26] == Le128(amount);
      Le64Inverse(nonce);
      Le128Inverse(amount);
    }
    if |b| == 26 {
      assert b == [b[0], b[1]] + b[2..10] + b[10..26];
    }
  }
}
