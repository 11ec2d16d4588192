/** Shared arithmetic and payment bodies of the revenue hub. */
module RevenueCore {
  import opened Bytes
  import opened Arithmetic
  import opened Sums

  const MAX_MEMBERS := 16
  const DENOMINATOR := 10_000

  const E_ARGS := 3000
  const E_AUTH := 3001
  const E_STATE := 3002
  const E_PAUSED := 3003
  const E_VALUE := 3004
  const E_BUSY := 3005
  const E_EMPTY := 3006
  const E_CALLBACK := 3007
  const E_OVERFLOW := 3008
  const E_BALANCE := 3009
  const E_GOVERNANCE := 3010
  const E_DUPLICATE_VOTE := 3011
  const E_TIMELOCK := 3012
  const E_EXPIRED := 3013
  const E_QUORUM := 3014

  const DEPOSIT: u64 := 0xee821ec11d072a34
  const CLAIM: u64 := 0xefc7ada73d7d352d
  const CALLBACK: u64 := 0x91e93517798b3feb
  const PROPOSE: u64 := 0xeb376b0e2f001049
  const VOTE: u64 := 0x0f4b8aea3bed98ff
  const EXECUTE: u64 := 0x0b846b6089f9f203
  const STATUS: u64 := 0x7fc72fed16fd3f41
  const TOPUP: u64 := 0xa6287b2455133d06
  const RECEIVE: u64 := 0x59c85fd6f329115f
  const BIND: u64 := 0xcd447c5e444b1261
  const REJECT: u64 := 0x091b2381980265d8
  const RECEIVER_STATUS: u64 := 0xd94c3508ba861312
  const AUDIT_BIND: u64 := 0x52a0891f16d93693
  const AUDIT_RECORD: u64 := 0x9174e9df045baa84
  const AUDIT_STATUS: u64 := 0x4838e7c764485c02
  const DUPLICATE_AUDIT: u64 := 0x076bed1648d4c62c

  /** A member's exact entitlement out of everything received, in unbounded arithmetic. */
  function Share(total: nat, weight: nat): nat {
    total * weight / DENOMINATOR
  }

  /** The entitlement as the code computes it: quotient and remainder apart, every sum checked. */
  function Entitlement(total: u128, weight: u16): Result<u128> {
    if weight == 0 || weight > DENOMINATOR then Err(E_ARGS) else
      var whole := total / DENOMINATOR * weight;
      if whole >= U128_END then Err(E_OVERFLOW) else
        RemainderProductFits(total % DENOMINATOR, weight);
        var product: u128 := total % DENOMINATOR * weight;
        match CheckedAdd(whole, product / DENOMINATOR)
        case Some(v) => Ok(v)
        case None => Err(E_OVERFLOW)
  }

  lemma RemainderProductFits(r: nat, w: nat)
    requires r < DENOMINATOR && w <= DENOMINATOR
    ensures 0 <= r * w <= 100_000_000
  {
    MulMonotone(r, DENOMINATOR, w);
  }

  lemma ShareBounds(total: nat, weight: nat)
    ensures Share(total, weight) * DENOMINATOR <= total * weight < (Share(total, weight) + 1) * DENOMINATOR
    ensures weight <= DENOMINATOR ==> Share(total, weight) <= total
  {
    if weight <= DENOMINATOR {
      MulMonotone(weight, DENOMINATOR, total);
    }
  }

  /** The checked computation is the exact floor for every legal weight: no intermediate overflows. */
  lemma EntitlementExact(total: u128, weight: u16)
    ensures Entitlement(total, weight) == if 1 <= weight <= DENOMINATOR then Ok(Share(total, weight)) else Err(E_ARGS)
  {
    if 1 <= weight <= DENOMINATOR {
      var q, r := total / DENOMINATOR, total % DENOMINATOR;
      assert total == q * DENOMINATOR + r;
      SplitDivision(q, r, weight, DENOMINATOR);
      ShareBounds(total, weight);
      RemainderProductFits(r, weight);
      assert Share(total, weight) == q * weight + r * weight / DENOMINATOR;
    }
  }

  lemma ShareMonotone(a: nat, b: nat, weight: nat)
    requires a <= b
    ensures Share(a, weight) <= Share(b, weight)
  {
    MulMonotone(a, b, weight);
  }

  function Shares(total: nat, weights: seq<nat>): (s: seq<nat>)
    ensures |s| == |weights|
  {
    seq(|weights|, i requires 0 <= i < |weights| => Share(total, weights[i]))
  }

  /** All shares together cover the total up to less than one unit per member. */
  lemma {:induction false} SharesCover(total: nat, weights: seq<nat>)
    ensures Sum(Shares(total, weights)) * DENOMINATOR <= total * Sum(weights)
    ensures total * Sum(weights) <= (Sum(Shares(total, weights)) + |weights|) * DENOMINATOR
    ensures weights != [] ==> total * Sum(weights) < (Sum(Shares(total, weights)) + |weights|) * DENOMINATOR
  {
    if weights != [] {
      var n := |weights| - 1;
      SharesCover(total, weights[..n]);
      ShareBounds(total, weights[n]);
      assert Shares(total, weights)[..n] == Shares(total, weights[..n]);
      Distribute(total, Sum(weights[..n]), weights[n]);
    }
  }

  /** With weights adding up to the denominator, dust is nonnegative and below the member count. */
  lemma DustBound(total: nat, weights: seq<nat>)
    requires weights != [] && Sum(weights) == DENOMINATOR
    ensures Sum(Shares(total, weights)) <= total
    ensures total - Sum(Shares(total, weights)) < |weights|
  {
    SharesCover(total, weights);
  }

  function PaymentBody(index: byte, nonce: u64, amount: u128): (b: seq<byte>)
    ensures |b| == 25
  {
    [index] + Le64(nonce) + Le128(amount)
  }

  function ReadPayment(b: seq<byte>): Result<(nat, u64, u128)> {
    if |b| != 25 || b[0] >= MAX_MEMBERS then Err(E_ARGS) else
      var nonce := Nat64(b[1..9]);
      var amount := Nat128(b[9..25]);
      if nonce == 0 || amount == 0 then Err(E_ARGS) else Ok((b[0], nonce, amount))
  }

  /** The receipt reader accepts exactly the bodies the vault writes for real payments. */
  lemma PaymentRoundTrip(b: seq<byte>, index: nat, nonce: u64, amount: u128)
    ensures ReadPayment(b) == Ok((index, nonce, amount)) <==>
            index < MAX_MEMBERS && nonce != 0 && amount != 0 && b == PaymentBody(index, nonce, amount)
  {
    if index < MAX_MEMBERS {
      var p := PaymentBody(index, nonce, amount);
      assert p[1..9] == Le64(nonce) && p[9..25] == Le128(amount);
      Le64Inverse(nonce);
      Le128Inverse(amount);
    }
    if |b| == 25 {
      assert b == [b[0]] + b[1..9] + b[9..25];
    }
  }
}
