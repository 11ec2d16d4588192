/** Machine integers, results, and the little-endian byte forms every codec uses. */
module Bytes {
  type byte = x: int | 0 <= x < 0x100
  type u16 = x: int | 0 <= x < 0x1_0000
  type u32 = x: int | 0 <= x < 0x1_0000_0000
  type u64 = x: int | 0 <= x < 0x1_0000_0000_0000_0000
  type u128 = x: int | 0 <= x < 0x1_0000_0000_0000_0000_0000_0000_0000_0000

  const U32_END := 0x1_0000_0000
  const U64_END := 0x1_0000_0000_0000_0000
  const U128_END := 0x1_0000_0000_0000_0000_0000_0000_0000_0000

  datatype Option<+T> = None | Some(value: T) {
    predicate IsFailure() { None? }
    function PropagateFailure<U>(): Option<U> { None }
    function Extract(): T requires Some? { value }
  }

  /**
   * The outcome of a fallible operation; `code` is the numeric status the contracts return.
   * Propagation is total, so that code may handle a failure that its callee is proved never to report.
   */
  datatype Result<+T> = Ok(value: T) | Err(code: int) {
    predicate IsFailure() { Err? }
    function PropagateFailure<U>(): Result<U> { if Err? then Err(code) else Err(0) }
    function Extract(): T requires Ok? { value }
  }

  /** `u128::checked_add`. */
  function CheckedAdd(a: u128, b: u128): Option<u128> {
    if a + b < U128_END then Some(a + b) else None
  }

  /** `u128::checked_sub`. */
  function CheckedSub(a: u128, b: u128): Option<u128> {
    if b <= a then Some(a - b) else None
  }

  /** `width` bytes, all zero. */
  function Zeros(width: nat): (b: seq<byte>)
    ensures |b| == width
    ensures forall k :: 0 <= k < width ==> b[k] == 0
  {
    seq(width, _ => 0)
  }

  type Id32 = s: seq<byte> | |s| == 32 witness Zeros(32)
  const ZERO32: Id32 := Zeros(32)

  /** The `width` low bytes of `n`, least significant first (`to_le_bytes`). */
  function Le(n: nat, width: nat): (b: seq<byte>)
    ensures |b| == width
  {
    if width == 0 then [] else [n % 0x100] + Le(n / 0x100, width - 1)
  }

  /** The number a little-endian byte string stands for (`from_le_bytes`). */
  function Nat(b: seq<byte>): nat {
    if b == [] then 0 else b[0] + 0x100 * Nat(b[1..])
  }

  function Pow256(width: nat): (p: nat)
    ensures p > 0
  {
    if width == 0 then 1 else 0x100 * Pow256(width - 1)
  }

  lemma {:induction false} NatBound(b: seq<byte>)
    ensures Nat(b) < Pow256(|b|)
  {
    if b != [] {
      NatBound(b[1..]);
    }
  }

  lemma {:induction false} NatOfLe(n: nat, width: nat)
    requires n < Pow256(width)
    ensures Nat(Le(n, width)) == n
  {
    if width > 0 {
      NatOfLe(n / 0x100, width - 1);
      assert Le(n, width)[1..] == Le(n / 0x100, width - 1);
    }
  }

  lemma {:induction false} LeOfNat(b: seq<byte>)
    ensures Le(Nat(b), |b|) == b
  {
    if b != [] {
      LeOfNat(b[1..]);
      assert b == [b[0]] + b[1..];
      assert Nat(b) / 0x100 == Nat(b[1..]) && Nat(b) % 0x100 == b[0];
    }
  }

  lemma Widths()
    ensures Pow256(1) == 0x100
    ensures Pow256(2) == 0x1_0000
    ensures Pow256(4) == U32_END
    ensures Pow256(8) == U64_END
    ensures Pow256(16) == U128_END
  {
    assert Pow256(2) == 0x1_0000;
    assert Pow256(4) == 0x100 * (0x100 * Pow256(2));
    assert Pow256(6) == 0x100 * (0x100 * Pow256(4));
    assert Pow256(8) == 0x100 * (0x100 * Pow256(6));
    assert Pow256(10) == 0x100 * (0x100 * Pow256(8));
    assert Pow256(12) == 0x100 * (0x100 * Pow256(10));
    assert Pow256(14) == 0x100 * (0x100 * Pow256(12));
    assert Pow256(16) == 0x100 * (0x100 * Pow256(14));
  }

  function Le16(n: u16): (b: seq<byte>) ensures |b| == 2 { Le(n, 2) }
  function Le32(n: u32): (b: seq<byte>) ensures |b| == 4 { Le(n, 4) }
  function Le64(n: u64): (b: seq<byte>) ensures |b| == 8 { Le(n, 8) }
  function Le128(n: u128): (b: seq<byte>) ensures |b| == 16 { Le(n, 16) }

  /** Reading back a fixed-width integer is exact in both directions. */
  function Nat16(b: seq<byte>): (n: u16)
    requires |b| == 2
    ensures Le16(n) == b
  {
    NatBound(b); Widths(); LeOfNat(b);
    Nat(b)
  }

  function Nat32(b: seq<byte>): (n: u32)
    requires |b| == 4
    ensures Le32(n) == b
  {
    NatBound(b); Widths(); LeOfNat(b);
    Nat(b)
  }

  function Nat64(b: seq<byte>): (n: u64)
    requires |b| == 8
    ensures Le64(n) == b
  {
    NatBound(b); Widths(); LeOfNat(b);
    Nat(b)
  }

  function Nat128(b: seq<byte>): (n: u128)
    requires |b| == 16
    ensures Le128(n) == b
  {
    NatBound(b); Widths(); LeOfNat(b);
    Nat(b)
  }

  lemma Le16Inverse(n: u16) ensures Nat16(Le16(n)) == n { Widths(); NatOfLe(n, 2); }
  lemma Le32Inverse(n: u32) ensures Nat32(Le32(n)) == n { Widths(); NatOfLe(n, 4); }
  lemma Le64Inverse(n: u64) ensures Nat64(Le64(n)) == n { Widths(); NatOfLe(n, 8); }
  lemma Le128Inverse(n: u128) ensures Nat128(Le128(n)) == n { Widths(); NatOfLe(n, 16); }

  lemma Le16Zero()
    ensures Le16(0) == [0, 0]
  {
    assert Le(0, 2) == [0] + Le(0, 1);
  }

  /** The byte order of slices: at the first difference, or a proper prefix. */
  predicate Less(a: seq<byte>, b: seq<byte>)
    decreases |a|
  {
    if b == [] then false
    else if a == [] then true
    else a[0] < b[0] || (a[0] == b[0] && Less(a[1..], b[1..]))
  }

  lemma {:induction false} LessTransitive(a: seq<byte>, b: seq<byte>, c: seq<byte>)
    requires Less(a, b) && Less(b, c)
    ensures Less(a, c)
    decreases |a|
  {
    if a != [] && a[0] == b[0] == c[0] {
      LessTransitive(a[1..], b[1..], c[1..]);
    }
  }
}
