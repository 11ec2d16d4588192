/** Overwriting a stretch of a byte buffer, in place and as a value. */
module Buffers {
  import opened Bytes

  /** `b` with the bytes from `at` on replaced by `part`. */
  function Splice(b: seq<byte>, at: nat, part: seq<byte>): (r: seq<byte>)
    requires at + |part| <= |b|
    ensures |r| == |b|
  {
    b[..at] + part + b[at + |part|..]
  }

  /** `buffer[at..at + len].copy_from_slice(part)`. */
  method Overwrite(a: array<byte>, at: nat, part: seq<byte>)
    requires at + |part| <= a.Length
    modifies a
    ensures a[..] == Splice(old(a[..]), at, part)
  {
    for i := 0 to |part|
      invariant forall k | 0 <= k < at :: a[k] == old(a[k])
      invariant a[at..at + i] == part[..i]
      invariant forall k | at + i <= k < a.Length :: a[k] == old(a[k])
    {
      a[at + i] := part[i];
    }
    assert a[at..at + |part|] == part;
    assert a[..] == a[..at] + a[at..at + |part|] + a[at + |part|..];
  }

  /** Appending inside a window: what stood in it stays in front, and nothing outside it moves. */
  lemma SpliceWindow(b: seq<byte>, start: nat, at: nat, end: nat, part: seq<byte>)
    requires start <= at && at + |part| <= end <= |b|
    ensures var r := Splice(b, at, part);
      r[..start] == b[..start] && r[end..] == b[end..] && r[start..at + |part|] == b[start..at] + part
  {
    var r := Splice(b, at, part);
    assert r[..at] == b[..at] && r[..at][..start] == r[..start] && b[..at][..start] == b[..start];
    assert r[at..at + |part|] == part;
    assert r[start..at] == r[..at][start..] && b[start..at] == b[..at][start..];
    assert r[start..at + |part|] == r[start..at] + r[at..at + |part|];
  }

  /** Overwriting inside the middle of three parts. */
  lemma SpliceInside(before: seq<byte>, mid: seq<byte>, after: seq<byte>, k: nat, part: seq<byte>)
    requires k + |part| <= |mid|
    ensures Splice(before + mid + after, |before| + k, part) == before + Splice(mid, k, part) + after
  {
  }

  /** Concatenations read from the left or from the right. */
  lemma NestTwo(a: seq<byte>, b: seq<byte>, r: seq<byte>)
    ensures a + b + r == a + (b + r)
  {
  }

  lemma NestThree(a: seq<byte>, b: seq<byte>, c: seq<byte>, r: seq<byte>)
    ensures a + b + c + r == a + (b + (c + r))
  {
  }

  lemma NestFour(a: seq<byte>, b: seq<byte>, c: seq<byte>, d: seq<byte>, r: seq<byte>)
    ensures a + b + c + d + r == a + (b + (c + (d + r)))
  {
    NestThree(a, b, c, d + r);
    assert a + b + c + d + r == a + b + c + (d + r);
  }

  lemma NestFive(a: seq<byte>, b: seq<byte>, c: seq<byte>, d: seq<byte>, e: seq<byte>, r: seq<byte>)
    ensures a + b + c + d + e + r == a + (b + (c + (d + (e + r))))
  {
    NestThree(a, b, c, d + e + r);
    assert a + b + c + d + e + r == a + b + c + (d + e + r);
  }

  /** A slice of a slice. */
  lemma Within(b: seq<byte>, lo: nat, hi: nat, i: nat, j: nat)
    requires lo <= hi <= |b| && i <= j <= hi - lo
    ensures b[lo..hi][i..j] == b[lo + i..lo + j]
  {
    var x, y := b[lo..hi][i..j], b[lo + i..lo + j];
    assert |x| == |y| && forall k | 0 <= k < |x| :: x[k] == b[lo..hi][i + k] == b[lo + i + k] == y[k];
  }

  lemma PrefixSlices(b: seq<byte>, h: seq<byte>)
    requires |b| >= |h| && b[..|h|] == h
    ensures forall i, j | 0 <= i <= j <= |h| :: b[i..j] == h[i..j]
  {
    assert forall k | 0 <= k < |h| :: b[k] == b[..|h|][k];
  }

  /** Writing the next field into a buffer that is zero from there on. */
  lemma FillNext(done: seq<byte>, left: nat, part: seq<byte>)
    requires |part| <= left
    ensures Splice(done + Zeros(left), |done|, part) == done + part + Zeros(left - |part|)
  {
  }

  /** Leaving the next `skip` bytes zero. */
  lemma SkipNext(done: seq<byte>, left: nat, skip: nat)
    requires skip <= left
    ensures done + Zeros(left) == done + Zeros(skip) + Zeros(left - skip)
  {
  }

  /** The buffer holds `done`, and zeros after it. */
  ghost predicate Filled(a: array<byte>, done: seq<byte>)
    reads a
  {
    |done| <= a.Length && a[..] == done + Zeros(a.Length - |done|)
  }

  /** Fill a buffer in order: write `part` where the written prefix ends. */
  method WriteNext(a: array<byte>, at: nat, part: seq<byte>, ghost done: seq<byte>)
    requires Filled(a, done) && at == |done| && at + |part| <= a.Length
    modifies a
    ensures Filled(a, done + part)
  {
    FillNext(done, a.Length - at, part);
    Overwrite(a, at, part);
  }

  lemma SkipZeros(a: array<byte>, done: seq<byte>, skip: nat)
    requires Filled(a, done) && |done| + skip <= a.Length
    ensures Filled(a, done + Zeros(skip))
  {
    SkipNext(done, a.Length - |done|, skip);
  }

  method ZeroBuffer(len: nat) returns (a: array<byte>)
    ensures fresh(a) && a.Length == len && Filled(a, [])
  {
    a := new byte[len](_ => 0);
  }

  method CopyOf(b: seq<byte>) returns (a: array<byte>)
    ensures fresh(a) && a[..] == b
  {
    a := new byte[|b|](i requires 0 <= i < |b| => b[i]);
  }
}
