/** Reading bytes front to back: what each read means, and the cursor that performs it. */
module Wire {
  import opened Bytes

  /** The first `n` bytes and what follows them. */
  function Take(b: seq<byte>, n: nat): Option<(seq<byte>, seq<byte>)> {
    if |b| < n then None else Some((b[..n], b[n..]))
  }

  function TakeByte(b: seq<byte>): Option<(byte, seq<byte>)> {
    var (p, rest) :- Take(b, 1);
    Some((p[0], rest))
  }

  function Take16(b: seq<byte>): Option<(u16, seq<byte>)> {
    var (p, rest) :- Take(b, 2);
    Some((Nat16(p), rest))
  }

  function Take32(b: seq<byte>): Option<(u32, seq<byte>)> {
    var (p, rest) :- Take(b, 4);
    Some((Nat32(p), rest))
  }

  function Take64(b: seq<byte>): Option<(u64, seq<byte>)> {
    var (p, rest) :- Take(b, 8);
    Some((Nat64(p), rest))
  }

  function TakeId(b: seq<byte>): Option<(Id32, seq<byte>)> {
    var (p, rest) :- Take(b, 32);
    Some((p, rest))
  }

  /** A byte string behind its 32-bit length. */
  function TakePrefixed(b: seq<byte>): Option<(seq<byte>, seq<byte>)> {
    var (n, rest) :- Take32(b);
    Take(rest, n)
  }

  /** A read gives back exactly what was written in front of the rest, and nothing else would be read the same way. */
  lemma TakeExact(b: seq<byte>, n: nat, p: seq<byte>, rest: seq<byte>)
    ensures Take(b, n) == Some((p, rest)) <==> |p| == n && b == p + rest
  {
    if |p| == n && b == p + rest {
      assert b[..n] == p && b[n..] == rest;
    }
    if |b| >= n {
      assert b == b[..n] + b[n..];
    }
  }

  lemma ByteExact(b: seq<byte>, x: byte, rest: seq<byte>)
    ensures TakeByte(b) == Some((x, rest)) <==> b == [x] + rest
  {
    TakeExact(b, 1, [x], rest);
    if |b| >= 1 {
      assert b[..1] == [b[0]];
    }
  }

  lemma Exact16(b: seq<byte>, x: u16, rest: seq<byte>)
    ensures Take16(b) == Some((x, rest)) <==> b == Le16(x) + rest
  {
    TakeExact(b, 2, Le16(x), rest);
    Le16Inverse(x);
  }

  lemma Exact32(b: seq<byte>, x: u32, rest: seq<byte>)
    ensures Take32(b) == Some((x, rest)) <==> b == Le32(x) + rest
  {
    TakeExact(b, 4, Le32(x), rest);
    Le32Inverse(x);
  }

  lemma Exact64(b: seq<byte>, x: u64, rest: seq<byte>)
    ensures Take64(b) == Some((x, rest)) <==> b == Le64(x) + rest
  {
    TakeExact(b, 8, Le64(x), rest);
    Le64Inverse(x);
  }

  lemma IdExact(b: seq<byte>, x: Id32, rest: seq<byte>)
    ensures TakeId(b) == Some((x, rest)) <==> b == x + rest
  {
    TakeExact(b, 32, x, rest);
  }

  function Prefixed(p: seq<byte>): seq<byte>
    requires |p| < U32_END
  {
    Le32(|p|) + p
  }

  lemma PrefixedExact(b: seq<byte>, p: seq<byte>, rest: seq<byte>)
    ensures TakePrefixed(b) == Some((p, rest)) <==> |p| < U32_END && b == Prefixed(p) + rest
  {
    if |p| < U32_END {
      Exact32(b, |p|, p + rest);
      TakeExact(p + rest, |p|, p, rest);
      assert Prefixed(p) + rest == Le32(|p|) + (p + rest);
    }
    if TakePrefixed(b) == Some((p, rest)) {
      var (n, tail) := Take32(b).value;
      TakeExact(tail, n, p, rest);
      Exact32(b, n, tail);
    }
  }

  /** A position in a byte string that only moves forward; a short read fails with `eof` and moves nothing. */
  class Reader {
    const bytes: seq<byte>
    const eof: int
    var position: nat

    ghost predicate Valid()
      reads this
    {
      position <= |bytes|
    }

    ghost function Rest(): seq<byte>
      requires Valid()
      reads this
    {
      bytes[position..]
    }

    constructor (bytes: seq<byte>, position: nat, eof: int)
      requires position <= |bytes|
      ensures Valid() && Rest() == bytes[position..] && this.eof == eof && this.bytes == bytes
    {
      this.bytes := bytes;
      this.position := position;
      this.eof := eof;
    }

    method Next(n: nat) returns (r: Result<seq<byte>>)
      requires Valid()
      modifies this
      ensures Valid()
      ensures match Take(old(Rest()), n)
              case Some((p, rest)) => r == Ok(p) && Rest() == rest
              case None => r == Err(eof) && Rest() == old(Rest())
    {
      var end := position + n;
      if end > |bytes| {
        return Err(eof);
      }
      r := Ok(bytes[position..end]);
      position := end;
      assert bytes[old(position)..][..n] == bytes[old(position)..end];
    }

    method NextByte() returns (r: Result<byte>)
      requires Valid()
      modifies this
      ensures Valid()
      ensures match TakeByte(old(Rest()))
              case Some((x, rest)) => r == Ok(x) && Rest() == rest
              case None => r == Err(eof) && Rest() == old(Rest())
    {
      var p :- Next(1);
      return Ok(p[0]);
    }

    method Next16() returns (r: Result<u16>)
      requires Valid()
      modifies this
      ensures Valid()
      ensures match Take16(old(Rest()))
              case Some((x, rest)) => r == Ok(x) && Rest() == rest
              case None => r == Err(eof) && Rest() == old(Rest())
    {
      var p :- Next(2);
      return Ok(Nat16(p));
    }

    method Next32() returns (r: Result<u32>)
      requires Valid()
      modifies this
      ensures Valid()
      ensures match Take32(old(Rest()))
              case Some((x, rest)) => r == Ok(x) && Rest() == rest
              case None => r == Err(eof) && Rest() == old(Rest())
    {
      var p :- Next(4);
      return Ok(Nat32(p));
    }

    method Next64() returns (r: Result<u64>)
      requires Valid()
      modifies this
      ensures Valid()
      ensures match Take64(old(Rest()))
              case Some((x, rest)) => r == Ok(x) && Rest() == rest
              case None => r == Err(eof) && Rest() == old(Rest())
    {
      var p :- Next(8);
      return Ok(Nat64(p));
    }

    method NextId() returns (r: Result<Id32>)
      requires Valid()
      modifies this
      ensures Valid()
      ensures match TakeId(old(Rest()))
              case Some((x, rest)) => r == Ok(x) && Rest() == rest
              case None => r == Err(eof) && Rest() == old(Rest())
    {
      var p :- Next(32);
      return Ok(p);
    }

    method NextPrefixed() returns (r: Result<seq<byte>>)
      requires Valid()
      modifies this
      ensures Valid()
      ensures match TakePrefixed(old(Rest()))
              case Some((p, rest)) => r == Ok(p) && Rest() == rest
              case None => r == Err(eof)
    {
      var n :- Next32();
      r := Next(n);
    }

    /** Whether everything was read. */
    method AtEnd() returns (done: bool)
      requires Valid()
      ensures done <==> Rest() == []
    {
      return position == |bytes|;
    }
  }
}
