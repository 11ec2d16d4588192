/** State updates: full images, ordered patch lists, the SDK's check on them, and what applying them gives. */
module SdkUpdates {
  import opened Bytes
  import opened Buffers

  datatype StatePatch = StatePatch(offset: u32, oldLen: u32, newBytes: seq<byte>)

  datatype Mode = FullReplace | DataPatchList

  datatype StateUpdate = Full(state: seq<byte>) | Patches(patches: seq<StatePatch>) {
    function UpdateMode(): Mode { if Full? then FullReplace else DataPatchList }
  }

  // The encoder's error values, by position in the enumeration.
  const LENGTH_OVERFLOW := 0
  const INVALID_PATCH_ORDER := 6

  function End(p: StatePatch): nat { p.offset + p.oldLen }

  /** Patches that stay within 32-bit offsets and neither overlap nor go back. */
  ghost predicate Ascending(ps: seq<StatePatch>) {
    && (forall i | 0 <= i < |ps| :: End(ps[i]) < U32_END)
    && (forall i, j | 0 <= i < j < |ps| :: End(ps[i]) <= ps[j].offset)
  }

  ghost predicate Encodable(ps: seq<StatePatch>) {
    && Ascending(ps)
    && (forall i | 0 <= i < |ps| :: |ps[i].newBytes| < U32_END)
    && |ps| < 0x1_0000
  }

  /** `validate_state_update`: the running end of the previous patch is enough to rule out any overlap. */
  method ValidateUpdate(u: StateUpdate) returns (r: Result<()>)
    ensures r.Ok? <==> u.Full? || Encodable(u.patches)
  {
    if u.Full? {
      return Ok(());
    }
    var ps := u.patches;
    var previousEnd := 0;
    for i := 0 to |ps|
      invariant forall k | 0 <= k < i :: End(ps[k]) < U32_END && |ps[k].newBytes| < U32_END && End(ps[k]) <= previousEnd
      invariant forall j, k | 0 <= j < k < i :: End(ps[j]) <= ps[k].offset
      invariant previousEnd == if i == 0 then 0 else End(ps[i - 1])
    {
      var p := ps[i];
      if p.offset + p.oldLen >= U32_END {
        return Err(INVALID_PATCH_ORDER);
      }
      if p.offset < previousEnd {
        return Err(INVALID_PATCH_ORDER);
      }
      if |p.newBytes| >= U32_END {
        return Err(LENGTH_OVERFLOW);
      }
      previousEnd := p.offset + p.oldLen;
    }
    if |ps| >= 0x1_0000 {
      return Err(LENGTH_OVERFLOW);
    }
    return Ok(());
  }

  ghost predicate Fits(ps: seq<StatePatch>, len: nat) {
    forall i | 0 <= i < |ps| :: End(ps[i]) <= len
  }

  /** The state a patch list describes: untouched stretches of the old one around the new bytes. */
  ghost function Patched(b: seq<byte>, ps: seq<StatePatch>, from: nat): seq<byte>
    requires Ascending(ps) && Fits(ps, |b|) && from <= |b|
    requires ps != [] ==> from <= ps[0].offset
  {
    if ps == [] then b[from..] else
      b[from..ps[0].offset] + ps[0].newBytes + Patched(b, ps[1..], End(ps[0]))
  }

  ghost function Applied(b: seq<byte>, u: StateUpdate): seq<byte>
    requires u.Patches? ==> Ascending(u.patches) && Fits(u.patches, |b|)
  {
    match u
    case Full(state) => state
    case Patches(ps) => Patched(b, ps, 0)
  }

  predicate SameLength(ps: seq<StatePatch>) {
    forall i | 0 <= i < |ps| :: |ps[i].newBytes| == ps[i].oldLen
  }

  /** Writing the patches into a copy of the old state, one after the other. */
  ghost function Overwritten(b: seq<byte>, ps: seq<StatePatch>): (r: seq<byte>)
    requires SameLength(ps) && Fits(ps, |b|)
    ensures |r| == |b|
    decreases |ps|
  {
    if ps == [] then b else
      Overwritten(Splice(b, ps[0].offset, ps[0].newBytes), ps[1..])
  }

  lemma {:induction false} PatchedReadsOn(b: seq<byte>, c: seq<byte>, ps: seq<StatePatch>, from: nat)
    requires Ascending(ps) && |b| == |c| && Fits(ps, |b|) && from <= |b|
    requires ps != [] ==> from <= ps[0].offset
    requires b[from..] == c[from..]
    ensures Patched(b, ps, from) == Patched(c, ps, from)
  {
    if ps != [] {
      assert b[from..ps[0].offset] == b[from..][..ps[0].offset - from];
      assert c[from..ps[0].offset] == c[from..][..ps[0].offset - from];
      assert b[End(ps[0])..] == b[from..][End(ps[0]) - from..];
      assert c[End(ps[0])..] == c[from..][End(ps[0]) - from..];
      PatchedReadsOn(b, c, ps[1..], End(ps[0]));
    }
  }

  lemma {:induction false} OverwrittenKeepsFront(b: seq<byte>, ps: seq<StatePatch>, upto: nat)
    requires SameLength(ps) && Fits(ps, |b|) && upto <= |b|
    requires forall i | 0 <= i < |ps| :: upto <= ps[i].offset
    ensures Overwritten(b, ps)[..upto] == b[..upto]
    decreases |ps|
  {
    if ps != [] {
      OverwrittenKeepsFront(Splice(b, ps[0].offset, ps[0].newBytes), ps[1..], upto);
    }
  }

  /** For same-length patches in order, patching and overwriting a copy give the same bytes. */
  lemma {:induction false} PatchedIsOverwritten(b: seq<byte>, ps: seq<StatePatch>, from: nat)
    requires Ascending(ps) && SameLength(ps) && Fits(ps, |b|) && from <= |b|
    requires ps != [] ==> from <= ps[0].offset
    ensures Patched(b, ps, from) == Overwritten(b, ps)[from..]
    decreases |ps|
  {
    if ps != [] {
      var p, rest := ps[0], ps[1..];
      var c := Splice(b, p.offset, p.newBytes);
      PatchedIsOverwritten(c, rest, End(p));
      PatchedReadsOn(b, c, rest, End(p));
      OverwrittenKeepsFront(c, rest, End(p));
      Stitch(b, c, Overwritten(c, rest), from, p);
    }
  }

  /** What follows `from` once `p` is spliced in and only bytes after `p` change. */
  lemma Stitch(b: seq<byte>, c: seq<byte>, r: seq<byte>, from: nat, p: StatePatch)
    requires from <= p.offset && End(p) <= |b| && |p.newBytes| == p.oldLen
    requires c == Splice(b, p.offset, p.newBytes) && |r| == |b| && r[..End(p)] == c[..End(p)]
    ensures r[from..] == b[from..p.offset] + p.newBytes + r[End(p)..]
  {
    assert r[from..] == r[..End(p)][from..] + r[End(p)..];
    assert c[..End(p)] == b[..p.offset] + p.newBytes;
  }

  /** The contracts' `replacement`: hand the patches on, or write them into a copy of the state. */
  method Replacement(b: seq<byte>, mode: Mode, ps: seq<StatePatch>) returns (u: StateUpdate)
    requires SameLength(ps) && Fits(ps, |b|)
    ensures u == if mode == DataPatchList then Patches(ps) else Full(Overwritten(b, ps))
  {
    if mode == DataPatchList {
      return Patches(ps);
    }
    var next := CopyOf(b);
    for i := 0 to |ps|
      invariant next.Length == |b|
      invariant Overwritten(next[..], ps[i..]) == Overwritten(b, ps)
    {
      assert ps[i..][0] == ps[i] && ps[i..][1..] == ps[i + 1..];
      Overwrite(next, ps[i].offset, ps[i].newBytes);
    }
    return Full(next[..]);
  }

  /** Both modes stand for the same new state. */
  lemma ModesAgree(b: seq<byte>, ps: seq<StatePatch>)
    requires Ascending(ps) && SameLength(ps) && Fits(ps, |b|)
    ensures Applied(b, Patches(ps)) == Applied(b, Full(Overwritten(b, ps)))
  {
    PatchedIsOverwritten(b, ps, 0);
  }
}
