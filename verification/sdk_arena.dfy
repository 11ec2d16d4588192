/**
 * The guest arena: one byte array that holds at most two live regions, input below output, freed in reverse order.
 * Pointers are `base` plus an offset; a machine on which the array has no 32-bit address has no base.
 */
module SdkArena {
  import opened Bytes
  import opened Sums
  import opened SdkOutput
  import opened SdkWriter

  const SLOTS := 2

  /** The live regions, oldest first, as their lengths: each starts where the one before ends. */
  type Regions = seq<nat>

  datatype Action = Allocate(len: u32) | Free(ptr: u32, len: u32)

  /** Where the next region would start. */
  function Top(regions: Regions): nat { Sum(regions) }

  function Start(regions: Regions, k: nat): nat
    requires k < |regions|
  {
    Sum(regions[..k])
  }

  predicate MayAllocate(regions: Regions, capacity: nat, base: Option<u32>, len: u32) {
    && len != 0
    && |regions| < SLOTS
    && Top(regions) + len <= capacity < U32_END
    && base.Some? && 0 < base.value + Top(regions) < U32_END
  }

  predicate MayFree(regions: Regions, base: Option<u32>, ptr: u32, len: u32) {
    && regions != [] && base.Some?
    && ptr == base.value + Start(regions, |regions| - 1)
    && len == regions[|regions| - 1]
  }

  /** What one call does to the live regions; a refused call does nothing. */
  function After(regions: Regions, capacity: nat, base: Option<u32>, a: Action): Regions {
    match a
    case Allocate(len) => if MayAllocate(regions, capacity, base, len) then regions + [len] else regions
    case Free(ptr, len) => if MayFree(regions, base, ptr, len) then regions[..|regions| - 1] else regions
  }

  function Exec(regions: Regions, capacity: nat, base: Option<u32>, actions: seq<Action>): Regions
    decreases |actions|
  {
    if actions == [] then regions else Exec(After(regions, capacity, base, actions[0]), capacity, base, actions[1..])
  }

  ghost predicate Sound(regions: Regions, capacity: nat) {
    && |regions| <= SLOTS
    && (forall k | 0 <= k < |regions| :: regions[k] > 0)
    && Top(regions) <= capacity
  }

  lemma AfterIsSound(regions: Regions, capacity: nat, base: Option<u32>, a: Action)
    requires Sound(regions, capacity)
    ensures Sound(After(regions, capacity, base, a), capacity)
  {
    match a
    case Allocate(len) => SumSnoc(regions, len);
    case Free(_, _) => if regions != [] {
      SumPrefixLe(regions, |regions| - 1);
    }
  }

  lemma {:induction false} ExecIsSound(regions: Regions, capacity: nat, base: Option<u32>, actions: seq<Action>)
    requires Sound(regions, capacity)
    ensures Sound(Exec(regions, capacity, base, actions), capacity)
    decreases |actions|
  {
    if actions != [] {
      AfterIsSound(regions, capacity, base, actions[0]);
      ExecIsSound(After(regions, capacity, base, actions[0]), capacity, base, actions[1..]);
    }
  }

  /**
   * After any sequence of calls, granted or refused, the live regions follow one another without gap or overlap
   * and end within the capacity.
   */
  lemma RegionsStayApart(capacity: nat, base: Option<u32>, actions: seq<Action>)
    ensures var regions := Exec([], capacity, base, actions);
      && |regions| <= SLOTS
      && (|regions| > 0 ==> Start(regions, 0) == 0)
      && (forall k | 0 <= k < |regions| :: Start(regions, k) < Start(regions, k) + regions[k] <= capacity)
      && (forall k | 0 < k < |regions| :: Start(regions, k) == Start(regions, k - 1) + regions[k - 1])
      && (forall j, k | 0 <= j < k < |regions| :: Start(regions, j) + regions[j] <= Start(regions, k))
  {
    ExecIsSound([], capacity, base, actions);
    var regions := Exec([], capacity, base, actions);
    hide Sum;
    forall k | 0 <= k < |regions| ensures Start(regions, k) + regions[k] == Sum(regions[..k + 1]) <= capacity {
      SumPrefix(regions, k);
      SumPrefixLe(regions, k + 1);
    }
    forall j, k | 0 <= j < k < |regions| ensures Start(regions, j) + regions[j] <= Start(regions, k) {
      StartsAscend(regions, j, k);
    }
    if |regions| > 0 {
      FirstAtZero(regions);
    }
  }

  lemma FirstAtZero(regions: Regions)
    requires |regions| > 0
    ensures Start(regions, 0) == 0
  {
  }

  lemma StartsAscend(regions: Regions, j: nat, k: nat)
    requires j < k < |regions|
    ensures Start(regions, j) + regions[j] <= Start(regions, k)
  {
    SumPrefix(regions, j);
    SumPrefixLe(regions[..k], j + 1);
    assert regions[..k][..j + 1] == regions[..j + 1];
  }

  /** Freeing what was just allocated undoes the allocation, and only the newest region can be freed. */
  lemma FreeUndoesAllocate(regions: Regions, capacity: nat, base: Option<u32>, len: u32)
    requires MayAllocate(regions, capacity, base, len)
    ensures var ptr := base.value + Top(regions);
      After(regions + [len], capacity, base, Free(ptr, len)) == regions
  {
    assert (regions + [len])[..|regions|] == regions;
  }

  /**
   * Whatever was asked before: a region is granted exactly when fewer than two are live, it is not empty, it fits
   * above them, and its pointer is a 32-bit number other than zero; it is given back exactly when it is the newest.
   */
  lemma GrantsAndFreesExactly(capacity: nat, base: Option<u32>, actions: seq<Action>, ptr: u32, len: u32)
    ensures var regions := Exec([], capacity, base, actions);
      var n := |regions|;
      && (After(regions, capacity, base, Action.Allocate(len)) ==
            if n < 2 && len > 0 && Sum(regions) + len <= capacity < U32_END && base.Some?
               && 0 < base.value + Sum(regions) < U32_END then regions + [len] else regions)
      && (After(regions, capacity, base, Action.Free(ptr, len)) ==
            if n > 0 && base.Some? && ptr + len == base.value + Sum(regions) && len == regions[n - 1]
            then regions[..n - 1] else regions)
  {
    var regions := Exec([], capacity, base, actions);
    if regions != [] {
      SumPrefix(regions, |regions| - 1);
      assert regions[..|regions|] == regions;
    }
  }

  /** An arena with an address takes any input and any output that fit together, and both can be given back again. */
  lemma TwoRegionsFit(capacity: nat, base: u32, a: u32, b: u32)
    requires 0 < a && 0 < b && a + b <= capacity < U32_END && 0 < base && base + a < U32_END
    ensures Exec([], capacity, Some(base), [Action.Allocate(a), Action.Allocate(b)]) == [a, b]
    ensures Exec([a, b], capacity, Some(base), [Action.Free(base + a, b), Action.Free(base, a)]) == []
  {
    hide After, Exec, Sum;
    TwoSteps([], capacity, Some(base), Action.Allocate(a), Action.Allocate(b));
    TwoSteps([a, b], capacity, Some(base), Action.Free(base + a, b), Action.Free(base, a));
    BothGranted(capacity, base, a, b);
    BothFreed(capacity, base, a, b);
  }

  lemma SumOfTwo(a: nat, b: nat)
    ensures Sum([]) == 0 && Sum([a]) == a && Sum([a, b]) == a + b
  {
    SumSnoc([], a);
    SumSnoc([a], b);
    assert [] + [a] == [a] && [a] + [b] == [a, b];
  }

  lemma BothGranted(capacity: nat, base: u32, a: u32, b: u32)
    requires 0 < a && 0 < b && a + b <= capacity < U32_END && 0 < base && base + a < U32_END
    ensures After([], capacity, Some(base), Action.Allocate(a)) == [a]
    ensures After([a], capacity, Some(base), Action.Allocate(b)) == [a, b]
  {
    hide Sum;
    SumOfTwo(a, b);
  }

  lemma BothFreed(capacity: nat, base: u32, a: u32, b: u32)
    requires base + a < U32_END
    ensures After([a, b], capacity, Some(base), Action.Free(base + a, b)) == [a]
    ensures After([a], capacity, Some(base), Action.Free(base, a)) == []
  {
    hide Sum;
    SumOfTwo(a, b);
    assert [a, b][..1] == [a] && [a][..0] == [];
  }

  lemma TwoSteps(regions: Regions, capacity: nat, base: Option<u32>, x: Action, y: Action)
    ensures Exec(regions, capacity, base, [x, y]) == After(After(regions, capacity, base, x), capacity, base, y)
  {
    hide After;
    var both := [x, y];
    assert both[1..] == [y] && [y][1..] == [];
    assert Exec(After(regions, capacity, base, x), capacity, base, [y])
        == After(After(regions, capacity, base, x), capacity, base, y);
  }

  class GuestArena {
    const bytes: array<byte>
    const base: Option<u32>
    var next: u32
    var starts: seq<u32>
    var lengths: seq<u32>
    var count: nat

    ghost function Live(): Regions
      requires count <= |lengths|
      reads this
    {
      lengths[..count]
    }

    ghost predicate Valid()
      reads this
    {
      && |starts| == |lengths| == SLOTS && count <= SLOTS
      && Sound(Live(), bytes.Length)
      && next == Top(Live())
      && (forall k | 0 <= k < count :: starts[k] == Start(Live(), k))
      && (count > 0 ==> base.Some? && bytes.Length < U32_END)
    }

    constructor (capacity: nat, base: Option<u32>)
      ensures Valid() && Live() == [] && bytes.Length == capacity && this.base == base && fresh(bytes)
    {
      bytes := new byte[capacity](_ => 0);
      this.base := base;
      next := 0;
      starts := [0, 0];
      lengths := [0, 0];
      count := 0;
    }

    /** `allocate`: the pointer of a fresh region above the live ones, or zero. */
    method Allocate(len: u32) returns (ptr: u32)
      requires Valid()
      modifies this
      ensures Valid()
      ensures Live() == After(old(Live()), bytes.Length, base, Action.Allocate(len))
      ensures ptr == if MayAllocate(old(Live()), bytes.Length, base, len) then base.value + Top(old(Live())) else 0
    {
      if len == 0 {
        return 0;
      }
      if count >= SLOTS {
        return 0;
      }
      var start := next;
      if start + len >= U32_END {
        return 0;
      }
      var end := start + len;
      if bytes.Length >= U32_END {
        return 0;
      }
      if end > bytes.Length {
        return 0;
      }
      if base.None? || base.value + start >= U32_END {
        return 0;
      }
      ptr := base.value + start;
      if ptr == 0 {
        return 0;
      }
      ghost var before := Live();
      SumSnoc(before, len);
      starts := starts[count := start];
      lengths := lengths[count := len];
      next := end;
      count := count + 1;
      assert Live() == before + [len];
      assert forall k | 0 <= k < count :: Live()[..k] == before[..k];
    }

    /** `offset`: how far a pointer lies into the array. */
    function Offset(ptr: u32): Option<nat> {
      if base.None? || ptr < base.value || ptr - base.value >= bytes.Length then None else Some(ptr - base.value)
    }

    /** `free`: only the newest region, named exactly, is given back. */
    method Free(ptr: u32, len: u32) returns (ok: bool)
      requires Valid()
      modifies this
      ensures Valid()
      ensures ok == MayFree(old(Live()), base, ptr, len)
      ensures Live() == After(old(Live()), bytes.Length, base, Action.Free(ptr, len))
    {
      ghost var before := Live();
      if count > 0 {
        SumPrefix(before, count - 1);
        assert before[..count] == before;
      }
      var offset := Offset(ptr);
      if offset.None? {
        return false;
      }
      if count == 0 {
        return false;
      }
      var slot := count - 1;
      if starts[slot] != offset.value || lengths[slot] != len {
        return false;
      }
      if offset.value + len >= U32_END {
        return false;
      }
      if len == 0 || next != offset.value + len {
        return false;
      }
      next := offset.value;
      count := slot;
      assert Live() == before[..slot];
      assert forall k | 0 <= k < count :: Live()[..k] == before[..k];
      return true;
    }

    /** The bytes below the top of the live regions. */
    ghost function Contents(): seq<byte>
      requires Valid()
      reads this, bytes
    {
      bytes[..next]
    }

    /** `read`: a copy of live bytes, eight at a time and then the rest. */
    method Read(ptr: u32, len: u32) returns (r: Option<seq<byte>>)
      requires Valid()
      ensures r == if Offset(ptr).Some? && Offset(ptr).value + len <= next
                   then Some(bytes[Offset(ptr).value..Offset(ptr).value + len]) else None
    {
      var offset := Offset(ptr);
      if offset.None? {
        return None;
      }
      var start := offset.value;
      if start + len > next {
        return None;
      }
      var copy: seq<byte> := [];
      var at := start;
      while at + 8 <= start + len
        invariant start <= at <= start + len
        invariant copy == bytes[start..at]
      {
        copy := copy + [bytes[at], bytes[at + 1], bytes[at + 2], bytes[at + 3],
                        bytes[at + 4], bytes[at + 5], bytes[at + 6], bytes[at + 7]];
        at := at + 8;
      }
      while at < start + len
        invariant start <= at <= start + len
        invariant copy == bytes[start..at]
      {
        copy := copy + [bytes[at]];
        at := at + 1;
      }
      return Some(copy);
    }

    /**
     * What writing an output does, seen from outside. Exactly when the output serialises to the length asked for and
     * a region of that length is free, its bytes stand right after the intact live ones and the packed pointer and
     * length come back. Otherwise zero comes back and the live regions and their bytes are as before.
     */
    twostate predicate Delivered(output: Option<seq<byte>>, length: nat, packed: nat)
      requires old(Valid()) && Valid()
      reads this, bytes
    {
      if length < U32_END && MayAllocate(old(Live()), bytes.Length, base, length) && output.Some?
         && |output.value| == length
      then
        && packed == (base.value + old(next)) * U32_END + length
        && Live() == old(Live()) + [length]
        && Contents() == old(Contents()) + output.value
      else packed == 0 && Live() == old(Live()) && Contents() == old(Contents())
    }

    /** The first half of `write_output`: a region and a writer over it. */
    method Reserve(length: nat) returns (ptr: u32, w: OutputWriter?)
      requires Valid()
      modifies this
      ensures Valid()
      ensures var may := length < U32_END && MayAllocate(old(Live()), bytes.Length, base, length);
        if may
        then
          && ptr == base.value + old(next) && MayFree(Live(), base, ptr, length) && Live() == old(Live()) + [length]
          && w != null && fresh(w) && w.Valid() && w.windowed && w.Written() == []
          && w.cells == bytes && w.start == w.at == old(next) && w.end == old(next) + length == next
        else ptr == 0 && w == null && Live() == old(Live()) && next == old(next)
    {
      w := null;
      if length >= U32_END {
        return 0, null;
      }
      ptr := Allocate(length);
      if ptr == 0 {
        return 0, null;
      }
      assert Live()[..|Live()| - 1] == old(Live());
      SumSnoc(old(Live()), length);
      var start := Offset(ptr).value;
      w := new OutputWriter.Window(bytes, start, start + length);
    }

    /** The second half: keep an exactly filled region, give any other back. */
    method Settle(filled: bool, ptr: u32, length: u32) returns (packed: nat)
      requires Valid() && ptr != 0 && MayFree(Live(), base, ptr, length)
      modifies this
      ensures Valid()
      ensures packed == if filled then ptr * U32_END + length else 0
      ensures Live() == if filled then old(Live()) else old(Live())[..|old(Live())| - 1]
    {
      if !filled {
        var _ := Free(ptr, length);
        return 0;
      }
      return ptr * U32_END + length;
    }

    /** `write_output` around the message serialiser. */
    method WriteMessageOutput(length: nat, m: MessageOutput) returns (packed: nat)
      requires Valid()
      modifies this, bytes
      ensures Valid()
      ensures Delivered(if SizedMessage(m) then Some(MessageBytes(m)) else None, length, packed)
    {
      hide Sum, Sound, SizedMessage, MessageBytes, OutputWriter.Written, OutputWriter.Outside;
      var ptr, w := Reserve(length);
      if w == null {
        return 0;
      }
      var filled := FillMessage(w, m);
      assert filled ==> bytes[..w.end] == bytes[..w.start] + bytes[w.start..w.end];
      packed := Settle(filled, ptr, length);
    }

    /** `write_output` around the batch serialiser. */
    method WriteBatchOutput(length: nat, b: BatchOutput) returns (packed: nat)
      requires Valid()
      modifies this, bytes
      ensures Valid()
      ensures Delivered(if SizedBatch(b) then Some(BatchBytes(b)) else None, length, packed)
    {
      hide Sum, Sound, SizedBatch, BatchBytes, OutputWriter.Written, OutputWriter.Outside;
      var ptr, w := Reserve(length);
      if w == null {
        return 0;
      }
      var filled := FillBatch(w, b);
      assert filled ==> bytes[..w.end] == bytes[..w.start] + bytes[w.start..w.end];
      packed := Settle(filled, ptr, length);
    }
  }
}
