/** The host memory manager (`src/runtime/host.rs`): one flat byte vector and a table of
    allocation lengths, proved to implement the object heap. */
module Host {
  import opened Bytes
  import opened Limits
  import opened ObjectHeap

  datatype ContractError =
    | InvalidPointer(pointer: int)
    | WriteOutOfBounds(offset: int, size: int)
    | InvalidLength(len: int)
    | AllocationTooLarge(size: int, max: int)
    | TotalMemoryExceeded(total: int, max: int)
    | AllocationOverflow
    | LinkerError(hostFunction: string)

  /** The caps a manager enforces. */
  datatype Caps = Caps(single: usize, total: usize)

  /** The limits enforced by the store, at instantiation and whenever memory or a table grows. */
  datatype StoreLimits = StoreLimits(memorySize: nat, tableElements: nat, instances: nat, tables: nat, memories: nat)

  function StoreLimitsOf(limits: WasmLimits): StoreLimits {
    StoreLimits(limits.memorySize, limits.maxTableElements, 1, 1, 1)
  }

  function CapsOf(limits: WasmLimits): Caps { Caps(limits.maxSingleAlloc, limits.maxTotalMemory) }

  /** The answer to an allocation request when `used` bytes are taken. */
  function AllocVerdict(caps: Caps, used: nat, len: nat): Result<nat, ContractError> {
    if len > caps.single then Err(AllocationTooLarge(len, caps.single))
    else if used + len > USIZE_MAX then Err(AllocationOverflow)
    else if used + len > caps.total then Err(TotalMemoryExceeded(used + len, caps.total))
    else Ok(used)
  }

  function AllocObjects(objs: seq<Object>, len: nat): seq<Object> {
    if len == 0 then objs else objs + [Zeros(len)]
  }

  /** What every reachable heap satisfies. */
  predicate HeapInv(caps: Caps, objs: seq<Object>) {
    AllNonEmpty(objs) && AllAtMost(objs, caps.single) && |Flatten(objs)| <= caps.total
  }

  lemma AllocKeepsInv(caps: Caps, objs: seq<Object>, len: nat)
    requires HeapInv(caps, objs) && AllocVerdict(caps, |Flatten(objs)|, len).Ok?
    ensures HeapInv(caps, AllocObjects(objs, len))
    ensures Flatten(AllocObjects(objs, len)) == Flatten(objs) + Zeros(len)
    ensures |Flatten(objs)| !in AsMap(objs)
    ensures AsMap(AllocObjects(objs, len)) ==
            if len == 0 then AsMap(objs) else AsMap(objs)[|Flatten(objs)| := Zeros(len)]
  {
    KeysBelowSize(objs);
    FlattenSnoc(objs, Zeros(len));
    assert Flatten(objs) + [] == Flatten(objs);
  }

  /** Overwriting part of the object at `p`. */
  function WriteObjects(objs: seq<Object>, p: int, offset: nat, data: seq<byte>): seq<Object>
    requires p in AsMap(objs) && offset + |data| <= |AsMap(objs)[p]|
  {
    objs[IndexOf(objs, p) := Splice(AsMap(objs)[p], offset, data)]
  }

  lemma WriteKeepsInv(caps: Caps, objs: seq<Object>, p: int, offset: nat, data: seq<byte>)
    requires HeapInv(caps, objs)
    requires p in AsMap(objs) && offset + |data| <= |AsMap(objs)[p]|
    ensures var objs' := WriteObjects(objs, p, offset, data);
            && HeapInv(caps, objs')
            && AsMap(objs') == AsMap(objs)[p := Splice(AsMap(objs)[p], offset, data)]
            && 0 <= p <= p + offset + |data| <= |Flatten(objs)|
            && Flatten(objs') == Splice(Flatten(objs), p + offset, data)
  {
    var i := IndexOf(objs, p);
    var o := objs[i];
    var o' := Splice(o, offset, data);
    ObjectInFlat(objs, i);
    ReplaceObject(objs, i, o');
    ReplaceInMap(objs, i, o');
    SpliceWithin(Flatten(objs), p, o, offset, data);
  }

  /** Writing to the object allocated last. */
  lemma WriteLast(objs: seq<Object>, o: Object, offset: nat, data: seq<byte>)
    requires AllNonEmpty(objs) && o != [] && offset + |data| <= |o|
    ensures var p, grown := |Flatten(objs)|, objs + [o];
            && p in AsMap(grown) && AsMap(grown)[p] == o
            && WriteObjects(grown, p, offset, data) == objs + [Splice(o, offset, data)]
  {
    hide Flatten, AsMap;
    FlattenSnoc(objs, o);
    var grown := objs + [o];
    assert grown[..|objs|] == objs;
    ObjectInMap(grown, |objs|);
    assert grown[|objs| := Splice(o, offset, data)] == objs + [Splice(o, offset, data)];
  }

  /** Filling a fresh object leaves exactly the data in it. */
  lemma FillFresh(objs: seq<Object>, data: seq<byte>)
    requires AllNonEmpty(objs) && data != []
    ensures var p, grown := |Flatten(objs)|, AllocObjects(objs, |data|);
            && p in AsMap(grown) && AsMap(grown)[p] == Zeros(|data|)
            && WriteObjects(grown, p, 0, data) == objs + [data]
            && AsMap(objs + [data]) == AsMap(objs)[p := data]
  {
    hide Flatten, AsMap, WriteObjects;
    FlattenSnoc(objs, data);
    WriteLast(objs, Zeros(|data|), 0, data);
    assert Splice(Zeros(|data|), 0, data) == data;
  }

  lemma SpliceWithin(flat: seq<byte>, p: nat, o: seq<byte>, offset: nat, data: seq<byte>)
    requires p + |o| <= |flat| && flat[p..p + |o|] == o && offset + |data| <= |o|
    ensures Splice(flat, p, Splice(o, offset, data)) == Splice(flat, p + offset, data)
  {
    assert flat[..p] + o[..offset] == flat[..p + offset];
    assert o[offset + |data|..] + flat[p + |o|..] == flat[p + offset + |data|..];
  }

  function Lengths(heap: map<int, Object>): map<int, nat> { map p | p in heap :: |heap[p]| }

  lemma LengthsUpdate(heap: map<int, Object>, p: int, o: Object)
    ensures Lengths(heap[p := o]) == Lengths(heap)[p := |o|]
    ensures p in heap && |heap[p]| == |o| ==> Lengths(heap[p := o]) == Lengths(heap)
  {
  }

  class MemoryManager {
    var memory: seq<byte>
    var table: map<int, nat>
    const caps: Caps
    const storeLimits: StoreLimits
    /** The objects this memory holds, in address order. */
    ghost var objs: seq<Object>

    ghost predicate Valid()
      reads this
    {
      && HeapInv(caps, objs)
      && memory == Flatten(objs)
      && table == Lengths(AsMap(objs))
    }

    ghost function Heap(): map<int, Object>
      reads this
    {
      AsMap(objs)
    }

    constructor FromLimits(limits: WasmLimits)
      ensures Valid() && objs == [] && caps == CapsOf(limits) && storeLimits == StoreLimitsOf(limits)
      ensures caps.single == limits.maxSingleAlloc && caps.total == limits.maxTotalMemory
      ensures storeLimits.memorySize == limits.memorySize && storeLimits.tableElements == limits.maxTableElements
      ensures storeLimits.instances == storeLimits.tables == storeLimits.memories == 1
    {
      memory, table := [], map[];
      caps := CapsOf(limits);
      storeLimits := StoreLimitsOf(limits);
      objs := [];
    }

    /** `alloc`: a fresh zeroed object at the end of memory; empty ones are not tracked. */
    method Alloc(len: nat) returns (r: Result<nat, ContractError>)
      requires Valid()
      modifies this
      ensures Valid()
      ensures r == AllocVerdict(caps, |old(memory)|, len)
      ensures r == Ok(|old(memory)|) <==> len <= caps.single && |old(memory)| + len <= caps.total
      ensures r == Err(AllocationTooLarge(len, caps.single)) <==> len > caps.single
      ensures r == Err(TotalMemoryExceeded(|old(memory)| + len, caps.total)) <==>
                len <= caps.single && caps.total < |old(memory)| + len <= USIZE_MAX
      ensures r.Err? ==> objs == old(objs)
      ensures r.Ok? ==> objs == AllocObjects(old(objs), len) && r.value !in old(Heap())
      ensures r.Ok? && len > 0 ==> Heap() == old(Heap())[r.value := Zeros(len)]
    {
      hide Flatten, AsMap, AllNonEmpty, AllAtMost, Lengths;
      if len > caps.single {
        return Err(AllocationTooLarge(len, caps.single));
      }
      var current := |memory|;
      if current + len > USIZE_MAX {
        return Err(AllocationOverflow);
      }
      var newLen := current + len;
      if newLen > caps.total {
        return Err(TotalMemoryExceeded(newLen, caps.total));
      }
      AllocKeepsInv(caps, objs, len);
      LengthsUpdate(AsMap(objs), current, Zeros(len));
      memory := memory + Zeros(len);
      if len > 0 {
        table := table[current := len];
        objs := objs + [Zeros(len)];
      }
      return Ok(current);
    }

    /** `read_data`: the object at a tracked pointer and nothing else; its inner bounds checks
        never fire. */
    method ReadData(p: usize) returns (r: Result<seq<byte>, ContractError>)
      requires Valid()
      ensures r == if p in Heap() then Ok(Heap()[p]) else Err(InvalidPointer(p))
    {
      if p !in table {
        return Err(InvalidPointer(p));
      }
      ObjectInFlat(objs, IndexOf(objs, p));
      var end := p + table[p];
      if end > USIZE_MAX || end > |memory| {
        return Err(InvalidPointer(p));
      }
      return Ok(memory[p..end]);
    }

    /** `read_bytes`: any range inside memory. */
    method ReadBytes(p: usize, len: nat) returns (r: Result<seq<byte>, ContractError>)
      requires Valid()
      ensures r == ReadRange(objs, p, len)
      ensures r == if p + len <= |memory| then Ok(memory[p..p + len]) else Err(InvalidPointer(p))
    {
      if p + len > USIZE_MAX {
        return Err(InvalidPointer(p));
      }
      if p + len > |memory| {
        return Err(InvalidPointer(p));
      }
      return Ok(memory[p..p + len]);
    }

    /** `write_bytes`: overwrites the start of the object at `p`; no other object changes. */
    method WriteBytes(p: usize, data: seq<byte>) returns (r: Result<(), ContractError>)
      requires Valid()
      modifies this
      ensures Valid()
      ensures r == WriteVerdict(old(Heap()), p, data)
      ensures r.Ok? <==> p in old(Heap()) && |data| <= |old(Heap())[p]|
      ensures r == Err(InvalidPointer(p)) <==> p !in old(Heap())
      ensures p in old(Heap()) && r.Err? ==> r.error == WriteOutOfBounds(|data|, |old(Heap())[p]|)
      ensures r.Err? ==> objs == old(objs)
      ensures r.Ok? ==> objs == WriteObjects(old(objs), p, 0, data)
      ensures r.Ok? ==> Heap() == old(Heap())[p := Splice(old(Heap())[p], 0, data)]
    {
      hide Flatten, AsMap, IndexOf, AllNonEmpty, AllAtMost, WriteObjects;
      if p !in table {
        return Err(InvalidPointer(p));
      }
      var len := table[p];
      if |data| > len {
        return Err(WriteOutOfBounds(|data|, len));
      }
      WriteKeepsInv(caps, objs, p, 0, data);
      LengthsUpdate(AsMap(objs), p, Splice(AsMap(objs)[p], 0, data));
      var end := p + |data|;
      if end > USIZE_MAX || end > |memory| {
        return Err(InvalidPointer(p));
      }
      memory := Splice(memory, p, data);
      objs := WriteObjects(objs, p, 0, data);
      return Ok(());
    }

    /** `write_bytes_at`: the same at an offset into the object. */
    method WriteBytesAt(p: usize, offset: usize, data: seq<byte>) returns (r: Result<(), ContractError>)
      requires Valid()
      modifies this
      ensures Valid()
      ensures p !in old(Heap()) ==> r == Err(InvalidPointer(p))
      ensures p in old(Heap()) ==> (r.Ok? <==> offset + |data| <= |old(Heap())[p]|)
      ensures p in old(Heap()) && r.Err? ==>
                r.error == if p + offset + |data| > USIZE_MAX then InvalidPointer(p)
                           else WriteOutOfBounds(offset + |data|, |old(Heap())[p]|)
      ensures r.Err? ==> objs == old(objs)
      ensures r.Ok? ==> objs == WriteObjects(old(objs), p, offset, data)
      ensures r.Ok? ==> Heap() == old(Heap())[p := Splice(old(Heap())[p], offset, data)]
    {
      hide Flatten, AsMap, IndexOf, AllNonEmpty, AllAtMost, WriteObjects;
      if p !in table {
        return Err(InvalidPointer(p));
      }
      var len := table[p];
      ObjectInFlat(objs, IndexOf(objs, p));
      var start := p + offset;
      if start > USIZE_MAX {
        return Err(InvalidPointer(p));
      }
      var end := start + |data|;
      if end > USIZE_MAX {
        return Err(InvalidPointer(p));
      }
      if end > Min(p + len, USIZE_MAX) || end > |memory| {
        return Err(WriteOutOfBounds(Min(offset + |data|, USIZE_MAX), len));
      }
      WriteKeepsInv(caps, objs, p, offset, data);
      LengthsUpdate(AsMap(objs), p, Splice(AsMap(objs)[p], offset, data));
      memory := Splice(memory, start, data);
      objs := WriteObjects(objs, p, offset, data);
      return Ok(());
    }

    /** `add_data_raw`: allocate and fill. */
    method AddDataRaw(data: seq<byte>) returns (r: Result<nat, ContractError>)
      requires Valid()
      modifies this
      ensures Valid()
      ensures r == AllocVerdict(caps, |old(memory)|, |data|)
      ensures r.Err? || data == [] ==> objs == old(objs)
      ensures r.Ok? && data != [] ==> objs == old(objs) + [data] && Heap() == old(Heap())[r.value := data]
    {
      hide Flatten, AsMap, IndexOf, AllNonEmpty, AllAtMost, Lengths, WriteObjects;
      r := Alloc(|data|);
      if r.Ok? && |data| > 0 {
        var p := r.value;
        WriteKeepsInv(caps, objs, p, 0, data);
        LengthsUpdate(AsMap(objs), p, Splice(AsMap(objs)[p], 0, data));
        FillFresh(old(objs), data);
        memory := Splice(memory, p, data);
        objs := WriteObjects(objs, p, 0, data);
      }
    }

    /** `get_pointer_len`: -1 stands for an unknown pointer. */
    method GetPointerLen(p: usize) returns (r: int)
      requires Valid()
      ensures r == PointerLength(Heap(), p)
      ensures if p in Heap() then r == |Heap()[p]| else r == -1
    {
      r := if p in table then table[p] else -1;
    }
  }

  function ReadRange(objs: seq<Object>, p: nat, len: nat): Result<seq<byte>, ContractError> {
    if p + len <= |Flatten(objs)| then Ok(Flatten(objs)[p..p + len]) else Err(InvalidPointer(p))
  }

  function WriteVerdict(heap: map<int, Object>, p: nat, data: seq<byte>): Result<(), ContractError> {
    if p !in heap then Err(InvalidPointer(p))
    else if |data| > |heap[p]| then Err(WriteOutOfBounds(|data|, |heap[p]|))
    else Ok(())
  }

  function PointerLength(heap: map<int, Object>, p: nat): int {
    if p in heap then |heap[p]| else -1
  }

  /** `checked_guest_len`. */
  function CheckedGuestLen(len: i32, single: nat): (r: Result<nat, ContractError>)
    ensures r.Ok? <==> 0 <= len <= single
    ensures r.Ok? ==> r.value == len
    ensures r == Err(InvalidLength(len)) <==> len < 0
    ensures r == Err(AllocationTooLarge(len, single)) <==> len > single
  {
    if len < 0 then Err(InvalidLength(len))
    else if len > single then Err(AllocationTooLarge(len, single))
    else Ok(len)
  }

  /** The first allocation, and only it, is at address 0. */
  lemma NullAllocationIff(caps: Caps, objs: seq<Object>, len: nat)
    requires HeapInv(caps, objs)
    ensures AllocVerdict(caps, |Flatten(objs)|, len) == Ok(0) <==> objs == [] && len <= caps.single && len <= caps.total
  {
    if objs != [] {
      ObjectInFlat(objs, 0);
    }
  }

  // ---- Raw range reads are not confined to objects ----

  /** There is an object at `q`, and every byte read lies in it. */
  ghost predicate ServedFrom(objs: seq<Object>, p: nat, len: nat, q: int)
    requires p + len <= |Flatten(objs)|
  {
    q in AsMap(objs) && forall a :: p <= a < p + len ==> Owner(objs, a) == q
  }

  /** The range read lies inside the object at `q`. */
  predicate Covers(objs: seq<Object>, q: int, p: nat, len: nat) {
    q in AsMap(objs) && q <= p && p + len <= q + |AsMap(objs)[q]|
  }

  /** For any pointer, tracked or not: the bytes of a successful read come from one object `q`
      exactly when that object covers the range, and then they are that part of it. */
  lemma ReadServedFromIff(caps: Caps, objs: seq<Object>, p: nat, len: nat, q: int)
    requires HeapInv(caps, objs) && len > 0 && ReadRange(objs, p, len).Ok?
    ensures ServedFrom(objs, p, len, q) <==> Covers(objs, q, p, len)
    ensures Covers(objs, q, p, len) ==> ReadRange(objs, p, len).value == AsMap(objs)[q][p - q..p - q + len]
  {
    hide Flatten, AsMap, AllAtMost;
    if Covers(objs, q, p, len) {
      forall a | p <= a < p + len ensures Owner(objs, a) == q {
        Partition(objs, a);
      }
      var i := IndexOf(objs, q);
      ObjectInFlat(objs, i);
      SliceOfSlice(Flatten(objs), q, q + |objs[i]|, p - q, p - q + len);
    }
    if ServedFrom(objs, p, len, q) {
      assert Owner(objs, p) == q && Owner(objs, p + len - 1) == q;
    }
  }

  lemma SliceOfSlice(s: seq<byte>, a: nat, b: nat, i: nat, j: nat)
    requires a <= b <= |s| && i <= j <= b - a
    ensures s[a..b][i..j] == s[a + i..a + j]
  {
    var left, right := s[a..b][i..j], s[a + i..a + j];
    assert |left| == |right|;
    assert forall k :: 0 <= k < |left| ==> left[k] == s[a + i + k] == right[k];
  }

  /** A successful read stays inside one object exactly when some object covers the range, and it is
      served from the object that `p` names exactly when `p` is tracked and asks for no more than
      that object holds. */
  lemma ReadConfinedIff(caps: Caps, objs: seq<Object>, p: nat, len: nat)
    requires HeapInv(caps, objs) && ReadRange(objs, p, len).Ok?
    ensures (exists q :: ServedFrom(objs, p, len, q)) <==> (exists q :: Covers(objs, q, p, len))
    ensures len > 0 ==> forall q, q' :: Covers(objs, q, p, len) && Covers(objs, q', p, len) ==> q == q'
    ensures ServedFrom(objs, p, len, p) <==> p in AsMap(objs) && len <= |AsMap(objs)[p]|
  {
    hide Flatten, AsMap, Owner;
    if len > 0 {
      forall q ensures ServedFrom(objs, p, len, q) <==> Covers(objs, q, p, len) {
        ReadServedFromIff(caps, objs, p, len, q);
      }
      Partition(objs, p);
    } else if q :| q in AsMap(objs) {
      assert ServedFrom(objs, p, len, q);
      SomeObjectReaches(objs, p);
    }
  }

  /** Every address up to the end of a non-empty memory touches an object. */
  lemma SomeObjectReaches(objs: seq<Object>, p: nat)
    requires AllNonEmpty(objs) && p <= |Flatten(objs)| && AsMap(objs) != map[]
    ensures exists q :: Covers(objs, q, p, 0)
  {
    if p < |Flatten(objs)| {
      assert Covers(objs, Owner(objs, p), p, 0);
    } else {
      var i := |objs| - 1;
      ObjectInMap(objs, i);
      assert Covers(objs, Base(objs, i), p, 0);
    }
  }

  lemma NothingStored()
    ensures Flatten([]) == [] && AsMap([]) == map[]
  {
  }

  lemma OneObject(a: Object)
    requires a != []
    ensures Flatten([a]) == a && AsMap([a]) == map[0 := a]
  {
    hide Flatten, AsMap;
    NothingStored();
    FlattenSnoc([], a);
    assert [] + [a] == [a];
  }

  lemma TwoObjects(a: Object, b: Object)
    requires a != [] && b != []
    ensures Flatten([a, b]) == a + b && AsMap([a, b]) == map[0 := a, |a| := b]
  {
    hide Flatten, AsMap;
    OneObject(a);
    FlattenSnoc([a], b);
    assert [a] + [b] == [a, b];
  }

  /** A longer request is served from the objects that follow, and a pointer that no allocation
      returned is served from inside an object. */
  lemma ReadCrossesObjects()
    ensures var objs: seq<Object> := [[1], [2, 3]];
            && 0 in AsMap(objs) && AsMap(objs)[0] == [1] && ReadRange(objs, 0, 3) == Ok([1, 2, 3])
            && 2 !in AsMap(objs) && ReadRange(objs, 2, 1) == Ok([3])
  {
    hide Flatten, AsMap;
    TwoObjects([1], [2, 3]);
    var flat := Flatten([[1], [2, 3]]);
    assert flat == [1, 2, 3];
    assert flat[0..3] == flat;
    assert flat[2..3] == [flat[2]];
  }
}
