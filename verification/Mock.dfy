/** The test double of the host (`src/externf.rs`): a second implementation of the heap, with
    pointers counted from 1000 and a switch that makes allocation fail. */
module Mock {
  import opened Bytes

  class MockHost {
    var memory: map<int, seq<byte>>
    var nextId: i32
    var forceAllocZero: bool

    ghost predicate Valid()
      reads this
    {
      1000 <= nextId
    }

    /** No object lives under an id still to be handed out. Storing and allocating keep this, and so
        does writing to a pointer that was handed out. */
    ghost predicate IdsAhead()
      reads this
    {
      forall p :: p in memory ==> p < nextId
    }

    /** `reset`. */
    constructor ()
      ensures Valid() && IdsAhead() && memory == map[] && nextId == 1000 && !forceAllocZero
    {
      memory, nextId, forceAllocZero := map[], 1000, false;
    }

    /** `store_data`; None is the panic of an id counter at its maximum. */
    method StoreData(data: seq<byte>) returns (r: Option<i32>)
      requires Valid()
      modifies this
      ensures Valid() && (old(IdsAhead()) ==> IdsAhead()) && forceAllocZero == old(forceAllocZero)
      ensures r.None? <==> old(nextId) == I32_MAX
      ensures r.None? ==> memory == old(memory) && nextId == old(nextId)
      ensures r.Some? ==> r.value == old(nextId) && (old(IdsAhead()) ==> r.value !in old(memory))
      ensures r.Some? ==> memory == old(memory)[r.value := data] && nextId == r.value + 1
    {
      if nextId == I32_MAX {
        return None;
      }
      var p := nextId;
      nextId := nextId + 1;
      memory := memory[p := data];
      return Some(p);
    }

    method GetData(p: i32) returns (r: Option<seq<byte>>)
      ensures r == if p in memory then Some(memory[p]) else None
    {
      r := if p in memory then Some(memory[p]) else None;
    }

    /** `pointer_len`: unlike on the real host an unknown pointer has length 0, and a length beyond
        `i32` is truncated to a different one. */
    method PointerLen(p: i32) returns (len: i32)
      ensures p !in memory ==> len == 0
      ensures p in memory ==> (len == |memory[p]| <==> |memory[p]| <= I32_MAX)
      ensures p in memory ==> I32AsU32(len) == |memory[p]| % U32_LIMIT
    {
      var n := if p in memory then |memory[p]| else 0;
      len := U32AsI32(n % U32_LIMIT);
    }

    /** `alloc`; None is the panic of an id counter at its maximum. */
    method Alloc(len: u32) returns (r: Option<i32>)
      requires Valid()
      modifies this
      ensures Valid() && (old(IdsAhead()) ==> IdsAhead()) && forceAllocZero == old(forceAllocZero)
      ensures forceAllocZero ==> r == Some(0) && memory == old(memory) && nextId == old(nextId)
      ensures !forceAllocZero ==> (r.None? <==> old(nextId) == I32_MAX)
      ensures r.None? ==> memory == old(memory) && nextId == old(nextId)
      ensures !forceAllocZero && r.Some? ==> r.value == old(nextId) && (old(IdsAhead()) ==> r.value !in old(memory))
      ensures !forceAllocZero && r.Some? ==> memory == old(memory)[r.value := Zeros(len)] && nextId == r.value + 1
    {
      if forceAllocZero {
        return Some(0);
      }
      if nextId == I32_MAX {
        return None;
      }
      var p := nextId;
      nextId := nextId + 1;
      memory := memory[p := Zeros(len)];
      return Some(p);
    }

    /** `read_bytes_into_vec`: copies the object over the start of the buffer; None is the panic of a
        slice longer than the buffer. */
    method ReadBytesIntoVec(p: i32, buffer: seq<byte>) returns (r: Option<seq<byte>>)
      ensures r.None? <==> p in memory && |memory[p]| > |buffer|
      ensures r.Some? ==> r.value == if p in memory then Splice(buffer, 0, memory[p]) else buffer
    {
      var data := if p in memory then memory[p] else [];
      if |data| > |buffer| {
        return None;
      }
      return Some(Splice(buffer, 0, data));
    }

    /** `write_bytes_from_slice`: unlike on the real host a write replaces the whole object, or makes
        one under a pointer that was never handed out. */
    method WriteBytesFromSlice(p: i32, data: seq<byte>)
      requires Valid()
      modifies this
      ensures Valid() && memory == old(memory)[p := data]
      ensures nextId == old(nextId) && forceAllocZero == old(forceAllocZero)
      ensures old(IdsAhead()) && p < nextId ==> IdsAhead()
    {
      memory := memory[p := data];
    }
  }
}
