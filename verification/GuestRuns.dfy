/** Runs of an arbitrary guest against the linker closures of `src/runtime/host.rs`. A guest is
    any deterministic program: what it does next may depend on every answer it got so far and on
    its whole linear memory. */
module GuestRuns {
  import opened Bytes
  import opened Limits
  import opened ObjectHeap
  import opened Host

  /** The four host imports, and what the guest does to its own linear memory and table. */
  datatype Call =
    | PointerLen(pointer: i32)
    | Alloc(size: u32)
    | ReadBytes(src: i32, dst: i32, len: i32)
    | WriteBytes(dst: i32, src: i32, len: i32)
    | Poke(at: u32, data: seq<byte>)
    | Grow(pages: u32)
    | TableGrow(delta: u32)

  datatype Action = Do(call: Call) | Return(pointer: u32)

  datatype Event = Event(call: Call, response: i32)

  type Guest = (seq<Event>, seq<byte>) -> Action

  datatype Trap =
    | HostTrap(error: ContractError)
    | OutOfBounds
    | GrowRefused(desired: nat)
    | TableGrowRefused(desired: nat)

  /** The host heap, and the guest's linear memory, table size and whether it exports the memory. */
  datatype World = World(objs: seq<Object>, linear: seq<byte>, table: nat, exportsMemory: bool)

  /** Everything that tells machines apart. */
  datatype Machine = Machine(caps: Caps, store: StoreLimits)

  function MachineOf(ramMb: u64, cores: usize): Machine {
    var limits := Build(ramMb, cores);
    Machine(CapsOf(limits), StoreLimitsOf(limits))
  }

  datatype StepResult = Next(world: World, response: i32) | Fault(trap: Trap)

  /** `len as u32`, seen by the guest as an `i32`: -1 stays -1. */
  function LenResponse(len: int): i32 { U32AsI32(len % U32_LIMIT) }

  function AllocStep(m: Machine, w: World, len: u32): StepResult {
    match AllocVerdict(m.caps, |Flatten(w.objs)|, len)
    case Err(e) => Fault(HostTrap(e))
    case Ok(p) => Next(w.(objs := AllocObjects(w.objs, len)), U32AsI32(UsizeAsU32(p)))
  }

  function ReadStep(m: Machine, w: World, src: i32, dst: i32, len: i32): StepResult {
    match CheckedGuestLen(len, m.caps.single)
    case Err(e) => Fault(HostTrap(e))
    case Ok(n) =>
      match ReadRange(w.objs, I32AsUsize(src), n)
      case Err(e) => Fault(HostTrap(e))
      case Ok(data) =>
        if !w.exportsMemory then Fault(HostTrap(LinkerError("read_bytes")))
        else if I32AsUsize(dst) + n > |w.linear| then Fault(OutOfBounds)
        else Next(w.(linear := Splice(w.linear, I32AsUsize(dst), data)), 0)
  }

  function WriteStep(m: Machine, w: World, dst: i32, src: i32, len: i32): StepResult {
    match CheckedGuestLen(len, m.caps.single)
    case Err(e) => Fault(HostTrap(e))
    case Ok(n) =>
      var from := I32AsUsize(src);
      if !w.exportsMemory then Fault(HostTrap(LinkerError("write_bytes")))
      else if from + n > |w.linear| then Fault(OutOfBounds)
      else
        var data := w.linear[from..from + n];
        match WriteVerdict(AsMap(w.objs), I32AsUsize(dst), data)
        case Err(e) => Fault(HostTrap(e))
        case Ok(_) => Next(w.(objs := WriteObjects(w.objs, I32AsUsize(dst), 0, data)), 0)
  }

  /** Growing past the store limit traps (`trap_on_grow_failure`). */
  function GrowStep(m: Machine, w: World, pages: u32): StepResult {
    var desired := |w.linear| + pages * WASM_PAGE_BYTES;
    if desired > m.store.memorySize then Fault(GrowRefused(desired))
    else Next(w.(linear := w.linear + Zeros(pages * WASM_PAGE_BYTES)), LenResponse(|w.linear| / WASM_PAGE_BYTES))
  }

  function TableGrowStep(m: Machine, w: World, delta: u32): StepResult {
    var desired := w.table + delta;
    if desired > m.store.tableElements then Fault(TableGrowRefused(desired))
    else Next(w.(table := desired), LenResponse(w.table))
  }

  function PokeStep(w: World, at: u32, data: seq<byte>): StepResult {
    if at + |data| > |w.linear| then Fault(OutOfBounds)
    else Next(w.(linear := Splice(w.linear, at, data)), 0)
  }

  function Step(m: Machine, w: World, call: Call): StepResult {
    match call
    case PointerLen(p) => Next(w, LenResponse(PointerLength(AsMap(w.objs), I32AsUsize(p))))
    case Alloc(len) => AllocStep(m, w, len)
    case ReadBytes(src, dst, len) => ReadStep(m, w, src, dst, len)
    case WriteBytes(dst, src, len) => WriteStep(m, w, dst, src, len)
    case Poke(at, data) => PokeStep(w, at, data)
    case Grow(pages) => GrowStep(m, w, pages)
    case TableGrow(delta) => TableGrowStep(m, w, delta)
  }

  datatype Status = Running | Returned(pointer: u32) | Trapped(trap: Trap)

  datatype Run = Run(status: Status, world: World, events: seq<Event>)

  /** At most `steps` further actions of the guest. */
  function RunFrom(guest: Guest, m: Machine, w: World, events: seq<Event>, steps: nat): (run: Run)
    ensures events <= run.events
    decreases steps
  {
    if steps == 0 then Run(Running, w, events)
    else
      match guest(events, w.linear)
      case Return(p) => Run(Returned(p), w, events)
      case Do(call) =>
        match Step(m, w, call)
        case Fault(t) => Run(Trapped(t), w, events)
        case Next(w', response) => RunFrom(guest, m, w', events + [Event(call, response)], steps - 1)
  }

  // ---- Fleet determinism ----

  predicate MachineLe(a: Machine, b: Machine) {
    && a.caps.single <= b.caps.single && a.caps.total <= b.caps.total
    && a.store.memorySize <= b.store.memorySize && a.store.tableElements <= b.store.tableElements
  }

  /** Traps that say "this machine is too small". */
  predicate CapacityTrap(t: Trap) {
    match t
    case HostTrap(e) => e.AllocationTooLarge? || e.TotalMemoryExceeded?
    case GrowRefused(_) => true
    case TableGrowRefused(_) => true
    case OutOfBounds => false
  }

  lemma StepMonotone(small: Machine, large: Machine, w: World, call: Call)
    requires MachineLe(small, large)
    ensures var a := Step(small, w, call);
            a == Step(large, w, call) || (a.Fault? && CapacityTrap(a.trap))
  {
    hide Flatten, AsMap, IndexOf, WriteObjects, Splice, LenResponse;
  }

  /** Two runs are equal to the last byte, or the first stopped for lack of capacity after a prefix
      of what the second did. */
  predicate Agree(a: Run, b: Run) {
    a == b || (a.status.Trapped? && CapacityTrap(a.status.trap) && a.events <= b.events)
  }

  /** Two machines run the same guest alike for as long as the smaller one has room: either the
      runs are equal to the last byte, or the smaller one stopped for lack of capacity after a
      prefix of what the larger one did. */
  lemma {:induction false} FleetSimulation(
    guest: Guest, small: Machine, large: Machine, w: World, events: seq<Event>, steps: nat)
    requires MachineLe(small, large)
    ensures var a := RunFrom(guest, small, w, events, steps);
            var b := RunFrom(guest, large, w, events, steps);
            Agree(a, b)
    decreases steps
  {
    hide Step, CapacityTrap;
    if steps > 0 {
      var action := guest(events, w.linear);
      if action.Do? {
        StepMonotone(small, large, w, action.call);
        var next := Step(small, w, action.call);
        if next.Next? {
          FleetSimulation(guest, small, large, next.world, events + [Event(action.call, next.response)], steps - 1);
        }
      }
    }
  }

  /** Every guest runs on the two machines alike, for any number of steps and from every world in
      which the first machine can hold something for it. */
  ghost predicate Simulates(small: Machine, large: Machine) {
    forall guest: Guest, w: World, steps: nat :: WorldInv(small, w) && w.objs != [] ==>
      Agree(RunFrom(guest, small, w, [], steps), RunFrom(guest, large, w, [], steps))
  }

  /** A guest that keeps making one call. */
  function Repeat(call: Call): Guest { (events: seq<Event>, linear: seq<byte>) => Do(call) }

  lemma OneCallDiffers(small: Machine, large: Machine, w: World, call: Call)
    requires Step(small, w, call).Next? && Step(large, w, call).Fault?
    ensures !Agree(RunFrom(Repeat(call), small, w, [], 1), RunFrom(Repeat(call), large, w, [], 1))
  {
    hide Step;
  }

  /** Built machines simulate one another exactly when RAM and cores are both ordered: a larger RAM
      alone is not enough, since the cores decide the table limit. */
  lemma FleetSimulationIff(small: u64, coresSmall: usize, large: u64, coresLarge: usize)
    ensures Simulates(MachineOf(small, coresSmall), MachineOf(large, coresLarge)) <==>
            FleetOrdered(small, coresSmall, large, coresLarge)
  {
    hide Build, TableElements, Agree, RunFrom, Steps;
    var a, b := MachineOf(small, coresSmall), MachineOf(large, coresLarge);
    BuildClosedForm(small, coresSmall);
    BuildClosedForm(large, coresLarge);
    FleetOrderedIff(small, coresSmall, large, coresLarge);
    TableElementsSmall(coresSmall);
    if FleetOrdered(small, coresSmall, large, coresLarge) {
      forall guest: Guest, w: World, steps: nat | WorldInv(a, w) && w.objs != []
        ensures Agree(RunFrom(guest, a, w, [], steps), RunFrom(guest, b, w, [], steps))
      {
        FleetSimulation(guest, a, b, w, [], steps);
      }
    } else {
      var w := World([Zeros(4)], [], 0, true);
      OneObject(Zeros(4));
      assert WorldInv(a, w);
      var call := if a.caps.single > b.caps.single then Alloc(a.caps.single) else TableGrow(a.store.tableElements);
      assert Step(a, w, call).Next? && Step(b, w, call).Fault?;
      OneCallDiffers(a, b, w, call);
    }
  }

  lemma TableElementsSmall(cores: usize)
    ensures TableElements(cores) <= 2_048
  {
  }

  /** For machines ordered in RAM and cores: a run that completes on the smaller one is identical on
      the larger, which never gives a different answer where the smaller one gives one. */
  lemma FleetDeterminism(guest: Guest, small: u64, coresSmall: usize, large: u64, coresLarge: usize,
                         w: World, steps: nat)
    requires small <= large && coresSmall <= coresLarge <= USIZE_MAX / 256
    ensures var a := RunFrom(guest, MachineOf(small, coresSmall), w, [], steps);
            var b := RunFrom(guest, MachineOf(large, coresLarge), w, [], steps);
            && (!a.status.Trapped? ==> b == a)
            && (b.status.Trapped? ==> a.status.Trapped?)
            && (a != b ==> CapacityTrap(a.status.trap) && a.events <= b.events)
  {
    hide RunFrom, Build, CapacityTrap;
    OrderedByRamAndCores(small, coresSmall, large, coresLarge);
    FleetOrderedIff(small, coresSmall, large, coresLarge);
    FleetSimulation(guest, MachineOf(small, coresSmall), MachineOf(large, coresLarge), w, [], steps);
  }

  // ---- What every run keeps ----

  /** Later heaps hold every earlier object at its place and with its length. */
  predicate Extends(later: seq<Object>, earlier: seq<Object>) {
    |earlier| <= |later| && forall i :: 0 <= i < |earlier| ==> |later[i]| == |earlier[i]|
  }

  predicate WorldInv(m: Machine, w: World) {
    HeapInv(m.caps, w.objs) && |w.linear| <= m.store.memorySize && w.table <= m.store.tableElements
  }

  lemma StepKeepsInv(m: Machine, w: World, call: Call)
    requires WorldInv(m, w) && Step(m, w, call).Next?
    ensures WorldInv(m, Step(m, w, call).world)
    ensures Extends(Step(m, w, call).world.objs, w.objs)
  {
    hide Flatten, AsMap, AllNonEmpty, AllAtMost;
    match call {
      case Alloc(len) =>
        AllocKeepsInv(m.caps, w.objs, len);
      case WriteBytes(dst, src, len) =>
        var from := I32AsUsize(src);
        WriteKeepsInv(m.caps, w.objs, I32AsUsize(dst), 0, w.linear[from..from + len]);
      case _ =>
    }
  }

  /** In every reachable state the tracked objects tile host memory, respect both caps, and no
      object has moved, shrunk or disappeared; linear memory and table respect their limits. */
  lemma {:induction false} RunKeepsInv(guest: Guest, m: Machine, w: World, events: seq<Event>, steps: nat)
    requires WorldInv(m, w)
    ensures var run := RunFrom(guest, m, w, events, steps);
            WorldInv(m, run.world) && Extends(run.world.objs, w.objs)
    decreases steps
  {
    hide Step, WorldInv;
    if steps > 0 {
      var action := guest(events, w.linear);
      if action.Do? && Step(m, w, action.call).Next? {
        StepKeepsInv(m, w, action.call);
        var next := Step(m, w, action.call);
        RunKeepsInv(guest, m, next.world, events + [Event(action.call, next.response)], steps - 1);
      }
    }
  }

  /** The pointers an object heap hands out do not change as it evolves. */
  lemma ExtendsKeepsBases(later: seq<Object>, earlier: seq<Object>, i: nat)
    requires Extends(later, earlier) && i <= |earlier|
    ensures Base(later, i) == Base(earlier, i)
    decreases i
  {
    if i > 0 {
      ExtendsKeepsBases(later, earlier, i - 1);
      BaseStep(later, i - 1);
      BaseStep(earlier, i - 1);
    }
  }

  // ---- Allocations over a whole run ----

  /** The allocations among the events from `first` on: ranges that lie between `floor` and `size`
      and follow one another without overlap. */
  predicate AllocHistory(events: seq<Event>, first: nat, floor: nat, size: nat) {
    && first <= |events|
    && (forall k :: first <= k < |events| && events[k].call.Alloc? ==>
          floor <= events[k].response && events[k].response + events[k].call.size <= size)
    && (forall j, k :: first <= j < k < |events| && events[j].call.Alloc? && events[k].call.Alloc? ==>
          events[j].response + events[j].call.size <= events[k].response)
  }

  /** The pointer handed out is the old size of memory, unharmed by the casts. */
  lemma StepAllocates(m: Machine, w: World, call: Call)
    requires WorldInv(m, w) && m.caps.total < I32_LIMIT && Step(m, w, call).Next?
    ensures |Flatten(w.objs)| <= |Flatten(Step(m, w, call).world.objs)|
    ensures !call.Alloc? ==> |Flatten(Step(m, w, call).world.objs)| == |Flatten(w.objs)|
    ensures call.Alloc? ==>
              && Step(m, w, call).response == |Flatten(w.objs)|
              && Step(m, w, call).response + call.size == |Flatten(Step(m, w, call).world.objs)|
  {
    hide Flatten, AsMap, AllNonEmpty, AllAtMost;
    match call {
      case Alloc(len) =>
        AllocKeepsInv(m.caps, w.objs, len);
      case WriteBytes(dst, src, len) =>
        var from := I32AsUsize(src);
        WriteKeepsInv(m.caps, w.objs, I32AsUsize(dst), 0, w.linear[from..from + len]);
      case _ =>
    }
  }

  lemma HistoryGrows(events: seq<Event>, e: Event, first: nat, floor: nat, size: nat, size': nat)
    requires AllocHistory(events, first, floor, size) && floor <= size <= size'
    requires e.call.Alloc? ==> e.response == size && e.response + e.call.size == size'
    ensures AllocHistory(events + [e], first, floor, size')
  {
  }

  lemma {:induction false} RunAllocations(
    guest: Guest, m: Machine, w: World, events: seq<Event>, steps: nat, first: nat, floor: nat)
    requires WorldInv(m, w) && m.caps.total < I32_LIMIT
    requires floor <= |Flatten(w.objs)| && AllocHistory(events, first, floor, |Flatten(w.objs)|)
    ensures var run := RunFrom(guest, m, w, events, steps);
            AllocHistory(run.events, first, floor, |Flatten(run.world.objs)|)
    decreases steps
  {
    hide Step, WorldInv, Flatten, AllocHistory;
    if steps > 0 {
      var action := guest(events, w.linear);
      if action.Do? && Step(m, w, action.call).Next? {
        var next := Step(m, w, action.call);
        var e := Event(action.call, next.response);
        StepKeepsInv(m, w, action.call);
        StepAllocates(m, w, action.call);
        HistoryGrows(events, e, first, floor, |Flatten(w.objs)|, |Flatten(next.world.objs)|);
        RunAllocations(guest, m, next.world, events + [e], steps - 1, first, floor);
      }
    }
  }

  /** The bytes asked for by the allocations among the events from `first` on. */
  function Requested(events: seq<Event>, first: nat): nat
    requires first <= |events|
    decreases |events|
  {
    if |events| == first then 0
    else
      var last := events[|events| - 1].call;
      Requested(events[..|events| - 1], first) + if last.Alloc? then last.size else 0
  }

  /** Nothing else takes or gives back host memory: over any run it grows by exactly the bytes that
      allocations were granted. */
  lemma {:induction false} RunConservesBytes(
    guest: Guest, m: Machine, w: World, events: seq<Event>, steps: nat, first: nat, start: nat)
    requires WorldInv(m, w) && m.caps.total < I32_LIMIT
    requires first <= |events| && |Flatten(w.objs)| == start + Requested(events, first)
    ensures var run := RunFrom(guest, m, w, events, steps);
            |Flatten(run.world.objs)| == start + Requested(run.events, first)
    decreases steps
  {
    hide Step, WorldInv, Flatten;
    if steps > 0 {
      var action := guest(events, w.linear);
      if action.Do? && Step(m, w, action.call).Next? {
        var next := Step(m, w, action.call);
        var events' := events + [Event(action.call, next.response)];
        StepKeepsInv(m, w, action.call);
        StepAllocates(m, w, action.call);
        assert events'[..|events|] == events;
        RunConservesBytes(guest, m, next.world, events', steps - 1, first, start);
      }
    }
  }

  /** However often a guest allocates, empty allocations included, the table of lengths never has
      more entries than memory has bytes. */
  lemma TableBounded(m: Machine, w: World)
    requires WorldInv(m, w)
    ensures |Lengths(AsMap(w.objs))| == |w.objs| <= |Flatten(w.objs)| <= m.caps.total
  {
    hide Flatten, AsMap;
    ObjectCount(w.objs);
    assert Lengths(AsMap(w.objs)).Keys == AsMap(w.objs).Keys;
  }

  lemma {:induction false} ObjectCount(objs: seq<Object>)
    requires AllNonEmpty(objs)
    ensures |AsMap(objs)| == |objs| <= |Flatten(objs)|
    decreases |objs|
  {
    hide Flatten, AsMap;
    if objs == [] {
      NothingStored();
    } else {
      var init, last := objs[..|objs| - 1], objs[|objs| - 1];
      assert objs == init + [last];
      FlattenSnoc(init, last);
      KeysBelowSize(init);
      ObjectCount(init);
      assert AsMap(objs).Keys == AsMap(init).Keys + {|Flatten(init)|};
    }
  }

  /** The null-pointer convention is sound on every machine: once an argument is staged, every
      allocation of every run answers with a pointer that is not zero, is the same number as
      `i32`, `u32` and `usize`, and overlaps neither the staged bytes nor any other allocation. */
  lemma AllocationsNeverNull(guest: Guest, ramMb: u64, cores: usize, w: World, steps: nat, k: nat)
    requires WorldInv(MachineOf(ramMb, cores), w) && |Flatten(w.objs)| >= 4
    requires var run := RunFrom(guest, MachineOf(ramMb, cores), w, [], steps);
             k < |run.events| && run.events[k].call.Alloc?
    ensures var events := RunFrom(guest, MachineOf(ramMb, cores), w, [], steps).events;
            var p := events[k].response;
            && 4 <= |Flatten(w.objs)| <= p <= 24 * MIB
            && I32AsUsize(p) == p == I32AsU32(p)
            && (forall j :: 0 <= j < k && events[j].call.Alloc? ==> events[j].response + events[j].call.size <= p)
  {
    hide RunFrom, Flatten, WorldInv, Build;
    var m := MachineOf(ramMb, cores);
    BuildClosedForm(ramMb, cores);
    assert AllocHistory([], 0, |Flatten(w.objs)|, |Flatten(w.objs)|);
    RunAllocations(guest, m, w, [], steps, 0, |Flatten(w.objs)|);
    RunKeepsInv(guest, m, w, [], steps);
    RoomIsBounded(m, RunFrom(guest, m, w, [], steps).world);
  }

  lemma RoomIsBounded(m: Machine, w: World)
    requires WorldInv(m, w)
    ensures |Flatten(w.objs)| <= m.caps.total
  {
  }

  // ---- What the guest learns ----

  /** On a built machine `pointer_len` tells the guest the true length of a tracked object and -1
      for everything else, negative pointers included. */
  lemma PointerLenFaithful(m: Machine, w: World, p: i32)
    requires WorldInv(m, w) && m.caps.total < I32_LIMIT
    ensures var next := Step(m, w, PointerLen(p));
            && next.Next? && next.world == w
            && next.response == if p in AsMap(w.objs) then |AsMap(w.objs)[p]| else -1
  {
    hide Flatten, AsMap, IndexOf;
    KeysBelowSize(w.objs);
    if p in AsMap(w.objs) {
      ObjectInFlat(w.objs, IndexOf(w.objs, p));
    }
  }

  /** Reading a tracked object by the length the host reports copies exactly that object into linear
      memory, provided that is exported and has the room. */
  lemma ReadDelivers(m: Machine, w: World, p: i32, dst: i32)
    requires WorldInv(m, w) && m.caps.total < I32_LIMIT && p in AsMap(w.objs) && w.exportsMemory
    requires 0 <= dst && dst + |AsMap(w.objs)[p]| <= |w.linear|
    ensures |AsMap(w.objs)[p]| < I32_LIMIT
    ensures Step(m, w, ReadBytes(p, dst, |AsMap(w.objs)[p]|)) ==
            Next(w.(linear := Splice(w.linear, dst, AsMap(w.objs)[p])), 0)
  {
    hide Flatten, AsMap;
    KeysBelowSize(w.objs);
    var i := IndexOf(w.objs, p);
    ObjectInFlat(w.objs, i);
    assert |w.objs[i]| <= m.caps.single;
  }

  /** The interior of an object through the guest's own calls: `pointer_len` knows nothing of the
      pointer, and `read_bytes` serves it all the same. */
  lemma InteriorPointerIsServed(m: Machine)
    requires m.caps.single >= 2
    ensures var w := World([[1], [2, 3]], [0], 0, true);
            && Step(m, w, PointerLen(2)) == Next(w, -1)
            && Step(m, w, ReadBytes(2, 0, 1)) == Next(w.(linear := [3]), 0)
  {
    hide Flatten, AsMap, Splice, ReadRange;
    ReadCrossesObjects();
    var objs: seq<Object>, linear: seq<byte>, read: seq<byte> := [[1], [2, 3]], [0], [3];
    var w := World(objs, linear, 0, true);
    FullSplice(linear, read);
    assert ReadStep(m, w, 2, 0, 1) == Next(w.(linear := read), 0);
  }

  // ---- What a call does, in full ----

  /** Growing: refused exactly beyond the store limit; else zeroed pages follow the old memory and the
      guest is told where they start. */
  lemma GrowthIs(m: Machine, w: World, pages: u32)
    requires |w.linear| <= m.store.memorySize < I32_LIMIT
    ensures var size := |w.linear| + 65_536 * pages;
            match Step(m, w, Grow(pages))
            case Fault(t) => size > m.store.memorySize && t == GrowRefused(size)
            case Next(w', r) =>
              && size == |w'.linear| <= m.store.memorySize && r == |w.linear| / 65_536
              && w'.linear[..|w.linear|] == w.linear && (forall k :: |w.linear| <= k < size ==> w'.linear[k] == 0)
              && w' == w.(linear := w'.linear)
  {
    ZerosAreZero(pages * WASM_PAGE_BYTES);
  }

  lemma TableGrowthIs(m: Machine, w: World, delta: u32)
    requires w.table <= m.store.tableElements < I32_LIMIT
    ensures match Step(m, w, TableGrow(delta))
            case Fault(t) => w.table + delta > m.store.tableElements && t == TableGrowRefused(w.table + delta)
            case Next(w', r) => w.table + delta <= m.store.tableElements && r == w.table && w' == w.(table := w.table + delta)
  {
  }

  /** `read_bytes` for every pointer, destination and length: which check refuses, and else which byte
      of host memory is now at which place of linear memory. */
  lemma ReadIs(m: Machine, w: World, src: i32, dst: i32, len: i32)
    requires WorldInv(m, w) && m.caps.total < I32_LIMIT && m.store.memorySize < I32_LIMIT
    ensures var flat := Flatten(w.objs);
            var admissible := 0 <= len <= m.caps.single;
            var onHost := 0 <= src && src + len <= |flat|;
            var inGuest := 0 <= dst && dst + len <= |w.linear|;
            var next := Step(m, w, ReadBytes(src, dst, len));
            && (len < 0 ==> next == Fault(HostTrap(InvalidLength(len))))
            && (len > m.caps.single ==> next == Fault(HostTrap(AllocationTooLarge(len, m.caps.single))))
            && (admissible && !onHost ==> next == Fault(HostTrap(InvalidPointer(I32AsUsize(src)))))
            && (admissible && onHost && !w.exportsMemory ==> next == Fault(HostTrap(LinkerError("read_bytes"))))
            && (admissible && onHost && w.exportsMemory && !inGuest ==> next == Fault(OutOfBounds))
            && (admissible && onHost && w.exportsMemory && inGuest ==>
                  && next.Next? && next.response == 0 && |next.world.linear| == |w.linear|
                  && next.world == w.(linear := next.world.linear)
                  && (forall k :: dst <= k < dst + len ==> next.world.linear[k] == flat[src + (k - dst)])
                  && (forall k :: 0 <= k < dst || dst + len <= k < |w.linear| ==> next.world.linear[k] == w.linear[k]))
  {
    hide Flatten, AllNonEmpty, AllAtMost;
  }

  /** `write_bytes` likewise: which check refuses, and else which bytes of which object change. */
  lemma WriteIs(m: Machine, w: World, dst: i32, src: i32, len: i32)
    requires WorldInv(m, w) && m.caps.total < I32_LIMIT && m.store.memorySize < I32_LIMIT
    ensures var heap := AsMap(w.objs);
            var admissible := 0 <= len <= m.caps.single;
            var inGuest := 0 <= src && src + len <= |w.linear|;
            var next := Step(m, w, WriteBytes(dst, src, len));
            && (len < 0 ==> next == Fault(HostTrap(InvalidLength(len))))
            && (len > m.caps.single ==> next == Fault(HostTrap(AllocationTooLarge(len, m.caps.single))))
            && (admissible && !w.exportsMemory ==> next == Fault(HostTrap(LinkerError("write_bytes"))))
            && (admissible && w.exportsMemory && !inGuest ==> next == Fault(OutOfBounds))
            && (admissible && w.exportsMemory && inGuest ==>
                  && (dst !in heap ==> next == Fault(HostTrap(InvalidPointer(I32AsUsize(dst)))))
                  && (dst in heap && len > |heap[dst]| ==> next == Fault(HostTrap(WriteOutOfBounds(len, |heap[dst]|))))
                  && (dst in heap && len <= |heap[dst]| ==>
                        && next.Next? && next.response == 0 && next.world == w.(objs := next.world.objs)
                        && AsMap(next.world.objs) == heap[dst := w.linear[src..src + len] + heap[dst][len..]]))
  {
    hide Flatten, AsMap, AllNonEmpty, AllAtMost, WriteObjects;
    KeysBelowSize(w.objs);
    if 0 <= len <= m.caps.single && w.exportsMemory && 0 <= src && src + len <= |w.linear| && dst in AsMap(w.objs)
       && len <= |AsMap(w.objs)[dst]| {
      WriteKeepsInv(m.caps, w.objs, dst, 0, w.linear[src..src + len]);
      assert Splice(AsMap(w.objs)[dst], 0, w.linear[src..src + len]) == w.linear[src..src + len] + AsMap(w.objs)[dst][len..];
    }
  }

  // ---- Frame: an object the guest does not write keeps its contents ----

  predicate NeverWrites(events: seq<Event>, first: nat, p: int) {
    forall k :: first <= k < |events| && events[k].call.WriteBytes? ==> I32AsUsize(events[k].call.dst) != p
  }

  lemma StepKeepsObject(m: Machine, w: World, call: Call, p: int)
    requires WorldInv(m, w) && Step(m, w, call).Next? && p in AsMap(w.objs)
    requires call.WriteBytes? ==> I32AsUsize(call.dst) != p
    ensures p in AsMap(Step(m, w, call).world.objs)
    ensures AsMap(Step(m, w, call).world.objs)[p] == AsMap(w.objs)[p]
  {
    hide Flatten, AsMap, AllNonEmpty, AllAtMost;
    match call {
      case Alloc(len) =>
        AllocKeepsInv(m.caps, w.objs, len);
      case WriteBytes(dst, src, len) =>
        var from := I32AsUsize(src);
        WriteKeepsInv(m.caps, w.objs, I32AsUsize(dst), 0, w.linear[from..from + len]);
      case _ =>
    }
  }

  /** Whatever else a guest does, an object it never names as the target of a write is the same
      at the end of the run. */
  lemma {:induction false} UnwrittenObjectKept(
    guest: Guest, m: Machine, w: World, events: seq<Event>, steps: nat, p: int)
    requires WorldInv(m, w) && p in AsMap(w.objs)
    requires NeverWrites(RunFrom(guest, m, w, events, steps).events, |events|, p)
    ensures var run := RunFrom(guest, m, w, events, steps);
            p in AsMap(run.world.objs) && AsMap(run.world.objs)[p] == AsMap(w.objs)[p]
    decreases steps
  {
    hide Step, WorldInv, AsMap;
    if steps > 0 {
      var action := guest(events, w.linear);
      if action.Do? && Step(m, w, action.call).Next? {
        var next := Step(m, w, action.call);
        var events' := events + [Event(action.call, next.response)];
        assert RunFrom(guest, m, w, events, steps) == RunFrom(guest, m, next.world, events', steps - 1);
        assert RunFrom(guest, m, w, events, steps).events[|events|] == events'[|events|];
        StepKeepsInv(m, w, action.call);
        StepKeepsObject(m, w, action.call, p);
        UnwrittenObjectKept(guest, m, next.world, events', steps - 1, p);
      }
    }
  }

  // ---- The same runs on the concrete memory manager ----

  /** One host call through the linker; the guest's side of the world afterwards is `linear'` and
      `table'`. */
  method HostCall(host: MemoryManager, linear: seq<byte>, table: nat, exportsMemory: bool, call: Call)
    returns (response: Result<i32, Trap>, linear': seq<byte>, table': nat)
    requires host.Valid()
    modifies host
    ensures host.Valid()
    ensures match Step(Machine(host.caps, host.storeLimits), World(old(host.objs), linear, table, exportsMemory), call)
            case Fault(t) => response == Err(t) && host.objs == old(host.objs) && linear' == linear && table' == table
            case Next(w, r) =>
              && response == Ok(r) && host.objs == w.objs && linear' == w.linear && table' == w.table
              && exportsMemory == w.exportsMemory
  {
    hide Flatten, AsMap, IndexOf, WriteObjects;
    linear', table' := linear, table;
    match call {
      case PointerLen(p) =>
        var len := HostPointerLen(host, p);
        response := Ok(len);
      case Alloc(len) =>
        response := HostAlloc(host, len);
      case ReadBytes(src, dst, len) =>
        response, linear' := HostRead(host, linear, exportsMemory, src, dst, len);
      case WriteBytes(dst, src, len) =>
        response := HostWrite(host, linear, exportsMemory, dst, src, len);
      case Poke(at, data) =>
        if at + |data| > |linear| {
          return Err(OutOfBounds), linear, table;
        }
        response, linear' := Ok(0), Splice(linear, at, data);
      case Grow(pages) =>
        var desired := |linear| + pages * WASM_PAGE_BYTES;
        if desired > host.storeLimits.memorySize {
          return Err(GrowRefused(desired)), linear, table;
        }
        response := Ok(LenResponse(|linear| / WASM_PAGE_BYTES));
        linear' := linear + Zeros(pages * WASM_PAGE_BYTES);
      case TableGrow(delta) =>
        if table + delta > host.storeLimits.tableElements {
          return Err(TableGrowRefused(table + delta)), linear, table;
        }
        response, table' := Ok(LenResponse(table)), table + delta;
    }
  }

  /** The `pointer_len` closure. */
  method HostPointerLen(host: MemoryManager, p: i32) returns (response: i32)
    requires host.Valid()
    ensures response == LenResponse(PointerLength(host.Heap(), I32AsUsize(p)))
  {
    var len := host.GetPointerLen(I32AsUsize(p));
    response := U32AsI32(len % U32_LIMIT);
  }

  /** The `alloc` closure, which traps where the memory manager refuses. */
  method HostAlloc(host: MemoryManager, len: u32) returns (response: Result<i32, Trap>)
    requires host.Valid()
    modifies host
    ensures host.Valid()
    ensures match AllocStep(Machine(host.caps, host.storeLimits), World(old(host.objs), [], 0, true), len)
            case Fault(t) => response == Err(t) && host.objs == old(host.objs)
            case Next(w, r) => response == Ok(r) && host.objs == w.objs
  {
    hide Flatten, AsMap;
    var r := host.Alloc(len);
    match r {
      case Err(e) => return Err(HostTrap(e));
      case Ok(p) => return Ok(U32AsI32(UsizeAsU32(p)));
    }
  }

  /** The `read_bytes` closure. */
  method HostRead(host: MemoryManager, linear: seq<byte>, exportsMemory: bool, src: i32, dst: i32, len: i32)
    returns (response: Result<i32, Trap>, linear': seq<byte>)
    requires host.Valid()
    ensures match ReadStep(Machine(host.caps, host.storeLimits), World(host.objs, linear, 0, exportsMemory), src, dst, len)
            case Fault(t) => response == Err(t) && linear' == linear
            case Next(w, r) => response == Ok(r) && linear' == w.linear
  {
    hide Flatten;
    linear' := linear;
    var checked := CheckedGuestLen(len, host.caps.single);
    if checked.Err? {
      return Err(HostTrap(checked.error)), linear;
    }
    var r := host.ReadBytes(I32AsUsize(src), checked.value);
    if r.Err? {
      return Err(HostTrap(r.error)), linear;
    }
    if !exportsMemory {
      return Err(HostTrap(LinkerError("read_bytes"))), linear;
    }
    if I32AsUsize(dst) + |r.value| > |linear| {
      return Err(OutOfBounds), linear;
    }
    return Ok(0), Splice(linear, I32AsUsize(dst), r.value);
  }

  /** The `write_bytes` closure. */
  method HostWrite(host: MemoryManager, linear: seq<byte>, exportsMemory: bool, dst: i32, src: i32, len: i32)
    returns (response: Result<i32, Trap>)
    requires host.Valid()
    modifies host
    ensures host.Valid()
    ensures match WriteStep(Machine(host.caps, host.storeLimits), World(old(host.objs), linear, 0, exportsMemory), dst, src, len)
            case Fault(t) => response == Err(t) && host.objs == old(host.objs)
            case Next(w, r) => response == Ok(r) && host.objs == w.objs
  {
    hide Flatten, AsMap, IndexOf, WriteObjects;
    var checked := CheckedGuestLen(len, host.caps.single);
    if checked.Err? {
      return Err(HostTrap(checked.error));
    }
    if !exportsMemory {
      return Err(HostTrap(LinkerError("write_bytes")));
    }
    var from := I32AsUsize(src);
    if from + checked.value > |linear| {
      return Err(OutOfBounds);
    }
    var r := host.WriteBytes(I32AsUsize(dst), linear[from..from + checked.value]);
    if r.Err? {
      return Err(HostTrap(r.error));
    }
    return Ok(0);
  }

  /** A guest driven against the flat memory manager does exactly what it does on objects. */
  method RunOnHost(host: MemoryManager, guest: Guest, linear: seq<byte>, table: nat, exportsMemory: bool, steps: nat)
    returns (status: Status, linear': seq<byte>, table': nat, events: seq<Event>)
    requires host.Valid()
    modifies host
    ensures host.Valid()
    ensures RunFrom(guest, Machine(host.caps, host.storeLimits), World(old(host.objs), linear, table, exportsMemory),
                    [], steps) ==
            Run(status, World(host.objs, linear', table', exportsMemory), events)
  {
    hide Step;
    linear', table', events := linear, table, [];
    ghost var m := Machine(host.caps, host.storeLimits);
    ghost var run := RunFrom(guest, m, World(host.objs, linear, table, exportsMemory), [], steps);
    var left := steps;
    while left > 0
      invariant host.Valid()
      invariant RunFrom(guest, m, World(host.objs, linear', table', exportsMemory), events, left) == run
    {
      var action := guest(events, linear');
      if action.Return? {
        return Returned(action.pointer), linear', table', events;
      }
      var response;
      response, linear', table' := HostCall(host, linear', table', exportsMemory, action.call);
      if response.Err? {
        return Trapped(response.error), linear', table', events;
      }
      events := events + [Event(action.call, response.value)];
      left := left - 1;
    }
    return Running, linear', table', events;
  }
}
