/** An SDK contract as one of the arbitrary guests: the same program, run inside a linear memory that
    it has to grow for its buffers, through nothing but host calls. */
module SdkGuest {
  import opened Bytes
  import opened Limits
  import opened Utf8
  import opened Borsh
  import opened ObjectHeap
  import opened Host
  import opened Sdk
  import opened Runtime
  import opened Node
  import G = GuestRuns

  // ---- The program ----

  /** Every buffer of the guest gets fresh pages of its own. */
  function PagesFor(n: int): u32 {
    if n <= 0 then 0 else (n + WASM_PAGE_BYTES - 1) / WASM_PAGE_BYTES % U32_LIMIT
  }

  /** The address of the pages that `memory.grow` answered with, in 32-bit arithmetic. */
  function PageAddress(page: i32): i32 { U32AsI32(page * WASM_PAGE_BYTES % U32_LIMIT) }

  predicate LenValid(n: int) { 0 <= n <= MAX_DATA_SIZE }

  /** Reading the object at `p`, as the events from `k` on: ask for the length, make room, copy. */
  function ReadAction(p: i32, k: nat, events: seq<G.Event>): G.Action {
    if |events| <= k then G.Do(G.PointerLen(p))
    else if |events| == k + 1 then G.Do(G.Grow(PagesFor(events[k].response)))
    else G.Do(G.ReadBytes(p, PageAddress(events[k + 1].response), events[k].response))
  }

  /** Where reading is over, if it is: a length the SDK refuses ends it at once. */
  function ReadEnd(k: nat, events: seq<G.Event>): (end: Option<nat>)
    ensures end.Some? ==> k < end.value <= |events| && (LenValid(events[k].response) ==> end.value == k + 3)
  {
    if |events| <= k then None
    else if !LenValid(events[k].response) then Some(k + 1)
    else if |events| < k + 3 then None
    else Some(k + 3)
  }

  /** What was read. */
  function ReadValue(k: nat, events: seq<G.Event>, linear: seq<byte>): Result<seq<byte>, SdkError>
    requires ReadEnd(k, events).Some?
  {
    var n := events[k].response;
    if n > MAX_DATA_SIZE then Err(MemoryLimitExceeded(n))
    else if n < 0 then Err(Deserialization(Text("Invalid negative length from host")))
    else
      var at := PageAddress(events[k + 1].response);
      if 0 <= at && at + n <= |linear| then Ok(linear[at..at + n]) else Ok([])
  }

  function ReadAs<T>(k: nat, events: seq<G.Event>, linear: seq<byte>, borshError: seq<byte> -> Str,
                     parse: seq<byte> -> Result<T, Str>, name: string): Result<T, Str>
    requires ReadEnd(k, events).Some?
  {
    Decoded(Ok(ReadValue(k, events, linear)), borshError, parse, name).value
  }

  /** Storing bytes, as the events from `k` on: make room, fill it, allocate on the host, copy, return.
      A null pointer from the host makes the guest store the fallback instead, and then give up. */
  function StoreAction(bytes: seq<byte>, fallback: Option<seq<byte>>, k: nat, events: seq<G.Event>): G.Action
    decreases if fallback.Some? then 1 else 0
  {
    if |events| <= k then G.Do(G.Grow(PagesFor(|bytes|)))
    else
      var at := PageAddress(events[k].response);
      if |events| == k + 1 then G.Do(G.Poke(I32AsU32(at), bytes))
      else if |events| == k + 2 then G.Do(G.Alloc(|bytes| % U32_LIMIT))
      else
        var p := events[k + 2].response;
        if p == 0 then
          if fallback.Some? then StoreAction(fallback.value, None, k + 3, events) else G.Return(0)
        else if |events| == k + 3 then G.Do(G.WriteBytes(p, at, U32AsI32(|bytes| % U32_LIMIT)))
        else G.Return(I32AsU32(p))
  }

  /** The error a contract delivers when the host has no pointer for its own result. */
  function LastWord<S, E>(codec: Codec<S, E>, result: Result<ResultData, Str>): Option<seq<byte>> {
    if result.Ok? && Storable(SerializeResult(result.value)) then AnswerOf(codec, Err(Text(ERR_RETURN_RESULT))) else None
  }

  /** Delivering what the contract computed. */
  function AnswerAction<S, E>(codec: Codec<S, E>, result: Result<ResultData, Str>, k: nat, events: seq<G.Event>): G.Action {
    match AnswerOf(codec, result)
    case None => G.Return(0)
    case Some(bytes) => StoreAction(bytes, LastWord(codec, result), k, events)
  }

  /** The second half of an execution, from the event on. */
  function EventAction<S, E>(codec: Codec<S, E>, event: i32, isOwner: bool, callback: Callback<S, E>, state: S, k: nat,
                             events: seq<G.Event>, linear: seq<byte>): G.Action
  {
    match ReadEnd(k, events)
    case None => ReadAction(event, k, events)
    case Some(end) =>
      match ReadAs(k, events, linear, codec.borshError, codec.parseEvent, "Event")
      case Err(message) => AnswerAction(codec, Err(message), end, events)
      case Ok(e) => AnswerAction(codec, Applied(codec, state, e, isOwner, callback), end, events)
  }

  /** The fallback to the initial state, after the current one failed with `first`. */
  function InitAction<S, E>(codec: Codec<S, E>, first: Str, init: i32, event: i32, isOwner: bool, callback: Callback<S, E>,
                            k: nat, events: seq<G.Event>, linear: seq<byte>): G.Action
  {
    match ReadEnd(k, events)
    case None => ReadAction(init, k, events)
    case Some(end) =>
      match Start(Err(first), ReadAs(k, events, linear, codec.borshError, codec.parseState, "Init State"))
      case Ok(s) => EventAction(codec, event, isOwner, callback, s, end, events, linear)
      case Err(message) => AnswerAction(codec, Err(message), end, events)
  }

  /** `execute_contract` as a strategy: what it does next, from everything that happened so far. */
  function ContractAction<S, E>(codec: Codec<S, E>, state: i32, init: i32, event: i32, isOwner: bool,
                                callback: Callback<S, E>, events: seq<G.Event>, linear: seq<byte>): G.Action
  {
    match ReadEnd(0, events)
    case None => ReadAction(state, 0, events)
    case Some(end) =>
      match ReadAs(0, events, linear, codec.borshError, codec.parseState, "State")
      case Ok(s) => EventAction(codec, event, isOwner, callback, s, end, events, linear)
      case Err(first) => InitAction(codec, first, init, event, isOwner, callback, end, events, linear)
  }

  function ContractGuest<S, E>(codec: Codec<S, E>, callback: Callback<S, E>, state: u32, init: u32, event: u32, flag: u32)
    : G.Guest
  {
    (events: seq<G.Event>, linear: seq<byte>) =>
      ContractAction(codec, U32AsI32(state), U32AsI32(init), U32AsI32(event), flag == OWNER_FLAG, callback, events, linear)
  }

  function SdkProgram<S, E>(codec: Codec<S, E>, callback: Callback<S, E>): Program {
    (state, init, event, flag) => ContractGuest(codec, callback, state, init, event, flag)
  }

  lemma ProgramActs<S, E>(codec: Codec<S, E>, callback: Callback<S, E>, state: u32, init: u32, event: u32, isOwner: bool,
                          evs: seq<G.Event>, lin: seq<byte>)
    requires state < I32_LIMIT && init < I32_LIMIT && event < I32_LIMIT
    ensures SdkProgram(codec, callback)(state, init, event, if isOwner then 1 else 0)(evs, lin) ==
            ContractAction(codec, state, init, event, isOwner, callback, evs, lin)
  {
    hide ContractAction;
    var flag: u32 := if isOwner then 1 else 0;
    assert SdkProgram(codec, callback)(state, init, event, flag) == ContractGuest(codec, callback, state, init, event, flag);
    assert (flag == OWNER_FLAG) == isOwner;
    assert U32AsI32(state) == state && U32AsI32(init) == init && U32AsI32(event) == event;
  }

  // ---- One step at a time ----

  /** A world in which a guest of whole pages can work. */
  predicate Working(m: G.Machine, w: G.World) {
    && G.WorldInv(m, w) && m.caps.total < I32_LIMIT && m.store.memorySize < I32_LIMIT
    && w.exportsMemory && w.objs != [] && |w.linear| % WASM_PAGE_BYTES == 0
  }

  lemma OneStep(guest: G.Guest, m: G.Machine, w: G.World, events: seq<G.Event>, steps: nat, call: G.Call)
    requires steps > 0 && guest(events, w.linear) == G.Do(call)
    ensures match G.Step(m, w, call)
            case Fault(t) => G.RunFrom(guest, m, w, events, steps) == G.Run(G.Trapped(t), w, events)
            case Next(w', r) => G.RunFrom(guest, m, w, events, steps) ==
                                G.RunFrom(guest, m, w', events + [G.Event(call, r)], steps - 1)
  {
    hide G.Step;
  }

  /** The memory that a buffer of `n` bytes takes. */
  function Room(n: nat): (r: nat)
    ensures n <= r < n + WASM_PAGE_BYTES && r % WASM_PAGE_BYTES == 0
  {
    (n + WASM_PAGE_BYTES - 1) / WASM_PAGE_BYTES * WASM_PAGE_BYTES
  }

  lemma PagesAreRoom(n: nat)
    requires n < I32_LIMIT
    ensures PagesFor(n) * WASM_PAGE_BYTES == Room(n)
  {
  }

  /** Growth is refused exactly when the room would go beyond the store limit; else the new pages lie
      behind everything the guest had, under an address it can compute. */
  lemma GrowStepOf(m: G.Machine, w: G.World, n: nat)
    requires Working(m, w) && n < I32_LIMIT
    ensures match G.Step(m, w, G.Grow(PagesFor(n)))
            case Fault(t) => t.GrowRefused? && |w.linear| + Room(n) > m.store.memorySize
            case Next(w', r) =>
              && Working(m, w') && w'.objs == w.objs && |w.linear| + Room(n) <= m.store.memorySize
              && w.linear <= w'.linear && PageAddress(r) == |w.linear| && |w'.linear| == |w.linear| + Room(n)
  {
    hide PagesFor, Room, AllNonEmpty, AllAtMost, Flatten;
    PagesAreRoom(n);
    var q := |w.linear| / WASM_PAGE_BYTES;
    assert q * WASM_PAGE_BYTES == |w.linear|;
    assert |w.linear| < U32_LIMIT;
    assert G.LenResponse(q) == q;
  }

  predicate GrowTrap(run: G.Run) { run.status.Trapped? && run.status.trap.GrowRefused? }

  // ---- Reading an object ----

  /** From here on, until it is done, the guest reads the object at `p`. */
  ghost predicate WillRead(guest: G.Guest, events: seq<G.Event>, linear: seq<byte>, p: i32) {
    forall evs, lin :: events <= evs && linear <= lin && ReadEnd(|events|, evs).None? ==>
      guest(evs, lin) == ReadAction(p, |events|, evs)
  }

  /** The events from `k` on have brought `bytes` into linear memory. */
  predicate Has(k: nat, events: seq<G.Event>, linear: seq<byte>, bytes: seq<byte>) {
    && |events| >= k + 3 && |bytes| <= MAX_DATA_SIZE && events[k].response == |bytes|
    && var at := PageAddress(events[k + 1].response); 0 <= at && at + |bytes| <= |linear| && linear[at..at + |bytes|] == bytes
  }

  /** What was read stays read, whatever the guest does behind it. */
  lemma HasStays(k: nat, events: seq<G.Event>, linear: seq<byte>, bytes: seq<byte>, evs: seq<G.Event>, lin: seq<byte>)
    requires Has(k, events, linear, bytes) && events <= evs && linear <= lin
    ensures ReadEnd(k, evs) == Some(k + 3) && ReadValue(k, evs, lin) == Ok(bytes)
  {
    hide PageAddress;
    assert evs[k] == events[k] && evs[k + 1] == events[k + 1];
    var at := PageAddress(events[k + 1].response);
    assert lin[at..at + |bytes|] == linear[at..at + |bytes|];
  }

  lemma PointerStep(m: G.Machine, w: G.World, p: i32)
    requires Working(m, w) && p in AsMap(w.objs)
    ensures |AsMap(w.objs)[p]| < I32_LIMIT
    ensures G.Step(m, w, G.PointerLen(p)) == G.Next(w, |AsMap(w.objs)[p]|)
  {
    hide AsMap, Flatten, AllNonEmpty, AllAtMost;
    ObjectInFlat(w.objs, IndexOf(w.objs, p));
    G.PointerLenFaithful(m, w, p);
  }

  lemma CopyStep(m: G.Machine, before: G.World, w: G.World, p: i32, at: i32)
    requires Working(m, w) && p in AsMap(w.objs) && before.linear <= w.linear
    requires at == |before.linear| && at + |AsMap(w.objs)[p]| <= |w.linear|
    ensures |AsMap(w.objs)[p]| < I32_LIMIT
    ensures var w' := w.(linear := Splice(w.linear, at, AsMap(w.objs)[p]));
            && G.Step(m, w, G.ReadBytes(p, at, |AsMap(w.objs)[p]|)) == G.Next(w', 0)
            && Working(m, w') && before.linear <= w'.linear
  {
    hide AsMap, G.Step;
    G.ReadDelivers(m, w, p, at);
  }

  /** A guest that reads a tracked object either is refused the room for it or has, three events
      later, exactly the object in its memory and everything else as before. */
  lemma ReadPhase(guest: G.Guest, m: G.Machine, w: G.World, events: seq<G.Event>, p: i32, steps: nat)
    returns (w': G.World, events': seq<G.Event>)
    requires Working(m, w) && p in AsMap(w.objs) && |AsMap(w.objs)[p]| <= MAX_DATA_SIZE && steps >= 3
    requires WillRead(guest, events, w.linear, p)
    ensures var run := G.RunFrom(guest, m, w, events, steps);
            var o := AsMap(w.objs)[p];
            if |w.linear| + Room(|o|) > m.store.memorySize then GrowTrap(run)
            else
              && run == G.RunFrom(guest, m, w', events', steps - 3) && Working(m, w') && w'.objs == w.objs
              && w.linear <= w'.linear && |w'.linear| == |w.linear| + Room(|o|)
              && events <= events' && |events'| == |events| + 3 && Has(|events|, events', w'.linear, o)
  {
    hide AsMap, G.RunFrom, G.Step, PagesFor, PageAddress, Working, Room;
    var k, o := |events|, AsMap(w.objs)[p];
    PointerStep(m, w, p);
    OneStep(guest, m, w, events, steps, G.PointerLen(p));
    var evs1 := events + [G.Event(G.PointerLen(p), |o|)];
    var grow := G.Grow(PagesFor(|o|));
    assert evs1[k].response == |o|;
    OneStep(guest, m, w, evs1, steps - 1, grow);
    GrowStepOf(m, w, |o|);
    var grown := G.Step(m, w, grow);
    if grown.Fault? {
      w', events' := w, events;
    } else {
      var evs2 := evs1 + [G.Event(grow, grown.response)];
      assert events <= evs2 && evs2[k].response == |o| && evs2[k + 1].response == grown.response;
      var at := PageAddress(grown.response);
      var read := G.ReadBytes(p, at, |o|);
      OneStep(guest, m, grown.world, evs2, steps - 2, read);
      CopyStep(m, w, grown.world, p, at);
      w' := grown.world.(linear := Splice(grown.world.linear, at, o));
      events' := evs2 + [G.Event(read, 0)];
      assert events <= events' && events'[k].response == |o| && events'[k + 1].response == grown.response;
      assert w'.linear[at..at + |o|] == o;
    }
  }

  // ---- Storing bytes ----

  /** From here on the guest stores `bytes` and returns. */
  ghost predicate WillStore(guest: G.Guest, events: seq<G.Event>, linear: seq<byte>, bytes: seq<byte>,
                            fallback: Option<seq<byte>>)
  {
    forall evs, lin :: events <= evs && linear <= lin ==>
      guest(evs, lin) == StoreAction(bytes, fallback, |events|, evs)
  }

  /** How a run ends that has `answer` to deliver: as one more object, with a trap, or with null. */
  predicate Ends(m: G.Machine, objs: seq<Object>, answer: Option<seq<byte>>, run: G.Run) {
    match answer
    case None => run.status == G.Returned(0) && run.world.objs == objs
    case Some(bytes) =>
      match AllocVerdict(m.caps, |Flatten(objs)|, |bytes|)
      case Err(e) => run.status == G.Trapped(G.HostTrap(e))
      case Ok(p) => 0 < p < I32_LIMIT && run.status == G.Returned(p) && run.world.objs == objs + [bytes]
  }

  lemma PokeStepOf(m: G.Machine, before: G.World, w: G.World, bytes: seq<byte>)
    requires Working(m, w) && before.linear <= w.linear && |before.linear| + |bytes| <= |w.linear|
    requires |before.linear| < U32_LIMIT
    ensures var w' := w.(linear := Splice(w.linear, |before.linear|, bytes));
            && G.Step(m, w, G.Poke(|before.linear|, bytes)) == G.Next(w', 0)
            && Working(m, w') && before.linear <= w'.linear
            && w'.linear[|before.linear|..|before.linear| + |bytes|] == bytes
  {
    hide Flatten, AllNonEmpty, AllAtMost;
  }

  lemma AllocStepOf(m: G.Machine, w: G.World, n: u32)
    requires Working(m, w) && n > 0
    ensures match AllocVerdict(m.caps, |Flatten(w.objs)|, n)
            case Err(e) => G.Step(m, w, G.Alloc(n)) == G.Fault(G.HostTrap(e))
            case Ok(p) =>
              && 0 < p < I32_LIMIT && G.Step(m, w, G.Alloc(n)) == G.Next(w.(objs := w.objs + [Zeros(n)]), p)
              && Working(m, w.(objs := w.objs + [Zeros(n)]))
              && AsMap(w.objs + [Zeros(n)]) == AsMap(w.objs)[p := Zeros(n)]
              && n <= m.caps.single
  {
    hide Flatten, AsMap, AllNonEmpty, AllAtMost;
    NullAllocationIff(m.caps, w.objs, n);
    FlattenSnoc(w.objs, Zeros(n));
    if AllocVerdict(m.caps, |Flatten(w.objs)|, n).Ok? {
      AllocKeepsInv(m.caps, w.objs, n);
    }
  }

  lemma WriteStepOf(m: G.Machine, w: G.World, objs: seq<Object>, at: i32, bytes: seq<byte>)
    requires G.WorldInv(m, w) && m.caps.total < I32_LIMIT && w.exportsMemory && bytes != [] && AllNonEmpty(objs)
    requires w.objs == objs + [Zeros(|bytes|)] && 0 <= at && at + |bytes| <= |w.linear|
    requires w.linear[at..at + |bytes|] == bytes && |bytes| <= m.caps.single && |Flatten(objs)| + |bytes| < I32_LIMIT
    ensures G.Step(m, w, G.WriteBytes(|Flatten(objs)|, at, |bytes|)) == G.Next(w.(objs := objs + [bytes]), 0)
  {
    hide Flatten, AsMap, WriteObjects, AllNonEmpty, AllAtMost;
    FillFresh(objs, bytes);
  }

  /** A guest that stores its answer either is refused the room for it or ends as the allocation on
      the host decides; on a heap in use the null test never misfires. */
  lemma StorePhase(guest: G.Guest, m: G.Machine, w: G.World, events: seq<G.Event>, bytes: seq<byte>,
                   fallback: Option<seq<byte>>, steps: nat)
    requires Working(m, w) && bytes != [] && |bytes| <= I32_MAX && steps >= 5
    requires WillStore(guest, events, w.linear, bytes, fallback)
    ensures var run := G.RunFrom(guest, m, w, events, steps);
            if |w.linear| + Room(|bytes|) > m.store.memorySize then GrowTrap(run)
            else Ends(m, w.objs, Some(bytes), run)
  {
    hide AsMap, Flatten, G.RunFrom, G.Step, PagesFor, PageAddress, Working, Room, AllocVerdict;
    var k := |events|;
    var grow := G.Grow(PagesFor(|bytes|));
    OneStep(guest, m, w, events, steps, grow);
    GrowStepOf(m, w, |bytes|);
    var grown := G.Step(m, w, grow);
    if grown.Next? {
      var at := PageAddress(grown.response);
      var evs1 := events + [G.Event(grow, grown.response)];
      assert evs1[k].response == grown.response;
      var poke := G.Poke(at, bytes);
      OneStep(guest, m, grown.world, evs1, steps - 1, poke);
      PokeStepOf(m, w, grown.world, bytes);
      var poked := grown.world.(linear := Splice(grown.world.linear, at, bytes));
      var evs2 := evs1 + [G.Event(poke, 0)];
      assert evs2[k].response == grown.response;
      StoreTail(guest, m, w, poked, events, evs2, bytes, fallback, steps - 2);
    }
  }

  /** The second half of a store, once the bytes are in linear memory. */
  lemma StoreTail(guest: G.Guest, m: G.Machine, before: G.World, w: G.World, events: seq<G.Event>, evs: seq<G.Event>,
                  bytes: seq<byte>, fallback: Option<seq<byte>>, steps: nat)
    requires Working(m, w) && bytes != [] && |bytes| <= I32_MAX && steps >= 3 && before.linear <= w.linear
    requires WillStore(guest, events, before.linear, bytes, fallback)
    requires events <= evs && |evs| == |events| + 2
    requires var at := PageAddress(evs[|events|].response);
             0 <= at && at + |bytes| <= |w.linear| && w.linear[at..at + |bytes|] == bytes
    ensures Ends(m, w.objs, Some(bytes), G.RunFrom(guest, m, w, evs, steps))
  {
    hide AsMap, Flatten, G.RunFrom, G.Step, PagesFor, PageAddress;
    var k, at := |events|, PageAddress(evs[|events|].response);
    var alloc := G.Alloc(|bytes|);
    OneStep(guest, m, w, evs, steps, alloc);
    AllocStepOf(m, w, |bytes|);
    if AllocVerdict(m.caps, |Flatten(w.objs)|, |bytes|).Ok? {
      var p := |Flatten(w.objs)|;
      var granted := w.(objs := w.objs + [Zeros(|bytes|)]);
      var evs3 := evs + [G.Event(alloc, p)];
      assert events <= evs3 && evs3[k] == evs[k] && evs3[k + 2].response == p;
      var write := G.WriteBytes(p, at, |bytes|);
      OneStep(guest, m, granted, evs3, steps - 1, write);
      WriteStepOf(m, granted, w.objs, at, bytes);
      var evs4 := evs3 + [G.Event(write, 0)];
      assert events <= evs4 && evs4[k] == evs[k] && evs4[k + 2].response == p;
      LastStep(guest, m, granted.(objs := w.objs + [bytes]), evs4, steps - 2, p);
    }
  }

  lemma LastStep(guest: G.Guest, m: G.Machine, w: G.World, events: seq<G.Event>, steps: nat, p: u32)
    requires steps > 0 && guest(events, w.linear) == G.Return(p)
    ensures G.RunFrom(guest, m, w, events, steps) == G.Run(G.Returned(p), w, events)
  {
  }

  // ---- The whole contract ----

  /** The room an answer takes. */
  function AnswerRoom(answer: Option<seq<byte>>): nat { if answer.Some? then Room(|answer.value|) else 0 }

  ghost predicate WillAnswer<S, E>(guest: G.Guest, events: seq<G.Event>, linear: seq<byte>, codec: Codec<S, E>,
                                   result: Result<ResultData, Str>)
  {
    forall evs, lin :: events <= evs && linear <= lin ==>
      guest(evs, lin) == AnswerAction(codec, result, |events|, evs)
  }

  lemma AnswerPhase<S, E>(guest: G.Guest, m: G.Machine, w: G.World, events: seq<G.Event>, codec: Codec<S, E>,
                          result: Result<ResultData, Str>, steps: nat)
    requires Working(m, w) && steps >= 5 && WillAnswer(guest, events, w.linear, codec, result)
    ensures var run := G.RunFrom(guest, m, w, events, steps);
            var answer := AnswerOf(codec, result);
            if |w.linear| + AnswerRoom(answer) > m.store.memorySize then GrowTrap(run) else Ends(m, w.objs, answer, run)
  {
    hide G.RunFrom, SerializeResult, ExecutionAnswer, StoreAction, LastWord, Room;
    var answer := AnswerOf(codec, result);
    match answer {
      case None =>
        LastStep(guest, m, w, events, steps, 0);
      case Some(bytes) =>
        EncodingsNotEmpty();
        StorePhase(guest, m, w, events, bytes, LastWord(codec, result), steps);
    }
  }

  /** An argument that was staged and read is parsed as the meaning of the contract says. */
  lemma StagedIsParsed<T>(k: nat, events: seq<G.Event>, linear: seq<byte>, json: seq<byte>, evs: seq<G.Event>, lin: seq<byte>,
                          borshError: seq<byte> -> Str, parse: seq<byte> -> Result<T, Str>, name: string)
    requires |json| < U32_LIMIT && Has(k, events, linear, EncodeBytes(json)) && events <= evs && linear <= lin
    ensures ReadEnd(k, evs) == Some(k + 3) && ReadAs(k, evs, lin, borshError, parse, name) == Parsed(parse, json, name)
  {
    hide Has, ReadEnd, ReadValue, EncodeBytes, DecodeData, Text, Concat, Display;
    HasStays(k, events, linear, EncodeBytes(json), evs, lin);
    DecodeDataIff(EncodeBytes(json), json);
  }

  /** What a contract computes once it has its state. */
  function Handled<S, E>(codec: Codec<S, E>, state: S, event: seq<byte>, isOwner: bool, callback: Callback<S, E>)
    : Result<ResultData, Str>
  {
    match Parsed(codec.parseEvent, event, "Event")
    case Err(e) => Err(e)
    case Ok(e) => Applied(codec, state, e, isOwner, callback)
  }

  ghost predicate WillHandle<S, E>(guest: G.Guest, events: seq<G.Event>, linear: seq<byte>, codec: Codec<S, E>, p: i32,
                                   isOwner: bool, callback: Callback<S, E>, state: S)
  {
    forall evs, lin :: events <= evs && linear <= lin ==>
      guest(evs, lin) == EventAction(codec, p, isOwner, callback, state, |events|, evs, lin)
  }

  lemma EventPhase<S, E>(guest: G.Guest, m: G.Machine, w: G.World, events: seq<G.Event>, codec: Codec<S, E>, p: i32,
                         json: seq<byte>, isOwner: bool, callback: Callback<S, E>, state: S, steps: nat)
    requires Working(m, w) && steps >= 8 && WillHandle(guest, events, w.linear, codec, p, isOwner, callback, state)
    requires 4 + |json| <= MAX_DATA_SIZE && p in AsMap(w.objs) && AsMap(w.objs)[p] == EncodeBytes(json)
    ensures var run := G.RunFrom(guest, m, w, events, steps);
            var answer := AnswerOf(codec, Handled(codec, state, json, isOwner, callback));
            if |w.linear| + Room(4 + |json|) + AnswerRoom(answer) > m.store.memorySize then GrowTrap(run)
            else Ends(m, w.objs, answer, run)
  {
    hide AsMap, EncodeBytes, G.RunFrom, Working, Room, AnswerRoom, AnswerOf, Ends, Has, ReadAction, ReadEnd, ReadAs,
         AnswerAction, Parsed, Applied;
    assert WillRead(guest, events, w.linear, p);
    var w', events' := ReadPhase(guest, m, w, events, p, steps);
    if |w.linear| + Room(4 + |json|) <= m.store.memorySize {
      var result := Handled(codec, state, json, isOwner, callback);
      forall evs, lin | events' <= evs && w'.linear <= lin
        ensures guest(evs, lin) == AnswerAction(codec, result, |events'|, evs)
      {
        StagedIsParsed(|events|, events', w'.linear, json, evs, lin, codec.borshError, codec.parseEvent, "Event");
      }
      AnswerPhase(guest, m, w', events', codec, result, steps - 3);
    }
  }

  /** What a contract computes from the state it starts from, if there is one. */
  function Begun<S, E>(codec: Codec<S, E>, start: Result<S, Str>, event: seq<byte>, isOwner: bool, callback: Callback<S, E>)
    : Result<ResultData, Str>
  {
    match start
    case Err(e) => Err(e)
    case Ok(s) => Handled(codec, s, event, isOwner, callback)
  }

  /** The room taken from the start state on: for the event, if it comes to that, and for the answer. */
  function BegunRoom<S, E>(codec: Codec<S, E>, start: Result<S, Str>, event: seq<byte>, isOwner: bool,
                           callback: Callback<S, E>): nat
  {
    (if start.Ok? then Room(4 + |event|) else 0) + AnswerRoom(AnswerOf(codec, Begun(codec, start, event, isOwner, callback)))
  }

  ghost predicate WillFallBack<S, E>(guest: G.Guest, events: seq<G.Event>, linear: seq<byte>, codec: Codec<S, E>, first: Str,
                                     init: i32, event: i32, isOwner: bool, callback: Callback<S, E>)
  {
    forall evs, lin :: events <= evs && linear <= lin ==>
      guest(evs, lin) == InitAction(codec, first, init, event, isOwner, callback, |events|, evs, lin)
  }

  lemma InitPhase<S, E>(guest: G.Guest, m: G.Machine, w: G.World, events: seq<G.Event>, codec: Codec<S, E>, first: Str,
                        ip: i32, ep: i32, i: seq<byte>, e: seq<byte>, isOwner: bool, callback: Callback<S, E>, steps: nat)
    requires Working(m, w) && steps >= 11
    requires WillFallBack(guest, events, w.linear, codec, first, ip, ep, isOwner, callback)
    requires 4 + |i| <= MAX_DATA_SIZE && ip in AsMap(w.objs) && AsMap(w.objs)[ip] == EncodeBytes(i)
    requires 4 + |e| <= MAX_DATA_SIZE && ep in AsMap(w.objs) && AsMap(w.objs)[ep] == EncodeBytes(e)
    ensures var run := G.RunFrom(guest, m, w, events, steps);
            var start := Start(Err(first), Parsed(codec.parseState, i, "Init State"));
            if |w.linear| + Room(4 + |i|) + BegunRoom(codec, start, e, isOwner, callback) > m.store.memorySize
            then GrowTrap(run)
            else Ends(m, w.objs, AnswerOf(codec, Begun(codec, start, e, isOwner, callback)), run)
  {
    hide AsMap, EncodeBytes, G.RunFrom, Working, Room, AnswerRoom, AnswerOf, Ends, Has, ReadAction, ReadEnd, ReadAs,
         AnswerAction, EventAction, Parsed, Handled, Start;
    assert WillRead(guest, events, w.linear, ip);
    var w', events' := ReadPhase(guest, m, w, events, ip, steps);
    if |w.linear| + Room(4 + |i|) <= m.store.memorySize {
      var start := Start(Err(first), Parsed(codec.parseState, i, "Init State"));
      forall evs, lin | events' <= evs && w'.linear <= lin
        ensures guest(evs, lin) ==
                if start.Ok? then EventAction(codec, ep, isOwner, callback, start.value, |events'|, evs, lin)
                else AnswerAction(codec, Err(start.error), |events'|, evs)
      {
        StagedIsParsed(|events|, events', w'.linear, i, evs, lin, codec.borshError, codec.parseState, "Init State");
      }
      match start {
        case Ok(s) => EventPhase(guest, m, w', events', codec, ep, e, isOwner, callback, s, steps - 3);
        case Err(message) => AnswerPhase(guest, m, w', events', codec, Err(message), steps - 3);
      }
    }
  }

  /** All the room an execution takes: for the current state, for the initial one if the current one
      fails, for the event if there is a state to apply it to, and for the answer. */
  function Footprint<S, E>(codec: Codec<S, E>, s: seq<byte>, i: seq<byte>, e: seq<byte>, isOwner: bool,
                           callback: Callback<S, E>): nat
  {
    var current := Parsed(codec.parseState, s, "State");
    var start := Start(current, Parsed(codec.parseState, i, "Init State"));
    Room(4 + |s|) + (if current.Err? then Room(4 + |i|) else 0) + BegunRoom(codec, start, e, isOwner, callback)
  }

  ghost predicate WillExecute<S, E>(guest: G.Guest, linear: seq<byte>, codec: Codec<S, E>, state: i32, init: i32, event: i32,
                                    isOwner: bool, callback: Callback<S, E>)
  {
    forall evs, lin :: linear <= lin ==>
      guest(evs, lin) == ContractAction(codec, state, init, event, isOwner, callback, evs, lin)
  }

  /** An SDK contract in a linear memory of its own: it traps exactly when its buffers do not fit, and
      otherwise ends with the encoding of its meaning. */
  lemma ContractPhase<S, E>(guest: G.Guest, m: G.Machine, w: G.World, codec: Codec<S, E>, sp: i32, ip: i32, ep: i32,
                            s: seq<byte>, i: seq<byte>, e: seq<byte>, isOwner: bool, callback: Callback<S, E>, steps: nat)
    requires Working(m, w) && steps >= 14
    requires WillExecute(guest, w.linear, codec, sp, ip, ep, isOwner, callback)
    requires 4 + |s| <= MAX_DATA_SIZE && sp in AsMap(w.objs) && AsMap(w.objs)[sp] == EncodeBytes(s)
    requires 4 + |i| <= MAX_DATA_SIZE && ip in AsMap(w.objs) && AsMap(w.objs)[ip] == EncodeBytes(i)
    requires 4 + |e| <= MAX_DATA_SIZE && ep in AsMap(w.objs) && AsMap(w.objs)[ep] == EncodeBytes(e)
    ensures var run := G.RunFrom(guest, m, w, [], steps);
            if |w.linear| + Footprint(codec, s, i, e, isOwner, callback) > m.store.memorySize then GrowTrap(run)
            else Ends(m, w.objs, AnswerOf(codec, Meaning(codec, s, i, e, isOwner, callback)), run)
  {
    hide AsMap, EncodeBytes, G.RunFrom, Working, Room, AnswerRoom, AnswerOf, Ends, Has, ReadAction, ReadEnd, ReadAs,
         EventAction, InitAction, Parsed;
    assert WillRead(guest, [], w.linear, sp);
    var w', events' := ReadPhase(guest, m, w, [], sp, steps);
    if |w.linear| + Room(4 + |s|) <= m.store.memorySize {
      var current := Parsed(codec.parseState, s, "State");
      forall evs, lin | events' <= evs && w'.linear <= lin
        ensures guest(evs, lin) ==
                if current.Ok? then EventAction(codec, ep, isOwner, callback, current.value, |events'|, evs, lin)
                else InitAction(codec, current.error, ip, ep, isOwner, callback, |events'|, evs, lin)
      {
        StagedIsParsed(0, events', w'.linear, s, evs, lin, codec.borshError, codec.parseState, "State");
      }
      match current {
        case Ok(v) => EventPhase(guest, m, w', events', codec, ep, e, isOwner, callback, v, steps - 3);
        case Err(first) => InitPhase(guest, m, w', events', codec, first, ip, ep, i, e, isOwner, callback, steps - 3);
      }
    }
  }

  // ---- On a node ----

  /** What the node makes of how a run over its staged arguments ended. */
  lemma EndsAreRetrieved<V>(m: G.Machine, values: Values<V>, s: seq<byte>, i: seq<byte>, e: seq<byte>,
                            answer: Option<ResultData>, run: G.Run)
    requires |s| < U32_LIMIT && |i| < U32_LIMIT && |e| < U32_LIMIT
    requires answer.Some? ==> Storable(SerializeResult(answer.value))
    requires Ends(m, StagedView(m.caps, s, i, e).objs, if answer.Some? then SerializeResult(answer.value) else None, run)
    ensures EndOf(run, (o: Object) => ResultOf(values, DecodeResult(o))) ==
            Some(ResultWithin(m.caps, values, 12 + |s| + |i| + |e|, answer))
  {
    hide AsMap, Flatten, EncodeBytes, SerializeResult, DecodeResult;
    var objs := StagedView(m.caps, s, i, e).objs;
    StagedMemory(m.caps, s, i, e);
    if answer.Some? {
      var bytes := SerializeResult(answer.value).value;
      DecodeResultIff(bytes, answer.value);
      FlattenSnoc(objs, bytes);
    } else {
      StagedIsNoResult(s);
    }
  }

  /** The same contract as a guest among others: on every machine, through the real closures and in a
      linear memory that starts as the module's image, it gives what `execute_inner` is proved to
      give, or traps for want of linear memory, and the latter exactly when its buffers do not fit. */
  lemma SdkContractIsGuest<V, S, E>(ramMb: u64, cores: usize, contract: ContractModule, values: Values<V>, codec: Codec<S, E>,
                                    state: V, init: V, event: V, isOwner: bool, callback: Callback<S, E>, steps: nat)
    requires |contract.image| % WASM_PAGE_BYTES == 0 && steps >= 14
    ensures var m := G.MachineOf(ramMb, cores);
            && m.caps.single <= 8 * MIB
            && var r := GuestOutcome(m, contract, true, values, state, init, event, isOwner, SdkProgram(codec, callback), steps);
               var s, i, e := values.toJson(state), values.toJson(init), values.toJson(event);
               if StagingError(m.caps.single, s, i, e).None? && EntryError(m.store, contract, false).None?
                  && |contract.image| + Footprint(codec, s.value, i.value, e.value, isOwner, callback) > m.store.memorySize
               then exists desired :: r == Some(Err(ContractExecutionFailed(Halted(Trap(G.GrowRefused(desired))))))
               else r == Some(Expected(m, contract, values, codec, state, init, event, isOwner, callback))
  {
    hide Build, AsMap, Flatten, EncodeBytes, Footprint, G.RunFrom, Meaning, ResultOf, ContractAction, SerializeResult,
         ResultWithin, Ends, ExecutionAnswer, StageError;
    BuildClosedForm(ramMb, cores);
    var m := G.MachineOf(ramMb, cores);
    var s, i, e := values.toJson(state), values.toJson(init), values.toJson(event);
    if StagingError(m.caps.single, s, i, e).None? && EntryError(m.store, contract, false).None? {
      RunOfStaged(ramMb, cores, contract, values, codec, s.value, i.value, e.value, isOwner, callback, steps);
    }
  }

  lemma RunOfStaged<V, S, E>(ramMb: u64, cores: usize, contract: ContractModule, values: Values<V>, codec: Codec<S, E>,
                             s: seq<byte>, i: seq<byte>, e: seq<byte>, isOwner: bool, callback: Callback<S, E>, steps: nat)
    requires |contract.image| % WASM_PAGE_BYTES == 0 && steps >= 14
    requires var m := G.MachineOf(ramMb, cores);
             && 4 + |s| <= m.caps.single <= 8 * MIB && 4 + |i| <= m.caps.single && 4 + |e| <= m.caps.single
             && Instantiates(m.store, contract)
    ensures var m := G.MachineOf(ramMb, cores);
            var w := StartWorld(StagedView(m.caps, s, i, e).objs, contract, true);
            var run := G.RunFrom(MainGuest(SdkProgram(codec, callback), s, i, isOwner), m, w, [], steps);
            if |contract.image| + Footprint(codec, s, i, e, isOwner, callback) > m.store.memorySize then GrowTrap(run)
            else EndOf(run, (o: Object) => ResultOf(values, DecodeResult(o))) ==
                 Some(ResultWithin(m.caps, values, 12 + |s| + |i| + |e|,
                                   ExecutionAnswer(codec, Meaning(codec, s, i, e, isOwner, callback))))
  {
    hide Build, AsMap, Flatten, EncodeBytes, Footprint, G.RunFrom, Meaning, ResultOf, ContractAction, SerializeResult,
         ResultWithin, Ends, ExecutionAnswer, EndOf, DecodeResult;
    BuildClosedForm(ramMb, cores);
    var m := G.MachineOf(ramMb, cores);
    var w := StartWorld(StagedView(m.caps, s, i, e).objs, contract, true);
    StagedWorldInv(ramMb, cores, s, i, e, contract, true);
    StagedMemory(m.caps, s, i, e);
    var guest := MainGuest(SdkProgram(codec, callback), s, i, isOwner);
    forall evs, lin
      ensures guest(evs, lin) == ContractAction(codec, 0, 4 + |s|, 8 + |s| + |i|, isOwner, callback, evs, lin)
    {
      ProgramActs(codec, callback, 0, 4 + |s|, 8 + |s| + |i|, isOwner, evs, lin);
    }
    ContractPhase(guest, m, w, codec, 0, 4 + |s|, 8 + |s| + |i|, s, i, e, isOwner, callback, steps);
    if |contract.image| + Footprint(codec, s, i, e, isOwner, callback) <= m.store.memorySize {
      EndsAreRetrieved(m, values, s, i, e, ExecutionAnswer(codec, Meaning(codec, s, i, e, isOwner, callback)),
                       G.RunFrom(guest, m, w, [], steps));
    }
  }

  lemma RoomWithin(n: nat, limit: nat)
    requires n <= limit && limit % WASM_PAGE_BYTES == 0
    ensures Room(n) <= limit
  {
  }

  lemma FootprintWithState<S, E>(codec: Codec<S, E>, s: seq<byte>, i: seq<byte>, e: seq<byte>, isOwner: bool,
                                 callback: Callback<S, E>)
    requires Parsed(codec.parseState, s, "State").Ok?
    ensures Footprint(codec, s, i, e, isOwner, callback) ==
            Room(4 + |s|) + Room(4 + |e|) + AnswerRoom(AnswerBytes(codec, s, i, e, isOwner, callback))
  {
    hide Room, Parsed, AnswerOf, Applied, AnswerRoom;
  }

  lemma LinearMemoryIsFourAllocations(ramMb: u64, cores: usize)
    ensures var m := G.MachineOf(ramMb, cores);
            m.store.memorySize == 4 * m.caps.single && m.caps.single % WASM_PAGE_BYTES == 0
  {
    hide Build, Steps;
    BuildClosedForm(ramMb, cores);
    var k := Steps(ramMb);
    assert k * MIB == k * 16 * WASM_PAGE_BYTES;
  }

  /** The limits fit each other: a contract whose image takes at most a quarter of the linear memory,
      whose state parses and whose answer the host could take in one allocation, never lacks room. */
  lemma QuarterImageSuffices<S, E>(ramMb: u64, cores: usize, contract: ContractModule, codec: Codec<S, E>, s: seq<byte>,
                                   i: seq<byte>, e: seq<byte>, isOwner: bool, callback: Callback<S, E>)
    requires var m := G.MachineOf(ramMb, cores);
             && 4 * |contract.image| <= m.store.memorySize && 4 + |s| <= m.caps.single && 4 + |e| <= m.caps.single
             && Parsed(codec.parseState, s, "State").Ok?
             && var answer := AnswerBytes(codec, s, i, e, isOwner, callback);
                answer.Some? ==> |answer.value| <= m.caps.single
    ensures |contract.image| + Footprint(codec, s, i, e, isOwner, callback) <= G.MachineOf(ramMb, cores).store.memorySize
  {
    hide Build, Room, Parsed, AnswerBytes, Footprint;
    LinearMemoryIsFourAllocations(ramMb, cores);
    FootprintWithState(codec, s, i, e, isOwner, callback);
    var single := G.MachineOf(ramMb, cores).caps.single;
    RoomWithin(4 + |s|, single);
    RoomWithin(4 + |e|, single);
    var answer := AnswerBytes(codec, s, i, e, isOwner, callback);
    if answer.Some? {
      RoomWithin(|answer.value|, single);
    }
  }
}
