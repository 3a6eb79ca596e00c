/** Whole-node results: validation of a module, execution of an arbitrary guest, and agreement of
    the real host with the test double. */
module Node {
  import opened Bytes
  import opened Limits
  import opened Utf8
  import opened Borsh
  import opened ObjectHeap
  import opened Host
  import opened Mock
  import opened Sdk
  import opened Runtime
  import Imports
  import GuestRuns
  import WasmModule

  // ---- Validation (`validate_inner`) ----

  /** What a node with these caps makes of an init-check answer on a state staged as `json`. */
  function InitResultWithin(caps: Caps, json: seq<byte>, answer: Option<InitData>): Result<(), RuntimeError>
    requires answer.Some? ==> Storable(SerializeInit(answer.value))
  {
    if answer.None? then
      // The contract returned the null pointer, which is where the state is staged.
      if json == [0] then Ok(()) else Err(SerializationError("init check result"))
    else
      match AllocVerdict(caps, 4 + |json|, |SerializeInit(answer.value).value|)
      case Err(trap) => Err(ContractExecutionFailed(Halted(HostHalt(trap))))
      case Ok(_) => InitResultOf(answer)
  }

  /** What a machine says about a proposed initial state. */
  function ExpectedInit<V, S, E>(m: GuestRuns.Machine, contract: ContractModule, values: Values<V>,
                                 codec: Codec<S, E>, state: V, callback: InitCallback<S>): Result<(), RuntimeError>
  {
    var json := values.toJson(state);
    match StageError(m.caps.single, json)
    case Some(error) => Err(error)
    case None =>
      match EntryError(m.store, contract, true)
      case Some(error) => Err(error)
      case None => InitResultWithin(m.caps, json.value, InitAnswer(InitMeaning(codec, json.value, callback)))
  }

  /** The real host once the proposed state is staged. */
  function StagedInit(caps: Caps, json: seq<byte>): View
    requires |json| < U32_LIMIT
  {
    RealView(caps, [EncodeBytes(json)])
  }

  lemma StagedInitMemory(caps: Caps, json: seq<byte>)
    requires |json| < U32_LIMIT
    ensures Memory(StagedInit(caps, json)) == map[0 := EncodeBytes(json)]
    ensures |Flatten(StagedInit(caps, json).objs)| == 4 + |json|
  {
    hide Flatten, AsMap, Le32;
    OneObject(EncodeBytes(json));
  }

  lemma InterpretStagedInit<S, E>(v: View, p: i32, json: seq<byte>, codec: Codec<S, E>, callback: InitCallback<S>)
    requires 4 + |json| <= MAX_DATA_SIZE && p in Memory(v) && Memory(v)[p] == EncodeBytes(json)
    ensures InterpretInit(codec, Seen(v, p), callback) == Ok(InitMeaning(codec, json, callback))
  {
    hide Memory, Seen, EncodeBytes, Text, Concat, DecodeData;
    StagedIsSeen(v, p, json);
  }

  /** The bytes of what an init check computes, if they can be stored. */
  function InitAnswerBytes<S, E>(codec: Codec<S, E>, json: seq<byte>, callback: InitCallback<S>): Option<seq<byte>> {
    var answer := InitAnswer(InitMeaning(codec, json, callback));
    if answer.Some? then SerializeInit(answer.value) else None
  }

  /** What an init check leaves behind, on either host. */
  lemma StagedInitExecution<S, E>(v: View, p: i32, json: seq<byte>, codec: Codec<S, E>, callback: InitCallback<S>)
    requires 4 + |json| <= MAX_DATA_SIZE && p in Memory(v) && Memory(v)[p] == EncodeBytes(json) && InUse(v)
    ensures var (exit, after) := InitExecution(codec, v, p, callback);
            Delivered(InitAnswerBytes(codec, json, callback), v, exit, Memory(after))
  {
    hide Seen, InterpretInit, InitMeaning, Delivered, InUse, Delivery, Memory, SerializeInit, EncodeBytes;
    InterpretStagedInit(v, p, json, codec, callback);
    EncodingsNotEmpty();
    DeliveryIsAnswer(v, InitMeaning(codec, json, callback), m => InitData(false, m), ERR_RETURN_INIT_RESULT,
                     SerializeInit);
  }

  function RetrievedInit(exit: Exit, memory: map<int, Object>): Result<(), RuntimeError> {
    match exit
    case ExitHalt(halt) => Err(ContractExecutionFailed(Halted(halt)))
    case Exit(p) =>
      if p !in memory then Err(MemoryAllocationFailed(InvalidPointer(p))) else InitResultOf(DecodeInit(memory[p]))
  }

  lemma DeliveredInitIsRetrieved(caps: Caps, json: seq<byte>, answer: Option<InitData>, exit: Exit,
                                 after: map<int, Object>)
    requires 4 + |json| <= 8 * MIB
    requires answer.Some? ==> Storable(SerializeInit(answer.value))
    requires Delivered(if answer.Some? then SerializeInit(answer.value) else None, StagedInit(caps, json), exit, after)
    ensures RetrievedInit(exit, after) == InitResultWithin(caps, json, answer)
  {
    hide Flatten, Memory, EncodeBytes, SerializeInit, DecodeInit;
    StagedInitMemory(caps, json);
    if answer.Some? {
      DecodeInitIff(SerializeInit(answer.value).value, answer.value);
    } else {
      StagedIsInitIff(json);
    }
  }

  /** `generate_context`: the proposed state, staged alone. */
  method GenerateContext<V>(ramMb: u64, cores: usize, values: Values<V>, state: V)
    returns (host: MemoryManager, r: Result<u32, RuntimeError>)
    ensures host.Valid() && fresh(host)
    ensures GuestRuns.Machine(host.caps, host.storeLimits) == GuestRuns.MachineOf(ramMb, cores)
    ensures match StageError(host.caps.single, values.toJson(state))
            case Some(error) => r == Err(error)
            case None => r == Ok(0) && host.objs == [EncodeBytes(values.toJson(state).value)]
  {
    hide Build, Flatten, AsMap, EncodeBytes, HeapInv;
    BuildClosedForm(ramMb, cores);
    host := new MemoryManager.FromLimits(Build(ramMb, cores));
    NothingStored();
    r := StageValue(host, values, state);
    if r.Ok? {
      assert [] + [EncodeBytes(values.toJson(state).value)] == [EncodeBytes(values.toJson(state).value)];
    }
  }

  /** The call of `init_check_function` on a staged state of a built machine. */
  method CallInit<S, E>(host: MemoryManager, codec: Codec<S, E>, p: u32, callback: InitCallback<S>,
                        ghost ramMb: u64, ghost cores: usize, ghost json: seq<byte>) returns (exit: Exit)
    requires host.Valid() && host.caps == CapsOf(Build(ramMb, cores))
    requires 4 + |json| <= host.caps.single && |json| < U32_LIMIT && host.objs == [EncodeBytes(json)] && p == 0
    modifies host
    ensures host.Valid() && 4 + |json| <= 8 * MIB
    ensures Delivered(InitAnswerBytes(codec, json, callback), StagedInit(host.caps, json), exit, host.Heap())
  {
    hide Build, Flatten, AsMap, Memory, EncodeBytes, InitAnswerBytes, InitExecution, Delivered;
    BuildClosedForm(ramMb, cores);
    StagedInitMemory(host.caps, json);
    StagedInitExecution(StagedInit(host.caps, json), 0, json, codec, callback);
    exit := CheckInitData(Real(host), codec, U32AsI32(p), callback);
    RealMemory(host);
  }

  /** The init-check half of `validate_inner` around an SDK contract. */
  method CheckInitialState<V, S, E>(ramMb: u64, cores: usize, contract: ContractModule, values: Values<V>,
                                    codec: Codec<S, E>, state: V, callback: InitCallback<S>)
    returns (r: Result<(), RuntimeError>)
    ensures r == ExpectedInit(GuestRuns.MachineOf(ramMb, cores), contract, values, codec, state, callback)
  {
    hide Build, Flatten, AsMap, EncodeBytes, SerializeInit, DecodeInit, InitAnswer, InitMeaning, InitResultOf,
         Delivered, EntryError, InitResultWithin, StagedInit, HoldsInit, Loads;
    var host, staged := GenerateContext(ramMb, cores, values, state);
    if staged.Err? {
      return Err(staged.error);
    }
    var instance := Instantiate(host, contract, true);
    if instance.Err? {
      return Err(instance.error);
    }
    ghost var json := values.toJson(state).value;
    var exit := CallInit(host, codec, staged.value, callback, ramMb, cores, json);
    ghost var answer := InitAnswer(InitMeaning(codec, json, callback));
    DeliveredInitIsRetrieved(host.caps, json, answer, exit, host.Heap());
    match exit {
      case ExitHalt(halt) => return Err(ContractExecutionFailed(Halted(halt)));
      case Exit(p) => r := CheckInitResult(host, p);
    }
  }

  const STATE_UNPARSED := "Cannot parse " + "State" + " from JSON bytes: "
  const INIT_REJECTED := "Error running init contract data: "

  /** Why a contract rejects a proposed state: None if it accepts. */
  function Rejection<S, E>(codec: Codec<S, E>, json: seq<byte>, callback: InitCallback<S>): Option<seq<byte>> {
    match codec.parseState(json)
    case Err(e) => Some(Ascii(STATE_UNPARSED) + e)
    case Ok(s) =>
      var check := callback(s, InitData(false, []));
      if check.success then None else Some(Ascii(INIT_REJECTED) + check.error)
  }

  lemma InitMeaningIs<S, E>(codec: Codec<S, E>, json: seq<byte>, callback: InitCallback<S>)
    ensures var r, rejection := InitMeaning(codec, json, callback), Rejection(codec, json, callback);
            && (rejection.None? ==> r == Ok(InitData(true, [])))
            && (rejection.Some? ==> r.Err? && r.error == rejection.value)
  {
    hide Text, Ascii;
    TextIsAscii(STATE_UNPARSED);
    TextIsAscii(INIT_REJECTED);
  }

  lemma InitSizeDecides(d: InitData)
    ensures Storable(SerializeInit(d)) <==> 5 + |d.error| <= 2_147_483_647
    ensures SerializeInit(d).Some? ==> |SerializeInit(d).value| == 5 + |d.error|
  {
    hide Le32;
  }

  /** A proposed state is accepted. A rejection too long to be encoded is lost, and the null pointer
      returned in its place is taken for an acceptance if the state is a single NUL byte. */
  predicate Accepted<S, E>(codec: Codec<S, E>, json: seq<byte>, callback: InitCallback<S>) {
    var rejection := Rejection(codec, json, callback);
    rejection.None? || (json == [0] && 5 + |rejection.value| > 2_147_483_647)
  }

  /** What a node reports for an init check that it runs: an acceptance always arrives, a rejection with
      its message if that fits one allocation. */
  lemma InitReported<V, S, E>(ramMb: u64, cores: usize, contract: ContractModule, values: Values<V>, codec: Codec<S, E>,
                              state: V, callback: InitCallback<S>)
    requires var limits := Build(ramMb, cores);
             && Stageable(limits.maxSingleAlloc, values.toJson(state))
             && Loads(limits.memorySize, limits.maxTableElements, contract) && contract.hasMain && contract.hasInit
    ensures var r := ExpectedInit(GuestRuns.MachineOf(ramMb, cores), contract, values, codec, state, callback);
            var json, single := values.toJson(state).value, Build(ramMb, cores).maxSingleAlloc;
            var rejection := Rejection(codec, json, callback);
            && (r.Ok? <==> Accepted(codec, json, callback))
            && (rejection.Some? && !Accepted(codec, json, callback) ==>
                  var n := 5 + |rejection.value|;
                  if n > 2_147_483_647 then r == Err(SerializationError("init check result"))
                  else if n > single
                  then r == Err(ContractExecutionFailed(Halted(Trap(GuestRuns.HostTrap(AllocationTooLarge(n, single))))))
                  else r.Err? && r.error.ContractExecutionFailed? && r.error.cause.Message?
                       && r.error.cause.text == rejection.value)
  {
    hide Build, Rejection, InitMeaning, SerializeInit;
    BuildClosedForm(ramMb, cores);
    var json := values.toJson(state).value;
    InitMeaningIs(codec, json, callback);
    var result := InitMeaning(codec, json, callback);
    InitSizeDecides(InitData(true, []));
    if result.Err? {
      InitSizeDecides(InitData(false, result.error));
    }
  }

  /** Which refusals of an init check concern the module. */
  lemma InitRefused<V, S, E>(ramMb: u64, cores: usize, contract: ContractModule, values: Values<V>, codec: Codec<S, E>,
                             state: V, callback: InitCallback<S>)
    ensures var r := ExpectedInit(GuestRuns.MachineOf(ramMb, cores), contract, values, codec, state, callback);
            var limits := Build(ramMb, cores);
            var loads := Loads(limits.memorySize, limits.maxTableElements, contract);
            && (r.Ok? ==> Stageable(limits.maxSingleAlloc, values.toJson(state)) && loads && contract.hasMain && contract.hasInit)
            && (Stageable(limits.maxSingleAlloc, values.toJson(state)) ==>
                  && (r == Err(EntryPointNotFound("main_function")) <==> loads && !contract.hasMain)
                  && (r == Err(EntryPointNotFound("init_check_function")) <==> loads && contract.hasMain && !contract.hasInit))
  {
    hide Build, InitMeaning, SerializeInit, InitAnswer, Storable;
  }

  /** `validate_inner`: the imports are judged first, and a refusal blames the first offending import
      or names exactly what is missing; then the initial state decides. */
  method Validate<V, S, E>(imports: seq<Imports.Import>, ramMb: u64, cores: usize, contract: ContractModule,
                           values: Values<V>, codec: Codec<S, E>, state: V, callback: InitCallback<S>)
    returns (r: Result<(), RuntimeError>)
    ensures Imports.ExactlySdk(imports) ==>
              r == ExpectedInit(GuestRuns.MachineOf(ramMb, cores), contract, values, codec, state, callback)
    ensures !Imports.ExactlySdk(imports) ==> r.Err? && r.error.InvalidModule? && Imports.Justified(r.error.reason, imports)
    ensures var limits := Build(ramMb, cores);
            r.Ok? <==>
              && Imports.ExactlySdk(imports) && Stageable(limits.maxSingleAlloc, values.toJson(state))
              && Loads(limits.memorySize, limits.maxTableElements, contract) && contract.hasMain && contract.hasInit
              && Accepted(codec, values.toJson(state).value, callback)
    ensures var limits := Build(ramMb, cores);
            Imports.ExactlySdk(imports) && Stageable(limits.maxSingleAlloc, values.toJson(state))
            && Loads(limits.memorySize, limits.maxTableElements, contract) ==>
              && (r == Err(EntryPointNotFound("main_function")) <==> !contract.hasMain)
              && (r == Err(EntryPointNotFound("init_check_function")) <==> contract.hasMain && !contract.hasInit)
  {
    hide Imports.ExactlySdk, Imports.Justified, ExpectedInit, Build, Accepted, Loads, Stageable;
    InitRefused(ramMb, cores, contract, values, codec, state, callback);
    ghost var limits := Build(ramMb, cores);
    if Stageable(limits.maxSingleAlloc, values.toJson(state)) && Loads(limits.memorySize, limits.maxTableElements, contract)
       && contract.hasMain && contract.hasInit {
      InitReported(ramMb, cores, contract, values, codec, state, callback);
    }
    var checked := Imports.ValidateImports(imports);
    if checked.Err? {
      return Err(InvalidModule(checked.error));
    }
    r := CheckInitialState(ramMb, cores, contract, values, codec, state, callback);
  }

  // ---- Arbitrary guests ----

  /** A contract's `main_function`: what it does with the three pointers and the owner flag. */
  type Program = (u32, u32, u32, u32) -> GuestRuns.Guest

  function MainGuest(program: Program, s: seq<byte>, i: seq<byte>, isOwner: bool): GuestRuns.Guest
    requires 8 + |s| + |i| < U32_LIMIT
  {
    program(0, 4 + |s|, 8 + |s| + |i|, if isOwner then 1 else 0)
  }

  /** The world a guest starts in. */
  function StartWorld(objs: seq<Object>, contract: ContractModule, exportsMemory: bool): GuestRuns.World {
    GuestRuns.World(objs, contract.image, contract.table, exportsMemory)
  }

  /** How a run ends for the node, None if it is still going on; `decode` reads the object found at
      the returned pointer. */
  function EndOf<T>(run: GuestRuns.Run, decode: Object -> Result<T, RuntimeError>): Option<Result<T, RuntimeError>> {
    match run.status
    case Running => None
    case Trapped(trap) => Some(Err(ContractExecutionFailed(Halted(Trap(trap)))))
    case Returned(p) =>
      if p !in AsMap(run.world.objs) then Some(Err(MemoryAllocationFailed(InvalidPointer(p))))
      else Some(decode(AsMap(run.world.objs)[p]))
  }

  /** What a machine returns for any program at all, or None if it is still running after so many
      steps. */
  function GuestOutcome<V>(m: GuestRuns.Machine, contract: ContractModule, exportsMemory: bool, values: Values<V>,
                           state: V, init: V, event: V, isOwner: bool, program: Program, steps: nat)
    : Option<Result<ExecutionResult<V>, RuntimeError>>
    requires m.caps.single <= 8 * MIB
  {
    var s, i, e := values.toJson(state), values.toJson(init), values.toJson(event);
    match StagingError(m.caps.single, s, i, e)
    case Some(error) => Some(Err(error))
    case None =>
      match EntryError(m.store, contract, false)
      case Some(error) => Some(Err(error))
      case None =>
        var world := StartWorld(StagedView(m.caps, s.value, i.value, e.value).objs, contract, exportsMemory);
        EndOf(GuestRuns.RunFrom(MainGuest(program, s.value, i.value, isOwner), m, world, [], steps),
              o => ResultOf(values, DecodeResult(o)))
  }

  /** `execute_inner` around any guest, on the flat memory manager. */
  method ExecuteGuest<V>(ramMb: u64, cores: usize, contract: ContractModule, exportsMemory: bool, values: Values<V>,
                         state: V, init: V, event: V, isOwner: bool, program: Program, steps: nat)
    returns (r: Option<Result<ExecutionResult<V>, RuntimeError>>)
    ensures GuestRuns.MachineOf(ramMb, cores).caps.single <= 8 * MIB
    ensures r == GuestOutcome(GuestRuns.MachineOf(ramMb, cores), contract, exportsMemory, values, state, init, event,
                              isOwner, program, steps)
  {
    hide Build, Flatten, AsMap, EncodeBytes, DecodeResult, ResultOf, StageError, EntryError, GuestRuns.RunFrom, HeapInv;
    BuildClosedForm(ramMb, cores);
    var host, staged := GenerateExecutionContext(ramMb, cores, values, state, init, event);
    if staged.Err? {
      return Some(Err(staged.error));
    }
    var instance := Instantiate(host, contract, false);
    if instance.Err? {
      return Some(Err(instance.error));
    }
    var (sp, ip, ep) := staged.value;
    var guest := program(sp, ip, ep, if isOwner then 1 else 0);
    var status, _, _, _ := GuestRuns.RunOnHost(host, guest, contract.image, contract.table, exportsMemory, steps);
    match status {
      case Running => return None;
      case Trapped(trap) => return Some(Err(ContractExecutionFailed(Halted(Trap(trap)))));
      case Returned(p) =>
        var result := GetExecutionResult(host, values, p);
        return Some(result);
    }
  }

  /** Runs that agree end alike for the node, or the first ends for lack of capacity. */
  lemma AgreeingRunsEndAlike<T>(a: GuestRuns.Run, b: GuestRuns.Run, decode: Object -> Result<T, RuntimeError>)
    requires GuestRuns.Agree(a, b)
    ensures EndOf(a, decode) == EndOf(b, decode)
            || (EndOf(a, decode).Some? && EndOf(a, decode).value.Err? && CapacityError(EndOf(a, decode).value.error))
  {
    hide AsMap;
  }

  /** Two outcomes are the same, or the first is a failure for lack of capacity. */
  ghost predicate OutcomesAgree<V>(a: Option<Result<ExecutionResult<V>, RuntimeError>>,
                             b: Option<Result<ExecutionResult<V>, RuntimeError>>)
  {
    a == b || (a.Some? && a.value.Err? && CapacityError(a.value.error))
  }

  /** For any program whatsoever and machines ordered in every limit, the larger returns what the
      smaller returns, unless the smaller one ran out of capacity. */
  lemma GuestFleetDeterminism<V>(small: u64, coresSmall: usize, large: u64, coresLarge: usize,
                                 contract: ContractModule, exportsMemory: bool, values: Values<V>,
                                 state: V, init: V, event: V, isOwner: bool, program: Program, steps: nat)
    requires FleetOrdered(small, coresSmall, large, coresLarge)
    ensures var ms, ml := GuestRuns.MachineOf(small, coresSmall), GuestRuns.MachineOf(large, coresLarge);
            && ms.caps.single <= 8 * MIB && ml.caps.single <= 8 * MIB
            && var a := GuestOutcome(ms, contract, exportsMemory, values, state, init, event, isOwner, program, steps);
               var b := GuestOutcome(ml, contract, exportsMemory, values, state, init, event, isOwner, program, steps);
               OutcomesAgree(a, b)
  {
    hide Build, FleetOrdered, EndOf, EncodeBytes, GuestRuns.RunFrom, GuestRuns.Agree, GuestRuns.CapacityTrap;
    BuildClosedForm(small, coresSmall);
    BuildClosedForm(large, coresLarge);
    FleetOrderedIff(small, coresSmall, large, coresLarge);
    var ms, ml := GuestRuns.MachineOf(small, coresSmall), GuestRuns.MachineOf(large, coresLarge);
    var s, i, e := values.toJson(state), values.toJson(init), values.toJson(event);
    if StagingError(ms.caps.single, s, i, e).None? {
      var world := StartWorld(StagedView(ms.caps, s.value, i.value, e.value).objs, contract, exportsMemory);
      var guest := MainGuest(program, s.value, i.value, isOwner);
      GuestRuns.FleetSimulation(guest, ms, ml, world, [], steps);
      AgreeingRunsEndAlike(GuestRuns.RunFrom(guest, ms, world, [], steps), GuestRuns.RunFrom(guest, ml, world, [], steps),
                           (o: Object) => ResultOf(values, DecodeResult(o)));
    }
  }

  /** What every run keeps holds when a contract that instantiates starts on its staged arguments. */
  lemma StagedWorldInv(ramMb: u64, cores: usize, s: seq<byte>, i: seq<byte>, e: seq<byte>, contract: ContractModule,
                       exportsMemory: bool)
    requires var m := GuestRuns.MachineOf(ramMb, cores);
             && 4 + |s| <= m.caps.single && 4 + |i| <= m.caps.single && 4 + |e| <= m.caps.single
             && Instantiates(m.store, contract)
    ensures |s| < U32_LIMIT && |i| < U32_LIMIT && |e| < U32_LIMIT
    ensures var m := GuestRuns.MachineOf(ramMb, cores);
            GuestRuns.WorldInv(m, StartWorld(StagedView(m.caps, s, i, e).objs, contract, exportsMemory))
  {
    hide Build, Flatten, AsMap, Memory;
    BuildClosedForm(ramMb, cores);
    StagedMemory(GuestRuns.MachineOf(ramMb, cores).caps, s, i, e);
  }

  /** The gate at work: on any machine a module that passes it instantiates, with a linear memory as
      large as it declares, exactly when it has no second memory or table and its table fits the
      machine; then it starts in a world that satisfies what every run keeps. */
  lemma GatedModuleStarts(wasm: seq<byte>, ss: seq<WasmModule.Section>, contract: ContractModule, ramMb: u64,
                          cores: usize, s: seq<byte>, i: seq<byte>, e: seq<byte>)
    requires WasmModule.IsModule(wasm, ss) && WasmModule.GatePasses(wasm)
    requires contract.memories == WasmModule.MemoryCount(ss)
    requires |contract.image| == WASM_PAGE_BYTES * WasmModule.MaxPages(ss)
    requires var single := Build(ramMb, cores).maxSingleAlloc;
             4 + |s| <= single && 4 + |i| <= single && 4 + |e| <= single
    ensures |s| < U32_LIMIT && |i| < U32_LIMIT && |e| < U32_LIMIT
    ensures var m := GuestRuns.MachineOf(ramMb, cores);
            && (Instantiates(m.store, contract) <==>
                  WasmModule.MemoryCount(ss) <= 1 && contract.tables <= 1 && contract.table <= TableElements(cores))
            && (Instantiates(m.store, contract) ==>
                  GuestRuns.WorldInv(m, StartWorld(StagedView(m.caps, s, i, e).objs, contract, true)))
  {
    hide Build, TableElements, WasmModule.MaxPages, WasmModule.GatePasses, WasmModule.IsModule, GuestRuns.WorldInv;
    BuildClosedForm(ramMb, cores);
    WasmModule.GateIsFleetWide(wasm, ss);
    assert Build(ramMb, cores).memorySize >= WASM_PAGE_BYTES * WasmModule.MaxPages(ss);
    if Instantiates(GuestRuns.MachineOf(ramMb, cores).store, contract) {
      StagedWorldInv(ramMb, cores, s, i, e, contract, true);
    }
  }

  /** On every machine, a program that returns the null pointer is refused, as long as it has not
      overwritten the object staged there itself. */
  lemma NullReturnIsRefused<V>(ramMb: u64, cores: usize, contract: ContractModule, exportsMemory: bool,
                               values: Values<V>, state: V, init: V, event: V, isOwner: bool, program: Program,
                               steps: nat, s: seq<byte>, i: seq<byte>, e: seq<byte>)
    requires values.toJson(state) == Some(s) && values.toJson(init) == Some(i) && values.toJson(event) == Some(e)
    requires var m := GuestRuns.MachineOf(ramMb, cores);
             && 4 + |s| <= m.caps.single <= 8 * MIB && 4 + |i| <= m.caps.single && 4 + |e| <= m.caps.single
             && EntryError(m.store, contract, false).None?
             && var run := GuestRuns.RunFrom(MainGuest(program, s, i, isOwner), m,
                                             StartWorld(StagedView(m.caps, s, i, e).objs, contract, exportsMemory),
                                             [], steps);
                run.status == GuestRuns.Returned(0) && GuestRuns.NeverWrites(run.events, 0, 0)
    ensures var m := GuestRuns.MachineOf(ramMb, cores);
            GuestOutcome(m, contract, exportsMemory, values, state, init, event, isOwner, program, steps)
            == Some(Err(SerializationError("execution result")))
  {
    hide Build, Flatten, AsMap, EncodeBytes, DecodeResult, GuestRuns.RunFrom, GuestRuns.WorldInv, GuestRuns.NeverWrites;
    var m := GuestRuns.MachineOf(ramMb, cores);
    StagedWorldInv(ramMb, cores, s, i, e, contract, exportsMemory);
    StagedMemory(m.caps, s, i, e);
    var w := StartWorld(StagedView(m.caps, s, i, e).objs, contract, exportsMemory);
    assert Memory(StagedView(m.caps, s, i, e)) == AsMap(w.objs);
    GuestRuns.UnwrittenObjectKept(MainGuest(program, s, i, isOwner), m, w, [], steps, 0);
    StagedIsNoResult(s);
  }

  // ---- Nodes agree exactly when their machines are ordered ----

  /** A guest that returns the first bytes of its memory as its result, like the canned guest of the
      end-to-end tests. */
  function CannedGuest(len: i32): GuestRuns.Guest
    requires 0 <= len
  {
    (events: seq<GuestRuns.Event>, linear: seq<byte>) =>
      if |events| == 0 then GuestRuns.Do(GuestRuns.Alloc(len))
      else if |events| == 1 then GuestRuns.Do(GuestRuns.WriteBytes(events[0].response, 0, len))
      else GuestRuns.Return(I32AsU32(events[0].response))
  }

  /** From any world with the bytes at the start of linear memory and room for them on the host, the
      canned guest returns a pointer under which the host finds exactly the bytes. */
  lemma CannedRun(m: GuestRuns.Machine, w: GuestRuns.World, bytes: seq<byte>)
    requires GuestRuns.WorldInv(m, w) && m.caps.total < I32_LIMIT && w.exportsMemory
    requires 0 < |bytes| <= m.caps.single && bytes <= w.linear && |Flatten(w.objs)| + |bytes| <= m.caps.total
    ensures var run := GuestRuns.RunFrom(CannedGuest(|bytes|), m, w, [], 3);
            && run.status == GuestRuns.Returned(|Flatten(w.objs)|)
            && |Flatten(w.objs)| in AsMap(run.world.objs) && AsMap(run.world.objs)[|Flatten(w.objs)|] == bytes
  {
    hide Flatten, AsMap, AllNonEmpty, AllAtMost, WriteObjects;
    var n, p := |bytes|, |Flatten(w.objs)|;
    var guest := CannedGuest(n);
    FillFresh(w.objs, bytes);
    var w1 := w.(objs := AllocObjects(w.objs, n));
    var e1 := GuestRuns.Event(GuestRuns.Alloc(n), p);
    assert GuestRuns.Step(m, w, GuestRuns.Alloc(n)) == GuestRuns.Next(w1, p);
    var w2 := w.(objs := w.objs + [bytes]);
    var e2 := GuestRuns.Event(GuestRuns.WriteBytes(p, 0, n), 0);
    assert w.linear[0..0 + n] == bytes;
    assert GuestRuns.WriteStep(m, w1, p, 0, n) == GuestRuns.Next(w2, 0);
    RunsThree(guest, m, w, w1, w2, e1, e2, p);
  }

  /** A run of two calls and a return. */
  lemma RunsThree(guest: GuestRuns.Guest, m: GuestRuns.Machine, w: GuestRuns.World, w1: GuestRuns.World,
                  w2: GuestRuns.World, e1: GuestRuns.Event, e2: GuestRuns.Event, p: u32)
    requires guest([], w.linear) == GuestRuns.Do(e1.call) && GuestRuns.Step(m, w, e1.call) == GuestRuns.Next(w1, e1.response)
    requires guest([e1], w1.linear) == GuestRuns.Do(e2.call) && GuestRuns.Step(m, w1, e2.call) == GuestRuns.Next(w2, e2.response)
    requires guest([e1, e2], w2.linear) == GuestRuns.Return(p)
    ensures GuestRuns.RunFrom(guest, m, w, [], 3) == GuestRuns.Run(GuestRuns.Returned(p), w2, [e1, e2])
  {
    hide GuestRuns.Step;
    assert [] + [e1] == [e1] && [e1] + [e2] == [e1, e2];
    assert GuestRuns.RunFrom(guest, m, w, [], 3) == GuestRuns.RunFrom(guest, m, w1, [e1], 2);
    assert GuestRuns.RunFrom(guest, m, w1, [e1], 2) == GuestRuns.RunFrom(guest, m, w2, [e1, e2], 1);
  }

  /** An accepted result with an empty state. */
  function CannedBytes(): (bytes: seq<byte>)
    ensures |bytes| == 9 && DecodeResult(bytes) == Some(ResultData([], true, []))
  {
    var bytes := SerializeResult(ResultData([], true, [])).value;
    DecodeResultIff(bytes, ResultData([], true, []));
    bytes
  }

  /** Values of which there is only one, printed as nothing. */
  function OneValue<V>(v: V): Values<V> { Values((_: V) => Some([]), (_: seq<byte>) => Some(v)) }

  function CannedProgram(): Program { (_, _, _, _) => CannedGuest(9) }

  /** On every machine that instantiates it, a contract with the canned result in its memory is
      executed with success. */
  lemma CannedOutcome<V>(ramMb: u64, cores: usize, contract: ContractModule, v: V)
    requires EntryError(GuestRuns.MachineOf(ramMb, cores).store, contract, false).None? && CannedBytes() <= contract.image
    ensures GuestRuns.MachineOf(ramMb, cores).caps.single <= 8 * MIB
    ensures GuestOutcome(GuestRuns.MachineOf(ramMb, cores), contract, true, OneValue(v), v, v, v, true, CannedProgram(), 3)
            == Some(Ok(ExecutionResult(v, true, [])))
  {
    hide Build, Flatten, AsMap, EncodeBytes, DecodeResult, CannedBytes, CannedGuest, GuestRuns.RunFrom, GuestRuns.WorldInv;
    BuildClosedForm(ramMb, cores);
    var m := GuestRuns.MachineOf(ramMb, cores);
    var w := StartWorld(StagedView(m.caps, [], [], []).objs, contract, true);
    StagedMemory(m.caps, [], [], []);
    StagedWorldInv(ramMb, cores, [], [], [], contract, true);
    CannedRun(m, w, CannedBytes());
  }

  /** Every contract and program, on all values and for any number of steps, has agreeing outcomes. */
  ghost predicate NodesAgree<V(!new)>(small: GuestRuns.Machine, large: GuestRuns.Machine)
    requires small.caps.single <= 8 * MIB && large.caps.single <= 8 * MIB
  {
    forall contract: ContractModule, exportsMemory: bool, values: Values<V>, state: V, init: V, event: V, isOwner: bool,
           program: Program, steps: nat ::
      OutcomesAgree(GuestOutcome(small, contract, exportsMemory, values, state, init, event, isOwner, program, steps),
                    GuestOutcome(large, contract, exportsMemory, values, state, init, event, isOwner, program, steps))
  }

  lemma OrderedNodesAgree<V(!new)>(small: u64, coresSmall: usize, large: u64, coresLarge: usize)
    requires FleetOrdered(small, coresSmall, large, coresLarge)
    ensures var ms, ml := GuestRuns.MachineOf(small, coresSmall), GuestRuns.MachineOf(large, coresLarge);
            ms.caps.single <= 8 * MIB && ml.caps.single <= 8 * MIB && NodesAgree<V>(ms, ml)
  {
    hide Build, FleetOrdered, GuestOutcome, OutcomesAgree;
    BuildClosedForm(small, coresSmall);
    BuildClosedForm(large, coresLarge);
    var ms, ml := GuestRuns.MachineOf(small, coresSmall), GuestRuns.MachineOf(large, coresLarge);
    forall contract: ContractModule, exportsMemory: bool, values: Values<V>, state: V, init: V, event: V,
           isOwner: bool, program: Program, steps: nat
      ensures OutcomesAgree(GuestOutcome(ms, contract, exportsMemory, values, state, init, event, isOwner, program, steps),
                            GuestOutcome(ml, contract, exportsMemory, values, state, init, event, isOwner, program, steps))
    {
      GuestFleetDeterminism(small, coresSmall, large, coresLarge, contract, exportsMemory, values, state, init, event,
                            isOwner, program, steps);
    }
  }

  /** A contract as large as a machine allows, in memory and table. */
  function Filling(m: GuestRuns.Machine): ContractModule
    requires m.store.memorySize >= 9
  {
    ContractModule(1, CannedBytes() + Zeros(m.store.memorySize - 9), 1, m.store.tableElements, true, true)
  }

  /** Between machines that are not ordered, the contract that fills the first succeeds there and does
      not even instantiate on the second. */
  lemma UnorderedNodesDiffer<V>(small: u64, coresSmall: usize, large: u64, coresLarge: usize, v: V)
    requires !FleetOrdered(small, coresSmall, large, coresLarge)
    ensures var ms, ml := GuestRuns.MachineOf(small, coresSmall), GuestRuns.MachineOf(large, coresLarge);
            && ms.caps.single <= 8 * MIB && ml.caps.single <= 8 * MIB && ms.store.memorySize >= 9
            && GuestOutcome(ms, Filling(ms), true, OneValue(v), v, v, v, true, CannedProgram(), 3)
               == Some(Ok(ExecutionResult(v, true, [])))
            && GuestOutcome(ml, Filling(ms), true, OneValue(v), v, v, v, true, CannedProgram(), 3)
               == Some(Err(InstantiationFailed(TooLarge)))
  {
    hide Build, FleetOrdered, GuestOutcome, CannedBytes, TableElements, Steps;
    BuildClosedForm(small, coresSmall);
    BuildClosedForm(large, coresLarge);
    StepsPositive(small);
    FleetOrderedIff(small, coresSmall, large, coresLarge);
    var ms := GuestRuns.MachineOf(small, coresSmall);
    CannedOutcome(small, coresSmall, Filling(ms), v);
    RefusedOutcome(large, coresLarge, Filling(ms), v);
  }

  lemma StepsPositive(ramMb: u64)
    ensures 1 <= Steps(ramMb) <= 8
  {
  }

  /** The fleet guarantee holds between two nodes exactly when RAM and cores are both ordered. */
  lemma NodesAgreeIff<V(!new)>(small: u64, coresSmall: usize, large: u64, coresLarge: usize, v: V)
    ensures var ms, ml := GuestRuns.MachineOf(small, coresSmall), GuestRuns.MachineOf(large, coresLarge);
            && ms.caps.single <= 8 * MIB && ml.caps.single <= 8 * MIB
            && (NodesAgree<V>(ms, ml) <==> FleetOrdered(small, coresSmall, large, coresLarge))
  {
    hide GuestRuns.MachineOf, FleetOrdered, GuestOutcome, Filling, OneValue, CannedProgram;
    if FleetOrdered(small, coresSmall, large, coresLarge) {
      OrderedNodesAgree<V>(small, coresSmall, large, coresLarge);
    } else {
      UnorderedNodesDiffer(small, coresSmall, large, coresLarge, v);
      var ms, ml := GuestRuns.MachineOf(small, coresSmall), GuestRuns.MachineOf(large, coresLarge);
      assert !OutcomesAgree(GuestOutcome(ms, Filling(ms), true, OneValue(v), v, v, v, true, CannedProgram(), 3),
                            GuestOutcome(ml, Filling(ms), true, OneValue(v), v, v, v, true, CannedProgram(), 3));
    }
  }

  lemma RefusedOutcome<V>(ramMb: u64, cores: usize, contract: ContractModule, v: V)
    requires var store := GuestRuns.MachineOf(ramMb, cores).store;
             CountsFit(store, contract) && !Instantiates(store, contract)
    ensures GuestRuns.MachineOf(ramMb, cores).caps.single <= 8 * MIB
    ensures GuestOutcome(GuestRuns.MachineOf(ramMb, cores), contract, true, OneValue(v), v, v, v, true, CannedProgram(), 3)
            == Some(Err(InstantiationFailed(TooLarge)))
  {
    hide Build, GuestRuns.RunFrom;
    BuildClosedForm(ramMb, cores);
  }

  /** More RAM with fewer cores: a contract of one page with a table of 1000 elements succeeds on a node with 512 MB
      and 8 cores and is refused by one with a terabyte and 2 cores. */
  lemma MoreRamCanAnswerLess<V>(v: V)
    ensures var contract := ContractModule(1, CannedBytes() + Zeros(WASM_PAGE_BYTES - 9), 1, 1000, true, true);
            var ms, ml := GuestRuns.MachineOf(512, 8), GuestRuns.MachineOf(1_000_000, 2);
            && ms.caps.single <= 8 * MIB && ml.caps.single <= 8 * MIB
            && GuestOutcome(ms, contract, true, OneValue(v), v, v, v, true, CannedProgram(), 3)
               == Some(Ok(ExecutionResult(v, true, [])))
            && GuestOutcome(ml, contract, true, OneValue(v), v, v, v, true, CannedProgram(), 3)
               == Some(Err(InstantiationFailed(TooLarge)))
  {
    hide Build, GuestOutcome, CannedBytes, TableElements;
    BuildClosedForm(512, 8);
    BuildClosedForm(1_000_000, 2);
    TwoTableLimits();
    var contract := ContractModule(1, CannedBytes() + Zeros(WASM_PAGE_BYTES - 9), 1, 1000, true, true);
    CannedOutcome(512, 8, contract, v);
    RefusedOutcome(1_000_000, 2, contract, v);
  }

  lemma TwoTableLimits()
    ensures TableElements(8) == 2_048 && TableElements(2) == 512
  {
  }

  // ---- Arbitrary init checks ----

  /** A contract's `init_check_function`. */
  type InitProgram = u32 -> GuestRuns.Guest

  /** What a machine says when any program at all checks the proposed state. */
  function GuestInitOutcome<V>(m: GuestRuns.Machine, contract: ContractModule, exportsMemory: bool,
                               values: Values<V>, state: V, program: InitProgram, steps: nat)
    : Option<Result<(), RuntimeError>>
  {
    var json := values.toJson(state);
    match StageError(m.caps.single, json)
    case Some(error) => Some(Err(error))
    case None =>
      match EntryError(m.store, contract, true)
      case Some(error) => Some(Err(error))
      case None =>
        var world := StartWorld(StagedInit(m.caps, json.value).objs, contract, exportsMemory);
        EndOf(GuestRuns.RunFrom(program(0), m, world, [], steps), o => InitResultOf(DecodeInit(o)))
  }

  /** The init-check half of `validate_inner` around any guest, on the flat memory manager. */
  method CheckGuestInit<V>(ramMb: u64, cores: usize, contract: ContractModule, exportsMemory: bool,
                           values: Values<V>, state: V, program: InitProgram, steps: nat)
    returns (r: Option<Result<(), RuntimeError>>)
    ensures r == GuestInitOutcome(GuestRuns.MachineOf(ramMb, cores), contract, exportsMemory, values, state, program, steps)
  {
    hide Build, Flatten, AsMap, EncodeBytes, DecodeInit, InitResultOf, EntryError, GuestRuns.RunFrom, HeapInv;
    var host, staged := GenerateContext(ramMb, cores, values, state);
    if staged.Err? {
      return Some(Err(staged.error));
    }
    var instance := Instantiate(host, contract, true);
    if instance.Err? {
      return Some(Err(instance.error));
    }
    var guest := program(staged.value);
    var status, _, _, _ := GuestRuns.RunOnHost(host, guest, contract.image, contract.table, exportsMemory, steps);
    match status {
      case Running => return None;
      case Trapped(trap) => return Some(Err(ContractExecutionFailed(Halted(Trap(trap)))));
      case Returned(p) =>
        var result := CheckInitResult(host, p);
        return Some(result);
    }
  }

  /** Fleet determinism of arbitrary init checks. */
  lemma GuestInitFleetDeterminism<V>(small: u64, coresSmall: usize, large: u64, coresLarge: usize,
                                     contract: ContractModule, exportsMemory: bool, values: Values<V>, state: V,
                                     program: InitProgram, steps: nat)
    requires FleetOrdered(small, coresSmall, large, coresLarge)
    ensures var a := GuestInitOutcome(GuestRuns.MachineOf(small, coresSmall), contract, exportsMemory, values, state,
                                      program, steps);
            var b := GuestInitOutcome(GuestRuns.MachineOf(large, coresLarge), contract, exportsMemory, values, state,
                                      program, steps);
            a == b || (a.Some? && a.value.Err? && CapacityError(a.value.error))
  {
    hide Build, FleetOrdered, EndOf, EncodeBytes, GuestRuns.RunFrom, GuestRuns.Agree, GuestRuns.CapacityTrap;
    FleetOrderedIff(small, coresSmall, large, coresLarge);
    var ms, ml := GuestRuns.MachineOf(small, coresSmall), GuestRuns.MachineOf(large, coresLarge);
    var json := values.toJson(state);
    if StageError(ms.caps.single, json).None? {
      var world := StartWorld(StagedInit(ms.caps, json.value).objs, contract, exportsMemory);
      GuestRuns.FleetSimulation(program(0), ms, ml, world, [], steps);
      AgreeingRunsEndAlike(GuestRuns.RunFrom(program(0), ms, world, [], steps),
                           GuestRuns.RunFrom(program(0), ml, world, [], steps),
                           (o: Object) => InitResultOf(DecodeInit(o)));
    }
  }

  lemma StagedInitWorldInv(ramMb: u64, cores: usize, json: seq<byte>, contract: ContractModule, exportsMemory: bool)
    requires var m := GuestRuns.MachineOf(ramMb, cores);
             4 + |json| <= m.caps.single && Instantiates(m.store, contract)
    ensures 4 + |json| <= 8 * MIB
    ensures var m := GuestRuns.MachineOf(ramMb, cores);
            GuestRuns.WorldInv(m, StartWorld(StagedInit(m.caps, json).objs, contract, exportsMemory))
  {
    hide Build, Flatten, AsMap, Memory;
    BuildClosedForm(ramMb, cores);
    StagedInitMemory(GuestRuns.MachineOf(ramMb, cores).caps, json);
  }

  /** On every machine, an init check that returns the null pointer without having written there is
      refused, unless the proposed state is the single byte 0. */
  lemma NullInitReturnIsRefusedIff<V>(ramMb: u64, cores: usize, contract: ContractModule, exportsMemory: bool,
                                      values: Values<V>, state: V, program: InitProgram, steps: nat, json: seq<byte>)
    requires values.toJson(state) == Some(json)
    requires var m := GuestRuns.MachineOf(ramMb, cores);
             && 4 + |json| <= m.caps.single && |json| < U32_LIMIT && EntryError(m.store, contract, true).None?
             && var run := GuestRuns.RunFrom(program(0), m,
                                             StartWorld(StagedInit(m.caps, json).objs, contract, exportsMemory), [], steps);
                run.status == GuestRuns.Returned(0) && GuestRuns.NeverWrites(run.events, 0, 0)
    ensures GuestInitOutcome(GuestRuns.MachineOf(ramMb, cores), contract, exportsMemory, values, state, program, steps)
            == Some(if json == [0] then Ok(()) else Err(SerializationError("init check result")))
  {
    hide Build, Flatten, AsMap, EncodeBytes, DecodeInit, GuestRuns.RunFrom, GuestRuns.WorldInv, GuestRuns.NeverWrites;
    var m := GuestRuns.MachineOf(ramMb, cores);
    StagedInitWorldInv(ramMb, cores, json, contract, exportsMemory);
    StagedInitMemory(m.caps, json);
    var w := StartWorld(StagedInit(m.caps, json).objs, contract, exportsMemory);
    assert Memory(StagedInit(m.caps, json)) == AsMap(w.objs);
    GuestRuns.UnwrittenObjectKept(program(0), m, w, [], steps, 0);
    StagedIsInitIff(json);
  }

  // ---- The test double agrees with the real host ----

  /** The bytes at the pointer a contract returned, if it returned one. */
  function ResultBytes(exit: Exit, memory: map<int, Object>): Option<seq<byte>> {
    if exit.Exit? && exit.pointer != 0 && exit.pointer in memory then Some(memory[exit.pointer]) else None
  }

  /** What arrives of an answer on a node where `used` bytes are taken. */
  function Arrives(caps: Caps, used: nat, answer: Option<seq<byte>>): Option<seq<byte>> {
    if answer.Some? && AllocVerdict(caps, used, |answer.value|).Ok? then answer else None
  }

  /** Delivery into a real host with `used` bytes taken. */
  lemma RealResultBytes(v: View, used: nat, answer: Option<seq<byte>>, exit: Exit, after: map<int, Object>)
    requires v.RealView? && |Flatten(v.objs)| == used && Delivered(answer, v, exit, after)
    ensures ResultBytes(exit, after) == Arrives(v.caps, used, answer)
    ensures exit.Exit? && exit.pointer != 0 ==> exit.pointer in after
  {
    hide Memory, Flatten;
  }

  lemma ResultArrives(caps: Caps, s: seq<byte>, i: seq<byte>, e: seq<byte>, answer: Option<seq<byte>>, exit: Exit,
                      after: map<int, Object>)
    requires |s| < U32_LIMIT && |i| < U32_LIMIT && |e| < U32_LIMIT && Delivered(answer, StagedView(caps, s, i, e), exit, after)
    ensures ResultBytes(exit, after) == Arrives(caps, 12 + |s| + |i| + |e|, answer)
  {
    hide Delivered, Flatten, EncodeBytes, Memory, ResultBytes, Arrives;
    StagedMemory(caps, s, i, e);
    RealResultBytes(StagedView(caps, s, i, e), 12 + |s| + |i| + |e|, answer, exit, after);
  }

  lemma InitResultArrives(caps: Caps, json: seq<byte>, answer: Option<seq<byte>>, exit: Exit, after: map<int, Object>)
    requires |json| < U32_LIMIT && Delivered(answer, StagedInit(caps, json), exit, after)
    ensures ResultBytes(exit, after) == Arrives(caps, 4 + |json|, answer)
  {
    hide Delivered, Flatten, EncodeBytes, Memory, ResultBytes, Arrives;
    StagedInitMemory(caps, json);
    RealResultBytes(StagedInit(caps, json), 4 + |json|, answer, exit, after);
  }

  /** Delivery into the double. */
  lemma TestResultBytes(before: View, answer: Option<seq<byte>>, exit: Exit, after: map<int, Object>)
    requires before.TestView? && !before.forceAllocZero && before.nextId < I32_MAX
    requires Delivered(answer, before, exit, after)
    ensures ResultBytes(exit, after) == answer
    ensures exit.Exit? && exit.pointer < I32_LIMIT
  {
    hide Memory;
  }

  lemma TestMemory(mock: MockHost)
    ensures Memory(ViewOf(Test(mock))) == mock.memory
  {
  }

  /** Why an execution does not get to run on a machine, if it does not. */
  function NotRun(m: GuestRuns.Machine, contract: ContractModule, s: Option<seq<byte>>, i: Option<seq<byte>>,
                  e: Option<seq<byte>>): (error: Option<RuntimeError>)
    ensures error.None? ==>
              Stageable(m.caps.single, s) && Stageable(m.caps.single, i) && Stageable(m.caps.single, e)
  {
    var staging := StagingError(m.caps.single, s, i, e);
    if staging.Some? then staging else EntryError(m.store, contract, false)
  }

  /** A contract on a node: the bytes it returned, or Err if it did not get to run. */
  method RunOnNode<V, S, E>(ramMb: u64, cores: usize, contract: ContractModule, values: Values<V>, codec: Codec<S, E>,
                            state: V, init: V, event: V, isOwner: bool, callback: Callback<S, E>)
    returns (r: Result<Option<seq<byte>>, RuntimeError>)
    ensures var s, i, e := values.toJson(state), values.toJson(init), values.toJson(event);
            var m := GuestRuns.MachineOf(ramMb, cores);
            match NotRun(m, contract, s, i, e)
            case Some(error) => r == Err(error)
            case None => r == Ok(Arrives(m.caps, 12 + |s.value| + |i.value| + |e.value|,
                                         AnswerBytes(codec, s.value, i.value, e.value, isOwner, callback)))
  {
    hide Build, Flatten, AsMap, EncodeBytes, AnswerBytes, StageError, Arrives, EntryError, Delivered, ResultBytes,
         StagedView, Loads;
    var host, staged := GenerateExecutionContext(ramMb, cores, values, state, init, event);
    if staged.Err? {
      return Err(staged.error);
    }
    var instance := Instantiate(host, contract, false);
    if instance.Err? {
      return Err(instance.error);
    }
    var (sp, ip, ep) := staged.value;
    ghost var s, i, e := values.toJson(state).value, values.toJson(init).value, values.toJson(event).value;
    var exit := CallMain(host, codec, sp, ip, ep, isOwner, callback, ramMb, cores, s, i, e);
    ResultArrives(host.caps, s, i, e, AnswerBytes(codec, s, i, e, isOwner, callback), exit, host.Heap());
    r := FetchBytes(host, exit);
  }

  /** The bytes at the pointer a contract returned to a node. */
  method FetchBytes(host: MemoryManager, exit: Exit) returns (r: Result<Option<seq<byte>>, RuntimeError>)
    requires host.Valid()
    ensures r == Ok(ResultBytes(exit, host.Heap()))
  {
    hide AsMap;
    if exit.ExitHalt? || exit.pointer == 0 {
      return Ok(None);
    }
    var data := host.ReadData(exit.pointer);
    return Ok(if data.Ok? then Some(data.value) else None);
  }

  /** What an object of the double looks like to the SDK. */
  function SeenOnTest(o: Object): Reading<seq<byte>, SdkError> {
    Seen(TestView(map[1000 := o], 1001, false), 1000)
  }

  /** What a contract computes from any three JSON texts on the double; texts beyond the SDK's limit
      are errors there, which a node never stages. */
  function TestMeaning<S, E>(codec: Codec<S, E>, s: seq<byte>, i: seq<byte>, e: seq<byte>, isOwner: bool,
                             callback: Callback<S, E>): Result<Option<seq<byte>>, Halt>
    requires |s| < U32_LIMIT && |i| < U32_LIMIT && |e| < U32_LIMIT
  {
    match Interpret(codec, SeenOnTest(EncodeBytes(s)), SeenOnTest(EncodeBytes(i)), SeenOnTest(EncodeBytes(e)),
                    isOwner, callback)
    case Err(halt) => Err(halt)
    case Ok(result) =>
      var answer := ExecutionAnswer(codec, result);
      Ok(if answer.Some? then SerializeResult(answer.value) else None)
  }

  /** Within the limit the double computes what a node computes. */
  lemma TestMeaningIsMeaning<S, E>(codec: Codec<S, E>, s: seq<byte>, i: seq<byte>, e: seq<byte>, isOwner: bool,
                                   callback: Callback<S, E>)
    requires 4 + |s| <= MAX_DATA_SIZE && 4 + |i| <= MAX_DATA_SIZE && 4 + |e| <= MAX_DATA_SIZE
    ensures TestMeaning(codec, s, i, e, isOwner, callback) == Ok(AnswerBytes(codec, s, i, e, isOwner, callback))
  {
    hide Seen, EncodeBytes, Interpret, Meaning, SerializeResult, ExecutionAnswer, DecodeData;
    StagedIsSeen(TestView(map[1000 := EncodeBytes(s)], 1001, false), 1000, s);
    StagedIsSeen(TestView(map[1000 := EncodeBytes(i)], 1001, false), 1000, i);
    StagedIsSeen(TestView(map[1000 := EncodeBytes(e)], 1001, false), 1000, e);
    InterpretStaged(codec, s, i, e, isOwner, callback);
  }

  /** What is seen of an object depends on the object alone. */
  lemma SeenOnTestOf(v: View, p: i32)
    requires v.TestView? && p in v.memory
    ensures Seen(v, p) == SeenOnTest(v.memory[p])
  {
    hide Text;
  }

  /** What a contract leaves behind on the double when run on objects that hold the three texts. */
  lemma TestExecution<S, E>(v: View, sq: i32, iq: i32, eq: i32, codec: Codec<S, E>, s: seq<byte>, i: seq<byte>,
                            e: seq<byte>, isOwner: bool, callback: Callback<S, E>)
    requires |s| < U32_LIMIT && |i| < U32_LIMIT && |e| < U32_LIMIT
    requires v.TestView? && !v.forceAllocZero && 1000 <= v.nextId < I32_MAX && {sq, iq, eq} <= v.memory.Keys
    requires v.memory[sq] == EncodeBytes(s) && v.memory[iq] == EncodeBytes(i) && v.memory[eq] == EncodeBytes(e)
    ensures var (exit, after) := Execution(codec, v, sq, iq, eq, isOwner, callback);
            match TestMeaning(codec, s, i, e, isOwner, callback)
            case Err(halt) => exit == ExitHalt(halt)
            case Ok(bytes) => exit.Exit? && exit.pointer < I32_LIMIT && ResultBytes(exit, Memory(after)) == bytes
  {
    hide Memory, Seen, SeenOnTest, EncodeBytes, SerializeResult, Interpret, Delivered, Delivery, ExecutionAnswer,
         ResultBytes;
    SeenOnTestOf(v, sq);
    SeenOnTestOf(v, iq);
    SeenOnTestOf(v, eq);
    var read := Interpret(codec, Seen(v, sq), Seen(v, iq), Seen(v, eq), isOwner, callback);
    if read.Ok? {
      DeliveryOnTest(v, codec, read.value);
    }
  }

  lemma DeliveryOnTest<S, E>(v: View, codec: Codec<S, E>, result: Result<ResultData, Str>)
    requires v.TestView? && !v.forceAllocZero && 1000 <= v.nextId < I32_MAX
    ensures var (exit, after) := Delivery(v, result, m => ErrorResult(codec, m), ERR_RETURN_RESULT, SerializeResult);
            var answer := ExecutionAnswer(codec, result);
            && exit.Exit? && exit.pointer < I32_LIMIT
            && ResultBytes(exit, Memory(after)) == if answer.Some? then SerializeResult(answer.value) else None
  {
    hide Memory, SerializeResult, Delivered, Delivery, ResultBytes;
    EncodingsNotEmpty();
    DeliveryIsAnswer(v, result, m => ErrorResult(codec, m), ERR_RETURN_RESULT, SerializeResult);
    var (exit, after) := Delivery(v, result, m => ErrorResult(codec, m), ERR_RETURN_RESULT, SerializeResult);
    var answer := ExecutionAnswer(codec, result);
    TestResultBytes(v, if answer.Some? then SerializeResult(answer.value) else None, exit, Memory(after));
  }

  /** The same contract on the test double, set up as the unit tests do. */
  method RunOnTest<S, E>(codec: Codec<S, E>, s: seq<byte>, i: seq<byte>, e: seq<byte>, isOwner: bool,
                         callback: Callback<S, E>) returns (r: Result<Option<seq<byte>>, Halt>)
    requires |s| < U32_LIMIT && |i| < U32_LIMIT && |e| < U32_LIMIT
    ensures r == TestMeaning(codec, s, i, e, isOwner, callback)
  {
    hide Memory, EncodeBytes, Execution, TestMeaning;
    var mock := new MockHost();
    var sq := mock.StoreData(EncodeBytes(s));
    var iq := mock.StoreData(EncodeBytes(i));
    var eq := mock.StoreData(EncodeBytes(e));
    TestExecution(ViewOf(Test(mock)), sq.value, iq.value, eq.value, codec, s, i, e, isOwner, callback);
    var exit := ExecuteContract(Test(mock), codec, sq.value, iq.value, eq.value, if isOwner then 1 else 0, callback);
    TestMemory(mock);
    if exit.ExitHalt? {
      return Err(exit.halt);
    }
    if exit.pointer == 0 {
      return Ok(None);
    }
    var data := mock.GetData(U32AsI32(exit.pointer));
    return Ok(data);
  }

  /** The same contract on the same three arguments, once on a node and once on the double. Whenever a
      node gets to run it, the double gives the bytes of the contract's meaning, and the node gives the
      same bytes exactly when it has room for them. */
  method RunOnBothHosts<V, S, E>(ramMb: u64, cores: usize, contract: ContractModule, values: Values<V>,
                                 codec: Codec<S, E>, state: V, init: V, event: V, isOwner: bool,
                                 callback: Callback<S, E>)
    returns (onNode: Result<Option<seq<byte>>, RuntimeError>, onTest: Result<Option<seq<byte>>, Halt>)
    ensures var s, i, e := values.toJson(state), values.toJson(init), values.toJson(event);
            var m := GuestRuns.MachineOf(ramMb, cores);
            match NotRun(m, contract, s, i, e)
            case Some(error) => onNode == Err(error)
            case None =>
              && onTest == Ok(AnswerBytes(codec, s.value, i.value, e.value, isOwner, callback))
              && onNode == Ok(Arrives(m.caps, 12 + |s.value| + |i.value| + |e.value|, onTest.value))
  {
    hide Build, AnswerBytes, Arrives, NotRun, TestMeaning;
    BuildClosedForm(ramMb, cores);
    onNode := RunOnNode(ramMb, cores, contract, values, codec, state, init, event, isOwner, callback);
    onTest := Ok(None);
    if onNode.Ok? {
      var s, i, e := values.toJson(state), values.toJson(init), values.toJson(event);
      TestMeaningIsMeaning(codec, s.value, i.value, e.value, isOwner, callback);
      onTest := RunOnTest(codec, s.value, i.value, e.value, isOwner, callback);
    }
  }

  /** Why an init check does not get to run on a machine, if it does not. */
  function InitNotRun(m: GuestRuns.Machine, contract: ContractModule, json: Option<seq<byte>>)
    : (error: Option<RuntimeError>)
    ensures error.None? ==> json.Some? && |json.value| < U32_LIMIT && 4 + |json.value| <= m.caps.single
  {
    var staging := StageError(m.caps.single, json);
    if staging.Some? then staging else EntryError(m.store, contract, true)
  }

  /** An init check on a node: the bytes it returned, or Err if it did not get to run. */
  method RunInitOnNode<V, S, E>(ramMb: u64, cores: usize, contract: ContractModule, values: Values<V>,
                                codec: Codec<S, E>, state: V, callback: InitCallback<S>)
    returns (r: Result<Option<seq<byte>>, RuntimeError>)
    ensures var json := values.toJson(state);
            var m := GuestRuns.MachineOf(ramMb, cores);
            match InitNotRun(m, contract, json)
            case Some(error) => r == Err(error)
            case None => r == Ok(Arrives(m.caps, 4 + |json.value|, InitAnswerBytes(codec, json.value, callback)))
  {
    hide Build, Flatten, AsMap, EncodeBytes, InitAnswerBytes, Delivered, Arrives, EntryError, StagedInit, ResultBytes,
         Loads;
    var host, staged := GenerateContext(ramMb, cores, values, state);
    if staged.Err? {
      return Err(staged.error);
    }
    var instance := Instantiate(host, contract, true);
    if instance.Err? {
      return Err(instance.error);
    }
    ghost var json := values.toJson(state).value;
    var exit := CallInit(host, codec, staged.value, callback, ramMb, cores, json);
    InitResultArrives(host.caps, json, InitAnswerBytes(codec, json, callback), exit, host.Heap());
    r := FetchBytes(host, exit);
  }

  /** The init check, once on a node and once on the double. */
  method RunInitOnBothHosts<V, S, E>(ramMb: u64, cores: usize, contract: ContractModule, values: Values<V>,
                                     codec: Codec<S, E>, state: V, callback: InitCallback<S>)
    returns (onNode: Result<Option<seq<byte>>, RuntimeError>, onTest: Option<seq<byte>>)
    ensures var json := values.toJson(state);
            var m := GuestRuns.MachineOf(ramMb, cores);
            match InitNotRun(m, contract, json)
            case Some(error) => onNode == Err(error)
            case None =>
              && onTest == InitAnswerBytes(codec, json.value, callback)
              && onNode == Ok(Arrives(m.caps, 4 + |json.value|, onTest))
  {
    hide Build, Memory, EncodeBytes, InitAnswerBytes, InitExecution, Delivered, Arrives, InitNotRun;
    BuildClosedForm(ramMb, cores);
    onNode := RunInitOnNode(ramMb, cores, contract, values, codec, state, callback);
    onTest := None;
    if onNode.Ok? {
      var json := values.toJson(state).value;
      var mock := new MockHost();
      var p := mock.StoreData(EncodeBytes(json));
      TestMemory(mock);
      ghost var v := ViewOf(Test(mock));
      StagedInitExecution(v, p.value, json, codec, callback);
      var exit := CheckInitData(Test(mock), codec, p.value, callback);
      TestResultBytes(v, InitAnswerBytes(codec, json, callback), exit, Memory(ViewOf(Test(mock))));
      TestMemory(mock);
      if exit.Exit? && exit.pointer != 0 {
        onTest := mock.GetData(U32AsI32(exit.pointer));
      }
    }
  }

  /** An object the double lies about can only make the contract panic. */
  lemma SeenHaltsOnlyOnHuge(v: View, p: i32)
    requires v.TestView? && Seen(v, p).Err?
    ensures Seen(v, p).error == TestPanic && p in v.memory && |v.memory[p]| > I32_MAX
  {
    hide Text;
  }

  lemma InterpretHaltsAsRead<S, E>(codec: Codec<S, E>, state: Reading<seq<byte>, SdkError>,
                                   init: Reading<seq<byte>, SdkError>, event: Reading<seq<byte>, SdkError>,
                                   isOwner: bool, callback: Callback<S, E>)
    requires Interpret(codec, state, init, event, isOwner, callback).Err?
    ensures var halt := Interpret(codec, state, init, event, isOwner, callback).error;
            state == Err(halt) || init == Err(halt) || event == Err(halt)
  {
    hide Text, Concat, Display, DecodeData, Applied;
  }

  lemma ForcedDelivery<T>(v: View, result: Result<T, Str>, onError: Str -> T, lost: string,
                          serialize: T -> Option<seq<byte>>)
    requires v.TestView? && v.forceAllocZero
    ensures Delivery(v, result, onError, lost, serialize) == (Exit(0), v)
  {
    hide Text;
  }

  /** On the test double with allocation switched off, every contract ends in the double fault that
      the ABI reserves the null pointer for, and nothing is stored; only an object whose length the
      double cannot tell can make it panic instead. */
  method DoubleFault<S, E>(mock: MockHost, codec: Codec<S, E>, state: i32, init: i32, event: i32, isOwner: i32,
                           callback: Callback<S, E>) returns (exit: Exit)
    requires mock.Valid() && mock.forceAllocZero
    modifies mock
    ensures mock.memory == old(mock.memory)
    ensures exit == Exit(0) || exit == ExitHalt(TestPanic)
    ensures (forall p :: p in old(mock.memory) ==> |old(mock.memory)[p]| <= I32_MAX) ==> exit == Exit(0)
  {
    hide Seen, Interpret, Delivery, SerializeResult;
    ghost var v := ViewOf(Test(mock));
    ghost var read := Interpret(codec, Seen(v, state), Seen(v, init), Seen(v, event), isOwner == OWNER_FLAG, callback);
    if read.Ok? {
      ForcedDelivery(v, read.value, m => ErrorResult(codec, m), ERR_RETURN_RESULT, SerializeResult);
    } else {
      InterpretHaltsAsRead(codec, Seen(v, state), Seen(v, init), Seen(v, event), isOwner == OWNER_FLAG, callback);
      forall p: i32 | Seen(v, p).Err? ensures Seen(v, p).error == TestPanic && p in v.memory && |v.memory[p]| > I32_MAX {
        SeenHaltsOnlyOnHuge(v, p);
      }
    }
    exit := ExecuteContract(Test(mock), codec, state, init, event, isOwner, callback);
  }
}
