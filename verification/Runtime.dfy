/** Staging, execution and result decoding (`src/runtime/contract_runtime.rs`), and the end-to-end
    meaning of running an SDK contract on a node. */
module Runtime {
  import opened Bytes
  import opened Limits
  import opened Utf8
  import opened Borsh
  import opened ObjectHeap
  import opened Host
  import opened Sdk
  import Imports
  import GuestRuns

  datatype Cause = Halted(halt: Halt) | Message(text: Str)

  /** More memories or tables than any node allows, or larger ones than this node allows. */
  datatype InstantiationCause = TooMany | TooLarge

  datatype RuntimeError =
    | InvalidModule(reason: Imports.ImportError)
    | SerializationError(context: string)
    | MemoryAllocationFailed(error: ContractError)
    | InstantiationFailed(limit: InstantiationCause)
    | EntryPointNotFound(name: string)
    | ContractExecutionFailed(cause: Cause)

  datatype ExecutionResult<V> = ExecutionResult(finalState: V, success: bool, error: Str)

  /** JSON printing and parsing of the node's values. */
  datatype Values<!V> = Values(toJson: V -> Option<seq<byte>>, fromJson: seq<byte> -> Option<V>)

  // ---- Instantiation ----

  /** What instantiation looks at: how many memories and tables a compiled contract defines, the
      initial contents of the memory and size of the table, and the two entry points. */
  datatype ContractModule = ContractModule(
    memories: nat, image: seq<byte>, tables: nat, table: nat, hasMain: bool, hasInit: bool)

  predicate CountsFit(store: StoreLimits, contract: ContractModule) {
    contract.memories <= store.memories && contract.tables <= store.tables
  }

  predicate Instantiates(store: StoreLimits, contract: ContractModule) {
    && CountsFit(store, contract)
    && |contract.image| <= store.memorySize && contract.table <= store.tableElements
  }

  /** `execute_inner` looks up one entry point, `validate_inner` both. */
  function EntryError(store: StoreLimits, contract: ContractModule, needsInit: bool): Option<RuntimeError> {
    if !Instantiates(store, contract) then
      Some(InstantiationFailed(if CountsFit(store, contract) then TooLarge else TooMany))
    else if !contract.hasMain then Some(EntryPointNotFound("main_function"))
    else if needsInit && !contract.hasInit then Some(EntryPointNotFound("init_check_function"))
    else None
  }

  /** At most one memory and one table, no larger than allowed. */
  predicate Loads(memorySize: nat, tableElements: nat, contract: ContractModule) {
    contract.memories <= 1 && contract.tables <= 1 && |contract.image| <= memorySize && contract.table <= tableElements
  }

  /** Instantiation under the store limits of a manager, and the lookup of the entry points: the limits
      come first, then `main_function`, then, only where it is needed, `init_check_function`. */
  method Instantiate(host: MemoryManager, contract: ContractModule, needsInit: bool)
    returns (r: Result<(), RuntimeError>)
    ensures r == match EntryError(host.storeLimits, contract, needsInit)
                 case Some(e) => Err(e)
                 case None => Ok(())
    ensures host.storeLimits.memories == host.storeLimits.tables == 1 ==>
              var loads := Loads(host.storeLimits.memorySize, host.storeLimits.tableElements, contract);
              && (r.Ok? <==> loads && contract.hasMain && (needsInit ==> contract.hasInit))
              && (r == Err(EntryPointNotFound("main_function")) <==> loads && !contract.hasMain)
              && (r == Err(EntryPointNotFound("init_check_function")) <==>
                  loads && contract.hasMain && needsInit && !contract.hasInit)
              && (r == Err(InstantiationFailed(TooMany)) <==> contract.memories > 1 || contract.tables > 1)
              && (r == Err(InstantiationFailed(TooLarge)) <==> contract.memories <= 1 && contract.tables <= 1 && !loads)
  {
    if contract.memories > host.storeLimits.memories || contract.tables > host.storeLimits.tables {
      return Err(InstantiationFailed(TooMany));
    }
    if |contract.image| > host.storeLimits.memorySize || contract.table > host.storeLimits.tableElements {
      return Err(InstantiationFailed(TooLarge));
    }
    if !contract.hasMain {
      return Err(EntryPointNotFound("main_function"));
    }
    if needsInit && !contract.hasInit {
      return Err(EntryPointNotFound("init_check_function"));
    }
    return Ok(());
  }

  // ---- Staging ----

  /** `write_contract_data`: the length prefix and the payload, written separately, are the Borsh
      encoding written at once. */
  method WriteContractData(host: MemoryManager, payload: seq<byte>) returns (r: Result<u32, RuntimeError>)
    requires host.Valid()
    modifies host
    ensures host.Valid()
    ensures r.Err? ==> host.objs == old(host.objs)
    ensures if |payload| >= U32_LIMIT then r == Err(SerializationError("contract data borsh"))
            else match AllocVerdict(host.caps, |old(host.memory)|, 4 + |payload|)
                 case Err(e) => r == Err(MemoryAllocationFailed(e))
                 case Ok(p) => r == Ok(UsizeAsU32(p)) && host.objs == old(host.objs) + [EncodeBytes(payload)]
  {
    hide Flatten, AsMap, IndexOf, WriteObjects, Le32, HeapInv;
    if |payload| >= U32_LIMIT {
      return Err(SerializationError("contract data borsh"));
    }
    ghost var objs := host.objs;
    ObjectsNotEmpty(host);
    var granted := host.Alloc(4 + |payload|);
    if granted.Err? {
      return Err(MemoryAllocationFailed(granted.error));
    }
    var p := granted.value;
    var prefix := Le32(|payload|);
    ghost var fresh' := Zeros(4 + |payload|);
    WriteLast(objs, fresh', 0, prefix);
    var first := host.WriteBytesAt(p, 0, prefix);
    match first {
      case Err(e) => return Err(MemoryAllocationFailed(e));
      case Ok(_) =>
    }
    WriteLast(objs, Splice(fresh', 0, prefix), 4, payload);
    var second := host.WriteBytesAt(p, 4, payload);
    match second {
      case Err(e) => return Err(MemoryAllocationFailed(e));
      case Ok(_) =>
    }
    assert Splice(Splice(fresh', 0, prefix), 4, payload) == prefix + payload;
    return Ok(UsizeAsU32(p));
  }

  lemma ObjectsNotEmpty(host: MemoryManager)
    requires host.Valid()
    ensures AllNonEmpty(host.objs)
  {
  }

  /** Why one value cannot be staged on a machine, if it cannot: the total cap plays no part. */
  function StageError(single: nat, printed: Option<seq<byte>>): Option<RuntimeError> {
    match printed
    case None => Some(SerializationError("value to contract data"))
    case Some(payload) =>
      if |payload| >= U32_LIMIT then Some(SerializationError("contract data borsh"))
      else if 4 + |payload| > single then Some(MemoryAllocationFailed(AllocationTooLarge(4 + |payload|, single)))
      else None
  }

  predicate Stageable(single: nat, printed: Option<seq<byte>>) {
    printed.Some? && |printed.value| < U32_LIMIT && 4 + |printed.value| <= single
  }

  /** The first value that cannot be staged decides. */
  function StagingError(single: nat, state: Option<seq<byte>>, init: Option<seq<byte>>, event: Option<seq<byte>>)
    : (error: Option<RuntimeError>)
    ensures error.None? <==> Stageable(single, state) && Stageable(single, init) && Stageable(single, event)
  {
    if StageError(single, state).Some? then StageError(single, state)
    else if StageError(single, init).Some? then StageError(single, init)
    else StageError(single, event)
  }

  /** Stages one value. On a machine whose total cap is three single caps, with fewer than three
      values staged, only the value itself can be at fault. */
  method StageValue<V>(host: MemoryManager, values: Values<V>, value: V) returns (r: Result<u32, RuntimeError>)
    requires host.Valid() && host.caps.total == 3 * host.caps.single < I32_LIMIT
    requires |Flatten(host.objs)| <= 2 * host.caps.single
    modifies host
    ensures host.Valid()
    ensures match StageError(host.caps.single, values.toJson(value))
            case Some(e) => r == Err(e)
            case None =>
              && r == Ok(|old(host.memory)|)
              && host.objs == old(host.objs) + [EncodeBytes(values.toJson(value).value)]
  {
    hide Flatten, AsMap, HeapInv, EncodeBytes;
    var printed := values.toJson(value);
    if printed.None? {
      return Err(SerializationError("value to contract data"));
    }
    r := WriteContractData(host, printed.value);
  }

  /** `generate_execution_context`: three arguments are staged exactly when each fits a single
      allocation, on every machine; then they are the Borsh encodings of the three payloads. */
  method GenerateExecutionContext<V>(ramMb: u64, cores: usize, values: Values<V>, state: V, init: V, event: V)
    returns (host: MemoryManager, r: Result<(u32, u32, u32), RuntimeError>)
    ensures host.Valid() && fresh(host)
    ensures GuestRuns.Machine(host.caps, host.storeLimits) == GuestRuns.MachineOf(ramMb, cores)
    ensures var s, i, e := values.toJson(state), values.toJson(init), values.toJson(event);
            match StagingError(host.caps.single, s, i, e)
            case Some(error) => r == Err(error)
            case None =>
              && host.objs == [EncodeBytes(s.value), EncodeBytes(i.value), EncodeBytes(e.value)]
              && r == Ok((0, 4 + |s.value|, 8 + |s.value| + |i.value|))
  {
    hide Flatten, AsMap, Build, HeapInv, EncodeBytes;
    BuildClosedForm(ramMb, cores);
    host := new MemoryManager.FromLimits(Build(ramMb, cores));
    NothingStored();
    var first := StageValue(host, values, state);
    if first.Err? {
      return host, Err(first.error);
    }
    ghost var one := EncodeBytes(values.toJson(state).value);
    FlattenSnoc([], one);
    assert [] + [one] == [one];
    var second := StageValue(host, values, init);
    if second.Err? {
      return host, Err(second.error);
    }
    FlattenSnoc([one], EncodeBytes(values.toJson(init).value));
    var third := StageValue(host, values, event);
    if third.Err? {
      return host, Err(third.error);
    }
    return host, Ok((first.value, second.value, third.value));
  }

  // ---- Reading the result back ----

  /** The object at `p` is the encoding of a result `d`. */
  ghost predicate Holds(heap: map<int, Object>, p: int, d: ResultData) {
    p in heap && SerializeResult(d) == Some(heap[p])
  }

  /** `get_execution_result`: a result is returned field by field as it was stored, and nothing that is
      not the encoding of a result with a final state that parses is returned as one. */
  method GetExecutionResult<V>(host: MemoryManager, values: Values<V>, p: u32)
    returns (r: Result<ExecutionResult<V>, RuntimeError>)
    requires host.Valid()
    ensures r == if p !in host.Heap() then Err(MemoryAllocationFailed(InvalidPointer(p)))
                 else ResultOf(values, DecodeResult(host.Heap()[p]))
    ensures r.Ok? <==> exists d :: Holds(host.Heap(), p, d) && values.fromJson(d.finalState).Some?
    ensures forall d :: Holds(host.Heap(), p, d) && values.fromJson(d.finalState).Some? ==>
              && r.Ok? && values.fromJson(d.finalState) == Some(r.value.finalState)
              && r.value.success == d.success && r.value.error == d.error
    ensures forall d :: Holds(host.Heap(), p, d) && values.fromJson(d.finalState).None? ==>
              r == Err(SerializationError("final state json"))
    ensures r == Err(MemoryAllocationFailed(InvalidPointer(p))) <==> p !in host.Heap()
    ensures r == Err(SerializationError("execution result")) <==>
              p in host.Heap() && !(exists d :: Holds(host.Heap(), p, d))
  {
    hide AsMap, DecodeResult, SerializeResult;
    forall d ensures Holds(host.Heap(), p, d) <==> p in host.Heap() && DecodeResult(host.Heap()[p]) == Some(d) {
      if p in host.Heap() {
        DecodeResultIff(host.Heap()[p], d);
      }
    }
    var memory := host.ReadData(p);
    if memory.Err? {
      return Err(MemoryAllocationFailed(memory.error));
    }
    var result := DecodeResult(memory.value);
    if result.None? {
      return Err(SerializationError("execution result"));
    }
    assert Holds(host.Heap(), p, result.value);
    var finalState := values.fromJson(result.value.finalState);
    if finalState.None? {
      return Err(SerializationError("final state json"));
    }
    return Ok(ExecutionResult(finalState.value, result.value.success, result.value.error));
  }

  /** What the node makes of a decoded result. */
  function ResultOf<V>(values: Values<V>, data: Option<ResultData>): Result<ExecutionResult<V>, RuntimeError> {
    match data
    case None => Err(SerializationError("execution result"))
    case Some(d) =>
      match values.fromJson(d.finalState)
      case None => Err(SerializationError("final state json"))
      case Some(v) => Ok(ExecutionResult(v, d.success, d.error))
  }

  /** The object at `p` is the encoding of an init check `d`. */
  ghost predicate HoldsInit(heap: map<int, Object>, p: int, d: InitData) {
    p in heap && SerializeInit(d) == Some(heap[p])
  }

  /** `check_init_result`: accepted exactly when what was stored is an acceptance; a rejection comes
      with the stored message. */
  method CheckInitResult(host: MemoryManager, p: u32) returns (r: Result<(), RuntimeError>)
    requires host.Valid()
    ensures r == if p !in host.Heap() then Err(MemoryAllocationFailed(InvalidPointer(p)))
                 else InitResultOf(DecodeInit(host.Heap()[p]))
    ensures r.Ok? <==> exists d :: HoldsInit(host.Heap(), p, d) && d.success
    ensures forall d :: HoldsInit(host.Heap(), p, d) && !d.success ==> r == Err(ContractExecutionFailed(Message(d.error)))
    ensures r == Err(MemoryAllocationFailed(InvalidPointer(p))) <==> p !in host.Heap()
    ensures r == Err(SerializationError("init check result")) <==>
              p in host.Heap() && !(exists d :: HoldsInit(host.Heap(), p, d))
  {
    hide AsMap, DecodeInit, SerializeInit;
    forall d ensures HoldsInit(host.Heap(), p, d) <==> p in host.Heap() && DecodeInit(host.Heap()[p]) == Some(d) {
      if p in host.Heap() {
        DecodeInitIff(host.Heap()[p], d);
      }
    }
    var memory := host.ReadData(p);
    if memory.Err? {
      return Err(MemoryAllocationFailed(memory.error));
    }
    var check := DecodeInit(memory.value);
    if check.None? {
      return Err(SerializationError("init check result"));
    }
    assert HoldsInit(host.Heap(), p, check.value);
    return if check.value.success then Ok(()) else Err(ContractExecutionFailed(Message(check.value.error)));
  }

  function InitResultOf(data: Option<InitData>): Result<(), RuntimeError> {
    match data
    case None => Err(SerializationError("init check result"))
    case Some(d) => if d.success then Ok(()) else Err(ContractExecutionFailed(Message(d.error)))
  }

  // ---- The meaning of an execution, said without memory, pointers or encodings ----

  function Parsed<T>(parse: seq<byte> -> Result<T, Str>, json: seq<byte>, name: string): Result<T, Str> {
    match parse(json)
    case Ok(v) => Ok(v)
    case Err(e) => Err(Concat(Text("Cannot parse " + name + " from JSON bytes: "), e))
  }

  function Meaning<S, E>(codec: Codec<S, E>, state: seq<byte>, init: seq<byte>, event: seq<byte>,
                         isOwner: bool, callback: Callback<S, E>): Result<ResultData, Str>
  {
    match Start(Parsed(codec.parseState, state, "State"), Parsed(codec.parseState, init, "Init State"))
    case Err(e) => Err(e)
    case Ok(s) =>
      match Parsed(codec.parseEvent, event, "Event")
      case Err(e) => Err(e)
      case Ok(e) => Applied(codec, s, e, isOwner, callback)
  }

  function InitMeaning<S, E>(codec: Codec<S, E>, state: seq<byte>, callback: InitCallback<S>): Result<InitData, Str> {
    match Parsed(codec.parseState, state, "State")
    case Err(e) => Err(e)
    case Ok(s) =>
      var check := callback(s, InitData(false, []));
      if check.success then Ok(InitData(true, [])) else Err(Concat(Text(ERR_INIT_REJECTED), check.error))
  }

  /** What a node with these caps makes of an answer when `used` bytes are already taken. */
  function ResultWithin<V>(caps: Caps, values: Values<V>, used: nat, answer: Option<ResultData>)
    : Result<ExecutionResult<V>, RuntimeError>
    requires answer.Some? ==> Storable(SerializeResult(answer.value))
  {
    if answer.None? then Err(SerializationError("execution result"))
    else
      match AllocVerdict(caps, used, |SerializeResult(answer.value).value|)
      case Err(trap) => Err(ContractExecutionFailed(Halted(HostHalt(trap))))
      case Ok(_) => ResultOf(values, answer)
  }

  /** What a machine returns for a contract: only sizes tell machines apart. */
  function Expected<V, S, E>(m: GuestRuns.Machine, contract: ContractModule, values: Values<V>, codec: Codec<S, E>,
                             state: V, init: V, event: V, isOwner: bool, callback: Callback<S, E>)
    : Result<ExecutionResult<V>, RuntimeError>
  {
    var s, i, e := values.toJson(state), values.toJson(init), values.toJson(event);
    match StagingError(m.caps.single, s, i, e)
    case Some(error) => Err(error)
    case None =>
      match EntryError(m.store, contract, false)
      case Some(error) => Err(error)
      case None =>
        ResultWithin(m.caps, values, 12 + |s.value| + |i.value| + |e.value|,
                     ExecutionAnswer(codec, Meaning(codec, s.value, i.value, e.value, isOwner, callback)))
  }

  /** The bytes a contract delivers for what it computed, if any can be stored. */
  function AnswerOf<S, E>(codec: Codec<S, E>, result: Result<ResultData, Str>): (bytes: Option<seq<byte>>)
    ensures bytes.Some? ==> Storable(bytes)
  {
    var answer := ExecutionAnswer(codec, result);
    if answer.Some? then SerializeResult(answer.value) else None
  }

  /** The same from the three JSON texts. */
  function AnswerBytes<S, E>(codec: Codec<S, E>, s: seq<byte>, i: seq<byte>, e: seq<byte>, isOwner: bool,
                             callback: Callback<S, E>): Option<seq<byte>>
  {
    AnswerOf(codec, Meaning(codec, s, i, e, isOwner, callback))
  }

  // ---- Staged arguments as the contract sees them ----

  lemma ThreeObjects(a: Object, b: Object, c: Object)
    requires a != [] && b != [] && c != []
    ensures AsMap([a, b, c]) == map[0 := a, |a| := b, |a| + |b| := c]
    ensures |Flatten([a, b, c])| == |a| + |b| + |c|
  {
    hide Flatten, AsMap;
    NothingStored();
    FlattenSnoc([], a);
    assert [] + [a] == [a];
    FlattenSnoc([a], b);
    assert [a] + [b] == [a, b];
    FlattenSnoc([a, b], c);
    assert [a, b] + [c] == [a, b, c];
  }

  /** Reading a staged argument yields its payload, within every length limit. */
  lemma StagedIsSeen(v: View, p: i32, payload: seq<byte>)
    requires 4 + |payload| <= MAX_DATA_SIZE
    requires p in Memory(v) && Memory(v)[p] == EncodeBytes(payload)
    ensures Seen(v, p) == Ok(Ok(EncodeBytes(payload)))
    ensures DecodeData(EncodeBytes(payload)) == Some(payload)
  {
    hide Memory, Seen, DecodeData, Le32;
    SmallObjectIsSeen(v, p);
    DecodeDataIff(EncodeBytes(payload), payload);
  }

  lemma InterpretStaged<S, E>(codec: Codec<S, E>, s: seq<byte>, i: seq<byte>, e: seq<byte>, isOwner: bool,
                              callback: Callback<S, E>)
    requires |s| < U32_LIMIT && |i| < U32_LIMIT && |e| < U32_LIMIT
    ensures Interpret(codec, Ok(Ok(EncodeBytes(s))), Ok(Ok(EncodeBytes(i))), Ok(Ok(EncodeBytes(e))), isOwner, callback) ==
            Ok(Meaning(codec, s, i, e, isOwner, callback))
  {
    hide DecodeData, EncodeBytes, Applied, Text, Concat;
    DecodeDataIff(EncodeBytes(s), s);
    DecodeDataIff(EncodeBytes(i), i);
    DecodeDataIff(EncodeBytes(e), e);
  }

  /** The real host once three arguments are staged. */
  function StagedView(caps: Caps, s: seq<byte>, i: seq<byte>, e: seq<byte>): View
    requires |s| < U32_LIMIT && |i| < U32_LIMIT && |e| < U32_LIMIT
  {
    RealView(caps, [EncodeBytes(s), EncodeBytes(i), EncodeBytes(e)])
  }

  lemma StagedMemory(caps: Caps, s: seq<byte>, i: seq<byte>, e: seq<byte>)
    requires |s| < U32_LIMIT && |i| < U32_LIMIT && |e| < U32_LIMIT
    ensures Memory(StagedView(caps, s, i, e)) ==
            map[0 := EncodeBytes(s), 4 + |s| := EncodeBytes(i), 8 + |s| + |i| := EncodeBytes(e)]
    ensures |Flatten(StagedView(caps, s, i, e).objs)| == 12 + |s| + |i| + |e|
  {
    hide Flatten, AsMap, Le32;
    ThreeObjects(EncodeBytes(s), EncodeBytes(i), EncodeBytes(e));
  }

  /** What a contract computes from the three staged arguments. */
  lemma StagedMeaning<S, E>(caps: Caps, s: seq<byte>, i: seq<byte>, e: seq<byte>,
                            codec: Codec<S, E>, isOwner: bool, callback: Callback<S, E>)
    requires 4 + |s| <= 8 * MIB && 4 + |i| <= 8 * MIB && 4 + |e| <= 8 * MIB
    ensures var v := StagedView(caps, s, i, e);
            Interpret(codec, Seen(v, 0), Seen(v, 4 + |s|), Seen(v, 8 + |s| + |i|), isOwner, callback) ==
            Ok(Meaning(codec, s, i, e, isOwner, callback))
  {
    hide Memory, EncodeBytes, Interpret, Meaning, Seen, StagedView, DecodeData;
    var v := StagedView(caps, s, i, e);
    StagedMemory(caps, s, i, e);
    StagedIsSeen(v, 0, s);
    StagedIsSeen(v, 4 + |s|, i);
    StagedIsSeen(v, 8 + |s| + |i|, e);
    InterpretStaged(codec, s, i, e, isOwner, callback);
  }

  /** What a contract leaves behind when run on the three staged arguments. */
  lemma StagedExecution<S, E>(caps: Caps, s: seq<byte>, i: seq<byte>, e: seq<byte>,
                              codec: Codec<S, E>, isOwner: bool, callback: Callback<S, E>)
    requires 4 + |s| <= 8 * MIB && 4 + |i| <= 8 * MIB && 4 + |e| <= 8 * MIB
    requires InUse(StagedView(caps, s, i, e))
    ensures var v := StagedView(caps, s, i, e);
            var (exit, after) := Execution(codec, v, 0, 4 + |s|, 8 + |s| + |i|, isOwner, callback);
            Delivered(AnswerBytes(codec, s, i, e, isOwner, callback), v, exit, Memory(after))
  {
    hide Seen, Interpret, Meaning, Delivered, InUse, Delivery, StagedView, Memory, SerializeResult;
    StagedMeaning(caps, s, i, e, codec, isOwner, callback);
    EncodingsNotEmpty();
    DeliveryIsAnswer(StagedView(caps, s, i, e), Meaning(codec, s, i, e, isOwner, callback),
                     m => ErrorResult(codec, m), ERR_RETURN_RESULT, SerializeResult);
  }

  /** What the node finds at the pointer a contract returned, or how it halted. */
  function Retrieved<V>(values: Values<V>, exit: Exit, memory: map<int, Object>): Result<ExecutionResult<V>, RuntimeError> {
    match exit
    case ExitHalt(halt) => Err(ContractExecutionFailed(Halted(halt)))
    case Exit(p) =>
      if p !in memory then Err(MemoryAllocationFailed(InvalidPointer(p)))
      else ResultOf(values, DecodeResult(memory[p]))
  }

  /** Whatever was delivered is retrieved: the result itself, the trap, or a refusal when the
      contract returned the null pointer. */
  lemma DeliveredIsRetrieved<V>(caps: Caps, s: seq<byte>, i: seq<byte>, e: seq<byte>, values: Values<V>,
                                answer: Option<ResultData>, exit: Exit, after: map<int, Object>)
    requires |s| < U32_LIMIT && |i| < U32_LIMIT && |e| < U32_LIMIT
    requires answer.Some? ==> Storable(SerializeResult(answer.value))
    requires Delivered(if answer.Some? then SerializeResult(answer.value) else None,
                       StagedView(caps, s, i, e), exit, after)
    ensures Retrieved(values, exit, after) == ResultWithin(caps, values, 12 + |s| + |i| + |e|, answer)
  {
    hide Memory, Flatten, EncodeBytes, SerializeResult, DecodeResult;
    StagedMemory(caps, s, i, e);
    if answer.Some? {
      DecodeResultIff(SerializeResult(answer.value).value, answer.value);
    } else {
      StagedIsNoResult(s);
    }
  }

  /** A host of a built machine with three arguments staged is ready and in use. */
  lemma StagedHost(host: MemoryManager, ramMb: u64, cores: usize, s: seq<byte>, i: seq<byte>, e: seq<byte>)
    requires host.Valid() && host.caps == CapsOf(Build(ramMb, cores))
    requires 4 + |s| <= host.caps.single && 4 + |i| <= host.caps.single && 4 + |e| <= host.caps.single
    requires |s| < U32_LIMIT && |i| < U32_LIMIT && |e| < U32_LIMIT
    requires host.objs == [EncodeBytes(s), EncodeBytes(i), EncodeBytes(e)]
    ensures 4 + |s| <= 8 * MIB && 4 + |i| <= 8 * MIB && 4 + |e| <= 8 * MIB
    ensures Ready(Real(host)) && ViewOf(Real(host)) == StagedView(host.caps, s, i, e) && InUse(ViewOf(Real(host)))
  {
    hide Build, Flatten, AsMap, EncodeBytes;
    BuildClosedForm(ramMb, cores);
  }

  // ---- End to end ----

  /** The call of `main_function` on three staged arguments of a built machine. */
  method CallMain<S, E>(host: MemoryManager, codec: Codec<S, E>, sp: u32, ip: u32, ep: u32, isOwner: bool,
                        callback: Callback<S, E>, ghost ramMb: u64, ghost cores: usize,
                        ghost s: seq<byte>, ghost i: seq<byte>, ghost e: seq<byte>) returns (exit: Exit)
    requires host.Valid() && host.caps == CapsOf(Build(ramMb, cores))
    requires 4 + |s| <= host.caps.single && 4 + |i| <= host.caps.single && 4 + |e| <= host.caps.single
    requires |s| < U32_LIMIT && |i| < U32_LIMIT && |e| < U32_LIMIT
    requires host.objs == [EncodeBytes(s), EncodeBytes(i), EncodeBytes(e)]
    requires sp == 0 && ip == 4 + |s| && ep == 8 + |s| + |i|
    modifies host
    ensures host.Valid()
    ensures Delivered(AnswerBytes(codec, s, i, e, isOwner, callback), StagedView(host.caps, s, i, e), exit, host.Heap())
  {
    hide Build, Flatten, AsMap, Memory, EncodeBytes, AnswerBytes, Execution, Delivered, InUse, StagedView;
    StagedHost(host, ramMb, cores, s, i, e);
    StagedExecution(host.caps, s, i, e, codec, isOwner, callback);
    exit := ExecuteContract(Real(host), codec, U32AsI32(sp), U32AsI32(ip), U32AsI32(ep), if isOwner then 1 else 0, callback);
    RealMemory(host);
  }

  /** `execute_inner` around an SDK contract: for every value, owner flag, contract and machine, the
      node returns exactly what the meaning of the contract says, or fails for want of memory. */
  method ExecuteInner<V, S, E>(ramMb: u64, cores: usize, contract: ContractModule, values: Values<V>,
                               codec: Codec<S, E>, state: V, init: V, event: V, isOwner: bool,
                               callback: Callback<S, E>)
    returns (r: Result<ExecutionResult<V>, RuntimeError>)
    ensures r == Expected(GuestRuns.MachineOf(ramMb, cores), contract, values, codec, state, init, event, isOwner, callback)
  {
    hide Build, Flatten, AsMap, EncodeBytes, SerializeResult, DecodeResult, ExecutionAnswer, Meaning, ResultOf,
         StageError, EntryError, Delivered, ResultWithin, StagedView, Holds, Loads;
    var host, staged := GenerateExecutionContext(ramMb, cores, values, state, init, event);
    if staged.Err? {
      return Err(staged.error);
    }
    var instance := Instantiate(host, contract, false);
    if instance.Err? {
      return Err(instance.error);
    }
    var (sp, ip, ep) := staged.value;
    ghost var s, i, e := values.toJson(state).value, values.toJson(init).value, values.toJson(event).value;
    var exit := CallMain(host, codec, sp, ip, ep, isOwner, callback, ramMb, cores, s, i, e);
    ghost var answer := ExecutionAnswer(codec, Meaning(codec, s, i, e, isOwner, callback));
    DeliveredIsRetrieved(host.caps, s, i, e, values, answer, exit, host.Heap());
    match exit {
      case ExitHalt(halt) => return Err(ContractExecutionFailed(Halted(halt)));
      case Exit(p) => r := GetExecutionResult(host, values, p);
    }
  }

  lemma RealMemory(host: MemoryManager)
    ensures Memory(ViewOf(Real(host))) == host.Heap()
  {
  }

  // ---- Fleet guarantees for SDK contracts ----

  /** Errors that say "this machine is too small". */
  predicate CapacityError(e: RuntimeError) {
    match e
    case MemoryAllocationFailed(error) => error.AllocationTooLarge?
    case InstantiationFailed(cause) => cause.TooLarge?
    case ContractExecutionFailed(Halted(Trap(trap))) => GuestRuns.CapacityTrap(trap)
    case _ => false
  }

  /** Of two machines ordered in every limit, the larger returns what the smaller returns, unless the
      smaller one ran out of capacity. */
  lemma SdkFleetDeterminism<V, S, E>(small: u64, coresSmall: usize, large: u64, coresLarge: usize,
                                     contract: ContractModule, values: Values<V>, codec: Codec<S, E>,
                                     state: V, init: V, event: V, isOwner: bool, callback: Callback<S, E>)
    requires FleetOrdered(small, coresSmall, large, coresLarge)
    ensures var a := Expected(GuestRuns.MachineOf(small, coresSmall), contract, values, codec, state, init, event,
                              isOwner, callback);
            var b := Expected(GuestRuns.MachineOf(large, coresLarge), contract, values, codec, state, init, event,
                              isOwner, callback);
            a == b || (a.Err? && CapacityError(a.error))
  {
    hide Build, FleetOrdered, ExecutionAnswer, Meaning, SerializeResult, ResultOf, Storable;
    FleetOrderedIff(small, coresSmall, large, coresLarge);
  }

  /** A contract never fails on a node for a memory reason other than the limits: what is neither a
      result, nor a (de)serialisation failure, nor a module that no node accepts, is a capacity
      failure. */
  lemma OnlyCapacityFailures<V, S, E>(ramMb: u64, cores: usize, contract: ContractModule, values: Values<V>,
                                      codec: Codec<S, E>, state: V, init: V, event: V, isOwner: bool,
                                      callback: Callback<S, E>)
    ensures var r := Expected(GuestRuns.MachineOf(ramMb, cores), contract, values, codec, state, init, event,
                              isOwner, callback);
            r.Err? ==> || r.error.SerializationError? || r.error.EntryPointNotFound?
                       || r.error == InstantiationFailed(TooMany) || CapacityError(r.error)
  {
    hide Build, ExecutionAnswer, Meaning, SerializeResult;
    BuildClosedForm(ramMb, cores);
  }
}
