/** What a node reports, case by case and in the terms of a contract's author: which state the contract
    starts from, what becomes of the callback's verdict, and which message each failure carries. */
module Reports {
  import opened Bytes
  import opened Limits
  import opened Utf8
  import opened Borsh
  import opened ObjectHeap
  import opened Host
  import opened Sdk
  import opened Runtime
  import opened Node
  import GuestRuns
  import Imports

  // ---- Executions ----

  /** The bytes a result takes: two strings behind their lengths, and a flag. */
  function ResultSize(finalState: seq<byte>, error: seq<byte>): nat { 9 + |finalState| + |error| }

  predicate HaltedBy<T>(r: Result<T, RuntimeError>, e: ContractError) {
    r == Err(ContractExecutionFailed(Halted(Trap(GuestRuns.HostTrap(e)))))
  }

  /** The node has room for a result and reports it as it is, or says which cap is in the way. */
  predicate Reported<V(==)>(caps: Caps, values: Values<V>, used: nat, finalState: seq<byte>, success: bool, error: seq<byte>,
                            r: Result<ExecutionResult<V>, RuntimeError>)
  {
    var n := ResultSize(finalState, error);
    if n > caps.single then HaltedBy(r, AllocationTooLarge(n, caps.single))
    else if used + n > caps.total then HaltedBy(r, TotalMemoryExceeded(used + n, caps.total))
    else match values.fromJson(finalState)
         case None => r == Err(SerializationError("final state json"))
         case Some(v) => r.Ok? && r.value.finalState == v && r.value.success == success && r.value.error == error
  }

  /** The same for a failure, which is never a success; one too long to be encoded is not delivered. */
  predicate ReportedFailure<V(==)>(caps: Caps, values: Values<V>, used: nat, errorState: seq<byte>, message: seq<byte>,
                                   r: Result<ExecutionResult<V>, RuntimeError>)
  {
    if ResultSize(errorState, message) > 2_147_483_647 then r == Err(SerializationError("execution result"))
    else Reported(caps, values, used, errorState, false, message, r)
  }

  lemma SizeDecides(d: ResultData)
    ensures Storable(SerializeResult(d)) <==> ResultSize(d.finalState, d.error) <= 2_147_483_647
    ensures SerializeResult(d).Some? ==> |SerializeResult(d).value| == ResultSize(d.finalState, d.error)
  {
    hide Le32;
  }

  const INIT_STATE_UNPARSED := "Cannot parse " + "Init State" + " from JSON bytes: "
  const EVENT_UNPARSED := "Cannot parse " + "Event" + " from JSON bytes: "
  const FALLBACK_FAILED := "; fallback to init state also failed: "
  const STATE_UNPRINTED := "Cannot serialize contract final state into JSON bytes"
  const EVENT_REJECTED := "Error running contract event: "
  const RESULT_LOST := "Cannot return contract result"

  /** Where neither state parses, what is computed is a failure and the callback plays no part. */
  lemma MeaningWithoutState<S, E>(codec: Codec<S, E>, s: seq<byte>, i: seq<byte>, e: seq<byte>, isOwner: bool,
                                  callback: Callback<S, E>)
    requires codec.parseState(s).Err? && codec.parseState(i).Err?
    ensures var r := Meaning(codec, s, i, e, isOwner, callback);
            r.Err? && r.error == (Ascii(STATE_UNPARSED) + codec.parseState(s).error + Ascii(FALLBACK_FAILED))
                                 + (Ascii(INIT_STATE_UNPARSED) + codec.parseState(i).error)
  {
    hide Text, Ascii;
    TextIsAscii(STATE_UNPARSED);
    TextIsAscii(FALLBACK_FAILED);
    TextIsAscii(INIT_STATE_UNPARSED);
  }

  lemma MeaningWithoutEvent<S, E>(codec: Codec<S, E>, s: seq<byte>, i: seq<byte>, e: seq<byte>, isOwner: bool,
                                  callback: Callback<S, E>)
    requires (codec.parseState(s).Ok? || codec.parseState(i).Ok?) && codec.parseEvent(e).Err?
    ensures var r := Meaning(codec, s, i, e, isOwner, callback);
            r.Err? && r.error == Ascii(EVENT_UNPARSED) + codec.parseEvent(e).error
  {
    hide Text, Ascii;
    TextIsAscii(EVENT_UNPARSED);
  }

  /** The state a contract starts from: the current one if that parses, whatever the initial one is; the
      initial one exactly when the current one does not parse and it does. */
  predicate StartsFrom<S(==), E>(codec: Codec<S, E>, s: seq<byte>, i: seq<byte>, start: S) {
    codec.parseState(s) == Ok(start) || (codec.parseState(s).Err? && codec.parseState(i) == Ok(start))
  }

  /** What a callback left is what was computed: its state, its verdict, and its message behind a prefix. */
  predicate Computed<S, E>(codec: Codec<S, E>, after: ContractResult<S>, r: Result<ResultData, Str>) {
    match codec.printState(after.state)
    case None => r.Err? && r.error == Ascii(STATE_UNPRINTED)
    case Some(bytes) =>
      && r.Ok? && r.value.finalState == bytes && r.value.success == after.success
      && r.value.error == if after.success then [] else Ascii(EVENT_REJECTED) + after.error
  }

  /** The callback, run on the start state and the event, decides what is computed. */
  lemma MeaningOfCallback<S, E>(codec: Codec<S, E>, s: seq<byte>, i: seq<byte>, e: seq<byte>, isOwner: bool,
                                callback: Callback<S, E>, start: S)
    requires StartsFrom(codec, s, i, start) && codec.parseEvent(e).Ok?
    ensures Computed(codec, callback(Context(codec.parseEvent(e).value, isOwner), ContractResult(start, false, [])),
                     Meaning(codec, s, i, e, isOwner, callback))
  {
    hide Text, Ascii;
    TextIsAscii(STATE_UNPRINTED);
    TextIsAscii(EVENT_REJECTED);
  }

  /** What is delivered for what was computed. */
  lemma AnswerIs<S, E>(codec: Codec<S, E>, result: Result<ResultData, Str>)
    ensures var answer := ExecutionAnswer(codec, result);
            if result.Ok? && ResultSize(result.value.finalState, result.value.error) <= 2_147_483_647
            then answer == Some(result.value)
            else
              var message := if result.Ok? then Ascii(RESULT_LOST) else result.error;
              && (answer.Some? <==> ResultSize(codec.errorState, message) <= 2_147_483_647)
              && (answer.Some? ==> answer.value.finalState == codec.errorState && !answer.value.success
                                   && answer.value.error == message)
  {
    hide Text, Ascii, SerializeResult, ResultSize;
    TextIsAscii(RESULT_LOST);
    if result.Ok? {
      SizeDecides(result.value);
    }
    SizeDecides(ErrorResult(codec, if result.Ok? then Text(RESULT_LOST) else result.error));
  }

  lemma DeliveredIsReported<V>(caps: Caps, values: Values<V>, used: nat, d: ResultData)
    requires used + caps.single <= USIZE_MAX && Storable(SerializeResult(d))
    ensures Reported(caps, values, used, d.finalState, d.success, d.error, ResultWithin(caps, values, used, Some(d)))
  {
    hide SerializeResult, ResultSize;
    SizeDecides(d);
  }

  /** Nothing stands in the way of running a contract on these arguments: they print and fit one
      allocation each, the module is within the limits and has a `main_function`. */
  predicate Runs<V>(limits: WasmLimits, contract: ContractModule, values: Values<V>, state: V, init: V, event: V) {
    && Stageable(limits.maxSingleAlloc, values.toJson(state)) && Stageable(limits.maxSingleAlloc, values.toJson(init))
    && Stageable(limits.maxSingleAlloc, values.toJson(event))
    && Loads(limits.memorySize, limits.maxTableElements, contract) && contract.hasMain
  }

  lemma ReportOf<V, S, E>(ramMb: u64, cores: usize, contract: ContractModule, values: Values<V>, codec: Codec<S, E>,
                          state: V, init: V, event: V, isOwner: bool, callback: Callback<S, E>)
    requires Runs(Build(ramMb, cores), contract, values, state, init, event)
    ensures var r := Expected(GuestRuns.MachineOf(ramMb, cores), contract, values, codec, state, init, event, isOwner, callback);
            var s, i, e := values.toJson(state).value, values.toJson(init).value, values.toJson(event).value;
            var caps, used := CapsOf(Build(ramMb, cores)), 12 + |s| + |i| + |e|;
            var result := Meaning(codec, s, i, e, isOwner, callback);
            if result.Ok? && ResultSize(result.value.finalState, result.value.error) <= 2_147_483_647
            then Reported(caps, values, used, result.value.finalState, result.value.success, result.value.error, r)
            else ReportedFailure(caps, values, used, codec.errorState, if result.Ok? then Ascii(RESULT_LOST) else result.error, r)
  {
    hide Build, Text, Ascii, Meaning, ResultSize, Reported, SerializeResult, ResultWithin, ExecutionAnswer;
    BuildClosedForm(ramMb, cores);
    var s, i, e := values.toJson(state).value, values.toJson(init).value, values.toJson(event).value;
    var result := Meaning(codec, s, i, e, isOwner, callback);
    AnswerIs(codec, result);
    var answer := ExecutionAnswer(codec, result);
    if answer.Some? {
      DeliveredIsReported(CapsOf(Build(ramMb, cores)), values, 12 + |s| + |i| + |e|, answer.value);
    } else {
      NothingIsReported(CapsOf(Build(ramMb, cores)), values, 12 + |s| + |i| + |e|);
    }
  }

  lemma NothingIsReported<V>(caps: Caps, values: Values<V>, used: nat)
    ensures ResultWithin(caps, values, used, None) == Err(SerializationError("execution result"))
  {
  }

  /** What a node reports for a contract that got its state and event: what the callback left, or a
      failure where that cannot be printed or delivered. */
  lemma CallbackReported<V, S, E>(ramMb: u64, cores: usize, contract: ContractModule, values: Values<V>, codec: Codec<S, E>,
                                  state: V, init: V, event: V, isOwner: bool, callback: Callback<S, E>, start: S)
    requires Runs(Build(ramMb, cores), contract, values, state, init, event)
    requires StartsFrom(codec, values.toJson(state).value, values.toJson(init).value, start)
    requires codec.parseEvent(values.toJson(event).value).Ok?
    ensures var r := Expected(GuestRuns.MachineOf(ramMb, cores), contract, values, codec, state, init, event, isOwner, callback);
            var s, i, e := values.toJson(state).value, values.toJson(init).value, values.toJson(event).value;
            var caps, used := CapsOf(Build(ramMb, cores)), 12 + |s| + |i| + |e|;
            var after := callback(Context(codec.parseEvent(e).value, isOwner), ContractResult(start, false, []));
            var error := if after.success then [] else Ascii(EVENT_REJECTED) + after.error;
            match codec.printState(after.state)
            case None => ReportedFailure(caps, values, used, codec.errorState, Ascii(STATE_UNPRINTED), r)
            case Some(bytes) =>
              if ResultSize(bytes, error) <= 2_147_483_647 then Reported(caps, values, used, bytes, after.success, error, r)
              else ReportedFailure(caps, values, used, codec.errorState, Ascii(RESULT_LOST), r)
  {
    hide Build, Text, Ascii, Meaning, ResultSize, Reported, ReportedFailure, Expected, StartsFrom;
    var s, i, e := values.toJson(state).value, values.toJson(init).value, values.toJson(event).value;
    MeaningOfCallback(codec, s, i, e, isOwner, callback, start);
    ReportOf(ramMb, cores, contract, values, codec, state, init, event, isOwner, callback);
  }

  /** What a node reports where neither state parses; the callback plays no part. */
  lemma NoStateReported<V, S, E>(ramMb: u64, cores: usize, contract: ContractModule, values: Values<V>, codec: Codec<S, E>,
                                 state: V, init: V, event: V, isOwner: bool, callback: Callback<S, E>)
    requires Runs(Build(ramMb, cores), contract, values, state, init, event)
    requires codec.parseState(values.toJson(state).value).Err? && codec.parseState(values.toJson(init).value).Err?
    ensures var r := Expected(GuestRuns.MachineOf(ramMb, cores), contract, values, codec, state, init, event, isOwner, callback);
            var s, i, e := values.toJson(state).value, values.toJson(init).value, values.toJson(event).value;
            ReportedFailure(CapsOf(Build(ramMb, cores)), values, 12 + |s| + |i| + |e|, codec.errorState,
                            (Ascii(STATE_UNPARSED) + codec.parseState(s).error + Ascii(FALLBACK_FAILED))
                            + (Ascii(INIT_STATE_UNPARSED) + codec.parseState(i).error), r)
  {
    hide Build, Text, Ascii, Meaning, ResultSize, Reported, ReportedFailure, Expected;
    var s, i, e := values.toJson(state).value, values.toJson(init).value, values.toJson(event).value;
    MeaningWithoutState(codec, s, i, e, isOwner, callback);
    ReportOf(ramMb, cores, contract, values, codec, state, init, event, isOwner, callback);
  }

  /** What a node reports where a state parses and the event does not. */
  lemma NoEventReported<V, S, E>(ramMb: u64, cores: usize, contract: ContractModule, values: Values<V>, codec: Codec<S, E>,
                                 state: V, init: V, event: V, isOwner: bool, callback: Callback<S, E>)
    requires Runs(Build(ramMb, cores), contract, values, state, init, event)
    requires codec.parseState(values.toJson(state).value).Ok? || codec.parseState(values.toJson(init).value).Ok?
    requires codec.parseEvent(values.toJson(event).value).Err?
    ensures var r := Expected(GuestRuns.MachineOf(ramMb, cores), contract, values, codec, state, init, event, isOwner, callback);
            var s, i, e := values.toJson(state).value, values.toJson(init).value, values.toJson(event).value;
            ReportedFailure(CapsOf(Build(ramMb, cores)), values, 12 + |s| + |i| + |e|, codec.errorState,
                            Ascii(EVENT_UNPARSED) + codec.parseEvent(e).error, r)
  {
    hide Build, Text, Ascii, Meaning, ResultSize, Reported, ReportedFailure, Expected;
    var s, i, e := values.toJson(state).value, values.toJson(init).value, values.toJson(event).value;
    MeaningWithoutEvent(codec, s, i, e, isOwner, callback);
    ReportOf(ramMb, cores, contract, values, codec, state, init, event, isOwner, callback);
  }

  /** Why one value cannot be staged. */
  predicate StagingRefused<V, T>(limits: WasmLimits, values: Values<V>, value: V, r: Result<T, RuntimeError>) {
    match values.toJson(value)
    case None => r.Err? && r.error == SerializationError("value to contract data")
    case Some(json) =>
      if |json| >= 4_294_967_296 then r.Err? && r.error == SerializationError("contract data borsh")
      else && 4 + |json| > limits.maxSingleAlloc && r.Err?
           && r.error == MemoryAllocationFailed(AllocationTooLarge(4 + |json|, limits.maxSingleAlloc))
  }

  /** Why a contract does not get to run: the first argument that cannot be staged, else the module;
      `execute_inner` never asks for an `init_check_function`. */
  lemma ExecutionRefused<V, S, E>(ramMb: u64, cores: usize, contract: ContractModule, values: Values<V>, codec: Codec<S, E>,
                                  state: V, init: V, event: V, isOwner: bool, callback: Callback<S, E>, hasInit: bool)
    ensures var m := GuestRuns.MachineOf(ramMb, cores);
            var r := Expected(m, contract, values, codec, state, init, event, isOwner, callback);
            var limits := Build(ramMb, cores);
            var single := limits.maxSingleAlloc;
            var loads := Loads(limits.memorySize, limits.maxTableElements, contract);
            var first, second, third := Stageable(single, values.toJson(state)), Stageable(single, values.toJson(init)),
                                        Stageable(single, values.toJson(event));
            && (r.Ok? ==> Runs(limits, contract, values, state, init, event))
            && (!first ==> StagingRefused(limits, values, state, r))
            && (first && !second ==> StagingRefused(limits, values, init, r))
            && (first && second && !third ==> StagingRefused(limits, values, event, r))
            && (first && second && third ==>
                  && (r == Err(EntryPointNotFound("main_function")) <==> loads && !contract.hasMain)
                  && (r == Err(InstantiationFailed(TooMany)) <==> contract.memories > 1 || contract.tables > 1)
                  && (r == Err(InstantiationFailed(TooLarge)) <==>
                        contract.memories <= 1 && contract.tables <= 1 && !loads))
            && r == Expected(m, contract.(hasInit := hasInit), values, codec, state, init, event, isOwner, callback)
  {
    hide Build, Meaning, SerializeResult, ExecutionAnswer, Storable;
    BuildClosedForm(ramMb, cores);
  }

  /** An event is reported as applied exactly when the contract runs, has a state and an event, and its
      callback accepts and leaves a state that prints, fits both caps and parses back. */
  lemma AppliedIff<V, S, E>(ramMb: u64, cores: usize, contract: ContractModule, values: Values<V>, codec: Codec<S, E>,
                            state: V, init: V, event: V, isOwner: bool, callback: Callback<S, E>)
    ensures var r := Expected(GuestRuns.MachineOf(ramMb, cores), contract, values, codec, state, init, event, isOwner, callback);
            r.Ok? && r.value.success <==>
              && Runs(Build(ramMb, cores), contract, values, state, init, event)
              && var s, i, e := values.toJson(state).value, values.toJson(init).value, values.toJson(event).value;
                 var current, initial, parsed := codec.parseState(s), codec.parseState(i), codec.parseEvent(e);
              && (current.Ok? || initial.Ok?) && parsed.Ok?
              && var start := if current.Ok? then current.value else initial.value;
                 var after := callback(Context(parsed.value, isOwner), ContractResult(start, false, []));
                 after.success && Arriving(Build(ramMb, cores), values, 12 + |s| + |i| + |e|, codec.printState(after.state))
  {
    hide Build, Text, Ascii, Expected, ReportedFailure, Reported, Runs, ResultSize, Arriving;
    ExecutionRefused(ramMb, cores, contract, values, codec, state, init, event, isOwner, callback, true);
    if Runs(Build(ramMb, cores), contract, values, state, init, event) {
      RunsAreStaged(Build(ramMb, cores), contract, values, state, init, event);
      var s, i, e := values.toJson(state).value, values.toJson(init).value, values.toJson(event).value;
      var current, initial, parsed := codec.parseState(s), codec.parseState(i), codec.parseEvent(e);
      var caps, used := CapsOf(Build(ramMb, cores)), 12 + |s| + |i| + |e|;
      var r := Expected(GuestRuns.MachineOf(ramMb, cores), contract, values, codec, state, init, event, isOwner, callback);
      if current.Err? && initial.Err? {
        NoStateReported(ramMb, cores, contract, values, codec, state, init, event, isOwner, callback);
        FailureIsNoSuccess(caps, values, used, codec.errorState,
                           (Ascii(STATE_UNPARSED) + current.error + Ascii(FALLBACK_FAILED))
                           + (Ascii(INIT_STATE_UNPARSED) + initial.error), r);
      } else if parsed.Err? {
        NoEventReported(ramMb, cores, contract, values, codec, state, init, event, isOwner, callback);
        FailureIsNoSuccess(caps, values, used, codec.errorState, Ascii(EVENT_UNPARSED) + parsed.error, r);
      } else {
        BuildClosedForm(ramMb, cores);
        var start := if current.Ok? then current.value else initial.value;
        CallbackReported(ramMb, cores, contract, values, codec, state, init, event, isOwner, callback, start);
        var after := callback(Context(parsed.value, isOwner), ContractResult(start, false, []));
        FailureIsNoSuccess(caps, values, used, codec.errorState, Ascii(STATE_UNPRINTED), r);
        FailureIsNoSuccess(caps, values, used, codec.errorState, Ascii(RESULT_LOST), r);
        ReportIsSuccess(Build(ramMb, cores), values, used, codec.printState(after.state), after.success,
                        if after.success then [] else Ascii(EVENT_REJECTED) + after.error, r);
      }
    }
  }

  /** A printed final state that fits both caps with an empty message, and parses back. */
  predicate Arriving<V>(limits: WasmLimits, values: Values<V>, used: nat, printed: Option<seq<byte>>) {
    && printed.Some? && 9 + |printed.value| <= limits.maxSingleAlloc && used + 9 + |printed.value| <= limits.maxTotalMemory
    && values.fromJson(printed.value).Some?
  }

  lemma RunsAreStaged<V>(limits: WasmLimits, contract: ContractModule, values: Values<V>, state: V, init: V, event: V)
    requires Runs(limits, contract, values, state, init, event)
    ensures values.toJson(state).Some? && values.toJson(init).Some? && values.toJson(event).Some?
  {
  }

  lemma FailureIsNoSuccess<V>(caps: Caps, values: Values<V>, used: nat, errorState: seq<byte>, message: seq<byte>,
                              r: Result<ExecutionResult<V>, RuntimeError>)
    ensures ReportedFailure(caps, values, used, errorState, message, r) ==> !(r.Ok? && r.value.success)
  {
  }

  lemma ReportIsSuccess<V>(limits: WasmLimits, values: Values<V>, used: nat, printed: Option<seq<byte>>, success: bool,
                           error: seq<byte>, r: Result<ExecutionResult<V>, RuntimeError>)
    requires success ==> error == []
    ensures printed.Some? && Reported(CapsOf(limits), values, used, printed.value, success, error, r) ==>
              (r.Ok? && r.value.success <==> success && Arriving(limits, values, used, printed))
    ensures printed.Some? && success && ResultSize(printed.value, error) > 2_147_483_647 && limits.maxSingleAlloc < I32_LIMIT ==>
              !Arriving(limits, values, used, printed)
    ensures printed.None? ==> !Arriving(limits, values, used, printed)
  {
  }

  // ---- Arbitrary guests ----

  /** What a node reports of a run that is over: the trap, the pointer nothing is stored under, or, field
      by field, the result whose encoding the run left under the pointer it returned. */
  lemma RunReported<V>(run: GuestRuns.Run, values: Values<V>)
    ensures var r := EndOf(run, (o: Object) => ResultOf(values, DecodeResult(o)));
            var heap := AsMap(run.world.objs);
            && (r.None? <==> run.status.Running?)
            && (run.status.Trapped? ==> r == Some(Err(ContractExecutionFailed(Halted(Trap(run.status.trap))))))
            && (run.status.Returned? ==>
                  var p := run.status.pointer;
                  && (p !in heap ==> r == Some(Err(MemoryAllocationFailed(InvalidPointer(p)))))
                  && (r.value.Ok? <==> exists d :: Holds(heap, p, d) && values.fromJson(d.finalState).Some?)
                  && (forall d :: Holds(heap, p, d) && values.fromJson(d.finalState).Some? ==>
                        && r.value.Ok? && values.fromJson(d.finalState) == Some(r.value.value.finalState)
                        && r.value.value.success == d.success && r.value.value.error == d.error))
  {
    hide AsMap, DecodeResult, SerializeResult;
    if run.status.Returned? && run.status.pointer in AsMap(run.world.objs) {
      var p, heap := run.status.pointer, AsMap(run.world.objs);
      forall d ensures Holds(heap, p, d) <==> DecodeResult(heap[p]) == Some(d) {
        DecodeResultIff(heap[p], d);
      }
      if DecodeResult(heap[p]).Some? {
        assert Holds(heap, p, DecodeResult(heap[p]).value);
      }
    }
  }

  /** The same of an init check. */
  lemma InitRunReported(run: GuestRuns.Run)
    ensures var r := EndOf(run, (o: Object) => InitResultOf(DecodeInit(o)));
            var heap := AsMap(run.world.objs);
            && (r.None? <==> run.status.Running?)
            && (run.status.Trapped? ==> r == Some(Err(ContractExecutionFailed(Halted(Trap(run.status.trap))))))
            && (run.status.Returned? ==>
                  var p := run.status.pointer;
                  && (p !in heap ==> r == Some(Err(MemoryAllocationFailed(InvalidPointer(p)))))
                  && (r.value.Ok? <==> exists d :: HoldsInit(heap, p, d) && d.success)
                  && (forall d :: HoldsInit(heap, p, d) && !d.success ==>
                        r.value == Err(ContractExecutionFailed(Message(d.error)))))
  {
    hide AsMap, DecodeInit, SerializeInit;
    if run.status.Returned? && run.status.pointer in AsMap(run.world.objs) {
      var p, heap := run.status.pointer, AsMap(run.world.objs);
      forall d ensures HoldsInit(heap, p, d) <==> DecodeInit(heap[p]) == Some(d) {
        DecodeInitIff(heap[p], d);
      }
      if DecodeInit(heap[p]).Some? {
        assert HoldsInit(heap, p, DecodeInit(heap[p]).value);
      }
    }
  }

  /** Any program at all: its arguments are where they were staged, and what is reported is how its run
      from there ended. */
  lemma GuestReported<V>(ramMb: u64, cores: usize, contract: ContractModule, exportsMemory: bool, values: Values<V>,
                         state: V, init: V, event: V, isOwner: bool, program: Program, steps: nat)
    requires Runs(Build(ramMb, cores), contract, values, state, init, event)
    ensures var m := GuestRuns.MachineOf(ramMb, cores);
            var s, i, e := values.toJson(state).value, values.toJson(init).value, values.toJson(event).value;
            && m.caps.single <= 8 * MIB
            && var start := GuestRuns.World([EncodeBytes(s), EncodeBytes(i), EncodeBytes(e)], contract.image, contract.table,
                                            exportsMemory);
               var guest := program(0, 4 + |s|, 8 + |s| + |i|, if isOwner then 1 else 0);
               GuestOutcome(m, contract, exportsMemory, values, state, init, event, isOwner, program, steps) ==
               EndOf(GuestRuns.RunFrom(guest, m, start, [], steps), (o: Object) => ResultOf(values, DecodeResult(o)))
  {
    hide Build, EndOf, GuestRuns.RunFrom, EncodeBytes, DecodeResult, ResultOf;
    BuildClosedForm(ramMb, cores);
  }

  lemma GuestInitReported<V>(ramMb: u64, cores: usize, contract: ContractModule, exportsMemory: bool, values: Values<V>,
                             state: V, program: InitProgram, steps: nat)
    requires var limits := Build(ramMb, cores);
             && Stageable(limits.maxSingleAlloc, values.toJson(state))
             && Loads(limits.memorySize, limits.maxTableElements, contract) && contract.hasMain && contract.hasInit
    ensures var m, json := GuestRuns.MachineOf(ramMb, cores), values.toJson(state).value;
            var start := GuestRuns.World([EncodeBytes(json)], contract.image, contract.table, exportsMemory);
            GuestInitOutcome(m, contract, exportsMemory, values, state, program, steps) ==
            EndOf(GuestRuns.RunFrom(program(0), m, start, [], steps), (o: Object) => InitResultOf(DecodeInit(o)))
  {
    hide Build, EndOf, GuestRuns.RunFrom, EncodeBytes, DecodeInit, InitResultOf;
  }
}
