/** The guest side of the SDK (`src/lib.rs`), written once over either host. */
module Sdk {
  import opened Bytes
  import opened Utf8
  import opened Borsh
  import opened ObjectHeap
  import opened Host
  import opened Mock
  import GuestRuns

  const MAX_DATA_SIZE := 10_000_000
  const OWNER_FLAG := 1

  const ERR_INIT_REJECTED := "Error running init contract data: "
  const ERR_EVENT_REJECTED := "Error running contract event: "
  const ERR_FINAL_STATE_SER := "Cannot serialize contract final state into JSON bytes"
  const ERR_RETURN_INIT_RESULT := "Cannot return init contract result"
  const ERR_RETURN_RESULT := "Cannot return contract result"

  datatype SdkError =
    | Serialization
    | Deserialization(details: Str)
    | MemoryLimitExceeded(requested: int)
    | HostAllocationFailed(requested: int)
    | IntegerOverflow(requested: int)

  /** Why a contract stopped without returning: a trap, or a panic of the test double. */
  datatype Halt = Trap(trap: GuestRuns.Trap) | TestPanic

  function HostHalt(e: ContractError): Halt { Trap(GuestRuns.HostTrap(e)) }

  /** What reading an argument yields, unless it halts the contract. */
  type Reading<+T, +E> = Result<Result<T, E>, Halt>

  // ---- The contract's own part: JSON and the callback ----

  /** JSON parsing and printing of a contract's types, the text of Borsh errors, and the bytes that
      `ContractResultData::error` puts in place of a state. */
  datatype Codec<!S, !E> = Codec(
    parseState: seq<byte> -> Result<S, Str>,
    printState: S -> Option<seq<byte>>,
    parseEvent: seq<byte> -> Result<E, Str>,
    borshError: seq<byte> -> Str,
    errorState: seq<byte>)

  datatype Context<E> = Context(event: E, isOwner: bool)

  datatype ContractResult<S> = ContractResult(state: S, success: bool, error: Str)

  type Callback<!S, !E> = (Context<E>, ContractResult<S>) -> ContractResult<S>

  type InitCallback<!S> = (S, InitData) -> InitData

  // ---- What a contract computes, said without memory or pointers ----

  function Decimal(n: int): Str
    decreases if n < 0 then 0 else n
  {
    var c: byte := 48 + n % 10;
    AsciiCharIsUtf8(c);
    if n < 10 then [c] else Concat(Decimal(n / 10), [c])
  }

  function Display(e: SdkError): Str {
    match e
    case Serialization => Text("Serialization error")
    case Deserialization(details) => Concat(Text("Deserialization error: "), details)
    case MemoryLimitExceeded(n) =>
      Concat(Concat(Text("Memory limit exceeded: requested "), Decimal(n)),
             Text(" bytes, maximum allowed is 10000000 bytes"))
    case HostAllocationFailed(n) =>
      Concat(Concat(Text("Host allocation failed: could not allocate "), Decimal(n)), Text(" bytes"))
    case IntegerOverflow(n) => Concat(Text("Integer overflow: "), Decimal(n))
  }

  /** The number that decimal digits stand for. */
  function DecimalValue(s: seq<byte>): int {
    if s == [] then 0 else 10 * DecimalValue(s[..|s| - 1]) + s[|s| - 1] - 48
  }

  lemma {:induction false} DecimalRoundTrip(n: nat)
    ensures DecimalValue(Decimal(n)) == n && Decimal(n) != [] && (n > 0 ==> Decimal(n)[0] != 48)
    ensures forall k :: 0 <= k < |Decimal(n)| ==> 48 <= Decimal(n)[k] <= 57
  {
    var c: byte := 48 + n % 10;
    if n < 10 {
      assert Decimal(n) == [c] && [c][..0] == [];
    } else {
      DecimalRoundTrip(n / 10);
      assert Decimal(n) == Decimal(n / 10) + [c];
      assert Decimal(n)[..|Decimal(n)| - 1] == Decimal(n / 10);
    }
  }

  /** The two errors of reading, as they appear in messages. */
  lemma ReadingErrorsSay(n: nat, details: Str)
    ensures Display(MemoryLimitExceeded(n)) ==
            Ascii("Memory limit exceeded: requested ") + Decimal(n) + Ascii(" bytes, maximum allowed is 10000000 bytes")
    ensures Display(Deserialization(details)) == Ascii("Deserialization error: ") + details
  {
    hide Text, Ascii, Decimal;
    TextIsAscii("Memory limit exceeded: requested ");
    TextIsAscii(" bytes, maximum allowed is 10000000 bytes");
    TextIsAscii("Deserialization error: ");
  }

  /** From the bytes of an argument, if they could be read, to its value. */
  function Decoded<T>(seen: Reading<seq<byte>, SdkError>, borshError: seq<byte> -> Str,
                      parse: seq<byte> -> Result<T, Str>, name: string): Reading<T, Str>
  {
    match seen
    case Err(halt) => Err(halt)
    case Ok(Err(e)) => Ok(Err(Concat(Text("Cannot read " + name + " from host memory: "), Display(e))))
    case Ok(Ok(bytes)) =>
      match DecodeData(bytes)
      case None =>
        Ok(Err(Concat(Text("Cannot deserialize " + name + ": "), Display(Deserialization(borshError(bytes))))))
      case Some(json) =>
        match parse(json)
        case Ok(v) => Ok(Ok(v))
        case Err(e) => Ok(Err(Concat(Text("Cannot parse " + name + " from JSON bytes: "), e)))
  }

  /** The state to start from: the current one, else the initial one. */
  function Start<S>(current: Result<S, Str>, initial: Result<S, Str>): Result<S, Str> {
    match current
    case Ok(s) => Ok(s)
    case Err(first) =>
      match initial
      case Ok(s) => Ok(s)
      case Err(second) => Err(Concat(Concat(first, Text("; fallback to init state also failed: ")), second))
  }

  /** The same from readings; the initial state is read only when the current one fails. */
  function StartState<S>(current: Reading<S, Str>, initial: Reading<S, Str>): Reading<S, Str> {
    match current
    case Err(halt) => Err(halt)
    case Ok(Ok(s)) => Ok(Ok(s))
    case Ok(Err(first)) => if initial.Err? then initial else Ok(Start(Err(first), initial.value))
  }

  /** Applies the callback and prints the state it leaves. */
  function Applied<S, E>(codec: Codec<S, E>, state: S, event: E, isOwner: bool, callback: Callback<S, E>)
    : Result<ResultData, Str>
  {
    var after := callback(Context(event, isOwner), ContractResult(state, false, []));
    match codec.printState(after.state)
    case None => Err(Text(ERR_FINAL_STATE_SER))
    case Some(bytes) =>
      Ok(ResultData(bytes, after.success,
                    if after.success then [] else Concat(Text(ERR_EVENT_REJECTED), after.error)))
  }

  /** What an execution computes from its three arguments as read. */
  function Interpret<S, E>(codec: Codec<S, E>, state: Reading<seq<byte>, SdkError>, init: Reading<seq<byte>, SdkError>,
                           event: Reading<seq<byte>, SdkError>, isOwner: bool, callback: Callback<S, E>)
    : Reading<ResultData, Str>
  {
    match StartState(Decoded(state, codec.borshError, codec.parseState, "State"),
                     Decoded(init, codec.borshError, codec.parseState, "Init State"))
    case Err(halt) => Err(halt)
    case Ok(Err(e)) => Ok(Err(e))
    case Ok(Ok(s)) =>
      match Decoded(event, codec.borshError, codec.parseEvent, "Event")
      case Err(halt) => Err(halt)
      case Ok(Err(e)) => Ok(Err(e))
      case Ok(Ok(e)) => Ok(Applied(codec, s, e, isOwner, callback))
  }

  function InterpretInit<S, E>(codec: Codec<S, E>, state: Reading<seq<byte>, SdkError>, callback: InitCallback<S>)
    : Reading<InitData, Str>
  {
    match Decoded(state, codec.borshError, codec.parseState, "State")
    case Err(halt) => Err(halt)
    case Ok(Err(e)) => Ok(Err(e))
    case Ok(Ok(s)) =>
      var check := callback(s, InitData(false, []));
      Ok(if check.success then Ok(InitData(true, [])) else Err(Concat(Text(ERR_INIT_REJECTED), check.error)))
  }

  /** `ContractResultData::error`. */
  function ErrorResult<S, E>(codec: Codec<S, E>, message: Str): ResultData {
    ResultData(codec.errorState, false, message)
  }

  /** Encodings that can be handed to the host allocator. */
  predicate Storable(bytes: Option<seq<byte>>) { bytes.Some? && |bytes.value| <= I32_MAX }

  /** What an entry point tries to deliver: the result, else an error result, or nothing when not
      even the error can be stored. */
  function Answer<T>(result: Result<T, Str>, onError: Str -> T, lost: string, serialize: T -> Option<seq<byte>>)
    : (answer: Option<T>)
    ensures answer.Some? ==> Storable(serialize(answer.value))
  {
    if result.Ok? && Storable(serialize(result.value)) then Some(result.value)
    else
      var error := onError(if result.Ok? then Text(lost) else result.error);
      if Storable(serialize(error)) then Some(error) else None
  }

  function ExecutionAnswer<S, E>(codec: Codec<S, E>, result: Result<ResultData, Str>): (answer: Option<ResultData>)
    ensures answer.Some? ==> Storable(SerializeResult(answer.value))
  {
    Answer(result, m => ErrorResult(codec, m), ERR_RETURN_RESULT, SerializeResult)
  }

  function InitAnswer(result: Result<InitData, Str>): (answer: Option<InitData>)
    ensures answer.Some? ==> Storable(SerializeInit(answer.value))
  {
    Answer(result, m => InitData(false, m), ERR_RETURN_INIT_RESULT, SerializeInit)
  }

  // ---- The two hosts behind the extern functions ----

  datatype Extern = Real(host: MemoryManager) | Test(mock: MockHost)

  function Repr(x: Extern): set<object> { if x.Real? then {x.host} else {x.mock} }

  /** What matters of a host's state. */
  datatype View =
    | RealView(caps: Caps, objs: seq<Object>)
    | TestView(memory: map<int, Object>, nextId: i32, forceAllocZero: bool)

  ghost function ViewOf(x: Extern): View
    reads Repr(x)
  {
    match x
    case Real(host) => RealView(host.caps, host.objs)
    case Test(mock) => TestView(mock.memory, mock.nextId, mock.forceAllocZero)
  }

  /** A host in working order; real ones are those of built machines, whose pointers fit an `i32`. */
  ghost predicate Ready(x: Extern)
    reads Repr(x)
  {
    match x
    case Real(host) => host.Valid() && host.caps.total < I32_LIMIT
    case Test(mock) => mock.Valid()
  }

  function Memory(v: View): map<int, Object> {
    match v
    case RealView(_, objs) => AsMap(objs)
    case TestView(memory, _, _) => memory
  }

  /** The length a contract is told for the object at `p`. */
  function LenSeen(v: View, p: i32): int {
    match v
    case RealView(_, objs) => if p in AsMap(objs) then |AsMap(objs)[p]| else -1
    case TestView(memory, _, _) => if p in memory then U32AsI32(|memory[p]| % U32_LIMIT) else 0
  }

  /** What the contract gets when it reads the object at `p`: the object, if its length is told right
      and within the limit. */
  function Seen(v: View, p: i32): Reading<seq<byte>, SdkError> {
    var len := LenSeen(v, p);
    if len > MAX_DATA_SIZE then Ok(Err(MemoryLimitExceeded(len)))
    else if len < 0 then Ok(Err(Deserialization(Text("Invalid negative length from host"))))
    else if p !in Memory(v) then Ok(Ok([]))
    else if len == |Memory(v)[p]| then Ok(Ok(Memory(v)[p]))
    else Err(TestPanic)
  }

  /** On the real host a contract sees exactly the objects of at most ten million bytes, and is told
      what is wrong with every other pointer; it never halts there. */
  lemma SeenOnReal(caps: Caps, objs: seq<Object>, p: i32)
    ensures var seen, heap := Seen(RealView(caps, objs), p), AsMap(objs);
            && (p in heap && |heap[p]| <= 10_000_000 ==> seen == Ok(Ok(heap[p])))
            && (p in heap && |heap[p]| > 10_000_000 ==> seen == Ok(Err(MemoryLimitExceeded(|heap[p]|))))
            && (p !in heap ==> seen == Ok(Err(Deserialization(Text("Invalid negative length from host")))))
  {
    hide AsMap, Text;
  }

  /** An argument has a value exactly when its bytes are the encoding of a text that parses to it; the
      message of a failure names the stage that failed, and the argument. */
  lemma DecodedIff<T>(seen: Reading<seq<byte>, SdkError>, borshError: seq<byte> -> Str, parse: seq<byte> -> Result<T, Str>,
                      name: string, v: T)
    ensures var r := Decoded(seen, borshError, parse, name);
            && (r == Ok(Ok(v)) <==> exists json :: SerializeData(json).Some? && seen == Ok(Ok(SerializeData(json).value))
                                                   && parse(json) == Ok(v))
            && (seen.Err? <==> r.Err?)
            && (seen.Ok? && seen.value.Err? ==>
                  && r.value.Err?
                  && r.value.error == Ascii("Cannot read " + name + " from host memory: ") + Display(seen.value.error))
            && (forall json :: SerializeData(json).Some? && seen == Ok(Ok(SerializeData(json).value)) && parse(json).Err? ==>
                  r.value.Err? && r.value.error == Ascii("Cannot parse " + name + " from JSON bytes: ") + parse(json).error)
            && (seen.Ok? && seen.value.Ok? && !(exists json :: SerializeData(json) == Some(seen.value.value)) ==>
                  && r.value.Err?
                  && r.value.error == Ascii("Cannot deserialize " + name + ": ")
                                      + (Ascii("Deserialization error: ") + borshError(seen.value.value)))
  {
    hide Text, Ascii, DecodeData, SerializeData;
    TextIsAscii("Cannot read " + name + " from host memory: ");
    TextIsAscii("Cannot parse " + name + " from JSON bytes: ");
    TextIsAscii("Cannot deserialize " + name + ": ");
    TextIsAscii("Deserialization error: ");
    if seen.Ok? && seen.value.Ok? {
      var bytes := seen.value.value;
      forall json ensures DecodeData(bytes) == Some(json) <==> SerializeData(json) == Some(bytes) {
        DecodeDataIff(bytes, json);
      }
    }
  }

  /** An object within the SDK's own limit is seen whole on either host. */
  lemma SmallObjectIsSeen(v: View, p: i32)
    requires p in Memory(v) && |Memory(v)[p]| <= MAX_DATA_SIZE
    ensures Seen(v, p) == Ok(Ok(Memory(v)[p]))
  {
    hide AsMap, Text;
  }

  /** `pointer_len`. */
  method PointerLen(x: Extern, p: i32) returns (len: i32)
    requires Ready(x)
    ensures len == LenSeen(ViewOf(x), p)
  {
    hide Flatten, AsMap, IndexOf, HeapInv;
    match x {
      case Real(host) =>
        PointerInHeap(host, p);
        len := GuestRuns.HostPointerLen(host, p);
      case Test(mock) =>
        len := mock.PointerLen(p);
    }
  }

  /** A pointer is tracked under the number the guest knows it by, and its whole object can be
      read in one call. */
  lemma PointerInHeap(host: MemoryManager, p: i32)
    requires host.Valid() && host.caps.total < I32_LIMIT
    ensures I32AsUsize(p) in host.Heap() <==> p in host.Heap()
    ensures p in host.Heap() ==>
              && 0 <= p && |host.Heap()[p]| < I32_LIMIT && |host.Heap()[p]| <= host.caps.single
              && ReadRange(host.objs, p, |host.Heap()[p]|) == Ok(host.Heap()[p])
  {
    KeysBelowSize(host.objs);
    if p in host.Heap() {
      var i := IndexOf(host.objs, p);
      ObjectInFlat(host.objs, i);
      assert |host.objs[i]| <= host.caps.single;
    }
  }

  /** `read_host_bytes` into a zeroed buffer of any length: on the real host that many bytes from
      `p` on, whoever they belong to; on the double the object, then zeros. */
  method ReadHostBytes(x: Extern, p: i32, len: nat) returns (r: Result<seq<byte>, Halt>)
    requires Ready(x) && len <= I32_MAX
    ensures x.Real? ==>
              r == if len > x.host.caps.single then Err(HostHalt(AllocationTooLarge(len, x.host.caps.single)))
                   else match ReadRange(x.host.objs, I32AsUsize(p), len)
                        case Err(e) => Err(HostHalt(e))
                        case Ok(bytes) => Ok(bytes)
    ensures x.Test? ==>
              r == if p !in x.mock.memory then Ok(Zeros(len))
                   else if |x.mock.memory[p]| > len then Err(TestPanic)
                   else Ok(Splice(Zeros(len), 0, x.mock.memory[p]))
  {
    hide Flatten, AsMap, IndexOf, HeapInv, Splice;
    var buffer := Zeros(len);
    match x {
      case Real(host) =>
        var response, filled := GuestRuns.HostRead(host, buffer, true, p, 0, len);
        match response {
          case Err(trap) => return Err(Trap(trap));
          case Ok(_) =>
            FullSplice(buffer, ReadRange(host.objs, I32AsUsize(p), len).value);
            return Ok(filled);
        }
      case Test(mock) =>
        var data := mock.ReadBytesIntoVec(p, buffer);
        match data {
          case None => return Err(TestPanic);
          case Some(bytes) => return Ok(bytes);
        }
    }
  }

  /** `get_from_context`. */
  method GetFromContext(x: Extern, p: i32) returns (r: Reading<seq<byte>, SdkError>)
    requires Ready(x)
    ensures r == Seen(ViewOf(x), p)
  {
    hide Flatten, AsMap, HeapInv, Text, ReadRange;
    var len := PointerLen(x, p);
    if len > MAX_DATA_SIZE {
      return Ok(Err(MemoryLimitExceeded(len)));
    }
    if len < 0 {
      return Ok(Err(Deserialization(Text("Invalid negative length from host"))));
    }
    if x.Real? {
      PointerInHeap(x.host, p);
    } else {
      WholeSplice(len, x.mock.memory, p);
    }
    var data := ReadHostBytes(x, p, len);
    match data {
      case Err(halt) => return Err(halt);
      case Ok(bytes) => return Ok(Ok(bytes));
    }
  }

  lemma WholeSplice(len: nat, memory: map<int, Object>, p: int)
    ensures p in memory && |memory[p]| == len ==> Splice(Zeros(len), 0, memory[p]) == memory[p]
    ensures len == 0 ==> Zeros(len) == []
    ensures p in memory && len == U32AsI32(|memory[p]| % U32_LIMIT) ==> len <= |memory[p]|
  {
  }

  /** `read_and_parse`. */
  method ReadAndParse<T>(x: Extern, borshError: seq<byte> -> Str, parse: seq<byte> -> Result<T, Str>,
                         p: i32, name: string) returns (r: Reading<T, Str>)
    requires Ready(x)
    ensures r == Decoded(Seen(ViewOf(x), p), borshError, parse, name)
  {
    hide Seen, Display, Text, Concat, DecodeData;
    var read := GetFromContext(x, p);
    match read {
      case Err(halt) => return Err(halt);
      case Ok(Err(e)) =>
        return Ok(Err(Concat(Text("Cannot read " + name + " from host memory: "), Display(e))));
      case Ok(Ok(bytes)) =>
        var data := DecodeData(bytes);
        if data.None? {
          var e := Deserialization(borshError(bytes));
          return Ok(Err(Concat(Text("Cannot deserialize " + name + ": "), Display(e))));
        }
        match parse(data.value) {
          case Err(e) => return Ok(Err(Concat(Text("Cannot parse " + name + " from JSON bytes: "), e)));
          case Ok(v) => return Ok(Ok(v));
        }
    }
  }

  datatype StoreResult = Stored(pointer: u32) | NotStored(error: SdkError) | StoreHalt(halt: Halt)

  /** What storing does: nothing, or one fresh object that holds exactly the bytes. On a real host
      where nothing is stored yet the object is at 0, is taken for a failure and stays empty. */
  function StoreEffect(v: View, bytes: Option<seq<byte>>): (StoreResult, View) {
    if bytes.None? then (NotStored(Serialization), v)
    else if |bytes.value| > I32_MAX then (NotStored(IntegerOverflow(|bytes.value|)), v)
    else
      var n := |bytes.value|;
      match v
      case RealView(caps, objs) =>
        (match AllocVerdict(caps, |Flatten(objs)|, n)
         case Err(e) => (StoreHalt(HostHalt(e)), v)
         case Ok(p) =>
           if p == 0 then (NotStored(HostAllocationFailed(n)), RealView(caps, AllocObjects(objs, n)))
           else if n == 0 then (StoreHalt(HostHalt(InvalidPointer(p))), v)
           else (Stored(p % U32_LIMIT), RealView(caps, objs + [bytes.value])))
      case TestView(memory, nextId, forceAllocZero) =>
        if forceAllocZero then (NotStored(HostAllocationFailed(n)), v)
        else if nextId == I32_MAX then (StoreHalt(TestPanic), v)
        else (Stored(I32AsU32(nextId)), TestView(memory[nextId := bytes.value], nextId + 1, forceAllocZero))
  }

  /** `store`. */
  method Store(x: Extern, bytes: Option<seq<byte>>) returns (r: StoreResult)
    requires Ready(x)
    modifies Repr(x)
    ensures Ready(x)
    ensures (r, ViewOf(x)) == StoreEffect(old(ViewOf(x)), bytes)
  {
    hide Flatten, HeapInv;
    if bytes.None? {
      return NotStored(Serialization);
    }
    if |bytes.value| > I32_MAX {
      return NotStored(IntegerOverflow(|bytes.value|));
    }
    match x {
      case Real(host) => r := StoreReal(host, bytes.value);
      case Test(mock) => r := StoreTest(mock, bytes.value);
    }
  }

  /** Allocation and write through the linker closures; the data is the linear memory they read. */
  method StoreReal(host: MemoryManager, data: seq<byte>) returns (r: StoreResult)
    requires Ready(Real(host)) && |data| <= I32_MAX
    modifies host
    ensures host.Valid()
    ensures (r, RealView(host.caps, host.objs)) == StoreEffect(RealView(host.caps, old(host.objs)), Some(data))
  {
    hide Flatten, AsMap, IndexOf, WriteObjects, AllAtMost;
    ghost var objs := host.objs;
    var granted := GuestRuns.HostAlloc(host, |data|);
    if granted.Err? {
      return StoreHalt(Trap(granted.error));
    }
    var raw := granted.value;
    if raw == 0 {
      return NotStored(HostAllocationFailed(|data|));
    }
    AllocKeepsInv(host.caps, objs, |data|);
    if data != [] {
      FillFresh(objs, data);
    }
    var written := GuestRuns.HostWrite(host, data, true, raw, 0, |data|);
    match written {
      case Err(trap) => return StoreHalt(Trap(trap));
      case Ok(_) =>
        assert data[0..|data|] == data;
        return Stored(I32AsU32(raw));
    }
  }

  /** Allocation and write through the test doubles. */
  method StoreTest(mock: MockHost, data: seq<byte>) returns (r: StoreResult)
    requires mock.Valid() && |data| <= I32_MAX
    modifies mock
    ensures mock.Valid()
    ensures (r, TestView(mock.memory, mock.nextId, mock.forceAllocZero)) ==
            StoreEffect(TestView(old(mock.memory), old(mock.nextId), old(mock.forceAllocZero)), Some(data))
  {
    ghost var before := mock.memory;
    var granted := mock.Alloc(|data|);
    if granted.None? {
      return StoreHalt(TestPanic);
    }
    var raw := granted.value;
    if raw == 0 {
      return NotStored(HostAllocationFailed(|data|));
    }
    mock.WriteBytesFromSlice(raw, data);
    assert before[raw := Zeros(|data|)][raw := data] == before[raw := data];
    return Stored(I32AsU32(raw));
  }

  // ---- The entry points ----

  /** How a contract call ends: with a pointer for the host, or halted. */
  datatype Exit = Exit(pointer: u32) | ExitHalt(halt: Halt)

  /** `store(error).unwrap_or(0)`. */
  function LastResort(v: View, bytes: Option<seq<byte>>): (Exit, View) {
    var (r, after) := StoreEffect(v, bytes);
    match r
    case Stored(p) => (Exit(p), after)
    case NotStored(_) => (Exit(0), after)
    case StoreHalt(halt) => (ExitHalt(halt), after)
  }

  /** What an entry point does with what the contract computed. */
  function Delivery<T>(v: View, result: Result<T, Str>, onError: Str -> T, lost: string,
                       serialize: T -> Option<seq<byte>>): (Exit, View)
  {
    match result
    case Err(message) => LastResort(v, serialize(onError(message)))
    case Ok(data) =>
      var (r, after) := StoreEffect(v, serialize(data));
      match r
      case Stored(p) => (Exit(p), after)
      case NotStored(_) => LastResort(after, serialize(onError(Text(lost))))
      case StoreHalt(halt) => (ExitHalt(halt), after)
  }

  /** Execution as a function of what the host holds. */
  function Execution<S, E>(codec: Codec<S, E>, v: View, state: i32, init: i32, event: i32, isOwner: bool,
                           callback: Callback<S, E>): (Exit, View)
  {
    match Interpret(codec, Seen(v, state), Seen(v, init), Seen(v, event), isOwner, callback)
    case Err(halt) => (ExitHalt(halt), v)
    case Ok(result) => Delivery(v, result, m => ErrorResult(codec, m), ERR_RETURN_RESULT, SerializeResult)
  }

  /** The init check as a function of what the host holds. */
  function InitExecution<S, E>(codec: Codec<S, E>, v: View, state: i32, callback: InitCallback<S>): (Exit, View) {
    match InterpretInit(codec, Seen(v, state), callback)
    case Err(halt) => (ExitHalt(halt), v)
    case Ok(result) => Delivery(v, result, m => InitData(false, m), ERR_RETURN_INIT_RESULT, SerializeInit)
  }

  datatype Attempt = Success(pointer: u32) | Failure(message: Str) | AttemptHalt(halt: Halt)

  /** How an attempt ends whose contract computed `result`, and the host afterwards. */
  function Attempted<T>(v: View, result: Reading<T, Str>, lost: string, serialize: T -> Option<seq<byte>>)
    : (Attempt, View)
  {
    match result
    case Err(halt) => (AttemptHalt(halt), v)
    case Ok(Err(message)) => (Failure(message), v)
    case Ok(Ok(data)) =>
      var (r, after) := StoreEffect(v, serialize(data));
      match r
      case Stored(p) => (Success(p), after)
      case NotStored(_) => (Failure(Text(lost)), after)
      case StoreHalt(halt) => (AttemptHalt(halt), after)
  }

  /** `try_execute_contract`. */
  method TryExecuteContract<S, E>(x: Extern, codec: Codec<S, E>, state: i32, init: i32, event: i32,
                                  isOwner: i32, callback: Callback<S, E>) returns (r: Attempt)
    requires Ready(x)
    modifies Repr(x)
    ensures Ready(x)
    ensures var v := old(ViewOf(x));
            (r, ViewOf(x)) == Attempted(v, Interpret(codec, Seen(v, state), Seen(v, init), Seen(v, event),
                                                     isOwner == 1, callback),
                                        ERR_RETURN_RESULT, SerializeResult)
  {
    hide Seen, Decoded, Applied, StoreEffect, SerializeResult, Text, Concat;
    var first := ReadAndParse(x, codec.borshError, codec.parseState, state, "State");
    var start: Result<S, Str>;
    match first {
      case Err(halt) => return AttemptHalt(halt);
      case Ok(Ok(s)) => start := Ok(s);
      case Ok(Err(e1)) =>
        var second := ReadAndParse(x, codec.borshError, codec.parseState, init, "Init State");
        match second {
          case Err(halt) => return AttemptHalt(halt);
          case Ok(Ok(s)) => start := Ok(s);
          case Ok(Err(e2)) =>
            return Failure(Concat(Concat(e1, Text("; fallback to init state also failed: ")), e2));
        }
    }
    var parsed := ReadAndParse(x, codec.borshError, codec.parseEvent, event, "Event");
    match parsed {
      case Err(halt) => return AttemptHalt(halt);
      case Ok(Err(e)) => return Failure(e);
      case Ok(Ok(e)) =>
        r := ApplyAndStore(x, codec, start.value, e, isOwner == OWNER_FLAG, callback);
    }
  }

  /** The second half of `try_execute_contract`: run the callback and store what it leaves. */
  method ApplyAndStore<S, E>(x: Extern, codec: Codec<S, E>, state: S, event: E, isOwner: bool,
                             callback: Callback<S, E>) returns (r: Attempt)
    requires Ready(x)
    modifies Repr(x)
    ensures Ready(x)
    ensures (r, ViewOf(x)) == Attempted(old(ViewOf(x)), Ok(Applied(codec, state, event, isOwner, callback)),
                                        ERR_RETURN_RESULT, SerializeResult)
  {
    hide StoreEffect, SerializeResult, Text, Concat;
    var contractResult := ContractResult(state, false, []);
    contractResult := callback(Context(event, isOwner), contractResult);
    var stateBytes := codec.printState(contractResult.state);
    if stateBytes.None? {
      return Failure(Text(ERR_FINAL_STATE_SER));
    }
    var message: Str := [];
    if !contractResult.success {
      message := Concat(Text(ERR_EVENT_REJECTED), contractResult.error);
    }
    var data := ResultData(stateBytes.value, contractResult.success, message);
    var stored := Store(x, SerializeResult(data));
    match stored {
      case Stored(p) => return Success(p);
      case NotStored(_) => return Failure(Text(ERR_RETURN_RESULT));
      case StoreHalt(halt) => return AttemptHalt(halt);
    }
  }

  /** The last resort of both entry points. */
  method StoreOrNull(x: Extern, bytes: Option<seq<byte>>) returns (exit: Exit)
    requires Ready(x)
    modifies Repr(x)
    ensures Ready(x)
    ensures (exit, ViewOf(x)) == LastResort(old(ViewOf(x)), bytes)
  {
    hide StoreEffect;
    var stored := Store(x, bytes);
    match stored {
      case Stored(p) => return Exit(p);
      case NotStored(_) => return Exit(0);
      case StoreHalt(halt) => return ExitHalt(halt);
    }
  }

  /** `execute_contract`, on either host and for any pointers. */
  method ExecuteContract<S, E>(x: Extern, codec: Codec<S, E>, state: i32, init: i32, event: i32,
                               isOwner: i32, callback: Callback<S, E>) returns (exit: Exit)
    requires Ready(x)
    modifies Repr(x)
    ensures Ready(x)
    ensures (exit, ViewOf(x)) ==
            Execution(codec, old(ViewOf(x)), state, init, event, isOwner == 1, callback)
  {
    hide Seen, Interpret, StoreEffect, LastResort, SerializeResult, Text;
    var attempt := TryExecuteContract(x, codec, state, init, event, isOwner, callback);
    match attempt {
      case Success(p) => return Exit(p);
      case AttemptHalt(halt) => return ExitHalt(halt);
      case Failure(message) => exit := StoreOrNull(x, SerializeResult(ErrorResult(codec, message)));
    }
  }

  /** `try_check_init_data`. */
  method TryCheckInitData<S, E>(x: Extern, codec: Codec<S, E>, state: i32, callback: InitCallback<S>)
    returns (r: Attempt)
    requires Ready(x)
    modifies Repr(x)
    ensures Ready(x)
    ensures var v := old(ViewOf(x));
            (r, ViewOf(x)) == Attempted(v, InterpretInit(codec, Seen(v, state), callback),
                                        ERR_RETURN_INIT_RESULT, SerializeInit)
  {
    hide Seen, Decoded, StoreEffect, SerializeInit, Text, Concat;
    var parsed := ReadAndParse(x, codec.borshError, codec.parseState, state, "State");
    match parsed {
      case Err(halt) => return AttemptHalt(halt);
      case Ok(Err(e)) => return Failure(e);
      case Ok(Ok(s)) =>
        var check := callback(s, InitData(false, []));
        if !check.success {
          return Failure(Concat(Text(ERR_INIT_REJECTED), check.error));
        }
        var stored := Store(x, SerializeInit(InitData(true, [])));
        match stored {
          case Stored(p) => return Success(p);
          case NotStored(_) => return Failure(Text(ERR_RETURN_INIT_RESULT));
          case StoreHalt(halt) => return AttemptHalt(halt);
        }
    }
  }

  /** `check_init_data`, on either host and for any pointer. */
  method CheckInitData<S, E>(x: Extern, codec: Codec<S, E>, state: i32, callback: InitCallback<S>)
    returns (exit: Exit)
    requires Ready(x)
    modifies Repr(x)
    ensures Ready(x)
    ensures (exit, ViewOf(x)) == InitExecution(codec, old(ViewOf(x)), state, callback)
  {
    hide Seen, InterpretInit, StoreEffect, LastResort, SerializeInit, Text;
    var attempt := TryCheckInitData(x, codec, state, callback);
    match attempt {
      case Success(p) => return Exit(p);
      case AttemptHalt(halt) => return ExitHalt(halt);
      case Failure(message) => exit := StoreOrNull(x, SerializeInit(InitData(false, message)));
    }
  }

  // ---- What delivery means ----

  /** A view of a host in which something is stored (the real one), or any view of the double. */
  predicate InUse(v: View) {
    match v
    case RealView(caps, objs) => HeapInv(caps, objs) && caps.total < I32_LIMIT && objs != []
    case TestView(_, nextId, _) => 1000 <= nextId
  }

  /** No object is under an id the double has yet to hand out; on the real host nothing to say. */
  predicate FreshAhead(v: View) { v.TestView? ==> forall p :: p in v.memory ==> p < v.nextId }

  datatype Verdict = Refused(halt: Halt) | Null | At(pointer: int)

  /** How the host answers a request for `n` bytes. */
  function VerdictOf(v: View, n: nat): Verdict {
    match v
    case RealView(caps, objs) =>
      (match AllocVerdict(caps, |Flatten(objs)|, n)
       case Err(e) => Refused(HostHalt(e))
       case Ok(p) => At(p))
    case TestView(_, nextId, forceAllocZero) =>
      if forceAllocZero then Null else if nextId == I32_MAX then Refused(TestPanic) else At(nextId)
  }

  /** What the host finds when a contract with these bytes to deliver is done: the bytes in a fresh
      object and everything else as before, or a halt, or the null pointer. */
  predicate Delivered(answer: Option<seq<byte>>, before: View, exit: Exit, after: map<int, Object>) {
    var verdict := if answer.None? then Null else VerdictOf(before, |answer.value|);
    match verdict
    case Null => exit == Exit(0) && after == Memory(before)
    case Refused(halt) => exit == ExitHalt(halt) && after == Memory(before)
    case At(p) =>
      && 0 < p < I32_LIMIT && exit == Exit(p) && after == Memory(before)[p := answer.value]
      && (FreshAhead(before) ==> p !in Memory(before))
  }

  /** Storing into a host in use delivers the bytes, and a null pointer is never mistaken for an
      object or an object for a null pointer. */
  lemma StoreDelivers(v: View, bytes: Option<seq<byte>>)
    requires InUse(v) && Storable(bytes) && bytes.value != []
    ensures var (exit, after) := LastResort(v, bytes);
            Delivered(bytes, v, exit, Memory(after))
    ensures StoreEffect(v, bytes).0.NotStored? <==> VerdictOf(v, |bytes.value|).Null?
    ensures StoreEffect(v, bytes).0.NotStored? ==> StoreEffect(v, bytes).1 == v
  {
    hide Flatten, AsMap, AllAtMost;
    match v {
      case RealView(caps, objs) =>
        NullAllocationIff(caps, objs, |bytes.value|);
        if AllocVerdict(caps, |Flatten(objs)|, |bytes.value|).Ok? {
          AllocKeepsInv(caps, objs, |bytes.value|);
          FlattenSnoc(objs, bytes.value);
        }
      case TestView(_, _, _) =>
    }
  }

  /** Delivery into a host in use: the answer, if there is one that can be stored. */
  lemma DeliveryIsAnswer<T(!new)>(v: View, result: Result<T, Str>, onError: Str -> T, lost: string,
                            serialize: T -> Option<seq<byte>>)
    requires InUse(v) && forall t :: serialize(t).Some? ==> serialize(t).value != []
    ensures var answer := Answer(result, onError, lost, serialize);
            var (exit, after) := Delivery(v, result, onError, lost, serialize);
            Delivered(if answer.Some? then serialize(answer.value) else None, v, exit, Memory(after))
  {
    hide Memory, VerdictOf, Delivered, InUse, Text;
    var error := onError(if result.Ok? then Text(lost) else result.error);
    if result.Ok? && Storable(serialize(result.value)) {
      StoreDelivers(v, serialize(result.value));
    }
    if Storable(serialize(error)) {
      StoreDelivers(v, serialize(error));
    }
    NothingToDeliver(v, serialize(error));
    if result.Ok? {
      NothingToDeliver(v, serialize(result.value));
      if Storable(serialize(result.value)) && VerdictOf(v, |serialize(result.value).value|).Null? {
        NullIsFinal(v, serialize(result.value).value, serialize(error));
      }
    }
  }

  lemma NothingToDeliver(v: View, bytes: Option<seq<byte>>)
    ensures !Storable(bytes) ==> StoreEffect(v, bytes).0.NotStored? && StoreEffect(v, bytes).1 == v
    ensures Delivered(None, v, Exit(0), Memory(v))
  {
  }

  /** A host that refuses one request with the null pointer refuses every request so. */
  lemma NullIsFinal(v: View, answer: seq<byte>, bytes: Option<seq<byte>>)
    requires VerdictOf(v, |answer|).Null?
    ensures LastResort(v, bytes) == (Exit(0), v)
    ensures Delivered(Some(answer), v, Exit(0), Memory(v))
  {
  }

  lemma EncodingsNotEmpty()
    ensures forall d: ResultData :: SerializeResult(d).Some? ==> SerializeResult(d).value != []
    ensures forall i: InitData :: SerializeInit(i).Some? ==> SerializeInit(i).value != []
  {
  }

  /** Where nothing is stored yet the null test misfires: the contract's own result is lost although
      the host had room for it, and an error is delivered in its place. */
  lemma EmptyHeapLosesResult<T>(caps: Caps, data: T, onError: Str -> T, lost: string,
                                serialize: T -> Option<seq<byte>>)
    requires Storable(serialize(data)) && serialize(data).value != []
    requires |serialize(data).value| <= caps.single && |serialize(data).value| <= caps.total
    ensures Delivery(RealView(caps, []), Ok(data), onError, lost, serialize) ==
            LastResort(RealView(caps, [Zeros(|serialize(data).value|)]), serialize(onError(Text(lost))))
  {
    hide LastResort, Text;
    NothingStored();
    assert [] + [Zeros(|serialize(data).value|)] == [Zeros(|serialize(data).value|)];
  }
}
