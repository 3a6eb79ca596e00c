# Verified model of the Ave contract host/guest boundary

This project models how an Ave Ledger node and a contract exchange data: the host memory manager
and its four imports, the reader that gates modules by their declared memory, the limits derived
from a machine, the staging of arguments and decoding of results, and the guest SDK. It proves
what the two sides together compute, on every machine of a fleet.

`dafny verify dfyconfig.toml` checks everything.

| file | models |
|---|---|
| `Bytes.dfy`, `Limits.dfy` | machine integers and pointer casts; `WasmLimits::build` |
| `Uleb.dfy`, `WasmModule.dfy` | the LEB128 reader, the section walker, the grammar they decide, the memory gate of `compile` |
| `ObjectHeap.dfy`, `Host.dfy` | the abstract heap of objects, and `MemoryManager` as a class that implements it |
| `GuestRuns.dfy` | runs of arbitrary guests against the linker closures |
| `Borsh.dfy` | UTF-8 text and the Borsh encodings |
| `Imports.dfy` | the import check |
| `Mock.dfy`, `Sdk.dfy` | the test double of the host, and the guest SDK over either host |
| `Runtime.dfy`, `Node.dfy` | staging, result decoding, and the end-to-end results |
| `Reports.dfy` | what a node reports in each case, in the terms of a contract's author |
| `SdkGuest.dfy` | an SDK contract as an arbitrary guest that grows its own linear memory |

## Main results

- **End to end** (`Runtime.ExecuteInner`). For every value, owner flag, contract and machine, staging,
  instantiation, the SDK guest over the flat memory manager, and decoding return exactly what a
  function without memory, pointers or encodings says (`Runtime.Expected`). What is left of the
  machine is sizes. `Runtime.OnlyCapacityFailures` and `Runtime.SdkFleetDeterminism` follow.
- **What that meaning is** (`Reports.dfy`). An event is reported as applied exactly when the contract
  runs, has a state (the current one if it parses, else the initial one) and an event, and its callback
  accepts and leaves a state that prints, fits both caps and parses back (`Reports.AppliedIff`). A
  rejection, an unreadable argument, a refused staging or module each come with their own message or
  error (`Reports.CallbackReported`, `Reports.NoStateReported`, `Reports.NoEventReported`,
  `Reports.ExecutionRefused`). `Node.Validate` accepts exactly when imports, size, limits, both entry
  points and the callback are in order.
- **The SDK is a guest like any other** (`SdkGuest.SdkContractIsGuest`). Written as a program that sees
  only host answers and a linear memory it must grow for every buffer, an SDK contract run through the
  closures on any machine gives that same `Runtime.Expected`, or traps for want of linear memory, and
  this exactly when image and buffers together exceed the store limit.
- **Arbitrary guests.** A guest is any deterministic program that sees all answers and its whole
  linear memory. Over runs of any length: one machine simulates another until the smaller one lacks
  capacity, exactly when RAM and cores are both ordered (`GuestRuns.FleetSimulationIff`); objects
  never move, shrink or disappear, allocations never overlap and are never null, an object not
  written to is unchanged, and memory grows by exactly the bytes granted. `GuestRuns.RunOnHost` ties
  these runs, step by step, to the class with its flat vector and length table. For whole nodes
  `Node.NodesAgreeIff` says the same of outcomes: they agree on all contracts and programs, up to
  lack of capacity, exactly when RAM and cores are ordered.
- **The module reader decides a grammar** (`WasmModule.DeclaredMinIff`): it answers exactly on the
  bytes of modules and with the largest declared minimum; the grammar is unambiguous, truncation is
  detected, and the printer round-trips. Whatever count a section claims, the numbers read over both
  loops are never more than the bytes after the header (`WasmModule.DeclaredMinMemoryBytes`). The bytes
  are a module of the format exactly when no number in them is too large (`WasmModule.FormatModuleIff`).
- **Two hosts, one answer** (`Node.RunOnBothHosts`, `Node.RunInitOnBothHosts`): the test double
  returns the bytes of the contract's meaning, and a node the same bytes exactly when it has room.

Findings, where the code differs from what one may expect (the model follows the code):

- More RAM does not make a node larger. Cores decide the table limit, so a contract with a table of
  1000 elements succeeds on 512 MB and 8 cores and is refused on a terabyte and 2 cores
  (`Node.MoreRamCanAnswerLess`). The exact conditions are `Node.NodesAgreeIff` for outcomes and
  `GuestRuns.FleetSimulationIff` for runs.
- `read_uleb` says it returns `None` on overflow (`src/runtime/config.rs:116`). It bounds the length
  of an encoding only; the top three value bits of a fifth byte are dropped.
  `Uleb.OversizedIsReadAsZero` is an instance and `Uleb.ReaderAgreesWithFormatIff` the exact condition.
  For whole modules the gate lets 2^32 pages through (`WasmModule.GateUnderReads`) and judges bytes that
  the format rejects for a section size above 2^32 (`WasmModule.GateJudgesMalformed`); the exact
  conditions are `WasmModule.FormatModuleIff` and `WasmModule.DeclaredMinIsTrueIff`.
- Host `read_bytes` is not confined to the object at its pointer, and serves pointers that no
  allocation returned. `Host.ReadCrossesObjects` and `GuestRuns.InteriorPointerIsServed` are
  instances and `Host.ReadConfinedIff` the exact condition.
- The table-size product (`src/runtime/config.rs:70`) can wrap: `Limits.TableElementsCanWrap`, with
  the exact condition in `Limits.TableElementsInRangeIff`.
- `README.md:139` reserves the pointer 0 for a failed allocation. The real host traps instead, and 0
  is the address of the first allocation (`Host.NullAllocationIff`). On a host where nothing is staged
  the SDK would take its own result for a failure (`Sdk.EmptyHeapLosesResult`). With a staged argument
  at 0 it never does (`Sdk.StoreDelivers`), and a returned 0 is refused because that argument never
  decodes as an execution result (`Borsh.StagedIsNoResult`), and as an init-check result only if it is
  a single NUL byte (`Borsh.StagedIsInitIff`), which JSON never is.

- A rejected initial state is not always refused: a rejection whose encoding exceeds 2^31 - 1 bytes is
  replaced by the null pointer, and where the state is a single NUL byte that reads as an acceptance.
  `Node.InitReported` gives the exact condition; no JSON text is that byte.

Assumptions: the host is a 64-bit machine; JSON parsing and printing, the text of serde and Borsh
errors, and the bytes `ContractResultData::error` uses for a state are parameters; callbacks are pure
functions; Borsh field order is that of the literals at `src/lib.rs:283-291` and
`src/tests.rs:792-795`, since the types live in ave-common, which is not part of this model.

## Model

| member | source | states |
|---|---|---|
| Runtime.ExecuteInner | src/runtime/contract_runtime.rs:290-382 | for every input, contract and machine the node returns exactly the memory-free meaning of the contract, or the staging, instantiation, capacity or decoding error that meaning and the sizes determine; the `Reports` rows say which |
| Reports.AppliedIff | src/lib.rs:259-293 | success is reported iff everything is staged, the module loads and has `main_function`, a state and the event parse, the callback accepts, and its state prints, fits both caps and parses back |
| Reports.CallbackReported | src/lib.rs:271-292 | the callback runs on the current state if that parses, whatever the initial one is, else on the initial one; its state and verdict are reported as they are and its message behind the rejection prefix, empty iff it accepts |
| Reports.NoStateReported | src/lib.rs:271-275 | if neither state parses a failure with both messages is reported and the callback plays no part |
| Reports.NoEventReported | src/lib.rs:276-276 | if a state parses and the event does not, a failure with that message is reported |
| Reports.ExecutionRefused | src/runtime/contract_runtime.rs:298-316 | the first argument that cannot be staged decides the error; else a second memory or table, a limit, or a missing `main_function`, iff that is so; `init_check_function` never matters |
| Reports.RunReported | src/runtime/contract_runtime.rs:520-545 | of any run: its trap, the untracked pointer it returned, or field by field the result whose encoding it left there; nothing else gives a result |
| Reports.InitRunReported | src/runtime/contract_runtime.rs:502-518 | of any init-check run: accepted iff an acceptance was left under the returned pointer; a rejection with its own message |
| Reports.GuestReported | src/runtime/contract_runtime.rs:298-326 | any program starts on the three encodings, with their addresses and 1 or 0 for the owner, and is reported as its run ended |
| Reports.GuestInitReported | src/runtime/contract_runtime.rs:226-252 | any init check starts on the encoded state at 0 and is reported as its run ended |
| Runtime.SdkFleetDeterminism | src/runtime/config.rs:158-165 | of two machines ordered in RAM steps and table limit the larger returns the same result for an SDK contract unless the smaller failed for capacity |
| SdkGuest.SdkContractIsGuest | src/lib.rs:241-293 | an SDK contract run as a guest with its own linear memory gives what `Runtime.ExecuteInner` gives, or a refused growth, the latter iff image and buffers exceed the store limit |
| SdkGuest.ContractPhase | src/lib.rs:259-293 | from any working world with three staged objects the run ends with the encoding of the contract's meaning as one new object, as the host allocator decides, or traps iff the buffers do not fit |
| SdkGuest.ReadPhase | src/lib.rs:357-364 | reading a tracked object brings exactly its bytes into fresh linear memory and changes nothing else, unless there is no room |
| SdkGuest.StorePhase | src/lib.rs:394-410 | storing adds exactly one object with the bytes and returns its non-null pointer, or traps as the allocator or the store limit decides |
| SdkGuest.QuarterImageSuffices | src/runtime/config.rs:49-80 | with an image of at most a quarter of linear memory, a state that parses and an answer of at most one allocation, the buffers always fit |
| Runtime.OnlyCapacityFailures | src/runtime/host.rs:42-68 | a contract run fails only in (de)serialisation, for a missing entry point, for a second memory or table, or at a limit of the machine; invalid pointers and out-of-bounds writes never occur |
| Runtime.WriteContractData | src/runtime/contract_runtime.rs:448-470 | prefix and payload written piecemeal leave one new object that is the one-shot Borsh encoding; on failure nothing changes |
| Runtime.StageValue | src/runtime/contract_runtime.rs:434-480 | with fewer than three values staged only the value's own size or printing can be at fault, never the total cap |
| Runtime.GenerateExecutionContext | src/runtime/contract_runtime.rs:482-500 | staging succeeds on every machine iff each framed argument fits one allocation; the heap is then the three encodings, at the running totals |
| Runtime.GetExecutionResult | src/runtime/contract_runtime.rs:520-545 | a result iff the object at the pointer is the encoding of one whose final state parses, and then with that state, verdict and message; which error otherwise |
| Runtime.CheckInitResult | src/runtime/contract_runtime.rs:502-518 | accepted iff the object at the pointer is the encoding of an acceptance; a rejection carries the stored message; which error otherwise |
| Runtime.Instantiate | src/runtime/contract_runtime.rs:233-248 | counts, sizes, `main_function` and, where needed, `init_check_function` decide in that order, each error iff its cause |
| Runtime.StagedMeaning | src/lib.rs:312-322 | the read, deserialize and parse chain over staged pointers yields the payloads on every machine size, tripping no length limit |
| Runtime.StagedExecution | src/lib.rs:241-293 | a contract run on three staged arguments delivers the bytes of its meaning in a fresh object, all staged objects unchanged, or halts at a cap |
| Runtime.DeliveredIsRetrieved | src/runtime/contract_runtime.rs:356-379 | whatever a contract delivered the host retrieves: the very result, the trap, or a refusal of the null pointer |
| Node.CheckInitialState | src/runtime/contract_runtime.rs:226-256 | the init check returns exactly the memory-free meaning, including what happens when the contract returns the null pointer |
| Node.GenerateContext | src/runtime/contract_runtime.rs:472-480 | the proposed state is staged alone, at 0, iff its framed size fits one allocation |
| Node.Validate | src/runtime/contract_runtime.rs:171-256 | accepted iff the imports are exactly the SDK's, the state fits, the module loads with both entry points and the callback accepts; an inexact import list is refused with an error that blames the first offender or names what is missing; a missing entry point is named |
| Node.InitReported | src/lib.rs:169-182 | an init check that runs is accepted iff the state parses and the callback accepts (or a rejection too long to encode meets a NUL byte); a rejection comes with the prefix and the callback's message if that fits one allocation |
| Node.InitRefused | src/runtime/contract_runtime.rs:226-248 | no acceptance without staging, limits and both entry points; each missing entry point is named iff it is the first missing |
| Node.ExecuteGuest | src/runtime/contract_runtime.rs:290-382 | any guest at all, staged, instantiated under the limits and run on the flat memory manager, ends as its run over abstract objects does |
| Node.GuestFleetDeterminism | src/runtime/config.rs:158-165 | for any program, of two machines ordered in every limit the larger returns what the smaller returns unless the smaller lacks capacity |
| Node.StagedWorldInv | src/runtime/contract_runtime.rs:482-500 | a contract that instantiates starts on its staged arguments in a world that satisfies what every run keeps |
| Node.NodesAgreeIff | src/runtime/config.rs:158-165 | two nodes agree up to lack of capacity on every contract, program, value and number of steps iff their RAM steps and table limits are ordered |
| Node.UnorderedNodesDiffer | src/runtime/config.rs:49-80 | for any two nodes that are not ordered, a contract that succeeds on the first and does not instantiate on the second |
| Node.MoreRamCanAnswerLess | src/runtime/config.rs:70-70 | a contract that succeeds on 512 MB and 8 cores and is refused on a terabyte and 2 cores |
| Node.GatedModuleStarts | src/runtime/contract_runtime.rs:99-113 | on any machine a module that passes the gate instantiates with its declared memory iff it has at most one memory and one table and the table fits the machine, and then starts in a world that satisfies what every run keeps |
| Node.NullReturnIsRefused | src/runtime/contract_runtime.rs:520-533 | on every machine a program that returns 0 without having written there gets a serialization error |
| Node.CheckGuestInit | src/runtime/contract_runtime.rs:226-256 | any init check at all, run on the flat memory manager, ends as its run over abstract objects does |
| Node.GuestInitFleetDeterminism | src/runtime/config.rs:158-165 | fleet determinism for arbitrary init checks |
| Node.NullInitReturnIsRefusedIff | src/runtime/contract_runtime.rs:502-518 | an init check that returns 0 without having written there is refused, unless the state is the single byte 0 |
| Node.RunOnBothHosts | src/externf.rs:79-143 | whenever a node gets to run the contract, the double returns the bytes of the contract's meaning, and the node the same bytes iff it has room, else none |
| Node.RunInitOnBothHosts | src/externf.rs:79-143 | the same for the init check |
| Node.RunOnNode | src/runtime/contract_runtime.rs:298-326 | the staging or instantiation error if there is one; else the bytes found at the returned pointer are those of the contract's meaning iff the caps leave room for them |
| Node.RunInitOnNode | src/runtime/contract_runtime.rs:226-252 | the same for the init check, which needs both entry points |
| Node.RunOnTest | src/externf.rs:79-143 | on the double, for arguments of any size, the result is the encoding of what the SDK makes of them as seen there |
| Node.TestMeaningIsMeaning | src/lib.rs:325-338 | for arguments within the SDK's limit that is the contract's meaning |
| Node.DoubleFault | src/lib.rs:253-256 | when no allocation succeeds every contract returns 0 and stores nothing, or panics on an object of 2 GiB or more |
| GuestRuns.FleetSimulation | src/runtime/host.rs:197-297 | two machines ordered in every limit run any guest to the same last byte, or the smaller one trapped for capacity after a prefix of the larger run |
| GuestRuns.FleetSimulationIff | src/runtime/config.rs:49-80 | built machines simulate one another, for all guests and all worlds with something staged that the first can hold, iff the RAM steps and the core-given table limits are both ordered |
| GuestRuns.FleetDeterminism | src/runtime/config.rs:158-165 | with more RAM and at least as many cores a run that completes on the smaller node is identical on the larger |
| GuestRuns.RunKeepsInv | src/runtime/host.rs:42-163 | every reachable heap tiles memory within both caps and keeps all earlier objects in place and length; linear memory and table stay within the store limits |
| GuestRuns.ExtendsKeepsBases | src/runtime/host.rs:49-67 | the pointer of an object is the same in every later heap |
| GuestRuns.AllocationsNeverNull | src/lib.rs:401-409 | after staging every allocation of every run is non-zero, survives all casts, and overlaps neither the staged bytes nor another allocation |
| GuestRuns.UnwrittenObjectKept | src/runtime/host.rs:104-124 | over any run an object that is never the target of a write keeps its contents |
| GuestRuns.RunConservesBytes | src/runtime/host.rs:49-67 | over any run memory grows by exactly the bytes that allocations were granted |
| GuestRuns.TableBounded | src/runtime/host.rs:60-66 | the length table never has more entries than memory has bytes, however many empty allocations are made |
| GuestRuns.PointerLenFaithful | src/runtime/host.rs:204-206 | the guest learns the true length of a tracked object and -1 for any other pointer, negative ones included |
| Bytes.CastsKeepBits | src/runtime/host.rs:204-223 | pointers are sign-extended on the way to the host and truncated on the way back, and survive the round trip |
| GuestRuns.ReadDelivers | src/runtime/host.rs:234-256 | reading by the reported length copies exactly the object into an exported linear memory |
| GuestRuns.ReadIs | src/runtime/host.rs:234-256 | for every pointer, destination and length which check refuses, and else which host byte is at which place of linear memory |
| GuestRuns.WriteIs | src/runtime/host.rs:267-289 | for every pointer, source and length which check refuses, and else the one object that changes and its new bytes |
| GuestRuns.GrowthIs | src/runtime/host.rs:25-32 | growth is refused iff it exceeds the store limit; else zeroed pages follow the old memory and their index is returned |
| GuestRuns.TableGrowthIs | src/runtime/host.rs:25-32 | the same for tables |
| GuestRuns.InteriorPointerIsServed | src/runtime/host.rs:204-256 | a pointer of unknown length that `read_bytes` serves from inside an object |
| GuestRuns.HostAlloc | src/runtime/host.rs:217-223 | the closure grows the object heap by one step or traps where the manager refuses |
| GuestRuns.HostRead | src/runtime/host.rs:234-256 | length check, host range, memory export and linear range decide in that order; then the range is copied |
| GuestRuns.HostWrite | src/runtime/host.rs:267-289 | length check, memory export, linear range and object decide in that order; then one object is updated |
| GuestRuns.HostCall | src/runtime/host.rs:200-294 | each linker closure over the flat manager, with its casts and traps, and each growth under the store limits, is one step over objects |
| GuestRuns.RunOnHost | src/runtime/contract_runtime.rs:318-326 | driving any guest against the flat manager is its run over objects, status, memory and events alike |
| Host.MemoryManager.FromLimits | src/runtime/host.rs:21-36 | a new manager is an empty heap with the caps and the store limits of the machine |
| Host.MemoryManager.Alloc | src/runtime/host.rs:42-68 | adds one fresh zeroed object at an unused pointer and changes no other, or reports which cap refused and changes nothing; empty allocations stay untracked |
| Host.MemoryManager.ReadData | src/runtime/host.rs:74-87 | exactly the object at a tracked pointer; the inner bounds checks never fire |
| Host.MemoryManager.ReadBytes | src/runtime/host.rs:90-98 | any range inside the concatenated objects |
| Host.MemoryManager.WriteBytes | src/runtime/host.rs:104-124 | overwrites the start of its own object only, within its length |
| Host.MemoryManager.WriteBytesAt | src/runtime/host.rs:131-156 | succeeds iff the range lies in the object and overwrites just that range; otherwise which error, and no change |
| Host.MemoryManager.AddDataRaw | src/runtime/host.rs:159-163 | adds one object holding exactly the bytes |
| Host.MemoryManager.GetPointerLen | src/runtime/host.rs:166-168 | the object's length, or -1 |
| Host.CheckedGuestLen | src/runtime/host.rs:182-194 | accepts exactly lengths between 0 and the single cap, unchanged |
| Host.NullAllocationIff | src/runtime/host.rs:42-68 | an allocation is at 0 iff it is granted and nothing is stored yet |
| Host.ReadConfinedIff | src/runtime/host.rs:90-98 | for any pointer and length a successful read stays in one object iff an object covers the range, uniquely, and in the object named iff that is tracked and holds as much |
| Host.ReadServedFromIff | src/runtime/host.rs:90-98 | every byte of a read belongs to a given object iff that covers the range, and then the bytes are that part of it |
| Host.ReadCrossesObjects | src/runtime/host.rs:90-98 | a read that is served from the next object, and one from an untracked pointer |
| Host.WriteKeepsInv | src/runtime/host.rs:104-156 | a write in the flat memory is an update of one object of the map and keeps the invariant |
| Host.AllocKeepsInv | src/runtime/host.rs:42-68 | growing the flat memory is adding one object of the map and keeps the invariant |
| ObjectHeap.Partition | src/runtime/host.rs:10-17 | the tracked ranges partition memory: each address lies in exactly one object |
| ObjectHeap.ReplaceObject | src/runtime/host.rs:122-122 | replacing an object changes its own bytes of the concatenation and nothing else |
| Uleb.ReadUleb | src/runtime/config.rs:117-128 | the shift-and-or loop computes the base-128 sum mod 2^32 of the one encoding the input starts with, and where the cursor stops |
| Uleb.ParseUlebIff | src/runtime/config.rs:117-128 | success with a value and length iff the input starts with that encoding |
| Uleb.ParseUlebSucceedsIff | src/runtime/config.rs:117-128 | success iff a byte with clear high bit occurs among the next five available |
| Uleb.UlebRoundTrip | src/runtime/config.rs:117-128 | every u32, encoded and followed by anything, is read back with exactly its bytes consumed |
| Uleb.ReaderAgreesWithFormatIff | src/runtime/config.rs:116-127 | the value read is the number denoted iff a fifth byte, if any, is below 16 |
| Uleb.OversizedIsReadAsZero | src/runtime/config.rs:116-127 | five bytes that denote 2^32 are read as 0 |
| WasmModule.DeclaredMinIff | src/runtime/config.rs:109-151 | Some(v) iff the bytes are header and tiling sections with decodable memory entries and v is 65536 times the largest minimum |
| WasmModule.DeclaredMinOf | src/runtime/config.rs:150-150 | on modules the page product never saturates |
| WasmModule.DeclaredMinIsTrueIff | src/runtime/config.rs:109-151 | the bytes are a module of the format and the answer is what its numbers denote iff no size, count, flags, minimum or maximum has a fifth byte of 16 or more; on every module of the format the answer is true |
| WasmModule.FormatModuleIff | src/runtime/config.rs:105-107 | bytes the reader answers on are a module of the format, all numbers below 2^32, iff no number has a fifth byte of 16 or more |
| WasmModule.GateUnderReads | src/runtime/contract_runtime.rs:104-113 | a module that denotes 2^32 pages and passes the gate as if it declared none |
| WasmModule.GateJudgesMalformed | src/runtime/contract_runtime.rs:104-113 | bytes with a section size above 2^32, which are no module of the format, that the gate refuses for their memory |
| WasmModule.ModuleUnique | src/runtime/config.rs:130-149 | the same bytes are never two different modules |
| WasmModule.TruncationDetected | src/runtime/config.rs:129-150 | a cut module is read iff the cut is at a section boundary, and then yields the prefix's maximum, never a larger one |
| WasmModule.PrintThenRead | src/runtime/config.rs:129-150 | printing any list of sections and reading it yields the true largest minimum |
| WasmModule.ReadEntry | src/runtime/config.rs:140-144 | one entry with its optional maximum, read in place, and how many numbers that takes |
| WasmModule.ReadEntries | src/runtime/config.rs:137-146 | the entry loop, with the cursor never past the body and exactly the reads of the entries up to the first failure |
| WasmModule.DeclaredMinMemoryBytes | src/runtime/config.rs:109-151 | the nested loops compute the reader function; the numbers they read are counted exactly and are never more than the bytes after the header, whatever count a section claims |
| WasmModule.EntriesReads | src/runtime/config.rs:137-146 | for any claimed count the entry loop reads at most as many numbers as the body has bytes |
| WasmModule.SectionsReads | src/runtime/config.rs:129-149 | over all sections the reads are at most as many as the bytes |
| WasmModule.CompileGate | src/runtime/contract_runtime.rs:104-113 | refuses iff the bytes are a module whose largest minimum exceeds the fleet floor; the verdict depends on the bytes alone |
| WasmModule.LiteralModules | src/runtime/contract_runtime.rs:104-113 | thirteen bytes that declare 65 pages are refused for 4259840 bytes, and with 64 pages pass with 4194304 |
| WasmModule.FlagBitDecides | src/runtime/config.rs:140-144 | for all one-byte flags and minimums, only the lowest flag bit asks for a maximum, whose absence then makes the module unreadable |
| WasmModule.AnswersOnlyOnVersionOne | src/runtime/config.rs:110-114 | whatever gets an answer starts with the magic number and version 1 |
| WasmModule.GateIsFleetWide | src/runtime/config.rs:91-100 | a module passes the gate iff the memory it declares fits the linear memory of every machine |
| Limits.BuildClosedForm | src/runtime/config.rs:49-80 | limits are 4k, 3k and k MiB with k = clamp(ram/512, 1, 8), for every u64, and three single allocations fill the total |
| Limits.LimitsInNumbers | src/runtime/config.rs:49-80 | every limit in numbers: memory by RAM in 512 MB steps between 1 and 8, 256 table elements a core between 512 and 2048 and wrapped beyond, a stack of 1 MiB |
| Limits.FleetOrderedIff | src/runtime/config.rs:49-80 | RAM steps and table limits are ordered iff all four limits of the built machines are |
| Limits.OrderedByRamAndCores | src/runtime/config.rs:49-80 | more RAM and at least as many cores, short of the wrapping range, order every limit |
| Limits.TableElementsInRangeIff | src/runtime/config.rs:70-70 | table sizes stay in 512..2048 iff the core count modulo 2^56 is at least two |
| Limits.TableElementsCanWrap | src/runtime/config.rs:70-70 | a core count for which the product wraps to zero |
| Limits.TableElementsMonotone | src/runtime/config.rs:70-70 | within the non-wrapping range table sizes are monotone in cores |
| Borsh.DecodeResultIff | src/runtime/contract_runtime.rs:528-533 | bytes decode as a result iff they are its encoding: round trip, injectivity and canonicity in one |
| Borsh.DecodeInitIff | src/runtime/contract_runtime.rs:507-512 | the same for init-check results |
| Borsh.DecodeDataIff | src/lib.rs:296-303 | the same for contract data |
| Borsh.ResultLayout | src/lib.rs:283-291 | place by place: final state behind its little-endian length, flag, message behind its length |
| Borsh.InitLayout | src/tests.rs:792-795 | place by place: flag, message behind its length |
| Borsh.DataLayout | src/runtime/contract_runtime.rs:443-470 | place by place: length, then the bytes |
| Utf8.Utf8Iff | src/runtime/contract_runtime.rs:528-533 | messages are accepted as text iff they are the encodings of Unicode scalar values |
| Borsh.StagedIsNoResult | src/runtime/contract_runtime.rs:520-533 | a staged argument never decodes as an execution result |
| Borsh.StagedIsInitIff | src/runtime/contract_runtime.rs:502-512 | a staged argument of any admissible size decodes as an init-check result iff it is one NUL byte |
| Imports.ValidateImports | src/runtime/contract_runtime.rs:176-224 | accepts iff the imports are a permutation of the four SDK functions with exact signatures; the first offender decides the error; the missing set is the exact complement |
| Imports.ConformsIff | src/runtime/contract_runtime.rs:407-432 | the signature test singles out exactly the host's signatures |
| Sdk.PointerLen | src/externf.rs:16-17 | true lengths on the real host and -1 for unknown pointers; on the double 0 for those, and lengths truncated to 32 bits |
| Sdk.ReadHostBytes | src/lib.rs:340-351 | on the real host that many bytes from the pointer on, through the linker closure; on the double the object and zeros, or a panic |
| Sdk.GetFromContext | src/lib.rs:357-364 | the object pointed at, or the length error it deserves; on the real host never a trap |
| Sdk.SmallObjectIsSeen | src/lib.rs:357-364 | an object within the limit is read whole on either host |
| Sdk.SeenOnReal | src/lib.rs:325-364 | on the real host exactly the objects of at most ten million bytes are seen; larger ones and unknown pointers get their own error, never a halt |
| Sdk.DecodedIff | src/lib.rs:312-322 | an argument has a value iff its bytes are the encoding of a text that parses to it; the message names the stage that failed and the argument |
| Sdk.ReadingErrorsSay | src/error.rs:12-18 | the text of the two reading errors |
| Sdk.DecimalRoundTrip | src/error.rs:17-18 | sizes in messages are the decimal digits of the number |
| Sdk.ReadAndParse | src/lib.rs:312-322 | the value, or the message of the first stage that failed |
| Sdk.Store | src/lib.rs:394-410 | on either host in any state, what is stored and returned is the effect of one store |
| Sdk.StoreReal | src/lib.rs:401-409 | the same through the real linker closures, with the null test |
| Sdk.StoreTest | src/externf.rs:111-143 | the same through the double |
| Sdk.StoreDelivers | src/lib.rs:401-409 | into a host that holds anything a store delivers exactly the bytes in a fresh object, all else unchanged, and the null test never misfires |
| Sdk.EmptyHeapLosesResult | src/lib.rs:401-409 | where nothing is stored the null test misfires: a result there was room for is replaced by an error |
| Sdk.DeliveryIsAnswer | src/lib.rs:253-256 | into a host that holds anything an entry point delivers its result, else its error, else the null pointer |
| Sdk.ApplyAndStore | src/lib.rs:277-292 | what the callback leaves, with the rejection message, is what is stored |
| Sdk.TryExecuteContract | src/lib.rs:259-293 | the attempt ends as the interpretation of the three objects prescribes, with the fallback to the init state |
| Sdk.ExecuteContract | src/lib.rs:241-257 | for any pointers on either host in any state, exit and host are those of the interpretation of the three objects, delivered |
| Sdk.TryCheckInitData | src/lib.rs:169-183 | the attempt ends as the interpretation of the state prescribes |
| Sdk.CheckInitData | src/lib.rs:158-167 | exit and host are those of the interpretation of the state, delivered |
| Mock.MockHost.StoreData | src/externf.rs:79-90 | a new object under the next id, unused as long as ids were only handed out, or a panic at the last id |
| Mock.MockHost.Alloc | src/externf.rs:112-126 | a fresh zeroed object, or 0 and no change when forced, or a panic at the last id |
| Mock.MockHost.ReadBytesIntoVec | src/externf.rs:131-136 | the object copied over the start of the buffer, or a panic if it is longer |
| Mock.MockHost.WriteBytesFromSlice | src/externf.rs:139-143 | replaces or makes the object under any pointer and changes no other |

## Left out

- wasmtime: engine creation, precompilation, start functions, fuel and its traps, NaN canonicalisation; instantiation is the check of counts and initial sizes against the store limits, and a guest is a program that makes host calls and changes its own linear memory and table.
- JSON itself: parsing and printing are parameters of every theorem that needs them.
- The wasm allocator of an SDK contract: in `Sdk.dfy` the buffers are themselves the memory that the linker closures copy from or to; in `SdkGuest.dfy` every host buffer gets fresh pages, nothing is freed, and values of the contract's own types take no room. An SDK contract exports its memory.
- An init check as a guest with its own linear memory: one read and one store of those `SdkGuest.ContractPhase` chains.
- A module's declared memory and table maxima, which also bound growth: they are the same on every machine.
- memory64 and custom page sizes: flags and minimums are read as u32 only, and nothing is claimed about such modules.
- Callbacks that trap, diverge or keep state: a callback is a pure function.
- `require_owner`, `accept`, `reject` on their own and the example contracts: settled by reading one branch.
- Forced lengths of the test double (`src/externf.rs:74-76`): they make it lie about lengths, which no host does.
- Sdk.ExecuteContract: real hosts are those of built machines, whose total cap is below 2^31; a hand-made `WasmLimits` could hand out pointers that do not fit an `i32`.
- Limits.TableElementsInRangeIff: the product wraps as in an optimised build; a debug build panics there.
- Mock.MockHost.StoreData: the id counter panics at its maximum, as in a debug build.
- 32-bit hosts: `usize` is 64 bits wide.
- Metrics, engine fingerprints, `load_precompiled`, Cargo templates and error display outside the SDK messages: no hard property.
