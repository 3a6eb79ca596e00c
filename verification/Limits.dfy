/** Resource limits derived from the machine (`src/runtime/config.rs`). */
module Limits {
  import opened Bytes

  const MIB := 1024 * 1024
  const MAX_MEMORY_BYTES := 32 * MIB
  const MIN_FLEET_MEMORY_BYTES := 4 * MIB
  const WASM_PAGE_BYTES := 65_536

  datatype WasmLimits = WasmLimits(
    maxWasmStack: usize,
    memorySize: usize,
    maxSingleAlloc: usize,
    maxTotalMemory: usize,
    maxTableElements: usize,
    aggressiveCompilation: bool)

  /** `u64::saturating_mul`. */
  function SaturatingMul(a: nat, b: nat): u64 { Min(a * b, U64_LIMIT - 1) }

  function Clamp(x: u64, lo: u64, hi: u64): u64
    requires lo <= hi
  {
    if x < lo then lo else if hi < x then hi else x
  }

  /** The core-count product is unguarded in the source; an optimised build wraps it. */
  function TableElements(cores: usize): usize {
    Min(256 * Max(cores, 2) % U64_LIMIT, 2_048)
  }

  function Build(ramMb: u64, cores: usize): WasmLimits {
    var memorySize := Clamp(SaturatingMul(ramMb / 512, 4 * MIB), MIN_FLEET_MEMORY_BYTES, MAX_MEMORY_BYTES);
    var maxTotal := Clamp(SaturatingMul(ramMb / 512, 3 * MIB), 3 * MIB, 24 * MIB);
    var maxSingle := Clamp(maxTotal / 3, MIB, 8 * MIB);
    WasmLimits(MIB, memorySize, maxSingle, maxTotal, TableElements(cores), false)
  }

  /** How many 512 MiB steps of RAM count: at least one and at most eight. */
  function Steps(ramMb: u64): nat { Clamp(ramMb / 512, 1, 8) }

  /** For every `u64` RAM value, also where the products saturate, the limits are
      4k, 3k and k MiB, so three largest single allocations fill the total exactly. */
  lemma BuildClosedForm(ramMb: u64, cores: usize)
    ensures var limits := Build(ramMb, cores);
            var k := Steps(ramMb);
            && limits.memorySize == 4 * k * MIB
            && limits.maxTotalMemory == 3 * k * MIB
            && limits.maxSingleAlloc == k * MIB
            && limits.maxTotalMemory == 3 * limits.maxSingleAlloc
            && limits.maxTableElements == TableElements(cores)
            && limits.maxTotalMemory <= 24 * MIB < limits.memorySize + 24 * MIB < I32_LIMIT
  {
    hide SaturatingMul, TableElements;
    var q := ramMb / 512;
    ScaledClosedForm(q, 4 * MIB);
    ScaledClosedForm(q, 3 * MIB);
  }

  /** The limits in numbers: three memory limits by RAM, the table limit by cores, the rest fixed. */
  lemma LimitsInNumbers(ramMb: u64, cores: usize)
    ensures var limits := Build(ramMb, cores);
            && (ramMb < 1_024 ==> limits.memorySize == 4_194_304 && limits.maxTotalMemory == 3_145_728
                                  && limits.maxSingleAlloc == 1_048_576)
            && (1_024 <= ramMb < 4_096 ==>
                  && limits.memorySize == 4_194_304 * (ramMb / 512) && limits.maxTotalMemory == 3_145_728 * (ramMb / 512)
                  && limits.maxSingleAlloc == 1_048_576 * (ramMb / 512))
            && (4_096 <= ramMb ==> limits.memorySize == 33_554_432 && limits.maxTotalMemory == 25_165_824
                                   && limits.maxSingleAlloc == 8_388_608)
            && limits.maxWasmStack == 1_048_576 && !limits.aggressiveCompilation
    ensures var elements := Build(ramMb, cores).maxTableElements;
            && (cores < 2 ==> elements == 512)
            && (2 <= cores <= 8 ==> elements == 256 * cores)
            && (8 < cores < 0x100_0000_0000_0000 ==> elements == 2_048)
            && (0x100_0000_0000_0000 <= cores ==> elements == Min(256 * (cores % 0x100_0000_0000_0000), 2_048))
  {
    BuildClosedForm(ramMb, cores);
    TableElementsWrap(cores);
  }

  lemma TableElementsWrap(cores: usize)
    ensures TableElements(cores) == Min(256 * (Max(cores, 2) % 0x100_0000_0000_0000), 2_048)
  {
    var c := Max(cores, 2);
    var m := 0x100_0000_0000_0000;
    assert 256 * c == U64_LIMIT * (c / m) + 256 * (c % m);
  }

  /** Multiplying with saturation and clamping to one and eight steps is clamping the factor. */
  lemma ScaledClosedForm(q: u64, step: nat)
    requires 0 < step && 8 * step < U64_LIMIT
    ensures Clamp(SaturatingMul(q, step), step, 8 * step) == Clamp(q, 1, 8) * step
  {
    if q > 8 {
      assert (q - 8) * step > 0;
    } else if q >= 1 {
      assert (q - 1) * step >= 0 && (8 - q) * step >= 0;
    }
  }

  /** One machine is no smaller than another in any limit: RAM decides three of them, cores the fourth. */
  predicate FleetOrdered(small: u64, coresSmall: usize, large: u64, coresLarge: usize) {
    Steps(small) <= Steps(large) && TableElements(coresSmall) <= TableElements(coresLarge)
  }

  lemma FleetOrderedIff(small: u64, coresSmall: usize, large: u64, coresLarge: usize)
    ensures var a, b := Build(small, coresSmall), Build(large, coresLarge);
            FleetOrdered(small, coresSmall, large, coresLarge) <==>
              && a.memorySize <= b.memorySize
              && a.maxTotalMemory <= b.maxTotalMemory
              && a.maxSingleAlloc <= b.maxSingleAlloc
              && a.maxTableElements <= b.maxTableElements
  {
    hide Build, Steps, TableElements;
    BuildClosedForm(small, coresSmall);
    BuildClosedForm(large, coresLarge);
  }

  /** More RAM and at least as many cores, in the range where the core product does not wrap. */
  lemma OrderedByRamAndCores(small: u64, coresSmall: usize, large: u64, coresLarge: usize)
    requires small <= large && coresSmall <= coresLarge <= USIZE_MAX / 256
    ensures FleetOrdered(small, coresSmall, large, coresLarge)
  {
    hide TableElements;
    TableElementsMonotone(coresSmall, coresLarge);
    assert small / 512 <= large / 512;
  }

  /** Table sizes stay in the documented range exactly when the core count, reduced
      modulo 2^56 by the unguarded product, is still at least two. */
  lemma TableElementsInRangeIff(cores: usize)
    ensures 512 <= TableElements(cores) <= 2_048 <==> Max(cores, 2) % 0x100_0000_0000_0000 >= 2
  {
    TableElementsWrap(cores);
  }

  /** The range is left by a core count the type allows. */
  lemma TableElementsCanWrap()
    ensures TableElements(0x100_0000_0000_0000) == 0
  {
  }

  lemma TableElementsMonotone(fewer: usize, more: usize)
    requires fewer <= more <= USIZE_MAX / 256
    ensures 512 <= TableElements(fewer) <= TableElements(more) <= 2_048
  {
  }
}
