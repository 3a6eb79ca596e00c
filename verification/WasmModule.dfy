/** The memory-section reader (`declared_min_memory_bytes` in `src/runtime/config.rs`) and the
    grammar it decides, after sections 5.3.4, 5.5.2, 5.5.8 and 5.5.15 of the WebAssembly Core
    Specification 1.0. */
module WasmModule {
  import opened Bytes
  import opened Limits
  import opened Uleb

  const HEADER: seq<byte> := [0x00, 0x61, 0x73, 0x6D, 1, 0, 0, 0]
  const MEMORY_SECTION: byte := 5

  // ---- Grammar: concrete syntax trees and the bytes they stand for ----

  /** One memory entry; `max` is empty when the flags do not announce a maximum. */
  datatype Entry = Entry(flags: seq<byte>, min: seq<byte>, max: seq<byte>)

  predicate ValidEntry(e: Entry) {
    && IsUleb(e.flags)
    && IsUleb(e.min)
    && if UlebValue(e.flags) % 2 == 1 then IsUleb(e.max) else e.max == []
  }

  function EntryBytes(e: Entry): seq<byte> { e.flags + e.min + e.max }

  function EntriesBytes(es: seq<Entry>): seq<byte> {
    if es == [] then [] else EntryBytes(es[0]) + EntriesBytes(es[1..])
  }

  /** A section; a memory section may carry bytes after its entries, which are ignored. */
  datatype Section =
    | Other(id: byte, size: seq<byte>, content: seq<byte>)
    | Memory(size: seq<byte>, count: seq<byte>, entries: seq<Entry>, trailing: seq<byte>)

  function Body(s: Section): seq<byte> {
    match s
    case Other(_, _, content) => content
    case Memory(_, count, entries, trailing) => count + EntriesBytes(entries) + trailing
  }

  predicate ValidSection(s: Section) {
    && IsUleb(s.size)
    && UlebValue(s.size) == |Body(s)|
    && match s
       case Other(id, _, _) => id != MEMORY_SECTION
       case Memory(_, count, entries, _) =>
         && IsUleb(count)
         && UlebValue(count) == |entries|
         && forall i :: 0 <= i < |entries| ==> ValidEntry(entries[i])
  }

  function SectionId(s: Section): byte { if s.Other? then s.id else MEMORY_SECTION }

  function SectionBytes(s: Section): seq<byte> { [SectionId(s)] + s.size + Body(s) }

  function SectionsBytes(ss: seq<Section>): seq<byte> {
    if ss == [] then [] else SectionBytes(ss[0]) + SectionsBytes(ss[1..])
  }

  predicate ValidSections(ss: seq<Section>) { forall i :: 0 <= i < |ss| ==> ValidSection(ss[i]) }

  /** The bytes of a module are the header and sections that tile the rest. */
  predicate IsModule(wasm: seq<byte>, ss: seq<Section>) {
    ValidSections(ss) && wasm == HEADER + SectionsBytes(ss)
  }

  function MaxEntry(es: seq<Entry>): nat {
    if es == [] then 0 else Max(UlebValue(es[0].min), MaxEntry(es[1..]))
  }

  /** The largest declared minimum, in pages, over every entry of every memory section. */
  function MaxPages(ss: seq<Section>): nat {
    if ss == [] then 0
    else Max(if ss[0].Memory? then MaxEntry(ss[0].entries) else 0, MaxPages(ss[1..]))
  }

  /** How many memories the sections define. */
  function MemoryCount(ss: seq<Section>): nat {
    if ss == [] then 0 else (if ss[0].Memory? then |ss[0].entries| else 0) + MemoryCount(ss[1..])
  }

  // ---- The reader as functions on the remaining input ----

  /** Reads one entry: its minimum and its length. */
  function ParseEntry(s: seq<byte>): (r: Option<(u32, nat)>)
    ensures r.Some? ==> 2 <= r.value.1 <= |s|
  {
    match ParseUleb(s)
    case None => None
    case Some((flags, n1)) =>
      match ParseUleb(s[n1..])
      case None => None
      case Some((min, n2)) =>
        if flags % 2 == 1 then
          match ParseUleb(s[n1 + n2..])
          case None => None
          case Some((_, n3)) => Some((min, n1 + n2 + n3))
        else Some((min, n1 + n2))
  }

  function ParseEntries(s: seq<byte>, count: nat, pages: nat): Option<nat>
    decreases count
  {
    if count == 0 then Some(pages)
    else
      match ParseEntry(s)
      case None => None
      case Some((min, n)) => ParseEntries(s[n..], count - 1, Max(pages, min))
  }

  function ParseBody(id: byte, body: seq<byte>, pages: nat): Option<nat> {
    if id != MEMORY_SECTION then Some(pages)
    else
      match ParseUleb(body)
      case None => None
      case Some((count, n)) => ParseEntries(body[n..], count, pages)
  }

  function ParseSections(s: seq<byte>, pages: nat): Option<nat>
    decreases |s|
  {
    if s == [] then Some(pages)
    else
      match ParseUleb(s[1..])
      case None => None
      case Some((size, n)) =>
        if 1 + n + size > |s| then None
        else
          match ParseBody(s[0], s[1 + n..1 + n + size], pages)
          case None => None
          case Some(p) => ParseSections(s[1 + n + size..], p)
  }

  function DeclaredMin(wasm: seq<byte>): Option<nat> {
    if |wasm| < 8 || wasm[..8] != HEADER then None
    else
      match ParseSections(wasm[8..], 0)
      case None => None
      case Some(pages) => Some(SaturatingMul(pages, WASM_PAGE_BYTES))
  }

  // ---- How many numbers are read on the way, also when the bytes turn out not to parse ----

  function EntryReads(s: seq<byte>): (r: nat)
    ensures r <= |s|
    ensures ParseEntry(s).Some? ==> 2 <= r <= ParseEntry(s).value.1
  {
    match ParseUleb(s)
    case None => 0
    case Some((flags, n1)) =>
      match ParseUleb(s[n1..])
      case None => 1
      case Some((_, n2)) => if flags % 2 == 1 && ParseUleb(s[n1 + n2..]).Some? then 3 else 2
  }

  /** Whatever count is claimed, no more numbers are read than there are bytes. */
  function EntriesReads(s: seq<byte>, count: nat): (r: nat)
    ensures r <= |s|
    decreases count
  {
    if count == 0 then 0
    else
      match ParseEntry(s)
      case None => EntryReads(s)
      case Some((_, n)) => EntryReads(s) + EntriesReads(s[n..], count - 1)
  }

  function BodyReads(id: byte, body: seq<byte>): (r: nat)
    ensures r <= |body|
  {
    if id != MEMORY_SECTION then 0
    else
      match ParseUleb(body)
      case None => 0
      case Some((count, n)) => 1 + EntriesReads(body[n..], count)
  }

  function SectionsReads(s: seq<byte>): (r: nat)
    ensures r <= |s|
    decreases |s|
  {
    if s == [] then 0
    else
      match ParseUleb(s[1..])
      case None => 0
      case Some((size, n)) =>
        if 1 + n + size > |s| then 1
        else
          var body := s[1 + n..1 + n + size];
          1 + BodyReads(s[0], body) +
          if ParseBody(s[0], body, 0).None? then 0 else SectionsReads(s[1 + n + size..])
  }

  /** Whether a body parses does not depend on the pages seen before. */
  lemma ParseBodyPages(id: byte, body: seq<byte>, p: nat, q: nat)
    ensures ParseBody(id, body, p).Some? <==> ParseBody(id, body, q).Some?
  {
    hide ParseUleb;
    if id == MEMORY_SECTION && ParseUleb(body).Some? {
      var (count, n) := ParseUleb(body).value;
      ParseEntriesPages(body[n..], count, p, q);
    }
  }

  lemma ParseEntriesPages(s: seq<byte>, count: nat, p: nat, q: nat)
    ensures ParseEntries(s, count, p).Some? <==> ParseEntries(s, count, q).Some?
    decreases count
  {
    hide ParseEntry;
    if count > 0 && ParseEntry(s).Some? {
      var (min, n) := ParseEntry(s).value;
      ParseEntriesPages(s[n..], count - 1, Max(p, min), Max(q, min));
    }
  }

  // ---- Completeness: every tree is read ----

  lemma ParseEntryOf(e: Entry, rest: seq<byte>)
    requires ValidEntry(e)
    ensures ParseEntry(EntryBytes(e) + rest) == Some((UlebValue(e.min), |EntryBytes(e)|))
  {
    hide IsUleb, ParseUleb, UlebValue;
    var s := EntryBytes(e) + rest;
    var n1, n2 := |e.flags|, |e.min|;
    assert s == e.flags + (e.min + e.max + rest);
    ParseUlebAppend(e.flags, e.min + e.max + rest);
    assert s[n1..] == e.min + (e.max + rest);
    ParseUlebAppend(e.min, e.max + rest);
    if UlebValue(e.flags) % 2 == 1 {
      assert s[n1 + n2..] == e.max + rest;
      ParseUlebAppend(e.max, rest);
    }
  }

  lemma ParseEntriesOf(es: seq<Entry>, rest: seq<byte>, pages: nat)
    requires forall i :: 0 <= i < |es| ==> ValidEntry(es[i])
    ensures ParseEntries(EntriesBytes(es) + rest, |es|, pages) == Some(Max(pages, MaxEntry(es)))
    decreases |es|
  {
    if es != [] {
      var tail := EntriesBytes(es[1..]) + rest;
      assert EntriesBytes(es) + rest == EntryBytes(es[0]) + tail;
      ParseEntryOf(es[0], tail);
      assert (EntryBytes(es[0]) + tail)[|EntryBytes(es[0])|..] == tail;
      ParseEntriesOf(es[1..], rest, Max(pages, UlebValue(es[0].min)));
    }
  }

  lemma ParseBodyOf(s: Section, pages: nat)
    requires ValidSection(s)
    ensures ParseBody(SectionId(s), Body(s), pages) == Some(Max(pages, MaxPages([s])))
  {
    hide IsUleb, ParseUleb, UlebValue, MaxEntry, ParseEntries, EntriesBytes, ValidEntry;
    assert [s][1..] == [];
    if s.Memory? {
      var after := EntriesBytes(s.entries) + s.trailing;
      assert Body(s) == s.count + after;
      ParseUlebAppend(s.count, after);
      assert Body(s)[|s.count|..] == after;
      ParseEntriesOf(s.entries, s.trailing, pages);
    }
  }

  /** Reading past one section of a longer input. */
  lemma ParseSectionThen(s: Section, rest: seq<byte>, pages: nat)
    requires ValidSection(s)
    ensures ParseSections(SectionBytes(s) + rest, pages) == ParseSections(rest, Max(pages, MaxPages([s])))
  {
    hide IsUleb, ParseUleb, UlebValue, ParseBody, Body, MaxPages;
    var input := SectionBytes(s) + rest;
    var n := |s.size|;
    assert input[1..] == s.size + (Body(s) + rest);
    ParseUlebAppend(s.size, Body(s) + rest);
    assert input[1 + n..1 + n + |Body(s)|] == Body(s);
    assert input[1 + n + |Body(s)|..] == rest;
    ParseBodyOf(s, pages);
  }

  lemma ParseSectionsThen(ss: seq<Section>, rest: seq<byte>, pages: nat)
    requires ValidSections(ss)
    ensures ParseSections(SectionsBytes(ss) + rest, pages) == ParseSections(rest, Max(pages, MaxPages(ss)))
    decreases |ss|
  {
    if ss == [] {
      assert SectionsBytes(ss) + rest == rest;
    } else {
      var tail := SectionsBytes(ss[1..]) + rest;
      assert SectionsBytes(ss) + rest == SectionBytes(ss[0]) + tail;
      ParseSectionThen(ss[0], tail, pages);
      assert [ss[0]][1..] == [];
      ParseSectionsThen(ss[1..], rest, Max(pages, MaxPages([ss[0]])));
    }
  }

  // ---- Soundness: whatever is read is a tree ----

  lemma EntryOf(s: seq<byte>) returns (e: Entry)
    requires ParseEntry(s).Some?
    ensures ValidEntry(e) && ParseEntry(s) == Some((UlebValue(e.min), |EntryBytes(e)|))
    ensures s[..|EntryBytes(e)|] == EntryBytes(e)
  {
    hide IsUleb, ParseUleb, UlebValue;
    var (flags, n1) := ParseUleb(s).value;
    ParseUlebIff(s, flags, n1);
    var (min, n2) := ParseUleb(s[n1..]).value;
    ParseUlebIff(s[n1..], min, n2);
    assert s[n1..][..n2] == s[n1..n1 + n2];
    if flags % 2 == 1 {
      var (max, n3) := ParseUleb(s[n1 + n2..]).value;
      ParseUlebIff(s[n1 + n2..], max, n3);
      e := Entry(s[..n1], s[n1..][..n2], s[n1 + n2..][..n3]);
      assert s[..n1 + n2 + n3] == EntryBytes(e);
    } else {
      e := Entry(s[..n1], s[n1..][..n2], []);
      assert s[..n1 + n2] == EntryBytes(e);
    }
  }

  lemma EntriesOf(s: seq<byte>, count: nat, pages: nat) returns (es: seq<Entry>, trailing: seq<byte>)
    requires ParseEntries(s, count, pages).Some?
    ensures |es| == count && (forall i :: 0 <= i < |es| ==> ValidEntry(es[i]))
    ensures s == EntriesBytes(es) + trailing
    decreases count
  {
    hide IsUleb, ParseUleb, UlebValue;
    if count == 0 {
      es, trailing := [], s;
    } else {
      var e := EntryOf(s);
      var n := |EntryBytes(e)|;
      var rest;
      rest, trailing := EntriesOf(s[n..], count - 1, Max(pages, UlebValue(e.min)));
      es := [e] + rest;
      assert es[1..] == rest;
      assert s == s[..n] + s[n..];
    }
  }

  lemma SectionOf(id: byte, size: seq<byte>, body: seq<byte>, pages: nat) returns (s: Section)
    requires IsUleb(size) && UlebValue(size) == |body| && ParseBody(id, body, pages).Some?
    ensures ValidSection(s) && SectionBytes(s) == [id] + size + body
  {
    hide IsUleb, ParseUleb, UlebValue;
    if id == MEMORY_SECTION {
      var (count, n) := ParseUleb(body).value;
      ParseUlebIff(body, count, n);
      var es, trailing := EntriesOf(body[n..], count, pages);
      s := Memory(size, body[..n], es, trailing);
      assert Body(s) == body;
    } else {
      s := Other(id, size, body);
    }
  }

  lemma SectionsOf(s: seq<byte>, pages: nat) returns (ss: seq<Section>)
    requires ParseSections(s, pages).Some?
    ensures ValidSections(ss) && SectionsBytes(ss) == s
    decreases |s|
  {
    hide IsUleb, ParseUleb, UlebValue, ParseBody, ValidSection, SectionBytes, SectionsBytes;
    if s == [] {
      NoSections();
      ss := [];
    } else {
      var (size, n) := ParseUleb(s[1..]).value;
      ParseUlebIff(s[1..], size, n);
      var end := 1 + n + size;
      var first := SectionOf(s[0], s[1..][..n], s[1 + n..end], pages);
      var rest := SectionsOf(s[end..], ParseBody(s[0], s[1 + n..end], pages).value);
      ss := [first] + rest;
      SectionThenRest(s, n, end);
      SectionsCons(first, rest);
    }
  }

  lemma NoSections()
    ensures SectionsBytes([]) == []
  {
  }

  lemma SectionThenRest(s: seq<byte>, n: nat, end: nat)
    requires 1 + n <= end <= |s|
    ensures s == ([s[0]] + s[1..][..n] + s[1 + n..end]) + s[end..]
  {
  }

  lemma SectionsCons(first: Section, rest: seq<Section>)
    ensures SectionsBytes([first] + rest) == SectionBytes(first) + SectionsBytes(rest)
    ensures ValidSection(first) && ValidSections(rest) ==> ValidSections([first] + rest)
  {
    hide SectionBytes, ValidSection;
    assert ([first] + rest)[1..] == rest;
  }

  // ---- The main results ----

  lemma MaxPagesBelow(ss: seq<Section>)
    ensures MaxPages(ss) < U32_LIMIT
  {
    if ss != [] {
      MaxPagesBelow(ss[1..]);
      if ss[0].Memory? {
        MaxEntryBelow(ss[0].entries);
      }
    }
  }

  lemma MaxEntryBelow(es: seq<Entry>)
    ensures MaxEntry(es) < U32_LIMIT
  {
  }

  /** On the bytes of a module the reader yields 65536 times the largest declared minimum, and
      the multiplication never saturates. */
  lemma DeclaredMinOf(wasm: seq<byte>, ss: seq<Section>)
    requires IsModule(wasm, ss)
    ensures DeclaredMin(wasm) == Some(WASM_PAGE_BYTES * MaxPages(ss))
  {
    hide SectionsBytes, ValidSections, MaxPages, SaturatingMul;
    assert wasm[..8] == HEADER && wasm[8..] == SectionsBytes(ss) + [];
    ParseSectionsThen(ss, [], 0);
    MaxPagesBelow(ss);
    PagesNeverSaturate(MaxPages(ss));
  }

  lemma PagesNeverSaturate(pages: u32)
    ensures SaturatingMul(pages, WASM_PAGE_BYTES) == WASM_PAGE_BYTES * pages
  {
  }

  /** The reader decides the grammar: it answers exactly on the bytes of modules, and with the
      largest declared minimum. */
  lemma DeclaredMinIff(wasm: seq<byte>, bytes: nat)
    ensures DeclaredMin(wasm) == Some(bytes) <==>
            exists ss :: IsModule(wasm, ss) && bytes == WASM_PAGE_BYTES * MaxPages(ss)
  {
    hide ParseSections, SectionsBytes, ValidSections, MaxPages, SaturatingMul;
    if DeclaredMin(wasm) == Some(bytes) {
      var ss := SectionsOf(wasm[8..], 0);
      assert wasm == wasm[..8] + wasm[8..];
      assert IsModule(wasm, ss);
      DeclaredMinOf(wasm, ss);
    }
    forall ss | IsModule(wasm, ss)
      ensures DeclaredMin(wasm) == Some(WASM_PAGE_BYTES * MaxPages(ss))
    {
      DeclaredMinOf(wasm, ss);
    }
  }

  // ---- The grammar is unambiguous ----

  lemma UlebUnique(u: seq<byte>, v: seq<byte>, a: seq<byte>, b: seq<byte>)
    requires IsUleb(u) && IsUleb(v) && u + a == v + b
    ensures u == v && a == b
  {
    hide IsUleb, ParseUleb, UlebValue;
    ParseUlebAppend(u, a);
    ParseUlebAppend(v, b);
    assert (u + a)[..|u|] == u && (u + a)[|u|..] == a;
    assert (v + b)[..|v|] == v && (v + b)[|v|..] == b;
  }

  lemma EntryUnique(x: Entry, y: Entry, a: seq<byte>, b: seq<byte>)
    requires ValidEntry(x) && ValidEntry(y) && EntryBytes(x) + a == EntryBytes(y) + b
    ensures x == y && a == b
  {
    hide IsUleb, UlebValue;
    assert EntryBytes(x) + a == x.flags + (x.min + (x.max + a));
    assert EntryBytes(y) + b == y.flags + (y.min + (y.max + b));
    UlebUnique(x.flags, y.flags, x.min + (x.max + a), y.min + (y.max + b));
    UlebUnique(x.min, y.min, x.max + a, y.max + b);
    if UlebValue(x.flags) % 2 == 1 {
      UlebUnique(x.max, y.max, a, b);
    } else {
      assert [] + a == a && [] + b == b;
    }
  }

  lemma {:induction false} EntriesUnique(xs: seq<Entry>, ys: seq<Entry>, a: seq<byte>, b: seq<byte>)
    requires |xs| == |ys|
    requires forall i :: 0 <= i < |xs| ==> ValidEntry(xs[i]) && ValidEntry(ys[i])
    requires EntriesBytes(xs) + a == EntriesBytes(ys) + b
    ensures xs == ys && a == b
    decreases |xs|
  {
    hide ValidEntry, EntryBytes;
    if xs == [] {
      assert [] + a == a && [] + b == b;
    } else {
      var ra, rb := EntriesBytes(xs[1..]) + a, EntriesBytes(ys[1..]) + b;
      assert EntriesBytes(xs) + a == EntryBytes(xs[0]) + ra;
      assert EntriesBytes(ys) + b == EntryBytes(ys[0]) + rb;
      EntryUnique(xs[0], ys[0], ra, rb);
      EntriesUnique(xs[1..], ys[1..], a, b);
      assert xs == [xs[0]] + xs[1..] && ys == [ys[0]] + ys[1..];
    }
  }

  lemma SectionUnique(x: Section, y: Section, a: seq<byte>, b: seq<byte>)
    requires ValidSection(x) && ValidSection(y) && SectionBytes(x) + a == SectionBytes(y) + b
    ensures x == y && a == b
  {
    hide IsUleb, UlebValue, Body;
    var left, right := SectionBytes(x) + a, SectionBytes(y) + b;
    assert left[0] == SectionId(x) && right[0] == SectionId(y);
    assert left[1..] == x.size + (Body(x) + a) && right[1..] == y.size + (Body(y) + b);
    UlebUnique(x.size, y.size, Body(x) + a, Body(y) + b);
    SameSplit(Body(x), Body(y), a, b);
    BodyUnique(x, y);
  }

  lemma SameSplit(x: seq<byte>, y: seq<byte>, a: seq<byte>, b: seq<byte>)
    requires |x| == |y| && x + a == y + b
    ensures x == y && a == b
  {
    assert (x + a)[..|x|] == x && (x + a)[|x|..] == a;
    assert (y + b)[..|y|] == y && (y + b)[|y|..] == b;
  }

  lemma BodyUnique(x: Section, y: Section)
    requires ValidSection(x) && ValidSection(y)
    requires SectionId(x) == SectionId(y) && x.size == y.size && Body(x) == Body(y)
    ensures x == y
  {
    hide IsUleb, UlebValue, EntriesBytes, ValidEntry;
    if x.Memory? {
      var ex, ey := EntriesBytes(x.entries) + x.trailing, EntriesBytes(y.entries) + y.trailing;
      assert Body(x) == x.count + ex && Body(y) == y.count + ey;
      UlebUnique(x.count, y.count, ex, ey);
      EntriesUnique(x.entries, y.entries, x.trailing, y.trailing);
    }
  }

  /** The same bytes are never two different modules. */
  lemma {:induction false} ModuleUnique(xs: seq<Section>, ys: seq<Section>)
    requires ValidSections(xs) && ValidSections(ys) && SectionsBytes(xs) == SectionsBytes(ys)
    ensures xs == ys
    decreases |xs|
  {
    hide ValidSection, SectionBytes;
    if xs != [] && ys != [] {
      SectionUnique(xs[0], ys[0], SectionsBytes(xs[1..]), SectionsBytes(ys[1..]));
      ModuleUnique(xs[1..], ys[1..]);
      assert xs == [xs[0]] + xs[1..] && ys == [ys[0]] + ys[1..];
    } else {
      SectionNotEmpty(xs);
      SectionNotEmpty(ys);
    }
  }

  lemma SectionNotEmpty(ss: seq<Section>)
    ensures SectionsBytes(ss) == [] <==> ss == []
  {
    if ss != [] {
      assert |SectionBytes(ss[0])| > 0;
    }
  }

  // ---- Truncation ----

  /** A section cut anywhere strictly inside does not parse. */
  lemma TruncatedSection(s: Section, k: nat, pages: nat)
    requires ValidSection(s) && 0 < k < |SectionBytes(s)|
    ensures ParseSections(SectionBytes(s)[..k], pages).None?
  {
    hide IsUleb, ParseUleb, UlebValue, Body, ParseBody;
    var cut := SectionBytes(s)[..k];
    if k - 1 < |s.size| {
      assert cut[1..] == s.size[..k - 1];
      ParseUlebTruncated(s.size, k - 1);
    } else {
      assert cut[1..] == s.size + Body(s)[..k - 1 - |s.size|];
      ParseUlebAppend(s.size, Body(s)[..k - 1 - |s.size|]);
    }
  }

  /** Where a cut falls: after the first `j` sections and `r` bytes into the next one. */
  lemma LocateCut(ss: seq<Section>, k: nat) returns (j: nat, r: nat)
    requires k <= |SectionsBytes(ss)|
    ensures j <= |ss| && (if j == |ss| then r == 0 else r < |SectionBytes(ss[j])|)
    ensures SectionsBytes(ss)[..k] ==
            SectionsBytes(ss[..j]) + if j == |ss| then [] else SectionBytes(ss[j])[..r]
    decreases |ss|
  {
    hide SectionBytes;
    if ss == [] {
      j, r := 0, 0;
    } else if k < |SectionBytes(ss[0])| {
      j, r := 0, k;
    } else {
      var first := SectionBytes(ss[0]);
      var j', r' := LocateCut(ss[1..], k - |first|);
      j, r := j' + 1, r';
      assert ss[..j][1..] == ss[1..][..j'];
      assert SectionsBytes(ss)[..k] == first + SectionsBytes(ss[1..])[..k - |first|];
    }
  }

  lemma PrefixBytesLength(ss: seq<Section>, i: nat, j: nat)
    requires i < j <= |ss|
    ensures |SectionsBytes(ss[..i])| < |SectionsBytes(ss[..j])|
    decreases i
  {
    if i == 0 {
      assert |SectionBytes(ss[..j][0])| > 0;
    } else {
      assert ss[..i][1..] == ss[1..][..i - 1] && ss[..j][1..] == ss[1..][..j - 1];
      PrefixBytesLength(ss[1..], i - 1, j - 1);
    }
  }

  lemma MaxPagesOfPrefix(ss: seq<Section>, j: nat)
    requires j <= |ss|
    ensures MaxPages(ss[..j]) <= MaxPages(ss)
    decreases j
  {
    if j > 0 {
      assert ss[..j][1..] == ss[1..][..j - 1];
      MaxPagesOfPrefix(ss[1..], j - 1);
    }
  }

  /** Cutting a module short is noticed unless the cut falls on a section boundary, and then the
      answer is that of the remaining sections and never larger than before. */
  lemma TruncationDetected(ss: seq<Section>, k: nat)
    requires ValidSections(ss) && k <= |HEADER + SectionsBytes(ss)|
    ensures var cut := DeclaredMin((HEADER + SectionsBytes(ss))[..k]);
            && (cut.Some? <==> exists j :: 0 <= j <= |ss| && k == 8 + |SectionsBytes(ss[..j])|)
            && (forall j :: 0 <= j <= |ss| && k == 8 + |SectionsBytes(ss[..j])| ==>
                 cut == Some(WASM_PAGE_BYTES * MaxPages(ss[..j])) && MaxPages(ss[..j]) <= MaxPages(ss))
  {
    hide ParseSections, SectionBytes, ValidSection, MaxPages, SaturatingMul;
    var wasm := (HEADER + SectionsBytes(ss))[..k];
    if k >= 8 {
      assert wasm == HEADER + SectionsBytes(ss)[..k - 8];
      var j, r := LocateCut(ss, k - 8);
      var part := if j == |ss| then [] else SectionBytes(ss[j])[..r];
      ParseSectionsThen(ss[..j], part, 0);
      assert wasm[..8] == HEADER && wasm[8..] == SectionsBytes(ss[..j]) + part;
      if r == 0 {
        assert part == [];
        assert IsModule(wasm, ss[..j]);
        DeclaredMinOf(wasm, ss[..j]);
        MaxPagesOfPrefix(ss, j);
      } else {
        TruncatedSection(ss[j], r, Max(0, MaxPages(ss[..j])));
      }
      forall i | 0 <= i <= |ss| && k == 8 + |SectionsBytes(ss[..i])|
        ensures i == j && r == 0
      {
        BoundaryIsLocated(ss, i, j, r);
      }
    }
  }

  lemma BoundaryIsLocated(ss: seq<Section>, i: nat, j: nat, r: nat)
    requires i <= |ss| && j <= |ss| && if j == |ss| then r == 0 else r < |SectionBytes(ss[j])|
    requires |SectionsBytes(ss[..i])| == |SectionsBytes(ss[..j])| + r
    ensures i == j && r == 0
  {
    if i < j {
      PrefixBytesLength(ss, i, j);
    } else if j < i {
      SectionsSnocLength(ss, j);
      if j + 1 < i {
        PrefixBytesLength(ss, j + 1, i);
      }
    }
  }

  lemma SectionsSnocLength(ss: seq<Section>, j: nat)
    requires j < |ss|
    ensures |SectionsBytes(ss[..j + 1])| == |SectionsBytes(ss[..j])| + |SectionBytes(ss[j])|
    decreases j
  {
    if j == 0 {
      assert ss[..1][1..] == [];
    } else {
      assert ss[..j][1..] == ss[1..][..j - 1] && ss[..j + 1][1..] == ss[1..][..j];
      SectionsSnocLength(ss[1..], j - 1);
    }
  }

  // ---- Canonical printer ----

  datatype MemoryType = MemoryType(min: u32, max: Option<u32>)

  datatype SectionDecl = Raw(id: byte, content: seq<byte>) | Memories(types: seq<MemoryType>)

  function PrintEntry(t: MemoryType): Entry {
    match t.max
    case None => Entry(EncodeUleb(0), EncodeUleb(t.min), [])
    case Some(max) => Entry(EncodeUleb(1), EncodeUleb(t.min), EncodeUleb(max))
  }

  function PrintEntries(ts: seq<MemoryType>): (es: seq<Entry>)
    ensures |es| == |ts| && forall i :: 0 <= i < |ts| ==> es[i] == PrintEntry(ts[i])
  {
    if ts == [] then [] else [PrintEntry(ts[0])] + PrintEntries(ts[1..])
  }

  function PrintSection(d: SectionDecl): Section {
    match d
    case Raw(id, content) => Other(id, EncodeUleb(|content|), content)
    case Memories(types) =>
      var count, entries := EncodeUleb(|types|), PrintEntries(types);
      Memory(EncodeUleb(|count + EntriesBytes(entries)|), count, entries, [])
  }

  function PrintSections(ds: seq<SectionDecl>): (ss: seq<Section>)
    ensures |ss| == |ds| && forall i :: 0 <= i < |ds| ==> ss[i] == PrintSection(ds[i])
  {
    if ds == [] then [] else [PrintSection(ds[0])] + PrintSections(ds[1..])
  }

  /** What a section may be: not a memory section in disguise, and of a size the format can state. */
  predicate Printable(d: SectionDecl) {
    && (d.Raw? ==> d.id != MEMORY_SECTION)
    && |Body(PrintSection(d))| < U32_LIMIT
    && (d.Memories? ==> |d.types| < U32_LIMIT)
  }

  function LargestMin(ts: seq<MemoryType>): nat {
    if ts == [] then 0 else Max(ts[0].min, LargestMin(ts[1..]))
  }

  function LargestDeclared(ds: seq<SectionDecl>): nat {
    if ds == [] then 0
    else Max(if ds[0].Memories? then LargestMin(ds[0].types) else 0, LargestDeclared(ds[1..]))
  }

  lemma EncodedValue(n: u32)
    ensures IsUleb(EncodeUleb(n)) && UlebValue(EncodeUleb(n)) == n
  {
    UlebRoundTrip(n, []);
    ParseUlebAppend(EncodeUleb(n), []);
  }

  lemma PrintEntryValid(t: MemoryType)
    ensures ValidEntry(PrintEntry(t)) && UlebValue(PrintEntry(t).min) == t.min
  {
    EncodedValue(0);
    EncodedValue(1);
    EncodedValue(t.min);
    if t.max.Some? {
      EncodedValue(t.max.value);
    }
  }

  lemma PrintEntriesMax(ts: seq<MemoryType>)
    ensures MaxEntry(PrintEntries(ts)) == LargestMin(ts)
  {
    if ts != [] {
      PrintEntryValid(ts[0]);
      assert PrintEntries(ts)[1..] == PrintEntries(ts[1..]);
      PrintEntriesMax(ts[1..]);
    }
  }

  lemma PrintSectionValid(d: SectionDecl)
    requires Printable(d)
    ensures ValidSection(PrintSection(d))
  {
    var s := PrintSection(d);
    EncodedValue(|Body(s)|);
    match d {
      case Raw(_, _) =>
      case Memories(types) =>
        assert Body(s) == s.count + EntriesBytes(s.entries);
        EncodedValue(|types|);
        forall i | 0 <= i < |types| ensures ValidEntry(s.entries[i]) {
          PrintEntryValid(types[i]);
        }
    }
  }

  lemma PrintSectionsMax(ds: seq<SectionDecl>)
    requires forall i :: 0 <= i < |ds| ==> Printable(ds[i])
    ensures ValidSections(PrintSections(ds)) && MaxPages(PrintSections(ds)) == LargestDeclared(ds)
  {
    var ss := PrintSections(ds);
    forall i | 0 <= i < |ss| ensures ValidSection(ss[i]) {
      PrintSectionValid(ds[i]);
    }
    if ds != [] {
      assert ss[1..] == PrintSections(ds[1..]);
      PrintSectionsMax(ds[1..]);
      if ds[0].Memories? {
        PrintEntriesMax(ds[0].types);
      }
    }
  }

  /** Printing any list of sections and reading the bytes back yields the true largest minimum. */
  lemma PrintThenRead(ds: seq<SectionDecl>)
    requires forall i :: 0 <= i < |ds| ==> Printable(ds[i])
    ensures DeclaredMin(HEADER + SectionsBytes(PrintSections(ds))) == Some(WASM_PAGE_BYTES * LargestDeclared(ds))
  {
    PrintSectionsMax(ds);
    DeclaredMinOf(HEADER + SectionsBytes(PrintSections(ds)), PrintSections(ds));
  }

  // ---- The loops ----

  /** Reads one entry at `start`; the cursor stops at `inner`, and `readCount` counts the numbers read. */
  method ReadEntry(body: seq<byte>, start: nat) returns (min: Option<u32>, inner: nat, ghost readCount: nat)
    requires start <= |body|
    ensures min.Some? <==> ParseEntry(body[start..]).Some?
    ensures min.Some? ==> ParseEntry(body[start..]) == Some((min.value, inner - start))
    ensures start <= inner <= |body|
    ensures readCount == EntryReads(body[start..])
  {
    hide IsUleb, ParseUleb, UlebValue;
    readCount := 0;
    var flags, max;
    flags, inner := ReadUleb(body, start);
    if flags.None? {
      return None, inner, readCount;
    }
    readCount := readCount + 1;
    assert body[start..][inner - start..] == body[inner..];
    min, inner := ReadUleb(body, inner);
    if min.None? {
      return None, inner, readCount;
    }
    readCount := readCount + 1;
    assert body[start..][inner - start..] == body[inner..];
    if flags.value % 2 != 0 {
      max, inner := ReadUleb(body, inner);
      if max.None? {
        return None, inner, readCount;
      }
      readCount := readCount + 1;
    }
  }

  /** Reads the entries of a memory section body; the cursor stops at `inner`. */
  method ReadEntries(body: seq<byte>, maxPages: nat) returns (r: Option<nat>, inner: nat, ghost readCount: nat)
    ensures r == ParseBody(MEMORY_SECTION, body, maxPages)
    ensures inner <= |body|
    ensures readCount == BodyReads(MEMORY_SECTION, body)
  {
    hide IsUleb, ParseUleb, UlebValue, ParseEntry, EntryReads;
    readCount := 0;
    var count;
    var pages := maxPages;
    assert body[0..] == body;
    count, inner := ReadUleb(body, 0);
    if count.None? {
      return None, inner, readCount;
    }
    readCount := readCount + 1;
    var i := 0;
    while i < count.value
      invariant 0 <= i <= count.value && inner <= |body|
      invariant ParseEntries(body[inner..], count.value - i, pages) == ParseBody(MEMORY_SECTION, body, maxPages)
      invariant readCount + EntriesReads(body[inner..], count.value - i) == BodyReads(MEMORY_SECTION, body)
    {
      var min;
      ghost var start, entryReads := inner, 0;
      min, inner, entryReads := ReadEntry(body, inner);
      readCount := readCount + entryReads;
      if min.None? {
        return None, inner, readCount;
      }
      assert body[start..][inner - start..] == body[inner..];
      pages := Max(pages, min.value);
      i := i + 1;
    }
    return Some(pages), inner, readCount;
  }

  /** `declared_min_memory_bytes`. Besides the answer, `readCount` counts the numbers read over both
      loops: however many entries a section claims, never more than the bytes after the header. */
  method DeclaredMinMemoryBytes(wasm: seq<byte>) returns (r: Option<nat>, ghost readCount: nat)
    ensures r == DeclaredMin(wasm)
    ensures HEADER <= wasm ==> readCount == SectionsReads(wasm[8..]) && readCount <= |wasm| - 8
    ensures !(HEADER <= wasm) ==> readCount == 0
    ensures r.Some? ==> |wasm| >= 8 && wasm[..4] == [0x00, 0x61, 0x73, 0x6D] && wasm[4..8] == [1, 0, 0, 0]
  {
    hide ParseUleb, ParseEntries, ParseSections, SaturatingMul, SectionsReads, BodyReads, ParseBody;
    readCount := 0;
    HeaderIff(wasm);
    if |wasm| < 8 || wasm[..4] != HEADER[..4] || wasm[4..8] != HEADER[4..] {
      return None, readCount;
    }
    var pos, maxPages := 8, 0;
    while pos < |wasm|
      invariant 8 <= pos <= |wasm|
      invariant ParseSections(wasm[pos..], maxPages) == ParseSections(wasm[8..], 0)
      invariant readCount + SectionsReads(wasm[pos..]) == SectionsReads(wasm[8..])
      decreases |wasm| - pos
    {
      var id := wasm[pos];
      SectionUnfolds(wasm, pos, maxPages);
      ReadsUnfold(wasm, pos, maxPages);
      var size;
      size, pos := ReadUleb(wasm, pos + 1);
      if size.None? {
        return None, readCount;
      }
      readCount := readCount + 1;
      if pos + size.value > |wasm| {
        return None, readCount;
      }
      var body := wasm[pos..pos + size.value];
      OtherBody(id, body, maxPages);
      if id == MEMORY_SECTION {
        ghost var bodyReads := 0;
        var pages, inner;
        pages, inner, bodyReads := ReadEntries(body, maxPages);
        readCount := readCount + bodyReads;
        if pages.None? {
          return None, readCount;
        }
        maxPages := pages.value;
      }
      pos := pos + size.value;
    }
    assert wasm[pos..] == [];
    NothingUnfolds(maxPages);
    r := Some(SaturatingMul(maxPages, WASM_PAGE_BYTES));
  }

  lemma HeaderIff(wasm: seq<byte>)
    ensures HEADER <= wasm <==> |wasm| >= 8 && wasm[..8] == HEADER
    ensures HEADER <= wasm <==> |wasm| >= 8 && wasm[..4] == HEADER[..4] && wasm[4..8] == HEADER[4..]
  {
    if |wasm| >= 8 {
      assert wasm[..8] == wasm[..4] + wasm[4..8] && HEADER == HEADER[..4] + HEADER[4..];
      assert wasm[..8][..4] == wasm[..4] && wasm[..8][4..] == wasm[4..8];
    }
  }

  lemma NothingUnfolds(pages: nat)
    ensures ParseSections([], pages) == Some(pages) && SectionsReads([]) == 0
  {
  }

  lemma OtherBody(id: byte, body: seq<byte>, pages: nat)
    ensures id != MEMORY_SECTION ==> ParseBody(id, body, pages) == Some(pages) && BodyReads(id, body) == 0
  {
  }

  /** One section read in place, by positions in the whole input. */
  lemma SectionUnfolds(wasm: seq<byte>, pos: nat, pages: nat)
    requires pos < |wasm|
    ensures ParseSections(wasm[pos..], pages) ==
            match ParseUleb(wasm[pos + 1..])
            case None => None
            case Some((size, n)) =>
              var start := pos + 1 + n;
              if start + size > |wasm| then None
              else
                match ParseBody(wasm[pos], wasm[start..start + size], pages)
                case None => None
                case Some(p) => ParseSections(wasm[start + size..], p)
  {
    hide ParseUleb, ParseBody;
    SectionSlices(wasm, pos);
  }

  /** The same for the numbers read. */
  lemma ReadsUnfold(wasm: seq<byte>, pos: nat, pages: nat)
    requires pos < |wasm|
    ensures SectionsReads(wasm[pos..]) ==
            match ParseUleb(wasm[pos + 1..])
            case None => 0
            case Some((size, n)) =>
              var start := pos + 1 + n;
              if start + size > |wasm| then 1
              else
                1 + BodyReads(wasm[pos], wasm[start..start + size]) +
                if ParseBody(wasm[pos], wasm[start..start + size], pages).None? then 0
                else SectionsReads(wasm[start + size..])
  {
    hide ParseUleb, ParseBody, BodyReads;
    SectionSlices(wasm, pos);
    if ParseUleb(wasm[pos + 1..]).Some? {
      var (size, n) := ParseUleb(wasm[pos + 1..]).value;
      if pos + 1 + n + size <= |wasm| {
        ParseBodyPages(wasm[pos], wasm[pos + 1 + n..pos + 1 + n + size], 0, pages);
      }
    }
  }

  lemma SectionSlices(wasm: seq<byte>, pos: nat)
    requires pos < |wasm|
    ensures wasm[pos..][1..] == wasm[pos + 1..]
    ensures ParseUleb(wasm[pos + 1..]).Some? ==>
              var (size, n) := ParseUleb(wasm[pos + 1..]).value;
              pos + 1 + n + size <= |wasm| ==>
                && wasm[pos..][1 + n..1 + n + size] == wasm[pos + 1 + n..pos + 1 + n + size]
                && wasm[pos..][1 + n + size..] == wasm[pos + 1 + n + size..]
  {
    hide ParseUleb;
  }

  // ---- The fleet gate (`ContractRuntime::compile`) ----

  /** What the gate lets through: modules that declare little enough, and bytes that are no module. */
  predicate GatePasses(wasm: seq<byte>) {
    DeclaredMin(wasm).Some? ==> DeclaredMin(wasm).value <= MIN_FLEET_MEMORY_BYTES
  }

  /** Some(bytes) when the module is refused for declaring too much memory. */
  method CompileGate(wasm: seq<byte>) returns (refused: Option<nat>)
    ensures refused.Some? <==>
            exists ss :: IsModule(wasm, ss) && WASM_PAGE_BYTES * MaxPages(ss) > MIN_FLEET_MEMORY_BYTES
    ensures refused.Some? ==> DeclaredMin(wasm) == refused
    ensures refused.None? <==> GatePasses(wasm)
    ensures refused.Some? ==> refused.value > 4_194_304
  {
    var declared, _ := DeclaredMinMemoryBytes(wasm);
    refused := if declared.Some? && declared.value > MIN_FLEET_MEMORY_BYTES then declared else None;
    if declared.Some? {
      DeclaredMinIff(wasm, declared.value);
    }
    forall ss | IsModule(wasm, ss) ensures DeclaredMin(wasm) == Some(WASM_PAGE_BYTES * MaxPages(ss)) {
      DeclaredMinOf(wasm, ss);
    }
  }

  /** The gate on two modules in full: one memory of 65 pages is refused for its 4 259 840 bytes, one of
      64 pages passes with exactly the floor. */
  lemma LiteralModules()
    ensures var refused := [0x00, 0x61, 0x73, 0x6D, 1, 0, 0, 0, 5, 3, 1, 0, 65];
            DeclaredMin(refused) == Some(4_259_840) && !GatePasses(refused)
    ensures var passed := [0x00, 0x61, 0x73, 0x6D, 1, 0, 0, 0, 5, 3, 1, 0, 64];
            DeclaredMin(passed) == Some(4_194_304) && GatePasses(passed)
  {
    hide DeclaredMin;
    FlagBitDecides(0, 65, 0);
    FlagBitDecides(0, 64, 0);
  }

  /** The lowest flag bit, and no other, announces a maximum: for all flags of one byte, an entry of flags
      and minimum alone is read exactly when the bit is clear, and a third byte never changes the answer. */
  lemma FlagBitDecides(flags: byte, n: byte, max: byte)
    requires flags < 128 && n < 128 && max < 128
    ensures DeclaredMin([0x00, 0x61, 0x73, 0x6D, 1, 0, 0, 0, 5, 3, 1, flags, n]) ==
            if flags % 2 == 1 then None else Some(65_536 * n)
    ensures DeclaredMin([0x00, 0x61, 0x73, 0x6D, 1, 0, 0, 0, 5, 4, 1, flags, n, max]) == Some(65_536 * n)
  {
    hide DeclaredMin, ParseSections, ParseEntries;
    OneMemoryBody(3, [1, flags, n]);
    OneMemoryBody(4, [1, flags, n, max]);
    SmallEntry(flags, [n]);
    SmallEntry(flags, [n, max]);
    assert [1, flags, n][1..] == [flags] + [n];
    assert [1, flags, n, max][1..] == [flags] + [n, max];
    AfterHeader([5, 3] + [1, flags, n]);
    AfterHeader([5, 4] + [1, flags, n, max]);
    assert [0x00, 0x61, 0x73, 0x6D, 1, 0, 0, 0] + ([5, 3] + [1, flags, n]) ==
           [0x00, 0x61, 0x73, 0x6D, 1, 0, 0, 0, 5, 3, 1, flags, n];
    assert [0x00, 0x61, 0x73, 0x6D, 1, 0, 0, 0] + ([5, 4] + [1, flags, n, max]) ==
           [0x00, 0x61, 0x73, 0x6D, 1, 0, 0, 0, 5, 4, 1, flags, n, max];
  }

  lemma AfterHeader(rest: seq<byte>)
    ensures var pages := ParseSections(rest, 0);
            && (pages.None? ==> DeclaredMin([0x00, 0x61, 0x73, 0x6D, 1, 0, 0, 0] + rest) == None)
            && (pages.Some? && pages.value < U32_LIMIT ==>
                  DeclaredMin([0x00, 0x61, 0x73, 0x6D, 1, 0, 0, 0] + rest) == Some(65_536 * pages.value))
  {
    hide ParseSections;
    var wasm := [0x00, 0x61, 0x73, 0x6D, 1, 0, 0, 0] + rest;
    assert wasm[..8] == HEADER && wasm[8..] == rest;
  }

  /** Reading a small number in front of anything. */
  lemma SmallNumber(b: byte, rest: seq<byte>)
    requires b < 128
    ensures ParseUleb([b] + rest) == Some((b, 1)) && ([b] + rest)[1..] == rest
    ensures ParseUleb([]).None?
  {
    SingleByteUleb(b);
    ParseUlebAppend([b], rest);
  }

  /** Reading one memory section whose body claims a single entry. */
  lemma OneMemoryBody(size: byte, body: seq<byte>)
    requires size < 128 && size == |body| && body != [] && body[0] == 1
    ensures ParseSections([5, size] + body, 0) == ParseEntries(body[1..], 1, 0)
  {
    hide ParseUleb, ParseEntries;
    var s := [5, size] + body;
    assert s[1..] == [size] + body && body == [1] + body[1..];
    SmallNumber(size, body);
    SmallNumber(1, body[1..]);
    assert s[2..2 + size] == body && s[2 + size..] == [];
  }

  /** Reading one entry of small numbers: its minimum, and a maximum if the lowest flag bit asks for one. */
  lemma SmallEntry(flags: byte, rest: seq<byte>)
    requires flags < 128 && 1 <= |rest| <= 2 && forall k :: 0 <= k < |rest| ==> rest[k] < 128
    ensures ParseEntries([flags] + rest, 1, 0) == if flags % 2 == 1 && |rest| == 1 then None else Some(rest[0])
  {
    hide ParseUleb;
    var s := [flags] + rest;
    SmallNumber(flags, rest);
    assert rest == [rest[0]] + rest[1..];
    SmallNumber(rest[0], rest[1..]);
    assert s[2..] == rest[1..];
    if |rest| == 2 {
      assert rest[1..] == [rest[1]] + [];
      SmallNumber(rest[1], []);
    }
    assert forall x: seq<byte>, p: nat :: ParseEntries(x, 0, p) == Some(p);
  }

  /** Whatever the reader answers on starts with the magic number and version 1. */
  lemma AnswersOnlyOnVersionOne(wasm: seq<byte>)
    requires DeclaredMin(wasm).Some?
    ensures |wasm| >= 8 && wasm[..4] == [0x00, 0x61, 0x73, 0x6D] && wasm[4..8] == [1, 0, 0, 0]
  {
    hide ParseSections;
    assert wasm[..4] == wasm[..8][..4] && wasm[4..8] == wasm[..8][4..];
  }

  /** A module passes the gate exactly when the memory it declares fits the linear memory of every
      machine, whatever its RAM and cores. */
  lemma GateIsFleetWide(wasm: seq<byte>, ss: seq<Section>)
    requires IsModule(wasm, ss)
    ensures GatePasses(wasm) <==>
            forall ramMb: u64, cores: usize :: WASM_PAGE_BYTES * MaxPages(ss) <= Build(ramMb, cores).memorySize
  {
    hide IsModule, MaxPages, DeclaredMin, TableElements, SaturatingMul;
    DeclaredMinOf(wasm, ss);
    forall ramMb: u64, cores: usize ensures Build(ramMb, cores).memorySize >= MIN_FLEET_MEMORY_BYTES {
      BuildClosedForm(ramMb, cores);
    }
    assert Build(0, 0).memorySize == MIN_FLEET_MEMORY_BYTES by { BuildClosedForm(0, 0); }
  }

  // ---- Where the reader goes beyond the format ----

  function TrueMaxEntry(es: seq<Entry>): nat {
    if es == [] then 0 else Max(Sum128(es[0].min), TrueMaxEntry(es[1..]))
  }

  /** The largest minimum the entries denote, by the format's own reading of the numbers. */
  function TrueMaxPages(ss: seq<Section>): nat {
    if ss == [] then 0
    else Max(if ss[0].Memory? then TrueMaxEntry(ss[0].entries) else 0, TrueMaxPages(ss[1..]))
  }

  /** Every number of the section denotes a `u32`, as section 5.2.2 demands. */
  predicate EntryInFormat(e: Entry) {
    Sum128(e.flags) < U32_LIMIT && Sum128(e.min) < U32_LIMIT && Sum128(e.max) < U32_LIMIT
  }

  predicate SectionInFormat(s: Section) {
    && Sum128(s.size) < U32_LIMIT
    && (s.Memory? ==>
          && Sum128(s.count) < U32_LIMIT
          && forall j :: 0 <= j < |s.entries| ==> EntryInFormat(s.entries[j]))
  }

  /** The bytes are a module whose numbers the format admits: sizes, counts, flags and limits. */
  predicate FormatModule(wasm: seq<byte>, ss: seq<Section>) {
    IsModule(wasm, ss) && forall i :: 0 <= i < |ss| ==> SectionInFormat(ss[i])
  }

  /** A fifth byte has no bits above the 32nd. */
  predicate Fits(u: seq<byte>) { |u| == 5 ==> u[4] < 16 }

  predicate SectionFits(s: Section) {
    && Fits(s.size)
    && (s.Memory? ==>
          && Fits(s.count)
          && forall j :: 0 <= j < |s.entries| ==>
               Fits(s.entries[j].flags) && Fits(s.entries[j].min) && Fits(s.entries[j].max))
  }

  predicate AllFit(ss: seq<Section>) { forall i :: 0 <= i < |ss| ==> SectionFits(ss[i]) }

  lemma NumberFitsIff(u: seq<byte>)
    requires IsUleb(u) || u == []
    ensures Sum128(u) < U32_LIMIT <==> Fits(u)
    ensures Fits(u) ==> UlebValue(u) == Sum128(u)
  {
    hide Sum128;
    if u == [] {
      SumOfZeroDigits([]);
    } else {
      ReaderAgreesWithFormatIff(u);
    }
  }

  lemma SectionFitsIff(s: Section)
    requires ValidSection(s)
    ensures SectionInFormat(s) <==> SectionFits(s)
  {
    hide Sum128, IsUleb, Fits, UlebValue, Body;
    NumberFitsIff(s.size);
    if s.Memory? {
      NumberFitsIff(s.count);
      forall j | 0 <= j < |s.entries|
        ensures EntryInFormat(s.entries[j]) <==>
                Fits(s.entries[j].flags) && Fits(s.entries[j].min) && Fits(s.entries[j].max)
      {
        NumberFitsIff(s.entries[j].flags);
        NumberFitsIff(s.entries[j].min);
        NumberFitsIff(s.entries[j].max);
      }
    }
  }

  lemma {:induction false} EntriesReadTruly(es: seq<Entry>)
    requires forall j :: 0 <= j < |es| ==> ValidEntry(es[j]) && Fits(es[j].min)
    ensures MaxEntry(es) == TrueMaxEntry(es)
    decreases |es|
  {
    hide Sum128, IsUleb, UlebValue, Fits;
    if es != [] {
      NumberFitsIff(es[0].min);
      EntriesReadTruly(es[1..]);
    }
  }

  lemma {:induction false} SectionsReadTruly(ss: seq<Section>)
    requires ValidSections(ss) && AllFit(ss)
    ensures MaxPages(ss) == TrueMaxPages(ss)
    decreases |ss|
  {
    hide MaxEntry, TrueMaxEntry, Fits, ValidEntry, Body, IsUleb, UlebValue;
    if ss != [] {
      assert ValidSection(ss[0]) && SectionFits(ss[0]);
      if ss[0].Memory? {
        EntriesReadTruly(ss[0].entries);
      }
      SectionsReadTruly(ss[1..]);
    }
  }

  /** What the reader answers on is a module of the format exactly when no number in it, be it a
      size, a count, flags or a limit, has a fifth byte of 16 or more. */
  lemma FormatModuleIff(wasm: seq<byte>, ss: seq<Section>)
    requires IsModule(wasm, ss)
    ensures (exists t :: FormatModule(wasm, t)) <==> AllFit(ss)
  {
    hide SectionsBytes, ValidSection, SectionInFormat, SectionFits;
    forall i | 0 <= i < |ss| ensures SectionInFormat(ss[i]) <==> SectionFits(ss[i]) {
      SectionFitsIff(ss[i]);
    }
    if AllFit(ss) {
      assert FormatModule(wasm, ss);
    }
    forall t | FormatModule(wasm, t) ensures t == ss {
      SameModule(wasm, t, ss);
    }
  }

  lemma SameModule(wasm: seq<byte>, ss: seq<Section>, ts: seq<Section>)
    requires IsModule(wasm, ss) && IsModule(wasm, ts)
    ensures ss == ts
  {
    hide SectionsBytes, ValidSections;
    assert wasm[8..] == SectionsBytes(ss) && wasm[8..] == SectionsBytes(ts);
    ModuleUnique(ss, ts);
  }

  /** On modules of the format the answer is what the numbers denote, and the reader answers beyond
      the format exactly on the bytes of modules with a number that does not fit. */
  lemma DeclaredMinIsTrueIff(wasm: seq<byte>, ss: seq<Section>)
    requires IsModule(wasm, ss)
    ensures (exists t :: FormatModule(wasm, t) && DeclaredMin(wasm) == Some(WASM_PAGE_BYTES * TrueMaxPages(t)))
            <==> AllFit(ss)
    ensures forall t :: FormatModule(wasm, t) ==> DeclaredMin(wasm) == Some(WASM_PAGE_BYTES * TrueMaxPages(t))
  {
    hide DeclaredMin, SectionsBytes, MaxPages, TrueMaxPages, SectionInFormat, SectionFits, ValidSection;
    FormatModuleIff(wasm, ss);
    DeclaredMinOf(wasm, ss);
    if AllFit(ss) {
      SectionsReadTruly(ss);
    }
    forall t | FormatModule(wasm, t) ensures t == ss {
      SameModule(wasm, t, ss);
    }
  }

  /** A module that denotes 2^32 pages and that the gate lets through as if it had none. */
  lemma GateUnderReads()
    ensures var wasm := HEADER + [0x05, 0x07, 0x01, 0x00, 0x80, 0x80, 0x80, 0x80, 0x10];
            var ss := [Memory([0x07], [0x01], [Entry([0x00], [0x80, 0x80, 0x80, 0x80, 0x10], [])], [])];
            IsModule(wasm, ss) && TrueMaxPages(ss) == U32_LIMIT && DeclaredMin(wasm) == Some(0) && GatePasses(wasm)
  {
    hide DeclaredMin, Sum128, ParseUleb;
    var entry := Entry([0x00], [0x80, 0x80, 0x80, 0x80, 0x10], []);
    var section := Memory([0x07], [0x01], [entry], []);
    OversizedIsReadAsZero();
    SingleByteUleb(0x00);
    SingleByteUleb(0x01);
    SingleByteUleb(0x07);
    OneEntrySection([0x07], [0x01], entry);
    assert Body(section) == [0x01, 0x00, 0x80, 0x80, 0x80, 0x80, 0x10];
    var wasm := HEADER + [0x05, 0x07, 0x01, 0x00, 0x80, 0x80, 0x80, 0x80, 0x10];
    assert IsModule(wasm, [section]);
    DeclaredMinOf(wasm, [section]);
  }

  /** Bytes whose section size is no `u32`, so that the format rejects them, and that the gate refuses
      for a memory of 65 pages instead of leaving them to be rejected as malformed. */
  lemma GateJudgesMalformed()
    ensures var wasm := HEADER + [0x05, 0x83, 0x80, 0x80, 0x80, 0x10, 0x01, 0x00, 0x41];
            !(exists t :: FormatModule(wasm, t)) && DeclaredMin(wasm) == Some(65 * WASM_PAGE_BYTES) && !GatePasses(wasm)
  {
    hide DeclaredMin, Sum128, ParseUleb, FormatModule;
    var size: seq<byte> := [0x83, 0x80, 0x80, 0x80, 0x10];
    var entry := Entry([0x00], [0x41], []);
    var section := Memory(size, [0x01], [entry], []);
    OversizedLength();
    SingleByteUleb(0x00);
    SingleByteUleb(0x01);
    SingleByteUleb(0x41);
    OneEntrySection(size, [0x01], entry);
    assert Body(section) == [0x01, 0x00, 0x41];
    var wasm := HEADER + [0x05, 0x83, 0x80, 0x80, 0x80, 0x10, 0x01, 0x00, 0x41];
    assert IsModule(wasm, [section]);
    DeclaredMinOf(wasm, [section]);
    FormatModuleIff(wasm, [section]);
    assert !SectionFits([section][0]);
  }

  lemma OversizedLength()
    ensures var s := [0x83, 0x80, 0x80, 0x80, 0x10]; IsUleb(s) && UlebValue(s) == 3
  {
    var s: seq<byte> := [0x83, 0x80, 0x80, 0x80, 0x10];
    var tail: seq<byte> := [0x80, 0x80, 0x80, 0x10];
    assert s[1..] == tail;
    SumOfZeroDigits([0x80, 0x80, 0x80]);
    assert tail == [0x80, 0x80, 0x80] + [0x10];
    Sum128Snoc([0x80, 0x80, 0x80], 0x10);
    Powers();
  }

  /** The bytes and pages of a module that consists of one memory section with one entry. */
  lemma OneEntrySection(size: seq<byte>, count: seq<byte>, entry: Entry)
    ensures var section := Memory(size, count, [entry], []);
            && Body(section) == count + EntryBytes(entry)
            && SectionsBytes([section]) == [MEMORY_SECTION] + size + Body(section)
            && MaxPages([section]) == UlebValue(entry.min)
            && TrueMaxPages([section]) == Sum128(entry.min)
  {
    hide UlebValue, Sum128;
    var section := Memory(size, count, [entry], []);
    assert [entry][1..] == [] && EntriesBytes([entry]) == EntryBytes(entry) + [];
    assert MaxEntry([entry]) == UlebValue(entry.min) && TrueMaxEntry([entry]) == Sum128(entry.min);
    assert [section][1..] == [] && SectionsBytes([section]) == SectionBytes(section) + [];
  }

  lemma SingleByteUleb(b: byte)
    requires b < 128
    ensures IsUleb([b]) && UlebValue([b]) == b
  {
    assert [b][1..] == [];
    assert Sum128([b]) == b;
  }
}
