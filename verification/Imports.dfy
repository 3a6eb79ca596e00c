/** The import check of `validate_inner` (`src/runtime/contract_runtime.rs`): a contract imports
    the four SDK functions, each exactly once, and nothing else. */
module Imports {
  import opened Bytes

  datatype ValType = I32 | I64 | F32 | F64 | V128 | Ref(kind: nat)

  datatype ExternType = Func(params: seq<ValType>, results: seq<ValType>) | NotFunc(description: string)

  datatype Import = Import(source: string, name: string, ty: ExternType)

  datatype ImportError =
    | UnexpectedImportModule(source: string, name: string)
    | NonFunctionImport(importType: string)
    | InvalidImportSignature(name: string, expected: string)
    | UnknownImportFunction(name: string)
    | MissingImports(missing: set<string>)

  const SDK_FUNCTIONS: set<string> := {"pointer_len", "alloc", "read_bytes", "write_bytes"}

  function ExpectedSignature(name: string): Option<(seq<ValType>, seq<ValType>, string)> {
    if name == "pointer_len" || name == "alloc" then Some(([I32], [I32], "(param i32) (result i32)"))
    else if name == "read_bytes" || name == "write_bytes" then Some(([I32, I32, I32], [], "(param i32 i32 i32)"))
    else None
  }

  predicate ValTypeEq(a: ValType, b: ValType) { a == b || (a.Ref? && b.Ref?) }

  predicate ValTypesEq(a: seq<ValType>, b: seq<ValType>) {
    |a| == |b| && forall i :: 0 <= i < |a| ==> ValTypeEq(a[i], b[i])
  }

  predicate SignatureMatches(ty: ExternType, expected: (seq<ValType>, seq<ValType>, string)) {
    ty.Func? && ValTypesEq(ty.params, expected.0) && ValTypesEq(ty.results, expected.1)
  }

  // ---- What the check promises ----

  /** An import of an SDK function as the host provides it. */
  predicate Conforms(i: Import) {
    && i.source == "env"
    && i.name in SDK_FUNCTIONS
    && i.ty == if i.name in {"pointer_len", "alloc"} then Func([I32], [I32]) else Func([I32, I32, I32], [])
  }

  function Names(imports: seq<Import>): (names: seq<string>)
    ensures |names| == |imports| && forall i :: 0 <= i < |imports| ==> names[i] == imports[i].name
  {
    seq(|imports|, i requires 0 <= i < |imports| => imports[i].name)
  }

  /** The imports are the SDK functions in some order, none left out and none repeated. */
  ghost predicate ExactlySdk(imports: seq<Import>) {
    && (forall i :: 0 <= i < |imports| ==> Conforms(imports[i]))
    && multiset(Names(imports)) == multiset(SDK_FUNCTIONS)
  }

  /** Import `k` conforms and repeats none before it. */
  predicate Fine(imports: seq<Import>, k: nat)
    requires k < |imports|
  {
    Conforms(imports[k]) && forall j :: 0 <= j < k ==> imports[j].name != imports[k].name
  }

  /** What an error says about the import it blames, given the names imported before. */
  predicate Blames(error: ImportError, i: Import, earlier: seq<string>) {
    match error
    case UnexpectedImportModule(source, name) => source == i.source && name == i.name && source != "env"
    case NonFunctionImport(description) => i.source == "env" && i.ty == NotFunc(description)
    case InvalidImportSignature(name, text) =>
      && i.source == "env" && name == i.name && name in SDK_FUNCTIONS && i.ty.Func? && !Conforms(i)
      && text == ExpectedSignature(name).value.2
    case UnknownImportFunction(name) =>
      i.source == "env" && name == i.name && i.ty.Func? && (name !in SDK_FUNCTIONS || (Conforms(i) && name in earlier))
    case MissingImports(_) => false
  }

  /** An import names the signature the host gives exactly when it conforms. */
  lemma ConformsIff(i: Import)
    ensures i.name in SDK_FUNCTIONS <==> ExpectedSignature(i.name).Some?
    ensures i.name in SDK_FUNCTIONS <==>
            i.name == "pointer_len" || i.name == "alloc" || i.name == "read_bytes" || i.name == "write_bytes"
    ensures Conforms(i) <==>
            && i.source == "env" && i.name in SDK_FUNCTIONS
            && SignatureMatches(i.ty, ExpectedSignature(i.name).value)
    ensures Conforms(i) ==> i.ty.Func?
    ensures i.name in SDK_FUNCTIONS ==>
              ExpectedSignature(i.name).value.2 ==
              if i.name in {"pointer_len", "alloc"} then "(param i32) (result i32)" else "(param i32 i32 i32)"
  {
    if i.name in SDK_FUNCTIONS && SignatureMatches(i.ty, ExpectedSignature(i.name).value) {
      var params, results := i.ty.params, i.ty.results;
      if i.name in {"pointer_len", "alloc"} {
        assert params == [I32] && results == [I32];
      } else {
        assert params == [I32, I32, I32] && results == [];
      }
    }
  }

  /** Which import is the first that is not fine. */
  ghost predicate FirstOffender(imports: seq<Import>, k: nat) {
    k < |imports| && !Fine(imports, k) && forall j :: 0 <= j < k ==> Fine(imports, j)
  }

  /** An error blames the first import that is not fine, or every import is fine and it names exactly
      the SDK functions that were not imported. */
  ghost predicate Justified(error: ImportError, imports: seq<Import>) {
    if error.MissingImports? then
      && (forall k :: 0 <= k < |imports| ==> Fine(imports, k))
      && error.missing == SDK_FUNCTIONS - (set n | n in Names(imports))
      && error.missing != {}
    else
      exists k: nat :: FirstOffender(imports, k) && Blames(error, imports[k], Names(imports[..k]))
  }

  /** The loop over the imports. It accepts exactly the permutations of the SDK functions; the
      first offending import decides the error; if none offends, the error names exactly the
      functions that were not imported. */
  method ValidateImports(imports: seq<Import>) returns (r: Result<(), ImportError>)
    ensures r.Ok? <==> ExactlySdk(imports)
    ensures r.Err? ==> Justified(r.error, imports)
  {
    hide ExpectedSignature, SignatureMatches, Conforms, Names, Seen, Fine;
    var pending := SDK_FUNCTIONS;
    var i := 0;
    NothingSeen(imports);
    while i < |imports|
      invariant 0 <= i <= |imports|
      invariant forall k :: 0 <= k < i ==> Fine(imports, k)
      invariant Seen(imports, i, pending)
    {
      var import_ := imports[i];
      ConformsIff(import_);
      FineIff(imports, i, pending);
      if !Fine(imports, i) {
        NotExact(imports, i);
        assert FirstOffender(imports, i);
      }
      if import_.source != "env" {
        return Err(UnexpectedImportModule(import_.source, import_.name));
      }
      if import_.ty.NotFunc? {
        return Err(NonFunctionImport(import_.ty.description));
      }
      var expected := ExpectedSignature(import_.name);
      if expected.Some? && !SignatureMatches(import_.ty, expected.value) {
        return Err(InvalidImportSignature(import_.name, expected.value.2));
      }
      if import_.name !in pending {
        return Err(UnknownImportFunction(import_.name));
      }
      SeenOneMore(imports, i, pending);
      pending := pending - {import_.name};
      i := i + 1;
    }
    AllSeen(imports, pending);
    if pending != {} {
      return Err(MissingImports(pending));
    }
    return Ok(());
  }

  /** After `i` imports the pending names are those not imported yet, and together with the
      imported ones they are the SDK functions, each once. */
  ghost predicate Seen(imports: seq<Import>, i: nat, pending: set<string>)
    requires i <= |imports|
  {
    && pending == SDK_FUNCTIONS - (set n | n in Names(imports[..i]))
    && multiset(Names(imports[..i])) + multiset(pending) == multiset(SDK_FUNCTIONS)
  }

  lemma NothingSeen(imports: seq<Import>)
    ensures Seen(imports, 0, SDK_FUNCTIONS)
  {
    assert Names(imports[..0]) == [];
  }

  lemma FineIff(imports: seq<Import>, i: nat, pending: set<string>)
    requires i < |imports| && Seen(imports, i, pending)
    ensures Fine(imports, i) <==> Conforms(imports[i]) && imports[i].name in pending
    ensures imports[i].name in pending <==>
            imports[i].name in SDK_FUNCTIONS && imports[i].name !in Names(imports[..i])
    ensures Conforms(imports[i]) ==> imports[i].name in SDK_FUNCTIONS
  {
    NamesSnoc(imports, i);
  }

  lemma SeenOneMore(imports: seq<Import>, i: nat, pending: set<string>)
    requires i < |imports| && Seen(imports, i, pending) && imports[i].name in pending
    ensures Seen(imports, i + 1, pending - {imports[i].name})
  {
    hide Names;
    NamesSnoc(imports, i);
    PendingRemoves(Names(imports[..i]), pending, imports[i].name);
  }

  lemma AllSeen(imports: seq<Import>, pending: set<string>)
    requires Seen(imports, |imports|, pending) && forall k :: 0 <= k < |imports| ==> Fine(imports, k)
    ensures pending == SDK_FUNCTIONS - (set n | n in Names(imports))
    ensures pending == {} <==> ExactlySdk(imports)
  {
    hide Names, Conforms;
    assert imports[..|imports|] == imports;
    FineConform(imports);
    if n :| n in pending {
      var names := multiset(Names(imports));
      assert multiset(pending)[n] == 1;
      assert (names + multiset(pending))[n] == names[n] + 1;
    }
  }

  lemma FineConform(imports: seq<Import>)
    requires forall k :: 0 <= k < |imports| ==> Fine(imports, k)
    ensures forall k :: 0 <= k < |imports| ==> Conforms(imports[k])
  {
    forall k | 0 <= k < |imports| ensures Conforms(imports[k]) {
      assert Fine(imports, k);
    }
  }

  lemma NamesSnoc(imports: seq<Import>, i: nat)
    requires i < |imports|
    ensures Names(imports[..i + 1]) == Names(imports[..i]) + [imports[i].name]
    ensures imports[i].name in Names(imports[..i]) <==> exists j :: 0 <= j < i && imports[j].name == imports[i].name
  {
    var earlier := Names(imports[..i]);
    forall j | 0 <= j < i ensures earlier[j] == imports[j].name {
      assert imports[..i][j] == imports[j];
    }
  }

  /** Removing a pending name moves it to the names already seen. */
  lemma PendingRemoves(earlier: seq<string>, pending: set<string>, name: string)
    requires name in pending && pending == SDK_FUNCTIONS - (set n | n in earlier)
    requires multiset(earlier) + multiset(pending) == multiset(SDK_FUNCTIONS)
    ensures pending - {name} == SDK_FUNCTIONS - (set n | n in earlier + [name])
    ensures multiset(earlier + [name]) + multiset(pending - {name}) == multiset(SDK_FUNCTIONS)
  {
    assert multiset(pending) == multiset(pending - {name}) + multiset{name};
  }

  /** A list with an offending import is no permutation of the SDK functions. */
  lemma NotExact(imports: seq<Import>, k: nat)
    requires k < |imports| && !Fine(imports, k)
    ensures !ExactlySdk(imports)
  {
    hide Conforms;
    if j :| 0 <= j < k && imports[j].name == imports[k].name {
      var names := Names(imports);
      RepeatedTwice(names, j, k);
      assert multiset(SDK_FUNCTIONS)[names[k]] <= 1;
    }
  }

  lemma RepeatedTwice(names: seq<string>, j: nat, k: nat)
    requires j < k < |names| && names[j] == names[k]
    ensures multiset(names)[names[k]] >= 2
  {
    assert names == names[..k] + [names[k]] + names[k + 1..];
    assert names[..k][j] in multiset(names[..k]);
  }
}
