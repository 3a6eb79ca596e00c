/** The abstract heap that the flat host memory implements: a growing list of objects, each
    living at the address where the earlier ones end. */
module ObjectHeap {
  import opened Bytes

  type Object = seq<byte>

  function Flatten(objs: seq<Object>): seq<byte> {
    if objs == [] then [] else Flatten(objs[..|objs| - 1]) + objs[|objs| - 1]
  }

  /** The address of object `i`. */
  function Base(objs: seq<Object>, i: nat): nat
    requires i <= |objs|
  {
    |Flatten(objs[..i])|
  }

  /** The heap as a map from pointers to contents. */
  function AsMap(objs: seq<Object>): map<int, Object> {
    if objs == [] then map[]
    else AsMap(objs[..|objs| - 1])[|Flatten(objs[..|objs| - 1])| := objs[|objs| - 1]]
  }

  predicate AllNonEmpty(objs: seq<Object>) { forall i :: 0 <= i < |objs| ==> |objs[i]| > 0 }

  predicate AllAtMost(objs: seq<Object>, max: nat) { forall i :: 0 <= i < |objs| ==> |objs[i]| <= max }

  lemma FlattenSnoc(objs: seq<Object>, o: Object)
    ensures Flatten(objs + [o]) == Flatten(objs) + o
    ensures AsMap(objs + [o]) == AsMap(objs)[|Flatten(objs)| := o]
  {
    assert (objs + [o])[..|objs|] == objs;
  }

  lemma BaseStep(objs: seq<Object>, i: nat)
    requires i < |objs|
    ensures Base(objs, i + 1) == Base(objs, i) + |objs[i]|
  {
    assert objs[..i + 1][..i] == objs[..i];
  }

  /** The object that lives at `p`. */
  function IndexOf(objs: seq<Object>, p: int): (i: nat)
    requires p in AsMap(objs)
    ensures i < |objs| && Base(objs, i) == p && AsMap(objs)[p] == objs[i]
  {
    var init := objs[..|objs| - 1];
    if p == |Flatten(init)| then |objs| - 1
    else
      var i := IndexOf(init, p);
      assert init[..i] == objs[..i];
      i
  }

  /** Every object lies inside memory, right after the earlier ones. */
  lemma ObjectInFlat(objs: seq<Object>, i: nat)
    requires i < |objs|
    ensures Base(objs, i) + |objs[i]| <= |Flatten(objs)|
    ensures Flatten(objs)[Base(objs, i)..Base(objs, i) + |objs[i]|] == objs[i]
    decreases |objs|
  {
    var init := objs[..|objs| - 1];
    if i < |init| {
      ObjectInFlat(init, i);
      assert init[..i] == objs[..i];
    }
  }

  lemma KeysBelowSize(objs: seq<Object>)
    requires AllNonEmpty(objs)
    ensures forall p :: p in AsMap(objs) ==> 0 <= p < |Flatten(objs)|
  {
    forall p | p in AsMap(objs) ensures 0 <= p < |Flatten(objs)| {
      ObjectInFlat(objs, IndexOf(objs, p));
    }
  }

  /** Every object is found under its address. */
  lemma ObjectInMap(objs: seq<Object>, i: nat)
    requires AllNonEmpty(objs) && i < |objs|
    ensures Base(objs, i) in AsMap(objs) && AsMap(objs)[Base(objs, i)] == objs[i]
    ensures IndexOf(objs, Base(objs, i)) == i
    decreases |objs|
  {
    var init := objs[..|objs| - 1];
    if i < |init| {
      assert init[..i] == objs[..i];
      ObjectInFlat(init, i);
      ObjectInMap(init, i);
    }
  }

  /** The tracked ranges partition memory: every address belongs to exactly one object. */
  lemma Partition(objs: seq<Object>, a: nat)
    requires AllNonEmpty(objs) && a < |Flatten(objs)|
    ensures exists p :: p in AsMap(objs) && p <= a < p + |AsMap(objs)[p]|
    ensures forall p, q ::
              (p in AsMap(objs) && q in AsMap(objs)
               && p <= a < p + |AsMap(objs)[p]| && q <= a < q + |AsMap(objs)[q]|) ==> p == q
    decreases |objs|
  {
    var init, last := objs[..|objs| - 1], objs[|objs| - 1];
    var heap := AsMap(objs);
    KeysBelowSize(init);
    forall p | p in AsMap(init) ensures p + |AsMap(init)[p]| <= |Flatten(init)| && heap[p] == AsMap(init)[p] {
      ObjectInFlat(init, IndexOf(init, p));
    }
    if a < |Flatten(init)| {
      Partition(init, a);
      var p :| p in AsMap(init) && p <= a < p + |AsMap(init)[p]|;
      assert p in heap;
    } else {
      assert |Flatten(init)| in heap;
    }
  }

  /** The pointer of the object that holds address `a`. */
  function Owner(objs: seq<Object>, a: nat): (p: int)
    requires a < |Flatten(objs)|
    ensures p in AsMap(objs) && p <= a < p + |AsMap(objs)[p]|
  {
    var init := objs[..|objs| - 1];
    if a >= |Flatten(init)| then |Flatten(init)| else Owner(init, a)
  }

  /** Replacing an object by one of the same length changes its own bytes and nothing else. */
  lemma ReplaceObject(objs: seq<Object>, i: nat, o: Object)
    requires i < |objs| && |o| == |objs[i]|
    ensures var b := Base(objs, i);
            && b + |o| <= |Flatten(objs)|
            && Flatten(objs[i := o]) == Splice(Flatten(objs), b, o)
    decreases |objs|
  {
    hide Flatten, Splice;
    ObjectInFlat(objs, i);
    var n := |objs| - 1;
    var init, last := objs[..n], objs[n];
    assert objs == init + [last];
    FlattenSnoc(init, last);
    if i == n {
      assert objs[i := o] == init + [o];
      FlattenSnoc(init, o);
      SpliceLast(Flatten(init), last, o);
    } else {
      assert init[..i] == objs[..i];
      assert objs[i := o] == init[i := o] + [last];
      FlattenSnoc(init[i := o], last);
      ReplaceObject(init, i, o);
      SpliceFirst(Flatten(init), last, Base(objs, i), o);
    }
  }

  lemma SpliceLast(a: seq<byte>, b: seq<byte>, o: seq<byte>)
    requires |b| == |o|
    ensures Splice(a + b, |a|, o) == a + o
  {
  }

  lemma SpliceFirst(a: seq<byte>, b: seq<byte>, at: nat, o: seq<byte>)
    requires at + |o| <= |a|
    ensures Splice(a + b, at, o) == Splice(a, at, o) + b
  {
  }

  lemma ReplaceInMap(objs: seq<Object>, i: nat, o: Object)
    requires AllNonEmpty(objs) && i < |objs| && |o| == |objs[i]|
    ensures AsMap(objs[i := o]) == AsMap(objs)[Base(objs, i) := o]
    decreases |objs|
  {
    hide Flatten, AsMap, Splice;
    var n := |objs| - 1;
    var init, last := objs[..n], objs[n];
    assert objs == init + [last];
    FlattenSnoc(init, last);
    if i == n {
      assert objs[i := o] == init + [o];
      FlattenSnoc(init, o);
    } else {
      assert init[..i] == objs[..i];
      assert objs[i := o] == init[i := o] + [last];
      FlattenSnoc(init[i := o], last);
      ReplaceInMap(init, i, o);
      ReplaceObject(init, i, o);
      ObjectInFlat(init, i);
    }
  }
}
