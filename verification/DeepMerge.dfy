/** Deep merge of layered configurations: nested objects are merged, everything else is replaced. */
module DeepMerge {

  /** A list counts as a leaf. */
  datatype Value<L> = Leaf(value: L) | Obj(fields: map<string, Value<L>>)

  function Merge<L>(base: Value<L>, over: Value<L>): Value<L>
    decreases over
  {
    if base.Obj? && over.Obj? then
      Obj(map k | k in base.fields.Keys + over.fields.Keys ::
        if k !in over.fields then base.fields[k]
        else if k in base.fields then Merge(base.fields[k], over.fields[k])
        else over.fields[k])
    else over
  }

  method MergeDicts<L>(base: map<string, Value<L>>, over: map<string, Value<L>>)
    returns (result: map<string, Value<L>>)
    ensures Obj(result) == Merge(Obj(base), Obj(over))
    decreases Obj(over)
  {
    result := base;
    var rest := over.Keys;
    while rest != {}
      invariant rest <= over.Keys
      invariant result.Keys == base.Keys + (over.Keys - rest)
      invariant forall k :: k in result.Keys ==>
                  result[k] == if k in rest || k !in over then base[k] else Merge(Obj(base), Obj(over)).fields[k]
      decreases rest
    {
      var key :| key in rest;
      rest := rest - {key};
      if key in result && result[key].Obj? && over[key].Obj? {
        var merged := MergeDicts(result[key].fields, over[key].fields);
        result := result[key := Obj(merged)];
      } else {
        result := result[key := over[key]];
      }
    }
  }

  // ----- precedence, path by path

  /** What a value has at a path: nothing, nothing because of a leaf on the way, a leaf, or an object. */
  datatype Status<L> = Missing | Blocked | HasLeaf(value: L) | HasObject

  function At<L>(v: Value<L>, path: seq<string>): Status<L> {
    if path == [] then (if v.Leaf? then HasLeaf(v.value) else HasObject)
    else if v.Leaf? then Blocked
    else if path[0] !in v.fields then Missing
    else At(v.fields[path[0]], path[1..])
  }

  /** On the way down the path a leaf of the base gives way to an object of the override. */
  predicate LeafReplaced<L>(base: Value<L>, over: Value<L>, path: seq<string>) {
    path != [] && over.Obj? &&
    (base.Leaf? || (path[0] in base.fields && path[0] in over.fields &&
                    LeafReplaced(base.fields[path[0]], over.fields[path[0]], path[1..])))
  }

  /** The override decides wherever it has anything, or a leaf on the way; elsewhere the base does, unless
      the override replaced a leaf on the way by an object. */
  lemma {:induction false} MergeAt<L>(base: Value<L>, over: Value<L>, path: seq<string>)
    ensures At(Merge(base, over), path) ==
            if !At(over, path).Missing? then At(over, path)
            else if LeafReplaced(base, over, path) then Missing
            else At(base, path)
    decreases |path|
  {
    if path != [] && base.Obj? && over.Obj? {
      var key := path[0];
      if key in base.fields && key in over.fields {
        MergeAt(base.fields[key], over.fields[key], path[1..]);
      }
    }
  }

  /** A leaf of the result comes from the override if it has one there, otherwise from the base where the
      override has nothing and no leaf on the way. */
  lemma LeafPrecedence<L>(base: Value<L>, over: Value<L>, path: seq<string>, value: L)
    ensures At(Merge(base, over), path) == HasLeaf(value) <==>
            At(over, path) == HasLeaf(value) || (At(over, path).Missing? && At(base, path) == HasLeaf(value))
  {
    MergeAt(base, over, path);
    if At(base, path).HasLeaf? {
      NothingReplacedAbove(base, over, path);
    }
  }

  lemma {:induction false} NothingReplacedAbove<L>(base: Value<L>, over: Value<L>, path: seq<string>)
    requires At(base, path).HasLeaf? || At(base, path).HasObject?
    ensures !LeafReplaced(base, over, path)
    decreases |path|
  {
    if path != [] && over.Obj? && path[0] in base.fields && path[0] in over.fields {
      NothingReplacedAbove(base.fields[path[0]], over.fields[path[0]], path[1..]);
    }
  }

  lemma KeyHasStatus<L>(v: Value<L>, k: string)
    requires v.Obj?
    ensures k in v.fields <==> !At(v, [k]).Missing?
  {
    assert [k][1..] == [];
  }

  lemma AtBelow<L>(v: Value<L>, k: string, path: seq<string>)
    requires v.Obj? && k in v.fields
    ensures At(v, [k] + path) == At(v.fields[k], path)
  {
    assert ([k] + path)[1..] == path;
  }

  ghost predicate SameStatus<L>(v: Value<L>, w: Value<L>) {
    forall path :: At(v, path) == At(w, path)
  }

  lemma SameKeys<L>(v: Value<L>, w: Value<L>, k: string)
    requires v.Obj? && w.Obj? && SameStatus(v, w)
    ensures k in v.fields <==> k in w.fields
  {
    KeyHasStatus(v, k);
    KeyHasStatus(w, k);
    assert At(v, [k]) == At(w, [k]);
  }

  lemma SameBelow<L>(v: Value<L>, w: Value<L>, k: string)
    requires v.Obj? && w.Obj? && SameStatus(v, w) && k in v.fields && k in w.fields
    ensures SameStatus(v.fields[k], w.fields[k])
  {
    forall path ensures At(v.fields[k], path) == At(w.fields[k], path) {
      AtBelow(v, k, path);
      AtBelow(w, k, path);
      assert At(v, [k] + path) == At(w, [k] + path);
    }
  }

  /** Values with the same status everywhere are equal, so precedence determines the merge. */
  lemma {:induction false} SameEverywhere<L>(v: Value<L>, w: Value<L>)
    requires SameStatus(v, w)
    ensures v == w
    decreases v
  {
    assert At(v, []) == At(w, []);
    if v.Obj? {
      forall k ensures k in v.fields <==> k in w.fields {
        SameKeys(v, w, k);
      }
      forall k | k in v.fields ensures v.fields[k] == w.fields[k] {
        SameBelow(v, w, k);
        SameEverywhere(v.fields[k], w.fields[k]);
      }
    }
  }

  // ----- algebra

  lemma {:induction false} MergeSelf<L>(v: Value<L>)
    ensures Merge(v, v) == v
    decreases v
  {
    if v.Obj? {
      forall k | k in v.fields ensures Merge(v.fields[k], v.fields[k]) == v.fields[k] {
        MergeSelf(v.fields[k]);
      }
      assert Merge(v, v).fields == v.fields;
    }
  }

  /** Where both are objects, w has every key of v, all the way down. */
  predicate Covers<L>(w: Value<L>, v: Value<L>)
    decreases v
  {
    v.Obj? && w.Obj? ==>
      forall k :: k in v.fields ==> k in w.fields && Covers(w.fields[k], v.fields[k])
  }

  lemma {:induction false} CoveredIsAbsorbed<L>(v: Value<L>, w: Value<L>)
    ensures Merge(v, w) == w <==> Covers(w, v)
    decreases v
  {
    if v.Obj? && w.Obj? {
      forall k | k in v.fields && k in w.fields
        ensures Merge(v.fields[k], w.fields[k]) == w.fields[k] <==> Covers(w.fields[k], v.fields[k])
      {
        CoveredIsAbsorbed(v.fields[k], w.fields[k]);
      }
      if Covers(w, v) {
        assert Merge(v, w).fields == w.fields;
      }
      if Merge(v, w) == w {
        assert forall k :: k in v.fields ==> k in Merge(v, w).fields;
        assert forall k :: k in v.fields ==> Merge(v.fields[k], w.fields[k]) == Merge(v, w).fields[k];
      }
    }
  }

  /** Where the middle layer replaces an object of the lowest by a leaf and the highest puts an object
      there again, that object covers the lowest one. */
  predicate LeafHidesNothing<L>(low: Value<L>, middle: Value<L>, high: Value<L>)
    decreases low
  {
    (low.Obj? && middle.Leaf? && high.Obj? ==> Covers(high, low)) &&
    (low.Obj? && middle.Obj? && high.Obj? ==>
      forall k :: k in low.fields && k in middle.fields && k in high.fields ==>
        LeafHidesNothing(low.fields[k], middle.fields[k], high.fields[k]))
  }

  lemma MergeKey<L>(base: Value<L>, over: Value<L>, k: string)
    requires base.Obj? && over.Obj?
    ensures var m := Merge(base, over);
            m.Obj? && (k in m.fields <==> k in base.fields || k in over.fields) &&
            (k in m.fields ==>
              m.fields[k] == if k !in over.fields then base.fields[k]
                             else if k in base.fields then Merge(base.fields[k], over.fields[k])
                             else over.fields[k])
  {
  }

  /** Layering is associative exactly when no middle leaf hides anything. */
  lemma {:induction false} LayeringIsAssociativeExactly<L>(low: Value<L>, middle: Value<L>, high: Value<L>)
    ensures Merge(Merge(low, middle), high) == Merge(low, Merge(middle, high)) <==> LeafHidesNothing(low, middle, high)
    decreases low
  {
    if low.Obj? && middle.Obj? && high.Obj? {
      var left, right := Merge(Merge(low, middle), high), Merge(low, Merge(middle, high));
      forall k
        ensures (k in left.fields <==> k in right.fields) &&
                (k in left.fields ==> (left.fields[k] == right.fields[k] <==>
                  (k in low.fields && k in middle.fields && k in high.fields ==>
                    LeafHidesNothing(low.fields[k], middle.fields[k], high.fields[k]))))
      {
        MergeKey(low, middle, k);
        MergeKey(Merge(low, middle), high, k);
        MergeKey(middle, high, k);
        MergeKey(low, Merge(middle, high), k);
        if k in low.fields && k in middle.fields && k in high.fields {
          LayeringIsAssociativeExactly(low.fields[k], middle.fields[k], high.fields[k]);
        }
      }
      if LeafHidesNothing(low, middle, high) {
        assert left.fields == right.fields;
      }
    } else if low.Obj? && middle.Leaf? && high.Obj? {
      CoveredIsAbsorbed(low, high);
    }
  }
}
