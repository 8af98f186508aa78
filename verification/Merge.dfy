/** The merge of a component kind's default config with its overrides, and the laws it obeys. */
module Merge {
  import opened Values

  /** `_deep_merge`. */
  function DeepMerge(base: Value, over: Value): Value
    decreases over, 0
  {
    if base.Mapping? && over.Mapping? then
      Mapping(MergeInto(base.entries, base.entries, over.entries))
    else
      over
  }

  function MergeInto(merged: Entries, base: Entries, over: Entries): Entries
    decreases over, 0
  {
    match over
    case Empty => merged
    case Entry(k, v, rest) => MergeInto(Put(merged, k, MergeAt(base, k, v)), base, rest)
  }

  function MergeAt(base: Entries, key: Key, v: Value): Value
    decreases v, 1
  {
    match Lookup(base, key)
    case Some(b) => DeepMerge(b, v)
    case None => v
  }

  // ---- lookup in a merge -----------------------------------------------------------------

  /** What one key of a merge holds. */
  function MergedLookup(base: Entries, over: Entries, key: Key): Option<Value>
  {
    match Lookup(over, key)
    case None => Lookup(base, key)
    case Some(v) => Some(MergeAt(base, key, v))
  }

  lemma {:induction false} MergeIntoLookup(merged: Entries, base: Entries, over: Entries, key: Key)
    requires Distinct(over)
    ensures Lookup(MergeInto(merged, base, over), key)
         == if Lookup(over, key).None? then Lookup(merged, key) else MergedLookup(base, over, key)
    decreases over
  {
    match over
    case Empty =>
    case Entry(k, v, rest) =>
      MergeIntoLookup(Put(merged, k, MergeAt(base, k, v)), base, rest, key);
      LookupPut(merged, k, MergeAt(base, k, v), key);
  }

  lemma MergeLookup(base: Value, over: Value, key: Key)
    requires base.Mapping? && over.Mapping? && DistinctKeys(over)
    ensures DeepMerge(base, over).Mapping?
    ensures Lookup(DeepMerge(base, over).entries, key) == MergedLookup(base.entries, over.entries, key)
  {
    MergeIntoLookup(base.entries, base.entries, over.entries, key);
  }

  /** Where a path leads. `Missing` ends in a mapping without the next key; `Blocked` runs into
  something that is not a mapping with path left over. */
  datatype Site = Bound(value: Value) | Missing | Blocked

  function Find(x: Value, path: seq<Key>): Site
    decreases |path|
  {
    if path == [] then Bound(x)
    else if !x.Mapping? then Blocked
    else
      match Lookup(x.entries, path[0])
      case None => Missing
      case Some(v) => Find(v, path[1..])
  }

  /** The path-lookup rule: the override decides wherever it is bound, and hides the defaults
  below anything of its own that is not a mapping. */
  lemma {:induction false} MergePathRule(base: Value, over: Value, path: seq<Key>)
    requires DistinctKeys(base) && DistinctKeys(over)
    ensures match Find(over, path) {
              case Bound(v) =>
                Find(DeepMerge(base, over), path)
                == Bound(if Find(base, path).Bound? then DeepMerge(Find(base, path).value, v) else v)
              case Missing =>
                if Find(base, path).Bound? then Find(DeepMerge(base, over), path) == Find(base, path)
                else !Find(DeepMerge(base, over), path).Bound?
              case Blocked => Find(DeepMerge(base, over), path) == Blocked
            }
    decreases |path|
  {
    if path != [] && over.Mapping? && base.Mapping? {
      MergeLookup(base, over, path[0]);
      var b, v := Lookup(base.entries, path[0]), Lookup(over.entries, path[0]);
      if b.Some? && v.Some? {
        DistinctKeysAt(base.entries, path[0]);
        DistinctKeysAt(over.entries, path[0]);
        MergePathRule(b.value, v.value, path[1..]);
      }
    }
  }

  lemma {:induction false} MergeKeepsDistinct(base: Value, over: Value)
    requires DistinctKeys(base) && DistinctKeys(over)
    ensures DistinctKeys(DeepMerge(base, over))
    decreases over
  {
    if base.Mapping? && over.Mapping? {
      MergeIntoKeepsDistinct(base.entries, base.entries, over.entries);
    }
  }

  lemma {:induction false} MergeIntoKeepsDistinct(merged: Entries, base: Entries, over: Entries)
    requires Distinct(merged) && DistinctKeysIn(merged)
    requires DistinctKeysIn(base) && DistinctKeysIn(over)
    ensures Distinct(MergeInto(merged, base, over)) && DistinctKeysIn(MergeInto(merged, base, over))
    decreases over
  {
    if over.Entry? {
      var key := over.key;
      DistinctKeysAt(base, key);
      if Lookup(base, key).Some? {
        MergeKeepsDistinct(Lookup(base, key).value, over.value);
      }
      PutKeepsDistinct(merged, key, MergeAt(base, key, over.value));
      MergeIntoKeepsDistinct(Put(merged, key, MergeAt(base, key, over.value)), base, over.rest);
    }
  }

  lemma {:induction false} PutKeepsDistinct(entries: Entries, key: Key, value: Value)
    requires Distinct(entries) && DistinctKeysIn(entries) && DistinctKeys(value)
    ensures Distinct(Put(entries, key, value)) && DistinctKeysIn(Put(entries, key, value))
  {
    if entries.Entry? && entries.key != key {
      LookupPut(entries.rest, key, value, entries.key);
      PutKeepsDistinct(entries.rest, key, value);
    }
  }

  /** The keys of `over` that `base` does not have, in their order. */
  function NewKeys(over: Entries, base: Entries): seq<Key>
  {
    match over
    case Empty => []
    case Entry(k, _, rest) => (if Lookup(base, k).None? then [k] else []) + NewKeys(rest, base)
  }

  /** A merge keeps the defaults' keys in their places; the override's new ones follow in order. */
  lemma MergeKeys(base: Value, over: Value)
    requires base.Mapping? && over.Mapping? && DistinctKeys(over)
    ensures DeepMerge(base, over).Mapping?
    ensures Keys(DeepMerge(base, over).entries) == Keys(base.entries) + NewKeys(over.entries, base.entries)
  {
    MergeIntoKeys(base.entries, base.entries, over.entries);
  }

  lemma {:induction false} MergeIntoKeys(merged: Entries, base: Entries, over: Entries)
    requires Distinct(over)
    ensures Keys(MergeInto(merged, base, over)) == Keys(merged) + NewKeys(over, merged)
    decreases over
  {
    match over
    case Empty =>
    case Entry(k, v, rest) =>
      var x := MergeAt(base, k, v);
      KeysPut(merged, k, x);
      SameNewKeys(rest, merged, k, x);
      MergeIntoKeys(Put(merged, k, x), base, rest);
  }

  lemma {:induction false} SameNewKeys(over: Entries, base: Entries, key: Key, x: Value)
    requires Lookup(over, key).None?
    ensures NewKeys(over, Put(base, key, x)) == NewKeys(over, base)
  {
    if over.Entry? {
      LookupPut(base, key, x, over.key);
      SameNewKeys(over.rest, base, key, x);
    }
  }

  // ---- the algebra -----------------------------------------------------------------------

  /** `==` on Python values: dicts compare by key, whatever their order. */
  ghost predicate Same(x: Value, y: Value)
  {
    match (x, y)
    case (Mapping(xs), Mapping(ys)) =>
      forall k {:trigger Lookup(xs, k)} {:trigger Lookup(ys, k)} :: 
        match (Lookup(xs, k), Lookup(ys, k)) {
          case (None, None) => true
          case (Some(v), Some(w)) => Same(v, w)
          case _ => false
        }
    case (List(xs), List(ys)) => SameItems(xs, ys)
    case (Tuple(xs), Tuple(ys)) => SameItems(xs, ys)
    case (ComponentDef(kind, config), ComponentDef(kind', config')) => kind == kind' && Same(config, config')
    case (Tagged(tag, v), Tagged(tag', w)) => tag == tag' && Same(v, w)
    case _ => x == y
  }

  ghost predicate SameItems(xs: Items, ys: Items)
  {
    match (xs, ys)
    case (Nil, Nil) => true
    case (Cons(x, xs'), Cons(y, ys')) => Same(x, y) && SameItems(xs', ys')
    case _ => false
  }

  lemma {:induction false} SameReflexive(x: Value)
    ensures Same(x, x)
  {
    match x
    case Mapping(es) =>
      forall k | Lookup(es, k).Some? ensures Same(Lookup(es, k).value, Lookup(es, k).value) {
        SameReflexive(Lookup(es, k).value);
      }
    case List(xs) => SameItemsReflexive(xs);
    case Tuple(xs) => SameItemsReflexive(xs);
    case ComponentDef(_, config) => SameReflexive(config);
    case Tagged(_, v) => SameReflexive(v);
    case _ =>
  }

  lemma {:induction false} SameItemsReflexive(xs: Items)
    ensures SameItems(xs, xs)
  {
    if xs.Cons? {
      SameReflexive(xs.head);
      SameItemsReflexive(xs.tail);
    }
  }

  /** The empty mapping is a unit on mappings. */
  lemma MergeUnit(x: Value)
    requires x.Mapping? && DistinctKeys(x)
    ensures DeepMerge(x, Mapping(Empty)) == x
    ensures Same(DeepMerge(Mapping(Empty), x), x)
  {
    forall k
      ensures Lookup(DeepMerge(Mapping(Empty), x).entries, k) == Lookup(x.entries, k)
      ensures Lookup(x.entries, k).Some? ==> Same(Lookup(x.entries, k).value, Lookup(x.entries, k).value)
    {
      MergeLookup(Mapping(Empty), x, k);
      if Lookup(x.entries, k).Some? {
        SameReflexive(Lookup(x.entries, k).value);
      }
    }
  }

  /** Every path `over` says nothing about is absent from `base` too, so that merging `over`
  onto `base` adds nothing. */
  ghost predicate Covers(over: Value, base: Value)
  {
    base.Mapping? && over.Mapping? ==>
      forall k :: Lookup(base.entries, k).Some? ==>
        && Lookup(over.entries, k).Some?
        && Covers(Lookup(over.entries, k).value, Lookup(base.entries, k).value)
  }

  /** An override hides its defaults altogether exactly when it covers them. */
  lemma {:induction false} MergeAbsorbs(base: Value, over: Value)
    requires DistinctKeys(base) && DistinctKeys(over)
    ensures Same(DeepMerge(base, over), over) <==> Covers(over, base)
    decreases over
  {
    if base.Mapping? && over.Mapping? {
      var merged := DeepMerge(base, over);
      forall k
        ensures Lookup(merged.entries, k) == MergedLookup(base.entries, over.entries, k)
        ensures Lookup(base.entries, k).Some? && Lookup(over.entries, k).Some? ==>
          (Same(Lookup(merged.entries, k).value, Lookup(over.entries, k).value)
           <==> Covers(Lookup(over.entries, k).value, Lookup(base.entries, k).value))
        ensures Lookup(base.entries, k).None? && Lookup(over.entries, k).Some? ==>
          Same(Lookup(merged.entries, k).value, Lookup(over.entries, k).value)
      {
        MergeLookup(base, over, k);
        DistinctKeysAt(base.entries, k);
        DistinctKeysAt(over.entries, k);
        if Lookup(over.entries, k).Some? {
          SameReflexive(Lookup(over.entries, k).value);
          if Lookup(base.entries, k).Some? {
            MergeAbsorbs(Lookup(base.entries, k).value, Lookup(over.entries, k).value);
          }
        }
      }
    } else {
      SameReflexive(over);
    }
  }

  /** Merging a value onto itself changes nothing. */
  lemma {:induction false} MergeIdempotent(x: Value)
    requires DistinctKeys(x)
    ensures Same(DeepMerge(x, x), x)
  {
    CoversItself(x);
    MergeAbsorbs(x, x);
  }

  lemma {:induction false} CoversItself(x: Value)
    ensures Covers(x, x)
  {
    if x.Mapping? {
      forall k | Lookup(x.entries, k).Some?
        ensures Covers(Lookup(x.entries, k).value, Lookup(x.entries, k).value)
      {
        CoversItself(Lookup(x.entries, k).value);
      }
    }
  }

  /** When merging in three layers gives one answer: wherever the outer layers hold mappings,
  the middle one holds a mapping too, or the top layer covers the bottom one. */
  ghost predicate Layers(a: Value, b: Value, c: Value)
  {
    a.Mapping? && c.Mapping? ==>
      if !b.Mapping? then Covers(c, a)
      else
        forall k {:trigger Lookup(a.entries, k)} ::
          Lookup(a.entries, k).Some? && Lookup(b.entries, k).Some? && Lookup(c.entries, k).Some? ==>
            Layers(Lookup(a.entries, k).value, Lookup(b.entries, k).value, Lookup(c.entries, k).value)
  }

  /** The merge is associative exactly on the layers above. */
  lemma {:induction false} MergeAssociativeIff(a: Value, b: Value, c: Value)
    requires DistinctKeys(a) && DistinctKeys(b) && DistinctKeys(c)
    ensures Same(DeepMerge(a, DeepMerge(b, c)), DeepMerge(DeepMerge(a, b), c)) <==> Layers(a, b, c)
    decreases c
  {
    var right, left := DeepMerge(a, DeepMerge(b, c)), DeepMerge(DeepMerge(a, b), c);
    if !c.Mapping? || !a.Mapping? {
      SameReflexive(right);
    } else if !b.Mapping? {
      MergeAbsorbs(a, c);
    } else {
      MergeKeepsDistinct(b, c);
      forall k
        ensures KeyAssociates(a, b, c, k)
        ensures Lookup(right.entries, k).Some? == Lookup(left.entries, k).Some?
      {
        MergeKeyAssociativeIff(a, b, c, k);
      }
      if Same(right, left) {
        forall k | Lookup(a.entries, k).Some? && Lookup(b.entries, k).Some? && Lookup(c.entries, k).Some?
          ensures Layers(Lookup(a.entries, k).value, Lookup(b.entries, k).value, Lookup(c.entries, k).value)
        {
          assert KeyAssociates(a, b, c, k);
          MergeLookup(b, c, k);
          MergeLookup(a, DeepMerge(b, c), k);
        }
      }
      if Layers(a, b, c) {
        forall k | Lookup(right.entries, k).Some?
          ensures Same(Lookup(right.entries, k).value, Lookup(left.entries, k).value)
        {
          assert KeyAssociates(a, b, c, k);
        }
      }
    }
  }

  /** What a merge of three mappings either way round holds at one key. */
  ghost predicate KeyAssociates(a: Value, b: Value, c: Value, k: Key)
    requires a.Mapping? && b.Mapping? && c.Mapping?
  {
    var x, y, z := Lookup(a.entries, k), Lookup(b.entries, k), Lookup(c.entries, k);
    var right := Lookup(DeepMerge(a, DeepMerge(b, c)).entries, k);
    var left := Lookup(DeepMerge(DeepMerge(a, b), c).entries, k);
    && right.Some? == left.Some?
    && (right.Some? ==>
          (Same(right.value, left.value)
           <==> (x.Some? && y.Some? && z.Some? ==> Layers(x.value, y.value, z.value))))
  }

  lemma {:induction false} MergeKeyAssociativeIff(a: Value, b: Value, c: Value, k: Key)
    requires a.Mapping? && b.Mapping? && c.Mapping?
    requires DistinctKeys(a) && DistinctKeys(b) && DistinctKeys(c)
    ensures KeyAssociates(a, b, c, k)
    decreases c, 0
  {
    MergeKeepsDistinct(b, c);
    MergeLookup(b, c, k);
    MergeLookup(a, b, k);
    MergeLookup(a, DeepMerge(b, c), k);
    MergeLookup(DeepMerge(a, b), c, k);
    var x, y, z := Lookup(a.entries, k), Lookup(b.entries, k), Lookup(c.entries, k);
    if x.Some? && y.Some? && z.Some? {
      DistinctKeysAt(a.entries, k);
      DistinctKeysAt(b.entries, k);
      DistinctKeysAt(c.entries, k);
      MergeAssociativeIff(x.value, y.value, z.value);
    } else {
      var right := Lookup(DeepMerge(a, DeepMerge(b, c)).entries, k);
      if right.Some? {
        SameReflexive(right.value);
      }
    }
  }

  /** No path is a mapping in `a`, bound to something else in `b`, and a mapping in `c`. */
  ghost predicate NoGap(a: Value, b: Value, c: Value)
  {
    forall p :: !(MappingAt(a, p) && Find(b, p).Bound? && !MappingAt(b, p) && MappingAt(c, p))
  }

  predicate MappingAt(x: Value, path: seq<Key>)
  {
    Find(x, path).Bound? && Find(x, path).value.Mapping?
  }

  lemma {:induction false} NoGapLayers(a: Value, b: Value, c: Value)
    requires NoGap(a, b, c)
    ensures Layers(a, b, c)
    decreases c
  {
    assert !(MappingAt(a, []) && Find(b, []).Bound? && !MappingAt(b, []) && MappingAt(c, []));
    if a.Mapping? && b.Mapping? && c.Mapping? {
      forall k | Lookup(a.entries, k).Some? && Lookup(b.entries, k).Some? && Lookup(c.entries, k).Some?
        ensures Layers(Lookup(a.entries, k).value, Lookup(b.entries, k).value, Lookup(c.entries, k).value)
      {
        var x, y, z := Lookup(a.entries, k).value, Lookup(b.entries, k).value, Lookup(c.entries, k).value;
        forall p
          ensures !(MappingAt(x, p) && Find(y, p).Bound? && !MappingAt(y, p) && MappingAt(z, p))
        {
          var q := [k] + p;
          assert q[1..] == p;
          assert !(MappingAt(a, q) && Find(b, q).Bound? && !MappingAt(b, q) && MappingAt(c, q));
        }
        NoGapLayers(x, y, z);
      }
    }
  }

  /** The merge is associative whenever there is no gap in the middle. */
  lemma MergeAssociative(a: Value, b: Value, c: Value)
    requires DistinctKeys(a) && DistinctKeys(b) && DistinctKeys(c)
    requires NoGap(a, b, c)
    ensures Same(DeepMerge(a, DeepMerge(b, c)), DeepMerge(DeepMerge(a, b), c))
  {
    NoGapLayers(a, b, c);
    MergeAssociativeIff(a, b, c);
  }

  /** A scalar between two mappings breaks associativity: it hides the defaults when they are
  merged bottom up, and is itself hidden when they are merged top down. */
  lemma MergeNotAssociative()
    ensures
      var a := Mapping(Entry(Name("retries"), Int(3), Empty));
      var b := Int(0);
      var c := Mapping(Entry(Name("backoff"), Int(1), Empty));
      !Same(DeepMerge(a, DeepMerge(b, c)), DeepMerge(DeepMerge(a, b), c))
  {
    var a := Mapping(Entry(Name("retries"), Int(3), Empty));
    var c := Mapping(Entry(Name("backoff"), Int(1), Empty));
    assert Lookup(a.entries, Name("retries")).Some? && Lookup(c.entries, Name("retries")).None?;
    MergeAssociativeIff(a, Int(0), c);
  }

  /** Merging the same override again changes nothing. */
  lemma {:induction false} MergeAbsorbsRight(a: Value, b: Value)
    requires DistinctKeys(a) && DistinctKeys(b)
    ensures Same(DeepMerge(DeepMerge(a, b), b), DeepMerge(a, b))
    decreases b
  {
    var ab := DeepMerge(a, b);
    if a.Mapping? && b.Mapping? {
      forall k
        ensures Lookup(DeepMerge(ab, b).entries, k).Some? == Lookup(ab.entries, k).Some?
        ensures Lookup(ab.entries, k).Some? ==>
          Same(Lookup(DeepMerge(ab, b).entries, k).value, Lookup(ab.entries, k).value)
      {
        MergeLookup(a, b, k);
        MergeLookup(ab, b, k);
        var x, y := Lookup(a.entries, k), Lookup(b.entries, k);
        if x.Some? && y.Some? {
          DistinctKeysAt(a.entries, k);
          DistinctKeysAt(b.entries, k);
          MergeAbsorbsRight(x.value, y.value);
        } else if y.Some? {
          DistinctKeysAt(b.entries, k);
          MergeIdempotent(y.value);
        } else if x.Some? {
          SameReflexive(x.value);
        }
      }
    } else {
      MergeIdempotent(b);
    }
  }
}
