/** References in config trees: which components they name, and what they resolve to. */
module References {
  import opened Values

  datatype Id = Id(group: string, name: string)

  /** Why building one component's config failed. */
  datatype Fault =
    | ShortRef(path: seq<string>)
    | NoInstance(id: Id)
    | NoKey(key: string)
    | Raised(exn: Exn)
    | WrongInstance

  /** `getattr` on an object that is not a mapping. */
  type Attributes = (Value, string) -> Result<Value, Exn>

  predicate IsRef(x: Value)
  {
    x.Ref? || x.LocalRef?
  }

  type Reference = x: Value | IsRef(x) witness Ref([])

  datatype Target = Target(id: Id, path: seq<string>)

  /** `_target`; the error is a path too short to name a component. */
  function TargetOf(ref: Reference, group: string): Result<Target, seq<string>>
  {
    var path := if ref.Ref? then ref.path else [group] + ref.path;
    if |path| < 2 then Err(path) else Ok(Target(Id(path[0], path[1]), path[2..]))
  }

  /** `_refs`: mappings, lists and tuples are searched. */
  function Refs(x: Value): seq<Reference>
  {
    match x
    case Ref(_) => [x]
    case LocalRef(_) => [x]
    case Mapping(es) => RefsInEntries(es)
    case List(xs) => RefsInItems(xs)
    case Tuple(xs) => RefsInItems(xs)
    case _ => []
  }

  function RefsInEntries(es: Entries): seq<Reference>
  {
    match es
    case Empty => []
    case Entry(_, v, rest) => Refs(v) + RefsInEntries(rest)
  }

  function RefsInItems(xs: Items): seq<Reference>
  {
    match xs
    case Nil => []
    case Cons(x, rest) => Refs(x) + RefsInItems(rest)
  }

  /** The reference names a component among `defined`. */
  predicate Resolvable(ref: Reference, group: string, defined: set<Id>)
  {
    TargetOf(ref, group).Ok? && TargetOf(ref, group).value.id in defined
  }

  /** The components a config refers to. */
  function Targets(config: Value, group: string): set<Id>
  {
    set ref | ref in Refs(config) && TargetOf(ref, group).Ok? :: TargetOf(ref, group).value.id
  }

  // ---- what a reference names ------------------------------------------------------------

  /** The reference names the component: by group and name, or by name in its own group. */
  predicate PointsTo(ref: Reference, group: string, id: Id)
  {
    match ref
    case Ref(path) => [id.group, id.name] <= path
    case LocalRef(path) => id.group == group && [id.name] <= path
    case _ => false
  }

  /** A reference names a component among `defined` if one of them is what it points to. */
  lemma ResolvablePointsTo(ref: Reference, group: string, defined: set<Id>)
    ensures Resolvable(ref, group, defined) <==> exists id :: id in defined && PointsTo(ref, group, id)
  {
    if ref.Ref? && |ref.path| >= 2 {
      assert PointsTo(ref, group, Id(ref.path[0], ref.path[1]));
    }
    if ref.LocalRef? && |ref.path| >= 1 {
      assert PointsTo(ref, group, Id(group, ref.path[0]));
    }
  }

  /** A config depends on exactly what its references point to. */
  lemma TargetsArePointedTo(config: Value, group: string, id: Id)
    ensures id in Targets(config, group) <==> exists ref :: ref in Refs(config) && PointsTo(ref, group, id)
  {
    forall ref | ref in Refs(config)
      ensures PointsTo(ref, group, id) <==> TargetOf(ref, group).Ok? && TargetOf(ref, group).value.id == id
    {
    }
  }

  /** A reference on its own makes the config depend on the component it names, and on no other. */
  lemma TargetByName(g: string, n: string, p: seq<string>, group: string)
    ensures Targets(Ref([g, n] + p), group) == {Id(g, n)}
    ensures Targets(LocalRef([n] + p), group) == {Id(group, n)}
    ensures Targets(LocalRef([]), group) == {} && (|p| < 2 ==> Targets(Ref(p), group) == {})
  {
    assert Refs(Ref([g, n] + p)) == [Ref([g, n] + p)] && Refs(LocalRef([n] + p)) == [LocalRef([n] + p)];
    assert Refs(LocalRef([])) == [LocalRef([])] && Refs(Ref(p)) == [Ref(p)];
    assert TargetOf(Ref([g, n] + p), group).value.id in Targets(Ref([g, n] + p), group);
    assert TargetOf(LocalRef([n] + p), group).value.id in Targets(LocalRef([n] + p), group);
  }

  // ---- walking into an instance ----------------------------------------------------------

  predicate IsDigits(s: string)
  {
    s != "" && forall i :: 0 <= i < |s| ==> '0' <= s[i] <= '9'
  }

  function DigitsValue(s: string): nat
    requires forall i :: 0 <= i < |s| ==> '0' <= s[i] <= '9'
  {
    if s == "" then 0 else 10 * DigitsValue(s[..|s| - 1]) + (s[|s| - 1] - '0') as int
  }

  function Underscored(s: string): string
  {
    seq(|s|, i requires 0 <= i < |s| => if s[i] == '-' then '_' else s[i])
  }

  /** The key of the mapping a path segment selects: the name itself, or else the number it spells. */
  function SegmentKey(es: Entries, segment: string): Option<Key>
  {
    if Lookup(es, Name(segment)).Some? then Some(Name(segment))
    else if IsDigits(segment) && Lookup(es, Number(DigitsValue(segment))).Some? then
      Some(Number(DigitsValue(segment)))
    else None
  }

  function Step(value: Value, segment: string, attr: Attributes): Result<Value, Fault>
  {
    match value
    case Mapping(es) =>
      (match SegmentKey(es, segment)
       case Some(k) => Ok(Lookup(es, k).value)
       case None => Err(NoKey(segment)))
    case _ =>
      match attr(value, Underscored(segment))
      case Ok(v) => Ok(v)
      case Err(e) => Err(Raised(e))
  }

  /** `_walk`, as a specification. */
  function Walk(value: Value, path: seq<string>, attr: Attributes): Result<Value, Fault>
    decreases |path|
  {
    if path == [] then Ok(value)
    else
      var next :- Step(value, path[0], attr);
      Walk(next, path[1..], attr)
  }

  lemma {:induction false} WalkAppend(value: Value, p: seq<string>, q: seq<string>, attr: Attributes)
    ensures Walk(value, p + q, attr)
         == match Walk(value, p, attr) {
              case Ok(v) => Walk(v, q, attr)
              case Err(e) => Err(e)
            }
    decreases |p|
  {
    if p == [] {
      assert p + q == q;
    } else {
      assert (p + q)[1..] == p[1..] + q;
      var next := Step(value, p[0], attr);
      if next.Ok? {
        WalkAppend(next.value, p[1..], q, attr);
      }
    }
  }

  /** One segment: in a mapping the name itself, or else the number it spells, or an error; in
  anything else the attribute of that name with underscores for its dashes. */
  lemma WalkOneSegment(value: Value, segment: string, attr: Attributes, name: string)
    requires |name| == |segment|
    requires forall i :: 0 <= i < |segment| ==> name[i] == if segment[i] == '-' then '_' else segment[i]
    ensures !value.Mapping? ==>
      Walk(value, [segment], attr)
      == match attr(value, name) { case Ok(v) => Ok(v) case Err(e) => Err(Raised(e)) }
    ensures value.Mapping? && Lookup(value.entries, Name(segment)).Some? ==>
      Walk(value, [segment], attr) == Ok(Lookup(value.entries, Name(segment)).value)
    ensures value.Mapping? && Lookup(value.entries, Name(segment)).None? ==>
      Walk(value, [segment], attr)
      == if IsDigits(segment) && Lookup(value.entries, Number(DigitsValue(segment))).Some? then
           Ok(Lookup(value.entries, Number(DigitsValue(segment))).value)
         else Err(NoKey(segment))
  {
    assert Underscored(segment) == name;
    assert [segment][1..] == [];
  }

  /** `_walk`, as the loop it is. */
  method WalkPath(start: Value, path: seq<string>, attr: Attributes) returns (r: Result<Value, Fault>)
    ensures r == Walk(start, path, attr)
  {
    var value := start;
    for i := 0 to |path|
      invariant Walk(start, path, attr) == Walk(value, path[i..], attr)
    {
      assert path[i..][1..] == path[i + 1..];
      match Step(value, path[i], attr) {
        case Err(e) => return Err(e);
        case Ok(v) => value := v;
      }
    }
    return Ok(value);
  }

  // ---- resolution ------------------------------------------------------------------------

  /** `instances[target]` and the walk into it. */
  function Deref(ref: Reference, group: string, instances: map<Id, Value>, attr: Attributes): Result<Value, Fault>
  {
    match TargetOf(ref, group)
    case Err(path) => Err(ShortRef(path))
    case Ok(target) =>
      if target.id !in instances then Err(NoInstance(target.id))
      else Walk(instances[target.id], target.path, attr)
  }

  /** `_resolve_refs`: unlike `Refs`, it leaves tuples alone. */
  function ResolveRefs(x: Value, group: string, instances: map<Id, Value>, attr: Attributes): Result<Value, Fault>
  {
    match x
    case Ref(_) => Deref(x, group, instances, attr)
    case LocalRef(_) => Deref(x, group, instances, attr)
    case Mapping(es) =>
      var r :- ResolveEntries(es, group, instances, attr);
      Ok(Mapping(r))
    case List(xs) =>
      var r :- ResolveItems(xs, group, instances, attr);
      Ok(List(r))
    case _ => Ok(x)
  }

  function ResolveEntries(es: Entries, group: string, instances: map<Id, Value>, attr: Attributes)
    : Result<Entries, Fault>
  {
    match es
    case Empty => Ok(Empty)
    case Entry(k, v, rest) =>
      var v' :- ResolveRefs(v, group, instances, attr);
      var rest' :- ResolveEntries(rest, group, instances, attr);
      Ok(Entry(k, v', rest'))
  }

  function ResolveItems(xs: Items, group: string, instances: map<Id, Value>, attr: Attributes)
    : Result<Items, Fault>
  {
    match xs
    case Nil => Ok(Nil)
    case Cons(x, rest) =>
      var x' :- ResolveRefs(x, group, instances, attr);
      var rest' :- ResolveItems(rest, group, instances, attr);
      Ok(Cons(x', rest'))
  }

  /** A fault raised by walking into an instance, rather than by looking for the instance. */
  predicate FromWalk(f: Fault)
  {
    f.NoKey? || f.Raised?
  }

  lemma {:induction false} WalkFaults(value: Value, path: seq<string>, attr: Attributes)
    ensures Walk(value, path, attr).Err? ==> FromWalk(Walk(value, path, attr).error)
    decreases |path|
  {
    if path != [] && Step(value, path[0], attr).Ok? {
      WalkFaults(Step(value, path[0], attr).value, path[1..], attr);
    }
  }

  lemma DerefOnlyWalks(ref: Reference, group: string, instances: map<Id, Value>, attr: Attributes)
    requires Resolvable(ref, group, instances.Keys)
    ensures Deref(ref, group, instances, attr).Err? ==> FromWalk(Deref(ref, group, instances, attr).error)
  {
    var target := TargetOf(ref, group).value;
    WalkFaults(instances[target.id], target.path, attr);
  }

  /** Soundness of the static check: once every reference `Refs` yields names an instance, only a
  walk into an instance can fail. */
  lemma {:induction false} ResolveOnlyWalks(x: Value, group: string, instances: map<Id, Value>, attr: Attributes)
    requires forall ref :: ref in Refs(x) ==> Resolvable(ref, group, instances.Keys)
    ensures ResolveRefs(x, group, instances, attr).Err? ==> FromWalk(ResolveRefs(x, group, instances, attr).error)
  {
    match x
    case Mapping(es) => ResolveEntriesOnlyWalks(es, group, instances, attr);
    case List(xs) => ResolveItemsOnlyWalks(xs, group, instances, attr);
    case Ref(_) => DerefOnlyWalks(x, group, instances, attr);
    case LocalRef(_) => DerefOnlyWalks(x, group, instances, attr);
    case _ =>
  }

  lemma {:induction false} ResolveEntriesOnlyWalks(es: Entries, group: string, instances: map<Id, Value>,
                                                   attr: Attributes)
    requires forall ref :: ref in RefsInEntries(es) ==> Resolvable(ref, group, instances.Keys)
    ensures ResolveEntries(es, group, instances, attr).Err? ==>
      FromWalk(ResolveEntries(es, group, instances, attr).error)
  {
    if es.Entry? {
      ResolveOnlyWalks(es.value, group, instances, attr);
      ResolveEntriesOnlyWalks(es.rest, group, instances, attr);
    }
  }

  lemma {:induction false} ResolveItemsOnlyWalks(xs: Items, group: string, instances: map<Id, Value>,
                                                 attr: Attributes)
    requires forall ref :: ref in RefsInItems(xs) ==> Resolvable(ref, group, instances.Keys)
    ensures ResolveItems(xs, group, instances, attr).Err? ==>
      FromWalk(ResolveItems(xs, group, instances, attr).error)
  {
    if xs.Cons? {
      ResolveOnlyWalks(xs.head, group, instances, attr);
      ResolveItemsOnlyWalks(xs.tail, group, instances, attr);
    }
  }

  /** The two instance maps hold the same instance, or none, for what the reference names. */
  predicate AgreeOn(ref: Reference, group: string, a: map<Id, Value>, b: map<Id, Value>)
  {
    TargetOf(ref, group).Ok? ==>
      var id := TargetOf(ref, group).value.id;
      (id in a <==> id in b) && (id in a && id in b ==> a[id] == b[id])
  }

  /** Resolution reads no instance beyond those `Refs` names. */
  lemma {:induction false} ResolveFrame(x: Value, group: string, a: map<Id, Value>, b: map<Id, Value>, attr: Attributes)
    requires forall ref :: ref in Refs(x) ==> AgreeOn(ref, group, a, b)
    ensures ResolveRefs(x, group, a, attr) == ResolveRefs(x, group, b, attr)
  {
    match x
    case Mapping(es) => ResolveEntriesFrame(es, group, a, b, attr);
    case List(xs) => ResolveItemsFrame(xs, group, a, b, attr);
    case Ref(_) => assert AgreeOn(x, group, a, b);
    case LocalRef(_) => assert AgreeOn(x, group, a, b);
    case _ =>
  }

  lemma {:induction false} ResolveEntriesFrame(es: Entries, group: string, a: map<Id, Value>, b: map<Id, Value>,
                                               attr: Attributes)
    requires forall ref :: ref in RefsInEntries(es) ==> AgreeOn(ref, group, a, b)
    ensures ResolveEntries(es, group, a, attr) == ResolveEntries(es, group, b, attr)
  {
    if es.Entry? {
      ResolveFrame(es.value, group, a, b, attr);
      ResolveEntriesFrame(es.rest, group, a, b, attr);
    }
  }

  lemma {:induction false} ResolveItemsFrame(xs: Items, group: string, a: map<Id, Value>, b: map<Id, Value>,
                                             attr: Attributes)
    requires forall ref :: ref in RefsInItems(xs) ==> AgreeOn(ref, group, a, b)
    ensures ResolveItems(xs, group, a, attr) == ResolveItems(xs, group, b, attr)
  {
    if xs.Cons? {
      ResolveFrame(xs.head, group, a, b, attr);
      ResolveItemsFrame(xs.tail, group, a, b, attr);
    }
  }

  /** What a reference comes to: the instance of the component with its group and name, walked down
  the rest of its path; a local one takes the group it stands in. Without a group and a name
  there is nothing to look for. */
  lemma DerefByName(g: string, n: string, p: seq<string>, group: string, instances: map<Id, Value>, attr: Attributes)
    ensures Deref(Ref([g, n] + p), group, instances, attr)
         == if Id(g, n) !in instances then Err(NoInstance(Id(g, n))) else Walk(instances[Id(g, n)], p, attr)
    ensures Deref(LocalRef([n] + p), group, instances, attr)
         == if Id(group, n) !in instances then Err(NoInstance(Id(group, n))) else Walk(instances[Id(group, n)], p, attr)
    ensures Deref(LocalRef([]), group, instances, attr) == Err(ShortRef([group]))
    ensures |p| < 2 ==> Deref(Ref(p), group, instances, attr) == Err(ShortRef(p))
  {
    assert ([g, n] + p)[2..] == p;
    assert [group] + ([n] + p) == [group, n] + p && ([group, n] + p)[2..] == p;
    assert [group] + [] == [group];
  }

  /** Resolving gives each item of a list in its place. */
  lemma {:induction false} ResolvedItemAt(xs: Items, i: nat, group: string, instances: map<Id, Value>, attr: Attributes)
    requires ResolveRefs(List(xs), group, instances, attr).Ok?
    ensures ResolveRefs(List(xs), group, instances, attr).value.List?
    ensures
      var rs := ResolveRefs(List(xs), group, instances, attr).value.items;
      && |AsSeq(rs)| == |AsSeq(xs)|
      && (i < |AsSeq(xs)| ==> ResolveRefs(AsSeq(xs)[i], group, instances, attr) == Ok(AsSeq(rs)[i]))
    decreases xs
  {
    if xs.Cons? {
      assert ResolveRefs(List(xs.tail), group, instances, attr).Ok?;
      ResolvedItemAt(xs.tail, if i == 0 then 0 else i - 1, group, instances, attr);
    }
  }

  lemma {:induction false} ResolvedEntry(es: Entries, group: string, instances: map<Id, Value>, attr: Attributes,
                                         key: Key)
    requires ResolveEntries(es, group, instances, attr).Ok?
    ensures
      var rs := ResolveEntries(es, group, instances, attr).value;
      && Keys(rs) == Keys(es)
      && Lookup(rs, key).Some? == Lookup(es, key).Some?
      && (Lookup(es, key).Some? ==>
            ResolveRefs(Lookup(es, key).value, group, instances, attr) == Ok(Lookup(rs, key).value))
  {
    if es.Entry? {
      ResolvedEntry(es.rest, group, instances, attr, key);
    }
  }

  /** Resolving gives each value of a mapping under its key, the keys in their order. */
  lemma ResolvedValueAt(es: Entries, key: Key, group: string, instances: map<Id, Value>, attr: Attributes)
    requires ResolveRefs(Mapping(es), group, instances, attr).Ok?
    ensures ResolveRefs(Mapping(es), group, instances, attr).value.Mapping?
    ensures
      var rs := ResolveRefs(Mapping(es), group, instances, attr).value.entries;
      && Keys(rs) == Keys(es)
      && Lookup(rs, key).Some? == Lookup(es, key).Some?
      && (Lookup(es, key).Some? ==>
            ResolveRefs(Lookup(es, key).value, group, instances, attr) == Ok(Lookup(rs, key).value))
  {
    ResolvedEntry(es, group, instances, attr, key);
  }

  // ---- local references ------------------------------------------------------------------

  /** The config with its local references written out from the root, where they resolve. */
  function Absolute(x: Value, group: string): Value
  {
    match x
    case LocalRef(path) => Ref([group] + path)
    case Mapping(es) => Mapping(AbsoluteEntries(es, group))
    case List(xs) => List(AbsoluteItems(xs, group))
    case _ => x
  }

  function AbsoluteEntries(es: Entries, group: string): Entries
  {
    match es
    case Empty => Empty
    case Entry(k, v, rest) => Entry(k, Absolute(v, group), AbsoluteEntries(rest, group))
  }

  function AbsoluteItems(xs: Items, group: string): Items
  {
    match xs
    case Nil => Nil
    case Cons(x, rest) => Cons(Absolute(x, group), AbsoluteItems(rest, group))
  }

  /** A local reference means the same reference from the root: written out, a config resolves in
  any group to what it resolves to in its own. */
  lemma {:induction false} AbsoluteResolves(x: Value, group: string, other: string, instances: map<Id, Value>,
                                            attr: Attributes)
    ensures ResolveRefs(Absolute(x, group), other, instances, attr) == ResolveRefs(x, group, instances, attr)
  {
    match x
    case Mapping(es) => AbsoluteEntriesResolve(es, group, other, instances, attr);
    case List(xs) => AbsoluteItemsResolve(xs, group, other, instances, attr);
    case _ =>
  }

  lemma {:induction false} AbsoluteEntriesResolve(es: Entries, group: string, other: string,
                                                  instances: map<Id, Value>, attr: Attributes)
    ensures ResolveEntries(AbsoluteEntries(es, group), other, instances, attr)
         == ResolveEntries(es, group, instances, attr)
  {
    if es.Entry? {
      AbsoluteResolves(es.value, group, other, instances, attr);
      AbsoluteEntriesResolve(es.rest, group, other, instances, attr);
    }
  }

  lemma {:induction false} AbsoluteItemsResolve(xs: Items, group: string, other: string,
                                                instances: map<Id, Value>, attr: Attributes)
    ensures ResolveItems(AbsoluteItems(xs, group), other, instances, attr)
         == ResolveItems(xs, group, instances, attr)
  {
    if xs.Cons? {
      AbsoluteResolves(xs.head, group, other, instances, attr);
      AbsoluteItemsResolve(xs.tail, group, other, instances, attr);
    }
  }

  // ---- references in tuples --------------------------------------------------------------

  /** Those references `Refs` yields that are not inside tuples. */
  function VisibleRefs(x: Value): seq<Reference>
  {
    match x
    case Ref(_) => [x]
    case LocalRef(_) => [x]
    case Mapping(es) => VisibleRefsInEntries(es)
    case List(xs) => VisibleRefsInItems(xs)
    case _ => []
  }

  function VisibleRefsInEntries(es: Entries): seq<Reference>
  {
    match es
    case Empty => []
    case Entry(_, v, rest) => VisibleRefs(v) + VisibleRefsInEntries(rest)
  }

  function VisibleRefsInItems(xs: Items): seq<Reference>
  {
    match xs
    case Nil => []
    case Cons(x, rest) => VisibleRefs(x) + VisibleRefsInItems(rest)
  }

  predicate NoRefsInTuples(x: Value)
  {
    match x
    case Mapping(es) => NoRefsInTuplesOfEntries(es)
    case List(xs) => NoRefsInTuplesOfItems(xs)
    case Tuple(xs) => RefsInItems(xs) == []
    case _ => true
  }

  predicate NoRefsInTuplesOfEntries(es: Entries)
  {
    es.Entry? ==> NoRefsInTuples(es.value) && NoRefsInTuplesOfEntries(es.rest)
  }

  predicate NoRefsInTuplesOfItems(xs: Items)
  {
    xs.Cons? ==> NoRefsInTuples(xs.head) && NoRefsInTuplesOfItems(xs.tail)
  }

  /** The visible references of a config are all its dependencies exactly when no tuple of it holds
  one. */
  lemma {:induction false} AllRefsVisible(x: Value)
    ensures |VisibleRefs(x)| <= |Refs(x)|
    ensures VisibleRefs(x) == Refs(x) <==> NoRefsInTuples(x)
    ensures |VisibleRefs(x)| == |Refs(x)| ==> NoRefsInTuples(x)
  {
    match x
    case Mapping(es) => AllRefsVisibleInEntries(es);
    case List(xs) => AllRefsVisibleInItems(xs);
    case _ =>
  }

  lemma {:induction false} AllRefsVisibleInEntries(es: Entries)
    ensures |VisibleRefsInEntries(es)| <= |RefsInEntries(es)|
    ensures VisibleRefsInEntries(es) == RefsInEntries(es) <==> NoRefsInTuplesOfEntries(es)
    ensures |VisibleRefsInEntries(es)| == |RefsInEntries(es)| ==> NoRefsInTuplesOfEntries(es)
  {
    if es.Entry? {
      AllRefsVisible(es.value);
      AllRefsVisibleInEntries(es.rest);
    }
  }

  lemma {:induction false} AllRefsVisibleInItems(xs: Items)
    ensures |VisibleRefsInItems(xs)| <= |RefsInItems(xs)|
    ensures VisibleRefsInItems(xs) == RefsInItems(xs) <==> NoRefsInTuplesOfItems(xs)
    ensures |VisibleRefsInItems(xs)| == |RefsInItems(xs)| ==> NoRefsInTuplesOfItems(xs)
  {
    if xs.Cons? {
      AllRefsVisible(xs.head);
      AllRefsVisibleInItems(xs.tail);
    }
  }

  /** The reference can be resolved, to something that holds no reference. */
  predicate Settled(ref: Reference, group: string, instances: map<Id, Value>, attr: Attributes)
  {
    var r := Deref(ref, group, instances, attr);
    r.Ok? && Refs(r.value) == []
  }

  /** Resolution gives something in which no reference is left. */
  predicate FullyResolved(x: Value, group: string, instances: map<Id, Value>, attr: Attributes)
  {
    var r := ResolveRefs(x, group, instances, attr);
    r.Ok? && Refs(r.value) == []
  }

  /** What resolution replaces, and what it leaves: it succeeds exactly when every reference outside
  tuples can be resolved, and no reference is left exactly when, besides, none of those brings one
  in and no tuple holds one. */
  lemma {:induction false} ResolvedRefs(x: Value, group: string, instances: map<Id, Value>, attr: Attributes)
    ensures ResolveRefs(x, group, instances, attr).Ok?
       <==> forall ref :: ref in VisibleRefs(x) ==> Deref(ref, group, instances, attr).Ok?
    ensures FullyResolved(x, group, instances, attr)
       <==> NoRefsInTuples(x) && forall ref :: ref in VisibleRefs(x) ==> Settled(ref, group, instances, attr)
  {
    match x
    case Ref(_) => ResolvedRef(x, group, instances, attr);
    case LocalRef(_) => ResolvedRef(x, group, instances, attr);
    case Mapping(es) => ResolvedRefsInEntries(es, group, instances, attr);
    case List(xs) => ResolvedRefsInItems(xs, group, instances, attr);
    case _ =>
  }

  lemma ResolvedRef(ref: Reference, group: string, instances: map<Id, Value>, attr: Attributes)
    ensures VisibleRefs(ref) == [ref] && NoRefsInTuples(ref)
    ensures ResolveRefs(ref, group, instances, attr) == Deref(ref, group, instances, attr)
    ensures FullyResolved(ref, group, instances, attr) == Settled(ref, group, instances, attr)
  {
  }

  lemma {:induction false} ResolvedRefsInEntries(es: Entries, group: string, instances: map<Id, Value>,
                                                 attr: Attributes)
    ensures ResolveEntries(es, group, instances, attr).Ok?
       <==> forall ref :: ref in VisibleRefsInEntries(es) ==> Deref(ref, group, instances, attr).Ok?
    ensures
      var r := ResolveEntries(es, group, instances, attr);
      (r.Ok? && RefsInEntries(r.value) == [])
      <==> (NoRefsInTuplesOfEntries(es) &&
            forall ref :: ref in VisibleRefsInEntries(es) ==> Settled(ref, group, instances, attr))
  {
    if es.Entry? {
      ResolvedRefs(es.value, group, instances, attr);
      ResolvedRefsInEntries(es.rest, group, instances, attr);
    }
  }

  lemma {:induction false} ResolvedRefsInItems(xs: Items, group: string, instances: map<Id, Value>, attr: Attributes)
    ensures ResolveItems(xs, group, instances, attr).Ok?
       <==> forall ref :: ref in VisibleRefsInItems(xs) ==> Deref(ref, group, instances, attr).Ok?
    ensures
      var r := ResolveItems(xs, group, instances, attr);
      (r.Ok? && RefsInItems(r.value) == [])
      <==> (NoRefsInTuplesOfItems(xs) &&
            forall ref :: ref in VisibleRefsInItems(xs) ==> Settled(ref, group, instances, attr))
  {
    if xs.Cons? {
      ResolvedRefs(xs.head, group, instances, attr);
      ResolvedRefsInItems(xs.tail, group, instances, attr);
    }
  }

  /** The first of the references that cannot be resolved is the `i`-th. */
  predicate FailsAt(refs: seq<Reference>, i: nat, group: string, instances: map<Id, Value>, attr: Attributes,
                    fault: Fault)
  {
    && i < |refs| && Deref(refs[i], group, instances, attr) == Err(fault)
    && forall j :: 0 <= j < i ==> Deref(refs[j], group, instances, attr).Ok?
  }

  lemma FailsLater(front: seq<Reference>, refs: seq<Reference>, i: nat, group: string, instances: map<Id, Value>,
                   attr: Attributes, fault: Fault)
    requires forall ref :: ref in front ==> Deref(ref, group, instances, attr).Ok?
    requires FailsAt(refs, i, group, instances, attr, fault)
    ensures FailsAt(front + refs, |front| + i, group, instances, attr, fault)
  {
    var all := front + refs;
    forall j | 0 <= j < |front| + i ensures Deref(all[j], group, instances, attr).Ok? {
      if j < |front| {
        assert all[j] == front[j];
      } else {
        assert all[j] == refs[j - |front|];
      }
    }
  }

  /** When resolution fails, its fault is that of the first reference that cannot be resolved, in
  the order in which they are met. */
  lemma {:induction false} FirstFault(x: Value, group: string, instances: map<Id, Value>, attr: Attributes)
    returns (i: nat)
    requires ResolveRefs(x, group, instances, attr).Err?
    ensures FailsAt(VisibleRefs(x), i, group, instances, attr, ResolveRefs(x, group, instances, attr).error)
  {
    match x
    case Ref(_) => i := 0; ResolvedRef(x, group, instances, attr);
    case LocalRef(_) => i := 0; ResolvedRef(x, group, instances, attr);
    case Mapping(es) => i := FirstFaultInEntries(es, group, instances, attr);
    case List(xs) => i := FirstFaultInItems(xs, group, instances, attr);
  }

  lemma {:induction false} FirstFaultInEntries(es: Entries, group: string, instances: map<Id, Value>, attr: Attributes)
    returns (i: nat)
    requires ResolveEntries(es, group, instances, attr).Err?
    ensures
      FailsAt(VisibleRefsInEntries(es), i, group, instances, attr, ResolveEntries(es, group, instances, attr).error)
  {
    if ResolveRefs(es.value, group, instances, attr).Err? {
      i := FirstFault(es.value, group, instances, attr);
    } else {
      ResolvedRefs(es.value, group, instances, attr);
      i := FirstFaultInEntries(es.rest, group, instances, attr);
      FailsLater(VisibleRefs(es.value), VisibleRefsInEntries(es.rest), i, group, instances, attr,
                 ResolveEntries(es, group, instances, attr).error);
      i := |VisibleRefs(es.value)| + i;
    }
  }

  lemma {:induction false} FirstFaultInItems(xs: Items, group: string, instances: map<Id, Value>, attr: Attributes)
    returns (i: nat)
    requires ResolveItems(xs, group, instances, attr).Err?
    ensures FailsAt(VisibleRefsInItems(xs), i, group, instances, attr, ResolveItems(xs, group, instances, attr).error)
  {
    if ResolveRefs(xs.head, group, instances, attr).Err? {
      i := FirstFault(xs.head, group, instances, attr);
    } else {
      ResolvedRefs(xs.head, group, instances, attr);
      i := FirstFaultInItems(xs.tail, group, instances, attr);
      FailsLater(VisibleRefs(xs.head), VisibleRefsInItems(xs.tail), i, group, instances, attr,
                 ResolveItems(xs, group, instances, attr).error);
      i := |VisibleRefs(xs.head)| + i;
    }
  }

  /** A config can be resolved beside no instances at all exactly when it has no visible reference,
  and it is then left as it is. */
  lemma {:induction false} ResolvesAlone(x: Value, group: string, attr: Attributes)
    ensures ResolveRefs(x, group, map[], attr).Ok? <==> VisibleRefs(x) == []
    ensures VisibleRefs(x) == [] ==> ResolveRefs(x, group, map[], attr) == Ok(x)
  {
    match x
    case Mapping(es) => ResolvesAloneInEntries(es, group, attr);
    case List(xs) => ResolvesAloneInItems(xs, group, attr);
    case _ =>
  }

  lemma {:induction false} ResolvesAloneInEntries(es: Entries, group: string, attr: Attributes)
    ensures ResolveEntries(es, group, map[], attr).Ok? <==> VisibleRefsInEntries(es) == []
    ensures VisibleRefsInEntries(es) == [] ==> ResolveEntries(es, group, map[], attr) == Ok(es)
  {
    if es.Entry? {
      ResolvesAlone(es.value, group, attr);
      ResolvesAloneInEntries(es.rest, group, attr);
    }
  }

  lemma {:induction false} ResolvesAloneInItems(xs: Items, group: string, attr: Attributes)
    ensures ResolveItems(xs, group, map[], attr).Ok? <==> VisibleRefsInItems(xs) == []
    ensures VisibleRefsInItems(xs) == [] ==> ResolveItems(xs, group, map[], attr) == Ok(xs)
  {
    if xs.Cons? {
      ResolvesAlone(xs.head, group, attr);
      ResolvesAloneInItems(xs.tail, group, attr);
    }
  }

  /** A reference in a tuple is a dependency, yet stands unresolved in what the component gets. */
  lemma TupleRefStays(ref: Reference, group: string, instances: map<Id, Value>, attr: Attributes)
    ensures
      var x := Tuple(Cons(ref, Nil));
      Refs(x) == [ref] && ResolveRefs(x, group, instances, attr) == Ok(x)
  {
    assert Refs(ref) == [ref];
    assert RefsInItems(Nil) == [];
    assert RefsInItems(Cons(ref, Nil)) == [ref];
  }
}
