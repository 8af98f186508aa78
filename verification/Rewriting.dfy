/** When two trees resolve alike: the congruence that the tree transformations rest on. */
module Rewriting {
  import opened Values
  import opened Parsing
  import opened Resolver

  predicate ParsedResources(host: Host)
  {
    forall n :: n in host.resources ==> Parsed(host.resources[n])
  }

  lemma PickedIsParsed(profile: string, es: Entries)
    requires ParsedEntries(es) && Picked(profile, es).Some?
    ensures Parsed(Picked(profile, es).value)
  {
    if Lookup(es, Name(profile)).Some? {
      ParsedAt(es, Name(profile));
    } else {
      ParsedAt(es, Name("default"));
    }
  }

  /** Where a tree is resolved: under which host and profile, and how deep in includes. */
  datatype Scope = Scope(host: Host, profile: string, depth: nat)

  function At(s: Scope, x: Value): Result<Value, ConfigFault>
  {
    Resolve(s.host, s.profile, s.depth, x)
  }

  /** The hosts differ in their resources at most. */
  ghost predicate SameOutside(s: Scope, t: Scope)
  {
    s.host.(resources := map[]) == t.host.(resources := map[])
  }

  /** Two arguments of a tag that no strict reader tells apart: equal text, or lists or mappings
  of things that resolve alike. */
  predicate Alike(s: Scope, v: Value, t: Scope, w: Value)
  {
    match (v, w)
    case (List(xs), List(ys)) => AlikeItems(s, xs, t, ys)
    case (Mapping(es), Mapping(fs)) => AlikeEntries(s, es, t, fs)
    case _ => v.Str? && v == w
  }

  predicate AlikeItems(s: Scope, xs: Items, t: Scope, ys: Items)
  {
    match (xs, ys)
    case (Nil, Nil) => true
    case (Cons(x, xs'), Cons(y, ys')) => At(s, x) == At(t, y) && AlikeItems(s, xs', t, ys')
    case _ => false
  }

  predicate AlikeEntries(s: Scope, es: Entries, t: Scope, fs: Entries)
  {
    match (es, fs)
    case (Empty, Empty) => true
    case (Entry(k, v, es'), Entry(l, w, fs')) => k == l && At(s, v) == At(t, w) && AlikeEntries(s, es', t, fs')
    case _ => false
  }

  lemma {:induction false} AlikeItemsResolve(s: Scope, xs: Items, t: Scope, ys: Items)
    requires AlikeItems(s, xs, t, ys)
    ensures ResolveItems(s.host, s.profile, s.depth, xs) == ResolveItems(t.host, t.profile, t.depth, ys)
    ensures FirstNonNull(s.host, s.profile, s.depth, xs) == FirstNonNull(t.host, t.profile, t.depth, ys)
  {
    if xs.Cons? {
      AlikeItemsResolve(s, xs.tail, t, ys.tail);
    }
  }

  lemma {:induction false} AlikeEntriesResolve(s: Scope, es: Entries, t: Scope, fs: Entries, skip: Option<Key>)
    requires AlikeEntries(s, es, t, fs)
    ensures ResolveEntries(s.host, s.profile, s.depth, es, skip) == ResolveEntries(t.host, t.profile, t.depth, fs, skip)
  {
    if es.Entry? {
      AlikeEntriesResolve(s, es.rest, t, fs.rest, skip);
    }
  }

  lemma {:induction false} AlikeLookup(s: Scope, es: Entries, t: Scope, fs: Entries, key: Key)
    requires AlikeEntries(s, es, t, fs)
    ensures Lookup(es, key).Some? == Lookup(fs, key).Some?
    ensures Lookup(es, key).Some? ==> At(s, Lookup(es, key).value) == At(t, Lookup(fs, key).value)
  {
    if es.Entry? && es.key != key {
      AlikeLookup(s, es.rest, t, fs.rest, key);
    }
  }

  lemma AlikeResolve(s: Scope, v: Value, t: Scope, w: Value)
    requires Alike(s, v, t, w)
    ensures At(s, v) == At(t, w)
  {
    match v
    case List(xs) => AlikeItemsResolve(s, xs, t, w.items);
    case Mapping(es) => AlikeEntriesResolve(s, es, t, w.entries, None);
    case _ =>
  }

  lemma AlikeUnwrapped(s: Scope, v: Value, t: Scope, w: Value)
    requires Alike(s, v, t, w)
    ensures Unwrapped(v).Some? == Unwrapped(w).Some?
    ensures Unwrapped(v).Some? ==> At(s, Unwrapped(v).value) == At(t, Unwrapped(w).value)
  {
    AlikeResolve(s, v, t, w);
  }

  lemma SameConversions(s: Scope, t: Scope)
    requires SameOutside(s, t)
    ensures s.host.readers == t.host.readers
    ensures s.host.environ == t.host.environ && s.host.text == t.host.text && s.host.number == t.host.number
    ensures s.host.uuid == t.host.uuid && s.host.freshUuid == t.host.freshUuid && s.host.freePort == t.host.freePort
  {
    var a, b := s.host.(resources := map[]), t.host.(resources := map[]);
    assert a.readers == b.readers && a.environ == b.environ && a.text == b.text && a.number == b.number;
    assert a.uuid == b.uuid && a.freshUuid == b.freshUuid && a.freePort == b.freePort;
  }

  lemma {:induction false} JoinedAlike(s: Scope, t: Scope, xs: Items)
    requires SameOutside(s, t)
    ensures Joined(s.host, xs) == Joined(t.host, xs)
  {
    SameConversions(s, t);
    if xs.Cons? {
      JoinedAlike(s, t, xs.tail);
    }
  }

  lemma ConvertAlike(s: Scope, t: Scope, reader: Reader, r: Result<Value, ConfigFault>)
    requires SameOutside(s, t)
    ensures r.Ok? ==> Convert(s.host, reader, r.value) == Convert(t.host, reader, r.value)
  {
    SameConversions(s, t);
    if r.Ok? && Iterate(r.value).Some? {
      JoinedAlike(s, t, Iterate(r.value).value);
    }
  }

  lemma ComponentAlike(s: Scope, v: Value, t: Scope, w: Value)
    requires SameOutside(s, t) && Alike(s, v, t, w)
    ensures Component(s.host, s.profile, s.depth, v) == Component(t.host, t.profile, t.depth, w)
  {
    SameConversions(s, t);
    if v.Mapping? {
      AlikeLookup(s, v.entries, t, w.entries, KIND_KEY);
      AlikeEntriesResolve(s, v.entries, t, w.entries, Some(KIND_KEY));
    }
  }

  /** The reader of a tag neither picks a branch nor uses its argument as parsed. */
  predicate Strict(s: Scope, tag: string)
  {
    tag in s.host.readers ==> !s.host.readers[tag].ReadProfile? && !Raw(s.host.readers[tag])
  }

  lemma LongAlike(s: Scope, v: Value, t: Scope, w: Value)
    requires SameOutside(s, t) && Alike(s, v, t, w)
    ensures Long(s.host, s.profile, s.depth, v) == Long(t.host, t.profile, t.depth, w)
  {
    SameConversions(s, t);
    AlikeUnwrapped(s, v, t, w);
  }

  /** A strict reader makes the same of arguments that are alike. */
  lemma ReadAlike(s: Scope, v: Value, t: Scope, w: Value, tag: string)
    requires SameOutside(s, t) && Alike(s, v, t, w) && Strict(s, tag)
    ensures At(s, Tagged(tag, v)) == At(t, Tagged(tag, w))
  {
    SameConversions(s, t);
    if tag in s.host.readers {
      var reader := s.host.readers[tag];
      assert At(s, Tagged(tag, v)) == Read(s.host, s.profile, s.depth, reader, v);
      assert At(t, Tagged(tag, w)) == Read(t.host, t.profile, t.depth, reader, w);
      match reader {
        case ReadOr =>
          if v.List? {
            AlikeItemsResolve(s, v.items, t, w.items);
          }
        case ReadLong => LongAlike(s, v, t, w);
        case ReadPort => LongAlike(s, v, t, w);
        case ReadKeyword => AlikeUnwrapped(s, v, t, w);
        case ReadComponent => ComponentAlike(s, v, t, w);
        case _ =>
          AlikeResolve(s, v, t, w);
          ConvertAlike(s, t, reader, At(s, v));
      }
    }
  }

  /** Readers that take their argument as parsed make the same of it anywhere, includes apart. */
  lemma ReadRaw(s: Scope, t: Scope, tag: string, v: Value)
    requires SameOutside(s, t)
    requires tag in s.host.readers && Raw(s.host.readers[tag]) && !s.host.readers[tag].ReadInclude?
    ensures At(s, Tagged(tag, v)) == At(t, Tagged(tag, v))
  {
    SameConversions(s, t);
    var reader := s.host.readers[tag];
    assert At(s, Tagged(tag, v)) == Read(s.host, s.profile, s.depth, reader, v);
    assert At(t, Tagged(tag, v)) == Read(t.host, t.profile, t.depth, reader, v);
    assert RefPath(s.host, v) == RefPath(t.host, v);
  }
}
