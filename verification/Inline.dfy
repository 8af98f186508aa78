/** Includes as calls: replacing each by the tree of the resource it names. */
module Inline {
  import opened Values
  import opened Parsing
  import opened Resolver
  import opened Rewriting

  /** The tag, with this argument, includes a resource that exists. */
  predicate Includes(host: Host, tag: string, v: Value)
  {
    && tag in host.readers && host.readers[tag].ReadInclude?
    && v.Str? && WithoutPrefix(v.s) in host.resources
  }

  /** The reader of the tag leaves its argument alone, or there is none. */
  predicate Inert(host: Host, tag: string)
  {
    tag !in host.readers || Raw(host.readers[tag])
  }

  /** Every resource included in `x`, in any branch, ranks below `bound`. */
  predicate Grounded(host: Host, rank: map<string, nat>, x: Value, bound: nat)
  {
    match x
    case Mapping(es) => GroundedEntries(host, rank, es, bound)
    case List(xs) => GroundedItems(host, rank, xs, bound)
    case Tagged(tag, v) =>
      if Includes(host, tag, v) then WithoutPrefix(v.s) in rank && rank[WithoutPrefix(v.s)] < bound
      else Inert(host, tag) || Grounded(host, rank, v, bound)
    case _ => true
  }

  predicate GroundedEntries(host: Host, rank: map<string, nat>, es: Entries, bound: nat)
  {
    es.Entry? ==> Grounded(host, rank, es.value, bound) && GroundedEntries(host, rank, es.rest, bound)
  }

  predicate GroundedItems(host: Host, rank: map<string, nat>, xs: Items, bound: nat)
  {
    xs.Cons? ==> Grounded(host, rank, xs.head, bound) && GroundedItems(host, rank, xs.tail, bound)
  }

  /** The include graph of the resources is well-founded, as `rank` witnesses. */
  predicate WellFounded(host: Host, rank: map<string, nat>)
  {
    forall n :: n in host.resources && n in rank ==> Grounded(host, rank, host.resources[n], rank[n])
  }

  /** No existing resource is included any more, tuples apart, which are not resolved. */
  predicate IncludeFree(host: Host, x: Value)
  {
    match x
    case Mapping(es) => IncludeFreeEntries(host, es)
    case List(xs) => IncludeFreeItems(host, xs)
    case Tagged(tag, v) => !Includes(host, tag, v) && (Inert(host, tag) || IncludeFree(host, v))
    case _ => true
  }

  predicate IncludeFreeEntries(host: Host, es: Entries)
  {
    es.Entry? ==> IncludeFree(host, es.value) && IncludeFreeEntries(host, es.rest)
  }

  predicate IncludeFreeItems(host: Host, xs: Items)
  {
    xs.Cons? ==> IncludeFree(host, xs.head) && IncludeFreeItems(host, xs.tail)
  }

  /** Every include replaced by the resource it names, itself inlined. */
  function Inlined(host: Host, rank: map<string, nat>, x: Value, bound: nat): (r: Value)
    requires WellFounded(host, rank) && Grounded(host, rank, x, bound)
    ensures Parsed(x) && ParsedResources(host) ==> Parsed(r) && IncludeFree(host, r)
    ensures x.Str? || x.List? || x.Mapping? ==> r.Str? == x.Str? && r.List? == x.List? && r.Mapping? == x.Mapping?
    decreases bound, x
  {
    match x
    case Mapping(es) => Mapping(InlinedEntries(host, rank, es, bound))
    case List(xs) => List(InlinedItems(host, rank, xs, bound))
    case Tagged(tag, v) =>
      if Includes(host, tag, v) then
        var name := WithoutPrefix(v.s);
        Inlined(host, rank, host.resources[name], rank[name])
      else if Inert(host, tag) then x
      else Tagged(tag, Inlined(host, rank, v, bound))
    case _ => x
  }

  function InlinedEntries(host: Host, rank: map<string, nat>, es: Entries, bound: nat): (r: Entries)
    requires WellFounded(host, rank) && GroundedEntries(host, rank, es, bound)
    ensures ParsedEntries(es) && ParsedResources(host) ==> ParsedEntries(r) && IncludeFreeEntries(host, r)
    decreases bound, es
  {
    match es
    case Empty => Empty
    case Entry(k, v, rest) => Entry(k, Inlined(host, rank, v, bound), InlinedEntries(host, rank, rest, bound))
  }

  function InlinedItems(host: Host, rank: map<string, nat>, xs: Items, bound: nat): (r: Items)
    requires WellFounded(host, rank) && GroundedItems(host, rank, xs, bound)
    ensures ParsedItems(xs) && ParsedResources(host) ==> ParsedItems(r) && IncludeFreeItems(host, r)
    decreases bound, xs
  {
    match xs
    case Nil => Nil
    case Cons(x, rest) => Cons(Inlined(host, rank, x, bound), InlinedItems(host, rank, rest, bound))
  }

  /** Resolving a tree equals resolving it with its includes inlined, however little nesting is
  left for the inlined tree. */
  lemma {:induction false} InlinedResolves(host: Host, rank: map<string, nat>, profile: string,
                                           depth: nat, other: nat, x: Value, bound: nat)
    requires Parsed(x) && ParsedResources(host)
    requires WellFounded(host, rank) && Grounded(host, rank, x, bound) && bound <= depth
    ensures Resolve(host, profile, other, Inlined(host, rank, x, bound)) == Resolve(host, profile, depth, x)
    decreases bound, x, 1
  {
    var s, t := Scope(host, profile, depth), Scope(host, profile, other);
    match x
    case Mapping(es) =>
      InlinedAlike(host, rank, profile, depth, other, x, bound);
      AlikeResolve(s, x, t, Inlined(host, rank, x, bound));
    case List(xs) =>
      InlinedAlike(host, rank, profile, depth, other, x, bound);
      AlikeResolve(s, x, t, Inlined(host, rank, x, bound));
    case Tagged(tag, v) => InlinedTagResolves(host, rank, profile, depth, other, tag, v, bound);
    case _ =>
  }

  lemma {:induction false} InlinedTagResolves(host: Host, rank: map<string, nat>, profile: string,
                                              depth: nat, other: nat, tag: string, v: Value, bound: nat)
    requires Parsed(Tagged(tag, v)) && ParsedResources(host)
    requires WellFounded(host, rank) && Grounded(host, rank, Tagged(tag, v), bound) && bound <= depth
    ensures Resolve(host, profile, other, Inlined(host, rank, Tagged(tag, v), bound))
         == Resolve(host, profile, depth, Tagged(tag, v))
    decreases bound, v, 2
  {
    var s, t := Scope(host, profile, depth), Scope(host, profile, other);
    if tag in host.readers {
      var reader := host.readers[tag];
      if reader.ReadInclude? {
        if Includes(host, tag, v) {
          var name := WithoutPrefix(v.s);
          InlinedResolves(host, rank, profile, depth - 1, other, host.resources[name], rank[name]);
        }
      } else if Raw(reader) {
        ReadRaw(s, t, tag, v);
      } else if reader.ReadProfile? {
        if v.Mapping? {
          InlinedPick(host, rank, profile, depth, other, v.entries, bound);
        }
      } else {
        InlinedAlike(host, rank, profile, depth, other, v, bound);
        ReadAlike(s, v, t, Inlined(host, rank, v, bound), tag);
      }
    }
  }

  lemma {:induction false} InlinedPick(host: Host, rank: map<string, nat>, profile: string,
                                       depth: nat, other: nat, es: Entries, bound: nat)
    requires ParsedEntries(es) && ParsedResources(host)
    requires WellFounded(host, rank) && GroundedEntries(host, rank, es, bound) && bound <= depth
    ensures
      var p, q := Picked(profile, es), Picked(profile, InlinedEntries(host, rank, es, bound));
      && p.Some? == q.Some?
      && (p.Some? ==> Resolve(host, profile, depth, p.value) == Resolve(host, profile, other, q.value))
    decreases bound, es, 2
  {
    var s, t := Scope(host, profile, depth), Scope(host, profile, other);
    InlinedEntriesAlike(host, rank, profile, depth, other, es, bound);
    AlikeLookup(s, es, t, InlinedEntries(host, rank, es, bound), Name(profile));
    AlikeLookup(s, es, t, InlinedEntries(host, rank, es, bound), Name("default"));
  }

  lemma {:induction false} InlinedAlike(host: Host, rank: map<string, nat>, profile: string,
                                        depth: nat, other: nat, v: Value, bound: nat)
    requires Parsed(v) && ParsedResources(host) && (v.Str? || v.List? || v.Mapping?)
    requires WellFounded(host, rank) && Grounded(host, rank, v, bound) && bound <= depth
    ensures Alike(Scope(host, profile, depth), v, Scope(host, profile, other), Inlined(host, rank, v, bound))
    decreases bound, v, 0
  {
    match v
    case Mapping(es) => InlinedEntriesAlike(host, rank, profile, depth, other, es, bound);
    case List(xs) => InlinedItemsAlike(host, rank, profile, depth, other, xs, bound);
    case _ =>
  }

  lemma {:induction false} InlinedEntriesAlike(host: Host, rank: map<string, nat>, profile: string,
                                               depth: nat, other: nat, es: Entries, bound: nat)
    requires ParsedEntries(es) && ParsedResources(host)
    requires WellFounded(host, rank) && GroundedEntries(host, rank, es, bound) && bound <= depth
    ensures AlikeEntries(Scope(host, profile, depth), es,
                         Scope(host, profile, other), InlinedEntries(host, rank, es, bound))
    decreases bound, es, 1
  {
    if es.Entry? {
      InlinedResolves(host, rank, profile, depth, other, es.value, bound);
      InlinedEntriesAlike(host, rank, profile, depth, other, es.rest, bound);
    }
  }

  lemma {:induction false} InlinedItemsAlike(host: Host, rank: map<string, nat>, profile: string,
                                             depth: nat, other: nat, xs: Items, bound: nat)
    requires ParsedItems(xs) && ParsedResources(host)
    requires WellFounded(host, rank) && GroundedItems(host, rank, xs, bound) && bound <= depth
    ensures AlikeItems(Scope(host, profile, depth), xs,
                       Scope(host, profile, other), InlinedItems(host, rank, xs, bound))
    decreases bound, xs, 1
  {
    if xs.Cons? {
      InlinedResolves(host, rank, profile, depth, other, xs.head, bound);
      InlinedItemsAlike(host, rank, profile, depth, other, xs.tail, bound);
    }
  }

  /** With a well-founded include graph the limit on nesting makes no difference. */
  lemma NestingIsBounded(host: Host, rank: map<string, nat>, profile: string, depth: nat, x: Value, bound: nat)
    requires Parsed(x) && ParsedResources(host)
    requires WellFounded(host, rank) && Grounded(host, rank, x, bound) && bound <= depth
    ensures Resolve(host, profile, depth, x) == Resolve(host, profile, bound, x)
  {
    InlinedResolves(host, rank, profile, depth, 0, x, bound);
    InlinedResolves(host, rank, profile, bound, 0, x, bound);
  }
  // ---- includes without a rank -----------------------------------------------------------

  /** The limit on nesting stopped the first resolution, or the second comes to the same. */
  predicate StoppedOrSame<T(==)>(shallow: Result<T, ConfigFault>, deep: Result<T, ConfigFault>)
  {
    shallow == Err(TooDeep) || deep == shallow
  }

  lemma {:induction false} OneDeeper(host: Host, profile: string, depth: nat, x: Value)
    ensures StoppedOrSame(Resolve(host, profile, depth, x), Resolve(host, profile, depth + 1, x))
    decreases depth, x, 1
  {
    match x
    case Mapping(es) => EntriesOneDeeper(host, profile, depth, es, None);
    case List(xs) => ItemsOneDeeper(host, profile, depth, xs);
    case Tagged(tag, v) =>
      if tag in host.readers {
        ReadOneDeeper(host, profile, depth, host.readers[tag], v);
      }
    case _ =>
  }

  lemma {:induction false} EntriesOneDeeper(host: Host, profile: string, depth: nat, es: Entries, skip: Option<Key>)
    ensures StoppedOrSame(ResolveEntries(host, profile, depth, es, skip),
                          ResolveEntries(host, profile, depth + 1, es, skip))
    decreases depth, es, 1
  {
    if es.Entry? {
      OneDeeper(host, profile, depth, es.value);
      EntriesOneDeeper(host, profile, depth, es.rest, skip);
    }
  }

  lemma {:induction false} ItemsOneDeeper(host: Host, profile: string, depth: nat, xs: Items)
    ensures StoppedOrSame(ResolveItems(host, profile, depth, xs), ResolveItems(host, profile, depth + 1, xs))
    ensures StoppedOrSame(FirstNonNull(host, profile, depth, xs), FirstNonNull(host, profile, depth + 1, xs))
    decreases depth, xs, 1
  {
    if xs.Cons? {
      OneDeeper(host, profile, depth, xs.head);
      ItemsOneDeeper(host, profile, depth, xs.tail);
    }
  }

  lemma {:induction false} ReadOneDeeper(host: Host, profile: string, depth: nat, reader: Reader, v: Value)
    ensures StoppedOrSame(Read(host, profile, depth, reader, v), Read(host, profile, depth + 1, reader, v))
    decreases depth, v, 3
  {
    match reader
    case ReadProfile =>
      if v.Mapping? && Picked(profile, v.entries).Some? {
        OneDeeper(host, profile, depth, Picked(profile, v.entries).value);
      }
    case ReadInclude =>
      if v.Str? && WithoutPrefix(v.s) in host.resources && depth > 0 {
        OneDeeper(host, profile, depth - 1, host.resources[WithoutPrefix(v.s)]);
      }
    case ReadOr =>
      if v.List? || v.Tuple? {
        ItemsOneDeeper(host, profile, depth, v.items);
      }
    case ReadLong => LongOneDeeper(host, profile, depth, v);
    case ReadPort => LongOneDeeper(host, profile, depth, v);
    case ReadKeyword =>
      if Unwrapped(v).Some? {
        UnwrappedOneDeeper(host, profile, depth, v);
      }
    case ReadComponent =>
      if v.Mapping? && Lookup(v.entries, KIND_KEY).Some? {
        OneDeeper(host, profile, depth, Lookup(v.entries, KIND_KEY).value);
        EntriesOneDeeper(host, profile, depth, v.entries, Some(KIND_KEY));
      }
    case _ => OneDeeper(host, profile, depth, v);
  }

  lemma {:induction false} UnwrappedOneDeeper(host: Host, profile: string, depth: nat, v: Value)
    requires Unwrapped(v).Some?
    ensures StoppedOrSame(Resolve(host, profile, depth, Unwrapped(v).value),
                          Resolve(host, profile, depth + 1, Unwrapped(v).value))
    decreases depth, v, 2, 0
  {
    OneDeeper(host, profile, depth, Unwrapped(v).value);
  }

  lemma {:induction false} LongOneDeeper(host: Host, profile: string, depth: nat, v: Value)
    ensures StoppedOrSame(Long(host, profile, depth, v), Long(host, profile, depth + 1, v))
    decreases depth, v, 2, 1
  {
    if Unwrapped(v).Some? {
      UnwrappedOneDeeper(host, profile, depth, v);
    }
  }

  /** Whatever the include graph, cyclic or not: a resolution that the limit on nesting does not stop
  comes to the same, value or error, under any higher limit. */
  lemma {:induction false} LimitMakesNoDifference(host: Host, profile: string, depth: nat, other: nat, x: Value)
    requires depth <= other && Resolve(host, profile, depth, x) != Err(TooDeep)
    ensures Resolve(host, profile, other, x) == Resolve(host, profile, depth, x)
    decreases other
  {
    if depth < other {
      LimitMakesNoDifference(host, profile, depth, other - 1, x);
      OneDeeper(host, profile, other - 1, x);
    }
  }
}
