/** What tags are left once a tree has been resolved: those in tuples, which resolution leaves as
they are. */
module TagElimination {
  import opened Values
  import opened Parsing
  import opened Resolver
  import opened Rewriting
  import opened ReaderLaws

  predicate TagFree(x: Value)
  {
    match x
    case Mapping(es) => TagFreeEntries(es)
    case List(xs) => TagFreeItems(xs)
    case Tuple(xs) => TagFreeItems(xs)
    case ComponentDef(_, config) => TagFree(config)
    case Tagged(_, _) => false
    case _ => true
  }

  predicate TagFreeEntries(es: Entries)
  {
    es.Entry? ==> TagFree(es.value) && TagFreeEntries(es.rest)
  }

  predicate TagFreeItems(xs: Items)
  {
    xs.Cons? ==> TagFree(xs.head) && TagFreeItems(xs.tail)
  }

  // ---- mappings --------------------------------------------------------------------------

  /** Every value of `built` that `es` does not overwrite is free of tags. */
  predicate KeptBeside(built: Entries, es: Entries)
  {
    built.Entry? ==>
      && (LastFor(es, built.key).Some? || TagFree(built.value))
      && KeptBeside(built.rest, es)
  }

  lemma {:induction false} KeptByPut(built: Entries, es: Entries)
    requires Distinct(built) && es.Entry?
    ensures KeptBeside(Put(built, Unquoted(es.key), es.value), es.rest)
       <==> KeptBeside(built, es) && (LastFor(es.rest, Unquoted(es.key)).Some? || TagFree(es.value))
  {
    if built.Entry? && built.key != Unquoted(es.key) {
      KeptByPut(built.rest, es);
    } else if built.Entry? {
      KeptElsewhere(built.rest, es);
    }
  }

  lemma {:induction false} KeptElsewhere(built: Entries, es: Entries)
    requires es.Entry? && Lookup(built, Unquoted(es.key)).None?
    ensures KeptBeside(built, es) <==> KeptBeside(built, es.rest)
  {
    if built.Entry? {
      KeptElsewhere(built.rest, es);
    }
  }

  /** Every value that is not overwritten once the quotes are dropped is free of tags. */
  predicate KeptTagFree(es: Entries)
  {
    es.Entry? ==>
      && (LastFor(es.rest, Unquoted(es.key)).Some? || TagFree(es.value))
      && KeptTagFree(es.rest)
  }

  lemma {:induction false} RekeyedTagFree(es: Entries, built: Entries)
    requires Distinct(built)
    ensures TagFreeEntries(Rekeyed(es, built)) <==> KeptTagFree(es) && KeptBeside(built, es)
    decreases es
  {
    match es
    case Empty => KeptAlone(built);
    case Entry(k, v, rest) =>
      PutIsDistinct(built, Unquoted(k), v);
      RekeyedTagFree(rest, Put(built, Unquoted(k), v));
      KeptByPut(built, es);
  }

  lemma {:induction false} KeptAlone(built: Entries)
    ensures KeptBeside(built, Empty) <==> TagFreeEntries(built)
  {
    if built.Entry? {
      KeptAlone(built.rest);
    }
  }

  // ---- lists -----------------------------------------------------------------------------

  lemma {:induction false} CharsAreTagFree(s: string)
    ensures TagFreeItems(Chars(s))
  {
    if s != "" {
      CharsAreTagFree(s[1..]);
    }
  }

  lemma {:induction false} KeyItemsAreTagFree(es: Entries)
    ensures TagFreeItems(KeyItems(es))
  {
    if es.Entry? {
      KeyItemsAreTagFree(es.rest);
    }
  }

  /** Iterating over a mapping gives its keys, and so no tag. */
  lemma IterateTagFree(x: Value)
    requires Iterate(x).Some?
    ensures TagFreeItems(Iterate(x).value) <==> x.Mapping? || TagFree(x)
  {
    match x
    case Str(s) => CharsAreTagFree(s);
    case Mapping(es) => KeyItemsAreTagFree(es);
    case _ =>
  }

  lemma {:induction false} AppendTagFree(xs: Items, ys: Items)
    ensures TagFreeItems(Resolver.Append(xs, ys)) <==> TagFreeItems(xs) && TagFreeItems(ys)
  {
    if xs.Cons? {
      AppendTagFree(xs.tail, ys);
    }
  }

  lemma {:induction false} ConcatenatedIsTagFree(xs: Items)
    requires TagFreeItems(xs)
    ensures Concatenated(xs).Some? ==> TagFreeItems(Concatenated(xs).value)
  {
    if xs.Cons? && Iterate(xs.head).Some? && Concatenated(xs.tail).Some? {
      IterateTagFree(xs.head);
      ConcatenatedIsTagFree(xs.tail);
      AppendTagFree(Iterate(xs.head).value, Concatenated(xs.tail).value);
    }
  }

  // ---- the condition ---------------------------------------------------------------------

  /** Where resolution gets to in `x`, no tuple holds a tag. */
  predicate Untagged(host: Host, profile: string, depth: nat, x: Value)
    decreases depth, x, 1
  {
    match x
    case Mapping(es) => UntaggedEntries(host, profile, depth, es, None)
    case List(xs) => UntaggedItems(host, profile, depth, xs)
    case Tuple(xs) => TagFreeItems(xs)
    case Tagged(tag, v) => tag in host.readers ==> UntaggedRead(host, profile, depth, host.readers[tag], v)
    case _ => true
  }

  /** Some entry but those at `skip` is written with the key, quoted or not. */
  predicate Written(es: Entries, key: Key, skip: Option<Key>)
  {
    es.Entry? && ((skip != Some(es.key) && Unquoted(es.key) == key) || Written(es.rest, key, skip))
  }

  predicate UntaggedEntries(host: Host, profile: string, depth: nat, es: Entries, skip: Option<Key>)
    decreases depth, es, 1
  {
    es.Entry? ==>
      && (skip == Some(es.key) || Written(es.rest, Unquoted(es.key), skip) || Untagged(host, profile, depth, es.value))
      && UntaggedEntries(host, profile, depth, es.rest, skip)
  }

  predicate UntaggedItems(host: Host, profile: string, depth: nat, xs: Items)
    decreases depth, xs, 1
  {
    xs.Cons? ==> Untagged(host, profile, depth, xs.head) && UntaggedItems(host, profile, depth, xs.tail)
  }

  predicate UntaggedFirst(host: Host, profile: string, depth: nat, xs: Items)
    decreases depth, xs, 1
  {
    xs.Cons? ==>
      if Resolve(host, profile, depth, xs.head) == Ok(Null) then UntaggedFirst(host, profile, depth, xs.tail)
      else Untagged(host, profile, depth, xs.head)
  }

  predicate GivesMapping(host: Host, profile: string, depth: nat, x: Value)
  {
    var r := Resolve(host, profile, depth, x);
    r.Ok? && r.value.Mapping?
  }

  predicate UntaggedPieces(host: Host, profile: string, depth: nat, xs: Items)
    decreases depth, xs, 1
  {
    xs.Cons? ==>
      && (GivesMapping(host, profile, depth, xs.head) || Untagged(host, profile, depth, xs.head))
      && UntaggedPieces(host, profile, depth, xs.tail)
  }

  /** What a reader passes on is untagged; the others make text, numbers, references and such. */
  predicate UntaggedRead(host: Host, profile: string, depth: nat, reader: Reader, v: Value)
    decreases depth, v, 3
  {
    match reader
    case ReadProfile =>
      v.Mapping? && Picked(profile, v.entries).Some? ==>
        Untagged(host, profile, depth, Picked(profile, v.entries).value)
    case ReadInclude =>
      v.Str? && WithoutPrefix(v.s) in host.resources && depth > 0 ==>
        Untagged(host, profile, depth - 1, host.resources[WithoutPrefix(v.s)])
    case ReadOr => v.List? ==> UntaggedFirst(host, profile, depth, v.items)
    case ReadConcat => v.List? ==> UntaggedPieces(host, profile, depth, v.items)
    case ReadComponent => v.Mapping? ==> UntaggedEntries(host, profile, depth, v.entries, Some(KIND_KEY))
    case ReadSame => Untagged(host, profile, depth, v)
    case _ => true
  }

  // ---- the condition is exact ------------------------------------------------------------

  /** If the resolution succeeds, it is free of tags exactly when `untagged` holds. */
  predicate Exact(r: Result<Value, ConfigFault>, untagged: bool)
  {
    r.Ok? ==> (TagFree(r.value) <==> untagged)
  }

  /** A successful resolution of a parsed tree leaves no tag, down to the configs of the component
  declarations in it, exactly when no tuple that resolution gets to holds one. */
  lemma {:induction false} TagFreeIffUntagged(host: Host, profile: string, depth: nat, x: Value)
    requires Parsed(x) && ParsedResources(host)
    ensures Exact(Resolve(host, profile, depth, x), Untagged(host, profile, depth, x))
    decreases depth, x, 1
  {
    match x
    case Mapping(es) => EntriesTagFree(host, profile, depth, es, None);
    case List(xs) => ItemsTagFree(host, profile, depth, xs);
    case Tagged(tag, v) =>
      if tag in host.readers {
        ReadTagFree(host, profile, depth, host.readers[tag], v);
      }
    case _ =>
  }

  lemma {:induction false} WrittenIsLast(host: Host, profile: string, depth: nat, es: Entries, skip: Option<Key>,
                                         key: Key)
    ensures
      var rs := ResolveEntries(host, profile, depth, es, skip);
      rs.Ok? ==> LastFor(rs.value, key).Some? == Written(es, key, skip)
  {
    if es.Entry? {
      WrittenIsLast(host, profile, depth, es.rest, skip, key);
    }
  }

  lemma {:induction false} EntriesTagFree(host: Host, profile: string, depth: nat, es: Entries, skip: Option<Key>)
    requires ParsedEntries(es) && ParsedResources(host)
    ensures
      var rs := ResolveEntries(host, profile, depth, es, skip);
      rs.Ok? ==>
        && (KeptTagFree(rs.value) <==> UntaggedEntries(host, profile, depth, es, skip))
        && (TagFree(Mapping(Rekeyed(rs.value, Empty))) <==> UntaggedEntries(host, profile, depth, es, skip))
    decreases depth, es, 1
  {
    var rs := ResolveEntries(host, profile, depth, es, skip);
    if es.Entry? {
      TagFreeIffUntagged(host, profile, depth, es.value);
      EntriesTagFree(host, profile, depth, es.rest, skip);
      WrittenIsLast(host, profile, depth, es.rest, skip, Unquoted(es.key));
    }
    if rs.Ok? {
      RekeyedTagFree(rs.value, Empty);
    }
  }

  lemma {:induction false} ItemsTagFree(host: Host, profile: string, depth: nat, xs: Items)
    requires ParsedItems(xs) && ParsedResources(host)
    ensures
      var rs := ResolveItems(host, profile, depth, xs);
      rs.Ok? ==>
        && (TagFreeItems(rs.value) <==> UntaggedItems(host, profile, depth, xs))
        && (Concatenated(rs.value).Some? ==>
              (TagFreeItems(Concatenated(rs.value).value) <==> UntaggedPieces(host, profile, depth, xs)))
    ensures Exact(FirstNonNull(host, profile, depth, xs), UntaggedFirst(host, profile, depth, xs))
    decreases depth, xs, 1
  {
    if xs.Cons? {
      TagFreeIffUntagged(host, profile, depth, xs.head);
      ItemsTagFree(host, profile, depth, xs.tail);
      var r, rs := Resolve(host, profile, depth, xs.head), ResolveItems(host, profile, depth, xs.tail);
      if r.Ok? && rs.Ok? && Iterate(r.value).Some? && Concatenated(rs.value).Some? {
        IterateTagFree(r.value);
        AppendTagFree(Iterate(r.value).value, Concatenated(rs.value).value);
      }
    }
  }

  lemma {:induction false} ReadTagFree(host: Host, profile: string, depth: nat, reader: Reader, v: Value)
    requires Parsed(v) && ParsedResources(host) && (v.Str? || v.List? || v.Mapping?)
    ensures Exact(Read(host, profile, depth, reader, v), UntaggedRead(host, profile, depth, reader, v))
    decreases depth, v, 3
  {
    match reader
    case ReadProfile =>
      if v.Mapping? && Picked(profile, v.entries).Some? {
        PickedIsParsed(profile, v.entries);
        TagFreeIffUntagged(host, profile, depth, Picked(profile, v.entries).value);
      }
    case ReadInclude =>
      if v.Str? && WithoutPrefix(v.s) in host.resources && depth > 0 {
        TagFreeIffUntagged(host, profile, depth - 1, host.resources[WithoutPrefix(v.s)]);
      }
    case ReadOr =>
      if v.List? {
        ItemsTagFree(host, profile, depth, v.items);
      }
    case ReadConcat => ConcatTagFree(host, profile, depth, v);
    case ReadComponent =>
      if v.Mapping? {
        EntriesTagFree(host, profile, depth, v.entries, Some(KIND_KEY));
      }
    case ReadSame => TagFreeIffUntagged(host, profile, depth, v);
    case _ =>
  }

  lemma {:induction false} ConcatTagFree(host: Host, profile: string, depth: nat, v: Value)
    requires Parsed(v) && ParsedResources(host) && (v.Str? || v.List? || v.Mapping?)
    ensures Exact(Read(host, profile, depth, ReadConcat, v), UntaggedRead(host, profile, depth, ReadConcat, v))
    decreases depth, v, 2
  {
    match v
    case List(xs) => ItemsTagFree(host, profile, depth, xs);
    case Str(s) =>
      CharsAreTagFree(s);
      ConcatenatedIsTagFree(Chars(s));
    case Mapping(es) =>
      var r := Resolve(host, profile, depth, v);
      if r.Ok? {
        KeyItemsAreTagFree(r.value.entries);
        ConcatenatedIsTagFree(KeyItems(r.value.entries));
      }
  }

  // ---- trees without such tuples ---------------------------------------------------------

  /** No tuple in `x`, in any branch, holds a tag. */
  predicate PlainTuples(x: Value)
  {
    match x
    case Mapping(es) => PlainTuplesInEntries(es)
    case List(xs) => PlainTuplesInItems(xs)
    case Tuple(xs) => TagFreeItems(xs)
    case Tagged(_, v) => PlainTuples(v)
    case _ => true
  }

  predicate PlainTuplesInEntries(es: Entries)
  {
    es.Entry? ==> PlainTuples(es.value) && PlainTuplesInEntries(es.rest)
  }

  predicate PlainTuplesInItems(xs: Items)
  {
    xs.Cons? ==> PlainTuples(xs.head) && PlainTuplesInItems(xs.tail)
  }

  predicate PlainResources(host: Host)
  {
    forall n :: n in host.resources ==> Parsed(host.resources[n]) && PlainTuples(host.resources[n])
  }

  lemma {:induction false} PlainTuplesAt(es: Entries, key: Key)
    requires PlainTuplesInEntries(es)
    ensures Lookup(es, key).Some? ==> PlainTuples(Lookup(es, key).value)
  {
    if es.Entry? && es.key != key {
      PlainTuplesAt(es.rest, key);
    }
  }

  lemma {:induction false} PlainIsUntagged(host: Host, profile: string, depth: nat, x: Value)
    requires PlainTuples(x) && PlainResources(host)
    ensures Untagged(host, profile, depth, x)
    decreases depth, x, 1
  {
    match x
    case Mapping(es) => PlainEntriesAreUntagged(host, profile, depth, es, None);
    case List(xs) => PlainItemsAreUntagged(host, profile, depth, xs);
    case Tagged(tag, v) =>
      if tag in host.readers {
        PlainReadIsUntagged(host, profile, depth, host.readers[tag], v);
      }
    case _ =>
  }

  lemma {:induction false} PlainEntriesAreUntagged(host: Host, profile: string, depth: nat, es: Entries,
                                                   skip: Option<Key>)
    requires PlainTuplesInEntries(es) && PlainResources(host)
    ensures UntaggedEntries(host, profile, depth, es, skip)
    decreases depth, es, 1
  {
    if es.Entry? {
      PlainIsUntagged(host, profile, depth, es.value);
      PlainEntriesAreUntagged(host, profile, depth, es.rest, skip);
    }
  }

  lemma {:induction false} PlainItemsAreUntagged(host: Host, profile: string, depth: nat, xs: Items)
    requires PlainTuplesInItems(xs) && PlainResources(host)
    ensures UntaggedItems(host, profile, depth, xs)
    ensures UntaggedFirst(host, profile, depth, xs) && UntaggedPieces(host, profile, depth, xs)
    decreases depth, xs, 1
  {
    if xs.Cons? {
      PlainIsUntagged(host, profile, depth, xs.head);
      PlainItemsAreUntagged(host, profile, depth, xs.tail);
    }
  }

  lemma {:induction false} PlainReadIsUntagged(host: Host, profile: string, depth: nat, reader: Reader, v: Value)
    requires PlainTuples(v) && PlainResources(host)
    ensures UntaggedRead(host, profile, depth, reader, v)
    decreases depth, v, 3
  {
    match reader
    case ReadProfile =>
      if v.Mapping? && Picked(profile, v.entries).Some? {
        PlainTuplesAt(v.entries, Name(profile));
        PlainTuplesAt(v.entries, Name("default"));
        PlainIsUntagged(host, profile, depth, Picked(profile, v.entries).value);
      }
    case ReadInclude =>
      if v.Str? && WithoutPrefix(v.s) in host.resources && depth > 0 {
        PlainIsUntagged(host, profile, depth - 1, host.resources[WithoutPrefix(v.s)]);
      }
    case ReadComponent =>
      if v.Mapping? {
        PlainEntriesAreUntagged(host, profile, depth, v.entries, Some(KIND_KEY));
      }
    case ReadSame => PlainIsUntagged(host, profile, depth, v);
    case _ =>
      if v.List? {
        PlainItemsAreUntagged(host, profile, depth, v.items);
      }
  }

  /** So nothing tagged is left where no tuple in sight holds a tag. */
  lemma ResolvedIsTagFree(host: Host, profile: string, depth: nat, x: Value)
    requires Parsed(x) && PlainTuples(x) && PlainResources(host)
    ensures Exact(Resolve(host, profile, depth, x), true)
  {
    PlainIsUntagged(host, profile, depth, x);
    TagFreeIffUntagged(host, profile, depth, x);
  }

  /** A tagged value in a list of pairs is parsed and stays as it is. */
  lemma PairedTagStays(host: Host, profile: string, depth: nat, scalar: string -> PlainValue, key: string,
                       tag: string, text: string)
    ensures
      var x := Construct(scalar, Pairs(AddPair(Scalar(None, key), Scalar(Some(tag), text), NoPair)));
      Resolve(host, profile, depth, x) == Ok(x) && !TagFree(x)
  {
    var pair := Tuple(Cons(scalar(key), Cons(Tagged("!" + tag, Str(text)), Nil)));
    var x := List(Cons(pair, Nil));
    assert Construct(scalar, Scalar(None, key)) == scalar(key);
    assert Construct(scalar, Scalar(Some(tag), text)) == Tagged("!" + tag, Str(text));
    assert ConstructPairs(scalar, NoPair) == Nil;
    assert Construct(scalar, Pairs(AddPair(Scalar(None, key), Scalar(Some(tag), text), NoPair))) == x;
    assert ResolveItems(host, profile, depth, Nil) == Ok(Nil);
    assert Resolve(host, profile, depth, pair) == Ok(pair);
    assert ResolveItems(host, profile, depth, Cons(pair, Nil)) == Ok(Cons(pair, Nil));
    assert !TagFree(Tagged("!" + tag, Str(text)));
    assert !TagFreeItems(Cons(Tagged("!" + tag, Str(text)), Nil));
    assert !TagFree(pair);
  }
}
