/** What resolution never looks at: branches `!profile` does not pick, what follows the item that
settles an `!or`, what follows the one item that `!long`, `!port` and `!keyword` take, and the
arguments of `!random-uuid` and `!system/required-component`. */
module Laziness {
  import opened Values
  import opened Parsing
  import opened Resolver
  import opened Rewriting

  /** The item settles an `!or`: it resolves to something other than null, or fails. */
  predicate Settles(s: Scope, x: Value)
  {
    At(s, x) != Ok(Null)
  }

  /** These readers take the first item of a list. */
  predicate TakesOne(reader: Reader)
  {
    reader.ReadLong? || reader.ReadPort? || reader.ReadKeyword?
  }

  /** What iterating over a mapping gives first. */
  function FirstKey(es: Entries): Option<Key>
  {
    if es.Empty? then None else Some(es.key)
  }

  /** The two trees differ at most in parts that resolution does not reach. */
  predicate Agree(s: Scope, x: Value, y: Value)
    decreases x, 1
  {
    match (x, y)
    case (Mapping(es), Mapping(fs)) => AgreeEntries(s, es, fs)
    case (List(xs), List(ys)) => AgreeItems(s, xs, ys)
    case (Tagged(tag, v), Tagged(tag', w)) =>
      tag == tag' && (tag in s.host.readers ==> AgreeArguments(s, s.host.readers[tag], v, w))
    case _ => x == y
  }

  predicate AgreeArguments(s: Scope, reader: Reader, v: Value, w: Value)
    decreases v, 2
  {
    if reader.ReadProfile? then
      if v.Mapping? && w.Mapping? then
        match (Picked(s.profile, v.entries), Picked(s.profile, w.entries))
        case (Some(a), Some(b)) => Agree(s, a, b)
        case (None, None) => true
        case _ => false
      else !v.Mapping? && !w.Mapping?
    else if reader.ReadOr? && v.List? && w.List? then AgreeUntilSettled(s, v.items, w.items)
    else if reader.ReadOr? && v.Mapping? && w.Mapping? then FirstKey(v.entries) == FirstKey(w.entries)
    else if TakesOne(reader) && v.List? && w.List? then AgreeHeads(s, v.items, w.items)
    else if reader.ReadRandomUuid? || reader.ReadRequired? then true
    else if Raw(reader) then v == w
    else Agree(s, v, w)
  }

  predicate AgreeEntries(s: Scope, es: Entries, fs: Entries)
    decreases es, 1
  {
    match (es, fs)
    case (Empty, Empty) => true
    case (Entry(k, v, es'), Entry(l, w, fs')) => k == l && Agree(s, v, w) && AgreeEntries(s, es', fs')
    case _ => false
  }

  predicate AgreeItems(s: Scope, xs: Items, ys: Items)
    decreases xs, 1
  {
    match (xs, ys)
    case (Nil, Nil) => true
    case (Cons(x, xs'), Cons(y, ys')) => Agree(s, x, y) && AgreeItems(s, xs', ys')
    case _ => false
  }

  predicate AgreeHeads(s: Scope, xs: Items, ys: Items)
    decreases xs, 1
  {
    match (xs, ys)
    case (Nil, Nil) => true
    case (Cons(x, _), Cons(y, _)) => Agree(s, x, y)
    case _ => false
  }

  predicate AgreeUntilSettled(s: Scope, xs: Items, ys: Items)
    decreases xs, 1
  {
    match (xs, ys)
    case (Nil, Nil) => true
    case (Cons(x, xs'), Cons(y, ys')) => Agree(s, x, y) && (Settles(s, x) || AgreeUntilSettled(s, xs', ys'))
    case _ => false
  }

  /** Trees that agree resolve alike, whatever stands in the parts where they differ. */
  lemma {:induction false} AgreeResolves(s: Scope, x: Value, y: Value)
    requires Parsed(x) && Parsed(y) && Agree(s, x, y)
    ensures At(s, x) == At(s, y)
    decreases x, 1
  {
    match (x, y)
    case (Mapping(es), Mapping(fs)) =>
      AgreeAlike(s, x, y);
      AlikeResolve(s, x, s, y);
    case (List(xs), List(ys)) =>
      AgreeAlike(s, x, y);
      AlikeResolve(s, x, s, y);
    case (Tagged(tag, v), Tagged(_, w)) => AgreeTagResolves(s, tag, v, w);
    case _ =>
  }

  lemma {:induction false} AgreeTagResolves(s: Scope, tag: string, v: Value, w: Value)
    requires Parsed(Tagged(tag, v)) && Parsed(Tagged(tag, w)) && Agree(s, Tagged(tag, v), Tagged(tag, w))
    ensures At(s, Tagged(tag, v)) == At(s, Tagged(tag, w))
    decreases v, 3
  {
    if tag in s.host.readers {
      var reader := s.host.readers[tag];
      assert At(s, Tagged(tag, v)) == Read(s.host, s.profile, s.depth, reader, v);
      assert At(s, Tagged(tag, w)) == Read(s.host, s.profile, s.depth, reader, w);
      if TakesOne(reader) && v.List? && w.List? {
        AgreeHeadsResolve(s, reader, v.items, w.items);
      } else if Lazy(reader) {
        LazyArgumentsResolve(s, reader, v, w);
      } else if !Raw(reader) {
        AgreeAlike(s, v, w);
        ReadAlike(s, v, s, w, tag);
      }
    }
  }

  predicate Lazy(reader: Reader)
  {
    reader.ReadProfile? || reader.ReadOr? || reader.ReadRandomUuid? || reader.ReadRequired?
  }

  lemma {:induction false} LazyArgumentsResolve(s: Scope, reader: Reader, v: Value, w: Value)
    requires Parsed(v) && Parsed(w) && AgreeArguments(s, reader, v, w) && Lazy(reader)
    requires (v.Str? || v.List? || v.Mapping?) && (w.Str? || w.List? || w.Mapping?)
    ensures Read(s.host, s.profile, s.depth, reader, v) == Read(s.host, s.profile, s.depth, reader, w)
    decreases v, 2
  {
    if reader.ReadProfile? && v.Mapping? && Picked(s.profile, v.entries).Some? {
      PickedIsParsed(s.profile, v.entries);
      PickedIsParsed(s.profile, w.entries);
      AgreeResolves(s, Picked(s.profile, v.entries).value, Picked(s.profile, w.entries).value);
    } else if reader.ReadOr? && v.List? && w.List? {
      AgreeUntilSettledResolves(s, v.items, w.items);
    }
  }

  lemma {:induction false} AgreeHeadsResolve(s: Scope, reader: Reader, xs: Items, ys: Items)
    requires ParsedItems(xs) && ParsedItems(ys) && AgreeHeads(s, xs, ys) && TakesOne(reader)
    ensures Read(s.host, s.profile, s.depth, reader, List(xs)) == Read(s.host, s.profile, s.depth, reader, List(ys))
    decreases xs, 2
  {
    if xs.Cons? {
      AgreeResolves(s, xs.head, ys.head);
      assert Unwrapped(List(xs)) == Some(xs.head) && Unwrapped(List(ys)) == Some(ys.head);
    } else {
      assert xs == ys;
    }
  }

  lemma {:induction false} AgreeAlike(s: Scope, v: Value, w: Value)
    requires Parsed(v) && Parsed(w) && Agree(s, v, w) && !v.Tagged?
    ensures v.Str? || v.List? || v.Mapping? ==> Alike(s, v, s, w)
    decreases v, 0
  {
    match (v, w)
    case (Mapping(es), Mapping(fs)) => AgreeEntriesAlike(s, es, fs);
    case (List(xs), List(ys)) => AgreeItemsAlike(s, xs, ys);
    case _ =>
  }

  lemma {:induction false} AgreeEntriesAlike(s: Scope, es: Entries, fs: Entries)
    requires ParsedEntries(es) && ParsedEntries(fs) && AgreeEntries(s, es, fs)
    ensures AlikeEntries(s, es, s, fs)
    decreases es, 1
  {
    if es.Entry? {
      AgreeResolves(s, es.value, fs.value);
      AgreeEntriesAlike(s, es.rest, fs.rest);
    }
  }

  lemma {:induction false} AgreeItemsAlike(s: Scope, xs: Items, ys: Items)
    requires ParsedItems(xs) && ParsedItems(ys) && AgreeItems(s, xs, ys)
    ensures AlikeItems(s, xs, s, ys)
    decreases xs, 1
  {
    if xs.Cons? {
      AgreeResolves(s, xs.head, ys.head);
      AgreeItemsAlike(s, xs.tail, ys.tail);
    }
  }

  lemma {:induction false} AgreeUntilSettledResolves(s: Scope, xs: Items, ys: Items)
    requires ParsedItems(xs) && ParsedItems(ys) && AgreeUntilSettled(s, xs, ys)
    ensures FirstNonNull(s.host, s.profile, s.depth, xs) == FirstNonNull(s.host, s.profile, s.depth, ys)
    decreases xs, 1
  {
    if xs.Cons? {
      AgreeResolves(s, xs.head, ys.head);
      if !Settles(s, xs.head) {
        AgreeUntilSettledResolves(s, xs.tail, ys.tail);
      }
    }
  }
}
