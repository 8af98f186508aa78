/** The shape of parsed trees: what the YAML constructors can build. */
module Parsing {
  import opened Values

  /** A composed YAML node; `tag` is the suffix of an application tag, `!suffix`. `Pairs` is a
  sequence under one of the standard tags `!!pairs` and `!!omap`. */
  datatype Node =
    | Scalar(tag: Option<string>, text: string)
    | Sequence(tag: Option<string>, items: Nodes)
    | Map(tag: Option<string>, fields: Fields)
    | Pairs(pairs: NodePairs)

  datatype Nodes = NoNode | AddNode(head: Node, tail: Nodes)

  datatype NodePairs = NoPair | AddPair(key: Node, value: Node, rest: NodePairs)

  datatype Fields = NoField | AddField(key: Key, value: Node, rest: Fields)

  /** A value an untagged scalar stands for. */
  predicate Plain(x: Value)
  {
    x.Null? || x.Int? || x.Str? || x.Object?
  }

  type PlainValue = x: Value | Plain(x) witness Null

  function Tag(tag: Option<string>, x: Value): Value
  {
    match tag
    case Some(suffix) => Tagged("!" + suffix, x)
    case None => x
  }

  /** Construction, with `_construct_tagged` for application tags: a tagged scalar is its text. */
  function Construct(scalar: string -> PlainValue, node: Node): Value
  {
    match node
    case Scalar(None, text) => scalar(text)
    case Scalar(tag, text) => Tag(tag, Str(text))
    case Sequence(tag, items) => Tag(tag, List(ConstructItems(scalar, items)))
    case Map(tag, fields) => Tag(tag, Mapping(ConstructFields(scalar, fields, Empty)))
    case Pairs(pairs) => List(ConstructPairs(scalar, pairs))
  }

  /** A list of tuples of a key and a value each. */
  function ConstructPairs(scalar: string -> PlainValue, pairs: NodePairs): Items
  {
    match pairs
    case NoPair => Nil
    case AddPair(key, value, rest) =>
      Cons(Tuple(Cons(Construct(scalar, key), Cons(Construct(scalar, value), Nil))), ConstructPairs(scalar, rest))
  }

  function ConstructItems(scalar: string -> PlainValue, items: Nodes): Items
  {
    match items
    case NoNode => Nil
    case AddNode(head, tail) => Cons(Construct(scalar, head), ConstructItems(scalar, tail))
  }

  function ConstructFields(scalar: string -> PlainValue, fields: Fields, built: Entries): Entries
  {
    match fields
    case NoField => built
    case AddField(key, value, rest) => ConstructFields(scalar, rest, Put(built, key, Construct(scalar, value)))
  }

  /** A parsed tree: plain scalars, mappings, lists and tuples, and tags. The argument of a tag is
  text, a list or a mapping, and never itself a tag. */
  predicate Parsed(x: Value)
  {
    match x
    case Mapping(es) => ParsedEntries(es)
    case List(xs) => ParsedItems(xs)
    case Tuple(xs) => ParsedItems(xs)
    case Tagged(_, v) => (v.Str? || v.List? || v.Mapping?) && Parsed(v)
    case _ => Plain(x)
  }

  predicate ParsedEntries(es: Entries)
  {
    es.Entry? ==> Parsed(es.value) && ParsedEntries(es.rest)
  }

  predicate ParsedItems(xs: Items)
  {
    xs.Cons? ==> Parsed(xs.head) && ParsedItems(xs.tail)
  }

  lemma {:induction false} ParsedAt(es: Entries, key: Key)
    requires ParsedEntries(es) && Lookup(es, key).Some?
    ensures Parsed(Lookup(es, key).value)
  {
    if es.key != key {
      ParsedAt(es.rest, key);
    }
  }

  lemma {:induction false} PutKeepsParsed(es: Entries, key: Key, x: Value)
    requires ParsedEntries(es) && Parsed(x)
    ensures ParsedEntries(Put(es, key, x))
  {
    if es.Entry? && es.key != key {
      PutKeepsParsed(es.rest, key, x);
    }
  }

  /** Every tree the constructors build is a parsed tree. */
  lemma {:induction false} ConstructIsParsed(scalar: string -> PlainValue, node: Node)
    ensures Parsed(Construct(scalar, node))
  {
    match node
    case Scalar(_, _) =>
    case Sequence(_, items) => ConstructItemsAreParsed(scalar, items);
    case Map(_, fields) => ConstructFieldsAreParsed(scalar, fields, Empty);
    case Pairs(pairs) => ConstructPairsAreParsed(scalar, pairs);
  }

  lemma {:induction false} ConstructPairsAreParsed(scalar: string -> PlainValue, pairs: NodePairs)
    ensures ParsedItems(ConstructPairs(scalar, pairs))
  {
    if pairs.AddPair? {
      ConstructIsParsed(scalar, pairs.key);
      ConstructIsParsed(scalar, pairs.value);
      ConstructPairsAreParsed(scalar, pairs.rest);
      var value := Cons(Construct(scalar, pairs.value), Nil);
      assert ParsedItems(value) && ParsedItems(Cons(Construct(scalar, pairs.key), value));
    }
  }

  lemma {:induction false} ConstructItemsAreParsed(scalar: string -> PlainValue, items: Nodes)
    ensures ParsedItems(ConstructItems(scalar, items))
  {
    if items.AddNode? {
      ConstructIsParsed(scalar, items.head);
      ConstructItemsAreParsed(scalar, items.tail);
    }
  }

  lemma {:induction false} ConstructFieldsAreParsed(scalar: string -> PlainValue, fields: Fields, built: Entries)
    requires ParsedEntries(built)
    ensures ParsedEntries(ConstructFields(scalar, fields, built))
    decreases fields
  {
    if fields.AddField? {
      ConstructIsParsed(scalar, fields.value);
      PutKeepsParsed(built, fields.key, Construct(scalar, fields.value));
      ConstructFieldsAreParsed(scalar, fields.rest, Put(built, fields.key, Construct(scalar, fields.value)));
    }
  }
  // ---- which trees there are -------------------------------------------------------------

  /** The tree has no tuple, every tag is an application tag, and no mapping repeats a key. */
  predicate Composable(x: Value)
  {
    match x
    case Mapping(es) => Distinct(es) && ComposableEntries(es)
    case List(xs) => ComposableItems(xs)
    case Tagged(tag, v) => "!" <= tag && (v.Str? || v.List? || v.Mapping?) && Composable(v)
    case _ => Plain(x)
  }

  predicate ComposableEntries(es: Entries)
  {
    es.Entry? ==> Composable(es.value) && ComposableEntries(es.rest)
  }

  predicate ComposableItems(xs: Items)
  {
    xs.Cons? ==> Composable(xs.head) && ComposableItems(xs.tail)
  }

  /** A node that stands for the tree: plain scalars are spelt, tagged ones are their text. */
  function Compose(spell: PlainValue -> string, tag: Option<string>, x: Value): Node
    requires Composable(x) && (tag.Some? ==> x.Str? || x.List? || x.Mapping?)
    decreases x, 1
  {
    match x
    case Mapping(es) => Map(tag, ComposeFields(spell, es))
    case List(xs) => Sequence(tag, ComposeItems(spell, xs))
    case Tagged(suffixed, v) => Compose(spell, Some(suffixed[1..]), v)
    case Str(text) => Scalar(tag, if tag.Some? then text else spell(x))
    case _ => Scalar(None, spell(x))
  }

  function ComposeItems(spell: PlainValue -> string, xs: Items): Nodes
    requires ComposableItems(xs)
    decreases xs, 0
  {
    match xs
    case Nil => NoNode
    case Cons(x, rest) => AddNode(Compose(spell, None, x), ComposeItems(spell, rest))
  }

  function ComposeFields(spell: PlainValue -> string, es: Entries): Fields
    requires ComposableEntries(es)
    decreases es, 0
  {
    match es
    case Empty => NoField
    case Entry(k, v, rest) => AddField(k, Compose(spell, None, v), ComposeFields(spell, rest))
  }

  /** Whatever plain values scalars stand for, every such tree is constructed, from its own node. */
  lemma {:induction false} ConstructInvertsCompose(scalar: string -> PlainValue, spell: PlainValue -> string,
                                                   tag: Option<string>, x: Value)
    requires forall p: PlainValue :: scalar(spell(p)) == p
    requires Composable(x) && (tag.Some? ==> x.Str? || x.List? || x.Mapping?)
    ensures Construct(scalar, Compose(spell, tag, x)) == match tag { case Some(t) => Tagged("!" + t, x) case None => x }
    decreases x, 1
  {
    match x
    case Mapping(es) =>
      FieldsInvert(scalar, spell, es, Empty);
    case List(xs) => ItemsInvert(scalar, spell, xs);
    case Tagged(suffixed, v) =>
      assert suffixed == "!" + suffixed[1..];
      ConstructInvertsCompose(scalar, spell, Some(suffixed[1..]), v);
    case _ =>
  }

  lemma {:induction false} ItemsInvert(scalar: string -> PlainValue, spell: PlainValue -> string, xs: Items)
    requires forall p: PlainValue :: scalar(spell(p)) == p
    requires ComposableItems(xs)
    ensures ConstructItems(scalar, ComposeItems(spell, xs)) == xs
    decreases xs, 0
  {
    if xs.Cons? {
      ConstructInvertsCompose(scalar, spell, None, xs.head);
      ItemsInvert(scalar, spell, xs.tail);
    }
  }

  lemma {:induction false} PutFollows(built: Entries, key: Key, x: Value, rest: Entries)
    requires Lookup(built, key).None?
    ensures Chain(Put(built, key, x), rest) == Chain(built, Entry(key, x, rest))
  {
    if built.Entry? {
      PutFollows(built.rest, key, x, rest);
    }
  }

  lemma {:induction false} FollowedByNone(built: Entries)
    ensures Chain(built, Empty) == built
  {
    if built.Entry? {
      FollowedByNone(built.rest);
    }
  }

  lemma {:induction false} FieldsInvert(scalar: string -> PlainValue, spell: PlainValue -> string,
                                        es: Entries, built: Entries)
    requires forall p: PlainValue :: scalar(spell(p)) == p
    requires ComposableEntries(es) && Distinct(es) && forall k :: Lookup(es, k).Some? ==> Lookup(built, k).None?
    ensures ConstructFields(scalar, ComposeFields(spell, es), built) == Chain(built, es)
    decreases es, 0
  {
    match es
    case Empty => FollowedByNone(built);
    case Entry(k, v, rest) =>
      ConstructInvertsCompose(scalar, spell, None, v);
      assert Lookup(es, k).Some?;
      forall other | Lookup(rest, other).Some? ensures Lookup(Put(built, k, v), other).None? {
        LookupPut(built, k, v, other);
        assert Lookup(es, other).Some?;
      }
      FieldsInvert(scalar, spell, rest, Put(built, k, v));
      PutFollows(built, k, v, rest);
  }
}
