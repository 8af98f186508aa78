/** What each tag that the two bricks register resolves to. */
module BuiltIns {
  import opened Values
  import opened Resolver
  import opened Rewriting
  import opened ReaderLaws

  predicate Reads(s: Scope, tag: string, reader: Reader)
  {
    tag in s.host.readers && s.host.readers[tag] == reader
  }

  lemma TagReads(s: Scope, tag: string, reader: Reader, v: Value)
    requires Reads(s, tag, reader)
    ensures At(s, Tagged(tag, v)) == Read(s.host, s.profile, s.depth, reader, v)
  {
  }

  lemma UnknownTag(s: Scope, tag: string, v: Value)
    requires tag !in s.host.readers
    ensures At(s, Tagged(tag, v)) == Err(NoReader(tag))
  {
  }

  // ---- profiles and includes -------------------------------------------------------------

  /** The branch of the profile, else that of `default`, else null: whichever it is, it is resolved,
  and the other branches are not. */
  lemma ProfileResolves(s: Scope, tag: string, es: Entries)
    requires Reads(s, tag, ReadProfile)
    ensures At(s, Tagged(tag, Mapping(es)))
         == match Lookup(es, Name(s.profile)) {
              case Some(own) => At(s, own)
              case None =>
                match Lookup(es, Name("default"))
                case Some(branch) => At(s, branch)
                case None => Ok(Null)
            }
  {
    TagReads(s, tag, ReadProfile, Mapping(es));
  }

  lemma ProfileNeedsMapping(s: Scope, tag: string, v: Value)
    requires Reads(s, tag, ReadProfile) && !v.Mapping?
    ensures At(s, Tagged(tag, v)) == Err(NeedsMapping)
  {
    TagReads(s, tag, ReadProfile, v);
  }

  /** The resource of that name, with or without a prefix, is resolved one level deeper. */
  lemma IncludeResolves(s: Scope, tag: string, name: string)
    requires Reads(s, tag, ReadInclude)
    ensures
      var included :=
        if name !in s.host.resources then Err(NotFound(name))
        else if s.depth == 0 then Err(TooDeep)
        else Resolve(s.host, s.profile, s.depth - 1, s.host.resources[name]);
      && At(s, Tagged(tag, Str("resource:" + name))) == included
      && (!("resource:" <= name) ==> At(s, Tagged(tag, Str(name))) == included)
  {
    assert ("resource:" + name)[9..] == name && "resource:" <= "resource:" + name;
    TagReads(s, tag, ReadInclude, Str("resource:" + name));
    TagReads(s, tag, ReadInclude, Str(name));
  }

  // ---- references ------------------------------------------------------------------------

  lemma {:induction false} SplitDotFree(part: string, current: string, rest: string)
    requires '.' !in part
    ensures Split(part, current) == [current + part]
    ensures Split(part + "." + rest, current) == [current + part] + Split(rest, "")
    decreases |part|
  {
    if part == "" {
      assert current + part == current && part + "." + rest == "." + rest && ("." + rest)[1..] == rest;
    } else {
      assert (part + "." + rest)[1..] == part[1..] + "." + rest;
      assert current + [part[0]] + part[1..] == current + part;
      SplitDotFree(part[1..], current + [part[0]], rest);
    }
  }

  /** The dots of a text separate exactly one sequence of parts. */
  lemma {:induction false} SplitInvertsDotted(parts: seq<string>)
    requires parts != [] && forall part :: part in parts ==> '.' !in part
    ensures Split(Dotted(parts), "") == parts
    decreases |parts|
  {
    SplitDotFree(parts[0], "", if |parts| == 1 then "" else Dotted(parts[1..]));
    assert "" + parts[0] == parts[0];
    if |parts| > 1 {
      SplitInvertsDotted(parts[1..]);
    }
  }

  /** A reference from the root and a local one are made of the parts of their text. */
  lemma ReferenceResolves(s: Scope, tag: string, parts: seq<string>)
    requires parts != [] && forall part :: part in parts ==> '.' !in part
    ensures Reads(s, tag, ReadRef) ==> At(s, Tagged(tag, Str(Dotted(parts)))) == Ok(Ref(parts))
    ensures Reads(s, tag, ReadLocalRef) ==> At(s, Tagged(tag, Str(Dotted(parts)))) == Ok(LocalRef(parts))
  {
    SplitInvertsDotted(parts);
    if Reads(s, tag, ReadRef) {
      TagReads(s, tag, ReadRef, Str(Dotted(parts)));
    }
    if Reads(s, tag, ReadLocalRef) {
      TagReads(s, tag, ReadLocalRef, Str(Dotted(parts)));
    }
  }

  /** Every text is that of some parts. */
  lemma TextHasParts(text: string) returns (parts: seq<string>)
    ensures parts != [] && Dotted(parts) == text && forall part :: part in parts ==> '.' !in part
  {
    parts := Split(text, "");
    SplitFrom(text, "");
    assert "" + text == text;
  }

  // ---- components ------------------------------------------------------------------------

  /** The entries without those of one key. */
  function Dropped(es: Entries, key: Key): Entries
  {
    match es
    case Empty => Empty
    case Entry(k, v, rest) => if k == key then Dropped(rest, key) else Entry(k, v, Dropped(rest, key))
  }

  lemma {:induction false} SkippingIsDropping(s: Scope, es: Entries, key: Key)
    ensures ResolveEntries(s.host, s.profile, s.depth, es, Some(key))
         == ResolveEntries(s.host, s.profile, s.depth, Dropped(es, key), None)
  {
    if es.Entry? {
      SkippingIsDropping(s, es.rest, key);
    }
  }

  /** A declaration gives the text of its kind, which is resolved first, and for its config the rest
  of the mapping, resolved as any mapping is. */
  lemma ComponentResolves(s: Scope, tag: string, es: Entries)
    requires Reads(s, tag, ReadComponent) && Lookup(es, Name("system/component-kind")).Some?
    ensures
      var kind := At(s, Lookup(es, Name("system/component-kind")).value);
      var config := At(s, Mapping(Dropped(es, Name("system/component-kind"))));
      At(s, Tagged(tag, Mapping(es)))
      == if kind.Err? then kind
         else if config.Err? then config
         else Ok(ComponentDef(Text(s.host, kind.value), config.value))
  {
    SkippingIsDropping(s, es, Name("system/component-kind"));
    TagReads(s, tag, ReadComponent, Mapping(es));
  }

  lemma ComponentNeedsKind(s: Scope, tag: string, v: Value)
    requires Reads(s, tag, ReadComponent) && (v.Mapping? ==> Lookup(v.entries, Name("system/component-kind")).None?)
    ensures At(s, Tagged(tag, v)) == Err(NeedsKind)
  {
    TagReads(s, tag, ReadComponent, v);
  }

  // ---- conversions -----------------------------------------------------------------------

  /** What `str` makes of text, of null and of numbers. */
  lemma TextOf(host: Host, text: string, n: int)
    ensures Text(host, Str(text)) == text && Text(host, Null) == "None"
    ensures Text(host, Int(n)) == (if n < 0 then "-" + Decimal(-n) else Decimal(n))
  {
  }

  /** What is made of the resolved argument, by the readers that resolve all of it. */
  function Converted(host: Host, reader: Reader, r: Value): Option<Result<Value, ConfigFault>>
  {
    match reader
    case ReadEnv => Some(Ok(if Text(host, r) in host.environ then Str(host.environ[Text(host, r)]) else Null))
    case ReadStr => Some(Ok(Str(Text(host, r))))
    case ReadSame => Some(Ok(r))
    case ReadUuid =>
      Some(match host.uuid(Text(host, r)) case Some(id) => Ok(Object(id)) case None => Err(WrongType))
    case _ => None
  }

  lemma ConversionResolves(s: Scope, tag: string, reader: Reader, v: Value)
    requires Reads(s, tag, reader) && At(s, v).Ok? && Converted(s.host, reader, At(s, v).value).Some?
    ensures At(s, Tagged(tag, v)) == Converted(s.host, reader, At(s, v).value).value
  {
    TagReads(s, tag, reader, v);
  }

  /** If the argument does not resolve, neither does the tag. */
  lemma ConversionFails(s: Scope, tag: string, reader: Reader, v: Value)
    requires Reads(s, tag, reader) && At(s, v).Err?
    requires reader in {ReadEnv, ReadStr, ReadSame, ReadUuid, ReadJoin, ReadConcat}
    ensures At(s, Tagged(tag, v)) == At(s, v)
  {
    TagReads(s, tag, reader, v);
  }

  lemma SameResolves(s: Scope, tag: string, v: Value)
    requires Reads(s, tag, ReadSame)
    ensures At(s, Tagged(tag, v)) == At(s, v)
  {
    TagReads(s, tag, ReadSame, v);
  }

  /** A number as it is; null stays null; anything else is converted. */
  function AsNumber(host: Host, r: Value): Result<Value, ConfigFault>
  {
    match r
    case Null => Ok(Null)
    case Int(n) => Ok(Int(n))
    case _ => match host.number(r) case Some(n) => Ok(Int(n)) case None => Err(WrongType)
  }

  /** `x` is what `!long` and its like take of `v`: the first item of a list, or else all of it. */
  predicate Takes(v: Value, x: Value)
  {
    if v.List? then v.items.Cons? && v.items.head == x else v == x
  }

  lemma LongResolves(s: Scope, tag: string, v: Value, x: Value)
    requires Reads(s, tag, ReadLong) && Takes(v, x)
    ensures At(s, Tagged(tag, v)) == if At(s, x).Err? then At(s, x) else AsNumber(s.host, At(s, x).value)
  {
    TagReads(s, tag, ReadLong, v);
    assert Unwrapped(v) == Some(x);
  }

  lemma PortResolves(s: Scope, tag: string, v: Value, x: Value)
    requires Reads(s, tag, ReadPort) && Takes(v, x)
    ensures
      var number := if At(s, x).Err? then At(s, x) else AsNumber(s.host, At(s, x).value);
      At(s, Tagged(tag, v)) == if number == Ok(Int(0)) then Ok(Int(s.host.freePort)) else number
  {
    TagReads(s, tag, ReadPort, v);
    assert Unwrapped(v) == Some(x);
  }

  lemma KeywordResolves(s: Scope, tag: string, v: Value, x: Value)
    requires Reads(s, tag, ReadKeyword) && Takes(v, x)
    ensures At(s, Tagged(tag, v))
         == match At(s, x) {
              case Ok(r) => Ok(if r.Null? then Null else Str(Text(s.host, r)))
              case Err(e) => Err(e)
            }
  {
    TagReads(s, tag, ReadKeyword, v);
    assert Unwrapped(v) == Some(x);
  }

  lemma NothingToTake(s: Scope, tag: string, reader: Reader)
    requires Reads(s, tag, reader) && (reader.ReadLong? || reader.ReadPort? || reader.ReadKeyword?)
    ensures At(s, Tagged(tag, List(Nil))) == Err(EmptySequence)
  {
    TagReads(s, tag, reader, List(Nil));
  }

  lemma IgnoringResolves(s: Scope, tag: string, v: Value)
    ensures Reads(s, tag, ReadRandomUuid) ==> At(s, Tagged(tag, v)) == Ok(Object(s.host.freshUuid))
    ensures Reads(s, tag, ReadRequired) ==> At(s, Tagged(tag, v)) == Ok(Required)
  {
    if Reads(s, tag, ReadRandomUuid) {
      TagReads(s, tag, ReadRandomUuid, v);
    }
    if Reads(s, tag, ReadRequired) {
      TagReads(s, tag, ReadRequired, v);
    }
  }

  // ---- choosing --------------------------------------------------------------------------

  /** What the first item not resolving to null gives, and null if there is none. */
  lemma OrResolves(s: Scope, tag: string, nulls: Items, x: Value, rest: Items)
    requires Reads(s, tag, ReadOr) && AllNull(s.host, s.profile, s.depth, nulls) && At(s, x) != Ok(Null)
    ensures At(s, Tagged(tag, List(Append(nulls, Cons(x, rest))))) == At(s, x)
    ensures At(s, Tagged(tag, List(nulls))) == Ok(Null)
  {
    OrIsFirst(s.host, s.profile, s.depth, nulls, x, rest);
    TagReads(s, tag, ReadOr, List(Append(nulls, Cons(x, rest))));
    TagReads(s, tag, ReadOr, List(nulls));
  }

  /** Of a text or a mapping it gives the first character or key, as it stands. */
  lemma OrOfOthers(s: Scope, tag: string, v: Value)
    requires Reads(s, tag, ReadOr) && !v.List? && !v.Tuple?
    ensures At(s, Tagged(tag, v))
         == match v {
              case Str(text) => Ok(if text == "" then Null else Str(text[..1]))
              case Mapping(Empty) => Ok(Null)
              case Mapping(Entry(Name(name), _, _)) => Ok(Str(name))
              case Mapping(Entry(Number(n), _, _)) => Ok(Int(n))
              case _ => Err(WrongType)
            }
  {
    TagReads(s, tag, ReadOr, v);
    if v.Str? && v.s != "" {
      assert v.s[..1] == [v.s[0]];
    }
  }

  // ---- joining and concatenating ---------------------------------------------------------

  function Parts(s: Scope, xs: Items): Result<Items, ConfigFault>
  {
    ResolveItems(s.host, s.profile, s.depth, xs)
  }

  lemma {:induction false} PartsAppend(s: Scope, xs: Items, ys: Items)
    ensures Parts(s, Append(xs, ys))
         == if Parts(s, xs).Err? then Parts(s, xs)
            else if Parts(s, ys).Err? then Parts(s, ys)
            else Ok(Append(Parts(s, xs).value, Parts(s, ys).value))
  {
    if xs.Cons? {
      PartsAppend(s, xs.tail, ys);
    }
  }

  lemma JoinedParts(s: Scope, tag: string, xs: Items)
    requires Reads(s, tag, ReadJoin)
    ensures At(s, Tagged(tag, List(xs)))
         == if Parts(s, xs).Err? then Err(Parts(s, xs).error) else Ok(Str(Joined(s.host, Parts(s, xs).value)))
  {
    TagReads(s, tag, ReadJoin, List(xs));
  }

  /** Joining puts the text of one list of items after that of the other. */
  lemma JoinAppends(s: Scope, tag: string, xs: Items, ys: Items)
    requires Reads(s, tag, ReadJoin)
    ensures
      var a, b := At(s, Tagged(tag, List(xs))), At(s, Tagged(tag, List(ys)));
      && (a.Ok? ==> a.value.Str?) && (b.Ok? ==> b.value.Str?)
      && At(s, Tagged(tag, List(Append(xs, ys))))
           == if a.Err? then a else if b.Err? then b else Ok(Str(a.value.s + b.value.s))
  {
    JoinedParts(s, tag, xs);
    JoinedParts(s, tag, ys);
    JoinedParts(s, tag, Append(xs, ys));
    PartsAppend(s, xs, ys);
    if Parts(s, xs).Ok? && Parts(s, ys).Ok? {
      JoinIsPiecewise(s.host, Parts(s, xs).value, Parts(s, ys).value);
    }
  }

  /** Of one item it gives the text, and the empty text for null. */
  lemma JoinOfOne(s: Scope, tag: string, x: Value)
    requires Reads(s, tag, ReadJoin)
    ensures At(s, Tagged(tag, List(Nil))) == Ok(Str(""))
    ensures At(s, Tagged(tag, List(Cons(x, Nil))))
         == match At(s, x) {
              case Ok(r) => Ok(Str(if r.Null? then "" else Text(s.host, r)))
              case Err(e) => Err(e)
            }
  {
    JoinedParts(s, tag, Nil);
    JoinedParts(s, tag, Cons(x, Nil));
    assert Parts(s, Nil) == Ok(Nil);
    if At(s, x).Ok? {
      JoinIsPiecewise(s.host, Nil, Nil);
      assert Parts(s, Cons(x, Nil)) == Ok(Cons(At(s, x).value, Nil));
    }
  }

  lemma ConcatenatedParts(s: Scope, tag: string, xs: Items)
    requires Reads(s, tag, ReadConcat)
    ensures At(s, Tagged(tag, List(xs)))
         == if Parts(s, xs).Err? then Err(Parts(s, xs).error)
            else match Concatenated(Parts(s, xs).value) case Some(zs) => Ok(List(zs)) case None => Err(WrongType)
  {
    TagReads(s, tag, ReadConcat, List(xs));
  }

  /** Concatenating puts the items from one list after those from the other. */
  lemma ConcatAppends(s: Scope, tag: string, xs: Items, ys: Items)
    requires Reads(s, tag, ReadConcat)
    ensures
      var a, b := At(s, Tagged(tag, List(xs))), At(s, Tagged(tag, List(ys)));
      && (a.Ok? ==> a.value.List?) && (b.Ok? ==> b.value.List?)
      && (a.Ok? && b.Ok? ==>
            At(s, Tagged(tag, List(Append(xs, ys)))) == Ok(List(Append(a.value.items, b.value.items))))
      && (a.Err? || b.Err? ==> At(s, Tagged(tag, List(Append(xs, ys)))).Err?)
  {
    ConcatenatedParts(s, tag, xs);
    ConcatenatedParts(s, tag, ys);
    ConcatenatedParts(s, tag, Append(xs, ys));
    PartsAppend(s, xs, ys);
    if Parts(s, xs).Ok? && Parts(s, ys).Ok? {
      ConcatIsPiecewise(Parts(s, xs).value, Parts(s, ys).value);
    }
  }

  /** The names and numbers of these keys. */
  function KeySeq(keys: seq<Key>): seq<Value>
  {
    seq(|keys|, i requires 0 <= i < |keys| => if keys[i].Name? then Str(keys[i].name) else Int(keys[i].number))
  }

  /** Of one item it gives the items, the characters or the keys, if the item has any of these. */
  lemma ConcatOfOne(s: Scope, tag: string, x: Value)
    requires Reads(s, tag, ReadConcat) && At(s, x).Ok?
    ensures
      var one := At(s, Tagged(tag, List(Cons(x, Nil))));
      match At(s, x).value
      case List(xs) => one == Ok(List(xs))
      case Tuple(xs) => one == Ok(List(xs))
      case Str(text) =>
        && one.Ok? && one.value.List?
        && AsSeq(one.value.items) == seq(|text|, i requires 0 <= i < |text| => Str([text[i]]))
      case Mapping(es) => one.Ok? && one.value.List? && AsSeq(one.value.items) == KeySeq(Keys(es))
      case _ => one == Err(WrongType)
  {
    ConcatenatedParts(s, tag, Cons(x, Nil));
    ConcatIsPiecewise(Nil, Nil);
    var r := At(s, x).value;
    assert Parts(s, Nil) == Ok(Nil) && Parts(s, Cons(x, Nil)) == Ok(Cons(r, Nil));
    assert Concatenated(Cons(r, Nil)) == Iterate(r);
    match r
    case Str(text) => CharsAreCharacters(text);
    case Mapping(es) => KeyItemsAreKeys(es);
    case _ =>
  }

  lemma {:induction false} CharsAreCharacters(text: string)
    ensures AsSeq(Chars(text)) == seq(|text|, i requires 0 <= i < |text| => Str([text[i]]))
  {
    if text != "" {
      CharsAreCharacters(text[1..]);
    }
  }

  lemma {:induction false} KeyItemsAreKeys(es: Entries)
    ensures AsSeq(KeyItems(es)) == KeySeq(Keys(es))
  {
    if es.Entry? {
      KeyItemsAreKeys(es.rest);
    }
  }

  /** The items of `xs` are the characters of the text or the keys of the mapping. */
  predicate RunsOver(r: Value, xs: Items)
  {
    match r
    case Str(text) => AsSeq(xs) == seq(|text|, i requires 0 <= i < |text| => Str([text[i]]))
    case Mapping(es) => AsSeq(xs) == KeySeq(Keys(es))
    case _ => false
  }

  lemma {:induction false} AsSeqIsInjective(xs: Items, ys: Items)
    requires AsSeq(xs) == AsSeq(ys)
    ensures xs == ys
  {
    if xs.Cons? && ys.Cons? {
      assert AsSeq(xs)[0] == AsSeq(ys)[0] && AsSeq(xs)[1..] == AsSeq(xs.tail) && AsSeq(ys)[1..] == AsSeq(ys.tail);
      AsSeqIsInjective(xs.tail, ys.tail);
    }
  }

  lemma {:induction false} CharsStay(s: Scope, text: string)
    ensures Parts(s, Chars(text)) == Ok(Chars(text))
  {
    if text != "" {
      OthersStay(s, Str([text[0]]));
      CharsStay(s, text[1..]);
    }
  }

  lemma {:induction false} KeyItemsStay(s: Scope, es: Entries)
    ensures Parts(s, KeyItems(es)) == Ok(KeyItems(es))
  {
    if es.Entry? {
      OthersStay(s, KeyValue(es.key));
      KeyItemsStay(s, es.rest);
    }
  }

  /** Text is joined and concatenated as the list of its characters, a mapping as that of its keys. */
  lemma RunsOverLikeList(s: Scope, tag: string, v: Value, xs: Items)
    requires Reads(s, tag, ReadJoin) || Reads(s, tag, ReadConcat)
    requires At(s, v).Ok? && RunsOver(At(s, v).value, xs)
    ensures At(s, Tagged(tag, v)) == At(s, Tagged(tag, List(xs)))
  {
    var r := At(s, v).value;
    match r {
      case Str(text) =>
        CharsAreCharacters(text);
        AsSeqIsInjective(xs, Chars(text));
        CharsStay(s, text);
      case Mapping(es) =>
        KeyItemsAreKeys(es);
        AsSeqIsInjective(xs, KeyItems(es));
        KeyItemsStay(s, es);
    }
    assert Iterate(r) == Some(xs) && Parts(s, xs) == Ok(xs);
    if Reads(s, tag, ReadJoin) {
      TagReads(s, tag, ReadJoin, v);
      JoinedParts(s, tag, xs);
    } else {
      TagReads(s, tag, ReadConcat, v);
      ConcatenatedParts(s, tag, xs);
    }
  }

  lemma NothingToRunOver(s: Scope, tag: string, v: Value)
    requires Reads(s, tag, ReadJoin) || Reads(s, tag, ReadConcat)
    requires At(s, v).Ok? && !(At(s, v).value.Str? || At(s, v).value.Mapping?)
    requires !(At(s, v).value.List? || At(s, v).value.Tuple?)
    ensures At(s, Tagged(tag, v)) == Err(WrongType)
  {
    if Reads(s, tag, ReadJoin) {
      TagReads(s, tag, ReadJoin, v);
    } else {
      TagReads(s, tag, ReadConcat, v);
    }
  }

  // ---- mappings and lists ----------------------------------------------------------------

  /** The quotes around a quoted key go; no other key changes. */
  lemma QuotesAreDropped(key: Key, text: string)
    ensures Unquoted(Name("\"" + text + "\"")) == Name(text)
    ensures (forall t :: key != Name("\"" + t + "\"")) ==> Unquoted(key) == key
  {
    var quoted := "\"" + text + "\"";
    assert quoted[1..|quoted| - 1] == text;
    if key.Name? && |key.name| > 1 && key.name[0] == '"' && key.name[|key.name| - 1] == '"' {
      var t := key.name[1..|key.name| - 1];
      assert key.name == "\"" + t + "\"";
    }
  }

  lemma {:induction false} LastResolves(s: Scope, es: Entries, key: Key)
    ensures
      var rs := ResolveEntries(s.host, s.profile, s.depth, es, None);
      rs.Ok? ==>
        && LastFor(rs.value, key).Some? == LastFor(es, key).Some?
        && (LastFor(es, key).Some? ==> At(s, LastFor(es, key).value) == Ok(LastFor(rs.value, key).value))
  {
    if es.Entry? {
      LastResolves(s, es.rest, key);
    }
  }

  /** A mapping resolves to a mapping that holds, under each key, what the last value written with
  that key resolves to. */
  lemma MappingResolves(s: Scope, es: Entries, key: Key)
    requires At(s, Mapping(es)).Ok?
    ensures At(s, Mapping(es)).value.Mapping? && Distinct(At(s, Mapping(es)).value.entries)
    ensures
      var held, written := Lookup(At(s, Mapping(es)).value.entries, key), LastFor(es, key);
      && held.Some? == written.Some?
      && (held.Some? ==> At(s, written.value) == Ok(held.value))
  {
    LastResolves(s, es, key);
    RekeyedIsLast(ResolveEntries(s.host, s.profile, s.depth, es, None).value, key);
  }

  lemma {:induction false} PartAt(s: Scope, xs: Items, i: nat)
    requires Parts(s, xs).Ok?
    ensures
      var rs := Parts(s, xs).value;
      && |AsSeq(rs)| == |AsSeq(xs)|
      && (i < |AsSeq(xs)| ==> At(s, AsSeq(xs)[i]) == Ok(AsSeq(rs)[i]))
    decreases xs
  {
    if xs.Cons? {
      PartAt(s, xs.tail, if i == 0 then 0 else i - 1);
    }
  }

  /** A list resolves to the list of what its items resolve to. */
  lemma ListResolves(s: Scope, xs: Items, i: nat)
    requires At(s, List(xs)).Ok?
    ensures At(s, List(xs)).value.List?
    ensures
      var rs := At(s, List(xs)).value.items;
      && |AsSeq(rs)| == |AsSeq(xs)|
      && (i < |AsSeq(xs)| ==> At(s, AsSeq(xs)[i]) == Ok(AsSeq(rs)[i]))
  {
    PartAt(s, xs, i);
  }

  function ValuesOf(es: Entries): seq<Value>
  {
    match es
    case Empty => []
    case Entry(_, v, rest) => [v] + ValuesOf(rest)
  }

  /** The first of these that does not resolve fails with `fault`. */
  ghost predicate FailsFirst(s: Scope, parts: seq<Value>, fault: ConfigFault)
  {
    exists i ::
      && 0 <= i < |parts| && At(s, parts[i]) == Err(fault)
      && forall j :: 0 <= j < i ==> At(s, parts[j]).Ok?
  }

  lemma {:induction false} FailsLater(s: Scope, x: Value, parts: seq<Value>, fault: ConfigFault)
    requires At(s, x).Ok? && FailsFirst(s, parts, fault)
    ensures FailsFirst(s, [x] + parts, fault)
  {
    var i :| && 0 <= i < |parts| && At(s, parts[i]) == Err(fault)
             && forall j :: 0 <= j < i ==> At(s, parts[j]).Ok?;
    var all := [x] + parts;
    assert all[i + 1] == parts[i];
    forall j | 0 <= j < i + 1 ensures At(s, all[j]).Ok? {
      if j > 0 {
        assert all[j] == parts[j - 1];
      }
    }
  }

  lemma {:induction false} PartsFail(s: Scope, xs: Items)
    ensures Parts(s, xs).Err? ==> FailsFirst(s, AsSeq(xs), Parts(s, xs).error)
  {
    if xs.Cons? {
      if At(s, xs.head).Err? {
        assert AsSeq(xs)[0] == xs.head;
      } else {
        PartsFail(s, xs.tail);
        if Parts(s, xs.tail).Err? {
          FailsLater(s, xs.head, AsSeq(xs.tail), Parts(s, xs.tail).error);
        }
      }
    }
  }

  lemma {:induction false} EntriesFail(s: Scope, es: Entries)
    ensures
      var rs := ResolveEntries(s.host, s.profile, s.depth, es, None);
      rs.Err? ==> FailsFirst(s, ValuesOf(es), rs.error)
  {
    if es.Entry? {
      if At(s, es.value).Err? {
        assert ValuesOf(es)[0] == es.value;
      } else {
        EntriesFail(s, es.rest);
        var rs := ResolveEntries(s.host, s.profile, s.depth, es.rest, None);
        if rs.Err? {
          FailsLater(s, es.value, ValuesOf(es.rest), rs.error);
        }
      }
    }
  }

  /** A list that does not resolve fails as its first item that does not, and a mapping as its first
  value that does not. */
  lemma FirstPartFails(s: Scope, x: Value)
    requires x.List? || x.Mapping?
    ensures At(s, x).Err? ==> FailsFirst(s, if x.List? then AsSeq(x.items) else ValuesOf(x.entries), At(s, x).error)
  {
    match x
    case List(xs) => PartsFail(s, xs);
    case Mapping(es) => EntriesFail(s, es);
  }

  /** Plain values, tuples and what resolution makes are left as they are. */
  lemma OthersStay(s: Scope, x: Value)
    requires !x.Mapping? && !x.List? && !x.Tagged?
    ensures At(s, x) == Ok(x)
  {
  }
  // ---- the registered table --------------------------------------------------------------

  /** Which reader importing the bricks registers for each tag: choosing and collecting, */
  lemma RegisteredForLists(s: Scope)
    requires s.host.readers == Registered()
    ensures Reads(s, "!profile", ReadProfile) && Reads(s, "!include", ReadInclude) && Reads(s, "!or", ReadOr)
    ensures Reads(s, "!join", ReadJoin) && Reads(s, "!concat", ReadConcat)
  {
  }

  /** numbers and keywords, */
  lemma RegisteredForNumbers(s: Scope)
    requires s.host.readers == Registered()
    ensures Reads(s, "!long", ReadLong) && Reads(s, "!port", ReadPort)
    ensures Reads(s, "!keyword", ReadKeyword) && Reads(s, "!keywords", ReadSame)
  {
  }

  /** text, */
  lemma RegisteredForText(s: Scope)
    requires s.host.readers == Registered()
    ensures Reads(s, "!env", ReadEnv) && Reads(s, "!str", ReadStr) && Reads(s, "!strs", ReadSame)
    ensures Reads(s, "!uuid", ReadUuid) && Reads(s, "!random-uuid", ReadRandomUuid)
  {
  }

  /** and components. */
  lemma RegisteredForSystems(s: Scope)
    requires s.host.readers == Registered()
    ensures Reads(s, "!system/component", ReadComponent) && Reads(s, "!system/ref", ReadRef)
    ensures Reads(s, "!system/local-ref", ReadLocalRef) && Reads(s, "!system/required-component", ReadRequired)
  {
  }

  /** `!system/ref` and `!system/local-ref`, of any text: the reference from the root or the local one
  whose parts the dots of the text separate. */
  lemma RegisteredReferences(s: Scope, text: string) returns (parts: seq<string>)
    requires s.host.readers == Registered()
    ensures parts != [] && Dotted(parts) == text && forall part :: part in parts ==> '.' !in part
    ensures At(s, Tagged("!system/ref", Str(text))) == Ok(Ref(parts))
    ensures At(s, Tagged("!system/local-ref", Str(text))) == Ok(LocalRef(parts))
  {
    RegisteredForSystems(s);
    parts := TextHasParts(text);
    ReferenceResolves(s, "!system/ref", parts);
    ReferenceResolves(s, "!system/local-ref", parts);
  }

  lemma RegisteredProfile(s: Scope, es: Entries)
    requires s.host.readers == Registered()
    ensures Lookup(es, Name(s.profile)).Some? ==>
      At(s, Tagged("!profile", Mapping(es))) == At(s, Lookup(es, Name(s.profile)).value)
    ensures Lookup(es, Name(s.profile)).None? && Lookup(es, Name("default")).Some? ==>
      At(s, Tagged("!profile", Mapping(es))) == At(s, Lookup(es, Name("default")).value)
    ensures Lookup(es, Name(s.profile)).None? && Lookup(es, Name("default")).None? ==>
      At(s, Tagged("!profile", Mapping(es))) == Ok(Null)
  {
    RegisteredForLists(s);
    ProfileResolves(s, "!profile", es);
  }

  /** The conversions, of an argument that resolves to text. */
  lemma RegisteredConversions(s: Scope, v: Value, text: string)
    requires s.host.readers == Registered() && At(s, v) == Ok(Str(text))
    ensures At(s, Tagged("!env", v)) == Ok(if text in s.host.environ then Str(s.host.environ[text]) else Null)
    ensures At(s, Tagged("!str", v)) == Ok(Str(text))
  {
    RegisteredForText(s);
    ConversionResolves(s, "!env", ReadEnv, v);
    ConversionResolves(s, "!str", ReadStr, v);
  }

  lemma RegisteredUuids(s: Scope, v: Value, text: string)
    requires s.host.readers == Registered()
    ensures At(s, Tagged("!random-uuid", v)) == Ok(Object(s.host.freshUuid))
    ensures At(s, v) == Ok(Str(text)) ==>
      At(s, Tagged("!uuid", v))
      == match s.host.uuid(text) { case Some(id) => Ok(Object(id)) case None => Err(WrongType) }
  {
    RegisteredForText(s);
    IgnoringResolves(s, "!random-uuid", v);
    if At(s, v) == Ok(Str(text)) {
      ConversionResolves(s, "!uuid", ReadUuid, v);
    }
  }

  /** Two tags only resolve. */
  lemma RegisteredPassing(s: Scope, v: Value)
    requires s.host.readers == Registered()
    ensures At(s, Tagged("!keywords", v)) == At(s, v) && At(s, Tagged("!strs", v)) == At(s, v)
  {
    RegisteredForNumbers(s);
    RegisteredForText(s);
    SameResolves(s, "!keywords", v);
    SameResolves(s, "!strs", v);
  }

  /** The readers that take one item, of a number: a port of zero is a free one. */
  lemma RegisteredNumbers(s: Scope, v: Value, x: Value, n: int)
    requires s.host.readers == Registered() && Takes(v, x) && At(s, x) == Ok(Int(n))
    ensures At(s, Tagged("!long", v)) == Ok(Int(n))
    ensures At(s, Tagged("!port", v)) == Ok(Int(if n == 0 then s.host.freePort else n))
    ensures At(s, Tagged("!keyword", v)) == Ok(Str(Decimal(n)))
  {
    RegisteredForNumbers(s);
    LongResolves(s, "!long", v, x);
    PortResolves(s, "!port", v, x);
    KeywordResolves(s, "!keyword", v, x);
  }
  /** Joining two items that resolve to text, */
  lemma RegisteredJoin(s: Scope, x: Value, y: Value, a: string, b: string)
    requires s.host.readers == Registered() && At(s, x) == Ok(Str(a)) && At(s, y) == Ok(Str(b))
    ensures At(s, Tagged("!join", List(Cons(x, Cons(y, Nil))))) == Ok(Str(a + b))
  {
    RegisteredForLists(s);
    JoinOfTwo(s, "!join", x, y, a, b);
  }

  lemma JoinOfTwo(s: Scope, tag: string, x: Value, y: Value, a: string, b: string)
    requires Reads(s, tag, ReadJoin) && At(s, x) == Ok(Str(a)) && At(s, y) == Ok(Str(b))
    ensures At(s, Tagged(tag, List(Cons(x, Cons(y, Nil))))) == Ok(Str(a + b))
  {
    JoinOfOne(s, tag, x);
    JoinOfOne(s, tag, y);
    JoinAppends(s, tag, Cons(x, Nil), Cons(y, Nil));
    assert Append(Cons(x, Nil), Cons(y, Nil)) == Cons(x, Cons(y, Nil));
  }

  /** and concatenating two that resolve to lists. */
  lemma RegisteredConcat(s: Scope, x: Value, y: Value, xs: Items, ys: Items)
    requires s.host.readers == Registered() && At(s, x) == Ok(List(xs)) && At(s, y) == Ok(List(ys))
    ensures At(s, Tagged("!concat", List(Cons(x, Cons(y, Nil))))) == Ok(List(Append(xs, ys)))
  {
    RegisteredForLists(s);
    ConcatOfTwo(s, "!concat", x, y, xs, ys);
  }

  lemma ConcatOfTwo(s: Scope, tag: string, x: Value, y: Value, xs: Items, ys: Items)
    requires Reads(s, tag, ReadConcat) && At(s, x) == Ok(List(xs)) && At(s, y) == Ok(List(ys))
    ensures At(s, Tagged(tag, List(Cons(x, Cons(y, Nil))))) == Ok(List(Append(xs, ys)))
  {
    ConcatOfOne(s, tag, x);
    ConcatOfOne(s, tag, y);
    ConcatAppends(s, tag, Cons(x, Nil), Cons(y, Nil));
    assert Append(Cons(x, Nil), Cons(y, Nil)) == Cons(x, Cons(y, Nil));
  }

  /** A component declaration whose kind is text. */
  lemma RegisteredComponent(s: Scope, es: Entries, kind: string)
    requires s.host.readers == Registered()
    requires Lookup(es, Name("system/component-kind")) == Some(Str(kind))
    ensures
      var config := At(s, Mapping(Dropped(es, Name("system/component-kind"))));
      At(s, Tagged("!system/component", Mapping(es)))
      == if config.Err? then config else Ok(ComponentDef(kind, config.value))
  {
    RegisteredForSystems(s);
    ComponentResolves(s, "!system/component", es);
    assert At(s, Str(kind)) == Ok(Str(kind));
  }
}
