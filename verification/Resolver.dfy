/** The tag resolver: a lazy evaluator over parsed config trees. */
module Resolver {
  import opened Values

  /** Why resolution failed. */
  datatype ConfigFault =
    | NoReader(tag: string)
    | NeedsMapping
    | NeedsKind
    | WrongType
    | EmptySequence
    | NotFound(name: string)
    | TooDeep

  /** The tag readers: the built-in ones, and those of the system brick. */
  datatype Reader =
    | ReadProfile | ReadInclude | ReadEnv | ReadOr | ReadJoin | ReadLong | ReadPort | ReadKeyword
    | ReadSame | ReadStr | ReadUuid | ReadRandomUuid | ReadConcat
    | ReadComponent | ReadRef | ReadLocalRef | ReadRequired

  /** The table that importing the two bricks registers. */
  function Registered(): map<string, Reader>
  {
    map[
      "!profile" := ReadProfile, "!include" := ReadInclude, "!env" := ReadEnv, "!or" := ReadOr,
      "!join" := ReadJoin, "!long" := ReadLong, "!port" := ReadPort, "!keyword" := ReadKeyword,
      "!keywords" := ReadSame, "!str" := ReadStr, "!strs" := ReadSame, "!uuid" := ReadUuid,
      "!random-uuid" := ReadRandomUuid, "!concat" := ReadConcat,
      "!system/component" := ReadComponent, "!system/ref" := ReadRef,
      "!system/local-ref" := ReadLocalRef, "!system/required-component" := ReadRequired]
  }

  /** Everything outside the tree that resolution consults. The conversions are Python's own;
  `None` stands for one that raises. */
  datatype Host = Host(
    readers: map<string, Reader>,
    environ: map<string, string>,
    resources: map<string, Value>, // the parsed resources, by name
    text: Value -> string,
    number: Value -> Option<int>,
    uuid: string -> Option<nat>,
    freshUuid: nat,
    freePort: int)

  const KIND_KEY: Key := Name("system/component-kind")

  // ---- small readers ---------------------------------------------------------------------

  /** `_key`. */
  function Unquoted(key: Key): Key
  {
    match key
    case Name(s) =>
      if |s| > 1 && s[0] == '"' && s[|s| - 1] == '"' then Name(s[1..|s| - 1]) else key
    case Number(_) => key
  }

  /** The dict a comprehension over the entries builds: of two entries whose keys come out the
  same, the later gives the value. */
  function Rekeyed(es: Entries, built: Entries): Entries
  {
    match es
    case Empty => built
    case Entry(k, v, rest) => Rekeyed(rest, Put(built, Unquoted(k), v))
  }

  /** `str(x)`. */
  function Text(host: Host, x: Value): string
  {
    match x
    case Str(s) => s
    case Int(n) => Decimal(n)
    case Null => "None"
    case _ => host.text(x)
  }

  /** `int(x)`. */
  function Whole(host: Host, x: Value): Option<int>
  {
    if x.Int? then Some(x.n) else host.number(x)
  }

  function Chars(s: string): Items
  {
    if s == "" then Nil else Cons(Str([s[0]]), Chars(s[1..]))
  }

  function KeyValue(key: Key): Value
  {
    match key
    case Name(s) => Str(s)
    case Number(n) => Int(n)
  }

  function KeyItems(es: Entries): Items
  {
    match es
    case Empty => Nil
    case Entry(k, _, rest) => Cons(KeyValue(k), KeyItems(rest))
  }

  /** What `for` runs over, when `for` can run over it. */
  function Iterate(x: Value): Option<Items>
  {
    match x
    case List(xs) => Some(xs)
    case Tuple(xs) => Some(xs)
    case Str(s) => Some(Chars(s))
    case Mapping(es) => Some(KeyItems(es))
    case _ => None
  }

  function Joined(host: Host, xs: Items): string
  {
    match xs
    case Nil => ""
    case Cons(x, rest) => (if x.Null? then "" else Text(host, x)) + Joined(host, rest)
  }

  function Append(xs: Items, ys: Items): Items
  {
    match xs
    case Nil => ys
    case Cons(x, rest) => Cons(x, Append(rest, ys))
  }

  function Concatenated(xs: Items): Option<Items>
  {
    match xs
    case Nil => Some(Nil)
    case Cons(x, rest) =>
      match (Iterate(x), Concatenated(rest))
      case (Some(ys), Some(zs)) => Some(Append(ys, zs))
      case _ => None
  }

  function Split(s: string, current: string): seq<string>
  {
    if s == "" then [current]
    else if s[0] == '.' then [current] + Split(s[1..], "")
    else Split(s[1..], current + [s[0]])
  }

  function RefPath(host: Host, x: Value): seq<string>
  {
    Split(Text(host, x), "")
  }

  const PREFIX := "resource:"

  function WithoutPrefix(name: string): string
  {
    if PREFIX <= name then name[|PREFIX|..] else name
  }

  /** The branch `!profile` picks; without one it resolves to null. */
  function Picked(profile: string, es: Entries): (r: Option<Value>)
    ensures r.Some? ==> r.value < es
  {
    if Lookup(es, Name(profile)).Some? then Lookup(es, Name(profile)) else Lookup(es, Name("default"))
  }

  function Unwrapped(x: Value): Option<Value>
  {
    match x
    case List(Cons(head, _)) => Some(head)
    case List(Nil) => None
    case _ => Some(x)
  }

  /** These readers use their argument as parsed, or not at all. */
  predicate Raw(reader: Reader)
  {
    reader in {ReadInclude, ReadRandomUuid, ReadRef, ReadLocalRef, ReadRequired}
  }

  // ---- resolution ------------------------------------------------------------------------

  /** `Resolver.resolve`. `depth` bounds the nesting of includes, as the interpreter's stack does. */
  function Resolve(host: Host, profile: string, depth: nat, x: Value): Result<Value, ConfigFault>
    decreases depth, x, 1
  {
    match x
    case Mapping(es) =>
      var rs :- ResolveEntries(host, profile, depth, es, None);
      Ok(Mapping(Rekeyed(rs, Empty)))
    case List(xs) =>
      var rs :- ResolveItems(host, profile, depth, xs);
      Ok(List(rs))
    case Tagged(tag, v) =>
      if tag !in host.readers then Err(NoReader(tag))
      else Read(host, profile, depth, host.readers[tag], v)
    case _ => Ok(x)
  }

  /** The entries with their values resolved in order, leaving out the one at `skip`. */
  function ResolveEntries(host: Host, profile: string, depth: nat, es: Entries, skip: Option<Key>)
    : Result<Entries, ConfigFault>
    decreases depth, es, 1
  {
    match es
    case Empty => Ok(Empty)
    case Entry(k, v, rest) =>
      if skip == Some(k) then ResolveEntries(host, profile, depth, rest, skip)
      else
        var v' :- Resolve(host, profile, depth, v);
        var rest' :- ResolveEntries(host, profile, depth, rest, skip);
        Ok(Entry(k, v', rest'))
  }

  function ResolveItems(host: Host, profile: string, depth: nat, xs: Items): Result<Items, ConfigFault>
    decreases depth, xs, 1
  {
    match xs
    case Nil => Ok(Nil)
    case Cons(x, rest) =>
      var x' :- Resolve(host, profile, depth, x);
      var rest' :- ResolveItems(host, profile, depth, rest);
      Ok(Cons(x', rest'))
  }

  /** A reader, applied to the argument of its tag. */
  function Read(host: Host, profile: string, depth: nat, reader: Reader, v: Value): Result<Value, ConfigFault>
    decreases depth, v, 3
  {
    match reader
    case ReadProfile =>
      if !v.Mapping? then Err(NeedsMapping)
      else
        (match Picked(profile, v.entries)
         case Some(branch) => Resolve(host, profile, depth, branch)
         case None => Ok(Null))
    case ReadInclude =>
      if !v.Str? then Err(WrongType)
      else if WithoutPrefix(v.s) !in host.resources then Err(NotFound(WithoutPrefix(v.s)))
      else if depth == 0 then Err(TooDeep)
      else Resolve(host, profile, depth - 1, host.resources[WithoutPrefix(v.s)])
    case ReadOr =>
      (match v
       case List(xs) => FirstNonNull(host, profile, depth, xs)
       case Tuple(xs) => FirstNonNull(host, profile, depth, xs)
       case Str(s) => Ok(if s == "" then Null else Str([s[0]]))
       case Mapping(es) => Ok(if es.Empty? then Null else KeyValue(es.key))
       case _ => Err(WrongType))
    case ReadLong => Long(host, profile, depth, v)
    case ReadPort =>
      var port :- Long(host, profile, depth, v);
      Ok(if port == Int(0) then Int(host.freePort) else port)
    case ReadKeyword =>
      if Unwrapped(v).None? then Err(EmptySequence)
      else
        var r :- Resolve(host, profile, depth, Unwrapped(v).value);
        Ok(if r.Null? then Null else Str(Text(host, r)))
    case ReadComponent => Component(host, profile, depth, v)
    case ReadRandomUuid => Ok(Object(host.freshUuid))
    case ReadRef => Ok(Ref(RefPath(host, v)))
    case ReadLocalRef => Ok(LocalRef(RefPath(host, v)))
    case ReadRequired => Ok(Required)
    case _ =>
      var r :- Resolve(host, profile, depth, v);
      Convert(host, reader, r)
  }

  /** What the remaining readers make of their resolved argument. */
  function Convert(host: Host, reader: Reader, r: Value): Result<Value, ConfigFault>
  {
    match reader
    case ReadEnv =>
      Ok(if Text(host, r) in host.environ then Str(host.environ[Text(host, r)]) else Null)
    case ReadJoin =>
      (match Iterate(r) case Some(xs) => Ok(Str(Joined(host, xs))) case None => Err(WrongType))
    case ReadStr => Ok(Str(Text(host, r)))
    case ReadUuid =>
      (match host.uuid(Text(host, r)) case Some(id) => Ok(Object(id)) case None => Err(WrongType))
    case ReadConcat =>
      (match Iterate(r)
       case Some(xs) => (match Concatenated(xs) case Some(ys) => Ok(List(ys)) case None => Err(WrongType))
       case None => Err(WrongType))
    case _ => Ok(r)
  }

  function FirstNonNull(host: Host, profile: string, depth: nat, xs: Items): Result<Value, ConfigFault>
    decreases depth, xs, 1
  {
    match xs
    case Nil => Ok(Null)
    case Cons(x, rest) =>
      var r :- Resolve(host, profile, depth, x);
      if r.Null? then FirstNonNull(host, profile, depth, rest) else Ok(r)
  }

  function Long(host: Host, profile: string, depth: nat, v: Value): Result<Value, ConfigFault>
    decreases depth, v, 2
  {
    if Unwrapped(v).None? then Err(EmptySequence)
    else
      var r :- Resolve(host, profile, depth, Unwrapped(v).value);
      if r.Null? then Ok(Null)
      else match Whole(host, r) case Some(n) => Ok(Int(n)) case None => Err(WrongType)
  }

  /** `!system/component`: the kind first, then the rest of the mapping as its config. */
  function Component(host: Host, profile: string, depth: nat, v: Value): Result<Value, ConfigFault>
    decreases depth, v, 1
  {
    if !v.Mapping? || Lookup(v.entries, KIND_KEY).None? then Err(NeedsKind)
    else
      var kind :- Resolve(host, profile, depth, Lookup(v.entries, KIND_KEY).value);
      var config :- ResolveEntries(host, profile, depth, v.entries, Some(KIND_KEY));
      Ok(ComponentDef(Text(host, kind), Mapping(Rekeyed(config, Empty))))
  }
}
