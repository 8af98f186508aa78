/** Python values as the configuration and lifecycle code see them.

A dict is a chain of entries in insertion order, so that iteration order, and with it
the first error met, is part of the model. `Distinct` says that no key occurs twice, which
Python guarantees of every dict. */
module Values {

  datatype Option<+T> = None | Some(value: T)

  datatype Result<+T, +E> = Ok(value: T) | Err(error: E) {
    predicate IsFailure() {
      Err?
    }

    function PropagateFailure<U>(): Result<U, E>
      requires Err?
    {
      Err(error)
    }

    function Extract(): T
      requires Ok?
    {
      value
    }
  }

  /** An exception raised by code outside the model: a callback, an attribute access. */
  datatype Exn = Exn(what: string)

  datatype Key = Name(name: string) | Number(number: int)

  datatype Value =
    | Null
    | Int(n: int)
    | Str(s: string)
    | Object(id: nat) // any other Python object, known only by its identity
    | Mapping(entries: Entries)
    | List(items: Items)
    | Tuple(items: Items)
    | Ref(path: seq<string>)
    | LocalRef(path: seq<string>)
    | Required
    | ComponentDef(kind: string, config: Value)
    | Tagged(tag: string, value: Value)

  datatype Entries = Empty | Entry(key: Key, value: Value, rest: Entries)

  datatype Items = Nil | Cons(head: Value, tail: Items)

  /** `entries.get(key)`; the result is a proper part of the mapping. */
  function Lookup(entries: Entries, key: Key): (r: Option<Value>)
    ensures r.Some? ==> r.value < entries
  {
    match entries
    case Empty => None
    case Entry(k, v, rest) => if k == key then Some(v) else Lookup(rest, key)
  }

  /** `entries[key] = value`: an existing key keeps its place, a new one goes last. */
  function Put(entries: Entries, key: Key, value: Value): Entries
  {
    match entries
    case Empty => Entry(key, value, Empty)
    case Entry(k, v, rest) =>
      if k == key then Entry(k, value, rest) else Entry(k, v, Put(rest, key, value))
  }

  lemma {:induction false} LookupPut(entries: Entries, key: Key, value: Value, other: Key)
    ensures Lookup(Put(entries, key, value), other)
         == if other == key then Some(value) else Lookup(entries, other)
  {
    if entries.Entry? {
      LookupPut(entries.rest, key, value, other);
    }
  }

  function Keys(entries: Entries): seq<Key>
  {
    match entries
    case Empty => []
    case Entry(k, _, rest) => [k] + Keys(rest)
  }

  /** A new key goes last; writing an old one moves nothing. */
  lemma {:induction false} KeysPut(entries: Entries, key: Key, value: Value)
    ensures key in Keys(entries) <==> Lookup(entries, key).Some?
    ensures Keys(Put(entries, key, value))
         == if Lookup(entries, key).Some? then Keys(entries) else Keys(entries) + [key]
  {
    if entries.Entry? && entries.key != key {
      KeysPut(entries.rest, key, value);
    }
  }

  /** The entries of one and then those of the other. */
  function Chain(es: Entries, fs: Entries): Entries
  {
    match es
    case Empty => fs
    case Entry(k, v, rest) => Entry(k, v, Chain(rest, fs))
  }

  function AsSeq(items: Items): seq<Value>
  {
    match items
    case Nil => []
    case Cons(x, rest) => [x] + AsSeq(rest)
  }

  predicate Distinct(entries: Entries)
  {
    entries.Entry? ==> Lookup(entries.rest, entries.key).None? && Distinct(entries.rest)
  }

  /** No mapping reachable through mappings repeats a key. */
  predicate DistinctKeys(x: Value)
  {
    x.Mapping? ==> Distinct(x.entries) && DistinctKeysIn(x.entries)
  }

  predicate DistinctKeysIn(entries: Entries)
  {
    entries.Entry? ==> DistinctKeys(entries.value) && DistinctKeysIn(entries.rest)
  }

  lemma {:induction false} DistinctKeysAt(entries: Entries, key: Key)
    requires DistinctKeysIn(entries)
    ensures Lookup(entries, key).Some? ==> DistinctKeys(Lookup(entries, key).value)
  {
    if entries.Entry? && entries.key != key {
      DistinctKeysAt(entries.rest, key);
    }
  }

  /** `str(key)`. */
  function KeyText(key: Key): string
  {
    match key
    case Name(s) => s
    case Number(n) => Decimal(n)
  }

  function Decimal(n: int): string
    decreases n < 0, if n < 0 then -n else n
  {
    if n < 0 then "-" + Decimal(-n)
    else if n < 10 then ['0' + n as char]
    else Decimal(n / 10) + ['0' + (n % 10) as char]
  }
}
