/** What single readers make of their arguments, in terms of sequences. */
module ReaderLaws {
  import opened Values
  import opened Resolver

  /** Every item resolves to null. */
  predicate AllNull(host: Host, profile: string, depth: nat, xs: Items)
  {
    xs.Cons? ==> Resolve(host, profile, depth, xs.head) == Ok(Null) && AllNull(host, profile, depth, xs.tail)
  }

  lemma {:induction false} OrSkipsNulls(host: Host, profile: string, depth: nat, nulls: Items, rest: Items)
    requires AllNull(host, profile, depth, nulls)
    ensures FirstNonNull(host, profile, depth, Append(nulls, rest)) == FirstNonNull(host, profile, depth, rest)
  {
    if nulls.Cons? {
      OrSkipsNulls(host, profile, depth, nulls.tail, rest);
    }
  }

  /** `!or` gives what the first item not resolving to null gives, be it a value or an error,
  whatever follows it; it gives null when there is no such item. */
  lemma {:induction false} OrIsFirst(host: Host, profile: string, depth: nat, nulls: Items, x: Value, rest: Items)
    requires AllNull(host, profile, depth, nulls) && Resolve(host, profile, depth, x) != Ok(Null)
    ensures FirstNonNull(host, profile, depth, Append(nulls, Cons(x, rest))) == Resolve(host, profile, depth, x)
    ensures FirstNonNull(host, profile, depth, nulls) == Ok(Null)
  {
    OrSkipsNulls(host, profile, depth, nulls, Cons(x, rest));
    OrSkipsNulls(host, profile, depth, nulls, Nil);
    AppendNil(nulls);
  }

  lemma {:induction false} AppendNil(xs: Items)
    ensures Append(xs, Nil) == xs
  {
    if xs.Cons? {
      AppendNil(xs.tail);
    }
  }

  /** The value of the last entry whose key, quotes dropped, is `key`. */
  function LastFor(es: Entries, key: Key): Option<Value>
  {
    match es
    case Empty => None
    case Entry(k, v, rest) =>
      if LastFor(rest, key).Some? then LastFor(rest, key) else if Unquoted(k) == key then Some(v) else None
  }

  lemma {:induction false} RekeyedOnto(es: Entries, built: Entries, key: Key)
    ensures Lookup(Rekeyed(es, built), key)
         == if LastFor(es, key).Some? then LastFor(es, key) else Lookup(built, key)
    decreases es
  {
    if es.Entry? {
      RekeyedOnto(es.rest, Put(built, Unquoted(es.key), es.value), key);
      LookupPut(built, Unquoted(es.key), es.value, key);
    }
  }

  /** A resolved mapping holds, under each key, the resolved value of the last entry written with
  that key, quoted or not; and no key twice. */
  lemma {:induction false} RekeyedIsLast(es: Entries, key: Key)
    ensures Lookup(Rekeyed(es, Empty), key) == LastFor(es, key)
    ensures Distinct(Rekeyed(es, Empty))
  {
    RekeyedOnto(es, Empty, key);
    RekeyedIsDistinct(es, Empty);
  }

  lemma {:induction false} RekeyedIsDistinct(es: Entries, built: Entries)
    requires Distinct(built)
    ensures Distinct(Rekeyed(es, built))
    decreases es
  {
    if es.Entry? {
      PutIsDistinct(built, Unquoted(es.key), es.value);
      RekeyedIsDistinct(es.rest, Put(built, Unquoted(es.key), es.value));
    }
  }

  lemma {:induction false} PutIsDistinct(es: Entries, key: Key, x: Value)
    requires Distinct(es)
    ensures Distinct(Put(es, key, x))
  {
    if es.Entry? && es.key != key {
      LookupPut(es.rest, key, x, es.key);
      PutIsDistinct(es.rest, key, x);
    }
  }

  // ---- joining and concatenating ---------------------------------------------------------

  /** `!join` puts the texts of the items one after the other, null giving none. */
  lemma {:induction false} JoinIsPiecewise(host: Host, xs: Items, ys: Items)
    ensures Joined(host, Append(xs, ys)) == Joined(host, xs) + Joined(host, ys)
    ensures forall x :: Joined(host, Cons(x, Nil)) == if x == Null then "" else Text(host, x)
  {
    if xs.Cons? {
      JoinIsPiecewise(host, xs.tail, ys);
    }
  }

  /** `!concat` puts the items of the items one after the other, and fails if one of them cannot be
  iterated over. */
  lemma {:induction false} ConcatIsPiecewise(xs: Items, ys: Items)
    ensures Concatenated(Append(xs, ys))
         == match (Concatenated(xs), Concatenated(ys)) {
              case (Some(a), Some(b)) => Some(Append(a, b))
              case _ => None
            }
    ensures forall x :: Concatenated(Cons(x, Nil)) == Iterate(x)
  {
    if xs.Cons? {
      ConcatIsPiecewise(xs.tail, ys);
      if Iterate(xs.head).Some? && Concatenated(xs.tail).Some? && Concatenated(ys).Some? {
        AppendAssociates(Iterate(xs.head).value, Concatenated(xs.tail).value, Concatenated(ys).value);
      }
    }
    forall x ensures Concatenated(Cons(x, Nil)) == Iterate(x) {
      if Iterate(x).Some? {
        AppendNil(Iterate(x).value);
      }
    }
  }

  lemma {:induction false} AppendIsConcatenation(xs: Items, ys: Items)
    ensures AsSeq(Append(xs, ys)) == AsSeq(xs) + AsSeq(ys)
  {
    if xs.Cons? {
      AppendIsConcatenation(xs.tail, ys);
    }
  }

  lemma {:induction false} AppendAssociates(xs: Items, ys: Items, zs: Items)
    ensures Append(Append(xs, ys), zs) == Append(xs, Append(ys, zs))
  {
    if xs.Cons? {
      AppendAssociates(xs.tail, ys, zs);
    }
  }

  // ---- reference paths -------------------------------------------------------------------

  function Dotted(parts: seq<string>): string
  {
    if parts == [] then ""
    else if |parts| == 1 then parts[0]
    else parts[0] + "." + Dotted(parts[1..])
  }

  lemma {:induction false} SplitFrom(s: string, current: string)
    requires '.' !in current
    ensures Split(s, current) != [] && Dotted(Split(s, current)) == current + s
    ensures forall part :: part in Split(s, current) ==> '.' !in part
    decreases |s|
  {
    if s == "" {
      assert current + s == current;
    } else {
      assert s == [s[0]] + s[1..];
      if s[0] == '.' {
        SplitFrom(s[1..], "");
        assert Split(s, current)[1..] == Split(s[1..], "");
        assert "" + s[1..] == s[1..];
      } else {
        SplitFrom(s[1..], current + [s[0]]);
        assert current + [s[0]] + s[1..] == current + s;
      }
    }
  }

  /** Splitting the text of a reference at its dots loses nothing, and leaves no dot inside a part. */
  lemma SplitIsDotted(s: string)
    ensures Dotted(Split(s, "")) == s
    ensures forall part :: part in Split(s, "") ==> '.' !in part
  {
    SplitFrom(s, "");
    assert "" + s == s;
  }
}
