/** Partial evaluation: fixing the profile of a config tree ahead of time. */
module Specialise {
  import opened Values
  import opened Parsing
  import opened Resolver
  import opened Rewriting

  /** Every `!profile` replaced by the branch it picks, or by null; arguments that readers use as
  parsed are left alone. */
  function Specialised(readers: map<string, Reader>, profile: string, x: Value): Value
  {
    match x
    case Mapping(es) => Mapping(SpecialisedEntries(readers, profile, es))
    case List(xs) => List(SpecialisedItems(readers, profile, xs))
    case Tagged(tag, v) =>
      if tag !in readers then x
      else if readers[tag].ReadProfile? && v.Mapping? then
        (match Picked(profile, v.entries)
         case Some(branch) => Specialised(readers, profile, branch)
         case None => Null)
      else if Raw(readers[tag]) then x
      else Tagged(tag, Specialised(readers, profile, v))
    case _ => x
  }

  function SpecialisedEntries(readers: map<string, Reader>, profile: string, es: Entries): Entries
  {
    match es
    case Empty => Empty
    case Entry(k, v, rest) =>
      Entry(k, Specialised(readers, profile, v), SpecialisedEntries(readers, profile, rest))
  }

  function SpecialisedItems(readers: map<string, Reader>, profile: string, xs: Items): Items
  {
    match xs
    case Nil => Nil
    case Cons(x, rest) => Cons(Specialised(readers, profile, x), SpecialisedItems(readers, profile, rest))
  }

  /** The host with every resource specialised. */
  function SpecialisedHost(profile: string, host: Host): Host
  {
    host.(resources := map n | n in host.resources :: Specialised(host.readers, profile, host.resources[n]))
  }

  /** Resolving the specialised tree under any profile gives the value, or the error, that the
  original gives under the profile it was specialised for. */
  lemma {:induction false} SpecialisedResolves(host: Host, profile: string, other: string, depth: nat, x: Value)
    requires Parsed(x) && ParsedResources(host)
    ensures Resolve(SpecialisedHost(profile, host), other, depth, Specialised(host.readers, profile, x))
         == Resolve(host, profile, depth, x)
    decreases depth, x, 1
  {
    var s, t := Scope(host, profile, depth), Scope(SpecialisedHost(profile, host), other, depth);
    match x
    case Mapping(es) =>
      SpecialisedAlike(host, profile, other, depth, x);
      AlikeResolve(s, x, t, Specialised(host.readers, profile, x));
    case List(xs) =>
      SpecialisedAlike(host, profile, other, depth, x);
      AlikeResolve(s, x, t, Specialised(host.readers, profile, x));
    case Tagged(tag, v) => SpecialisedTagResolves(host, profile, other, depth, tag, v);
    case _ =>
  }

  lemma {:induction false} SpecialisedTagResolves(host: Host, profile: string, other: string, depth: nat,
                                                  tag: string, v: Value)
    requires Parsed(Tagged(tag, v)) && ParsedResources(host)
    ensures Resolve(SpecialisedHost(profile, host), other, depth, Specialised(host.readers, profile, Tagged(tag, v)))
         == Resolve(host, profile, depth, Tagged(tag, v))
    decreases depth, v, 2
  {
    var s, t := Scope(host, profile, depth), Scope(SpecialisedHost(profile, host), other, depth);
    assert SameOutside(s, t);
    if tag in host.readers {
      var reader := host.readers[tag];
      if reader.ReadProfile? {
        if v.Mapping? {
          var branch := Picked(profile, v.entries);
          if branch.Some? {
            PickedIsParsed(profile, v.entries);
            SpecialisedResolves(host, profile, other, depth, branch.value);
          }
        }
      } else if reader.ReadInclude? {
        if v.Str? && WithoutPrefix(v.s) in host.resources && depth > 0 {
          SpecialisedResolves(host, profile, other, depth - 1, host.resources[WithoutPrefix(v.s)]);
        }
      } else if Raw(reader) {
        ReadRaw(s, t, tag, v);
      } else {
        SpecialisedAlike(host, profile, other, depth, v);
        ReadAlike(s, v, t, Specialised(host.readers, profile, v), tag);
      }
    }
  }

  lemma {:induction false} SpecialisedAlike(host: Host, profile: string, other: string, depth: nat, v: Value)
    requires Parsed(v) && ParsedResources(host) && (v.Str? || v.List? || v.Mapping?)
    ensures
      Alike(Scope(host, profile, depth), v,
            Scope(SpecialisedHost(profile, host), other, depth), Specialised(host.readers, profile, v))
    decreases depth, v, 0
  {
    match v
    case Mapping(es) => SpecialisedEntriesAlike(host, profile, other, depth, es);
    case List(xs) => SpecialisedItemsAlike(host, profile, other, depth, xs);
    case _ =>
  }

  lemma {:induction false} SpecialisedEntriesAlike(host: Host, profile: string, other: string, depth: nat, es: Entries)
    requires ParsedEntries(es) && ParsedResources(host)
    ensures
      AlikeEntries(Scope(host, profile, depth), es,
                   Scope(SpecialisedHost(profile, host), other, depth),
                   SpecialisedEntries(host.readers, profile, es))
    decreases depth, es
  {
    if es.Entry? {
      SpecialisedResolves(host, profile, other, depth, es.value);
      SpecialisedEntriesAlike(host, profile, other, depth, es.rest);
    }
  }

  lemma {:induction false} SpecialisedItemsAlike(host: Host, profile: string, other: string, depth: nat, xs: Items)
    requires ParsedItems(xs) && ParsedResources(host)
    ensures
      AlikeItems(Scope(host, profile, depth), xs,
                 Scope(SpecialisedHost(profile, host), other, depth),
                 SpecialisedItems(host.readers, profile, xs))
    decreases depth, xs
  {
    if xs.Cons? {
      SpecialisedResolves(host, profile, other, depth, xs.head);
      SpecialisedItemsAlike(host, profile, other, depth, xs.tail);
    }
  }

  lemma PickedListIsUnwrapped(host: Host, profile: string, depth: nat)
    requires "!profile" in host.readers && host.readers["!profile"] == ReadProfile
    requires "!long" in host.readers && host.readers["!long"] == ReadLong
    requires host.number(List(Cons(Int(5), Nil))).None?
    ensures
      var five := List(Cons(Int(5), Nil));
      var x := Tagged("!long", Tagged("!profile", Mapping(Entry(Name("default"), five, Empty))));
      && !Parsed(x)
      && Resolve(host, profile, depth, x) == Err(WrongType)
      && Resolve(host, profile, depth, Specialised(host.readers, profile, x)) == Ok(Int(5))
  {
    var five := List(Cons(Int(5), Nil));
    var branches := Mapping(Entry(Name("default"), five, Empty));
    var pick := Tagged("!profile", branches);
    assert Lookup(branches.entries, Name("default")) == Some(five);
    assert Lookup(branches.entries, Name(profile)).Some? ==> profile == "default" by {
      assert Lookup(Empty, Name(profile)) == None;
    }
    assert Picked(profile, branches.entries) == Some(five);
    assert ResolveItems(host, profile, depth, Nil) == Ok(Nil);
    assert Resolve(host, profile, depth, Int(5)) == Ok(Int(5));
    assert ResolveItems(host, profile, depth, Cons(Int(5), Nil)) == Ok(Cons(Int(5), Nil));
    assert Resolve(host, profile, depth, five) == Ok(five);
    assert Read(host, profile, depth, ReadProfile, branches) == Ok(five);
    assert Resolve(host, profile, depth, pick) == Ok(five);
    assert Specialised(host.readers, profile, Int(5)) == Int(5);
    assert SpecialisedItems(host.readers, profile, Nil) == Nil;
    assert SpecialisedItems(host.readers, profile, Cons(Int(5), Nil)) == Cons(Int(5), Nil);
    assert Specialised(host.readers, profile, five) == five;
    assert Specialised(host.readers, profile, pick) == five;
    assert Long(host, profile, depth, pick) == Err(WrongType);
    assert Long(host, profile, depth, five) == Ok(Int(5));
    assert Read(host, profile, depth, ReadLong, pick) == Err(WrongType);
    assert Read(host, profile, depth, ReadLong, five) == Ok(Int(5));
  }

  /** The shape of parsed trees matters: under a tag that wraps another tag directly, a list that
  `!profile` picks is unwrapped once it stands there in its place. */
  lemma ShapeMatters(host: Host, profile: string, depth: nat)
    requires host.readers == Registered()
    requires host.number(List(Cons(Int(5), Nil))).None?
    ensures
      exists x ::
        && !Parsed(x)
        && Resolve(host, profile, depth, Specialised(host.readers, profile, x)) != Resolve(host, profile, depth, x)
  {
    PickedListIsUnwrapped(host, profile, depth);
  }
}
