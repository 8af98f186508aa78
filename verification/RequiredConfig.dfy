/** Slots marked REQUIRED in a component's config, and which of them survive its overrides. */
module RequiredConfig {
  import opened Values
  import opened Merge

  function Texts(path: seq<Key>): seq<string>
  {
    if path == [] then [] else [KeyText(path[0])] + Texts(path[1..])
  }

  /** `_required_paths`, in the order it yields them; only mappings are searched. */
  function RequiredPaths(x: Value, path: seq<string>): seq<seq<string>>
  {
    match x
    case Required => [path]
    case Mapping(es) => RequiredPathsIn(es, path)
    case _ => []
  }

  function RequiredPathsIn(es: Entries, path: seq<string>): seq<seq<string>>
  {
    match es
    case Empty => []
    case Entry(k, v, rest) => RequiredPaths(v, path + [KeyText(k)]) + RequiredPathsIn(rest, path)
  }

  /** Some slot of `x` is still to be filled. */
  ghost predicate Unfilled(x: Value)
  {
    exists q :: Find(x, q) == Bound(Required)
  }

  lemma {:induction false} SlotIsReported(x: Value, path: seq<string>, q: seq<Key>)
    requires Find(x, q) == Bound(Required)
    ensures path + Texts(q) in RequiredPaths(x, path)
    decreases x, 0
  {
    if q == [] {
      assert path + Texts(q) == path;
    } else {
      SlotIsReportedIn(x.entries, path, q);
    }
  }

  lemma {:induction false} SlotIsReportedIn(es: Entries, path: seq<string>, q: seq<Key>)
    requires q != [] && Lookup(es, q[0]).Some? && Find(Lookup(es, q[0]).value, q[1..]) == Bound(Required)
    ensures path + Texts(q) in RequiredPathsIn(es, path)
    decreases es, 0
  {
    if es.key == q[0] {
      SlotIsReported(es.value, path + [KeyText(q[0])], q[1..]);
      assert path + [KeyText(q[0])] + Texts(q[1..]) == path + Texts(q);
    } else {
      SlotIsReportedIn(es.rest, path, q);
    }
  }

  lemma {:induction false} ReportIsSlot(x: Value, path: seq<string>, p: seq<string>) returns (q: seq<Key>)
    requires DistinctKeys(x) && p in RequiredPaths(x, path)
    ensures Find(x, q) == Bound(Required) && p == path + Texts(q)
    decreases x, 0
  {
    if x.Required? {
      q := [];
    } else {
      q := ReportIsSlotIn(x.entries, path, p);
    }
  }

  lemma {:induction false} ReportIsSlotIn(es: Entries, path: seq<string>, p: seq<string>) returns (q: seq<Key>)
    requires Distinct(es) && DistinctKeysIn(es) && p in RequiredPathsIn(es, path)
    ensures q != [] && Lookup(es, q[0]).Some?
    ensures Find(Lookup(es, q[0]).value, q[1..]) == Bound(Required) && p == path + Texts(q)
    decreases es, 0
  {
    if p in RequiredPaths(es.value, path + [KeyText(es.key)]) {
      var q' := ReportIsSlot(es.value, path + [KeyText(es.key)], p);
      q := [es.key] + q';
      assert q[1..] == q';
    } else {
      q := ReportIsSlotIn(es.rest, path, p);
    }
  }

  /** A path is reported exactly when some slot with that text is unfilled. */
  lemma RequiredPathsReportSlots(x: Value, p: seq<string>)
    requires DistinctKeys(x)
    ensures p in RequiredPaths(x, []) <==> exists q :: Find(x, q) == Bound(Required) && Texts(q) == p
  {
    if p in RequiredPaths(x, []) {
      var q := ReportIsSlot(x, [], p);
    }
    forall q | Find(x, q) == Bound(Required) && Texts(q) == p ensures p in RequiredPaths(x, []) {
      SlotIsReported(x, [], q);
      assert [] + Texts(q) == p;
    }
  }

  /** Nothing is reported exactly when no slot is unfilled. */
  lemma UnfilledIsReported(x: Value)
    requires DistinctKeys(x)
    ensures RequiredPaths(x, []) != [] <==> Unfilled(x)
  {
    if RequiredPaths(x, []) != [] {
      RequiredPathsReportSlots(x, RequiredPaths(x, [])[0]);
    }
    if Unfilled(x) {
      var q :| Find(x, q) == Bound(Required);
      SlotIsReported(x, [], q);
      assert [] + Texts(q) in RequiredPaths(x, []);
    }
  }

  /** Slots are reported in the order of the entries that they are found under. */
  lemma {:induction false} ReportedInOrder(es: Entries, fs: Entries, path: seq<string>)
    ensures RequiredPaths(Mapping(Chain(es, fs)), path)
         == RequiredPaths(Mapping(es), path) + RequiredPaths(Mapping(fs), path)
  {
    if es.Entry? {
      ReportedInOrder(es.rest, fs, path);
      assert RequiredPaths(Mapping(es), path)
          == RequiredPaths(es.value, path + [KeyText(es.key)]) + RequiredPaths(Mapping(es.rest), path);
      assert RequiredPaths(Mapping(Chain(es, fs)), path)
          == RequiredPaths(es.value, path + [KeyText(es.key)]) + RequiredPaths(Mapping(Chain(es.rest, fs)), path);
    }
  }

  // ---- string-keyed configs --------------------------------------------------------------

  predicate StringKeyed(x: Value)
  {
    x.Mapping? ==> StringKeyedIn(x.entries)
  }

  predicate StringKeyedIn(es: Entries)
  {
    es.Entry? ==> es.key.Name? && StringKeyed(es.value) && StringKeyedIn(es.rest)
  }

  function Names(path: seq<string>): seq<Key>
  {
    if path == [] then [] else [Name(path[0])] + Names(path[1..])
  }

  lemma {:induction false} StringKeyedAt(es: Entries, key: Key)
    requires StringKeyedIn(es) && Lookup(es, key).Some?
    ensures key.Name? && StringKeyed(Lookup(es, key).value)
  {
    if es.key != key {
      StringKeyedAt(es.rest, key);
    }
  }

  lemma {:induction false} NamesInvertTexts(x: Value, q: seq<Key>)
    requires StringKeyed(x) && Find(x, q).Bound?
    ensures Names(Texts(q)) == q
    decreases |q|
  {
    if q != [] {
      StringKeyedAt(x.entries, q[0]);
      NamesInvertTexts(Lookup(x.entries, q[0]).value, q[1..]);
      assert q == [q[0]] + q[1..];
      assert Texts(q)[1..] == Texts(q[1..]);
    }
  }

  lemma {:induction false} TextsInvertNames(p: seq<string>)
    ensures Texts(Names(p)) == p
  {
    if p != [] {
      TextsInvertNames(p[1..]);
      assert Names(p)[1..] == Names(p[1..]);
    }
  }

  lemma RequiredPathsByName(x: Value, p: seq<string>)
    requires DistinctKeys(x) && StringKeyed(x)
    ensures p in RequiredPaths(x, []) <==> Find(x, Names(p)) == Bound(Required)
  {
    RequiredPathsReportSlots(x, p);
    TextsInvertNames(p);
    forall q | Find(x, q) == Bound(Required) && Texts(q) == p ensures q == Names(p) {
      NamesInvertTexts(x, q);
    }
  }

  lemma {:induction false} MergeKeepsStringKeys(base: Value, over: Value)
    requires StringKeyed(base) && StringKeyed(over)
    ensures StringKeyed(DeepMerge(base, over))
    decreases over, 0
  {
    if base.Mapping? && over.Mapping? {
      MergeIntoKeepsStringKeys(base.entries, base.entries, over.entries);
    }
  }

  lemma {:induction false} MergeIntoKeepsStringKeys(merged: Entries, base: Entries, over: Entries)
    requires StringKeyedIn(merged) && StringKeyedIn(base) && StringKeyedIn(over)
    ensures StringKeyedIn(MergeInto(merged, base, over))
    decreases over, 0
  {
    if over.Entry? {
      if Lookup(base, over.key).Some? {
        StringKeyedAt(base, over.key);
        MergeKeepsStringKeys(Lookup(base, over.key).value, over.value);
      }
      PutKeepsStringKeys(merged, over.key, MergeAt(base, over.key, over.value));
      MergeIntoKeepsStringKeys(Put(merged, over.key, MergeAt(base, over.key, over.value)), base, over.rest);
    }
  }

  lemma PutKeepsStringKeys(es: Entries, key: Key, value: Value)
    requires StringKeyedIn(es) && key.Name? && StringKeyed(value)
    ensures StringKeyedIn(Put(es, key, value))
  {
  }

  /** What is still required of a merged config: what the override itself requires, and what the
  defaults require on paths the override leaves unbound. */
  lemma RequiredSurvives(base: Value, over: Value, p: seq<string>)
    requires DistinctKeys(base) && DistinctKeys(over) && StringKeyed(base) && StringKeyed(over)
    ensures p in RequiredPaths(DeepMerge(base, over), [])
       <==> || p in RequiredPaths(over, [])
            || (p in RequiredPaths(base, []) && Find(over, Names(p)).Missing?)
  {
    MergeKeepsDistinct(base, over);
    MergeKeepsStringKeys(base, over);
    RequiredPathsByName(base, p);
    RequiredPathsByName(over, p);
    RequiredPathsByName(DeepMerge(base, over), p);
    MergePathRule(base, over, Names(p));
  }
}
