/** The resource path: scoped roots, and the lookup that goes through them. */
module ResourcePath {
  import opened Values
  import opened Resolver

  type Root = string

  /** What code does to the path: adds a root for good, or for the duration of a block; raises;
  swallows what a part of it raises. */
  datatype Program =
    | Done
    | Raise
    | Add(root: Root, next: Program)
    | Block(root: Root, body: Program, next: Program)
    | Catch(body: Program, next: Program)

  /** `broken`: some `remove` did not find its root, and raised. */
  datatype Outcome = Outcome(roots: seq<Root>, raised: bool, broken: bool)

  function Added(roots: seq<Root>, root: Root): seq<Root>
  {
    if root in roots then roots else roots + [root]
  }

  /** `roots.remove(root)`: the first occurrence goes. */
  function Removed(roots: seq<Root>, root: Root): seq<Root>
    requires root in roots
  {
    if roots[0] == root then roots[1..] else [roots[0]] + Removed(roots[1..], root)
  }

  function Execute(p: Program, roots: seq<Root>): Outcome
  {
    match p
    case Done => Outcome(roots, false, false)
    case Raise => Outcome(roots, true, false)
    case Add(root, next) => Execute(next, Added(roots, root))
    case Block(root, body, next) =>
      var inside := Execute(body, Added(roots, root));
      if root !in roots && root !in inside.roots then Outcome(inside.roots, true, true)
      else
        var left := if root in roots then inside.roots else Removed(inside.roots, root);
        if inside.raised then Outcome(left, true, inside.broken)
        else
          var rest := Execute(next, left);
          rest.(broken := inside.broken || rest.broken)
    case Catch(body, next) =>
      var inside := Execute(body, roots);
      var rest := Execute(next, inside.roots);
      rest.(broken := inside.broken || rest.broken)
  }

  /** `_extra_roots`, and the operations on it. */
  class Path {
    var extraRoots: seq<Root>

    constructor ()
      ensures extraRoots == []
    {
      extraRoots := [];
    }

    /** `add_resource_root`. */
    method AddResourceRoot(root: Root)
      modifies this
      ensures extraRoots == Added(old(extraRoots), root)
    {
      if root !in extraRoots {
        extraRoots := extraRoots + [root];
      }
    }

    /** The end of a `resource_root` block; `ok` is false when `remove` raises. */
    method Leave(root: Root, added: bool) returns (ok: bool)
      modifies this
      ensures ok == (!added || root in old(extraRoots))
      ensures extraRoots == if added && ok then Removed(old(extraRoots), root) else old(extraRoots)
    {
      ok := !added || root in extraRoots;
      if added && ok {
        extraRoots := Removed(extraRoots, root);
      }
    }

    /** Code running over the path, each block with its `finally`. */
    method Run(p: Program) returns (raised: bool, broken: bool)
      modifies this
      ensures Outcome(extraRoots, raised, broken) == Execute(p, old(extraRoots))
      decreases p
    {
      match p {
        case Done => return false, false;
        case Raise => return true, false;
        case Add(root, next) =>
          AddResourceRoot(root);
          raised, broken := Run(next);
        case Block(root, body, next) =>
          var added := root !in extraRoots;
          if added {
            extraRoots := extraRoots + [root];
          }
          raised, broken := Run(body);
          var ok := Leave(root, added);
          if !ok {
            return true, true;
          }
          if !raised {
            var b;
            raised, b := Run(next);
            broken := broken || b;
          }
        case Catch(body, next) =>
          raised, broken := Run(body);
          var b;
          raised, b := Run(next);
          broken := broken || b;
      }
    }

    /** `_find`: the first root on the path, extra roots before those of the bricks, with a match
    for the name; a `resource:` prefix is ignored. */
    method Find(name: string, brickRoots: seq<Root>, matches: (Root, string) -> bool) returns (r: Option<Root>)
      ensures
        var roots, n := extraRoots + brickRoots, WithoutPrefix(name);
        && (r.None? <==> forall i :: 0 <= i < |roots| ==> !matches(roots[i], n))
        && (r.Some? ==> exists i :: 0 <= i < |roots| && roots[i] == r.value && matches(roots[i], n)
                                    && forall j :: 0 <= j < i ==> !matches(roots[j], n))
    {
      var roots, n := extraRoots + brickRoots, WithoutPrefix(name);
      for i := 0 to |roots|
        invariant forall j :: 0 <= j < i ==> !matches(roots[j], n)
      {
        if matches(roots[i], n) {
          return Some(roots[i]);
        }
      }
      return None;
    }
  }

  // ---- what a program leaves behind ------------------------------------------------------

  predicate Unique(roots: seq<Root>)
  {
    forall i, j :: 0 <= i < j < |roots| ==> roots[i] != roots[j]
  }

  /** The list after these additions, one after the other. */
  function Grown(roots: seq<Root>, adds: seq<Root>): seq<Root>
  {
    if adds == [] then roots else Added(Grown(roots, adds[..|adds| - 1]), adds[|adds| - 1])
  }

  function Without(adds: seq<Root>, root: Root): seq<Root>
  {
    if adds == [] then []
    else
      Without(adds[..|adds| - 1], root) + (if adds[|adds| - 1] == root then [] else [adds[|adds| - 1]])
  }

  predicate Raises(p: Program)
  {
    match p
    case Done => false
    case Raise => true
    case Add(_, next) => Raises(next)
    case Block(_, body, next) => Raises(body) || Raises(next)
    case Catch(_, next) => Raises(next)
  }

  /** Every addition the program makes, in order. */
  function Adds(p: Program): seq<Root>
  {
    match p
    case Done => []
    case Raise => []
    case Add(root, next) => [root] + Adds(next)
    case Block(_, body, next) => Adds(body) + (if Raises(body) then [] else Adds(next))
    case Catch(body, next) => Adds(body) + Adds(next)
  }

  /** The additions that outlive the program: those not made inside a block for the same root. */
  function Surviving(p: Program): seq<Root>
  {
    match p
    case Done => []
    case Raise => []
    case Add(root, next) => [root] + Surviving(next)
    case Block(root, body, next) => Without(Surviving(body), root) + (if Raises(body) then [] else Surviving(next))
    case Catch(body, next) => Surviving(body) + Surviving(next)
  }

  lemma {:induction false} GrownAppend(roots: seq<Root>, a: seq<Root>, b: seq<Root>)
    ensures Grown(roots, a + b) == Grown(Grown(roots, a), b)
    decreases |b|
  {
    if b == [] {
      assert a + b == a;
    } else {
      assert (a + b)[..|a + b| - 1] == a + b[..|b| - 1];
      GrownAppend(roots, a, b[..|b| - 1]);
    }
  }

  lemma {:induction false} GrownHolds(roots: seq<Root>, adds: seq<Root>)
    requires Unique(roots)
    ensures Unique(Grown(roots, adds)) && roots <= Grown(roots, adds)
    ensures forall x :: x in Grown(roots, adds) <==> x in roots || x in adds
    decreases |adds|
  {
    if adds != [] {
      GrownHolds(roots, adds[..|adds| - 1]);
      assert adds == adds[..|adds| - 1] + [adds[|adds| - 1]];
    }
  }

  lemma {:induction false} RemovedAfter(roots: seq<Root>, root: Root, more: seq<Root>)
    requires root !in roots
    ensures Removed(roots + [root] + more, root) == roots + more
    decreases |roots|
  {
    var all := roots + [root] + more;
    if roots == [] {
      assert all[1..] == more;
    } else {
      assert all[1..] == roots[1..] + [root] + more;
      RemovedAfter(roots[1..], root, more);
    }
  }

  /** A root opened by a block only hides additions of itself. */
  lemma {:induction false} GrownAround(roots: seq<Root>, root: Root, adds: seq<Root>)
    requires Unique(roots)
    ensures root in roots ==> Grown(roots, Without(adds, root)) == Grown(roots, adds)
    ensures root !in roots ==>
      && root in Grown(roots + [root], adds)
      && Removed(Grown(roots + [root], adds), root) == Grown(roots, Without(adds, root))
    decreases |adds|
  {
    if root !in roots {
      var more := OpenedGrows(roots, root, adds);
      RemovedAfter(roots, root, more);
    } else if adds != [] {
      var front, last := adds[..|adds| - 1], adds[|adds| - 1];
      GrownAround(roots, root, front);
      GrownHolds(roots, front);
      if last != root {
        assert Without(adds, root)[..|Without(front, root)|] == Without(front, root);
      } else {
        assert Without(adds, root) == Without(front, root);
      }
    }
  }

  lemma AddedAfter(roots: seq<Root>, more: seq<Root>, last: Root)
    ensures Added(roots + more, last) == roots + (if last in roots || last in more then more else more + [last])
  {
  }

  /** With and without the root opened, the list grows by the same additions of other roots. */
  lemma {:induction false} OpenedGrows(roots: seq<Root>, root: Root, adds: seq<Root>) returns (more: seq<Root>)
    requires root !in roots
    ensures Grown(roots + [root], adds) == roots + [root] + more
    ensures Grown(roots, Without(adds, root)) == roots + more
    ensures root !in more
    decreases |adds|
  {
    if adds == [] {
      more := [];
      assert roots + [] == roots;
    } else {
      var front, last := adds[..|adds| - 1], adds[|adds| - 1];
      more := OpenedGrows(roots, root, front);
      var kept := Without(front, root);
      AddedAfter(roots + [root], more, last);
      if last == root {
        assert Without(adds, root) == kept;
      } else {
        assert Without(adds, root) == kept + [last] && (kept + [last])[..|kept|] == kept;
        AddedAfter(roots, more, last);
        more := if last in roots || last in more then more else more + [last];
      }
    }
  }

  /** Every program leaves the list as if it had made its surviving additions and nothing else:
  blocks leave no trace, and `remove` never fails. */
  lemma {:induction false} ProgramGrowsPath(p: Program, roots: seq<Root>)
    requires Unique(roots)
    ensures Execute(p, roots) == Outcome(Grown(roots, Surviving(p)), Raises(p), false)
    decreases p
  {
    match p
    case Done =>
    case Raise =>
    case Add(root, next) =>
      assert Unique(Added(roots, root));
      ProgramGrowsPath(next, Added(roots, root));
      assert [root][..0] == [];
      assert Grown(roots, [root]) == Added(roots, root);
      GrownAppend(roots, [root], Surviving(next));
    case Block(root, body, next) =>
      ProgramGrowsPath(body, Added(roots, root));
      GrownAround(roots, root, Surviving(body));
      var kept := Without(Surviving(body), root);
      GrownHolds(roots, kept);
      assert kept + [] == kept;
      if !Raises(body) {
        ProgramGrowsPath(next, Grown(roots, kept));
        GrownAppend(roots, kept, Surviving(next));
      }
    case Catch(body, next) =>
      ProgramGrowsPath(body, roots);
      GrownHolds(roots, Surviving(body));
      ProgramGrowsPath(next, Grown(roots, Surviving(body)));
      GrownAppend(roots, Surviving(body), Surviving(next));
  }

  /** The list stays free of duplicates, and what was on it stays, in its place. */
  lemma PathStaysUnique(p: Program, roots: seq<Root>)
    requires Unique(roots)
    ensures Unique(Execute(p, roots).roots) && roots <= Execute(p, roots).roots
  {
    ProgramGrowsPath(p, roots);
    GrownHolds(roots, Surviving(p));
  }

  /** No addition names a root that an enclosing block has opened. */
  predicate Unshadowed(p: Program, open: set<Root>)
  {
    match p
    case Done => true
    case Raise => true
    case Add(root, next) => root !in open && Unshadowed(next, open)
    case Block(root, body, next) => Unshadowed(body, open + {root}) && Unshadowed(next, open)
    case Catch(body, next) => Unshadowed(body, open) && Unshadowed(next, open)
  }

  lemma {:induction false} WithoutAbsent(adds: seq<Root>, root: Root)
    requires root !in adds
    ensures Without(adds, root) == adds
    decreases |adds|
  {
    if adds != [] {
      WithoutAbsent(adds[..|adds| - 1], root);
    }
  }

  lemma {:induction false} UnshadowedSurvive(p: Program, open: set<Root>)
    requires Unshadowed(p, open)
    ensures Surviving(p) == Adds(p) && forall x :: x in Surviving(p) ==> x !in open
  {
    match p
    case Done =>
    case Raise =>
    case Add(_, next) => UnshadowedSurvive(next, open);
    case Block(root, body, next) =>
      UnshadowedSurvive(body, open + {root});
      WithoutAbsent(Surviving(body), root);
      UnshadowedSurvive(next, open);
    case Catch(body, next) =>
      UnshadowedSurvive(body, open);
      UnshadowedSurvive(next, open);
  }

  /** Where no addition is shadowed, the list ends as the initial one with every added root that
  is new, in order. */
  lemma UnshadowedKeepsAdds(p: Program, roots: seq<Root>)
    requires Unique(roots) && Unshadowed(p, {})
    ensures Execute(p, roots).roots == Grown(roots, Adds(p))
  {
    ProgramGrowsPath(p, roots);
    UnshadowedSurvive(p, {});
  }

  /** A root is on the path in the end exactly when it was at the start or some addition of it
  survives. */
  lemma OnPathAfter(p: Program, roots: seq<Root>, x: Root)
    requires Unique(roots)
    ensures x in Execute(p, roots).roots <==> x in roots || x in Surviving(p)
  {
    ProgramGrowsPath(p, roots);
    GrownHolds(roots, Surviving(p));
  }

  /** An addition inside a block for the same root is lost with the block. */
  lemma ShadowedAddIsLost(root: Root)
    ensures
      var p := Block(root, Add(root, Done), Done);
      Adds(p) == [root] && Execute(p, []).roots == []
  {
    var p := Block(root, Add(root, Done), Done);
    assert Adds(Add(root, Done)) == [root];
    assert Surviving(Add(root, Done)) == [root];
    assert [root][..0] == [];
    assert Without([root], root) == [];
    ProgramGrowsPath(p, []);
  }
}
