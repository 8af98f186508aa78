/** Choosing what to start: the requested components and all they depend on. */
module Selection {
  import opened Values
  import opened References
  import opened Graphs
  import opened Definitions
  import opened RequiredConfig

  /** The components one request names. */
  function Matches(request: Request, g: Graph): set<Id>
  {
    match request
    case Group(name) => set c | c in g && c.group == name
    case One(id) => {id}
  }

  predicate Matched(request: Request, g: Graph)
  {
    Matches(request, g) != {} && Matches(request, g) <= g.Keys
  }

  /** A pair asks for a component among `nodes`; a string for a group that has one among them. */
  predicate Denotes(request: Request, nodes: set<Id>)
  {
    match request
    case Group(name) => exists c :: c in nodes && c.group == name
    case One(id) => id in nodes
  }

  /** A request is taken exactly when it asks for something that is there. */
  lemma MatchedDenotes(request: Request, g: Graph)
    ensures Matched(request, g) <==> Denotes(request, g.Keys)
  {
    if request.Group? && Denotes(request, g.Keys) {
      var c :| c in g.Keys && c.group == request.name;
      assert c in Matches(request, g);
    }
    if request.Group? && Matched(request, g) {
      var c :| c in Matches(request, g);
    }
  }

  /** The error is the one raised for the first request that matches nothing. */
  ghost predicate FirstUnmatched(error: DefinitionError, requests: seq<Request>, g: Graph)
  {
    exists i ::
      && 0 <= i < |requests| && !Matched(requests[i], g) && error == NoMatch(requests[i])
      && forall j :: 0 <= j < i ==> Matched(requests[j], g)
  }

  function Seeds(requests: seq<Request>, g: Graph): set<Id>
  {
    if requests == [] then {}
    else Seeds(requests[..|requests| - 1], g) + Matches(requests[|requests| - 1], g)
  }

  /** What the seeds are, or depend on directly or through others. */
  ghost function ReachableFrom(seeds: set<Id>, g: Graph): set<Id>
  {
    set n | n in g && exists s :: s in seeds && Reaches(g, s, n)
  }

  /** The least dependency-closed set with the seeds in it. */
  lemma ReachableIsLeast(seeds: set<Id>, g: Graph, nodes: set<Id>)
    requires Closed(g) && seeds <= g.Keys
    ensures seeds <= ReachableFrom(seeds, g) && ClosedSet(g, ReachableFrom(seeds, g))
    ensures seeds <= nodes && ClosedSet(g, nodes) ==> ReachableFrom(seeds, g) <= nodes
  {
    var r := ReachableFrom(seeds, g);
    forall s | s in seeds ensures s in r {
      ReachesItself(g, s);
    }
    forall n, d | n in r && n in g && d in g[n] ensures d in r {
      var s :| s in seeds && Reaches(g, s, n);
      ReachesStep(g, s, n, d);
    }
    if seeds <= nodes && ClosedSet(g, nodes) {
      forall n | n in r ensures n in nodes {
        var s :| s in seeds && Reaches(g, s, n);
        ReachableStaysInClosedSet(g, nodes, s, n);
      }
    }
  }

  /** The members of a set, in whatever order Python iterates over it. */
  method Enumerate(s: set<Id>) returns (q: seq<Id>)
    ensures Members(q) == s && NoDuplicates(q)
  {
    q := [];
    var left := s;
    while left != {}
      invariant left <= s && Members(q) == s - left && NoDuplicates(q)
    {
      var x :| x in left;
      MembersAppend(q, [x]);
      q := q + [x];
      left := left - {x};
    }
  }

  /** Half-way through a selection: the seeds are selected or pending, so is whatever a selected
  node depends on, and neither goes beyond `limit`. */
  ghost predicate Pursuing(g: Graph, seeds: set<Id>, limit: set<Id>, selected: set<Id>, pending: set<Id>)
  {
    && seeds <= selected + pending
    && selected + pending <= limit
    && forall n :: n in selected && n in g ==> g[n] <= selected + pending
  }

  lemma PursueOne(g: Graph, seeds: set<Id>, limit: set<Id>, selected: set<Id>, pending: set<Id>, cid: Id)
    requires ClosedSet(g, limit) && cid in g && Pursuing(g, seeds, limit, selected, pending + {cid})
    ensures Pursuing(g, seeds, limit, selected + {cid}, pending + g[cid])
  {
    assert cid in selected + (pending + {cid});
    forall n | n in selected + {cid} && n in g
      ensures g[n] <= selected + {cid} + (pending + g[cid])
    {
      if n in selected {
        assert g[n] <= selected + (pending + {cid});
      }
    }
  }

  lemma PursueAgain(g: Graph, seeds: set<Id>, limit: set<Id>, selected: set<Id>, pending: set<Id>, cid: Id)
    requires cid in selected && Pursuing(g, seeds, limit, selected, pending + {cid})
    ensures Pursuing(g, seeds, limit, selected, pending)
  {
    assert selected + (pending + {cid}) == selected + pending;
  }

  /** The worklist of `_select`. The list may hold a component many times over; the set of
  selected components grows each time one is met that is not in it yet. */
  method CloseOver(seeds: seq<Id>, g: Graph) returns (selected: set<Id>)
    requires Closed(g) && Members(seeds) <= g.Keys
    ensures selected == ReachableFrom(Members(seeds), g)
  {
    ghost var limit := ReachableFrom(Members(seeds), g);
    ReachableIsLeast(Members(seeds), g, {});
    assert limit <= g.Keys;
    var pending := seeds;
    selected := {};
    while pending != []
      invariant Pursuing(g, Members(seeds), limit, selected, Members(pending))
      decreases limit - selected, |pending|
    {
      var cid := pending[|pending| - 1];
      MembersPop(pending);
      pending := pending[..|pending| - 1];
      assert cid in limit;
      if cid in selected {
        PursueAgain(g, Members(seeds), limit, selected, Members(pending), cid);
      } else {
        PursueOne(g, Members(seeds), limit, selected, Members(pending), cid);
        selected := selected + {cid};
        var deps := Enumerate(g[cid]);
        MembersAppend(pending, deps);
        pending := pending + deps;
      }
    }
    ReachableIsLeast(Members(seeds), g, selected);
  }

  /** `_select`. */
  method Select(requests: seq<Request>, g: Graph) returns (r: Result<set<Id>, DefinitionError>)
    requires Closed(g)
    ensures r.Ok? <==> forall i :: 0 <= i < |requests| ==> Denotes(requests[i], g.Keys)
    ensures r.Ok? <==> forall i :: 0 <= i < |requests| ==> Matched(requests[i], g)
    ensures r.Ok? ==> r.value == ReachableFrom(Seeds(requests, g), g)
    ensures r.Err? ==> FirstUnmatched(r.error, requests, g)
  {
    forall i | 0 <= i < |requests| ensures Matched(requests[i], g) <==> Denotes(requests[i], g.Keys) {
      MatchedDenotes(requests[i], g);
    }
    var pending: seq<Id> := [];
    for i := 0 to |requests|
      invariant forall j :: 0 <= j < i ==> Matched(requests[j], g)
      invariant Members(pending) == Seeds(requests[..i], g) <= g.Keys
    {
      if !Matched(requests[i], g) {
        return Err(NoMatch(requests[i]));
      }
      var matches := Enumerate(Matches(requests[i], g));
      assert requests[..i + 1][..i] == requests[..i];
      MembersAppend(pending, matches);
      pending := pending + matches;
    }
    assert requests[..|requests|] == requests;
    var selected := CloseOver(pending, g);
    return Ok(selected);
  }

  lemma MembersPop(p: seq<Id>)
    requires p != []
    ensures Members(p) == Members(p[..|p| - 1]) + {p[|p| - 1]}
  {
    assert p == p[..|p| - 1] + [p[|p| - 1]];
  }

  lemma MembersAppend(p: seq<Id>, q: seq<Id>)
    ensures Members(p + q) == Members(p) + Members(q)
  {
  }

  // ---- required config -------------------------------------------------------------------

  /** Every required slot left unfilled in the selected components. */
  function MissingSlots(components: Components, selected: set<Id>): set<(Id, seq<string>)>
  {
    set id, p | id in selected && id in components && p in RequiredPaths(components[id].config, []) :: (id, p)
  }

  /** `<` on strings, which compares code points. */
  predicate TextBefore(s: string, t: string)
  {
    t != "" && (s == "" || s[0] < t[0] || (s[0] == t[0] && TextBefore(s[1..], t[1..])))
  }

  /** `<` on component ids. */
  predicate Before(a: Id, b: Id)
  {
    TextBefore(a.group, b.group) || (a.group == b.group && TextBefore(a.name, b.name))
  }

  lemma {:induction false} TextsAreOrdered(s: string, t: string, u: string)
    ensures TextBefore(s, t) || s == t || TextBefore(t, s)
    ensures !TextBefore(s, s)
    ensures TextBefore(s, t) && TextBefore(t, u) ==> TextBefore(s, u)
    decreases |s|
  {
    if s != "" && t != "" && s[0] == t[0] {
      TextsAreOrdered(s[1..], t[1..], if u == "" then "" else u[1..]);
      assert s == [s[0]] + s[1..] && t == [t[0]] + t[1..];
    } else if s != "" {
      TextsAreOrdered(s[1..], "", "");
    }
  }

  /** The strings agree up to `n`, where the first one ends or has the smaller character. */
  predicate LessAt(s: string, t: string, n: nat)
  {
    && n <= |s| && n < |t| && s[..n] == t[..n]
    && (n < |s| ==> s[n] < t[n])
  }

  lemma SameHead(s: string, t: string, n: nat)
    requires LessAt(s, t, n) && n > 0
    ensures s[0] == t[0]
  {
    assert s[..n][0] == t[..n][0];
  }

  /** `<` on strings looks at the first place where they differ. */
  lemma {:induction false} TextBeforeIsLess(s: string, t: string)
    ensures TextBefore(s, t) <==> exists n: nat :: LessAt(s, t, n)
    decreases |s|
  {
    if s == "" {
      assert t != "" ==> LessAt(s, t, 0);
    } else if t != "" && s[0] == t[0] {
      TextBeforeIsLess(s[1..], t[1..]);
      forall n: nat | LessAt(s[1..], t[1..], n) ensures LessAt(s, t, n + 1) {
        assert s[..n + 1] == [s[0]] + s[1..][..n] && t[..n + 1] == [t[0]] + t[1..][..n];
      }
      forall n: nat | LessAt(s, t, n) ensures n > 0 && LessAt(s[1..], t[1..], n - 1) {
        assert s[1..][..n - 1] == s[..n][1..] && t[1..][..n - 1] == t[..n][1..];
      }
    } else if t != "" {
      assert s[0] < t[0] ==> LessAt(s, t, 0);
      forall n: nat | LessAt(s, t, n) ensures n == 0 {
        if n > 0 {
          SameHead(s, t, n);
        }
      }
    }
  }

  /** Ids are ordered by group and, within a group, by name. */
  lemma IdsAreOrdered(a: Id, b: Id, c: Id)
    ensures TextBefore(a.group, b.group) ==> Before(a, b)
    ensures a.group == b.group ==> (Before(a, b) <==> TextBefore(a.name, b.name))
    ensures Before(a, b) || a == b || Before(b, a)
    ensures !Before(a, a)
    ensures Before(a, b) && Before(b, c) ==> Before(a, c)
  {
    TextsAreOrdered(a.group, b.group, c.group);
    TextsAreOrdered(a.name, b.name, c.name);
  }

  predicate IsLeast(id: Id, ids: set<Id>)
  {
    id in ids && forall other :: other in ids ==> other == id || Before(id, other)
  }

  lemma {:induction false} LeastExists(ids: set<Id>) returns (least: Id)
    requires ids != {}
    ensures IsLeast(least, ids)
    decreases ids
  {
    var first :| first in ids;
    var rest := ids - {first};
    assert ids == rest + {first};
    if rest == {} {
      least := first;
    } else {
      var other := LeastExists(rest);
      least := if Before(other, first) then other else first;
      forall third | third in ids ensures third == least || Before(least, third) {
        IdsAreOrdered(first, other, third);
      }
    }
  }

  predicate InOrder(ids: seq<Id>)
  {
    forall i, j :: 0 <= i < j < |ids| ==> Before(ids[i], ids[j])
  }

  /** The slots left unfilled in these components, component by component. */
  function SlotsOf(components: Components, ids: seq<Id>): seq<(Id, seq<string>)>
    requires Members(ids) <= components.Keys
  {
    if ids == [] then []
    else
      var front, last := ids[..|ids| - 1], ids[|ids| - 1];
      MembersPop(ids);
      SlotsOf(components, front) + Slots(last, RequiredPaths(components[last].config, []))
  }

  function Slots(id: Id, paths: seq<seq<string>>): seq<(Id, seq<string>)>
  {
    seq(|paths|, i requires 0 <= i < |paths| => (id, paths[i]))
  }

  lemma {:induction false} SlotsAreMissing(components: Components, ids: seq<Id>, id: Id, p: seq<string>)
    requires Members(ids) <= components.Keys
    ensures (id, p) in SlotsOf(components, ids) <==> id in ids && p in RequiredPaths(components[id].config, [])
    decreases |ids|
  {
    if ids != [] {
      var front, last := ids[..|ids| - 1], ids[|ids| - 1];
      MembersPop(ids);
      SlotsAreMissing(components, front, id, p);
      SlotAmong(last, RequiredPaths(components[last].config, []), id, p);
      assert id in ids <==> id in Members(ids);
      assert id in front <==> id in Members(front);
    }
  }

  lemma SlotAmong(owner: Id, paths: seq<seq<string>>, id: Id, p: seq<string>)
    ensures (id, p) in Slots(owner, paths) <==> id == owner && p in paths
  {
    if id == owner && p in paths {
      var i :| 0 <= i < |paths| && paths[i] == p;
      assert Slots(owner, paths)[i] == (id, p);
    }
  }

  /** The error lists every missing slot, by component in order, and for each in its config's order. */
  ghost predicate ListsMissing(error: DefinitionError, components: Components, selected: set<Id>)
  {
    exists ids: seq<Id> ::
      InOrder(ids) && Members(ids) == selected <= components.Keys && error == MissingRequired(SlotsOf(components, ids))
  }

  /** The paths listed under one component. */
  function PathsOf(slots: seq<(Id, seq<string>)>, id: Id): seq<seq<string>>
  {
    if slots == [] then []
    else
      PathsOf(slots[..|slots| - 1], id) + (if slots[|slots| - 1].0 == id then [slots[|slots| - 1].1] else [])
  }

  lemma {:induction false} PathsOfSlots(front: seq<(Id, seq<string>)>, owner: Id, paths: seq<seq<string>>, id: Id)
    ensures PathsOf(front + Slots(owner, paths), id) == PathsOf(front, id) + (if owner == id then paths else [])
    decreases |paths|
  {
    var all := front + Slots(owner, paths);
    if paths == [] {
      assert all == front;
    } else {
      var rest := paths[..|paths| - 1];
      assert all[..|all| - 1] == front + Slots(owner, rest);
      PathsOfSlots(front, owner, rest, id);
      assert paths == rest + [paths[|rest|]];
    }
  }

  lemma {:induction false} SlotsPerComponent(components: Components, ids: seq<Id>, id: Id)
    requires Members(ids) <= components.Keys && InOrder(ids)
    ensures PathsOf(SlotsOf(components, ids), id)
         == if id in ids then RequiredPaths(components[id].config, []) else []
    decreases |ids|
  {
    if ids != [] {
      var front, last := ids[..|ids| - 1], ids[|ids| - 1];
      WithoutLast(ids);
      SlotsPerComponent(components, front, id);
      PathsOfSlots(SlotsOf(components, front), last, RequiredPaths(components[last].config, []), id);
      assert id in ids <==> id in Members(ids);
      assert id in front <==> id in Members(front);
    }
  }

  lemma {:induction false} SlotsByComponent(components: Components, ids: seq<Id>, i: nat, j: nat)
    requires Members(ids) <= components.Keys && InOrder(ids) && i < j < |SlotsOf(components, ids)|
    ensures
      var slots := SlotsOf(components, ids);
      slots[i].0 == slots[j].0 || Before(slots[i].0, slots[j].0)
    decreases |ids|
  {
    var front, last := ids[..|ids| - 1], ids[|ids| - 1];
    WithoutLast(ids);
    var slots := SlotsOf(components, front);
    if j < |slots| {
      SlotsByComponent(components, front, i, j);
    } else if i < |slots| {
      SlotsAreMissing(components, front, slots[i].0, slots[i].1);
      assert slots[i] == (slots[i].0, slots[i].1);
      var k :| 0 <= k < |front| && front[k] == slots[i].0;
      assert ids[k] == front[k];
    }
  }

  /** The list goes by component, in the order of their ids, and has for each of them the paths of
  its config in the order in which they are found. */
  lemma MissingInOrder(error: DefinitionError, components: Components, selected: set<Id>)
    requires ListsMissing(error, components, selected)
    ensures forall i, j :: 0 <= i < j < |error.missing| ==>
      error.missing[i].0 == error.missing[j].0 || Before(error.missing[i].0, error.missing[j].0)
    ensures forall id :: id in selected ==>
      id in components && PathsOf(error.missing, id) == RequiredPaths(components[id].config, [])
  {
    var ids: seq<Id> :| InOrder(ids) && Members(ids) == selected && error == MissingRequired(SlotsOf(components, ids));
    forall i, j | 0 <= i < j < |error.missing|
      ensures error.missing[i].0 == error.missing[j].0 || Before(error.missing[i].0, error.missing[j].0)
    {
      SlotsByComponent(components, ids, i, j);
    }
    forall id | id in selected ensures PathsOf(error.missing, id) == RequiredPaths(components[id].config, []) {
      SlotsPerComponent(components, ids, id);
      assert id in Members(ids);
    }
  }

  /** So the list is fixed by what is missing. */
  lemma ListsMissingOnce(e: DefinitionError, f: DefinitionError, components: Components, selected: set<Id>)
    requires ListsMissing(e, components, selected) && ListsMissing(f, components, selected)
    ensures e == f
  {
    var a: seq<Id> :| InOrder(a) && Members(a) == selected && e == MissingRequired(SlotsOf(components, a));
    var b: seq<Id> :| InOrder(b) && Members(b) == selected && f == MissingRequired(SlotsOf(components, b));
    OneOrder(a, b);
  }

  lemma {:induction false} OneOrder(a: seq<Id>, b: seq<Id>)
    requires InOrder(a) && InOrder(b) && Members(a) == Members(b)
    ensures a == b
    decreases |a|
  {
    BothEmpty(a, b);
    if a != [] {
      SameLast(a, b);
      WithoutLast(a);
      WithoutLast(b);
      OneOrder(a[..|a| - 1], b[..|b| - 1]);
    }
  }

  lemma BothEmpty(a: seq<Id>, b: seq<Id>)
    requires Members(a) == Members(b)
    ensures a == [] <==> b == []
  {
    if a != [] {
      assert a[0] in Members(b);
    }
    if b != [] {
      assert b[0] in Members(a);
    }
  }

  lemma WithoutLast(a: seq<Id>)
    requires InOrder(a) && a != []
    ensures InOrder(a[..|a| - 1]) && Members(a[..|a| - 1]) == Members(a) - {a[|a| - 1]}
    ensures a == a[..|a| - 1] + [a[|a| - 1]]
  {
    MembersPop(a);
    forall i | 0 <= i < |a| - 1 ensures a[i] != a[|a| - 1] {
      IdsAreOrdered(a[i], a[|a| - 1], a[i]);
    }
  }

  lemma SameLast(a: seq<Id>, b: seq<Id>)
    requires InOrder(a) && InOrder(b) && Members(a) == Members(b) && a != [] && b != []
    ensures a[|a| - 1] == b[|b| - 1]
  {
    var x, y := a[|a| - 1], b[|b| - 1];
    assert x in Members(b) && y in Members(a);
    var i :| 0 <= i < |b| && b[i] == x;
    var j :| 0 <= j < |a| && a[j] == y;
    IdsAreOrdered(x, y, x);
  }

  predicate AllBefore(order: seq<Id>, left: set<Id>)
  {
    forall a, b :: a in order && b in left ==> Before(a, b)
  }

  lemma LeastGoesNext(order: seq<Id>, left: set<Id>, id: Id)
    requires InOrder(order) && AllBefore(order, left) && IsLeast(id, left)
    ensures InOrder(order + [id]) && AllBefore(order + [id], left - {id})
  {
    forall a, b | a in order + [id] && b in left - {id} ensures Before(a, b) {
      if a !in order {
        assert a == id;
      }
    }
  }

  /** `sorted`, on ids that are all different. */
  method Sorted(ids: set<Id>) returns (order: seq<Id>)
    ensures InOrder(order) && Members(order) == ids
  {
    order := [];
    var left := ids;
    while left != {}
      invariant left <= ids && Members(order) == ids - left && InOrder(order)
      invariant AllBefore(order, left)
      decreases left
    {
      ghost var least := LeastExists(left);
      var id :| id in left && IsLeast(id, left);
      MembersAppend(order, [id]);
      LeastGoesNext(order, left, id);
      order := order + [id];
      left := left - {id};
    }
  }

  /** `_check_required`: all the missing slots are reported together, or there are none. */
  method CheckRequired(components: Components, selected: set<Id>) returns (r: Option<DefinitionError>)
    requires selected <= components.Keys
    ensures r.None? <==> MissingSlots(components, selected) == {}
    ensures r.Some? ==> ListsMissing(r.value, components, selected)
  {
    var ids := Sorted(selected);
    var missing: seq<(Id, seq<string>)> := [];
    for i := 0 to |ids|
      invariant Members(ids[..i]) <= components.Keys && missing == SlotsOf(components, ids[..i])
    {
      assert ids[i] in Members(ids) && ids[..i + 1] == ids[..i] + [ids[i]] && ids[..i + 1][..i] == ids[..i];
      MembersAppend(ids[..i], [ids[i]]);
      missing := missing + Slots(ids[i], RequiredPaths(components[ids[i]].config, []));
    }
    assert ids[..|ids|] == ids;
    MissingAreListed(components, ids);
    return if missing == [] then None else Some(MissingRequired(missing));
  }

  lemma MissingAreListed(components: Components, ids: seq<Id>)
    requires Members(ids) <= components.Keys
    ensures SlotsOf(components, ids) == [] <==> MissingSlots(components, Members(ids)) == {}
  {
    if SlotsOf(components, ids) != [] {
      var slot := SlotsOf(components, ids)[0];
      SlotsAreMissing(components, ids, slot.0, slot.1);
      assert slot.0 in Members(ids);
      assert slot in MissingSlots(components, Members(ids));
    }
    if MissingSlots(components, Members(ids)) != {} {
      var slot :| slot in MissingSlots(components, Members(ids));
      SlotsAreMissing(components, ids, slot.0, slot.1);
      assert slot in SlotsOf(components, ids);
    }
  }
}
