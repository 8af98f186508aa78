/** Components, the definitions they make up, and the dependency graph read off their configs. */
module Definitions {
  import opened Values
  import opened Merge
  import opened References
  import opened Graphs

  /** The argument of a `start` or a `stop`; the instance is null in a `start`. */
  datatype Ctx = Ctx(id: Id, config: Value, instance: Value)

  /** Everything the lifecycle does that can be seen from outside, with what came of it.
  `Recorded` is the moment a started component enters `configs` and `instances`. */
  datatype Event =
    | Validated(id: Id, config: Value, outcome: Result<Value, Exn>)
    | StartCalled(ctx: Ctx, outcome: Result<Value, Exn>)
    | Recorded(id: Id, config: Value, instance: Value)
    | StopCalled(ctx: Ctx, failure: Option<Exn>)

  type History = seq<Event>

  /** A component. Its callbacks are adversaries: the outcome of each call may depend on all that
  has happened so far, so a component may succeed once and fail the next time. */
  datatype Component = Component(
    start: (History, Ctx) -> Result<Value, Exn>,
    stop: Option<(History, Ctx) -> Option<Exn>>,
    config: Value,
    configSchema: Option<(History, Value) -> Result<Value, Exn>>,
    instanceSchema: Option<Value -> bool>)

  type Defs = map<string, map<string, Component>>

  type Components = map<Id, Component>

  datatype DefinitionError =
    | UnknownKind(kind: string)
    | ShortReference(path: seq<string>)
    | Undefined(from: Id, target: Id)
    | NoMatch(request: Request)
    | MissingRequired(missing: seq<(Id, seq<string>)>)
    | Cycle

  /** One of the ids `start` is asked for: a group, or a component. */
  datatype Request = Group(name: string) | One(id: Id)

  /** The two-level definitions as one map. */
  function Flatten(defs: Defs): Components
  {
    map id | id in (set group, name | group in defs && name in defs[group] :: Id(group, name)) ::
      defs[id.group][id.name]
  }

  lemma FlattenAt(defs: Defs, id: Id)
    ensures id in Flatten(defs) <==> id.group in defs && id.name in defs[id.group]
    ensures id in Flatten(defs) ==> Flatten(defs)[id] == defs[id.group][id.name]
  {
    if id.group in defs && id.name in defs[id.group] {
      assert id == Id(id.group, id.name);
    }
  }

  /** `constant`: the instance is the config, refs resolved. */
  function Constant(value: Value): Component
  {
    Component((h: History, ctx: Ctx) => Ok(ctx.config), None, value, None, None)
  }

  datatype Declared = Built(component: Component) | Plain(value: Value)

  /** `_component`. */
  function ComponentOf(declared: Declared, registry: map<string, Component>): Result<Component, DefinitionError>
  {
    match declared
    case Built(c) => Ok(c)
    case Plain(ComponentDef(kind, config)) =>
      if kind !in registry then Err(UnknownKind(kind))
      else Ok(registry[kind].(config := DeepMerge(registry[kind].config, config)))
    case Plain(value) => Ok(Constant(value))
  }

  /** A declaration of a registered kind keeps all of its component but the config, which is merged
  from the defaults and the overrides; that of an unknown kind is an error; anything else plain
  is a constant. */
  lemma DeclaredKeepsKind(kind: string, config: Value, registry: map<string, Component>)
    ensures
      var r := ComponentOf(Plain(ComponentDef(kind, config)), registry);
      && (kind !in registry ==> r == Err(UnknownKind(kind)))
      && (kind in registry ==>
            && r.Ok? && r.value.config == DeepMerge(registry[kind].config, config)
            && r.value.start == registry[kind].start && r.value.stop == registry[kind].stop
            && r.value.configSchema == registry[kind].configSchema
            && r.value.instanceSchema == registry[kind].instanceSchema)
    ensures forall c :: ComponentOf(Built(c), registry) == Ok(c)
  {
  }

  /** Every component with the components its config refers to. */
  function DependencyGraph(components: Components): Graph
  {
    map id | id in components :: Targets(components[id].config, id.group)
  }

  predicate AllResolvable(config: Value, group: string, defined: set<Id>)
  {
    forall ref :: ref in Refs(config) ==> Resolvable(ref, group, defined)
  }

  predicate NoDangling(components: Components)
  {
    forall id :: id in components ==> AllResolvable(components[id].config, id.group, components.Keys)
  }

  /** The error `_dependencies` raises for a reference it rejects. */
  function Rejection(id: Id, ref: Reference): DefinitionError
  {
    match TargetOf(ref, id.group)
    case Ok(target) => Undefined(id, target.id)
    case Err(path) => ShortReference(path)
  }

  /** The error is the one raised for the first reference of the config to be rejected. */
  ghost predicate FirstRejected(error: DefinitionError, id: Id, config: Value, defined: set<Id>)
  {
    exists i ::
      && 0 <= i < |Refs(config)| && !Resolvable(Refs(config)[i], id.group, defined)
      && error == Rejection(id, Refs(config)[i])
      && forall j :: 0 <= j < i ==> Resolvable(Refs(config)[j], id.group, defined)
  }

  /** The error for a rejected reference: a path too short to name a component, or both ends of a
  reference to what is not defined. */
  lemma RejectedByName(id: Id, g: string, n: string, p: seq<string>)
    ensures Rejection(id, Ref([g, n] + p)) == Undefined(id, Id(g, n))
    ensures Rejection(id, LocalRef([n] + p)) == Undefined(id, Id(id.group, n))
    ensures Rejection(id, LocalRef([])) == ShortReference([id.group])
    ensures |p| < 2 ==> Rejection(id, Ref(p)) == ShortReference(p)
  {
    assert [id.group] + [] == [id.group];
  }

  lemma GraphIsClosed(components: Components)
    requires NoDangling(components)
    ensures Closed(DependencyGraph(components))
  {
    var g := DependencyGraph(components);
    forall n, d | n in g && d in g[n] ensures d in g {
      assert AllResolvable(components[n].config, n.group, components.Keys);
    }
  }

  /** `_dependencies`: the targets of every reference, or an error for the first one that has too
  short a path or names no component. */
  method Dependencies(id: Id, config: Value, components: Components)
    returns (r: Result<set<Id>, DefinitionError>)
    ensures r.Ok? <==> AllResolvable(config, id.group, components.Keys)
    ensures r.Ok? ==> r.value == Targets(config, id.group)
    ensures r.Ok? ==> forall d :: d in r.value <==> exists ref :: ref in Refs(config) && PointsTo(ref, id.group, d)
    ensures r.Err? ==> FirstRejected(r.error, id, config, components.Keys)
  {
    var refs := Refs(config);
    var deps: set<Id> := {};
    for i := 0 to |refs|
      invariant forall j :: 0 <= j < i ==> Resolvable(refs[j], id.group, components.Keys)
      invariant deps == set j | 0 <= j < i && TargetOf(refs[j], id.group).Ok? :: TargetOf(refs[j], id.group).value.id
    {
      if !Resolvable(refs[i], id.group, components.Keys) {
        return Err(Rejection(id, refs[i]));
      }
      deps := deps + {TargetOf(refs[i], id.group).value.id};
    }
    forall d ensures d in deps <==> exists ref :: ref in refs && PointsTo(ref, id.group, d) {
      TargetsArePointedTo(config, id.group, d);
    }
    return Ok(deps);
  }

  /** The graph `start` builds before anything else, over every component whether selected or not. */
  method BuildGraph(components: Components) returns (r: Result<Graph, DefinitionError>)
    ensures r.Ok? <==> NoDangling(components)
    ensures r.Ok? ==> r.value == DependencyGraph(components)
    ensures r.Err? ==>
      exists id :: id in components && FirstRejected(r.error, id, components[id].config, components.Keys)
  {
    var todo := components.Keys;
    var g: Graph := map[];
    while todo != {}
      invariant todo <= components.Keys && g.Keys == components.Keys - todo
      invariant forall id :: id in g ==>
        && AllResolvable(components[id].config, id.group, components.Keys)
        && g[id] == Targets(components[id].config, id.group)
    {
      var id :| id in todo;
      var deps := Dependencies(id, components[id].config, components);
      match deps {
        case Err(e) => return Err(e);
        case Ok(targets) => g := g[id := targets];
      }
      todo := todo - {id};
    }
    return Ok(g);
  }
}
