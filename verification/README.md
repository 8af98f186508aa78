# Verified model of systems as data

A Dafny 4.11 model of the parts of mono-python that decide what a system is and when each of its
components runs: building and merging component definitions, starting and stopping a system,
resolving tagged config for a profile, the request log, the resource path, and the development
session. `dafny verify dfyconfig.toml` checks it all.

## How the system is modelled

- **Values** (`Values`). A Python value is a datatype. A dict is a chain of entries in insertion
  order, so the first error met is the one reported. `Merge.Same` is Python's `==`, which ignores
  that order.
- **Callbacks** (`Definitions`). A component carries its `start`, `stop` and schemas as functions of
  the history so far and their arguments. Whatever a run observes, some such functions give: the
  callbacks are adversaries. `Confluence.Deterministic` says that they ignore the history. A history
  records every validation, start and stop with its outcome, and the moment a component enters
  `configs` and `instances`.
- **Loops.** `Dependencies`, `Select`, `CheckRequired`, the sort, `start`, `stop`, `_walk`, `_find`,
  `RequestLog`, the resource roots and `go`/`halt` are methods with the loops and the state that
  the source has. Those of the lifecycle compute specification functions (`Lifecycle.LaunchFrom`,
  `Lifecycle.Teardown`) about which the theorems are proved. Python's set iteration order and
  `graphlib`'s choice among ready nodes are left open by `:|`.
- **The sort.** `graphlib.TopologicalSorter` is modelled by predecessor counts. It yields an order
  or finds a cycle; that it does one exactly when it cannot do the other is proved.
- **Tagged trees** (`Parsing`, `Resolver`). Resolution is a lazy evaluator over parsed trees. The
  conversions Python provides (`str` of an object, `int`, `UUID`), the environment and the parsed
  resources belong to a `Host` that the theorems leave arbitrary.

Where the code differs from its documentation, or does what a reader of it may not expect, the model
follows the code:

- `constant` promises its value "with any refs in it resolved". References inside tuples count as
  dependencies and are never resolved. `References.ResolvedRefs` says exactly when no reference is
  left, `Chains.ConstantIsResolved` and `Chains.ConstantsAreResolved` say it of the constants of a
  started system, and `References.TupleRefStays` gives an example.
- `StartError` promises that the components started before the failing one were stopped, and they
  are. The failing component itself is left running when its start has returned and its instance
  schema then refuses the instance, and only then: `StaticChecks.FailedStartLeaves`, with an example
  in `StaticChecks.RefusedIsLeft`.
- `halt` calls every `stop` again if one failed before: `Repl.StoppedPerTry`.
- Tags inside the tuples that YAML's `!!pairs` and `!!omap` build are never resolved.
  `TagElimination.TagFreeIffUntagged` gives the exact condition, `TagElimination.PairedTagStays` an
  example.
- `add_resource_root` adds a directory with no limit in time. Inside a `resource_root` block for the
  same directory the addition is lost with the block (`ResourcePath.ShadowedAddIsLost`);
  `ResourcePath.OnPathAfter` says exactly when a root stays.
- `_deep_merge` is not associative. `Merge.MergeAssociativeIff` gives the exact condition,
  `Merge.MergeNotAssociative` an example.

## Modules

| module | what it holds |
|---|---|
| Values, Parsing | Python values; the shape of parsed trees |
| Merge, RequiredConfig, Walking | the deep merge and its laws; unfilled slots; walking by key text |
| References, Chains | references, their targets and resolution; what constants resolve to, and following paths through them |
| Graphs, Definitions, Selection | reachability, cycles and the sort; the dependency graph; `_select`, `_check_required` |
| Lifecycle | `start`, `stop`, `started` and the functions they compute |
| Safety, StaticChecks, StartResults, Confluence | theorems about every run |
| Resolver, Rewriting, ReaderLaws, BuiltIns | the tag resolver; when two trees resolve alike; single readers; what each registered tag resolves to |
| Specialise, Inline, Laziness, TagElimination | theorems about resolution |
| RequestLogging, ResourcePath, Repl | the request log, the resource path, `go` and `halt` |

## Model

| member | source | states |
|---|---|---|
| Confluence.StartIsConfluent | components/system/src/mono_bricks/system/core.py:177-206 | with deterministic callbacks, two starts of one selection in any two topological orders both succeed with the same configs and instances, or both fail |
| Confluence.StartMatchesEvaluation | components/system/src/mono_bricks/system/core.py:185-206 | a start succeeds exactly when a recursive evaluation over the dependencies gives every selected component something, and then holds just that; a failing start names a component that evaluates to nothing while its dependencies do not |
| Confluence.StartSolves | components/system/src/mono_bricks/system/core.py:187-206 | the configs and instances of a successful start are the one solution of the components' equations: resolved in the finished system, validated, started, accepted; without a solution the start fails |
| Confluence.SubsetRefinesWhole | components/system/src/mono_bricks/system/core.py:158-206 | if everything starts, any selection starts, with the whole's configs and instances restricted to what is reachable from the requested ids |
| Confluence.SubsetIsStartable | components/system/src/mono_bricks/system/core.py:164-183 | definitions that pass the static checks as a whole pass them for any valid ids |
| Confluence.SelectionStarts | components/system/src/mono_bricks/system/core.py:158-206 | of two calls of start on the same definitions, if the one without ids succeeds, the one with ids succeeds exactly when all of them match, and its system is the first one's cut down to what they need |
| Confluence.LaunchFrame | components/system/src/mono_bricks/system/core.py:189-195 | what a component launches to depends on the instances of its dependencies alone, and not on when it is launched |
| Safety.StartIsSafe | components/system/src/mono_bricks/system/core.py:185-206 | whatever the callbacks do: each start is called with all transitive dependencies recorded and not stopped; a start failing at component k has recorded the k before it, called no later start, and called each stop among those k once, in reverse, whether or not some fail, never that of k, which the error names |
| Safety.SessionIsSafe | components/system/src/mono_bricks/system/core.py:187-221 | over a whole start and stop, or a start rolled back: every start and stop is safe, every stop comes after the stops of all recorded dependents, with the config and instance recorded, and exactly the recorded components that have a stop are stopped, last first |
| Safety.TeardownIsSafe | components/system/src/mono_bricks/system/core.py:209-221 | from any point of a teardown the rest is safe and stops the remaining components in reverse |
| Safety.TeardownReports | components/system/src/mono_bricks/system/core.py:211-221 | the failures a teardown reports are exactly its failed stop calls, in order, and it starts nothing |
| Safety.LaunchFromIsSafe | components/system/src/mono_bricks/system/core.py:187-206 | the start loop keeps safety from any of its turns on |
| Lifecycle.Start | components/system/src/mono_bricks/system/core.py:158-206 | an error and no event exactly when a static check fails, the first that fails deciding the error; otherwise the outcome and history of the loop in a topological order of the selection |
| Lifecycle.Plan | components/system/src/mono_bricks/system/core.py:164-183 | an order exactly when all references resolve, all ids match, no selected slot is unfilled and the selection is acyclic; each error is that of the first check that fails, and of the first reference or id it rejects |
| Lifecycle.LaunchInOrder | components/system/src/mono_bricks/system/core.py:185-206 | the loop and its rollback compute the specification of a start in the given order |
| Lifecycle.Stop | components/system/src/mono_bricks/system/core.py:209-221 | the loop computes the specification of a teardown: failures and history |
| Lifecycle.StartedBlock | components/system/src/mono_bricks/system/core.py:224-234 | if the start succeeds, the history is that of a whole session and the reported failures those of its teardown, however the body ends |
| StartResults.FailedStart | components/system/src/mono_bricks/system/core.py:187-206 | a StartError names a selected component that failed: those before it in the order, and no others, were recorded; its cause is what its last validation or start raised, the refusal of what its start returned, or, when there was neither, the fault of its references; its note lists exactly the failed stops of the rollback, in order |
| StartResults.StartedSystem | components/system/src/mono_bricks/system/core.py:204-206 | a started system holds its definitions, its order, and for exactly the components of the order the configs and instances they were recorded with |
| StartResults.SessionIsJustified | components/system/src/mono_bricks/system/core.py:187-221 | every event of a session has its reason in what went before: a config is resolved among the instances recorded so far, validated if there is a schema, and passed to start without an instance; what is accepted is recorded; every outcome is that of the component's own callback at that moment |
| StartResults.InvalidStart | components/system/src/mono_bricks/system/core.py:164-183 | which error start raises, by what the definitions and ids name: a reference to nothing in any component, else the first id that asks for nothing, else the missing slots, else a cycle through the selection; and that then nothing has happened |
| StartResults.AllMatchedByName | components/system/src/mono_bricks/system/core.py:307-309 | the ids are taken exactly when each pair is a component and each string the group of one |
| StartResults.NoDanglingByName | components/system/src/mono_bricks/system/core.py:288-299 | the references are taken exactly when each points to a component that is there |
| StaticChecks.NoInstanceIsMissing | components/system/src/mono_bricks/system/core.py:187-190 | at every turn of the start loop every reference of the config names an instance that is there, so only a walk into an instance can fail |
| StaticChecks.StartFailsOnlyInComponents | components/system/src/mono_bricks/system/core.py:187-203 | a start never fails for want of an instance or on a malformed reference |
| StaticChecks.FailedStartLeaves | components/system/src/mono_bricks/system/core.py:193-203 | the start of the failing component has returned exactly when the instance was refused by its schema; that component, if it has a stop, is then all that a failed start leaves running, and otherwise nothing is; no instance is refused in any other run |
| StaticChecks.RefusedIsLeft | components/system/src/mono_bricks/system/core.py:193-203 | one component that has a stop and whose instance is refused is started and not stopped |
| StaticChecks.RejectedCycles | components/system/src/mono_bricks/system/core.py:177-183 | the selection is cyclic exactly when a cycle of the whole graph runs through a selected component |
| StaticChecks.RequiredBlocksStart | components/system/src/mono_bricks/system/core.py:320-326 | slots are missing exactly when some selected config has a REQUIRED left in it, and then the start is refused |
| StaticChecks.UnboundRequirementIsReported | components/system/src/mono_bricks/system/core.py:137-152 | a declared component's missing slots are its overrides' own and those of its kind's defaults that the overrides leave unbound |
| References.ResolveOnlyWalks | components/system/src/mono_bricks/system/core.py:337-345 | where every reference found statically names an instance, resolution can fail in walks only |
| References.ResolveFrame | components/system/src/mono_bricks/system/core.py:277-285 | resolution reads no instance beyond those the static pass finds |
| References.ResolvedRefs | components/system/src/mono_bricks/system/core.py:337-345 | resolution succeeds exactly when every reference outside tuples can be resolved, and leaves no reference exactly when, besides, none of those brings one in and no tuple holds one |
| References.AllRefsVisible | components/system/src/mono_bricks/system/core.py:277-285 | the dependencies of a config are the references outside its tuples exactly when no tuple holds one |
| References.ResolvesAlone | components/system/src/mono_bricks/system/core.py:337-345 | a config resolves beside no instances exactly when it has no reference outside tuples, and then to itself |
| References.TupleRefStays | components/system/src/mono_bricks/system/core.py:337-345 | a reference in a tuple is a dependency and is left unresolved |
| References.AbsoluteResolves | components/system/src/mono_bricks/system/core.py:270-274 | local references written out from the root resolve in any group to what they resolve to in their own |
| References.WalkPath | components/system/src/mono_bricks/system/core.py:348-359 | the loop computes the recursive walk |
| References.WalkAppend | components/system/src/mono_bricks/system/core.py:348-359 | walking a path in two parts is walking it in one |
| References.DerefByName | components/system/src/mono_bricks/system/core.py:270-274 | a reference to group and name comes to the walk down the rest of its path into the instance of that component; a local one takes its own group; a shorter one names nothing |
| References.TargetByName | components/system/src/mono_bricks/system/core.py:270-274 | each makes the config depend on the component it names and on no other |
| References.ResolvablePointsTo | components/system/src/mono_bricks/system/core.py:288-299 | a reference is taken exactly when some defined component is what it points to |
| References.TargetsArePointedTo | components/system/src/mono_bricks/system/core.py:277-299 | a config depends on exactly the components its references point to |
| References.WalkOneSegment | components/system/src/mono_bricks/system/core.py:348-359 | one step takes the key of that name, else of that number, or fails; in anything but a mapping it takes the attribute with underscores for dashes |
| References.ResolvedItemAt | components/system/src/mono_bricks/system/core.py:337-345 | a resolved list has at each place what the item there resolves to |
| References.ResolvedValueAt | components/system/src/mono_bricks/system/core.py:337-345 | a resolved mapping has the same keys in the same order, each with what its value resolves to |
| References.FirstFault | components/system/src/mono_bricks/system/core.py:337-345 | resolution fails as the first reference in order that cannot be resolved |
| Chains.ConstantsCanBeFollowed | components/system/src/mono_bricks/system/core.py:128-134 | in a started system a walk into a constant's instance finds what following the path through the config trees finds, references followed with the remaining path appended, over chains of any length |
| Chains.WalkIsFollow | components/system/src/mono_bricks/system/core.py:337-359 | the same for any resolved subtree |
| Chains.LoopKeepsConstants | components/system/src/mono_bricks/system/core.py:185-206 | when a start succeeds every constant's instance is its config resolved in the finished system, and no instance is replaced on the way |
| Chains.ConstantIsResolved | components/system/src/mono_bricks/system/core.py:128-134 | no reference is left in a started constant's instance exactly when no tuple of its config holds one and none comes in with what its references resolve to |
| Chains.ConstantsAreResolved | components/system/src/mono_bricks/system/core.py:128-134 | where no other component hands out a reference, none is left in any started constant exactly when no tuple in a constant's config holds one |
| Chains.PlainIsConstant | components/system/src/mono_bricks/system/core.py:137-143 | a plain value declares a constant with that value for its config, and no stop |
| Definitions.Dependencies | components/system/src/mono_bricks/system/core.py:288-299 | the targets of all references, or the error of the first that is too short or names nothing |
| Definitions.BuildGraph | components/system/src/mono_bricks/system/core.py:169-171 | the dependency graph exactly when no component, selected or not, has a dangling reference |
| Definitions.FlattenAt | components/system/src/mono_bricks/system/core.py:164-168 | the flat map holds exactly the components of the two-level one |
| Definitions.DeclaredKeepsKind | components/system/src/mono_bricks/system/core.py:137-143 | a declaration of a kind keeps its start, stop and schemas and merges its config; an unknown kind is an error; a built component is taken as it is |
| Definitions.RejectedByName | components/system/src/mono_bricks/system/core.py:270-299 | the error for a rejected reference names both ends, or its short path |
| StaticChecks.SelectedAreNeeded | components/system/src/mono_bricks/system/core.py:302-317 | selected are exactly the components that are named, by id or by group, and those a named one depends on, directly or not |
| Selection.Select | components/system/src/mono_bricks/system/core.py:302-317 | the nodes reachable from the requested ids, or the first id that matches nothing |
| Selection.MatchedDenotes | components/system/src/mono_bricks/system/core.py:307-309 | an id is taken exactly when it is a component, or the group of one |
| Selection.CloseOver | components/system/src/mono_bricks/system/core.py:311-317 | the worklist terminates and ends with the nodes reachable from its seeds |
| Selection.ReachableIsLeast | components/system/src/mono_bricks/system/core.py:311-317 | the reachable nodes are the least dependency-closed set with the seeds in it |
| Selection.CheckRequired | components/system/src/mono_bricks/system/core.py:320-326 | all missing slots of the selection are reported together, in the order of their components and then of their configs, or none is missing |
| Selection.ListsMissingOnce | components/system/src/mono_bricks/system/core.py:320-326 | what is missing fixes the list |
| Selection.MissingInOrder | components/system/src/mono_bricks/system/core.py:320-326 | the list goes by group, then name, and has for each component the paths of its config in their order |
| Graphs.StaticOrder | components/system/src/mono_bricks/system/core.py:177-183 | a duplicate-free order of all nodes with dependencies first, or none exactly when the graph is cyclic |
| Graphs.StuckIsCyclic | components/system/src/mono_bricks/system/core.py:181-183 | nodes that all wait for one another contain a cycle |
| Graphs.OrderedIsAcyclic | components/system/src/mono_bricks/system/core.py:177-183 | a graph with a topological order has no cycle |
| Graphs.DependenciesComeFirst | components/system/src/mono_bricks/system/core.py:177-180 | everything a component depends on, directly or not, comes before it |
| Graphs.ClosedNeedsNoNodes | components/system/src/mono_bricks/system/core.py:177-180 | the sort adds no node to a dependency-closed selection |
| Merge.MergePathRule | components/system/src/mono_bricks/system/core.py:146-152 | what any path of a merge holds, from what it leads to in the override and in the defaults |
| Merge.MergeKeys | components/system/src/mono_bricks/system/core.py:146-152 | a merge keeps the defaults' keys in their places and puts the override's new ones after them in order |
| Merge.MergeUnit | components/system/src/mono_bricks/system/core.py:146-152 | the empty mapping is a unit on mappings |
| Merge.MergeIdempotent | components/system/src/mono_bricks/system/core.py:146-152 | merging a value onto itself changes nothing |
| Merge.MergeAbsorbsRight | components/system/src/mono_bricks/system/core.py:146-152 | merging the same override twice is merging it once |
| Merge.MergeAbsorbs | components/system/src/mono_bricks/system/core.py:146-152 | an override hides its defaults altogether exactly when it binds all their keys, at every level |
| Merge.MergeAssociativeIff | components/system/src/mono_bricks/system/core.py:146-152 | three layers merge alike either way round exactly when, wherever the outer two hold mappings, the middle one does or the top one covers the bottom one |
| Merge.MergeAssociative | components/system/src/mono_bricks/system/core.py:146-152 | the merge is associative when no path is a mapping, then something else, then a mapping |
| Merge.MergeNotAssociative | components/system/src/mono_bricks/system/core.py:146-152 | three layers on which it is not |
| RequiredConfig.RequiredSurvives | components/system/src/mono_bricks/system/core.py:329-334 | the required paths of a merged config are the override's and those of the defaults that the override leaves unbound |
| RequiredConfig.RequiredPathsReportSlots | components/system/src/mono_bricks/system/core.py:329-334 | a path is reported exactly when a REQUIRED is bound at keys with that text |
| RequiredConfig.ReportedInOrder | components/system/src/mono_bricks/system/core.py:329-334 | slots are reported in the order of the entries they are under |
| RequiredConfig.UnfilledIsReported | components/system/src/mono_bricks/system/core.py:329-334 | nothing is reported exactly when no REQUIRED is left |
| Walking.WalkFindsBound | components/system/src/mono_bricks/system/core.py:348-359 | a walk by the text of keys finds what is bound at them |
| Walking.TextSelectsKey | components/system/src/mono_bricks/system/core.py:351-354 | a key is selected by its text exactly when it is a name, or a number not negative that no name spells |
| Specialise.SpecialisedResolves | components/env/src/mono_bricks/env/core.py:115-120 | replacing every profile choice by its picked branch, in the tree and in the resources, and resolving under any profile gives the value or error of the original under the chosen profile |
| Specialise.ShapeMatters | components/env/src/mono_bricks/env/core.py:110-112 | for a tag directly inside a tag, which no parsed tree has, it does not |
| Inline.InlinedResolves | components/env/src/mono_bricks/env/core.py:47-49 | with a well-founded include graph, resolving a tree equals resolving it with every include replaced by its resource, under any other tags |
| Inline.Inlined | components/env/src/mono_bricks/env/core.py:47-49 | inlining terminates, keeps the shape of parsed trees, and leaves no include of an existing resource but in tuples |
| Inline.NestingIsBounded | components/env/src/mono_bricks/env/core.py:47-49 | with a well-founded include graph the limit on nesting makes no difference |
| Inline.LimitMakesNoDifference | components/env/src/mono_bricks/env/core.py:47-49 | whatever the include graph, a resolution that the limit on nesting does not stop gives the same value or error under any higher limit |
| Laziness.AgreeResolves | components/env/src/mono_bricks/env/core.py:110-128 | trees that differ only in unpicked branches, after the item that settles an or, after the one item a reader unwraps, or in arguments no reader looks at, resolve alike at any depth, whatever stands there |
| TagElimination.TagFreeIffUntagged | components/env/src/mono_bricks/env/core.py:33-45 | a successful resolution leaves no tag exactly when no tuple that it gets to holds one: in picked branches, included resources, settling items, and entries not overwritten once quotes are dropped |
| TagElimination.ResolvedIsTagFree | components/env/src/mono_bricks/env/core.py:33-45 | where no tuple of the tree or the resources holds a tag, none is left |
| TagElimination.PairedTagStays | components/env/src/mono_bricks/env/core.py:33-45 | a tagged value in a list of pairs is left as it is |
| TagElimination.ReadTagFree | components/system/src/mono_bricks/system/reader.py:12-26 | the same of every reader, down to the configs of component declarations |
| Rewriting.ReadAlike | components/env/src/mono_bricks/env/core.py:155-169 | a strict reader cannot tell apart arguments whose parts resolve alike |
| Parsing.ConstructIsParsed | components/env/src/mono_bricks/env/core.py:81-88 | every constructed tree has the parsed shape: the argument of a tag is text, a list or a mapping |
| Parsing.ConstructInvertsCompose | components/env/src/mono_bricks/env/core.py:81-88 | every tree of mappings without repeated keys, lists, plain values and application tags is constructed, from the node that spells it |
| ReaderLaws.OrIsFirst | components/env/src/mono_bricks/env/core.py:123-128 | an or gives what its first item not resolving to null gives, value or error, whatever follows, and null when there is none |
| ReaderLaws.RekeyedIsLast | components/env/src/mono_bricks/env/core.py:99-104 | a resolved mapping holds under each key the value of the last entry written with it, quoted or not, and no key twice |
| ReaderLaws.JoinIsPiecewise | components/env/src/mono_bricks/env/core.py:145-146 | joining is a homomorphism from concatenation of items to that of texts, given by its value on single items |
| ReaderLaws.ConcatIsPiecewise | components/env/src/mono_bricks/env/core.py:169 | likewise for concatenating lists, failing when an item cannot be iterated over |
| ReaderLaws.SplitIsDotted | components/system/src/mono_bricks/system/reader.py:19-20 | the path of a reference is its text cut at every dot, and joins back to it |
| BuiltIns.ProfileResolves | components/env/src/mono_bricks/env/core.py:115-120 | a profile choice resolves to its own branch if bound, else to that of default, else to null |
| BuiltIns.RegisteredProfile | components/env/src/mono_bricks/env/core.py:115-120 | the same of the registered tag |
| BuiltIns.IncludeResolves | components/env/src/mono_bricks/env/core.py:47-49 | an include resolves the resource of that name, with or without prefix |
| BuiltIns.OrOfOthers | components/env/src/mono_bricks/env/core.py:123-128 | of a text or a mapping an or gives the first character or key, and it fails on anything else but a list |
| BuiltIns.OrResolves | components/env/src/mono_bricks/env/core.py:123-128 | of a list it gives what its first item not resolving to null gives |
| BuiltIns.LongResolves | components/env/src/mono_bricks/env/core.py:131-133 | a number stays, null stays, anything else is converted; of a list the first item is taken |
| BuiltIns.PortResolves | components/env/src/mono_bricks/env/core.py:136-142 | likewise, and zero gives a free port |
| BuiltIns.KeywordResolves | components/env/src/mono_bricks/env/core.py:149-152 | likewise, with the text of what is not null |
| BuiltIns.ConversionResolves | components/env/src/mono_bricks/env/core.py:157-166 | what the environment, text, UUID and passing readers make of a resolved argument |
| BuiltIns.JoinAppends | components/env/src/mono_bricks/env/core.py:145-146 | joining a list in two parts is joining each, and fails as the first part that does |
| BuiltIns.JoinOfOne | components/env/src/mono_bricks/env/core.py:145-146 | of one item it gives the text, and nothing for null |
| BuiltIns.ConcatAppends | components/env/src/mono_bricks/env/core.py:169 | concatenating a list in two parts is concatenating each |
| BuiltIns.ConcatOfOne | components/env/src/mono_bricks/env/core.py:169 | of one item it gives its items, characters or keys in order |
| BuiltIns.RunsOverLikeList | components/env/src/mono_bricks/env/core.py:145-169 | a text is joined or concatenated as the list of its characters, a mapping as that of its keys |
| BuiltIns.ComponentResolves | components/system/src/mono_bricks/system/reader.py:12-16 | a declaration gives the text of its kind, resolved first, and the rest of the mapping resolved as a mapping |
| BuiltIns.RegisteredReferences | components/system/src/mono_bricks/system/reader.py:19-25 | each text gives, under the two reference tags, the root or the local reference with the parts that its dots separate |
| BuiltIns.SplitInvertsDotted | components/system/src/mono_bricks/system/reader.py:19-20 | those parts are the only ones |
| BuiltIns.RegisteredConversions | components/env/src/mono_bricks/env/core.py:157-164 | the environment and text tags, of text |
| BuiltIns.RegisteredUuids | components/env/src/mono_bricks/env/core.py:166-168 | the UUID tags, of text |
| BuiltIns.RegisteredNumbers | components/env/src/mono_bricks/env/core.py:160-162 | the number, port and keyword tags, of a number |
| BuiltIns.RegisteredPassing | components/env/src/mono_bricks/env/core.py:163-165 | the two tags that only resolve |
| BuiltIns.RegisteredJoin | components/env/src/mono_bricks/env/core.py:145-159 | the registered tag, of two texts |
| BuiltIns.RegisteredConcat | components/env/src/mono_bricks/env/core.py:169 | the registered tag, of two lists |
| BuiltIns.RegisteredComponent | components/system/src/mono_bricks/system/reader.py:12-16 | a component declaration with a text for its kind |
| BuiltIns.MappingResolves | components/env/src/mono_bricks/env/core.py:33-36 | a mapping resolves to one that holds under each key what the last value written with it resolves to |
| BuiltIns.ListResolves | components/env/src/mono_bricks/env/core.py:37-38 | a list resolves to the list of what its items resolve to |
| BuiltIns.FirstPartFails | components/env/src/mono_bricks/env/core.py:33-38 | a list or mapping fails as its first part that does |
| BuiltIns.QuotesAreDropped | components/env/src/mono_bricks/env/core.py:99-104 | the quotes around a key go, and no other key changes |
| RequestLogging.OneLinePerRequest | components/server/src/mono_bricks/server/adapter.py:60-99 | every HTTP request that ends logs exactly one line, before every final body message, with the last start status passed before it or 500, right before the first body with no more to come that was sent while the application ran, and passes every message on once in call order |
| RequestLogging.EndedRequest | components/server/src/mono_bricks/server/adapter.py:83-99 | the line stands right before the first final body sent while the application ran, or at its end if there was none, whatever is sent later |
| RequestLogging.RunningRequest | components/server/src/mono_bricks/server/adapter.py:83-93 | what a request still running has logged and passed on |
| RequestLogging.Call | components/server/src/mono_bricks/server/adapter.py:60-99 | the closures, run over any schedule, do what the specification says; other scopes pass everything on and log nothing |
| RequestLogging.RequestLog.LogLine | components/server/src/mono_bricks/server/adapter.py:69-81 | a line is logged with the last start status, or 500, and the request counts as logged |
| RequestLogging.RequestLog.SendLogged | components/server/src/mono_bricks/server/adapter.py:83-93 | a start sets the status; a final body not logged yet is preceded by the line; every message is passed on |
| RequestLogging.RequestLog.Finish | components/server/src/mono_bricks/server/adapter.py:95-99 | the line is logged when the application ends without one, returning or raising |
| ResourcePath.ProgramGrowsPath | components/env/src/mono_bricks/env/resources.py:12-30 | any nested program of blocks and additions, raising or not, leaves the list as its surviving additions alone would, with no removal failing |
| ResourcePath.PathStaysUnique | components/env/src/mono_bricks/env/resources.py:12-30 | the list stays free of duplicates, and what was on it keeps its place |
| ResourcePath.OnPathAfter | components/env/src/mono_bricks/env/resources.py:12-30 | a root is on the path in the end exactly when it was at the start or an addition of it outside its own blocks was made |
| ResourcePath.UnshadowedKeepsAdds | components/env/src/mono_bricks/env/resources.py:12-30 | where no addition names a root opened by an enclosing block, the list ends as the initial one and the new roots in order |
| ResourcePath.ShadowedAddIsLost | components/env/src/mono_bricks/env/resources.py:19-30 | an addition inside a block for the same root is lost |
| ResourcePath.Path.AddResourceRoot | components/env/src/mono_bricks/env/resources.py:12-16 | the root is added at the end unless it is there |
| ResourcePath.Path.Leave | components/env/src/mono_bricks/env/resources.py:28-30 | the root goes if the block added it |
| ResourcePath.Path.Run | components/env/src/mono_bricks/env/resources.py:12-30 | the operations, nested with their finally clauses, compute the specification |
| ResourcePath.Path.Find | components/env/src/mono_bricks/env/resources.py:66-74 | the first root with a match, extra roots before those of the bricks, or none exactly when nothing matches |
| Repl.Session.Go | development/dev.py:36-41 | the running system is torn down first and the history shows it; if a stop fails, nothing more happens; what is current afterwards in each outcome |
| Repl.Session.Halt | development/dev.py:44-49 | the running system is torn down, and stays current if a stop fails |
| Repl.Session.Execute | development/dev.py:36-49 | over any sequence of go and halt the history is what the starts and stops of those commands have brought about, stopping only what is current and starting only while nothing is |
| Repl.StartsAreQuiet | development/dev.py:36-49 | wherever in the history of a session a component is started, every stop of every system started before has been called since and has returned |
| Repl.StoppedPerTry | development/dev.py:44-49 | until the next start a component of a system is stopped once per halt or go, every one of these but the last having failed: it is stopped again exactly when a stop fails and halt or go is called again |

## Left out

- Sockets, uvicorn, threads and timeouts, the Litestar application, logging set-up, ClickHouse and test containers: thin wrappers over libraries.
- YAML text and the filesystem: trees are parsed already, resources and roots are names, the roots of the bricks are a list.
- `env.config`, `defs`, `instance`, `config`: accessors and plain comprehensions; `Definitions.ComponentOf` covers what `defs` does to each declaration.
- `register_tag` at run time: the table of readers is arbitrary but fixed, and its readers are the built-in ones and those of the system brick.
- Resolver.Read: random UUIDs and free ports are one value per host, because the theorems compare resolutions; two occurrences in a tree come out equal.
- Resolver.Resolve: nesting of includes is bounded, as the interpreter's stack bounds it; the depth at which Python gives up on a cycle is not modelled.
- `BaseException` other than `Exception`, callbacks that change definitions, error texts and representations.
- References.Step: `getattr` on objects is an arbitrary function of the history at the start of a component's turn, the object and the name; it does not change within one config.
- Dict keys other than text and integers; digits other than `0` to `9` in `str.isdigit`; booleans, floats and dates are opaque objects.
- YAML's sets and binary values, merge keys, and tags inside the keys of mappings.
- Graphs.StaticOrder: which cycle `graphlib` finds and prints is left open, only that there is one.
