# Terraform addresses, check tracking and cloud state: a Dafny verification project

This project models the parts of Terraform that decide *which object is meant* and *who may
change it*, and proves what those parts are relied on for. All paths below are in the
repository's `terraform/internal` tree.

* **"moved" statements** (`MoveEndpoints`, `MoveRelations`, `Moves`, `MoveStatements`).
  An endpoint is a pattern over an infinite address space. `Covers` is its denotation: the
  concrete resource instances below some instance of the declaring module. Selection, chaining,
  nesting and the three `MoveDestination` rewrites are separate case analyses in the source; each
  is proved to agree with that one denotation, overlap is decided exactly, and every statement is
  reversible and injective, from its traversals to the addresses it moves.
* **The address language** (`Addrs`, `Quoting`, `Printing`, `PartialExpanded`, `Targeting`,
  `Parsing`, `Ordering`). Addresses are compared by their texts in many places, so the printers are
  proved readable and hence injective, down to the HCL string escaper. The three module-path parsers
  agree, parsing is inverse to writing in both directions, and it undoes printing text by text.
  Partially-expanded addresses are sets: matching is inclusion, and targeting misses nothing.
* **The cloud state manager** (`CloudState`, `CloudRuns`). The class follows the source's fields and
  branches. Any number of managers share a workspace in any interleaving of
  Lock, RefreshState, (WriteState, PersistState)*, Unlock.
* **The check tracker** (`Checks`, `CheckRuns`). A mutable record whose runs keep an invariant,
  never undo a result, and do not depend on the order of reports.
* **The confirmation race** (`Confirm`). The operation's goroutine, the poller, the prompt, the
  stop signal and the lock-timeout goroutine as one transition system.
* **Address sets and maps** (`AddressSets`, with `Sorting`) and the **template unwrapper of
  `terraform fmt`** (`FmtTokens`) at token level.

## Form

Code that loops or assigns is a method with loop invariants, proved against a function of the same
name family (`DecideSelectsModule` against `SelectsModule`, `MoveModuleInstance` against
`ModuleDestination`, `Lock` against `Locked`); the lemmas then speak about those functions. Objects
that are updated in place are classes. Code made of switches and constructors is functions.
`Option` stands for Go's `(value, ok)` pairs, nil pointers and returned errors. Whatever the outside
world decides (server answers, the typed text, map iteration order, `unicode.IsPrint`) is a
parameter or a nondeterministic choice. Every induction is written out (`{:induction false}`), so no
proof rests on an induction hypothesis that the verifier chose by itself.

## Where the code and its comments disagree

The model follows the code.

* `addrs/move_endpoint.go:58-71` justifies comparing endpoints by their texts with the absence of
  ambiguity. A managed resource whose type is the word `module` (written `resource.module.x`)
  prints like a module instance: `Printing.ModuleAndResourceTexts` shows that this is the only case,
  `MoveStatements.ModuleWordPrintsAlike` that both can be written. `Equal` also compares source
  ranges, so it is wrong only for two such endpoints that claim one range.
* `addrs/partial_expanded.go:677-771` reports a resource target in an ancestor module for every
  descendant. `Targeting.TargetedExactly` gives the exact condition under which a report is sharp.
* `cloud/state.go:164-247`: persisting before any state was written stores an empty state and leaves
  the manager out of step, so the next written state is lost and the next version repeats the serial
  (`CloudRuns.NilPersistLosesTheNextWrite`). `CloudState.PersistPublishesExactly` and
  `CloudState.PersistKeepsOrder` say exactly when a persist does what it should, the wrap-around of
  the 64-bit serial included.
* `cloud/state.go:452-520`: a second Unlock frees the lock of whichever manager holds it by then
  (`CloudRuns.UnlockTakesAnothersLock` has the exact condition).
* `command/fmt.go:395-427` promises that a multi-line result is surrounded by parentheses so that it
  parses. A leading and a trailing parenthesis are taken for a pair even when they belong to different
  groups, as in `(a) + newline (b)`; `FmtTokens.NewlinesStayOpenBetweenGroups` says exactly when a
  newline then lies outside all brackets.
* `addrs/move_endpoint_module.go:711-743` promises to report a statement that changes only module
  indexes, but never reports one between two whole calls, such as the move of `module.a[0].module.b`
  to `module.a[1].module.b` (`Moves.WholeCallReIndexIsNotReported`). `Moves.ReIndexKeepsStaticPaths`
  says exactly when the report is right.

`command/fmt.go:332-427` would panic on a template around nothing but newlines
(`FmtTokens.PanicsOnNewlinesOnly`). It never sees one: such a template holds no expression, and
`command/fmt.go:193` stops at the syntax error. On everything else no pass panics
(`FmtTokens.ExpressionsNeverPanic`).

## Model

| member | source | states |
|---|---|---|
| Addrs.ModuleOf | terraform/internal/addrs/module_instance.go:514-523 | the static module is the one the instance is an instance of |
| Addrs.StaticModuleOfCall | terraform/internal/addrs/module_call.go:70-77 | one static module for every instance of the call, whatever its key |
| MoveEndpoints.SynthModuleInstance | terraform/internal/addrs/move_endpoint_module.go:222-244 | builds the pattern that CoversIsFitsPattern shows to denote what the endpoint covers |
| MoveEndpoints.DecideSelectsModule | terraform/internal/addrs/move_endpoint_module.go:254-277 | true exactly for module instances of the pattern's length that fit it step by step |
| MoveEndpoints.ModuleInstanceCanMatch | terraform/internal/addrs/move_endpoint_module.go:315-330 | true exactly when the two patterns agree on every shared step up to wildcards |
| MoveEndpoints.CoversIsFitsPattern | terraform/internal/addrs/move_endpoint_module.go:147-244 | a resource instance belongs to the endpoint in some instance of the declaring module iff it fits the synthetic pattern |
| MoveEndpoints.OverlapIsDecided | terraform/internal/addrs/move_endpoint_module.go:338-433 | two endpoints cover a common resource instance iff one chains from or nests within the other, for all type pairs |
| MoveEndpoints.RelatedIsSymmetric | terraform/internal/addrs/move_endpoint_module.go:338-377 | chaining is symmetric, and so is being related |
| MoveEndpoints.NestingIsAsymmetric | terraform/internal/addrs/move_endpoint_module.go:382-433 | nesting is irreflexive and asymmetric |
| MoveEndpoints.NestingComposes | terraform/internal/addrs/move_endpoint_module.go:382-433 | two nestings compose iff the outer patterns can match each other; only a wildcard step of the middle pattern can prevent it |
| MoveEndpoints.NestingIsNotTransitive | terraform/internal/addrs/move_endpoint_module.go:382-433 | a triple on which that condition fails |
| MoveEndpoints.UnifyAgrees | terraform/internal/addrs/move_endpoint.go:173-300 | unification fails iff a module meets a resource; otherwise one declaring module, one dynamic type, whole-object form iff neither end is keyed, and nothing written is lost |
| MoveEndpoints.UnifiedObjectsAreConfigured | terraform/internal/addrs/move_endpoint.go:95-118 | every object a unified statement affects is declared by the configuration object reported for the endpoint |
| MoveRelations.ChainingIsCommonSelection | terraform/internal/addrs/move_endpoint_module.go:338-377 | chaining holds iff some one object can be selected by both endpoints |
| MoveRelations.ChainingIsRealCommonSelection | terraform/internal/addrs/move_endpoint_module.go:338-377 | the same over objects whose keys are all known |
| MoveRelations.OverlapIsReallyDecided | terraform/internal/addrs/move_endpoint_module.go:338-433 | overlap is decided exactly over resource instances whose keys are all known |
| MoveRelations.NestingIsContainment | terraform/internal/addrs/move_endpoint_module.go:382-433 | nesting holds iff some object of one endpoint is properly contained in one of the other's |
| MoveRelations.NestingIsRealContainment | terraform/internal/addrs/move_endpoint_module.go:382-433 | the same over instances whose keys are all known |
| Moves.MatchModuleInstancePrefix | terraform/internal/addrs/move_endpoint_module.go:450-462 | matches iff the path starts with an instance of the declaring module, and splits it there |
| Moves.MoveModuleInstance | terraform/internal/addrs/move_endpoint_module.go:475-552 | computes the module rewrite whose meaning ModuleMoveFollowsExamples states |
| Moves.MoveResource | terraform/internal/addrs/move_endpoint_module.go:565-625 | computes the resource rewrite whose meaning WholeResourceMoves states |
| Moves.WholeResourceMoves | terraform/internal/addrs/move_endpoint_module.go:565-625 | a whole resource moves iff every instance of it moves along with its key, so never under a statement about one instance |
| Moves.MoveResourceInstance | terraform/internal/addrs/move_endpoint_module.go:638-709 | computes the instance rewrite whose meaning MoveRelocates states |
| Moves.ModuleMoveFollowsExamples | terraform/internal/addrs/move_endpoint_module.go:147-179 | a module matches iff it extends an example of "from", and moves to the same key and suffix at the example of "to" |
| Moves.ModuleMoveFollowsSelection | terraform/internal/addrs/move_endpoint_module.go:254-277 | a module moves iff SelectsModule picks the part of it the statement consumes |
| Moves.MovesExactlyWhatIsCovered | terraform/internal/addrs/move_endpoint_module.go:475-709 | a resource instance moves iff "from" covers it |
| Moves.MoveRelocates | terraform/internal/addrs/move_endpoint_module.go:475-709 | the three rewrites together are exactly the relation "same place, other example" |
| Moves.OverlappingMovesAreRelated | terraform/internal/addrs/move_endpoint_module.go:338-433 | two statements can move a common resource instance iff their "from" ends chain or nest |
| Moves.ChainedMovesAreRelated | terraform/internal/addrs/move_endpoint_module.go:332-433 | one statement can move on what another has moved iff its "from" and the other's "to" chain or nest |
| Moves.ResourceMoveFollowsSelection | terraform/internal/addrs/move_endpoint_module.go:281-308 | a resource statement moves what SelectsResource picks, plus the written key for instance statements |
| Moves.ModuleMoveIsReversible | terraform/internal/addrs/move_endpoint_module.go:475-552 | swapping the ends undoes a module move, except when the result is the root module |
| Moves.ResourceMoveIsReversible | terraform/internal/addrs/move_endpoint_module.go:565-625 | swapping the ends undoes a resource move |
| Moves.InstanceMoveIsReversible | terraform/internal/addrs/move_endpoint_module.go:638-709 | swapping the ends undoes a resource instance move |
| Moves.MovesAreInjective | terraform/internal/addrs/move_endpoint_module.go:638-709 | one statement never sends two resource instances to one place |
| Moves.ResourceMovesAreInjective | terraform/internal/addrs/move_endpoint_module.go:565-625 | one statement never sends two resources to one place |
| Moves.ModuleMovesAreInjective | terraform/internal/addrs/move_endpoint_module.go:475-552 | one statement never sends two module instances to one place, the root included |
| Moves.ReIndexComparesStaticObjects | terraform/internal/addrs/move_endpoint_module.go:714-743 | for every pair of endpoints of one module: reported iff both are module kinds, not both whole calls, with one static object |
| Moves.StaticPathsAreKept | terraform/internal/addrs/move_endpoint_module.go:475-552 | a statement about modules keeps every static path iff its two ends have one static path |
| Moves.ReIndexKeepsStaticPaths | terraform/internal/addrs/move_endpoint_module.go:711-743 | the report equals "every moved module keeps its static path", unless both ends are whole calls with one static path: exactly then not |
| Moves.WholeCallReIndexIsNotReported | terraform/internal/addrs/move_endpoint_module.go:711-743 | a statement that keeps its static paths and is not reported |
| MoveStatements.EndpointsAreTargets | terraform/internal/addrs/move_endpoint.go:129-154 | an endpoint names exactly what the same traversal targets, a whole resource read as its unkeyed instance |
| MoveStatements.StatementsKeepTheirEnds | terraform/internal/addrs/move_endpoint.go:173-215 | a statement is accepted iff both ends are endpoints of one kind, and keeps both as written |
| MoveStatements.StatementsAreWellFormed | terraform/internal/addrs/move_endpoint.go:129-154 | endpoints parsed from configuration meet everything the move methods rely on |
| MoveStatements.SwappingUndoes | terraform/internal/addrs/move_endpoint.go:129-215 | a parsed statement and its swapped form undo each other on every resource instance |
| MoveStatements.ModuleWordPrintsAlike | terraform/internal/addrs/move_endpoint.go:58-71 | two different endpoints that can both be written and print alike |
| Quoting.ToHCLQuotedString | terraform/internal/addrs/instance_key.go:176-220 | writes the escaped text that QuotingReadsBack reads back |
| Quoting.QuotingReadsBack | terraform/internal/addrs/instance_key.go:176-220 | every string is recovered from its quoted form, which ends at the first unescaped quote, whatever follows |
| Quoting.HexReadsBack | terraform/internal/addrs/instance_key.go:204-213 | the fixed-width hexadecimal escapes determine the code point |
| Quoting.PlainTextIsUntouched | terraform/internal/addrs/instance_key.go:176-220 | printable text without special runes is only put between quotes |
| Quoting.SpecialRunes | terraform/internal/addrs/instance_key.go:184-203 | the short escapes, and template marks doubled before a brace only |
| Quoting.UnprintableRunes | terraform/internal/addrs/instance_key.go:204-213 | any other rune becomes its code in four or eight hexadecimal digits |
| Printing.PrintModuleInstance | terraform/internal/addrs/module_instance.go:272-295 | prints the dotted segments of the path |
| Printing.SegmentsReadBack | terraform/internal/addrs/module_instance.go:272-295 | a reader of dotted segments with HCL index keys recovers every printed address |
| Printing.KeyReads | terraform/internal/addrs/instance_key.go:67-105 | a printed key is determined by its text, whatever segment follows |
| Printing.ModuleStringInjective | terraform/internal/addrs/module_instance.go:272-301 | module instances with equal texts are equal |
| Printing.InstanceStringInjective | terraform/internal/addrs/resource.go:350-356 | resource instances with equal texts are equal |
| Printing.UniqueKeysIdentify | terraform/internal/addrs/unique_key.go:8-14 | unique keys collide exactly on equal addresses, for module instances, resources, resource instances and configuration resources |
| Printing.ModuleAndResourceTexts | terraform/internal/addrs/move_endpoint.go:58-71 | a module instance prints like a resource instance iff the latter is a managed resource of type "module" in the parent |
| PartialExpanded.DecideMatchesInstance | terraform/internal/addrs/partial_expanded.go:233-256 | true exactly for the members of the set the pattern denotes |
| PartialExpanded.MatchesPartialIsInclusion | terraform/internal/addrs/partial_expanded.go:261-275 | decides inclusion of two infinite sets of module instances |
| PartialExpanded.MatchesPartialIsRealInclusion | terraform/internal/addrs/partial_expanded.go:261-275 | for known prefixes, the members whose keys are all known already decide it |
| PartialExpanded.MatchesPartialIsPartialOrder | terraform/internal/addrs/partial_expanded.go:261-275 | reflexive, antisymmetric, transitive |
| PartialExpanded.BuildPartialModule | terraform/internal/addrs/partial_expanded.go:196-206 | separates known steps from wildcard steps |
| PartialExpanded.BuildUnknownModuleInstance | terraform/internal/addrs/partial_expanded.go:210-219 | appends a wildcard step for every unknown call |
| PartialExpanded.PartialUndoesUnknown | terraform/internal/addrs/partial_expanded.go:196-219 | PartialModule undoes UnknownModuleInstance iff the known prefix has no wildcard |
| PartialExpanded.UnknownUndoesPartial | terraform/internal/addrs/partial_expanded.go:196-219 | the converse holds iff all wildcards trail |
| PartialExpanded.PrintPartialModule | terraform/internal/addrs/partial_expanded.go:372-386 | prints exactly the wildcard address |
| PartialExpanded.PartialKeysIdentify | terraform/internal/addrs/partial_expanded.go:784-794 | unique keys of partially-expanded resources identify them, across both key types |
| PartialExpanded.KnownResourcesShareTheirKey | terraform/internal/addrs/partial_expanded.go:784-794 | the key of a resource in a known module is the key of that very resource, and of no other pattern |
| PartialExpanded.UnknownResourcesHaveTheirOwnKey | terraform/internal/addrs/partial_expanded.go:784-794 | any other pattern has the text of its wildcard address as key |
| Targeting.DecideUnkeyedPrefix | terraform/internal/addrs/module_instance.go:444-467 | a static path is contained iff it starts with the receiver and no step of it is keyed |
| Targeting.DecideInstancePrefix | terraform/internal/addrs/module_instance.go:469-496 | an instance path is contained iff it starts with the receiver, up to a missing final key |
| Targeting.DecideModulePrefix | terraform/internal/addrs/module.go:88-121 | a static module contains exactly the paths it is a prefix of |
| Targeting.InstancePrefixMeaning | terraform/internal/addrs/module_instance.go:442-510 | the root contains everything, and an unkeyed last step stands for every instance of its call |
| Targeting.ParsedContainment | terraform/internal/addrs/resource.go:195-214 | on parsed targets the text comparisons amount to equality and membership |
| Targeting.ContainmentIsInclusion | terraform/internal/addrs/module_instance.go:442-510 | one parsed target contains another iff it contains every resource instance the other does |
| Targeting.ContainmentIsPartialOrder | terraform/internal/addrs/resource.go:327-344 | containment of parsed targets is reflexive, antisymmetric and transitive |
| Targeting.CleanContainment | terraform/internal/addrs/resource.go:195-214 | for all target types the text comparisons amount to comparing paths, resources and keys |
| Targeting.ContainmentComposes | terraform/internal/addrs/module_instance.go:442-510 | for all target types, two containments compose iff a static middle target forgets no module key and a whole one no instance key |
| Targeting.ContainmentIsMutual | terraform/internal/addrs/resource.go:327-344 | for all target types, two targets contain each other iff they differ at most in type |
| Targeting.StaticModulesBreakTransitivity | terraform/internal/addrs/module_instance.go:444-496 | a triple with a static module on which the condition fails |
| Targeting.WholeResourcesBreakTransitivity | terraform/internal/addrs/resource.go:327-344 | triples with a configuration resource and with a whole resource on which it fails |
| Targeting.CompareModule | terraform/internal/addrs/partial_expanded.go:679-710 | static path comparison: a prefix of the pattern's static path |
| Targeting.CompareModuleInstance | terraform/internal/addrs/partial_expanded.go:712-743 | prefix of the static path, with keys compared only inside the known prefix |
| Targeting.DecideIsTargetedBy | terraform/internal/addrs/partial_expanded.go:677-771 | decides IsTargetedBy for every target type |
| Targeting.NoMissedTargets | terraform/internal/addrs/partial_expanded.go:574-581 | a target that contains any matched resource instance is reported |
| Targeting.TargetedExactly | terraform/internal/addrs/partial_expanded.go:677-771 | some matched instance is contained iff the target is reported and sharp; for a static module the report alone |
| Targeting.ReportsAreLooseContainment | terraform/internal/addrs/partial_expanded.go:677-771 | a target is reported iff it contains some matched instance once unkeyed steps stand for any instance and resource targets reach into descendant modules |
| Targeting.AncestorResourceIsReported | terraform/internal/addrs/partial_expanded.go:677-771 | a concrete false alarm |
| Parsing.ParseModuleInstancePrefix | terraform/internal/addrs/module_instance.go:83-202 | the loop yields the recursive reading of the traversal, with a rooted remainder |
| Parsing.ParseModulePrefix | terraform/internal/addrs/module.go:190-279 | the same for static paths, refusing keys |
| Parsing.ParsePartialExpandedModule | terraform/internal/addrs/partial_expanded.go:45-185 | the same for partial paths: everything after the first unknown key is unknown |
| Parsing.ParsersAgreeWithoutKeys | terraform/internal/addrs/module.go:190-279 | on key-free traversals the static parser is the projection of the instance parser, errors and remainder included |
| Parsing.ParsersAgreeWhenKnown | terraform/internal/addrs/partial_expanded.go:45-185 | without unknown keys the partial parser equals the instance parser, with an empty suffix |
| Parsing.PartialParseCovers | terraform/internal/addrs/partial_expanded.go:45-185 | the parsed pattern matches every module instance the traversal can become once its unknown keys are known |
| Parsing.KnownStepsAreKept | terraform/internal/addrs/partial_expanded.go:45-185 | every step before the first unknown key stays known, and none after it |
| Parsing.CallsAreCollected | terraform/internal/addrs/module_instance.go:83-202 | well-written calls are collected, and parsing goes on with whatever follows them |
| Parsing.ErrorsOfCalls | terraform/internal/addrs/module_instance.go:83-202 | where a call should start: which errors stop the parser, what remains, and which do not |
| Parsing.StaticPathsRefuseKeys | terraform/internal/addrs/module.go:190-279 | the first key in a static module path is an error, and neither it nor its call is taken |
| Parsing.RemainderIsRooted | terraform/internal/addrs/parse_target.go:165-190 | after a successful prefix the remainder starts with a name, so the root lookup cannot panic |
| Parsing.ParsingUndoesWriting | terraform/internal/addrs/parse_target.go:42-78 | every writable address is parsed back from its traversal, with the "resource" word when its type is reserved |
| Parsing.PlainFormParses | terraform/internal/addrs/parse_target.go:165-313 | without the "resource" word an address is parsed back iff its type does not stand for something else |
| Parsing.WordsThatNeedTheWord | terraform/internal/addrs/parse_target.go:170-187 | the fifteen words that are not read as managed resource types |
| Parsing.ParsingUndoesPrinting | terraform/internal/addrs/resource.go:350-356 | the printed text of an address, read as a traversal, parses back to it iff its type does not stand for something else |
| Parsing.ParsedTargets | terraform/internal/addrs/parse_target.go:42-78 | on identifier names only the targets of the partial order are returned |
| Parsing.TargetsAreOrdered | terraform/internal/addrs/parse_target.go:42-78 | the targets of any three traversals are partially ordered by containment |
| Parsing.ParsedIsWritten | terraform/internal/addrs/parse_target.go:165-313 | a traversal that parses is the written form of the result, up to the optional word |
| Sorting.StringOrderMeaning | terraform/internal/addrs/resource.go:45-59 | of two texts a proper prefix comes first, otherwise the first difference decides |
| Sorting.SortIsUnique | terraform/internal/addrs/set.go:87-113 | sorting by a strict total order has one possible result |
| Ordering.DecideModuleLess | terraform/internal/addrs/module_instance.go:322-339 | shorter first, then the first differing step |
| Ordering.ModulesAreOrdered | terraform/internal/addrs/module_instance.go:322-339 | Less is a strict total order on module instances |
| Ordering.InstancesAreOrdered | terraform/internal/addrs/resource.go:383-393 | Less is a strict total order on a set of resource instances iff any two of them in one module share a mode or one is a data resource |
| Ordering.ModesDecideComparability | terraform/internal/addrs/resource.go:45-59 | two different resources are comparable iff they share a mode or one is a data resource |
| Ordering.FirstDifferenceDecides | terraform/internal/addrs/module_instance.go:322-339 | paths of one length are ordered by their first differing step, name before key |
| Ordering.NaturalOrderMeaning | terraform/internal/addrs/instance_key.go:113-139 | shorter paths first, then data resources, type, name, then the unkeyed instance, unknown keys, integer keys by value, string keys |
| Ordering.SortedNaturalIsCanonical | terraform/internal/addrs/set.go:106-113 | under that condition the result is the one strictly increasing list of the members, whatever the map order |
| Ordering.IncomparablePairSortsBothWays | terraform/internal/addrs/set.go:106-113 | two members that violate it can come out in either order |
| Ordering.ManagedAndEphemeralAreIncomparable | terraform/internal/addrs/resource.go:45-59 | a managed and an ephemeral resource of one module are such a pair |
| AddressSets.Set.Has | terraform/internal/addrs/set.go:34-40 | membership by unique key is membership |
| AddressSets.Set.Add | terraform/internal/addrs/set.go:42-46 | adds exactly that member |
| AddressSets.Set.Remove | terraform/internal/addrs/set.go:48-52 | removes exactly that member |
| AddressSets.Set.Union | terraform/internal/addrs/set.go:54-65 | the union of the members, in a fresh set |
| AddressSets.Set.Intersection | terraform/internal/addrs/set.go:67-85 | the intersection of the members, in a fresh set |
| AddressSets.MembersAreKeys | terraform/internal/addrs/set.go:34-52 | a key is present iff its address is a member |
| AddressSets.AsManyMembersAsKeys | terraform/internal/addrs/set.go:25-52 | as many members as stored keys |
| AddressSets.SizesAddUp | terraform/internal/addrs/set.go:54-85 | sizes of sets with the members of union and intersection add up to those of the operands |
| AddressSets.Map.Put | terraform/internal/addrs/map.go:51-56 | changes the lookup of exactly that key |
| AddressSets.Map.Remove | terraform/internal/addrs/map.go:64-68 | removes the lookup of exactly that key |
| AddressSets.Map.GetOk | terraform/internal/addrs/map.go:78-84 | returns the mapped value or nothing |
| AddressSets.Map.Keys | terraform/internal/addrs/map.go:112-126 | a proper address set of exactly the mapped keys |
| Checks.State.ReportCheckableObjects | terraform/internal/checks/state_report.go:23-60 | registers the objects with one unknown slot per declared check, changing nothing else |
| Checks.State.ReportCheckResult | terraform/internal/checks/state_report.go:98-120 | changes the status of one slot |
| Checks.State.ReportCheckFailure | terraform/internal/checks/state_report.go:84-95 | marks one slot failed and records its message |
| Checks.State.CountStatuses | terraform/internal/checks/state.go:155-180 | each counter is positive iff some check has that status |
| Checks.State.AggregateCheckStatus | terraform/internal/checks/state.go:143-185 | the aggregate, whatever order the maps are walked in |
| Checks.State.ObjectCheckStatus | terraform/internal/checks/state.go:192-228 | the status of one object |
| Checks.State.ObjectFailureMessages | terraform/internal/checks/state.go:239-273 | an ordered list of the messages of the failed checks |
| Checks.ObjectStatusMeaning | terraform/internal/checks/state.go:275-293 | an object is in error iff a check is, failed iff one failed and none is in error, unknown iff one is and none of these |
| Checks.ConfigOfMeaning | terraform/internal/addrs/resource.go:398-400 | objects share their configuration object iff they are of one kind, in instances of one module, with one name |
| Checks.AggregateIsJoin | terraform/internal/checks/state.go:143-228 | the aggregate is the least upper bound of the object statuses in Pass < Unknown < Fail < Error |
| CheckRuns.AggregateMeaning | terraform/internal/checks/state.go:143-185 | the aggregate is unknown until expansion, then decided by a single error, a single failure, a single unknown |
| Checks.MessagesIgnoreOrder | terraform/internal/checks/state.go:239-273 | the messages found do not depend on the iteration order |
| Checks.SortedMessagesAreDetermined | terraform/internal/checks/state.go:239-273 | so the sorted list is a function of the tracker |
| Checks.FailureMessagesMeaning | terraform/internal/checks/state.go:239-273 | the list holds the messages of exactly the failed checks that have one, each once |
| CheckRuns.StepKeepsInv | terraform/internal/checks/state_report.go:23-120 | a report keeps the invariant, undoes nothing and is visible afterwards |
| CheckRuns.RunKeepsInv | terraform/internal/checks/state_report.go:23-120 | over a run: declared check types and own configuration address, messages only on failed slots, a slot leaves Unknown at most once |
| CheckRuns.TerminalAggregates | terraform/internal/checks/state.go:143-185 | Pass and Error are final, Fail can only become Error |
| CheckRuns.RunsFromNewAreSound | terraform/internal/checks/state.go:84-92 | every run from a new tracker keeps its declarations and the invariant, and shows every report made |
| CheckRuns.RegistrationsAllowed | terraform/internal/checks/state_report.go:23-60 | after any run, a registration is accepted iff its configuration object is declared, not yet registered, and the objects are its own |
| CheckRuns.ResultsAllowed | terraform/internal/checks/state_report.go:98-120 | after any run, a result is accepted iff it is for a declared check of a registered object that has none yet |
| CheckRuns.ReportsAreConfluent | terraform/internal/checks/state_report.go:23-120 | two panic-free orders of the same reports end in the same tracker |
| CheckRuns.ReportsToNewAreConfluent | terraform/internal/checks/state.go:84-92 | in particular all reports to a new tracker |
| CheckRuns.MessagesAreConfluent | terraform/internal/checks/state.go:239-273 | and give the same list of failure messages |
| CloudState.StateManager.Lock | terraform/internal/cloud/state.go:334-361 | takes the workspace lock iff it is free, remembering the lock ID |
| CloudState.StateManager.RefreshState | terraform/internal/cloud/state.go:364-402 | adopts the current version, or forgets lineage and serial when there is none |
| CloudState.StateManager.WriteState | terraform/internal/cloud/state.go:150-161 | replaces the local state only |
| CloudState.StateManager.PersistState | terraform/internal/cloud/state.go:164-247 | the whole effect on manager and workspace, failures included, as the lemmas below spell it out |
| CloudState.LockThenUnlock | terraform/internal/cloud/state.go:334-361 | a reachable free workspace is locked, and unlocked with the same ID; any other attempt changes nothing |
| CloudState.UnlockNeedsTheId | terraform/internal/cloud/state.go:452-520 | no other ID opens the lock, and after a failed upload none does although success is reported |
| CloudState.RefreshAdopts | terraform/internal/cloud/state.go:373-402 | the current version is adopted as state and as what was read; without one only position is forgotten |
| CloudState.PersistSkipsExactly | terraform/internal/cloud/state.go:171-178 | nothing is uploaded iff state, lineage and serial are the ones read; then the call succeeds and changes nothing |
| CloudState.PersistUploadsNext | terraform/internal/cloud/state.go:179-208 | otherwise the state goes up under the same lineage and the next serial |
| CloudState.FirstPersistStartsAtOne | terraform/internal/cloud/state.go:180-201 | the first version of a workspace has a fresh lineage and the serial 1 |
| CloudState.StateManager.Unlock | terraform/internal/cloud/state.go:452-520 | releases the workspace unless an upload failed or the ID does not match |
| CloudRuns.StepKeepsInv | terraform/internal/cloud/tfe_client_mock.go:1549-1617 | every step of every manager keeps the invariant and only appends versions |
| CloudRuns.RunsAreSafe | terraform/internal/cloud/backend_context.go:47-64 | in every interleaving: one holder at most, one lineage, no version lost |
| CloudRuns.UnreachableCallsChangeNothing | terraform/internal/cloud/state.go:334-402 | a call that does not reach the server changes neither its manager nor the workspace |
| CloudState.UploadErrorMeaning | terraform/internal/cloud/state.go:231-235 | the upload error is remembered exactly from a failed upload on |
| CloudRuns.FailedUploadKeepsLock | terraform/internal/cloud/state.go:452-469 | while the upload error is remembered that manager's lock is never released, so nobody else gets it |
| CloudRuns.FailedPersistKeepsLock | terraform/internal/cloud/state.go:164-247 | from the start: after any run, a persist whose upload fails keeps the workspace locked through every later run |
| CloudState.PersistStep | terraform/internal/cloud/state.go:164-247 | whatever fails, the lineage stays, nothing but one version is appended, and what is remembered is current |
| CloudState.PersistPublishesExactly | terraform/internal/cloud/state.go:171-208 | a successful persist leaves the workspace holding the manager's state iff the manager remembers a version, there is none, or it equals the current one |
| CloudState.StayingInStepNeedsAState | terraform/internal/cloud/state.go:241-245 | a manager in step stays so under every outcome of a persist iff it has a state |
| CloudRuns.PersistPublishesLastWrite | terraform/internal/cloud/state.go:150-247 | after any run, a successful persist publishes the last write iff neither it nor a persist since that write was unsafe |
| CloudRuns.SuppliedPersistsPublish | terraform/internal/cloud/state.go:150-247 | if every persist has a state, every success publishes the last write |
| CloudRuns.SuppliedSerialsIncrease | terraform/internal/cloud/state.go:164-247 | and serials strictly increase as long as the counter cannot be exhausted |
| CloudState.PersistKeepsOrder | terraform/internal/cloud/state.go:171-208 | no outcome of a persist breaks the order of serials iff the next serial passes the one read: in step, and the 64-bit counter does not wrap |
| CloudRuns.SerialsIncrease | terraform/internal/cloud/state.go:164-247 | in every run, uploaded serials strictly increase iff no upload is made out of step or with a serial that does not pass the one read |
| CloudState.OutOfStepLosesTheWrite | terraform/internal/cloud/state.go:180-208 | out of step, persisting republishes the stored snapshot and loses the written state |
| CloudRuns.NilPersistLosesTheNextWrite | terraform/internal/cloud/state.go:164-247 | such a run: persist nothing, then write and persist |
| CloudRuns.UnlockTakesAnothersLock | terraform/internal/cloud/state.go:452-520 | an Unlock frees a lock another manager holds iff it reaches the server, no upload failed and it quotes its own lock ID, or the workspace name if it has none |
| CloudRuns.SecondUnlockReleasesAnother | terraform/internal/cloud/tfe_client_mock.go:2325-2347 | after any run, a second Unlock by a manager that has released the workspace frees whoever holds it by then |
| CloudRuns.SecondUnlockIsPossible | terraform/internal/cloud/tfe_client_mock.go:2325-2347 | there are such runs |
| Confirm.StepKeepsInv | terraform/internal/cloud/backend_common.go:442-554 | every step of every goroutine keeps the invariant |
| Confirm.FlagsOnlyRise | terraform/internal/cloud/backend_plan.go:219-251 | AutoApprove and the stop signal only go from false to true |
| Confirm.ChannelNeverBlocks | terraform/internal/cloud/backend_common.go:442-554 | no send or receive on the result channel ever blocks |
| Confirm.ChannelHoldsTwo | terraform/internal/cloud/backend_common.go:442-444 | the result channel holds two messages and no more |
| Confirm.OperationCanProceed | terraform/internal/cloud/backend_common.go:442-554 | in every reachable state the operation is over or can take a step itself |
| Confirm.OperationEnds | terraform/internal/cloud/backend_apply.go:150-191 | in no interleaving does it take more than thirteen steps of its own |
| Confirm.NilMeansConfirmed | terraform/internal/cloud/backend_common.go:442-554 | confirm returns nil only if the prompt returned the keyword |
| Confirm.AppliedOnlyIfConfirmed | terraform/internal/cloud/backend_apply.go:150-191 | at most one apply request, on an interactive run without a saved plan only after the keyword, never with a discard |
| Confirm.UndisturbedOutcome | terraform/internal/cloud/backend_apply.go:128-191 | without interference exactly the requests that follow from the answers are sent: in particular the keyword applies and anything else discards |
| Confirm.NobodySkipsThePrompt | terraform/internal/cloud/backend_apply.go:150-169 | in no interleaving does an interactive operation end unasked, unless the plan stops, the run cannot be confirmed or AutoApprove gets set |
| Confirm.StopWhilePromptingPreventsApply | terraform/internal/cloud/backend_common.go:497-513 | a stop signal during the prompt keeps the operation from applying, whatever else happens |
| Confirm.ApprovedElsewhereIsNotApplied | terraform/internal/cloud/backend_apply.go:184-191 | a run approved elsewhere is not applied again |
| Confirm.PollerReports | terraform/internal/cloud/backend_common.go:459-485 | what the poller reports: a failed read, a discard, an approval or override, or nothing |
| Confirm.ConfirmReports | terraform/internal/cloud/backend_common.go:497-551 | what confirm reports: the stop signal, a discard, or a failed request |
| Confirm.PollerCanProceed | terraform/internal/cloud/backend_common.go:446-495 | the poller is never stuck, and can end once confirm or a stop cancels it |
| Confirm.TimeoutApprovesPendingRuns | terraform/internal/cloud/backend_plan.go:219-251 | the lock timeout sets AutoApprove iff the run is still pending |
| Confirm.UnconfirmedGateNeedsAutoApprove | terraform/internal/cloud/backend_apply.go:150-191 | whenever an interactive operation without a saved plan reaches the gate unconfirmed, AutoApprove is set, and only that keeps the request back |
| FmtTokens.TrimNewlines | terraform/internal/command/fmt.go:534-550 | the tokens between the outer newlines, or a panic |
| FmtTokens.FormatValueExpr | terraform/internal/command/fmt.go:332-427 | computes the rewrite the lemmas below are about |
| FmtTokens.UnwrappedExactly | terraform/internal/command/fmt.go:332-393 | what is touched at all: a quoted string that is one interpolation, with template marks and literals only inside nested quotes |
| FmtTokens.TrimPanicsExactly | terraform/internal/command/fmt.go:534-550 | trimming panics iff there is something and it is all newlines |
| FmtTokens.NestingIsClosed | terraform/internal/command/fmt.go:348-358 | sequences, quotes and templates of well-nested tokens are well nested |
| FmtTokens.FormattingKeepsNesting | terraform/internal/command/fmt.go:332-427 | well-nested input gives the input back or a well-nested result at least two tokens shorter |
| FmtTokens.UnwrappingIsExact | terraform/internal/command/fmt.go:332-427 | the result is the trimmed interior, with a pair put around it iff it spans lines and does not both start and end with a parenthesis |
| FmtTokens.NewlinesStayOpenBetweenGroups | terraform/internal/command/fmt.go:395-427 | every newline of the result lies inside brackets, unless the interior starts and ends with parentheses and has a newline outside all brackets: exactly then not |
| FmtTokens.TwoGroupsStayOpen | terraform/internal/command/fmt.go:395-427 | such an input: two groups with a newline between them |
| FmtTokens.PanicsOnNewlinesOnly | terraform/internal/command/fmt.go:534-550 | panics iff the template holds nothing but newlines, which the syntax check excludes |
| FmtTokens.ExpressionsNeverPanic | terraform/internal/command/fmt.go:190-197 | an interior with a token that is no newline never panics, in any pass |
| FmtTokens.OnlyTheFirstPassPanics | terraform/internal/command/fmt.go:332-427 | repeated formatting panics iff the first pass does: a template around nothing but newlines |
| FmtTokens.FixedPointIsReached | terraform/internal/command/fmt.go:332-427 | repeated formatting reaches a fixed point within half the input's length iff the first pass does not panic |
| FmtTokens.SeveralInterpolationsStay | terraform/internal/command/fmt.go:348-393 | a string made of several interpolations is left alone |

## Left out

- Confirm: the goroutines are a transition system over their steps, not code; message texts, run status details and the wait between polls are left out, and the poller need not terminate.
- Network, filesystem, HTTP and terminal code, and the other commands.
- HCL lexing and cty beyond the four kinds of index key that the parsers tell apart; typed unknown values, on which cty itself panics.
- Diagnostic texts and source ranges: an error is a flag or None.
- Slice-capacity aliasing in append-based constructors: addresses are values, as `terraform/internal/addrs/doc.go` prescribes.
- Strings that are not valid UTF-8: strings are sequences of code points.
- The Unicode tables: `unicode.IsPrint` is a parameter, of which only `{` being printable is assumed.
- Go's sort functions: represented by their contract, an ordered permutation.
- Migration writes, forced pushes, disabled locks, workspace deletion, snapshot-interval headers and empty downloaded payloads in `cloud/state.go`; the server follows the repository's mock, which accepts any serial.
- State contents: snapshots are opaque values with equality, and encoding may fail but is otherwise faithful.
- The mutexes of the tracker and the state manager: methods are atomic steps.
- The tracker's address-keyed maps are maps on addresses, which UniqueKeysIdentify justifies for resource addresses; its status slices are values stored in the class's map rather than shared slices.
- Checkable outputs, inputs and check blocks are identified by module path and name only.
- Actions as targets and the action addresses, `InPartialExpandedModule`, deposed objects and the trivial address types: they would only repeat the patterns shown here.
- `addrs/graph.go` and the `dag` package.
- Unconditional transitivity of NestedWithin, and of TargetContains over all target types: false; NestingComposes and ContainmentComposes have the exact conditions.
- Heredocs and comments in `formatValueExpr`: they are ordinary tokens.
- Less on every set of resource instances: not total when one module holds two modes other than data; InstancesAreOrdered has the exact condition.
