# A verified model of the OCSF event-processing engine

The engine takes a JSON-like event and a compiled schema. Guided by the schema it walks the event, adds or removes
derived data (captions of enum values, called siblings, and observables, which are path/value pairs pointing back into
the event), and validates the result. The schema may be cyclic. This project states what the engine promises and proves
it of a model that follows the engine's code branch by branch.

The promises proved over whole runs:

- **Generation is exact.** The walk generates an observable if and only if the schema calls for it in the item the walk
  leaves, with the path, the type and the text of what stands there (`Generation.WalkExact`), and never two at one place
  (`Once.GeneratedOnce`).
- **The trusted suffix.** Every generated name parses, is defined by the class, uses its own notation and selects exactly
  its value in the final event. Validation, which skips generated entries on that ground, reports exactly what it would
  report without skipping, if and only if the event does not call for a new observation in its own observables: exactly
  then no appended entry leads back into them (`Trust.TrustedEntry`, `TrustedSuffix.ShortcutAgrees`). A caller can know
  before any event: when discovery foresees no observable in the class's own `observables`, the shortcut is exact on every
  event (`SelfReference.NeverLeadsBack`); where entries are observable themselves, the pipeline processes an event of the
  class on which it misses a finding (`SelfReference.ShortcutMisses`).
- **Safe removal is lossless.** For every enum action, whatever a run takes out of the observables the event it ends with
  still says, and what remains is the exact subsequence of the rest (`SafeRemoval.LosslessRemoval`). Removal undoes
  addition, whatever observables the event already held, under the same exact condition
  (`Undoing.RemovalUndoesAddition`).
- **Running again.** A second walk leaves every item alone under any enum action
  (`SecondRun.SecondWalkChangesNothing`). A second run that adds observables leaves the event alone exactly when nothing
  in it is left to settle and it calls for no new observation in its own observables
  (`SecondRun.SecondRunAddsNothing`). Where entries are observable themselves and names carry indexes it never comes to
  that: every further run makes the observables longer (`GrowingRuns.NeverSettles`).
- **Siblings round-trip.** Removal after addition is removal alone, exactly when no caption was synthesised for a 99;
  addition after removal is addition alone, up to null for absent, exactly when no removed caption was empty; for walks
  (`RoundTrip.WalkRoundTrips`) and for runs that read class and profiles off their own event
  (`OwnProfiles.RunsRoundTrip`).
- **Suppression only hides.** Two runs that differ in issue suppression or validation policy leave the same event,
  observables and counts, the same totals of shown and withheld diagnostics, and findings of the same codes but for those
  withheld (`Reporting.NonInterference`, `Engine.ProcessTwice`).
- **The walk ends** on every schema and every event graph, also while it adds and removes siblings in shared objects; it
  writes nothing but siblings, enters nothing that could not be entered before and, unless removal is forced, everything
  that could, along pairwise distinct names (`SharedGraph.VisitShared`, `Traversal.DepthBound`).
- **The fast paths are exact.** Judging an array element through typed accessors and value sets finds what judging the
  boxed value against the listed values finds, in order, with one exact exception
  (`PrimitiveValidation.FastPathAgrees`).

What these theorems mean by the schema calling for an observation, a name being defined, entries being the same, a value
being allowed or an issue being withheld is proved again from the data itself, so that no notion rests on its own
definition:

- **What is observed**: a scalar without an enum under the first declared of its type's, its name's, its attribute's and
  its class's observable type, an object under its definition's first, and nothing else (`Observed.ScalarObserved`,
  `Observed.ObjectObserved`, `Observed.NothingElseObserved`); every observation ends up as an entry
  (`Appending.NothingLost`); the traversal limit is reported exactly when the event nests an object under a name already
  entered (`Boundary.LimitExactly`).
- **What is said of an entry**: each finding of validation and each issue of safe removal exactly when there is an entry of
  the kind, and exactly the entries the event bears out are removed (`Verdicts.ObservablesFound`,
  `Verdicts.RemovalRaised`, `Verdicts.SafelyRemoved`); names are defined, written and selected along items and structural
  paths (`DefinedNames.DefinedExactly`, `NameGrammar.ReadExactly`, `SelectedPaths.SelectedExactly`,
  `SelectedPaths.MissingExactly`).
- **What becomes of a sibling**: by the enum's integers, captions and the number 99 (`SiblingRules.RemovalRule`,
  `SiblingRules.OtherKept`, `SiblingRules.ScalarAdditionRule`, `SiblingRules.ArrayAdditionRule`), told wherever a couple
  stands and nowhere else (`SiblingsTold.CouplesTold`).
- **What is asked and refused**: the walk asks each validation hook exactly where it should and finds what these answer
  (`Judgements.FoundExactly`, `Runs.RunFinds`), and reports as not observed exactly what should have been and could not
  (`Refusals.RefusedExactly`); removal and addition are told of once (`Runs.RemovedOnce`, `Runs.AddedOnce`).
- **What a scalar deserves**: type by type, with constraints inherited from the first type on the chain of parents that has
  them (`TypeRules.TextFound`, `TypeRules.NumberFound`, `Inherited.ConstraintsExactly`).
- **What is reported**: issue by issue and code by code (`Reported.IssueSeen`, `PolicyRules.Treatment`), and nothing the
  configuration does not ask for (`Configured.RunAskedFor`).

The rest is what these stand on, or what the engine precomputes: the path language and its resolver over shared and
cyclic arrays, object observability, the class trie, the numeric enum index, type inheritance, the validation policy,
semantic versions and exact numeric bounds.

## How the model is built

`Walk.dfy` and `Run.dfy` give the walk and the run as functions of the event that return the new event and, in order,
every effect: an observation, an issue, a finding, a count. The lemmas above are about these functions. The engine in its
own imperative form is `Context.dfy`, `Enrichment.dfy`, `EnrichmentRemoval.dfy`, `Dispatch.dfy`, `Process.dfy`,
`EventDone.dfy` and `Engine.dfy`: a mutable processing context, dispatcher loops and the recursive walk, each method
proved to do what the functions say, with the path restored. `Reporting.dfy` says what a list of effects amounts to under
a suppression and a policy.

| file | what it models |
|---|---|
| `Text`, `Values` | cutting, joining, decimal spellings; event values |
| `PathSeq`, `EventPath` | the element store; structural paths and their five renderings |
| `ObservablePath`, `Definedness` | parsing names; whether a class defines a name and a name uses a notation |
| `Resolution`, `Resolver`, `ResolvedTree` | what a name selects; the resolver over graphs; the two agree |
| `Bounds`, `GoValues`, `TypeValues` | float limits; Go scalars and array views; allowed values and their sets |
| `TypeInheritance`, `PrimitiveValidation` | type constraints and their resolution; validating scalars and array elements |
| `Schema`, `NumericEnum` | the traversal cache, enum indexes |
| `Observability`, `ClassTrie` | which objects may generate observables; class declarations |
| `Compilation` | from accepted definitions to a schema every run can use |
| `Walk`, `Settling`, `Generation`, `Once`, `RoundTrip` | the walk; what it leaves; what it generates; round trips |
| `Analysis`, `Collection`, `Run` | observable entries; deduplication and filtering; one whole run |
| `Observed`, `Refusals`, `Boundary`, `Judgements`, `SiblingsTold`, `Runs`, `Appending`, `SiblingRules`, `Verdicts`, `Configured`, `EventClass`, `Reported`, `PolicyRules` | what runs observe, append, remove, find and report, from the data |
| `NameGrammar`, `DefinedNames`, `SelectedPaths`, `Readings`, `TypeRules`, `Inherited`, `Foreseen`, `VersionGrammar` | what names, scalars, types, discovery and versions mean, from the data |
| `Trust`, `GeneratedEntries`, `TrustedSuffix`, `SafeRemoval`, `Undoing`, `SelfReference`, `SecondRun`, `GrowingRuns`, `OwnProfiles`, `Reporting` | the run's promises |
| `Mutations`, `Context`, `Enrichment`, `EnrichmentRemoval`, `Dispatch`, `Process`, `EventDone`, `Engine` | the imperative engine |
| `Policy`, `SemVer` | validation policy, versions |
| `Traversal`, `SharedGraph` | event graphs that share objects or contain themselves, read and changed |

What comes from outside is a parameter: the integer value of a number spelled with a fraction or an exponent
(`Decimal`), and the findings of the read-only validation hooks (`Judging`), which may be any function of the hook, the
path, the item and the value. The checking of the observables themselves is modelled in full.

Several modules restate a notion of the model in terms of schema, event and spelling alone, such as which profiles an
attribute is active in or which text a scalar has; they do so on purpose, as the independent side of an equivalence.

Where the documentation and the code differ the model follows the code. The documentation says generated entries satisfy
the full validation contract; the code rejects an observable whose path starts at `observables`, so the model states the
exact condition. A policy rule that suppresses a default level withholds mandatory codes too, which the documentation
says no policy can; the options never build such a rule, and the policy theorems say exactly when it has that effect. The
typed accessors read no scalar out of a reflected container of interfaces, such as a fixed array of `any`; the fast-path
theorem says exactly where that shows.

## Model

| member | source | states |
|---|---|---|
| Generation.WalkExact | internal/processing/process.go:360-590 | a visit generates an observable if and only if the schema calls for it in the item the visit leaves: right path, type id and text, through arrays, nested objects and enum siblings |
| Generation.CalledIsSound | internal/processing/enrichment.go:274-322 | whatever is called for has a path the schema admits, leading in the item to an object or to a scalar of exactly that text |
| Generation.PairExact | internal/processing/enrichment.go:128-160 | a pair is observed at its sibling as the pair leaves it, and no later step of the walk changes that |
| Observed.ScalarObserved | internal/processing/enrichment.go:274-350 | over the item the walk leaves: a visited scalar without an enum is observed with its text unless its type is derived from json_t, under the first declared of its type's, its name's, its attribute's and its class's observable type; a declaration that is not selected hides the later ones; no other type is observed there |
| Observed.ObjectObserved | internal/processing/enrichment.go:32-50 | a visited object is observed without a text under its definition's type, else as a scalar would be |
| Observed.NothingElseObserved | internal/processing/process.go:360-590 | every observation describes such a scalar or object of the item the walk leaves, at the place its path names |
| Boundary.LimitExactly | internal/processing/process.go:553-629 | the walk reports the traversal limit exactly when the item, as it came, holds an object of a defined type at a place whose attribute name was entered above, wherever that is |
| Judgements.FoundExactly | internal/processing/process.go:296-590 | a validating walk asks each hook exactly where it should: inactive, missing, present and paired attributes, wrong arrays, enum values, scalars, elements, wrong, undefined and entered objects before and after; it finds what these answer and nothing else |
| Refusals.RefusedExactly | internal/processing/enrichment.go:52-322 | over the item the walk leaves: an observable is reported as not added exactly at scalars of an observable type without a text or of a json_t type, and where something observable should be an array or an object and is not |
| SiblingsTold.CouplesTold | internal/processing/process.go:412-436 | a caption is told added or lacking, a 99 synthesised, a sibling kept with an issue, exactly when some couple of the item as it came has that outcome |
| SiblingsTold.UnsupportedRule | internal/processing/enrichment_removal.go:292-314 | a declared sibling is reported as unsupported exactly when it cannot be one; a removal clears that attribute if null, and else counts it as retained |
| Runs.RunFinds | internal/processing/process.go:206-250 | a run's findings are the answers before, along, after the walk and at the end, and those about the observables it ends with |
| Runs.RemovedOnce | internal/processing/process.go:222-244 | removal is told of once: of the event as it came without enum actions, else of the event the walk leaves |
| Runs.AddedOnce | internal/processing/process.go:222-250 | a run that adds tells of one addition, a run that does neither of nothing |
| Observed.ScalarOutcome | internal/processing/enrichment.go:274-322 | a scalar of an observable type that is not observed is reported: a json_t value as such, any other as of the wrong type |
| Appending.NothingLost | internal/processing/enrichment.go:448-505 | unless the observables are no list, the event ends with an entry of the name, type and text of every observation of its walk |
| Appending.AcceptedUnlessAgreeing | internal/observable/collection.go:92-153 | a generated entry is accepted unless it agrees in name, type and value with one that was there or an earlier one; a duplicate's source says which |
| Appending.AppendedNewOnly | internal/observable/collection.go:92-153 | appended entries agree neither with prior ones nor with one another |
| Appending.AdditionTold | internal/processing/enrichment.go:410-505 | prior entries first, accepted ones after; absent, null and empty lists, other values, the duplicates reported and the entries counted |
| Appending.EntryWritten | internal/processing/enrichment.go:536-563 | the fields of a generated entry, the type caption only when siblings are added too |
| SiblingRules.RemovalRule | internal/processing/enrichment_removal.go:140-271 | removal takes a sibling away exactly when it is null or its enum is integers other than 99 that, unless forced, mean its texts; else it stays and is counted |
| SiblingRules.OtherKept | internal/eventvalue/scalar.go:154-158 | an enum of 99, or with a 99 in its list, keeps its sibling under either removal |
| SiblingRules.ScalarAdditionRule | internal/processing/enrichment.go:352-408 | an absent or null sibling gets its enum's non-empty caption, reported when the value is 99; a value without one is reported |
| SiblingRules.ArrayAdditionRule | internal/processing/enrichment.go:162-226 | a list gets all captions or none |
| SiblingRules.LookedUpByText | internal/processing/process.go:96-125 | enums of texts are looked up by the text itself, enums of other scalars by the scalar's text |
| SiblingRules.WalkedSibling | internal/processing/process.go:412-436 | the walk leaves each active pair's sibling as these rules give it for the item as it came |
| Verdicts.EntryFound | internal/processing/validation.go:1757-1789 | for each kind of entry the one finding it gets, or none |
| Verdicts.ObservablesFound | internal/processing/validation.go:1720-1789 | 29, 30, 31, 32 and 33 are each found exactly when some entry has an unreadable name, a stray one, one that selects nothing, no object, or other values than its own |
| Verdicts.NotationFound | internal/processing/validation.go:1720-1789 | with a preferred notation, 48 is found exactly when some defined name is not written in it |
| Verdicts.NothingFound | internal/processing/validation.go:1720-1755 | observables that are no list get no finding |
| Verdicts.SuffixFound | internal/processing/validation.go:1720-1755 | the entries before the trusted suffix are analysed, the suffix is only checked for its notation, and only when that is not the preferred one |
| Verdicts.SuffixNotationFound | internal/processing/validation.go:1720-1755 | trusted entries get no finding but 48, and that exactly when a name is not written in the preferred notation |
| Verdicts.EntryRaised | internal/processing/enrichment_removal.go:443-468 | for each kind of entry the one issue it gets; and it is removable exactly when the event bears it out |
| Verdicts.SafelyRemoved | internal/processing/enrichment_removal.go:372-441 | safe removal leaves exactly the entries the event does not bear out, in order, and counts both |
| Verdicts.RemovalRaised | internal/processing/enrichment_removal.go:372-468 | each of its issues is raised exactly when there is an entry of the kind |
| Verdicts.InactiveStays | internal/observablepath/path.go:159-161 | an entry whose name passes an attribute outside the active profiles is never removed |
| Verdicts.NoArrayRemoved | internal/processing/enrichment_removal.go:372-418 | null observables go, other values that are no list stay with an issue |
| Verdicts.ForciblyRemoved | internal/processing/enrichment_removal.go:470-482 | forced removal takes the attribute whatever it holds and counts a list's entries |
| DefinedNames.DefinedExactly | internal/observablepath/path.go:146-186 | a name is defined if and only if its attributes stand, active and with at most one selector on arrays alone, each in the object the one before leads to, none followed twice; it meets the boundary if and only if one to be followed is the first to repeat |
| DefinedNames.NotationExactly | internal/observablepath/path.go:189-246 | a name uses a notation if and only if its root and each segment's selectors are so written |
| NameGrammar.ReadExactly | internal/observablepath/path.go:58-134 | a text reads as a name if and only if it spells it: parts with dots between, non-empty attributes, bracketed selectors, the root marker |
| SelectedPaths.SelectedExactly | internal/observablepath/path.go:264-432 | a name selects a value if and only if the value is no array and stands at a path the name spells |
| SelectedPaths.MissingExactly | internal/observablepath/path.go:318-423 | content is missing if and only if some path that a prefix spells leads to an empty array, a null, an object without the next attribute or an array with nothing for a selector |
| Readings.IntegerRead | internal/eventvalue/scalar.go:104-145 | what reads as an integer: Go integers, plain spellings, and exact ones with a fraction or exponent |
| Readings.IntegerRoundTrip | internal/eventvalue/scalar.go:64-145 | writing an integer out and reading it back loses nothing |
| EventClass.ProcessedAs | internal/schema/event.go:39-83 | an event of a known class is processed under it, with exactly the profiles its metadata lists |
| EventClass.NotProcessed | internal/processing/process.go:206-222 | any other event stays as it is, with the issue and the finding that tell why |
| Configured.RunAskedFor | internal/processing/pipeline.go:199-298 | no run makes an effect its configuration does not ask for |
| Reported.IssueSeen | internal/processing/issue_suppression.go:12-38 | a caller sees an issue as often as it is raised, or never: the four that tell of incomplete processing always |
| Reported.Counted | internal/processing/process.go:70-94 | the counters are the numbers of siblings and observables added, removed and retained |
| Reported.WithheldCounted | internal/processing/validation.go:2156-2199 | withheld errors and withheld warnings are counted apart |
| PolicyRules.Acceptable | internal/processing/config.go:126-174 | rules of the options are accepted if and only if they list valid codes, no mandatory one to suppress, and are not about one code with two actions |
| PolicyRules.Treatment | internal/processing/validation.go:2156-2199 | under accepted rules of the options the rule about a code decides its treatment, and without one its default level |
| TypeRules.WrongTypeFound | internal/processing/validation.go:1037-1124 | unknown types, unknown primitives and values that are not of the primitive |
| TypeRules.TextFound | internal/processing/validation.go:1037-1124 | a text too long, not matching, not listed, each by the declaring type, in order |
| TypeRules.NumberFound | internal/processing/validation.go:1322-1376 | a number outside the range, exactly when it is an integer, and not listed |
| TypeRules.TruthFound | internal/processing/validation.go:1037-1124 | a truth value not listed |
| TypeRules.ElementFound | internal/processing/validation.go:1128-1225 | an element as its boxed value, but of the wrong type through a reflected interface |
| TypeRules.ListsCompile | internal/validationcache/cache.go:212-264 | which lists of allowed values compile |
| Inherited.PrimitiveExactly | internal/validationcache/cache.go:124-165 | a type's primitive is where its chain of parents ends |
| Inherited.ConstraintsExactly | internal/validationcache/cache.go:166-201 | each constraint is that of the first type on the chain that declares it, or absent when none does |
| Inherited.RefusedExactly | internal/validationcache/cache.go:96-122 | a type's own values are refused exactly when its chain ends in a primitive they are not values of |
| Inherited.EndsSomewhere | internal/schema/schema.go:455-493 | inheritance terminates exactly when some chain ends |
| Foreseen.ForeseenExactly | internal/observable/discovery.go:46-103 | observables are foreseen in an object exactly when a chain of nested objects reaches one with an attribute observable itself, by the first declaration |
| Foreseen.AttributeForeseen | internal/observable/discovery.go:105-147 | the same for an attribute |
| VersionGrammar.GrammarExactly | internal/semver/semver.go:20-108 | well-formed versions are exactly the texts the grammar spells over its alphabet |
| VersionGrammar.TextOrder | internal/semver/semver.go:123-175 | a text is less than another by the first difference or as a proper beginning |
| Trust.AdmittedDefined | internal/observablepath/path.go:146-229 | the segments of an admitted path are defined by the class, in every notation, and use that notation |
| Trust.AdmittedSelected | internal/observablepath/path.go:264-432 | resolving the segments of an admitted path selects what stands at the path, in every notation |
| Trust.TrustedEntry | internal/processing/enrichment.go:536-563 | the entry for an observation parses, is defined, uses its notation and is redundant in the final event, unless it starts at the observables, when analysis rejects it |
| TrustedSuffix.TrustedFindings | internal/processing/validation.go:1720-1789 | full analysis of generated entries reports what the shortcut reports, or an invalid reference when one leads back |
| TrustedSuffix.ShortcutAgrees | internal/processing/validation.go:1720-1755 | skipping the generated suffix changes no finding if and only if the settled event calls for no new observation in its own observables; the same as that no appended entry leads back into them |
| GeneratedEntries.LeadsBackExactly | internal/processing/enrichment.go:448-505 | some appended entry leads back if and only if the schema calls, in the settled event, for an observation inside the observables that is unlike every prior entry; and then there were prior entries |
| SafeRemoval.LosslessRemoval | internal/processing/enrichment_removal.go:56-70 | for every enum action, each removed observable is still justified by the final event; the rest is the exact subsequence; removed and retained add up |
| SafeRemoval.FinalAfterRemoval | internal/processing/pipeline.go:199-298 | the final event is the analysed one with its observables removed: nothing after the analysis changes the event, deferred or not |
| SafeRemoval.SecondRemovalKeepsAll | internal/processing/enrichment_removal.go:372-441 | a second safe removal takes nothing more out |
| Undoing.RemovalUndoesAddition | internal/processing/enrichment_removal.go:372-441 | for every event, with observables of any form or none: adding observables and then safely removing gives what removal alone gives if and only if the settled event calls for no new observation in its own observables |
| Undoing.RemovesAppended | internal/observable/collection.go:217-286 | removal treats the prior entries as if nothing had been appended, and of trusted entries leaves exactly those that lead back |
| SelfReference.CalledIsForeseen | internal/observable/discovery.go:105-183 | whatever the schema calls for at or below an attribute, in any event, discovery answers that it may generate there |
| SelfReference.NothingLeadsBack | internal/processing/class_observables.go:82-85 | when discovery foresees nothing in the class's observables, no event makes a run generate an entry that leads back |
| SelfReference.NeverLeadsBack | internal/processing/validation.go:1720-1755 | for such schemas, on every event, the shortcut is exact and removal undoes addition |
| SelfReference.ShortcutMisses | internal/processing/validation.go:1720-1755 | for every pipeline that adds observables and every class of it whose observables are an array of observable objects there is an event that resolves to the class, is processed in full, and on which the shortcut misses a finding |
| SelfReference.SelfDescribingMisses | internal/observable/analysis.go:156-248 | one such pipeline and event spelled out, for any enum action, notations and validation hooks |
| SecondRun.SecondWalkChangesNothing | internal/processing/process.go:360-590 | under every enum action a second walk over any item changes nothing |
| SecondRun.SecondRunAddsNothing | internal/processing/enrichment.go:410-446 | a second whole run that adds observables, generating its own list from an event that now holds some, leaves the event as it is if and only if nothing in it is left to settle and it calls for no new observation in its own observables; the first holds when runs change no siblings or would change none in the appended entries, the second when discovery foresees nothing there |
| GrowingRuns.NeverSettles | internal/processing/enrichment.go:410-446 | in an indexed notation, for every class whose observables are an array of observable objects and every event of it whose last entry is described by none: after any number of runs one more makes the observables longer, as long as the arrays fit |
| GrowingRuns.SelfDescribingNeverSettles | internal/processing/enrichment.go:410-446 | one such pipeline and event spelled out |
| SecondRun.AddingAgain | internal/observable/collection.go:92-122 | what was generated once is not appended again, for observables of any form |
| Once.WalkOnce | internal/processing/process.go:360-590 | no two observations of a walk have the same path |
| Once.GeneratedOnce | internal/processing/enrichment.go:536-563 | a run's generated entries describe pairwise different places |
| OwnProfiles.RunsRoundTrip | internal/processing/process.go:206-250 | both sibling round trips for whole runs, each reading class and profiles from its own event |
| OwnProfiles.ClassKept | internal/processing/process.go:206-250 | the walk keeps the class an event names |
| OwnProfiles.ProfilesKept | internal/schema/event.go:50-85 | the walk keeps the profiles an event activates, unless they are an enum's sibling |
| Settling.VisitSettles | internal/processing/process.go:360-590 | the walk's effect on an item is independent of its order: each key settles by its own pair, nested object or clearing, and nothing else moves |
| Settling.PairFrame | internal/processing/enrichment_removal.go:140-201 | a pair step changes no key but the sibling |
| RoundTrip.RemovedExactly | internal/processing/enrichment_removal.go:140-271 | a sibling is removed exactly when it is null or the enum says all it says, element by element; a present sibling is counted once, removed or retained |
| RoundTrip.PairRemoveAfterAdd | internal/processing/enrichment.go:162-226 | for one pair, removal after addition equals removal alone exactly when no caption is synthesised for 99 |
| RoundTrip.RemoveAfterAdd | internal/processing/enrichment.go:352-408 | the same for whole items with nested objects and arrays |
| RoundTrip.AddAfterRemove | internal/processing/enrichment.go:520-534 | addition after removal equals addition alone, up to null for absent, exactly when no removed sibling spelled an empty caption |
| RoundTrip.WalkRoundTrips | internal/processing/process.go:360-436 | both round trips for the walk itself, at any path of any item |
| Walk.UnusedShrinks | internal/eventpath/path.go:74-91 | entering an object takes its attribute name out of the unused ones, the walk's recursion measure |
| Compilation.EnsureTraversalCache | internal/schema/schema.go:569-592 | the caches built for any accepted schema are what the engine's theorems require: every pipeline over them can run |
| Compilation.ValidateEnumSiblingRelationships | internal/schema/schema.go:519-538 | accepts exactly the schemas in which no two enums of an item share a sibling |
| Traversal.VisitGraph | internal/processing/process.go:360-590 | on any graph, shared or cyclic, the reading walk ends, restores the path, and enters exactly the objects reachable along names not yet used |
| SharedGraph.VisitShared | internal/processing/process.go:360-590 | the same while pair steps write siblings and nulls are cleared in shared objects: it ends, restores the path, writes nothing but siblings, and enters nothing that could not be entered before it started and, unless removal is forced, everything that could |
| SharedGraph.PairKept | internal/processing/enrichment_removal.go:140-271 | an enum step on a graph changes one sibling, makes nothing lead to an object that did not and, unless removal is forced, leaves every lead as it was |
| SharedGraph.SameEnterable | internal/processing/process.go:553-590 | graphs whose fields lead to the same objects have the same enterable paths |
| SharedGraph.StillEnterable | internal/processing/process.go:553-590 | taking leads away makes no path enterable |
| Traversal.EnteredDistinct | internal/processing/process.go:571-589 | the attribute names on the path to an entered object are pairwise distinct schema names |
| Traversal.DepthBound | internal/eventpath/path.go:74-91 | no entered path has more names than the schema |
| Engine.ProcessEvent | internal/processing/process.go:206-250 | the imperative engine leaves the event of the run and reports the run's effects under its suppression and policy |
| Engine.ProcessTwice | internal/processing/process.go:70-94 | two runs under any two suppressions and policies end with the same event, observables, counts and diagnostic totals, and the same codes but for those withheld |
| Engine.ProcessClass | internal/processing/process.go:222-244 | removal before or after the walk, the walk and the class hooks, in order |
| Engine.OnlyWalkObserves | internal/processing/process.go:222-244 | when observables are added, only the walk observes |
| Process.VisitItem | internal/processing/process.go:360-410 | one pass over the ordered attributes changes the item and the context as the walk says and restores the path |
| Process.VisitEnumSiblingPairAttributes | internal/processing/process.go:412-436 | every dispatcher, then validation, on a pair |
| Process.VisitPresentAttribute | internal/processing/process.go:438-468 | retention, judgement, then the value |
| Process.VisitArray | internal/processing/process.go:470-501 | wrong types, scalar arrays and element by element visits |
| Process.VisitScalarArray | internal/processing/process.go:503-529 | each element of a scalar array at its own index |
| Process.VisitObjectValue | internal/processing/process.go:553-590 | wrong types, missing definitions, the recursion boundary and entered objects |
| Context.ProcessContext.LookupNumericEnumDefinition | internal/processing/process.go:127-159 | the remembered number style never changes a lookup: always the definition under the value's canonical key |
| Context.ProcessContext.AddObservable | internal/processing/enrichment.go:536-563 | appends the entry for the current path |
| Context.ProcessContext.ReachTheLimit | internal/processing/process.go:612-629 | the traversal limit is reported once per event, whatever is suppressed |
| Context.Result.SuppressesIssue | internal/processing/process.go:88-94 | a withheld issue is counted, and only then |
| Enrichment.AddScalarValueObservable | internal/processing/enrichment.go:274-322 | generates for supported scalars, reports json_t and unsupported values |
| Enrichment.AddArrayValueObservables | internal/processing/enrichment.go:247-272 | the elements of a sibling array, each at its index |
| Enrichment.AddEnumSibling | internal/processing/enrichment.go:352-408 | adds the caption of a scalar enum, reports unusable values and synthesised 99 captions |
| Enrichment.AddEnumArraySibling | internal/processing/enrichment.go:162-226 | adds one caption per element, or none at all |
| Enrichment.CollectCaptions | internal/processing/enrichment.go:177-206 | captions exactly when every element has a usable one |
| EnrichmentRemoval.RemoveEnumSiblingPair | internal/processing/enrichment_removal.go:140-201 | safe or forced removal of a sibling with its count and its issue |
| EnrichmentRemoval.RemoveEnumArraySiblingPair | internal/processing/enrichment_removal.go:214-271 | the same element by element |
| EnrichmentRemoval.RetainUnsupportedEnumSibling | internal/processing/enrichment_removal.go:292-314 | an unsupported sibling is kept unless it is null |
| EnrichmentRemoval.RemoveObservablesSafely | internal/processing/enrichment_removal.go:372-441 | analyses every entry, reports it, and takes the redundant ones out |
| EnrichmentRemoval.ForceRemoveObservablesWithoutAnalysis | internal/processing/enrichment_removal.go:470-482 | deletes the attribute and counts its entries |
| Dispatch.DispatchPair | internal/processing/pipeline.go:162-181 | the dispatchers together do the enum step first, then observe what it left |
| Dispatch.DispatchClass | internal/processing/pipeline.go:83-107 | the observables removal happens once, before or after the walk as the enum action demands |
| Mutations.NewPipeline | internal/processing/pipeline.go:199-298 | for any two actions each component is handled once, enum siblings never after observables, and removal waits exactly when the walk changes siblings |
| EventDone.AddGeneratedObservables | internal/processing/enrichment.go:448-505 | appends the accepted entries after the existing ones, counts them, and remembers where they start |
| EventDone.OnEventDone | internal/processing/enrichment.go:410-446 | deletes null and empty arrays, leaves other values alone |
| EventDone.ValidateEventObservables | internal/processing/validation.go:1720-1755 | analyses the entries before the trusted suffix, then the notation of the suffix |
| Reporting.IssuesReported | internal/processing/process.go:70-94 | reported issues are the raised ones without the suppressed, in order; shown and withheld add up |
| Reporting.FindingsReported | internal/processing/validation.go:2156-2199 | reported findings are those the policy makes of the found codes, in order; shown and withheld add up |
| Reporting.NonInterference | internal/processing/issue_suppression.go:12-38 | whatever the reporters, the same observables and counts, equal totals, and issue by issue and code by code what each shows the other shows too unless it withholds it |
| Analysis.RemovableIsRedundant | internal/observable/analysis.go:156-248 | an entry is removable, and without a problem, exactly when its name is defined, does not lead back, and selects what the entry says |
| Analysis.VerdictIgnoresObservables | internal/observable/analysis.go:156-248 | two events that differ only in their observables give every entry the same verdict |
| Analysis.Analyze | internal/observable/analysis.go:132-154 | one entry per element, in order |
| Analysis.Analyzer.LimitEntries | internal/observable/analysis.go:100-105 | leaves out the entries from the limit on, and no others |
| Analysis.Analyzer.Next | internal/observable/analysis.go:109-127 | hands out the pending entries one by one |
| Collection.DeduplicateGenerated | internal/observable/collection.go:92-122 | splits the generated entries in order into the accepted and the duplicates, each with its source |
| Collection.AcceptedDistinct | internal/observable/collection.go:92-153 | accepted and duplicates number all; accepted identities are new and pairwise distinct |
| Collection.PassCovers | internal/observable/collection.go:92-122 | after a pass the list holds the like of everything generated |
| Collection.KnownAddsNothing | internal/observable/collection.go:92-122 | a pass accepts nothing whose like is present, in whatever order and however often it is generated |
| Collection.KeepRank | internal/observable/collection.go:236-254 | a kept entry stands at its rank: filtering is an exact subsequence |
| Collection.FilterRemovable | internal/observable/collection.go:217-286 | exactly the non-removable entries, or the precise error when the announced counts are wrong |
| Collection.RemovableCount | internal/observable/analysis.go:264-275 | the number of removable entries |
| ObservablePath.Parse | internal/observablepath/path.go:58-88 | the parser's loops read the name language, with its errors |
| ObservablePath.ParseSegment | internal/observablepath/path.go:90-134 | one segment with its selectors |
| ObservablePath.ReadBackExactly | internal/observablepath/path.go:58-134 | a rendered path parses to its own segments if and only if every one of them can be expressed and the text does not start like a root marker by accident |
| ObservablePath.RenderParseRoundTrip | internal/eventpath/path.go:117-187 | parsing a rendered path gives back its attributes and the style's selectors in all five notations, rooted exactly for JSONPath |
| EventPath.Path.RenderPath | internal/eventpath/path.go:117-187 | the single-attribute shortcut never changes the text |
| EventPath.ShortcutText | internal/eventpath/path.go:130-160 | with one attribute and nothing written for indexes the text is that attribute |
| EventPath.Path.HasPriorAttribute | internal/eventpath/path.go:74-91 | whether the name occurs before the current attribute |
| EventPath.NamesBeforeLast | internal/eventpath/path.go:74-91 | the names before the last attribute are those of the path cut there |
| PathSeq.Sequence.Push | internal/pathseq/sequence.go:20-33 | appends one element, inline or overflowing |
| PathSeq.Sequence.Pop | internal/pathseq/sequence.go:35-47 | takes the last element off, if any |
| PathSeq.PushThenPop | internal/pathseq/sequence.go:20-47 | a push and a pop leave any sequence as it was |
| Definedness.DefinitionOf | internal/observablepath/path.go:146-186 | follows a name through the schema to undefined, defined or the recursion boundary |
| Definedness.UsesNotationOf | internal/observablepath/path.go:189-229 | whether every array segment and the root use the notation |
| Resolver.ResolvePath | internal/observablepath/path.go:264-281 | found, matched and missing equal the declarative selection on every graph, shared or cyclic |
| Resolver.ResolveGeneral | internal/observablepath/path.go:272-281 | the worklist over segments is sound and complete |
| Resolver.ResolveSingle | internal/observablepath/path.go:287-316 | the no-array fast path agrees with the declarative selection whenever it answers |
| Resolver.ResolveSegmentCandidates | internal/observablepath/path.go:318-375 | one segment over nested arrays; skipping arrays seen before loses nothing |
| Resolver.ApplySelectors | internal/observablepath/path.go:377-423 | a selector list applied in turn, and whether something was missing |
| Resolver.MatchCandidates | internal/observablepath/path.go:425-456 | leaves found and matched, stopping at the first match |
| Resolver.ArrayIdentitySet.AddIdentity | internal/observablepath/path.go:467-488 | eight inline identities and an overflow map behave as one set |
| ResolvedTree.ResolveEvent | internal/observablepath/path.go:264-281 | on a graph that spells out an event the resolver answers what the event selects |
| ResolvedTree.MissesSame | internal/observablepath/path.go:318-375 | missing content on the graph is missing content of the event |
| Observability.CompileObjectObservability | internal/observable/discovery.go:46-103 | the backward worklist marks exactly the objects that lead to a direct observable, in any order, on cyclic graphs |
| Observability.ObjectMayGenerate | internal/observable/discovery.go:149-183 | the forward search that marks on entry gives the same answer |
| Observability.AttributeMayGenerateWith | internal/observable/discovery.go:105-129 | the same answer with the compiled cache or without |
| Observability.BackwardClosed | internal/observable/discovery.go:46-103 | a set closed backwards around the direct objects holds all that may generate |
| ClassTrie.CompileClassObservableTrie | internal/processing/class_observables.go:41-72 | the trie stands for the allowed declarations, in any order of insertion |
| ClassTrie.TypeIDOf | internal/processing/class_observables.go:74-80 | the declaration whose components are the path's attributes |
| ClassTrie.HasDeclarationAtOrBelow | internal/processing/class_observables.go:82-85 | whether some allowed declaration equals or extends the path's attributes |
| ClassTrie.DeclarationsAnswer | internal/processing/class_observables.go:41-103 | the compiled answers are those of the declaration map |
| NumericEnum.BuildIndex | internal/schema/numeric_enum.go:57-113 | dense, scan or map layout with 99 apart, compiled from the keys without overflow |
| NumericEnum.NumericEnumDefinition | internal/schema/numeric_enum.go:29-51 | for every int64 exactly the definition under its canonical decimal key |
| NumericEnum.LayoutsAnswer | internal/schema/numeric_enum.go:29-51 | what each layout holds at a value |
| NumericEnum.CanonicalShortcut | internal/schema/numeric_enum.go:53-55 | with canonical keys an exact spelling finds what the index finds |
| Schema.SetItemTraversalCache | internal/schema/schema.go:708-740 | sorted names, links both ways and indexes for an accepted item, with every unsupported relationship reported |
| Schema.ValidateItemEnumSiblingRelationships | internal/schema/schema.go:540-566 | accepts exactly the items in which no two enums share a sibling |
| Schema.SiblingTestsAgree | internal/schema/schema.go:742-805 | the acceptance test and the cache's test are the same relation |
| Schema.LinksDisjoint | internal/schema/schema.go:708-740 | linked enums and their siblings are disjoint |
| Schema.DispatchedExactlyOnce | internal/processing/process.go:360-410 | one pass dispatches each active attribute at exactly one slot, alone or in its pair |
| TypeInheritance.ValidateTypeInheritance | internal/schema/schema.go:455-493 | the three-colour check reports a cycle exactly when some type never reaches a primitive |
| TypeInheritance.ResolvePrimitiveType | internal/schema/schema.go:247-269 | the terminal primitive, or an error exactly on a cycle |
| TypeInheritance.TypeResolver.Resolve | internal/validationcache/cache.go:124-165 | memoised resolution gives each type its terminal and its nearest constraints |
| TypeInheritance.Build | internal/validationcache/cache.go:96-122 | in any order every type gets the constraints of its nearest ancestors, allowed values compiled for the primitive type it ends in; or a cycle, or values that primitive does not have, are reported, exactly when they exist |
| TypeValues.LayoutsAgree | internal/validationcache/cache.go:266-290 | searched or indexed, a value set holds what its list holds |
| TypeValues.CompileValueConstraint | internal/validationcache/cache.go:212-264 | succeeds exactly when the primitive has values and every listed one is such a value, and fills the set for that primitive alone |
| TypeValues.ContainsIsListed | internal/validationcache/cache.go:294-329 | the boxed test and the typed test both say whether some listed value is, as the primitive, the value |
| GoValues.AccessorsAgree | internal/eventvalue/array.go:60-232 | in every slice form the typed accessors read an element as its boxed value is read, and nothing out of reflected interfaces |
| PrimitiveValidation.FastPathAgrees | internal/processing/validation.go:1126-1225 | an element's findings equal its boxed value's if and only if it is not an accepted scalar in a reflected container of interfaces |
| PrimitiveValidation.ValidationProcessor.ValidatePrimitiveValue | internal/processing/validation.go:1037-1124 | the findings a boxed value deserves: unknown type or primitive, wrong type, then range, length, pattern and membership in the list declared by the nearest ancestor |
| PrimitiveValidation.ValidationProcessor.ValidateArrayPrimitiveValue | internal/processing/validation.go:1128-1225 | the same for an array element, pre-checks and integer detour included |
| PrimitiveValidation.ValidationProcessor.ValidateFloatRange | internal/processing/validation.go:1322-1339 | outside by the exact integer when there is one, else by the float64, against the bounds as numbers |
| TypeInheritance.TypeDerivedFrom | internal/schema/schema.go:228-243 | the step budget decides derivation even on cyclic dictionaries |
| TypeInheritance.BudgetExact | internal/schema/schema.go:228-243 | a derivation exists exactly when one exists within one step more than there are types |
| Policy.CompileValidationPolicy | internal/processing/config.go:126-174 | for any rules: succeeds exactly when each names codes or a level, explicit codes are valid, none suppresses a mandatory code and no code gets two actions |
| Policy.PolicyIsTable | internal/processing/validation.go:2156-2199 | the compact policy treats a code as its one action says, and reports a mandatory code, if and only if the last rule to set it is no suppression of its level |
| Policy.NothingOverlooked | internal/processing/config.go:190-231 | rules as the options build them never withhold a mandatory code |
| Policy.OrderIndependent | internal/processing/config.go:126-174 | neither success nor treatment depends on the order of rules, unless a suppression names a level and the code is mandatory |
| Policy.OrderMatters | internal/processing/config.go:126-188 | then it does: the same two rules withhold a mandatory code in one order and report it in the other |
| SemVer.Parse | internal/semver/semver.go:20-56 | accepts exactly the grammar of sections 2, 9 and 10 of Semantic Versioning 2.0.0 and reads each version in the one way it was written |
| SemVer.IdentifierList | internal/semver/semver.go:69-98 | the scan accepts exactly lists of well-formed identifiers |
| SemVer.ShortlexIsNumeric | internal/semver/semver.go:123-131 | comparing by length, then text, is comparing the numbers |
| SemVer.VersionOrder | internal/semver/semver.go:110-175 | reflexive, antisymmetric, transitive and total; equal exactly when core and prerelease agree |
| SemVer.CompareVersion | internal/semver/semver.go:110-121 | the cascade of early returns computes the comparison the order theorems are about |
| SemVer.CorePrecedence | internal/semver/semver.go:110-121 | section 11: by the numbers, major before minor before patch |
| SemVer.PrereleasePrecedence | internal/semver/semver.go:133-175 | section 11 for prereleases |
| SemVer.ComparePrerelease | internal/semver/semver.go:133-175 | the cutting loop compares the identifier lists |
| Bounds.FloatLessThanInt64 | internal/processing/validation.go:1350-1362 | equals real-number comparison for every finite float64 and int64, whichever nearest double the bound converts to |
| Bounds.FloatGreaterThanInt64 | internal/processing/validation.go:1364-1376 | the same for greater |
| Bounds.FloatOutsideRange | internal/processing/validation.go:1341-1346 | outside the range, or no finite number |
| Bounds.BoundConvertsExactly | internal/processing/validation.go:1348-1376 | where truncation meets the bound, the converted bound is the bound |

## Left out

- Events are values and an item is passed in and out of each method instead of being a map changed in place; aliasing between parts of an event is modelled only in the resolver and in `Traversal`.
- `SharedGraph.VisitShared` models control flow and sibling changes on graphs, not the observations and findings made on the way, which the tree model covers; after a forced removal it says what may be entered, not that all of it is: a sibling that led to objects may be gone before its turn.
- Go float values, Go array forms and reflection are modelled in `GoValues`; the walk's own events have spelled numbers, signed integers and one array form, and appending to an array never converts it.
- In the walk, validation of single attributes, requirements, constraints and versions is the `Judging` parameter. Scalar and array element validation is modelled in full in `PrimitiveValidation`; the others are each settled by reading one branch.
- Regular expression matching and the spelling of numbers as float64 are parameters of `PrimitiveValidation`.
- Diagnostic texts, details and diagnostic paths: an issue is its code, a finding its level and code.
- Definitions that are nil in the schema; every attribute, object and enum entry of the model has a definition.
- Lazily built caches and concurrent use: the class trie and the object observability are compiled for the run that reads them.
- Trust.TrustedEntry: assumes attribute names are non-empty and contain no dot or opening bracket, that no first name starts with a dollar sign outside JSONPath, and that arrays are no longer than Go slices can be; `ObservablePath.ReadBackExactly` shows that no other names can be read back.
- SelfReference.NothingLeadsBack: assumes the dictionary does not make `object_t` a scalar type; the converse does not hold: discovery ignores inactive attributes and the recursion boundary, so it may foresee what no event makes happen.
- RoundTrip.WalkRoundTrips: holds the active profile set fixed between the two walks; `OwnProfiles.RunsRoundTrip` does not.
- OwnProfiles.RunsRoundTrip: assumes the profiles list is not itself the sibling of an enum in the metadata object.
- SecondRun.SecondRunAddsNothing: unless runs change no siblings, assumes that the observables attribute is neither an enum nor an enum's sibling.
- GrowingRuns.NeverSettles: is about runs that leave siblings alone.
- Traversal.VisitGraph: only reads the graph; `SharedGraph.VisitShared` is the walk that also writes siblings.
- Process.VisitScalarArray: works on boxed elements; the typed accessors and the validation of elements through them are `PrimitiveValidation.ValidationProcessor.ValidateArrayPrimitiveValue`.
- The command line tool, schema loading from files, JSON reading, option plumbing and result wrappers.
- `ExpectedTypeUID`: one small function.
