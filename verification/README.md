# CellScript: a verified model

CellScript is a compiler and a set of protocol tools for CKB, the Cell-model chain of the Nervos network. This project
models five of its components in Dafny and proves what they are for.

**The generic monomorphizer** (`Types` to `OrderExample`). A worklist rewrites the types of one module, names every
template application by the hex of a canonical type text, and emits one concrete declaration per name. `Run` is proved
complete, minimal, bounded and closed, whatever names the module writes. Every declaration keeps its layout to every
finite depth if and only if no name the module writes is the symbol of an application it needs: then expanding the source
by template substitution and expanding the output through its declarations give the same tree. Every emitted
specialization is demanded by a chain of requests that starts in the module. A module is accepted if and only if its one
order of emission, least key first, completes (`Execution`), and every refusal shows a cause in the last state. The
printer and the parser of type texts are exact inverses under one condition, so a symbol determines its request. The
memoised provenance search decides acyclicity and height exactly.

**The deployment line** (`Interface`, `DeploymentLine`, `AdmissionLedger`). Receipts form a hash-linked upgrade history
whose head lives in one Cell with a Type ID Script (CKB RFC 0022). Interface compatibility is a preorder on valid
interfaces, so on every begin, advance and yank run the baseline check never fails after the predecessor check. In every
ledger run the Script is created once, has one live Cell, and that Cell commits the tip of one unbroken chain of
validated receipts. The chain is one that the constructors build under exact conditions, which the validators leave open.

**Canonical byte codecs** (`Molecule`, `PolicyWitness`, `NestedValues`, `EntryPayload`, `BoundedOutputs`). Encoders with
running totals and offsets, and strict decoders, in the table and vector layouts of CKB RFC 0008. Each pair is an exact
inverse in both directions; payload walkers accept exactly the payloads with a unique split.

**Protocol bundles** (`Sorting`, `Claims`, `ProtocolBundle`, `BundleOrder`). Claims over transaction slots are grouped
and compared. An empty report means a consistent ownership assignment, and the report does not depend on the order of
claims, closed roles and consumers.

**Two small algorithms** (`AliasAnalysis`, `ValueTerms`, `Conservation`, `EditDistance`). Recorded aliases hold where no
write disturbs them, and an action with conservation evidence conserves the amount exactly when the terms of its
variables say so. The two-row loop computes the edit distance, which is a metric and the length of a shortest edit path.

Code that works in steps keeps its form: the monomorphizer is a class whose methods change `origins`, `pending`,
`emitted` and `concretes`; loops over buffers, rows and cursors are loops with invariants; pure code is functions.
Methods are proved against specification functions or predicates, and the properties are proved about those.
`dafny verify dfyconfig.toml` checks every file.

Where the code does not meet an expected property, the code is modelled as it is, and the exact condition is proved:

- Only declared names are checked for the marker of generated symbols. A field that writes the symbol of an application
  is captured by its specialization, and the layout changes without a refusal (`CaptureExample.AcceptedAndChanged`).
  Layouts are kept if and only if the module is self-contained (`LayoutExactness.LayoutsKeptExactly`, and
  `Monomorphization.Monomorphize` for whole runs). A written symbol can also make an earlier symbol stop encoding its
  origin, which the final checks refuse (`OriginGrowth.EncodesOrLost`, `Monomorphization.ValidExactly`).
- A Cell declaration named like a built-in value type breaks the abilities derived for templates that use the name
  (`Abilities.ShadowedBuiltin`; `Abilities.DerivedAbilitiesExactly` gives the condition).
- Emission can disclose a Cell behind a template application, so the order of emission decides what a layout parameter
  admits (`AdmissionOrder.EmissionKeepsAdmission` gives the condition). Renaming one template turns an accepted module
  into a refused one (`OrderExample.RenamingRefuses`; `OrderExample.NameDecides` says exactly when).
- A type text with a mutable reference below an application does not parse back, because the printer strips its space
  (`SymbolNames.StrippedMutableReference`; `TypeRoundTrip.TreeRoundTrip` gives the condition). Two such arguments can
  share one symbol (`SymbolInjectivity.StrippedArgumentsClash`).
- The successor validator does not compare target profiles, runtime ABIs or the interface hash of the exact receipt, and
  takes stored reports at their word (`DeploymentLine.SuccessorIgnoresProfile`, `SuccessorIgnoresAbi`,
  `SuccessorIgnoresInterface`, `SuccessorTrustsReports`), so an admitted history on the ledger may change all of them
  (`AdmissionLedger.LedgerIgnoresExact`). `DeploymentLine.HistoryExactly` says exactly which validated histories are runs
  of the constructors.
- An alias is kept when its variable is assigned again, so conservation evidence can be wrong for a mutable local and for
  a branch (`Conservation.ReassignedNotConserved`, `Conservation.BranchNotConserved`; `Conservation.EvidenceExactly`
  gives the condition).

## Model

| member | source | states |
|---|---|---|
| `Types.CanonicalArgumentMeaning` | src/generics.rs:2075-2092 | depth-guarded normalisation of a generic argument fails exactly when the type nests more than 33 levels, and otherwise turns every empty tuple into Unit and changes nothing else |
| `Types.CanonNesting` | src/generics.rs:2075-2092 | normalisation keeps the nesting depth of every type |
| `Provenance.OriginHeight` | src/generics.rs:2457-2483 | the memoised visit of one origin returns its true height, keeps every memoised height true, and fails only if some origin is cyclic or too high |
| `Provenance.TypeHeight` | src/generics.rs:2484-2509 | the same for a type: a returned height is exact, a failure is never spurious |
| `Provenance.ValidateHeights` | src/generics.rs:2456-2522 | the provenance search, with its early cut-off on the active set, accepts an origin map if and only if every descent through origins and components is at most 32 long |
| `Provenance.AllFitIsBounded` | src/generics.rs:2456-2522 | bounded unfolding of every retained name is the same as every descent being bounded |
| `Provenance.BoundedIsAcyclic` | src/generics.rs:2456-2522 | no origin of an accepted map is met again on a descent from itself |
| `Provenance.BoundedUnfolds` | src/generics.rs:2453-2456 | over an accepted map every type unfolds within its own nesting plus the bound, so the recursion that renders its identity ends |
| `TextScan.SplitLoop` | src/generics.rs:2274-2308 | the counter loop over brackets and separators computes the recursive splitting function, errors included |
| `TextScan.SplitJoin` | src/generics.rs:2274-2308 | joining texts whose brackets are balanced and splitting them at top level gives the same list back |
| `TextScan.DecimalRoundTrip` | src/generics.rs:2310-2356 | the decimal text of every number below the bound parses to that number |
| `TypeRoundTrip.TreeRoundTrip` | src/generics.rs:2226-2356 | the identity text of a well-formed type parses back to it if and only if no written application holds a mutable reference, whose space the printer strips |
| `TypeRoundTrip.FreeTextHasNoMut` | src/generics.rs:2310-2356 | a text without white space never parses to a type with a mutable reference |
| `SymbolNames.RenderPrintsTree` | src/generics.rs:2226-2246 | rendering with retained origins prints the type with every generated name unfolded to its template and arguments |
| `SymbolNames.RoundTripExactly` | src/generics.rs:2226-2356 | parsing a rendered identity gives the unfolded type if and only if no written application in it holds a mutable reference |
| `SymbolNames.PlainRoundTripExactly` | src/generics.rs:2226-2356 | for a type without generated names the parse of its identity is the type itself, under the same exact condition |
| `SymbolNames.StrippedMutableReference` | src/generics.rs:2226-2238 | the failing family: an application to a mutable reference never round-trips |
| `SymbolNames.MonomorphNameInjective` | src/generics.rs:2172-2188 | two requests with one symbol have the same template and the same unfolded arguments, through hex, UTF-8 and the identity text |
| `OriginGrowth.RenderShrinks` | src/generics.rs:2226-2246 | retaining more origins never makes an identity text longer, and where it changes one the text gets strictly shorter |
| `OriginGrowth.SymbolAvoided` | src/generics.rs:2172-2188 | a symbol never stands in the arguments it is computed from, so no origin is retained below itself |
| `OriginGrowth.SoundGrows` | src/generics.rs:1229-1238 | retaining an origin under its symbol keeps provenance acyclic and every retained symbol longer than what its arguments unfold to, with no condition on the names a module writes |
| `OriginGrowth.EncodesOrLost` | src/generics.rs:2172-2188 | each time an origin is retained, every earlier symbol stays the one its origin encodes, or a name the module writes was retained below it and its text shrank |
| `OriginGrowth.LostIsNotEncoded` | src/generics.rs:2523-2530 | a symbol lost in this way fails the final re-encoding check |
| `Abilities.GuaranteedIsHad` | src/generics.rs:283-323 | an ability guaranteed from parameter constraints is had by every instance of the field type at admitted arguments, unless a Cell that took a built-in name stands there and lacks it |
| `Abilities.DerivedAbilitiesExactly` | src/generics.rs:260-323 | a template whose abilities were derived passes the concrete ability check, for every argument list the instantiation check admits, if and only if a Cell has all the derived abilities or no field shows a built-in name that a Cell took |
| `Abilities.ShadowedBuiltin` | src/generics.rs:1013-1115 | the failing family: a field of a built-in value name that a Cell declaration took |
| `AbilityGrowth.AbilitiesSteady` | src/generics.rs:1013-1115 | abilities of a type do not change when origins grow without capturing a name that the type or its declarations hold |
| `AbilityGrowth.GrowthIsSteady` | src/generics.rs:1229-1238 | in every state with the invariant of a run, growth that takes no written name is of that kind for all names of the module |
| `AbilityGrowth.DerivedAtEmission` | src/generics.rs:815-908 | when a self-contained module emits a template whose abilities were derived, the check on the rewritten fields in the grown state passes, but for a Cell that took a built-in name, in every state with the invariant of a run |
| `AdmissionOrder.EmissionKeepsAbilities` | src/generics.rs:1117-1135 | emitting a specialization leaves its abilities as they were if and only if no Cell is disclosed: none of its fields is a Cell once rewritten, or one without an application in it is |
| `AdmissionOrder.EmissionKeepsAdmission` | src/generics.rs:910-992 | a layout parameter admits an emitted specialization if and only if it admitted it before the emission and the emission discloses no Cell |
| `OrderExample.NameDecides` | src/generics.rs:688-701 | the failing family, as modules: a box of a specialization that hides a Cell is accepted if and only if the symbol of the box sorts before the symbol of what it holds, for every short name of the box template |
| `OrderExample.FirstLetterDecides` | src/generics.rs:688-701 | the same read off the first letter of the name |
| `OrderExample.Try` | src/generics.rs:164-172 | one run of the whole pass on such a module: it accepts exactly the names that sort first |
| `OrderExample.RenamingRefuses` | src/generics.rs:164-172 | two runs: a module is accepted, and the same module with one template renamed is refused |
| `Layout.TargetOfCanon` | src/generics.rs:2075-2092 | normalising empty tuples to Unit does not change a layout |
| `Layout.RewritingPreserves` | src/generics.rs:1473-1546 | where no name is captured, a field rewritten under a substitution has, to every depth, the layout of the substituted source field |
| `Layout.PreservesLayout` | src/generics.rs:666-719 | where no name is captured, expanding a source type by template substitution and expanding its rewritten form through the emitted declarations give the same tree to every depth |
| `Layout.NamePreserved` | src/generics.rs:666-719 | the same for every declared name |
| `Layout.UncapturedKeepsLayouts` | src/generics.rs:666-719 | an output that captures no name keeps the layout of every kept declaration |
| `SourceDemand.NeededWrites` | src/generics.rs:402-411 | every name in an application that the module needs, expanded in source terms, is one the module writes |
| `SourceDemand.UnmarkedIsSelfContained` | src/generics.rs:402-411 | a module that writes no name with the marker of generated symbols is self-contained: no name it writes is the symbol of an application it needs |
| `Correspondence.SubstitutedBecomes` | src/generics.rs:1473-1546 | rewriting under specialized arguments names what substituting the source arguments writes |
| `Correspondence.DemandedStands` | src/generics.rs:677-701 | every demanded specialization stands for an application the source needs |
| `Correspondence.NeededNamed` | src/generics.rs:677-701 | every application the source needs is named by a retained specialization of the output |
| `Correspondence.SymbolAgrees` | src/generics.rs:2172-2188 | the symbol of an uncaptured specialization is the symbol of the source application it stands for |
| `Captures.SelfContainedIsFree` | src/generics.rs:402-411 | the specialization of a self-contained module captures no written name and loses no symbol |
| `Captures.FreeIsSelfContained` | src/generics.rs:402-411 | a complete output that captures no written name comes from a self-contained module |
| `LayoutExactness.KeptIsFree` | src/generics.rs:666-719 | an output that keeps every declared layout captures no written name |
| `LayoutExactness.LayoutsKeptExactly` | src/generics.rs:666-719 | a complete output keeps every declared layout to every depth if and only if the module is self-contained, a condition on the source alone |
| `CaptureExample.NotSelfContained` | src/generics.rs:402-411 | the failing family at its smallest: a struct that writes the symbol of the application beside it |
| `CaptureExample.NeverBlocked` | src/generics.rs:402-411 | no state with the invariant of a run shows a cause of refusal of that module |
| `CaptureExample.AcceptedAndChanged` | src/generics.rs:164-172 | the whole pass accepts that module and changes its layout |
| `Declarations.KeptDeclarations` | src/generics.rs:677-686 | skipping the templates keeps every other declaration and its order |
| `Demand.DemandedByItem` | src/generics.rs:677-686 | rewriting a kept declaration retains only specializations that the module demands |
| `Demand.DemandedByOrigin` | src/generics.rs:815-908 | emitting a specialization retains only specializations that the module demands |
| `Worklist.RetainedOnce` | src/generics.rs:1229-1238 | while every symbol encodes its origin, one origin has one symbol |
| `Worklist.RefusedExactly` | src/generics.rs:1240-1262 | a request is refused exactly for nesting, for the length of its symbol, or for a symbol another origin holds, whatever bound it was rendered under |
| `Worklist.AllEmitted` | src/generics.rs:688-701 | when nothing is pending the emitted declarations are exactly the retained names |
| `Rejections.RewritesDetermined` | src/generics.rs:1473-1546 | rewriting a type has one result |
| `Rejections.RewritesNotStuck` | src/generics.rs:1473-1565 | a type that was rewritten has none of the causes of refusal |
| `Rejections.FieldsNotBlocked` | src/generics.rs:994-1011 | fields that were rewritten and have the declared abilities are not a cause of refusal, for any rewriting of them |
| `Rejections.CoherentEmits` | src/generics.rs:815-908 | emitting keeps the invariant of a run: retained, demanded, registered as emitted |
| `StringOrder.Least` | src/generics.rs:688-689 | the key taken from the worklist is the least one |
| `Monomorphization.Monomorphizer.constructor` | src/generics.rs:378-470 | templates with derived abilities and the prelude, Cell names and concrete declarations are registered, and the worklist starts empty and valid |
| `Monomorphization.Monomorphizer.RetainOrigin` | src/generics.rs:1229-1238 | an origin is retained unless another holds its symbol, and retained origins stay acyclic, known and encoded unless lost |
| `Monomorphization.Monomorphizer.Enqueue` | src/generics.rs:1240-1287 | a request is refused exactly when it must be; otherwise its origin is retained under its symbol, nothing else is, and every retained name is pending or emitted but not both |
| `Monomorphization.Monomorphizer.Queue` | src/generics.rs:1283-1286 | a key is queued only if it is neither queued nor emitted |
| `Monomorphization.Monomorphizer.RewriteType` | src/generics.rs:1473-1565 | the result is the specialized form of the type; what is retained on the way is asked for inside the type; a failure means the type is stuck |
| `Monomorphization.Monomorphizer.RewriteSettled` | src/generics.rs:1512-1515 | a parameter becomes its argument, and rewriting the argument again asks for nothing new |
| `Monomorphization.Monomorphizer.NameApplication` | src/generics.rs:1486-1514 | an application of a template becomes the retained name of its rewritten arguments, or its request is refused |
| `Monomorphization.Monomorphizer.RewriteAll` | src/generics.rs:1473-1546 | the same for a list of types, in order, with the outcome of the execution |
| `Monomorphization.Monomorphizer.RewriteNext` | src/generics.rs:1473-1546 | one more type of a list |
| `Monomorphization.Monomorphizer.RewriteFields` | src/generics.rs:1423-1444 | fields are rewritten in order, keeping variant and name; a failure means some field type is stuck, and a success that none is while every symbol encodes its origin |
| `Monomorphization.Monomorphizer.RewriteItem` | src/generics.rs:1289-1349 | a failure means that the fields of a kept declaration are stuck or, unless it is a Cell, lack the abilities it declares; a success means neither, while every symbol encodes its origin |
| `Monomorphization.Monomorphizer.RewriteKept` | src/generics.rs:677-686 | rewriting one kept declaration keeps the invariant, or the module is blocked |
| `Monomorphization.Monomorphizer.RewriteNextItem` | src/generics.rs:677-686 | one more declaration of the module, in order |
| `Monomorphization.Monomorphizer.RewriteItems` | src/generics.rs:677-686 | all kept declarations are rewritten in order, retaining only what the module demands, or one of them is blocked |
| `Monomorphization.Monomorphizer.Instantiate` | src/generics.rs:815-908 | the emitted declaration is the template at its arguments, its arguments were admitted, its abilities hold and it is registered; a failure means the request is blocked or its symbol was lost |
| `Monomorphization.Monomorphizer.Specialize` | src/generics.rs:824-848 | the same from admitted arguments on: the fields are rewritten and checked, and the declaration is registered |
| `Monomorphization.Monomorphizer.RewriteTemplate` | src/generics.rs:830-833 | the fields of a template at the arguments of a request, or the stuck field |
| `Monomorphization.Monomorphizer.Register` | src/generics.rs:842-848 | a specialization is registered exactly when its fields have its abilities |
| `Monomorphization.Monomorphizer.TakeLeast` | src/generics.rs:688-692 | the request that is next in the order of keys moves from pending to emitted, for the first time |
| `Monomorphization.Monomorphizer.EmitRequest` | src/generics.rs:699-700 | emitting keeps the invariant, or the module is blocked |
| `Monomorphization.Monomorphizer.EmitTaken` | src/generics.rs:690-700 | a taken request is emitted within the budget, or the execution stops at it |
| `Monomorphization.Monomorphizer.EmitNext` | src/generics.rs:688-701 | one step of the execution: the least key is emitted with its specialization, or the execution stops and the module is blocked |
| `Monomorphization.Monomorphizer.EmitAll` | src/generics.rs:688-701 | the worklist terminates; on success nothing is pending and each of at most 256 keys was emitted exactly once, in order; on failure the execution stops in the last state |
| `Completion.RunIsComplete` | src/generics.rs:666-719 | kept and emitted declarations have distinct names, every retained origin is declared as its template at its arguments, and nothing else is declared |
| `Completion.OutputIsClosed` | src/generics.rs:688-701 | every name in every field of the output is declared in it or written by the module, and every retained name is declared |
| `Completion.SymbolsEncode` | src/generics.rs:2523-2530 | the final loop accepts if and only if every symbol is the one its origin encodes |
| `Completion.ValidateOrigins` | src/generics.rs:2456-2532 | the final checks pass if and only if declarations and origins agree, provenance is bounded and every symbol encodes its origin |
| `Monomorphization.ValidExactly` | src/generics.rs:2456-2532 | after a finished worklist the final checks can fail only for the height of provenance or for a lost symbol |
| `Monomorphization.SelfContainedKeepsSymbols` | src/generics.rs:2523-2530 | no state with the invariant of a run of a self-contained module loses a symbol or captures a written name |
| `Monomorphization.FinishedIsComplete` | src/generics.rs:666-719 | a finished worklist whose symbols all encode gives a complete and closed output with one declaration for each retained name |
| `Monomorphization.Monomorphizer.Run` | src/generics.rs:666-719 | on success the output is complete, closed, within the budget and of bounded provenance, and the execution completes; on failure the execution fails, and the last state shows a cause |
| `Monomorphization.Monomorphizer.Finish` | src/generics.rs:703-719 | the last checks decide between the two |
| `Monomorphization.Monomorphize` | src/generics.rs:164-172 | a whole module, whatever names it writes: it succeeds if and only if the declarations are allowed and its one order of emission completes; then every specialization is demanded, the output is complete and closed, and every declared layout is kept if and only if the module is self-contained; on failure a declaration is not allowed or the last state shows a cause |
| `Execution.SymbolIs` | src/generics.rs:2172-2188 | the symbol of an origin does not depend on the bound it is rendered under |
| `Execution.SameEnd` | src/generics.rs:688-701 | two executions from one state end in the same state, since the least key is next |
| `Execution.SucceedsOrFails` | src/generics.rs:666-719 | a module whose execution completes has no execution that stops or fails the last checks |
| `SymbolInjectivity.UnfoldInjective` | src/generics.rs:2226-2246 | among resolved types over origins with one symbol for each origin, unfolding generated names forgets nothing |
| `SymbolInjectivity.SymbolsInjective` | src/generics.rs:2172-2188 | over such origins, and for arguments whose texts parse back, a symbol determines its template and its argument list |
| `SymbolInjectivity.SpeakableNeverClashes` | src/generics.rs:1229-1262 | over such origins a request whose texts parse back is never refused for a clash, only for the length of its symbol |
| `SymbolInjectivity.StrippedArgumentsClash` | src/generics.rs:2226-2246 | the failing family: an application of a mutable reference to x and one of a reference to mutx differ and have one symbol |
| `SymbolInjectivity.StrippedRequestRefused` | src/generics.rs:1229-1238 | where one of the two is retained the other is refused |
| `Interface.ReflexiveExactly` | src/interface.rs:312-451 | an interface is compatible with itself if and only if it is valid |
| `Interface.Transitive` | src/interface.rs:399-451 | compatibility is transitive, with the module builder-hash exception for added callables |
| `Interface.AddedTransitive` | src/interface.rs:418-420 | a callable added on the way is added overall |
| `Interface.Compare` | src/interface.rs:399-451 | the report says compatible exactly when the after-interface keeps what the before-interface exported, and exactly when no change in it is breaking |
| `Interface.CompareTypes` | src/interface.rs:545-595 | a breaking change is pushed exactly when some exported type is lost or changed incompatibly |
| `Interface.CompareType` | src/interface.rs:545-595 | the per-type comparison, as a relation of the two types |
| `Interface.CompareCallables` | src/interface.rs:597-656 | a breaking change is pushed exactly when a callable is lost, and a builder change whenever one is added |
| `Interface.CompareCallable` | src/interface.rs:597-656 | the per-callable comparison, including which changes touch the builder |
| `Interface.CompareParameters` | src/interface.rs:665-686 | parameter lists break unless arity, names and phantom flags stay and no constraint is added; relaxed means some constraint was dropped |
| `Interface.CompareConstants` | src/interface.rs:688-704 | a breaking change is pushed exactly when an exported constant is lost or changed |
| `DeploymentLine.BeginExactly` | src/deployment_line_handle.rs:187-230 | a line begins exactly when the interface is valid and hashes to the receipt, the code is pinned by type hash and the coordinate names a package |
| `DeploymentLine.AdvanceExactly` | src/deployment_line_handle.rs:232-283 | a line advances exactly when every precondition holds and both the predecessor and the baseline interface are kept |
| `DeploymentLine.AdvancedIsValid` | src/deployment_line_handle.rs:232-283 | the receipt an advance builds passes the successor validator |
| `DeploymentLine.YankExactly` | src/deployment_line_handle.rs:285-304 | a line is yanked exactly when its head is active and the sequence does not overflow |
| `DeploymentLine.LineKeeps` | src/deployment_line_handle.rs:187-304 | on every run the sequence is the position, receipts stay valid, and line identity, target profile and runtime ABI never change |
| `DeploymentLine.LineSteps` | src/deployment_line_handle.rs:381-431 | on every run each receipt links the hash of its predecessor, active steps upgrade the version and a yanked receipt is last |
| `DeploymentLine.VersionsIncrease` | src/deployment_line_handle.rs:898-907 | versions strictly increase between any two receipts of a run that ends active |
| `DeploymentLine.HeadDetermines` | src/deployment_line_handle.rs:381-437 | two runs with one head are the same history, or two of their receipts collide |
| `DeploymentLine.LineIsCompatible` | src/deployment_line_handle.rs:232-283 | without interface hash collisions every interface of a run keeps the first one |
| `DeploymentLine.BaselineNeverFails` | src/deployment_line_handle.rs:250-253 | once the predecessor check passes, the baseline check passes too |
| `DeploymentLine.InitialExactly` | src/deployment_line_handle.rs:306-379 | a validated first receipt is the one a line begins with if and only if all its interface hashes are those of one valid interface |
| `DeploymentLine.SuccessorExactly` | src/deployment_line_handle.rs:381-431 | a validated upgrade is the one advancing builds if and only if it keeps target profile and runtime ABI, states the hash of its own interface, and the interfaces behind its reports are compatible |
| `DeploymentLine.WithdrawalExactly` | src/deployment_line_handle.rs:285-304 | a validated withdrawal is the one yanking builds if and only if the interface behind it is valid |
| `DeploymentLine.HistoryExactly` | src/deployment_line_handle.rs:306-431 | a whole validated history is a run of the constructors if and only if it starts from its first interface and every step keeps what the validators do not check |
| `DeploymentLine.SuccessorIgnoresProfile` | src/deployment_line_handle.rs:381-431 | the validator accepts a successor with any other target profile, and advancing refuses it |
| `DeploymentLine.SuccessorIgnoresAbi` | src/deployment_line_handle.rs:381-431 | the same for the runtime ABI |
| `DeploymentLine.SuccessorIgnoresInterface` | src/deployment_line_handle.rs:381-431 | the same for the interface hash of the exact receipt |
| `DeploymentLine.SuccessorTrustsReports` | src/deployment_line_handle.rs:361-372 | the validator accepts incompatible interfaces under stored reports that call them compatible |
| `AdmissionLedger.SerializeInjective` | src/deployment_line_handle.rs:674-688 | the serialized first input determines the input |
| `AdmissionLedger.TypeIdBytesInjective` | src/ckb_abi.rs:135-138 | the hashed Type ID bytes determine the first input |
| `AdmissionLedger.CountOne` | src/deployment_line_handle.rs:658-672 | a group count of one means the one position that carries the Script |
| `AdmissionLedger.SpentStays` | src/deployment_line_handle.rs:554-643 | an out point spent in a run is never live again |
| `AdmissionLedger.CreatedOnce` | src/deployment_line_handle.rs:554-688 | in every run an admission Script is created at most once; the counts are per transaction, so this rests on the first-input derivation |
| `AdmissionLedger.Touched` | src/deployment_line_handle.rs:554-643 | a validated transition leaves exactly the old live Cells it did not spend and the new one, which commits the next receipt |
| `AdmissionLedger.ReplacementSpends` | src/deployment_line_handle.rs:554-643 | a replacement spends the live Cell that commits its predecessor |
| `AdmissionLedger.AlwaysSettled` | src/deployment_line_handle.rs:554-688 | after creation there is exactly one live Cell in every state of every run, and it commits the tip of one unbroken receipt chain |
| `AdmissionLedger.LedgerIgnoresExact` | src/deployment_line_handle.rs:554-643 | the ledger admits an upgrade whatever target profile, runtime ABI and interface hash its exact receipt states |
| `AdmissionLedger.PublishedExactly` | src/deployment_line_handle.rs:554-643 | in every run the published history is a run of the constructors exactly under the conditions on receipts and interfaces |
| `Molecule.WriteHeader` | src/nested_builder.rs:113-119 | the loop writes the total size and the start of every field |
| `Molecule.WriteTable` | src/nested_builder.rs:113-123 | the written bytes are the table of the fields |
| `Molecule.ReadFields` | crates/cellscript-artifact-checker/src/code_origin/molecule.rs:19-36 | the reader succeeds exactly on tables and returns the fields between the offsets |
| `Molecule.TableReads` | crates/cellscript-artifact-checker/src/code_origin/molecule.rs:19-36 | a reader following the offsets of a table recovers exactly its fields |
| `Molecule.TableIsCanonical` | crates/cellscript-artifact-checker/src/code_origin/molecule.rs:19-36 | bytes the reader accepts are the table of what it returns |
| `PolicyWitness.RecordDecodes` | src/policy_witness.rs:202-220 | a record decodes to itself |
| `PolicyWitness.RecordIsCanonical` | src/policy_witness.rs:202-220 | bytes that decode to a record are the bytes of that record |
| `PolicyWitness.HasRepeatedKey` | src/policy_witness.rs:98-102 | comparing neighbours of the sorted list finds a repeated key if and only if there is one |
| `PolicyWitness.Measure` | src/policy_witness.rs:104-113 | the running total is the bundle size, and it stops exactly where the limits are broken, with the error of the first offender |
| `PolicyWitness.WriteRecord` | src/policy_witness.rs:123-133 | the written bytes are the record |
| `PolicyWitness.WriteBundle` | src/policy_witness.rs:115-134 | the written bytes are the bundle of the ordered records, offsets included |
| `PolicyWitness.Encode` | src/policy_witness.rs:96-135 | the encoder computes the specified encoding, errors included |
| `PolicyWitness.EncodingIsCanonical` | src/policy_witness.rs:96-135 | an encoding is the bundle of the key-sorted records |
| `PolicyWitness.EncodingIgnoresOrder` | src/policy_witness.rs:96-135 | every permutation of the records encodes to the same result |
| `PolicyWitness.DecodeRecords` | src/policy_witness.rs:156-173 | the offset loop accepts exactly the decodable vectors and returns their records |
| `PolicyWitness.DecodeVector` | src/policy_witness.rs:144-174 | the same for the whole vector with its header |
| `PolicyWitness.Decode` | src/policy_witness.rs:139-174 | the decoder computes the specified decoding, with the size and magic errors |
| `PolicyWitness.DecodingExactly` | src/policy_witness.rs:139-174 | bytes decode to a list if and only if the list is valid and key-sorted and the bytes are its bundle |
| `PolicyWitness.DecodeEncoded` | src/policy_witness.rs:96-174 | decoding an encoding gives the key-sorted records |
| `PolicyWitness.EncodeDecoded` | src/policy_witness.rs:96-174 | encoding a decoded bundle gives the same bytes |
| `PolicyWitness.SelectedExactly` | src/policy_witness.rs:180-186 | selection by role and script hash finds exactly the record with both |
| `NestedValues.MeasureValues` | src/nested_builder.rs:187-213 | the measured total is the encoded size, and measuring fails exactly when the values break the contract |
| `NestedValues.WriteElement` | src/nested_builder.rs:221-236 | the written bytes are the element |
| `NestedValues.EncodeValues` | src/nested_builder.rs:184-239 | encoding succeeds exactly on accepted values and writes their encoding |
| `NestedValues.CheckValues` | crates/cellscript-artifact-checker/src/bounded_nested.rs:115-150 | the checker computes the specified check |
| `NestedValues.EncodingChecks` | crates/cellscript-artifact-checker/src/bounded_nested.rs:115-150 | the checker recovers exactly the encoded values |
| `NestedValues.CheckedIsCanonical` | crates/cellscript-artifact-checker/src/bounded_nested.rs:115-150 | bytes the checker accepts are the encoding of accepted values |
| `NestedValues.BoundCell` | src/nested_builder.rs:33-82 | the declared bound is the maximum size, and it exists exactly for valid cell layouts |
| `NestedValues.EncodeField` | src/nested_builder.rs:101-106 | a field is encoded exactly when an input of its shape is given |
| `NestedValues.EncodeFields` | src/nested_builder.rs:97-112 | the total is the size of the table of the fields |
| `NestedValues.EncodeCell` | src/nested_builder.rs:87-124 | encoding succeeds exactly on fitting inputs, writes the table of the fields and stays within the declared bound |
| `NestedValues.CellReads` | src/nested_builder.rs:87-124 | a reader recovers every field of an encoded cell, and the checker recovers the nested values in it |
| `EntryPayload.Advance` | src/assumptions.rs:1541-1569 | one step moves over exactly one parameter, or the payload has no split |
| `EntryPayload.WalkFixed` | src/assumptions.rs:1528-1581 | the cursor loop computes the fixed-width lookup |
| `EntryPayload.WalkSchema` | src/assumptions.rs:1583-1632 | the cursor loop computes the schema lookup |
| `EntryPayload.SplitExactly` | src/assumptions.rs:1528-1640 | a payload splits into the given parts if and only if they fit the parameters and concatenate to it, so the split is unique |
| `EntryPayload.PartsExactly` | src/assumptions.rs:1528-1640 | both walkers see one split: the magic and one part per consuming parameter, no gap and no trailing byte |
| `EntryPayload.FixedExactly` | src/assumptions.rs:1528-1581 | the fixed lookup returns bytes if and only if they are the part of the target in the split |
| `EntryPayload.SchemaExactly` | src/assumptions.rs:1583-1632 | the schema lookup returns a value if and only if it is the length-prefixed part of the target in the split |
| `EntryPayload.InputTypeExactly` | src/assumptions.rs:1310-1336 | the witness parser returns a value if and only if the bytes are a three-field table whose second field is that value with its length |
| `BoundedOutputs.OverlapShows` | src/assumptions.rs:353-366 | checking bytes already written finds an overlap exactly when two bindings overlap |
| `BoundedOutputs.WriteBinding` | src/assumptions.rs:354-365 | a binding is written exactly when it is in range and fresh; the bytes it covers come from the plan and the others stay |
| `BoundedOutputs.WriteBindings` | src/assumptions.rs:350-366 | all bindings are written exactly when they are in range and disjoint |
| `BoundedOutputs.ValidateOne` | src/assumptions.rs:332-389 | an output passes exactly when it is the plan element: bytes, coverage, lock and capacity |
| `BoundedOutputs.GroupExactly` | src/assumptions.rs:291-298 | the group indexes are the increasing list of the outputs that carry the Script |
| `BoundedOutputs.Validate` | src/assumptions.rs:244-315 | validation accepts exactly when the group is the index list and every output materializes its own plan element |
| `BoundedOutputs.AcceptedReadsOwnElement` | src/assumptions.rs:320-389 | on acceptance no binding reads past its own plan element and no other output is in the group |
| `BoundedOutputs.TilesOnce` | src/assumptions.rs:353-369 | every output byte is covered by exactly one binding |
| `Claims.Detect` | src/protocol_bundle.rs:1706-1837 | grouping claims by slot and comparing them pushes exactly the conflicts of the claims |
| `Claims.DetectGroup` | src/protocol_bundle.rs:1791-1835 | the conflicts of one group |
| `Claims.DetectShared` | src/protocol_bundle.rs:1792-1802 | a sharing conflict is pushed exactly when a slot has more exclusive claims than its kind allows |
| `Claims.DetectDistinct` | src/protocol_bundle.rs:2044-2067 | a value conflict is pushed exactly when two claims of a group differ in an aspect both state |
| `Claims.ConflictsPermute` | src/protocol_bundle.rs:1706-2067 | the conflicts of a claim list do not depend on its order |
| `Claims.Quiet` | src/protocol_bundle.rs:1706-2067 | without conflicts, claims on one slot agree on every aspect both state and the slot is not contested |
| `Claims.ReportLists` | src/protocol_bundle.rs:1507-1509 | sorting and dropping repeats lists exactly the conflicts, strictly ordered |
| `Claims.StrictListUnique` | src/protocol_bundle.rs:1507-1509 | a strictly ordered list is determined by its elements |
| `ProtocolBundle.ResolveConsumers` | src/protocol_bundle.rs:1362-1376 | consumers resolve exactly when each names one participant and no artifact repeats, and they are those participants in order |
| `ProtocolBundle.ResolveRole` | src/protocol_bundle.rs:1343-1392 | a binding resolves exactly when all its references do, to the role with exactly those participants, ordered |
| `ProtocolBundle.ResolveClosedRoles` | src/protocol_bundle.rs:1334-1396 | all bindings resolve exactly when ids are distinct and each resolves; every binding has its role in the ordered result |
| `ProtocolBundle.ResolvedRoles` | src/protocol_bundle.rs:1334-1455 | resolved roles have every artifact and claim the detection looks up |
| `ProtocolBundle.DetectClosedRole` | src/protocol_bundle.rs:1543-1678 | the conflicts pushed for one closed role are exactly those of its provider and consumers |
| `ProtocolBundle.DetectClosed` | src/protocol_bundle.rs:1543-1678 | the same for all closed roles |
| `ProtocolBundle.DetectArtifacts` | src/protocol_bundle.rs:1680-1704 | artifact conflicts are pushed exactly for clashing artifacts |
| `ProtocolBundle.DetectConflicts` | src/protocol_bundle.rs:1496-1541 | detection refuses exactly the bundles with unknown references, and otherwise reports exactly the conflicts, strictly ordered |
| `ProtocolBundle.OrderIrrelevant` | src/protocol_bundle.rs:1496-1541 | every permutation of the claims has the same verdict and the same conflicts |
| `ProtocolBundle.ReportsAgree` | src/protocol_bundle.rs:1496-1510 | every permutation of the claims has the identical conflict list |
| `ProtocolBundle.RoleSound` | src/protocol_bundle.rs:1706-1789 | a Cell claim has no conflict of its own if and only if it agrees with the skeleton at an in-range index |
| `ProtocolBundle.SilentRolesAgree` | src/protocol_bundle.rs:1706-1837 | without conflicts every Cell claim agrees with the skeleton at an in-range index |
| `ProtocolBundle.SilentRolesExclusive` | src/protocol_bundle.rs:1706-1837 | without conflicts a slot has at most one exclusive claim |
| `ProtocolBundle.SilentRolesSame` | src/protocol_bundle.rs:1706-1837 | without conflicts claims on one slot agree on resource, lock and type |
| `ProtocolBundle.ProviderHolds` | src/protocol_bundle.rs:1543-1678 | without conflicts the provider of a closed Cell role exclusively claims its slot with its type name |
| `ProtocolBundle.ClosedRolesAgree` | src/protocol_bundle.rs:1543-1678 | without conflicts two closed Cell roles on one slot have one provider artifact, one claim and one type name |
| `ProtocolBundle.WitnessProviderHolds` | src/protocol_bundle.rs:1543-1678 | without conflicts the provider of a closed witness role exclusively claims its field with its type as ABI |
| `ProtocolBundle.ClosedWitnessesAgree` | src/protocol_bundle.rs:1543-1678 | without conflicts two closed witness roles on one field have one provider artifact and one type name |
| `ProtocolBundle.SilentWitnessesAgree` | src/protocol_bundle.rs:1839-1914 | without conflicts every witness claim is in range and matches the committed bytes |
| `ProtocolBundle.SilentWitnessOwner` | src/protocol_bundle.rs:1839-1914 | without conflicts a witness field has one exclusive owner |
| `ProtocolBundle.SilentDepsAgree` | src/protocol_bundle.rs:1916-1998 | without conflicts every dependency claim matches the skeleton, and one name has one index |
| `ProtocolBundle.SilentPoliciesAgree` | src/protocol_bundle.rs:2000-2042 | without conflicts policy claims match the skeleton and an exclusive one has no rival artifact |
| `BundleOrder.ReorderingIrrelevant` | src/protocol_bundle.rs:1496-1541 | neither the verdict nor the conflicts depend on the order of claims, closed roles and consumers |
| `BundleOrder.ReorderedReportsAgree` | src/protocol_bundle.rs:1496-1510 | reordered bundles have the identical conflict list |
| `BundleOrder.CanonicalIgnoresOrder` | src/protocol_bundle.rs:1457-1494 | with distinct sort keys every order of claims, closed roles and consumers has the identical canonical bundle |
| `BundleOrder.CanonicalTwice` | src/protocol_bundle.rs:1457-1494 | a canonical bundle is its own canonical form |
| `BundleOrder.CanonicalReportsAgree` | src/protocol_bundle.rs:1457-1541 | detection reports the same of a bundle and of its canonical form |
| `BundleOrder.CanonicalReorders` | src/protocol_bundle.rs:1457-1494 | canonicalising only reorders |
| `AliasAnalysis.FieldAliases` | src/aggregate_lowering.rs:104-126 | the map loop computes the specified aliases |
| `AliasAnalysis.AliasesSound` | src/aggregate_lowering.rs:104-126 | in every execution of a body whose writes disturb no alias, a recorded root and path read the value of the alias; the condition is read off the body |
| `ValueTerms.TermsSound` | src/aggregate_lowering.rs:104-126 | in every execution of a path every variable has the value of its term over the parameters and the written values |
| `ValueTerms.ConservesExactly` | src/aggregate_lowering.rs:55-82 | a field of a parameter is what every execution of a path leaves in an operand, if and only if the path cannot execute or the term of the operand is that field |
| `Conservation.EvidenceExactly` | src/aggregate_lowering.rs:55-82 | an action with evidence conserves the amount in every execution of a path if and only if the terms of the path say so, whatever it assigns and in whatever order its blocks run |
| `Conservation.EvidenceMeansConservation` | src/aggregate_lowering.rs:55-82 | evidence means conservation in every execution of an undisturbed body that does not write the consumed Cell |
| `Conservation.EvidenceOnEveryPath` | src/aggregate_lowering.rs:55-82 | where every instruction agrees with the recorded aliases, evidence means conservation on every path through the blocks, loops included |
| `Conservation.ReassignedNotConserved` | src/ir/mod.rs:5125-5141 | a mutable local that is read from the Cell and changed has evidence, and an execution with another amount |
| `Conservation.BranchNotConserved` | src/ir/mod.rs:6313-6323 | one variable written in two branches has evidence, and the second branch another amount |
| `EditDistance.FillRow` | src/main.rs:801-809 | the inner loop fills the next row of the table |
| `EditDistance.RowsFollow` | src/main.rs:801-811 | consecutive rows of the recursive distance are related as the loop computes them |
| `EditDistance.Compute` | src/main.rs:795-813 | the two-row loop computes the recursive distance |
| `EditDistance.ZeroExactly` | src/main.rs:795-813 | the distance is zero if and only if the strings are equal |
| `EditDistance.Symmetric` | src/main.rs:795-813 | the distance is symmetric |
| `EditDistance.Triangle` | src/main.rs:795-813 | the distance satisfies the triangle inequality |
| `EditDistance.NoShorterPath` | src/main.rs:795-813 | no sequence of single-character edits is shorter than the distance |
| `EditDistance.ShortestPath` | src/main.rs:795-813 | some sequence of single-character edits is as long as the distance |

## Left out

- Monomorphization.Monomorphizer.Run: requires distinct declared names (duplicates are refused in src/resolve/mod.rs:193 and src/types/mod.rs:544).
- Monomorphization.Monomorphize: requires distinct declared names.
- Monomorphization.Monomorphizer.constructor: the edition checks on public generic layouts are not modelled, and templates, Cell names and declarations are one pass over the items.
- SymbolNames.MonomorphNameInjective: requires argument texts that round-trip, which excludes mutable references below applications and malformed names.
- SymbolInjectivity.SymbolsInjective: requires the same of the retained origins, which the source does not check.
- AdmissionOrder.EmissionKeepsAdmission: is about the emitted name itself as an argument, not about types that hold it.
- Cross-module generics (external origins, seeds, foreign arguments, qualified bindings), data shapes, collections, and the rewriting of functions, statements, expressions and validity predicates.
- Hash functions and canonical JSON: they are parameters, assumed free of collisions only among the values a run hashes; hex text is modelled as bytes, except in symbols.
- SemVer parsing: a version is its major and minor number and a rank in a total order; package coordinates are already split.
- The exact-handle builder, raw hash formats and the byte offsets of the deployment-line handle: the committed Cell data is a function of the receipt.
- CellDep evidence of admission transactions (src/deployment_line_handle.rs:484-552).
- Interface.Compare: does not model the order of the report, its hashes, its codes and its detail text.
- The Unicode letter tables: every character beyond ASCII counts as a letter of an interface name, and every one but white space as a character of a type name.
- PolicyWitness.Decode: the error kinds other than size and magic are not told apart.
- The format checks of names, hashes and networks in bundles: they are flags of the claims; the text order of conflicts is an injective key.
- ProtocolBundle.DetectConflicts: takes the order of conflicts as an injective key, not the derived order of the record.
- File loading, path confinement, builder manifests, artifact admission, and the JSON evidence-shape checks of src/assumptions.rs.
- Finding contracts in compiled metadata: encoders and validators take the contract as a value.
- Fixed machine widths of sizes: sums are unbounded naturals; the checked additions of the source can only fail where its bounds fail too.
- AliasAnalysis.AliasesSound: is about one block in order; paths through several blocks are covered by the lemmas of Conservation, with the jumps between blocks not modelled.
- Conservation.EvidenceExactly: instructions other than field accesses and moves write unknown values, so arithmetic that gives a value back is not seen, and the created amount is read at the end of the path.
- The suggestion filter around the edit distance, the command line, the language server, code generation and everything else in the repository.
