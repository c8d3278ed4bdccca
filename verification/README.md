# Verified model of the Tool Lab and its neighbours

This project models the parts of the LLM chat agent whose behaviour spans several functions, and proves what they promise for every input and every run. `dafny verify dfyconfig.toml` checks all of it.

| file | what it models |
|---|---|
| `JsonSchema.dfy` | JSON values, the schema shapes the generator emits, and what they accept under JSON Schema Draft 2020-12 |
| `SchemaTheorems.dfy`, `DocumentTheorems.dfy` | which schemas accept some JSON value, which accept all, which include another, and which annotations give a valid schema document at all |
| `Annotations.dfy`, `AnnotationTheorems.dfy`, `ShapeTheorems.dfy`, `SpellingTheorems.dfy` | the compiler from Python annotations to schemas, and an independent meaning of annotations |
| `Python.dfy`, `Inference.dfy`, `InferenceTheorems.dfy`, `InferenceLimits.dfy`, `InferencePrecision.dfy` | an evaluator for handler bodies, and the return-schema inference as an abstract interpreter over the same trees |
| `Generator.dfy`, `GeneratorTheorems.dfy`, `SignatureTheorems.dfy` | schema generation for a whole handler, and the signature check it must pass |
| `Sorting.dfy` | Python's stable sort and string order, used below |
| `Registry.dfy`, `RegistryTheorems.dfy` | the two-map cache of compiled tools and its readers |
| `ToolLab.dfy`, `LabInvariants.dfy`, `RestartTheorems.dfy`, `ToolLabTheorems.dfy`, `VersionTheorems.dfy`, `PermissionTheorems.dfy` | tool rows and cache under create, toggle, delete and restart |
| `Runner.dfy`, `RunnerTheorems.dfy` | the agent loop, its trace, and history replay through the web page |
| `Retrieval.dfy`, `RetrievalTheorems.dfy` | vector search over several collections, and the paged scan |
| `ChatMemory.dfy`, `ChatMemoryTheorems.dfy` | the sliding chat log under interleaved requests |
| `SeedUsers.dfy`, `SeedUsersTheorems.dfy` | the user store of the seed tools |

Code that the source writes as expressions is modelled by functions. Code that updates objects or loops is modelled by classes and methods (`ToolRegistry`, `ToolService`, `TraceAssembler`, `FrontEnd`, `MemoryManager`, `UserStore`, and the loops of the generator, the runner and the two searches), each proved to do exactly what a function on values says; the lemmas are about those functions. Inductions are written out: `{:induction false}` keeps the verifier from adding its own to lemmas with a precondition.

What comes from outside is an arbitrary input: LLM replies, tool results, ranked answers and pages of the vector store, row order, what the web page's doubles make of a number, the values of f-strings, comparisons and bitwise operators, and the compiler of handlers. An expression that may have effects is such an input too: it may change any variable. Four assumptions about these inputs appear as named predicates: `HonestBuiltins` (built-ins return what their documentation says), `HonestForms` (tuple, set and dictionary displays yield their kind), `ExtrasOnlyAdd` (a handler that compiles without the system extras compiles with them) and `ListsActive` (the query at the end of bootstrap lists every active row).

## What the proofs found

- Annotation compilation is sound on `Recognised` annotations, and wherever no union keeps a member it is sound only on them (`SoundIff`): bare container names the compiler does not know (`set`, `List`, ...), a `Literal` whose arguments are all expressions (`Literal[-1]`), and `tuple[T]` let foreign values in, at any depth of lists, sets and dictionaries. It is exact on `Faithful` annotations. An `Optional` that wraps a `{}` member rejects values it should accept; a union that swallows one does so exactly when the members it keeps leave some JSON value out, which `Universal` decides from the schemas (`OptionalExactIff`, `UnionExactIff`). The docstring of codegen.py (lines 19-20) says user classes become `object`; the code emits `{}`, and the model follows the code.
- Not everything that is generated is a schema: a `tuple` that lists its members puts a list under `items`, `Optional[None]` lists null twice under `type`, and a dictionary literal that repeats a key lists it twice under `required`. The validator then refuses every value. `DocumentIff`, `InferDocumentIff`, `ParametersDocumentIff` and `OutputDocumentIff` say exactly when that happens. `Accepts` is what the keywords say, `Validates` also asks for a valid document.
- Return inference is sound in every run whose effectful statements keep the recorded types true (`ReturnSound`), so in particular for supported handlers, which have no effects (`SupportedReturnSound`). A statement keeps them true exactly when each name whose value or recorded type it changes fits (`StatementFitsIff`; `DoFitsIff`, `AssignmentFitsIff` and `DeclarationFitsIff` say what that is for each kind); `d = {"a": 1}; v = d.pop("a"); return {"d": d}` does not (`EffectBreaks`).
- Of each form without effects that is not supported it is proved which values the inferred schema rejects: every tuple and set and every call of `set` and `tuple`; numeric calls, lists, powers, signs, `and`/`or`, conditional expressions and records under an exact condition. An operator `-`, `+` or `~` keeps a type as a whole exactly when it keeps the constants the type lists (`SignFitsIff`). Conditional expressions go wrong because the code compares schemas with Python's `==`, to which `Literal[1]` and `Literal[True]` are equal (`IfFitsIff`, `ChoiceBreaks`).
- Generation raises exactly when the operands of an operator clash, a list-valued type meeting no string (`GenerateRaisesIff`, `NullableOperandRaises`); without list-valued hints it succeeds whenever no hint is missing (`PlainGenerationSucceedsIff`).
- The returned literal fills in the schema exactly under hints that say no more than "an object", `dict[str, Any]` among them (`ObjectHintIff`, `LiteralFillsIn`). Which expressions are left untyped is decided by their syntax and the recorded types (`UntypedIff`); the types of all others are as narrow as they can be (`Tight`, `ListTight`, `DictTight`), and plain handlers are typed throughout (`PlainReturnSound`).
- A handler declared to return one non-object type never passes its own generated return schema, because the schema is wrapped in `result` and the value is not (`ScalarReturnNeverValidates`).
- The signature check accepts positional-only parameters although the sandbox calls `handler(**args)`; `ValidCallsBindIff` says exactly when every schema-valid call binds. For a schema written by hand it also lets a property through that is named like `*args`, which nothing can then supply (`AcceptedBindsIff`, `VariadicNamePasses`).
- `_upsert_definition` is documented as inserting `v(max+1)`; the code counts from the active row. In every database that calls can build up, a create succeeds exactly when the name is new or its one active version is the newest (`ReachableCreateSucceedsIff`), so a name with rows but no active one is lost for good (`DeletedNameIsLost`, `RecreateFails`), and a deactivated seed tool makes the next `bootstrap` fail, which apps/api/main.py (lines 97-102) logs, leaving the registry empty (`DeactivatedSeedFailsBootstrap`). After such a failure no cached tool is stale, but the cache no longer covers the active rows (`RunTracks`, `RestartAgreesIff`).
- Two active versions of a name, reachable by toggling, can cost a later sole version its name entry (`LostTool`): the index leads to an active version exactly when it was the last one registered (`NameLeadsToLastRegistered`). The two maps stay in bijection through a run exactly when no state of it has two active versions of a name (`RunComplete`), and a restart goes unnoticed in every row order exactly when the live index was complete (`RestartInvisible`). `replace_active` is documented as an atomic swap; an overlapping registration can leave a dangling name entry (`ReplaceIsNotAtomic`).
- With a complete index a listed tool always resolves by name, but not always to itself: another owner's public tool is listed beside the user's own of the same name, which is what runs (`ListedToolsResolve`, `ShadowedTool`).
- Replayed history loses `error_kind`, absent call ids and block content, and changes the numbers that the page's doubles cannot hold, such as 9007199254740993, or 10**400, which becomes null; everything else survives (`ReplayFidelity`, `ReplayExactIff`).
- The chat log stays cut between pairs under every interleaving exactly when the window is even (`AlignedIffEvenWindow`).
- Creations of seed users in overlapping threads keep the ids 1..n, but one adds a user exactly when no other added one between its reading the size and its storing (`CreationAddsIff`, `OverlappingCreatesCollide`).

## Model

| member | source | states |
|---|---|---|
| Annotations.GenericNames | libs/toollab/codegen.py:123-158 | which names of typing stand for which generic, the unknown ones for none |
| Annotations.MergedMeaning | libs/toollab/codegen.py:195-199 | merging null and one plain type into a type list accepts what the members accepted |
| Annotations.UnionMeaning | libs/toollab/codegen.py:188-200 | a simplified union is `{}` only if every member is, and otherwise accepts what one of its non-empty members accepts |
| Annotations.FlattenMeaning | libs/toollab/codegen.py:166-185 | flattening a `\|` chain at any node loses nothing: its union is the compiled node |
| Annotations.WithNullMeaning | libs/toollab/codegen.py:203-208 | the keywords of the Optional wrapper let in null and what a non-empty inner schema lets in, and nothing else |
| AnnotationTheorems.LiteralConstantsDenote | libs/toollab/codegen.py:133-141 | the enum values are among what a Literal denotes, and all of it when its arguments are constants |
| AnnotationTheorems.EmptyMeansAny | libs/toollab/codegen.py:73-208 | a recognised annotation compiles to `{}` only if every value inhabits it |
| AnnotationTheorems.CompileSound | libs/toollab/codegen.py:73-208 | every value the schema of a recognised annotation accepts inhabits the annotation, at any nesting depth |
| AnnotationTheorems.CompileComplete | libs/toollab/codegen.py:73-208 | every inhabitant of a faithful annotation is accepted |
| AnnotationTheorems.CompileExact | libs/toollab/codegen.py:73-208 | on faithful annotations the schema is a valid document, and validates a value if and only if it inhabits the type |
| AnnotationTheorems.OptionalExactIff | libs/toollab/codegen.py:203-208 | over JSON values, Optional of an exact type is exact if and only if the inner schema is neither `{}` nor that of null |
| AnnotationTheorems.UnionExactIff | libs/toollab/codegen.py:126-132 | over JSON values, a Union of exact types is exact if and only if no member is `{}`, or all are, or the schemas that are kept pass a check per JSON type |
| AnnotationTheorems.DroppedAny | libs/toollab/codegen.py:188-192 | `Union[Any, int]` is not exact; `Union` of Any with one type of each JSON kind is |
| SchemaTheorems.UniversalIff | libs/toollab/sandbox.py:344-361 | the check per JSON type holds of a compiled schema if and only if it accepts every JSON value |
| SchemaTheorems.FulfillableIff | libs/toollab/sandbox.py:344-361 | another check of a schema's shape holds if and only if it accepts some JSON value |
| AnnotationTheorems.SoundIff | libs/toollab/codegen.py:73-208 | where no union keeps a member, at any nesting depth, compilation is sound if and only if the annotation is recognised or gives no valid document |
| AnnotationTheorems.SoundBoundaries | libs/toollab/codegen.py:78-150 | a bare name is sound unless it is an unknown container, a Literal exactly when an argument is a constant, a subscripted tuple exactly when it gives no valid document |
| DocumentTheorems.UnionValidIff | libs/toollab/codegen.py:188-200 | a simplified union is a valid document if and only if each member is |
| DocumentTheorems.WithNullValidIff | libs/toollab/codegen.py:203-208 | the Optional wrapper gives a valid document if and only if the inner schema is one and not that of null |
| DocumentTheorems.DocumentIff | libs/toollab/codegen.py:73-208 | an annotation compiles to a valid document if and only if no listed tuple and no Optional of null is looked at in it |
| AnnotationTheorems.UnrecognisedIsUnsound | libs/toollab/codegen.py:78-164 | one annotation beyond each of the three boundaries, with a value its schema lets in |
| SpellingTheorems.MembersSpell | libs/toollab/codegen.py:123-208 | any mix of Optional, Union, `\|` and quotation accepts what a flat union of its members accepts |
| SpellingTheorems.SameMembersSameValues | libs/toollab/codegen.py:123-208 | two such annotations with the same members, in any order, nesting or spelling, accept the same values, and validate the same ones when both give valid documents |
| SpellingTheorems.OptionalSpellings | libs/toollab/codegen.py:123-132 | Optional[T], Union[T, None], T \| None and None \| T accept the same values for every T |
| SpellingTheorems.OptionalSpellingsValidate | libs/toollab/codegen.py:123-132 | the validator takes the same values under the four spellings if and only if T's own schema is not that of null |
| SpellingTheorems.BarIsUnion | libs/toollab/codegen.py:166-185 | a `\|` chain and the Union of its leaves compile to the same schema |
| SpellingTheorems.BarReordering | libs/toollab/codegen.py:182-200 | reordering, repeating or re-bracketing the members of a `\|` chain never changes what is accepted |
| SpellingTheorems.UnionNesting | libs/toollab/codegen.py:126-132 | a Union nested in a Union at any position accepts what the flat Union accepts |
| ShapeTheorems.AnythingIff | libs/toollab/codegen.py:73-208 | an annotation compiles to `{}` if and only if it says nothing, decided on its syntax through quotation, unions and unknown names |
| ShapeTheorems.PlainIff | libs/toollab/codegen.py:73-208 | it compiles to one plain type and nothing else if and only if it says that type alone: `dict[str, Any]` like `dict`, a union one of whose members does and the others say nothing |
| ShapeTheorems.OneTypeIff | libs/toollab/codegen.py:73-208 | the same for schemas with one "type" and possibly more keywords |
| ShapeTheorems.ListIff | libs/toollab/codegen.py:188-208 | it compiles to a list of types if and only if it is an Optional or a union that merges a plain type and null, or Optional of nothing |
| ShapeTheorems.TupleShape | libs/toollab/codegen.py:144-149 | a tuple of several elements lists the schemas of its elements in order, every `...` left out |
| ShapeTheorems.LiteralShape | libs/toollab/codegen.py:133-141 | a Literal of constants and strings lists them in order |
| Inference.DictLiteralToSchema | libs/toollab/codegen.py:307-325 | the loop over a dictionary literal computes the fields that the inference of literals is defined by |
| Inference.BuildLocalEnv | libs/toollab/codegen.py:328-363 | the loops over hints and assignments compute the environment the soundness proof is about |
| Inference.FindLastReturn | libs/toollab/codegen.py:366-374 | the loop finds the last return statement of a body |
| Inference.InferDictReturnSchema | libs/toollab/codegen.py:377-392 | the whole inference of a returned literal, including when it gives up and when it raises |
| InferenceTheorems.BinarySound | libs/toollab/codegen.py:287-297 | the schema inferred for a binary operator accepts the value of any operation on conforming operands, exponentiation aside |
| InferenceTheorems.UnarySound | libs/toollab/codegen.py:283-286 | negation, plus and inversion stay within the operand's schema when they keep the constants it lists |
| InferenceTheorems.SignFitsIff | libs/toollab/codegen.py:283-286 | an operator keeps all values of a schema in it if and only if it keeps the constants the schema lists, booleans included |
| InferenceTheorems.InferSound | libs/toollab/codegen.py:261-304 | whatever a supported expression without effects evaluates to is accepted by its inferred schema |
| InferenceTheorems.NumericPrecision | libs/toollab/codegen.py:287-297 | arithmetic over numeric leaves is typed integer exactly when no leaf is a float and nothing is truly divided, number otherwise |
| InferenceTheorems.StatementSound | libs/toollab/codegen.py:351-363 | a supported statement keeps every recorded type true of the variable's value |
| InferenceTheorems.ReturnSound | libs/toollab/codegen.py:328-392 | a conforming call in whose run effectful statements keep the recorded types true returns only values the inferred schema accepts, and validates exactly when that is a valid document |
| InferenceTheorems.SupportedReturnSound | libs/toollab/codegen.py:328-392 | so does every conforming call of a supported body, one without effects that calls no name it also uses as a variable |
| InferenceTheorems.InferDocumentIff | libs/toollab/codegen.py:261-325 | an expression is typed by a valid document if and only if no literal that shows in its type repeats a key and the recorded types it shows are valid |
| InferenceTheorems.ReturnDocumentIff | libs/toollab/codegen.py:377-392 | the same for the schema of the returned literal |
| SchemaTheorems.SubsumesAccepts | libs/toollab/codegen.py:359-363 | a declared type that passes a check on schemas takes every value of the inferred one |
| InferenceLimits.TupleBreaks | libs/toollab/codegen.py:273-277 | whatever a tuple display evaluates to is rejected by its inferred schema |
| InferenceLimits.SetBreaks | libs/toollab/codegen.py:273-277 | so is whatever a set display evaluates to |
| InferenceLimits.CallFitsIff | libs/toollab/codegen.py:243-299 | the result of calling set or tuple is always rejected, that of min, max or sum unless it is a number |
| InferenceLimits.ListFitsIff | libs/toollab/codegen.py:273-277 | a list whose first element is typed is accepted if and only if each element fits that type |
| InferenceLimits.BoolFitsIff | libs/toollab/codegen.py:281-282 | `and` and `or` are accepted if and only if they yield a boolean |
| InferenceLimits.UnaryFitsIff | libs/toollab/codegen.py:283-286 | a signed value is accepted if and only if the operand's type has the result; booleans typed as such or as nullable never are, listed constants if the result is listed |
| InferenceLimits.PowerFitsIff | libs/toollab/codegen.py:287-297 | a power is accepted if and only if it is whole under integer operands, a number under numeric ones |
| InferenceLimits.IfFitsIff | libs/toollab/codegen.py:300-303 | a conditional expression is rejected if and only if Python finds the branch types equal and the first does not have the value |
| InferenceLimits.SameOnlyIfEqual | libs/toollab/codegen.py:303 | as long as no listing holds a boolean, schemas that Python finds equal are equal |
| InferenceLimits.DictFitsIff | libs/toollab/codegen.py:307-325 | any dictionary literal is accepted if and only if each field's value has the field's type, untyped fields counting as strings |
| InferenceLimits.FallbackFitsIff | libs/toollab/codegen.py:316-319 | a record with one untyped field is accepted if and only if the field's value is a string |
| InferenceLimits.StatementFitsIff | libs/toollab/codegen.py:328-363 | any statement keeps the recorded types true if and only if each name whose value or type it changes fits |
| InferenceLimits.DoFitsIff | libs/toollab/codegen.py:328-363 | an expression statement keeps the recorded types true if and only if each recorded name it changes still fits |
| InferenceLimits.AssignmentFitsIff | libs/toollab/codegen.py:352-358 | an assignment, with effects or without, keeps them true if and only if its value goes with the types of its names and each other name it changes still fits |
| InferenceLimits.DeclarationFitsIff | libs/toollab/codegen.py:359-363 | a declaration, with a value or without, keeps them true if and only if the name's value has the declared type and each other name it changes still fits |
| InferenceLimits.OperatorExclusions | libs/toollab/codegen.py:281-297 | -True, 2 ** -1 and `1 or 2` evaluate to values their inferred schemas reject |
| InferenceLimits.MixedListExclusion | libs/toollab/codegen.py:273-277 | [1, "a"] evaluates to a value its inferred schema rejects |
| InferenceLimits.TupleAndCallExclusions | libs/toollab/codegen.py:243-299 | a tuple, a set, and min over strings, evaluate to values their inferred schemas reject |
| InferenceLimits.FallbackExclusion | libs/toollab/codegen.py:316-319 | an untyped field falls back to string and the record schema rejects the value |
| InferenceLimits.StaleTypeBreaks | libs/toollab/codegen.py:352-358 | an untyped assignment keeps the old type, and a conforming call returns a rejected value |
| InferenceLimits.DeclarationBreaks | libs/toollab/codegen.py:359-363 | so does a declaration without a value, `x: int` under `x: str` |
| InferenceLimits.EffectBreaks | libs/toollab/codegen.py:304-325 | a call that empties a dictionary typed full makes a handler return a rejected value |
| InferenceLimits.ChoiceBreaks | libs/toollab/codegen.py:300-303 | `[x if c else y]` under Literal[1] and Literal[True] is typed by the first branch, and a conforming call returns a rejected value |
| InferenceLimits.SpanSupported | libs/toollab/codegen.py:287-297 | parameters named `min` and `max` that are not called leave a handler supported |
| InferencePrecision.UntypedIff | libs/toollab/codegen.py:261-304 | an expression is left untyped if and only if its syntax and the recorded types put it under one of the listed cases; comparisons, f-strings, `and`, `or`, `not` and displays never are |
| InferencePrecision.BareDisplayIff | libs/toollab/codegen.py:273-280 | a list is typed without its elements if and only if it is empty or its first one is untyped, a dictionary literal without its fields if and only if a key is no text |
| InferencePrecision.StatementRecords | libs/toollab/codegen.py:351-363 | a statement gives a new type to just the names it assigns a typed value or declares by a hint that says something |
| InferencePrecision.LastRecorded | libs/toollab/codegen.py:351-363 | over a body a name has the type that the last statement to record one gave it |
| InferencePrecision.ParamRecorded | libs/toollab/codegen.py:328-350 | a parameter whose hint says something has the hint's type |
| InferencePrecision.Tight | libs/toollab/codegen.py:261-304 | every JSON value that the type of a constant, f-string, comparison, `and`, `or`, `not`, operator or known call accepts is what an expression of that form and type evaluates to in some honest world |
| InferencePrecision.ListTight | libs/toollab/codegen.py:273-277 | every non-empty array of a given element type is made by a list of names of that type, which is typed so |
| InferencePrecision.DictTight | libs/toollab/codegen.py:307-325 | every object that a closed record accepts is made by a literal of names with the types of its fields, which is typed by that record |
| InferencePrecision.PlainBodySupported | libs/toollab/codegen.py:328-392 | a body of assignments and one returned literal, over constants, names, f-strings, comparisons, `not`, conditionals, signs and arithmetic, all typed, is supported |
| InferencePrecision.PlainReturnSound | libs/toollab/codegen.py:328-392 | so every conforming call of such a handler, whose hints list no boolean, returns a value of the inferred schema, in which no field is a guess |
| InferenceTheorems.InferTotal | libs/toollab/codegen.py:287-297 | without list-valued types in the environment inference never raises and introduces none |
| InferenceTheorems.InferRaisesIff | libs/toollab/codegen.py:287-297 | inference raises if and only if, somewhere it looks, a list-valued operand type meets no string |
| InferenceTheorems.ReturnNeverRaises | libs/toollab/codegen.py:328-392 | without list-valued hints, inferring a return schema never raises |
| Generator.GenerateSchemas | libs/toollab/codegen.py:395-508 | the generator's loops and early exits compute the outcome the theorems are about |
| GeneratorTheorems.ObjectHintIff | libs/toollab/codegen.py:487-499 | the returned literal is looked at if and only if the hint says no more than "an object", decided on its syntax |
| GeneratorTheorems.LiteralFillsIn | libs/toollab/codegen.py:487-502 | the generated return schema is then a closed record whose fields and required list are the literal's keys, each with the type of the last value given for it |
| GeneratorTheorems.HintDecides | libs/toollab/codegen.py:487-534 | otherwise any object is allowed, an object hint stands as compiled, and any other hint is wrapped in `result` |
| GeneratorTheorems.GeneratedKeys | libs/toollab/codegen.py:426-476 | the generated properties are exactly the non-variadic parameters, the required ones exactly those with no default |
| GeneratorTheorems.GeneratorMeetsChecker | libs/toollab/sandbox.py:245-274 | for any mix of parameter kinds the generated parameters are accepted by the signature check of registration, whose answers `CheckedIff` pins |
| SignatureTheorems.CheckedIff | libs/toollab/sandbox.py:245-274 | for any signature and schema: accepted if and only if each key names a parameter, each non-variadic parameter is a key, and each of these without default is required; which of the two mismatches is reported otherwise |
| SignatureTheorems.AcceptedBindsIff | libs/toollab/sandbox.py:245-274 | an accepted signature binds every call whose keys lie between the required ones and all, if and only if positional-only parameters have defaults and each key can be given by keyword |
| SignatureTheorems.AcceptedBinds | libs/toollab/sandbox.py:245-274 | so acceptance is enough without positional-only parameters and without a key that is the name of `*args` |
| SignatureTheorems.VariadicNamePasses | libs/toollab/sandbox.py:258-268 | `def handler(*args)` passes with a required property `args`, and no call with it binds |
| GeneratorTheorems.ParametersDocumentIff | apps/api/routers/toollab.py:114-121 | they are a valid document if and only if every hint gives one |
| GeneratorTheorems.OutputDocumentIff | apps/api/routers/toollab.py:114-121 | the generated return schema is one if and only if the declared hint, or the literal standing in for it, gives one |
| GeneratorTheorems.ValidCallsBindIff | libs/toollab/sandbox.py:245-316 | every call with validated JSON arguments binds if and only if no arguments validate, or every positional-only parameter has a default and, unless **kwargs takes its name, a schema nothing satisfies |
| GeneratorTheorems.GenerateFailsIff | libs/toollab/codegen.py:436-485 | generation is refused exactly when a hint is missing, with the kind that says which |
| GeneratorTheorems.GenerateRaisesIff | libs/toollab/codegen.py:436-508 | with all hints there, generation raises if and only if operands clash under a return hint that says no more than "an object", and succeeds otherwise |
| GeneratorTheorems.PlainGenerationSucceedsIff | libs/toollab/codegen.py:395-508 | without list-valued hints it never raises, and succeeds if and only if no hint is missing |
| GeneratorTheorems.NullableOperandRaises | libs/toollab/codegen.py:287-297 | a handler returning `x + 1` in a field under `x: Optional[int]` makes generation raise |
| GeneratorTheorems.NormaliseMeaning | libs/toollab/codegen.py:511-534 | what the normalised return schema accepts, in terms of the declared one |
| GeneratorTheorems.ScalarReturnNeverValidates | libs/toollab/codegen.py:527-534 | a value of a declared non-object return type never passes the generated return schema |
| GeneratorTheorems.GeneratedReturnsValidate | libs/toollab/codegen.py:487-508 | a handler hinted as an object returns, in runs that keep track of its types, only values its generated return schema accepts, and they validate exactly when that is a valid document |
| GeneratorTheorems.ValidArgumentsConform | libs/toollab/codegen.py:436-476 | arguments the generated parameters accept are accepted by the schema of each parameter's own hint |
| GeneratorTheorems.ValidCallsReturnValidResults | libs/toollab/codegen.py:395-508 | end to end: arguments accepted by the first generated schema yield results accepted by the second, which validate exactly when that is a valid document |
| Sorting.SortSorts | libs/toollab/registry.py:173 | the sort yields the same elements in order |
| Sorting.SortIsStable | libs/core/service.py:203-208 | elements that compare equal come out in the order they had |
| Sorting.StrLeIff | libs/toollab/registry.py:173 | strings are ordered by the first code points that differ, a prefix first |
| Registry.ToolRegistry.RegisterTool | libs/toollab/registry.py:86-124 | compiles and installs a row in both maps, or raises with nothing written |
| Registry.ToolRegistry.ReplaceTool | libs/toollab/registry.py:126-133 | registers the new version, then drops the previous id |
| Registry.ToolRegistry.UnregisterTool | libs/toollab/registry.py:135-143 | drops an id, and its name entry only if that still points to it |
| Registry.ToolRegistry.ListTools | libs/toollab/registry.py:158-174 | the listing loop, cap and sort compute the specified listing |
| Registry.ToolRegistry.VisibleTools | libs/toollab/registry.py:166-170 | the filters keep the wanted visible tools in iteration order |
| Registry.ToolRegistry.ResolveForUser | libs/toollab/registry.py:224-242 | the two lookups and the scan compute the specified resolution |
| RegistryTheorems.UnregisterKeeps | libs/toollab/registry.py:135-143 | unregistering keeps the index sound, and complete if it was |
| RegistryTheorems.ReplaceKeeps | libs/toollab/registry.py:126-133 | the index is sound between and after the two critical sections of a replacement, and what the maps are afterwards |
| RegistryTheorems.ReplaceIsNotAtomic | libs/toollab/registry.py:126-133 | an overlapping registration between the two sections leaves a dangling name entry |
| RegistryTheorems.ResolveSound | libs/toollab/registry.py:224-242 | a resolved tool is live, has the name and is visible, preferring own, then system, then public |
| RegistryTheorems.ResolveIff | libs/toollab/registry.py:224-242 | resolution succeeds exactly when a live tool of the name is public, or is the indexed one of the user or the system |
| RegistryTheorems.ResolveComplete | libs/toollab/registry.py:224-242 | with a complete index it succeeds exactly when a visible tool of the name exists |
| RegistryTheorems.ResolveIsPreferred | libs/toollab/registry.py:224-242 | a name resolves to a tool if and only if that is the one indexed for the user, or without one the system's, or without either the first public one in iteration order |
| RegistryTheorems.ListForUserSpec | libs/toollab/registry.py:158-174 | the listing is name-sorted, distinct, within the cap, only live visible wanted tools, and all of them when under the cap |
| RegistryTheorems.ListingKeepsFirst | libs/toollab/registry.py:165-173 | a tool is listed if and only if it is visible and wanted and fewer than `cap` such tools stand before it in iteration order |
| RegistryTheorems.ListedToolsResolve | libs/toollab/registry.py:158-242 | with a complete index a listed tool's name resolves, and to that tool if and only if it is the user's own, or the first in line of system and public ones |
| RegistryTheorems.ShadowedTool | libs/toollab/registry.py:158-242 | a user with a tool of the same name is shown another's public one and executes their own |
| RegistryTheorems.ExecuteSpec | libs/toollab/registry.py:180-222 | without a tool to run the answer is tool_not_found; otherwise it succeeds if and only if the handler does and its result validates, passes the handler's own error on, and gives each of the two schema complaints in exactly its own case |
| ToolLab.ToolService.CreateTool | apps/api/routers/toollab.py:387-453 | the create endpoint's whole effect on rows, registry and reply |
| ToolLab.ToolService.ToggleActive | apps/api/routers/toollab.py:242-257 | the toggle endpoint's whole effect |
| ToolLab.ToolService.DeleteTool | apps/api/routers/toollab.py:262-271 | the delete endpoint's whole effect |
| PermissionTheorems.ToggleAnswers | apps/api/routers/toollab.py:242-257 | not found if and only if no row has the id, forbidden if and only if the user is neither admin nor the non-system owner, and then nothing changes; otherwise the row changes in `isActive` alone, and the call fails only when the tool does not compile |
| PermissionTheorems.DeleteAnswers | apps/api/routers/toollab.py:262-271 | the same permissions, and the effect of switching the tool off |
| PermissionTheorems.StepKeepsRow | apps/api/routers/toollab.py:373-384 | no step loses a row or changes more than its flags, and only a toggle or delete by one who may and the owner's next version switch it on or off |
| PermissionTheorems.RunKeepsRow | apps/api/routers/toollab.py:373-384 | over any run the steps of users who are neither admin nor owner leave every field of the row as it was, save that a restart publishes the system's |
| ToolLab.ToolService.Bootstrap | libs/toollab/seed.py:282-351 | the two loops' whole effect on a fresh registry, and when they fail with nothing registered |
| LabInvariants.CreateFollows | apps/api/routers/toollab.py:402-443 | a create keeps every cached tool the compilation of its active row, and every active row cached if it was |
| ToolLabTheorems.StepTracks | apps/api/routers/toollab.py:211-271 | every call and every restart, failed or not, leaves no stale tool in the cache and the index sound |
| ToolLabTheorems.RunTracks | libs/toollab/seed.py:282-351 | over any run of calls and restarts, failed restarts included, no cached tool is stale and the index is sound |
| ToolLabTheorems.StepAgrees | apps/api/routers/toollab.py:211-271 | every call, and every restart that goes through, keeps the cache equal to the compilation of the active rows |
| ToolLabTheorems.RunAgrees | apps/api/routers/toollab.py:211-271 | after any run of calls and successful restarts the cached ids are exactly the active rows, each entry is its row compiled, and the index is sound |
| ToolLabTheorems.RejectedChangesNothing | apps/api/routers/toollab.py:242-453 | a call that does not succeed changes neither rows nor cache |
| LabInvariants.CompleteMeansSingle | libs/toollab/registry.py:117-143 | with a complete index no name has two active versions |
| ToolLabTheorems.StepComplete | libs/toollab/registry.py:117-143 | a step keeps the index complete if and only if it leaves no two active versions of a name |
| ToolLabTheorems.RunComplete | libs/toollab/registry.py:117-143 | the two maps are in bijection at every state of a run if and only if no state of it has two active versions of a name |
| ToolLabTheorems.CreateEffect | apps/api/routers/toollab.py:402-433 | a successful create adds one row with the payload's data one version above the active one, retires that, and touches no other row |
| ToolLabTheorems.CreateThenResolve | apps/api/routers/toollab.py:402-443 | after an active create the owner's name resolves to the new version |
| ToolLabTheorems.ToggleThenResolve | apps/api/routers/toollab.py:242-257 | after switching a version on its owner's name resolves to it |
| ToolLabTheorems.DeleteThenGone | apps/api/routers/toollab.py:262-271 | after a delete no reader resolves any name to that tool |
| VersionTheorems.CreateSucceedsIff | apps/api/routers/toollab.py:395-433 | the exact condition for a create to succeed in any database; it is a bad request if and only if it does not compile |
| VersionTheorems.RunContiguous | apps/api/routers/toollab.py:402-433 | over any run the versions of a name on file stay 1..n |
| VersionTheorems.ReachableCreateSucceedsIff | apps/api/routers/toollab.py:393-433 | after any run from nothing, a create that compiles succeeds if and only if the name is new to its owner or its one active version is its newest |
| VersionTheorems.DeletedNameIsLost | libs/toollab/models.py:60-63 | after any run from nothing, a name with a row and no active row cannot be created |
| VersionTheorems.RecreateFails | apps/api/routers/toollab.py:410-432 | create, delete, create again: the last call fails |
| RestartTheorems.SeedRowsSucceedIff | libs/toollab/seed.py:309-335 | bootstrap succeeds exactly when each seed has one active row, or none and no version 1 in the way |
| RestartTheorems.SeedsEffect | libs/toollab/seed.py:309-335 | seeding keeps every row, adds public active first versions for names that had none active, and leaves each seed with exactly one active row |
| RestartTheorems.RestartEffect | libs/toollab/seed.py:282-351 | a restart publishes the system's rows and changes no other; it adds only what seeding adds, and nothing when it fails |
| RestartTheorems.DeactivatedSeedFailsBootstrap | libs/toollab/seed.py:309-335 | a seed tool without an active row but with a version 1 makes bootstrap fail |
| RestartTheorems.RebuiltAgrees | libs/toollab/seed.py:337-345 | registering the active rows of any database in any order gives a cache that agrees with it, each name leading to the version listed last, and a complete index if and only if no name has two active versions |
| RestartTheorems.RestartAgreesIff | libs/toollab/seed.py:282-351 | after a restart the cache agrees with the database if and only if bootstrap went through or no row is active |
| RestartTheorems.RestartRebuilds | libs/toollab/seed.py:282-351 | with every seed active once, a restart changes no row and rebuilds the live tools in any row order, two active versions or not |
| RestartTheorems.RestartInvisible | libs/toollab/seed.py:282-351 | the name index comes back the same in every row order if and only if the live index was complete |
| ToolLabTheorems.RunLeads | libs/toollab/registry.py:86-143 | over any run of calls and restarts a name leads to the version registered last while that is active, and nowhere otherwise |
| ToolLabTheorems.NameLeadsToLastRegistered | libs/toollab/registry.py:117-143 | after any run from nothing a name leads to an active version if and only if that was registered last |
| ToolLabTheorems.LostTool | libs/toollab/registry.py:135-143 | a four-call run after which the sole active version of a name does not resolve for its owner |
| Runner.ToToolContent | libs/toollab/serializer.py:24-47 | every tool message content is an object with exactly the success or the failure fields |
| Runner.TraceAssembler.RecordAiMessage | libs/toollab/runner.py:79-103 | appends a numbered AI step, adds reported tokens, remembers text |
| Runner.TraceAssembler.RecordToolResult | libs/toollab/runner.py:105-116 | appends a numbered tool step |
| Runner.FrontEnd.PushTurnToHistory | apps/api/static/js/toollab.js:608-638 | the page appends the prompt and one message per step to its history, numbers as its doubles have them |
| Runner.SeedConversation | libs/toollab/runner.py:206-227 | the loop that turns history into the opening messages |
| Runner.RunToolCalls | libs/toollab/runner.py:293-306 | the loop over one reply's calls extends conversation and trace together |
| Runner.RunPrompt | libs/toollab/runner.py:229-333 | the run loop computes the run the theorems are about, an empty content list ending it with an empty text |
| RunnerTheorems.LoopTranscript | libs/toollab/runner.py:238-306 | conversation and trace grow by exactly the consumed replies, each with its answers |
| RunnerTheorems.LoopOutcome | libs/toollab/runner.py:238-291 | how a run ends, in terms of the replies it consumes |
| RunnerTheorems.RunAccounting | libs/toollab/runner.py:229-333 | one LLM call for each consumed reply and one for the failure that ends a run, truncated iff the bound's worth of replies all had calls, steps numbered 1..n, token sums, and the final response by the kind of content |
| RunnerTheorems.RunTells | libs/toollab/runner.py:238-306 | for each consumed reply the conversation holds it and the trace its step, followed in both by one entry per call, from which the call and the tool's whole result can be read |
| RunnerTheorems.RunSends | libs/toollab/runner.py:229-260 | the m-th LLM call of a run is sent the seed, the first m replies and the answers to their calls |
| RunnerTheorems.HardCap | libs/toollab/runner.py:230-233 | the bound is the request's own if it has a nonzero one and the default otherwise, cut at the hard cap; an LLM that always calls tools is invoked exactly as often, and no other one more often |
| RunnerTheorems.ProtocolAt | libs/toollab/runner.py:293-306 | under the protocol an assistant message is followed at once by exactly the answers to its calls, in order |
| RunnerTheorems.TranscriptProtocol | libs/toollab/runner.py:260-306 | what a run adds to a conversation follows the protocol |
| RunnerTheorems.TurnSpeaks | libs/toollab/runner.py:206-306 | a run's conversation is system prompt, history, then prompt and transcript |
| RunnerTheorems.TurnReplays | apps/api/static/js/toollab.js:608-638 | pushing a turn's trace to history seeds the next run with the same messages, normalised, numbers included |
| RunnerTheorems.ReplayFidelity | apps/api/static/js/toollab.js:608-638 | over any number of turns the next run is seeded with what was said in the delivered ones, normalised |
| RunnerTheorems.PristineIff | libs/toollab/runner.py:208-226 | a message survives replay unchanged exactly when it is text with call ids, reports no failure with an error kind, and the page keeps all its numbers |
| RunnerTheorems.ReplayExactIff | apps/api/static/js/toollab.js:608-638 | a whole conversation replays unchanged exactly when every message of it does |
| RunnerTheorems.ConversationProtocol | libs/toollab/runner.py:206-306 | at every LLM call of every turn, truncated and failed turns included, the conversation sent follows the protocol |
| Retrieval.SearchVector | libs/core/service.py:138-210 | the search loops compute the sorted, cut merge of the collections' answers |
| Retrieval.ScanPage | libs/core/service.py:308-318 | one page contributes its matching points until the limit is reached |
| Retrieval.ScanCollection | libs/core/service.py:298-320 | paging through a collection terminates and collects its matching points in order up to the limit, wherever the pages end |
| Retrieval.GetKnowledgePoints | libs/core/service.py:293-323 | the paged scan returns the newest-first sort of the first `limit` points of the flat scan |
| RetrievalTheorems.CutIsBest | libs/core/service.py:203-210 | sorting and cutting a covering pool selects the best of everything it covers |
| RetrievalTheorems.FederatedTopK | libs/core/service.py:141-210 | if each collection returns its own best, the merged result is a best-`limit` selection over all target collections |
| RetrievalTheorems.FlatMembers | libs/core/service.py:293-320 | the flat scan holds exactly the matching points of the target collections that are present |
| RetrievalTheorems.PagedScanSpec | libs/core/service.py:293-323 | the scan's result is the first matching points of the flat scan, as many as the limit allows, newest first and none twice |
| ChatMemory.MemoryManager.GetThreadHistory | libs/core/memory.py:15-26 | a fetch returns the thread's own history, trimmed, and leaves the other threads alone |
| ChatMemory.MemoryManager.ClearThread | libs/core/memory.py:28-31 | clearing forgets exactly one thread |
| ChatMemory.ChatSync | apps/api/api.py:578-630 | what a synchronous request sends and logs, and that it sends at most window + 2 messages |
| ChatMemory.FinishStream | apps/api/api.py:508-552 | a stream logs the question and whatever arrived before a failure, as one pair |
| ChatMemoryTheorems.FetchIsStep | libs/core/memory.py:15-26 | fetching a history does to the objects what the event of the interleavings does to the logs |
| ChatMemoryTheorems.FinishIsStep | apps/api/api.py:551-552 | so does appending a pair to a history held across other requests |
| ChatMemoryTheorems.ClearIsStep | libs/core/memory.py:28-31 | so does clearing a thread |
| ChatMemoryTheorems.StepWindowed | libs/core/memory.py:15-26 | with an even window every event keeps each log a suffix of what was said to it, cut between pairs |
| ChatMemoryTheorems.LogsStayAligned | apps/api/api.py:488-552 | over every interleaving with an even window a log is a suffix of the exchanged pairs, alternates and starts with the user |
| ChatMemoryTheorems.PromptAlternates | apps/api/api.py:488-497 | over every interleaving with an even window what a request sends is the system text, the log just fetched and the question, the speakers taking turns |
| ChatMemoryTheorems.FetchedLogFits | libs/core/memory.py:20-24 | right after a fetch the log is within a positive window |
| ChatMemoryTheorems.OddWindowMisaligns | libs/core/memory.py:22-24 | with any odd window some interleaving cuts a pair in two |
| ChatMemoryTheorems.AlignedIffEvenWindow | libs/core/memory.py:15-26 | the alternation survives every interleaving if and only if the window is even |
| SeedUsers.UserStore.CreateUser | libs/toollab/seed.py:145-152 | stores and returns the new user |
| SeedUsers.UserStore.UpdateUserEmail | libs/toollab/seed.py:192-199 | changes one email, or reports that there is no such user |
| SeedUsers.UserStore.OnboardNewTeam | libs/toollab/seed.py:254-271 | the loop computes the onboarding the theorems are about, what was stored staying when one member raises |
| SeedUsersTheorems.UserIdInjective | libs/toollab/seed.py:148 | zero-padded decimal ids of distinct numbers are distinct |
| SeedUsersTheorems.AddUserNumbered | libs/toollab/seed.py:145-152 | a creation adds one new key and disturbs no record |
| SeedUsersTheorems.UpdateNumbered | libs/toollab/seed.py:192-199 | an update changes the email of that user, no other field and no other user |
| SeedUsersTheorems.OnboardNumbered | libs/toollab/seed.py:254-271 | onboarding keeps everyone already there and the numbering, even when it fails midway |
| SeedUsersTheorems.OnboardCounts | libs/toollab/seed.py:254-271 | it succeeds if and only if every member can be welcomed, and stores the members up to the first who cannot, that one too if nothing of theirs is missing |
| SeedUsersTheorems.OnboardStores | libs/toollab/seed.py:254-271 | the i-th of them is stored under the i-th new id and, on success, reported in the i-th place with the team's welcome |
| SeedUsersTheorems.IdsNeverCollide | libs/toollab/seed.py:145-271 | over any sequential run the keys are exactly the ids of 1..n and each record carries its key |
| SeedUsersTheorems.InterleavingKeeps | libs/toollab/seed.py:145-152 | under every interleaving of size readings and storings the keys stay the ids of 1..n and each record carries its key |
| SeedUsersTheorems.UndisturbedCreation | libs/toollab/seed.py:145-152 | with nothing in between, reading the size and storing are one creation |
| SeedUsersTheorems.CreationAddsIff | libs/toollab/seed.py:145-152 | a creation adds a user if and only if no other one added a user between its reading the size and its storing |
| SeedUsersTheorems.OverlappingCreatesCollide | libs/toollab/seed.py:145-152 | of two creations that both read the size before either stores, the second overwrites the first |

## Left out

- Inference.BuildLocalEnv: bodies are straight-line with one statement to a line, so the sort by position is the given order; branches, loops, nested functions and augmented assignment are not modelled.
- InferenceTheorems.InferSound: floats are reals (no rounding, overflow, infinities or NaN), and objects with operators of their own are not modelled.
- AnnotationTheorems.SoundIff: unions that keep a member have soundness proved (CompileSound) but no exact condition, because one member may admit by right what another lets in by mistake.
- RegistryTheorems.ExecuteSpec: timeouts and the text of error messages; the sandbox's outcome is an arbitrary input.
- Runner.RunPrompt: JSON texts are the values they denote; results that cannot be serialised, reasoning text, warnings, leak detection, latency and logging are not modelled.
- Retrieval.GetKnowledgePoints: the domain filter belongs to the vector store; offsets are positions rather than point ids, and the store does not change during a scan.
- Subscripted `tuple` with several elements: its schema is no valid document, and what its keywords would mean is not modelled.
- The warnings that generation collects beside the schemas.
- `update_tool`: it reuses the primary key of the row it replaces, so its insert cannot succeed.
- Overlapping endpoint calls on one row, beyond the counterexample for `replace_active`.
- The no-query and text-matching branches of `search_rag`, which make no ranking promise across collections.
- AST deny-lists, `exec`, the thread pool, authentication, HTTP and database plumbing, prompt management and bulk upload.
