# android_aar lowering and the test-runner-spec coercer

This project models two pieces of the Buck build tool.

**`AndroidAarDescription.createBuildRule`** lowers an `android_aar` target into the rules that build an `.aar` bundle. It works in these steps:

1. It rejects an already flavored target.
2. It derives four sub-targets by appending reserved flavors: `aar_android_manifest`, `aar_assemble_assets`, `aar_assemble_resource` and `aar_android_resource`.
3. It registers the manifest, the assembled assets, the merged resources and the android resource rule in the action-graph index, one after the other.
4. It rejects BuildConfig values that come without `include_build_config_class`.
5. When that flag is set, it registers the generated BuildConfig libraries.
6. It picks the root module's native-library copy rule. If the native-library enhancer returns a copy-rule map (even an empty one) with no entry for the root module, that is an error.
7. It returns one terminal `AndroidAar` rule. That rule carries the accumulated extra deps and the classpath to include.

The index is a class, `ActionGraph.ActionGraphBuilder`, whose `index` map the registration methods update in place. The first rule registered for a target wins. `CreateBuildRule` is the imperative lowering. Its contract ties the returned rule and the new index to `Lower`, a staged functional definition of the same lowering. The properties are lemmas about `Lower`: when it fails, what it registers, the extra deps, the classpath, the native-library outcome and the shape of the android resource rule. The argument defaults and the `withDepsQuery` / `withProvidedDepsQuery` copy-on-change helpers are modelled as functions.

**`TestRunnerSpecCoercer.coerce`** turns a freeform JSON-like value into a `TestRunnerSpec` tree:

- a map becomes a spec map, with keys through the macros coercer and values coerced recursively;
- a list becomes a spec list;
- numbers and booleans are wrapped unchanged;
- anything else goes through the macros coercer.

The macros coercer is a parameter that may fail. The model proves:

- lists and maps are coerced element by element;
- the coercion fails exactly when the macros coercer rejects one of the values handed to it, and then with the first such error;
- coercion and rendering back are inverse in both directions.

Modules:

- `Wrappers`: `Option` and `Result`.
- `BuildTargets`: targets and flavors.
- `ActionGraph`: rules, the index and `ActionGraphBuilder`.
- `AndroidAarDescription`.
- `TestRunnerSpecCoercer`.

The BuildConfig check runs after the four derived rules are registered and the Java libraries to dex are collected (`AndroidAarDescription.java:147-227`). So a rejected target leaves those four rules in the index; `BuildConfigRejectedAfterRegistration` states this.

The BuildConfig generator is called whenever `include_build_config_class` is set, even with no values (`AndroidAarDescription.java:228-258`). `BuildConfigRules` is the generator's output exactly when the flag is set.

Extra deps are modelled as a set of build targets. The source keeps a sorted set of rules in the rules' natural order, which compares their targets. So two rules for one target collapse into one entry, as they do in the source.

## Model

| member | source | states |
|---|---|---|
| ActionGraph.Insert | src/com/facebook/buck/android/AndroidAarDescription.java:147 | registering a rule adds its target; the rule already registered under a target is never replaced; a new target holds the rule; every rule stays registered under its own target |
| ActionGraph.ActionGraphBuilder.AddToIndex | src/com/facebook/buck/android/AndroidAarDescription.java:147 | updates the index as `Insert` does and returns the rule registered for the target afterwards: the earlier one if there was one, else the given rule |
| ActionGraph.InsertAllRegisters | src/com/facebook/buck/android/AndroidAarDescription.java:252 | registering a sequence adds exactly its targets to the index, changes no earlier entry and keeps every rule under its own target |
| ActionGraph.InsertAllFirstWins | src/com/facebook/buck/android/AndroidAarDescription.java:252 | a target new to the index ends up holding the first rule of the sequence that carries it |
| ActionGraph.InsertAllDistinct | src/com/facebook/buck/android/AndroidAarDescription.java:147-211 | when the targets of a sequence are pairwise distinct, every rule whose target was new is the one registered for it |
| ActionGraph.TargetsMembership | src/com/facebook/buck/android/AndroidAarDescription.java:253 | a target is among the targets added as extra deps exactly when some rule of the sequence carries it |
| ActionGraph.Outputs | src/com/facebook/buck/android/AndroidAarDescription.java:254-257 | the classpath contributed by the BuildConfig rules holds each rule's output and nothing else |
| BuildTargets.AppendedFlavorNaming | src/com/facebook/buck/android/AndroidAarDescription.java:137-138 | appending one flavor to an unflavored target keeps the base name and yields the flavor set holding just that flavor; the result differs from the target, and two results coincide exactly when the flavors do |
| AndroidAarDescription.ArgWithDefaults | src/com/facebook/buck/android/AndroidAarDescription.java:330-343 | unset BuildConfig values default to empty, the include flag and the relinker flag to false, the queries to absent; every given attribute is kept |
| AndroidAarDescription.WithDepsQuery | src/com/facebook/buck/android/AndroidAarDescription.java:347-353 | the deps query becomes the given query and nothing else changes; the arguments come back unchanged when the query is already set to it |
| AndroidAarDescription.WithProvidedDepsQuery | src/com/facebook/buck/android/AndroidAarDescription.java:355-361 | the same for the provided-deps query |
| AndroidAarDescription.QueryUpdatesIdempotent | src/com/facebook/buck/android/AndroidAarDescription.java:347-361 | setting either query twice to the same value equals setting it once |
| AndroidAarDescription.ResourceDirectories | src/com/facebook/buck/android/AndroidAarDescription.java:181-184 | a directory is among the merged resource directories exactly when some module's resource details list it |
| AndroidAarDescription.ResourceDirectoriesAppend | src/com/facebook/buck/android/AndroidAarDescription.java:181-184 | flattening keeps the modules' order: the directories of the first modules come before those of the later ones, and duplicates are kept |
| AndroidAarDescription.ResourceDirectoriesSingle | src/com/facebook/buck/android/AndroidAarDescription.java:181-184 | one module contributes exactly its own directories, in its own order |
| AndroidAarDescription.DerivedTargetsReserved | src/com/facebook/buck/android/AndroidAarDescription.java:82-88 | each derived target keeps the base name, carries exactly one reserved flavor and is not the lowered target |
| AndroidAarDescription.DerivedTargetsDistinct | src/com/facebook/buck/android/AndroidAarDescription.java:82-88 | the four derived targets are pairwise distinct |
| AndroidAarDescription.DerivedRulesTargets | src/com/facebook/buck/android/AndroidAarDescription.java:136-211 | the four derived rules carry exactly the four derived targets |
| AndroidAarDescription.RegisterDerivedRules | src/com/facebook/buck/android/AndroidAarDescription.java:136-211 | registers the manifest, assets, resources and android resource rules in that order; the new index is the old one with those four registered; the extra deps grow by their targets |
| AndroidAarDescription.RegisterBuildConfigRules | src/com/facebook/buck/android/AndroidAarDescription.java:252 | registers the BuildConfig libraries one after the other; the new index is the old one with all of them registered in order |
| AndroidAarDescription.CreateBuildRule | src/com/facebook/buck/android/AndroidAarDescription.java:123-311 | the returned rule or error and the index left behind are exactly those of the staged lowering `Lower` |
| AndroidAarDescription.LowerSucceedsIff | src/com/facebook/buck/android/AndroidAarDescription.java:123-311 | lowering succeeds if and only if the target is unflavored, BuildConfig values do not come without the include flag, and the native-library enhancer returned no copy-rule map at all, or a map with an entry for the root module |
| AndroidAarDescription.FlavoredTargetRegistersNothing | src/com/facebook/buck/android/AndroidAarDescription.java:131 | a flavored target fails with the flavored-target error and leaves the index untouched |
| AndroidAarDescription.DerivedRulesRegistered | src/com/facebook/buck/android/AndroidAarDescription.java:136-211 | registering the derived rules adds exactly the four derived targets, changes no earlier entry, and each new derived target holds its rule |
| AndroidAarDescription.BuildConfigRejectedAfterRegistration | src/com/facebook/buck/android/AndroidAarDescription.java:220-227 | BuildConfig values without the include flag fail with that error, after the four derived rules are in the index and before anything else is registered |
| AndroidAarDescription.WithoutBuildConfigClass | src/com/facebook/buck/android/AndroidAarDescription.java:213-258 | without the include flag, no BuildConfig rule is registered and the `.aar` classpath is exactly the collected classpath entries to dex |
| AndroidAarDescription.DefaultArgsLowering | src/com/facebook/buck/android/AndroidAarDescription.java:330-343 | with defaulted arguments, the BuildConfig check never fires, only the four derived targets are registered and the classpath is the collected entries |
| AndroidAarDescription.NativeLibrariesOutcome | src/com/facebook/buck/android/AndroidAarDescription.java:278-296 | no copy-rule map gives no native directories; a map (even an empty one) without the root module fails after registration; otherwise the root module's copy rule gives both directories and becomes an extra dep |
| AndroidAarDescription.AarExtraDepsContents | src/com/facebook/buck/android/AndroidAarDescription.java:297-298 | the `.aar` keeps its target and declared deps; its extra deps are the original extra deps, the derived targets, the Java libraries to dex, the BuildConfig libraries and the root copy rule; every target the lowering registered is among them; the classpath is the collected entries to dex plus the outputs of the BuildConfig libraries |
| AndroidAarDescription.AarOutputs | src/com/facebook/buck/android/AndroidAarDescription.java:299-310 | the `.aar` holds the manifest rule, the merged resources' output (the `aar_assemble_resource` target) as its resource directory, the assembled assets' output (the `aar_assemble_assets` target) as its assets directory, the android resource rule for the `aar_android_resource` target, and the declared classes to remove |
| AndroidAarDescription.AndroidResourceShape | src/com/facebook/buck/android/AndroidAarDescription.java:193-211 | the android resource rule depends on exactly the assembled assets, the merged resources and the declared deps; it has no R package, no whitelisted strings and empty source maps; it points at the `.aar`'s assembled directories and manifest |
| TestRunnerSpecCoercer.Coerce | src/com/facebook/buck/rules/coercer/TestRunnerSpecCoercer.java:80-123 | a successful map or list coerces to a spec map or list of the same length; numbers and booleans are wrapped unchanged; any other value succeeds or fails as the macros coercer does on it |
| TestRunnerSpecCoercer.CoerceEntries | src/com/facebook/buck/rules/coercer/TestRunnerSpecCoercer.java:89-98 | a successful map coercion has one entry per input entry |
| TestRunnerSpecCoercer.CoerceItems | src/com/facebook/buck/rules/coercer/TestRunnerSpecCoercer.java:99-108 | a successful list coercion has one element per input element |
| TestRunnerSpecCoercer.CoerceMapElementwise | src/com/facebook/buck/rules/coercer/TestRunnerSpecCoercer.java:89-98 | a map coerces to given entries if and only if they are as many as the input's and each key and value is the coerced key and value at its position |
| TestRunnerSpecCoercer.CoerceListElementwise | src/com/facebook/buck/rules/coercer/TestRunnerSpecCoercer.java:99-108 | a list coerces to a given list if and only if it is as long as the input and each element is the coerced input element at its position |
| TestRunnerSpecCoercer.CoerceFailsAtFirstMacroFailure | src/com/facebook/buck/rules/coercer/TestRunnerSpecCoercer.java:80-123 | the coercion fails if and only if the macros coercer rejects one of the values handed to it, and then with the error of the first one it rejects |
| TestRunnerSpecCoercer.CoerceFailsOnlyThroughMacros | src/com/facebook/buck/rules/coercer/TestRunnerSpecCoercer.java:80-123 | the coercion never fails on its own account: with a macros coercer that accepts everything it always succeeds |
| TestRunnerSpecCoercer.RenderUndoesCoerce | src/com/facebook/buck/rules/coercer/TestRunnerSpecCoercer.java:80-123 | when the macros coercer accepts every value handed to it and can be undone, rendering the coerced spec gives back the original value |
| TestRunnerSpecCoercer.CoerceUndoesRender | src/com/facebook/buck/rules/coercer/TestRunnerSpecCoercer.java:80-123 | when strings with macros render as leaves that the macros coercer reads back, coercing a rendered spec gives back the spec |
| TestRunnerSpecCoercer.CoerceToUnconfigured | src/com/facebook/buck/rules/coercer/TestRunnerSpecCoercer.java:69-77 | the unconfigured form of a value is the value itself and never fails |
| TestRunnerSpecCoercer.CoerceBothIsCoerce | src/com/facebook/buck/rules/coercer/TestRunnerSpecCoercer.java:69-77 | going through the unconfigured form before coercing changes nothing |
| TestRunnerSpecCoercer.HasElementClass | src/com/facebook/buck/rules/coercer/TestRunnerSpecCoercer.java:60-63 | a test-runner spec holds an element of no class |
| TestRunnerSpecCoercer.Traverse | src/com/facebook/buck/rules/coercer/TestRunnerSpecCoercer.java:65-66 | traversing a spec visits nothing |

## Left out

- `ActionGraphBuilder.addToIndex`: its code is not among the modelled sources. `ActionGraph.ActionGraphBuilder.AddToIndex` assumes insert-if-absent: the first rule registered for a target stays, and a later rule for the same target, even a different one, is silently dropped. Nothing in `AndroidAarDescription.java` shows that case; a stricter builder that throws on a second, different rule is not modelled.
- The collaborators are parameters, recorded by the inputs they receive: the manifest factory, the packageable collector, the BuildConfig generator (`addBuildConfigDeps`) and the native-library enhancer. Their internals are not modelled. The rules they register themselves are not modelled either.
- The lazily resolved NDK platforms, the javac factory and javac options, the project filesystem, the downward API and JavaCD settings are not modelled. They only configure collaborators.
- LowerSucceedsIff: the collaborators and toolchain lookups are modelled as never failing. Their exceptions are not modelled: the manifest factory, the packageable collector, the javac factory and toolchain lookups, `addBuildConfigDeps` and the native-library enhancer all can throw in the source (`AndroidAarDescription.java:140-279`). Nor are the partial registrations such an exception leaves in the index. The success condition holds only under that assumption.
- `BuildRules.toBuildRulesFor` is modelled as the set of Java library targets to dex. A target with no rule in the index is not modelled as a failure.
- The APK module graph is not modelled. Its root module is a parameter; its use by the packageable collector (`AndroidAarDescription.java:152-156`) and by the native-library enhancer (`AndroidAarDescription.java:276`) to assign rules to modules is folded into the `collectPackageables` and `enhanceNativeLibraries` parameters.
- The AndroidAar rule is recorded by its constructor arguments. Its build steps are not modelled.
- `findDepsForTargetFromConstructorArgs` and `getConstructorArgType` are not modelled. They are not part of the lowering.
- Concurrency of the shared index is not modelled.
- `getOutputType` and `getUnconfiguredType` are not modelled. They return reflection type tokens; in the model the output type is the Dafny type `TestRunnerSpec<S>`, enforced statically.
- The macros coercer is one function that can fail. It stands for both the unconfigured step and the configured step.
- The map and list coercers (`MapTypeCoercer`, `ListTypeCoercer`) are not part of this model. The model assumes they handle a map entry by entry, key then value, and a list element by element, each in iteration order.
- CoerceFailsAtFirstMacroFailure: which error is reported when several values fail depends on that assumed visiting order.
- CoerceEntries: two keys that coerce to the same string with macros are kept as two entries. The immutable map the map coercer builds would reject the duplicate key instead.
- CoerceMapElementwise, CoerceFailsAtFirstMacroFailure, CoerceFailsOnlyThroughMacros: for the same reason, a map whose keys the macros coercer sends to one value succeeds here, where the map coercer would fail.
- Coerce: the map check comes before the list check in the source. Here the two are distinct variants of one datatype, so the priority cannot be observed.
- Numbers are kept as given, so floating-point arithmetic never arises. A double is recorded as a real number.
- The exception messages are not modelled: each error is a case of `AarError`, and the coercer's errors are whatever the macros coercer returns.
