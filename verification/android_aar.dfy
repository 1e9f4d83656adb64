/**
 * Lowering of an `android_aar` target into the rules that build an `.aar` bundle: the
 * manifest, the assembled assets, the merged resources and the android resource rule,
 * the optional BuildConfig libraries, the root module's native libraries, and the one
 * terminal AndroidAar rule that refers to all of them.
 */
module AndroidAarDescription {
  import opened Wrappers
  import opened BuildTargets
  import opened ActionGraph

  /** The internal flavors that name the derived sub-rules of an `.aar` target. */
  const AarAndroidManifestFlavor := Flavor("aar_android_manifest")
  const AarAssembleResourceFlavor := Flavor("aar_assemble_resource")
  const AarAssembleAssetsFlavor := Flavor("aar_assemble_assets")
  const AarAndroidResourceFlavor := Flavor("aar_android_resource")

  datatype Query = Query(expression: string)

  datatype BuildConfigField = BuildConfigField(fieldType: string, name: string, value: string)

  /** BuildConfig fields by name. */
  type BuildConfigFields = map<string, BuildConfigField>

  /** The declared arguments of an `android_aar` target. */
  datatype AndroidAarDescriptionArg = AndroidAarDescriptionArg(
    name: string,
    deps: set<BuildTarget>,
    depsQuery: Option<Query>,
    providedDepsQuery: Option<Query>,
    manifestSkeleton: SourcePath,
    buildConfigValues: BuildConfigFields,
    includeBuildConfigClass: bool,
    enableRelinker: bool,
    relinkerWhitelist: seq<string>,
    removeClasses: set<string>)

  /** The dependencies of the target being lowered. */
  datatype BuildRuleParams = BuildRuleParams(declaredDeps: set<BuildTarget>, extraDeps: set<BuildTarget>) {
    function BuildDeps(): set<BuildTarget> {
      declaredDeps + extraDeps
    }
  }

  datatype ResourceDetails = ResourceDetails(resourceDirectories: seq<SourcePath>)

  /** What the packageable collector gathered from the dependency closure. */
  datatype PackageableCollection = PackageableCollection(
    assetsDirectories: seq<SourcePath>,
    resourceDetails: seq<ResourceDetails>,
    classpathEntriesToDex: set<SourcePath>,
    javaLibrariesToDex: set<BuildTarget>)

  datatype ApkModule = ApkModule(name: string)

  /** A rule that copies the native libraries of one module, with its two output directories. */
  datatype CopyNativeLibraries = CopyNativeLibraries(
    target: BuildTarget,
    nativeLibsDir: SourcePath,
    nativeLibsAssetsDir: SourcePath)

  /**
   * The collaborators whose internals are not modelled, as functions of the inputs the
   * lowering hands them: the root module of the APK module graph, the packageable
   * collector, the BuildConfig code generator and the native-library enhancer (which
   * yields a copy rule per module, or nothing when the graph has no native libraries).
   */
  datatype Collaborators = Collaborators(
    rootModule: BuildTarget -> ApkModule,
    collectPackageables: (BuildTarget, set<BuildTarget>) -> PackageableCollection,
    addBuildConfigDeps: (BuildTarget, BuildConfigFields, PackageableCollection) -> seq<BuildRule>,
    enhanceNativeLibraries: (BuildTarget, PackageableCollection, bool, seq<string>) -> Option<map<ApkModule, CopyNativeLibraries>>,
    externalActionsEnabled: bool)

  /** The terminal rule that assembles the `.aar`. */
  datatype AndroidAar = AndroidAar(
    target: BuildTarget,
    params: BuildRuleParams,
    manifest: BuildRule,
    androidResource: BuildRule,
    assembledResourceDirectory: SourcePath,
    assembledAssetsDirectory: SourcePath,
    assembledNativeLibsDir: Option<SourcePath>,
    assembledNativeLibsAssetsDir: Option<SourcePath>,
    removeClasses: set<string>,
    classpathToIncludeInAar: set<SourcePath>)

  /** Why a lowering stops; each case is one of the exceptions the lowering throws. */
  datatype AarError =
    | TargetIsFlavored(target: BuildTarget)
    | BuildConfigValuesWithoutInclude(target: BuildTarget)
    | NativeLibrariesNotInRootModule

  // ---------------------------------------------------------------------------------
  // Arguments

  /** The arguments as declared, with every defaulted attribute left at its default. */
  function ArgWithDefaults(
    name: string,
    deps: set<BuildTarget>,
    manifestSkeleton: SourcePath,
    relinkerWhitelist: seq<string>,
    removeClasses: set<string>): (a: AndroidAarDescriptionArg)
    ensures a.buildConfigValues == map[]
    ensures !a.includeBuildConfigClass && !a.enableRelinker
    ensures a.depsQuery == None && a.providedDepsQuery == None
    ensures a.name == name && a.deps == deps && a.manifestSkeleton == manifestSkeleton
    ensures a.relinkerWhitelist == relinkerWhitelist && a.removeClasses == removeClasses
  {
    AndroidAarDescriptionArg(name, deps, None, None, manifestSkeleton, map[], false, false,
      relinkerWhitelist, removeClasses)
  }

  /** The arguments with their deps query set to `q`; unchanged if it already is `q`. */
  function WithDepsQuery(a: AndroidAarDescriptionArg, q: Query): (r: AndroidAarDescriptionArg)
    ensures r.depsQuery == Some(q)
    ensures r.(depsQuery := a.depsQuery) == a
    ensures a.depsQuery == Some(q) ==> r == a
  {
    if a.depsQuery == Some(q) then a else a.(depsQuery := Some(q))
  }

  /** The arguments with their provided-deps query set to `q`; unchanged if it already is `q`. */
  function WithProvidedDepsQuery(a: AndroidAarDescriptionArg, q: Query): (r: AndroidAarDescriptionArg)
    ensures r.providedDepsQuery == Some(q)
    ensures r.(providedDepsQuery := a.providedDepsQuery) == a
    ensures a.providedDepsQuery == Some(q) ==> r == a
  {
    if a.providedDepsQuery == Some(q) then a else a.(providedDepsQuery := Some(q))
  }

  /** Setting either query twice to the same value is the same as setting it once. */
  lemma QueryUpdatesIdempotent(a: AndroidAarDescriptionArg, q: Query)
    ensures WithDepsQuery(WithDepsQuery(a, q), q) == WithDepsQuery(a, q)
    ensures WithProvidedDepsQuery(WithProvidedDepsQuery(a, q), q) == WithProvidedDepsQuery(a, q)
  {
  }

  // ---------------------------------------------------------------------------------
  // The derived rules

  /** The resource directories of every module, flattened in order. */
  function ResourceDirectories(details: seq<ResourceDetails>): (dirs: seq<SourcePath>)
    ensures forall d :: d in dirs <==> exists i | 0 <= i < |details| :: d in details[i].resourceDirectories
  {
    if details == [] then []
    else
      var rest := ResourceDirectories(details[1..]);
      assert forall i | 1 <= i < |details| :: details[i] == details[1..][i - 1];
      details[0].resourceDirectories + rest
  }

  /**
   * Flattening keeps the modules' order: the directories of one group of modules come
   * before those of the next, each module's in its own order, duplicates kept.
   */
  lemma {:induction false} ResourceDirectoriesAppend(a: seq<ResourceDetails>, b: seq<ResourceDetails>)
    ensures ResourceDirectories(a + b) == ResourceDirectories(a) + ResourceDirectories(b)
  {
    if a != [] {
      assert (a + b)[1..] == a[1..] + b;
      ResourceDirectoriesAppend(a[1..], b);
    } else {
      assert a + b == b;
    }
  }

  /** A single module contributes exactly its own directories, in order. */
  lemma ResourceDirectoriesSingle(d: ResourceDetails)
    ensures ResourceDirectories([d]) == d.resourceDirectories
  {
  }

  function AndroidManifestTarget(t: BuildTarget): BuildTarget {
    WithAppendedFlavors(t, AarAndroidManifestFlavor)
  }

  function AssembleAssetsTarget(t: BuildTarget): BuildTarget {
    WithAppendedFlavors(t, AarAssembleAssetsFlavor)
  }

  function AssembleResourceTarget(t: BuildTarget): BuildTarget {
    WithAppendedFlavors(t, AarAssembleResourceFlavor)
  }

  function AndroidResourceTarget(t: BuildTarget): BuildTarget {
    WithAppendedFlavors(t, AarAndroidResourceFlavor)
  }

  /** The four derived targets. */
  function DerivedTargets(t: BuildTarget): set<BuildTarget> {
    {AndroidManifestTarget(t), AssembleAssetsTarget(t), AssembleResourceTarget(t), AndroidResourceTarget(t)}
  }

  function ManifestRule(t: BuildTarget, args: AndroidAarDescriptionArg): BuildRule {
    BuildRule(AndroidManifestTarget(t), AndroidManifestRule(args.deps, args.manifestSkeleton))
  }

  function AssembleAssetsRule(t: BuildTarget, collection: PackageableCollection): BuildRule {
    BuildRule(AssembleAssetsTarget(t), AssembleDirectoriesRule(collection.assetsDirectories))
  }

  function AssembleResourceRule(t: BuildTarget, collection: PackageableCollection): BuildRule {
    BuildRule(AssembleResourceTarget(t),
      MergeAndroidResourceSourcesRule(ResourceDirectories(collection.resourceDetails)))
  }

  function AndroidResourceFor(
    t: BuildTarget, params: BuildRuleParams, manifest: BuildRule, assets: BuildRule,
    resources: BuildRule, externalActionsEnabled: bool): BuildRule
  {
    BuildRule(AndroidResourceTarget(t),
      AndroidResourceRule(
        {assets.target, resources.target} + params.declaredDeps,
        SourcePathToOutput(resources), map[], None,
        SourcePathToOutput(assets), map[],
        SourcePathToOutput(manifest), false, externalActionsEnabled))
  }

  /** The four derived rules, in the order they are registered. */
  function DerivedRules(
    t: BuildTarget, params: BuildRuleParams, args: AndroidAarDescriptionArg,
    collection: PackageableCollection, externalActionsEnabled: bool): seq<BuildRule>
  {
    var manifest := ManifestRule(t, args);
    var assets := AssembleAssetsRule(t, collection);
    var resources := AssembleResourceRule(t, collection);
    [manifest, assets, resources,
     AndroidResourceFor(t, params, manifest, assets, resources, externalActionsEnabled)]
  }

  /** BuildConfig values set without asking for the BuildConfig class: a user error. */
  predicate BuildConfigRejected(args: AndroidAarDescriptionArg) {
    args.buildConfigValues != map[] && !args.includeBuildConfigClass
  }

  /** The generated BuildConfig libraries; none unless the class is to be included. */
  function BuildConfigRules(
    t: BuildTarget, args: AndroidAarDescriptionArg, collection: PackageableCollection,
    collaborators: Collaborators): seq<BuildRule>
  {
    if args.includeBuildConfigClass
    then collaborators.addBuildConfigDeps(t, args.buildConfigValues, collection)
    else []
  }

  /** The copy rule of the root module, if the enhancer produced any copy rules. */
  function RootCopyNativeLibraries(
    nativeLibraries: Option<map<ApkModule, CopyNativeLibraries>>, root: ApkModule)
    : Result<Option<CopyNativeLibraries>, AarError>
  {
    match nativeLibraries
    case None => Success(None)
    case Some(byModule) =>
      if root in byModule then Success(Some(byModule[root]))
      else Failure(NativeLibrariesNotInRootModule)
  }

  function NativeLibrariesOf(
    t: BuildTarget, args: AndroidAarDescriptionArg, collection: PackageableCollection,
    collaborators: Collaborators): Option<map<ApkModule, CopyNativeLibraries>>
  {
    collaborators.enhanceNativeLibraries(t, collection, args.enableRelinker, args.relinkerWhitelist)
  }

  /** The extra deps of the terminal rule. */
  function AarExtraDeps(
    params: BuildRuleParams, derived: seq<BuildRule>, collection: PackageableCollection,
    buildConfigRules: seq<BuildRule>, native: Option<CopyNativeLibraries>): set<BuildTarget>
  {
    params.extraDeps + Targets(derived) + collection.javaLibrariesToDex + Targets(buildConfigRules)
    + (if native.Some? then {native.value.target} else {})
  }

  // ---------------------------------------------------------------------------------
  // The lowering as a whole

  /** The outcome of a lowering and the index it leaves behind. */
  datatype Lowering = Lowering(result: Result<AndroidAar, AarError>, index: Index)

  /** What lowering `t` does, stage by stage, starting from the index `index`. */
  function Lower(
    index: Index, collaborators: Collaborators, t: BuildTarget, params: BuildRuleParams,
    args: AndroidAarDescriptionArg): Lowering
  {
    if IsFlavored(t) then Lowering(Failure(TargetIsFlavored(t)), index)
    else
      var collection := collaborators.collectPackageables(t, params.BuildDeps());
      var derived := DerivedRules(t, params, args, collection, collaborators.externalActionsEnabled);
      var registered := InsertAll(index, derived);
      if BuildConfigRejected(args) then Lowering(Failure(BuildConfigValuesWithoutInclude(t)), registered)
      else
        var buildConfigRules := BuildConfigRules(t, args, collection, collaborators);
        var withBuildConfig := InsertAll(registered, buildConfigRules);
        var root := collaborators.rootModule(t);
        match RootCopyNativeLibraries(NativeLibrariesOf(t, args, collection, collaborators), root)
        case Failure(e) => Lowering(Failure(e), withBuildConfig)
        case Success(native) =>
          var aar := AndroidAar(
            t,
            params.(extraDeps := AarExtraDeps(params, derived, collection, buildConfigRules, native)),
            derived[0], derived[3],
            SourcePathToOutput(derived[2]), SourcePathToOutput(derived[1]),
            if native.Some? then Some(native.value.nativeLibsDir) else None,
            if native.Some? then Some(native.value.nativeLibsAssetsDir) else None,
            args.removeClasses,
            collection.classpathEntriesToDex + Outputs(buildConfigRules));
          Lowering(Success(aar), withBuildConfig)
  }

  /**
   * Registers the four derived rules one after the other: the manifest, the assembled
   * assets, the merged resources and the android resource rule over them. Returns the
   * rules as built, and adds to `extraDeps` the rules the index holds for their targets.
   */
  method RegisterDerivedRules(
    graphBuilder: ActionGraphBuilder, collaborators: Collaborators, t: BuildTarget,
    params: BuildRuleParams, args: AndroidAarDescriptionArg, collection: PackageableCollection,
    extraDeps: set<BuildTarget>)
    returns (derived: seq<BuildRule>, extraDeps': set<BuildTarget>)
    requires graphBuilder.Valid()
    modifies graphBuilder
    ensures graphBuilder.Valid()
    ensures derived == DerivedRules(t, params, args, collection, collaborators.externalActionsEnabled)
    ensures graphBuilder.index == InsertAll(old(graphBuilder.index), derived)
    ensures extraDeps' == extraDeps + Targets(derived)
  {
    ghost var index0 := graphBuilder.index;
    extraDeps' := extraDeps;

    var manifest := ManifestRule(t, args);
    var added := graphBuilder.AddToIndex(manifest);
    extraDeps' := extraDeps' + {added.target};
    assert [manifest][..0] == [];
    assert graphBuilder.index == InsertAll(index0, [manifest]);
    assert extraDeps' == extraDeps + Targets([manifest]);

    var assets := AssembleAssetsRule(t, collection);
    added := graphBuilder.AddToIndex(assets);
    extraDeps' := extraDeps' + {added.target};
    assert [manifest, assets][..1] == [manifest];
    assert graphBuilder.index == InsertAll(index0, [manifest, assets]);
    assert extraDeps' == extraDeps + Targets([manifest, assets]);

    var resources := AssembleResourceRule(t, collection);
    added := graphBuilder.AddToIndex(resources);
    extraDeps' := extraDeps' + {added.target};
    assert [manifest, assets, resources][..2] == [manifest, assets];
    assert graphBuilder.index == InsertAll(index0, [manifest, assets, resources]);
    assert extraDeps' == extraDeps + Targets([manifest, assets, resources]);

    var androidResource := AndroidResourceFor(
      t, params, manifest, assets, resources, collaborators.externalActionsEnabled);
    added := graphBuilder.AddToIndex(androidResource);
    extraDeps' := extraDeps' + {added.target};

    derived := [manifest, assets, resources, androidResource];
    assert derived[..3] == [manifest, assets, resources];
  }

  /** Registers the generated BuildConfig libraries in order. */
  method RegisterBuildConfigRules(graphBuilder: ActionGraphBuilder, buildConfigRules: seq<BuildRule>)
    requires graphBuilder.Valid()
    modifies graphBuilder
    ensures graphBuilder.Valid()
    ensures graphBuilder.index == InsertAll(old(graphBuilder.index), buildConfigRules)
  {
    ghost var index0 := graphBuilder.index;
    var i := 0;
    while i < |buildConfigRules|
      invariant 0 <= i <= |buildConfigRules|
      invariant graphBuilder.Valid()
      invariant graphBuilder.index == InsertAll(index0, buildConfigRules[..i])
    {
      assert buildConfigRules[..i + 1][..i] == buildConfigRules[..i];
      var _ := graphBuilder.AddToIndex(buildConfigRules[i]);
      i := i + 1;
    }
    assert buildConfigRules[..i] == buildConfigRules;
  }

  /**
   * Lowers the `android_aar` target `t`, registering the derived rules in the index of
   * `graphBuilder` as it goes, and returns the terminal rule or the error that stopped it.
   */
  method CreateBuildRule(
    graphBuilder: ActionGraphBuilder, collaborators: Collaborators, t: BuildTarget,
    params: BuildRuleParams, args: AndroidAarDescriptionArg)
    returns (result: Result<AndroidAar, AarError>)
    requires graphBuilder.Valid()
    modifies graphBuilder
    ensures graphBuilder.Valid()
    ensures result == Lower(old(graphBuilder.index), collaborators, t, params, args).result
    ensures graphBuilder.index == Lower(old(graphBuilder.index), collaborators, t, params, args).index
  {
    if IsFlavored(t) {
      return Failure(TargetIsFlavored(t));
    }
    var root := collaborators.rootModule(t);
    var collection := collaborators.collectPackageables(t, params.BuildDeps());
    var derived, aarExtraDeps := RegisterDerivedRules(
      graphBuilder, collaborators, t, params, args, collection, params.extraDeps);

    var classpath := collection.classpathEntriesToDex;
    aarExtraDeps := aarExtraDeps + collection.javaLibrariesToDex;

    if args.buildConfigValues != map[] && !args.includeBuildConfigClass {
      return Failure(BuildConfigValuesWithoutInclude(t));
    }
    var buildConfigRules: seq<BuildRule> := [];
    if args.includeBuildConfigClass {
      buildConfigRules := collaborators.addBuildConfigDeps(t, args.buildConfigValues, collection);
      RegisterBuildConfigRules(graphBuilder, buildConfigRules);
      aarExtraDeps := aarExtraDeps + Targets(buildConfigRules);
      classpath := classpath + Outputs(buildConfigRules);
    }

    var nativeLibraries := collaborators.enhanceNativeLibraries(
      t, collection, args.enableRelinker, args.relinkerWhitelist);
    var rootCopy: Option<CopyNativeLibraries> := None;
    if nativeLibraries.Some? {
      if root !in nativeLibraries.value {
        return Failure(NativeLibrariesNotInRootModule);
      }
      rootCopy := Some(nativeLibraries.value[root]);
      aarExtraDeps := aarExtraDeps + {rootCopy.value.target};
    }
    assert buildConfigRules == BuildConfigRules(t, args, collection, collaborators);
    assert RootCopyNativeLibraries(NativeLibrariesOf(t, args, collection, collaborators), root) == Success(rootCopy);
    assert aarExtraDeps == AarExtraDeps(params, derived, collection, buildConfigRules, rootCopy);
    assert classpath == collection.classpathEntriesToDex + Outputs(buildConfigRules);
    var nativeLibsDir := if rootCopy.Some? then Some(rootCopy.value.nativeLibsDir) else None;
    var nativeLibsAssetsDir := if rootCopy.Some? then Some(rootCopy.value.nativeLibsAssetsDir) else None;

    result := Success(AndroidAar(
      t, params.(extraDeps := aarExtraDeps), derived[0], derived[3],
      SourcePathToOutput(derived[2]), SourcePathToOutput(derived[1]),
      nativeLibsDir, nativeLibsAssetsDir, args.removeClasses, classpath));
  }

  // ---------------------------------------------------------------------------------
  // Properties of the lowering

  /**
   * Each derived target keeps the base name, carries exactly one reserved flavor, and
   * is not the target being lowered.
   */
  lemma DerivedTargetsReserved(t: BuildTarget)
    requires !IsFlavored(t)
    ensures forall d | d in DerivedTargets(t) :: d.baseName == t.baseName && |d.flavors| == 1 && d != t
  {
  }

  /** The four derived targets are pairwise distinct. */
  lemma DerivedTargetsDistinct(t: BuildTarget)
    requires !IsFlavored(t)
    ensures AndroidManifestTarget(t) != AssembleAssetsTarget(t)
    ensures AndroidManifestTarget(t) != AssembleResourceTarget(t)
    ensures AndroidManifestTarget(t) != AndroidResourceTarget(t)
    ensures AssembleAssetsTarget(t) != AssembleResourceTarget(t)
    ensures AssembleAssetsTarget(t) != AndroidResourceTarget(t)
    ensures AssembleResourceTarget(t) != AndroidResourceTarget(t)
  {
  }

  /** The targets of the derived rules are the four derived targets. */
  lemma DerivedRulesTargets(
    t: BuildTarget, params: BuildRuleParams, args: AndroidAarDescriptionArg,
    collection: PackageableCollection, externalActionsEnabled: bool)
    ensures Targets(DerivedRules(t, params, args, collection, externalActionsEnabled)) == DerivedTargets(t)
  {
    var d := DerivedRules(t, params, args, collection, externalActionsEnabled);
    assert Targets([d[0]]) == {d[0].target} by {
      assert [d[0]][..0] == [];
    }
    assert Targets([d[0], d[1]]) == {d[0].target, d[1].target} by {
      assert [d[0], d[1]][..1] == [d[0]];
    }
    assert Targets([d[0], d[1], d[2]]) == {d[0].target, d[1].target, d[2].target} by {
      assert [d[0], d[1], d[2]][..2] == [d[0], d[1]];
    }
    assert d[..3] == [d[0], d[1], d[2]];
  }

  /**
   * Lowering succeeds exactly when the target is unflavored, BuildConfig values do not
   * come without the include flag, and the native-library enhancer either produced no
   * copy rules or produced one for the root module.
   */
  lemma LowerSucceedsIff(
    index: Index, collaborators: Collaborators, t: BuildTarget, params: BuildRuleParams,
    args: AndroidAarDescriptionArg)
    ensures
      var collection := collaborators.collectPackageables(t, params.BuildDeps());
      var native := NativeLibrariesOf(t, args, collection, collaborators);
      Lower(index, collaborators, t, params, args).result.Success?
      <==> !IsFlavored(t) && !BuildConfigRejected(args)
           && (native.None? || collaborators.rootModule(t) in native.value)
  {
  }

  /** An already flavored target is rejected before anything is registered. */
  lemma FlavoredTargetRegistersNothing(
    index: Index, collaborators: Collaborators, t: BuildTarget, params: BuildRuleParams,
    args: AndroidAarDescriptionArg)
    requires IsFlavored(t)
    ensures Lower(index, collaborators, t, params, args) == Lowering(Failure(TargetIsFlavored(t)), index)
  {
  }

  /**
   * Registering the derived rules adds exactly the four derived targets; nothing
   * registered before changes, and each derived target that was new holds its rule.
   */
  lemma {:induction false} DerivedRulesRegistered(
    index: Index, t: BuildTarget, params: BuildRuleParams, args: AndroidAarDescriptionArg,
    collection: PackageableCollection, externalActionsEnabled: bool)
    requires !IsFlavored(t)
    ensures
      var derived := DerivedRules(t, params, args, collection, externalActionsEnabled);
      var registered := InsertAll(index, derived);
      && registered.Keys == index.Keys + DerivedTargets(t)
      && (forall k | k in index :: registered[k] == index[k])
      && (forall r | r in derived && r.target !in index :: registered[r.target] == r)
  {
    var derived := DerivedRules(t, params, args, collection, externalActionsEnabled);
    InsertAllRegisters(index, derived);
    DerivedRulesTargets(t, params, args, collection, externalActionsEnabled);
    DerivedTargetsDistinct(t);
    InsertAllDistinct(index, derived);
  }

  /**
   * BuildConfig values without the include flag are rejected only after the four derived
   * rules are in the index: the index then holds exactly the targets it held before plus
   * the four derived ones, and each derived target that was new holds its derived rule.
   */
  lemma {:induction false} BuildConfigRejectedAfterRegistration(
    index: Index, collaborators: Collaborators, t: BuildTarget, params: BuildRuleParams,
    args: AndroidAarDescriptionArg)
    requires !IsFlavored(t) && BuildConfigRejected(args)
    ensures
      var collection := collaborators.collectPackageables(t, params.BuildDeps());
      var derived := DerivedRules(t, params, args, collection, collaborators.externalActionsEnabled);
      var lowering := Lower(index, collaborators, t, params, args);
      && lowering.result == Failure(BuildConfigValuesWithoutInclude(t))
      && lowering.index.Keys == index.Keys + DerivedTargets(t)
      && (forall k | k in index :: lowering.index[k] == index[k])
      && (forall r | r in derived && r.target !in index :: lowering.index[r.target] == r)
  {
    var collection := collaborators.collectPackageables(t, params.BuildDeps());
    var derived := DerivedRules(t, params, args, collection, collaborators.externalActionsEnabled);
    assert Lower(index, collaborators, t, params, args)
      == Lowering(Failure(BuildConfigValuesWithoutInclude(t)), InsertAll(index, derived));
    DerivedRulesRegistered(index, t, params, args, collection, collaborators.externalActionsEnabled);
  }

  /**
   * Without the include flag no BuildConfig rule is created: the index gains only the
   * four derived targets, and the classpath of the `.aar` is exactly the collected
   * classpath entries to dex.
   */
  lemma {:induction false} WithoutBuildConfigClass(
    index: Index, collaborators: Collaborators, t: BuildTarget, params: BuildRuleParams,
    args: AndroidAarDescriptionArg)
    requires !IsFlavored(t) && !args.includeBuildConfigClass
    ensures
      var collection := collaborators.collectPackageables(t, params.BuildDeps());
      var lowering := Lower(index, collaborators, t, params, args);
      && lowering.index.Keys == index.Keys + DerivedTargets(t)
      && (lowering.result.Success? ==>
            lowering.result.value.classpathToIncludeInAar == collection.classpathEntriesToDex)
  {
    var collection := collaborators.collectPackageables(t, params.BuildDeps());
    var derived := DerivedRules(t, params, args, collection, collaborators.externalActionsEnabled);
    InsertAllRegisters(index, derived);
    DerivedRulesTargets(t, params, args, collection, collaborators.externalActionsEnabled);
    assert Outputs([]) == {};
  }

  /**
   * The defaults (no BuildConfig values, no include flag, no relinker) never trip the
   * BuildConfig check and contribute nothing to the classpath.
   */
  lemma {:induction false} DefaultArgsLowering(
    index: Index, collaborators: Collaborators, t: BuildTarget, params: BuildRuleParams,
    name: string, deps: set<BuildTarget>, manifestSkeleton: SourcePath,
    relinkerWhitelist: seq<string>, removeClasses: set<string>)
    requires !IsFlavored(t)
    ensures
      var args := ArgWithDefaults(name, deps, manifestSkeleton, relinkerWhitelist, removeClasses);
      var collection := collaborators.collectPackageables(t, params.BuildDeps());
      var lowering := Lower(index, collaborators, t, params, args);
      && lowering.result != Failure(BuildConfigValuesWithoutInclude(t))
      && lowering.index.Keys == index.Keys + DerivedTargets(t)
      && (lowering.result.Success? ==>
            lowering.result.value.classpathToIncludeInAar == collection.classpathEntriesToDex)
  {
    var args := ArgWithDefaults(name, deps, manifestSkeleton, relinkerWhitelist, removeClasses);
    WithoutBuildConfigClass(index, collaborators, t, params, args);
  }

  /**
   * The root module decides the native-library outputs: no copy rules at all leaves
   * both directories empty; copy rules without one for the root module are an error,
   * raised after the derived and BuildConfig rules are registered; otherwise the root
   * module's copy rule supplies both directories and becomes an extra dep.
   */
  lemma NativeLibrariesOutcome(
    index: Index, collaborators: Collaborators, t: BuildTarget, params: BuildRuleParams,
    args: AndroidAarDescriptionArg)
    requires !IsFlavored(t) && !BuildConfigRejected(args)
    ensures
      var collection := collaborators.collectPackageables(t, params.BuildDeps());
      var native := NativeLibrariesOf(t, args, collection, collaborators);
      var root := collaborators.rootModule(t);
      var lowering := Lower(index, collaborators, t, params, args);
      && (native.None? ==>
            && lowering.result.Success?
            && lowering.result.value.assembledNativeLibsDir == None
            && lowering.result.value.assembledNativeLibsAssetsDir == None)
      && (native.Some? && root !in native.value ==>
            && lowering.result == Failure(NativeLibrariesNotInRootModule)
            && lowering.index == InsertAll(
                 InsertAll(index, DerivedRules(t, params, args, collection, collaborators.externalActionsEnabled)),
                 BuildConfigRules(t, args, collection, collaborators)))
      && (native.Some? && root in native.value ==>
            && lowering.result.Success?
            && lowering.result.value.assembledNativeLibsDir == Some(native.value[root].nativeLibsDir)
            && lowering.result.value.assembledNativeLibsAssetsDir == Some(native.value[root].nativeLibsAssetsDir)
            && native.value[root].target in lowering.result.value.params.extraDeps)
  {
  }

  /**
   * The extra deps of the `.aar` are the original extra deps, the four derived targets,
   * the Java libraries to dex, the BuildConfig libraries and the root module's copy rule,
   * collapsed as a set; every rule the lowering registered is among them. Declared deps
   * are kept as they were.
   */
  lemma {:induction false} AarExtraDepsContents(
    index: Index, collaborators: Collaborators, t: BuildTarget, params: BuildRuleParams,
    args: AndroidAarDescriptionArg)
    requires Lower(index, collaborators, t, params, args).result.Success?
    ensures
      var collection := collaborators.collectPackageables(t, params.BuildDeps());
      var native := NativeLibrariesOf(t, args, collection, collaborators);
      var root := collaborators.rootModule(t);
      var lowering := Lower(index, collaborators, t, params, args);
      var aar := lowering.result.value;
      && aar.target == t
      && aar.params.declaredDeps == params.declaredDeps
      && aar.params.extraDeps
         == params.extraDeps + DerivedTargets(t) + collection.javaLibrariesToDex
            + Targets(BuildConfigRules(t, args, collection, collaborators))
            + (if native.Some? then {native.value[root].target} else {})
      && lowering.index.Keys - index.Keys <= aar.params.extraDeps
      && aar.classpathToIncludeInAar
         == collection.classpathEntriesToDex + Outputs(BuildConfigRules(t, args, collection, collaborators))
  {
    var collection := collaborators.collectPackageables(t, params.BuildDeps());
    var derived := DerivedRules(t, params, args, collection, collaborators.externalActionsEnabled);
    var registered := InsertAll(index, derived);
    var buildConfigRules := BuildConfigRules(t, args, collection, collaborators);
    var withBuildConfig := InsertAll(registered, buildConfigRules);
    var native := NativeLibrariesOf(t, args, collection, collaborators);
    var root := collaborators.rootModule(t);
    var copy := RootCopyNativeLibraries(native, root);
    assert copy.Success?;
    var lowering := Lower(index, collaborators, t, params, args);
    assert lowering.index == withBuildConfig;
    assert lowering.result.value.params.extraDeps
      == AarExtraDeps(params, derived, collection, buildConfigRules, copy.value);
    DerivedRulesTargets(t, params, args, collection, collaborators.externalActionsEnabled);
    InsertAllRegisters(index, derived);
    InsertAllRegisters(registered, buildConfigRules);
  }

  /**
   * The terminal rule exposes the derived rules' outputs under the right names: the
   * manifest rule, the merged resources as its resource directory, the assembled assets
   * as its assets directory; the classes to remove are those declared.
   */
  lemma AarOutputs(
    index: Index, collaborators: Collaborators, t: BuildTarget, params: BuildRuleParams,
    args: AndroidAarDescriptionArg)
    requires Lower(index, collaborators, t, params, args).result.Success?
    ensures
      var collection := collaborators.collectPackageables(t, params.BuildDeps());
      var aar := Lower(index, collaborators, t, params, args).result.value;
      && aar.manifest == ManifestRule(t, args)
      && aar.androidResource.target == AndroidResourceTarget(t)
      && aar.assembledResourceDirectory == SourcePathToOutput(AssembleResourceRule(t, collection))
      && aar.assembledResourceDirectory == BuildTargetSourcePath(AssembleResourceTarget(t))
      && aar.assembledAssetsDirectory == SourcePathToOutput(AssembleAssetsRule(t, collection))
      && aar.assembledAssetsDirectory == BuildTargetSourcePath(AssembleAssetsTarget(t))
      && aar.removeClasses == args.removeClasses
  {
  }

  /**
   * The android resource rule depends on exactly the assembled assets, the merged
   * resources and the declared deps; it never has an R package and never has
   * whitelisted strings, and it points at the outputs the `.aar` itself exposes.
   */
  lemma AndroidResourceShape(
    index: Index, collaborators: Collaborators, t: BuildTarget, params: BuildRuleParams,
    args: AndroidAarDescriptionArg)
    requires Lower(index, collaborators, t, params, args).result.Success?
    ensures
      var aar := Lower(index, collaborators, t, params, args).result.value;
      var resource := aar.androidResource;
      && resource.target == AndroidResourceTarget(t)
      && resource.kind.AndroidResourceRule?
      && resource.kind.deps
         == {AssembleAssetsTarget(t), AssembleResourceTarget(t)} + params.declaredDeps
      && resource.kind.rDotJavaPackage == None
      && !resource.kind.hasWhitelistedStrings
      && resource.kind.resSrcs == map[] && resource.kind.assetsSrcs == map[]
      && resource.kind.res == aar.assembledResourceDirectory
      && resource.kind.assets == aar.assembledAssetsDirectory
      && resource.kind.manifestFile == SourcePathToOutput(aar.manifest)
      && aar.manifest.target == AndroidManifestTarget(t)
  {
  }
}
