/**
 * Build rules and the action-graph index that maps each build target to the one rule
 * realised for it.
 */
module ActionGraph {
  import opened Wrappers
  import opened BuildTargets

  /** A reference to a file: a plain path, or the output of the rule for a build target. */
  datatype SourcePath = PathSourcePath(path: string) | BuildTargetSourcePath(target: BuildTarget)

  /**
   * What a rule is. The rules built by collaborators whose internals are not modelled are
   * recorded by the inputs they were built from.
   */
  datatype RuleKind =
    | AndroidManifestRule(libraryDeps: set<BuildTarget>, skeleton: SourcePath)
    | AssembleDirectoriesRule(originalDirectories: seq<SourcePath>)
    | MergeAndroidResourceSourcesRule(originalDirectories: seq<SourcePath>)
    | AndroidResourceRule(
        deps: set<BuildTarget>,
        res: SourcePath,
        resSrcs: map<string, SourcePath>,
        rDotJavaPackage: Option<string>,
        assets: SourcePath,
        assetsSrcs: map<string, SourcePath>,
        manifestFile: SourcePath,
        hasWhitelistedStrings: bool,
        externalActionsEnabled: bool)
    | OpaqueRule(description: string)

  /** A build rule: the target it is registered under and what it does. */
  datatype BuildRule = BuildRule(target: BuildTarget, kind: RuleKind)

  /** The default output of a rule, named by the rule's target. */
  function SourcePathToOutput(r: BuildRule): SourcePath {
    BuildTargetSourcePath(r.target)
  }

  type Index = map<BuildTarget, BuildRule>

  /** Every rule of the index is registered under its own target. */
  ghost predicate Consistent(index: Index) {
    forall t | t in index :: index[t].target == t
  }

  /** The targets of a sequence of rules. */
  function Targets(rules: seq<BuildRule>): set<BuildTarget>
    decreases |rules|
  {
    if rules == [] then {} else Targets(rules[..|rules| - 1]) + {rules[|rules| - 1].target}
  }

  /** A target is among the targets of `rules` exactly when some rule of `rules` carries it. */
  lemma {:induction false} TargetsMembership(rules: seq<BuildRule>, t: BuildTarget)
    ensures t in Targets(rules) <==> exists i | 0 <= i < |rules| :: rules[i].target == t
  {
    if rules != [] {
      var front := rules[..|rules| - 1];
      TargetsMembership(front, t);
      assert forall i | 0 <= i < |front| :: front[i] == rules[i];
    }
  }

  /** The default outputs of a sequence of rules. */
  function Outputs(rules: seq<BuildRule>): (ps: set<SourcePath>)
    ensures forall i | 0 <= i < |rules| :: SourcePathToOutput(rules[i]) in ps
    ensures forall p | p in ps :: exists i | 0 <= i < |rules| :: SourcePathToOutput(rules[i]) == p
  {
    set r | r in rules :: SourcePathToOutput(r)
  }

  /**
   * Registering one rule: the first rule registered for a target wins, a later one for
   * the same target is discarded and nothing already registered is replaced.
   */
  function Insert(index: Index, rule: BuildRule): (r: Index)
    ensures r.Keys == index.Keys + {rule.target}
    ensures forall t | t in index :: r[t] == index[t]
    ensures rule.target !in index ==> r[rule.target] == rule
    ensures Consistent(index) ==> Consistent(r)
  {
    if rule.target in index then index else index[rule.target := rule]
  }

  /** Registering a sequence of rules one after the other, first to last. */
  function InsertAll(index: Index, rules: seq<BuildRule>): Index
    decreases |rules|
  {
    if rules == [] then index
    else Insert(InsertAll(index, rules[..|rules| - 1]), rules[|rules| - 1])
  }

  /**
   * After registering `rules`, the index holds exactly the targets it held before plus
   * those of `rules`; nothing registered before has changed.
   */
  lemma {:induction false} InsertAllRegisters(index: Index, rules: seq<BuildRule>)
    ensures InsertAll(index, rules).Keys == index.Keys + Targets(rules)
    ensures forall t | t in index :: InsertAll(index, rules)[t] == index[t]
    ensures Consistent(index) ==> Consistent(InsertAll(index, rules))
  {
    if rules != [] {
      InsertAllRegisters(index, rules[..|rules| - 1]);
    }
  }

  /**
   * A target that was not registered before is registered with the FIRST rule of
   * `rules` that carries it.
   */
  lemma {:induction false} InsertAllFirstWins(index: Index, rules: seq<BuildRule>, i: nat)
    requires i < |rules|
    requires rules[i].target !in index
    requires forall j | 0 <= j < i :: rules[j].target != rules[i].target
    ensures rules[i].target in InsertAll(index, rules)
    ensures InsertAll(index, rules)[rules[i].target] == rules[i]
  {
    var front := rules[..|rules| - 1];
    if i == |rules| - 1 {
      InsertAllRegisters(index, front);
      TargetsMembership(front, rules[i].target);
    } else {
      InsertAllFirstWins(index, front, i);
    }
  }

  /** When the targets of `rules` are pairwise distinct, each new target holds its rule. */
  lemma InsertAllDistinct(index: Index, rules: seq<BuildRule>)
    requires forall i, j | 0 <= i < j < |rules| :: rules[i].target != rules[j].target
    ensures forall r | r in rules && r.target !in index ::
      r.target in InsertAll(index, rules) && InsertAll(index, rules)[r.target] == r
  {
    forall r | r in rules && r.target !in index
      ensures r.target in InsertAll(index, rules) && InsertAll(index, rules)[r.target] == r
    {
      var i :| 0 <= i < |rules| && rules[i] == r;
      InsertAllFirstWins(index, rules, i);
    }
  }

  /** The action-graph index, shared by every enhancement that registers rules. */
  class ActionGraphBuilder {
    var index: Index

    ghost predicate Valid()
      reads this
    {
      Consistent(index)
    }

    constructor ()
      ensures Valid() && index == map[]
    {
      index := map[];
    }

    /**
     * Registers `rule` unless a rule is already registered for its target, and returns
     * the rule that is registered for that target afterwards.
     */
    method AddToIndex(rule: BuildRule) returns (registered: BuildRule)
      requires Valid()
      modifies this
      ensures Valid()
      ensures index == Insert(old(index), rule)
      ensures registered.target == rule.target
      ensures rule.target in index && registered == index[rule.target]
      ensures rule.target in old(index) ==> registered == old(index)[rule.target]
      ensures rule.target !in old(index) ==> registered == rule
    {
      if rule.target !in index {
        index := index[rule.target := rule];
      }
      registered := index[rule.target];
    }
  }
}
