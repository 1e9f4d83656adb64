/**
 * Build targets and flavors. A target is a base name plus a SET of flavors, so two
 * targets are equal exactly when their base names and flavor sets are equal.
 */
module BuildTargets {

  /** A flavor: a name appended to a target to denote a derived sub-target. */
  datatype Flavor = Flavor(name: string)

  /** A build target: its fully qualified base name and the flavors appended to it. */
  datatype BuildTarget = BuildTarget(baseName: string, flavors: set<Flavor>)

  predicate IsFlavored(t: BuildTarget) {
    t.flavors != {}
  }

  /** The target `t` with the flavor `f` appended; the base name is kept. */
  function WithAppendedFlavors(t: BuildTarget, f: Flavor): BuildTarget {
    BuildTarget(t.baseName, t.flavors + {f})
  }

  /**
   * Appending one flavor to an unflavored target yields a target whose flavor set is
   * exactly that flavor; two such targets coincide exactly when the flavors do, and
   * none of them is the unflavored target itself.
   */
  lemma AppendedFlavorNaming(t: BuildTarget, f: Flavor, g: Flavor)
    requires !IsFlavored(t)
    ensures WithAppendedFlavors(t, f).baseName == t.baseName
    ensures WithAppendedFlavors(t, f).flavors == {f}
    ensures WithAppendedFlavors(t, f) != t
    ensures WithAppendedFlavors(t, f) == WithAppendedFlavors(t, g) <==> f == g
  {
  }
}
