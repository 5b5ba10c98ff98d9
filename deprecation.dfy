/** The rule both deprecation transformers apply to an operation's flag:
    the flag becomes its old value OR the owning version's deprecation. */
module Deprecation {

  function Deprecate(flag: bool, versionDeprecated: bool): bool {
    flag || versionDeprecated
  }

  /** Applying the rule a second time changes nothing. */
  lemma DeprecateIdempotent(flag: bool, versionDeprecated: bool)
    ensures Deprecate(Deprecate(flag, versionDeprecated), versionDeprecated) == Deprecate(flag, versionDeprecated)
  {
  }

  /** A flag that is set stays set, whatever the version says. */
  lemma DeprecateMonotone(flag: bool, versionDeprecated: bool)
    ensures flag ==> Deprecate(flag, versionDeprecated)
    ensures versionDeprecated ==> Deprecate(flag, versionDeprecated)
  {
  }

  /** A version that is not deprecated leaves the flag as it was. */
  lemma DeprecateKeepsFlag(flag: bool)
    ensures Deprecate(flag, false) == flag
  {
  }

}
