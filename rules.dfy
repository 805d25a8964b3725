/**
 * `check_library_rules`: whether a library applies to the running platform.
 * The operating system is fixed to "windows"; the architecture is a parameter.
 */
module Rules {
  import opened Wrappers
  import opened Manifest

  const OsName := "windows"

  /** The rule names an `os` whose name is the running platform's. */
  predicate MatchesOs(rule: Rule)
  {
    rule.os.Some? && rule.os.value.name == Some(OsName)
  }

  /**
   * A rule whose outcome does not depend on the value it overwrites: every
   * "allow" rule, and a "disallow" rule without `os` or with a matching `os`.
   */
  predicate Decisive(rule: Rule)
  {
    rule.action == "allow" || (rule.action == "disallow" && (rule.os.None? || MatchesOs(rule)))
  }

  /** The value a decisive rule sets. */
  function Verdict(rule: Rule, arch: TargetArch): bool
  {
    if rule.action != "allow" then false
    else if rule.os.None? then true
    else if !MatchesOs(rule) then false
    else if rule.os.value.arch.None? then true
    else rule.os.value.arch.value == ArchName(arch)
  }

  /** The update one rule applies to the running decision. */
  function ApplyRule(decision: bool, rule: Rule, arch: TargetArch): (r: bool)
    ensures Decisive(rule) ==> r == Verdict(rule, arch)
    ensures !Decisive(rule) ==> r == decision
  {
    if rule.action == "allow" then
      if rule.os.None? then true
      else if rule.os.value.name == Some(OsName) then
        if rule.os.value.arch.Some? then rule.os.value.arch.value == ArchName(arch) else true
      else false
    else if rule.action == "disallow" then
      if rule.os.None? then false
      else if rule.os.value.name == Some(OsName) then false
      else decision
    else decision
  }

  /** The left-to-right fold of `ApplyRule` over `rules`, starting from `decision`. */
  function Fold(decision: bool, rules: seq<Rule>, arch: TargetArch): bool
  {
    if rules == [] then decision
    else ApplyRule(Fold(decision, rules[..|rules| - 1], arch), rules[|rules| - 1], arch)
  }

  /** The decision for a library's rule list: absent or empty means include. */
  function EvalRules(rules: Option<seq<Rule>>, arch: TargetArch): bool
  {
    if rules.None? || rules.value == [] then true else Fold(true, rules.value, arch)
  }

  /** `check_library_rules`. */
  method CheckLibraryRules(lib: Library, arch: TargetArch) returns (shouldInclude: bool)
    ensures shouldInclude == EvalRules(lib.rules, arch)
  {
    if lib.rules.None? || |lib.rules.value| == 0 {
      return true;
    }
    var rules := lib.rules.value;
    var osArch := ArchName(arch);
    shouldInclude := true;
    for i := 0 to |rules|
      invariant shouldInclude == Fold(true, rules[..i], arch)
    {
      assert rules[..i + 1][..i] == rules[..i];
      var rule := rules[i];
      if rule.action == "allow" {
        if rule.os.None? {
          shouldInclude := true;
          continue;
        }
        var os := rule.os.value;
        if os.name == Some(OsName) {
          if os.arch.Some? {
            shouldInclude := os.arch.value == osArch;
          } else {
            shouldInclude := true;
          }
        } else {
          shouldInclude := false;
        }
      } else if rule.action == "disallow" {
        if rule.os.None? {
          shouldInclude := false;
          continue;
        }
        if rule.os.value.name == Some(OsName) {
          shouldInclude := false;
        }
      }
    }
    assert rules[..|rules|] == rules;
  }

  // ---------------------------------------------------------------------------
  // properties of the fold

  /** An absent or empty rule list includes the library on every architecture. */
  lemma NoRulesInclude(rules: Option<seq<Rule>>, arch: TargetArch)
    requires rules.None? || rules.value == []
    ensures EvalRules(rules, arch)
  {
  }

  /** Folding over two lists in a row is folding over their concatenation: nothing stops early. */
  lemma {:induction false} FoldAppend(decision: bool, a: seq<Rule>, b: seq<Rule>, arch: TargetArch)
    ensures Fold(decision, a + b, arch) == Fold(Fold(decision, a, arch), b, arch)
  {
    if b == [] {
      assert a + b == a;
    } else {
      assert (a + b)[..|a + b| - 1] == a + b[..|b| - 1];
      FoldAppend(decision, a, b[..|b| - 1], arch);
    }
  }

  /** A list of non-decisive rules leaves the decision unchanged. */
  lemma {:induction false} FoldKeeps(decision: bool, rules: seq<Rule>, arch: TargetArch)
    requires forall j :: 0 <= j < |rules| ==> !Decisive(rules[j])
    ensures Fold(decision, rules, arch) == decision
  {
    if rules != [] {
      FoldKeeps(decision, rules[..|rules| - 1], arch);
    }
  }

  /**
   * The last decisive rule decides, whatever came before it: the rule list is
   * evaluated by overwriting, not by any-match or all-match.
   */
  lemma LastDecisiveRuleWins(decision: bool, rules: seq<Rule>, k: nat, arch: TargetArch)
    requires k < |rules| && Decisive(rules[k])
    requires forall j :: k < j < |rules| ==> !Decisive(rules[j])
    ensures Fold(decision, rules, arch) == Verdict(rules[k], arch)
  {
    var front, back := rules[..k + 1], rules[k + 1..];
    assert rules == front + back;
    FoldAppend(decision, front, back, arch);
    assert front[..|front| - 1] == rules[..k];
    FoldKeeps(Fold(decision, front, arch), back, arch);
  }

  /** Without a decisive rule, a non-empty rule list keeps the initial `true`. */
  lemma WithoutDecisiveRuleIncluded(rules: seq<Rule>, arch: TargetArch)
    requires forall j :: 0 <= j < |rules| ==> !Decisive(rules[j])
    ensures EvalRules(Some(rules), arch)
  {
    if rules != [] {
      FoldKeeps(true, rules, arch);
    }
  }

  /** `[allow (no os), disallow (os windows)]` excludes the library. */
  lemma AllowThenDisallowExcludes(arch: TargetArch)
    ensures !EvalRules(Some([Rule("allow", None), Rule("disallow", Some(Os(Some("windows"), None)))]), arch)
  {
    var rules := [Rule("allow", None), Rule("disallow", Some(Os(Some("windows"), None)))];
    assert rules[..1] == [rules[0]];
    assert rules[..1][..0] == [];
  }

  /** A lone "disallow" without `os` excludes the library on every architecture. */
  lemma LoneDisallowExcludes(arch: TargetArch)
    ensures !EvalRules(Some([Rule("disallow", None)]), arch)
  {
    assert [Rule("disallow", None)][..0] == [];
  }
}
