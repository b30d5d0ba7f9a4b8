/** Cross-field rules: when a trigger field has a value, each of its dependents must have one too. */
module DependentRequired {
  import opened ConfigHistory
  import opened Wrappers

  datatype Rule = Rule(trigger: string, dependents: seq<string>)

  /** `dependentRequired` of JSON Schema Validation 2020-12, section 6.5.4, over a presence set. */
  ghost predicate Satisfied(rules: seq<Rule>, present: set<string>)
  {
    forall r, d :: r in rules && r.trigger in present && d in r.dependents ==> d in present
  }

  /** A field is present when its row exists and is not null. */
  function Present(snapshot: Delta): set<string> { set p | p in snapshot && snapshot[p].value.Some? }

  /** Reports the first unmet dependent of the first rule that has one, and nothing exactly when all rules hold. */
  method CheckDependentRequired(rules: seq<Rule>, present: set<string>) returns (violation: Option<(string, string)>)
    ensures violation.None? <==> Satisfied(rules, present)
    ensures violation.Some? ==>
              exists i, j ::
                && 0 <= i < |rules| && 0 <= j < |rules[i].dependents|
                && violation.value == (rules[i].trigger, rules[i].dependents[j])
                && rules[i].trigger in present && rules[i].dependents[j] !in present
                && Satisfied(rules[..i], present)
                && forall k :: 0 <= k < j ==> rules[i].dependents[k] in present
  {
    violation := None;
    for i := 0 to |rules|
      invariant Satisfied(rules[..i], present)
    {
      var rule := rules[i];
      if rule.trigger in present {
        for j := 0 to |rule.dependents|
          invariant forall k :: 0 <= k < j ==> rule.dependents[k] in present
        {
          if rule.dependents[j] !in present {
            assert rule in rules && rule.dependents[j] in rule.dependents;
            return Some((rule.trigger, rule.dependents[j]));
          }
        }
      }
      assert rules[..i + 1] == rules[..i] + [rule];
    }
    assert rules[..|rules|] == rules;
  }
}
