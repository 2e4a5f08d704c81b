/** The part of a rule descriptor that decides which blocks a rule's check
    is run on and with which default severity. */
module Rules {
  import opened Hcl
  import opened Results

  datatype Provider = Kubernetes | Google

  datatype Rule = Rule(provider: Provider, service: string, shortCode: string,
                       requiredTypes: seq<string>, requiredLabels: seq<string>,
                       defaultSeverity: Severity)

  /** A rule is run on a block when the block's type is one of the rule's
      required types and the required labels match the block's labels
      position by position (no required labels match any labels). */
  predicate Applies(rule: Rule, b: Block)
    ensures Applies(rule, b) ==> !b.IsNil() && b.typ in rule.requiredTypes
    ensures rule.requiredLabels == [] ==> (Applies(rule, b) <==> b.Block? && b.typ in rule.requiredTypes)
  {
    b.Block? && b.typ in rule.requiredTypes &&
    |rule.requiredLabels| <= |b.labels| &&
    forall i :: 0 <= i < |rule.requiredLabels| ==> b.labels[i] == rule.requiredLabels[i]
  }

  /** A rule with one required type and one required label applies exactly to
      the blocks of that type whose first label is that label. */
  lemma AppliesToSingleTypeAndLabel(rule: Rule, b: Block)
    requires |rule.requiredTypes| == 1 && |rule.requiredLabels| == 1
    ensures Applies(rule, b) <==>
      b.Block? && b.typ == rule.requiredTypes[0] &&
      |b.labels| >= 1 && b.labels[0] == rule.requiredLabels[0]
  {
  }
}
