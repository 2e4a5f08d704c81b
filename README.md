# tfsec: two rule checks, modelled in Dafny

This project models two of tfsec's rule checks. Each check reads one parsed
Terraform resource block and appends findings to that run's result set.

- **Kubernetes `no-public-ingress`** runs on `resource "kubernetes_network_policy"`
  blocks (default severity High). It looks up `spec.ingress`. If that block is
  missing, or has no `from` block, it reports once ("allows all ingress traffic by
  default") and stops. Otherwise it walks the `from` blocks in order. It reports
  each one whose `ip_block.cidr` is a string that the CIDR analyser judges open,
  and annotates that finding with the cidr attribute.
- **Google `enable-ubla`** runs on `resource "google_storage_bucket"` blocks
  (default severity Medium). It looks at `uniform_bucket_level_access`:
  - missing: one finding on the block's range;
  - known and not true: one finding on the attribute's range, annotated with
    the attribute;
  - unknown or true: nothing.

Files:
- `hcl.dfy`: the configuration model. A block is `NilBlock` or a block with a
  type, labels, an attribute map and ordered child blocks. An attribute's value
  is `Known(literal)` or `Unknown`. Looking up a missing attribute gives `None`,
  whose value is `Absent`.
- `results.dfy`: severities, findings, and the `ResultSet` collector, a class
  whose `Add` method, like both checks, is proved to only append to its
  `results` sequence.
- `rules.dfy`: the rule descriptor fields the checks depend on, and when a rule
  applies to a block.
- `kubernetes_network.dfy`, `google_storage.dfy`: one module per rule. Each has a
  method with the check's control flow (`CheckNoPublicIngress`, `CheckEnableUbla`)
  that appends to a `ResultSet`. Each method is proved equal to a pure function
  of the block (`NoPublicIngressFindings`, `UblaFindings`), and the lemmas are
  about those functions.
- `scenarios.dfy`: the rules' own bad and good example configurations as block
  trees, and what each check reports on them. Ranges are line numbers within each
  example snippet. The `ports`, `cors` and other blocks the checks never read are
  included too.

The CIDR analyser is not part of this model. The Kubernetes check takes its
verdict as a parameter `isOpen: Attribute -> bool`, so every property holds for
any verdict.

## Model

| member | source | states |
|---|---|---|
| `Hcl.GetBlockFindsFirst` | internal/app/tfsec/rules/kubernetes/network/no_public_ingress_rule.go:164 | `GetBlock` returns the first child of the named type, and is nil exactly when no child has that type |
| `Hcl.FirstOfTypeIsFirst` | internal/app/tfsec/rules/kubernetes/network/no_public_ingress_rule.go:164 | the same first-match characterisation, for any sequence of blocks |
| `Hcl.GetBlocksFilters` | internal/app/tfsec/rules/kubernetes/network/no_public_ingress_rule.go:171 | `GetBlocks` holds only children of the named type, each matching child as many times as it occurs among the children, and is never longer than the children |
| `Hcl.OfTypeFilters` | internal/app/tfsec/rules/kubernetes/network/no_public_ingress_rule.go:171 | the same membership and multiplicity characterisation, for any sequence of blocks |
| `Hcl.OfTypeSingleton` | internal/app/tfsec/rules/kubernetes/network/no_public_ingress_rule.go:171 | a single block is kept exactly when it has the named type |
| `Hcl.OfTypeAppend` | internal/app/tfsec/rules/kubernetes/network/no_public_ingress_rule.go:171 | filtering keeps order: the matches in two runs of blocks are the first run's matches followed by the second's. With `OfTypeSingleton` this fixes the result, in order, for every sequence of children |
| `Hcl.IsString` | internal/app/tfsec/rules/kubernetes/network/no_public_ingress_rule.go:172 | a string attribute is present and statically known |
| `Hcl.IsTrue` | internal/app/tfsec/rules/google/storage/enable_uniform_bucket_level_access.go:86 | a true attribute is present, statically known and not a string |
| `Hcl.ValueOf` | internal/app/tfsec/rules/google/storage/enable_uniform_bucket_level_access.go:81 | a looked-up value is `Absent` exactly when the attribute is nil |
| `Hcl.NilLookups` | internal/app/tfsec/rules/kubernetes/network/no_public_ingress_rule.go:164-165 | every lookup on a nil block gives a nil block, no blocks, or no attribute. Chained lookups never fail |
| `Hcl.UndeterminedSatisfiesNothing` | internal/app/tfsec/rules/kubernetes/network/no_public_ingress_rule.go:172 | an Unknown or Absent value is neither a string nor true |
| `Rules.Applies` | internal/app/tfsec/rules/kubernetes/network/no_public_ingress_rule.go:156-161 | a rule applies only to real blocks whose type is a required type; with no required labels, every such block matches |
| `Rules.AppliesToSingleTypeAndLabel` | internal/app/tfsec/rules/kubernetes/network/no_public_ingress_rule.go:156-161 | a rule with one required type and one required label applies exactly to blocks of that type whose first label matches |
| `Results.ResultSet.Add` | internal/app/tfsec/rules/kubernetes/network/no_public_ingress_rule.go:166 | adding a finding appends it at the end and leaves earlier findings alone |
| `KubernetesNetwork.NoPublicIngressAppliesTo` | internal/app/tfsec/rules/kubernetes/network/no_public_ingress_rule.go:156-162 | the rule applies exactly to `resource` blocks whose first label is `kubernetes_network_policy`, with default severity High |
| `KubernetesNetwork.FlaggedHasOpenStringCidr` | internal/app/tfsec/rules/kubernetes/network/no_public_ingress_rule.go:172-173 | a `from` block without an `ip_block` has no cidr (`CidrOf` is None), and a flagged `from` block (`Flagged`) has an `ip_block` whose cidr is a known string literal judged open |
| `KubernetesNetwork.FromFindingsStep` | internal/app/tfsec/rules/kubernetes/network/no_public_ingress_rule.go:171-177 | one more `from` block adds exactly its own cidr-annotated finding when it is flagged, and nothing otherwise |
| `KubernetesNetwork.CheckNoPublicIngress` | internal/app/tfsec/rules/kubernetes/network/no_public_ingress_rule.go:163-180 | the check, with its early return and its loop, appends exactly `NoPublicIngressFindings` to the collector |
| `KubernetesNetwork.FromFindings` | internal/app/tfsec/rules/kubernetes/network/no_public_ingress_rule.go:171-179 | the loop adds at most one finding per `from` block. Each is an "ingress from the internet" finding with the rule's severity, annotated with an attribute judged open |
| `KubernetesNetwork.NoPublicIngressFindings` | internal/app/tfsec/rules/kubernetes/network/no_public_ingress_rule.go:164-179 | a run with no `from` block always reports something. A run reports at most max(1, number of `from` blocks) findings, all with the rule's severity |
| `KubernetesNetwork.NoIngressOneDefaultFinding` | internal/app/tfsec/rules/kubernetes/network/no_public_ingress_rule.go:164-169 | with `spec.ingress` missing or without `from` blocks, the only finding is the "allows all ingress traffic by default" one on the policy's range, with no annotation |
| `KubernetesNetwork.FlaggedIndices` | internal/app/tfsec/rules/kubernetes/network/no_public_ingress_rule.go:171-173 | lists, in increasing order, exactly the positions of the `from` blocks whose cidr is a string judged open |
| `KubernetesNetwork.FromFindingsFollowFroms` | internal/app/tfsec/rules/kubernetes/network/no_public_ingress_rule.go:171-177 | the k-th loop finding belongs to the k-th flagged `from` block and carries exactly that block's cidr attribute. So the findings follow the `from` order |
| `KubernetesNetwork.FromFindingsCount` | internal/app/tfsec/rules/kubernetes/network/no_public_ingress_rule.go:171-179 | the loop reports exactly as many findings as there are flagged `from` blocks |
| `KubernetesNetwork.NoPublicIngressCount` | internal/app/tfsec/rules/kubernetes/network/no_public_ingress_rule.go:165-179 | a run reports one finding when there is no `from` block, and otherwise as many as there are flagged `from` blocks |
| `KubernetesNetwork.FromFindingsAppend` | internal/app/tfsec/rules/kubernetes/network/no_public_ingress_rule.go:171 | the loop's findings over two runs of `from` blocks are the first run's findings followed by the second's |
| `KubernetesNetwork.NonStringCidrSkipped` | internal/app/tfsec/rules/kubernetes/network/no_public_ingress_rule.go:172 | a `from` block whose `ip_block.cidr` is missing or not a known string is skipped: removing it changes nothing, whatever the CIDR verdict |
| `KubernetesNetwork.UnflaggedSingleton` | internal/app/tfsec/rules/kubernetes/network/no_public_ingress_rule.go:172-173 | a single `from` block that is not flagged adds no finding |
| `KubernetesNetwork.FromFindingDependsOnCidr` | internal/app/tfsec/rules/kubernetes/network/no_public_ingress_rule.go:172-177 | one iteration of the loop reads its `from` block only through the block's `ip_block.cidr` lookup |
| `KubernetesNetwork.FromFindingsDependOnCidrs` | internal/app/tfsec/rules/kubernetes/network/no_public_ingress_rule.go:171-173 | two runs of `from` blocks with the same `ip_block.cidr` lookups give the same findings |
| `KubernetesNetwork.FromFindingsDependOnResource` | internal/app/tfsec/rules/kubernetes/network/no_public_ingress_rule.go:174-176 | the loop reads the policy block only for its name and range |
| `KubernetesNetwork.FindingsDependOnlyOnIngressCidrs` | internal/app/tfsec/rules/kubernetes/network/no_public_ingress_rule.go:164-172 | policies with the same name, range, `spec.ingress` presence and `from[*].ip_block.cidr` get the same findings. Egress blocks and `except` lists are never read |
| `KubernetesNetwork.FlaggedSetStep` | internal/app/tfsec/rules/kubernetes/network/no_public_ingress_rule.go:171-173 | one more `from` block adds one flagged position if it is flagged, and none otherwise |
| `GoogleStorage.EnableUblaAppliesTo` | internal/app/tfsec/rules/google/storage/enable_uniform_bucket_level_access.go:73-78 | the rule applies exactly to `resource` blocks whose first label is `google_storage_bucket`, with default severity Medium |
| `GoogleStorage.UblaFindings` | internal/app/tfsec/rules/google/storage/enable_uniform_bucket_level_access.go:79-94 | a run reports at most one finding, with the rule's severity |
| `GoogleStorage.CheckEnableUbla` | internal/app/tfsec/rules/google/storage/enable_uniform_bucket_level_access.go:79-94 | the check's if / else-if appends exactly `UblaFindings` to the collector |
| `GoogleStorage.UblaMissingOneBlockFinding` | internal/app/tfsec/rules/google/storage/enable_uniform_bucket_level_access.go:81-85 | with the attribute missing, the only finding is "does not have uniform_bucket_level_access enabled", on the block's range and with no annotation |
| `GoogleStorage.UblaDisabledOneAttributeFinding` | internal/app/tfsec/rules/google/storage/enable_uniform_bucket_level_access.go:86-91 | with the attribute known and not true, the only finding is "explicitly disabled", on the attribute's range and annotated with it |
| `GoogleStorage.UblaUnknownNoFinding` | internal/app/tfsec/rules/google/storage/enable_uniform_bucket_level_access.go:86 | with the attribute present but unknown, there is no finding |
| `GoogleStorage.UblaEnabledNoFinding` | internal/app/tfsec/rules/google/storage/enable_uniform_bucket_level_access.go:86 | with the attribute known and true, there is no finding |
| `GoogleStorage.UblaFindingIffProvablyNotEnabled` | internal/app/tfsec/rules/google/storage/enable_uniform_bucket_level_access.go:81-93 | there is one finding if and only if the value is provably not `true` (absent, or a known literal other than `true`). Otherwise there are none, so an Unknown value never leads to a finding |
| `Scenarios.NetworkPolicyFroms` | internal/app/tfsec/rules/kubernetes/network/no_public_ingress_rule.go:44-63 | the example policy has exactly one `from` block, and its cidr is the example's ingress cidr |
| `Scenarios.NoPublicIngressBadExample` | internal/app/tfsec/rules/kubernetes/network/no_public_ingress_rule.go:28-89 | the bad example gets exactly one finding, annotated with its `0.0.0.0/0` cidr, when that cidr is judged open |
| `Scenarios.NoPublicIngressGoodExample` | internal/app/tfsec/rules/kubernetes/network/no_public_ingress_rule.go:90-151 | the good example gets no finding when `10.0.0.0/16` is not judged open, although its egress allows `0.0.0.0/0` |
| `Scenarios.EnableUblaMissing` | internal/app/tfsec/rules/google/storage/enable_uniform_bucket_level_access.go:81-85 | the example bucket without the attribute gets one finding of severity Medium on the block's range |
| `Scenarios.EnableUblaBadExample` | internal/app/tfsec/rules/google/storage/enable_uniform_bucket_level_access.go:29-48 | the bad example (`= false`) gets one finding on the attribute's range, annotated with the attribute |
| `Scenarios.EnableUblaGoodExample` | internal/app/tfsec/rules/google/storage/enable_uniform_bucket_level_access.go:49-68 | the good example (`= true`) gets no finding |
| `Scenarios.EnableUblaUnknown` | internal/app/tfsec/rules/google/storage/enable_uniform_bucket_level_access.go:86 | the example bucket with an unknown value gets no finding |

## Left out

- CIDR openness: the analyser is not part of this model. Its verdict is the parameter `isOpen`, and no prefix-length policy is assumed.
- Attribute predicates: the library's `IsString`, `IsTrue` and `Value().IsKnown()` are not part of this model. They are modelled on the three-valued value. `IsTrue` holds only for the known boolean `true`, so a known string such as `"true"` counts as not true here.
- `WithAttribute` (the Kubernetes finding): the library's result type is not part of this model. It is modelled as recording the attribute annotation, and the finding's range stays the policy block's range. So the range clauses of `KubernetesNetwork.FromFindings` and `KubernetesNetwork.NoPublicIngressFindings` hold for this choice only; if `WithAttribute` also moved the range to the attribute, as `WithRange` does in the Google rule, they would not.
- Finding construction: `result.New`, `AddResult` and the following `With...` calls build one finding step by step. The model appends the finished finding, which gives the same final result set.
- Descriptions: the `Sprintf` formatting and `FullName()` are not modelled. A description is a message tag applied to the block's type and labels.
- Severity: findings take the severity of the result set they are added to. The scan engine, which creates one result set per rule run with that rule's default severity, is not part of this model.
- Rule registration: `RegisterCheckRule`, the global registry, documentation text, examples and links are not modelled; only the descriptor fields the checks depend on are. The scan engine's matcher is not part of this model. Matching is modelled as a positional prefix match on labels. For rules with a single required label, like both rules here, that means "the first label matches".
- Results.New: the finding built by `result.New(resourceBlock)` (internal/app/tfsec/rules/google/storage/enable_uniform_bucket_level_access.go:83) is modelled by its definition alone. Its defaults are stated where they are used, by `GoogleStorage.UblaMissingOneBlockFinding` and `KubernetesNetwork.NoIngressOneDefaultFinding`.
- Hcl.Block.GetAttribute: the library lookup at internal/app/tfsec/rules/google/storage/enable_uniform_bucket_level_access.go:81 and internal/app/tfsec/rules/kubernetes/network/no_public_ingress_rule.go:172 is modelled by its definition alone. What the checks rely on is stated by `Hcl.NilLookups` (a nil block gives `None`) and `Hcl.ValueOf` (the value is `Absent` exactly for the nil attribute).
- The evaluation context: both checks ignore it, so it is not a parameter.
- Parallel scanning and fault isolation: outside both checks, so not modelled.
