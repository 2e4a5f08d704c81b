/** The Google rule `enable-ubla`: a Cloud Storage bucket should have uniform
    bucket-level access enabled. */
module GoogleStorage {
  import opened Hcl
  import opened Results
  import opened Rules

  const EnableUbla: Rule :=
    Rule(Google, "storage", "enable-ubla", ["resource"], ["google_storage_bucket"], Medium)

  const UblaAttribute: string := "uniform_bucket_level_access"

  /** The rule runs on `resource "google_storage_bucket" ...` blocks only,
      with default severity Medium. */
  lemma EnableUblaAppliesTo(b: Block)
    ensures Applies(EnableUbla, b) <==>
      b.Block? && b.typ == "resource" && |b.labels| >= 1 && b.labels[0] == "google_storage_bucket"
    ensures EnableUbla.defaultSeverity == Medium
  {
    AppliesToSingleTypeAndLabel(EnableUbla, b);
  }

  /** Everything one run of the check adds to its result set: a finding about
      the block when the attribute is missing, a finding about the attribute
      when it is known and not true, and nothing otherwise. */
  function UblaFindings(resource: Block, severity: Severity): (r: seq<Result>)
    ensures |r| <= 1
    ensures forall k :: 0 <= k < |r| ==> r[k].severity == severity
  {
    match resource.GetAttribute(UblaAttribute)
    case None => [New(resource, severity, UblaNotEnabled)]
    case Some(attr) =>
      if attr.value.IsKnown() && !IsTrue(Some(attr)) then
        [New(resource, severity, UblaExplicitlyDisabled).(range := attr.range, annotation := Some(attr))]
      else []
  }

  /** The check itself: at most one append, chosen by the three-way state of
      `uniform_bucket_level_access`. */
  method CheckEnableUbla(collector: ResultSet, resource: Block)
    modifies collector
    ensures collector.results == old(collector.results) + UblaFindings(resource, collector.severity)
  {
    var attr := resource.GetAttribute(UblaAttribute);
    if attr.None? {
      collector.Add(New(resource, collector.severity, UblaNotEnabled));
    } else if attr.value.value.IsKnown() && !IsTrue(attr) {
      collector.Add(New(resource, collector.severity, UblaExplicitlyDisabled)
                      .(range := attr.value.range, annotation := attr));
    }
  }

  // ---------------------------------------------------------------------
  // Properties of the findings

  /** Missing attribute: exactly one finding, on the block's own range, with
      the "not enabled" description and no annotation. */
  lemma UblaMissingOneBlockFinding(resource: Block, severity: Severity)
    requires resource.GetAttribute(UblaAttribute).None?
    ensures UblaFindings(resource, severity) ==
      [Result(Description(UblaNotEnabled, resource.Name()), resource.SourceRange(), severity, None)]
  {
  }

  /** Known and not true: exactly one finding, on the attribute's range and
      annotated with the attribute. */
  lemma UblaDisabledOneAttributeFinding(resource: Block, severity: Severity, attr: Attribute)
    requires resource.GetAttribute(UblaAttribute) == Some(attr)
    requires attr.value.Known? && attr.value.literal != LBool(true)
    ensures UblaFindings(resource, severity) ==
      [Result(Description(UblaExplicitlyDisabled, resource.Name()), attr.range, severity, Some(attr))]
  {
  }

  /** Present but not statically known: no finding. */
  lemma UblaUnknownNoFinding(resource: Block, severity: Severity)
    requires resource.GetAttribute(UblaAttribute).Some?
    requires resource.GetAttribute(UblaAttribute).value.value.Unknown?
    ensures UblaFindings(resource, severity) == []
  {
  }

  /** Known and true: no finding. */
  lemma UblaEnabledNoFinding(resource: Block, severity: Severity)
    requires IsTrue(resource.GetAttribute(UblaAttribute))
    ensures UblaFindings(resource, severity) == []
  {
  }

  /** The value is provably not `true`: missing, or a known literal other than `true`. */
  predicate ProvablyNotEnabled(v: Value) {
    v.Absent? || (v.Known? && v.literal != LBool(true))
  }

  /** The check reports (exactly once) if and only if the attribute is
      provably not enabled, and stays silent on Unknown. */
  lemma UblaFindingIffProvablyNotEnabled(resource: Block, severity: Severity)
    ensures var v := ValueOf(resource.GetAttribute(UblaAttribute));
      (|UblaFindings(resource, severity)| == 1 <==> ProvablyNotEnabled(v)) &&
      (UblaFindings(resource, severity) == [] <==> !ProvablyNotEnabled(v))
  {
  }
}
