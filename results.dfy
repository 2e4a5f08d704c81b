/** Findings and the collector a rule's check writes them into. */
module Results {
  import opened Hcl

  /** Severities in increasing order. */
  datatype Severity = Low | Medium | High | Critical

  /** The description templates the two modelled checks use; each is applied
      to the name of the resource block the finding is about. */
  datatype Message =
    | AllowsAllIngressByDefault
    | AllowsIngressFromInternet
    | UblaNotEnabled
    | UblaExplicitlyDisabled

  datatype Description = Description(message: Message, subject: BlockName)

  /** One finding: what is wrong, where, how severe, and optionally the
      attribute that triggered it. */
  datatype Result = Result(description: Description, range: Range, severity: Severity,
                           annotation: Option<Attribute>)

  /** A new finding about block `b`: its range defaults to the block's range
      and it annotates no attribute. */
  function New(b: Block, severity: Severity, message: Message): Result {
    Result(Description(message, b.Name()), b.SourceRange(), severity, None)
  }

  /** The collector handed to one check invocation. `Add` and both checks
      only append to `results`, as their contracts state; the severity is the
      rule's default severity. */
  class ResultSet {
    const severity: Severity
    var results: seq<Result>

    constructor (severity: Severity)
      ensures this.severity == severity && results == []
    {
      this.severity := severity;
      results := [];
    }

    method Add(r: Result)
      modifies this
      ensures results == old(results) + [r]
    {
      results := results + [r];
    }
  }
}
