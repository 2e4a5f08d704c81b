/** The Kubernetes rule `no-public-ingress`: a network policy should not let
    ingress traffic in from the public internet. `isOpen` stands for the CIDR
    analyser's verdict on a cidr attribute; every property here holds for any
    such verdict. */
module KubernetesNetwork {
  import opened Hcl
  import opened Results
  import opened Rules

  const NoPublicIngress: Rule :=
    Rule(Kubernetes, "network", "no-public-ingress", ["resource"], ["kubernetes_network_policy"], High)

  /** The rule runs on `resource "kubernetes_network_policy" ...` blocks only,
      with default severity High. */
  lemma NoPublicIngressAppliesTo(b: Block)
    ensures Applies(NoPublicIngress, b) <==>
      b.Block? && b.typ == "resource" && |b.labels| >= 1 && b.labels[0] == "kubernetes_network_policy"
    ensures NoPublicIngress.defaultSeverity == High
  {
    AppliesToSingleTypeAndLabel(NoPublicIngress, b);
  }

  /** `spec.ingress` of a policy, or NilBlock. */
  function Ingress(resource: Block): Block {
    resource.GetBlock("spec").GetBlock("ingress")
  }

  /** The `from` blocks of `spec.ingress`, in order. */
  function Froms(resource: Block): seq<Block> {
    Ingress(resource).GetBlocks("from")
  }

  /** `ip_block.cidr` of one `from` block, or None. */
  function CidrOf(from: Block): Option<Attribute> {
    from.GetBlock("ip_block").GetAttribute("cidr")
  }

  /** A `from` block is flagged when its cidr is a known string judged open. */
  predicate Flagged(from: Block, isOpen: Attribute -> bool) {
    var cidr := CidrOf(from);
    IsString(cidr) && isOpen(cidr.value)
  }

  /** A `from` block without an `ip_block` has no cidr, and a flagged one has
      an `ip_block` whose cidr is a known string literal judged open. */
  lemma FlaggedHasOpenStringCidr(from: Block, isOpen: Attribute -> bool)
    ensures from.GetBlock("ip_block").IsNil() ==> CidrOf(from).None?
    ensures Flagged(from, isOpen) ==>
      !from.GetBlock("ip_block").IsNil() && CidrOf(from).Some? && CidrOf(from).value.value.Known? &&
      CidrOf(from).value.value.literal.LString? && isOpen(CidrOf(from).value)
  {
  }

  /** "allows all ingress traffic by default", about the whole policy. */
  function DefaultIngressResult(resource: Block, severity: Severity): Result {
    New(resource, severity, AllowsAllIngressByDefault)
  }

  /** "allows ingress traffic from the internet", annotated with the cidr. */
  function InternetIngressResult(resource: Block, severity: Severity, cidr: Option<Attribute>): Result {
    New(resource, severity, AllowsIngressFromInternet).(annotation := cidr)
  }

  /** An "ingress from the internet" finding about `resource`, with the given
      severity, on the policy's range and annotated with a cidr judged open. */
  predicate IsInternetIngressFinding(resource: Block, severity: Severity, isOpen: Attribute -> bool, f: Result) {
    f.description == Description(AllowsIngressFromInternet, resource.Name()) &&
    f.range == resource.SourceRange() && f.severity == severity &&
    f.annotation.Some? && isOpen(f.annotation.value)
  }

  /** What the loop over the `from` blocks adds, one finding per flagged block. */
  function FromFindings(resource: Block, severity: Severity, froms: seq<Block>,
                        isOpen: Attribute -> bool): (r: seq<Result>)
    ensures |r| <= |froms|
    ensures forall k :: 0 <= k < |r| ==> IsInternetIngressFinding(resource, severity, isOpen, r[k])
  {
    if froms == [] then []
    else
      var n := |froms| - 1;
      FromFindings(resource, severity, froms[..n], isOpen) + FromFinding(resource, severity, froms[n], isOpen)
  }

  /** What one iteration of the loop adds for one `from` block. */
  function FromFinding(resource: Block, severity: Severity, from: Block, isOpen: Attribute -> bool): seq<Result> {
    if Flagged(from, isOpen) then [InternetIngressResult(resource, severity, CidrOf(from))] else []
  }

  /** Everything one run of the check adds to its result set. */
  function NoPublicIngressFindings(resource: Block, severity: Severity,
                                   isOpen: Attribute -> bool): (r: seq<Result>)
    ensures 1 <= |r| || Froms(resource) != []
    ensures |r| <= if |Froms(resource)| <= 1 then 1 else |Froms(resource)|
    ensures forall k :: 0 <= k < |r| ==> r[k].severity == severity && r[k].range == resource.SourceRange()
  {
    var ingress := Ingress(resource);
    if ingress.IsNil() || |ingress.GetBlocks("from")| == 0 then [DefaultIngressResult(resource, severity)]
    else FromFindings(resource, severity, ingress.GetBlocks("from"), isOpen)
  }

  /** The check itself: look up `spec.ingress`; with no ingress block or no
      `from` in it, report once and stop; otherwise report each `from` whose
      `ip_block.cidr` is a string judged open. */
  method CheckNoPublicIngress(collector: ResultSet, resource: Block, isOpen: Attribute -> bool)
    modifies collector
    ensures collector.results == old(collector.results) + NoPublicIngressFindings(resource, collector.severity, isOpen)
  {
    var ingress := resource.GetBlock("spec").GetBlock("ingress");
    if ingress.IsNil() || |ingress.GetBlocks("from")| == 0 {
      collector.Add(New(resource, collector.severity, AllowsAllIngressByDefault));
      return;
    }
    var froms := ingress.GetBlocks("from");
    for i := 0 to |froms|
      invariant collector.results == old(collector.results) + FromFindings(resource, collector.severity, froms[..i], isOpen)
    {
      var cidrAttr := froms[i].GetBlock("ip_block").GetAttribute("cidr");
      FromFindingsStep(resource, collector.severity, froms, i, isOpen);
      if IsString(cidrAttr) {
        if isOpen(cidrAttr.value) {
          collector.Add(New(resource, collector.severity, AllowsIngressFromInternet).(annotation := cidrAttr));
        }
      }
    }
    assert froms[..|froms|] == froms;
  }

  /** One more `from` block adds its own finding when it is flagged, and
      nothing otherwise. */
  lemma FromFindingsStep(resource: Block, severity: Severity, froms: seq<Block>, i: nat,
                         isOpen: Attribute -> bool)
    requires i < |froms|
    ensures FromFindings(resource, severity, froms[..i + 1], isOpen) ==
      FromFindings(resource, severity, froms[..i], isOpen) +
      if Flagged(froms[i], isOpen) then [InternetIngressResult(resource, severity, CidrOf(froms[i]))] else []
  {
    assert |froms[..i + 1]| - 1 == i && froms[..i + 1][i] == froms[i];
    assert froms[..i + 1][..i] == froms[..i];
  }

  // ---------------------------------------------------------------------
  // Properties of the findings

  /** With no `spec.ingress`, or one without `from` blocks, the check reports
      exactly the one default finding about the policy. */
  lemma NoIngressOneDefaultFinding(resource: Block, severity: Severity, isOpen: Attribute -> bool)
    requires Ingress(resource).IsNil() || Froms(resource) == []
    ensures NoPublicIngressFindings(resource, severity, isOpen) ==
      [Result(Description(AllowsAllIngressByDefault, resource.Name()), resource.SourceRange(), severity, None)]
  {
  }

  /** The indices of the flagged `from` blocks, in increasing order. */
  function FlaggedIndices(froms: seq<Block>, isOpen: Attribute -> bool): (idx: seq<nat>)
    ensures forall k :: 0 <= k < |idx| ==> idx[k] < |froms| && Flagged(froms[idx[k]], isOpen)
    ensures forall k, l :: 0 <= k < l < |idx| ==> idx[k] < idx[l]
    ensures forall j :: 0 <= j < |froms| && Flagged(froms[j], isOpen) ==> j in idx
  {
    if froms == [] then []
    else
      var n := |froms| - 1;
      var prefix := FlaggedIndices(froms[..n], isOpen);
      if Flagged(froms[n], isOpen) then prefix + [n] else prefix
  }

  /** The loop's findings follow the `from` blocks in order: the k-th finding
      belongs to the k-th flagged block and carries exactly that block's cidr
      attribute. */
  lemma {:induction false} FromFindingsFollowFroms(resource: Block, severity: Severity, froms: seq<Block>,
                                                   isOpen: Attribute -> bool)
    ensures var r := FromFindings(resource, severity, froms, isOpen);
      var idx := FlaggedIndices(froms, isOpen);
      |r| == |idx| &&
      forall k :: 0 <= k < |r| ==> r[k] == InternetIngressResult(resource, severity, CidrOf(froms[idx[k]]))
  {
    if froms != [] {
      var n := |froms| - 1;
      var pre := froms[..n];
      FromFindingsFollowFroms(resource, severity, pre, isOpen);
      var r, idx := FromFindings(resource, severity, froms, isOpen), FlaggedIndices(froms, isOpen);
      var rp, ip := FromFindings(resource, severity, pre, isOpen), FlaggedIndices(pre, isOpen);
      assert r == rp + FromFinding(resource, severity, froms[n], isOpen);
      assert idx == if Flagged(froms[n], isOpen) then ip + [n] else ip;
      forall k | 0 <= k < |rp|
        ensures r[k] == InternetIngressResult(resource, severity, CidrOf(froms[idx[k]]))
      {
        assert r[k] == rp[k] && idx[k] == ip[k] && froms[ip[k]] == pre[ip[k]];
      }
    }
  }

  /** The flagged `from` positions as a set. */
  ghost function FlaggedSet(froms: seq<Block>, isOpen: Attribute -> bool): set<nat> {
    set j: nat | j < |froms| && Flagged(froms[j], isOpen)
  }

  /** The loop reports exactly as many findings as there are flagged blocks. */
  lemma {:induction false} FromFindingsCount(resource: Block, severity: Severity, froms: seq<Block>,
                                             isOpen: Attribute -> bool)
    ensures |FromFindings(resource, severity, froms, isOpen)| == |FlaggedSet(froms, isOpen)|
  {
    if froms == [] {
      assert FlaggedSet(froms, isOpen) == {};
    } else {
      var n := |froms| - 1;
      FromFindingsCount(resource, severity, froms[..n], isOpen);
      FlaggedSetStep(froms, isOpen);
    }
  }

  lemma FlaggedSetStep(froms: seq<Block>, isOpen: Attribute -> bool)
    requires froms != []
    ensures var n := |froms| - 1;
      |FlaggedSet(froms, isOpen)| ==
        |FlaggedSet(froms[..n], isOpen)| + if Flagged(froms[n], isOpen) then 1 else 0
  {
    var n := |froms| - 1;
    var before := FlaggedSet(froms[..n], isOpen);
    var extra: set<nat> := if Flagged(froms[n], isOpen) then {n} else {};
    forall j: nat ensures j in FlaggedSet(froms, isOpen) <==> j in before + extra {
      if j < n { assert froms[..n][j] == froms[j]; }
    }
    assert FlaggedSet(froms, isOpen) == before + extra;
    assert n !in before;
  }

  /** With at least one `from` block, the number of findings is the number of
      flagged `from` blocks; otherwise it is one. */
  lemma NoPublicIngressCount(resource: Block, severity: Severity, isOpen: Attribute -> bool)
    ensures |NoPublicIngressFindings(resource, severity, isOpen)| ==
      if Ingress(resource).IsNil() || Froms(resource) == [] then 1 else |FlaggedSet(Froms(resource), isOpen)|
  {
    if !(Ingress(resource).IsNil() || Froms(resource) == []) {
      FromFindingsCount(resource, severity, Froms(resource), isOpen);
    }
  }

  /** The loop's findings over two runs of `from` blocks are those of the
      first run followed by those of the second. */
  lemma {:induction false} FromFindingsAppend(resource: Block, severity: Severity, a: seq<Block>, b: seq<Block>,
                                              isOpen: Attribute -> bool)
    ensures FromFindings(resource, severity, a + b, isOpen) ==
      FromFindings(resource, severity, a, isOpen) + FromFindings(resource, severity, b, isOpen)
  {
    if b == [] {
      assert a + b == a;
    } else {
      var n := |b| - 1;
      var ab := a + b;
      assert ab[..|ab| - 1] == a + b[..n];
      assert ab[|ab| - 1] == b[n];
      FromFindingsLast(resource, severity, ab, isOpen);
      FromFindingsLast(resource, severity, b, isOpen);
      FromFindingsAppend(resource, severity, a, b[..n], isOpen);
      var x := FromFindings(resource, severity, a, isOpen);
      var y := FromFindings(resource, severity, b[..n], isOpen);
      var last := FromFinding(resource, severity, b[n], isOpen);
      assert (x + y) + last == x + (y + last);
    }
  }

  /** The definition of FromFindings, unfolded once at the last block. */
  lemma FromFindingsLast(resource: Block, severity: Severity, froms: seq<Block>, isOpen: Attribute -> bool)
    requires froms != []
    ensures FromFindings(resource, severity, froms, isOpen) ==
      FromFindings(resource, severity, froms[..|froms| - 1], isOpen) +
      FromFinding(resource, severity, froms[|froms| - 1], isOpen)
  {
  }

  /** A `from` block whose `ip_block.cidr` is missing or not a known string
      is skipped: removing it changes nothing, whatever the CIDR verdict. */
  lemma NonStringCidrSkipped(resource: Block, severity: Severity, a: seq<Block>, from: Block, b: seq<Block>,
                             isOpen: Attribute -> bool)
    requires !IsString(CidrOf(from))
    ensures FromFindings(resource, severity, a + [from] + b, isOpen) == FromFindings(resource, severity, a + b, isOpen)
  {
    FromFindingsAppend(resource, severity, a + [from], b, isOpen);
    FromFindingsAppend(resource, severity, a, [from], isOpen);
    FromFindingsAppend(resource, severity, a, b, isOpen);
    UnflaggedSingleton(resource, severity, from, isOpen);
    var x := FromFindings(resource, severity, a, isOpen);
    assert x + [] == x;
  }

  /** A single unflagged `from` block yields no finding. */
  lemma UnflaggedSingleton(resource: Block, severity: Severity, from: Block, isOpen: Attribute -> bool)
    requires !Flagged(from, isOpen)
    ensures FromFindings(resource, severity, [from], isOpen) == []
  {
    FromFindingsLast(resource, severity, [from], isOpen);
    assert [from][..0] == [];
  }

  /** The cidr lookups of a run of `from` blocks. */
  function Cidrs(froms: seq<Block>): (r: seq<Option<Attribute>>)
    ensures |r| == |froms| && forall k :: 0 <= k < |froms| ==> r[k] == CidrOf(froms[k])
  {
    if froms == [] then [] else [CidrOf(froms[0])] + Cidrs(froms[1..])
  }

  /** All the check reads of a policy besides its name and range: whether
      `spec.ingress` exists and the `ip_block.cidr` of each of its `from`
      blocks. Egress rules, `except` lists and everything else are not in it. */
  function IngressCidrs(resource: Block): Option<seq<Option<Attribute>>> {
    if Ingress(resource).IsNil() then None else Some(Cidrs(Froms(resource)))
  }

  /** The cidr lookups of a prefix are the prefix of the lookups. */
  lemma CidrsPrefix(froms: seq<Block>, n: nat)
    requires n <= |froms|
    ensures Cidrs(froms[..n]) == Cidrs(froms)[..n]
  {
    var p, c := Cidrs(froms[..n]), Cidrs(froms);
    forall k | 0 <= k < n
      ensures p[k] == c[k]
    {
      assert froms[..n][k] == froms[k];
    }
    assert |p| == |c[..n]|;
  }

  /** One iteration's finding depends on the `from` block only through its cidr. */
  lemma FromFindingDependsOnCidr(resource: Block, severity: Severity, f: Block, g: Block, isOpen: Attribute -> bool)
    requires CidrOf(f) == CidrOf(g)
    ensures FromFinding(resource, severity, f, isOpen) == FromFinding(resource, severity, g, isOpen)
  {
  }

  lemma {:induction false} FromFindingsDependOnCidrs(resource: Block, severity: Severity, f: seq<Block>, g: seq<Block>,
                                                     isOpen: Attribute -> bool)
    requires Cidrs(f) == Cidrs(g)
    ensures FromFindings(resource, severity, f, isOpen) == FromFindings(resource, severity, g, isOpen)
  {
    if f != [] {
      var n := |f| - 1;
      CidrsPrefix(f, n);
      CidrsPrefix(g, n);
      assert CidrOf(f[n]) == Cidrs(f)[n] == Cidrs(g)[n] == CidrOf(g[n]);
      FromFindingDependsOnCidr(resource, severity, f[n], g[n], isOpen);
      FromFindingsDependOnCidrs(resource, severity, f[..n], g[..n], isOpen);
      FromFindingsLast(resource, severity, f, isOpen);
      FromFindingsLast(resource, severity, g, isOpen);
    }
  }

  lemma {:induction false} FromFindingsDependOnResource(p: Block, q: Block, severity: Severity, froms: seq<Block>,
                                                       isOpen: Attribute -> bool)
    requires p.Name() == q.Name() && p.SourceRange() == q.SourceRange()
    ensures FromFindings(p, severity, froms, isOpen) == FromFindings(q, severity, froms, isOpen)
  {
    if froms != [] {
      FromFindingsDependOnResource(p, q, severity, froms[..|froms| - 1], isOpen);
    }
  }

  /** Two policies with the same name, range and ingress cidrs get the same
      findings: nothing else in the policy is read. */
  lemma FindingsDependOnlyOnIngressCidrs(p: Block, q: Block, severity: Severity, isOpen: Attribute -> bool)
    requires p.Name() == q.Name() && p.SourceRange() == q.SourceRange()
    requires IngressCidrs(p) == IngressCidrs(q)
    ensures NoPublicIngressFindings(p, severity, isOpen) == NoPublicIngressFindings(q, severity, isOpen)
  {
    if Ingress(p).IsNil() {
      assert Ingress(q).IsNil();
      assert DefaultIngressResult(p, severity) == DefaultIngressResult(q, severity);
    } else {
      assert !Ingress(q).IsNil() && Cidrs(Froms(p)) == Cidrs(Froms(q));
      assert |Froms(p)| == |Froms(q)|;
      if Froms(p) == [] {
        assert DefaultIngressResult(p, severity) == DefaultIngressResult(q, severity);
      } else {
        FromFindingsDependOnCidrs(p, severity, Froms(p), Froms(q), isOpen);
        FromFindingsDependOnResource(p, q, severity, Froms(q), isOpen);
      }
    }
  }
}
