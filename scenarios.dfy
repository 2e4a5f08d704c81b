/** The rules' own bad and good example configurations, as block trees, and
    what each check reports on them. Ranges are line numbers within each
    example snippet. */
module Scenarios {
  import opened Hcl
  import opened Results
  import opened Rules
  import opened KubernetesNetwork
  import opened GoogleStorage

  function Str(name: string, s: string, line: nat): Attribute {
    Attribute(name, Known(LString(s)), Range("main.tf", line, line))
  }

  function Leaf(typ: string, attrs: map<string, Attribute>, first: nat, last: nat): Block {
    Block(typ, [], attrs, [], Range("main.tf", first, last))
  }

  // ---------------------------------------------------------------------
  // kubernetes_network_policy

  function Strings(name: string, items: seq<string>, first: nat, last: nat): Attribute {
    Attribute(name, Known(LList(seq(|items|, k requires 0 <= k < |items| => LString(items[k])))),
              Range("main.tf", first, last))
  }

  /** An `ip_block` starting on line `first`, with the given cidr and the
      examples' `except` list. */
  function IpBlock(cidr: Attribute, first: nat): Block {
    var except := Strings("except", ["10.0.0.0/24", "10.0.1.0/24"], first + 2, first + 5);
    Leaf("ip_block", map["cidr" := cidr, "except" := except], first, first + 6)
  }

  function Ports(port: string, protocol: string, first: nat): Block {
    Leaf("ports", map["port" := Str("port", port, first + 1), "protocol" := Str("protocol", protocol, first + 2)],
         first, first + 3)
  }

  /** A network policy whose only ingress peer has cidr `ingressCidr` and whose
      egress peer allows 0.0.0.0/0. */
  function NetworkPolicy(name: string, ingressCidr: Attribute): Block {
    var metadata := Leaf("metadata", map["name" := Str("name", "terraform-example-network-policy", 3),
                                         "namespace" := Str("namespace", "default", 4)], 2, 5);
    var podSelector :=
      Block("pod_selector", [], map[],
            [Leaf("match_expressions", map["key" := Str("key", "name", 10),
                                           "operator" := Str("operator", "In", 11),
                                           "values" := Strings("values", ["webfront", "api"], 12, 12)], 9, 13)],
            Range("main.tf", 8, 14));
    var from := Block("from", [], map[], [IpBlock(ingressCidr, 27)], Range("main.tf", 26, 34));
    var ingress := Block("ingress", [], map[], [Ports("http", "TCP", 17), Ports("8125", "UDP", 21), from],
                         Range("main.tf", 16, 35));
    var to := Block("to", [], map[], [IpBlock(Str("cidr", "0.0.0.0/0", 49), 48)], Range("main.tf", 47, 55));
    var egress := Block("egress", [], map[], [Ports("http", "TCP", 38), Ports("8125", "UDP", 42), to],
                        Range("main.tf", 37, 56));
    var policyTypes := Strings("policy_types", ["Ingress", "Egress"], 58, 58);
    var spec := Block("spec", [], map["policy_types" := policyTypes], [podSelector, ingress, egress],
                      Range("main.tf", 7, 59));
    Block("resource", ["kubernetes_network_policy", name], map[], [metadata, spec], Range("main.tf", 1, 60))
  }

  const OpenCidr: Attribute := Str("cidr", "0.0.0.0/0", 28)
  const PrivateCidr: Attribute := Str("cidr", "10.0.0.0/16", 28)

  lemma NetworkPolicyFroms(name: string, cidr: Attribute)
    ensures |Froms(NetworkPolicy(name, cidr))| == 1
    ensures CidrOf(Froms(NetworkPolicy(name, cidr))[0]) == Some(cidr)
  {
    var p := NetworkPolicy(name, cidr);
    var cs := p.children;
    assert cs[0].typ == "metadata" != "spec" && cs[1].typ == "spec";
    assert FirstOfType(cs, "spec") == FirstOfType(cs[1..], "spec") == cs[1];
    var spec := cs[1];
    var ss := spec.children;
    assert ss[0].typ == "pod_selector" != "ingress" && ss[1].typ == "ingress";
    assert FirstOfType(ss, "ingress") == FirstOfType(ss[1..], "ingress") == ss[1];
    var ingress := ss[1];
    var ic := ingress.children;
    assert ic[0].typ == "ports" != "from" && ic[1].typ == "ports" && ic[2].typ == "from";
    assert OfType(ic[2..], "from") == [ic[2]] + OfType(ic[3..], "from") == [ic[2]];
    assert OfType(ic, "from") == OfType(ic[1..], "from") == OfType(ic[2..], "from");
    var from := ic[2];
    assert from.children[0].typ == "ip_block";
  }

  /** The bad example: one finding, annotated with its 0.0.0.0/0 cidr, when
      that cidr is judged open. */
  lemma NoPublicIngressBadExample(isOpen: Attribute -> bool, severity: Severity)
    requires isOpen(OpenCidr)
    ensures NoPublicIngressFindings(NetworkPolicy("bad_example", OpenCidr), severity, isOpen) ==
      [Result(Description(AllowsIngressFromInternet, BlockName("resource", ["kubernetes_network_policy", "bad_example"])),
              Range("main.tf", 1, 60), severity, Some(OpenCidr))]
  {
    NetworkPolicyFroms("bad_example", OpenCidr);
  }

  /** The good example: no finding when 10.0.0.0/16 is not judged open, even
      though its egress peer allows 0.0.0.0/0. */
  lemma NoPublicIngressGoodExample(isOpen: Attribute -> bool, severity: Severity)
    requires !isOpen(PrivateCidr)
    ensures NoPublicIngressFindings(NetworkPolicy("good_example", PrivateCidr), severity, isOpen) == []
  {
    NetworkPolicyFroms("good_example", PrivateCidr);
  }

  // ---------------------------------------------------------------------
  // google_storage_bucket

  /** The examples' bucket, with `uniform_bucket_level_access` set to `ubla`
      or left out when `ubla` is None. */
  function Bucket(ubla: Option<Attribute>): Block {
    var attrs := map["name" := Str("name", "image-store.com", 2),
                     "location" := Str("location", "EU", 3),
                     "force_destroy" := Attribute("force_destroy", Known(LBool(true)), Range("main.tf", 4, 4))];
    var website := Leaf("website", map["main_page_suffix" := Str("main_page_suffix", "index.html", 9),
                                       "not_found_page" := Str("not_found_page", "404.html", 10)], 8, 11);
    var cors := Leaf("cors", map["origin" := Strings("origin", ["http://image-store.com"], 13, 13),
                                 "method" := Strings("method", ["GET", "HEAD", "PUT", "POST", "DELETE"], 14, 14),
                                 "response_header" := Strings("response_header", ["*"], 15, 15),
                                 "max_age_seconds" := Attribute("max_age_seconds", Known(LNumber(3600)),
                                                                Range("main.tf", 16, 16))], 12, 17);
    Block("resource", ["google_storage_bucket", "static-site"],
          if ubla.Some? then attrs[UblaAttribute := ubla.value] else attrs,
          [website, cors], Range("main.tf", 1, 18))
  }

  function UblaSetTo(b: bool): Attribute {
    Attribute(UblaAttribute, Known(LBool(b)), Range("main.tf", 6, 6))
  }

  const BucketName: BlockName := BlockName("resource", ["google_storage_bucket", "static-site"])

  /** A bucket without the attribute: one finding of severity Medium on the
      block's range. */
  lemma EnableUblaMissing()
    ensures UblaFindings(Bucket(None), EnableUbla.defaultSeverity) ==
      [Result(Description(UblaNotEnabled, BucketName), Range("main.tf", 1, 18), Medium, None)]
  {
  }

  /** The bad example (`= false`): one finding on the attribute's range. */
  lemma EnableUblaBadExample()
    ensures UblaFindings(Bucket(Some(UblaSetTo(false))), EnableUbla.defaultSeverity) ==
      [Result(Description(UblaExplicitlyDisabled, BucketName), Range("main.tf", 6, 6), Medium,
              Some(UblaSetTo(false)))]
  {
  }

  /** The good example (`= true`): no finding. */
  lemma EnableUblaGoodExample()
    ensures UblaFindings(Bucket(Some(UblaSetTo(true))), EnableUbla.defaultSeverity) == []
  {
  }

  /** A value that depends on apply-time data: no finding. */
  lemma EnableUblaUnknown()
    ensures UblaFindings(Bucket(Some(Attribute(UblaAttribute, Unknown, Range("main.tf", 6, 6)))), Medium) == []
  {
  }
}
