/** The table rows of the resolver's tests, each stated as a fact about the
    model. */
module DynamicSourceTests {
  import opened Wrappers
  import opened Strings
  import opened StringOrder
  import opened Urls
  import opened DynamicSource

  // ---------------------------------------------------------------------
  // mapToSourceConfig
  //
  // Each row takes its query string as a parameter pinned to the row's
  // literal by `requires`, so that the solver does not evaluate the whole
  // mapping on literal arguments.

  /** ":8080" with no query: port 8080, the supplied IP, no whitelist and
      no label overrides. */
  lemma MapKubeProxy(query: string)
    requires query == ""
    ensures MapToSourceConfig("kube-proxy", Url(":8080", query), "10.25.78.143", "pod-name", "pod-namespace")
         == Success(SourceConfig("kube-proxy", "10.25.78.143", 8080, DefaultMetricsPath, [],
                                 PodConfig("pod-name", "pod-namespace", "", "", "")))
  {
    Spellings();
    MapPortOnly("kube-proxy", 8080, query, "10.25.78.143");
    MapToSourceConfigNoQuery("kube-proxy", ":8080", "10.25.78.143", "pod-name", "pod-namespace");
  }

  /** A whitelist query splits into its metrics in order; the host is the
      supplied string whatever it looks like. */
  lemma MapFluentd(query: string)
    requires query == "whitelisted=metric1,metric2"
    ensures MapToSourceConfig("fluentd", Url(":80", query), "very_important_ip", "pod-name", "pod-namespace")
         == Success(SourceConfig("fluentd", "very_important_ip", 80, DefaultMetricsPath, ["metric1", "metric2"],
                                 PodConfig("pod-name", "pod-namespace", "", "", "")))
  {
    Spellings();
    FluentdQuery();
    FluentdEncodable();
    FluentdLookups();
    MapWithParams("fluentd", 80, FluentdParams(), "very_important_ip");
  }

  function FluentdParams(): seq<Param>
  {
    [Param("whitelisted", "metric1,metric2")]
  }

  lemma FluentdEncodable()
    ensures Encodable(FluentdParams())
  {
    WhitelistedEncodable();
    assert FluentdParams()[0] == Param("whitelisted", "metric1,metric2");
  }

  lemma FluentdQuery()
    ensures EncodeQuery(FluentdParams()) == "whitelisted=metric1,metric2"
  {
    var pieces := EncodePieces(FluentdParams());
    assert pieces[0] == "whitelisted=metric1,metric2";
  }

  lemma FluentdLookups()
    ensures Lookup(FluentdParams(), "whitelisted") == "metric1,metric2"
    ensures Lookup(FluentdParams(), "podIdLabel") == ""
    ensures Lookup(FluentdParams(), "namespaceIdLabel") == ""
    ensures Lookup(FluentdParams(), "containerNamelabel") == ""
  {
  }

  /** The three label overrides are read from their query keys. The query
      is the row's string, written as its four '&'-separated pieces. */
  lemma MapCadvisor(query: string)
    requires query == "whitelisted=metric1,metric2" + "&" + "podIdLabel=pod-id" + "&"
                    + "namespaceIdLabel=namespace-id" + "&" + "containerNamelabel=container-name"
    ensures MapToSourceConfig("cadvisor", Url(":8080", query), "very_important_ip", "pod-name", "pod-namespace")
         == Success(SourceConfig("cadvisor", "very_important_ip", 8080, DefaultMetricsPath, ["metric1", "metric2"],
                                 PodConfig("pod-name", "pod-namespace", "pod-id", "namespace-id", "container-name")))
  {
    Spellings();
    CadvisorQuery();
    CadvisorEncodable();
    CadvisorLookups();
    MapWithParams("cadvisor", 8080, CadvisorParams(), "very_important_ip");
  }

  function CadvisorParams(): seq<Param>
  {
    [Param("whitelisted", "metric1,metric2"), Param("podIdLabel", "pod-id"),
     Param("namespaceIdLabel", "namespace-id"), Param("containerNamelabel", "container-name")]
  }

  lemma CadvisorEncodable()
    ensures Encodable(CadvisorParams())
  {
    var ps := CadvisorParams();
    WhitelistedEncodable();
    PodIdEncodable();
    NamespaceIdEncodable();
    ContainerNameEncodable();
    assert ps[0] == Param("whitelisted", "metric1,metric2");
    assert ps[1] == Param("podIdLabel", "pod-id");
    assert ps[2] == Param("namespaceIdLabel", "namespace-id");
    assert ps[3] == Param("containerNamelabel", "container-name");
  }

  lemma WhitelistedEncodable() ensures EncodableParam(Param("whitelisted", "metric1,metric2")) { }
  lemma PodIdEncodable() ensures EncodableParam(Param("podIdLabel", "pod-id")) { }
  lemma NamespaceIdEncodable() ensures EncodableParam(Param("namespaceIdLabel", "namespace-id")) { }
  lemma ContainerNameEncodable() ensures EncodableParam(Param("containerNamelabel", "container-name")) { }

  lemma CadvisorLookups()
    ensures Lookup(CadvisorParams(), "whitelisted") == "metric1,metric2"
    ensures Lookup(CadvisorParams(), "podIdLabel") == "pod-id"
    ensures Lookup(CadvisorParams(), "namespaceIdLabel") == "namespace-id"
    ensures Lookup(CadvisorParams(), "containerNamelabel") == "container-name"
  {
  }

  lemma CadvisorQuery()
    ensures EncodeQuery(CadvisorParams())
         == "whitelisted=metric1,metric2" + "&" + "podIdLabel=pod-id" + "&"
          + "namespaceIdLabel=namespace-id" + "&" + "containerNamelabel=container-name"
  {
    WhitelistedPiece();
    PodIdPiece();
    NamespaceIdPiece();
    ContainerNamePiece();
    JoinFour(EncodePieces(CadvisorParams()), '&');
  }

  lemma WhitelistedPiece() ensures EncodePieces(CadvisorParams())[0] == "whitelisted=metric1,metric2" { }
  lemma PodIdPiece() ensures EncodePieces(CadvisorParams())[1] == "podIdLabel=pod-id" { }
  lemma NamespaceIdPiece() ensures EncodePieces(CadvisorParams())[2] == "namespaceIdLabel=namespace-id" { }
  lemma ContainerNamePiece() ensures EncodePieces(CadvisorParams())[3] == "containerNamelabel=container-name" { }

  lemma JoinFour(parts: seq<string>, sep: char)
    requires |parts| == 4
    ensures Join(parts, sep) == parts[0] + [sep] + parts[1] + [sep] + parts[2] + [sep] + parts[3]
  {
    assert parts[1..][1..] == parts[2..];
    assert parts[2..][1..] == parts[3..];
    assert Join(parts[3..], sep) == parts[3];
    assert Join(parts[2..], sep) == parts[2] + [sep] + parts[3];
    assert Join(parts[1..], sep) == parts[1] + [sep] + (parts[2] + [sep] + parts[3]);
  }

  /** The target for ":<port>" and a query encoding params whose whitelist
      is metric1,metric2. */
  lemma MapWithParams(component: string, port: nat, params: seq<Param>, ip: string)
    requires 1 <= port <= MaxPort
    requires Encodable(params)
    requires Lookup(params, "whitelisted") == "metric1,metric2"
    ensures MapToSourceConfig(component, Url(":" + Decimal(port), EncodeQuery(params)), ip, "pod-name", "pod-namespace")
         == Success(SourceConfig(component, ip, port, DefaultMetricsPath, ["metric1", "metric2"],
                                 PodConfig("pod-name", "pod-namespace", Lookup(params, "podIdLabel"),
                                           Lookup(params, "namespaceIdLabel"), Lookup(params, "containerNamelabel"))))
  {
    var u := Url(":" + Decimal(port), EncodeQuery(params));
    MapPortOnly(component, port, EncodeQuery(params), ip);
    MapTwoMetrics(component, u.Host, params, ip);
    MapToSourceConfigOptions(component, u.Host, params, ip, "pod-name", "pod-namespace");
  }

  lemma MapPortOnly(component: string, port: nat, query: string, ip: string)
    requires 1 <= port <= MaxPort
    ensures var r := MapToSourceConfig(component, Url(":" + Decimal(port), query), ip, "pod-name", "pod-namespace");
      r.Success? && r.value.Port == port
  {
    var digits := Decimal(port);
    assert "" + ":" + digits == ":" + digits;
    MapToSourceConfigPort(component, "", port, query, ip, "pod-name", "pod-namespace");
  }

  lemma MapTwoMetrics(component: string, host: string, params: seq<Param>, ip: string)
    requires Encodable(params)
    requires Lookup(params, "whitelisted") == "metric1,metric2"
    requires MapToSourceConfig(component, Url(host, EncodeQuery(params)), ip, "pod-name", "pod-namespace").Success?
    ensures MapToSourceConfig(component, Url(host, EncodeQuery(params)), ip, "pod-name", "pod-namespace")
              .value.Whitelisted == ["metric1", "metric2"]
  {
    TwoMetricsJoined(["metric1", "metric2"]);
    TwoMetricsCommaFree(["metric1", "metric2"]);
    MapToSourceConfigWhitelist(component, host, params, ["metric1", "metric2"], ip, "pod-name", "pod-namespace");
  }

  lemma TwoMetricsJoined(names: seq<string>)
    requires names == ["metric1", "metric2"]
    ensures Join(names, ',') == "metric1,metric2"
  {
    assert names[1..] == ["metric2"];
  }

  lemma TwoMetricsCommaFree(names: seq<string>)
    requires names == ["metric1", "metric2"]
    ensures forall i :: 0 <= i < |names| ==> ',' !in names[i]
  {
  }

  lemma Spellings()
    ensures ":" + Decimal(80) == ":80" && ":" + Decimal(8080) == ":8080"
  {
  }

  // ---------------------------------------------------------------------
  // createOptionsForPodSelection

  lemma SelectNoSources()
    ensures CreateOptionsForPodSelection("node", map[])
         == ListOptions("spec.nodeName=node", "k8s-app in ()")
  {
    assert SortedList({}) == [];
  }

  lemma SelectOneSourceNoNode()
    ensures CreateOptionsForPodSelection("", map["key" := Url("", "")])
         == ListOptions("spec.nodeName=", "k8s-app in (key,)")
  {
    SortedListUnique(["key"], {"key"});
  }

  /** Two names come out in ascending order, whichever is inserted first:
      the query depends only on the set of names. */
  lemma SelectTwoSources(sources: map<string, Url>)
    requires sources.Keys == {"key1", "key2"}
    ensures CreateOptionsForPodSelection("node", sources)
         == ListOptions("spec.nodeName=node", "k8s-app in (key1,key2,)")
  {
    NodeField(sources);
    Key1Key2Label(sources);
  }

  lemma NodeField(sources: map<string, Url>)
    ensures CreateOptionsForPodSelection("node", sources).FieldSelector == "spec.nodeName=node"
  {
  }

  lemma Key1Key2Label(sources: map<string, Url>)
    requires sources.Keys == {"key1", "key2"}
    ensures CreateOptionsForPodSelection("node", sources).LabelSelector == "k8s-app in (key1,key2,)"
  {
    var listing := ["key1", "key2"];
    Key1BeforeKey2();
    Key1Key2Listing(sources, listing);
    LabelSelectorOrderIndependent("node", sources, listing);
    Key1Key2Joined(listing);
  }

  lemma Key1Key2Listing(sources: map<string, Url>, listing: seq<string>)
    requires sources.Keys == {"key1", "key2"} && listing == ["key1", "key2"]
    ensures forall k :: k in listing <==> k in sources
  {
  }

  lemma Key1Key2Joined(listing: seq<string>)
    requires listing == ["key1", "key2"]
    ensures ComponentLabel + " in (" + JoinTerminated(listing, ',') + ")" == "k8s-app in (key1,key2,)"
  {
    assert listing[0] == "key1" && listing[1..] == ["key2"] && listing[1..][1..] == [];
    assert JoinTerminated(listing[1..], ',') == "key2" + [','];
    assert JoinTerminated(listing, ',') == "key1" + [','] + ("key2" + [',']);
  }

  lemma Key1BeforeKey2()
    ensures StrictlySorted(["key1", "key2"])
  {
    assert "key1"[1..] == "ey1" && "key2"[1..] == "ey2";
    assert "ey1"[1..] == "y1" && "ey2"[1..] == "y2";
    assert "y1"[1..] == "1" && "y2"[1..] == "2";
  }

  // ---------------------------------------------------------------------
  // validateSources

  /** The authorities the table uses. */
  lemma Authorities()
    ensures PortOnly(":80") && PortOnly(":81")
    ensures !PortOnly("") && !PortOnly("hostname:80") && !PortOnly("10.67.86.43:80")
  {
    PortOnlyShape(":80");
    PortOnlyShape(":81");
    PortOnlyShape("");
    PortOnlyShape("hostname:80");
    PortOnlyShape("10.67.86.43:80");
  }

  /** An empty declaration, and a declaration with a name but no URL. */
  lemma ValidateEmptyDeclarations()
    ensures ValidateSources([Uri("", Url("", ""))]).Failure?
    ensures ValidateSources([Uri("component-name", Url("", ""))]).Failure?
  {
    Authorities();
    MalformedFailsBatch([Uri("", Url("", ""))], 0);
    MalformedFailsBatch([Uri("component-name", Url("", ""))], 0);
  }

  lemma ValidateOneSource()
    ensures ValidateSources([Uri("component-name", Url(":80", ""))])
         == Success(map["component-name" := Url(":80", "")])
  {
    Authorities();
    var uris := [Uri("component-name", Url(":80", ""))];
    assert AllWellFormed(uris);
    var m := ValidateSources(uris).value;
    assert m.Keys == {"component-name"};
  }

  /** A host before the port fails the batch, valid neighbours or not. */
  lemma ValidateHostNames()
    ensures ValidateSources([Uri("component-name", Url("hostname:80", ""))]).Failure?
    ensures ValidateSources([Uri("component-name1", Url(":80", "")),
                             Uri("component-name2", Url("hostname:80", ""))]).Failure?
    ensures ValidateSources([Uri("component-name1", Url("10.67.86.43:80", "")),
                             Uri("component-name2", Url(":80", ""))]).Failure?
  {
    Authorities();
    MalformedFailsBatch([Uri("component-name", Url("hostname:80", ""))], 0);
    MalformedFailsBatch([Uri("component-name1", Url(":80", "")), Uri("component-name2", Url("hostname:80", ""))], 1);
    MalformedFailsBatch([Uri("component-name1", Url("10.67.86.43:80", "")), Uri("component-name2", Url(":80", ""))], 0);
  }

  lemma ValidateTwoSources()
    ensures ValidateSources([Uri("component-name1", Url(":80", "")), Uri("component-name2", Url(":81", ""))])
         == Success(map["component-name1" := Url(":80", ""), "component-name2" := Url(":81", "")])
  {
    ValidateTwoDeclarations([Uri("component-name1", Url(":80", "")), Uri("component-name2", Url(":81", ""))]);
  }

  lemma ValidateTwoDeclarations(uris: seq<Uri>)
    requires uris == [Uri("component-name1", Url(":80", "")), Uri("component-name2", Url(":81", ""))]
    ensures ValidateSources(uris) == Success(map["component-name1" := Url(":80", ""), "component-name2" := Url(":81", "")])
  {
    TwoDeclarationsValid(uris);
    TwoDeclarationsKeys(uris);
    var m := ValidateSources(uris).value;
    assert m[uris[0].Key] == uris[0].Val && m[uris[1].Key] == uris[1].Val;
    TwoPairMap(m, uris[0].Key, uris[0].Val, uris[1].Key, uris[1].Val);
  }

  lemma TwoPairMap(m: map<string, Url>, k1: string, v1: Url, k2: string, v2: Url)
    requires m.Keys == {k1, k2} && m[k1] == v1 && m[k2] == v2
    ensures m == map[k1 := v1, k2 := v2]
  {
  }

  lemma TwoDeclarationsValid(uris: seq<Uri>)
    requires uris == [Uri("component-name1", Url(":80", "")), Uri("component-name2", Url(":81", ""))]
    ensures AllWellFormed(uris) && DistinctKeys(uris)
  {
    assert ":80" == ":" + "80" && ":81" == ":" + "81";
    assert "component-name1"[14] != "component-name2"[14];
    TwoPortOnlyDeclarations(uris, "component-name1", "80", "component-name2", "81");
  }

  lemma TwoPortOnlyDeclarations(uris: seq<Uri>, k1: string, d1: string, k2: string, d2: string)
    requires k1 != "" && d1 != "" && IsDigits(d1) && k2 != "" && d2 != "" && IsDigits(d2) && k1 != k2
    requires uris == [Uri(k1, Url(":" + d1, "")), Uri(k2, Url(":" + d2, ""))]
    ensures AllWellFormed(uris) && DistinctKeys(uris)
  {
    PortOnlyOfDigits(d1);
    PortOnlyOfDigits(d2);
  }

  lemma TwoDeclarationsKeys(uris: seq<Uri>)
    requires uris == [Uri("component-name1", Url(":80", "")), Uri("component-name2", Url(":81", ""))]
    ensures DeclaredKeys(uris) == {"component-name1", "component-name2"}
  {
    assert uris[0].Key in DeclaredKeys(uris) && uris[1].Key in DeclaredKeys(uris);
  }

  /** A repeated name fails, with different or with identical URLs. */
  lemma ValidateDuplicates()
    ensures ValidateSources([Uri("component-name1", Url(":80", "")), Uri("component-name1", Url(":81", ""))]).Failure?
    ensures ValidateSources([Uri("component-name1", Url(":80", "")), Uri("component-name1", Url(":80", ""))]).Failure?
  {
    DuplicateFailsBatch([Uri("component-name1", Url(":80", "")), Uri("component-name1", Url(":81", ""))], 0, 1);
    DuplicateFailsBatch([Uri("component-name1", Url(":80", "")), Uri("component-name1", Url(":80", ""))], 0, 1);
  }
}
