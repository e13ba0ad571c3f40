/** The source-configuration resolver of the prometheus-to-sd agent: it
    validates the declared (component, endpoint URL) pairs, maps one
    validated pair to a scrape target, and builds the Kubernetes query that
    finds sibling pods of the declared components on the local node. */
module DynamicSource {
  import opened Wrappers
  import opened Strings
  import opened StringOrder
  import opened Urls

  /** The path scraped on every source; the endpoint URL never sets one. */
  const DefaultMetricsPath: string := "/metrics"

  /** The pod label that carries the component name. */
  const ComponentLabel: string := "k8s-app"

  /** The pod field that names the node a pod is scheduled on. */
  const NodeNameField: string := "spec.nodeName"

  /** Which pod a source describes, and which of its labels carry the pod
      id, namespace id and container name ("" when not overridden). */
  datatype PodConfig = PodConfig(
    PodName: string,
    PodNamespace: string,
    PodIdLabel: string,
    NamespaceIdLabel: string,
    ContainerNameLabel: string)

  /** One resolved scrape target. An empty whitelist means no filtering. */
  datatype SourceConfig = SourceConfig(
    Component: string,
    Host: string,
    Port: nat,
    Path: string,
    Whitelisted: seq<string>,
    PodConfig: PodConfig)

  /** One declaration: a component name and its endpoint URL. */
  datatype Uri = Uri(Key: string, Val: Url)

  /** Why a batch of declarations is refused. */
  datatype ValidationError =
    | EmptyComponentName
    | BadAuthority(cause: AddrError)
    | HostNotEmpty(host: string)
    | NoPort
    | DuplicateComponent(name: string)

  // ---------------------------------------------------------------------
  // Source validation

  /** The authority names a port and no host. */
  predicate PortOnly(authority: string)
  {
    match SplitHostPort(authority)
    case Success((host, port)) => host == "" && port != ""
    case Failure(_) => false
  }

  /** A declaration with a component name and a port-only authority. */
  predicate WellFormed(u: Uri)
  {
    u.Key != "" && PortOnly(u.Val.Host)
  }

  predicate AllWellFormed(uris: seq<Uri>)
  {
    forall i :: 0 <= i < |uris| ==> WellFormed(uris[i])
  }

  /** No component name is declared twice. */
  predicate DistinctKeys(uris: seq<Uri>)
  {
    forall i, j :: 0 <= i < j < |uris| ==> uris[i].Key != uris[j].Key
  }

  /** The component names declared. */
  function DeclaredKeys(uris: seq<Uri>): set<string>
  {
    set i | 0 <= i < |uris| :: uris[i].Key
  }

  /** Checks one declaration against the sources accepted so far and adds
      it; the checks run in the order the declaration is read. */
  function AddSource(sources: map<string, Url>, u: Uri): (r: Result<map<string, Url>, ValidationError>)
    ensures r.Success? <==> WellFormed(u) && u.Key !in sources
    ensures r.Success? ==> r.value == sources[u.Key := u.Val]
    ensures r.Failure? ==> Describes(r.error, sources.Keys, u)
  {
    if u.Key == "" then Failure(EmptyComponentName)
    else match SplitHostPort(u.Val.Host)
      case Failure(e) => Failure(BadAuthority(e))
      case Success((host, port)) =>
        if host != "" then Failure(HostNotEmpty(host))
        else if port == "" then Failure(NoPort)
        else if u.Key in sources then Failure(DuplicateComponent(u.Key))
        else Success(sources[u.Key := u.Val])
  }

  /** validateSources: the declarations read in order, stopping at the first
      one that is malformed or repeats a component name. It succeeds exactly
      when every declaration is well formed and the names are distinct, and
      then maps every declared name to its URL, unmodified. */
  function ValidateSources(uris: seq<Uri>): (r: Result<map<string, Url>, ValidationError>)
    ensures r.Success? <==> AllWellFormed(uris) && DistinctKeys(uris)
    ensures r.Success? ==> r.value.Keys == DeclaredKeys(uris)
    ensures r.Success? ==> forall i :: 0 <= i < |uris| ==> r.value[uris[i].Key] == uris[i].Val
    decreases |uris|
  {
    if |uris| == 0 then Success(map[])
    else
      var prior := ValidateSources(uris[..|uris| - 1]);
      if prior.Failure? then
        DeclarationsExtend(uris);
        prior
      else
        AddSourceExtends(uris, prior.value);
        AddSource(prior.value, uris[|uris| - 1])
  }

  /** How the rules on a batch relate to its last declaration. */
  lemma DeclarationsExtend(uris: seq<Uri>)
    requires |uris| > 0
    ensures var front, last := uris[..|uris| - 1], uris[|uris| - 1];
      && (AllWellFormed(uris) <==> AllWellFormed(front) && WellFormed(last))
      && (DistinctKeys(uris) <==> DistinctKeys(front) && last.Key !in DeclaredKeys(front))
      && DeclaredKeys(uris) == DeclaredKeys(front) + {last.Key}
  {
    WellFormedExtend(uris);
    DistinctExtend(uris);
    var front := uris[..|uris| - 1];
    assert forall i :: 0 <= i < |front| ==> uris[i] == front[i];
  }

  lemma WellFormedExtend(uris: seq<Uri>)
    requires |uris| > 0
    ensures AllWellFormed(uris) <==> AllWellFormed(uris[..|uris| - 1]) && WellFormed(uris[|uris| - 1])
  {
    var front := uris[..|uris| - 1];
    assert forall i :: 0 <= i < |front| ==> uris[i] == front[i];
  }

  lemma DistinctExtend(uris: seq<Uri>)
    requires |uris| > 0
    ensures var front, last := uris[..|uris| - 1], uris[|uris| - 1];
      DistinctKeys(uris) <==> DistinctKeys(front) && last.Key !in DeclaredKeys(front)
  {
    var front, last := uris[..|uris| - 1], uris[|uris| - 1];
    assert forall i :: 0 <= i < |front| ==> uris[i] == front[i];
    if DistinctKeys(front) && last.Key !in DeclaredKeys(front) {
      forall i, j | 0 <= i < j < |uris| ensures uris[i].Key != uris[j].Key {
        if j == |uris| - 1 { assert uris[i].Key in DeclaredKeys(front); }
      }
    }
    if DistinctKeys(uris) {
      assert last.Key !in DeclaredKeys(front) by {
        forall i | 0 <= i < |front| ensures front[i].Key != last.Key {
          assert uris[i].Key != uris[|uris| - 1].Key;
        }
      }
    }
  }

  /** Adding the last declaration to the map validated from the ones
      before it gives the map for the whole batch. */
  lemma AddSourceExtends(uris: seq<Uri>, m: map<string, Url>)
    requires |uris| > 0
    requires var front := uris[..|uris| - 1];
      && AllWellFormed(front) && DistinctKeys(front) && m.Keys == DeclaredKeys(front)
      && forall i :: 0 <= i < |front| ==> m[front[i].Key] == front[i].Val
    ensures var r := AddSource(m, uris[|uris| - 1]);
      && (r.Success? <==> AllWellFormed(uris) && DistinctKeys(uris))
      && (r.Success? ==> r.value.Keys == DeclaredKeys(uris))
      && (r.Success? ==> forall i :: 0 <= i < |uris| ==> r.value[uris[i].Key] == uris[i].Val)
  {
    var front, last := uris[..|uris| - 1], uris[|uris| - 1];
    DeclarationsExtend(uris);
    var r := AddSource(m, last);
    assert r.Success? <==> WellFormed(last) && last.Key !in m;
    if r.Success? {
      assert r.value == m[last.Key := last.Val];
      forall i | 0 <= i < |uris| ensures r.value[uris[i].Key] == uris[i].Val {
        if i < |front| {
          assert uris[i] == front[i];
          assert front[i].Key in DeclaredKeys(front);
        }
      }
    }
  }

  /** What a validation error says of the declaration u it was raised for,
      given the component names accepted before it: the name is empty; or
      the authority does not split into host and port, for the reason given;
      or it splits with the given non-empty host; or with neither host nor
      port; or u is well formed and its name was accepted already. */
  predicate Describes(e: ValidationError, accepted: set<string>, u: Uri)
  {
    match e
    case EmptyComponentName => u.Key == ""
    case BadAuthority(cause) => u.Key != "" && SplitHostPort(u.Val.Host) == Failure(cause)
    case HostNotEmpty(host) =>
      u.Key != "" && host != "" && SplitHostPort(u.Val.Host).Success? && SplitHostPort(u.Val.Host).value.0 == host
    case NoPort => u.Key != "" && SplitHostPort(u.Val.Host) == Success(("", ""))
    case DuplicateComponent(name) => WellFormed(u) && u.Key == name && name in accepted
  }

  /** A validation error raised for u after the declarations earlier. */
  predicate Explains(e: ValidationError, earlier: seq<Uri>, u: Uri)
  {
    Describes(e, DeclaredKeys(earlier), u)
  }

  /** Validation fails fast: the error it reports is raised by the first
      declaration that breaks a rule, and every declaration before it is
      well formed with distinct names. */
  lemma {:induction false} ValidateSourcesFirstError(uris: seq<Uri>)
    requires ValidateSources(uris).Failure?
    ensures exists j :: 0 <= j < |uris| && AllWellFormed(uris[..j]) && DistinctKeys(uris[..j])
                        && Explains(ValidateSources(uris).error, uris[..j], uris[j])
  {
    var n := |uris|;
    var front := uris[..n - 1];
    assert uris[..n - 1] == front;
    if ValidateSources(front).Failure? {
      ValidateSourcesFirstError(front);
      var j :| 0 <= j < |front| && AllWellFormed(front[..j]) && DistinctKeys(front[..j])
               && Explains(ValidateSources(front).error, front[..j], front[j]);
      assert front[..j] == uris[..j];
    } else {
      var m := ValidateSources(front).value;
      var last := uris[n - 1];
      assert ValidateSources(uris) == AddSource(m, last);
      assert m.Keys == DeclaredKeys(front);
    }
  }

  /** A port-only authority is ':' followed by a non-empty port segment
      that holds no ':' and no bracket. */
  lemma PortOnlyShape(authority: string)
    ensures PortOnly(authority) <==>
      |authority| >= 2 && authority[0] == ':' &&
      forall k :: 0 < k < |authority| ==> authority[k] != ':' && authority[k] != '[' && authority[k] != ']'
  {
    var a := authority;
    if |a| >= 2 && a[0] == ':' &&
       forall k :: 0 < k < |a| ==> a[k] != ':' && a[k] != '[' && a[k] != ']'
    {
      LastIndexIs(a, ':', 0);
      assert a[..0] == "";
    }
    if PortOnly(a) {
      var i := LastIndex(a, ':');
      assert i >= 0 && a[..i] == "";
      assert i == 0 && ':' !in a[1..] && '[' !in a && ']' !in a;
      forall k | 0 < k < |a|
        ensures a[k] != ':' && a[k] != '[' && a[k] != ']'
      {
        assert a[k] == a[1..][k - 1];
      }
    }
  }

  /** A colon followed by a port number is a port-only authority. */
  lemma PortOnlyOfDigits(digits: string)
    requires digits != "" && IsDigits(digits)
    ensures PortOnly(":" + digits)
  {
    assert "" + ":" + digits == ":" + digits;
    SplitHostPortOf("", digits);
  }

  /** One malformed declaration fails the whole batch, however many valid
      ones surround it. */
  lemma MalformedFailsBatch(uris: seq<Uri>, i: nat)
    requires i < |uris| && !WellFormed(uris[i])
    ensures ValidateSources(uris).Failure?
  {
    assert !AllWellFormed(uris);
  }

  /** A component name declared twice fails the batch, whether or not the
      two URLs are equal. */
  lemma DuplicateFailsBatch(uris: seq<Uri>, i: nat, j: nat)
    requires i < j < |uris| && uris[i].Key == uris[j].Key
    ensures ValidateSources(uris).Failure?
  {
    assert !DistinctKeys(uris);
  }

  // ---------------------------------------------------------------------
  // Mapping a source to its scrape target

  /** The whitelist a `whitelisted` query value names: its comma-separated
      parts in order, none when the value is empty or absent. */
  function Whitelist(value: string): (names: seq<string>)
    ensures forall i :: 0 <= i < |names| ==> ',' !in names[i]
    ensures Join(names, ',') == value
  {
    JoinSplit(value, ',');
    if value == "" then [] else Split(value, ',')
  }

  /** mapToSourceConfig: the scrape target for one component. The host is
      always the resolved address ip, never one written in the URL; the
      port is that of the URL's authority; the whitelist and the three label
      overrides come from the query; the pod identity is the caller's. It
      fails exactly when the authority names no port in 1..65535. */
  function MapToSourceConfig(component: string, u: Url, ip: string, podName: string, podNamespace: string)
    : (r: Result<SourceConfig, PortError>)
    ensures r.Success? <==> Port(u.Host) != "" && 1 <= DecimalValue(Port(u.Host)) <= MaxPort
    ensures r.Success? ==>
      && r.value.Component == component
      && r.value.Host == ip
      && r.value.Port == DecimalValue(Port(u.Host))
      && r.value.Path == DefaultMetricsPath
      && r.value.PodConfig.PodName == podName
      && r.value.PodConfig.PodNamespace == podNamespace
    ensures r.Success? ==> Join(r.value.Whitelisted, ',') == QueryGet(u, "whitelisted")
  {
    var port := ParsePort(Port(u.Host));
    if port.Failure? then Failure(port.error)
    else
      var podConfig := PodConfig(podName, podNamespace,
        QueryGet(u, "podIdLabel"), QueryGet(u, "namespaceIdLabel"), QueryGet(u, "containerNamelabel"));
      Success(SourceConfig(component, ip, port.value, DefaultMetricsPath,
        Whitelist(QueryGet(u, "whitelisted")), podConfig))
  }

  /** An authority ending in ":" and a port number maps to that port, and
      the host written before the ':' plays no part. */
  lemma MapToSourceConfigPort(component: string, host: string, p: nat, query: string,
                              ip: string, podName: string, podNamespace: string)
    requires 1 <= p <= MaxPort
    ensures var r := MapToSourceConfig(component, Url(host + ":" + Decimal(p), query), ip, podName, podNamespace);
      r.Success? && r.value.Port == p && r.value.Host == ip
  {
    PortAfterHost(host, Decimal(p));
    DecimalValueOfDecimal(p);
  }

  /** Two URLs that differ only in the host before the port map to the same
      target. */
  lemma MapToSourceConfigIgnoresUrlHost(component: string, host1: string, host2: string, digits: string,
                                        query: string, ip: string, podName: string, podNamespace: string)
    requires IsDigits(digits)
    ensures MapToSourceConfig(component, Url(host1 + ":" + digits, query), ip, podName, podNamespace)
         == MapToSourceConfig(component, Url(host2 + ":" + digits, query), ip, podName, podNamespace)
  {
    PortAfterHost(host1, digits);
    PortAfterHost(host2, digits);
  }

  /** The options in a query built from parameters: each label override
      is the first value given for its key ("" when none is given), and the
      whitelist joins back to the first `whitelisted` value. */
  lemma MapToSourceConfigOptions(component: string, host: string, params: seq<Param>,
                                 ip: string, podName: string, podNamespace: string)
    requires Encodable(params)
    requires MapToSourceConfig(component, Url(host, EncodeQuery(params)), ip, podName, podNamespace).Success?
    ensures var c := MapToSourceConfig(component, Url(host, EncodeQuery(params)), ip, podName, podNamespace).value;
      && c.PodConfig.PodIdLabel == Lookup(params, "podIdLabel")
      && c.PodConfig.NamespaceIdLabel == Lookup(params, "namespaceIdLabel")
      && c.PodConfig.ContainerNameLabel == Lookup(params, "containerNamelabel")
      && Join(c.Whitelisted, ',') == Lookup(params, "whitelisted")
  {
    ParseEncodeQuery(params);
  }

  /** A whitelist written as `whitelisted=m1,m2,...` comes back as the
      list m1, m2, ... in order, duplicates kept. */
  lemma MapToSourceConfigWhitelist(component: string, host: string, params: seq<Param>, names: seq<string>,
                                   ip: string, podName: string, podNamespace: string)
    requires Encodable(params)
    requires Lookup(params, "whitelisted") == Join(names, ',')
    requires forall i :: 0 <= i < |names| ==> ',' !in names[i]
    requires names != [""]
    requires MapToSourceConfig(component, Url(host, EncodeQuery(params)), ip, podName, podNamespace).Success?
    ensures MapToSourceConfig(component, Url(host, EncodeQuery(params)), ip, podName, podNamespace)
              .value.Whitelisted == names
  {
    ParseEncodeQuery(params);
    WhitelistOfJoin(names);
  }

  /** Splitting a join of comma-free names gives the names back. */
  lemma WhitelistOfJoin(names: seq<string>)
    requires forall i :: 0 <= i < |names| ==> ',' !in names[i]
    requires names != [""]
    ensures Whitelist(Join(names, ',')) == names
  {
    if |names| > 0 {
      var value := Join(names, ',');
      SplitJoin(names, ',');
      if |names| == 1 {
        assert names[0] != "";
      } else {
        assert value == names[0] + [','] + Join(names[1..], ',');
        assert value[|names[0]|] == ',';
      }
    }
  }

  /** Without a query the target has no whitelist and no label overrides. */
  lemma MapToSourceConfigNoQuery(component: string, host: string, ip: string, podName: string, podNamespace: string)
    requires MapToSourceConfig(component, Url(host, ""), ip, podName, podNamespace).Success?
    ensures var c := MapToSourceConfig(component, Url(host, ""), ip, podName, podNamespace).value;
      c.Whitelisted == [] && c.PodConfig == PodConfig(podName, podNamespace, "", "", "")
  {
    assert ParseQuery("") == [];
  }

  /** A validated declaration maps to a target exactly when its port
      segment is a decimal number in 1..65535. */
  lemma ValidatedSourceMaps(uris: seq<Uri>, component: string, ip: string, podName: string, podNamespace: string)
    requires ValidateSources(uris).Success?
    requires component in ValidateSources(uris).value
    ensures var u := ValidateSources(uris).value[component];
      var port := u.Host[1..];
      MapToSourceConfig(component, u, ip, podName, podNamespace).Success? <==>
        IsDigits(port) && 1 <= DecimalValue(port) <= MaxPort
  {
    var m := ValidateSources(uris).value;
    var i :| 0 <= i < |uris| && uris[i].Key == component;
    assert WellFormed(uris[i]);
    PortOfPortOnly(m[component].Host);
  }

  /** The port a port-only authority gives the mapper: its port segment
      when that is all digits, and none otherwise. */
  lemma PortOfPortOnly(a: string)
    requires PortOnly(a)
    ensures |a| >= 2 && Port(a) == if IsDigits(a[1..]) then a[1..] else ""
  {
    PortOnlyShape(a);
    LastIndexIs(a, ':', 0);
  }

  // ---------------------------------------------------------------------
  // The pod-selection query

  /** v1.ListOptions reduced to its two selectors. */
  datatype ListOptions = ListOptions(FieldSelector: string, LabelSelector: string)

  /** createOptionsForPodSelection: pods scheduled on nodeName whose
      component label is one of the declared component names, listed in
      ascending order, each followed by a comma. */
  function CreateOptionsForPodSelection(nodeName: string, sources: map<string, Url>): (r: ListOptions)
    ensures SelectedNode(r.FieldSelector) == Some(nodeName)
    ensures |r.LabelSelector| > |ComponentLabel + " in ("|
    ensures r.LabelSelector[..|ComponentLabel + " in ("|] == ComponentLabel + " in ("
    ensures r.LabelSelector[|r.LabelSelector| - 1] == ')'
  {
    var field := NodeNameField + "=" + nodeName;
    var prefix := ComponentLabel + " in (";
    var selector := prefix + JoinTerminated(SortedList(sources.Keys), ',') + ")";
    assert field[..|NodeNameField + "="|] == NodeNameField + "=";
    assert selector[..|prefix|] == prefix;
    ListOptions(field, selector)
  }

  /** The node a field selector of the form `spec.nodeName=<node>` names. */
  function SelectedNode(fieldSelector: string): Option<string>
  {
    var prefix := NodeNameField + "=";
    if |prefix| <= |fieldSelector| && fieldSelector[..|prefix|] == prefix
    then Some(fieldSelector[|prefix|..])
    else None
  }

  /** The names a label selector of the form `k8s-app in (n1,...,nk,)` lists. */
  function SelectedComponents(labelSelector: string): Option<seq<string>>
  {
    var prefix := ComponentLabel + " in (";
    if |prefix| + 1 <= |labelSelector| && labelSelector[..|prefix|] == prefix
       && labelSelector[|labelSelector| - 1] == ')'
    then
      var parts := Split(labelSelector[|prefix|..|labelSelector| - 1], ',');
      if parts[|parts| - 1] == "" then Some(parts[..|parts| - 1]) else None
    else None
  }

  /** When no component name holds a comma, the label selector lists the
      component names of the map, each once, in ascending order. */
  lemma LabelSelectorListsComponents(nodeName: string, sources: map<string, Url>)
    requires forall k :: k in sources ==> ',' !in k
    ensures var names := SelectedComponents(CreateOptionsForPodSelection(nodeName, sources).LabelSelector);
      && names.Some?
      && StrictlySorted(names.value)
      && |names.value| == |sources|
      && forall k :: k in names.value <==> k in sources
  {
    var sorted := SortedList(sources.Keys);
    var inner := JoinTerminated(sorted, ',');
    SelectedComponentsOf(inner);
    SplitJoinTerminated(sorted, ',');
    var parts := sorted + [""];
    assert parts[..|parts| - 1] == sorted;
  }

  /** Reading back the list between the parentheses of a label selector. */
  lemma SelectedComponentsOf(inner: string)
    ensures var parts := Split(inner, ',');
      SelectedComponents(ComponentLabel + " in (" + inner + ")")
        == if parts[|parts| - 1] == "" then Some(parts[..|parts| - 1]) else None
  {
    var prefix := ComponentLabel + " in (";
    var l := prefix + inner + ")";
    assert l[..|prefix|] == prefix;
    assert l[|prefix|..|l| - 1] == inner;
  }

  /** The label selector does not depend on the order the names are found
      in: any ascending listing of the map's names, each once, gives it. */
  lemma LabelSelectorOrderIndependent(nodeName: string, sources: map<string, Url>, listing: seq<string>)
    requires StrictlySorted(listing)
    requires forall k :: k in listing <==> k in sources
    ensures CreateOptionsForPodSelection(nodeName, sources).LabelSelector
         == ComponentLabel + " in (" + JoinTerminated(listing, ',') + ")"
  {
    SortedListUnique(listing, sources.Keys);
  }
}
