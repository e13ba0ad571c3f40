# prometheus-to-sd source resolver, modelled in Dafny

prometheus-to-sd scrapes Prometheus endpoints and forwards the metrics to
Stackdriver. Its `config` package turns the declared sources into scrape
targets. Each declaration is a component name and an endpoint URL. This
project models the three pure functions at the core of that package:

- **validateSources** (`DynamicSource.ValidateSources`) reads the
  declarations in order and stops at the first bad one. A declaration is bad
  when it has no component name, or its authority is not a bare `:port`
  (there is no port, or a host comes before the `:`), or its name was already
  declared. If all declarations are good, it returns the map from each name
  to its URL.
- **mapToSourceConfig** (`DynamicSource.MapToSourceConfig`) builds one
  scrape target from one declaration:
  - the host is the resolved address the caller supplies;
  - the port comes from the URL's authority;
  - the path is the default metrics path;
  - the whitelist is the comma-split `whitelisted` query value;
  - the label overrides come from the `podIdLabel`, `namespaceIdLabel` and
    `containerNamelabel` query values;
  - the pod name and namespace are the caller's.
- **createOptionsForPodSelection**
  (`DynamicSource.CreateOptionsForPodSelection`) builds the pod list query.
  Its field selector is `spec.nodeName=<node>`. Its label selector is
  `k8s-app in (n1,n2,...,)`, with the component names in ascending order and
  a comma after each name.

Modules:

| file | module | contents |
|---|---|---|
| `wrappers.dfy` | `Wrappers` | `Option` and `Result` |
| `strings.dfy` | `Strings` | Go's `strings.Split` and `strings.Join`, and the comma-terminated join, with their round-trip lemmas |
| `string_order.dfy` | `StringOrder` | lexicographic order on strings, the least element of a set, and the sorted listing of a set (`SortedList`) with its uniqueness lemma |
| `urls.dfy` | `Urls` | the parts of Go's `net` and `net/url` packages used here: `SplitHostPort`, `URL.Port`, decimal port parsing, and query parsing and `Get` |
| `dynamic_source.dfy` | `DynamicSource` | the three functions and the lemmas about them |
| `dynamic_source_tests.dfy` | `DynamicSourceTests` | every row of the package's test tables, stated and proved as a lemma about the model |

The model is written against the package's table-driven tests in
`prometheus-to-sd/config/dynamic_source_test.go`. The implementation file
`prometheus-to-sd/config/dynamic_source.go` is not modelled. Beyond the
input/output pairs the tests assert, the model makes these choices:

- A declaration's authority is checked the way Go's `net.SplitHostPort` splits host and port. The port is read the way `url.URL.Port` reads it. The query is read the way `url.ParseQuery` and `Values.Get` read it, without unescaping. The names are split the way `strings.Split` splits them. These are the model's choices: which library calls the implementation makes does not show in the tests.
- A port is a number in 1..65535, an authority without a port cannot be scraped, and the names in the selector are sorted.

Where the tests leave a case open, the model decides as follows:

- A declaration whose authority is `:` (an empty port) is rejected. `SplitHostPort` alone would accept it, but then the source would have no port to scrape.
- The mapper reads the port as `URL.Port()` does. That is the digits after the last `:`, or nothing when something other than digits follows. The mapper then fails unless those digits are a number in 1..65535.
- An empty or absent `whitelisted` value gives an empty whitelist. The kube-proxy row expects no whitelist when there is no query.
- Names are sorted by character code. For UTF-8 strings this is Go's byte order.

## Model

| member | source | states |
|---|---|---|
| DynamicSource.ValidateSources | prometheus-to-sd/config/dynamic_source_test.go:112-198 | succeeds exactly when every declaration has a non-empty name and a port-only authority and no name repeats; the resulting map's keys are exactly the declared names, and each name maps to its own URL, unmodified |
| DynamicSource.DeclarationsExtend | prometheus-to-sd/config/dynamic_source_test.go:147-160 | a batch is well formed exactly when its earlier declarations are and its last one is; its names are distinct exactly when the earlier names are and the last name is new |
| DynamicSource.AddSourceExtends | prometheus-to-sd/config/dynamic_source_test.go:161-171 | adding the last declaration to the map validated from the earlier ones gives the map for the whole batch, with the same success condition |
| DynamicSource.AddSource | prometheus-to-sd/config/dynamic_source_test.go:118-187 | one validation step succeeds exactly when the declaration is well formed and its name is new, and then adds exactly that pair; a failure describes the declaration: empty name, the reason its authority does not split, the non-empty host it names, an authority with neither host nor port, or a name accepted before |
| DynamicSource.ValidateSourcesFirstError | prometheus-to-sd/config/dynamic_source_test.go:147-160 | a failure is raised by the first bad declaration: every declaration before it is well formed with distinct names, and the error describes that declaration as one validation step does (the reason its authority does not split, the host it names, or the earlier declaration of its name) |
| DynamicSource.PortOnlyShape | prometheus-to-sd/config/dynamic_source_test.go:134 | an authority is port-only exactly when it is `:` followed by at least one character, with no further `:` and no bracket |
| DynamicSource.PortOnlyOfDigits | prometheus-to-sd/config/dynamic_source_test.go:134-137 | a `:` followed by a non-empty run of digits is a port-only authority |
| DynamicSource.MalformedFailsBatch | prometheus-to-sd/config/dynamic_source_test.go:147-160 | one malformed declaration fails the whole batch, wherever it stands |
| DynamicSource.DuplicateFailsBatch | prometheus-to-sd/config/dynamic_source_test.go:172-187 | a component name declared twice fails the batch, whether the two URLs differ or are equal |
| DynamicSource.Whitelist | prometheus-to-sd/config/dynamic_source_test.go:39-48 | the whitelist names hold no comma, and joining them with commas gives back the query value |
| DynamicSource.WhitelistOfJoin | prometheus-to-sd/config/dynamic_source_test.go:39-48 | a comma-joined list of comma-free names (other than the single empty name) splits back into exactly those names, in order |
| DynamicSource.MapToSourceConfig | prometheus-to-sd/config/dynamic_source_test.go:12-74 | succeeds exactly when the authority has a port in 1..65535; on success the component is the given name, the host is the supplied ip, the port is the authority's, the path is the default, the pod name and namespace are the caller's, and the whitelist joins back to the `whitelisted` query value |
| DynamicSource.MapToSourceConfigPort | prometheus-to-sd/config/dynamic_source_test.go:25-32 | an authority ending in `:` and the spelling of a port p maps to port p, with the supplied ip as host |
| DynamicSource.MapToSourceConfigIgnoresUrlHost | prometheus-to-sd/config/dynamic_source_test.go:40-45 | the host written in the URL plays no part: two URLs that differ only there map to the same result |
| DynamicSource.MapToSourceConfigOptions | prometheus-to-sd/config/dynamic_source_test.go:52-65 | for a query built from parameters, each label override is the first value given for its key, `""` when the key is absent, and the whitelist joins back to the first `whitelisted` value |
| DynamicSource.MapToSourceConfigWhitelist | prometheus-to-sd/config/dynamic_source_test.go:37-51 | `whitelisted=m1,...,mk` gives the whitelist m1, ..., mk in order, duplicates kept |
| DynamicSource.MapToSourceConfigNoQuery | prometheus-to-sd/config/dynamic_source_test.go:23-36 | without a query the whitelist is empty and the pod config has only the caller's name and namespace |
| DynamicSource.ValidatedSourceMaps | prometheus-to-sd/config/dynamic_source_test.go:132-140 | a validated declaration maps to a target exactly when its port segment is all digits and in 1..65535 |
| DynamicSource.PortOfPortOnly | prometheus-to-sd/config/dynamic_source_test.go:134 | the port the mapper reads from a port-only authority is its port segment when that is all digits, and none otherwise |
| DynamicSource.CreateOptionsForPodSelection | prometheus-to-sd/config/dynamic_source_test.go:76-110 | the field selector reads back as exactly the given node name, the empty name included; the label selector is `k8s-app in (` ... `)` |
| DynamicSource.LabelSelectorListsComponents | prometheus-to-sd/config/dynamic_source_test.go:83-104 | when no name holds a comma, the label selector reads back as a strictly ascending list of the map's names, each once |
| DynamicSource.SelectedComponentsOf | prometheus-to-sd/config/dynamic_source_test.go:87-102 | reading back a label selector gives its comma-terminated list between the parentheses |
| DynamicSource.LabelSelectorOrderIndependent | prometheus-to-sd/config/dynamic_source_test.go:98-104 | the label selector is that of any ascending listing of the map's names, so it does not depend on the order the map yields them |
| StringOrder.SortedList | prometheus-to-sd/config/dynamic_source_test.go:98-104 | the listing is strictly ascending and holds exactly the set's elements, each once |
| StringOrder.SortedListUnique | prometheus-to-sd/config/dynamic_source_test.go:98-104 | a strictly ascending sequence with the set's elements is the sorted listing of the set |
| Strings.SplitJoinTerminated | prometheus-to-sd/config/dynamic_source_test.go:94-102 | splitting a comma-terminated join of comma-free names gives the names and one empty tail |
| Strings.SplitJoin | prometheus-to-sd/config/dynamic_source_test.go:39-48 | splitting a join of separator-free parts gives back the parts |
| Strings.Split | prometheus-to-sd/config/dynamic_source_test.go:39-48 | there is at least one part, and no part holds the separator |
| Strings.JoinSplit | prometheus-to-sd/config/dynamic_source_test.go:39-48 | joining the parts of a split gives back the string |
| Urls.ParseEncodeQuery | prometheus-to-sd/config/dynamic_source_test.go:54 | parsing the query string built from `key=value` parameters, with no `&` anywhere and no `=` in a key, gives back the parameters in order |
| Urls.Lookup | prometheus-to-sd/config/dynamic_source_test.go:52-65 | the value is that of the first parameter with the key, and `""` when no parameter has the key |
| Urls.ParseQuery | prometheus-to-sd/config/dynamic_source_test.go:54 | no parsed parameter holds `&`, and no key holds `=` |
| Urls.SplitHostPort | prometheus-to-sd/config/dynamic_source_test.go:134-156 | the port is missing exactly when the authority has no `:`; on success neither host nor port holds `:`, and the authority holds no bracket |
| Urls.SplitHostPortParts | prometheus-to-sd/config/dynamic_source_test.go:134-156 | a split authority is its host, a `:` and its port |
| Urls.SplitHostPortOf | prometheus-to-sd/config/dynamic_source_test.go:134-156 | a colon-free, bracket-free host and port joined by `:` split back into that host and port |
| Urls.Port | prometheus-to-sd/config/dynamic_source_test.go:25-32 | the port is all digits, and when it is not empty it is what follows the authority's last `:` |
| Urls.PortAfterHost | prometheus-to-sd/config/dynamic_source_test.go:25 | the port of `host:digits` is the digits, whatever the host |
| Urls.ParsePort | prometheus-to-sd/config/dynamic_source_test.go:32 | the port text is accepted exactly when it is a non-empty number in 1..65535, and the value is that number |
| Urls.ParseDecimalPort | prometheus-to-sd/config/dynamic_source_test.go:32-46 | the spelling of a port number in 1..65535 parses back to that number |
| DynamicSourceTests.MapKubeProxy | prometheus-to-sd/config/dynamic_source_test.go:23-36 | `:8080` with no query gives port 8080, the supplied ip, the default path, no whitelist and no label overrides |
| DynamicSourceTests.MapFluentd | prometheus-to-sd/config/dynamic_source_test.go:37-51 | `:80?whitelisted=metric1,metric2` gives port 80, host `very_important_ip` and the whitelist metric1, metric2 |
| DynamicSourceTests.MapCadvisor | prometheus-to-sd/config/dynamic_source_test.go:52-65 | the four-parameter query gives the whitelist metric1, metric2 and the label overrides pod-id, namespace-id and container-name |
| DynamicSourceTests.SelectNoSources | prometheus-to-sd/config/dynamic_source_test.go:82-89 | no sources and node `node` give `spec.nodeName=node` and `k8s-app in ()` |
| DynamicSourceTests.SelectOneSourceNoNode | prometheus-to-sd/config/dynamic_source_test.go:90-96 | one source `key` and no node give `spec.nodeName=` and `k8s-app in (key,)` |
| DynamicSourceTests.SelectTwoSources | prometheus-to-sd/config/dynamic_source_test.go:97-104 | any map whose names are key1 and key2 gives `k8s-app in (key1,key2,)` |
| DynamicSourceTests.ValidateEmptyDeclarations | prometheus-to-sd/config/dynamic_source_test.go:118-131 | an empty declaration, and a named one without a URL, both fail |
| DynamicSourceTests.ValidateOneSource | prometheus-to-sd/config/dynamic_source_test.go:132-140 | `component-name` at `:80` validates to that one pair |
| DynamicSourceTests.ValidateHostNames | prometheus-to-sd/config/dynamic_source_test.go:141-160 | a host name or an IP before the port fails, alone or next to a valid declaration |
| DynamicSourceTests.ValidateTwoSources | prometheus-to-sd/config/dynamic_source_test.go:161-171 | two distinct names at `:80` and `:81` validate to both pairs |
| DynamicSourceTests.ValidateDuplicates | prometheus-to-sd/config/dynamic_source_test.go:172-187 | a repeated name fails with different and with identical URLs |

## Left out

- The implementation file `prometheus-to-sd/config/dynamic_source.go` is not part of this model. Which Go library calls it makes does not show in its tests, so the ones named above are the model's choices.
- `DynamicSource.ValidateSources`: the port segment is checked only for being present. A declaration such as `:abc` passes validation, and only the mapper then refuses it (`DynamicSource.ValidatedSourceMaps`). An implementation that validated with `url.URL.Port` would refuse it during validation instead.
- Real URL parsing: percent-decoding, `;` in queries, schemes, user information and bracketed IPv6 hosts. A URL is its authority and its raw query string. Query pieces are split on `&` and then at the first `=`, with no unescaping.
- `Urls.SplitHostPort`: models only the non-bracketed forms. Any `[` or `]` is an error, so the `[host]:port` forms that Go accepts are rejected here.
- `Urls.ParsePort`: accepts any number of digits, as an unbounded decimal value. It does not model the 64-bit overflow error of `strconv.ParseUint`, because any port above 65535 is refused either way.
- The value of the default metrics path is defined outside the test file. It is modelled as `/metrics`.
- The Kubernetes client, and `v1.ListOptions` beyond its two selector strings. The query is built, never issued.
- Parsing of the `flags.Uris` command-line flag. The declarations arrive already parsed, as a sequence.
- The driver that re-runs the resolver, the HTTP scraping and the Stackdriver upload. These are I/O and scheduling.
- `DynamicSource.LabelSelectorListsComponents`: requires that no component name contains a comma. Otherwise the selector cannot be read back unambiguously, even though it is still built.
- `DynamicSource.MapToSourceConfigWhitelist`: excludes the single empty name `[""]`. It joins to the empty value, which gives an empty whitelist.
