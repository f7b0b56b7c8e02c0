# external-dns-kubevirt controller, modelled in Dafny

This project models the reconciliation core of the external-dns-kubevirt
controller. The controller watches KubeVirt VirtualMachineInstances (VMIs).
It reads the `external-dns.alpha.kubernetes.io/hostname` and
`external-dns.alpha.kubernetes.io/ttl` annotations, plus the interface
reports in the VMI status. From them it maintains one external-dns
`DNSEndpoint` object per VMI: the same name and namespace, and the VMI as
controlling owner.

The modules follow the controller's structure:

- `Text`: `strings.TrimSpace` over ASCII whitespace, and `strings.Split(s, ",")` with its inverse `Join`.
- `Decimal`: `strconv.ParseInt(s, 10, 64)`, with a decimal formatter as its inverse.
- `Annotations`: the annotation keys, `parseHostnames` and `parseTTL`.
- `Addresses`: info-source token matching, guest-agent and multus-status address extraction, and winner-take-all source selection. IP parsing is an abstract classifier `classify: string -> IpClass` (Invalid, V4, V6LinkLocal, V6Other), passed as a parameter.
- `Records`: `buildEndpoints`, the A/AAAA record declarations.
- `Reconciler`: one `Reconcile` pass as a total decision function. The API answers are inputs: the VMI fetch, the read of the DNSEndpoint with the VMI's name (issued by `deleteEndpointIfExists` on the delete path and by `CreateOrUpdate` before it writes), and the error of the one write issued. The output is the write (no-op, delete or create/update) and the returned error.
- `ChangeFilter`: `vmiChangedPredicate`, which decides which watch events reach `Reconcile`.
- `Scenarios`: the table tests of `vmi_controller_test.go` and worked examples, stated as lemmas over the model.

Sources are cited relative to the repository root. All `vmi_controller*.go`
paths are under `internal/controller/`.

## Model

| member | source | states |
|---|---|---|
| Text.TrimSpec | internal/controller/vmi_controller.go:77 | `TrimSpace` returns a string with no leading or trailing whitespace, obtained by cutting a whitespace-only prefix and suffix from its input |
| Text.TrimUnique | internal/controller/vmi_controller.go:77 | whatever whitespace pads a trimmed string, trimming gives that string back |
| Text.TrimIdempotent | internal/controller/vmi_controller.go:160 | trimming twice equals trimming once |
| Text.TrimAllSpace | internal/controller/vmi_controller.go:77-78 | a whitespace-only string trims to "" (so a blank annotation counts as absent) |
| Text.TrimCommaFree | internal/controller/vmi_controller.go:216-217 | trimming a piece without commas leaves it without commas |
| Text.SplitCommaFreePieces | internal/controller/vmi_controller.go:205 | no piece of a comma split contains a comma |
| Text.SplitCommaFree | internal/controller/vmi_controller.go:205 | a string without commas splits into itself alone (so "" splits into [""]) |
| Text.SplitCons | internal/controller/vmi_controller.go:205 | splitting `p,rest` gives `p` followed by the split of `rest` |
| Text.SplitJoin | internal/controller/vmi_controller.go:205 | splitting the comma-join of at least one comma-free piece gives back the pieces |
| Text.JoinSplit | internal/controller/vmi_controller.go:216 | re-joining the pieces of a split with commas gives back the original string |
| Decimal.FormatNat | internal/controller/vmi_controller.go:231 | decimal formatting yields a non-empty digit string whose value is the number |
| Decimal.ParseInt64 | internal/controller/vmi_controller.go:231 | the parse succeeds exactly for an optional sign followed by one or more digits whose value is in int64 range; the result is the decimal value of those digits, negated after `-`, and lies in int64 range |
| Decimal.ParseFormatInt | internal/controller/vmi_controller.go:231 | parsing the decimal form of any int64 returns that number |
| Decimal.ParsePlusFormatNat | internal/controller/vmi_controller.go:231 | an explicit leading `+` is accepted |
| Annotations.KeysDiffer | internal/controller/vmi_controller.go:27-31 | the hostname and TTL annotation keys are different keys |
| Annotations.ParseHostnamesSpec | internal/controller/vmi_controller.go:214-223 | every parsed hostname is non-empty, trimmed and comma-free, and a name is returned iff some comma-separated piece trims to it |
| Annotations.TrimmedNonEmptyMembers | internal/controller/vmi_controller.go:216-220 | the trim-and-drop-empty loop keeps exactly the non-empty trimmed pieces |
| Annotations.TrimmedNonEmptyOfValid | internal/controller/vmi_controller.go:216-220 | on already valid names the loop returns its input unchanged, order included |
| Annotations.ParseHostnamesJoin | internal/controller/vmi_controller.go:214-223 | parsing the comma-join of trimmed, non-empty, comma-free names returns exactly those names in order (the empty list included) |
| Annotations.ParseHostnamesBlank | internal/controller/vmi_controller.go:214-223 | input made only of commas and whitespace, "" included, parses to no hostnames |
| Annotations.ParseTTL | internal/controller/vmi_controller.go:227-236 | the TTL is always positive and within int64; it is 300 or the parsed value, and any positive parsed value is returned unchanged |
| Annotations.ParseTTLDecimal | internal/controller/vmi_controller.go:227-236 | a positive int64 in decimal, with any surrounding whitespace, is the TTL itself, with no upper bound below int64 |
| Annotations.ParseTTLNotPositive | internal/controller/vmi_controller.go:232-233 | a parse error, zero or a negative value gives the default 300 |
| Addresses.ContainsInfoSourceSpec | internal/controller/vmi_controller.go:204-211 | a source is listed iff some comma-separated piece of the field, trimmed, equals it exactly |
| Addresses.ContainsInfoSourceJoin | internal/controller/vmi_controller.go:204-211 | for a field written as comma-joined tokens, the test is membership among the trimmed tokens |
| Addresses.FromIPsMembers | internal/controller/vmi_controller.go:159-172 | an address is kept from an `IPs` list iff it is the non-empty trimmed form of an entry and classifies as IPv4, or as IPv6 other than link-local |
| Addresses.GuestAgentMembers | internal/controller/vmi_controller.go:154-176 | guest-agent output holds exactly the trimmed non-empty `IPs` entries of guest-agent tagged interfaces, split by family, with IPv6 link-local dropped |
| Addresses.GuestAgentWellFormed | internal/controller/vmi_controller.go:160-171 | every guest-agent address is trimmed and non-empty; IPv4 outputs classify V4 and IPv6 outputs classify V6Other, never link-local |
| Addresses.GuestAgentUntagged | internal/controller/vmi_controller.go:156-158 | interfaces without the guest-agent token contribute nothing |
| Addresses.GuestAgentAppend | internal/controller/vmi_controller.go:155 | extraction distributes over concatenated interface lists (interface order is kept) |
| Addresses.ExtractGuestAgentIPs | internal/controller/vmi_controller.go:154-176 | the nested Go loops compute exactly the guest-agent address lists |
| Addresses.AppendIPs | internal/controller/vmi_controller.go:159-173 | the inner loop appends exactly one interface's kept `IPs`, in order |
| Addresses.MultusMembers | internal/controller/vmi_controller.go:180-200 | multus output holds exactly the trimmed non-empty `IP` fields of multus-status tagged interfaces; IPv6 link-local is kept |
| Addresses.MultusWellFormed | internal/controller/vmi_controller.go:185-196 | every multus address is trimmed and non-empty, IPv4 outputs classify V4, IPv6 outputs classify as some IPv6 |
| Addresses.MultusOnePerInterface | internal/controller/vmi_controller.go:180-200 | multus extraction yields at most one address per tagged interface |
| Addresses.MultusUntagged | internal/controller/vmi_controller.go:182-184 | interfaces without the multus-status token contribute nothing |
| Addresses.MultusAppend | internal/controller/vmi_controller.go:181 | extraction distributes over concatenated interface lists |
| Addresses.ExtractMultusIPs | internal/controller/vmi_controller.go:180-200 | the Go loop computes exactly the multus address lists |
| Addresses.BestIPs | internal/controller/vmi_controller.go:139-149 | guest-agent wins iff it yields any address; otherwise multus-status, when it yields any; otherwise empty lists tagged "" |
| Addresses.FirstResolved | internal/controller/vmi_controller.go:139-149 | the fallback chain returns the first candidate that resolved any address; when none did, it returns empty lists tagged "" |
| Addresses.BestIPsIsChain | internal/controller/vmi_controller.go:139-149 | selection is the first-resolved chain guest-agent, then multus-status |
| Addresses.BestIPsNoMix | internal/controller/vmi_controller.go:139-149 | the selected addresses never mix the two sources |
| Records.HostRecords | internal/controller/vmi_controller.go:242-257 | each hostname yields one record per non-empty address family |
| Records.BuildEndpointsWellFormed | internal/controller/vmi_controller.go:239-260 | every record names one of the hostnames, has non-empty targets, carries the TTL; A targets are the IPv4 list and AAAA targets the IPv6 list |
| Records.BuildEndpointsCount | internal/controller/vmi_controller.go:239-260 | the record count is the number of hostnames times the number of non-empty address families |
| Records.BuildEndpointsLayout | internal/controller/vmi_controller.go:241-258 | records are hostname-major: the i-th hostname's records form the i-th block |
| Records.BuildEndpointsBoth | internal/controller/vmi_controller.go:242-257 | with both families present, record 2i is hostname i's A record and 2i+1 its AAAA record |
| Records.BuildEndpointsSingleFamily | internal/controller/vmi_controller.go:242-257 | with one family present, record i belongs to hostname i |
| Records.BuildEndpointsNoAddresses | internal/controller/vmi_controller.go:242-257 | with no addresses nothing is declared |
| Reconciler.DeleteIfExists | internal/controller/vmi_controller.go:120-130 | a delete is issued iff the endpoint exists; NotFound is success; another lookup error is returned; the delete's own error is returned |
| Reconciler.Reconcile | internal/controller/vmi_controller.go:63-117 | a VMI that is gone gives nothing; another fetch error is returned; a delete happens iff the trimmed annotation is missing or blank and the endpoint exists; with the annotation present and no address resolved the pass does nothing and returns no error; a failed DNSEndpoint read, on the delete path or inside `CreateOrUpdate`, is returned and nothing is written; an upsert happens iff hostnames are present, some source resolved addresses and that read did not fail, and it writes the VMI's name, namespace and owner with the built records; write errors are returned unchanged |
| Reconciler.UpsertWellFormed | internal/controller/vmi_controller.go:93-110 | every published record has a valid hostname, non-empty targets from the winning source, and a positive int64 TTL |
| Reconciler.NamelessAnnotationUpsertsEmpty | internal/controller/vmi_controller.go:76-110 | an annotation "," is not blank, so with addresses present (and the DNSEndpoint read succeeding) the pass upserts an empty record list instead of deleting |
| Reconciler.ReconcileIdempotent | internal/controller/vmi_controller.go:63-117 | once one successful pass has been applied, a second pass over the same VMI costs no write and returns no error |
| Reconciler.RemovedAnnotationDeletesOnce | internal/controller/vmi_controller.go:75-81 | without the annotation the first pass deletes the endpoint, and the next pass does nothing |
| ChangeFilter.ShouldReconcile | internal/controller/vmi_controller.go:266-280 | an event is dropped only if it is an update between two VMIs; such an update passes iff the raw hostname annotation (absent reads as "") or the interface list changed |
| ChangeFilter.TtlOnlyChangeDropped | internal/controller/vmi_controller.go:273-275 | an update that only sets the TTL annotation is dropped |
| ChangeFilter.DroppedUpdateIsIrrelevant | internal/controller/vmi_controller.go:266-280 | when the TTL, name, namespace and uid are also unchanged, a dropped update would have led to exactly the same decision |
| ChangeFilter.TtlChangeIsNotPublished | internal/controller/vmi_controller.go:93 | a TTL-only change alters the object a pass would publish (when the DNSEndpoint read succeeds), yet the filter drops it |
| Scenarios.InfoSourceAlone | internal/controller/vmi_controller_test.go:96 | "multus-status" lists multus-status |
| Scenarios.InfoSourceLast | internal/controller/vmi_controller_test.go:97 | "domain,multus-status" lists multus-status |
| Scenarios.InfoSourceFirst | internal/controller/vmi_controller_test.go:98 | "multus-status,guest-agent" lists multus-status |
| Scenarios.InfoSourceOther | internal/controller/vmi_controller_test.go:99-100 | "domain" and "guest-agent" do not list multus-status |
| Scenarios.InfoSourceEmpty | internal/controller/vmi_controller_test.go:101 | "" does not list multus-status |
| Scenarios.InfoSourcePrefix | internal/controller/vmi_controller_test.go:102 | "multus" does not list multus-status: the match is exact |
| Scenarios.HostnamesSingle | internal/controller/vmi_controller_test.go:119 | one hostname parses to itself |
| Scenarios.HostnamesPair | internal/controller/vmi_controller_test.go:120 | two comma-separated hostnames parse in order |
| Scenarios.HostnamesPadded | internal/controller/vmi_controller_test.go:121 | whitespace around the pieces is trimmed away |
| Scenarios.HostnamesEmpty | internal/controller/vmi_controller_test.go:122 | "" parses to no hostnames |
| Scenarios.TtlEmpty | internal/controller/vmi_controller_test.go:145 | "" gives the default 300 |
| Scenarios.TtlDecimal | internal/controller/vmi_controller_test.go:146-147 | "300" and "60" are taken as given |
| Scenarios.TtlLeadingZeros | internal/controller/vmi_controller.go:231-235 | "0060" is read as 60: the parse takes the digits' decimal value, leading zeros included |
| Scenarios.TtlNotANumber | internal/controller/vmi_controller_test.go:148 | "abc" gives the default |
| Scenarios.TtlNegative | internal/controller/vmi_controller_test.go:149 | "-1" gives the default |
| Scenarios.TtlZero | internal/controller/vmi_controller_test.go:150 | "0" gives the default |
| Scenarios.EndpointsBothFamilies | internal/controller/vmi_controller_test.go:162-188 | one hostname with both families gives an A record then an AAAA record |
| Scenarios.EndpointsOnlyV4 | internal/controller/vmi_controller_test.go:190-198 | IPv4 only gives one A record |
| Scenarios.EndpointsOnlyV6 | internal/controller/vmi_controller_test.go:200-208 | IPv6 only gives one AAAA record |
| Scenarios.EndpointsTwoHosts | internal/controller/vmi_controller_test.go:210-224 | two hostnames give one A record each, in hostname order |
| Scenarios.EndpointsTtl | internal/controller/vmi_controller_test.go:226-234 | the records carry the TTL given |
| Scenarios.MultusNoneTagged | internal/controller/vmi_controller_test.go:21-31 | interfaces tagged domain or guest-agent yield no multus addresses |
| Scenarios.MultusScenario | internal/controller/vmi_controller_test.go:61-76 | in the mixed test, only tagged interfaces count, a blank `IP` is skipped, and the families are split |
| Scenarios.MultusCommaSeparated | internal/controller/vmi_controller_test.go:78-87 | an interface tagged "domain,multus-status" is read |
| Scenarios.GuestAgentScenario | internal/controller/vmi_controller.go:139-176 | a guest-agent interface reporting 192.168.1.1, 2001:db8::1 and fe80::1 wins the selection without the link-local address, and a pass upserts one A and one AAAA record with TTL 300 |
| Scenarios.NoInterfacesYet | internal/controller/vmi_controller.go:86-90 | with the annotation present but no interfaces reported, a pass writes nothing and returns no error |

## Left out

- `cmd/main.go` is not part of this model. It holds flag parsing, logger and manager setup, leader election, health probes and the CRD discovery check, all of which are I/O against the cluster.
- `AddDNSEndpointToScheme` and `SetupWithManager` are process-wide scheme registration and controller-runtime wiring; they hold no decision logic.
- The Kubernetes client is not modelled. That covers the internals of `controllerutil.CreateOrUpdate` and `SetControllerReference`, and ownership-based garbage collection. Of `CreateOrUpdate` the model keeps only what reaches `Reconcile`: a failed read of the existing object is returned with no write, and any later failure (setting the owner reference, the create or the update) is the single write error. Their answers are parameters of `Reconciler.Reconcile`, and `SetControllerReference` is represented by the owner reference it writes.
- `net.ParseIP`, `To4`, `To16` and `IsLinkLocalUnicast` are library code. They are represented by the classifier parameter. Which strings parse, and that IPv4-mapped IPv6 text counts as IPv4, are the classifier's business. IPv4 link-local addresses (169.254/16) classify as V4, so the guest-agent extraction keeps them, as the Go code does.
- `strings.TrimSpace` also strips Unicode white space (for example U+0085 and U+00A0). The model trims only the ASCII set: space, tab, newline, vertical tab, form feed and carriage return.
- Reconciler.ReconcileIdempotent: rests on an assumption about the API collaborator: `CreateOrUpdate` writes nothing when the stored object equals the desired one (`Reconciler.Apply`). That behaviour lives outside the repository and is not verified.
- ChangeFilter.ShouldReconcile: compares interface lists with sequence equality. `reflect.DeepEqual` also tells a nil slice from an empty one, and it compares interface fields the model does not carry. The model keeps `Name`, `MAC`, `InfoSource`, `IP` and `IPs`, but not fields such as `InterfaceName`, `QueueCount`, `LinkState` or `PodInterfaceName`. So the model can drop an update that the real filter passes, when only those fields change or when nil becomes an empty list.
- Logging, the returned `ctrl.Result`, requeueing, and the workqueue's concurrency and per-key serialisation are not modelled.
- `vmi_controller_test.go` calls `containsMultusSource`, which the controller no longer defines. Its table is read as `containsInfoSource(s, "multus-status")`, which is what the current code does.
- TTLs are unbounded integers whose range is established from the int64 parse; the `TTL` type itself is not modelled separately.
