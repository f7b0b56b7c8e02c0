/**
 * Concrete cases: the table tests of `vmi_controller_test.go` and the worked
 * reconciliation scenarios, stated over the model.
 */
module Scenarios {
  import opened Optional
  import opened Text
  import opened Decimal
  import opened Annotations
  import opened Addresses
  import opened Records
  import opened Reconciler

  /** The info-source tokens used below are single trimmed tokens. */
  lemma {:induction false} TokenShapes()
    ensures CommaFree(MultusStatus) && IsTrimmed(MultusStatus)
    ensures CommaFree(GuestAgent) && IsTrimmed(GuestAgent)
    ensures CommaFree("domain") && IsTrimmed("domain")
    ensures CommaFree("") && IsTrimmed("")
  {
  }

  /** ... and pairwise different. */
  lemma {:induction false} TokenNames()
    ensures MultusStatus != GuestAgent && MultusStatus != "domain" && GuestAgent != "domain" && MultusStatus != ""
  {
  }

  /** A field holding one trimmed, comma-free token matches exactly that token. */
  lemma {:induction false} SingleToken(field: string, source: string)
    requires CommaFree(field) && IsTrimmed(field)
    ensures ContainsInfoSource(field, source) <==> field == source
  {
    SplitCommaFree(field);
    ContainsInfoSourceSpec(field, source);
    TrimTrimmed(field);
    assert field in Split(field);
  }

  /** Two trimmed, comma-free tokens joined by a comma. */
  lemma {:induction false} TwoTokens(first: string, second: string, source: string)
    requires CommaFree(first) && IsTrimmed(first) && CommaFree(second) && IsTrimmed(second)
    ensures ContainsInfoSource(first + "," + second, source) <==> first == source || second == source
  {
    ContainsInfoSourceJoin([first, second], source);
    assert Join([first, second]) == first + "," + Join([second]);
    TrimTrimmed(first);
    TrimTrimmed(second);
  }

  // The `containsMultusSource` table, read as tests for the multus-status token.

  lemma {:induction false} InfoSourceAlone()
    ensures ContainsInfoSource("multus-status", MultusStatus)
  {
    SingleToken("multus-status", MultusStatus);
  }

  lemma {:induction false} InfoSourceLast()
    ensures ContainsInfoSource("domain,multus-status", MultusStatus)
  {
    TwoTokens("domain", "multus-status", MultusStatus);
    assert "domain" + "," + "multus-status" == "domain,multus-status";
  }

  lemma {:induction false} InfoSourceFirst()
    ensures ContainsInfoSource("multus-status,guest-agent", MultusStatus)
  {
    TwoTokens("multus-status", "guest-agent", MultusStatus);
    assert "multus-status" + "," + "guest-agent" == "multus-status,guest-agent";
  }

  lemma {:induction false} InfoSourceOther()
    ensures !ContainsInfoSource("domain", MultusStatus)
    ensures !ContainsInfoSource("guest-agent", MultusStatus)
  {
    SingleToken("domain", MultusStatus);
    SingleToken("guest-agent", MultusStatus);
  }

  lemma {:induction false} InfoSourceEmpty()
    ensures !ContainsInfoSource("", MultusStatus)
  {
    SingleToken("", MultusStatus);
  }

  /** A prefix of the token is not the token: matching is exact, not by substring. */
  lemma {:induction false} InfoSourcePrefix()
    ensures !ContainsInfoSource("multus", MultusStatus)
  {
    SingleToken("multus", MultusStatus);
  }

  // The `parseHostnames` table.

  /** A valid hostname on its own parses to itself. */
  lemma {:induction false} OneHostname(h: string)
    requires ValidHostname(h)
    ensures ParseHostnames(h) == [h]
  {
    ParseHostnamesJoin([h]);
  }

  lemma {:induction false} HostnamesSingle()
    ensures ParseHostnames("foo.example.com") == ["foo.example.com"]
  {
    assert ValidHostname("foo.example.com");
    OneHostname("foo.example.com");
  }

  lemma {:induction false} HostnamesPair()
    ensures ParseHostnames("foo.example.com,bar.example.com") == ["foo.example.com", "bar.example.com"]
  {
    var foo := "foo.example.com";
    var bar := "bar.example.com";
    assert ValidHostname(foo) && ValidHostname(bar);
    ParseHostnamesJoin([foo, bar]);
    assert Join([foo, bar]) == foo + "," + bar;
    assert foo + "," + bar == "foo.example.com,bar.example.com";
  }

  /** A hostname padded with whitespace on both sides trims back to itself. */
  lemma {:induction false} TrimPadded(left: string, h: string, right: string)
    requires AllSpace(left) && AllSpace(right) && ValidHostname(h)
    ensures Trim(left + h + right) == h && CommaFree(left + h + right)
  {
    TrimUnique(left, h, right);
    var s := left + h + right;
    forall i | 0 <= i < |s|
      ensures s[i] != ','
    {
      if i < |left| {
        assert s[i] == left[i];
      } else if i < |left| + |h| {
        assert s[i] == h[i - |left|];
      } else {
        assert s[i] == right[i - |left| - |h|];
      }
    }
  }

  /** Two comma-separated pieces parse to their trimmed hostnames. */
  lemma {:induction false} TwoPieces(p0: string, p1: string, h0: string, h1: string)
    requires CommaFree(p0) && CommaFree(p1)
    requires Trim(p0) == h0 && Trim(p1) == h1 && h0 != "" && h1 != ""
    ensures ParseHostnames(p0 + "," + p1) == [h0, h1]
  {
    SplitJoin([p0, p1]);
    assert Join([p0, p1]) == p0 + "," + p1;
    assert [p0, p1][1..] == [p1];
    assert [p1][1..] == [];
    assert TrimmedNonEmpty([p1]) == [h1] + TrimmedNonEmpty([]);
    assert TrimmedNonEmpty([p0, p1]) == [h0] + TrimmedNonEmpty([p1]);
  }

  /** The padded test input, as pieces. */
  lemma {:induction false} PaddedInput()
    ensures ("  " + "foo.example.com" + " ") + "," + (" " + "bar.example.com" + "  ")
      == "  foo.example.com , bar.example.com  "
  {
    PaddedLeft();
    PaddedRight();
  }

  lemma {:induction false} PaddedLeft()
    ensures "  " + "foo.example.com" + " " == "  foo.example.com "
  {
  }

  lemma {:induction false} PaddedRight()
    ensures " " + "bar.example.com" + "  " == " bar.example.com  "
  {
  }

  lemma {:induction false} PaddedPieces()
    ensures AllSpace("  ") && AllSpace(" ")
    ensures ValidHostname("foo.example.com") && ValidHostname("bar.example.com")
  {
  }

  lemma {:induction false} HostnamesPadded()
    ensures ParseHostnames("  foo.example.com , bar.example.com  ") == ["foo.example.com", "bar.example.com"]
  {
    PaddedInput();
    PaddedPieces();
    var foo := "foo.example.com";
    var bar := "bar.example.com";
    TrimPadded("  ", foo, " ");
    TrimPadded(" ", bar, "  ");
    TwoPieces("  " + foo + " ", " " + bar + "  ", foo, bar);
  }

  lemma {:induction false} HostnamesEmpty()
    ensures ParseHostnames("") == []
  {
    ParseHostnamesBlank("");
  }

  // The `parseTTL` table.

  lemma {:induction false} TtlEmpty()
    ensures ParseTTL("") == 300
  {
  }

  lemma {:induction false} TtlDecimal()
    ensures ParseTTL("300") == 300
    ensures ParseTTL("60") == 60
  {
    assert FormatNat(300) == "300" by {
      assert FormatNat(30) == "30" by {
        assert FormatNat(3) == "3";
      }
    }
    ParseTTLDecimal("", 300, "");
    assert "" + "300" + "" == "300";
    assert FormatNat(60) == "60" by {
      assert FormatNat(6) == "6";
    }
    ParseTTLDecimal("", 60, "");
    assert "" + "60" + "" == "60";
  }

  /** Leading zeros are accepted, as `strconv.ParseInt` accepts them. */
  lemma {:induction false} TtlLeadingZeros()
    ensures ParseTTL("0060") == 60
  {
    TrimTrimmed("0060");
    assert AllDigits("0060");
    assert DecimalValue("0060") == 60 by {
      assert "0060"[..3] == "006" && "006"[..2] == "00" && "00"[..1] == "0" && "0"[..0] == "";
    }
  }

  lemma {:induction false} TtlNotANumber()
    ensures ParseTTL("abc") == 300
  {
    TrimTrimmed("abc");
  }

  lemma {:induction false} TtlNegative()
    ensures ParseTTL("-1") == 300
  {
    TrimTrimmed("-1");
    assert "-1"[1..] == "1";
    assert DecimalValue("1") == 1 by {
      assert "1"[..0] == "";
    }
  }

  lemma {:induction false} TtlZero()
    ensures ParseTTL("0") == 300
  {
    TrimTrimmed("0");
    assert DecimalValue("0") == 0 by {
      assert "0"[..0] == "";
    }
  }

  // The `buildEndpoints` tests.

  lemma {:induction false} EndpointsBothFamilies()
    ensures BuildEndpoints(["vm.example.com"], ["192.168.1.1"], ["2001:db8::1"], 300)
      == [Endpoint("vm.example.com", A, ["192.168.1.1"], 300),
          Endpoint("vm.example.com", AAAA, ["2001:db8::1"], 300)]
  {
    assert ["vm.example.com"][..0] == [];
  }

  lemma {:induction false} EndpointsOnlyV4()
    ensures BuildEndpoints(["vm.example.com"], ["10.0.0.1"], [], DefaultTTL)
      == [Endpoint("vm.example.com", A, ["10.0.0.1"], 300)]
  {
    assert ["vm.example.com"][..0] == [];
  }

  lemma {:induction false} EndpointsOnlyV6()
    ensures BuildEndpoints(["vm.example.com"], [], ["::1"], DefaultTTL)
      == [Endpoint("vm.example.com", AAAA, ["::1"], 300)]
  {
    assert ["vm.example.com"][..0] == [];
  }

  lemma {:induction false} EndpointsTwoHosts()
    ensures BuildEndpoints(["vm.example.com", "vm2.example.com"], ["10.0.0.1"], [], DefaultTTL)
      == [Endpoint("vm.example.com", A, ["10.0.0.1"], 300),
          Endpoint("vm2.example.com", A, ["10.0.0.1"], 300)]
  {
    var two := ["vm.example.com", "vm2.example.com"];
    assert two[..1] == ["vm.example.com"];
    assert two[..1][..0] == [];
  }

  lemma {:induction false} EndpointsTtl()
    ensures BuildEndpoints(["vm.example.com"], ["1.2.3.4"], [], 120) == [Endpoint("vm.example.com", A, ["1.2.3.4"], 120)]
  {
    EndpointsOneHost("vm.example.com", ["1.2.3.4"], [], 120);
  }

  /** A classifier that agrees with `net.ParseIP` on the literals used below. */
  predicate KnowsExamples(classify: string -> IpClass) {
    && classify("192.168.1.1") == V4
    && classify("2001:db8::1") == V6Other
    && classify("fe80::1") == V6LinkLocal
  }

  /** A trimmed, non-blank address contributes according to its class alone. */
  lemma {:induction false} ContributionOfTrimmed(a: string, classify: string -> IpClass, dropLinkLocal: bool)
    requires IsTrimmed(a) && a != ""
    ensures classify(a) == V4 ==> Contribution(a, classify, dropLinkLocal) == Addrs([a], [])
    ensures classify(a) == V6Other ==> Contribution(a, classify, dropLinkLocal) == Addrs([], [a])
    ensures classify(a) == V6LinkLocal ==>
      Contribution(a, classify, dropLinkLocal) == (if dropLinkLocal then NoAddrs else Addrs([], [a]))
    ensures classify(a) == Invalid ==> Contribution(a, classify, dropLinkLocal) == NoAddrs
  {
    TrimTrimmed(a);
  }

  /** The guest agent's three addresses: the link-local one is dropped. */
  lemma {:induction false} GuestAgentAddresses(classify: string -> IpClass)
    requires KnowsExamples(classify)
    ensures FromIPs(["192.168.1.1", "2001:db8::1", "fe80::1"], classify) == Addrs(["192.168.1.1"], ["2001:db8::1"])
  {
    var ips := ["192.168.1.1", "2001:db8::1", "fe80::1"];
    ContributionOfTrimmed("192.168.1.1", classify, true);
    ContributionOfTrimmed("2001:db8::1", classify, true);
    ContributionOfTrimmed("fe80::1", classify, true);
    assert ips[..2] == ["192.168.1.1", "2001:db8::1"];
    assert ips[..2][..1] == ["192.168.1.1"];
    assert ips[..2][..1][..0] == [];
    assert FromIPs(ips[..2][..1], classify) == Addrs(["192.168.1.1"], []);
    assert FromIPs(ips[..2], classify) == Addrs(["192.168.1.1"], ["2001:db8::1"]);
  }

  /** One tagged interface contributes exactly its `IPs` list. */
  lemma {:induction false} GuestAgentOneInterface(iface: Interface, classify: string -> IpClass)
    requires Tagged(iface, GuestAgent)
    ensures GuestAgentIPs([iface], classify) == FromIPs(iface.ips, classify)
  {
    assert [iface][..0] == [];
  }

  /** A single hostname yields that host's records. */
  lemma {:induction false} EndpointsOneHost(h: string, ipv4: seq<string>, ipv6: seq<string>, ttl: int)
    ensures BuildEndpoints([h], ipv4, ipv6, ttl) == HostRecords(h, ipv4, ipv6, ttl)
  {
    assert [h][..0] == [];
  }

  /** The annotations of the worked example: one hostname, no TTL. */
  lemma {:induction false} ExampleAnnotations(vmi: Vmi)
    requires vmi.annotations == map[HostnameKey := "vm.example.com"]
    ensures HasHostnames(vmi)
    ensures ParseHostnames(Trim(AnnotationOf(vmi, HostnameKey))) == ["vm.example.com"]
    ensures ParseTTL(AnnotationOf(vmi, TtlKey)) == 300
  {
    assert ValidHostname("vm.example.com");
    TrimTrimmed("vm.example.com");
    OneHostname("vm.example.com");
    KeysDiffer();
  }

  /** The record set of the worked example. */
  lemma {:induction false} DesiredForExample(vmi: Vmi, sel: Selection)
    requires vmi.annotations == map[HostnameKey := "vm.example.com"]
    requires sel.addrs == Addrs(["192.168.1.1"], ["2001:db8::1"])
    ensures Desired(vmi, sel) == DNSEndpoint(vmi.namespace, vmi.name,
      [Endpoint("vm.example.com", A, ["192.168.1.1"], 300),
       Endpoint("vm.example.com", AAAA, ["2001:db8::1"], 300)], OwnerOf(vmi))
  {
    ExampleAnnotations(vmi);
    EndpointsOneHost("vm.example.com", ["192.168.1.1"], ["2001:db8::1"], 300);
  }

  /** The guest agent's interface wins the selection, without its link-local address. */
  lemma {:induction false} GuestAgentSelection(iface: Interface, classify: string -> IpClass)
    requires KnowsExamples(classify)
    requires iface.infoSource == GuestAgent && iface.ips == ["192.168.1.1", "2001:db8::1", "fe80::1"]
    ensures BestIPs([iface], classify) == Selection(Addrs(["192.168.1.1"], ["2001:db8::1"]), GuestAgent)
  {
    TokenShapes();
    TaggedBySingleToken(iface, GuestAgent);
    GuestAgentOneInterface(iface, classify);
    GuestAgentAddresses(classify);
  }

  /**
   * A guest-agent interface reporting 192.168.1.1, 2001:db8::1 and fe80::1:
   * the link-local address is dropped, and the record set is one A and one
   * AAAA record with the default TTL.
   */
  lemma {:induction false} GuestAgentScenario(classify: string -> IpClass, vmi: Vmi)
    requires KnowsExamples(classify)
    requires vmi.annotations == map[HostnameKey := "vm.example.com"]
    requires vmi.interfaces == [Interface("eth0", "", GuestAgent, "192.168.1.1", ["192.168.1.1", "2001:db8::1", "fe80::1"])]
    ensures BestIPs(vmi.interfaces, classify) == Selection(Addrs(["192.168.1.1"], ["2001:db8::1"]), GuestAgent)
    ensures Reconcile(VmiFound(vmi), Absent, None, classify) == Outcome(Upsert(DNSEndpoint(vmi.namespace, vmi.name,
      [Endpoint("vm.example.com", A, ["192.168.1.1"], 300),
       Endpoint("vm.example.com", AAAA, ["2001:db8::1"], 300)], OwnerOf(vmi))), None)
  {
    GuestAgentSelection(vmi.interfaces[0], classify);
    assert vmi.interfaces == [vmi.interfaces[0]];
    var sel := BestIPs(vmi.interfaces, classify);
    ExampleAnnotations(vmi);
    DesiredForExample(vmi, sel);
  }

  /** Hostname present, no interfaces reported yet: no write and no error. */
  lemma {:induction false} NoInterfacesYet(vmi: Vmi, existing: EndpointLookup, writeErr: Option<ApiError>, classify: string -> IpClass)
    requires HasHostnames(vmi) && vmi.interfaces == []
    ensures Reconcile(VmiFound(vmi), existing, writeErr, classify) == Outcome(NoOp, None)
  {
  }

  /** An interface whose `InfoSource` is one trimmed token is tagged by exactly that token. */
  lemma {:induction false} TaggedBySingleToken(iface: Interface, source: string)
    requires CommaFree(iface.infoSource) && IsTrimmed(iface.infoSource)
    ensures Tagged(iface, source) <==> iface.infoSource == source
  {
    SingleToken(iface.infoSource, source);
  }

  /** The tags of the multus-status test interfaces. */
  lemma {:induction false} MultusTestTags(i0: Interface, i1: Interface, i2: Interface, i3: Interface)
    requires i0.infoSource == "multus-status" && i1.infoSource == "domain"
    requires i2.infoSource == "multus-status" && i3.infoSource == "multus-status"
    ensures Tagged(i0, MultusStatus) && !Tagged(i1, MultusStatus)
    ensures Tagged(i2, MultusStatus) && Tagged(i3, MultusStatus)
  {
    TokenShapes();
    TokenNames();
    TaggedBySingleToken(i0, MultusStatus);
    TaggedBySingleToken(i1, MultusStatus);
    TaggedBySingleToken(i2, MultusStatus);
    TaggedBySingleToken(i3, MultusStatus);
  }

  /** Four interfaces, read one at a time. */
  lemma {:induction false} MultusOfFour(i0: Interface, i1: Interface, i2: Interface, i3: Interface, classify: string -> IpClass)
    ensures MultusIPs([i0, i1, i2, i3], classify)
      == MultusIPs([i0], classify).Append(MultusIPs([i1], classify))
           .Append(MultusIPs([i2], classify)).Append(MultusIPs([i3], classify))
  {
    MultusAppend([i0, i1, i2], [i3], classify);
    assert [i0, i1, i2] + [i3] == [i0, i1, i2, i3];
    MultusAppend([i0, i1], [i2], classify);
    assert [i0, i1] + [i2] == [i0, i1, i2];
    MultusAppend([i0], [i1], classify);
    assert [i0] + [i1] == [i0, i1];
  }

  /** One interface: its tag decides, then its `IP` contributes. */
  lemma {:induction false} MultusOfOne(iface: Interface, classify: string -> IpClass)
    ensures MultusIPs([iface], classify)
      == if Tagged(iface, MultusStatus) then Contribution(iface.ip, classify, false) else NoAddrs
  {
    assert [iface][..0] == [];
  }

  /** The addresses of the multus-status test interfaces. */
  lemma {:induction false} MultusTestAddresses(classify: string -> IpClass)
    requires classify("192.168.1.10") == V4 && classify("2001:db8::1") == V6Other
    ensures Contribution("192.168.1.10", classify, false) == Addrs(["192.168.1.10"], [])
    ensures Contribution("2001:db8::1", classify, false) == Addrs([], ["2001:db8::1"])
    ensures Contribution("", classify, false) == NoAddrs
  {
    ContributionOfTrimmed("192.168.1.10", classify, false);
    ContributionOfTrimmed("2001:db8::1", classify, false);
    TrimTrimmed("");
  }

  /**
   * The multus-status tests: only tagged interfaces count, one address each
   * from `IP`, blanks skipped, and IPv4/IPv6 split by family.
   */
  lemma {:induction false} MultusScenario(i0: Interface, i1: Interface, i2: Interface, i3: Interface, classify: string -> IpClass)
    requires i0 == Interface("", "", "multus-status", "192.168.1.10", [])
    requires i1 == Interface("", "", "domain", "10.0.0.5", [])
    requires i2 == Interface("", "", "multus-status", "2001:db8::1", [])
    requires i3 == Interface("", "", "multus-status", "", [])
    requires classify("192.168.1.10") == V4 && classify("2001:db8::1") == V6Other
    ensures MultusIPs([i0, i1, i2, i3], classify) == Addrs(["192.168.1.10"], ["2001:db8::1"])
  {
    MultusTestTags(i0, i1, i2, i3);
    MultusTestAddresses(classify);
    MultusOfOne(i0, classify);
    MultusOfOne(i1, classify);
    MultusOfOne(i2, classify);
    MultusOfOne(i3, classify);
    MultusOfFour(i0, i1, i2, i3, classify);
  }

  /** Interfaces not tagged multus-status contribute nothing, whatever their `IP`. */
  lemma {:induction false} MultusNoneTagged(i0: Interface, i1: Interface, classify: string -> IpClass)
    requires i0.infoSource == "domain" && i1.infoSource == "guest-agent"
    ensures MultusIPs([i0, i1], classify) == NoAddrs
  {
    OtherTags(i0, i1);
    MultusUntagged([i0, i1], classify);
  }

  lemma {:induction false} OtherTags(i0: Interface, i1: Interface)
    requires i0.infoSource == "domain" && i1.infoSource == "guest-agent"
    ensures !Tagged(i0, MultusStatus) && !Tagged(i1, MultusStatus)
  {
    TokenShapes();
    TokenNames();
    TaggedBySingleToken(i0, MultusStatus);
    TaggedBySingleToken(i1, MultusStatus);
  }

  /** An interface listing several sources, multus-status among them, is read. */
  lemma {:induction false} MultusCommaSeparated(iface: Interface, classify: string -> IpClass)
    requires iface.infoSource == "domain,multus-status" && iface.ip == "10.10.10.10"
    requires classify("10.10.10.10") == V4
    ensures MultusIPs([iface], classify) == Addrs(["10.10.10.10"], [])
  {
    InfoSourceLast();
    ContributionOfTrimmed("10.10.10.10", classify, false);
    MultusOfOne(iface, classify);
  }
}
