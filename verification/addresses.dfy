/**
 * Address extraction from a VirtualMachineInstance's reported interfaces, and
 * the winner-take-all choice between the two reporting sources.
 *
 * IP literal parsing (`net.ParseIP`, `To4`, `IsLinkLocalUnicast`) is not
 * modelled: every operation takes a classifier that says, for a trimmed
 * string, whether it is no address, an IPv4 address (link-local included),
 * an IPv6 link-local address (fe80::/10) or any other IPv6 address.
 */
module Addresses {
  import opened Text

  /** infoSource token of the QEMU guest agent: the full `IPs` list is read. */
  const GuestAgent: string := "guest-agent"
  /** infoSource token of multus-status: only the single `IP` field is read. */
  const MultusStatus: string := "multus-status"

  datatype IpClass = Invalid | V4 | V6LinkLocal | V6Other

  /** One entry of `status.interfaces`. */
  datatype Interface = Interface(
    name: string,
    mac: string,
    infoSource: string,
    ip: string,
    ips: seq<string>)

  /** The IPv4 and IPv6 address lists an extraction returns. */
  datatype Addrs = Addrs(v4: seq<string>, v6: seq<string>) {
    predicate IsEmpty() {
      |v4| == 0 && |v6| == 0
    }

    function Append(other: Addrs): Addrs {
      Addrs(v4 + other.v4, v6 + other.v6)
    }
  }

  const NoAddrs: Addrs := Addrs([], [])

  lemma {:induction false} AppendAssoc(a: Addrs, b: Addrs, c: Addrs)
    ensures a.Append(b).Append(c) == a.Append(b.Append(c))
  {
    assert (a.v4 + b.v4) + c.v4 == a.v4 + (b.v4 + c.v4);
    assert (a.v6 + b.v6) + c.v6 == a.v6 + (b.v6 + c.v6);
  }

  // ------------------------------------------------------------ info source

  /** Some piece, once trimmed, is exactly `source`. */
  function AnyTokenIs(parts: seq<string>, source: string): bool
    decreases |parts|
  {
    if |parts| == 0 then false
    else Trim(parts[0]) == source || AnyTokenIs(parts[1..], source)
  }

  /** `containsInfoSource`: exact match of one comma-separated, trimmed token. */
  function ContainsInfoSource(infoSource: string, source: string): bool {
    AnyTokenIs(Split(infoSource), source)
  }

  lemma {:induction false} AnyTokenIsSpec(parts: seq<string>, source: string)
    ensures AnyTokenIs(parts, source) <==> exists p :: p in parts && Trim(p) == source
    decreases |parts|
  {
    if |parts| > 0 {
      AnyTokenIsSpec(parts[1..], source);
      assert parts == [parts[0]] + parts[1..];
      assert forall p :: p in parts <==> p == parts[0] || p in parts[1..];
    }
  }

  /** The source token is found exactly when some comma-separated piece trims to it. */
  lemma {:induction false} ContainsInfoSourceSpec(infoSource: string, source: string)
    ensures ContainsInfoSource(infoSource, source) <==> exists p :: p in Split(infoSource) && Trim(p) == source
  {
    AnyTokenIsSpec(Split(infoSource), source);
  }

  /** For a field written as comma-joined tokens, the test is membership among the trimmed tokens. */
  lemma {:induction false} ContainsInfoSourceJoin(tokens: seq<string>, source: string)
    requires |tokens| >= 1
    requires forall t :: t in tokens ==> CommaFree(t)
    ensures ContainsInfoSource(Join(tokens), source) <==> exists t :: t in tokens && Trim(t) == source
  {
    SplitJoin(tokens);
    ContainsInfoSourceSpec(Join(tokens), source);
  }

  predicate Tagged(iface: Interface, source: string) {
    ContainsInfoSource(iface.infoSource, source)
  }

  // ------------------------------------------------------------- extraction

  /**
   * What one raw address string adds: nothing when it trims to empty or does
   * not parse; otherwise the trimmed text, in the list of its family. An IPv6
   * link-local address is dropped only when `dropLinkLocal` holds.
   */
  function Contribution(raw: string, classify: string -> IpClass, dropLinkLocal: bool): Addrs {
    var a := Trim(raw);
    if a == "" then NoAddrs
    else
      match classify(a)
      case Invalid => NoAddrs
      case V4 => Addrs([a], [])
      case V6LinkLocal => if dropLinkLocal then NoAddrs else Addrs([], [a])
      case V6Other => Addrs([], [a])
  }

  /** The guest-agent reading of one interface's `IPs` list, in list order. */
  function FromIPs(ips: seq<string>, classify: string -> IpClass): Addrs
    decreases |ips|
  {
    if |ips| == 0 then NoAddrs
    else FromIPs(ips[..|ips| - 1], classify).Append(Contribution(ips[|ips| - 1], classify, true))
  }

  /** `extractGuestAgentIPs`: the `IPs` lists of guest-agent interfaces, interface by interface. */
  function GuestAgentIPs(ifaces: seq<Interface>, classify: string -> IpClass): Addrs
    decreases |ifaces|
  {
    if |ifaces| == 0 then NoAddrs
    else
      var last := ifaces[|ifaces| - 1];
      GuestAgentIPs(ifaces[..|ifaces| - 1], classify)
        .Append(if Tagged(last, GuestAgent) then FromIPs(last.ips, classify) else NoAddrs)
  }

  /** `extractMultusIPs`: the single `IP` field of each multus-status interface. */
  function MultusIPs(ifaces: seq<Interface>, classify: string -> IpClass): Addrs
    decreases |ifaces|
  {
    if |ifaces| == 0 then NoAddrs
    else
      var last := ifaces[|ifaces| - 1];
      MultusIPs(ifaces[..|ifaces| - 1], classify)
        .Append(if Tagged(last, MultusStatus) then Contribution(last.ip, classify, false) else NoAddrs)
  }

  /** Number of interfaces carrying the `source` token. */
  function CountTagged(ifaces: seq<Interface>, source: string): nat
    decreases |ifaces|
  {
    if |ifaces| == 0 then 0
    else CountTagged(ifaces[..|ifaces| - 1], source) + (if Tagged(ifaces[|ifaces| - 1], source) then 1 else 0)
  }

  // ------------------------------------------------- membership characterisation

  /** Some `source`-tagged interface lists `a` (after trimming) in its `IPs`. */
  predicate ListedBy(ifaces: seq<Interface>, source: string, a: string) {
    exists iface :: iface in ifaces && Tagged(iface, source) && exists raw :: raw in iface.ips && Trim(raw) == a
  }

  /** Some `source`-tagged interface has `a` (after trimming) as its `IP`. */
  predicate PrimaryOf(ifaces: seq<Interface>, source: string, a: string) {
    exists iface :: iface in ifaces && Tagged(iface, source) && Trim(iface.ip) == a
  }

  lemma {:induction false} FromIPsMembers(ips: seq<string>, classify: string -> IpClass)
    ensures forall a :: a in FromIPs(ips, classify).v4 <==>
      a != "" && classify(a) == V4 && exists raw :: raw in ips && Trim(raw) == a
    ensures forall a :: a in FromIPs(ips, classify).v6 <==>
      a != "" && classify(a) == V6Other && exists raw :: raw in ips && Trim(raw) == a
    decreases |ips|
  {
    if |ips| > 0 {
      var init := ips[..|ips| - 1];
      var lastRaw := ips[|ips| - 1];
      FromIPsMembers(init, classify);
      assert ips == init + [lastRaw];
      assert forall raw :: raw in ips <==> raw in init || raw == lastRaw;
    }
  }

  /**
   * Guest-agent extraction keeps exactly the trimmed, non-empty entries of
   * tagged interfaces' `IPs` that are IPv4, or IPv6 outside fe80::/10.
   */
  lemma {:induction false} GuestAgentMembers(ifaces: seq<Interface>, classify: string -> IpClass)
    ensures forall a :: a in GuestAgentIPs(ifaces, classify).v4 <==>
      a != "" && classify(a) == V4 && ListedBy(ifaces, GuestAgent, a)
    ensures forall a :: a in GuestAgentIPs(ifaces, classify).v6 <==>
      a != "" && classify(a) == V6Other && ListedBy(ifaces, GuestAgent, a)
    decreases |ifaces|
  {
    if |ifaces| > 0 {
      var init := ifaces[..|ifaces| - 1];
      var last := ifaces[|ifaces| - 1];
      GuestAgentMembers(init, classify);
      FromIPsMembers(last.ips, classify);
      assert ifaces == init + [last];
      assert forall iface :: iface in ifaces <==> iface in init || iface == last;
    }
  }

  /**
   * Multus extraction keeps exactly the trimmed, non-empty `IP` fields of
   * tagged interfaces that parse, IPv6 link-local included.
   */
  lemma {:induction false} MultusMembers(ifaces: seq<Interface>, classify: string -> IpClass)
    ensures forall a :: a in MultusIPs(ifaces, classify).v4 <==>
      a != "" && classify(a) == V4 && PrimaryOf(ifaces, MultusStatus, a)
    ensures forall a :: a in MultusIPs(ifaces, classify).v6 <==>
      a != "" && (classify(a) == V6LinkLocal || classify(a) == V6Other) && PrimaryOf(ifaces, MultusStatus, a)
    decreases |ifaces|
  {
    if |ifaces| > 0 {
      var init := ifaces[..|ifaces| - 1];
      var last := ifaces[|ifaces| - 1];
      MultusMembers(init, classify);
      assert ifaces == init + [last];
      assert forall iface :: iface in ifaces <==> iface in init || iface == last;
    }
  }

  /**
   * Every guest-agent address is trimmed, non-empty and valid, and none is
   * IPv6 link-local (fe80::/10); IPv4 link-local is kept.
   */
  lemma {:induction false} GuestAgentWellFormed(ifaces: seq<Interface>, classify: string -> IpClass)
    ensures var r := GuestAgentIPs(ifaces, classify);
      (forall a :: a in r.v4 ==> a != "" && IsTrimmed(a) && classify(a) == V4) &&
      (forall a :: a in r.v6 ==> a != "" && IsTrimmed(a) && classify(a) == V6Other)
  {
    GuestAgentMembers(ifaces, classify);
    var r := GuestAgentIPs(ifaces, classify);
    forall a | a in r.v4 + r.v6
      ensures IsTrimmed(a)
    {
      var iface, raw :| iface in ifaces && raw in iface.ips && Trim(raw) == a;
      TrimSpec(raw);
    }
  }

  /** Every multus-status address is trimmed, non-empty and valid; IPv6 link-local is kept. */
  lemma {:induction false} MultusWellFormed(ifaces: seq<Interface>, classify: string -> IpClass)
    ensures var r := MultusIPs(ifaces, classify);
      (forall a :: a in r.v4 ==> a != "" && IsTrimmed(a) && classify(a) == V4) &&
      (forall a :: a in r.v6 ==> a != "" && IsTrimmed(a) && classify(a) != V4 && classify(a) != Invalid)
  {
    MultusMembers(ifaces, classify);
    var r := MultusIPs(ifaces, classify);
    forall a | a in r.v4 + r.v6
      ensures IsTrimmed(a)
    {
      var iface :| iface in ifaces && Trim(iface.ip) == a;
      TrimSpec(iface.ip);
    }
  }

  /** Each multus-status interface adds at most one address. */
  lemma {:induction false} MultusOnePerInterface(ifaces: seq<Interface>, classify: string -> IpClass)
    ensures |MultusIPs(ifaces, classify).v4| + |MultusIPs(ifaces, classify).v6| <= CountTagged(ifaces, MultusStatus)
    decreases |ifaces|
  {
    if |ifaces| > 0 {
      MultusOnePerInterface(ifaces[..|ifaces| - 1], classify);
    }
  }

  /** Interfaces without the multus-status token contribute nothing to multus extraction. */
  lemma {:induction false} MultusUntagged(ifaces: seq<Interface>, classify: string -> IpClass)
    requires forall iface :: iface in ifaces ==> !Tagged(iface, MultusStatus)
    ensures MultusIPs(ifaces, classify) == NoAddrs
    decreases |ifaces|
  {
    if |ifaces| > 0 {
      var init := ifaces[..|ifaces| - 1];
      assert forall iface :: iface in init ==> iface in ifaces;
      assert ifaces[|ifaces| - 1] in ifaces;
      MultusUntagged(init, classify);
    }
  }

  /** Interfaces without the guest-agent token contribute nothing to guest-agent extraction. */
  lemma {:induction false} GuestAgentUntagged(ifaces: seq<Interface>, classify: string -> IpClass)
    requires forall iface :: iface in ifaces ==> !Tagged(iface, GuestAgent)
    ensures GuestAgentIPs(ifaces, classify) == NoAddrs
    decreases |ifaces|
  {
    if |ifaces| > 0 {
      var init := ifaces[..|ifaces| - 1];
      assert forall iface :: iface in init ==> iface in ifaces;
      assert ifaces[|ifaces| - 1] in ifaces;
      GuestAgentUntagged(init, classify);
    }
  }

  /** Output order follows interface order: extraction distributes over concatenation. */
  lemma {:induction false} GuestAgentAppend(xs: seq<Interface>, ys: seq<Interface>, classify: string -> IpClass)
    ensures GuestAgentIPs(xs + ys, classify) == GuestAgentIPs(xs, classify).Append(GuestAgentIPs(ys, classify))
    decreases |ys|
  {
    if |ys| == 0 {
      assert xs + ys == xs;
    } else {
      var init := ys[..|ys| - 1];
      var last := ys[|ys| - 1];
      GuestAgentAppend(xs, init, classify);
      assert (xs + ys)[..|xs + ys| - 1] == xs + init;
      assert (xs + ys)[|xs + ys| - 1] == last;
      AppendAssoc(GuestAgentIPs(xs, classify), GuestAgentIPs(init, classify),
                  if Tagged(last, GuestAgent) then FromIPs(last.ips, classify) else NoAddrs);
    }
  }

  /** The same for multus-status extraction. */
  lemma {:induction false} MultusAppend(xs: seq<Interface>, ys: seq<Interface>, classify: string -> IpClass)
    ensures MultusIPs(xs + ys, classify) == MultusIPs(xs, classify).Append(MultusIPs(ys, classify))
    decreases |ys|
  {
    if |ys| == 0 {
      assert xs + ys == xs;
    } else {
      var init := ys[..|ys| - 1];
      var last := ys[|ys| - 1];
      MultusAppend(xs, init, classify);
      assert (xs + ys)[..|xs + ys| - 1] == xs + init;
      assert (xs + ys)[|xs + ys| - 1] == last;
      AppendAssoc(MultusIPs(xs, classify), MultusIPs(init, classify),
                  if Tagged(last, MultusStatus) then Contribution(last.ip, classify, false) else NoAddrs);
    }
  }

  // ---------------------------------------------------- the Go loops, as written

  /** The nested loops of `extractGuestAgentIPs`, appending as they go. */
  method ExtractGuestAgentIPs(ifaces: seq<Interface>, classify: string -> IpClass)
    returns (ipv4: seq<string>, ipv6: seq<string>)
    ensures Addrs(ipv4, ipv6) == GuestAgentIPs(ifaces, classify)
  {
    ipv4, ipv6 := [], [];
    var i := 0;
    while i < |ifaces|
      invariant 0 <= i <= |ifaces|
      invariant Addrs(ipv4, ipv6) == GuestAgentIPs(ifaces[..i], classify)
    {
      var iface := ifaces[i];
      assert ifaces[..i + 1][..i] == ifaces[..i];
      if ContainsInfoSource(iface.infoSource, GuestAgent) {
        ipv4, ipv6 := AppendIPs(ipv4, ipv6, iface.ips, classify);
      }
      i := i + 1;
    }
    assert ifaces[..i] == ifaces;
  }

  /** The inner loop of `extractGuestAgentIPs`: append one interface's `IPs`. */
  method AppendIPs(ipv4: seq<string>, ipv6: seq<string>, ips: seq<string>, classify: string -> IpClass)
    returns (v4: seq<string>, v6: seq<string>)
    ensures Addrs(v4, v6) == Addrs(ipv4, ipv6).Append(FromIPs(ips, classify))
  {
    v4, v6 := ipv4, ipv6;
    var j := 0;
    while j < |ips|
      invariant 0 <= j <= |ips|
      invariant Addrs(v4, v6) == Addrs(ipv4, ipv6).Append(FromIPs(ips[..j], classify))
    {
      assert ips[..j + 1][..j] == ips[..j];
      AppendAssoc(Addrs(ipv4, ipv6), FromIPs(ips[..j], classify), Contribution(ips[j], classify, true));
      var addr := Trim(ips[j]);
      if addr != "" {
        match classify(addr)
        case Invalid =>
        case V4 => v4 := v4 + [addr];
        case V6LinkLocal =>
        case V6Other => v6 := v6 + [addr];
      }
      j := j + 1;
    }
    assert ips[..j] == ips;
  }

  method ExtractMultusIPs(ifaces: seq<Interface>, classify: string -> IpClass)
    returns (ipv4: seq<string>, ipv6: seq<string>)
    ensures Addrs(ipv4, ipv6) == MultusIPs(ifaces, classify)
  {
    ipv4, ipv6 := [], [];
    var i := 0;
    while i < |ifaces|
      invariant 0 <= i <= |ifaces|
      invariant Addrs(ipv4, ipv6) == MultusIPs(ifaces[..i], classify)
    {
      var iface := ifaces[i];
      assert ifaces[..i + 1][..i] == ifaces[..i];
      if ContainsInfoSource(iface.infoSource, MultusStatus) {
        var addr := Trim(iface.ip);
        if addr != "" {
          match classify(addr)
          case Invalid =>
          case V4 => ipv4 := ipv4 + [addr];
          case V6LinkLocal => ipv6 := ipv6 + [addr];
          case V6Other => ipv6 := ipv6 + [addr];
        }
      }
      i := i + 1;
    }
    assert ifaces[..i] == ifaces;
  }

  // -------------------------------------------------------- source selection

  /** The addresses the controller will publish, and the source they came from. */
  datatype Selection = Selection(addrs: Addrs, source: string)

  /**
   * `extractBestIPs`: guest-agent wins whenever it yields any address;
   * otherwise multus-status when it yields any; otherwise nothing, tagged "".
   */
  function BestIPs(ifaces: seq<Interface>, classify: string -> IpClass): (r: Selection)
    ensures r.source == GuestAgent || r.source == MultusStatus || r.source == ""
    ensures r.source == GuestAgent <==> !GuestAgentIPs(ifaces, classify).IsEmpty()
    ensures r.source == GuestAgent ==> r.addrs == GuestAgentIPs(ifaces, classify)
    ensures r.source == MultusStatus ==> r.addrs == MultusIPs(ifaces, classify)
    ensures r.addrs.IsEmpty() <==> r.source == ""
    ensures r.addrs.IsEmpty() <==> GuestAgentIPs(ifaces, classify).IsEmpty() && MultusIPs(ifaces, classify).IsEmpty()
  {
    var ga := GuestAgentIPs(ifaces, classify);
    if !ga.IsEmpty() then Selection(ga, GuestAgent)
    else
      var m := MultusIPs(ifaces, classify);
      if !m.IsEmpty() then Selection(m, MultusStatus)
      else Selection(NoAddrs, "")
  }

  /**
   * Strategy-chain reading of the same policy: the first candidate with any
   * address wins, and an exhausted chain resolves to nothing.
   */
  function FirstResolved(candidates: seq<Selection>): (r: Selection)
    ensures r == Selection(NoAddrs, "") || r in candidates
    ensures !r.addrs.IsEmpty() ==> r in candidates
    // the winner is the first candidate that resolved addresses ...
    ensures forall i :: (0 <= i < |candidates| && !candidates[i].addrs.IsEmpty()
                         && (forall j :: 0 <= j < i ==> candidates[j].addrs.IsEmpty())) ==> r == candidates[i]
    // ... and when none did, the result is empty and untagged
    ensures (forall i :: 0 <= i < |candidates| ==> candidates[i].addrs.IsEmpty()) ==> r == Selection(NoAddrs, "")
    decreases |candidates|
  {
    if |candidates| == 0 then Selection(NoAddrs, "")
    else if !candidates[0].addrs.IsEmpty() then candidates[0]
    else FirstResolved(candidates[1..])
  }

  /** The nested conditionals of `extractBestIPs` are the two-strategy chain. */
  lemma {:induction false} BestIPsIsChain(ifaces: seq<Interface>, classify: string -> IpClass)
    ensures BestIPs(ifaces, classify) == FirstResolved([
      Selection(GuestAgentIPs(ifaces, classify), GuestAgent),
      Selection(MultusIPs(ifaces, classify), MultusStatus)])
  {
    var chain := [
      Selection(GuestAgentIPs(ifaces, classify), GuestAgent),
      Selection(MultusIPs(ifaces, classify), MultusStatus)];
    assert chain[1..][1..] == [];
  }

  /**
   * No blending: every published address comes from the winning source, and
   * multus-status addresses are published only when guest-agent has none.
   */
  lemma {:induction false} BestIPsNoMix(ifaces: seq<Interface>, classify: string -> IpClass)
    ensures var r := BestIPs(ifaces, classify);
      (forall a :: a in r.addrs.v4 + r.addrs.v6 ==>
         a in GuestAgentIPs(ifaces, classify).v4 + GuestAgentIPs(ifaces, classify).v6)
      || (GuestAgentIPs(ifaces, classify).IsEmpty()
          && forall a :: a in r.addrs.v4 + r.addrs.v6 ==>
               a in MultusIPs(ifaces, classify).v4 + MultusIPs(ifaces, classify).v6)
  {
  }
}
