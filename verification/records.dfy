/**
 * The DNS record declarations the controller publishes: one A record and/or
 * one AAAA record per hostname, hostname-major.
 */
module Records {

  datatype RecordType = A | AAAA

  /** One entry of a DNSEndpoint's `spec.endpoints`. */
  datatype Endpoint = Endpoint(dnsName: string, recordType: RecordType, targets: seq<string>, ttl: int)

  /** Records emitted per hostname: one per non-empty address family. */
  function PerHost(ipv4: seq<string>, ipv6: seq<string>): nat {
    (if |ipv4| > 0 then 1 else 0) + (if |ipv6| > 0 then 1 else 0)
  }

  /** The records of one hostname: A first, then AAAA, each only with targets. */
  function HostRecords(h: string, ipv4: seq<string>, ipv6: seq<string>, ttl: int): (r: seq<Endpoint>)
    ensures |r| == PerHost(ipv4, ipv6)
  {
    (if |ipv4| > 0 then [Endpoint(h, A, ipv4, ttl)] else [])
      + (if |ipv6| > 0 then [Endpoint(h, AAAA, ipv6, ttl)] else [])
  }

  /** `buildEndpoints`. */
  function BuildEndpoints(hostnames: seq<string>, ipv4: seq<string>, ipv6: seq<string>, ttl: int): seq<Endpoint>
    decreases |hostnames|
  {
    if |hostnames| == 0 then []
    else
      BuildEndpoints(hostnames[..|hostnames| - 1], ipv4, ipv6, ttl)
        + HostRecords(hostnames[|hostnames| - 1], ipv4, ipv6, ttl)
  }

  /** A well-formed declaration for these inputs. */
  predicate Declares(e: Endpoint, hostnames: seq<string>, ipv4: seq<string>, ipv6: seq<string>, ttl: int) {
    && |e.targets| > 0
    && e.ttl == ttl
    && e.dnsName in hostnames
    && (e.recordType == A ==> e.targets == ipv4)
    && (e.recordType == AAAA ==> e.targets == ipv6)
  }

  /**
   * No declaration has an empty target list; A records carry the IPv4 list,
   * AAAA records the IPv6 list, and every record carries the given TTL.
   */
  lemma {:induction false} BuildEndpointsWellFormed(hostnames: seq<string>, ipv4: seq<string>, ipv6: seq<string>, ttl: int)
    ensures forall e :: e in BuildEndpoints(hostnames, ipv4, ipv6, ttl) ==> Declares(e, hostnames, ipv4, ipv6, ttl)
    decreases |hostnames|
  {
    if |hostnames| > 0 {
      var init := hostnames[..|hostnames| - 1];
      BuildEndpointsWellFormed(init, ipv4, ipv6, ttl);
      assert forall h :: h in init ==> h in hostnames;
      assert hostnames[|hostnames| - 1] in hostnames;
    }
  }

  /** There are |hostnames| × ([ipv4 ≠ ∅] + [ipv6 ≠ ∅]) declarations. */
  lemma {:induction false} BuildEndpointsCount(hostnames: seq<string>, ipv4: seq<string>, ipv6: seq<string>, ttl: int)
    ensures |BuildEndpoints(hostnames, ipv4, ipv6, ttl)| == |hostnames| * PerHost(ipv4, ipv6)
    decreases |hostnames|
  {
    if |hostnames| > 0 {
      BuildEndpointsCount(hostnames[..|hostnames| - 1], ipv4, ipv6, ttl);
      assert |hostnames| * PerHost(ipv4, ipv6) == (|hostnames| - 1) * PerHost(ipv4, ipv6) + PerHost(ipv4, ipv6);
    }
  }

  lemma {:induction false} MulStep(i: nat, n: nat, k: nat)
    requires i < n
    ensures i * k + k <= n * k
    decreases n - i
  {
    if i + 1 < n {
      MulStep(i + 1, n, k);
      assert (i + 1) * k == i * k + k;
    } else {
      assert n * k == i * k + k;
    }
  }

  /**
   * Hostname-major layout: the i-th hostname's records sit in the i-th block
   * of PerHost entries, A before AAAA.
   */
  lemma {:induction false} BuildEndpointsLayout(hostnames: seq<string>, ipv4: seq<string>, ipv6: seq<string>, ttl: int, i: nat)
    requires i < |hostnames|
    ensures var k := PerHost(ipv4, ipv6);
      var r := BuildEndpoints(hostnames, ipv4, ipv6, ttl);
      i * k + k <= |r| && r[i * k .. i * k + k] == HostRecords(hostnames[i], ipv4, ipv6, ttl)
    decreases |hostnames|
  {
    var k := PerHost(ipv4, ipv6);
    var n := |hostnames|;
    var init := hostnames[..n - 1];
    var r := BuildEndpoints(hostnames, ipv4, ipv6, ttl);
    var front := BuildEndpoints(init, ipv4, ipv6, ttl);
    BuildEndpointsCount(init, ipv4, ipv6, ttl);
    assert r == front + HostRecords(hostnames[n - 1], ipv4, ipv6, ttl);
    if i == n - 1 {
      assert r[i * k .. i * k + k] == r[|front|..];
    } else {
      BuildEndpointsLayout(init, ipv4, ipv6, ttl, i);
      MulStep(i, n - 1, k);
      assert r[i * k .. i * k + k] == front[i * k .. i * k + k];
    }
  }

  /** Concrete shape of the blocks: A then AAAA per hostname when both families are present. */
  lemma {:induction false} BuildEndpointsBoth(hostnames: seq<string>, ipv4: seq<string>, ipv6: seq<string>, ttl: int, i: nat)
    requires i < |hostnames| && |ipv4| > 0 && |ipv6| > 0
    ensures var r := BuildEndpoints(hostnames, ipv4, ipv6, ttl);
      2 * i + 1 < |r|
      && r[2 * i] == Endpoint(hostnames[i], A, ipv4, ttl)
      && r[2 * i + 1] == Endpoint(hostnames[i], AAAA, ipv6, ttl)
  {
    BuildEndpointsLayout(hostnames, ipv4, ipv6, ttl, i);
    var r := BuildEndpoints(hostnames, ipv4, ipv6, ttl);
    assert r[2 * i] == r[i * 2 .. i * 2 + 2][0];
    assert r[2 * i + 1] == r[i * 2 .. i * 2 + 2][1];
  }

  /** With one address family, record i belongs to hostname i. */
  lemma {:induction false} BuildEndpointsSingleFamily(hostnames: seq<string>, ipv4: seq<string>, ipv6: seq<string>, ttl: int, i: nat)
    requires i < |hostnames| && PerHost(ipv4, ipv6) == 1
    ensures var r := BuildEndpoints(hostnames, ipv4, ipv6, ttl);
      i < |r|
      && r[i] == (if |ipv4| > 0 then Endpoint(hostnames[i], A, ipv4, ttl) else Endpoint(hostnames[i], AAAA, ipv6, ttl))
  {
    BuildEndpointsLayout(hostnames, ipv4, ipv6, ttl, i);
    var r := BuildEndpoints(hostnames, ipv4, ipv6, ttl);
    assert r[i] == r[i * 1 .. i * 1 + 1][0];
  }

  /** With no addresses at all, nothing is declared. */
  lemma {:induction false} BuildEndpointsNoAddresses(hostnames: seq<string>, ttl: int)
    ensures BuildEndpoints(hostnames, [], [], ttl) == []
  {
    BuildEndpointsCount(hostnames, [], [], ttl);
  }
}
