/**
 * The decision taken by one `Reconcile` pass for one VirtualMachineInstance:
 * do nothing, delete the DNSEndpoint of the same name, or create/update it.
 *
 * The Kubernetes API is not modelled: its answers (the VMI fetch, the
 * DNSEndpoint lookup, the error of the one write issued) are inputs, and the
 * write itself is the returned action.
 */
module Reconciler {
  import opened Optional
  import opened Text
  import opened Decimal
  import opened Annotations
  import opened Addresses
  import opened Records

  /** A VirtualMachineInstance as the controller reads it. */
  datatype Vmi = Vmi(
    namespace: string,
    name: string,
    uid: string,
    annotations: map<string, string>,
    interfaces: seq<Interface>)

  /** Any API error other than NotFound. */
  datatype ApiError = ApiError(reason: string)

  /** Result of fetching the VMI named in the request. */
  datatype VmiFetch = VmiNotFound | VmiError(err: ApiError) | VmiFound(vmi: Vmi)

  /** Result of looking up the DNSEndpoint with the VMI's name and namespace. */
  datatype EndpointLookup = Absent | Present(endpoints: seq<Endpoint>) | LookupError(err: ApiError)

  /** The controller owner reference `SetControllerReference` writes. */
  datatype OwnerRef = OwnerRef(kind: string, name: string, uid: string, controller: bool)

  /** The DNSEndpoint object the controller writes. */
  datatype DNSEndpoint = DNSEndpoint(namespace: string, name: string, endpoints: seq<Endpoint>, owner: OwnerRef)

  /** The one write a pass issues, if any. */
  datatype Action = NoOp | Delete(namespace: string, name: string) | Upsert(desired: DNSEndpoint)

  /** The write to issue, and the error `Reconcile` returns. */
  datatype Outcome = Outcome(action: Action, err: Option<ApiError>)

  /** `vmi.Annotations[key]`: a missing key reads as "". */
  function AnnotationOf(vmi: Vmi, key: string): string {
    if key in vmi.annotations then vmi.annotations[key] else ""
  }

  /** The hostname annotation is present and not blank once trimmed. */
  predicate HasHostnames(vmi: Vmi) {
    HostnameKey in vmi.annotations && Trim(vmi.annotations[HostnameKey]) != ""
  }

  function OwnerOf(vmi: Vmi): OwnerRef {
    OwnerRef("VirtualMachineInstance", vmi.name, vmi.uid, true)
  }

  /** The DNSEndpoint a pass writes for `vmi` once addresses are resolved. */
  function Desired(vmi: Vmi, sel: Selection): DNSEndpoint {
    var hostnames := ParseHostnames(Trim(AnnotationOf(vmi, HostnameKey)));
    var ttl := ParseTTL(AnnotationOf(vmi, TtlKey));
    DNSEndpoint(vmi.namespace, vmi.name, BuildEndpoints(hostnames, sel.addrs.v4, sel.addrs.v6, ttl), OwnerOf(vmi))
  }

  /**
   * `deleteEndpointIfExists`: NotFound is success, another lookup error is
   * returned, and an existing object is deleted (the delete's own error, if
   * any, is returned).
   */
  function DeleteIfExists(vmi: Vmi, existing: EndpointLookup, deleteErr: Option<ApiError>): (r: Outcome)
    ensures r.action != NoOp <==> existing.Present?
    ensures r.action != NoOp ==> r.action == Delete(vmi.namespace, vmi.name) && r.err == deleteErr
    ensures existing.Absent? ==> r.err == None
    ensures existing.LookupError? ==> r.err == Some(existing.err)
  {
    match existing
    case Absent => Outcome(NoOp, None)
    case LookupError(e) => Outcome(NoOp, Some(e))
    case Present(_) => Outcome(Delete(vmi.namespace, vmi.name), deleteErr)
  }

  /**
   * `Reconcile`. `existing` is the API's answer to reading the DNSEndpoint of
   * the VMI's name: the read `deleteEndpointIfExists` issues on the delete
   * path, or the one `CreateOrUpdate` issues before it creates or updates.
   * `writeErr` is the API's answer to the write the pass issues (the delete,
   * or `CreateOrUpdate`'s create or update, including a failure to set the
   * owner reference); it is ignored when no write is issued.
   */
  function Reconcile(fetch: VmiFetch, existing: EndpointLookup, writeErr: Option<ApiError>,
                     classify: string -> IpClass): (r: Outcome)
    // a deleted VMI: nothing to do, its DNSEndpoint goes with it by ownership
    ensures fetch.VmiNotFound? ==> r == Outcome(NoOp, None)
    // any other fetch failure is surfaced and nothing is written
    ensures fetch.VmiError? ==> r == Outcome(NoOp, Some(fetch.err))
    // deletion happens exactly when the hostname annotation is gone or blank and the object exists
    ensures r.action.Delete? <==> fetch.VmiFound? && !HasHostnames(fetch.vmi) && existing.Present?
    // an upsert happens exactly when the annotation is present, some source resolved addresses
    // and `CreateOrUpdate`'s read of the DNSEndpoint did not fail
    ensures r.action.Upsert? <==>
      fetch.VmiFound? && HasHostnames(fetch.vmi) && !BestIPs(fetch.vmi.interfaces, classify).addrs.IsEmpty()
      && !existing.LookupError?
    // hostnames but no addresses yet: neither create nor delete, and no error
    ensures fetch.VmiFound? && HasHostnames(fetch.vmi) && BestIPs(fetch.vmi.interfaces, classify).addrs.IsEmpty() ==>
      r == Outcome(NoOp, None)
    // a failed lookup on the delete path is returned and nothing is written
    ensures fetch.VmiFound? && !HasHostnames(fetch.vmi) && existing.LookupError? ==>
      r == Outcome(NoOp, Some(existing.err))
    // a failed read inside `CreateOrUpdate` is returned and nothing is written
    ensures (fetch.VmiFound? && HasHostnames(fetch.vmi) && !BestIPs(fetch.vmi.interfaces, classify).addrs.IsEmpty()
             && existing.LookupError?) ==> r == Outcome(NoOp, Some(existing.err))
    ensures r.action.Upsert? ==>
      var d := r.action.desired;
      d.namespace == fetch.vmi.namespace && d.name == fetch.vmi.name && d.owner == OwnerOf(fetch.vmi)
      && d == Desired(fetch.vmi, BestIPs(fetch.vmi.interfaces, classify))
    ensures r.action.Delete? ==> r.action == Delete(fetch.vmi.namespace, fetch.vmi.name)
    // every write's error is surfaced unchanged
    ensures r.action != NoOp ==> r.err == writeErr
    // without a write the only possible error is a failed fetch or lookup
    ensures r.action == NoOp && r.err.Some? ==>
      (fetch.VmiError? && r.err == Some(fetch.err)) || (existing.LookupError? && r.err == Some(existing.err))
  {
    match fetch
    case VmiNotFound => Outcome(NoOp, None)
    case VmiError(e) => Outcome(NoOp, Some(e))
    case VmiFound(vmi) =>
      if !HasHostnames(vmi) then DeleteIfExists(vmi, existing, writeErr)
      else
        var sel := BestIPs(vmi.interfaces, classify);
        if sel.addrs.IsEmpty() then Outcome(NoOp, None)
        else if existing.LookupError? then Outcome(NoOp, Some(existing.err))
        else Outcome(Upsert(Desired(vmi, sel)), writeErr)
  }

  /**
   * Every record a pass publishes names one of the annotation's hostnames
   * (trimmed, non-empty, comma-free), has a non-empty target list drawn from
   * the winning source, and a positive TTL.
   */
  lemma {:induction false} UpsertWellFormed(fetch: VmiFetch, existing: EndpointLookup, writeErr: Option<ApiError>,
                         classify: string -> IpClass)
    requires Reconcile(fetch, existing, writeErr, classify).action.Upsert?
    ensures var d := Reconcile(fetch, existing, writeErr, classify).action.desired;
      var sel := BestIPs(fetch.vmi.interfaces, classify);
      forall e :: e in d.endpoints ==>
        ValidHostname(e.dnsName) && |e.targets| > 0 && 0 < e.ttl <= MaxInt64
        && (e.recordType == A ==> e.targets == sel.addrs.v4)
        && (e.recordType == AAAA ==> e.targets == sel.addrs.v6)
  {
    var vmi := fetch.vmi;
    var sel := BestIPs(vmi.interfaces, classify);
    var hostnames := ParseHostnames(Trim(AnnotationOf(vmi, HostnameKey)));
    var ttl := ParseTTL(AnnotationOf(vmi, TtlKey));
    ParseHostnamesSpec(Trim(AnnotationOf(vmi, HostnameKey)));
    BuildEndpointsWellFormed(hostnames, sel.addrs.v4, sel.addrs.v6, ttl);
  }

  /**
   * A hostname annotation that is not blank but names no host (such as ",")
   * still upserts, with an empty record list; it does not delete.
   */
  lemma {:induction false} NamelessAnnotationUpsertsEmpty(vmi: Vmi, existing: EndpointLookup, writeErr: Option<ApiError>,
                                       classify: string -> IpClass)
    requires HostnameKey in vmi.annotations && vmi.annotations[HostnameKey] == ","
    requires !BestIPs(vmi.interfaces, classify).addrs.IsEmpty()
    requires !existing.LookupError?
    ensures Reconcile(VmiFound(vmi), existing, writeErr, classify).action.Upsert?
    ensures Reconcile(VmiFound(vmi), existing, writeErr, classify).action.desired.endpoints == []
  {
    var raw := vmi.annotations[HostnameKey];
    TrimTrimmed(raw);
    ParseHostnamesBlank(raw);
  }

  // ------------------------------------------------------------ idempotence

  /** What the API server holds under the VMI's name, and the writes an action costs. */
  datatype Applied = Applied(stored: Option<DNSEndpoint>, writes: nat)

  /** The lookup a pass sees for a stored object. */
  function LookupOf(stored: Option<DNSEndpoint>): EndpointLookup {
    match stored
    case None => Absent
    case Some(d) => Present(d.endpoints)
  }

  /**
   * The collaborator, as assumed: a delete removes the object; `CreateOrUpdate`
   * writes only when the stored object differs from the desired one.
   */
  function Apply(stored: Option<DNSEndpoint>, a: Action): Applied {
    match a
    case NoOp => Applied(stored, 0)
    case Delete(_, _) => Applied(None, if stored.Some? then 1 else 0)
    case Upsert(d) => if stored == Some(d) then Applied(stored, 0) else Applied(Some(d), 1)
  }

  /**
   * Idempotence: after one successful pass has been applied, a second pass
   * over the same VMI issues no write and returns no error.
   */
  lemma {:induction false} ReconcileIdempotent(vmi: Vmi, stored: Option<DNSEndpoint>, classify: string -> IpClass)
    ensures var first := Reconcile(VmiFound(vmi), LookupOf(stored), None, classify);
      var s1 := Apply(stored, first.action).stored;
      var second := Reconcile(VmiFound(vmi), LookupOf(s1), None, classify);
      Apply(s1, second.action) == Applied(s1, 0) && second.err == None
  {
  }

  /** The deletion pass converges: once deleted, the next pass does nothing. */
  lemma {:induction false} RemovedAnnotationDeletesOnce(vmi: Vmi, d: DNSEndpoint, classify: string -> IpClass)
    requires HostnameKey !in vmi.annotations
    ensures var first := Reconcile(VmiFound(vmi), LookupOf(Some(d)), None, classify);
      first.action == Delete(vmi.namespace, vmi.name)
      && Apply(Some(d), first.action) == Applied(None, 1)
      && Reconcile(VmiFound(vmi), LookupOf(None), None, classify) == Outcome(NoOp, None)
  {
  }
}
