/**
 * `vmiChangedPredicate`: which watch events reach `Reconcile`.
 */
module ChangeFilter {
  import opened Optional
  import opened Annotations
  import opened Addresses
  import opened Reconciler

  /** An event payload: a VMI, or an object of some other kind. */
  datatype Object = VmiObject(vmi: Vmi) | OtherObject(kind: string)

  datatype Event =
    | CreateEvent(obj: Object)
    | DeleteEvent(obj: Object)
    | GenericEvent(obj: Object)
    | UpdateEvent(before: Object, after: Object)

  /** Whether the hostname annotation or the interface list differs between two VMIs. */
  predicate Changed(before: Vmi, after: Vmi) {
    AnnotationOf(before, HostnameKey) != AnnotationOf(after, HostnameKey) || before.interfaces != after.interfaces
  }

  /**
   * Create, delete and generic events always pass, as do updates whose
   * payloads are not both VMIs; an update between two VMIs passes only when
   * the raw hostname annotation (absent reads as "") or the interface list
   * changed.
   */
  function ShouldReconcile(e: Event): (pass: bool)
    ensures !pass ==> e.UpdateEvent? && e.before.VmiObject? && e.after.VmiObject?
    ensures !pass ==> AnnotationOf(e.before.vmi, HostnameKey) == AnnotationOf(e.after.vmi, HostnameKey)
    ensures !pass ==> e.before.vmi.interfaces == e.after.vmi.interfaces
    // between two VMIs the filter is exact: it passes if and only if something watched changed
    ensures e.UpdateEvent? && e.before.VmiObject? && e.after.VmiObject? ==>
      (pass <==> Changed(e.before.vmi, e.after.vmi))
  {
    match e
    case UpdateEvent(VmiObject(before), VmiObject(after)) => Changed(before, after)
    case _ => true
  }

  /** An update that changes only the TTL annotation is dropped. */
  lemma {:induction false} TtlOnlyChangeDropped(before: Vmi, ttl: string)
    ensures !ShouldReconcile(UpdateEvent(VmiObject(before),
                                         VmiObject(before.(annotations := before.annotations[TtlKey := ttl]))))
  {
    var after := before.(annotations := before.annotations[TtlKey := ttl]);
    KeysDiffer();
    assert AnnotationOf(after, HostnameKey) == AnnotationOf(before, HostnameKey);
  }

  /**
   * Dropped updates are harmless apart from the TTL: if the filter drops an
   * update whose TTL annotation, name, namespace and uid are unchanged, a
   * pass over the new VMI decides exactly what a pass over the old one did.
   */
  lemma {:induction false} DroppedUpdateIsIrrelevant(before: Vmi, after: Vmi, existing: EndpointLookup,
                                  writeErr: Option<ApiError>, classify: string -> IpClass)
    requires !ShouldReconcile(UpdateEvent(VmiObject(before), VmiObject(after)))
    requires AnnotationOf(before, TtlKey) == AnnotationOf(after, TtlKey)
    requires before.namespace == after.namespace && before.name == after.name && before.uid == after.uid
    ensures Reconcile(VmiFound(before), existing, writeErr, classify) == Reconcile(VmiFound(after), existing, writeErr, classify)
  {
    assert HasHostnames(before) <==> HasHostnames(after);
  }

  /**
   * The converse for the TTL: when a VMI with hostnames and addresses changes
   * only the effective TTL, the pass it would trigger publishes a different
   * object, yet the filter drops the update. (When the read of the
   * DNSEndpoint fails, neither pass publishes anything.)
   */
  lemma {:induction false} TtlChangeIsNotPublished(before: Vmi, ttl: string, existing: EndpointLookup,
                                writeErr: Option<ApiError>, classify: string -> IpClass)
    requires HasHostnames(before)
    requires |ParseHostnames(Text.Trim(AnnotationOf(before, HostnameKey)))| > 0
    requires !BestIPs(before.interfaces, classify).addrs.IsEmpty()
    requires ParseTTL(ttl) != ParseTTL(AnnotationOf(before, TtlKey))
    requires !existing.LookupError?
    ensures var after := before.(annotations := before.annotations[TtlKey := ttl]);
      !ShouldReconcile(UpdateEvent(VmiObject(before), VmiObject(after)))
      && Reconcile(VmiFound(before), existing, writeErr, classify) != Reconcile(VmiFound(after), existing, writeErr, classify)
  {
    var after := before.(annotations := before.annotations[TtlKey := ttl]);
    TtlOnlyChangeDropped(before, ttl);
    KeysDiffer();
    assert AnnotationOf(after, HostnameKey) == AnnotationOf(before, HostnameKey);
    assert AnnotationOf(after, TtlKey) == ttl;
    var sel := BestIPs(before.interfaces, classify);
    DesiredTtlDiffers(before, after, sel);
  }

  lemma {:induction false} DesiredTtlDiffers(before: Vmi, after: Vmi, sel: Selection)
    requires AnnotationOf(after, HostnameKey) == AnnotationOf(before, HostnameKey)
    requires |ParseHostnames(Text.Trim(AnnotationOf(before, HostnameKey)))| > 0
    requires !sel.addrs.IsEmpty()
    requires ParseTTL(AnnotationOf(after, TtlKey)) != ParseTTL(AnnotationOf(before, TtlKey))
    ensures Desired(before, sel) != Desired(after, sel)
  {
    var hostnames := ParseHostnames(Text.Trim(AnnotationOf(before, HostnameKey)));
    var t0 := ParseTTL(AnnotationOf(before, TtlKey));
    var t1 := ParseTTL(AnnotationOf(after, TtlKey));
    var r0 := Records.BuildEndpoints(hostnames, sel.addrs.v4, sel.addrs.v6, t0);
    var r1 := Records.BuildEndpoints(hostnames, sel.addrs.v4, sel.addrs.v6, t1);
    Records.BuildEndpointsCount(hostnames, sel.addrs.v4, sel.addrs.v6, t0);
    Records.BuildEndpointsWellFormed(hostnames, sel.addrs.v4, sel.addrs.v6, t0);
    Records.BuildEndpointsWellFormed(hostnames, sel.addrs.v4, sel.addrs.v6, t1);
    assert |r0| > 0 && r0[0] in r0;
  }
}
