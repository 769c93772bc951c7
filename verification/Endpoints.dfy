/** From EndpointSlices to the endpoints of a Service (pkg/krtcollections/endpoints.go). */
module Endpoints {
  import opened Common
  import opened Sorting

  type uint32 = x: int | 0 <= x < 0x1_0000_0000

  /** Go's uint32(x). */
  function ToUint32(x: int32): uint32 { if x < 0 then x + 0x1_0000_0000 else x }

  datatype ServicePort = ServicePort(name: string, port: int32, targetPort: IntOrString)

  datatype Service = Service(ports: seq<ServicePort>)

  datatype EndpointPort = EndpointPort(name: Option<string>, port: Option<int32>)

  datatype ObjectReference = ObjectReference(kind: string, namespace: string, name: string)

  datatype Endpoint = Endpoint(ready: Option<bool>, addresses: seq<string>, targetRef: Option<ObjectReference>)

  datatype EndpointSlice = EndpointSlice(namespace: string, name: string, ports: seq<EndpointPort>,
                                         endpoints: seq<Endpoint>)

  datatype PodLocality = PodLocality(region: string, zone: string, subzone: string)

  datatype PodName = PodName(namespace: string, name: string)

  datatype Pod = Pod(locality: PodLocality, labels: map<string, string>)

  /** The endpoint handed to Envoy, with the pod labels kept beside it. */
  datatype LbEndpoint = LbEndpoint(address: string, port: uint32, autoMtls: bool, labels: map<string, string>)

  datatype Entry = Entry(locality: PodLocality, endpoint: LbEndpoint)

  datatype Inputs = Inputs(pods: map<PodName, Pod>, enableAutoMtls: bool)

  // ---- Ports

  predicate Unnamed(p: EndpointPort) { p.name == None || p.name == Some("") }

  predicate PortMatches(p: EndpointPort, svc: ServicePort) {
    if p.name == Some(svc.name) then true
    else if svc.targetPort.Named? && svc.targetPort.name != "" then p.name == Some(svc.targetPort.name)
    else if svc.targetPort.Number? && svc.targetPort.number != 0 then Unnamed(p)
         && p.port == Some(svc.targetPort.number)
    else Unnamed(p) && p.port == Some(svc.port)
  }

  predicate Candidate(p: EndpointPort, single: bool, svc: ServicePort)
  { p.port.Some? && (single || PortMatches(p, svc)) }

  ghost predicate FirstWithPort(ports: seq<ServicePort>, port: uint32, p: ServicePort) {
    exists i :: 0 <= i < |ports| && ports[i] == p && ToUint32(p.port) == port && forall j :: 0 <= j < i ==>
      ToUint32(ports[j].port) != port
  }

  method FindPortForService(svc: Service, port: uint32) returns (found: Option<ServicePort>, single: bool)
    ensures found.None? <==> forall p :: p in svc.ports ==> ToUint32(p.port) != port
    ensures found.Some? ==> FirstWithPort(svc.ports, port, found.value) && single == (|svc.ports| == 1)
  {
    for i := 0 to |svc.ports|
      invariant forall j :: 0 <= j < i ==> ToUint32(svc.ports[j].port) != port
    {
      if port == ToUint32(svc.ports[i].port) { return Some(svc.ports[i]), |svc.ports| == 1; }
    }
    return None, false;
  }

  /** The port of the first candidate, 0 when there is none. */
  function PortIn(ports: seq<EndpointPort>, single: bool, svc: ServicePort): uint32 {
    if ports == [] then 0 else if Candidate(ports[0], single, svc) then ToUint32(ports[0].port.value)
      else PortIn(ports[1..], single, svc)
  }

  method FindPortInEndpointSlice(slice: EndpointSlice, single: bool, svc: ServicePort) returns (port: uint32)
    ensures port == PortIn(slice.ports, single, svc)
  {
    for i := 0 to |slice.ports|
      invariant PortIn(slice.ports, single, svc) == PortIn(slice.ports[i..], single, svc)
    {
      assert slice.ports[i..][1..] == slice.ports[i + 1..];
      var p := slice.ports[i];
      if p.port.None? { continue; }
      if single || PortMatches(p, svc) { return ToUint32(p.port.value); }
    }
    assert slice.ports[|slice.ports|..] == [];
    return 0;
  }

  /** Which port of a slice serves a Service port: any numbered one if the Service has one port;
      else the one of the same name, of the name the target port gives, or without a name the
      one of the number the target port gives, which is the Service's own unless set. */
  ghost predicate Serves(p: EndpointPort, single: bool, svc: ServicePort) {
    && p.port != None
    && (|| single
        || p.name == Some(svc.name)
        || (TargetsName(svc) && p.name == Some(svc.targetPort.name))
        || (!TargetsName(svc) && (p.name == None || p.name == Some("")) && p.port == Some(TargetNumber(svc))))
  }

  ghost predicate TargetsName(svc: ServicePort) { svc.targetPort.Named? && svc.targetPort.name != "" }

  ghost function TargetNumber(svc: ServicePort): int32 {
    match svc.targetPort
    case Number(n) => if n == 0 then svc.port else n
    case Named(_) => svc.port
  }

  lemma CandidateServes(p: EndpointPort, single: bool, svc: ServicePort)
    ensures Candidate(p, single, svc) <==> Serves(p, single, svc)
  {
  }

  ghost predicate FirstCandidate(ports: seq<EndpointPort>, single: bool, svc: ServicePort, i: int) {
    0 <= i < |ports| && Serves(ports[i], single, svc) && forall j :: 0 <= j < i ==> !Serves(ports[j], single, svc)
  }

  /** A port is found exactly when the first candidate's number is not 0, and it is that number. */
  lemma {:induction false} PortFound(ports: seq<EndpointPort>, single: bool, svc: ServicePort)
    ensures PortIn(ports, single, svc) != 0 <==>
            exists i :: FirstCandidate(ports, single, svc, i) && ports[i].port.value != 0
    ensures forall i :: FirstCandidate(ports, single, svc, i) ==>
            PortIn(ports, single, svc) == ToUint32(ports[i].port.value)
    decreases |ports|
  {
    if ports != [] {
      var tail := ports[1..];
      PortFound(tail, single, svc);
      CandidateServes(ports[0], single, svc);
      if Candidate(ports[0], single, svc) {
        assert FirstCandidate(ports, single, svc, 0);
      } else {
        forall i | 0 < i < |ports|
          ensures FirstCandidate(ports, single, svc, i) <==> FirstCandidate(tail, single, svc, i - 1)
        {
          FirstCandidateTail(ports, single, svc, i);
        }
        if i :| FirstCandidate(tail, single, svc, i) && tail[i].port.value != 0 {
          FirstCandidateTail(ports, single, svc, i + 1);
        }
      }
    }
  }

  lemma FirstCandidateTail(ports: seq<EndpointPort>, single: bool, svc: ServicePort, i: int)
    requires 0 < i < |ports| && !Serves(ports[0], single, svc)
    ensures FirstCandidate(ports, single, svc, i) <==> FirstCandidate(ports[1..], single, svc, i - 1)
  {
    var tail := ports[1..];
    assert tail[i - 1] == ports[i];
    if FirstCandidate(ports, single, svc, i) {
      forall j | 0 <= j < i - 1 ensures !Serves(tail[j], single, svc) { assert tail[j] == ports[j + 1]; }
    }
    if FirstCandidate(tail, single, svc, i - 1) {
      forall j | 0 <= j < i ensures !Serves(ports[j], single, svc) { if j > 0 { assert ports[j] == tail[j - 1]; } }
    }
  }

  // ---- Entries

  predicate NotReady(ep: Endpoint) { ep.ready == Some(false) }

  const POD_KIND := "Pod"

  const TLS_MODE := "security.istio.io/tlsMode"

  function PodOf(slice: EndpointSlice, ep: Endpoint): PodName {
    if ep.targetRef.Some? && ep.targetRef.value.kind == POD_KIND
    then PodName(if ep.targetRef.value.namespace != "" then ep.targetRef.value.namespace
                 else slice.namespace, ep.targetRef.value.name)
    else PodName(slice.namespace, "")
  }

  function EntryFor(inputs: Inputs, slice: EndpointSlice, ep: Endpoint, port: uint32, address: string): Entry {
    var pod := PodOf(slice, ep);
    var known := pod.name != "" && pod in inputs.pods;
    var labels := if known then inputs.pods[pod].labels else map[];
    Entry(if known then inputs.pods[pod].locality else PodLocality("", "", ""),
          LbEndpoint(address, port, inputs.enableAutoMtls && TLS_MODE in labels, labels))
  }

  ghost function Seen(log: seq<Entry>): set<string> { set e | e in log :: e.endpoint.address }

  ghost function AddAddresses(inputs: Inputs, log: seq<Entry>, slice: EndpointSlice, ep: Endpoint, port: uint32,
                              addresses: seq<string>): seq<Entry> {
    if addresses == [] then log
    else
      var front, address := AddAddresses(inputs, log, slice, ep, port, addresses[..|addresses| - 1]),
        addresses[|addresses| - 1];
      if address in Seen(front) then front else front + [EntryFor(inputs, slice, ep, port, address)]
  }

  ghost function AddEndpoints(inputs: Inputs, log: seq<Entry>, slice: EndpointSlice, port: uint32,
                              eps: seq<Endpoint>): seq<Entry> {
    if eps == [] then log
    else
      var front, ep := AddEndpoints(inputs, log, slice, port, eps[..|eps| - 1]), eps[|eps| - 1];
      if NotReady(ep) then front else AddAddresses(inputs, front, slice, ep, port, ep.addresses)
  }

  ghost function AddSlices(inputs: Inputs, slices: seq<EndpointSlice>, single: bool, svc: ServicePort): seq<Entry> {
    if slices == [] then []
    else
      var front, slice := AddSlices(inputs, slices[..|slices| - 1], single, svc), slices[|slices| - 1];
      var port := PortIn(slice.ports, single, svc);
      if port == 0 then front else AddEndpoints(inputs, front, slice, port, slice.endpoints)
  }

  // ---- The transformation

  type Groups = map<PodLocality, seq<LbEndpoint>>

  function Get(groups: Groups, l: PodLocality): seq<LbEndpoint> { if l in groups then groups[l] else [] }

  function InLocality(log: seq<Entry>, l: PodLocality): seq<LbEndpoint> {
    if log == [] then []
    else InLocality(log[..|log| - 1], l) + if log[|log| - 1].locality == l then [log[|log| - 1].endpoint] else []
  }

  /** A group holds exactly the endpoints of its locality. */
  lemma {:induction false} InLocalityHolds(log: seq<Entry>, l: PodLocality, ep: LbEndpoint)
    ensures multiset(InLocality(log, l))[ep] == multiset(log)[Entry(l, ep)]
    decreases |log|
  {
    if log != [] {
      InLocalityHolds(log[..|log| - 1], l, ep);
      assert log == log[..|log| - 1] + [log[|log| - 1]];
    }
  }

  /** The endpoints of a backend: what was added, grouped by locality. */
  class EndpointsForBackend {
    var groups: Groups
    ghost var log: seq<Entry>

    ghost predicate Valid()
      reads this
    {
      forall l :: Get(groups, l) == InLocality(log, l)
    }

    constructor ()
      ensures Valid() && log == []
    {
      groups, log := map[], [];
    }

    method Add(e: Entry)
      requires Valid()
      modifies this
      ensures Valid() && log == old(log) + [e]
    {
      ghost var was := groups;
      groups := groups[e.locality := Get(groups, e.locality) + [e.endpoint]];
      log := log + [e];
      forall l ensures Get(groups, l) == InLocality(log, l) {
        assert log[..|log| - 1] == old(log);
        assert Get(was, l) == InLocality(old(log), l);
      }
    }
  }

  /** The loop over the addresses of one endpoint. */
  method AddEndpoint(inputs: Inputs, ret: EndpointsForBackend, seen: set<string>, slice: EndpointSlice, ep: Endpoint,
                     port: uint32)
    returns (nowSeen: set<string>)
    requires ret.Valid() && seen == Seen(ret.log)
    modifies ret
    ensures ret.Valid() && nowSeen == Seen(ret.log)
    ensures ret.log == AddAddresses(inputs, old(ret.log), slice, ep, port, ep.addresses)
  {
    nowSeen := seen;
    for i := 0 to |ep.addresses|
      invariant ret.Valid() && nowSeen == Seen(ret.log)
      invariant ret.log == AddAddresses(inputs, old(ret.log), slice, ep, port, ep.addresses[..i])
    {
      var address := ep.addresses[i];
      assert ep.addresses[..i + 1][..i] == ep.addresses[..i];
      if address in nowSeen { continue; }
      nowSeen := nowSeen + {address};
      var e := EntryFor(inputs, slice, ep, port, address);
      SeenSnoc(ret.log, e);
      ret.Add(e);
    }
    assert ep.addresses[..|ep.addresses|] == ep.addresses;
  }

  lemma SeenSnoc(log: seq<Entry>, e: Entry)
    ensures Seen(log + [e]) == Seen(log) + {e.endpoint.address}
  {
    forall x ensures x in Seen(log + [e]) <==> x in Seen(log) + {e.endpoint.address} {
      if x in Seen(log) {
        var d :| d in log && d.endpoint.address == x;
        assert d in log + [e];
      }
      assert e in log + [e];
    }
  }

  /** The loop over the endpoints of one slice. */
  method AddSlice(inputs: Inputs, ret: EndpointsForBackend, seen: set<string>, slice: EndpointSlice, port: uint32)
    returns (nowSeen: set<string>)
    requires ret.Valid() && seen == Seen(ret.log)
    modifies ret
    ensures ret.Valid() && nowSeen == Seen(ret.log)
    ensures ret.log == AddEndpoints(inputs, old(ret.log), slice, port, slice.endpoints)
  {
    nowSeen := seen;
    for i := 0 to |slice.endpoints|
      invariant ret.Valid() && nowSeen == Seen(ret.log)
      invariant ret.log == AddEndpoints(inputs, old(ret.log), slice, port, slice.endpoints[..i])
    {
      assert slice.endpoints[..i + 1][..i] == slice.endpoints[..i];
      if NotReady(slice.endpoints[i]) { continue; }
      nowSeen := AddEndpoint(inputs, ret, nowSeen, slice, slice.endpoints[i], port);
    }
    assert slice.endpoints[..|slice.endpoints|] == slice.endpoints;
  }

  /** The scan ahead of the main loop. */
  method AnyPort(slices: seq<EndpointSlice>, single: bool, svc: ServicePort) returns (any: bool)
    ensures any <==> exists i :: 0 <= i < |slices| && PortIn(slices[i].ports, single, svc) != 0
  {
    for i := 0 to |slices|
      invariant forall j :: 0 <= j < i ==> PortIn(slices[j].ports, single, svc) == 0
    {
      var port := FindPortInEndpointSlice(slices[i], single, svc);
      if port != 0 { return true; }
    }
    return false;
  }

  /** transformK8sEndpoints: null for a backend that is not a Service or has no such port. */
  method TransformK8sEndpoints(inputs: Inputs, service: Option<Service>, backendPort: uint32,
                               slices: seq<EndpointSlice>)
    returns (ret: EndpointsForBackend?, ghost svc: Option<ServicePort>, ghost single: bool)
    ensures service.None? ==> ret == null
    ensures service.Some? ==>
            (ret == null <==> forall p :: p in service.value.ports ==> ToUint32(p.port) != backendPort)
    ensures ret != null ==> fresh(ret) && ret.Valid() && svc.Some?
                            && FirstWithPort(service.value.ports, backendPort, svc.value)
                            && single == (|service.value.ports| == 1)
                              && ret.log == AddSlices(inputs, slices, single, svc.value)
  {
    svc, single := None, false;
    if service.None? { return null, None, false; }
    var found, one := FindPortForService(service.value, backendPort);
    svc, single := found, one;
    if found.None? { return null, None, false; }
    ret := new EndpointsForBackend();
    if |slices| == 0 { return; }
    var any := AnyPort(slices, one, found.value);
    if !any {
      PreScanIsRedundant(inputs, slices, one, found.value);
      return;
    }
    var seen: set<string> := {};
    for i := 0 to |slices|
      invariant ret.Valid() && seen == Seen(ret.log) && fresh(ret)
      invariant ret.log == AddSlices(inputs, slices[..i], one, found.value)
    {
      assert slices[..i + 1][..i] == slices[..i];
      var port := FindPortInEndpointSlice(slices[i], one, found.value);
      if port == 0 { continue; }
      seen := AddSlice(inputs, ret, seen, slices[i], port);
    }
    assert slices[..|slices|] == slices;
  }

  /** Where no slice has a port the main loop would add nothing, so the early return changes
      nothing. */
  lemma {:induction false} PreScanIsRedundant(inputs: Inputs, slices: seq<EndpointSlice>, single: bool,
                                              svc: ServicePort)
    requires forall i :: 0 <= i < |slices| ==> PortIn(slices[i].ports, single, svc) == 0
    ensures AddSlices(inputs, slices, single, svc) == []
    decreases |slices|
  {
    if slices != [] { PreScanIsRedundant(inputs, slices[..|slices| - 1], single, svc); }
  }

  // ---- What the log holds

  /** The endpoint has the address and is ready, or does not say. */
  ghost predicate HasAddress(ep: Endpoint, x: string) {
    (ep.ready == None || ep.ready == Some(true)) && x in ep.addresses
  }

  ghost predicate Offered(eps: seq<Endpoint>, x: string) { exists ep :: ep in eps && HasAddress(ep, x) }

  /** The slice has a port and an endpoint, not marked unready, with the address. */
  ghost predicate Offers(slice: EndpointSlice, single: bool, svc: ServicePort, x: string) {
    PortIn(slice.ports, single, svc) != 0 && Offered(slice.endpoints, x)
  }

  ghost predicate UniqueAddresses(log: seq<Entry>) {
    forall i, j :: 0 <= i < j < |log| ==> log[i].endpoint.address != log[j].endpoint.address
  }

  /** `longer` continues `log` with entries on one port for the new addresses among `xs`. */
  ghost predicate Extends(log: seq<Entry>, longer: seq<Entry>, port: uint32, xs: iset<string>) {
    && log <= longer && UniqueAddresses(longer)
    && (forall x :: x in Seen(longer) <==> x in Seen(log) || x in xs)
    && (forall i :: |log| <= i < |longer| ==> longer[i].endpoint.port == port)
  }

  lemma ExtendsTrans(a: seq<Entry>, b: seq<Entry>, c: seq<Entry>, port: uint32, xs: iset<string>, ys: iset<string>)
    requires Extends(a, b, port, xs) && Extends(b, c, port, ys)
    ensures Extends(a, c, port, xs + ys)
  {
    assert forall i :: 0 <= i < |b| ==> c[i] == b[i];
  }

  lemma NewAddress(log: seq<Entry>, e: Entry)
    requires UniqueAddresses(log) && e.endpoint.address !in Seen(log)
    ensures Extends(log, log + [e], e.endpoint.port, iset{e.endpoint.address})
  {
    SeenSnoc(log, e);
    forall i | 0 <= i < |log| ensures log[i].endpoint.address != e.endpoint.address { assert log[i] in log; }
  }

  lemma {:induction false} AddAddressesExtends(inputs: Inputs, log: seq<Entry>, slice: EndpointSlice, ep: Endpoint,
                                               port: uint32, addresses: seq<string>)
    requires UniqueAddresses(log)
    ensures Extends(log, AddAddresses(inputs, log, slice, ep, port, addresses), port, iset x | x in addresses)
    decreases |addresses|
  {
    if addresses != [] {
      var xs, x := addresses[..|addresses| - 1], addresses[|addresses| - 1];
      assert addresses == xs + [x];
      AddAddressesExtends(inputs, log, slice, ep, port, xs);
      var front := AddAddresses(inputs, log, slice, ep, port, xs);
      if x !in Seen(front) {
        var e := EntryFor(inputs, slice, ep, port, x);
        NewAddress(front, e);
        ExtendsTrans(log, front, front + [e], port, iset y | y in xs, iset{x});
      }
      assert (iset y | y in xs) + iset{x} == iset y | y in addresses;
    }
  }

  lemma ReadyMeans(ep: Endpoint)
    ensures NotReady(ep) <==> !(ep.ready == None || ep.ready == Some(true))
  {
    match ep.ready
    case None =>
    case Some(b) =>
  }

  lemma OfferedSnoc(eps: seq<Endpoint>, ep: Endpoint, x: string)
    ensures Offered(eps + [ep], x) <==> Offered(eps, x) || (!NotReady(ep) && x in ep.addresses)
  {
    ReadyMeans(ep);
    if Offered(eps + [ep], x) {
      var e :| e in eps + [ep] && HasAddress(e, x);
      assert e in eps || e == ep;
    }
    if Offered(eps, x) {
      var e :| e in eps && HasAddress(e, x);
      assert e in eps + [ep];
    }
    assert ep in eps + [ep];
  }

  lemma {:induction false} AddEndpointsExtends(inputs: Inputs, log: seq<Entry>, slice: EndpointSlice, port: uint32,
                                               eps: seq<Endpoint>)
    requires UniqueAddresses(log)
    ensures Extends(log, AddEndpoints(inputs, log, slice, port, eps), port, iset x | Offered(eps, x))
    decreases |eps|
  {
    if eps != [] {
      var front, ep := eps[..|eps| - 1], eps[|eps| - 1];
      assert eps == front + [ep];
      AddEndpointsExtends(inputs, log, slice, port, front);
      forall x ensures Offered(eps, x) <==> Offered(front, x) || (!NotReady(ep) && x in ep.addresses)
      { OfferedSnoc(front, ep, x); }
      var mid := AddEndpoints(inputs, log, slice, port, front);
      if !NotReady(ep) {
        AddAddressesExtends(inputs, mid, slice, ep, port, ep.addresses);
        ExtendsTrans(log, mid, AddAddresses(inputs, mid, slice, ep, port, ep.addresses), port,
                     iset x | Offered(front, x), iset x | x in ep.addresses);
        assert (iset x | Offered(front, x)) + (iset x | x in ep.addresses) == iset x | Offered(eps, x);
      } else {
        assert (iset x | Offered(front, x)) == iset x | Offered(eps, x);
      }
    }
  }

  /** The port of the first slice that offers the address. */
  ghost function FirstPort(slices: seq<EndpointSlice>, single: bool, svc: ServicePort, x: string): Option<uint32> {
    if slices == [] then None
    else
      var earlier, last := FirstPort(slices[..|slices| - 1], single, svc, x), slices[|slices| - 1];
      if earlier.Some? then earlier else if Offers(last, single, svc, x) then Some(PortIn(last.ports, single, svc))
        else None
  }

  lemma {:induction false} FirstPortFound(slices: seq<EndpointSlice>, single: bool, svc: ServicePort, x: string)
    ensures FirstPort(slices, single, svc, x).Some? <==> exists s :: s in slices && Offers(s, single, svc, x)
    ensures FirstPort(slices, single, svc, x).Some? ==>
              exists s :: s in slices && Offers(s, single, svc, x)
                          && FirstPort(slices, single, svc, x).value == PortIn(s.ports, single, svc)
    decreases |slices|
  {
    if slices != [] {
      var front, last := slices[..|slices| - 1], slices[|slices| - 1];
      assert slices == front + [last];
      FirstPortFound(front, single, svc, x);
      assert forall s :: s in slices <==> s in front || s == last;
    }
  }

  ghost predicate Logged(log: seq<Entry>, slices: seq<EndpointSlice>, single: bool, svc: ServicePort) {
    && UniqueAddresses(log)
    && (forall x :: x in Seen(log) <==> FirstPort(slices, single, svc, x).Some?)
    && (forall i :: 0 <= i < |log| ==>
        FirstPort(slices, single, svc, log[i].endpoint.address) == Some(log[i].endpoint.port))
  }

  lemma LoggedStep(log: seq<Entry>, longer: seq<Entry>, front: seq<EndpointSlice>, last: EndpointSlice, single: bool,
                   svc: ServicePort)
    requires Logged(log, front, single, svc)
    requires Extends(log, longer, PortIn(last.ports, single, svc), iset x | Offers(last, single, svc, x))
    ensures Logged(longer, front + [last], single, svc)
  {
    assert (front + [last])[..|front|] == front;
    forall i | 0 <= i < |longer|
      ensures FirstPort(front + [last], single, svc, longer[i].endpoint.address) == Some(longer[i].endpoint.port)
    {
      var x := longer[i].endpoint.address;
      if i < |log| {
        assert longer[i] == log[i];
      } else {
        assert longer[i] in longer;
        assert x !in Seen(log) by {
          forall e | e in log ensures e.endpoint.address != x {
            var j :| 0 <= j < |log| && log[j] == e;
            assert longer[j] == log[j];
          }
        }
        assert x in Seen(longer);
      }
    }
  }

  /** The log holds each address once, an address exactly when a slice with a port offers it,
      on the port of the first such slice. */
  lemma {:induction false} LogHolds(inputs: Inputs, slices: seq<EndpointSlice>, single: bool, svc: ServicePort)
    ensures Logged(AddSlices(inputs, slices, single, svc), slices, single, svc)
    decreases |slices|
  {
    if slices != [] {
      var front, last := slices[..|slices| - 1], slices[|slices| - 1];
      assert slices == front + [last];
      LogHolds(inputs, front, single, svc);
      var log, port := AddSlices(inputs, front, single, svc), PortIn(last.ports, single, svc);
      if port == 0 {
        LoggedSkip(log, front, last, single, svc);
      } else {
        AddEndpointsExtends(inputs, log, last, port, last.endpoints);
        assert (iset x | Offered(last.endpoints, x)) == iset x | Offers(last, single, svc, x);
        LoggedStep(log, AddEndpoints(inputs, log, last, port, last.endpoints), front, last, single, svc);
      }
    }
  }

  lemma LoggedSkip(log: seq<Entry>, front: seq<EndpointSlice>, last: EndpointSlice, single: bool, svc: ServicePort)
    requires Logged(log, front, single, svc) && PortIn(last.ports, single, svc) == 0
    ensures Logged(log, front + [last], single, svc)
  {
    forall x ensures FirstPort(front + [last], single, svc, x) == FirstPort(front, single, svc, x) {
      assert (front + [last])[..|front|] == front;
    }
  }

  /** The pod an endpoint refers to, in the slice's namespace unless the reference names one. */
  ghost predicate RefersTo(slice: EndpointSlice, ep: Endpoint, pod: PodName) {
    && ep.targetRef.Some? && ep.targetRef.value.kind == "Pod" && ep.targetRef.value.name != ""
    && pod.name == ep.targetRef.value.name
    && pod.namespace == if ep.targetRef.value.namespace == "" then slice.namespace else ep.targetRef.value.namespace
  }

  /** The entry for an endpoint: the slice's port, the locality and labels of the known pod it
      refers to, and mutual TLS exactly when enabled and the pod has the label for it. */
  ghost predicate Describes(inputs: Inputs, slice: EndpointSlice, ep: Endpoint, port: uint32, e: Entry) {
    && e.endpoint.port == port
    && (forall pod :: RefersTo(slice, ep, pod) && pod in inputs.pods ==>
          e.locality == inputs.pods[pod].locality && e.endpoint.labels == inputs.pods[pod].labels)
    && ((forall pod :: RefersTo(slice, ep, pod) ==> pod !in inputs.pods) ==>
          e.locality == PodLocality("", "", "") && e.endpoint.labels == map[])
    && (e.endpoint.autoMtls <==> inputs.enableAutoMtls && "security.istio.io/tlsMode" in e.endpoint.labels)
  }

  lemma EntryDescribes(inputs: Inputs, slice: EndpointSlice, ep: Endpoint, port: uint32, x: string)
    ensures Describes(inputs, slice, ep, port, EntryFor(inputs, slice, ep, port, x))
  {
    var pod := PodOf(slice, ep);
    assert pod.name != "" ==> RefersTo(slice, ep, pod);
    forall p | RefersTo(slice, ep, p) ensures p == pod {}
  }

  /** The entry of the first endpoint that has its address. */
  ghost predicate EntryOf(inputs: Inputs, slice: EndpointSlice, eps: seq<Endpoint>, port: uint32, e: Entry) {
    exists k :: 0 <= k < |eps| && HasAddress(eps[k], e.endpoint.address) && Describes(inputs, slice, eps[k], port, e)
                && forall j :: 0 <= j < k ==> !HasAddress(eps[j], e.endpoint.address)
  }

  lemma {:induction false} AddressEntries(inputs: Inputs, log: seq<Entry>, slice: EndpointSlice, ep: Endpoint,
                                          port: uint32, xs: seq<string>, e: Entry)
    requires UniqueAddresses(log) && e in AddAddresses(inputs, log, slice, ep, port, xs)
    ensures e in log || (e.endpoint.address in xs && e.endpoint.address !in Seen(log)
                         && e == EntryFor(inputs, slice, ep, port, e.endpoint.address))
    decreases |xs|
  {
    if xs != [] {
      AddAddressesExtends(inputs, log, slice, ep, port, xs[..|xs| - 1]);
      if e in AddAddresses(inputs, log, slice, ep, port, xs[..|xs| - 1]) {
        AddressEntries(inputs, log, slice, ep, port, xs[..|xs| - 1], e);
      }
    }
  }

  lemma {:induction false} EndpointEntries(inputs: Inputs, log: seq<Entry>, slice: EndpointSlice, port: uint32,
                                           eps: seq<Endpoint>, e: Entry)
    requires UniqueAddresses(log) && e in AddEndpoints(inputs, log, slice, port, eps)
    ensures e in log || (e.endpoint.address !in Seen(log) && EntryOf(inputs, slice, eps, port, e))
    decreases |eps|
  {
    if eps != [] {
      var n := |eps| - 1;
      var front, ep := eps[..n], eps[n];
      assert eps == front + [ep];
      var mid := AddEndpoints(inputs, log, slice, port, front);
      AddEndpointsExtends(inputs, log, slice, port, front);
      if e in mid {
        EndpointEntries(inputs, log, slice, port, front, e);
        if e !in log { EntryOfLonger(inputs, slice, front, ep, port, e); }
      } else {
        AddressEntries(inputs, mid, slice, ep, port, ep.addresses, e);
        EntryDescribes(inputs, slice, ep, port, e.endpoint.address);
        ReadyMeans(ep);
        NewEntryOf(inputs, slice, front, ep, port, e);
      }
    }
  }

  lemma NewEntryOf(inputs: Inputs, slice: EndpointSlice, front: seq<Endpoint>, ep: Endpoint, port: uint32, e: Entry)
    requires HasAddress(ep, e.endpoint.address) && Describes(inputs, slice, ep, port, e)
    requires !Offered(front, e.endpoint.address)
    ensures EntryOf(inputs, slice, front + [ep], port, e)
  {
    var all := front + [ep];
    assert all[|front|] == ep;
    forall j | 0 <= j < |front| ensures !HasAddress(all[j], e.endpoint.address) { assert all[j] in front; }
  }

  lemma EntryOfLonger(inputs: Inputs, slice: EndpointSlice, front: seq<Endpoint>, ep: Endpoint, port: uint32, e: Entry)
    requires EntryOf(inputs, slice, front, port, e)
    ensures EntryOf(inputs, slice, front + [ep], port, e)
  {
    var k :| 0 <= k < |front| && HasAddress(front[k], e.endpoint.address)
      && Describes(inputs, slice, front[k], port, e) && forall j :: 0 <= j < k ==> !HasAddress(front[j],
                                                                                              e.endpoint.address);
    var all := front + [ep];
    assert all[k] == front[k];
    assert forall j :: 0 <= j < k ==> all[j] == front[j];
  }

  /** Slice i is the first that offers the entry's address, and the entry is that of its first
      endpoint with the address. */
  ghost predicate FromSlice(inputs: Inputs, slices: seq<EndpointSlice>, single: bool, svc: ServicePort, e: Entry,
                            i: int)
  {
    && 0 <= i < |slices| && PortIn(slices[i].ports, single, svc) != 0
    && EntryOf(inputs, slices[i], slices[i].endpoints, PortIn(slices[i].ports, single, svc), e)
    && forall j :: 0 <= j < i ==> !Offers(slices[j], single, svc, e.endpoint.address)
  }

  /** Every entry carries the port of the first slice that offers its address, and the locality
      and labels of the pod of its first endpoint there. */
  lemma {:induction false} EntriesAreFaithful(inputs: Inputs, slices: seq<EndpointSlice>, single: bool,
                                              svc: ServicePort, e: Entry)
    requires e in AddSlices(inputs, slices, single, svc)
    ensures exists i :: FromSlice(inputs, slices, single, svc, e, i)
    decreases |slices|
  {
    var n := |slices| - 1;
    var front, last := slices[..n], slices[n];
    assert forall j :: 0 <= j < n ==> front[j] == slices[j];
    if e in AddSlices(inputs, front, single, svc) {
      EntriesAreFaithful(inputs, front, single, svc, e);
      var i :| FromSlice(inputs, front, single, svc, e, i);
      assert FromSlice(inputs, slices, single, svc, e, i);
    } else {
      var log := AddSlices(inputs, front, single, svc);
      LogHolds(inputs, front, single, svc);
      FirstPortFound(front, single, svc, e.endpoint.address);
      EndpointEntries(inputs, log, last, PortIn(last.ports, single, svc), last.endpoints, e);
      forall j | 0 <= j < n ensures !Offers(slices[j], single, svc, e.endpoint.address) { assert slices[j] in front; }
      assert FromSlice(inputs, slices, single, svc, e, n);
    }
  }

  // ---- Order of the slices

  /** The addresses served do not depend on the order of the slices. */
  lemma AddressesAnyOrder(inputs: Inputs, a: seq<EndpointSlice>, b: seq<EndpointSlice>, single: bool, svc: ServicePort)
    requires multiset(a) == multiset(b)
    ensures Seen(AddSlices(inputs, a, single, svc)) == Seen(AddSlices(inputs, b, single, svc))
    ensures forall x :: x in Seen(AddSlices(inputs, a, single, svc)) <==>
            exists s :: s in a && Offers(s, single, svc, x)
  {
    SameElements(a, b);
    LogHolds(inputs, a, single, svc);
    LogHolds(inputs, b, single, svc);
    forall x ensures x in Seen(AddSlices(inputs, a, single, svc)) <==> exists s :: s in a && Offers(s, single, svc, x) {
      FirstPortFound(a, single, svc, x);
    }
    forall x ensures x in Seen(AddSlices(inputs, b, single, svc)) <==> x in Seen(AddSlices(inputs, a, single, svc)) {
      FirstPortFound(b, single, svc, x);
    }
  }

  /** Slices that offer the same address found the same port. */
  ghost predicate Agree(slices: seq<EndpointSlice>, single: bool, svc: ServicePort) {
    forall s, t, x :: s in slices && t in slices && Offers(s, single, svc, x) && Offers(t, single, svc, x) ==>
                        PortIn(s.ports, single, svc) == PortIn(t.ports, single, svc)
  }

  ghost predicate HasPair(log: seq<Entry>, x: string, port: uint32) {
    exists i :: 0 <= i < |log| && log[i].endpoint.address == x && log[i].endpoint.port == port
  }

  lemma PairIsFirstPort(inputs: Inputs, slices: seq<EndpointSlice>, single: bool, svc: ServicePort, x: string,
                        port: uint32)
    ensures HasPair(AddSlices(inputs, slices, single, svc), x, port) <==>
            FirstPort(slices, single, svc, x) == Some(port)
  {
    LogHolds(inputs, slices, single, svc);
    var log := AddSlices(inputs, slices, single, svc);
    if FirstPort(slices, single, svc, x) == Some(port) {
      assert x in Seen(log);
      var e :| e in log && e.endpoint.address == x;
      var i :| 0 <= i < |log| && log[i] == e;
      assert log[i].endpoint.port == port;
    }
  }

  lemma {:induction false} HeadWins(slices: seq<EndpointSlice>, single: bool, svc: ServicePort, x: string)
    requires slices != [] && Offers(slices[0], single, svc, x)
    ensures FirstPort(slices, single, svc, x) == Some(PortIn(slices[0].ports, single, svc))
    decreases |slices|
  {
    if |slices| > 1 { HeadWins(slices[..|slices| - 1], single, svc, x); }
  }

  function MoveFirst<T>(s: seq<T>, i: nat): seq<T>
    requires i < |s|
  {
    [s[i]] + (s[..i] + s[i + 1..])
  }

  lemma MoveFirstPermutes<T>(s: seq<T>, i: nat)
    requires i < |s|
    ensures multiset(MoveFirst(s, i)) == multiset(s)
  {
    assert s == s[..i] + [s[i]] + s[i + 1..];
  }

  ghost predicate SamePairs(inputs: Inputs, a: seq<EndpointSlice>, b: seq<EndpointSlice>, single: bool,
                            svc: ServicePort) {
    forall x, port :: HasPair(AddSlices(inputs, a, single, svc), x, port) <==>
      HasPair(AddSlices(inputs, b, single, svc), x, port)
  }

  lemma AgreedPort(slices: seq<EndpointSlice>, single: bool, svc: ServicePort, x: string, s: EndpointSlice)
    requires Agree(slices, single, svc) && s in slices && Offers(s, single, svc, x)
    ensures FirstPort(slices, single, svc, x) == Some(PortIn(s.ports, single, svc))
  {
    FirstPortFound(slices, single, svc, x);
  }

  lemma AgreeGivesSamePairs(inputs: Inputs, slices: seq<EndpointSlice>, a: seq<EndpointSlice>, single: bool,
                            svc: ServicePort)
    requires Agree(slices, single, svc) && multiset(a) == multiset(slices)
    ensures SamePairs(inputs, a, slices, single, svc)
  {
    SameElements(a, slices);
    assert Agree(a, single, svc);
    forall x, port ensures HasPair(AddSlices(inputs, a, single, svc), x, port) <==>
      HasPair(AddSlices(inputs, slices, single, svc), x, port) {
      PairIsFirstPort(inputs, a, single, svc, x, port);
      PairIsFirstPort(inputs, slices, single, svc, x, port);
      FirstPortFound(a, single, svc, x);
      FirstPortFound(slices, single, svc, x);
      if s :| s in slices && Offers(s, single, svc, x) {
        AgreedPort(slices, single, svc, x, s);
        AgreedPort(a, single, svc, x, s);
      }
    }
  }

  lemma FirstOrderDecides(inputs: Inputs, slices: seq<EndpointSlice>, i: nat, single: bool, svc: ServicePort,
                          x: string, port: uint32)
    requires i < |slices| && Offers(slices[i], single, svc, x)
    ensures HasPair(AddSlices(inputs, MoveFirst(slices, i), single, svc), x, port) <==>
            port == PortIn(slices[i].ports, single, svc)
  {
    HeadWins(MoveFirst(slices, i), single, svc, x);
    PairIsFirstPort(inputs, MoveFirst(slices, i), single, svc, x, port);
  }

  /** The address and port pairs are the same for every order of the slices exactly when the
      slices agree on the ports of the addresses they share. */
  lemma PairsAnyOrderIffAgree(inputs: Inputs, slices: seq<EndpointSlice>, single: bool, svc: ServicePort)
    ensures (forall a, b :: multiset(a) == multiset(slices) && multiset(b) == multiset(slices) ==>
             SamePairs(inputs, a, b, single, svc))
            <==> Agree(slices, single, svc)
  {
    if Agree(slices, single, svc) {
      forall a, b | multiset(a) == multiset(slices) && multiset(b) == multiset(slices)
        ensures SamePairs(inputs, a, b, single, svc)
      {
        AgreeGivesSamePairs(inputs, slices, a, single, svc);
        AgreeGivesSamePairs(inputs, slices, b, single, svc);
      }
    } else {
      var s, t, x :| s in slices && t in slices && Offers(s, single, svc, x) && Offers(t, single, svc, x)
                     && PortIn(s.ports, single, svc) != PortIn(t.ports, single, svc);
      var i :| 0 <= i < |slices| && slices[i] == s;
      var j :| 0 <= j < |slices| && slices[j] == t;
      var port := PortIn(s.ports, single, svc);
      FirstOrderDecides(inputs, slices, i, single, svc, x, port);
      FirstOrderDecides(inputs, slices, j, single, svc, x, port);
      MoveFirstPermutes(slices, i);
      MoveFirstPermutes(slices, j);
      assert !SamePairs(inputs, MoveFirst(slices, i), MoveFirst(slices, j), single, svc);
    }
  }
}
