/** Splitting a report map into one contribution per object, and back
    (pkg/reports/status_contribution.go). */
module ReportSplit {
  import opened Common
  import opened Sorting
  import opened Reports
  import opened Contributions

  datatype NamespacedName = NamespacedName(namespace: string, name: string)

  datatype PolicyKey = PolicyKey(group: string, kind: string, namespace: string, name: string)

  /** The eight maps of a report map; None is a nil report. */
  datatype ReportMap = ReportMap(
    gateways: map<NamespacedName, Option<GatewayReport>>,
    listenerSets: map<GroupVersionKind, map<NamespacedName, Option<ListenerSetReport>>>,
    routes: map<RouteKind, map<NamespacedName, Option<RouteReport>>>,
    policies: map<PolicyKey, Option<PolicyReport>>,
    backends: map<NamespacedName, Option<BackendReport>>)

  /** Where in the report map a report sits. */
  datatype Slot =
    | GatewaySlot(nn: NamespacedName)
    | ListenerSetSlot(gvk: GroupVersionKind, nn: NamespacedName)
    | RouteSlot(route: RouteKind, nn: NamespacedName)
    | PolicySlot(key: PolicyKey)
    | BackendSlot(nn: NamespacedName)

  const GATEWAY_GROUP := "gateway.networking.k8s.io"

  function RouteKindName(k: RouteKind): string {
    match k
    case HTTPRoute => "HTTPRoute"
    case GRPCRoute => "GRPCRoute"
    case TCPRoute => "TCPRoute"
    case TLSRoute => "TLSRoute"
  }

  /** The status key of a slot: a group and kind, without the version. */
  function Target(slot: Slot): StatusKey {
    match slot
    case GatewaySlot(nn) => StatusKey(GATEWAY_GROUP, "Gateway", nn.namespace, nn.name)
    case ListenerSetSlot(gvk, nn) => StatusKey(gvk.group, gvk.kind, nn.namespace, nn.name)
    case RouteSlot(k, nn) => StatusKey(GATEWAY_GROUP, RouteKindName(k), nn.namespace, nn.name)
    case PolicySlot(k) => StatusKey(k.group, k.kind, k.namespace, k.name)
    case BackendSlot(nn) => StatusKey("gateway.kgateway.dev", "Backend", nn.namespace, nn.name)
  }

  function GatewaySlots(m: ReportMap): set<Slot> { set nn | nn in m.gateways :: GatewaySlot(nn) }

  function ListenerSetSlots(m: ReportMap): set<Slot> {
    set gvk, nn | gvk in m.listenerSets && nn in m.listenerSets[gvk] :: ListenerSetSlot(gvk, nn)
  }

  function RouteSlots(m: ReportMap, k: RouteKind): set<Slot> {
    if k in m.routes then set nn | nn in m.routes[k] :: RouteSlot(k, nn) else {}
  }

  function PolicySlots(m: ReportMap): set<Slot> { set k | k in m.policies :: PolicySlot(k) }

  function BackendSlots(m: ReportMap): set<Slot> { set nn | nn in m.backends :: BackendSlot(nn) }

  /** The report in a slot, None where there is none or it is nil. */
  function At(m: ReportMap, slot: Slot): Option<Fragment> {
    match slot
    case GatewaySlot(nn) => if nn in m.gateways && m.gateways[nn].Some? then Some(OfGateway(m.gateways[nn].value))
      else None
    case ListenerSetSlot(gvk, nn) =>
      if gvk in m.listenerSets && nn in m.listenerSets[gvk] && m.listenerSets[gvk][nn].Some?
      then Some(OfListenerSet(m.listenerSets[gvk][nn].value)) else None
    case RouteSlot(k, nn) =>
      if k in m.routes && nn in m.routes[k] && m.routes[k][nn].Some? then Some(OfRoute(m.routes[k][nn].value)) else None
    case PolicySlot(k) => if k in m.policies && m.policies[k].Some? then Some(OfPolicy(m.policies[k].value)) else None
    case BackendSlot(nn) => if nn in m.backends && m.backends[nn].Some? then Some(OfBackend(m.backends[nn].value))
      else None
  }

  function Made(source: Source, m: ReportMap, slot: Slot): Contribution
    requires At(m, slot).Some?
  {
    Contribution(Target(slot), source, At(m, slot).value)
  }

  /** The slot holds a report that is not nil. */
  ghost predicate Present(m: ReportMap, slot: Slot) {
    match slot
    case GatewaySlot(nn) => GatewayReported(m, nn)
    case ListenerSetSlot(gvk, nn) => ListenerSetReported(m, gvk, nn)
    case RouteSlot(k, nn) => RouteReported(m, k, nn)
    case PolicySlot(key) => PolicyReported(m, key)
    case BackendSlot(nn) => BackendReported(m, nn)
  }

  ghost predicate ListenerSetReported(m: ReportMap, gvk: GroupVersionKind, nn: NamespacedName) {
    gvk in m.listenerSets && nn in m.listenerSets[gvk] && m.listenerSets[gvk][nn] != None
  }

  ghost predicate GatewayReported(m: ReportMap, nn: NamespacedName) {
    nn in m.gateways && m.gateways[nn] != None
  }

  ghost predicate PolicyReported(m: ReportMap, key: PolicyKey) {
    key in m.policies && m.policies[key] != None
  }

  ghost predicate BackendReported(m: ReportMap, nn: NamespacedName) {
    nn in m.backends && m.backends[nn] != None
  }

  ghost predicate RouteReported(m: ReportMap, k: RouteKind, nn: NamespacedName) {
    k in m.routes && nn in m.routes[k] && m.routes[k][nn] != None
  }

  /** The contribution of a slot, field by field: the object's group, kind, namespace and name,
      the given source, and the report the map holds. */
  ghost predicate Describes(c: Contribution, source: Source, m: ReportMap, slot: Slot) {
    && Present(m, slot)
    && c.source == source
    && match slot
       case GatewaySlot(nn) =>
         && c.target == StatusKey("gateway.networking.k8s.io", "Gateway", nn.namespace, nn.name)
         && c.report == OfGateway(m.gateways[nn].value)
       case ListenerSetSlot(gvk, nn) =>
         && c.target == StatusKey(gvk.group, gvk.kind, nn.namespace, nn.name)
         && c.report == OfListenerSet(m.listenerSets[gvk][nn].value)
       case RouteSlot(HTTPRoute, nn) =>
         && c.target == StatusKey("gateway.networking.k8s.io", "HTTPRoute", nn.namespace, nn.name)
         && c.report == OfRoute(m.routes[HTTPRoute][nn].value)
       case RouteSlot(GRPCRoute, nn) =>
         && c.target == StatusKey("gateway.networking.k8s.io", "GRPCRoute", nn.namespace, nn.name)
         && c.report == OfRoute(m.routes[GRPCRoute][nn].value)
       case RouteSlot(TCPRoute, nn) =>
         && c.target == StatusKey("gateway.networking.k8s.io", "TCPRoute", nn.namespace, nn.name)
         && c.report == OfRoute(m.routes[TCPRoute][nn].value)
       case RouteSlot(TLSRoute, nn) =>
         && c.target == StatusKey("gateway.networking.k8s.io", "TLSRoute", nn.namespace, nn.name)
         && c.report == OfRoute(m.routes[TLSRoute][nn].value)
       case PolicySlot(key) =>
         && c.target == StatusKey(key.group, key.kind, key.namespace, key.name)
         && c.report == OfPolicy(m.policies[key].value)
       case BackendSlot(nn) =>
         && c.target == StatusKey("gateway.kgateway.dev", "Backend", nn.namespace, nn.name)
         && c.report == OfBackend(m.backends[nn].value)
  }

  /** Entry i of `made` describes slot i of `order`; no slot is used twice. */
  ghost predicate AllDescribe(made: seq<Contribution>, source: Source, m: ReportMap, order: seq<Slot>) {
    && |made| == |order|
    && NoRepeats(order)
    && forall i :: 0 <= i < |order| ==> Describes(made[i], source, m, order[i])
  }

  /** `order` lists the slots of `done` that hold a report. */
  ghost predicate Lists(order: seq<Slot>, m: ReportMap, done: set<Slot>) {
    forall s :: s in order <==> s in done && Present(m, s)
  }

  lemma MadeDescribes(source: Source, m: ReportMap, slot: Slot)
    ensures Present(m, slot) <==> At(m, slot).Some?
    ensures At(m, slot).Some? ==> Describes(Made(source, m, slot), source, m, slot)
  {
    match slot
    case RouteSlot(HTTPRoute, nn) =>
    case RouteSlot(GRPCRoute, nn) =>
    case RouteSlot(TCPRoute, nn) =>
    case RouteSlot(TLSRoute, nn) =>
    case _ =>
  }

  /** A description leaves nothing open. */
  lemma DescribedTarget(c: Contribution, source: Source, m: ReportMap, slot: Slot)
    requires Describes(c, source, m, slot)
    ensures At(m, slot).Some? && c == Made(source, m, slot)
  {
    match slot
    case RouteSlot(HTTPRoute, nn) =>
    case RouteSlot(GRPCRoute, nn) =>
    case RouteSlot(TCPRoute, nn) =>
    case RouteSlot(TLSRoute, nn) =>
    case _ =>
  }

  /** One of the loops of StatusContributionsFromReportMap: the slots of one map in any order. */
  method AppendSlots(contributions: seq<Contribution>, ghost order: seq<Slot>, source: Source, m: ReportMap,
                     ghost done: set<Slot>, slots: set<Slot>)
    returns (longer: seq<Contribution>, ghost longerOrder: seq<Slot>)
    requires AllDescribe(contributions, source, m, order) && Lists(order, m, done)
    requires done !! slots
    ensures AllDescribe(longer, source, m, longerOrder) && Lists(longerOrder, m, done + slots)
  {
    longer, longerOrder := contributions, order;
    var todo := slots;
    assert done + (slots - todo) == done;
    while todo != {}
      invariant todo <= slots
      invariant AllDescribe(longer, source, m, longerOrder)
      invariant Lists(longerOrder, m, done + (slots - todo))
      decreases todo
    {
      var s :| s in todo;
      assert s !in longerOrder;
      todo := todo - {s};
      MadeDescribes(source, m, s);
      if At(m, s).Some? {
        longer, longerOrder := longer + [Made(source, m, s)], longerOrder + [s];
      }
    }
    assert done + (slots - todo) == done + slots;
  }

  function AllRouteSlots(m: ReportMap): set<Slot> {
    RouteSlots(m, HTTPRoute) + RouteSlots(m, GRPCRoute) + RouteSlots(m, TCPRoute) + RouteSlots(m, TLSRoute)
  }

  function AllSlots(m: ReportMap): set<Slot> {
    GatewaySlots(m) + ListenerSetSlots(m) + AllRouteSlots(m) + PolicySlots(m) + BackendSlots(m)
  }

  lemma AllSlotsHold(m: ReportMap, slot: Slot)
    requires Present(m, slot)
    ensures slot in AllSlots(m)
  {
    match slot
    case GatewaySlot(nn) =>
    case ListenerSetSlot(gvk, nn) =>
    case RouteSlot(k, nn) => RouteSlotsHold(m, k, nn);
    case PolicySlot(k) =>
    case BackendSlot(nn) =>
  }

  lemma RouteSlotsHold(m: ReportMap, k: RouteKind, nn: NamespacedName)
    requires RouteReported(m, k, nn)
    ensures RouteSlot(k, nn) in AllRouteSlots(m)
  {
    assert RouteSlot(k, nn) in RouteSlots(m, k);
    match k
    case HTTPRoute =>
    case GRPCRoute =>
    case TCPRoute =>
    case TLSRoute =>
  }

  /** The four appendRoutes calls. */
  method AppendRoutes(contributions: seq<Contribution>, ghost order: seq<Slot>, source: Source, m: ReportMap,
                      ghost done: set<Slot>)
    returns (longer: seq<Contribution>, ghost longerOrder: seq<Slot>)
    requires AllDescribe(contributions, source, m, order) && Lists(order, m, done)
    requires forall s :: s in done ==> !s.RouteSlot?
    ensures AllDescribe(longer, source, m, longerOrder) && Lists(longerOrder, m, done + AllRouteSlots(m))
  {
    ghost var d := done;
    longer, longerOrder := AppendSlots(contributions, order, source, m, d, RouteSlots(m, HTTPRoute));
    d := d + RouteSlots(m, HTTPRoute);
    longer, longerOrder := AppendSlots(longer, longerOrder, source, m, d, RouteSlots(m, GRPCRoute));
    d := d + RouteSlots(m, GRPCRoute);
    longer, longerOrder := AppendSlots(longer, longerOrder, source, m, d, RouteSlots(m, TCPRoute));
    d := d + RouteSlots(m, TCPRoute);
    longer, longerOrder := AppendSlots(longer, longerOrder, source, m, d, RouteSlots(m, TLSRoute));
    assert d + RouteSlots(m, TLSRoute) == done + AllRouteSlots(m);
  }

  method AppendAll(source: Source, m: ReportMap) returns (cs: seq<Contribution>, ghost order: seq<Slot>)
    ensures AllDescribe(cs, source, m, order) && Lists(order, m, AllSlots(m))
  {
    ghost var d: set<Slot> := {};
    cs, order := AppendSlots([], [], source, m, d, GatewaySlots(m));
    d := d + GatewaySlots(m);
    cs, order := AppendSlots(cs, order, source, m, d, ListenerSetSlots(m));
    d := d + ListenerSetSlots(m);
    cs, order := AppendRoutes(cs, order, source, m, d);
    d := d + AllRouteSlots(m);
    cs, order := AppendSlots(cs, order, source, m, d, PolicySlots(m));
    d := d + PolicySlots(m);
    cs, order := AppendSlots(cs, order, source, m, d, BackendSlots(m));
    assert d + BackendSlots(m) == AllSlots(m);
  }

  /** `order` lists the reports of the map, each once, and `contributions` is a sort of one
      contribution for each. */
  ghost predicate SplitOf(contributions: seq<Contribution>, source: Source, m: ReportMap, order: seq<Slot>) {
    && (forall s :: s in order <==> Present(m, s))
    && exists made: seq<Contribution> ::
         AllDescribe(made, source, m, order) && SortOf(contributions, made, CompareContributions)
  }

  method StatusContributionsFromReportMap(source: Source, m: ReportMap) returns (contributions: seq<Contribution>)
    ensures exists order :: SplitOf(contributions, source, m, order)
  {
    ghost var order;
    var cs;
    cs, order := AppendAll(source, m);
    forall s | Present(m, s) ensures s in AllSlots(m) { AllSlotsHold(m, s); }
    contributions := StableSort(cs, CompareContributions);
    ComparatorOrders(cs);
    StableSortSorts(cs, CompareContributions);
    assert SplitOf(contributions, source, m, order);
  }

  ghost predicate StrictlySorted(cs: seq<Contribution>) {
    forall i, j :: 0 <= i < j < |cs| ==> CompareContributions(cs[i], cs[j]) < 0
  }

  /** One of the kinds with a fixed group and kind reports this name. */
  ghost predicate FixedKindReports(m: ReportMap, group: string, kind: string, nn: NamespacedName) {
    || (&& group == "gateway.networking.k8s.io"
        && (|| (kind == "Gateway" && GatewayReported(m, nn))
            || (kind == "HTTPRoute" && RouteReported(m, HTTPRoute, nn))
            || (kind == "GRPCRoute" && RouteReported(m, GRPCRoute, nn))
            || (kind == "TCPRoute" && RouteReported(m, TCPRoute, nn))
            || (kind == "TLSRoute" && RouteReported(m, TLSRoute, nn))))
    || (group == "gateway.kgateway.dev" && kind == "Backend" && BackendReported(m, nn))
  }

  /** Two versions of one kind. */
  ghost predicate SameKind(a: GroupVersionKind, b: GroupVersionKind) {
    a.group == b.group && a.kind == b.kind && a.version != b.version
  }

  /** No name is reported twice for one group and kind: not by two versions of a listener-set
      kind, not by a listener set or a policy and a kind of fixed name, not by a policy and a
      listener set. */
  ghost predicate KeysDistinct(m: ReportMap) {
    && (forall a, b, nn :: SameKind(a, b) && ListenerSetReported(m, a, nn) ==> !ListenerSetReported(m, b, nn))
    && (forall gvk, nn :: ListenerSetReported(m, gvk, nn) ==> !FixedKindReports(m, gvk.group, gvk.kind, nn))
    && (forall key :: PolicyReported(m, key) ==>
          !FixedKindReports(m, key.group, key.kind, NamespacedName(key.namespace, key.name)))
    && (forall key, version :: PolicyReported(m, key) ==>
          !ListenerSetReported(m, GroupVersionKind(key.group, version, key.kind),
                               NamespacedName(key.namespace, key.name)))
  }

  ghost predicate SlotsDistinct(m: ReportMap) {
    forall s, t :: Present(m, s) && Present(m, t) && Target(s) == Target(t) ==> s == t
  }

  predicate FixedKind(s: Slot) { s.GatewaySlot? || s.RouteSlot? || s.BackendSlot? }

  lemma FixedKindsApart(s: Slot, t: Slot)
    requires FixedKind(s) && FixedKind(t) && s != t
    ensures Target(s) != Target(t)
  {
    var d := "gateway.kgateway.dev";
    assert GATEWAY_GROUP[8] == 'n' && d[8] == 'k';
    assert "Gateway"[1] == 'a' && "HTTPRoute"[1] == 'T' && "GRPCRoute"[1] == 'R';
    assert "TCPRoute"[1] == 'C' && "TLSRoute"[1] == 'L';
  }

  lemma FixedKindAt(m: ReportMap, s: Slot)
    requires FixedKind(s)
    ensures Present(m, s) <==> FixedKindReports(m, Target(s).group, Target(s).kind, s.nn)
  {
    var d := "gateway.kgateway.dev";
    assert GATEWAY_GROUP[8] == 'n' && d[8] == 'k';
    assert "Gateway"[1] == 'a' && "HTTPRoute"[1] == 'T' && "GRPCRoute"[1] == 'R';
    assert "TCPRoute"[1] == 'C' && "TLSRoute"[1] == 'L';
  }

  lemma FixedKindSlot(m: ReportMap, group: string, kind: string, nn: NamespacedName) returns (s: Slot)
    requires FixedKindReports(m, group, kind, nn)
    ensures FixedKind(s) && Present(m, s) && Target(s) == StatusKey(group, kind, nn.namespace, nn.name)
  {
    s := if group == "gateway.kgateway.dev" && kind == "Backend" && BackendReported(m, nn) then BackendSlot(nn)
         else if kind == "Gateway" then GatewaySlot(nn)
         else RouteSlot(if kind == "HTTPRoute" then HTTPRoute else if kind == "GRPCRoute" then GRPCRoute
                        else if kind == "TCPRoute" then TCPRoute else TLSRoute, nn);
  }

  lemma FixedKindAndOther(m: ReportMap, s: Slot, t: Slot)
    requires KeysDistinct(m) && Present(m, s) && Present(m, t) && FixedKind(s) && !FixedKind(t)
    ensures Target(s) != Target(t)
  {
    FixedKindAt(m, s);
    assert s.nn == NamespacedName(Target(s).namespace, Target(s).name);
    if t.PolicySlot? {
      assert !FixedKindReports(m, t.key.group, t.key.kind, NamespacedName(t.key.namespace, t.key.name));
    } else {
      assert t.nn == NamespacedName(Target(t).namespace, Target(t).name);
    }
  }

  lemma PolicyAndListenerSet(m: ReportMap, s: Slot, t: Slot)
    requires KeysDistinct(m) && Present(m, s) && Present(m, t) && s.PolicySlot? && t.ListenerSetSlot?
    ensures Target(s) != Target(t)
  {
    assert t.nn == NamespacedName(Target(t).namespace, Target(t).name);
    assert t.gvk == GroupVersionKind(t.gvk.group, t.gvk.version, t.gvk.kind);
  }

  lemma DistinctKeysDistinctSlots(m: ReportMap, s: Slot, t: Slot)
    requires KeysDistinct(m) && Present(m, s) && Present(m, t) && s != t
    ensures Target(s) != Target(t)
  {
    if FixedKind(s) && FixedKind(t) {
      FixedKindsApart(s, t);
    } else if FixedKind(s) {
      FixedKindAndOther(m, s, t);
    } else if FixedKind(t) {
      FixedKindAndOther(m, t, s);
    } else if s.PolicySlot? && t.ListenerSetSlot? {
      PolicyAndListenerSet(m, s, t);
    } else if t.PolicySlot? && s.ListenerSetSlot? {
      PolicyAndListenerSet(m, t, s);
    } else if s.ListenerSetSlot? {
      assert s.nn == NamespacedName(Target(s).namespace, Target(s).name);
      assert t.nn == NamespacedName(Target(t).namespace, Target(t).name);
    }
  }

  lemma FixedKindClash(m: ReportMap, s: Slot, nn: NamespacedName)
    requires SlotsDistinct(m) && Present(m, s) && !FixedKind(s)
    requires Target(s).namespace == nn.namespace && Target(s).name == nn.name
    ensures !FixedKindReports(m, Target(s).group, Target(s).kind, nn)
  {
    if FixedKindReports(m, Target(s).group, Target(s).kind, nn) {
      var f := FixedKindSlot(m, Target(s).group, Target(s).kind, nn);
    }
  }

  lemma DistinctSlotsDistinctKeys(m: ReportMap)
    requires SlotsDistinct(m)
    ensures KeysDistinct(m)
  {
    forall a, b, nn | SameKind(a, b) && ListenerSetReported(m, a, nn)
      ensures !ListenerSetReported(m, b, nn)
    {
      assert ListenerSetSlot(a, nn) != ListenerSetSlot(b, nn);
      assert Target(ListenerSetSlot(a, nn)) == Target(ListenerSetSlot(b, nn));
    }
    forall gvk, nn | ListenerSetReported(m, gvk, nn) ensures !FixedKindReports(m, gvk.group, gvk.kind, nn) {
      FixedKindClash(m, ListenerSetSlot(gvk, nn), nn);
    }
    forall key | PolicyReported(m, key)
      ensures !FixedKindReports(m, key.group, key.kind, NamespacedName(key.namespace, key.name))
    {
      FixedKindClash(m, PolicySlot(key), NamespacedName(key.namespace, key.name));
    }
    forall key, version | PolicyReported(m, key)
      ensures !ListenerSetReported(m, GroupVersionKind(key.group, version, key.kind),
                                   NamespacedName(key.namespace, key.name))
    {
      var slot := ListenerSetSlot(GroupVersionKind(key.group, version, key.kind),
                                  NamespacedName(key.namespace, key.name));
      assert Target(slot) == Target(PolicySlot(key));
    }
  }

  ghost predicate DistinctTargets(cs: seq<Contribution>) {
    forall i, j :: 0 <= i < j < |cs| ==> cs[i].target != cs[j].target
  }

  /** Distinct targets survive any reordering. */
  lemma DistinctTargetsAnyOrder(a: seq<Contribution>, b: seq<Contribution>)
    requires multiset(a) == multiset(b) && DistinctTargets(a)
    ensures DistinctTargets(b)
  {
    NoRepeatsAnyOrder(a, b);
    SameElements(a, b);
    forall i, j | 0 <= i < j < |b| ensures b[i].target != b[j].target {
      assert b[i] in a && b[j] in a;
      var p :| 0 <= p < |a| && a[p] == b[i];
      var q :| 0 <= q < |a| && a[q] == b[j];
      assert p != q;
    }
  }

  lemma StrictMeansDistinct(cs: seq<Contribution>, source: Source)
    requires SortedBy(cs, CompareContributions) && forall c :: c in cs ==> c.source == source
    ensures StrictlySorted(cs) <==> DistinctTargets(cs)
  {
    forall i, j | 0 <= i < j < |cs|
      ensures CompareContributions(cs[i], cs[j]) <= 0
      ensures CompareContributions(cs[i], cs[j]) == 0 <==> cs[i].target == cs[j].target
    {
      ComparatorLaws(cs[i], cs[j]);
    }
  }

  /** The targets of a split are distinct exactly when the keys of the map are. */
  lemma SplitTargets(source: Source, m: ReportMap, order: seq<Slot>, made: seq<Contribution>)
    requires AllDescribe(made, source, m, order) && forall s :: s in order <==> Present(m, s)
    ensures DistinctTargets(made) <==> KeysDistinct(m)
  {
    forall i | 0 <= i < |order| ensures made[i].target == Target(order[i]) && Present(m, order[i]) {
      DescribedTarget(made[i], source, m, order[i]);
    }
    if KeysDistinct(m) {
      forall i, j | 0 <= i < j < |order| ensures made[i].target != made[j].target {
        DistinctKeysDistinctSlots(m, order[i], order[j]);
      }
    }
    if DistinctTargets(made) {
      forall s, t | Present(m, s) && Present(m, t) && Target(s) == Target(t) ensures s == t {
        var i :| 0 <= i < |order| && order[i] == s;
        var j :| 0 <= j < |order| && order[j] == t;
        assert made[i].target == made[j].target;
      }
      DistinctSlotsDistinctKeys(m);
    }
  }

  /** The split is strictly sorted, so a plain sort leaves nothing to chance, exactly when the
      map reports no name twice for one group and kind. */
  lemma SplitStrictIffKeysDistinct(source: Source, m: ReportMap, order: seq<Slot>, contributions: seq<Contribution>)
    requires SplitOf(contributions, source, m, order)
    ensures StrictlySorted(contributions) <==> KeysDistinct(m)
  {
    var made: seq<Contribution> :| AllDescribe(made, source, m, order)
      && SortOf(contributions, made, CompareContributions);
    SameElements(contributions, made);
    StrictMeansDistinct(contributions, source);
    SplitTargets(source, m, order, made);
    if DistinctTargets(made) { DistinctTargetsAnyOrder(made, contributions); }
    if DistinctTargets(contributions) { DistinctTargetsAnyOrder(contributions, made); }
  }

  /** Two versions of one listener-set kind that report the same name make every split of the
      map repeat a status key. */
  lemma VersionsCollapse(source: Source, m: ReportMap, order: seq<Slot>, contributions: seq<Contribution>,
                         a: GroupVersionKind, b: GroupVersionKind, nn: NamespacedName)
    requires a != b && a.group == b.group && a.kind == b.kind
    requires ListenerSetReported(m, a, nn) && ListenerSetReported(m, b, nn)
    requires SplitOf(contributions, source, m, order)
    ensures !StrictlySorted(contributions)
  {
    SplitStrictIffKeysDistinct(source, m, order, contributions);
  }

  /** Such a map. */
  function TwoVersions(a: GroupVersionKind, b: GroupVersionKind, nn: NamespacedName,
                       report: ListenerSetReport): ReportMap {
    ReportMap(map[], map[a := map[nn := Some(report)], b := map[nn := Some(report)]], map[], map[], map[])
  }

  lemma TwoVersionsCollapse(source: Source, order: seq<Slot>, contributions: seq<Contribution>, a: GroupVersionKind,
                            b: GroupVersionKind, nn: NamespacedName, report: ListenerSetReport)
    requires a != b && a.group == b.group && a.kind == b.kind
    requires SplitOf(contributions, source, TwoVersions(a, b, nn, report), order)
    ensures !StrictlySorted(contributions)
  {
    VersionsCollapse(source, TwoVersions(a, b, nn, report), order, contributions, a, b, nn);
  }

  /** The contributions an owner of status fetches: those for its own key. */
  function ForTarget(cs: seq<Contribution>, key: StatusKey): seq<Contribution> {
    if cs == [] then []
    else ForTarget(cs[..|cs| - 1], key) + (if cs[|cs| - 1].target == key then [cs[|cs| - 1]] else [])
  }

  lemma {:induction false} ForTargetEmpty(cs: seq<Contribution>, key: StatusKey)
    requires forall i :: 0 <= i < |cs| ==> cs[i].target != key
    ensures ForTarget(cs, key) == []
    decreases |cs|
  {
    if cs != [] { ForTargetEmpty(cs[..|cs| - 1], key); }
  }

  lemma {:induction false} ForTargetOne(cs: seq<Contribution>, k: nat)
    requires k < |cs| && DistinctTargets(cs)
    ensures ForTarget(cs, cs[k].target) == [cs[k]]
    decreases |cs|
  {
    var front := cs[..|cs| - 1];
    if k == |cs| - 1 {
      ForTargetEmpty(front, cs[k].target);
    } else {
      ForTargetOne(front, k);
      assert front[k] == cs[k];
    }
  }

  /** Round trip: when the keys are distinct, an object's share of the split is the one
      contribution that describes it, and reducing that gives back the report the map held. */
  lemma SplitThenReduce(source: Source, m: ReportMap, order: seq<Slot>, contributions: seq<Contribution>, slot: Slot,
                        c: Contribution)
    requires SplitOf(contributions, source, m, order) && KeysDistinct(m)
    requires Describes(c, source, m, slot)
    ensures ForTarget(contributions, c.target) == [c]
    ensures ReduceSorted(ForTarget(contributions, c.target)) == Alone(c.report)
  {
    var made: seq<Contribution> :| AllDescribe(made, source, m, order)
      && SortOf(contributions, made, CompareContributions);
    SplitTargets(source, m, order, made);
    DistinctTargetsAnyOrder(made, contributions);
    var k :| 0 <= k < |order| && order[k] == slot;
    DescribedTarget(c, source, m, slot);
    DescribedTarget(made[k], source, m, slot);
    SameElements(contributions, made);
    assert made[k] in contributions;
    var i :| 0 <= i < |contributions| && contributions[i] == made[k];
    ForTargetOne(contributions, i);
    ReduceOne(c);
  }

  lemma ReduceOne(c: Contribution)
    ensures ReduceSorted([c]) == Alone(c.report)
  {
    assert [c][..0] == [];
    assert ReduceSorted([c]) == Fold(NOTHING, c.report);
  }

  function Alone(report: Fragment): Reduced {
    match report
    case OfGateway(g) => NOTHING.(gateway := Some(g))
    case OfListenerSet(l) => NOTHING.(listenerSet := Some(l))
    case OfRoute(r) => NOTHING.(route := Some(r))
    case OfPolicy(p) => NOTHING.(policy := Some(p))
    case OfBackend(b) => NOTHING.(backend := Some(b))
  }
}
