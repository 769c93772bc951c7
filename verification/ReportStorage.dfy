/** The storage behind the reports (pkg/reports/report_map.go): report pointers, the Go maps
    they hold and the backing arrays of their condition slices. Cloning and merging give
    their result storage of its own. */
module ReportStorage {
  import opened Common
  import opened Conditions
  import R = Reports
  import C = Contributions

  /** What a map entry points at: a listener, parent or ancestor report. Only listener
      reports have supported kinds. */
  class Entry<V> {
    var conditions: array<Condition>
    var kinds: array?<R.RouteGroupKind>
    const rest: V

    constructor (conditions: array<Condition>, kinds: array?<R.RouteGroupKind>, rest: V)
      ensures this.conditions == conditions && this.kinds == kinds && this.rest == rest
    {
      this.conditions, this.kinds, this.rest := conditions, kinds, rest;
    }
  }

  class EntryMap<K(==), V> {
    var m: map<K, Entry?<V>>

    constructor ()
      ensures m == map[]
    {
      m := map[];
    }
  }

  datatype EntryValue<V> = EntryValue(conditions: seq<Condition>, kinds: seq<R.RouteGroupKind>, rest: V)

  /** The entry and its slices lie in `storage`. */
  ghost predicate Holds<V>(storage: set<object>, e: Entry?<V>)
    reads storage
  {
    e != null ==> e in storage && e.conditions in storage && (e.kinds != null ==> e.kinds in storage)
  }

  ghost function ValueOf<V>(storage: set<object>, e: Entry?<V>): Option<EntryValue<V>>
    requires Holds(storage, e)
    reads storage
  {
    if e == null then None
    else Some(EntryValue(e.conditions[..], if e.kinds == null then [] else e.kinds[..], e.rest))
  }

  ghost predicate HoldsAll<K, V>(storage: set<object>, m: map<K, Entry?<V>>)
    reads storage
  {
    forall k :: k in m ==> Holds(storage, m[k])
  }

  ghost function Values<K, V>(storage: set<object>, m: map<K, Entry?<V>>): map<K, Option<EntryValue<V>>>
    requires HoldsAll(storage, m)
    reads storage
  {
    map k | k in m :: ValueOf(storage, m[k])
  }

  /** The shape the five report types share: their own conditions, a map of entries that may
      be nil, and plain fields. */
  class Report<K(==), V, W> {
    var conditions: array<Condition>
    var entries: EntryMap?<K, V>
    const rest: W
    ghost var inner: set<object>

    ghost function Repr(): set<object>
      reads this
    {
      {this, conditions} + inner + if entries == null then {} else ObjectSet(entries)
    }

    ghost predicate Valid()
      reads this, Repr()
    {
      && this !in inner && conditions !in inner
      && (entries != null ==> entries !in inner && HoldsAll(inner, entries.m))
    }

    ghost function EntryValues(): map<K, Option<EntryValue<V>>>
      requires Valid()
      reads this, Repr()
    {
      if entries == null then map[] else Values(inner, entries.m)
    }

    constructor (conditions: array<Condition>, entries: EntryMap?<K, V>, rest: W, ghost inner: set<object>)
      ensures this.conditions == conditions && this.entries == entries && this.rest == rest && this.inner == inner
    {
      this.conditions, this.entries, this.rest, this.inner := conditions, entries, rest, inner;
    }
  }

  ghost function ObjectSet(o: object): set<object> { {o} }

  /** slices.Clone. */
  method CloneSlice<T>(s: array<T>) returns (c: array<T>)
    ensures fresh(c) && c[..] == s[..]
  {
    c := new T[s.Length](i requires 0 <= i < s.Length reads s => s[i]);
  }

  /** The body of the clone loops: nil stays nil, anything else gets its own storage. */
  method CloneEntry<V>(ghost storage: set<object>, e: Entry?<V>) returns (c: Entry?<V>, ghost own: set<object>)
    requires Holds(storage, e)
    ensures fresh(own) && Holds(own, c)
    ensures ValueOf(own, c) == ValueOf(storage, e)
  {
    if e == null { return null, {}; }
    var conditions := CloneSlice(e.conditions);
    var kinds: array?<R.RouteGroupKind> := null;
    own := {conditions};
    if e.kinds != null {
      kinds := CloneSlice(e.kinds);
      own := own + {kinds};
    }
    c := new Entry(conditions, kinds, e.rest);
    own := own + {c};
  }

  lemma AddEntry<K, V>(storage: set<object>, m: map<K, Entry?<V>>, k: K, more: set<object>, c: Entry?<V>)
    requires HoldsAll(storage, m) && Holds(more, c)
    ensures HoldsAll(storage + more, m[k := c])
    ensures Values(storage + more, m[k := c]) == Values(storage, m)[k := ValueOf(more, c)]
  {
  }

  method CopyEntry<K(==), V>(ghost srcStorage: set<object>, e: Entry?<V>, dst: EntryMap<K, V>,
                             ghost storage: set<object>, k: K)
    returns (ghost more: set<object>)
    requires HoldsAll(storage, dst.m) && Holds(srcStorage, e) && dst !in storage && dst !in srcStorage
    modifies dst
    ensures storage <= more && fresh(more - storage) && dst !in more
    ensures HoldsAll(more, dst.m)
    ensures Values(more, dst.m) == old(Values(storage, dst.m))[k := old(ValueOf(srcStorage, e))]
  {
    ghost var own;
    var c;
    c, own := CloneEntry(srcStorage, e);
    AddEntry(storage, dst.m, k, own, c);
    dst.m := dst.m[k := c];
    more := storage + own;
  }

  /** The loops of the clone and merge functions: every entry of `src` is cloned into `dst`. */
  method CopyEntries<K(==), V>(src: map<K, Entry?<V>>, ghost srcStorage: set<object>, dst: EntryMap<K, V>,
                               ghost dstStorage: set<object>)
    returns (ghost storage: set<object>)
    requires HoldsAll(srcStorage, src) && HoldsAll(dstStorage, dst.m)
    requires dst !in srcStorage && dst !in dstStorage
    modifies dst
    ensures dstStorage <= storage && fresh(storage - dstStorage) && dst !in storage
    ensures HoldsAll(storage, dst.m)
    ensures Values(storage, dst.m) == old(Values(dstStorage, dst.m)) + old(Values(srcStorage, src))
  {
    storage := dstStorage;
    var todo := src.Keys;
    ghost var was, all := Values(dstStorage, dst.m), Values(srcStorage, src);
    assert was + (all - todo) == was;
    while todo != {}
      invariant todo <= src.Keys
      invariant dstStorage <= storage && fresh(storage - dstStorage) && dst !in storage
      invariant HoldsAll(storage, dst.m)
      invariant Values(storage, dst.m) == was + (all - todo)
      decreases todo
    {
      var k :| k in todo;
      storage := CopyEntry(srcStorage, src[k], dst, storage, k);
      MapStep(was, all, todo, k);
      todo := todo - {k};
    }
    assert all - todo == all;
  }

  lemma MapStep<K, T>(was: map<K, T>, all: map<K, T>, todo: set<K>, k: K)
    requires k in todo && k in all
    ensures (was + (all - todo))[k := all[k]] == was + (all - (todo - {k}))
  {
  }

  /** clone*Report: equal in value, sharing no storage. */
  method Clone<K(==), V, W>(src: Report<K, V, W>) returns (c: Report<K, V, W>)
    requires src.Valid()
    ensures c.Valid() && fresh(c.Repr())
    ensures c.conditions[..] == src.conditions[..] && c.EntryValues() == old(src.EntryValues()) && c.rest == src.rest
  {
    ghost var was := src.EntryValues();
    var conditions := CloneSlice(src.conditions);
    var entries: EntryMap?<K, V> := null;
    ghost var inner: set<object> := {};
    if src.entries != null {
      entries := new EntryMap();
      inner := CopyEntries(src.entries.m, src.inner, entries, {});
      assert Values(inner, entries.m) == was;
    }
    c := new Report(conditions, entries, src.rest, inner);
    assert c.EntryValues() == was;
  }

  method MakeEntries<K(==), V, W>(dst: Report<K, V, W>)
    requires dst.Valid()
    modifies dst
    ensures dst.Valid() && dst.entries != null && (dst.entries == old(dst.entries) || fresh(dst.entries))
    ensures dst.conditions == old(dst.conditions) && dst.inner == old(dst.inner)
    ensures dst.EntryValues() == old(dst.EntryValues())
  {
    if dst.entries == null {
      dst.entries := new EntryMap();
      assert Values(dst.inner, dst.entries.m) == map[];
    }
  }

  method AddEntries<K(==), V, W>(dst: Report<K, V, W>, src: map<K, Entry?<V>>, ghost srcStorage: set<object>)
    requires dst.Valid() && dst.entries != null
    requires HoldsAll(srcStorage, src) && dst.entries !in srcStorage
    modifies dst, dst.entries
    ensures dst.Valid() && dst.entries == old(dst.entries) && dst.conditions == old(dst.conditions)
    ensures old(dst.inner) <= dst.inner && fresh(dst.inner - old(dst.inner))
    ensures dst.EntryValues() == old(dst.EntryValues()) + old(Values(srcStorage, src))
  {
    ghost var inner := CopyEntries(src, srcStorage, dst.entries, dst.inner);
    dst.inner := inner;
  }

  /** mergeParentReports and mergeAncestorReports: the entries of `src` overwrite those of
      `dst`, in storage that is `dst`'s own. */
  method Merge<K(==), V, W>(dst: Report<K, V, W>, src: Report<K, V, W>)
    requires dst.Valid() && src.Valid() && dst.Repr() !! src.Repr()
    modifies dst, dst.entries
    ensures dst.Valid() && fresh(dst.Repr() - old(dst.Repr())) && dst.conditions == old(dst.conditions)
    ensures dst.EntryValues() == old(dst.EntryValues()) + old(src.EntryValues())
  {
    if src.entries == null || src.entries.m == map[] {
      assert src.EntryValues() == map[];
      return;
    }
    MakeEntries(dst);
    AddEntries(dst, src.entries.m, src.inner);
  }

  // ---- ReduceStatusContributions on this storage

  datatype ListenerFields = ListenerFields(name: string, attachedRoutes: int)

  datatype GatewayFields = GatewayFields(observedGeneration: int, attachedListenerSets: int)

  type GatewayObject = Report<string, ListenerFields, GatewayFields>
  type ListenerSetObject = Report<string, ListenerFields, int>
  type RouteObject = Report<R.ParentRefKey, (), int>
  type PolicyObject = Report<R.ParentRefKey, R.Attachment, int>
  type BackendObject = Report<string, (), int>

  datatype Stored =
    | OfGateway(gateway: GatewayObject)
    | OfListenerSet(listenerSet: ListenerSetObject)
    | OfRoute(route: RouteObject)
    | OfPolicy(policy: PolicyObject)
    | OfBackend(backend: BackendObject)

  /** The reduced status report: pointers, nil until a contribution arrives. */
  datatype Held = Held(gateway: Option<GatewayObject>, listenerSet: Option<ListenerSetObject>,
                       route: Option<RouteObject>,
                       policy: Option<PolicyObject>, backend: Option<BackendObject>)

  function ListenerValue(v: Option<EntryValue<ListenerFields>>): Option<R.ListenerStatus> {
    if v.None? then None
    else Some(R.ListenerStatus(v.value.rest.name, v.value.kinds, v.value.rest.attachedRoutes, v.value.conditions))
  }

  function ParentValue(v: Option<EntryValue<()>>): Option<R.ParentRefReport> {
    if v.None? then None else Some(R.ParentRefReport(v.value.conditions))
  }

  function AncestorValue(v: Option<EntryValue<R.Attachment>>): Option<R.AncestorRefReport> {
    if v.None? then None else Some(R.AncestorRefReport(v.value.conditions, v.value.rest))
  }

  function Mapped<K, A, B>(m: map<K, A>, f: A -> B): map<K, B> { map k | k in m :: f(m[k]) }

  ghost function GatewayValue(o: GatewayObject): R.GatewayReport
    requires o.Valid()
    reads o, o.Repr()
  {
    R.GatewayReport(o.conditions[..], Mapped(o.EntryValues(), ListenerValue), o.rest.observedGeneration,
                    o.rest.attachedListenerSets)
  }

  ghost function ListenerSetValue(o: ListenerSetObject): R.ListenerSetReport
    requires o.Valid()
    reads o, o.Repr()
  {
    R.ListenerSetReport(o.conditions[..], Mapped(o.EntryValues(), ListenerValue), o.rest)
  }

  ghost function RouteValue(o: RouteObject): R.RouteReport
    requires o.Valid()
    reads o, o.Repr()
  {
    R.RouteReport(Mapped(o.EntryValues(), ParentValue), o.rest)
  }

  ghost function PolicyValue(o: PolicyObject): R.PolicyReport
    requires o.Valid()
    reads o, o.Repr()
  {
    R.PolicyReport(Mapped(o.EntryValues(), AncestorValue), o.rest)
  }

  ghost function BackendValue(o: BackendObject): R.BackendReport
    requires o.Valid()
    reads o, o.Repr()
  {
    R.BackendReport(o.conditions[..], o.rest)
  }

  method MergeRoute(dst: RouteObject, src: RouteObject)
    requires dst.Valid() && src.Valid() && dst.Repr() !! src.Repr()
    modifies dst, dst.entries
    ensures dst.Valid() && fresh(dst.Repr() - old(dst.Repr()))
    ensures RouteValue(dst) == C.MergeParents(old(RouteValue(dst)), old(RouteValue(src)))
  {
    Merge(dst, src);
    MappedUnion(old(dst.EntryValues()), old(src.EntryValues()), ParentValue);
  }

  lemma MappedUnion<K, A, B>(a: map<K, A>, b: map<K, A>, f: A -> B)
    ensures Mapped(a + b, f) == Mapped(a, f) + Mapped(b, f)
  {
  }

  method MergePolicy(dst: PolicyObject, src: PolicyObject)
    requires dst.Valid() && src.Valid() && dst.Repr() !! src.Repr()
    modifies dst, dst.entries
    ensures dst.Valid() && fresh(dst.Repr() - old(dst.Repr()))
    ensures PolicyValue(dst) == C.MergeAncestors(old(PolicyValue(dst)), old(PolicyValue(src)))
  {
    Merge(dst, src);
    MappedUnion(old(dst.EntryValues()), old(src.EntryValues()), AncestorValue);
  }

  /** The report pointer is nil, or all it reaches lies in `own`. */
  ghost predicate Within<K, V, W>(own: set<object>, o: Option<Report<K, V, W>>)
    reads own
  {
    o.Some? ==> o.value in own && o.value.Repr() <= own && o.value.Valid()
  }

  ghost function GatewayIn(own: set<object>, o: Option<GatewayObject>): Option<R.GatewayReport>
    requires Within(own, o)
    reads own
  {
    if o.Some? then Some(GatewayValue(o.value)) else None
  }

  ghost function ListenerSetIn(own: set<object>, o: Option<ListenerSetObject>): Option<R.ListenerSetReport>
    requires Within(own, o)
    reads own
  {
    if o.Some? then Some(ListenerSetValue(o.value)) else None
  }

  ghost function RouteIn(own: set<object>, o: Option<RouteObject>): Option<R.RouteReport>
    requires Within(own, o)
    reads own
  {
    if o.Some? then Some(RouteValue(o.value)) else None
  }

  ghost function PolicyIn(own: set<object>, o: Option<PolicyObject>): Option<R.PolicyReport>
    requires Within(own, o)
    reads own
  {
    if o.Some? then Some(PolicyValue(o.value)) else None
  }

  ghost function BackendIn(own: set<object>, o: Option<BackendObject>): Option<R.BackendReport>
    requires Within(own, o)
    reads own
  {
    if o.Some? then Some(BackendValue(o.value)) else None
  }

  /** reduced.Route after a route contribution. */
  method StepRoute(ghost own: set<object>, route: Option<RouteObject>, ghost input: set<object>, o: RouteObject)
    returns (r: Option<RouteObject>, ghost more: set<object>)
    requires Within(own, route) && Within(input, Some(o)) && own !! input
    modifies own
    ensures own <= more && fresh(more - own) && Within(more, r)
    ensures RouteIn(more, r) == Some(if route.None? then old(RouteValue(o))
                                     else C.MergeParents(old(RouteValue(route.value)), old(RouteValue(o))))
  {
    if route.None? {
      var c := Clone(o);
      r, more := Some(c), own + c.Repr();
    } else {
      MergeRoute(route.value, o);
      r, more := route, own + route.value.Repr();
    }
  }

  method StepPolicy(ghost own: set<object>, policy: Option<PolicyObject>, ghost input: set<object>, o: PolicyObject)
    returns (r: Option<PolicyObject>, ghost more: set<object>)
    requires Within(own, policy) && Within(input, Some(o)) && own !! input
    modifies own
    ensures own <= more && fresh(more - own) && Within(more, r)
    ensures PolicyIn(more, r) == Some(if policy.None? then old(PolicyValue(o))
                                      else C.MergeAncestors(old(PolicyValue(policy.value)), old(PolicyValue(o))))
  {
    if policy.None? {
      var c := Clone(o);
      r, more := Some(c), own + c.Repr();
    } else {
      MergePolicy(policy.value, o);
      r, more := policy, own + policy.value.Repr();
    }
  }

  ghost predicate StoredIn(input: set<object>, s: Stored)
    reads input
  {
    match s
    case OfGateway(o) => Within(input, Some(o))
    case OfListenerSet(o) => Within(input, Some(o))
    case OfRoute(o) => Within(input, Some(o))
    case OfPolicy(o) => Within(input, Some(o))
    case OfBackend(o) => Within(input, Some(o))
  }

  ghost function StoredValue(input: set<object>, s: Stored): C.Fragment
    requires StoredIn(input, s)
    reads input
  {
    match s
    case OfGateway(o) => C.OfGateway(GatewayValue(o))
    case OfListenerSet(o) => C.OfListenerSet(ListenerSetValue(o))
    case OfRoute(o) => C.OfRoute(RouteValue(o))
    case OfPolicy(o) => C.OfPolicy(PolicyValue(o))
    case OfBackend(o) => C.OfBackend(BackendValue(o))
  }

  /** The storage of each part of the result. */
  datatype Owned = Owned(gateway: set<object>, listenerSet: set<object>, route: set<object>, policy: set<object>,
                         backend: set<object>) {
    ghost function All(): set<object> { gateway + listenerSet + route + policy + backend }

    ghost predicate Disjoint() { gateway !! listenerSet !! route !! policy !! backend }
  }

  ghost predicate Good(own: Owned, h: Held)
    reads own.All()
  {
    Within(own.gateway, h.gateway) && Within(own.listenerSet, h.listenerSet) && Within(own.route, h.route)
    && Within(own.policy, h.policy) && Within(own.backend, h.backend) && own.Disjoint()
  }

  ghost function HeldValue(own: Owned, h: Held): C.Reduced
    requires Good(own, h)
    reads own.All()
  {
    C.Reduced(GatewayIn(own.gateway, h.gateway), ListenerSetIn(own.listenerSet, h.listenerSet),
              RouteIn(own.route, h.route),
              PolicyIn(own.policy, h.policy), BackendIn(own.backend, h.backend))
  }

  method HoldGateway(ghost own: Owned, h: Held, ghost input: set<object>, o: GatewayObject)
    returns (r: Held, ghost more: Owned)
    requires Good(own, h) && Within(input, Some(o)) && own.All() !! input
    modifies own.All()
    ensures Good(more, r) && own.All() <= more.All() && fresh(more.All() - own.All())
    ensures HeldValue(more, r) == C.Fold(old(HeldValue(own, h)), C.OfGateway(old(GatewayValue(o))))
  {
    var c := Clone(o);
    r, more := h.(gateway := Some(c)), own.(gateway := own.gateway + c.Repr());
  }

  method HoldListenerSet(ghost own: Owned, h: Held, ghost input: set<object>, o: ListenerSetObject)
    returns (r: Held, ghost more: Owned)
    requires Good(own, h) && Within(input, Some(o)) && own.All() !! input
    modifies own.All()
    ensures Good(more, r) && own.All() <= more.All() && fresh(more.All() - own.All())
    ensures HeldValue(more, r) == C.Fold(old(HeldValue(own, h)), C.OfListenerSet(old(ListenerSetValue(o))))
  {
    var c := Clone(o);
    r, more := h.(listenerSet := Some(c)), own.(listenerSet := own.listenerSet + c.Repr());
  }

  method HoldRoute(ghost own: Owned, h: Held, ghost input: set<object>, o: RouteObject)
    returns (r: Held, ghost more: Owned)
    requires Good(own, h) && Within(input, Some(o)) && own.All() !! input
    modifies own.All()
    ensures Good(more, r) && own.All() <= more.All() && fresh(more.All() - own.All())
    ensures HeldValue(more, r) == C.Fold(old(HeldValue(own, h)), C.OfRoute(old(RouteValue(o))))
  {
    var c;
    ghost var m;
    c, m := StepRoute(own.route, h.route, input, o);
    r, more := h.(route := c), own.(route := m);
  }

  method HoldPolicy(ghost own: Owned, h: Held, ghost input: set<object>, o: PolicyObject)
    returns (r: Held, ghost more: Owned)
    requires Good(own, h) && Within(input, Some(o)) && own.All() !! input
    modifies own.All()
    ensures Good(more, r) && own.All() <= more.All() && fresh(more.All() - own.All())
    ensures HeldValue(more, r) == C.Fold(old(HeldValue(own, h)), C.OfPolicy(old(PolicyValue(o))))
  {
    var c;
    ghost var m;
    c, m := StepPolicy(own.policy, h.policy, input, o);
    r, more := h.(policy := c), own.(policy := m);
  }

  method HoldBackend(ghost own: Owned, h: Held, ghost input: set<object>, o: BackendObject)
    returns (r: Held, ghost more: Owned)
    requires Good(own, h) && Within(input, Some(o)) && own.All() !! input
    modifies own.All()
    ensures Good(more, r) && own.All() <= more.All() && fresh(more.All() - own.All())
    ensures HeldValue(more, r) == C.Fold(old(HeldValue(own, h)), C.OfBackend(old(BackendValue(o))))
  {
    var c := Clone(o);
    r, more := h.(backend := Some(c)), own.(backend := own.backend + c.Repr());
  }

  /** One turn of the loop. */
  method ReduceStep(ghost own: Owned, h: Held, ghost input: set<object>, s: Stored) returns (r: Held, ghost more: Owned)
    requires Good(own, h) && StoredIn(input, s) && own.All() !! input
    modifies own.All()
    ensures Good(more, r) && own.All() <= more.All() && fresh(more.All() - own.All())
    ensures HeldValue(more, r) == C.Fold(old(HeldValue(own, h)), old(StoredValue(input, s)))
  {
    match s
    case OfGateway(o) => r, more := HoldGateway(own, h, input, o);
    case OfListenerSet(o) => r, more := HoldListenerSet(own, h, input, o);
    case OfRoute(o) => r, more := HoldRoute(own, h, input, o);
    case OfPolicy(o) => r, more := HoldPolicy(own, h, input, o);
    case OfBackend(o) => r, more := HoldBackend(own, h, input, o);
  }

  ghost function Contribution(input: set<object>, c: StoredContribution): C.Contribution
    requires StoredIn(input, c.report)
    reads input
  {
    C.Contribution(c.target, c.source, StoredValue(input, c.report))
  }

  datatype StoredContribution = StoredContribution(target: C.StatusKey, source: C.Source, report: Stored)

  ghost predicate AllIn(input: set<object>, cs: seq<StoredContribution>)
    reads input
  {
    forall i :: 0 <= i < |cs| ==> StoredIn(input, cs[i].report)
  }

  ghost function Read(input: set<object>, cs: seq<StoredContribution>): seq<C.Contribution>
    requires AllIn(input, cs)
    reads input
  {
    seq(|cs|, i requires 0 <= i < |cs| && AllIn(input, cs) reads input => Contribution(input, cs[i]))
  }

  /** ReduceStatusContributions over sorted contributions whose reports lie in `input`: the
      result has the value of Contributions.ReduceSorted and every object it reaches is new,
      so it shares no storage with any contribution. The contributions are not changed. */
  method ReduceStored(ghost input: set<object>, contributions: seq<StoredContribution>)
    returns (reduced: Held, ghost own: Owned)
    requires AllIn(input, contributions)
    ensures Good(own, reduced) && fresh(own.All())
    ensures AllIn(input, contributions) && Read(input, contributions) == old(Read(input, contributions))
    ensures HeldValue(own, reduced) == C.ReduceSorted(Read(input, contributions))
  {
    ghost var values := Read(input, contributions);
    reduced, own := Held(None, None, None, None, None), Owned({}, {}, {}, {}, {});
    for n := 0 to |contributions|
      invariant AllIn(input, contributions) && Read(input, contributions) == values
      invariant Good(own, reduced) && fresh(own.All())
      invariant HeldValue(own, reduced) == C.ReduceSorted(values[..n])
    {
      assert values[n] == Contribution(input, contributions[n]);
      assert values[..n + 1][..n] == values[..n];
      reduced, own := ReduceStep(own, reduced, input, contributions[n].report);
    }
    assert values[..|values|] == values;
  }
}
