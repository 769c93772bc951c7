/** Attaching ListenerSets to a Gateway (pkg/krtcollections/policy.go,
    namespaceselector.go). */
module ListenerSets {
  import opened Common
  import opened Text
  import opened Sorting

  datatype Listener = Listener(name: string, port: int, protocol: string)

  /** A set fetched from the API may come without its kind. */
  datatype ListenerSet = ListenerSet(gvk: Option<GroupVersionKind>, namespace: string, name: string, created: int,
                                     listeners: seq<Listener>)

  datatype Parent = OfGateway | OfSet(gvk: GroupVersionKind, namespace: string, name: string)

  datatype AttachedListener = AttachedListener(listener: Listener, parent: Parent)

  datatype FromNamespaces = All | Same | FromSelector | NoneFrom | OtherFrom

  datatype Operator = In | NotIn | Exists | DoesNotExist | OtherOperator

  datatype Expression = Expression(key: string, operator: Operator, values: seq<string>)

  datatype LabelSelector = LabelSelector(matchLabels: map<string, string>, matchExpressions: seq<Expression>)

  datatype RouteNamespaces = RouteNamespaces(from: Option<FromNamespaces>, selector: Option<LabelSelector>)

  datatype AllowedListeners = AllowedListeners(namespaces: Option<RouteNamespaces>)

  datatype Denial = NotEnabled | Unparsed | NotAllowed

  datatype AttachedSet = AttachedSet(set_: ListenerSet, err: Option<Denial>)

  const LISTENER_SET := GroupVersionKind("gateway.networking.k8s.io", "v1", "ListenerSet")

  function KindOf(ls: ListenerSet): GroupVersionKind { if ls.gvk.None? then LISTENER_SET else ls.gvk.value }

  /** What the Gateway says about attachment, the labels of the known namespaces, and the
      library's syntax of label keys and values. */
  datatype Config = Config(allowed: Option<AllowedListeners>, parentNamespace: string,
                           namespaces: map<string, map<string, string>>,
                           validKey: string -> bool, validValue: string -> bool)

  // ---- Label selectors, with the meaning Kubernetes gives them

  /** A requirement is refused for its key, a value, an unknown operator or the number of values. */
  predicate BadExpression(cfg: Config, e: Expression) {
    || !cfg.validKey(e.key)
    || e.operator == OtherOperator
    || (e.operator in {In, NotIn} && e.values == [])
    || (e.operator in {Exists, DoesNotExist} && e.values != [])
    || exists i :: 0 <= i < |e.values| && !cfg.validValue(e.values[i])
  }

  /** What Kubernetes admits: a valid key and values, some with In and NotIn, none with Exists and
      DoesNotExist. */
  ghost predicate Admissible(cfg: Config, e: Expression) {
    && cfg.validKey(e.key)
    && (forall i :: 0 <= i < |e.values| ==> cfg.validValue(e.values[i]))
    && match e.operator
       case In => |e.values| > 0
       case NotIn => |e.values| > 0
       case Exists => |e.values| == 0
       case DoesNotExist => |e.values| == 0
       case OtherOperator => false
  }

  lemma BadIsInadmissible(cfg: Config, e: Expression)
    ensures BadExpression(cfg, e) <==> !Admissible(cfg, e)
  {
  }

  predicate Meets(e: Expression, labels: map<string, string>) {
    match e.operator
    case In => e.key in labels && labels[e.key] in e.values
    case NotIn => e.key !in labels || labels[e.key] !in e.values
    case Exists => e.key in labels
    case DoesNotExist => e.key !in labels
    case OtherOperator => false
  }

  ghost predicate BadLabels(cfg: Config, labels: map<string, string>) {
    exists k :: k in labels && !(cfg.validKey(k) && cfg.validValue(labels[k]))
  }

  ghost predicate Malformed(cfg: Config, selector: LabelSelector) {
    || BadLabels(cfg, selector.matchLabels)
    || exists e :: e in selector.matchExpressions && !Admissible(cfg, e)
  }

  predicate Empty(selector: LabelSelector) { selector.matchLabels == map[] && selector.matchExpressions == [] }

  /** Every pair and every expression holds. */
  ghost predicate Matches(selector: LabelSelector, labels: map<string, string>) {
    && selector.matchLabels.Items <= labels.Items
    && forall e :: e in selector.matchExpressions ==> Meets(e, labels)
  }

  predicate MeetsAll(requirements: seq<Expression>, labels: map<string, string>) {
    forall i :: 0 <= i < |requirements| ==> Meets(requirements[i], labels)
  }

  /** The pairs, in any order, each as a requirement for one value. */
  method PairRequirements(cfg: Config, pairs: map<string, string>) returns (requirements: Option<seq<Expression>>)
    ensures requirements.None? <==> BadLabels(cfg, pairs)
    ensures requirements.Some? ==> (requirements.value == [] <==> pairs == map[])
    ensures requirements.Some? ==> forall labels :: MeetsAll(requirements.value, labels) <==>
            pairs.Items <= labels.Items
  {
    var rs: seq<Expression> := [];
    var todo := pairs.Keys;
    while todo != {}
      invariant todo <= pairs.Keys
      invariant forall k :: k in pairs && k !in todo ==> cfg.validKey(k) && cfg.validValue(pairs[k])
                                                         && Expression(k, In, [pairs[k]]) in rs
      invariant forall e :: e in rs ==> e.key in pairs && e == Expression(e.key, In, [pairs[e.key]])
      decreases todo
    {
      var k :| k in todo;
      var e := Expression(k, In, [pairs[k]]);
      if !cfg.validKey(k) || !cfg.validValue(pairs[k]) { return None; }
      rs := rs + [e];
      todo := todo - {k};
    }
    forall labels ensures MeetsAll(rs, labels) <==> pairs.Items <= labels.Items { PairsMean(pairs, rs, labels); }
    if pairs != map[] {
      var k :| k in pairs;
      assert Expression(k, In, [pairs[k]]) in rs;
    }
    if rs != [] { assert rs[0] in rs; }
    return Some(rs);
  }

  lemma PairsMean(pairs: map<string, string>, rs: seq<Expression>, labels: map<string, string>)
    requires forall k :: k in pairs ==> Expression(k, In, [pairs[k]]) in rs
    requires forall e :: e in rs ==> e.key in pairs && e == Expression(e.key, In, [pairs[e.key]])
    ensures MeetsAll(rs, labels) <==> pairs.Items <= labels.Items
  {
    SubsetByItems(pairs, labels);
    if MeetsAll(rs, labels) {
      forall k | k in pairs ensures k in labels && labels[k] == pairs[k] {
        var i :| 0 <= i < |rs| && rs[i] == Expression(k, In, [pairs[k]]);
        assert Meets(rs[i], labels);
      }
    }
    if pairs.Items <= labels.Items {
      forall i | 0 <= i < |rs| ensures Meets(rs[i], labels) { assert rs[i] in rs; }
    }
  }

  /** LabelSelectorAsSelector: None is its error. */
  method AsSelector(cfg: Config, selector: LabelSelector) returns (requirements: Option<seq<Expression>>)
    ensures requirements.None? <==> Malformed(cfg, selector)
    ensures requirements.Some? ==> (requirements.value == [] <==> Empty(selector))
    ensures requirements.Some? ==> forall labels :: MeetsAll(requirements.value, labels) <==> Matches(selector, labels)
  {
    var pairs := PairRequirements(cfg, selector.matchLabels);
    if pairs.None? { return None; }
    for i := 0 to |selector.matchExpressions|
      invariant forall j :: 0 <= j < i ==> Admissible(cfg, selector.matchExpressions[j])
    {
      BadIsInadmissible(cfg, selector.matchExpressions[i]);
      if BadExpression(cfg, selector.matchExpressions[i]) { return None; }
    }
    requirements := Some(pairs.value + selector.matchExpressions);
    forall labels ensures MeetsAll(requirements.value, labels) <==> Matches(selector, labels) {
      MeetsConcat(pairs.value, selector.matchExpressions, labels);
    }
  }

  lemma MeetsConcat(a: seq<Expression>, b: seq<Expression>, labels: map<string, string>)
    ensures MeetsAll(a + b, labels) <==> MeetsAll(a, labels) && forall e :: e in b ==> Meets(e, labels)
  {
    var all := a + b;
    if MeetsAll(all, labels) {
      forall i | 0 <= i < |a| ensures Meets(a[i], labels) { assert all[i] == a[i]; }
      forall e | e in b ensures Meets(e, labels) {
        var i :| 0 <= i < |b| && b[i] == e;
        assert all[|a| + i] == e;
      }
    }
  }

  lemma SubsetByItems(a: map<string, string>, b: map<string, string>)
    ensures (forall k :: k in a ==> k in b && b[k] == a[k]) <==> a.Items <= b.Items
  {
    if a.Items <= b.Items {
      forall k | k in a ensures k in b && b[k] == a[k] { assert (k, a[k]) in a.Items; }
    }
  }

  // ---- Which namespaces may attach

  datatype NamespaceTest =
    | NoNamespace
    | AllNamespace
    | SameNamespace(namespace: string)
    | NamespaceSelector(requirements: seq<Expression>)

  predicate Admits(test: NamespaceTest, namespaces: map<string, map<string, string>>, namespace: string) {
    match test
    case NoNamespace => false
    case AllNamespace => true
    case SameNamespace(ns) => ns == namespace
    case NamespaceSelector(requirements) =>
      if namespace !in namespaces then requirements == [] else MeetsAll(requirements, namespaces[namespace])
  }

  /** AllowedListenerSet: None is its error. */
  method AllowedListenerSet(cfg: Config) returns (test: Option<NamespaceTest>)
    ensures test.None? <==> BadSelector(cfg)
    ensures forall ns :: test.Some? ==> (Admits(test.value, cfg.namespaces, ns) <==> MayAttach(cfg, ns))
  {
    test := Some(NoNamespace);
    if cfg.allowed.Some? {
      var namespaces := cfg.allowed.value.namespaces;
      if namespaces.Some? && namespaces.value.from.Some? {
        match namespaces.value.from.value
        case All => test := Some(AllNamespace);
        case Same => test := Some(SameNamespace(cfg.parentNamespace));
        case FromSelector =>
          if namespaces.value.selector.None? { return None; }
          var requirements := AsSelector(cfg, namespaces.value.selector.value);
          if requirements.None? { return None; }
          test := Some(NamespaceSelector(requirements.value));
        case NoneFrom =>
        case OtherFrom =>
      }
    }
  }

  predicate FromIs(allowed: Option<AllowedListeners>, from: FromNamespaces) {
    allowed.Some? && allowed.value.namespaces.Some? && allowed.value.namespaces.value.from == Some(from)
  }

  /** A selector is asked for but missing or malformed. */
  ghost predicate BadSelector(cfg: Config) {
    && FromIs(cfg.allowed, FromSelector)
    && var selector := cfg.allowed.value.namespaces.value.selector;
    && (selector.None? || Malformed(cfg, selector.value))
  }

  /** A namespace without a record is selected only by the empty selector. */
  ghost predicate Selects(cfg: Config, selector: LabelSelector, ns: string) {
    && !Malformed(cfg, selector)
    && if ns in cfg.namespaces then Matches(selector, cfg.namespaces[ns]) else Empty(selector)
  }

  /** GEP-1713: nothing attaches unless the Gateway says from where. */
  ghost predicate MayAttach(cfg: Config, ns: string) {
    || FromIs(cfg.allowed, All)
    || (FromIs(cfg.allowed, Same) && ns == cfg.parentNamespace)
    || (FromIs(cfg.allowed, FromSelector) && cfg.allowed.value.namespaces.value.selector.Some?
        && Selects(cfg, cfg.allowed.value.namespaces.value.selector.value, ns))
  }

  // ---- Precedence

  function NamespacedName(ls: ListenerSet): string { ls.namespace + ['/'] + ls.name }

  function ComparePrecedence(a: ListenerSet, b: ListenerSet): int {
    if a.created < b.created then -1 else if a.created > b.created then 1
      else Compare(NamespacedName(a), NamespacedName(b))
  }

  /** s is older than t, or equally old and its namespace/name is not above t's. */
  ghost predicate NotAfter(s: ListenerSet, t: ListenerSet) {
    || s.created < t.created
    || (s.created == t.created && !Before(t.namespace + ['/'] + t.name, s.namespace + ['/'] + s.name))
  }

  ghost predicate OldestFirst(sets: seq<ListenerSet>) {
    forall i, j :: 0 <= i < j < |sets| ==> NotAfter(sets[i], sets[j])
  }

  /** The same sets, the oldest first. */
  ghost predicate ByAge(sorted: seq<ListenerSet>, input: seq<ListenerSet>) {
    multiset(sorted) == multiset(input) && OldestFirst(sorted)
  }

  lemma PrecedenceDirection(s: ListenerSet, t: ListenerSet)
    ensures ComparePrecedence(s, t) <= 0 <==> NotAfter(s, t)
  {
    CompareIsBefore(NamespacedName(t), NamespacedName(s));
    CompareLaws(NamespacedName(t), NamespacedName(s));
  }

  lemma SortedIsOldestFirst(sets: seq<ListenerSet>)
    ensures SortedBy(sets, ComparePrecedence) <==> OldestFirst(sets)
  {
    forall i, j | 0 <= i < j < |sets| ensures ComparePrecedence(sets[i], sets[j]) <= 0 <==> NotAfter(sets[i], sets[j]) {
      PrecedenceDirection(sets[i], sets[j]);
    }
  }

  /** Objects of one kind: no slash in a namespace, one object per namespace and name. */
  ghost predicate ProperSets(sets: seq<ListenerSet>) {
    && (forall s :: s in sets ==> SlashFree(s.namespace))
    && (forall s, t :: s in sets && t in sets && s.namespace == t.namespace && s.name == t.name ==> s == t)
  }

  lemma PrecedenceOrders(sets: seq<ListenerSet>)
    ensures TotalPreorder(sets, ComparePrecedence)
  {
    forall x, y ensures ComparePrecedence(x, y) <= 0 || ComparePrecedence(y, x) <= 0
    { CompareLaws(NamespacedName(x), NamespacedName(y)); }
    forall x, y, z | ComparePrecedence(x, y) <= 0 && ComparePrecedence(y, z) <= 0 ensures ComparePrecedence(x, z) <= 0 {
      if x.created == y.created == z.created
      { CompareTransitive(NamespacedName(x), NamespacedName(y), NamespacedName(z)); }
    }
  }

  lemma PrecedenceNoTies(sets: seq<ListenerSet>)
    requires ProperSets(sets)
    ensures NoTies(sets, ComparePrecedence)
  {
    forall x, y | x in sets && y in sets && ComparePrecedence(x, y) <= 0 && ComparePrecedence(y, x) <= 0
      ensures x == y
    {
      CompareLaws(NamespacedName(x), NamespacedName(y));
      SplitUnique('/', x.namespace, x.name, y.namespace, y.name);
    }
  }

  // ---- The partition

  ghost function Verdict(cfg: Config, ls: ListenerSet): Option<Denial> {
    if cfg.allowed.None? then Some(NotEnabled)
    else if BadSelector(cfg) then Some(Unparsed)
    else if !MayAttach(cfg, ls.namespace) then Some(NotAllowed)
    else None
  }

  /** A set attaches exactly where GEP-1713 lets its namespace attach. */
  lemma AllowedIffMayAttach(cfg: Config, ls: ListenerSet)
    ensures Verdict(cfg, ls).None? <==> MayAttach(cfg, ls.namespace)
  {
  }

  type Sets = map<GroupVersionKind, seq<AttachedSet>>

  function Get(sets: Sets, gvk: GroupVersionKind): seq<AttachedSet> { if gvk in sets then sets[gvk] else [] }

  function Append(sets: Sets, gvk: GroupVersionKind, s: AttachedSet): Sets { sets[gvk := Get(sets, gvk) + [s]] }

  function OwnListeners(listeners: seq<Listener>): seq<AttachedListener> {
    seq(|listeners|, i requires 0 <= i < |listeners| => AttachedListener(listeners[i], OfGateway))
  }

  function SetListeners(ls: ListenerSet): seq<AttachedListener> {
    var parent := OfSet(KindOf(ls), ls.namespace, ls.name);
    seq(|ls.listeners|, i requires 0 <= i < |ls.listeners| => AttachedListener(ls.listeners[i], parent))
  }

  /** The sets of one kind that are allowed, or denied, in list order. */
  ghost function Chosen(cfg: Config, sets: seq<ListenerSet>, gvk: GroupVersionKind, allowed: bool): seq<AttachedSet> {
    if sets == [] then []
    else
      var ls := sets[|sets| - 1];
      Chosen(cfg, sets[..|sets| - 1], gvk, allowed)
      + if KindOf(ls) == gvk && Verdict(cfg, ls).None? == allowed then [AttachedSet(ls, Verdict(cfg, ls))] else []
  }

  ghost function AllowedOnly(cfg: Config, sets: seq<ListenerSet>): seq<ListenerSet> {
    if sets == [] then []
    else AllowedOnly(cfg, sets[..|sets| - 1]) + if Verdict(cfg, sets[|sets| - 1]).None? then [sets[|sets| - 1]] else []
  }

  function Flatten(sets: seq<ListenerSet>): seq<AttachedListener> {
    if sets == [] then [] else Flatten(sets[..|sets| - 1]) + SetListeners(sets[|sets| - 1])
  }

  ghost predicate Partitioned(cfg: Config, sets: seq<ListenerSet>, allowedSets: Sets, deniedSets: Sets) {
    forall gvk :: Get(allowedSets, gvk) == Chosen(cfg, sets, gvk, true)
                  && Get(deniedSets, gvk) == Chosen(cfg, sets, gvk, false)
  }

  lemma ChosenSnoc(cfg: Config, sets: seq<ListenerSet>, ls: ListenerSet, gvk: GroupVersionKind, allowed: bool)
    ensures Chosen(cfg, sets + [ls], gvk, allowed) ==
            if KindOf(ls) == gvk && Verdict(cfg, ls).None? == allowed
            then Chosen(cfg, sets, gvk, allowed) + [AttachedSet(ls, Verdict(cfg, ls))]
            else Chosen(cfg, sets, gvk, allowed)
  {
    assert (sets + [ls])[..|sets|] == sets;
  }

  lemma PartitionStep(cfg: Config, sets: seq<ListenerSet>, ls: ListenerSet, allowedSets: Sets, deniedSets: Sets)
    requires Partitioned(cfg, sets, allowedSets, deniedSets)
    ensures var s := AttachedSet(ls, Verdict(cfg, ls));
            if s.err.None? then Partitioned(cfg, sets + [ls], Append(allowedSets, KindOf(ls), s), deniedSets)
            else Partitioned(cfg, sets + [ls], allowedSets, Append(deniedSets, KindOf(ls), s))
  {
    var s := AttachedSet(ls, Verdict(cfg, ls));
    var a := if s.err.None? then Append(allowedSets, KindOf(ls), s) else allowedSets;
    var d := if s.err.None? then deniedSets else Append(deniedSets, KindOf(ls), s);
    forall gvk
      ensures Get(a, gvk) == Chosen(cfg, sets + [ls], gvk, true)
      ensures Get(d, gvk) == Chosen(cfg, sets + [ls], gvk, false)
    {
      ChosenSnoc(cfg, sets, ls, gvk, true);
      ChosenSnoc(cfg, sets, ls, gvk, false);
      assert Get(allowedSets, gvk) == Chosen(cfg, sets, gvk, true)
             && Get(deniedSets, gvk) == Chosen(cfg, sets, gvk, false);
    }
  }

  lemma FlattenStep(cfg: Config, sets: seq<ListenerSet>, ls: ListenerSet)
    ensures Verdict(cfg, ls).None? ==>
            Flatten(AllowedOnly(cfg, sets + [ls])) == Flatten(AllowedOnly(cfg, sets)) + SetListeners(ls)
    ensures Verdict(cfg, ls).Some? ==> Flatten(AllowedOnly(cfg, sets + [ls])) == Flatten(AllowedOnly(cfg, sets))
  {
    assert (sets + [ls])[..|sets|] == sets;
    var front := AllowedOnly(cfg, sets);
    if Verdict(cfg, ls).None? {
      assert AllowedOnly(cfg, sets + [ls]) == front + [ls];
      assert (front + [ls])[..|front|] == front;
    } else {
      assert AllowedOnly(cfg, sets + [ls]) == front;
    }
  }

  method SortByPrecedence(fetched: array<ListenerSet>)
    modifies fetched
    ensures ByAge(fetched[..], old(fetched[..]))
  {
    var sorted := StableSort(fetched[..], ComparePrecedence);
    PrecedenceOrders(fetched[..]);
    StableSortSorts(fetched[..], ComparePrecedence);
    SameElements(sorted, fetched[..]);
    SortedIsOldestFirst(sorted);
    forall i | 0 <= i < fetched.Length { fetched[i] := sorted[i]; }
    assert fetched[..] == sorted;
  }

  ghost predicate Attached(cfg: Config, own: seq<Listener>, sets: seq<ListenerSet>, listeners: seq<AttachedListener>) {
    listeners == OwnListeners(own) + Flatten(AllowedOnly(cfg, sets))
  }

  lemma AttachedStep(cfg: Config, own: seq<Listener>, sets: seq<ListenerSet>, ls: ListenerSet,
                     listeners: seq<AttachedListener>)
    requires Attached(cfg, own, sets, listeners)
    ensures Verdict(cfg, ls).None? ==> Attached(cfg, own, sets + [ls], listeners + SetListeners(ls))
    ensures Verdict(cfg, ls).Some? ==> Attached(cfg, own, sets + [ls], listeners)
  {
    FlattenStep(cfg, sets, ls);
    var o, f, l := OwnListeners(own), Flatten(AllowedOnly(cfg, sets)), SetListeners(ls);
    assert (o + f) + l == o + (f + l);
  }

  /** Where a listener of the Gateway comes from. */
  datatype Origin = FromGateway(k: nat) | FromSet(set_: nat, k: nat)

  /** The Gateway's own first, then set by set; within each in the order of its spec. */
  predicate Earlier(a: Origin, b: Origin) {
    match (a, b)
    case (FromGateway(i), FromGateway(j)) => i < j
    case (FromGateway(_), FromSet(_, _)) => true
    case (FromSet(_, _), FromGateway(_)) => false
    case (FromSet(s, i), FromSet(t, j)) => s < t || (s == t && i < j)
  }

  ghost predicate Attaches(cfg: Config, own: seq<Listener>, sets: seq<ListenerSet>, o: Origin) {
    match o
    case FromGateway(k) => k < |own|
    case FromSet(s, k) => s < |sets| && k < |sets[s].listeners| && MayAttach(cfg, sets[s].namespace)
  }

  ghost predicate IsListener(l: AttachedListener, own: seq<Listener>, sets: seq<ListenerSet>, o: Origin) {
    match o
    case FromGateway(k) => k < |own| && l.listener == own[k] && l.parent == OfGateway
    case FromSet(s, k) =>
      && s < |sets| && k < |sets[s].listeners| && l.listener == sets[s].listeners[k]
      && l.parent.OfSet? && OfKind(sets[s], l.parent.gvk)
      && l.parent.namespace == sets[s].namespace && l.parent.name == sets[s].name
  }

  ghost predicate OfKind(ls: ListenerSet, gvk: GroupVersionKind) {
    || ls.gvk == Some(gvk)
    || (ls.gvk == None && gvk == GroupVersionKind("gateway.networking.k8s.io", "v1", "ListenerSet"))
  }

  /** The listeners are the Gateway's own and those of the sets that may attach, all of them,
      each once, in order. */
  ghost predicate Gathered(listeners: seq<AttachedListener>, origins: seq<Origin>, cfg: Config, own: seq<Listener>,
                           sets: seq<ListenerSet>)
  {
    && |origins| == |listeners|
    && (forall p, q :: 0 <= p < q < |origins| ==> Earlier(origins[p], origins[q]))
    && (forall p :: 0 <= p < |origins| ==> IsListener(listeners[p], own, sets, origins[p]))
    && (forall o :: o in origins <==> Attaches(cfg, own, sets, o))
  }

  lemma {:induction false} AttachedOrigins(cfg: Config, own: seq<Listener>, sets: seq<ListenerSet>)
    returns (origins: seq<Origin>)
    ensures Gathered(OwnListeners(own) + Flatten(AllowedOnly(cfg, sets)), origins, cfg, own, sets)
    decreases |sets|
  {
    if sets == [] {
      origins := seq(|own|, i requires 0 <= i < |own| => FromGateway(i));
      forall o | Attaches(cfg, own, sets, o) ensures o in origins { assert origins[o.k] == o; }
      assert OwnListeners(own) + [] == OwnListeners(own);
    } else {
      var n := |sets| - 1;
      assert sets == sets[..n] + [sets[n]];
      origins := AttachedOrigins(cfg, own, sets[..n]);
      AttachedStep(cfg, own, sets[..n], sets[n], OwnListeners(own) + Flatten(AllowedOnly(cfg, sets[..n])));
      AllowedIffMayAttach(cfg, sets[n]);
      var listeners := OwnListeners(own) + Flatten(AllowedOnly(cfg, sets[..n]));
      if MayAttach(cfg, sets[n].namespace) {
        GatherMore(cfg, own, sets[..n], sets[n], listeners, origins);
        origins := origins + SetOrigins(n, |sets[n].listeners|);
      } else {
        GatherNone(cfg, own, sets[..n], sets[n], listeners, origins);
      }
    }
  }

  function SetOrigins(n: nat, count: nat): seq<Origin> { seq(count, i requires 0 <= i < count => FromSet(n, i)) }

  lemma SameListener(l: AttachedListener, own: seq<Listener>, sets: seq<ListenerSet>, ls: ListenerSet, o: Origin)
    requires IsListener(l, own, sets, o)
    ensures IsListener(l, own, sets + [ls], o)
  {
  }

  lemma AttachesMore(cfg: Config, own: seq<Listener>, sets: seq<ListenerSet>, ls: ListenerSet, o: Origin)
    ensures Attaches(cfg, own, sets + [ls], o) <==>
            || Attaches(cfg, own, sets, o)
            || (o.FromSet? && o.set_ == |sets| && o.k < |ls.listeners| && MayAttach(cfg, ls.namespace))
  {
  }

  lemma GatherNone(cfg: Config, own: seq<Listener>, sets: seq<ListenerSet>, ls: ListenerSet,
                   listeners: seq<AttachedListener>, origins: seq<Origin>)
    requires Gathered(listeners, origins, cfg, own, sets) && !MayAttach(cfg, ls.namespace)
    ensures Gathered(listeners, origins, cfg, own, sets + [ls])
  {
    forall p | 0 <= p < |origins| ensures IsListener(listeners[p], own, sets + [ls], origins[p]) {
      SameListener(listeners[p], own, sets, ls, origins[p]);
    }
    forall o ensures o in origins <==> Attaches(cfg, own, sets + [ls], o) { AttachesMore(cfg, own, sets, ls, o); }
  }

  lemma GatherMore(cfg: Config, own: seq<Listener>, sets: seq<ListenerSet>, ls: ListenerSet,
                   listeners: seq<AttachedListener>, origins: seq<Origin>)
    requires Gathered(listeners, origins, cfg, own, sets) && MayAttach(cfg, ls.namespace)
    ensures Gathered(listeners + SetListeners(ls), origins + SetOrigins(|sets|, |ls.listeners|), cfg, own, sets + [ls])
  {
    var more := SetOrigins(|sets|, |ls.listeners|);
    var all := origins + more;
    forall p | 0 <= p < |all| ensures IsListener((listeners + SetListeners(ls))[p], own, sets + [ls], all[p]) {
      if p < |origins| { SameListener(listeners[p], own, sets, ls, origins[p]); }
    }
    forall o ensures o in all <==> Attaches(cfg, own, sets + [ls], o) {
      AttachesMore(cfg, own, sets, ls, o);
      assert o in all <==> o in origins || o in more;
      if o.FromSet? && o.set_ == |sets| && o.k < |ls.listeners| { assert more[o.k] == o; }
    }
    forall p, q | 0 <= p < q < |all| ensures Earlier(all[p], all[q]) {
      if p < |origins| <= q { assert origins[p] in origins; }
    }
  }

  /** s is older than t, or equally old with its namespace/name below t's. */
  ghost predicate StrictlyBefore(s: ListenerSet, t: ListenerSet) {
    || s.created < t.created
    || (s.created == t.created && Before(s.namespace + ['/'] + s.name, t.namespace + ['/'] + t.name))
  }

  lemma BeforeIsNotAfter(s: ListenerSet, t: ListenerSet)
    ensures StrictlyBefore(s, t) ==> !NotAfter(t, s)
    ensures NotAfter(s, s)
  {
    PrecedenceDirection(s, s);
  }

  lemma LaterListener(listeners: seq<AttachedListener>, origins: seq<Origin>, cfg: Config, own: seq<Listener>,
                      sets: seq<ListenerSet>, p: nat, q: nat, s: nat, t: nat)
    requires Gathered(listeners, origins, cfg, own, sets) && OldestFirst(sets) && p <= q < |origins|
    requires s < |sets| && t < |sets|
    requires origins[p].FromSet? && origins[q].FromSet? && origins[p].set_ == s && origins[q].set_ == t
    ensures NotAfter(sets[s], sets[t])
  {
    assert s <= t;
    if s == t { BeforeIsNotAfter(sets[s], sets[s]); }
  }

  /** Listeners of an older set that may attach precede those of a younger one, and with equal
      age those of the set whose namespace/name is below. */
  lemma OlderSetsFirst(listeners: seq<AttachedListener>, origins: seq<Origin>, cfg: Config, own: seq<Listener>,
                       sets: seq<ListenerSet>, p: nat, q: nat, s: nat, t: nat)
    requires Gathered(listeners, origins, cfg, own, sets) && OldestFirst(sets) && p < |origins| && q < |origins|
    requires s < |sets| && t < |sets| && StrictlyBefore(sets[s], sets[t])
    requires origins[p].FromSet? && origins[q].FromSet? && origins[p].set_ == s && origins[q].set_ == t
    ensures p < q
  {
    BeforeIsNotAfter(sets[s], sets[t]);
    if q <= p { LaterListener(listeners, origins, cfg, own, sets, q, p, t, s); }
  }

  /** The sets of one kind that may attach, or may not, all of them in order, with the reason
      for a denial. */
  ghost predicate Filed(entries: seq<AttachedSet>, at: seq<nat>, cfg: Config, sets: seq<ListenerSet>,
                        gvk: GroupVersionKind, allowed: bool)
  {
    && |at| == |entries|
    && (forall p, q :: 0 <= p < q < |at| ==> at[p] < at[q])
    && (forall p :: 0 <= p < |at| ==> at[p] < |sets| && entries[p].set_ == sets[at[p]])
    && (forall i :: i in at <==> 0 <= i < |sets| && OfKind(sets[i], gvk)
                                 && MayAttach(cfg, sets[i].namespace) == allowed)
    && (forall e :: e in entries ==> e.err == Reason(cfg, allowed))
  }

  ghost function Reason(cfg: Config, allowed: bool): Option<Denial> {
    if allowed then None
    else if cfg.allowed == None then Some(NotEnabled)
    else if BadSelector(cfg) then Some(Unparsed)
    else Some(NotAllowed)
  }

  ghost predicate FiledUnder(entries: seq<AttachedSet>, cfg: Config, sets: seq<ListenerSet>, gvk: GroupVersionKind,
                             allowed: bool)
  {
    exists at :: Filed(entries, at, cfg, sets, gvk, allowed)
  }

  lemma {:induction false} ChosenFiled(cfg: Config, sets: seq<ListenerSet>, gvk: GroupVersionKind, allowed: bool)
    returns (at: seq<nat>)
    ensures Filed(Chosen(cfg, sets, gvk, allowed), at, cfg, sets, gvk, allowed)
    decreases |sets|
  {
    at := [];
    if sets != [] {
      var n := |sets| - 1;
      at := ChosenFiled(cfg, sets[..n], gvk, allowed);
      assert sets == sets[..n] + [sets[n]];
      AllowedIffMayAttach(cfg, sets[n]);
      FileNext(Chosen(cfg, sets[..n], gvk, allowed), at, cfg, sets[..n], gvk, allowed, sets[n]);
      if OfKind(sets[n], gvk) && MayAttach(cfg, sets[n].namespace) == allowed { at := at + [n]; }
    }
  }

  lemma FileNext(entries: seq<AttachedSet>, at: seq<nat>, cfg: Config, sets: seq<ListenerSet>, gvk: GroupVersionKind,
                 allowed: bool, ls: ListenerSet)
    requires Filed(entries, at, cfg, sets, gvk, allowed)
    ensures if OfKind(ls, gvk) && MayAttach(cfg, ls.namespace) == allowed
            then Filed(entries + [AttachedSet(ls, Reason(cfg, allowed))], at + [|sets|], cfg, sets + [ls], gvk, allowed)
            else Filed(entries, at, cfg, sets + [ls], gvk, allowed)
  {
    var all := sets + [ls];
    assert forall i :: 0 <= i < |sets| ==> all[i] == sets[i];
    assert forall p :: 0 <= p < |at| ==> at[p] in at && at[p] < |sets|;
  }

  lemma PartitionFiled(cfg: Config, sets: seq<ListenerSet>, allowedSets: Sets, deniedSets: Sets)
    requires Partitioned(cfg, sets, allowedSets, deniedSets)
    ensures forall gvk :: FiledUnder(Get(allowedSets, gvk), cfg, sets, gvk, true)
    ensures forall gvk :: FiledUnder(Get(deniedSets, gvk), cfg, sets, gvk, false)
  {
    forall gvk
      ensures FiledUnder(Get(allowedSets, gvk), cfg, sets, gvk, true)
      ensures FiledUnder(Get(deniedSets, gvk), cfg, sets, gvk, false)
    {
      var a := ChosenFiled(cfg, sets, gvk, true);
      var d := ChosenFiled(cfg, sets, gvk, false);
      assert Get(allowedSets, gvk) == Chosen(cfg, sets, gvk, true);
    }
  }

  /** The ListenerSet part of GatewaysForEnvoyTransformationFunc. */
  method Attach(cfg: Config, own: seq<Listener>, fetched: array<ListenerSet>)
    returns (listeners: seq<AttachedListener>, allowedSets: Sets, deniedSets: Sets)
    modifies fetched
    ensures ByAge(fetched[..], old(fetched[..]))
    ensures exists origins :: Gathered(listeners, origins, cfg, own, fetched[..])
    ensures forall gvk :: FiledUnder(Get(allowedSets, gvk), cfg, fetched[..], gvk, true)
    ensures forall gvk :: FiledUnder(Get(deniedSets, gvk), cfg, fetched[..], gvk, false)
    ensures Attached(cfg, own, fetched[..], listeners)
    ensures Partitioned(cfg, fetched[..], allowedSets, deniedSets)
  {
    listeners, allowedSets, deniedSets := OwnListeners(own), map[], map[];
    var test := AllowedListenerSet(cfg);
    SortByPrecedence(fetched);
    ghost var sorted := fetched[..];
    for n := 0 to fetched.Length
      invariant fetched[..] == sorted
      invariant Attached(cfg, own, sorted[..n], listeners)
      invariant Partitioned(cfg, sorted[..n], allowedSets, deniedSets)
    {
      var ls := fetched[n];
      assert sorted[..n + 1] == sorted[..n] + [ls];
      AttachedStep(cfg, own, sorted[..n], ls, listeners);
      PartitionStep(cfg, sorted[..n], ls, allowedSets, deniedSets);
      var err := if cfg.allowed.None? then Some(NotEnabled)
                 else if test.None? then Some(Unparsed)
                 else if !Admits(test.value, cfg.namespaces, ls.namespace) then Some(NotAllowed)
                 else None;
      assert err == Verdict(cfg, ls);
      if err.Some? {
        deniedSets := Append(deniedSets, KindOf(ls), AttachedSet(ls, err));
      } else {
        allowedSets := Append(allowedSets, KindOf(ls), AttachedSet(ls, None));
        listeners := listeners + SetListeners(ls);
      }
    }
    assert sorted[..|sorted|] == sorted;
    ghost var origins := AttachedOrigins(cfg, own, sorted);
    PartitionFiled(cfg, sorted, allowedSets, deniedSets);
  }

  // ---- What follows

  function CountIn(sets: seq<AttachedSet>, ls: ListenerSet): nat {
    if sets == [] then 0 else CountIn(sets[..|sets| - 1], ls) + if sets[|sets| - 1].set_ == ls then 1 else 0
  }

  /** Every fetched set lands in exactly one of the two maps, under its own kind, as often as
      it was fetched; in the allowed one exactly when its namespace may attach. */
  lemma {:induction false} EachSetOnce(cfg: Config, sets: seq<ListenerSet>, ls: ListenerSet, gvk: GroupVersionKind)
    ensures CountIn(Chosen(cfg, sets, gvk, true), ls) ==
            if gvk == KindOf(ls) && MayAttach(cfg, ls.namespace) then multiset(sets)[ls] else 0
    ensures CountIn(Chosen(cfg, sets, gvk, false), ls) ==
            if gvk == KindOf(ls) && !MayAttach(cfg, ls.namespace) then multiset(sets)[ls] else 0
    decreases |sets|
  {
    if sets != [] {
      var front, last := sets[..|sets| - 1], sets[|sets| - 1];
      assert sets == front + [last];
      EachSetOnce(cfg, front, ls, gvk);
      AllowedIffMayAttach(cfg, last);
      ChosenStep(cfg, front, last, gvk, true, ls);
      ChosenStep(cfg, front, last, gvk, false, ls);
    }
  }

  lemma ChosenStep(cfg: Config, front: seq<ListenerSet>, last: ListenerSet, gvk: GroupVersionKind, allowed: bool,
                   ls: ListenerSet)
    ensures CountIn(Chosen(cfg, front + [last], gvk, allowed), ls) == CountIn(Chosen(cfg, front, gvk, allowed), ls)
            + if last == ls && KindOf(ls) == gvk && Verdict(cfg, ls).None? == allowed then 1 else 0
  {
    assert (front + [last])[..|front|] == front;
    CountSnoc(Chosen(cfg, front, gvk, allowed), AttachedSet(last, Verdict(cfg, last)), ls);
  }

  lemma CountSnoc(sets: seq<AttachedSet>, s: AttachedSet, ls: ListenerSet)
    ensures CountIn(sets + [s], ls) == CountIn(sets, ls) + if s.set_ == ls then 1 else 0
    ensures CountIn(sets + [], ls) == CountIn(sets, ls)
  {
    assert (sets + [s])[..|sets|] == sets && sets + [] == sets;
  }

  /** The allowed sets are those that may attach, and they stay oldest first. */
  lemma AllowedInPrecedenceOrder(cfg: Config, sets: seq<ListenerSet>)
    requires OldestFirst(sets)
    ensures OldestFirst(AllowedOnly(cfg, sets))
    ensures forall s :: s in AllowedOnly(cfg, sets) <==> s in sets && MayAttach(cfg, s.namespace)
  {
    SortedIsOldestFirst(sets);
    AllowedStaySorted(cfg, sets);
    SortedIsOldestFirst(AllowedOnly(cfg, sets));
  }

  lemma {:induction false} AllowedStaySorted(cfg: Config, sets: seq<ListenerSet>)
    requires SortedBy(sets, ComparePrecedence)
    ensures SortedBy(AllowedOnly(cfg, sets), ComparePrecedence)
    ensures forall s :: s in AllowedOnly(cfg, sets) <==> s in sets && MayAttach(cfg, s.namespace)
    decreases |sets|
  {
    if sets != [] {
      var front, last := sets[..|sets| - 1], sets[|sets| - 1];
      assert sets == front + [last];
      SortedFront(front, last, ComparePrecedence);
      AllowedStaySorted(cfg, front);
      AllowedIffMayAttach(cfg, last);
      forall s | s in front ensures ComparePrecedence(s, last) <= 0 {
        var i :| 0 <= i < |front| && front[i] == s;
        assert sets[i] == s && sets[|sets| - 1] == last;
      }
      SortedSnoc(AllowedOnly(cfg, front), last, ComparePrecedence);
    }
  }

  /** The outcome does not depend on the fetch order. */
  lemma AttachAnyOrder(a: seq<ListenerSet>, b: seq<ListenerSet>, sa: seq<ListenerSet>, sb: seq<ListenerSet>)
    requires multiset(a) == multiset(b) && ProperSets(a)
    requires ByAge(sa, a) && ByAge(sb, b)
    ensures sa == sb
  {
    PrecedenceNoTies(a);
    SortedIsOldestFirst(sa);
    SortedIsOldestFirst(sb);
    SortFuncDeterministic(a, b, sa, sb, ComparePrecedence);
  }

  predicate SamePrecedence(x: ListenerSet, y: ListenerSet) {
    x.created == y.created && NamespacedName(x) == NamespacedName(y)
  }

  /** The sort has one answer exactly when no two sets share creation time and namespace/name. */
  lemma OneOrderIffNoTies(sets: seq<ListenerSet>)
    ensures (forall s, t :: ByAge(s, sets) && ByAge(t, sets) ==> s == t) <==>
            (forall x, y :: x in sets && y in sets && SamePrecedence(x, y) ==> x == y)
  {
    PrecedenceOrders(sets);
    OneSortIffNoTies(sets, ComparePrecedence);
    forall s ensures SortOf(s, sets, ComparePrecedence) <==> ByAge(s, sets) { SortedIsOldestFirst(s); }
    forall x, y ensures ComparePrecedence(x, y) <= 0 && ComparePrecedence(y, x) <= 0 <==> SamePrecedence(x, y) {
      CompareLaws(NamespacedName(x), NamespacedName(y));
    }
  }

  /** Both sorts of [s, t] are right, and they give different listeners. */
  ghost predicate BothOrders(cfg: Config, s: ListenerSet, t: ListenerSet) {
    && ByAge([s, t], [s, t]) && ByAge([t, s], [s, t])
    && Flatten(AllowedOnly(cfg, [s, t])) != Flatten(AllowedOnly(cfg, [t, s]))
  }

  /** Every namespace may attach. */
  function Open(parentNamespace: string): Config {
    Config(Some(AllowedListeners(Some(RouteNamespaces(Some(All), None)))), parentNamespace, map[], _ => true, _ => true)
  }

  /** A ListenerSet and an XListenerSet may share creation time, namespace and name. The sort
      may then return either order, and the Gateway's listeners with it. */
  lemma TwoKindsTie(x: GroupVersionKind, namespace: string, name: string, created: int, a: Listener, b: Listener)
    requires x != LISTENER_SET && a != b
    ensures var s := ListenerSet(None, namespace, name, created, [a]);
            var t := ListenerSet(Some(x), namespace, name, created, [b]);
            KindOf(s) != KindOf(t) && BothOrders(Open(namespace), s, t)
  {
    var s, t := ListenerSet(None, namespace, name, created, [a]), ListenerSet(Some(x), namespace, name, created, [b]);
    TieLeavesBothOrders(Open(namespace), s, t);
  }

  lemma TieLeavesBothOrders(cfg: Config, s: ListenerSet, t: ListenerSet)
    requires s.created == t.created && NamespacedName(s) == NamespacedName(t)
    requires MayAttach(cfg, s.namespace) && MayAttach(cfg, t.namespace)
    requires |s.listeners| > 0 && |t.listeners| > 0 && s.listeners[0] != t.listeners[0]
    ensures BothOrders(cfg, s, t)
  {
    assert multiset([t, s]) == multiset([s, t]);
    PrecedenceDirection(s, t);
    PrecedenceDirection(t, s);
    FlattenTwo(cfg, s, t);
    FlattenTwo(cfg, t, s);
    assert (SetListeners(s) + SetListeners(t))[0].listener == s.listeners[0];
    assert (SetListeners(t) + SetListeners(s))[0].listener == t.listeners[0];
  }

  lemma FlattenTwo(cfg: Config, s: ListenerSet, t: ListenerSet)
    requires MayAttach(cfg, s.namespace) && MayAttach(cfg, t.namespace)
    ensures Flatten(AllowedOnly(cfg, [s, t])) == SetListeners(s) + SetListeners(t)
  {
    AllowedIffMayAttach(cfg, s);
    AllowedIffMayAttach(cfg, t);
    FlattenStep(cfg, [s], t);
    FlattenStep(cfg, [], s);
    assert [] + [s] == [s] && [s] + [t] == [s, t];
    assert Flatten(AllowedOnly(cfg, [])) == [];
  }
}
