/** Splitting a report map into contributions and reducing the contributions of one
    target (pkg/reports/status_contribution.go, report_map.go). */
module Contributions {
  import opened Common
  import opened Text
  import opened Sorting
  import opened Conditions
  import opened Reports

  datatype StatusKey = StatusKey(group: string, kind: string, namespace: string, name: string)

  datatype Source = Source(kind: string, name: string)

  /** A contribution carries exactly one report. */
  datatype Fragment =
    | OfGateway(gateway: GatewayReport)
    | OfListenerSet(listenerSet: ListenerSetReport)
    | OfRoute(route: RouteReport)
    | OfPolicy(policy: PolicyReport)
    | OfBackend(backend: BackendReport)

  datatype Contribution = Contribution(target: StatusKey, source: Source, report: Fragment)

  function Then(first: int, next: int): int { if first != 0 then first else next }

  /** compareStatusContributions: target, then source, field by field. */
  function CompareContributions(a: Contribution, b: Contribution): int {
    Then(Compare(a.target.group, b.target.group),
    Then(Compare(a.target.kind, b.target.kind),
    Then(Compare(a.target.namespace, b.target.namespace),
    Then(Compare(a.target.name, b.target.name),
    Then(Compare(a.source.kind, b.source.kind),
         Compare(a.source.name, b.source.name))))))
  }

  function Fields(c: Contribution): seq<string> {
    [c.target.group, c.target.kind, c.target.namespace, c.target.name, c.source.kind, c.source.name]
  }

  predicate SameIdentity(a: Contribution, b: Contribution) { a.target == b.target && a.source == b.source }

  function CompareFields(a: seq<string>, b: seq<string>): int
    requires |a| == |b|
  {
    if a == [] then 0 else Then(Compare(a[0], b[0]), CompareFields(a[1..], b[1..]))
  }

  lemma CompareByFields(a: Contribution, b: Contribution)
    ensures CompareContributions(a, b) == CompareFields(Fields(a), Fields(b))
  {
    var fa, fb := Fields(a), Fields(b);
    assert fa[1..][1..] == fa[2..] && fb[1..][1..] == fb[2..];
    assert fa[2..][1..] == fa[3..] && fb[2..][1..] == fb[3..];
    assert fa[3..][1..] == fa[4..] && fb[3..][1..] == fb[4..];
    assert fa[4..][1..] == fa[5..] && fb[4..][1..] == fb[5..];
    assert fa[5..][1..] == [] && fb[5..][1..] == [];
    assert CompareFields(fa[5..], fb[5..]) == Compare(fa[5], fb[5]);
    assert CompareFields(fa[4..], fb[4..]) == Then(Compare(fa[4], fb[4]), CompareFields(fa[5..], fb[5..]));
    assert CompareFields(fa[3..], fb[3..]) == Then(Compare(fa[3], fb[3]), CompareFields(fa[4..], fb[4..]));
    assert CompareFields(fa[2..], fb[2..]) == Then(Compare(fa[2], fb[2]), CompareFields(fa[3..], fb[3..]));
    assert CompareFields(fa[1..], fb[1..]) == Then(Compare(fa[1], fb[1]), CompareFields(fa[2..], fb[2..]));
  }

  lemma {:induction false} CompareFieldsLaws(a: seq<string>, b: seq<string>)
    requires |a| == |b|
    ensures CompareFields(a, b) == -CompareFields(b, a)
    ensures CompareFields(a, b) == 0 <==> a == b
    decreases |a|
  {
    if a != [] {
      CompareLaws(a[0], b[0]);
      CompareFieldsLaws(a[1..], b[1..]);
      assert a == [a[0]] + a[1..] && b == [b[0]] + b[1..];
    }
  }

  lemma {:induction false} CompareFieldsTransitive(a: seq<string>, b: seq<string>, c: seq<string>)
    requires |a| == |b| == |c|
    requires CompareFields(a, b) <= 0 && CompareFields(b, c) <= 0
    ensures CompareFields(a, c) <= 0
    decreases |a|
  {
    if a != [] {
      CompareTransitive(a[0], b[0], c[0]);
      CompareLaws(a[0], b[0]);
      CompareLaws(b[0], c[0]);
      if a[0] == b[0] == c[0] { CompareFieldsTransitive(a[1..], b[1..], c[1..]); }
    }
  }

  /** The comparator is a total order whose ties are equal identities. */
  lemma ComparatorLaws(a: Contribution, b: Contribution)
    ensures CompareContributions(a, b) == -CompareContributions(b, a)
    ensures CompareContributions(a, b) == 0 <==> SameIdentity(a, b)
  {
    CompareByFields(a, b);
    CompareByFields(b, a);
    CompareFieldsLaws(Fields(a), Fields(b));
    var fa, fb := Fields(a), Fields(b);
    assert fa == fb <==> fa[0] == fb[0] && fa[1] == fb[1] && fa[2] == fb[2] && fa[3] == fb[3] && fa[4] == fb[4]
                         && fa[5] == fb[5];
  }

  lemma ComparatorOrders(cs: seq<Contribution>)
    ensures TotalPreorder(cs, CompareContributions)
  {
    forall x, y ensures CompareContributions(x, y) <= 0 || CompareContributions(y, x) <= 0 { ComparatorLaws(x, y); }
    forall x, y, z | CompareContributions(x, y) <= 0 && CompareContributions(y, z) <= 0
      ensures CompareContributions(x, z) <= 0
    {
      CompareByFields(x, y);
      CompareByFields(y, z);
      CompareByFields(x, z);
      CompareFieldsTransitive(Fields(x), Fields(y), Fields(z));
    }
  }

  /** The direction: the first field that differs, in the order target group, kind, namespace,
      name, source kind, name, decides by character order. */
  lemma ComparatorDirection(a: Contribution, b: Contribution)
    ensures a.target == b.target ==>
              (CompareContributions(a, b) < 0 <==>
                 Before(a.source.kind, b.source.kind)
                 || (a.source.kind == b.source.kind && Before(a.source.name, b.source.name)))
    ensures a.target.group == b.target.group && a.target.kind == b.target.kind && a.target != b.target ==>
              (CompareContributions(a, b) < 0 <==>
                 Before(a.target.namespace, b.target.namespace)
                 || (a.target.namespace == b.target.namespace && Before(a.target.name, b.target.name)))
    ensures a.target.group != b.target.group ==>
              (CompareContributions(a, b) < 0 <==> Before(a.target.group, b.target.group))
    ensures a.target.group == b.target.group && a.target.kind != b.target.kind ==>
              (CompareContributions(a, b) < 0 <==> Before(a.target.kind, b.target.kind))
  {
    CompareIsBefore(a.target.group, b.target.group);
    CompareIsBefore(a.target.kind, b.target.kind);
    CompareIsBefore(a.target.namespace, b.target.namespace);
    CompareIsBefore(a.target.name, b.target.name);
    CompareIsBefore(a.source.kind, b.source.kind);
    CompareIsBefore(a.source.name, b.source.name);
  }

  // ---- Reducing

  datatype Reduced = Reduced(gateway: Option<GatewayReport>, listenerSet: Option<ListenerSetReport>,
                             route: Option<RouteReport>, policy: Option<PolicyReport>, backend: Option<BackendReport>)

  const NOTHING := Reduced(None, None, None, None, None)

  /** mergeParentReports: the source's parents overwrite, the generation stays. */
  function MergeParents(dst: RouteReport, src: RouteReport): RouteReport { dst.(parents := dst.parents + src.parents) }

  function MergeAncestors(dst: PolicyReport, src: PolicyReport): PolicyReport {
    dst.(ancestors := dst.ancestors + src.ancestors)
  }

  function Fold(acc: Reduced, report: Fragment): Reduced {
    match report
    case OfGateway(g) => acc.(gateway := Some(g))
    case OfListenerSet(l) => acc.(listenerSet := Some(l))
    case OfRoute(r) => acc.(route := Some(if acc.route.None? then r else MergeParents(acc.route.value, r)))
    case OfPolicy(p) => acc.(policy := Some(if acc.policy.None? then p else MergeAncestors(acc.policy.value, p)))
    case OfBackend(b) => acc.(backend := Some(b))
  }

  function ReduceSorted(cs: seq<Contribution>): Reduced {
    if cs == [] then NOTHING else Fold(ReduceSorted(cs[..|cs| - 1]), cs[|cs| - 1].report)
  }

  /** Sorts the caller's slice in place and folds it. */
  method ReduceStatusContributions(contributions: array<Contribution>) returns (reduced: Reduced)
    modifies contributions
    ensures SortOf(contributions[..], old(contributions[..]), CompareContributions)
    ensures reduced == ReduceSorted(contributions[..])
  {
    var sorted := StableSort(contributions[..], CompareContributions);
    ComparatorOrders(contributions[..]);
    StableSortSorts(contributions[..], CompareContributions);
    SameElements(sorted, contributions[..]);
    forall i | 0 <= i < contributions.Length { contributions[i] := sorted[i]; }
    assert contributions[..] == sorted;
    reduced := NOTHING;
    for n := 0 to contributions.Length
      invariant contributions[..] == sorted
      invariant reduced == ReduceSorted(sorted[..n])
    {
      assert sorted[..n + 1][..n] == sorted[..n];
      reduced := Fold(reduced, contributions[n].report);
    }
    assert sorted[..|sorted|] == sorted;
  }

  ghost predicate DistinctIdentities(cs: seq<Contribution>) {
    forall a, b :: a in cs && b in cs && SameIdentity(a, b) ==> a == b
  }

  /** The reduction does not depend on the order the contributions arrive in. */
  lemma ReduceAnyOrder(a: seq<Contribution>, b: seq<Contribution>, sa: seq<Contribution>, sb: seq<Contribution>)
    requires multiset(a) == multiset(b) && DistinctIdentities(a)
    requires SortOf(sa, a, CompareContributions) && SortOf(sb, b, CompareContributions)
    ensures ReduceSorted(sa) == ReduceSorted(sb)
  {
    forall x, y | x in a && y in a && CompareContributions(x, y) <= 0 && CompareContributions(y, x) <= 0
      ensures x == y
    {
      ComparatorLaws(x, y);
    }
    SortFuncDeterministic(a, b, sa, sb, CompareContributions);
  }

  /** Two contributions of one identity whose two sorts reduce differently. */
  lemma TiesDependOnOrder()
    ensures exists a, b :: SameIdentity(a, b) && ReduceSorted([a, b]) != ReduceSorted([b, a])
                           && SortOf([a, b], [a, b], CompareContributions)
                             && SortOf([b, a], [a, b], CompareContributions)
  {
    var key, src := StatusKey("", "Backend", "ns", "n"), Source("backend-status", "s");
    var a := Contribution(key, src, OfBackend(BackendReport([], 1)));
    var b := Contribution(key, src, OfBackend(BackendReport([], 2)));
    ComparatorLaws(a, b);
    assert [a, b][..1] == [a] && [b, a][..1] == [b];
    assert ReduceSorted([a, b]).backend == Some(BackendReport([], 2))
           && ReduceSorted([b, a]).backend == Some(BackendReport([], 1));
    assert multiset([b, a]) == multiset([a, b]);
    assert SameIdentity(a, b) && SortedBy([a, b], CompareContributions) && SortedBy([b, a], CompareContributions);
  }

  /** What a contribution may say about one part of the result. */
  datatype Part = AnyRoute | Parent(key: ParentRefKey) | AnyPolicy | Ancestor(key: ParentRefKey)
                | AnyGateway | AnyListenerSet | AnyBackend

  predicate Speaks(c: Contribution, part: Part) {
    match part
    case AnyRoute => c.report.OfRoute?
    case Parent(k) => c.report.OfRoute? && k in c.report.route.parents
    case AnyPolicy => c.report.OfPolicy?
    case Ancestor(k) => c.report.OfPolicy? && k in c.report.policy.ancestors
    case AnyGateway => c.report.OfGateway?
    case AnyListenerSet => c.report.OfListenerSet?
    case AnyBackend => c.report.OfBackend?
  }

  /** Of the contributions that report the part, the one with the greatest source. */
  ghost predicate Greatest(cs: seq<Contribution>, c: Contribution, part: Part) {
    c in cs && Speaks(c, part) && forall d :: d in cs && Speaks(d, part) ==> CompareContributions(d, c) <= 0
  }

  ghost predicate Least(cs: seq<Contribution>, c: Contribution, part: Part) {
    c in cs && Speaks(c, part) && forall d :: d in cs && Speaks(d, part) ==> CompareContributions(c, d) <= 0
  }

  ghost predicate Silent(cs: seq<Contribution>, part: Part) { forall c :: c in cs ==> !Speaks(c, part) }

  /** Among the contributions of one target the greatest has the source that no other speaker's
      source comes after: by kind, then by name, in character order. The least is the mirror. */
  lemma GreatestBySource(cs: seq<Contribution>, c: Contribution, part: Part)
    requires forall d :: d in cs ==> d.target == c.target
    ensures Greatest(cs, c, part) <==>
            (c in cs && Speaks(c, part) && forall d :: d in cs && Speaks(d, part) ==> !SourceBefore(c, d))
    ensures Least(cs, c, part) <==>
            (c in cs && Speaks(c, part) && forall d :: d in cs && Speaks(d, part) ==> !SourceBefore(d, c))
  {
    forall d | d in cs
      ensures CompareContributions(d, c) <= 0 <==> !SourceBefore(c, d)
      ensures CompareContributions(c, d) <= 0 <==> !SourceBefore(d, c)
    {
      ComparatorLaws(c, d);
      ComparatorDirection(c, d);
      ComparatorDirection(d, c);
    }
  }

  ghost predicate SourceBefore(a: Contribution, b: Contribution) {
    Before(a.source.kind, b.source.kind) || (a.source.kind == b.source.kind && Before(a.source.name, b.source.name))
  }

  function Last(cs: seq<Contribution>, part: Part): Option<Contribution> {
    if cs == [] then None
    else if Speaks(cs[|cs| - 1], part) then Some(cs[|cs| - 1]) else Last(cs[..|cs| - 1], part)
  }

  function First(cs: seq<Contribution>, part: Part): Option<Contribution> {
    if cs == [] then None
    else
      var f := First(cs[..|cs| - 1], part);
      if f.Some? then f else if Speaks(cs[|cs| - 1], part) then Some(cs[|cs| - 1]) else None
  }

  lemma {:induction false} LastIsGreatest(cs: seq<Contribution>, part: Part)
    requires SortedBy(cs, CompareContributions)
    ensures Last(cs, part).None? ==> Silent(cs, part)
    ensures Last(cs, part).Some? ==> Greatest(cs, Last(cs, part).value, part)
    decreases |cs|
  {
    if cs != [] {
      var front, last := cs[..|cs| - 1], cs[|cs| - 1];
      SortedPrefix(cs);
      if Speaks(last, part) {
        NoneAboveLast(cs);
      } else {
        LastIsGreatest(front, part);
      }
    }
  }

  lemma {:induction false} FirstIsLeast(cs: seq<Contribution>, part: Part)
    requires SortedBy(cs, CompareContributions)
    ensures First(cs, part).None? ==> Silent(cs, part)
    ensures First(cs, part).Some? ==> Least(cs, First(cs, part).value, part)
    decreases |cs|
  {
    if cs != [] {
      SortedPrefix(cs);
      NoneAboveLast(cs);
      FirstIsLeast(cs[..|cs| - 1], part);
    }
  }

  lemma NoneAboveLast(cs: seq<Contribution>)
    requires cs != [] && SortedBy(cs, CompareContributions)
    ensures forall c :: c in cs ==> CompareContributions(c, cs[|cs| - 1]) <= 0
  {
    ComparatorLaws(cs[|cs| - 1], cs[|cs| - 1]);
    forall c | c in cs ensures CompareContributions(c, cs[|cs| - 1]) <= 0 {
      var i :| 0 <= i < |cs| && cs[i] == c;
    }
  }

  lemma SortedPrefix(cs: seq<Contribution>)
    requires cs != [] && SortedBy(cs, CompareContributions)
    ensures SortedBy(cs[..|cs| - 1], CompareContributions)
    ensures cs == cs[..|cs| - 1] + [cs[|cs| - 1]]
  {
    var front := cs[..|cs| - 1];
    forall i, j | 0 <= i < j < |front| ensures CompareContributions(front[i], front[j]) <= 0 {
      assert front[i] == cs[i] && front[j] == cs[j];
    }
  }

  lemma {:induction false} FoldRoutes(cs: seq<Contribution>, k: ParentRefKey)
    ensures var r := ReduceSorted(cs).route;
            && (r.Some? <==> First(cs, AnyRoute).Some?)
            && (r.Some? ==> First(cs, AnyRoute).value.report.OfRoute?
                            && r.value.observedGeneration == First(cs, AnyRoute).value.report.route.observedGeneration)
            && ((r.Some? && k in r.value.parents) <==> Last(cs, Parent(k)).Some?)
            && (Last(cs, Parent(k)).Some? ==> Speaks(Last(cs, Parent(k)).value, Parent(k))
                                              && r.value.parents[k]
                                                == Last(cs, Parent(k)).value.report.route.parents[k])
    decreases |cs|
  {
    if cs != [] { FoldRoutes(cs[..|cs| - 1], k); }
  }

  lemma {:induction false} FoldPolicies(cs: seq<Contribution>, k: ParentRefKey)
    ensures var p := ReduceSorted(cs).policy;
            && (p.Some? <==> First(cs, AnyPolicy).Some?)
            && (p.Some? ==> First(cs, AnyPolicy).value.report.OfPolicy?
                            && p.value.observedGeneration
                              == First(cs, AnyPolicy).value.report.policy.observedGeneration)
            && ((p.Some? && k in p.value.ancestors) <==> Last(cs, Ancestor(k)).Some?)
            && (Last(cs, Ancestor(k)).Some? ==> Speaks(Last(cs, Ancestor(k)).value, Ancestor(k))
                                                && p.value.ancestors[k]
                                                  == Last(cs, Ancestor(k)).value.report.policy.ancestors[k])
    decreases |cs|
  {
    if cs != [] { FoldPolicies(cs[..|cs| - 1], k); }
  }

  lemma {:induction false} FoldSingles(cs: seq<Contribution>)
    ensures var r := ReduceSorted(cs);
            && (r.gateway.Some? <==> Last(cs, AnyGateway).Some?)
            && (r.gateway.Some? ==> Last(cs, AnyGateway).value.report == OfGateway(r.gateway.value))
            && (r.listenerSet.Some? <==> Last(cs, AnyListenerSet).Some?)
            && (r.listenerSet.Some? ==> Last(cs, AnyListenerSet).value.report == OfListenerSet(r.listenerSet.value))
            && (r.backend.Some? <==> Last(cs, AnyBackend).Some?)
            && (r.backend.Some? ==> Last(cs, AnyBackend).value.report == OfBackend(r.backend.value))
    decreases |cs|
  {
    if cs != [] { FoldSingles(cs[..|cs| - 1]); }
  }

  lemma GreatestAnyOrder(sorted: seq<Contribution>, input: seq<Contribution>, c: Contribution, part: Part)
    requires multiset(sorted) == multiset(input)
    ensures Greatest(sorted, c, part) <==> Greatest(input, c, part)
    ensures Least(sorted, c, part) <==> Least(input, c, part)
    ensures Silent(sorted, part) <==> Silent(input, part)
  {
    SameElements(sorted, input);
  }

  /** A route parent is reported if some source reports it, and then by the greatest such
      source; the observed generation is the least route source's. */
  lemma RouteSources(input: seq<Contribution>, sorted: seq<Contribution>, k: ParentRefKey)
    requires SortOf(sorted, input, CompareContributions)
    ensures var r := ReduceSorted(sorted).route;
            && (r.None? <==> Silent(input, AnyRoute))
            && (r.Some? ==> exists c :: Least(input, c, AnyRoute)
                                        && r.value.observedGeneration == c.report.route.observedGeneration)
            && (r.Some? ==> (k !in r.value.parents <==> Silent(input, Parent(k))))
            && (r.Some? && k in r.value.parents ==>
                  exists c :: Greatest(input, c, Parent(k)) && r.value.parents[k] == c.report.route.parents[k])
  {
    FoldRoutes(sorted, k);
    FirstIsLeast(sorted, AnyRoute);
    LastIsGreatest(sorted, Parent(k));
    var f, l := First(sorted, AnyRoute), Last(sorted, Parent(k));
    if f.Some? { GreatestAnyOrder(sorted, input, f.value, AnyRoute); }
    if l.Some? { GreatestAnyOrder(sorted, input, l.value, Parent(k)); }
    SameElements(sorted, input);
  }

  /** The same for policy ancestors. */
  lemma PolicySources(input: seq<Contribution>, sorted: seq<Contribution>, k: ParentRefKey)
    requires SortOf(sorted, input, CompareContributions)
    ensures var p := ReduceSorted(sorted).policy;
            && (p.None? <==> Silent(input, AnyPolicy))
            && (p.Some? ==> exists c :: Least(input, c, AnyPolicy)
                                        && p.value.observedGeneration == c.report.policy.observedGeneration)
            && (p.Some? ==> (k !in p.value.ancestors <==> Silent(input, Ancestor(k))))
            && (p.Some? && k in p.value.ancestors ==>
                  exists c :: Greatest(input, c, Ancestor(k)) && p.value.ancestors[k] == c.report.policy.ancestors[k])
  {
    FoldPolicies(sorted, k);
    FirstIsLeast(sorted, AnyPolicy);
    LastIsGreatest(sorted, Ancestor(k));
    var f, l := First(sorted, AnyPolicy), Last(sorted, Ancestor(k));
    if f.Some? { GreatestAnyOrder(sorted, input, f.value, AnyPolicy); }
    if l.Some? { GreatestAnyOrder(sorted, input, l.value, Ancestor(k)); }
    SameElements(sorted, input);
  }

  lemma LastSource(input: seq<Contribution>, sorted: seq<Contribution>, part: Part)
    requires SortOf(sorted, input, CompareContributions)
    ensures Last(sorted, part).None? <==> Silent(input, part)
    ensures Last(sorted, part).Some? ==> Greatest(input, Last(sorted, part).value, part)
  {
    LastIsGreatest(sorted, part);
    SameElements(sorted, input);
    if Last(sorted, part).Some? { GreatestAnyOrder(sorted, input, Last(sorted, part).value, part); }
  }

  /** Single-writer kinds take the greatest source. */
  lemma SingleWriterSources(input: seq<Contribution>, sorted: seq<Contribution>)
    requires SortOf(sorted, input, CompareContributions)
    ensures var r := ReduceSorted(sorted);
            && (r.gateway.None? <==> Silent(input, AnyGateway))
            && (r.gateway.Some? ==> exists c :: Greatest(input, c, AnyGateway)
                                                && c.report == OfGateway(r.gateway.value))
            && (r.listenerSet.None? <==> Silent(input, AnyListenerSet))
            && (r.listenerSet.Some? ==> exists c :: Greatest(input, c, AnyListenerSet)
                                                    && c.report == OfListenerSet(r.listenerSet.value))
            && (r.backend.None? <==> Silent(input, AnyBackend))
            && (r.backend.Some? ==> exists c :: Greatest(input, c, AnyBackend)
                                                && c.report == OfBackend(r.backend.value))
  {
    FoldSingles(sorted);
    LastSource(input, sorted, AnyGateway);
    LastSource(input, sorted, AnyListenerSet);
    LastSource(input, sorted, AnyBackend);
  }

  // ---- When all sorts reduce alike

  /** What a contribution, or a reduced report, says about a part. */
  datatype PartValue =
    | OfParent(parent: Option<ParentRefReport>)
    | OfAncestor(ancestor: Option<AncestorRefReport>)
    | Whole(report: Fragment)
    | Generation(generation: int)

  function Says(c: Contribution, part: Part): PartValue
    requires Speaks(c, part)
  {
    match part
    case AnyRoute => Generation(c.report.route.observedGeneration)
    case Parent(k) => OfParent(c.report.route.parents[k])
    case AnyPolicy => Generation(c.report.policy.observedGeneration)
    case Ancestor(k) => OfAncestor(c.report.policy.ancestors[k])
    case _ => Whole(c.report)
  }

  function PartOf(r: Reduced, part: Part): Option<PartValue> {
    match part
    case AnyRoute => if r.route.Some? then Some(Generation(r.route.value.observedGeneration)) else None
    case Parent(k) =>
      if r.route.Some? && k in r.route.value.parents then Some(OfParent(r.route.value.parents[k])) else None
    case AnyPolicy => if r.policy.Some? then Some(Generation(r.policy.value.observedGeneration)) else None
    case Ancestor(k) =>
      if r.policy.Some? && k in r.policy.value.ancestors then Some(OfAncestor(r.policy.value.ancestors[k])) else None
    case AnyGateway => if r.gateway.Some? then Some(Whole(OfGateway(r.gateway.value))) else None
    case AnyListenerSet => if r.listenerSet.Some? then Some(Whole(OfListenerSet(r.listenerSet.value))) else None
    case AnyBackend => if r.backend.Some? then Some(Whole(OfBackend(r.backend.value))) else None
  }

  /** A generation is the first contribution's; everything else is the last one's. */
  predicate FromFirst(part: Part) { part.AnyRoute? || part.AnyPolicy? }

  function Winner(cs: seq<Contribution>, part: Part): Option<Contribution> {
    if FromFirst(part) then First(cs, part) else Last(cs, part)
  }

  lemma WinnerSays(cs: seq<Contribution>, part: Part)
    ensures Winner(cs, part).Some? ==> Speaks(Winner(cs, part).value, part)
    ensures PartOf(ReduceSorted(cs), part) ==
            if Winner(cs, part).Some? then Some(Says(Winner(cs, part).value, part)) else None
  {
    match part
    case AnyRoute => FoldRoutes(cs, ParentRefKey("", "", "", "", ""));
    case Parent(k) => FoldRoutes(cs, k);
    case AnyPolicy => FoldPolicies(cs, ParentRefKey("", "", "", "", ""));
    case Ancestor(k) => FoldPolicies(cs, k);
    case _ => FoldSingles(cs);
  }

  lemma PartsDetermine(a: Reduced, b: Reduced)
    requires forall part :: PartOf(a, part) == PartOf(b, part)
    ensures a == b
  {
    assert PartOf(a, AnyRoute) == PartOf(b, AnyRoute) && PartOf(a, AnyPolicy) == PartOf(b, AnyPolicy);
    assert PartOf(a, AnyGateway) == PartOf(b, AnyGateway) && PartOf(a, AnyListenerSet) == PartOf(b, AnyListenerSet);
    assert PartOf(a, AnyBackend) == PartOf(b, AnyBackend);
    if a.route.Some? { SameParents(a, b); }
    if a.policy.Some? { SameAncestors(a, b); }
  }

  lemma SameParents(a: Reduced, b: Reduced)
    requires forall part :: PartOf(a, part) == PartOf(b, part)
    requires a.route.Some? && b.route.Some?
    ensures a.route.value.parents == b.route.value.parents
  {
    forall k ensures k in a.route.value.parents <==> k in b.route.value.parents
    { assert PartOf(a, Parent(k)) == PartOf(b, Parent(k)); }
    forall k | k in a.route.value.parents ensures a.route.value.parents[k] == b.route.value.parents[k] {
      assert PartOf(a, Parent(k)) == PartOf(b, Parent(k));
    }
  }

  lemma SameAncestors(a: Reduced, b: Reduced)
    requires forall part :: PartOf(a, part) == PartOf(b, part)
    requires a.policy.Some? && b.policy.Some?
    ensures a.policy.value.ancestors == b.policy.value.ancestors
  {
    forall k ensures k in a.policy.value.ancestors <==> k in b.policy.value.ancestors {
      assert PartOf(a, Ancestor(k)) == PartOf(b, Ancestor(k));
    }
    forall k | k in a.policy.value.ancestors ensures a.policy.value.ancestors[k] == b.policy.value.ancestors[k] {
      assert PartOf(a, Ancestor(k)) == PartOf(b, Ancestor(k));
    }
  }

  ghost predicate Wins(cs: seq<Contribution>, c: Contribution, part: Part) {
    if FromFirst(part) then Least(cs, c, part) else Greatest(cs, c, part)
  }

  /** Contributions that tie for a part say the same about it. */
  ghost predicate WinnersAgree(cs: seq<Contribution>) {
    forall part, c, d :: Wins(cs, c, part) && Wins(cs, d, part) ==> Says(c, part) == Says(d, part)
  }

  lemma WinnerWins(cs: seq<Contribution>, s: seq<Contribution>, part: Part)
    requires SortOf(s, cs, CompareContributions)
    ensures Winner(s, part).None? <==> Silent(cs, part)
    ensures Winner(s, part).Some? ==> Wins(cs, Winner(s, part).value, part)
  {
    SameElements(s, cs);
    LastIsGreatest(s, part);
    FirstIsLeast(s, part);
    if Winner(s, part).Some? { GreatestAnyOrder(s, cs, Winner(s, part).value, part); }
  }

  lemma {:induction false} LastAt(s: seq<Contribution>, part: Part, j: nat)
    requires j < |s| && Speaks(s[j], part) && forall k :: j < k < |s| ==> !Speaks(s[k], part)
    ensures Last(s, part) == Some(s[j])
    decreases |s|
  {
    if j < |s| - 1 { LastAt(s[..|s| - 1], part, j); }
  }

  lemma {:induction false} FirstAt(s: seq<Contribution>, part: Part, j: nat)
    requires j < |s| && Speaks(s[j], part) && forall k :: 0 <= k < j ==> !Speaks(s[k], part)
    ensures First(s, part) == Some(s[j])
    decreases |s|
  {
    if j < |s| - 1 {
      FirstAt(s[..|s| - 1], part, j);
    } else {
      FirstNone(s[..|s| - 1], part);
    }
  }

  lemma {:induction false} FirstNone(s: seq<Contribution>, part: Part)
    requires forall k :: 0 <= k < |s| ==> !Speaks(s[k], part)
    ensures First(s, part).None?
    decreases |s|
  {
    if s != [] { FirstNone(s[..|s| - 1], part); }
  }

  lemma LastSpeaker(s: seq<Contribution>, part: Part, i: nat) returns (j: nat)
    requires i < |s| && Speaks(s[i], part)
    ensures i <= j < |s| && Speaks(s[j], part) && forall k :: j < k < |s| ==> !Speaks(s[k], part)
  {
    j := |s| - 1;
    while !Speaks(s[j], part)
      invariant i <= j < |s|
      invariant forall k :: j < k < |s| ==> !Speaks(s[k], part)
      decreases j
    {
      j := j - 1;
    }
  }

  lemma FirstSpeaker(s: seq<Contribution>, part: Part, i: nat) returns (j: nat)
    requires i < |s| && Speaks(s[i], part)
    ensures j <= i && Speaks(s[j], part) && forall k :: 0 <= k < j ==> !Speaks(s[k], part)
  {
    j := 0;
    while !Speaks(s[j], part)
      invariant j <= i
      invariant forall k :: 0 <= k < j ==> !Speaks(s[k], part)
      decreases i - j
    {
      j := j + 1;
    }
  }

  /** Swapping two contributions that tie and both speak. */
  lemma SwapSpeakers(sorted: seq<Contribution>, i: nat, j: nat, part: Part) returns (s: seq<Contribution>)
    requires SortedBy(sorted, CompareContributions) && i <= j < |sorted|
    requires Speaks(sorted[i], part) && Speaks(sorted[j], part) && CompareContributions(sorted[j], sorted[i]) <= 0
    ensures SortOf(s, sorted, CompareContributions) && |s| == |sorted| && s[i] == sorted[j] && s[j] == sorted[i]
    ensures forall k :: 0 <= k < |s| ==> (Speaks(s[k], part) <==> Speaks(sorted[k], part))
  {
    s := sorted;
    if i < j {
      ComparatorOrders(sorted);
      SwapTied(sorted, i, j, CompareContributions);
      s := sorted[i := sorted[j]][j := sorted[i]];
    }
  }

  lemma WonLast(sorted: seq<Contribution>, i: nat, part: Part) returns (s: seq<Contribution>)
    requires SortedBy(sorted, CompareContributions) && i < |sorted| && Greatest(sorted, sorted[i], part)
    ensures SortOf(s, sorted, CompareContributions) && Last(s, part) == Some(sorted[i])
  {
    var j := LastSpeaker(sorted, part, i);
    assert sorted[j] in sorted;
    s := SwapSpeakers(sorted, i, j, part);
    LastAt(s, part, j);
  }

  lemma WonFirst(sorted: seq<Contribution>, i: nat, part: Part) returns (s: seq<Contribution>)
    requires SortedBy(sorted, CompareContributions) && i < |sorted| && Least(sorted, sorted[i], part)
    ensures SortOf(s, sorted, CompareContributions) && First(s, part) == Some(sorted[i])
  {
    var j := FirstSpeaker(sorted, part, i);
    assert sorted[j] in sorted;
    s := SwapSpeakers(sorted, j, i, part);
    FirstAt(s, part, j);
  }

  lemma SortedPlace(cs: seq<Contribution>, c: Contribution) returns (sorted: seq<Contribution>, i: nat)
    requires c in cs
    ensures SortOf(sorted, cs, CompareContributions) && i < |sorted| && sorted[i] == c
  {
    sorted := StableSort(cs, CompareContributions);
    ComparatorOrders(cs);
    StableSortSorts(cs, CompareContributions);
    SameElements(sorted, cs);
    i :| 0 <= i < |sorted| && sorted[i] == c;
  }

  /** Some sort lets any of the tied contributions win. */
  lemma SortWonBy(cs: seq<Contribution>, c: Contribution, part: Part) returns (s: seq<Contribution>)
    requires Wins(cs, c, part)
    ensures SortOf(s, cs, CompareContributions) && Winner(s, part) == Some(c)
  {
    var sorted, i := SortedPlace(cs, c);
    GreatestAnyOrder(sorted, cs, c, part);
    if FromFirst(part) {
      s := WonFirst(sorted, i, part);
    } else {
      s := WonLast(sorted, i, part);
    }
  }

  lemma AgreeReducesAlike(cs: seq<Contribution>, s: seq<Contribution>, t: seq<Contribution>)
    requires WinnersAgree(cs) && SortOf(s, cs, CompareContributions) && SortOf(t, cs, CompareContributions)
    ensures ReduceSorted(s) == ReduceSorted(t)
  {
    forall part: Part ensures PartOf(ReduceSorted(s), part) == PartOf(ReduceSorted(t), part) {
      WinnerSays(s, part);
      WinnerSays(t, part);
      WinnerWins(cs, s, part);
      WinnerWins(cs, t, part);
    }
    PartsDetermine(ReduceSorted(s), ReduceSorted(t));
  }

  /** Every sort of the contributions reduces to the same report exactly when the contributions
      that tie for a part agree on it. */
  lemma ReduceAlikeIffWinnersAgree(cs: seq<Contribution>)
    ensures (forall s, t :: SortOf(s, cs, CompareContributions) && SortOf(t, cs, CompareContributions) ==>
               ReduceSorted(s) == ReduceSorted(t))
            <==> WinnersAgree(cs)
  {
    if WinnersAgree(cs) {
      forall s, t | SortOf(s, cs, CompareContributions) && SortOf(t, cs, CompareContributions)
        ensures ReduceSorted(s) == ReduceSorted(t)
      {
        AgreeReducesAlike(cs, s, t);
      }
    } else {
      var part, c, d :| Wins(cs, c, part) && Wins(cs, d, part) && Says(c, part) != Says(d, part);
      var s := SortWonBy(cs, c, part);
      var t := SortWonBy(cs, d, part);
      WinnerSays(s, part);
      WinnerSays(t, part);
    }
  }
}
