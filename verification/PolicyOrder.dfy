/** Ordering and grouping the policies attached to an object (pkg/krtcollections/policy.go). */
module PolicyOrder {
  import opened Common
  import opened Text
  import opened Sorting
  import PI = PolicyIndex

  datatype PolicyRef = PolicyRef(group: string, kind: string, namespace: string, name: string, sectionName: string)

  /** A global policy has no reference. */
  datatype PolicyAtt = PolicyAtt(groupKind: GroupKind, ref: Option<PolicyRef>, weight: int, created: int,
                                 generation: int)

  /** AttachedPolicyRef.ID. */
  function Id(ref: PolicyRef): string { Joined([ref.group, ref.kind, ref.namespace, ref.name]) }

  function IdWithSectionName(ref: PolicyRef): string {
    if ref.sectionName != "" then Id(ref) + ['/'] + ref.sectionName else Id(ref)
  }

  /** schema.GroupKind.String. */
  function GroupKindString(gk: GroupKind): string { if gk.group == "" then gk.kind else gk.kind + "." + gk.group }

  function SortKey(a: PolicyAtt): string
  { if a.ref.Some? then IdWithSectionName(a.ref.value) else GroupKindString(a.groupKind) }

  /** How the sort key reads. */
  lemma SortKeyLayout(a: PolicyAtt)
    ensures a.ref.Some? ==>
              var r := a.ref.value;
              SortKey(a) == r.group + "/" + r.kind + "/" + r.namespace + "/" + r.name
                            + if r.sectionName == "" then "" else "/" + r.sectionName
    ensures a.ref.None? ==>
              SortKey(a) == a.groupKind.kind + if a.groupKind.group == "" then "" else "." + a.groupKind.group
  {
    if a.ref.Some? {
      var r := a.ref.value;
      JoinedFour(r.group, r.kind, r.namespace, r.name);
      assert Id(r) + "" == Id(r);
      assert Id(r) + ['/'] + r.sectionName == Id(r) + ("/" + r.sectionName);
    } else {
      var k, g := a.groupKind.kind, a.groupKind.group;
      assert k + "" == k && k + "." + g == k + ("." + g);
    }
  }

  lemma JoinedFour(a: string, b: string, c: string, d: string)
    ensures Joined([a, b, c, d]) == a + "/" + b + "/" + c + "/" + d
  {
    assert [a, b, c, d][1..] == [b, c, d] && [b, c, d][1..] == [c, d] && [c, d][1..] == [d];
    assert Joined([c, d]) == c + "/" + d;
    assert Joined([b, c, d]) == b + "/" + (c + "/" + d);
    assert Joined([a, b, c, d]) == a + "/" + (b + "/" + (c + "/" + d));
    assert a + "/" + (b + "/" + (c + "/" + d)) == a + "/" + b + "/" + (c + "/" + d);
    assert a + "/" + b + "/" + (c + "/" + d) == a + "/" + b + "/" + c + "/" + d;
  }

  function CompareInt(a: int, b: int): int { if a < b then -1 else if a > b then 1 else 0 }

  /** Creation time, then identity. */
  function CompareAge(a: PolicyAtt, b: PolicyAtt): int {
    if a.created != b.created then CompareInt(a.created, b.created) else Compare(SortKey(a), SortKey(b))
  }

  /** The comparator: within a kind a greater weight comes first; weights of different kinds
      are not compared. */
  function ComparePolicies(a: PolicyAtt, b: PolicyAtt): int {
    if a.groupKind == b.groupKind && a.weight > b.weight then -1
    else if a.groupKind == b.groupKind && a.weight < b.weight then 1
    else CompareAge(a, b)
  }

  lemma AgeLaws(a: PolicyAtt, b: PolicyAtt)
    ensures CompareAge(a, b) == -CompareAge(b, a)
    ensures CompareAge(a, b) == 0 <==> a.created == b.created && SortKey(a) == SortKey(b)
  {
    CompareLaws(SortKey(a), SortKey(b));
  }

  lemma AgeTransitive(a: PolicyAtt, b: PolicyAtt, c: PolicyAtt)
    requires CompareAge(a, b) <= 0 && CompareAge(b, c) <= 0
    ensures CompareAge(a, c) <= 0
    ensures CompareAge(a, b) < 0 || CompareAge(b, c) < 0 ==> CompareAge(a, c) < 0
  {
    if a.created == b.created == c.created { CompareTransitive(SortKey(a), SortKey(b), SortKey(c)); }
  }

  /** a is older than b, or equally old with a sort key that is not above b's. */
  ghost predicate NotYounger(a: PolicyAtt, b: PolicyAtt) {
    a.created < b.created || (a.created == b.created && !Before(SortKey(b), SortKey(a)))
  }

  lemma AgeDirection(a: PolicyAtt, b: PolicyAtt)
    ensures CompareAge(a, b) <= 0 <==> NotYounger(a, b)
  {
    CompareIsBefore(SortKey(b), SortKey(a));
    CompareLaws(SortKey(b), SortKey(a));
  }

  /** a may stand before b: within a kind the heavier first, otherwise the older. */
  ghost predicate MayPrecede(a: PolicyAtt, b: PolicyAtt) {
    if a.groupKind == b.groupKind && a.weight != b.weight then a.weight > b.weight else NotYounger(a, b)
  }

  lemma ComparatorDirection(a: PolicyAtt, b: PolicyAtt)
    ensures ComparePolicies(a, b) <= 0 <==> MayPrecede(a, b)
  {
    AgeDirection(a, b);
  }

  /** The comparator is antisymmetric on every pair, whatever the kinds. */
  lemma ComparatorAntisymmetric(a: PolicyAtt, b: PolicyAtt)
    ensures ComparePolicies(a, b) == -ComparePolicies(b, a)
  {
    AgeLaws(a, b);
  }

  ghost predicate OneKind(ps: seq<PolicyAtt>) { forall a, b :: a in ps && b in ps ==> a.groupKind == b.groupKind }

  ghost predicate DistinctKeys(ps: seq<PolicyAtt>)
  { forall a, b :: a in ps && b in ps && SortKey(a) == SortKey(b) ==> a == b }

  /** Attachments a and c of one kind, the heavier a younger than c, and b of another kind
      whose age lies between theirs. */
  ghost predicate Inversion(a: PolicyAtt, b: PolicyAtt, c: PolicyAtt) {
    && a.groupKind == c.groupKind && b.groupKind != a.groupKind
    && a.weight > c.weight
    && NotYounger(c, b) && NotYounger(b, a)
  }

  lemma InversionCompares(a: PolicyAtt, b: PolicyAtt, c: PolicyAtt)
    ensures Inversion(a, b, c) <==>
            && a.groupKind == c.groupKind && b.groupKind != a.groupKind && a.weight > c.weight
            && CompareAge(c, b) <= 0 && CompareAge(b, a) <= 0
  {
    AgeDirection(c, b);
    AgeDirection(b, a);
  }

  ghost predicate NoInversion(ps: seq<PolicyAtt>) {
    forall a, b, c :: a in ps && b in ps && c in ps ==> !Inversion(a, b, c)
  }

  lemma ComparatorStep(x: PolicyAtt, y: PolicyAtt, z: PolicyAtt)
    requires ComparePolicies(x, y) <= 0 && ComparePolicies(y, z) <= 0
    requires !Inversion(x, z, y) && !Inversion(y, x, z) && !Inversion(z, y, x)
    ensures ComparePolicies(x, z) <= 0
  {
    AgeLaws(x, y);
    AgeLaws(y, z);
    AgeLaws(x, z);
    InversionCompares(x, z, y);
    InversionCompares(y, x, z);
    InversionCompares(z, y, x);
    if CompareAge(x, y) <= 0 && CompareAge(y, z) <= 0 { AgeTransitive(x, y, z); }
  }

  /** The comparator orders a list exactly when it holds no inversion. */
  lemma OrdersIffNoInversion(ps: seq<PolicyAtt>)
    ensures TotalPreorder(ps, ComparePolicies) <==> NoInversion(ps)
  {
    forall x, y ensures ComparePolicies(x, y) <= 0 || ComparePolicies(y, x) <= 0 { ComparatorAntisymmetric(x, y); }
    if NoInversion(ps) {
      forall x, y, z | x in ps && y in ps && z in ps && ComparePolicies(x, y) <= 0 && ComparePolicies(y, z) <= 0
        ensures ComparePolicies(x, z) <= 0
      {
        ComparatorStep(x, y, z);
      }
    } else {
      var a, b, c :| a in ps && b in ps && c in ps && Inversion(a, b, c);
      InversionCompares(a, b, c);
      assert ComparePolicies(c, b) <= 0 && ComparePolicies(b, a) <= 0 && ComparePolicies(c, a) == 1;
    }
  }

  lemma TiesShareKey(ps: seq<PolicyAtt>)
    requires DistinctKeys(ps)
    ensures NoTies(ps, ComparePolicies)
  {
    forall a, b | a in ps && b in ps && ComparePolicies(a, b) <= 0 && ComparePolicies(b, a) <= 0 ensures a == b {
      ComparatorAntisymmetric(a, b);
      AgeLaws(a, b);
    }
  }

  /** On one kind with distinct keys: a strict total order. */
  lemma StrictTotalOrder(ps: seq<PolicyAtt>)
    requires OneKind(ps) && DistinctKeys(ps)
    ensures TotalPreorder(ps, ComparePolicies) && NoTies(ps, ComparePolicies)
  {
    OrdersIffNoInversion(ps);
    TiesShareKey(ps);
  }

  // ---- Grouping

  function OfKind(ps: seq<PolicyAtt>, gk: GroupKind): seq<PolicyAtt> {
    if ps == [] then [] else OfKind(ps[..|ps| - 1], gk) + (if ps[|ps| - 1].groupKind == gk then [ps[|ps| - 1]] else [])
  }

  function Group(groups: map<GroupKind, seq<PolicyAtt>>, gk: GroupKind): seq<PolicyAtt>
  { if gk in groups then groups[gk] else [] }

  ghost predicate Grouped(groups: map<GroupKind, seq<PolicyAtt>>, policies: seq<PolicyAtt>) {
    forall gk :: Group(groups, gk) == OfKind(policies, gk) && (gk in groups <==> OfKind(policies, gk) != [])
  }

  /** ToAttachedPolicies: each kind keeps its attachments in list order. */
  method ToAttachedPolicies(policies: seq<PolicyAtt>) returns (groups: map<GroupKind, seq<PolicyAtt>>)
    ensures forall gk :: Group(groups, gk) == OfKind(policies, gk)
    ensures forall gk :: gk in groups <==> OfKind(policies, gk) != []
  {
    groups := map[];
    for i := 0 to |policies|
      invariant Grouped(groups, policies[..i])
    {
      var p := policies[i];
      GroupedStep(groups, policies[..i], p);
      assert policies[..i + 1] == policies[..i] + [p];
      groups := groups[p.groupKind := Group(groups, p.groupKind) + [p]];
    }
    assert policies[..|policies|] == policies;
  }

  lemma GroupedStep(groups: map<GroupKind, seq<PolicyAtt>>, policies: seq<PolicyAtt>, p: PolicyAtt)
    requires Grouped(groups, policies)
    ensures Grouped(groups[p.groupKind := Group(groups, p.groupKind) + [p]], policies + [p])
  {
    forall gk
      ensures var longer := groups[p.groupKind := Group(groups, p.groupKind) + [p]];
              Group(longer, gk) == OfKind(policies + [p], gk) && (gk in longer <==> OfKind(policies + [p], gk) != [])
    {
      OfKindSnoc(policies, p, gk);
      assert Group(groups, gk) == OfKind(policies, gk);
    }
  }

  lemma OfKindSnoc(ps: seq<PolicyAtt>, p: PolicyAtt, gk: GroupKind)
    ensures OfKind(ps + [p], gk) == if p.groupKind == gk then OfKind(ps, gk) + [p] else OfKind(ps, gk)
  {
    assert (ps + [p])[..|ps|] == ps;
  }

  /** Sorted and grouped lists do not depend on iteration order, for lists without an
      inversion; a list of one kind has none. */
  lemma GroupsAnyOrder(a: seq<PolicyAtt>, b: seq<PolicyAtt>, gk: GroupKind)
    requires multiset(a) == multiset(b) && DistinctKeys(a) && NoInversion(a)
    ensures StableSort(a, ComparePolicies) == StableSort(b, ComparePolicies)
    ensures OfKind(StableSort(a, ComparePolicies), gk) == OfKind(StableSort(b, ComparePolicies), gk)
  {
    OrdersIffNoInversion(a);
    TiesShareKey(a);
    StableSortDeterministic(a, b, ComparePolicies);
  }

  // ---- With an inversion the group depends on the input order

  /** x occurs, and no y occurs before it. */
  ghost predicate Precedes(s: seq<PolicyAtt>, x: PolicyAtt, y: PolicyAtt) {
    exists i :: 0 <= i < |s| && s[i] == x && y !in s[..i]
  }

  /** Some b has a c before it and no a. */
  ghost predicate Guards(s: seq<PolicyAtt>, c: PolicyAtt, b: PolicyAtt, a: PolicyAtt) {
    exists i :: 0 <= i < |s| && s[i] == b && c in s[..i] && a !in s[..i]
  }

  lemma PrecedesOneWay(s: seq<PolicyAtt>, x: PolicyAtt, y: PolicyAtt)
    requires x != y && Precedes(s, x, y)
    ensures !Precedes(s, y, x)
  {
    var i :| 0 <= i < |s| && s[i] == x && y !in s[..i];
    forall k | 0 <= k < i ensures s[k] != y { assert s[..i][k] == s[k]; }
    forall j | 0 <= j < |s| && s[j] == y ensures x in s[..j] { assert s[..j][i] == x; }
  }

  lemma GuardsPrecedes(s: seq<PolicyAtt>, c: PolicyAtt, b: PolicyAtt, a: PolicyAtt)
    requires Guards(s, c, b, a)
    ensures Precedes(s, c, a)
  {
    var i :| 0 <= i < |s| && s[i] == b && c in s[..i] && a !in s[..i];
    var j :| 0 <= j < i && s[..i][j] == c;
    assert s[..j] == s[..i][..j];
  }

  lemma PrecedesPrefix(s: seq<PolicyAtt>, t: seq<PolicyAtt>, x: PolicyAtt, y: PolicyAtt)
    requires Precedes(s, x, y)
    ensures Precedes(s + t, x, y)
  {
    var i :| 0 <= i < |s| && s[i] == x && y !in s[..i];
    assert (s + t)[..i] == s[..i] && (s + t)[i] == x;
  }

  lemma GuardsPrefix(s: seq<PolicyAtt>, t: seq<PolicyAtt>, c: PolicyAtt, b: PolicyAtt, a: PolicyAtt)
    requires Guards(s, c, b, a)
    ensures Guards(s + t, c, b, a)
  {
    var i :| 0 <= i < |s| && s[i] == b && c in s[..i] && a !in s[..i];
    assert (s + t)[..i] == s[..i] && (s + t)[i] == b;
  }

  lemma InsertHolds(z: PolicyAtt, ys: seq<PolicyAtt>)
    ensures forall x :: x in Insert(z, ys, ComparePolicies) <==> x in ys || x == z
  {
    InsertPermutes(z, ys, ComparePolicies);
    SameElements(Insert(z, ys, ComparePolicies), ys + [z]);
  }

  /** Inserting never reorders what is placed, and a new y stops at an x it is not below. */
  lemma {:induction false} InsertKeepsPrecedes(z: PolicyAtt, ys: seq<PolicyAtt>, x: PolicyAtt, y: PolicyAtt)
    requires Precedes(ys, x, y) && ComparePolicies(x, y) <= 0 && x != y
    ensures Precedes(Insert(z, ys, ComparePolicies), x, y)
    decreases |ys|
  {
    var front, last := ys[..|ys| - 1], ys[|ys| - 1];
    assert ys == front + [last];
    if ComparePolicies(last, z) <= 0 {
      PrecedesPrefix(ys, [z], x, y);
    } else {
      var i :| 0 <= i < |ys| && ys[i] == x && y !in ys[..i];
      var placed := Insert(z, front, ComparePolicies);
      if i < |front| {
        assert front[..i] == ys[..i];
        InsertKeepsPrecedes(z, front, x, y);
        PrecedesPrefix(placed, [last], x, y);
      } else {
        InsertHolds(z, front);
        assert (placed + [last])[..|placed|] == placed;
      }
    }
  }

  lemma {:induction false} InsertKeepsGuards(z: PolicyAtt, ys: seq<PolicyAtt>, c: PolicyAtt, b: PolicyAtt, a: PolicyAtt)
    requires Guards(ys, c, b, a) && ComparePolicies(b, a) <= 0 && a != b
    ensures Guards(Insert(z, ys, ComparePolicies), c, b, a)
    decreases |ys|
  {
    var front, last := ys[..|ys| - 1], ys[|ys| - 1];
    assert ys == front + [last];
    if ComparePolicies(last, z) <= 0 {
      GuardsPrefix(ys, [z], c, b, a);
    } else {
      var i :| 0 <= i < |ys| && ys[i] == b && c in ys[..i] && a !in ys[..i];
      var placed := Insert(z, front, ComparePolicies);
      if i < |front| {
        assert front[..i] == ys[..i];
        InsertKeepsGuards(z, front, c, b, a);
        GuardsPrefix(placed, [last], c, b, a);
      } else {
        InsertHolds(z, front);
        assert (placed + [last])[..|placed|] == placed;
      }
    }
  }

  lemma {:induction false} SortKeepsPrecedes(first: seq<PolicyAtt>, rest: seq<PolicyAtt>, x: PolicyAtt, y: PolicyAtt)
    requires Precedes(StableSort(first, ComparePolicies), x, y) && ComparePolicies(x, y) <= 0 && x != y
    ensures Precedes(StableSort(first + rest, ComparePolicies), x, y)
    decreases |rest|
  {
    if rest == [] {
      assert first + rest == first;
    } else {
      var front, last := rest[..|rest| - 1], rest[|rest| - 1];
      assert (first + rest)[..|first + rest| - 1] == first + front;
      SortKeepsPrecedes(first, front, x, y);
      InsertKeepsPrecedes(last, StableSort(first + front, ComparePolicies), x, y);
    }
  }

  lemma {:induction false} SortKeepsGuards(first: seq<PolicyAtt>, rest: seq<PolicyAtt>, c: PolicyAtt, b: PolicyAtt,
                                           a: PolicyAtt)
    requires Guards(StableSort(first, ComparePolicies), c, b, a) && ComparePolicies(b, a) <= 0 && a != b
    ensures Guards(StableSort(first + rest, ComparePolicies), c, b, a)
    decreases |rest|
  {
    if rest == [] {
      assert first + rest == first;
    } else {
      var front, last := rest[..|rest| - 1], rest[|rest| - 1];
      assert (first + rest)[..|first + rest| - 1] == first + front;
      SortKeepsGuards(first, front, c, b, a);
      InsertKeepsGuards(last, StableSort(first + front, ComparePolicies), c, b, a);
    }
  }

  lemma {:induction false} OfKindHolds(s: seq<PolicyAtt>, gk: GroupKind)
    ensures forall x :: x in OfKind(s, gk) <==> x in s && x.groupKind == gk
    decreases |s|
  {
    if s != [] {
      OfKindHolds(s[..|s| - 1], gk);
      assert s == s[..|s| - 1] + [s[|s| - 1]];
    }
  }

  /** Grouping keeps the order of two attachments of the kind. */
  lemma {:induction false} OfKindKeepsPrecedes(s: seq<PolicyAtt>, x: PolicyAtt, y: PolicyAtt)
    requires Precedes(s, x, y)
    ensures Precedes(OfKind(s, x.groupKind), x, y)
    decreases |s|
  {
    var front, last := s[..|s| - 1], s[|s| - 1];
    var i :| 0 <= i < |s| && s[i] == x && y !in s[..i];
    var group := OfKind(front, x.groupKind);
    if i < |front| {
      assert front[..i] == s[..i];
      OfKindKeepsPrecedes(front, x, y);
      PrecedesPrefix(group, if last.groupKind == x.groupKind then [last] else [], x, y);
    } else {
      OfKindHolds(front, x.groupKind);
      assert (group + [last])[..|group|] == group;
    }
  }

  /** The list without three of its elements. */
  lemma TakeThree(ps: seq<PolicyAtt>, a: PolicyAtt, b: PolicyAtt, c: PolicyAtt) returns (rest: seq<PolicyAtt>)
    requires a in ps && b in ps && c in ps && a != b && a != c && b != c
    ensures multiset(ps) == multiset(rest) + multiset{a} + multiset{b} + multiset{c}
  {
    var one := TakeOne(ps, a);
    SameElements(ps, one + [a]);
    var two := TakeOne(one, b);
    SameElements(one, two + [b]);
    rest := TakeOne(two, c);
  }

  lemma TakeOne(ps: seq<PolicyAtt>, x: PolicyAtt) returns (rest: seq<PolicyAtt>)
    requires x in ps
    ensures multiset(ps) == multiset(rest + [x])
    ensures multiset(rest + [x]) == multiset(rest) + multiset{x}
  {
    var i :| 0 <= i < |ps| && ps[i] == x;
    rest := ps[..i] + ps[i + 1..];
    assert ps == ps[..i] + [x] + ps[i + 1..];
    MiddleOut(ps[..i], x, ps[i + 1..]);
  }

  /** Whatever list holds an inversion, two arrival orders of it put the heavier and the
      lighter policy of the kind in opposite orders. */
  lemma InversionReordersGroup(ps: seq<PolicyAtt>, a: PolicyAtt, b: PolicyAtt, c: PolicyAtt)
    returns (p: seq<PolicyAtt>, q: seq<PolicyAtt>)
    requires a in ps && b in ps && c in ps && Inversion(a, b, c)
    ensures multiset(p) == multiset(ps) && multiset(q) == multiset(ps)
    ensures Precedes(OfKind(StableSort(p, ComparePolicies), a.groupKind), a, c)
    ensures Precedes(OfKind(StableSort(q, ComparePolicies), a.groupKind), c, a)
  {
    var rest := TakeThree(ps, a, b, c);
    p, q := [a, c, b] + rest, [c, b, a] + rest;
    HeavierLeads(a, b, c, rest);
    LighterLeads(a, b, c, rest);
  }

  lemma HeavierLeads(a: PolicyAtt, b: PolicyAtt, c: PolicyAtt, rest: seq<PolicyAtt>)
    requires Inversion(a, b, c)
    ensures Precedes(OfKind(StableSort([a, c, b] + rest, ComparePolicies), a.groupKind), a, c)
  {
    InversionCompares(a, b, c);
    SortThree(a, c, b);
    assert Precedes([a, c, b], a, c) by { assert [a, c, b][..0] == []; }
    SortKeepsPrecedes([a, c, b], rest, a, c);
    OfKindKeepsPrecedes(StableSort([a, c, b] + rest, ComparePolicies), a, c);
  }

  lemma LighterLeads(a: PolicyAtt, b: PolicyAtt, c: PolicyAtt, rest: seq<PolicyAtt>)
    requires Inversion(a, b, c)
    ensures Precedes(OfKind(StableSort([c, b, a] + rest, ComparePolicies), a.groupKind), c, a)
  {
    InversionCompares(a, b, c);
    SortThree(c, b, a);
    assert Guards([c, b, a], c, b, a) by { assert [c, b, a][..1] == [c]; }
    SortKeepsGuards([c, b, a], rest, c, b, a);
    GuardsPrecedes(StableSort([c, b, a] + rest, ComparePolicies), c, b, a);
    OfKindKeepsPrecedes(StableSort([c, b, a] + rest, ComparePolicies), c, a);
  }

  /** The sorted and grouped policies are the same for every arrival order exactly when the
      list holds no inversion. */
  lemma GroupsAnyOrderIffNoInversion(ps: seq<PolicyAtt>)
    requires DistinctKeys(ps)
    ensures (forall p, q, gk :: multiset(p) == multiset(ps) && multiset(q) == multiset(ps) ==>
               OfKind(StableSort(p, ComparePolicies), gk) == OfKind(StableSort(q, ComparePolicies), gk))
            <==> NoInversion(ps)
  {
    if NoInversion(ps) {
      forall p, q, gk | multiset(p) == multiset(ps) && multiset(q) == multiset(ps)
        ensures OfKind(StableSort(p, ComparePolicies), gk) == OfKind(StableSort(q, ComparePolicies), gk)
      {
        GroupsAnyOrder(ps, p, gk);
        GroupsAnyOrder(ps, q, gk);
      }
    } else {
      var a, b, c :| a in ps && b in ps && c in ps && Inversion(a, b, c);
      var p, q := InversionReordersGroup(ps, a, b, c);
      PrecedesOneWay(OfKind(StableSort(p, ComparePolicies), a.groupKind), a, c);
      assert OfKind(StableSort(p, ComparePolicies), a.groupKind) != OfKind(StableSort(q, ComparePolicies), a.groupKind);
    }
  }

  /** An instance: in the second order the lighter policy comes first. */
  lemma InversionWitness()
    ensures exists a, b, c ::
              && Inversion(a, b, c) && DistinctKeys([a, b, c])
              && OfKind(StableSort([a, c, b], ComparePolicies), a.groupKind) == [a, c]
              && OfKind(StableSort([c, b, a], ComparePolicies), a.groupKind) == [c, a]
  {
    var k1, k2 := GroupKind("", "A"), GroupKind("", "B");
    var a := PolicyAtt(k1, Some(PolicyRef("", "A", "ns", "a", "")), 10, 3, 1);
    var b := PolicyAtt(k2, Some(PolicyRef("", "B", "ns", "b", "")), 0, 2, 1);
    var c := PolicyAtt(k1, Some(PolicyRef("", "A", "ns", "c", "")), 0, 1, 1);
    assert ComparePolicies(a, c) == -1 && ComparePolicies(c, b) == -1 && ComparePolicies(b, a) == -1;
    SortThree(a, c, b);
    SortThree(c, b, a);
    GroupThree(a, c, b, k1);
    GroupThree(c, b, a, k1);
    InversionCompares(a, b, c);
    WitnessKeys(a, b, c);
  }

  /** A list in which each element is below the next is left alone, whatever else compares. */
  lemma SortThree(x: PolicyAtt, y: PolicyAtt, z: PolicyAtt)
    requires ComparePolicies(x, y) <= 0 && ComparePolicies(y, z) <= 0
    ensures StableSort([x, y, z], ComparePolicies) == [x, y, z]
  {
    assert [x, y, z][..2] == [x, y] && [x, y][..1] == [x] && [x][..0] == [];
    assert StableSort([x], ComparePolicies) == [x];
    assert StableSort([x, y], ComparePolicies) == [x, y];
  }

  lemma GroupThree(x: PolicyAtt, y: PolicyAtt, z: PolicyAtt, gk: GroupKind)
    ensures OfKind([x, y, z], gk) == (if x.groupKind == gk then [x] else []) + (if y.groupKind == gk then [y] else [])
                                     + (if z.groupKind == gk then [z] else [])
  {
    assert [x, y, z][..2] == [x, y] && [x, y][..1] == [x] && [x][..0] == [];
    assert OfKind([x], gk) == if x.groupKind == gk then [x] else [];
    assert OfKind([x, y], gk) == OfKind([x], gk) + if y.groupKind == gk then [y] else [];
  }

  lemma WitnessKeys(a: PolicyAtt, b: PolicyAtt, c: PolicyAtt)
    requires a.ref.Some? && b.ref.Some? && c.ref.Some?
    requires SlashFreeRef(a.ref.value) && SlashFreeRef(b.ref.value) && SlashFreeRef(c.ref.value)
    requires a.ref.value.sectionName == b.ref.value.sectionName == c.ref.value.sectionName
    requires a.ref != b.ref && a.ref != c.ref && b.ref != c.ref
    ensures DistinctKeys([a, b, c])
  {
    forall x, y | x in [a, b, c] && y in [a, b, c] && SortKey(x) == SortKey(y) ensures x == y {
      IdInjective(x.ref.value, y.ref.value);
    }
  }

  // ---- Identity keys

  ghost predicate SlashFreeRef(r: PolicyRef) {
    SlashFree(r.group) && SlashFree(r.kind) && SlashFree(r.namespace) && SlashFree(r.name)
  }

  function RefFields(r: PolicyRef): seq<string> { [r.group, r.kind, r.namespace, r.name] }

  /** All attachments of one lookup carry the section name that was looked up; among them the
      identity string determines the reference. */
  lemma IdInjective(a: PolicyRef, b: PolicyRef)
    requires SlashFreeRef(a) && SlashFreeRef(b) && a.sectionName == b.sectionName
    requires IdWithSectionName(a) == IdWithSectionName(b)
    ensures a == b
  {
    var s := a.sectionName;
    if s != "" {
      var l := IdWithSectionName(a);
      assert Id(a) == l[..|l| - |s| - 1] && Id(b) == l[..|l| - |s| - 1];
    }
    var fa, fb := RefFields(a), RefFields(b);
    JoinedInjective(fa, fb);
    assert fa[0] == fb[0] && fa[1] == fb[1] && fa[2] == fb[2] && fa[3] == fb[3];
  }

  // ---- getTargetingPoliciesMaybeForBackends

  /** A global policy's plugin may have none to offer; otherwise it gives its creation time. */
  datatype GlobalPolicy = GlobalPolicy(groupKind: GroupKind, created: Option<int>)

  function GlobalAtt(g: GlobalPolicy): seq<PolicyAtt> {
    if g.created.Some? then [PolicyAtt(g.groupKind, None, 0, g.created.value, 0)] else []
  }

  function AttOf(p: PI.Policy, section: string): PolicyAtt {
    PolicyAtt(GroupKind(p.group, p.kind), Some(PolicyRef(p.group, p.kind, p.namespace, p.name, section)), p.weight,
              p.created, p.generation)
  }

  function Atts(ps: seq<PI.Policy>, section: string): seq<PolicyAtt> {
    if ps == [] then [] else Atts(ps[..|ps| - 1], section) + [AttOf(ps[|ps| - 1], section)]
  }

  /** What a lookup is asked for. */
  datatype Lookup = Lookup(target: PI.Target, section: string, labels: map<string, string>, globalNamespace: string,
                           onlyBackends: bool, excludeGlobal: bool)

  ghost predicate Targets(q: Lookup, p: PI.Policy) {
    PI.FoundByName(p, q.target, q.section) || PI.Selects(p, q.target, q.section, q.labels, q.globalNamespace)
  }

  ghost predicate Found(found: seq<PI.Policy>, all: seq<PI.Policy>, q: Lookup) {
    forall p :: multiset(found)[p] ==
                PI.Times(PI.FoundByName(p, q.target, q.section), multiset(all)[p])
                + PI.Times(PI.Selects(p, q.target, q.section, q.labels, q.globalNamespace), multiset(all)[p])
  }

  function Globals(globals: seq<GlobalPolicy>, q: Lookup): seq<PolicyAtt> {
    if q.excludeGlobal then [] else FlatMap(globals, GlobalAtt)
  }

  /** A result of the lookup: the stable sort of the global attachments and one attachment per
      policy found. */
  ghost predicate Attachments(ret: seq<PolicyAtt>, globals: seq<GlobalPolicy>, cols: seq<PI.PolicyCollection>,
                              q: Lookup) {
    exists found :: Found(found, PI.Eligible(cols, q.onlyBackends), q)
                    && ret == StableSort(Globals(globals, q) + Atts(found, q.section), ComparePolicies)
  }

  method GetTargetingPolicies(globals: seq<GlobalPolicy>, cols: seq<PI.PolicyCollection>, q: Lookup)
    returns (ret: seq<PolicyAtt>)
    ensures Attachments(ret, globals, cols, q)
    ensures forall a :: a in ret <==> Attached(a, globals, cols, q)
    ensures NoInversion(ret) ==> forall i, j :: 0 <= i < j < |ret| ==> MayPrecede(ret[i], ret[j])
  {
    ret := [];
    if !q.excludeGlobal {
      for i := 0 to |globals|
        invariant ret == FlatMap(globals[..i], GlobalAtt)
      {
        assert globals[..i + 1][..i] == globals[..i];
        if globals[i].created.Some?
        { ret := ret + [PolicyAtt(globals[i].groupKind, None, 0, globals[i].created.value, 0)]; }
      }
      assert globals[..|globals|] == globals;
    }
    ghost var first := ret;
    var policies := PI.TargetingPolicies(cols, q.globalNamespace, q.target, q.section, q.labels, q.onlyBackends);
    for i := 0 to |policies|
      invariant ret == first + Atts(policies[..i], q.section)
    {
      assert policies[..i + 1][..i] == policies[..i];
      ret := ret + [AttOf(policies[i], q.section)];
    }
    assert policies[..|policies|] == policies;
    assert Found(policies, PI.Eligible(cols, q.onlyBackends), q);
    ret := StableSort(ret, ComparePolicies);
    LookupListed(ret, globals, cols, q);
  }

  lemma {:induction false} AttsConcat(a: seq<PI.Policy>, b: seq<PI.Policy>, section: string)
    ensures Atts(a + b, section) == Atts(a, section) + Atts(b, section)
    decreases |b|
  {
    if b == [] {
      assert a + b == a;
    } else {
      assert (a + b)[..|a + b| - 1] == a + b[..|b| - 1];
      AttsConcat(a, b[..|b| - 1], section);
    }
  }

  lemma {:induction false} AttsAnyOrder(a: seq<PI.Policy>, b: seq<PI.Policy>, section: string)
    requires multiset(a) == multiset(b)
    ensures multiset(Atts(a, section)) == multiset(Atts(b, section))
    decreases |a|
  {
    SameElements(a, b);
    if a != [] {
      var j := TakeOut(a, b);
      var l, r := b[..j], b[j + 1..];
      AttsAnyOrder(a[..|a| - 1], l + r, section);
      AttsConcat(l, r, section);
      AttsConcat(l + [b[j]], r, section);
      AttsConcat(l, [b[j]], section);
      assert Atts([b[j]], section) == [AttOf(b[j], section)] by { assert [b[j]][..0] == []; }
    }
  }

  lemma {:induction false} AttsAre(ps: seq<PI.Policy>, section: string, a: PolicyAtt)
    requires a in Atts(ps, section)
    ensures exists p :: p in ps && a == AttOf(p, section)
    decreases |ps|
  {
    var front, last := ps[..|ps| - 1], ps[|ps| - 1];
    if a == AttOf(last, section) {
      assert last in ps;
    } else {
      AttsAre(front, section, a);
      var p :| p in front && a == AttOf(p, section);
      assert p in ps;
    }
  }

  predicate SameObject(p: PI.Policy, q: PI.Policy) {
    p.group == q.group && p.kind == q.kind && p.namespace == q.namespace && p.name == q.name
  }

  predicate SlashFreePolicy(p: PI.Policy) {
    SlashFree(p.group) && SlashFree(p.kind) && SlashFree(p.namespace) && SlashFree(p.name)
  }

  /** Kubernetes names: no slashes, and one object per group, kind, namespace and name. */
  ghost predicate ProperPolicies(ps: seq<PI.Policy>) {
    && (forall p :: p in ps ==> SlashFreePolicy(p))
    && (forall p, q :: p in ps && q in ps && SameObject(p, q) ==> p == q)
  }

  /** The attachments of one lookup have distinct keys; a policy found twice is one attachment listed twice. */
  lemma AttsDistinct(ps: seq<PI.Policy>, section: string)
    requires ProperPolicies(ps)
    ensures DistinctKeys(Atts(ps, section))
  {
    forall a, b | a in Atts(ps, section) && b in Atts(ps, section) && SortKey(a) == SortKey(b) ensures a == b {
      AttsAre(ps, section, a);
      AttsAre(ps, section, b);
      var p :| p in ps && a == AttOf(p, section);
      var q :| q in ps && b == AttOf(q, section);
      KeyNamesPolicy(p, q, section);
    }
  }

  lemma KeyNamesPolicy(p: PI.Policy, q: PI.Policy, section: string)
    requires SlashFreePolicy(p) && SlashFreePolicy(q) && SortKey(AttOf(p, section)) == SortKey(AttOf(q, section))
    ensures SameObject(p, q)
  {
    IdInjective(AttOf(p, section).ref.value, AttOf(q, section).ref.value);
  }

  lemma FoundAnyOrder(f: seq<PI.Policy>, g: seq<PI.Policy>, all: seq<PI.Policy>, other: seq<PI.Policy>, q: Lookup)
    requires multiset(all) == multiset(other)
    requires Found(f, all, q) && Found(g, other, q)
    ensures multiset(f) == multiset(g)
    ensures forall p :: p in f ==> p in all && Targets(q, p)
  {
    forall p ensures multiset(f)[p] == multiset(g)[p] {}
    forall p | p in f ensures p in all && Targets(q, p) {
      assert multiset(f)[p] > 0;
      assert multiset(all)[p] > 0;
    }
  }

  /** Global policies have no reference, and one kind offers at most one. */
  ghost predicate ProperGlobals(globals: seq<PolicyAtt>) {
    (forall a :: a in globals ==> a.ref.None? && SlashFree(SortKey(a))) && DistinctKeys(globals)
  }

  lemma WithGlobalsDistinct(globals: seq<PolicyAtt>, ps: seq<PI.Policy>, section: string)
    requires ProperGlobals(globals) && ProperPolicies(ps)
    ensures DistinctKeys(globals + Atts(ps, section))
  {
    AttsDistinct(ps, section);
    forall b | b in Atts(ps, section) ensures !SlashFree(SortKey(b)) {
      AttsAre(ps, section, b);
      var fields := RefFields(b.ref.value);
      assert Joined(fields)[|fields[0]|] == '/';
      assert SortKey(b)[|fields[0]|] == '/';
    }
  }

  /** The attachment of a global policy, or of an eligible policy that targets the object. */
  ghost predicate Attaches(a: PolicyAtt, globals: seq<GlobalPolicy>, cols: seq<PI.PolicyCollection>, q: Lookup) {
    || a in Globals(globals, q)
    || exists p :: p in PI.Eligible(cols, q.onlyBackends) && Targets(q, p) && a == AttOf(p, q.section)
  }

  ghost predicate NoInversionAmong(globals: seq<GlobalPolicy>, cols: seq<PI.PolicyCollection>, q: Lookup) {
    forall a, b, c :: Attaches(a, globals, cols, q) && Attaches(b, globals, cols, q)
                      && Attaches(c, globals, cols, q) ==>
                        !Inversion(a, b, c)
  }

  lemma FoundAttaches(globals: seq<GlobalPolicy>, cols: seq<PI.PolicyCollection>, q: Lookup, f: seq<PI.Policy>,
                      a: PolicyAtt)
    requires Found(f, PI.Eligible(cols, q.onlyBackends), q)
    requires a in Globals(globals, q) + Atts(f, q.section)
    ensures Attaches(a, globals, cols, q)
  {
    if a !in Globals(globals, q) {
      AttsAre(f, q.section, a);
      FoundAnyOrder(f, f, PI.Eligible(cols, q.onlyBackends), PI.Eligible(cols, q.onlyBackends), q);
    }
  }

  /** The attachment is that of a global policy. */
  ghost predicate OfGlobal(a: PolicyAtt, g: GlobalPolicy) {
    a.groupKind == g.groupKind && a.ref == None && a.weight == 0 && g.created == Some(a.created) && a.generation == 0
  }

  /** The attachment is that of a policy, at the section looked up. */
  ghost predicate OfPolicy(a: PolicyAtt, p: PI.Policy, section: string) {
    && a.groupKind.group == p.group && a.groupKind.kind == p.kind
    && a.ref.Some? && a.ref.value.group == p.group && a.ref.value.kind == p.kind
    && a.ref.value.namespace == p.namespace && a.ref.value.name == p.name && a.ref.value.sectionName == section
    && a.weight == p.weight && a.created == p.created && a.generation == p.generation
  }

  ghost predicate Attached(a: PolicyAtt, globals: seq<GlobalPolicy>, cols: seq<PI.PolicyCollection>, q: Lookup) {
    || (!q.excludeGlobal && exists g :: g in globals && OfGlobal(a, g))
    || exists p :: PI.Offers(cols, q.onlyBackends, p) && Targets(q, p) && OfPolicy(a, p, q.section)
  }

  lemma {:induction false} GlobalsAre(globals: seq<GlobalPolicy>, a: PolicyAtt)
    ensures a in FlatMap(globals, GlobalAtt) <==> exists g :: g in globals && OfGlobal(a, g)
    decreases |globals|
  {
    if globals != [] {
      var n := |globals| - 1;
      GlobalsAre(globals[..n], a);
      assert globals == globals[..n] + [globals[n]];
      assert a in GlobalAtt(globals[n]) <==> OfGlobal(a, globals[n]);
    }
  }

  lemma {:induction false} AttsHold(ps: seq<PI.Policy>, section: string, p: PI.Policy)
    requires p in ps
    ensures AttOf(p, section) in Atts(ps, section)
    decreases |ps|
  {
    if p != ps[|ps| - 1] {
      assert ps == ps[..|ps| - 1] + [ps[|ps| - 1]];
      AttsHold(ps[..|ps| - 1], section, p);
    }
  }

  /** The list of a lookup holds exactly the attachments of the global policies and of the
      policies offered that target the object, and without an inversion it is ordered: within
      a kind the heavier first, then the older, then by sort key. */
  lemma LookupListed(ret: seq<PolicyAtt>, globals: seq<GlobalPolicy>, cols: seq<PI.PolicyCollection>, q: Lookup)
    requires Attachments(ret, globals, cols, q)
    ensures forall a :: a in ret <==> Attached(a, globals, cols, q)
    ensures NoInversion(ret) ==> forall i, j :: 0 <= i < j < |ret| ==> MayPrecede(ret[i], ret[j])
  {
    var all := PI.Eligible(cols, q.onlyBackends);
    var found :| Found(found, all, q)
      && ret == StableSort(Globals(globals, q) + Atts(found, q.section), ComparePolicies);
    var list := Globals(globals, q) + Atts(found, q.section);
    StableSortPermutes(list, ComparePolicies);
    SameElements(ret, list);
    forall a ensures a in ret <==> Attached(a, globals, cols, q) {
      GlobalsAre(globals, a);
      PoliciesListed(found, cols, q, a);
    }
    if NoInversion(ret) { SortedMayPrecede(list); }
  }

  lemma PoliciesListed(found: seq<PI.Policy>, cols: seq<PI.PolicyCollection>, q: Lookup, a: PolicyAtt)
    requires Found(found, PI.Eligible(cols, q.onlyBackends), q)
    ensures a in Atts(found, q.section) <==>
            exists p :: PI.Offers(cols, q.onlyBackends, p) && Targets(q, p) && OfPolicy(a, p, q.section)
  {
    var all := PI.Eligible(cols, q.onlyBackends);
    if a in Atts(found, q.section) {
      AttsAre(found, q.section, a);
      var p :| p in found && a == AttOf(p, q.section);
      FoundAnyOrder(found, found, all, all, q);
      PI.EligibleAre(cols, q.onlyBackends, p);
      assert OfPolicy(a, p, q.section);
    }
    if p :| PI.Offers(cols, q.onlyBackends, p) && Targets(q, p) && OfPolicy(a, p, q.section) {
      PI.EligibleAre(cols, q.onlyBackends, p);
      assert multiset(found)[p] > 0;
      AttsHold(found, q.section, p);
      assert a == AttOf(p, q.section);
    }
  }

  lemma SortedMayPrecede(list: seq<PolicyAtt>)
    requires NoInversion(StableSort(list, ComparePolicies))
    ensures var ret := StableSort(list, ComparePolicies);
            forall i, j :: 0 <= i < j < |ret| ==> MayPrecede(ret[i], ret[j])
  {
    var ret := StableSort(list, ComparePolicies);
    StableSortPermutes(list, ComparePolicies);
    SameElements(ret, list);
    OrdersIffNoInversion(list);
    StableSortSorts(list, ComparePolicies);
    forall i, j | 0 <= i < j < |ret| ensures MayPrecede(ret[i], ret[j]) { ComparatorDirection(ret[i], ret[j]); }
  }

  ghost predicate HeavierFirst(a: PolicyAtt, b: PolicyAtt) {
    a.weight > b.weight || (a.weight == b.weight && NotYounger(a, b))
  }

  ghost predicate HeaviestFirst(group: seq<PolicyAtt>) {
    forall i, j :: 0 <= i < j < |group| ==> HeavierFirst(group[i], group[j])
  }

  /** So within a group the heavier policy precedes the lighter. */
  lemma {:induction false} GroupInOrder(ret: seq<PolicyAtt>, gk: GroupKind)
    requires forall i, j :: 0 <= i < j < |ret| ==> MayPrecede(ret[i], ret[j])
    ensures HeaviestFirst(OfKind(ret, gk))
    decreases |ret|
  {
    if ret != [] {
      var front, last := ret[..|ret| - 1], ret[|ret| - 1];
      assert ret == front + [last];
      GroupInOrder(front, gk);
      OfKindHolds(front, gk);
      var group := OfKind(front, gk);
      forall i | 0 <= i < |group| && last.groupKind == gk ensures HeavierFirst(group[i], last) {
        assert group[i] in group;
        var k :| 0 <= k < |front| && front[k] == group[i];
        assert MayPrecede(ret[k], ret[|ret| - 1]);
      }
      var all := OfKind(ret, gk);
      assert all == group + if last.groupKind == gk then [last] else [];
    }
  }

  /** The policies attached to a target, sorted and grouped, do not depend on the order in
      which the plugins, the policy collections and their entries are visited. */
  lemma TargetingAnyOrder(r1: seq<PolicyAtt>, globals1: seq<GlobalPolicy>, cols1: seq<PI.PolicyCollection>,
                          r2: seq<PolicyAtt>, globals2: seq<GlobalPolicy>, cols2: seq<PI.PolicyCollection>, q: Lookup)
    requires multiset(globals1) == multiset(globals2) && PI.SameCollections(cols1, cols2)
    requires Attachments(r1, globals1, cols1, q) && Attachments(r2, globals2, cols2, q)
    requires ProperGlobals(Globals(globals1, q)) && ProperPolicies(PI.Eligible(cols1, q.onlyBackends))
    requires NoInversionAmong(globals1, cols1, q)
    ensures r1 == r2
    ensures forall gk :: OfKind(r1, gk) == OfKind(r2, gk)
  {
    var all, other := PI.Eligible(cols1, q.onlyBackends), PI.Eligible(cols2, q.onlyBackends);
    PI.EligibleAnyOrder(cols1, cols2, q.onlyBackends);
    FlatMapAnyOrder(globals1, globals2, GlobalAtt);
    var f :| Found(f, all, q) && r1 == StableSort(Globals(globals1, q) + Atts(f, q.section), ComparePolicies);
    var g :| Found(g, other, q) && r2 == StableSort(Globals(globals2, q) + Atts(g, q.section), ComparePolicies);
    FoundAnyOrder(f, g, all, other, q);
    AttsAnyOrder(f, g, q.section);
    WithGlobalsDistinct(Globals(globals1, q), f, q.section);
    var list := Globals(globals1, q) + Atts(f, q.section);
    forall a | a in list ensures Attaches(a, globals1, cols1, q) { FoundAttaches(globals1, cols1, q, f, a); }
    GroupsAnyOrder(list, Globals(globals2, q) + Atts(g, q.section), GroupKind("", ""));
  }
}
