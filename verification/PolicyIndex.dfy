/** Finding the policies that target an object through the target-ref index
    (pkg/krtcollections/policy.go). */
module PolicyIndex {
  import opened Sorting
  import opened Text

  /** A target reference: by name, or by labels. */
  datatype TargetRef = TargetRef(group: string, kind: string, name: string, sectionName: string,
                                 matchLabels: map<string, string>)

  datatype Policy = Policy(group: string, kind: string, namespace: string, name: string, generation: int, weight: int,
                           created: int, targetRefs: seq<TargetRef>)

  datatype Key = Key(group: string, kind: string, name: string, namespace: string, sectionName: string)

  /** The policies of one kind; forBackends says whether its plugin handles backends. */
  datatype PolicyCollection = PolicyCollection(policies: seq<Policy>, forBackends: bool)

  datatype Target = Target(group: string, kind: string, namespace: string, name: string)

  function NamedKey(namespace: string, ref: TargetRef): Key {
    Key(ref.group, ref.kind, ref.name, namespace, ref.sectionName)
  }

  function UnnamedKey(namespace: string, ref: TargetRef): Key {
    Key(ref.group, ref.kind, "", namespace, ref.sectionName)
  }

  ghost predicate IndexedUnder(p: Policy, key: Key) {
    exists r :: r in p.targetRefs && (key == NamedKey(p.namespace, r) || key == UnnamedKey(p.namespace, r))
  }

  /** Twice as many keys as refs: the first half with names, the second without. */
  method IndexKeys(p: Policy) returns (keys: array<Key>)
    ensures fresh(keys)
    ensures forall k :: k in keys[..] <==> IndexedUnder(p, k)
  {
    var n := |p.targetRefs|;
    keys := new Key[2 * n];
    for i := 0 to n
      invariant forall j :: 0 <= j < i ==> keys[j] == NamedKey(p.namespace, p.targetRefs[j])
      invariant forall j :: 0 <= j < i ==> keys[j + n] == UnnamedKey(p.namespace, p.targetRefs[j])
    {
      keys[i] := NamedKey(p.namespace, p.targetRefs[i]);
      keys[i + n] := UnnamedKey(p.namespace, p.targetRefs[i]);
    }
    forall k ensures k in keys[..] <==> IndexedUnder(p, k) {
      KeysCover(p, keys[..], k);
    }
  }

  lemma KeysCover(p: Policy, keys: seq<Key>, k: Key)
    requires |keys| == 2 * |p.targetRefs|
    requires forall j :: 0 <= j < |p.targetRefs| ==> keys[j] == NamedKey(p.namespace, p.targetRefs[j])
    requires forall j :: 0 <= j < |p.targetRefs| ==>
             keys[j + |p.targetRefs|] == UnnamedKey(p.namespace, p.targetRefs[j])
    ensures k in keys <==> IndexedUnder(p, k)
  {
    var n := |p.targetRefs|;
    if k in keys {
      var j :| 0 <= j < |keys| && keys[j] == k;
      assert j >= n ==> keys[(j - n) + n] == UnnamedKey(p.namespace, p.targetRefs[j - n]);
      assert p.targetRefs[if j < n then j else j - n] in p.targetRefs;
    }
    if IndexedUnder(p, k) {
      var r :| r in p.targetRefs && (k == NamedKey(p.namespace, r) || k == UnnamedKey(p.namespace, r));
      var j :| 0 <= j < n && p.targetRefs[j] == r;
      assert keys[j] == NamedKey(p.namespace, r) && keys[j + n] == UnnamedKey(p.namespace, r);
    }
  }

  /** The contract of the label match: the selector is not empty and its pairs are all in `labels`. */
  predicate Match(selector: map<string, string>, labels: map<string, string>) {
    selector != map[] && forall k :: k in selector ==> k in labels && labels[k] == selector[k]
  }

  /** The selector names some labels, and the object has all of them. */
  ghost predicate LabelsFit(selector: map<string, string>, labels: map<string, string>) {
    selector != map[] && selector.Items <= labels.Items
  }

  lemma MatchMeansFit(selector: map<string, string>, labels: map<string, string>)
    ensures Match(selector, labels) <==> LabelsFit(selector, labels)
  {
    if LabelsFit(selector, labels) {
      forall k | k in selector ensures k in labels && labels[k] == selector[k] {
        assert (k, selector[k]) in selector.Items;
      }
    }
  }

  predicate LabelRef(key: Key, labels: map<string, string>, namespace: string, ref: TargetRef) {
    key == UnnamedKey(namespace, ref) && Match(ref.matchLabels, labels)
  }

  /** The generic filter of fetchByTargetRefLabels. */
  method SelectsLabels(p: Policy, key: Key, labels: map<string, string>) returns (selected: bool)
    ensures selected <==> exists r :: r in p.targetRefs && LabelRef(key, labels, p.namespace, r)
  {
    for i := 0 to |p.targetRefs|
      invariant forall j :: 0 <= j < i ==> !LabelRef(key, labels, p.namespace, p.targetRefs[j])
    {
      if LabelRef(key, labels, p.namespace, p.targetRefs[i]) { return true; }
    }
    return false;
  }

  // ---- The two fetches

  datatype Query = ByRef(key: Key) | ByLabels(key: Key, labels: map<string, string>)

  ghost predicate Hits(q: Query, p: Policy) {
    match q
    case ByRef(key) => IndexedUnder(p, key)
    case ByLabels(key, labels) => exists r :: r in p.targetRefs && LabelRef(key, labels, p.namespace, r)
  }

  ghost function Filter(ps: seq<Policy>, q: Query): seq<Policy> {
    if ps == [] then [] else Filter(ps[..|ps| - 1], q) + (if Hits(q, ps[|ps| - 1]) then [ps[|ps| - 1]] else [])
  }

  /** The collections a lookup reads, one after the other. */
  function Eligible(cols: seq<PolicyCollection>, onlyBackends: bool): seq<Policy> {
    if cols == [] then []
    else Eligible(cols[..|cols| - 1], onlyBackends) + Offered(cols[|cols| - 1], onlyBackends)
  }

  /** What one collection offers. */
  function Offered(c: PolicyCollection, onlyBackends: bool): seq<Policy>
  { if onlyBackends && !c.forBackends then [] else c.policies }

  /** A policy is offered exactly by the collections that hold it; a backend lookup asks only
      those whose plugin handles backends. */
  lemma {:induction false} EligibleAre(cols: seq<PolicyCollection>, onlyBackends: bool, p: Policy)
    ensures p in Eligible(cols, onlyBackends) <==> Offers(cols, onlyBackends, p)
    decreases |cols|
  {
    if cols != [] {
      var n := |cols| - 1;
      EligibleAre(cols[..n], onlyBackends, p);
      if Offers(cols[..n], onlyBackends, p) {
        var i :| 0 <= i < n && p in cols[..n][i].policies && (onlyBackends ==> cols[..n][i].forBackends);
        assert p in cols[i].policies;
      }
      if i :| 0 <= i < |cols| && p in cols[i].policies && (onlyBackends ==> cols[i].forBackends) {
        assert i < n ==> p in cols[..n][i].policies;
      }
    }
  }

  ghost predicate Offers(cols: seq<PolicyCollection>, onlyBackends: bool, p: Policy) {
    exists i :: 0 <= i < |cols| && p in cols[i].policies && (onlyBackends ==> cols[i].forBackends)
  }

  /** A collection up to the order of its entries. */
  datatype Contents = Contents(policies: multiset<Policy>, forBackends: bool)

  ghost function AllContents(cols: seq<PolicyCollection>): seq<Contents> {
    seq(|cols|, i requires 0 <= i < |cols| => Contents(multiset(cols[i].policies), cols[i].forBackends))
  }

  /** The same collections with the same entries, visited in any order. */
  ghost predicate SameCollections(a: seq<PolicyCollection>, b: seq<PolicyCollection>) {
    multiset(AllContents(a)) == multiset(AllContents(b))
  }

  lemma {:induction false} EligibleConcat(a: seq<PolicyCollection>, b: seq<PolicyCollection>, onlyBackends: bool)
    ensures Eligible(a + b, onlyBackends) == Eligible(a, onlyBackends) + Eligible(b, onlyBackends)
    decreases |b|
  {
    if b == [] {
      assert a + b == a;
    } else {
      var n := |b| - 1;
      assert (a + b)[..|a + b| - 1] == a + b[..n] && (a + b)[|a + b| - 1] == b[n];
      EligibleConcat(a, b[..n], onlyBackends);
      assert (Eligible(a, onlyBackends) + Eligible(b[..n], onlyBackends)) + Offered(b[n], onlyBackends) ==
             Eligible(a, onlyBackends) + (Eligible(b[..n], onlyBackends) + Offered(b[n], onlyBackends));
    }
  }

  lemma EligibleRemove(head: seq<PolicyCollection>, c: PolicyCollection, tail: seq<PolicyCollection>,
                       onlyBackends: bool)
    ensures multiset(Eligible(head + [c] + tail, onlyBackends)) ==
            multiset(Eligible(head + tail, onlyBackends)) + multiset(Offered(c, onlyBackends))
  {
    EligibleConcat(head + [c], tail, onlyBackends);
    assert (head + [c])[..|head|] == head;
    assert Eligible(head + [c], onlyBackends) == Eligible(head, onlyBackends) + Offered(c, onlyBackends);
    EligibleConcat(head, tail, onlyBackends);
  }

  lemma ContentsWithout(b: seq<PolicyCollection>, j: nat)
    requires j < |b|
    ensures AllContents(b)[..j] + AllContents(b)[j + 1..] == AllContents(b[..j] + b[j + 1..])
  {
  }

  lemma SameContents(a: PolicyCollection, b: PolicyCollection, onlyBackends: bool)
    requires multiset(a.policies) == multiset(b.policies) && a.forBackends == b.forBackends
    ensures multiset(Offered(a, onlyBackends)) == multiset(Offered(b, onlyBackends))
  {
  }

  lemma EligibleLast(a: seq<PolicyCollection>, onlyBackends: bool)
    requires a != []
    ensures multiset(Eligible(a, onlyBackends)) ==
            multiset(Eligible(a[..|a| - 1], onlyBackends)) + multiset(Offered(a[|a| - 1], onlyBackends))
  {
  }

  /** Two collections of the same contents, one last in its list, taken out of both. */
  lemma TakeCollection(a: seq<PolicyCollection>, b: seq<PolicyCollection>) returns (j: nat)
    requires SameCollections(a, b) && a != []
    ensures j < |b| && multiset(b[j].policies) == multiset(a[|a| - 1].policies)
            && b[j].forBackends == a[|a| - 1].forBackends
    ensures SameCollections(a[..|a| - 1], b[..j] + b[j + 1..])
    ensures b == b[..j] + [b[j]] + b[j + 1..]
  {
    var n := |a| - 1;
    j := TakeOut(AllContents(a), AllContents(b));
    assert AllContents(a)[..n] == AllContents(a[..n]);
    ContentsWithout(b, j);
    assert AllContents(a)[n] == AllContents(b)[j];
  }

  /** Visiting the collections, and the entries of each, in another order offers the same
      policies. */
  lemma {:induction false} EligibleAnyOrder(a: seq<PolicyCollection>, b: seq<PolicyCollection>, onlyBackends: bool)
    requires SameCollections(a, b)
    ensures multiset(Eligible(a, onlyBackends)) == multiset(Eligible(b, onlyBackends))
    decreases |a|
  {
    if a == [] {
      SameElements(AllContents(a), AllContents(b));
    } else {
      var j := TakeCollection(a, b);
      EligibleAnyOrder(a[..|a| - 1], b[..j] + b[j + 1..], onlyBackends);
      EligibleLast(a, onlyBackends);
      SameContents(a[|a| - 1], b[j], onlyBackends);
      EligibleRemove(b[..j], b[j], b[j + 1..], onlyBackends);
    }
  }

  lemma {:induction false} FilterConcat(a: seq<Policy>, b: seq<Policy>, q: Query)
    ensures Filter(a + b, q) == Filter(a, q) + Filter(b, q)
    decreases |b|
  {
    if b == [] {
      assert a + b == a;
    } else {
      assert (a + b)[..|a + b| - 1] == a + b[..|b| - 1];
      FilterConcat(a, b[..|b| - 1], q);
    }
  }

  lemma {:induction false} FilterCounts(ps: seq<Policy>, q: Query, p: Policy)
    ensures multiset(Filter(ps, q))[p] == if Hits(q, p) then multiset(ps)[p] else 0
    decreases |ps|
  {
    if ps != [] {
      FilterCounts(ps[..|ps| - 1], q, p);
      assert ps == ps[..|ps| - 1] + [ps[|ps| - 1]];
    }
  }

  method FetchFrom(ps: seq<Policy>, q: Query) returns (found: seq<Policy>)
    ensures found == Filter(ps, q)
  {
    found := [];
    for i := 0 to |ps|
      invariant found == Filter(ps[..i], q)
    {
      assert ps[..i + 1][..i] == ps[..i];
      var keys := IndexKeys(ps[i]);
      var hit := q.key in keys[..];
      if q.ByLabels? {
        var selected := SelectsLabels(ps[i], q.key, q.labels);
        hit := hit && selected;
      }
      assert hit <==> Hits(q, ps[i]);
      if hit { found := found + [ps[i]]; }
    }
    assert ps[..|ps|] == ps;
  }

  /** fetchByTargetRef and fetchByTargetRefLabels, over the collections in map order. */
  method Fetch(cols: seq<PolicyCollection>, q: Query, onlyBackends: bool) returns (found: seq<Policy>)
    ensures found == Filter(Eligible(cols, onlyBackends), q)
  {
    found := [];
    for i := 0 to |cols|
      invariant found == Filter(Eligible(cols[..i], onlyBackends), q)
    {
      assert cols[..i + 1][..i] == cols[..i];
      FilterConcat(Eligible(cols[..i], onlyBackends), cols[i].policies, q);
      if onlyBackends && !cols[i].forBackends {
        assert Eligible(cols[..i + 1], onlyBackends) == Eligible(cols[..i], onlyBackends);
        continue;
      }
      var policies := FetchFrom(cols[i].policies, q);
      found := found + policies;
    }
    assert cols[..|cols|] == cols;
  }

  // ---- What it means to target, with no index

  predicate RefKind(r: TargetRef, t: Target, section: string)
  { r.group == t.group && r.kind == t.kind && r.sectionName == section }

  ghost predicate Names(p: Policy, t: Target, section: string) {
    p.namespace == t.namespace && exists r :: r in p.targetRefs && RefKind(r, t, section) && r.name == t.name
  }

  ghost predicate Selects(p: Policy, t: Target, section: string, labels: map<string, string>, globalNamespace: string) {
    && (p.namespace == t.namespace || (globalNamespace != "" && p.namespace == globalNamespace))
    && exists r :: r in p.targetRefs && RefKind(r, t, section) && LabelsFit(r.matchLabels, labels)
  }

  /** A named lookup finds the policies that name the target, unless the target's name is
      empty: then it finds every policy of the namespace with a ref of the kind. */
  ghost predicate FoundByName(p: Policy, t: Target, section: string) {
    p.namespace == t.namespace && exists r :: r in p.targetRefs && RefKind(r, t, section)
                                              && (t.name == "" || r.name == t.name)
  }

  function TargetKey(t: Target, name: string, namespace: string, section: string): Key {
    Key(t.group, t.kind, name, namespace, section)
  }

  lemma NamedHits(p: Policy, t: Target, section: string)
    ensures Hits(ByRef(TargetKey(t, t.name, t.namespace, section)), p) <==> FoundByName(p, t, section)
  {
    var key := TargetKey(t, t.name, t.namespace, section);
    if IndexedUnder(p, key) {
      var r :| r in p.targetRefs && (key == NamedKey(p.namespace, r) || key == UnnamedKey(p.namespace, r));
      assert RefKind(r, t, section) && (t.name == "" || r.name == t.name);
    }
    if FoundByName(p, t, section) {
      var r :| r in p.targetRefs && RefKind(r, t, section) && (t.name == "" || r.name == t.name);
      assert key == NamedKey(p.namespace, r) || key == UnnamedKey(p.namespace, r);
    }
  }

  /** The named lookup is the scan exactly for targets with a name. */
  lemma NamedLookupIffNamed(t: Target, section: string)
    ensures (forall p :: Hits(ByRef(TargetKey(t, t.name, t.namespace, section)), p) <==> Names(p, t, section)) <==>
            t.name != ""
  {
    if t.name != "" {
      forall p ensures Hits(ByRef(TargetKey(t, t.name, t.namespace, section)), p) <==> Names(p, t, section) {
        NamedHits(p, t, section);
      }
    } else {
      var r := TargetRef(t.group, t.kind, "x", section, map[]);
      var p := Policy("", "", t.namespace, "", 0, 0, 0, [r]);
      NamedHits(p, t, section);
      assert r in p.targetRefs && RefKind(r, t, section);
      assert FoundByName(p, t, section);
      assert !Names(p, t, section);
    }
  }

  lemma LabelHits(p: Policy, t: Target, section: string, labels: map<string, string>, namespace: string)
    ensures Hits(ByLabels(TargetKey(t, "", namespace, section), labels), p) <==>
            p.namespace == namespace && exists r :: r in p.targetRefs && RefKind(r, t, section)
                                                    && LabelsFit(r.matchLabels, labels)
  {
    var key := TargetKey(t, "", namespace, section);
    forall r: TargetRef
      ensures LabelRef(key, labels, p.namespace, r) <==>
              p.namespace == namespace && RefKind(r, t, section) && LabelsFit(r.matchLabels, labels)
    {
      MatchMeansFit(r.matchLabels, labels);
    }
  }

  lemma NoLabelsSelectNothing(p: Policy, t: Target, section: string, globalNamespace: string)
    ensures !Selects(p, t, section, map[], globalNamespace)
  {
    forall r: TargetRef ensures !LabelsFit(r.matchLabels, map[]) {
      MatchMeansFit(r.matchLabels, map[]);
      if r.matchLabels != map[] {
        var k :| k in r.matchLabels;
      }
    }
  }

  ghost function Times(hit: bool, n: nat): nat { if hit then n else 0 }

  /** The lookups of getTargetingPoliciesMaybeForBackends: each eligible policy is found once
      for naming the target and once for selecting its labels, and no other policy is found. */
  method TargetingPolicies(cols: seq<PolicyCollection>, globalNamespace: string, t: Target, section: string,
                           labels: map<string, string>, onlyBackends: bool) returns (policies: seq<Policy>)
    ensures forall p :: multiset(policies)[p] ==
                        Times(FoundByName(p, t, section), multiset(Eligible(cols, onlyBackends))[p])
                        + Times(Selects(p, t, section, labels, globalNamespace),
                                multiset(Eligible(cols, onlyBackends))[p])
  {
    ghost var all := Eligible(cols, onlyBackends);
    policies := Fetch(cols, ByRef(TargetKey(t, t.name, t.namespace, section)), onlyBackends);
    forall p ensures multiset(policies)[p] == Times(FoundByName(p, t, section), multiset(all)[p]) {
      NamedHits(p, t, section);
      FilterCounts(all, ByRef(TargetKey(t, t.name, t.namespace, section)), p);
    }
    ghost var named := policies;
    if |labels| > 0 {
      var byLabel := Fetch(cols, ByLabels(TargetKey(t, "", t.namespace, section), labels), onlyBackends);
      policies := policies + byLabel;
      var globals := [];
      if globalNamespace != "" && t.namespace != globalNamespace {
        globals := Fetch(cols, ByLabels(TargetKey(t, "", globalNamespace, section), labels), onlyBackends);
        policies := policies + globals;
      }
      forall p ensures multiset(byLabel)[p] + multiset(globals)[p]
        == Times(Selects(p, t, section, labels, globalNamespace), multiset(all)[p]) {
        LabelHits(p, t, section, labels, t.namespace);
        LabelHits(p, t, section, labels, globalNamespace);
        FilterCounts(all, ByLabels(TargetKey(t, "", t.namespace, section), labels), p);
        FilterCounts(all, ByLabels(TargetKey(t, "", globalNamespace, section), labels), p);
      }
      assert policies == named + byLabel + globals;
    } else {
      assert labels == map[];
      forall p ensures !Selects(p, t, section, labels, globalNamespace)
      { NoLabelsSelectNothing(p, t, section, globalNamespace); }
    }
  }

  // ---- Key strings

  function KeyFields(k: Key): seq<string> { [k.group, k.kind, k.name, k.namespace, k.sectionName] }

  /** TargetRefIndexKey.String. */
  function KeyString(k: Key): string { Joined(KeyFields(k)) }

  ghost predicate SlashFreeKey(k: Key)
  { SlashFree(k.group) && SlashFree(k.kind) && SlashFree(k.name) && SlashFree(k.namespace) }

  ghost predicate SlashFreePolicy(p: Policy) {
    SlashFree(p.namespace) && forall r :: r in p.targetRefs ==> SlashFree(r.group) && SlashFree(r.kind)
                                                                && SlashFree(r.name)
  }

  /** Looking a policy up by the printed key finds what looking it up by the key finds. */
  lemma LookupByString(p: Policy, k: Key)
    requires SlashFreePolicy(p) && SlashFreeKey(k)
    ensures (exists j :: IndexedUnder(p, j) && KeyString(j) == KeyString(k)) <==> IndexedUnder(p, k)
  {
    if j :| IndexedUnder(p, j) && KeyString(j) == KeyString(k) {
      var r :| r in p.targetRefs && (j == NamedKey(p.namespace, r) || j == UnnamedKey(p.namespace, r));
      KeyStringInjective(j, k);
    }
  }

  lemma KeyStringInjective(a: Key, b: Key)
    requires SlashFreeKey(a) && SlashFreeKey(b)
    requires KeyString(a) == KeyString(b)
    ensures a == b
  {
    var fa, fb := KeyFields(a), KeyFields(b);
    JoinedInjective(fa, fb);
    assert fa[0] == fb[0] && fa[1] == fb[1] && fa[2] == fb[2] && fa[3] == fb[3] && fa[4] == fb[4];
  }
}
