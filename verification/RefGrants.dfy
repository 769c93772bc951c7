/** The ReferenceGrant index and the check it serves (pkg/krtcollections/policy.go). */
module RefGrants {
  import opened Common
  import opened Text

  datatype From = From(group: string, kind: string, namespace: string)

  datatype To = To(group: string, kind: string, name: Option<string>)

  datatype Grant = Grant(namespace: string, name: string, from: seq<From>, to: seq<To>)

  datatype Mode = Off | Permissive | Strict

  datatype ObjectSource = ObjectSource(group: string, kind: string, namespace: string, name: string)

  datatype Key = Key(refGrantNs: string, toGK: GroupKind, toName: string, fromGK: GroupKind, fromNs: string)

  function EmptyIfCore(group: string): string { if group == "core" then "" else group }

  function StrOr(s: Option<string>, def: string): string { if s.None? then def else s.value }

  /** wellknown.GlobalRefGKs holds one kind, Istio's Hostname. */
  const HOSTNAME := GroupKind("networking.istio.io", "Hostname")

  function KeyOf(namespace: string, from: From, to: To): Key {
    Key(namespace, GroupKind(EmptyIfCore(to.group), to.kind), StrOr(to.name, ""),
        GroupKind(EmptyIfCore(from.group), from.kind), from.namespace)
  }

  /** The grant is indexed under the key. */
  ghost predicate IndexedUnder(g: Grant, k: Key) {
    exists f, t :: f in g.from && t in g.to && KeyOf(g.namespace, f, t) == k
  }

  /** One key for every pair of a From and a To. */
  method IndexKeys(g: Grant) returns (keys: seq<Key>)
    ensures forall k :: k in keys <==> IndexedUnder(g, k)
  {
    keys := [];
    for i := 0 to |g.from|
      invariant forall k :: k in keys <==> exists f, t :: f in g.from[..i] && t in g.to && KeyOf(g.namespace, f, t) == k
    {
      ghost var before := keys;
      for j := 0 to |g.to|
        invariant forall k :: k in keys <==> k in before || exists t :: t in g.to[..j]
                                                                        && KeyOf(g.namespace, g.from[i], t) == k
      {
        keys := keys + [KeyOf(g.namespace, g.from[i], g.to[j])];
        assert g.to[..j + 1] == g.to[..j] + [g.to[j]];
      }
      assert g.to[..|g.to|] == g.to;
      assert g.from[..i + 1] == g.from[..i] + [g.from[i]];
    }
    assert g.from[..|g.from|] == g.from;
  }

  // ---- What a grant says, with no index

  /** The core group goes by two names. */
  ghost predicate SameGroup(a: string, b: string) {
    a == b || ((a == "" || a == "core") && (b == "" || b == "core"))
  }

  lemma SameGroupSameKey(a: string, b: string)
    ensures SameGroup(a, b) <==> EmptyIfCore(a) == EmptyIfCore(b)
  {}

  ghost predicate FromMatches(f: From, fromGK: GroupKind, fromNs: string) {
    SameGroup(f.group, fromGK.group) && f.kind == fromGK.kind && f.namespace == fromNs
  }

  /** A To without a name, or with the empty name, stands for every name. */
  ghost predicate ToMatches(t: To, to: ObjectSource) {
    SameGroup(t.group, to.group) && t.kind == to.kind
      && (t.name == None || t.name == Some("") || t.name == Some(to.name))
  }

  ghost predicate Grants(g: Grant, fromGK: GroupKind, fromNs: string, to: ObjectSource) {
    g.namespace == to.namespace && exists f, t :: f in g.from && t in g.to && FromMatches(f, fromGK, fromNs)
                                                  && ToMatches(t, to)
  }

  ghost predicate Allowed(mode: Mode, grants: set<Grant>, fromGK: GroupKind, fromNs: string, to: ObjectSource) {
    || mode == Off
    || fromNs == to.namespace
    || (to.namespace == "" && to.group == "networking.istio.io" && to.kind == "Hostname")
    || exists g :: g in grants && Grants(g, fromGK, fromNs, to)
  }

  function LookupKey(fromGK: GroupKind, fromNs: string, to: ObjectSource, name: string): Key {
    Key(to.namespace, GroupKind(EmptyIfCore(to.group), to.kind), name,
        GroupKind(EmptyIfCore(fromGK.group), fromGK.kind), fromNs)
  }

  /** The two lookups, by no name and by name, find a grant exactly when it grants. */
  lemma TwoLookupsFindGrants(g: Grant, fromGK: GroupKind, fromNs: string, to: ObjectSource)
    ensures Grants(g, fromGK, fromNs, to) <==>
            IndexedUnder(g, LookupKey(fromGK, fromNs, to, ""))
              || IndexedUnder(g, LookupKey(fromGK, fromNs, to, to.name))
  {
    if Grants(g, fromGK, fromNs, to) {
      var f, t :| f in g.from && t in g.to && FromMatches(f, fromGK, fromNs) && ToMatches(t, to);
      SameGroupSameKey(f.group, fromGK.group);
      SameGroupSameKey(t.group, to.group);
      assert KeyOf(g.namespace, f, t) == LookupKey(fromGK, fromNs, to, StrOr(t.name, ""));
    }
    forall name | IndexedUnder(g, LookupKey(fromGK, fromNs, to, name)) && (name == "" || name == to.name)
      ensures Grants(g, fromGK, fromNs, to)
    {
      var f, t :| f in g.from && t in g.to && KeyOf(g.namespace, f, t) == LookupKey(fromGK, fromNs, to, name);
      SameGroupSameKey(f.group, fromGK.group);
      SameGroupSameKey(t.group, to.group);
      assert FromMatches(f, fromGK, fromNs) && ToMatches(t, to);
    }
  }

  function Lookup(index: map<Key, set<Grant>>, k: Key): set<Grant> { if k in index then index[k] else {} }

  lemma AddUnder(index: map<Key, set<Grant>>, key: Key, g: Grant)
    ensures forall k, x :: x in Lookup(index[key := Lookup(index, key) + {g}], k) <==>
            x in Lookup(index, k) || (x == g && k == key)
  {
  }

  ghost predicate Indexes(index: map<Key, set<Grant>>, grants: set<Grant>) {
    forall k, g :: g in Lookup(index, k) <==> g in grants && IndexedUnder(g, k)
  }

  class RefGrantIndex {
    const mode: Mode
    ghost const grants: set<Grant>
    var index: map<Key, set<Grant>>

    ghost predicate Valid()
      reads this
    {
      Indexes(index, grants)
    }

    /** Builds the index over the collection, grant by grant in any order. */
    constructor (collection: set<Grant>, mode: Mode)
      ensures Valid() && grants == collection && this.mode == mode
    {
      this.mode, this.grants := mode, collection;
      index := map[];
      new;
      var todo := collection;
      while todo != {}
        invariant todo <= collection
        invariant Indexes(index, collection - todo)
        decreases todo
      {
        var g :| g in todo;
        AddGrant(g, collection - todo);
        assert collection - todo + {g} == collection - (todo - {g});
        todo := todo - {g};
      }
      assert collection - todo == collection;
    }

    method AddGrant(g: Grant, ghost known: set<Grant>)
      requires Indexes(index, known)
      modifies this
      ensures Indexes(index, known + {g})
    {
      var keys := IndexKeys(g);
      ghost var before := index;
      for i := 0 to |keys|
        invariant forall k, x :: x in Lookup(index, k) <==> x in Lookup(before, k) || (x == g && k in keys[..i])
      {
        ghost var was := index;
        AddUnder(was, keys[i], g);
        index := index[keys[i] := Lookup(index, keys[i]) + {g}];
        forall k, x
          ensures x in Lookup(index, k) <==> x in Lookup(before, k) || (x == g && k in keys[..i + 1])
        {
          assert keys[..i + 1] == keys[..i] + [keys[i]];
          assert x in Lookup(index, k) <==> x in Lookup(was, k) || (x == g && k == keys[i]);
        }
      }
      assert keys[..|keys|] == keys;
    }

    /** The indexed check agrees with reading every grant. */
    method ReferenceAllowed(fromGK: GroupKind, fromNs: string, to: ObjectSource) returns (allowed: bool)
      requires Valid()
      ensures allowed <==> Allowed(mode, grants, fromGK, fromNs, to)
    {
      if mode == Off { return true; }
      if fromNs == to.namespace { return true; }
      if to.namespace == "" && GroupKind(EmptyIfCore(to.group), to.kind) == HOSTNAME { return true; }
      forall g ensures Grants(g, fromGK, fromNs, to) <==>
                       IndexedUnder(g, LookupKey(fromGK, fromNs, to, ""))
                         || IndexedUnder(g, LookupKey(fromGK, fromNs, to, to.name))
      {
        TwoLookupsFindGrants(g, fromGK, fromNs, to);
      }
      var anyName := Lookup(index, LookupKey(fromGK, fromNs, to, ""));
      if anyName != {} {
        ghost var g :| g in anyName;
        assert g in grants && Grants(g, fromGK, fromNs, to);
        return true;
      }
      var byName := Lookup(index, LookupKey(fromGK, fromNs, to, to.name));
      allowed := byName != {};
      if allowed {
        ghost var g :| g in byName;
        assert g in grants && Grants(g, fromGK, fromNs, to);
      }
    }
  }

  /** refGrantIndexKey.String. */
  function KeyFields(k: Key): seq<string> {
    [k.refGrantNs, k.fromNs, k.toGK.group, k.toGK.kind, k.toName, k.fromGK.group, k.fromGK.kind]
  }

  function KeyString(k: Key): string { Joined(KeyFields(k)) }

  ghost predicate SlashFreeKey(k: Key) {
    SlashFree(k.refGrantNs) && SlashFree(k.fromNs) && SlashFree(k.toGK.group) && SlashFree(k.toGK.kind)
      && SlashFree(k.toName)
    && SlashFree(k.fromGK.group)
  }

  /** Names as the API admits them. */
  ghost predicate SlashFreeGrant(g: Grant) {
    && SlashFree(g.namespace)
    && (forall f :: f in g.from ==> SlashFree(f.group) && SlashFree(f.kind) && SlashFree(f.namespace))
    && (forall t :: t in g.to ==> SlashFree(t.group) && SlashFree(t.kind) && SlashFree(StrOr(t.name, "")))
  }

  /** Looking a grant up by the printed key finds what looking it up by the key finds. */
  lemma LookupByString(g: Grant, k: Key)
    requires SlashFreeGrant(g) && SlashFreeKey(k)
    ensures (exists j :: IndexedUnder(g, j) && KeyString(j) == KeyString(k)) <==> IndexedUnder(g, k)
  {
    if j :| IndexedUnder(g, j) && KeyString(j) == KeyString(k) {
      var f, t :| f in g.from && t in g.to && KeyOf(g.namespace, f, t) == j;
      KeyStringInjective(j, k);
    }
  }

  /** Key strings tell keys apart when the fields are slash-free. */
  lemma KeyStringInjective(a: Key, b: Key)
    requires SlashFreeKey(a) && SlashFreeKey(b) && KeyString(a) == KeyString(b)
    ensures a == b
  {
    var fa, fb := KeyFields(a), KeyFields(b);
    JoinedInjective(fa, fb);
    assert fa[0] == fb[0] && fa[1] == fb[1] && fa[2] == fb[2] && fa[3] == fb[3] && fa[4] == fb[4] && fa[5] == fb[5]
           && fa[6] == fb[6];
  }
}
