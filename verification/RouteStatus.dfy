/** Route statuses built from their reports (pkg/reports/status.go, reporter.go). */
module RouteStatus {
  import opened Common
  import opened Text
  import opened Sorting
  import opened Conditions
  import opened Reports
  import opened GatewayStatus

  // ---- Parent references

  function OrEmpty(s: Option<string>): string { if s.Some? then s.value else "" }

  function OrZero(n: Option<int>): int { if n.Some? then n.value else 0 }

  /** ParentString: "group/kind/name/section/port.namespace". */
  function ParentString(ref: ParentReference): string {
    OrEmpty(ref.group) + "/" + (OrEmpty(ref.kind) + "/" + (ref.name + "/" + (OrEmpty(ref.sectionName) + "/" +
      (Decimal(OrZero(ref.port)) + "." + OrEmpty(ref.namespace)))))
  }

  /** getParentRefKey; the port is not part of the key. */
  function KeyOf(ref: ParentReference): ParentRefKey {
    ParentRefKey(OrEmpty(ref.group), OrEmpty(ref.kind), OrEmpty(ref.namespace), ref.name, OrEmpty(ref.sectionName))
  }

  /** The reference a report key stands for. */
  function RefOf(key: ParentRefKey): ParentReference {
    ParentReference(Some(key.group), Some(key.kind), if key.namespace != "" then Some(key.namespace) else None,
                    key.name, if key.sectionName != "" then Some(key.sectionName) else None, None)
  }

  predicate SlashFreeRef(ref: ParentReference) {
    SlashFree(OrEmpty(ref.group)) && SlashFree(OrEmpty(ref.kind)) && SlashFree(ref.name)
      && SlashFree(OrEmpty(ref.sectionName))
  }

  lemma KeyRoundTrip(key: ParentRefKey)
    ensures KeyOf(RefOf(key)) == key
  {}

  /** References without slashes print alike only if they have the same key and port. */
  lemma ParentStringInjective(a: ParentReference, b: ParentReference)
    requires SlashFreeRef(a) && SlashFreeRef(b) && ParentString(a) == ParentString(b)
    ensures KeyOf(a) == KeyOf(b) && OrZero(a.port) == OrZero(b.port)
  {
    var pa, pb := Decimal(OrZero(a.port)), Decimal(OrZero(b.port));
    var a5, b5 := pa + "." + OrEmpty(a.namespace), pb + "." + OrEmpty(b.namespace);
    var a4, b4 := OrEmpty(a.sectionName) + "/" + a5, OrEmpty(b.sectionName) + "/" + b5;
    var a3, b3 := a.name + "/" + a4, b.name + "/" + b4;
    var a2, b2 := OrEmpty(a.kind) + "/" + a3, OrEmpty(b.kind) + "/" + b3;
    SplitUnique('/', OrEmpty(a.group), a2, OrEmpty(b.group), b2);
    SplitUnique('/', OrEmpty(a.kind), a3, OrEmpty(b.kind), b3);
    SplitUnique('/', a.name, a4, b.name, b4);
    SplitUnique('/', OrEmpty(a.sectionName), a5, OrEmpty(b.sectionName), b5);
    SplitUnique('.', pa, OrEmpty(a.namespace), pb, OrEmpty(b.namespace));
    DecimalInjective(OrZero(a.port), OrZero(b.port));
  }

  /** A slash in a field lets two different keys print alike. */
  lemma SlashesCollide()
    ensures exists a, b: ParentRefKey :: a != b && ParentString(RefOf(a)) == ParentString(RefOf(b))
  {
    var a, b := ParentRefKey("x/y", "z", "", "n", ""), ParentRefKey("x", "y/z", "", "n", "");
    assert a.group != b.group;
    var rest := "n" + "/" + ("" + "/" + (Decimal(0) + "." + ""));
    assert ParentString(RefOf(a)) == "x/y" + "/" + ("z" + "/" + rest);
    assert ParentString(RefOf(b)) == "x" + "/" + ("y/z" + "/" + rest);
    assert "x/y" + "/" + ("z" + "/" + rest) == "x/y/z/" + rest;
    assert "x" + "/" + ("y/z" + "/" + rest) == "x/y/z/" + rest;
  }

  function CompareRefs(a: ParentReference, b: ParentReference): int { Compare(ParentString(a), ParentString(b)) }

  /** A status entry for one parent or ancestor. */
  datatype RefStatus = RefStatus(ref: ParentReference, controller: string, conditions: seq<Condition>)

  function CompareStatuses(a: RefStatus, b: RefStatus): int { CompareRefs(a.ref, b.ref) }

  lemma StatusOrder(xs: seq<RefStatus>)
    ensures TotalPreorder(xs, CompareStatuses)
  {
    forall x, y ensures CompareStatuses(x, y) <= 0 || CompareStatuses(y, x) <= 0 {
      CompareLaws(ParentString(x.ref), ParentString(y.ref));
    }
    forall x, y, z | CompareStatuses(x, y) <= 0 && CompareStatuses(y, z) <= 0 ensures CompareStatuses(x, z) <= 0 {
      CompareTransitive(ParentString(x.ref), ParentString(y.ref), ParentString(z.ref));
    }
  }

  lemma RefOrder(xs: seq<ParentReference>)
    ensures TotalPreorder(xs, CompareRefs)
  {
    forall x, y ensures CompareRefs(x, y) <= 0 || CompareRefs(y, x) <= 0 {
      CompareLaws(ParentString(x), ParentString(y));
    }
    forall x, y, z | CompareRefs(x, y) <= 0 && CompareRefs(y, z) <= 0 ensures CompareRefs(x, z) <= 0 {
      CompareTransitive(ParentString(x), ParentString(y), ParentString(z));
    }
  }

  // ---- What a status is about, in fields

  ghost predicate Reads(field: Option<string>, text: string) { field == Some(text) || (field == None && text == "") }

  /** The report key of a reference: its fields without the port, a missing one as empty. */
  ghost predicate KeyFits(ref: ParentReference, key: ParentRefKey) {
    && Reads(ref.group, key.group) && Reads(ref.kind, key.kind) && Reads(ref.namespace, key.namespace)
    && ref.name == key.name && Reads(ref.sectionName, key.sectionName)
  }

  /** The reference made up for a report key. */
  ghost predicate MadeUp(ref: ParentReference, key: ParentRefKey) {
    && ref.group == Some(key.group) && ref.kind == Some(key.kind) && ref.name == key.name && ref.port == None
    && (ref.namespace == if key.namespace == "" then None else Some(key.namespace))
    && (ref.sectionName == if key.sectionName == "" then None else Some(key.sectionName))
  }

  lemma KeyIsTheFit(ref: ParentReference, key: ParentRefKey)
    ensures KeyFits(ref, key) <==> key == KeyOf(ref)
  {}

  /** How a reference prints. */
  lemma ParentStringLayout(ref: ParentReference, key: ParentRefKey)
    requires KeyFits(ref, key)
    ensures ParentString(ref) == key.group + "/" + key.kind + "/" + key.name + "/" + key.sectionName + "/"
                                 + (Decimal(if ref.port == None then 0 else ref.port.value) + "." + key.namespace)
  {
    var d := Decimal(if ref.port == None then 0 else ref.port.value) + "." + key.namespace;
    assert ParentString(ref) == key.group + "/" + (key.kind + "/" + (key.name + "/" + (key.sectionName + "/" + d)));
    Regroup(key.group + "/", key.kind, key.name + "/" + (key.sectionName + "/" + d));
    Regroup(key.group + "/" + key.kind + "/", key.name, key.sectionName + "/" + d);
    Regroup(key.group + "/" + key.kind + "/" + key.name + "/", key.sectionName, d);
  }

  lemma Regroup(a: string, b: string, c: string)
    ensures a + (b + "/" + c) == a + b + "/" + c
  {}

  lemma MadeUpIsRefOf(ref: ParentReference, key: ParentRefKey)
    ensures MadeUp(ref, key) <==> ref == RefOf(key)
  {}

  /** Sorted by the printed reference, in character order. */
  ghost predicate InPrintedOrder(entries: seq<RefStatus>) {
    forall i, j :: 0 <= i < j < |entries| ==> !Before(ParentString(entries[j].ref), ParentString(entries[i].ref))
  }

  lemma SortedIsPrintedOrder(entries: seq<RefStatus>)
    requires SortedBy(entries, CompareStatuses)
    ensures InPrintedOrder(entries)
  {
    forall i, j | 0 <= i < j < |entries|
      ensures !Before(ParentString(entries[j].ref), ParentString(entries[i].ref))
    {
      CompareIsBefore(ParentString(entries[i].ref), ParentString(entries[j].ref));
      CompareIsBefore(ParentString(entries[j].ref), ParentString(entries[i].ref));
      CompareLaws(ParentString(entries[i].ref), ParentString(entries[j].ref));
    }
  }

  /** Entry i is the first of the list with this reference. */
  ghost predicate FirstFor(current: seq<RefStatus>, ref: ParentReference, i: int) {
    0 <= i < |current| && current[i].ref == ref && forall j :: 0 <= j < i ==> current[j].ref != ref
  }

  /** The conditions the status had for a reference. */
  ghost predicate Had(current: seq<RefStatus>, ref: ParentReference, conds: seq<Condition>) {
    if exists i :: FirstFor(current, ref, i)
    then exists i :: FirstFor(current, ref, i) && conds == current[i].conditions
    else conds == []
  }

  lemma {:induction false} CurrentForHad(current: seq<RefStatus>, ref: ParentReference)
    ensures Had(current, ref, CurrentFor(current, ref))
    decreases |current|
  {
    if current != [] {
      if current[0].ref == ref {
        assert FirstFor(current, ref, 0);
      } else {
        CurrentForHad(current[1..], ref);
        forall i | FirstFor(current, ref, i) ensures FirstFor(current[1..], ref, i - 1) {
          assert current[1..][i - 1] == current[i];
        }
        if i :| FirstFor(current[1..], ref, i) && CurrentFor(current, ref) == current[1..][i].conditions {
          assert FirstFor(current, ref, i + 1);
        }
      }
    }
  }

  // ---- Map iteration

  /** One iteration over a map's keys: each key once, in any order. */
  ghost predicate Enumerates(keys: seq<ParentRefKey>, all: set<ParentRefKey>) { multiset(keys) == multiset(all) }

  function Refs(keys: seq<ParentRefKey>): seq<ParentReference> {
    if keys == [] then [] else Refs(keys[..|keys| - 1]) + [RefOf(keys[|keys| - 1])]
  }

  lemma {:induction false} RefsAt(keys: seq<ParentRefKey>)
    ensures |Refs(keys)| == |keys|
    ensures forall i :: 0 <= i < |keys| ==> Refs(keys)[i] == RefOf(keys[i])
    decreases |keys|
  {
    if keys != [] { RefsAt(keys[..|keys| - 1]); }
  }

  predicate SlashFreeKey(k: ParentRefKey) {
    SlashFree(k.group) && SlashFree(k.kind) && SlashFree(k.name) && SlashFree(k.sectionName)
  }

  lemma SlashFreeRefOf(key: ParentRefKey)
    requires SlashFreeKey(key)
    ensures SlashFreeRef(RefOf(key))
  {
    assert OrEmpty(RefOf(key).group) == key.group && OrEmpty(RefOf(key).kind) == key.kind;
    assert RefOf(key).name == key.name && OrEmpty(RefOf(key).sectionName) == key.sectionName;
  }

  /** Keys without slashes print apart. */
  lemma PrintedKeys(a: ParentRefKey, b: ParentRefKey)
    requires SlashFreeKey(a) && SlashFreeKey(b) && ParentString(RefOf(a)) == ParentString(RefOf(b))
    ensures a == b
  {
    SlashFreeRefOf(a);
    SlashFreeRefOf(b);
    ParentStringInjective(RefOf(a), RefOf(b));
    KeyRoundTrip(a);
    KeyRoundTrip(b);
  }

  /** The references of a report, one per key, in map order. */
  method CollectRefs(all: set<ParentRefKey>) returns (refs: seq<ParentReference>, ghost keys: seq<ParentRefKey>)
    ensures Enumerates(keys, all) && refs == Refs(keys)
  {
    refs, keys := [], [];
    var left := all;
    while left != {}
      invariant left <= all && multiset(keys) == multiset(all - left) && refs == Refs(keys)
      decreases |left|
    {
      var k :| k in left;
      Shrink(all, left, k);
      assert multiset(all - (left - {k})) == multiset(all - left) + multiset{k};
      assert (keys + [k])[..|keys|] == keys;
      refs, keys, left := refs + [RefOf(k)], keys + [k], left - {k};
    }
    assert all - {} == all;
  }

  /** RouteReport.parentRefs: the inferred parents of a delegatee route, sorted. */
  function InferredRefs(keys: seq<ParentRefKey>): seq<ParentReference> { StableSort(Refs(keys), CompareRefs) }

  /** Reordering keys reorders what is computed from each. */
  lemma {:induction false} RefsPermute(a: seq<ParentRefKey>, b: seq<ParentRefKey>)
    requires multiset(a) == multiset(b)
    ensures multiset(Refs(a)) == multiset(Refs(b))
    decreases |a|
  {
    if a == [] {
      SameElements(a, b);
    } else {
      var j := TakeOut(a, b);
      RefsPermute(a[..|a| - 1], b[..j] + b[j + 1..]);
      RefsRemove(b[..j], b[j], b[j + 1..]);
    }
  }

  lemma RefsThree(head: seq<ParentRefKey>, k: ParentRefKey, tail: seq<ParentRefKey>)
    ensures Refs(head + [k] + tail) == Refs(head) + [RefOf(k)] + Refs(tail)
  {
    RefsConcat(head + [k], tail);
    assert (head + [k])[..|head|] == head;
  }

  lemma RefsRemove(head: seq<ParentRefKey>, k: ParentRefKey, tail: seq<ParentRefKey>)
    ensures multiset(Refs(head + [k] + tail)) == multiset(Refs(head + tail)) + multiset{RefOf(k)}
  {
    RefsThree(head, k, tail);
    RefsConcat(head, tail);
    MiddleOut(Refs(head), RefOf(k), Refs(tail));
  }

  lemma {:induction false} RefsConcat(a: seq<ParentRefKey>, b: seq<ParentRefKey>)
    ensures Refs(a + b) == Refs(a) + Refs(b)
    decreases |b|
  {
    if b == [] {
      assert a + b == a;
    } else {
      assert (a + b)[..|a + b| - 1] == a + b[..|b| - 1];
      RefsConcat(a, b[..|b| - 1]);
    }
  }

  /** The inferred parents do not depend on map iteration order. */
  lemma InferredRefsAnyOrder(a: seq<ParentRefKey>, b: seq<ParentRefKey>, all: set<ParentRefKey>)
    requires Enumerates(a, all) && Enumerates(b, all)
    requires forall k :: k in all ==> SlashFreeKey(k)
    ensures InferredRefs(a) == InferredRefs(b)
  {
    RefsPermute(a, b);
    RefOrder(Refs(a));
    forall x, y | x in Refs(a) && y in Refs(a) && CompareRefs(x, y) <= 0 && CompareRefs(y, x) <= 0 ensures x == y {
      CompareLaws(ParentString(x), ParentString(y));
      SamePrint(a, all, x, y);
    }
    StableSortDeterministic(Refs(a), Refs(b), CompareRefs);
  }

  lemma SamePrint(keys: seq<ParentRefKey>, all: set<ParentRefKey>, x: ParentReference, y: ParentReference)
    requires Enumerates(keys, all) && x in Refs(keys) && y in Refs(keys) && ParentString(x) == ParentString(y)
    requires forall k :: k in all ==> SlashFreeKey(k)
    ensures x == y
  {
    var i := RefAt(keys, all, x);
    var j := RefAt(keys, all, y);
    PrintedKeys(keys[i], keys[j]);
  }

  lemma RefAt(keys: seq<ParentRefKey>, all: set<ParentRefKey>, x: ParentReference) returns (i: nat)
    requires Enumerates(keys, all) && x in Refs(keys)
    ensures i < |keys| && x == RefOf(keys[i]) && keys[i] in all
  {
    RefsAt(keys);
    i :| 0 <= i < |Refs(keys)| && Refs(keys)[i] == x;
    assert keys[i] in multiset(keys);
    assert keys[i] in multiset(all);
  }

  // ---- Entries per reference

  /** The conditions of the entry that has the reference, if any. */
  function CurrentFor(current: seq<RefStatus>, ref: ParentReference): seq<Condition> {
    if current == [] then [] else if current[0].ref == ref then current[0].conditions else CurrentFor(current[1..], ref)
  }

  /** The desired conditions of every parent the report knows. */
  type Desired = map<ParentRefKey, seq<Condition>>

  predicate KeepAll(c: Condition) { true }

  function Entry(desired: Desired, ref: ParentReference, current: seq<RefStatus>, controller: string,
                 generation: int, now: nat): RefStatus
    requires KeyOf(ref) in desired
  {
    RefStatus(ref, controller, Build(desired[KeyOf(ref)], CurrentFor(current, ref), generation, now, KeepAll))
  }

  /** One entry for each reference the report knows, in reference order. */
  function Entries(desired: Desired, refs: seq<ParentReference>, current: seq<RefStatus>, controller: string,
                   generation: int, now: nat): seq<RefStatus>
  {
    if refs == [] then []
    else
      var ref := refs[|refs| - 1];
      Entries(desired, refs[..|refs| - 1], current, controller, generation, now)
      + if KeyOf(ref) in desired then [Entry(desired, ref, current, controller, generation, now)] else []
  }

  method BuildEntries(desired: Desired, refs: seq<ParentReference>, current: seq<RefStatus>, controller: string,
                      generation: int, now: nat) returns (out: seq<RefStatus>)
    ensures out == Entries(desired, refs, current, controller, generation, now)
  {
    out := [];
    for i := 0 to |refs|
      invariant out == Entries(desired, refs[..i], current, controller, generation, now)
    {
      assert refs[..i + 1][..i] == refs[..i];
      var key := KeyOf(refs[i]);
      if key in desired {
        var currentConds := CurrentFor(current, refs[i]);
        var final := CarryOver(desired[key], currentConds, generation, now);
        final := PreserveOthers(final, currentConds, KeepAll);
        out := out + [RefStatus(refs[i], controller, final)];
      }
    }
    assert refs[..|refs|] == refs;
  }

  lemma {:induction false} EntriesMembers(desired: Desired, refs: seq<ParentReference>, current: seq<RefStatus>,
                                          controller: string,
                                          generation: int, now: nat, e: RefStatus)
    ensures e in Entries(desired, refs, current, controller, generation, now) <==>
            exists i :: 0 <= i < |refs| && KeyOf(refs[i]) in desired &&
              e == Entry(desired, refs[i], current, controller, generation, now)
    decreases |refs|
  {
    if refs != [] {
      var n := |refs| - 1;
      var front := refs[..n];
      EntriesMembers(desired, front, current, controller, generation, now, e);
      if e in Entries(desired, front, current, controller, generation, now) {
        var i :| 0 <= i < |front| && KeyOf(front[i]) in desired
          && e == Entry(desired, front[i], current, controller, generation, now);
        assert refs[i] == front[i];
      }
      if i :| (0 <= i < |refs| && KeyOf(refs[i]) in desired
               && e == Entry(desired, refs[i], current, controller, generation, now)) {
        assert i < n ==> front[i] == refs[i];
      }
    }
  }

  /** An entry is there once for each time its reference is listed. */
  lemma {:induction false} EntriesCount(desired: Desired, refs: seq<ParentReference>, current: seq<RefStatus>,
                                        controller: string, generation: int, now: nat, e: RefStatus)
    requires KeyOf(e.ref) in desired && e == Entry(desired, e.ref, current, controller, generation, now)
    ensures multiset(Entries(desired, refs, current, controller, generation, now))[e] == multiset(refs)[e.ref]
    decreases |refs|
  {
    if refs != [] {
      var n := |refs| - 1;
      assert refs == refs[..n] + [refs[n]];
      EntriesCount(desired, refs[..n], current, controller, generation, now, e);
    }
  }

  ghost predicate SameDesired(a: Desired, b: Desired) {
    && a.Keys == b.Keys
    && forall k :: k in a ==> UniqueTypes(a[k]) && SameFacts(a[k], b[k])
  }

  lemma {:induction false} CurrentForFound(current: seq<RefStatus>, ref: ParentReference, conds: seq<Condition>)
    requires exists e :: e in current && e.ref == ref
    requires forall e :: e in current && e.ref == ref ==> e.conditions == conds
    ensures CurrentFor(current, ref) == conds
    decreases |current|
  {
    if current[0].ref == ref {
      assert current[0] in current;
    } else {
      assert current == [current[0]] + current[1..];
      CurrentForFound(current[1..], ref, conds);
    }
  }

  /** Rebuilding the entries on top of any arrangement of themselves gives them back. */
  lemma {:induction false} EntriesFixpoint(desired: Desired, again: Desired, all: seq<ParentReference>,
                                           refs: seq<ParentReference>,
                                           current: seq<RefStatus>, built: seq<RefStatus>, controller: string,
                                           generation: int, now: nat, later: nat)
    requires SameDesired(desired, again)
    requires multiset(built) == multiset(Entries(desired, all, current, controller, generation, now))
    requires refs <= all
    ensures Entries(again, refs, built, controller, generation, later)
            == Entries(desired, refs, current, controller, generation, now)
    decreases |refs|
  {
    if refs != [] {
      var n := |refs| - 1;
      EntriesFixpoint(desired, again, all, refs[..n], current, built, controller, generation, now, later);
      if KeyOf(refs[n]) in desired {
        assert refs[n] == all[n];
        EntryFixpoint(desired, again, all, n, current, built, controller, generation, now, later);
      }
    }
  }

  lemma EntryFixpoint(desired: Desired, again: Desired, all: seq<ParentReference>, n: nat,
                      current: seq<RefStatus>, built: seq<RefStatus>, controller: string, generation: int, now: nat,
                        later: nat)
    requires SameDesired(desired, again) && n < |all| && KeyOf(all[n]) in desired
    requires multiset(built) == multiset(Entries(desired, all, current, controller, generation, now))
    ensures Entry(again, all[n], built, controller, generation, later)
            == Entry(desired, all[n], current, controller, generation, now)
  {
    var ref, key, e := all[n], KeyOf(all[n]), Entry(desired, all[n], current, controller, generation, now);
    var entries := Entries(desired, all, current, controller, generation, now);
    SameElements(built, entries);
    EntriesMembers(desired, all, current, controller, generation, now, e);
    assert e in built;
    forall x | x in built && x.ref == ref ensures x.conditions == e.conditions {
      EntriesMembers(desired, all, current, controller, generation, now, x);
    }
    CurrentForFound(built, ref, e.conditions);
    BuildFixpoint(desired[key], again[key], CurrentFor(current, ref), generation, now, later, KeepAll);
  }

  lemma {:induction false} EntriesPermute(desired: Desired, a: seq<ParentReference>, b: seq<ParentReference>,
                                          current: seq<RefStatus>,
                                          controller: string, generation: int, now: nat)
    requires multiset(a) == multiset(b)
    ensures multiset(Entries(desired, a, current, controller, generation, now)) ==
            multiset(Entries(desired, b, current, controller, generation, now))
    decreases |a|
  {
    if a == [] {
      SameElements(a, b);
    } else {
      var n := |a| - 1;
      var j := TakeOut(a, b);
      EntriesPermute(desired, a[..n], b[..j] + b[j + 1..], current, controller, generation, now);
      EntriesRemove(desired, b, j, current, controller, generation, now);
      assert a == a[..n] + [a[n]];
      EntriesConcat(desired, a[..n], [a[n]], current, controller, generation, now);
    }
  }

  lemma EntriesRemove(desired: Desired, b: seq<ParentReference>, j: nat, current: seq<RefStatus>,
                      controller: string, generation: int, now: nat)
    requires j < |b|
    ensures multiset(Entries(desired, b, current, controller, generation, now)) ==
            multiset(Entries(desired, b[..j] + b[j + 1..], current, controller, generation, now))
            + multiset(Entries(desired, [b[j]], current, controller, generation, now))
  {
    var head, mid, tail := b[..j], [b[j]], b[j + 1..];
    assert b == (head + mid) + tail;
    EntriesConcat(desired, head + mid, tail, current, controller, generation, now);
    EntriesConcat(desired, head, mid, current, controller, generation, now);
    EntriesConcat(desired, head, tail, current, controller, generation, now);
  }

  lemma {:induction false} EntriesConcat(desired: Desired, a: seq<ParentReference>, b: seq<ParentReference>,
                                         current: seq<RefStatus>,
                                         controller: string, generation: int, now: nat)
    ensures Entries(desired, a + b, current, controller, generation, now) ==
            Entries(desired, a, current, controller, generation, now)
              + Entries(desired, b, current, controller, generation, now)
    decreases |b|
  {
    if b == [] {
      assert a + b == a;
    } else {
      var n := |b| - 1;
      assert (a + b)[..|a + b| - 1] == a + b[..n];
      EntriesConcat(desired, a, b[..n], current, controller, generation, now);
    }
  }

  function Sorted(entries: seq<RefStatus>): seq<RefStatus> { StableSort(entries, CompareStatuses) }

  // ---- Routes

  function ParentDefaults(conds: seq<Condition>, now: nat): seq<Condition> {
    var a := Default(conds, Plain(ACCEPTED, TRUE, "Accepted", "Successfully accepted Route"), now);
    var b := Default(a, Plain(RESOLVED_REFS, TRUE, "ResolvedRefs", "Successfully resolved all references"), now);
    Default(b, Plain("kgateway.dev/Programmed", TRUE, "Programmed", "Successfully programmed Route"), now)
  }

  function DesiredParents(report: RouteReport, now: nat): Desired {
    map k | k in report.parents && report.parents[k].Some? :: ParentDefaults(report.parents[k].value.conditions, now)
  }

  function RouteRefs(spec: seq<ParentReference>, keys: seq<ParentRefKey>): seq<ParentReference> {
    if spec != [] then spec else InferredRefs(keys)
  }

  function BuiltRoute(report: RouteReport, refs: seq<ParentReference>, current: seq<RefStatus>, controller: string,
                      now: nat)
    : seq<RefStatus>
  {
    Sorted(Entries(DesiredParents(report, now), refs, current, controller, report.observedGeneration, now))
  }

  /** What the route says to a parent about a condition type: the reported condition, and
      silence means healthy. */
  ghost function ParentWants(reported: seq<Condition>, typ: string): Option<Condition> {
    if Find(reported, typ).Some? then Find(reported, typ)
    else if typ == "Accepted" then Some(Condition(typ, "True", "Accepted", "Successfully accepted Route", 0, 0))
    else if typ == "ResolvedRefs" then
      Some(Condition(typ, "True", "ResolvedRefs", "Successfully resolved all references", 0, 0))
    else if typ == "kgateway.dev/Programmed" then
      Some(Condition(typ, "True", "Programmed", "Successfully programmed Route", 0, 0))
    else None
  }

  lemma ParentDefaultsSay(conds: seq<Condition>, now: nat, typ: string, was: Option<Condition>, generation: int)
    ensures Expected(Find(ParentDefaults(conds, now), typ), was, was, generation, now) ==
            Expected(ParentWants(conds, typ), was, was, generation, now)
  {
    var x := Plain(ACCEPTED, TRUE, "Accepted", "Successfully accepted Route");
    var y := Plain(RESOLVED_REFS, TRUE, "ResolvedRefs", "Successfully resolved all references");
    var z := Plain("kgateway.dev/Programmed", TRUE, "Programmed", "Successfully programmed Route");
    FoundAfterDefault(conds, x, now, typ);
    FoundAfterDefault(Default(conds, x, now), y, now, typ);
    FoundAfterDefault(Default(Default(conds, x, now), y, now), z, now, typ);
  }

  /** The entry of a parent the report knows: every condition type says what the report says
      or the default, stamped with the report's generation, and what the parent's entry held
      before is kept for the other types. */
  ghost predicate TellsParent(e: RefStatus, report: RouteReport, current: seq<RefStatus>, controller: string, now: nat)
  {
    && e.controller == controller
    && UniqueTypes(e.conditions)
    && exists key, before ::
      && KeyFits(e.ref, key) && key in report.parents && report.parents[key].Some?
      && Had(current, e.ref, before)
      && forall typ :: Find(e.conditions, typ) ==
                       Expected(ParentWants(report.parents[key].value.conditions, typ), Find(before, typ),
                                Find(before, typ), report.observedGeneration, now)
  }

  /** The report has a parent for the reference. */
  ghost predicate KnowsParent(report: RouteReport, ref: ParentReference) {
    exists key :: KeyFits(ref, key) && key in report.parents && report.parents[key].Some?
  }

  /** The references a route's status is about, with their number: those of the spec the
      report knows, and for a route without any one for each parent of the report. */
  ghost function Times(spec: seq<ParentReference>, report: RouteReport, ref: ParentReference): nat {
    if !KnowsParent(report, ref) then 0
    else if spec != [] then multiset(spec)[ref]
    else if exists key :: MadeUp(ref, key) then 1
    else 0
  }

  /** The parents of a route status. */
  ghost predicate ParentsOf(parents: seq<RefStatus>, report: RouteReport, spec: seq<ParentReference>,
                            current: seq<RefStatus>, controller: string, now: nat)
  {
    && InPrintedOrder(parents)
    && (forall e :: e in parents ==> TellsParent(e, report, current, controller, now))
    && (forall e :: e in parents ==> multiset(parents)[e] == Times(spec, report, e.ref))
    && (forall ref :: Times(spec, report, ref) > 0 ==> exists e :: e in parents && e.ref == ref)
  }

  lemma EntryTells(report: RouteReport, ref: ParentReference, current: seq<RefStatus>, controller: string, now: nat)
    requires ReportedRoute(report) && KeyOf(ref) in DesiredParents(report, now)
    ensures TellsParent(Entry(DesiredParents(report, now), ref, current, controller, report.observedGeneration, now),
                        report, current, controller, now)
  {
    var desired, g := DesiredParents(report, now), report.observedGeneration;
    var e := Entry(desired, ref, current, controller, g, now);
    var key, before := KeyOf(ref), CurrentFor(current, ref);
    var conds := report.parents[key].value.conditions;
    KeyIsTheFit(ref, key);
    CurrentForHad(current, ref);
    ParentDefaultsFacts(conds, now, now);
    BuildShape(desired[key], before, g, now, KeepAll);
    forall typ ensures Find(e.conditions, typ) ==
                       Expected(ParentWants(conds, typ), Find(before, typ), Find(before, typ), g, now)
    {
      BuildSays(desired[key], before, g, now, KeepAll, typ);
      FindKeptAll(before, typ, KeepAll);
      ParentDefaultsSay(conds, now, typ, Find(before, typ), g);
    }
  }

  lemma KnowsParentKey(report: RouteReport, ref: ParentReference, now: nat)
    ensures KnowsParent(report, ref) <==> KeyOf(ref) in DesiredParents(report, now)
  {
    KeyIsTheFit(ref, KeyOf(ref));
    forall key | KeyFits(ref, key) ensures key == KeyOf(ref) { KeyIsTheFit(ref, key); }
  }

  /** How often a reference that the report knows is used. */
  lemma UsedTimes(report: RouteReport, spec: seq<ParentReference>, keys: seq<ParentRefKey>, ref: ParentReference)
    requires Enumerates(keys, report.parents.Keys) && KnowsParent(report, ref)
    ensures multiset(RouteRefs(spec, keys))[ref] == Times(spec, report, ref)
  {
    if spec == [] {
      StableSortPermutes(Refs(keys), CompareRefs);
      RefsCount(keys, ref);
      KeyIsTheFit(ref, KeyOf(ref));
      MadeUpIsRefOf(ref, KeyOf(ref));
      KnowsParentKey(report, ref, 0);
      forall key | MadeUp(ref, key) ensures key == KeyOf(ref) {
        MadeUpIsRefOf(ref, key);
        KeyRoundTrip(key);
      }
    }
  }

  lemma {:induction false} RefsCount(keys: seq<ParentRefKey>, ref: ParentReference)
    ensures multiset(Refs(keys))[ref] == if ref == RefOf(KeyOf(ref)) then multiset(keys)[KeyOf(ref)] else 0
    decreases |keys|
  {
    if keys != [] {
      var n := |keys| - 1;
      assert keys == keys[..n] + [keys[n]];
      RefsCount(keys[..n], ref);
      KeyRoundTrip(keys[n]);
    }
  }

  /** The built parents: in printed order, one for each reference the report knows, each saying
      what the report says. */
  lemma RouteStatusShape(report: RouteReport, spec: seq<ParentReference>, keys: seq<ParentRefKey>,
                          current: seq<RefStatus>, controller: string, now: nat)
    requires ReportedRoute(report) && Enumerates(keys, report.parents.Keys)
    ensures ParentsOf(BuiltRoute(report, RouteRefs(spec, keys), current, controller, now), report, spec, current,
                      controller, now)
  {
    var desired, refs, g := DesiredParents(report, now), RouteRefs(spec, keys), report.observedGeneration;
    var entries := Entries(desired, refs, current, controller, g, now);
    var built := Sorted(entries);
    StatusOrder(entries);
    StableSortSorts(entries, CompareStatuses);
    SortedIsPrintedOrder(built);
    SameElements(built, entries);
    forall e | e in built
      ensures TellsParent(e, report, current, controller, now) && multiset(built)[e] == Times(spec, report, e.ref)
    {
      EntriesMembers(desired, refs, current, controller, g, now, e);
      EntryTells(report, e.ref, current, controller, now);
      EntriesCount(desired, refs, current, controller, g, now, e);
      KnowsParentKey(report, e.ref, now);
      UsedTimes(report, spec, keys, e.ref);
    }
    forall ref | Times(spec, report, ref) > 0 ensures exists e :: e in built && e.ref == ref {
      KnowsParentKey(report, ref, now);
      UsedTimes(report, spec, keys, ref);
      var e := Entry(desired, ref, current, controller, g, now);
      EntriesCount(desired, refs, current, controller, g, now, e);
      assert e in multiset(built);
    }
  }

  /** The three types every parent is told about. */
  lemma ParentTold(e: RefStatus, report: RouteReport, current: seq<RefStatus>, controller: string, now: nat,
                   key: ParentRefKey, typ: string)
    requires TellsParent(e, report, current, controller, now) && KeyFits(e.ref, key)
    requires typ == "Accepted" || typ == "ResolvedRefs" || typ == "kgateway.dev/Programmed"
    ensures key in report.parents && report.parents[key].Some?
    ensures StatusOf(e.conditions, typ) == Otherwise(StatusOf(report.parents[key].value.conditions, typ), "True")
    ensures forall r :: r in report.parents[key].value.conditions && UniqueTypes(report.parents[key].value.conditions)
              ==> exists c :: c in e.conditions && c.typ == r.typ && c.status == r.status && c.reason == r.reason
                              && c.message == r.message && c.observedGeneration == report.observedGeneration
  {
    forall k | KeyFits(e.ref, k) ensures k == key {
      KeyIsTheFit(e.ref, k);
      KeyIsTheFit(e.ref, key);
    }
    var conds := report.parents[key].value.conditions;
    forall r | r in conds && UniqueTypes(conds)
      ensures exists c :: c in e.conditions && c.typ == r.typ && c.status == r.status && c.reason == r.reason
                          && c.message == r.message && c.observedGeneration == report.observedGeneration
    {
      var i :| 0 <= i < |conds| && conds[i] == r;
      FindUnique(conds, i);
      FindIsFirst(e.conditions, r.typ);
    }
  }

  /** Spec parents, or for a delegatee route the parents of its report; None is a kind that is
      not supported. */
  method BuildRouteStatus(report: Option<RouteReport>, kind: Option<RouteKind>, spec: seq<ParentReference>,
                          current: seq<RefStatus>,
                          controller: string, now: nat)
    returns (status: Option<seq<RefStatus>>, ghost keys: seq<ParentRefKey>)
    ensures status.None? <==> report.None? || kind.None?
    ensures status.Some? ==> Enumerates(keys, report.value.parents.Keys)
    ensures status.Some? ==> status.value == BuiltRoute(report.value, RouteRefs(spec, keys), current, controller, now)
    ensures status.Some? && ReportedRoute(report.value) ==>
              ParentsOf(status.value, report.value, spec, current, controller, now)
  {
    keys := [];
    if report.None? || kind.None? { return None, keys; }
    var refs;
    refs, keys := CollectRefs(report.value.parents.Keys);
    refs := StableSort(refs, CompareRefs);
    if |spec| != 0 { refs := spec; }
    var entries := BuildEntries(DesiredParents(report.value, now), refs, current, controller,
                                report.value.observedGeneration, now);
    if ReportedRoute(report.value) { RouteStatusShape(report.value, spec, keys, current, controller, now); }
    return Some(StableSort(entries, CompareStatuses)), keys;
  }

  ghost predicate ReportedRoute(report: RouteReport) {
    forall k :: k in report.parents && report.parents[k].Some? ==> UniqueTypes(report.parents[k].value.conditions)
  }

  lemma ParentDefaultsFacts(a: seq<Condition>, now: nat, later: nat)
    requires UniqueTypes(a)
    ensures UniqueTypes(ParentDefaults(a, now)) && SameFacts(ParentDefaults(a, now), ParentDefaults(a, later))
  {
    var x := Plain(ACCEPTED, TRUE, "Accepted", "Successfully accepted Route");
    var y := Plain(RESOLVED_REFS, TRUE, "ResolvedRefs", "Successfully resolved all references");
    var z := Plain("kgateway.dev/Programmed", TRUE, "Programmed", "Successfully programmed Route");
    DefaultSameFacts(a, a, x, now, later);
    DefaultUnique(a, x, now);
    var b, b' := Default(a, x, now), Default(a, x, later);
    DefaultSameFacts(b, b', y, now, later);
    DefaultUnique(b, y, now);
    DefaultSameFacts(Default(b, y, now), Default(b', y, later), z, now, later);
    DefaultUnique(Default(b, y, now), z, now);
  }

  lemma DesiredParentsFacts(report: RouteReport, now: nat, later: nat)
    requires ReportedRoute(report)
    ensures SameDesired(DesiredParents(report, now), DesiredParents(report, later))
  {
    forall k | k in DesiredParents(report, now)
      ensures UniqueTypes(DesiredParents(report, now)[k])
              && SameFacts(DesiredParents(report, now)[k], DesiredParents(report, later)[k])
    {
      ParentDefaultsFacts(report.parents[k].value.conditions, now, later);
    }
  }

  /** Rebuilding a route status on top of itself, at any clock, changes nothing. */
  lemma RouteFixpoint(report: RouteReport, refs: seq<ParentReference>, current: seq<RefStatus>, controller: string,
                      now: nat, later: nat)
    requires ReportedRoute(report)
    ensures var built := BuiltRoute(report, refs, current, controller, now);
            BuiltRoute(report, refs, built, controller, later) == built
  {
    DesiredParentsFacts(report, now, later);
    var entries := Entries(DesiredParents(report, now), refs, current, controller, report.observedGeneration, now);
    StableSortPermutes(entries, CompareStatuses);
    EntriesFixpoint(DesiredParents(report, now), DesiredParents(report, later), refs, refs, current, Sorted(entries),
                    controller,
                    report.observedGeneration, now, later);
  }

  /** So does a rebuild that infers the parents again in another map iteration order. */
  lemma RouteRebuild(report: RouteReport, spec: seq<ParentReference>, a: seq<ParentRefKey>, b: seq<ParentRefKey>,
                     current: seq<RefStatus>, controller: string, now: nat, later: nat)
    requires ReportedRoute(report)
    requires Enumerates(a, report.parents.Keys) && Enumerates(b, report.parents.Keys)
    requires forall k :: k in report.parents ==> SlashFreeKey(k)
    ensures var built := BuiltRoute(report, RouteRefs(spec, a), current, controller, now);
            BuiltRoute(report, RouteRefs(spec, b), built, controller, later) == built
  {
    InferredRefsAnyOrder(a, b, report.parents.Keys);
    RouteFixpoint(report, RouteRefs(spec, a), current, controller, now, later);
  }

  /** What a parent is told: the reported status, and silence means healthy. */
  lemma ParentVerdicts(conds: seq<Condition>, now: nat, typ: string)
    requires typ == ACCEPTED || typ == RESOLVED_REFS || typ == "kgateway.dev/Programmed"
    ensures StatusOf(ParentDefaults(conds, now), typ) == Otherwise(StatusOf(conds, typ), TRUE)
  {
    var x := Plain(ACCEPTED, TRUE, "Accepted", "Successfully accepted Route");
    var y := Plain(RESOLVED_REFS, TRUE, "ResolvedRefs", "Successfully resolved all references");
    DefaultStatus(conds, x, now, typ);
    DefaultStatus(Default(conds, x, now), y, now, typ);
    DefaultStatus(Default(Default(conds, x, now), y, now),
                  Plain("kgateway.dev/Programmed", TRUE, "Programmed", "Successfully programmed Route"), now, typ);
  }
}
