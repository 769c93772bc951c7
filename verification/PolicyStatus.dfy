/** Policy and backend statuses built from their reports (pkg/reports/policy.go, status.go). */
module PolicyStatus {
  import opened Common
  import opened Text
  import opened Sorting
  import opened Conditions
  import opened Reports
  import opened GatewayStatus
  import opened RouteStatus

  function AncestorDefaults(conds: seq<Condition>, now: nat): seq<Condition> {
    Default(Default(conds, Plain(ACCEPTED, FALSE, "Pending", ""), now), Plain("Attached", FALSE, "Pending", ""), now)
  }

  /** The Attached condition of an attachment state; pending says nothing. */
  function AttachedCondition(state: Attachment): Option<Condition> {
    if state.overridden then
      Some(Plain("Attached", FALSE, "Overridden",
                 "Overridden due to conflict with higher priority policy in target(s)"))
    else if state.merged then
      Some(Plain("Attached", TRUE, "Merged", "Merged with other policies in target(s) and attached"))
    else if state.attached then Some(Plain("Attached", TRUE, "Attached", "Attached to all targets"))
    else None
  }

  function AddAttachment(conds: seq<Condition>, state: Attachment, now: nat): seq<Condition> {
    var c := AttachedCondition(state);
    if c.None? then conds else Set(conds, c.value, now)
  }

  function DesiredAncestors(report: PolicyReport, now: nat): Desired {
    map k | k in report.ancestors && report.ancestors[k].Some? ::
      AddAttachment(AncestorDefaults(report.ancestors[k].value.conditions, now), report.ancestors[k].value.state, now)
  }

  function BuiltPolicy(report: PolicyReport, keys: seq<ParentRefKey>, current: seq<RefStatus>, controller: string,
                       now: nat)
    : seq<RefStatus>
  {
    Sorted(Entries(DesiredAncestors(report, now), Refs(keys), current, controller, report.observedGeneration, now))
  }

  /** What a policy says to an ancestor about a condition type: overridden beats merged beats
      attached, any of them beats a reported Attached, and silence means pending. */
  ghost function AncestorWants(r: AncestorRefReport, typ: string, now: nat): Option<Condition> {
    var reported := Find(r.conditions, typ);
    if typ == "Attached" && r.state.overridden then
      Some(Overriding(reported, Condition(typ, "False", "Overridden",
                                          "Overridden due to conflict with higher priority policy in target(s)", 0, 0),
                      now))
    else if typ == "Attached" && r.state.merged then
      Some(Overriding(reported, Condition(typ, "True", "Merged",
                                          "Merged with other policies in target(s) and attached", 0, 0), now))
    else if typ == "Attached" && r.state.attached then
      Some(Overriding(reported, Condition(typ, "True", "Attached", "Attached to all targets", 0, 0), now))
    else if reported.Some? then reported
    else if typ == "Accepted" || typ == "Attached" then Some(Condition(typ, "False", "Pending", "", 0, 0))
    else None
  }

  lemma AncestorDefaultFound(conds: seq<Condition>, now: nat, typ: string)
    ensures Find(AncestorDefaults(conds, now), typ) ==
            if Find(conds, typ).Some? then Find(conds, typ)
            else if typ == "Accepted" || typ == "Attached" then Some(Condition(typ, "False", "Pending", "", 0, now))
            else None
  {
    var x, y := Plain(ACCEPTED, FALSE, "Pending", ""), Plain("Attached", FALSE, "Pending", "");
    FoundAfterDefault(conds, x, now, typ);
    FoundAfterDefault(Default(conds, x, now), y, now, typ);
  }

  /** Setting over a pending default is setting over nothing. */
  lemma OverDefault(conds: seq<Condition>, c: Condition, now: nat)
    requires c.typ == "Attached" && c.time == 0
    ensures Find(Set(AncestorDefaults(conds, now), c, now), "Attached")
            == Some(Overriding(Find(conds, "Attached"), c, now))
  {
    AncestorDefaultFound(conds, now, "Attached");
    FoundAfterSet(AncestorDefaults(conds, now), c, now, "Attached");
  }

  lemma AttachedSays(r: AncestorRefReport, now: nat)
    requires AttachedCondition(r.state).Some?
    ensures Find(AddAttachment(AncestorDefaults(r.conditions, now), r.state, now), "Attached")
            == AncestorWants(r, "Attached", now)
  {
    OverDefault(r.conditions, AttachedCondition(r.state).value, now);
  }

  lemma AncestorDefaultsSay(r: AncestorRefReport, now: nat, typ: string, was: Option<Condition>, generation: int)
    ensures Expected(Find(AddAttachment(AncestorDefaults(r.conditions, now), r.state, now), typ), was, was, generation,
                     now) ==
            Expected(AncestorWants(r, typ, now), was, was, generation, now)
  {
    var c := AttachedCondition(r.state);
    if c.Some? && typ == "Attached" {
      AttachedSays(r, now);
    } else {
      AncestorDefaultFound(r.conditions, now, typ);
      if c.Some? { FoundAfterSet(AncestorDefaults(r.conditions, now), c.value, now, typ); }
    }
  }

  /** The entry of an ancestor of the report. */
  ghost predicate TellsAncestor(e: RefStatus, report: PolicyReport, current: seq<RefStatus>, controller: string,
                                now: nat)
  {
    && e.controller == controller
    && UniqueTypes(e.conditions)
    && exists key, before ::
      && MadeUp(e.ref, key) && key in report.ancestors && report.ancestors[key].Some?
      && Had(current, e.ref, before)
      && forall typ :: Find(e.conditions, typ) ==
                       Expected(AncestorWants(report.ancestors[key].value, typ, now), Find(before, typ),
                                Find(before, typ), report.observedGeneration, now)
  }

  /** The ancestors of a policy status: one for each the report holds, in printed order. */
  ghost predicate AncestorsOf(ancestors: seq<RefStatus>, report: PolicyReport, current: seq<RefStatus>,
                              controller: string, now: nat)
  {
    && InPrintedOrder(ancestors)
    && (forall e :: e in ancestors ==> TellsAncestor(e, report, current, controller, now))
    && (forall i, j :: 0 <= i < j < |ancestors| ==> ancestors[i].ref != ancestors[j].ref)
    && (forall key :: key in report.ancestors && report.ancestors[key].Some? ==>
          exists e :: e in ancestors && MadeUp(e.ref, key))
  }

  method BuildPolicyStatus(report: Option<PolicyReport>, current: seq<RefStatus>, controller: string, now: nat)
    returns (status: Option<seq<RefStatus>>, ghost keys: seq<ParentRefKey>)
    ensures status.None? <==> report.None?
    ensures status.Some? ==> Enumerates(keys, report.value.ancestors.Keys)
    ensures status.Some? ==> status.value == BuiltPolicy(report.value, keys, current, controller, now)
    ensures status.Some? && ReportedPolicy(report.value) ==>
              AncestorsOf(status.value, report.value, current, controller, now)
  {
    keys := [];
    if report.None? { return None, keys; }
    var refs;
    refs, keys := CollectRefs(report.value.ancestors.Keys);
    var entries := BuildEntries(DesiredAncestors(report.value, now), refs, current, controller,
                                report.value.observedGeneration, now);
    if ReportedPolicy(report.value) { PolicyStatusShape(report.value, keys, current, controller, now); }
    return Some(StableSort(entries, CompareStatuses)), keys;
  }

  ghost predicate ReportedPolicy(report: PolicyReport) {
    forall k :: k in report.ancestors && report.ancestors[k].Some? ==> UniqueTypes(report.ancestors[k].value.conditions)
  }

  lemma DesiredAncestorFacts(r: AncestorRefReport, now: nat, later: nat)
    requires UniqueTypes(r.conditions)
    ensures var d, d' := AddAttachment(AncestorDefaults(r.conditions, now), r.state, now),
            AddAttachment(AncestorDefaults(r.conditions, later), r.state, later);
            UniqueTypes(d) && SameFacts(d, d')
  {
    var a, x, y := r.conditions, Plain(ACCEPTED, FALSE, "Pending", ""), Plain("Attached", FALSE, "Pending", "");
    DefaultSameFacts(a, a, x, now, later);
    DefaultUnique(a, x, now);
    var b, b' := Default(a, x, now), Default(a, x, later);
    DefaultSameFacts(b, b', y, now, later);
    DefaultUnique(b, y, now);
    var c := AttachedCondition(r.state);
    if c.Some? {
      SetSameFacts(Default(b, y, now), Default(b', y, later), c.value, now, later);
      SetUnique(Default(b, y, now), c.value, now);
    }
  }

  /** What an ancestor is told: overridden beats merged beats attached, an attachment
      state beats a reported Attached, and silence means pending. */
  lemma AncestorVerdicts(r: AncestorRefReport, now: nat)
    ensures var d := AddAttachment(AncestorDefaults(r.conditions, now), r.state, now);
            && StatusOf(d, ACCEPTED) == Otherwise(StatusOf(r.conditions, ACCEPTED), FALSE)
            && StatusOf(d, "Attached") ==
               (if r.state.overridden then Some(FALSE) else if r.state.merged || r.state.attached then Some(TRUE)
                else Otherwise(StatusOf(r.conditions, "Attached"), FALSE))
  {
    var x, y := Plain(ACCEPTED, FALSE, "Pending", ""), Plain("Attached", FALSE, "Pending", "");
    var a := Default(r.conditions, x, now);
    var c := AttachedCondition(r.state);
    forall t: string
      ensures StatusOf(a, t) == if t == x.typ then Otherwise(StatusOf(r.conditions, t), FALSE)
              else StatusOf(r.conditions, t)
      ensures StatusOf(Default(a, y, now), t) == if t == y.typ then Otherwise(StatusOf(a, t), FALSE) else StatusOf(a, t)
      ensures c.Some? ==> StatusOf(Set(Default(a, y, now), c.value, now), t) ==
                          if t == c.value.typ then Some(c.value.status) else StatusOf(Default(a, y, now), t)
    {
      DefaultStatus(r.conditions, x, now, t);
      DefaultStatus(a, y, now, t);
      if c.Some? { SetStatus(Default(a, y, now), c.value, now, t); }
    }
  }

  lemma AncestorEntryTells(report: PolicyReport, key: ParentRefKey, current: seq<RefStatus>, controller: string,
                           now: nat)
    requires ReportedPolicy(report) && key in DesiredAncestors(report, now)
    ensures KeyOf(RefOf(key)) == key
    ensures TellsAncestor(Entry(DesiredAncestors(report, now), RefOf(key), current, controller,
                                report.observedGeneration, now),
                          report, current, controller, now)
  {
    var desired, g, ref := DesiredAncestors(report, now), report.observedGeneration, RefOf(key);
    KeyRoundTrip(key);
    MadeUpIsRefOf(ref, key);
    var e := Entry(desired, ref, current, controller, g, now);
    var before, r := CurrentFor(current, ref), report.ancestors[key].value;
    CurrentForHad(current, ref);
    DesiredAncestorFacts(r, now, now);
    BuildShape(desired[key], before, g, now, KeepAll);
    forall typ ensures Find(e.conditions, typ) ==
                       Expected(AncestorWants(r, typ, now), Find(before, typ), Find(before, typ), g, now)
    {
      BuildSays(desired[key], before, g, now, KeepAll, typ);
      FindKeptAll(before, typ, KeepAll);
      AncestorDefaultsSay(r, now, typ, Find(before, typ), g);
    }
  }

  /** The built ancestors: in printed order, one for each ancestor the report holds, each saying
      what the report says. */
  lemma PolicyStatusShape(report: PolicyReport, keys: seq<ParentRefKey>, current: seq<RefStatus>, controller: string,
                          now: nat)
    requires ReportedPolicy(report) && Enumerates(keys, report.ancestors.Keys)
    ensures AncestorsOf(BuiltPolicy(report, keys, current, controller, now), report, current, controller, now)
  {
    var desired, g := DesiredAncestors(report, now), report.observedGeneration;
    var entries := Entries(desired, Refs(keys), current, controller, g, now);
    var built := BuiltPolicy(report, keys, current, controller, now);
    StatusOrder(entries);
    StableSortSorts(entries, CompareStatuses);
    SortedIsPrintedOrder(built);
    SameElements(built, entries);
    forall e | e in built ensures TellsAncestor(e, report, current, controller, now) {
      AncestorEntry(report, keys, current, controller, now, e);
    }
    forall i, j | 0 <= i < j < |built| ensures built[i].ref != built[j].ref {
      AncestorsApart(report, keys, current, controller, now, i, j);
    }
    forall key | key in report.ancestors && report.ancestors[key].Some?
      ensures exists e :: e in built && MadeUp(e.ref, key)
    {
      AncestorListed(report, keys, current, controller, now, key);
    }
  }

  lemma AncestorsApart(report: PolicyReport, keys: seq<ParentRefKey>, current: seq<RefStatus>, controller: string,
                       now: nat, i: nat, j: nat)
    requires ReportedPolicy(report) && Enumerates(keys, report.ancestors.Keys)
    requires i < j < |BuiltPolicy(report, keys, current, controller, now)|
    ensures var built := BuiltPolicy(report, keys, current, controller, now); built[i].ref != built[j].ref
  {
    var built := BuiltPolicy(report, keys, current, controller, now);
    var entries := Entries(DesiredAncestors(report, now), Refs(keys), current, controller, report.observedGeneration,
                           now);
    StableSortPermutes(entries, CompareStatuses);
    assert built[i] in multiset(built) && built[j] in multiset(built);
    AncestorEntry(report, keys, current, controller, now, built[i]);
    AncestorEntry(report, keys, current, controller, now, built[j]);
    CountTwice(built, i, j);
  }

  lemma CountTwice<T>(s: seq<T>, i: nat, j: nat)
    requires i < j < |s|
    ensures s[i] == s[j] ==> multiset(s)[s[i]] >= 2
  {
    assert s == s[..j] + s[j..];
    assert s[i] in s[..j] && s[j] in s[j..];
  }

  lemma AncestorEntry(report: PolicyReport, keys: seq<ParentRefKey>, current: seq<RefStatus>, controller: string,
                      now: nat, e: RefStatus)
    requires ReportedPolicy(report) && Enumerates(keys, report.ancestors.Keys)
    requires e in Entries(DesiredAncestors(report, now), Refs(keys), current, controller, report.observedGeneration,
                          now)
    ensures KeyOf(e.ref) in DesiredAncestors(report, now)
    ensures e == Entry(DesiredAncestors(report, now), e.ref, current, controller, report.observedGeneration, now)
    ensures TellsAncestor(e, report, current, controller, now)
    ensures multiset(Entries(DesiredAncestors(report, now), Refs(keys), current, controller, report.observedGeneration,
                             now))[e] == 1
  {
    var desired, g := DesiredAncestors(report, now), report.observedGeneration;
    EntriesMembers(desired, Refs(keys), current, controller, g, now, e);
    RefsAt(keys);
    var i :| 0 <= i < |Refs(keys)| && KeyOf(Refs(keys)[i]) in desired
      && e == Entry(desired, Refs(keys)[i], current, controller, g, now);
    KeyRoundTrip(keys[i]);
    AncestorEntryTells(report, keys[i], current, controller, now);
    EntriesCount(desired, Refs(keys), current, controller, g, now, e);
    RefsCount(keys, e.ref);
  }

  lemma AncestorListed(report: PolicyReport, keys: seq<ParentRefKey>, current: seq<RefStatus>, controller: string,
                       now: nat, key: ParentRefKey)
    requires Enumerates(keys, report.ancestors.Keys) && key in report.ancestors && report.ancestors[key].Some?
    ensures exists e :: e in BuiltPolicy(report, keys, current, controller, now) && MadeUp(e.ref, key)
  {
    var desired, g := DesiredAncestors(report, now), report.observedGeneration;
    var entries := Entries(desired, Refs(keys), current, controller, g, now);
    KeyRoundTrip(key);
    MadeUpIsRefOf(RefOf(key), key);
    var e := Entry(desired, RefOf(key), current, controller, g, now);
    RefsCount(keys, RefOf(key));
    EntriesCount(desired, Refs(keys), current, controller, g, now, e);
    StableSortPermutes(entries, CompareStatuses);
    assert e in multiset(Sorted(entries));
  }

  lemma DesiredAncestorsFacts(report: PolicyReport, now: nat, later: nat)
    requires ReportedPolicy(report)
    ensures SameDesired(DesiredAncestors(report, now), DesiredAncestors(report, later))
  {
    forall k | k in DesiredAncestors(report, now)
      ensures UniqueTypes(DesiredAncestors(report, now)[k])
              && SameFacts(DesiredAncestors(report, now)[k], DesiredAncestors(report, later)[k])
    {
      DesiredAncestorFacts(report.ancestors[k].value, now, later);
    }
  }

  /** The built ancestors do not depend on map iteration order. */
  lemma PolicyStatusAnyOrder(report: PolicyReport, a: seq<ParentRefKey>, b: seq<ParentRefKey>, current: seq<RefStatus>,
                             controller: string, now: nat)
    requires Enumerates(a, report.ancestors.Keys) && Enumerates(b, report.ancestors.Keys)
    requires forall k :: k in report.ancestors ==> SlashFreeKey(k)
    ensures BuiltPolicy(report, a, current, controller, now) == BuiltPolicy(report, b, current, controller, now)
  {
    RefsPermute(a, b);
    var desired, g := DesiredAncestors(report, now), report.observedGeneration;
    var ea, eb := Entries(desired, Refs(a), current, controller, g, now),
      Entries(desired, Refs(b), current, controller, g, now);
    EntriesPermute(desired, Refs(a), Refs(b), current, controller, g, now);
    StatusOrder(ea);
    forall x, y | x in ea && y in ea && CompareStatuses(x, y) <= 0 && CompareStatuses(y, x) <= 0 ensures x == y {
      CompareLaws(ParentString(x.ref), ParentString(y.ref));
      EntryDetermined(report, a, current, controller, now, x, y);
    }
    StableSortDeterministic(ea, eb, CompareStatuses);
  }

  /** Two ancestor entries that print alike are the same entry. */
  lemma EntryDetermined(report: PolicyReport, keys: seq<ParentRefKey>, current: seq<RefStatus>, controller: string,
                        now: nat,
                        x: RefStatus, y: RefStatus)
    requires Enumerates(keys, report.ancestors.Keys)
    requires forall k :: k in report.ancestors ==> SlashFreeKey(k)
    requires x in Entries(DesiredAncestors(report, now), Refs(keys), current, controller, report.observedGeneration,
                          now)
    requires y in Entries(DesiredAncestors(report, now), Refs(keys), current, controller, report.observedGeneration,
                          now)
    requires ParentString(x.ref) == ParentString(y.ref)
    ensures x == y
  {
    var desired, g := DesiredAncestors(report, now), report.observedGeneration;
    EntriesMembers(desired, Refs(keys), current, controller, g, now, x);
    EntriesMembers(desired, Refs(keys), current, controller, g, now, y);
    RefsAt(keys);
    var i :| 0 <= i < |Refs(keys)| && KeyOf(Refs(keys)[i]) in desired
      && x == Entry(desired, Refs(keys)[i], current, controller, g, now);
    var j :| 0 <= j < |Refs(keys)| && KeyOf(Refs(keys)[j]) in desired
      && y == Entry(desired, Refs(keys)[j], current, controller, g, now);
    assert keys[i] in multiset(keys) && keys[j] in multiset(keys);
    PrintedKeys(keys[i], keys[j]);
  }

  /** Rebuilding a policy status on top of itself, whatever the two map iteration orders
      and clocks, changes nothing. */
  lemma PolicyFixpoint(report: PolicyReport, a: seq<ParentRefKey>, b: seq<ParentRefKey>, current: seq<RefStatus>,
                       controller: string, now: nat, later: nat)
    requires ReportedPolicy(report)
    requires Enumerates(a, report.ancestors.Keys) && Enumerates(b, report.ancestors.Keys)
    requires forall k :: k in report.ancestors ==> SlashFreeKey(k)
    ensures var built := BuiltPolicy(report, a, current, controller, now);
            BuiltPolicy(report, b, built, controller, later) == built
  {
    DesiredAncestorsFacts(report, now, later);
    var refs := Refs(a);
    var entries := Entries(DesiredAncestors(report, now), refs, current, controller, report.observedGeneration, now);
    StableSortPermutes(entries, CompareStatuses);
    EntriesFixpoint(DesiredAncestors(report, now), DesiredAncestors(report, later), refs, refs, current,
                    Sorted(entries), controller,
                    report.observedGeneration, now, later);
    PolicyStatusAnyOrder(report, a, b, Sorted(entries), controller, later);
  }

  // ---- Backends

  predicate KeepOnBackend(c: Condition) { c.typ !in {"Accepted", "EndpointsDiscovered"} }

  /** A backend status says what is reported; the two types the reporter owns are dropped with
      their report, the others are kept. */
  ghost predicate BackendOf(built: seq<Condition>, report: BackendReport, current: seq<Condition>, now: nat) {
    && UniqueTypes(built)
    && forall typ :: Find(built, typ) ==
                     Expected(Find(report.conditions, typ), Find(current, typ),
                              if typ == "Accepted" || typ == "EndpointsDiscovered" then None else Find(current, typ),
                              report.observedGeneration, now)
  }

  lemma BackendStatusShape(report: BackendReport, current: seq<Condition>, now: nat)
    requires UniqueTypes(report.conditions)
    ensures BackendOf(Build(report.conditions, current, report.observedGeneration, now, KeepOnBackend), report, current,
                      now)
  {
    BuildShape(report.conditions, current, report.observedGeneration, now, KeepOnBackend);
    forall typ
      ensures Find(Build(report.conditions, current, report.observedGeneration, now, KeepOnBackend), typ) ==
              Expected(Find(report.conditions, typ), Find(current, typ),
                       if typ == "Accepted" || typ == "EndpointsDiscovered" then None else Find(current, typ),
                       report.observedGeneration, now)
    {
      BuildSays(report.conditions, current, report.observedGeneration, now, KeepOnBackend, typ);
      if typ == "Accepted" || typ == "EndpointsDiscovered" {
        FindKeptNone(current, typ, KeepOnBackend);
      } else {
        FindKeptAll(current, typ, KeepOnBackend);
      }
    }
  }

  method BuildBackendStatus(report: Option<BackendReport>, current: seq<Condition>, now: nat)
    returns (status: Option<seq<Condition>>)
    ensures report.None? ==> status.None?
    ensures report.Some? ==>
            status == Some(Build(report.value.conditions, current, report.value.observedGeneration, now, KeepOnBackend))
    ensures report.Some? && UniqueTypes(report.value.conditions) ==> BackendOf(status.value, report.value, current, now)
  {
    if report.None? { return None; }
    if UniqueTypes(report.value.conditions) { BackendStatusShape(report.value, current, now); }
    var final := CarryOver(report.value.conditions, current, report.value.observedGeneration, now);
    final := PreserveOthers(final, current, KeepOnBackend);
    return Some(final);
  }

  /** Rebuilding changes nothing, and an owned type the report dropped does not linger. */
  lemma BackendFixpoint(report: BackendReport, current: seq<Condition>, now: nat, later: nat)
    requires UniqueTypes(report.conditions)
    ensures var built := Build(report.conditions, current, report.observedGeneration, now, KeepOnBackend);
            && Build(report.conditions, built, report.observedGeneration, later, KeepOnBackend) == built
            && UniqueTypes(built)
            && (forall c :: c in built && !KeepOnBackend(c) ==> HasType(report.conditions, c.typ))
  {
    BuildFixpoint(report.conditions, report.conditions, current, report.observedGeneration, now, later, KeepOnBackend);
    BuildShape(report.conditions, current, report.observedGeneration, now, KeepOnBackend);
    var built := Build(report.conditions, current, report.observedGeneration, now, KeepOnBackend);
    forall c | c in built && !KeepOnBackend(c) ensures HasType(report.conditions, c.typ) {
      var i :| 0 <= i < |built| && built[i] == c;
      assert i < |report.conditions| && report.conditions[i].typ == c.typ;
    }
  }
}
