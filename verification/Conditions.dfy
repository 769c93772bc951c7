/** Kubernetes status conditions: find, set, compare (pkg/reports/report_map.go), and the
    carry-over that every status builder performs (pkg/reports/status.go, policy.go). */
module Conditions {
  import opened Common

  /** metav1.Condition; time 0 is the zero time. */
  datatype Condition = Condition(typ: string, status: string, reason: string, message: string,
                                 observedGeneration: int, time: nat)

  const TRUE := "True"
  const FALSE := "False"

  /** A condition as reports and defaults write it: no generation, no time. */
  function Plain(typ: string, status: string, reason: string, message: string): Condition {
    Condition(typ, status, reason, message, 0, 0)
  }

  /** meta.FindStatusCondition: the first entry of the type. */
  function Find(conds: seq<Condition>, typ: string): Option<Condition> {
    if conds == [] then None
    else if conds[0].typ == typ then Some(conds[0])
    else Find(conds[1..], typ)
  }

  function Or(time: nat, now: nat): nat { if time != 0 then time else now }

  /** How an existing condition takes a new value: the time moves with the status only. */
  function Updated(was: Condition, c: Condition, now: nat): Condition {
    Condition(was.typ, c.status, c.reason, c.message, c.observedGeneration,
              if was.status == c.status then was.time else Or(c.time, now))
  }

  /** meta.SetStatusCondition. */
  function Set(conds: seq<Condition>, c: Condition, now: nat): seq<Condition> {
    if conds == [] then [c.(time := Or(c.time, now))]
    else if conds[0].typ == c.typ then [Updated(conds[0], c, now)] + conds[1..]
    else [conds[0]] + Set(conds[1..], c, now)
  }

  ghost predicate UniqueTypes(conds: seq<Condition>) {
    forall i, j :: 0 <= i < j < |conds| ==> conds[i].typ != conds[j].typ
  }

  ghost predicate HasType(conds: seq<Condition>, typ: string) {
    exists i :: 0 <= i < |conds| && conds[i].typ == typ
  }

  lemma {:induction false} FindIsFirst(conds: seq<Condition>, typ: string)
    ensures Find(conds, typ).Some? <==> HasType(conds, typ)
    ensures Find(conds, typ).Some? ==> Find(conds, typ).value in conds && Find(conds, typ).value.typ == typ
    decreases |conds|
  {
    if conds != [] && conds[0].typ != typ {
      FindIsFirst(conds[1..], typ);
      if HasType(conds, typ) {
        var i :| 0 <= i < |conds| && conds[i].typ == typ;
        assert conds[1..][i - 1].typ == typ;
      }
      if HasType(conds[1..], typ) {
        var i :| 0 <= i < |conds[1..]| && conds[1..][i].typ == typ;
        assert conds[i + 1].typ == typ;
      }
    }
  }

  lemma {:induction false} FindUnique(conds: seq<Condition>, i: nat)
    requires UniqueTypes(conds) && i < |conds|
    ensures Find(conds, conds[i].typ) == Some(conds[i])
    decreases i
  {
    if i > 0 { FindUnique(conds[1..], i - 1); }
  }

  /** Set touches the entry of its type, or appends one. */
  lemma {:induction false} SetAt(conds: seq<Condition>, c: Condition, now: nat, k: nat)
    requires k <= |conds|
    requires forall i :: 0 <= i < k ==> conds[i].typ != c.typ
    requires k < |conds| ==> conds[k].typ == c.typ
    ensures Set(conds, c, now) == if k < |conds| then conds[k := Updated(conds[k], c, now)]
                                  else conds + [c.(time := Or(c.time, now))]
    decreases |conds|
  {
    if conds != [] && k > 0 {
      SetAt(conds[1..], c, now, k - 1);
      assert conds == [conds[0]] + conds[1..];
    }
  }

  /** The position of a type: its first entry, or the end. */
  function IndexOf(conds: seq<Condition>, typ: string): (k: nat)
    ensures k <= |conds|
    ensures forall i :: 0 <= i < k ==> conds[i].typ != typ
    ensures k < |conds| ==> conds[k].typ == typ
  {
    if conds == [] || conds[0].typ == typ then 0 else 1 + IndexOf(conds[1..], typ)
  }

  lemma FindAtIndex(conds: seq<Condition>, typ: string)
    ensures Find(conds, typ) == if IndexOf(conds, typ) < |conds| then Some(conds[IndexOf(conds, typ)]) else None
    decreases |conds|
  {
    if conds != [] && conds[0].typ != typ { FindAtIndex(conds[1..], typ); }
  }

  lemma SetShape(conds: seq<Condition>, c: Condition, now: nat)
    ensures var k := IndexOf(conds, c.typ);
            Set(conds, c, now) == if k < |conds| then conds[k := Updated(conds[k], c, now)]
                                  else conds + [c.(time := Or(c.time, now))]
  {
    SetAt(conds, c, now, IndexOf(conds, c.typ));
  }

  /** SetCondition keeps condition types unique. */
  lemma SetUnique(conds: seq<Condition>, c: Condition, now: nat)
    requires UniqueTypes(conds)
    ensures UniqueTypes(Set(conds, c, now))
  {
    SetShape(conds, c, now);
  }

  /** A report's condition list after a run of SetCondition calls. */
  function SetAll(calls: seq<(Condition, nat)>): seq<Condition> {
    if calls == [] then []
    else Set(SetAll(calls[..|calls| - 1]), calls[|calls| - 1].0, calls[|calls| - 1].1)
  }

  lemma {:induction false} ReportsHaveUniqueTypes(calls: seq<(Condition, nat)>)
    ensures UniqueTypes(SetAll(calls))
    decreases |calls|
  {
    if calls != [] {
      ReportsHaveUniqueTypes(calls[..|calls| - 1]);
      SetUnique(SetAll(calls[..|calls| - 1]), calls[|calls| - 1].0, calls[|calls| - 1].1);
    }
  }

  // ---- conditionsEqual

  /** Everything but the transition time. */
  function Fact(c: Condition): Condition { c.(time := 0) }

  ghost function Facts(conds: seq<Condition>): set<Condition> { set c | c in conds :: Fact(c) }

  predicate SameCondition(c: Condition, other: Option<Condition>) {
    && other.Some?
    && c.status == other.value.status && c.reason == other.value.reason && c.message == other.value.message
    && c.observedGeneration == other.value.observedGeneration
  }

  predicate ConditionsEqual(a: seq<Condition>, b: seq<Condition>) {
    |a| == |b| && forall i :: 0 <= i < |a| ==> SameCondition(a[i], Find(b, a[i].typ))
  }

  method CompareConditions(a: seq<Condition>, b: seq<Condition>) returns (equal: bool)
    ensures equal <==> ConditionsEqual(a, b)
    ensures UniqueTypes(a) && UniqueTypes(b) ==> (equal <==> Facts(a) == Facts(b))
  {
    if UniqueTypes(a) && UniqueTypes(b) { EqualIffSameFacts(a, b); }
    if |a| != |b| { return false; }
    for i := 0 to |a|
      invariant forall j :: 0 <= j < i ==> SameCondition(a[j], Find(b, a[j].typ))
    {
      if !SameCondition(a[i], Find(b, a[i].typ)) { return false; }
    }
    return true;
  }

  lemma {:induction false} FactsCount(conds: seq<Condition>)
    requires UniqueTypes(conds)
    ensures |Facts(conds)| == |conds|
    decreases |conds|
  {
    if conds == [] {
      assert Facts(conds) == {};
    } else {
      FactsCount(conds[1..]);
      assert conds == [conds[0]] + conds[1..];
      assert Facts(conds) == Facts(conds[1..]) + {Fact(conds[0])};
      assert Fact(conds[0]) !in Facts(conds[1..]);
    }
  }

  lemma SubsetSameSize<T>(a: set<T>, b: set<T>)
    requires a <= b && |a| == |b|
    ensures a == b
  {
    assert b == a + (b - a);
  }

  /** On lists with unique types conditionsEqual compares the two sets of facts, whatever
      the order and the transition times. */
  lemma EqualIffSameFacts(a: seq<Condition>, b: seq<Condition>)
    requires UniqueTypes(a) && UniqueTypes(b)
    ensures ConditionsEqual(a, b) <==> Facts(a) == Facts(b)
  {
    FactsCount(a);
    FactsCount(b);
    if ConditionsEqual(a, b) {
      forall f | f in Facts(a) ensures f in Facts(b) {
        var i :| 0 <= i < |a| && Fact(a[i]) == f;
        FindIsFirst(b, a[i].typ);
        assert Fact(Find(b, a[i].typ).value) == f;
      }
      SubsetSameSize(Facts(a), Facts(b));
    }
    if Facts(a) == Facts(b) {
      forall i | 0 <= i < |a| ensures SameCondition(a[i], Find(b, a[i].typ)) {
        assert Fact(a[i]) in Facts(b);
        var j :| 0 <= j < |b| && Fact(b[j]) == Fact(a[i]);
        FindUnique(b, j);
      }
    }
  }

  /** So it is an equivalence on them. */
  lemma ConditionsEqualIsEquivalence(a: seq<Condition>, b: seq<Condition>, c: seq<Condition>)
    requires UniqueTypes(a) && UniqueTypes(b) && UniqueTypes(c)
    ensures ConditionsEqual(a, a)
    ensures ConditionsEqual(a, b) ==> ConditionsEqual(b, a)
    ensures ConditionsEqual(a, b) && ConditionsEqual(b, c) ==> ConditionsEqual(a, c)
  {
    EqualIffSameFacts(a, a);
    EqualIffSameFacts(a, b);
    EqualIffSameFacts(b, a);
    EqualIffSameFacts(b, c);
    EqualIffSameFacts(a, c);
  }

  /** With repeated types it is not symmetric. */
  lemma RepeatedTypesBreakSymmetry()
    ensures exists a, b :: !UniqueTypes(a) && ConditionsEqual(a, b) && !ConditionsEqual(b, a)
  {
    var x, y := Plain("Accepted", TRUE, "", ""), Plain("Programmed", TRUE, "", "");
    var a, b := [x, x], [x, y];
    assert a[0].typ == a[1].typ;
    assert ConditionsEqual(a, b);
    FindIsFirst(a, b[1].typ);
    assert !SameCondition(b[1], Find(a, b[1].typ));
  }

  ghost function Types(conds: seq<Condition>): set<string> { set c | c in conds :: c.typ }

  lemma TypesCons(c: Condition, tail: seq<Condition>)
    ensures Types([c] + tail) == Types(tail) + {c.typ}
    ensures UniqueTypes([c] + tail) <==> UniqueTypes(tail) && c.typ !in Types(tail)
  {
    var all := [c] + tail;
    assert forall i :: 0 <= i < |tail| ==> all[i + 1] == tail[i];
    forall t ensures t in Types(all) <==> t in Types(tail) + {c.typ} {
      if t in Types(tail) {
        var d :| d in tail && d.typ == t;
        assert d in all;
      }
      assert c in all;
    }
    if UniqueTypes(all) {
      forall i | 0 <= i < |tail| ensures tail[i].typ != c.typ { assert all[i + 1].typ != all[0].typ; }
    }
    forall i | 0 <= i < |tail| ensures tail[i].typ in Types(tail) {}
  }

  lemma {:induction false} TypesCount(conds: seq<Condition>)
    ensures |Types(conds)| <= |conds|
    ensures UniqueTypes(conds) <==> |Types(conds)| == |conds|
    decreases |conds|
  {
    if conds == [] {
      assert Types(conds) == {};
    } else {
      TypesCount(conds[1..]);
      TypesCons(conds[0], conds[1..]);
      assert conds == [conds[0]] + conds[1..];
    }
  }

  lemma SmallerSubset<T>(a: set<T>, b: set<T>)
    requires a <= b
    ensures |a| <= |b|
  {
    assert b == a + (b - a);
  }

  /** A list with repeated types equals a list without only in one direction. */
  lemma SymmetricIffUnique(a: seq<Condition>, b: seq<Condition>)
    requires UniqueTypes(b) && ConditionsEqual(a, b)
    ensures ConditionsEqual(b, a) <==> UniqueTypes(a)
  {
    if UniqueTypes(a) {
      EqualIffSameFacts(a, b);
      EqualIffSameFacts(b, a);
    }
    if ConditionsEqual(b, a) {
      forall t | t in Types(b) ensures t in Types(a) {
        var i :| 0 <= i < |b| && b[i].typ == t;
        FindIsFirst(a, t);
      }
      SmallerSubset(Types(b), Types(a));
      TypesCount(a);
      TypesCount(b);
    }
  }

  // ---- Carrying the current status over

  /** What a desired condition becomes next to the current status: the report's facts and
      generation, the old time exactly when the status value is unchanged. */
  function Stamped(c: Condition, current: seq<Condition>, generation: int, now: nat): Condition {
    var was := Find(current, c.typ);
    Condition(c.typ, c.status, c.reason, c.message, generation,
              if was.Some? && was.value.status == c.status then was.value.time else Or(c.time, now))
  }

  /** The builders' loop: copy the current entry of the type, then set the desired one. */
  function Carry(desired: seq<Condition>, current: seq<Condition>, generation: int, now: nat): seq<Condition> {
    if desired == [] then []
    else
      var n := |desired| - 1;
      var done := Carry(desired[..n], current, generation, now);
      var was := Find(current, desired[n].typ);
      Set(if was.Some? then done + [was.value] else done, desired[n].(observedGeneration := generation), now)
  }

  method CarryOver(desired: seq<Condition>, current: seq<Condition>, generation: int, now: nat)
    returns (final: seq<Condition>)
    ensures final == Carry(desired, current, generation, now)
    ensures UniqueTypes(desired) ==> |final| == |desired|
    ensures UniqueTypes(desired) ==>
              forall i :: 0 <= i < |desired| ==> final[i] == Stamped(desired[i], current, generation, now)
  {
    final := [];
    for n := 0 to |desired|
      invariant final == Carry(desired[..n], current, generation, now)
    {
      assert desired[..n + 1][..n] == desired[..n];
      var c := desired[n].(observedGeneration := generation);
      var was := Find(current, c.typ);
      if was.Some? { final := final + [was.value]; }
      final := Set(final, c, now);
    }
    assert desired[..|desired|] == desired;
    if UniqueTypes(desired) { CarryStamps(desired, current, generation, now); }
  }

  lemma {:induction false} CarryStamps(desired: seq<Condition>, current: seq<Condition>, generation: int, now: nat)
    requires UniqueTypes(desired)
    ensures |Carry(desired, current, generation, now)| == |desired|
    ensures forall i :: 0 <= i < |desired| ==>
              Carry(desired, current, generation, now)[i] == Stamped(desired[i], current, generation, now)
    decreases |desired|
  {
    if desired != [] {
      var n := |desired| - 1;
      CarryStamps(desired[..n], current, generation, now);
      var done := Carry(desired[..n], current, generation, now);
      forall i | 0 <= i < n ensures done[i].typ != desired[n].typ { assert desired[..n][i] == desired[i]; }
      CarryLast(desired, current, generation, now, done);
    }
  }

  lemma CarryLast(desired: seq<Condition>, current: seq<Condition>, generation: int, now: nat, done: seq<Condition>)
    requires desired != [] && done == Carry(desired[..|desired| - 1], current, generation, now)
    requires forall i :: 0 <= i < |done| ==> done[i].typ != desired[|desired| - 1].typ
    ensures Carry(desired, current, generation, now) ==
            done + [Stamped(desired[|desired| - 1], current, generation, now)]
  {
    var c := desired[|desired| - 1];
    FoundType(current, c.typ);
    CarryOne(done, c, Find(current, c.typ), generation, now);
  }

  lemma FoundType(conds: seq<Condition>, typ: string)
    ensures Find(conds, typ).Some? ==> Find(conds, typ).value.typ == typ
  {
    FindIsFirst(conds, typ);
  }

  lemma CarryOne(done: seq<Condition>, c: Condition, was: Option<Condition>, generation: int, now: nat)
    requires forall i :: 0 <= i < |done| ==> done[i].typ != c.typ
    requires was.Some? ==> was.value.typ == c.typ
    ensures Set(if was.Some? then done + [was.value] else done, c.(observedGeneration := generation), now) ==
            done + [Condition(c.typ, c.status, c.reason, c.message, generation,
                              if was.Some? && was.value.status == c.status then was.value.time else Or(c.time, now))]
  {
    SetAt(if was.Some? then done + [was.value] else done, c.(observedGeneration := generation), now, |done|);
  }

  /** Conditions of the current status that the builder does not own are kept, in order. */
  function Preserve(final: seq<Condition>, current: seq<Condition>, keep: Condition -> bool): seq<Condition> {
    if current == [] then final
    else
      var n := |current| - 1;
      var done := Preserve(final, current[..n], keep);
      if keep(current[n]) && Find(done, current[n].typ).None? then done + [current[n]] else done
  }

  method PreserveOthers(final: seq<Condition>, current: seq<Condition>, keep: Condition -> bool)
    returns (out: seq<Condition>)
    ensures out == Preserve(final, current, keep)
  {
    out := final;
    for n := 0 to |current|
      invariant out == Preserve(final, current[..n], keep)
    {
      assert current[..n + 1][..n] == current[..n];
      if keep(current[n]) && Find(out, current[n].typ).None? { out := out + [current[n]]; }
    }
    assert current[..|current|] == current;
  }

  /** The kept conditions follow the owned ones, and types stay unique. */
  lemma {:induction false} PreserveShape(final: seq<Condition>, current: seq<Condition>, keep: Condition -> bool)
    requires UniqueTypes(final)
    ensures UniqueTypes(Preserve(final, current, keep))
    ensures final <= Preserve(final, current, keep)
    ensures forall i :: |final| <= i < |Preserve(final, current, keep)| ==>
              Preserve(final, current, keep)[i] in current && keep(Preserve(final, current, keep)[i])
    decreases |current|
  {
    if current != [] {
      var n := |current| - 1;
      PreserveShape(final, current[..n], keep);
      var done := Preserve(final, current[..n], keep);
      if keep(current[n]) && Find(done, current[n].typ).None? {
        AppendUnique(done, current[n]);
      }
    }
  }

  /** No condition that should be kept is lost. */
  lemma {:induction false} PreserveComplete(final: seq<Condition>, current: seq<Condition>, keep: Condition -> bool,
                                            i: nat)
    requires i < |current| && keep(current[i])
    ensures HasType(Preserve(final, current, keep), current[i].typ)
    decreases |current|
  {
    var n := |current| - 1;
    var done, all := Preserve(final, current[..n], keep), Preserve(final, current, keep);
    FindIsFirst(done, current[i].typ);
    if i < n {
      PreserveComplete(final, current[..n], keep, i);
      var j :| 0 <= j < |done| && done[j].typ == current[i].typ;
      assert all[j].typ == current[i].typ;
    } else if Find(done, current[n].typ).None? {
      assert all[|done|].typ == current[n].typ;
    }
  }

  lemma AppendUnique(conds: seq<Condition>, c: Condition)
    requires UniqueTypes(conds) && Find(conds, c.typ).None?
    ensures UniqueTypes(conds + [c])
  {
    FindIsFirst(conds, c.typ);
  }

  /** Preserving a list on top of its own front gives the list back. */
  lemma {:induction false} PreserveSelf(conds: seq<Condition>, m: nat, n: nat, keep: Condition -> bool)
    requires UniqueTypes(conds) && m <= |conds| && n <= |conds|
    requires forall i :: m <= i < |conds| ==> keep(conds[i])
    ensures Preserve(conds[..m], conds[..n], keep) == conds[..if m <= n then n else m]
    decreases n
  {
    if n > 0 {
      PreserveSelf(conds, m, n - 1, keep);
      assert conds[..n][..n - 1] == conds[..n - 1];
      var done := conds[..if m <= n - 1 then n - 1 else m];
      FindIsFirst(done, conds[n - 1].typ);
      if n <= m {
        assert done[n - 1].typ == conds[n - 1].typ;
      } else {
        assert conds[..n] == done + [conds[n - 1]];
      }
    }
  }

  function Build(desired: seq<Condition>, current: seq<Condition>, generation: int, now: nat, keep: Condition -> bool)
    : seq<Condition>
  {
    Preserve(Carry(desired, current, generation, now), current, keep)
  }

  /** Two desired lists that agree on everything but times. */
  ghost predicate SameFacts(a: seq<Condition>, b: seq<Condition>) {
    |a| == |b| && forall i :: 0 <= i < |a| ==> Fact(a[i]) == Fact(b[i])
  }

  /** The built list: types unique whatever the current status holds, owned conditions
      first and stamped, the rest carried over. */
  lemma BuildShape(desired: seq<Condition>, current: seq<Condition>, generation: int, now: nat, keep: Condition -> bool)
    requires UniqueTypes(desired)
    ensures var built := Build(desired, current, generation, now, keep);
            && UniqueTypes(built) && |desired| <= |built|
            && (forall i :: 0 <= i < |desired| ==> built[i] == Stamped(desired[i], current, generation, now))
            && (forall i :: |desired| <= i < |built| ==> built[i] in current && keep(built[i]))
            && (forall i :: 0 <= i < |current| && keep(current[i]) ==> HasType(built, current[i].typ))
  {
    CarryStamps(desired, current, generation, now);
    var carried := Carry(desired, current, generation, now);
    assert UniqueTypes(carried);
    PreserveShape(carried, current, keep);
    forall i | 0 <= i < |current| && keep(current[i])
      ensures HasType(Build(desired, current, generation, now, keep), current[i].typ)
    {
      PreserveComplete(carried, current, keep, i);
    }
  }

  /** Rebuilding on top of what was built changes nothing, at any later clock. */
  lemma BuildFixpoint(desired: seq<Condition>, again: seq<Condition>, current: seq<Condition>,
                      generation: int, now: nat, later: nat, keep: Condition -> bool)
    requires UniqueTypes(desired) && SameFacts(desired, again)
    ensures var built := Build(desired, current, generation, now, keep);
            Build(again, built, generation, later, keep) == built
  {
    var built := Build(desired, current, generation, now, keep);
    BuildShape(desired, current, generation, now, keep);
    SameFactsUnique(desired, again);
    CarryStamps(again, built, generation, later);
    var carried := Carry(again, built, generation, later);
    forall i | 0 <= i < |again| ensures carried[i] == built[i] {
      FindUnique(built, i);
      assert Fact(again[i]) == Fact(desired[i]);
    }
    assert carried == built[..|desired|];
    PreserveSelf(built, |desired|, |built|, keep);
    assert built[..|built|] == built;
  }

  lemma SameFactsUnique(a: seq<Condition>, b: seq<Condition>)
    requires UniqueTypes(a) && SameFacts(a, b)
    ensures UniqueTypes(b)
  {
    assert forall i :: 0 <= i < |a| ==> Fact(a[i]).typ == Fact(b[i]).typ;
  }

  // ---- Defaults

  /** Set a healthy condition unless the report has one of the type. */
  function Default(conds: seq<Condition>, c: Condition, now: nat): seq<Condition> {
    if Find(conds, c.typ).None? then Set(conds, c, now) else conds
  }

  lemma DefaultUnique(conds: seq<Condition>, c: Condition, now: nat)
    requires UniqueTypes(conds)
    ensures UniqueTypes(Default(conds, c, now))
  {
    SetUnique(conds, c, now);
  }

  /** Finding and setting do not look at times, so neither does anything built on them. */
  lemma {:induction false} FindSameFacts(a: seq<Condition>, b: seq<Condition>, typ: string)
    requires SameFacts(a, b)
    ensures Find(a, typ).Some? <==> Find(b, typ).Some?
    ensures Find(a, typ).Some? ==> Fact(Find(a, typ).value) == Fact(Find(b, typ).value)
    decreases |a|
  {
    if a != [] {
      assert Fact(a[0]).typ == Fact(b[0]).typ;
      FindSameFacts(a[1..], b[1..], typ);
    }
  }

  lemma {:induction false} SetSameFacts(a: seq<Condition>, b: seq<Condition>, c: Condition, now: nat, later: nat)
    requires SameFacts(a, b)
    ensures SameFacts(Set(a, c, now), Set(b, c, later))
    decreases |a|
  {
    if a != [] {
      assert Fact(a[0]).typ == Fact(b[0]).typ;
      if a[0].typ != c.typ { SetSameFacts(a[1..], b[1..], c, now, later); }
    }
  }

  lemma DefaultSameFacts(a: seq<Condition>, b: seq<Condition>, c: Condition, now: nat, later: nat)
    requires SameFacts(a, b)
    ensures SameFacts(Default(a, c, now), Default(b, c, later))
  {
    FindSameFacts(a, b, c.typ);
    SetSameFacts(a, b, c, now, later);
  }

  // ---- What a list says about a type

  lemma {:induction false} FoundAfterSet(conds: seq<Condition>, c: Condition, now: nat, typ: string)
    ensures Find(Set(conds, c, now), typ) ==
            if c.typ != typ then Find(conds, typ) else Some(Overriding(Find(conds, typ), c, now))
    decreases |conds|
  {
    if conds != [] && conds[0].typ != c.typ { FoundAfterSet(conds[1..], c, now, typ); }
  }

  /** A condition set over what was there: the old time if the status is the same. */
  ghost function Overriding(was: Option<Condition>, c: Condition, now: nat): Condition {
    Condition(c.typ, c.status, c.reason, c.message, c.observedGeneration,
              if was.Some? && was.value.status == c.status then was.value.time
              else if c.time != 0 then c.time else now)
  }

  lemma FoundAfterDefault(conds: seq<Condition>, c: Condition, now: nat, typ: string)
    ensures Find(Default(conds, c, now), typ) ==
            if c.typ != typ || Find(conds, typ).Some? then Find(conds, typ) else Some(Overriding(None, c, now))
  {
    FoundAfterSet(conds, c, now, typ);
  }

  /** The first entry of the type that is kept. */
  ghost function FindKept(conds: seq<Condition>, typ: string, keep: Condition -> bool): Option<Condition> {
    if conds == [] then None
    else if conds[0].typ == typ && keep(conds[0]) then Some(conds[0])
    else FindKept(conds[1..], typ, keep)
  }

  lemma {:induction false} FindKeptSnoc(conds: seq<Condition>, c: Condition, typ: string, keep: Condition -> bool)
    ensures FindKept(conds + [c], typ, keep) ==
            if FindKept(conds, typ, keep).Some? then FindKept(conds, typ, keep)
            else if c.typ == typ && keep(c) then Some(c) else None
    decreases |conds|
  {
    if conds != [] {
      assert (conds + [c])[1..] == conds[1..] + [c];
      FindKeptSnoc(conds[1..], c, typ, keep);
    }
  }

  lemma {:induction false} FindSnoc(conds: seq<Condition>, c: Condition, typ: string)
    ensures Find(conds + [c], typ) ==
            if Find(conds, typ).Some? then Find(conds, typ) else if c.typ == typ then Some(c) else None
    decreases |conds|
  {
    if conds != [] {
      assert (conds + [c])[1..] == conds[1..] + [c];
      FindSnoc(conds[1..], c, typ);
    }
  }

  lemma {:induction false} FoundAfterPreserve(final: seq<Condition>, current: seq<Condition>, keep: Condition -> bool,
                                              typ: string)
    ensures Find(Preserve(final, current, keep), typ) ==
            if Find(final, typ).Some? then Find(final, typ) else FindKept(current, typ, keep)
    decreases |current|
  {
    if current != [] {
      var n := |current| - 1;
      assert current == current[..n] + [current[n]];
      FoundAfterPreserve(final, current[..n], keep, typ);
      FindKeptSnoc(current[..n], current[n], typ, keep);
      FindSnoc(Preserve(final, current[..n], keep), current[n], typ);
    }
  }

  lemma {:induction false} FindKeptAll(conds: seq<Condition>, typ: string, keep: Condition -> bool)
    requires forall c :: c in conds && c.typ == typ ==> keep(c)
    ensures FindKept(conds, typ, keep) == Find(conds, typ)
    decreases |conds|
  {
    if conds != [] { FindKeptAll(conds[1..], typ, keep); }
  }

  lemma {:induction false} FindKeptNone(conds: seq<Condition>, typ: string, keep: Condition -> bool)
    requires forall c :: c in conds && c.typ == typ ==> !keep(c)
    ensures FindKept(conds, typ, keep) == None
    decreases |conds|
  {
    if conds != [] { FindKeptNone(conds[1..], typ, keep); }
  }

  lemma FoundAfterCarry(desired: seq<Condition>, current: seq<Condition>, generation: int, now: nat, typ: string)
    requires UniqueTypes(desired)
    ensures Find(Carry(desired, current, generation, now), typ) ==
            if Find(desired, typ).None? then None else Some(Stamped(Find(desired, typ).value, current, generation, now))
  {
    var carried := Carry(desired, current, generation, now);
    CarryStamps(desired, current, generation, now);
    FindIsFirst(desired, typ);
    FindIsFirst(carried, typ);
    if HasType(desired, typ) {
      var i :| 0 <= i < |desired| && desired[i].typ == typ;
      FindUnique(desired, i);
      FindUnique(carried, i);
    }
  }

  /** What a status says about a type: the wanted condition with the report's generation, and
      the time of the condition `was` before if the status did not change; a type that is not
      wanted says what was kept. */
  ghost function Expected(want: Option<Condition>, was: Option<Condition>, kept: Option<Condition>, generation: int,
                          now: nat): Option<Condition>
  {
    if want.None? then kept
    else
      var w := want.value;
      Some(Condition(w.typ, w.status, w.reason, w.message, generation,
                     if was.Some? && was.value.status == w.status then was.value.time
                     else if w.time != 0 then w.time else now))
  }

  /** The built list, type by type. */
  lemma BuildSays(desired: seq<Condition>, current: seq<Condition>, generation: int, now: nat, keep: Condition -> bool,
                  typ: string)
    requires UniqueTypes(desired)
    ensures Find(Build(desired, current, generation, now, keep), typ) ==
            Expected(Find(desired, typ), Find(current, typ), FindKept(current, typ, keep), generation, now)
  {
    FoundAfterCarry(desired, current, generation, now, typ);
    FoundAfterPreserve(Carry(desired, current, generation, now), current, keep, typ);
    FoundType(desired, typ);
  }
}
