/** ListenerSet statuses built from their reports (pkg/reports/status.go). */
module ListenerSetStatus {
  import opened Common
  import opened Conditions
  import opened Reports
  import opened GatewayStatus

  datatype SetStatusValue = SetStatusValue(conditions: seq<Condition>, listeners: seq<ListenerStatus>)

  datatype ListenerSet = ListenerSet(listeners: seq<string>, status: SetStatusValue)

  predicate RejectedSet(report: ListenerSetReport) {
    var c := Find(report.conditions, ACCEPTED);
    c.Some? && c.value.status == FALSE
  }

  /** A rejected set reports no listeners. */
  function SetListeners(report: ListenerSetReport, ls: ListenerSet): seq<string> {
    if RejectedSet(report) then [] else ls.listeners
  }

  const NO_VALID_LISTENERS := "No valid listeners"

  function WithNoValid(conds: seq<Condition>, invalid: Invalid, count: nat, now: nat): seq<Condition> {
    if count != 0 && |invalid.names| == count then
      Set(Set(conds, Plain(ACCEPTED, FALSE, LISTENERS_NOT_VALID, NO_VALID_LISTENERS), now),
          Plain(PROGRAMMED, FALSE, LISTENERS_NOT_VALID, NO_VALID_LISTENERS), now)
    else conds
  }

  function SetDefaults(conds: seq<Condition>, now: nat): seq<Condition> {
    Default(Default(conds, Plain(ACCEPTED, TRUE, "Accepted", "Successfully accepted ListenerSet"), now),
            Plain(PROGRAMMED, TRUE, "Programmed", "Successfully programmed ListenerSet"), now)
  }

  function DesiredSet(report: ListenerSetReport, ls: ListenerSet, now: nat): seq<Condition> {
    var names := SetListeners(report, ls);
    var invalid := InvalidListeners(report.listeners, names, now);
    SetDefaults(WithNoValid(WithInvalid(report.conditions, invalid, now), invalid, |names|, now), now)
  }

  predicate KeepAny(c: Condition) { true }

  function BuiltSet(report: ListenerSetReport, ls: ListenerSet, now: nat): SetStatusValue {
    SetStatusValue(
      Build(DesiredSet(report, ls, now), ls.status.conditions, report.observedGeneration, now, KeepAny),
      BuiltListeners(report.listeners, map[], SetListeners(report, ls), ls.status.listeners, report.observedGeneration,
                     now))
  }

  method BuildListenerSetStatus(report: Option<ListenerSetReport>, ls: ListenerSet, now: nat)
    returns (status: Option<SetStatusValue>)
    ensures report.None? ==> status.None?
    ensures report.Some? ==> status == Some(BuiltSet(report.value, ls, now))
  {
    if report.None? { return None; }
    var r := report.value;
    var listeners, invalid := [], Invalid([], []);
    if !RejectedSet(r) {
      listeners, invalid := BuildListeners(r.listeners, map[], ls.listeners, ls.status.listeners, r.observedGeneration,
                                           now);
    }
    var conds := WithInvalid(r.conditions, invalid, now);
    if |listeners| != 0 && |invalid.names| == |listeners| {
      conds := Set(conds, Plain(ACCEPTED, FALSE, LISTENERS_NOT_VALID, NO_VALID_LISTENERS), now);
      conds := Set(conds, Plain(PROGRAMMED, FALSE, LISTENERS_NOT_VALID, NO_VALID_LISTENERS), now);
    }
    conds := SetDefaults(conds, now);
    var final := CarryOver(conds, ls.status.conditions, r.observedGeneration, now);
    final := PreserveOthers(final, ls.status.conditions, KeepAny);
    return Some(SetStatusValue(final, listeners));
  }

  lemma DesiredSetFacts(report: ListenerSetReport, ls: ListenerSet, again: ListenerSet, now: nat, later: nat)
    requires Reported(report.conditions, report.listeners) && again.listeners == ls.listeners
    ensures UniqueTypes(DesiredSet(report, ls, now))
    ensures SameFacts(DesiredSet(report, ls, now), DesiredSet(report, again, later))
  {
    var names := SetListeners(report, ls);
    InvalidListenersAnyClock(report.listeners, names, now, later);
    var inv := InvalidListeners(report.listeners, names, now);
    var c := Plain(ACCEPTED, TRUE, LISTENERS_NOT_VALID, NotProgrammedMessage(inv));
    SetSameFacts(report.conditions, report.conditions, c, now, later);
    SetUnique(report.conditions, c, now);
    var a, a' := WithInvalid(report.conditions, inv, now), WithInvalid(report.conditions, inv, later);
    NoValidFacts(a, a', inv, |names|, now, later);
    SetDefaultsFacts(WithNoValid(a, inv, |names|, now), WithNoValid(a', inv, |names|, later), now, later);
  }

  lemma NoValidFacts(a: seq<Condition>, b: seq<Condition>, inv: Invalid, count: nat, now: nat, later: nat)
    requires UniqueTypes(a) && SameFacts(a, b)
    ensures UniqueTypes(WithNoValid(a, inv, count, now))
    ensures SameFacts(WithNoValid(a, inv, count, now), WithNoValid(b, inv, count, later))
  {
    var x := Plain(ACCEPTED, FALSE, LISTENERS_NOT_VALID, NO_VALID_LISTENERS);
    var y := Plain(PROGRAMMED, FALSE, LISTENERS_NOT_VALID, NO_VALID_LISTENERS);
    SetSameFacts(a, b, x, now, later);
    SetUnique(a, x, now);
    SetSameFacts(Set(a, x, now), Set(b, x, later), y, now, later);
    SetUnique(Set(a, x, now), y, now);
  }

  lemma SetDefaultsFacts(a: seq<Condition>, b: seq<Condition>, now: nat, later: nat)
    requires UniqueTypes(a) && SameFacts(a, b)
    ensures UniqueTypes(SetDefaults(a, now)) && SameFacts(SetDefaults(a, now), SetDefaults(b, later))
  {
    var x := Plain(ACCEPTED, TRUE, "Accepted", "Successfully accepted ListenerSet");
    var y := Plain(PROGRAMMED, TRUE, "Programmed", "Successfully programmed ListenerSet");
    DefaultSameFacts(a, b, x, now, later);
    DefaultUnique(a, x, now);
    DefaultSameFacts(Default(a, x, now), Default(b, x, later), y, now, later);
    DefaultUnique(Default(a, x, now), y, now);
  }

  /** Rebuilding the ListenerSet status on top of itself changes nothing. */
  lemma ListenerSetFixpoint(report: ListenerSetReport, ls: ListenerSet, now: nat, later: nat)
    requires Reported(report.conditions, report.listeners) && NamedListeners(report.listeners)
    ensures var built := BuiltSet(report, ls, now);
            BuiltSet(report, ls.(status := built), later) == built
  {
    var built := BuiltSet(report, ls, now);
    var again := ls.(status := built);
    ListenersFixpoint(report.listeners, map[], SetListeners(report, ls), ls.status.listeners,
                      report.observedGeneration, now, later);
    DesiredSetFacts(report, ls, again, now, later);
    BuildFixpoint(DesiredSet(report, ls, now), DesiredSet(report, again, later),
                  ls.status.conditions, report.observedGeneration, now, later, KeepAny);
  }

  ghost predicate AllUnprogrammed(report: ListenerSetReport, names: seq<string>) {
    names != [] && forall i :: 0 <= i < |names| ==> ReportedUnprogrammed(report.listeners, names[i])
  }

  ghost predicate SomeUnprogrammed(report: ListenerSetReport, names: seq<string>) {
    exists i :: 0 <= i < |names| && ReportedUnprogrammed(report.listeners, names[i])
  }

  /** The invalid count reaches the listener count exactly when every listener is
      unprogrammed, and is zero exactly when none is. */
  lemma {:induction false} UnprogrammedCount(report: ListenerSetReport, names: seq<string>)
    ensures |UnprogrammedNames(report.listeners, names)| <= |names|
    ensures |UnprogrammedNames(report.listeners, names)| == |names| <==>
            forall i :: 0 <= i < |names| ==> ReportedUnprogrammed(report.listeners, names[i])
    ensures UnprogrammedNames(report.listeners, names) != [] <==> SomeUnprogrammed(report, names)
    decreases |names|
  {
    if names != [] {
      var front, n := names[..|names| - 1], |names| - 1;
      UnprogrammedCount(report, front);
      if SomeUnprogrammed(report, names) && !ReportedUnprogrammed(report.listeners, names[n]) {
        var i :| 0 <= i < |names| && ReportedUnprogrammed(report.listeners, names[i]);
        assert front[i] == names[i];
      }
      if SomeUnprogrammed(report, front) {
        var i :| 0 <= i < |front| && ReportedUnprogrammed(report.listeners, front[i]);
        assert names[i] == front[i];
      }
      assert (forall i :: 0 <= i < |front| ==> ReportedUnprogrammed(report.listeners, front[i])) <==>
             (forall i :: 0 <= i < n ==> ReportedUnprogrammed(report.listeners, names[i])) by {
        assert forall i :: 0 <= i < n ==> front[i] == names[i];
      }
    }
  }

  /** What a ListenerSet is told: rejected and unprogrammed when none of its listeners is
      programmed, accepted when only some are not, otherwise what was reported, and
      silence means healthy. */
  lemma ListenerSetVerdicts(report: ListenerSetReport, ls: ListenerSet, now: nat)
    requires Reported(report.conditions, report.listeners)
    ensures var built := BuiltSet(report, ls, now);
            var names := SetListeners(report, ls);
            && StatusOf(built.conditions, ACCEPTED) ==
               (if AllUnprogrammed(report, names) then Some(FALSE)
                else if SomeUnprogrammed(report, names) then Some(TRUE)
                else Otherwise(StatusOf(report.conditions, ACCEPTED), TRUE))
            && StatusOf(built.conditions, PROGRAMMED) ==
               (if AllUnprogrammed(report, names) then Some(FALSE)
                else Otherwise(StatusOf(report.conditions, PROGRAMMED), TRUE))
  {
    var names, desired := SetListeners(report, ls), DesiredSet(report, ls, now);
    DesiredSetStatus(report, ls, now);
    DesiredSetFacts(report, ls, ls, now, now);
    BuiltFind(desired, ls.status.conditions, report.observedGeneration, now, KeepAny, ACCEPTED);
    BuiltFind(desired, ls.status.conditions, report.observedGeneration, now, KeepAny, PROGRAMMED);
    InvalidMeansUnprogrammed(report.listeners, names, now);
    UnprogrammedCount(report, names);
  }

  lemma DesiredSetStatus(report: ListenerSetReport, ls: ListenerSet, now: nat)
    ensures var desired := DesiredSet(report, ls, now);
            var names := SetListeners(report, ls);
            var invalid := InvalidListeners(report.listeners, names, now);
            && StatusOf(desired, ACCEPTED) ==
               (if names != [] && |invalid.names| == |names| then Some(FALSE)
                else if invalid.names != [] then Some(TRUE)
                else Otherwise(StatusOf(report.conditions, ACCEPTED), TRUE))
            && StatusOf(desired, PROGRAMMED) ==
               (if names != [] && |invalid.names| == |names| then Some(FALSE)
                else Otherwise(StatusOf(report.conditions, PROGRAMMED), TRUE))
  {
    var names := SetListeners(report, ls);
    var invalid := InvalidListeners(report.listeners, names, now);
    var a := WithInvalid(report.conditions, invalid, now);
    var b := WithNoValid(a, invalid, |names|, now);
    forall t: string | t == ACCEPTED || t == PROGRAMMED
      ensures StatusOf(a, t) == if t == ACCEPTED && invalid.names != [] then Some(TRUE)
              else StatusOf(report.conditions, t)
      ensures StatusOf(b, t) == if names != [] && |invalid.names| == |names| then Some(FALSE) else StatusOf(a, t)
      ensures StatusOf(SetDefaults(b, now), t) == Otherwise(StatusOf(b, t), TRUE)
    {
      InvalidStatus(report.conditions, invalid, now, t);
      NoValidStatus(a, invalid, |names|, now, t);
      SetDefaultsStatus(b, now, t);
    }
  }

  lemma NoValidStatus(conds: seq<Condition>, invalid: Invalid, count: nat, now: nat, typ: string)
    requires typ == ACCEPTED || typ == PROGRAMMED
    ensures StatusOf(WithNoValid(conds, invalid, count, now), typ) ==
            if count != 0 && |invalid.names| == count then Some(FALSE) else StatusOf(conds, typ)
  {
    var x := Plain(ACCEPTED, FALSE, LISTENERS_NOT_VALID, NO_VALID_LISTENERS);
    SetStatus(conds, x, now, typ);
    SetStatus(Set(conds, x, now), Plain(PROGRAMMED, FALSE, LISTENERS_NOT_VALID, NO_VALID_LISTENERS), now, typ);
  }

  lemma SetDefaultsStatus(conds: seq<Condition>, now: nat, typ: string)
    requires typ == ACCEPTED || typ == PROGRAMMED
    ensures StatusOf(SetDefaults(conds, now), typ) == Otherwise(StatusOf(conds, typ), TRUE)
  {
    var x := Plain(ACCEPTED, TRUE, "Accepted", "Successfully accepted ListenerSet");
    DefaultStatus(conds, x, now, typ);
    DefaultStatus(Default(conds, x, now), Plain(PROGRAMMED, TRUE, "Programmed", "Successfully programmed ListenerSet"),
                  now, typ);
  }
}
