/** Gateway and listener statuses built from their reports (pkg/reports/status.go). */
module GatewayStatus {
  import opened Common
  import opened Conditions
  import opened Reports

  const ACCEPTED := "Accepted"
  const PROGRAMMED := "Programmed"
  const RESOLVED_REFS := "ResolvedRefs"
  const CONFLICTED := "Conflicted"
  const INSECURE_FRONTEND := "InsecureFrontendValidationMode"
  const INVALID_PARAMETERS := "InvalidParameters"
  const LISTENERS_NOT_VALID := "ListenersNotValid"

  datatype AddressType = IPAddress | Hostname | OtherAddress

  datatype FrontendMode = AllowValidOnly | AllowInsecureFallback

  /** spec.tls.frontend: the default validation and the one of each port. */
  datatype Frontend = Frontend(default: Option<FrontendMode>, perPort: seq<Option<FrontendMode>>)

  datatype Status = Status(addresses: seq<string>, conditions: seq<Condition>, listeners: seq<ListenerStatus>,
                           attachedListenerSets: Option<int>)

  datatype Gateway = Gateway(listeners: seq<string>, addresses: seq<Option<AddressType>>, frontend: Option<Frontend>,
                             status: Status)

  /** int32(count) of a uint. */
  function ToInt32(count: nat): int {
    var low := count % 0x1_0000_0000;
    if low < 0x8000_0000 then low else low - 0x1_0000_0000
  }

  function Join(parts: seq<string>, sep: string): string {
    if parts == [] then "" else if |parts| == 1 then parts[0] else parts[0] + sep + Join(parts[1..], sep)
  }

  // ---- Listeners

  function ListenerDefaults(conds: seq<Condition>, now: nat): seq<Condition> {
    var a := Default(conds, Plain(ACCEPTED, TRUE, "Accepted", "Successfully accepted Listener"), now);
    var b := Default(a, Plain(CONFLICTED, FALSE, "NoConflicts",
                              "Successfully verified that Listener has no conflicts"), now);
    var c := Default(b, Plain(RESOLVED_REFS, TRUE, "ResolvedRefs", "Successfully resolved all references"), now);
    Default(c, Plain(PROGRAMMED, TRUE, "Programmed", "Successfully programmed Listener"), now)
  }

  function ReportedListener(listeners: ListenerReports, name: string): ListenerStatus {
    if name in listeners && listeners[name].Some? then listeners[name].value else ListenerStatus(name, [], 0, [])
  }

  function DesiredListener(listeners: ListenerReports, name: string, now: nat): seq<Condition> {
    ListenerDefaults(ReportedListener(listeners, name).conditions, now)
  }

  /** The current entry of the listener, if it has one. */
  function CurrentListener(current: seq<ListenerStatus>, name: string): seq<Condition> {
    if current == [] then [] else if current[0].name == name then current[0].conditions
    else CurrentListener(current[1..], name)
  }

  function RoutesOn(attached: map<string, nat>, name: string, reported: int): int {
    if name in attached then ToInt32(attached[name]) else reported
  }

  function BuiltListener(listeners: ListenerReports, attached: map<string, nat>, name: string,
                         current: seq<ListenerStatus>, generation: int, now: nat): ListenerStatus
  {
    var base := ReportedListener(listeners, name);
    base.(attachedRoutes := RoutesOn(attached, name, base.attachedRoutes),
          conditions := Carry(DesiredListener(listeners, name, now), CurrentListener(current, name), generation, now))
  }

  /** The built statuses of the spec's listeners, in spec order. */
  function BuiltListeners(listeners: ListenerReports, attached: map<string, nat>, names: seq<string>,
                          current: seq<ListenerStatus>, generation: int, now: nat): (out: seq<ListenerStatus>)
    ensures |out| == |names|
  {
    if names == [] then []
    else BuiltListeners(listeners, attached, names[..|names| - 1], current, generation, now)
         + [BuiltListener(listeners, attached, names[|names| - 1], current, generation, now)]
  }

  predicate NotProgrammed(c: Condition) { c.typ == PROGRAMMED && c.status == FALSE }

  /** The names and messages of listeners that are not programmed. */
  datatype Invalid = Invalid(names: seq<string>, messages: seq<string>)

  function AddInvalid(inv: Invalid, name: string, conds: seq<Condition>): Invalid {
    if conds == [] then inv
    else
      var rest := AddInvalid(inv, name, conds[..|conds| - 1]);
      var c := conds[|conds| - 1];
      if !NotProgrammed(c) then rest
      else Invalid(rest.names + [name],
                   if c.message != "" then rest.messages + [name + ": " + c.message] else rest.messages)
  }

  function InvalidListeners(listeners: ListenerReports, names: seq<string>, now: nat): Invalid {
    if names == [] then Invalid([], [])
    else
      var name := names[|names| - 1];
      AddInvalid(InvalidListeners(listeners, names[..|names| - 1], now), name, DesiredListener(listeners, name, now))
  }

  function NotProgrammedMessage(inv: Invalid): string {
    "Some listeners are not programmed: " + if inv.messages == [] then Join(inv.names, ", ")
      else Join(inv.messages, "; ")
  }

  /** The listener loop of both builders. */
  method BuildListeners(listeners: ListenerReports, attached: map<string, nat>, names: seq<string>,
                        current: seq<ListenerStatus>, generation: int, now: nat)
    returns (out: seq<ListenerStatus>, inv: Invalid)
    ensures out == BuiltListeners(listeners, attached, names, current, generation, now)
    ensures inv == InvalidListeners(listeners, names, now)
  {
    out, inv := [], Invalid([], []);
    for i := 0 to |names|
      invariant out == BuiltListeners(listeners, attached, names[..i], current, generation, now)
      invariant inv == InvalidListeners(listeners, names[..i], now)
    {
      var l;
      l, inv := BuildListener(listeners, attached, names[i], current, generation, now, inv);
      OneMoreListener(listeners, attached, names, current, generation, now, i);
      out := out + [l];
    }
    assert names[..|names|] == names;
  }

  lemma OneMoreListener(listeners: ListenerReports, attached: map<string, nat>, names: seq<string>,
                        current: seq<ListenerStatus>, generation: int, now: nat, i: nat)
    requires i < |names|
    ensures BuiltListeners(listeners, attached, names[..i + 1], current, generation, now) ==
            BuiltListeners(listeners, attached, names[..i], current, generation, now)
            + [BuiltListener(listeners, attached, names[i], current, generation, now)]
    ensures InvalidListeners(listeners, names[..i + 1], now) ==
            AddInvalid(InvalidListeners(listeners, names[..i], now), names[i],
                       DesiredListener(listeners, names[i], now))
  {
    assert names[..i + 1][..i] == names[..i];
  }

  method BuildListener(listeners: ListenerReports, attached: map<string, nat>, name: string,
                       current: seq<ListenerStatus>, generation: int, now: nat, start: Invalid)
    returns (l: ListenerStatus, inv: Invalid)
    ensures l == BuiltListener(listeners, attached, name, current, generation, now)
    ensures inv == AddInvalid(start, name, DesiredListener(listeners, name, now))
  {
    var base := ReportedListener(listeners, name);
    var desired := ListenerDefaults(base.conditions, now);
    var final := CarryOver(desired, CurrentListener(current, name), generation, now);
    inv := CollectInvalid(start, name, desired);
    l := base.(attachedRoutes := RoutesOn(attached, name, base.attachedRoutes), conditions := final);
  }

  method CollectInvalid(start: Invalid, name: string, conds: seq<Condition>) returns (inv: Invalid)
    ensures inv == AddInvalid(start, name, conds)
  {
    inv := start;
    for i := 0 to |conds|
      invariant inv == AddInvalid(start, name, conds[..i])
    {
      assert conds[..i + 1][..i] == conds[..i];
      if NotProgrammed(conds[i]) {
        inv := Invalid(inv.names + [name],
                       if conds[i].message != "" then inv.messages + [name + ": " + conds[i].message]
                         else inv.messages);
      }
    }
    assert conds[..|conds|] == conds;
  }

  // ---- Gateway conditions

  function WithInvalid(conds: seq<Condition>, inv: Invalid, now: nat): seq<Condition> {
    if inv.names == [] then conds
    else Set(conds, Plain(ACCEPTED, TRUE, LISTENERS_NOT_VALID, NotProgrammedMessage(inv)), now)
  }

  function AddressCondition(a: AddressType): Option<Condition> {
    match a
    case IPAddress => None
    case Hostname => Some(Plain(PROGRAMMED, FALSE, "AddressNotUsable", "Hostname addresses may not be used"))
    case OtherAddress => Some(Plain(ACCEPTED, FALSE, "UnsupportedAddress", "Unknown address kind"))
  }

  /** handleInvalidAddresses. */
  function WithAddresses(conds: seq<Condition>, addresses: seq<Option<AddressType>>, now: nat): seq<Condition> {
    if addresses == [] then conds
    else
      var done := WithAddresses(conds, addresses[..|addresses| - 1], now);
      var a := addresses[|addresses| - 1];
      if a.Some? && AddressCondition(a.value).Some? then Set(done, AddressCondition(a.value).value, now) else done
  }

  predicate UsesInsecureFrontend(f: Option<Frontend>) {
    f.Some? && (f.value.default == Some(AllowInsecureFallback) || Some(AllowInsecureFallback) in f.value.perPort)
  }

  function WithFrontend(conds: seq<Condition>, f: Option<Frontend>, now: nat): seq<Condition> {
    if !UsesInsecureFrontend(f) then conds
    else Set(conds, Plain(INSECURE_FRONTEND, TRUE, "ConfigurationChanged",
                          "Gateway frontend validation is configured to allow insecure fallback"), now)
  }

  predicate InvalidParameters(c: Condition) { c.typ == ACCEPTED && c.status == FALSE && c.reason == INVALID_PARAMETERS }

  /** The controller, not the reporter, owns an Accepted=False/InvalidParameters. */
  predicate HasInvalidParameters(current: seq<Condition>) {
    var a := Find(current, ACCEPTED);
    a.Some? && InvalidParameters(a.value)
  }

  predicate SomeListenerUnresolved(listeners: seq<ListenerStatus>) {
    exists l :: l in listeners && Find(l.conditions, RESOLVED_REFS).Some?
                && Find(l.conditions, RESOLVED_REFS).value.status == FALSE
  }

  function GatewayDefaults(conds: seq<Condition>, current: seq<Condition>, listeners: seq<ListenerStatus>, now: nat)
    : seq<Condition>
  {
    var a := if HasInvalidParameters(current) then conds
             else Default(conds, Plain(ACCEPTED, TRUE, "Accepted", "Successfully accepted Gateway"), now);
    var b := Default(a, Plain(PROGRAMMED, TRUE, "Programmed", "Successfully programmed Gateway"), now);
    Default(b, if SomeListenerUnresolved(listeners)
               then Plain(RESOLVED_REFS, FALSE, "ListenersNotResolved",
                          "One or more listeners have unresolved references")
               else Plain(RESOLVED_REFS, TRUE, "ResolvedRefs", "Successfully resolved all Gateway references"), now)
  }

  /** The conditions the reporter wants on the Gateway. */
  function DesiredGateway(report: GatewayReport, gw: Gateway, listeners: seq<ListenerStatus>,
                          now: nat): seq<Condition> {
    var invalid := InvalidListeners(report.listeners, gw.listeners, now);
    var conds := WithFrontend(WithAddresses(WithInvalid(report.conditions, invalid, now), gw.addresses, now),
                              gw.frontend, now);
    GatewayDefaults(conds, gw.status.conditions, listeners, now)
  }

  /** shouldPreserveGatewayCondition, for a type the final list does not have. */
  predicate KeepOnGateway(c: Condition) {
    InvalidParameters(c) || c.typ !in {ACCEPTED, PROGRAMMED, RESOLVED_REFS, INSECURE_FRONTEND}
  }

  function BuiltGateway(report: GatewayReport, gw: Gateway, attached: map<string, nat>, now: nat): Status {
    var listeners := BuiltListeners(report.listeners, attached, gw.listeners, gw.status.listeners,
                                    report.observedGeneration, now);
    Status(gw.status.addresses,
           Build(DesiredGateway(report, gw, listeners, now), gw.status.conditions, report.observedGeneration, now,
                 KeepOnGateway),
           listeners,
           if report.attachedListenerSets > 0 then Some(report.attachedListenerSets) else None)
  }

  /** The types a reporter's run of SetCondition calls leaves. */
  ghost predicate Reported(conds: seq<Condition>, listeners: ListenerReports) {
    UniqueTypes(conds) && UniqueListeners(listeners)
  }

  /** Builds the status from the report; a missing report builds none. Owned conditions
      are stamped from the report, the others are carried over. */
  method BuildGWStatus(report: Option<GatewayReport>, gw: Gateway, attached: map<string, nat>, now: nat)
    returns (status: Option<Status>)
    ensures report.None? ==> status.None?
    ensures report.Some? ==> status == Some(BuiltGateway(report.value, gw, attached, now))
  {
    if report.None? { return None; }
    var r := report.value;
    var listeners, invalid := BuildListeners(r.listeners, attached, gw.listeners, gw.status.listeners,
                                             r.observedGeneration, now);
    var conds := r.conditions;
    if |invalid.names| > 0 { conds := WithInvalid(conds, invalid, now); }
    conds := HandleInvalidAddresses(conds, gw.addresses, now);
    conds := WithFrontend(conds, gw.frontend, now);
    conds := GatewayDefaults(conds, gw.status.conditions, listeners, now);
    var final := CarryOver(conds, gw.status.conditions, r.observedGeneration, now);
    final := PreserveOthers(final, gw.status.conditions, KeepOnGateway);
    return Some(Status(gw.status.addresses, final, listeners,
                       if r.attachedListenerSets > 0 then Some(r.attachedListenerSets) else None));
  }

  method HandleInvalidAddresses(conds: seq<Condition>, addresses: seq<Option<AddressType>>, now: nat)
    returns (out: seq<Condition>)
    ensures out == WithAddresses(conds, addresses, now)
  {
    out := conds;
    for i := 0 to |addresses|
      invariant out == WithAddresses(conds, addresses[..i], now)
    {
      assert addresses[..i + 1][..i] == addresses[..i];
      if addresses[i].Some? {
        match addresses[i].value
        case IPAddress =>
        case Hostname =>
          out := Set(out, Plain(PROGRAMMED, FALSE, "AddressNotUsable", "Hostname addresses may not be used"), now);
        case OtherAddress =>
          out := Set(out, Plain(ACCEPTED, FALSE, "UnsupportedAddress", "Unknown address kind"), now);
      }
    }
    assert addresses[..|addresses|] == addresses;
  }

  // ---- What the desired lists do not depend on

  lemma ListenerDefaultsFacts(a: seq<Condition>, b: seq<Condition>, now: nat, later: nat)
    requires UniqueTypes(a) && SameFacts(a, b)
    ensures SameFacts(ListenerDefaults(a, now), ListenerDefaults(b, later))
    ensures UniqueTypes(ListenerDefaults(a, now))
  {
    var c1 := Plain(ACCEPTED, TRUE, "Accepted", "Successfully accepted Listener");
    var c2 := Plain(CONFLICTED, FALSE, "NoConflicts", "Successfully verified that Listener has no conflicts");
    var c3 := Plain(RESOLVED_REFS, TRUE, "ResolvedRefs", "Successfully resolved all references");
    var c4 := Plain(PROGRAMMED, TRUE, "Programmed", "Successfully programmed Listener");
    var a1, b1 := Default(a, c1, now), Default(b, c1, later);
    DefaultSameFacts(a, b, c1, now, later);
    DefaultUnique(a, c1, now);
    var a2, b2 := Default(a1, c2, now), Default(b1, c2, later);
    DefaultSameFacts(a1, b1, c2, now, later);
    DefaultUnique(a1, c2, now);
    var a3, b3 := Default(a2, c3, now), Default(b2, c3, later);
    DefaultSameFacts(a2, b2, c3, now, later);
    DefaultUnique(a2, c3, now);
    DefaultSameFacts(a3, b3, c4, now, later);
    DefaultUnique(a3, c4, now);
  }

  lemma DesiredListenerFacts(listeners: ListenerReports, name: string, now: nat, later: nat)
    requires UniqueListeners(listeners)
    ensures SameFacts(DesiredListener(listeners, name, now), DesiredListener(listeners, name, later))
    ensures UniqueTypes(DesiredListener(listeners, name, now))
  {
    var conds := ReportedListener(listeners, name).conditions;
    ListenerDefaultsFacts(conds, conds, now, later);
  }

  lemma {:induction false} AddInvalidFacts(inv: Invalid, name: string, a: seq<Condition>, b: seq<Condition>)
    requires SameFacts(a, b)
    ensures AddInvalid(inv, name, a) == AddInvalid(inv, name, b)
    decreases |a|
  {
    if a != [] {
      assert Fact(a[|a| - 1]) == Fact(b[|b| - 1]);
      AddInvalidFacts(inv, name, a[..|a| - 1], b[..|b| - 1]);
    }
  }

  lemma {:induction false} InvalidListenersAnyClock(listeners: ListenerReports, names: seq<string>, now: nat,
                                                    later: nat)
    requires UniqueListeners(listeners)
    ensures InvalidListeners(listeners, names, now) == InvalidListeners(listeners, names, later)
    decreases |names|
  {
    if names != [] {
      var front, name := names[..|names| - 1], names[|names| - 1];
      InvalidListenersAnyClock(listeners, front, now, later);
      DesiredListenerFacts(listeners, name, now, later);
      AddInvalidFacts(InvalidListeners(listeners, front, now), name,
                      DesiredListener(listeners, name, now), DesiredListener(listeners, name, later));
    }
  }

  lemma {:induction false} AddressesFacts(a: seq<Condition>, b: seq<Condition>, addresses: seq<Option<AddressType>>,
                                          now: nat, later: nat)
    requires UniqueTypes(a) && SameFacts(a, b)
    ensures SameFacts(WithAddresses(a, addresses, now), WithAddresses(b, addresses, later))
    ensures UniqueTypes(WithAddresses(a, addresses, now))
    decreases |addresses|
  {
    if addresses != [] {
      var front, last := addresses[..|addresses| - 1], addresses[|addresses| - 1];
      AddressesFacts(a, b, front, now, later);
      if last.Some? && AddressCondition(last.value).Some? {
        var c := AddressCondition(last.value).value;
        SetSameFacts(WithAddresses(a, front, now), WithAddresses(b, front, later), c, now, later);
        SetUnique(WithAddresses(a, front, now), c, now);
      }
    }
  }

  // ---- The built listeners are a fixpoint

  lemma {:induction false} BuiltListenerEntry(listeners: ListenerReports, attached: map<string, nat>,
                                              names: seq<string>,
                                              current: seq<ListenerStatus>, generation: int, now: nat, i: nat)
    requires i < |names|
    ensures BuiltListeners(listeners, attached, names, current, generation, now)[i] ==
            BuiltListener(listeners, attached, names[i], current, generation, now)
    decreases |names|
  {
    if i < |names| - 1 {
      BuiltListenerEntry(listeners, attached, names[..|names| - 1], current, generation, now, i);
    }
  }

  /** Report names match their keys, as NewListenerReport makes them. */
  ghost predicate NamedListeners(listeners: ListenerReports) {
    forall n :: n in listeners && listeners[n].Some? ==> listeners[n].value.name == n
  }

  lemma {:induction false} CurrentOfBuilt(current: seq<ListenerStatus>, conds: seq<Condition>, name: string)
    requires exists i :: 0 <= i < |current| && current[i].name == name
    requires forall i :: 0 <= i < |current| && current[i].name == name ==> current[i].conditions == conds
    ensures CurrentListener(current, name) == conds
    decreases |current|
  {
    if current[0].name != name {
      var i :| 0 <= i < |current| && current[i].name == name;
      assert current[1..][i - 1].name == name;
      CurrentOfBuilt(current[1..], conds, name);
    }
  }

  lemma ListenersFixpoint(listeners: ListenerReports, attached: map<string, nat>, names: seq<string>,
                          current: seq<ListenerStatus>, generation: int, now: nat, later: nat)
    requires UniqueListeners(listeners) && NamedListeners(listeners)
    ensures var built := BuiltListeners(listeners, attached, names, current, generation, now);
            BuiltListeners(listeners, attached, names, built, generation, later) == built
  {
    var built := BuiltListeners(listeners, attached, names, current, generation, now);
    var again := BuiltListeners(listeners, attached, names, built, generation, later);
    forall i | 0 <= i < |names| ensures again[i] == built[i] {
      BuiltListenerEntry(listeners, attached, names, current, generation, now, i);
      BuiltListenerEntry(listeners, attached, names, built, generation, later, i);
      BuiltListenerFound(listeners, attached, names, current, generation, now, i);
      ListenerConditionsFixpoint(listeners, names[i], CurrentListener(current, names[i]), generation, now, later);
    }
  }

  /** The rebuilt listener finds its own entry, also when a name is repeated. */
  lemma BuiltListenerFound(listeners: ListenerReports, attached: map<string, nat>, names: seq<string>,
                           current: seq<ListenerStatus>, generation: int, now: nat, i: nat)
    requires NamedListeners(listeners) && i < |names|
    ensures var built := BuiltListeners(listeners, attached, names, current, generation, now);
            CurrentListener(built, names[i]) == BuiltListener(listeners, attached, names[i], current, generation,
                                                              now).conditions
  {
    var built := BuiltListeners(listeners, attached, names, current, generation, now);
    forall j | 0 <= j < |names| ensures built[j].name == names[j]
      ensures names[j] == names[i] ==>
              built[j].conditions == BuiltListener(listeners, attached, names[i], current, generation, now).conditions
    {
      BuiltListenerEntry(listeners, attached, names, current, generation, now, j);
    }
    CurrentOfBuilt(built, BuiltListener(listeners, attached, names[i], current, generation, now).conditions, names[i]);
  }

  lemma ListenerConditionsFixpoint(listeners: ListenerReports, name: string, current: seq<Condition>,
                                   generation: int, now: nat, later: nat)
    requires UniqueListeners(listeners)
    ensures var built := Carry(DesiredListener(listeners, name, now), current, generation, now);
            Carry(DesiredListener(listeners, name, later), built, generation, later) == built
  {
    DesiredListenerFacts(listeners, name, now, later);
    CarryFixpoint(DesiredListener(listeners, name, now), DesiredListener(listeners, name, later), current, generation,
                  now, later);
  }

  lemma CarryFixpoint(desired: seq<Condition>, again: seq<Condition>, current: seq<Condition>,
                      generation: int, now: nat, later: nat)
    requires UniqueTypes(desired) && SameFacts(desired, again)
    ensures var built := Carry(desired, current, generation, now);
            Carry(again, built, generation, later) == built
  {
    var built := Carry(desired, current, generation, now);
    CarryStamps(desired, current, generation, now);
    SameFactsUnique(desired, again);
    CarryStamps(again, built, generation, later);
    assert UniqueTypes(built);
    forall i | 0 <= i < |again| ensures Carry(again, built, generation, later)[i] == built[i] {
      FindUnique(built, i);
      assert Fact(again[i]) == Fact(desired[i]);
    }
  }

  // ---- The Gateway status is a fixpoint

  lemma DesiredGatewayFacts(report: GatewayReport, gw: Gateway, again: Gateway, listeners: seq<ListenerStatus>,
                            now: nat, later: nat)
    requires Reported(report.conditions, report.listeners)
    requires again == gw.(status := again.status)
    requires HasInvalidParameters(gw.status.conditions) == HasInvalidParameters(again.status.conditions) ||
             HasType(OwnGateway(report, gw, now), ACCEPTED)
    ensures UniqueTypes(DesiredGateway(report, gw, listeners, now))
    ensures SameFacts(DesiredGateway(report, gw, listeners, now), DesiredGateway(report, again, listeners, later))
  {
    var own, own' := OwnGateway(report, gw, now), OwnGateway(report, again, later);
    OwnGatewayFacts(report, gw, again, now, later);
    var accepted := Plain(ACCEPTED, TRUE, "Accepted", "Successfully accepted Gateway");
    var programmed := Plain(PROGRAMMED, TRUE, "Programmed", "Successfully programmed Gateway");
    FindIsFirst(own, ACCEPTED);
    FindSameFacts(own, own', ACCEPTED);
    DefaultSameFacts(own, own', accepted, now, later);
    DefaultUnique(own, accepted, now);
    var a := if HasInvalidParameters(gw.status.conditions) then own else Default(own, accepted, now);
    var a' := if HasInvalidParameters(again.status.conditions) then own' else Default(own', accepted, later);
    assert SameFacts(a, a');
    DefaultSameFacts(a, a', programmed, now, later);
    DefaultUnique(a, programmed, now);
    var b, b' := Default(a, programmed, now), Default(a', programmed, later);
    var refs := if SomeListenerUnresolved(listeners)
                then Plain(RESOLVED_REFS, FALSE, "ListenersNotResolved",
                           "One or more listeners have unresolved references")
                else Plain(RESOLVED_REFS, TRUE, "ResolvedRefs", "Successfully resolved all Gateway references");
    DefaultSameFacts(b, b', refs, now, later);
    DefaultUnique(b, refs, now);
  }

  /** The desired conditions before the defaults. */
  function OwnGateway(report: GatewayReport, gw: Gateway, now: nat): seq<Condition> {
    WithFrontend(WithAddresses(WithInvalid(report.conditions, InvalidListeners(report.listeners, gw.listeners, now),
                                           now),
                               gw.addresses, now), gw.frontend, now)
  }

  lemma OwnGatewayFacts(report: GatewayReport, gw: Gateway, again: Gateway, now: nat, later: nat)
    requires Reported(report.conditions, report.listeners)
    requires again == gw.(status := again.status)
    ensures UniqueTypes(OwnGateway(report, gw, now))
    ensures SameFacts(OwnGateway(report, gw, now), OwnGateway(report, again, later))
  {
    InvalidListenersAnyClock(report.listeners, gw.listeners, now, later);
    var inv := InvalidListeners(report.listeners, gw.listeners, now);
    var c := Plain(ACCEPTED, TRUE, LISTENERS_NOT_VALID, NotProgrammedMessage(inv));
    SetSameFacts(report.conditions, report.conditions, c, now, later);
    SetUnique(report.conditions, c, now);
    var a, a' := WithInvalid(report.conditions, inv, now), WithInvalid(report.conditions, inv, later);
    AddressesFacts(a, a', gw.addresses, now, later);
    var f := Plain(INSECURE_FRONTEND, TRUE, "ConfigurationChanged",
                   "Gateway frontend validation is configured to allow insecure fallback");
    SetSameFacts(WithAddresses(a, gw.addresses, now), WithAddresses(a', gw.addresses, later), f, now, later);
    SetUnique(WithAddresses(a, gw.addresses, now), f, now);
  }

  /** The InvalidParameters hold-back survives a rebuild, and only a rebuild that found it
      keeps it. */
  lemma HoldBackStable(report: GatewayReport, gw: Gateway, listeners: seq<ListenerStatus>, now: nat)
    requires Reported(report.conditions, report.listeners)
    ensures var built := Build(DesiredGateway(report, gw, listeners, now), gw.status.conditions,
                               report.observedGeneration, now, KeepOnGateway);
            HasInvalidParameters(gw.status.conditions) == HasInvalidParameters(built) ||
            HasType(OwnGateway(report, gw, now), ACCEPTED)
  {
    var desired, current := DesiredGateway(report, gw, listeners, now), gw.status.conditions;
    var built := Build(desired, current, report.observedGeneration, now, KeepOnGateway);
    OwnGatewayFacts(report, gw, gw, now, now);
    var own := OwnGateway(report, gw, now);
    FindIsFirst(own, ACCEPTED);
    if Find(own, ACCEPTED).None? {
      DesiredGatewayFacts(report, gw, gw, listeners, now, now);
      BuildShape(desired, current, report.observedGeneration, now, KeepOnGateway);
      if HasInvalidParameters(current) {
        HeldBack(report, gw, listeners, now);
      } else {
        DefaultedAccepted(report, gw, listeners, now);
      }
    }
  }

  lemma {:induction false} SetFind(conds: seq<Condition>, c: Condition, now: nat, typ: string)
    ensures c.typ != typ ==> Find(Set(conds, c, now), typ) == Find(conds, typ)
    ensures c.typ == typ ==> Find(Set(conds, c, now), typ).Some?
    ensures c.typ == typ ==>
            Find(Set(conds, c, now), typ).value.(time := 0, observedGeneration := 0)
              == c.(time := 0, observedGeneration := 0)
    decreases |conds|
  {
    if conds != [] && conds[0].typ != c.typ { SetFind(conds[1..], c, now, typ); }
  }

  lemma DefaultedAccepted(report: GatewayReport, gw: Gateway, listeners: seq<ListenerStatus>, now: nat)
    requires UniqueTypes(DesiredGateway(report, gw, listeners, now))
    requires Find(OwnGateway(report, gw, now), ACCEPTED).None? && !HasInvalidParameters(gw.status.conditions)
    ensures !HasInvalidParameters(Build(DesiredGateway(report, gw, listeners, now), gw.status.conditions,
                                        report.observedGeneration, now, KeepOnGateway))
  {
    var desired, current := DesiredGateway(report, gw, listeners, now), gw.status.conditions;
    var own := OwnGateway(report, gw, now);
    var accepted := Plain(ACCEPTED, TRUE, "Accepted", "Successfully accepted Gateway");
    SetFind(own, accepted, now, ACCEPTED);
    var a := Default(own, accepted, now);
    DefaultFind(a, Plain(PROGRAMMED, TRUE, "Programmed", "Successfully programmed Gateway"), now, ACCEPTED);
    var b := Default(a, Plain(PROGRAMMED, TRUE, "Programmed", "Successfully programmed Gateway"), now);
    DefaultFind(b, Plain(RESOLVED_REFS, FALSE, "ListenersNotResolved",
                         "One or more listeners have unresolved references"), now, ACCEPTED);
    DefaultFind(b, Plain(RESOLVED_REFS, TRUE, "ResolvedRefs", "Successfully resolved all Gateway references"), now,
                ACCEPTED);
    assert Find(desired, ACCEPTED).Some? && Find(desired, ACCEPTED).value.status == TRUE;
    BuiltFind(desired, current, report.observedGeneration, now, KeepOnGateway, ACCEPTED);
  }

  lemma DefaultFind(conds: seq<Condition>, c: Condition, now: nat, typ: string)
    requires c.typ != typ
    ensures Find(Default(conds, c, now), typ) == Find(conds, typ)
  {
    SetFind(conds, c, now, typ);
  }

  /** A type the builder owns shows the desired status. */
  lemma BuiltFind(desired: seq<Condition>, current: seq<Condition>, generation: int, now: nat, keep: Condition -> bool,
                  typ: string)
    requires UniqueTypes(desired) && Find(desired, typ).Some?
    ensures Find(Build(desired, current, generation, now, keep), typ).Some?
    ensures Find(Build(desired, current, generation, now, keep), typ).value
            == Stamped(Find(desired, typ).value, current, generation, now)
  {
    var built := Build(desired, current, generation, now, keep);
    BuildShape(desired, current, generation, now, keep);
    FindIsFirst(desired, typ);
    var i :| 0 <= i < |desired| && desired[i].typ == typ;
    FindUnique(desired, i);
    FindUnique(built, i);
  }

  lemma HeldBack(report: GatewayReport, gw: Gateway, listeners: seq<ListenerStatus>, now: nat)
    requires UniqueTypes(DesiredGateway(report, gw, listeners, now))
    requires Find(OwnGateway(report, gw, now), ACCEPTED).None? && HasInvalidParameters(gw.status.conditions)
    ensures HasInvalidParameters(Build(DesiredGateway(report, gw, listeners, now), gw.status.conditions,
                                       report.observedGeneration, now, KeepOnGateway))
  {
    var desired, current := DesiredGateway(report, gw, listeners, now), gw.status.conditions;
    var built := Build(desired, current, report.observedGeneration, now, KeepOnGateway);
    var own := OwnGateway(report, gw, now);
    DefaultFind(own, Plain(PROGRAMMED, TRUE, "Programmed", "Successfully programmed Gateway"), now, ACCEPTED);
    var b := Default(own, Plain(PROGRAMMED, TRUE, "Programmed", "Successfully programmed Gateway"), now);
    DefaultFind(b, Plain(RESOLVED_REFS, FALSE, "ListenersNotResolved",
                         "One or more listeners have unresolved references"), now, ACCEPTED);
    DefaultFind(b, Plain(RESOLVED_REFS, TRUE, "ResolvedRefs", "Successfully resolved all Gateway references"), now,
                ACCEPTED);
    assert Find(desired, ACCEPTED).None?;
    BuildShape(desired, current, report.observedGeneration, now, KeepOnGateway);
    FindIsFirst(desired, ACCEPTED);
    FindIsFirst(current, ACCEPTED);
    FindIsFirst(built, ACCEPTED);
    var i :| 0 <= i < |current| && current[i] == Find(current, ACCEPTED).value;
    assert KeepOnGateway(current[i]) && HasType(built, ACCEPTED);
    var k :| 0 <= k < |built| && built[k].typ == ACCEPTED;
    FindUnique(built, k);
    assert !HasType(desired, ACCEPTED) && k >= |desired|;
  }

  /** Rebuilding the Gateway status from the same report on top of itself, at any clock,
      returns it unchanged: conditions, listeners and their order. */
  lemma GatewayFixpoint(report: GatewayReport, gw: Gateway, attached: map<string, nat>, now: nat, later: nat)
    requires Reported(report.conditions, report.listeners) && NamedListeners(report.listeners)
    ensures var built := BuiltGateway(report, gw, attached, now);
            BuiltGateway(report, gw.(status := built), attached, later) == built
  {
    var built := BuiltGateway(report, gw, attached, now);
    var again := gw.(status := built);
    ListenersFixpoint(report.listeners, attached, gw.listeners, gw.status.listeners, report.observedGeneration, now,
                      later);
    HoldBackStable(report, gw, built.listeners, now);
    DesiredGatewayFacts(report, gw, again, built.listeners, now, later);
    BuildFixpoint(DesiredGateway(report, gw, built.listeners, now),
                  DesiredGateway(report, again, built.listeners, later),
                  gw.status.conditions, report.observedGeneration, now, later, KeepOnGateway);
  }

  /** Whatever the current status holds, the built conditions have unique types; the
      reporter's own ones carry the report's generation and keep the old time exactly
      when the type was there with the same status. */
  lemma GatewayConditionsStamped(report: GatewayReport, gw: Gateway, attached: map<string, nat>, now: nat)
    requires Reported(report.conditions, report.listeners)
    ensures var built := BuiltGateway(report, gw, attached, now);
            var desired := DesiredGateway(report, gw, built.listeners, now);
            && UniqueTypes(built.conditions) && |desired| <= |built.conditions|
            && (forall i :: 0 <= i < |desired| ==>
                  built.conditions[i] == Stamped(desired[i], gw.status.conditions, report.observedGeneration, now))
            && (forall i :: |desired| <= i < |built.conditions| ==>
                  built.conditions[i] in gw.status.conditions && KeepOnGateway(built.conditions[i]))
            && (forall c :: c in gw.status.conditions && KeepOnGateway(c) ==> HasType(built.conditions, c.typ))
  {
    var built := BuiltGateway(report, gw, attached, now);
    DesiredGatewayFacts(report, gw, gw, built.listeners, now, now);
    BuildShape(DesiredGateway(report, gw, built.listeners, now), gw.status.conditions, report.observedGeneration, now,
               KeepOnGateway);
  }

  // ---- What the conditions say

  ghost function StatusOf(conds: seq<Condition>, typ: string): Option<string> {
    var c := Find(conds, typ);
    if c.Some? then Some(c.value.status) else None
  }

  ghost function Otherwise(a: Option<string>, b: string): Option<string> { if a.Some? then a else Some(b) }

  lemma SetStatus(conds: seq<Condition>, c: Condition, now: nat, typ: string)
    ensures StatusOf(Set(conds, c, now), typ) == if c.typ == typ then Some(c.status) else StatusOf(conds, typ)
  {
    SetFind(conds, c, now, typ);
  }

  lemma DefaultStatus(conds: seq<Condition>, c: Condition, now: nat, typ: string)
    ensures StatusOf(Default(conds, c, now), typ) ==
            if c.typ == typ then Otherwise(StatusOf(conds, typ), c.status) else StatusOf(conds, typ)
  {
    SetFind(conds, c, now, typ);
  }

  lemma {:induction false} AddressStatus(conds: seq<Condition>, addresses: seq<Option<AddressType>>, now: nat)
    ensures StatusOf(WithAddresses(conds, addresses, now), PROGRAMMED) ==
            if Some(Hostname) in addresses then Some(FALSE) else StatusOf(conds, PROGRAMMED)
    ensures StatusOf(WithAddresses(conds, addresses, now), ACCEPTED) ==
            if Some(OtherAddress) in addresses then Some(FALSE) else StatusOf(conds, ACCEPTED)
    ensures StatusOf(WithAddresses(conds, addresses, now), RESOLVED_REFS) == StatusOf(conds, RESOLVED_REFS)
    decreases |addresses|
  {
    if addresses != [] {
      var front, last := addresses[..|addresses| - 1], addresses[|addresses| - 1];
      AddressStatus(conds, front, now);
      assert addresses == front + [last];
      if last.Some? && AddressCondition(last.value).Some? {
        var done, c := WithAddresses(conds, front, now), AddressCondition(last.value).value;
        SetStatus(done, c, now, PROGRAMMED);
        SetStatus(done, c, now, ACCEPTED);
        SetStatus(done, c, now, RESOLVED_REFS);
      }
    }
  }

  lemma InvalidStatus(conds: seq<Condition>, inv: Invalid, now: nat, typ: string)
    ensures StatusOf(WithInvalid(conds, inv, now), typ) ==
            if typ == ACCEPTED && inv.names != [] then Some(TRUE) else StatusOf(conds, typ)
  {
    SetStatus(conds, Plain(ACCEPTED, TRUE, LISTENERS_NOT_VALID, NotProgrammedMessage(inv)), now, typ);
  }

  lemma FrontendStatus(conds: seq<Condition>, f: Option<Frontend>, now: nat, typ: string)
    requires typ != INSECURE_FRONTEND
    ensures StatusOf(WithFrontend(conds, f, now), typ) == StatusOf(conds, typ)
  {
    SetStatus(conds, Plain(INSECURE_FRONTEND, TRUE, "ConfigurationChanged",
                           "Gateway frontend validation is configured to allow insecure fallback"), now, typ);
  }

  /** The statuses before the defaults. */
  ghost function OwnStatusOf(report: GatewayReport, gw: Gateway, now: nat, typ: string): Option<string> {
    if typ == PROGRAMMED && Some(Hostname) in gw.addresses then Some(FALSE)
    else if typ == ACCEPTED && Some(OtherAddress) in gw.addresses then Some(FALSE)
    else if typ == ACCEPTED && InvalidListeners(report.listeners, gw.listeners, now).names != [] then Some(TRUE)
    else StatusOf(report.conditions, typ)
  }

  lemma OwnStatus(report: GatewayReport, gw: Gateway, now: nat, typ: string)
    requires typ == ACCEPTED || typ == PROGRAMMED || typ == RESOLVED_REFS
    ensures StatusOf(OwnGateway(report, gw, now), typ) == OwnStatusOf(report, gw, now, typ)
  {
    var invalid := InvalidListeners(report.listeners, gw.listeners, now);
    InvalidStatus(report.conditions, invalid, now, typ);
    var a := WithInvalid(report.conditions, invalid, now);
    AddressStatus(a, gw.addresses, now);
    FrontendStatus(WithAddresses(a, gw.addresses, now), gw.frontend, now, typ);
  }

  /** What a Gateway is told: a hostname address unprograms it, an unknown address kind
      rejects it, unprogrammed listeners leave it accepted, the controller's
      InvalidParameters stands until the reporter speaks, unresolved listeners unresolve
      it, and silence means healthy. */
  lemma GatewayVerdicts(report: GatewayReport, gw: Gateway, attached: map<string, nat>, now: nat)
    requires Reported(report.conditions, report.listeners)
    ensures var built := BuiltGateway(report, gw, attached, now);
            && StatusOf(built.conditions, PROGRAMMED) == Otherwise(OwnStatusOf(report, gw, now, PROGRAMMED), TRUE)
            && StatusOf(built.conditions, RESOLVED_REFS) ==
               Otherwise(OwnStatusOf(report, gw, now, RESOLVED_REFS),
                         if SomeListenerUnresolved(built.listeners) then FALSE else TRUE)
            && StatusOf(built.conditions, ACCEPTED) ==
               Otherwise(OwnStatusOf(report, gw, now, ACCEPTED),
                         if HasInvalidParameters(gw.status.conditions) then FALSE else TRUE)
  {
    DesiredVerdicts(report, gw, BuiltGateway(report, gw, attached, now).listeners, now);
    BuiltGatewayStatus(report, gw, attached, now);
  }

  lemma DesiredVerdicts(report: GatewayReport, gw: Gateway, listeners: seq<ListenerStatus>, now: nat)
    ensures var desired := DesiredGateway(report, gw, listeners, now);
            && StatusOf(desired, ACCEPTED) ==
               (if HasInvalidParameters(gw.status.conditions) then OwnStatusOf(report, gw, now, ACCEPTED)
                else Otherwise(OwnStatusOf(report, gw, now, ACCEPTED), TRUE))
            && StatusOf(desired, PROGRAMMED) == Otherwise(OwnStatusOf(report, gw, now, PROGRAMMED), TRUE)
            && StatusOf(desired, RESOLVED_REFS) ==
               Otherwise(OwnStatusOf(report, gw, now, RESOLVED_REFS), if SomeListenerUnresolved(listeners) then FALSE
                         else TRUE)
  {
    OwnStatus(report, gw, now, PROGRAMMED);
    OwnStatus(report, gw, now, RESOLVED_REFS);
    OwnStatus(report, gw, now, ACCEPTED);
    GatewayDefaultStatus(OwnGateway(report, gw, now), gw.status.conditions, listeners, now);
  }

  lemma BuiltGatewayStatus(report: GatewayReport, gw: Gateway, attached: map<string, nat>, now: nat)
    requires Reported(report.conditions, report.listeners)
    ensures var built := BuiltGateway(report, gw, attached, now);
            var desired := DesiredGateway(report, gw, built.listeners, now);
            && (forall t :: StatusOf(desired, t).Some? ==> StatusOf(built.conditions, t) == StatusOf(desired, t))
            && (StatusOf(desired, ACCEPTED).None? ==> StatusOf(built.conditions, ACCEPTED) == Some(FALSE))
  {
    var built := BuiltGateway(report, gw, attached, now);
    var desired := DesiredGateway(report, gw, built.listeners, now);
    DesiredGatewayFacts(report, gw, gw, built.listeners, now, now);
    forall t | StatusOf(desired, t).Some? ensures StatusOf(built.conditions, t) == StatusOf(desired, t) {
      BuiltFind(desired, gw.status.conditions, report.observedGeneration, now, KeepOnGateway, t);
      FindIsFirst(desired, t);
    }
    if Find(desired, ACCEPTED).None? {
      GatewayDefaultStatus(OwnGateway(report, gw, now), gw.status.conditions, built.listeners, now);
      HeldBack(report, gw, built.listeners, now);
    }
  }

  lemma GatewayDefaultStatus(own: seq<Condition>, current: seq<Condition>, listeners: seq<ListenerStatus>, now: nat)
    ensures var desired := GatewayDefaults(own, current, listeners, now);
            && StatusOf(desired, ACCEPTED) ==
               (if HasInvalidParameters(current) then StatusOf(own, ACCEPTED)
                else Otherwise(StatusOf(own, ACCEPTED), TRUE))
            && StatusOf(desired, PROGRAMMED) == Otherwise(StatusOf(own, PROGRAMMED), TRUE)
            && StatusOf(desired, RESOLVED_REFS) ==
               Otherwise(StatusOf(own, RESOLVED_REFS), if SomeListenerUnresolved(listeners) then FALSE else TRUE)
  {
    var accepted := Plain(ACCEPTED, TRUE, "Accepted", "Successfully accepted Gateway");
    var programmed := Plain(PROGRAMMED, TRUE, "Programmed", "Successfully programmed Gateway");
    var refs := if SomeListenerUnresolved(listeners)
                then Plain(RESOLVED_REFS, FALSE, "ListenersNotResolved",
                           "One or more listeners have unresolved references")
                else Plain(RESOLVED_REFS, TRUE, "ResolvedRefs", "Successfully resolved all Gateway references");
    var a := if HasInvalidParameters(current) then own else Default(own, accepted, now);
    var b := Default(a, programmed, now);
    forall t: string
      ensures StatusOf(Default(own, accepted, now), t) == if accepted.typ == t then Otherwise(StatusOf(own, t), TRUE)
              else StatusOf(own, t)
      ensures StatusOf(b, t) == if programmed.typ == t then Otherwise(StatusOf(a, t), TRUE) else StatusOf(a, t)
      ensures StatusOf(Default(b, refs, now), t) == if refs.typ == t then Otherwise(StatusOf(b, t), refs.status)
              else StatusOf(b, t)
    {
      DefaultStatus(own, accepted, now, t);
      DefaultStatus(a, programmed, now, t);
      DefaultStatus(b, refs, now, t);
    }
  }

  /** What a listener is told: its reported status, and silence means healthy. */
  lemma ListenerVerdicts(conds: seq<Condition>, now: nat)
    ensures var d := ListenerDefaults(conds, now);
            && StatusOf(d, ACCEPTED) == Otherwise(StatusOf(conds, ACCEPTED), TRUE)
            && StatusOf(d, CONFLICTED) == Otherwise(StatusOf(conds, CONFLICTED), FALSE)
            && StatusOf(d, RESOLVED_REFS) == Otherwise(StatusOf(conds, RESOLVED_REFS), TRUE)
            && StatusOf(d, PROGRAMMED) == Otherwise(StatusOf(conds, PROGRAMMED), TRUE)
  {
    var c1 := Plain(ACCEPTED, TRUE, "Accepted", "Successfully accepted Listener");
    var c2 := Plain(CONFLICTED, FALSE, "NoConflicts", "Successfully verified that Listener has no conflicts");
    var c3 := Plain(RESOLVED_REFS, TRUE, "ResolvedRefs", "Successfully resolved all references");
    var c4 := Plain(PROGRAMMED, TRUE, "Programmed", "Successfully programmed Listener");
    var a := Default(conds, c1, now);
    var b := Default(a, c2, now);
    var c := Default(b, c3, now);
    forall t: string
      ensures StatusOf(a, t) == if c1.typ == t then Otherwise(StatusOf(conds, t), TRUE) else StatusOf(conds, t)
      ensures StatusOf(b, t) == if c2.typ == t then Otherwise(StatusOf(a, t), FALSE) else StatusOf(a, t)
      ensures StatusOf(c, t) == if c3.typ == t then Otherwise(StatusOf(b, t), TRUE) else StatusOf(b, t)
      ensures StatusOf(Default(c, c4, now), t) == if c4.typ == t then Otherwise(StatusOf(c, t), TRUE)
              else StatusOf(c, t)
    {
      DefaultStatus(conds, c1, now, t);
      DefaultStatus(a, c2, now, t);
      DefaultStatus(b, c3, now, t);
      DefaultStatus(c, c4, now, t);
    }
  }

  predicate ReportedUnprogrammed(listeners: ListenerReports, name: string) {
    var c := Find(ReportedListener(listeners, name).conditions, PROGRAMMED);
    c.Some? && c.value.status == FALSE
  }

  function UnprogrammedNames(listeners: ListenerReports, names: seq<string>): seq<string> {
    if names == [] then []
    else UnprogrammedNames(listeners, names[..|names| - 1])
         + if ReportedUnprogrammed(listeners, names[|names| - 1]) then [names[|names| - 1]] else []
  }

  /** The listeners counted as invalid are those reported as not programmed, once each. */
  lemma {:induction false} InvalidMeansUnprogrammed(listeners: ListenerReports, names: seq<string>, now: nat)
    requires UniqueListeners(listeners)
    ensures InvalidListeners(listeners, names, now).names == UnprogrammedNames(listeners, names)
    decreases |names|
  {
    if names != [] {
      var front, name := names[..|names| - 1], names[|names| - 1];
      InvalidMeansUnprogrammed(listeners, front, now);
      DesiredListenerFacts(listeners, name, now, now);
      ListenerVerdicts(ReportedListener(listeners, name).conditions, now);
      AddInvalidOnce(InvalidListeners(listeners, front, now), name, DesiredListener(listeners, name, now));
    }
  }

  lemma {:induction false} AddInvalidOnce(inv: Invalid, name: string, conds: seq<Condition>)
    requires UniqueTypes(conds)
    ensures AddInvalid(inv, name, conds).names ==
            inv.names + if StatusOf(conds, PROGRAMMED) == Some(FALSE) then [name] else []
    decreases |conds|
  {
    if conds != [] {
      var front, c := conds[..|conds| - 1], conds[|conds| - 1];
      AddInvalidOnce(inv, name, front);
      assert conds == front + [c];
      FindSnoc(front, c, PROGRAMMED);
      FindIsFirst(front, PROGRAMMED);
    }
  }
}
