/** What the built Gateway and ListenerSet statuses say, field by field
    (pkg/reports/status.go). */
module StatusContents {
  import opened Common
  import opened Conditions
  import opened Reports
  import opened GatewayStatus
  import opened ListenerSetStatus

  // ---- Listeners

  ghost predicate HasReport(listeners: ListenerReports, name: string) {
    name in listeners && listeners[name] != None
  }

  ghost function ConditionsReported(listeners: ListenerReports, name: string): seq<Condition> {
    if HasReport(listeners, name) then listeners[name].value.conditions else []
  }

  /** What a listener is told about a condition type. */
  ghost function ListenerWants(reported: seq<Condition>, typ: string): Option<Condition> {
    if Find(reported, typ).Some? then Find(reported, typ)
    else if typ == "Accepted" then Some(Condition(typ, "True", "Accepted", "Successfully accepted Listener", 0, 0))
    else if typ == "Conflicted" then
      Some(Condition(typ, "False", "NoConflicts", "Successfully verified that Listener has no conflicts", 0, 0))
    else if typ == "ResolvedRefs" then
      Some(Condition(typ, "True", "ResolvedRefs", "Successfully resolved all references", 0, 0))
    else if typ == "Programmed" then
      Some(Condition(typ, "True", "Programmed", "Successfully programmed Listener", 0, 0))
    else None
  }

  ghost predicate FirstNamed(current: seq<ListenerStatus>, name: string, i: int) {
    0 <= i < |current| && current[i].name == name && forall j :: 0 <= j < i ==> current[j].name != name
  }

  /** The conditions the status had for a listener. */
  ghost predicate HadListener(current: seq<ListenerStatus>, name: string, conds: seq<Condition>) {
    if exists i :: FirstNamed(current, name, i)
    then exists i :: FirstNamed(current, name, i) && conds == current[i].conditions
    else conds == []
  }

  /** A count as a 32-bit signed number. */
  ghost predicate WrapsTo(count: nat, n: int) {
    -0x8000_0000 <= n < 0x8000_0000 && (count - n) % 0x1_0000_0000 == 0
  }

  /** The built status of one listener: the report's name and kinds, the attached routes counted
      for it or else reported, and its conditions; nothing is kept that is not wanted. */
  ghost predicate TellsListener(l: ListenerStatus, listeners: ListenerReports, attached: map<string, nat>,
                                name: string, current: seq<ListenerStatus>, generation: int, now: nat)
  {
    && (if HasReport(listeners, name)
        then l.name == listeners[name].value.name && l.supportedKinds == listeners[name].value.supportedKinds
        else l.name == name && l.supportedKinds == [])
    && (if name in attached then WrapsTo(attached[name], l.attachedRoutes)
        else l.attachedRoutes == if HasReport(listeners, name) then listeners[name].value.attachedRoutes else 0)
    && UniqueTypes(l.conditions)
    && exists before ::
      && HadListener(current, name, before)
      && forall typ :: Find(l.conditions, typ) ==
                       Expected(ListenerWants(ConditionsReported(listeners, name), typ), Find(before, typ), None,
                                generation, now)
  }

  lemma {:induction false} CurrentListenerHad(current: seq<ListenerStatus>, name: string)
    ensures HadListener(current, name, CurrentListener(current, name))
    decreases |current|
  {
    if current != [] {
      if current[0].name == name {
        assert FirstNamed(current, name, 0);
      } else {
        CurrentListenerHad(current[1..], name);
        forall i | FirstNamed(current, name, i) ensures FirstNamed(current[1..], name, i - 1) {
          assert current[1..][i - 1] == current[i];
        }
        if i :| FirstNamed(current[1..], name, i) && CurrentListener(current, name) == current[1..][i].conditions {
          assert FirstNamed(current, name, i + 1);
        }
      }
    }
  }

  lemma ListenerDefaultsSay(conds: seq<Condition>, now: nat, typ: string, was: Option<Condition>, generation: int)
    ensures Expected(Find(ListenerDefaults(conds, now), typ), was, None, generation, now) ==
            Expected(ListenerWants(conds, typ), was, None, generation, now)
  {
    var c1 := Plain(ACCEPTED, TRUE, "Accepted", "Successfully accepted Listener");
    var c2 := Plain(CONFLICTED, FALSE, "NoConflicts", "Successfully verified that Listener has no conflicts");
    var c3 := Plain(RESOLVED_REFS, TRUE, "ResolvedRefs", "Successfully resolved all references");
    var c4 := Plain(PROGRAMMED, TRUE, "Programmed", "Successfully programmed Listener");
    var a := Default(conds, c1, now);
    var b := Default(a, c2, now);
    FoundAfterDefault(conds, c1, now, typ);
    FoundAfterDefault(a, c2, now, typ);
    FoundAfterDefault(b, c3, now, typ);
    FoundAfterDefault(Default(b, c3, now), c4, now, typ);
  }

  lemma ListenerConditionsSay(conds: seq<Condition>, before: seq<Condition>, generation: int, now: nat, typ: string)
    requires UniqueTypes(conds)
    ensures Find(Carry(ListenerDefaults(conds, now), before, generation, now), typ) ==
            Expected(ListenerWants(conds, typ), Find(before, typ), None, generation, now)
  {
    var desired := ListenerDefaults(conds, now);
    ListenerDefaultsFacts(conds, conds, now, now);
    FoundAfterCarry(desired, before, generation, now, typ);
    FoundType(desired, typ);
    ListenerDefaultsSay(conds, now, typ, Find(before, typ), generation);
  }

  lemma ListenerConditionsUnique(conds: seq<Condition>, before: seq<Condition>, generation: int, now: nat)
    requires UniqueTypes(conds)
    ensures UniqueTypes(Carry(ListenerDefaults(conds, now), before, generation, now))
  {
    ListenerDefaultsFacts(conds, conds, now, now);
    CarryStamps(ListenerDefaults(conds, now), before, generation, now);
  }

  lemma Int32Wraps(count: nat)
    ensures WrapsTo(count, ToInt32(count))
  {
  }

  lemma ListenerTold(listeners: ListenerReports, attached: map<string, nat>, name: string,
                     current: seq<ListenerStatus>, generation: int, now: nat)
    requires UniqueListeners(listeners)
    ensures TellsListener(BuiltListener(listeners, attached, name, current, generation, now), listeners, attached, name,
                          current, generation, now)
  {
    var conds, before := ConditionsReported(listeners, name), CurrentListener(current, name);
    CurrentListenerHad(current, name);
    ListenerConditionsUnique(conds, before, generation, now);
    forall typ ensures Find(Carry(ListenerDefaults(conds, now), before, generation, now), typ) ==
                       Expected(ListenerWants(conds, typ), Find(before, typ), None, generation, now)
    {
      ListenerConditionsSay(conds, before, generation, now, typ);
    }
    if name in attached { Int32Wraps(attached[name]); }
  }

  // ---- Listeners that are not programmed

  ghost predicate Down(listeners: ListenerReports, name: string) {
    var c := Find(ConditionsReported(listeners, name), "Programmed");
    c.Some? && c.value.status == "False"
  }

  ghost function DownMessage(listeners: ListenerReports, name: string): string
    requires Down(listeners, name)
  {
    Find(ConditionsReported(listeners, name), "Programmed").value.message
  }

  /** The listeners reported as not programmed, in order, and what is said about them. */
  ghost function DownNames(listeners: ListenerReports, names: seq<string>): seq<string> {
    if names == [] then []
    else
      var n := |names| - 1;
      DownNames(listeners, names[..n]) + if Down(listeners, names[n]) then [names[n]] else []
  }

  ghost function DownMessages(listeners: ListenerReports, names: seq<string>): seq<string> {
    if names == [] then []
    else
      var n := |names| - 1;
      DownMessages(listeners, names[..n])
      + if Down(listeners, names[n]) && DownMessage(listeners, names[n]) != ""
        then [names[n] + ": " + DownMessage(listeners, names[n])] else []
  }

  ghost function DownText(listeners: ListenerReports, names: seq<string>): string {
    "Some listeners are not programmed: "
    + if DownMessages(listeners, names) == [] then Join(DownNames(listeners, names), ", ")
      else Join(DownMessages(listeners, names), "; ")
  }

  /** Joining puts the separator between neighbours. */
  lemma {:induction false} JoinSnoc(parts: seq<string>, last: string, sep: string)
    ensures Join([], sep) == "" && Join([last], sep) == last
    ensures parts != [] ==> Join(parts + [last], sep) == Join(parts, sep) + sep + last
    decreases |parts|
  {
    if |parts| == 1 {
      assert (parts + [last])[1..] == [last];
    } else if |parts| > 1 {
      assert (parts + [last])[1..] == parts[1..] + [last];
      JoinSnoc(parts[1..], last, sep);
    }
  }

  /** A listener's conditions add it once, if they say it is not programmed. */
  lemma {:induction false} AddedOnce(inv: Invalid, name: string, conds: seq<Condition>)
    requires UniqueTypes(conds)
    ensures var c := Find(conds, "Programmed");
            AddInvalid(inv, name, conds) ==
            if c.Some? && c.value.status == "False"
            then Invalid(inv.names + [name],
                         inv.messages + if c.value.message != "" then [name + ": " + c.value.message] else [])
            else inv
    decreases |conds|
  {
    if conds != [] {
      var front, c := conds[..|conds| - 1], conds[|conds| - 1];
      AddedOnce(inv, name, front);
      assert conds == front + [c];
      FindSnoc(front, c, "Programmed");
      FindIsFirst(front, "Programmed");
    }
  }

  lemma DesiredProgrammed(listeners: ListenerReports, name: string, now: nat)
    ensures var c := Find(DesiredListener(listeners, name, now), "Programmed");
            c.Some? && (if Down(listeners, name) then c == Find(ConditionsReported(listeners, name), "Programmed")
                        else c.value.status != "False")
  {
    var conds := ConditionsReported(listeners, name);
    ListenerDefaultsSay(conds, now, "Programmed", None, 0);
    FoundInDefaults(conds, now);
  }

  lemma FoundInDefaults(conds: seq<Condition>, now: nat)
    ensures Find(conds, "Programmed").Some? ==>
              Find(ListenerDefaults(conds, now), "Programmed") == Find(conds, "Programmed")
  {
    var c1 := Plain(ACCEPTED, TRUE, "Accepted", "Successfully accepted Listener");
    var c2 := Plain(CONFLICTED, FALSE, "NoConflicts", "Successfully verified that Listener has no conflicts");
    var c3 := Plain(RESOLVED_REFS, TRUE, "ResolvedRefs", "Successfully resolved all references");
    var c4 := Plain(PROGRAMMED, TRUE, "Programmed", "Successfully programmed Listener");
    var a := Default(conds, c1, now);
    var b := Default(a, c2, now);
    FoundAfterDefault(conds, c1, now, "Programmed");
    FoundAfterDefault(a, c2, now, "Programmed");
    FoundAfterDefault(b, c3, now, "Programmed");
    FoundAfterDefault(Default(b, c3, now), c4, now, "Programmed");
  }

  lemma {:induction false} InvalidAreDown(listeners: ListenerReports, names: seq<string>, now: nat)
    requires UniqueListeners(listeners)
    ensures InvalidListeners(listeners, names, now) == Invalid(DownNames(listeners, names),
                                                               DownMessages(listeners, names))
    decreases |names|
  {
    if names != [] {
      var n := |names| - 1;
      InvalidAreDown(listeners, names[..n], now);
      DesiredListenerFacts(listeners, names[n], now, now);
      AddedOnce(InvalidListeners(listeners, names[..n], now), names[n], DesiredListener(listeners, names[n], now));
      DesiredProgrammed(listeners, names[n], now);
    }
  }

  // ---- The Gateway

  ghost predicate AllowsInsecureFallback(f: Option<Frontend>) {
    f.Some? && (f.value.default == Some(AllowInsecureFallback)
                || exists i :: 0 <= i < |f.value.perPort| && f.value.perPort[i] == Some(AllowInsecureFallback))
  }

  ghost predicate HoldsInvalidParameters(current: seq<Condition>) {
    var a := Find(current, "Accepted");
    a.Some? && a.value.status == "False" && a.value.reason == "InvalidParameters"
  }

  ghost predicate Unresolved(l: ListenerStatus) {
    var c := Find(l.conditions, "ResolvedRefs");
    c.Some? && c.value.status == "False"
  }

  /** Unprogrammed listeners leave a Gateway accepted and say so, an unknown address kind
      rejects it. */
  ghost function OwnAccepted(report: GatewayReport, gw: Gateway, now: nat): Option<Condition> {
    var down := DownAccepted(report, gw, now);
    if Some(OtherAddress) in gw.addresses
    then Some(Overriding(down, Condition("Accepted", "False", "UnsupportedAddress", "Unknown address kind", 0, 0), now))
    else down
  }

  ghost function DownAccepted(report: GatewayReport, gw: Gateway, now: nat): Option<Condition> {
    var reported := Find(report.conditions, "Accepted");
    if DownNames(report.listeners, gw.listeners) == [] then reported
    else Some(Overriding(reported, Condition("Accepted", "True", "ListenersNotValid",
                                             DownText(report.listeners, gw.listeners), 0, 0), now))
  }

  /** The controller's InvalidParameters stands until the reporter speaks. */
  ghost function WantsAccepted(report: GatewayReport, gw: Gateway, now: nat): Option<Condition> {
    var own := OwnAccepted(report, gw, now);
    if own.Some? then own
    else if HoldsInvalidParameters(gw.status.conditions) then None
    else Some(Condition("Accepted", "True", "Accepted", "Successfully accepted Gateway", 0, 0))
  }

  ghost function WantsProgrammed(report: GatewayReport, gw: Gateway, now: nat): Option<Condition> {
    var reported := Find(report.conditions, "Programmed");
    if Some(Hostname) in gw.addresses
    then Some(Overriding(reported, Condition("Programmed", "False", "AddressNotUsable",
                                             "Hostname addresses may not be used", 0, 0), now))
    else if reported.Some? then reported
    else Some(Condition("Programmed", "True", "Programmed", "Successfully programmed Gateway", 0, 0))
  }

  ghost function WantsResolved(report: GatewayReport, listeners: seq<ListenerStatus>): Option<Condition> {
    var reported := Find(report.conditions, "ResolvedRefs");
    if reported.Some? then reported
    else if exists l :: l in listeners && Unresolved(l)
    then Some(Condition("ResolvedRefs", "False", "ListenersNotResolved",
                        "One or more listeners have unresolved references", 0, 0))
    else Some(Condition("ResolvedRefs", "True", "ResolvedRefs", "Successfully resolved all Gateway references", 0, 0))
  }

  ghost function WantsInsecure(report: GatewayReport, gw: Gateway, now: nat): Option<Condition> {
    var reported := Find(report.conditions, "InsecureFrontendValidationMode");
    if AllowsInsecureFallback(gw.frontend)
    then Some(Overriding(reported, Condition("InsecureFrontendValidationMode", "True", "ConfigurationChanged",
                                             "Gateway frontend validation is configured to allow insecure fallback",
                                             0, 0), now))
    else reported
  }

  ghost function GatewayWants(report: GatewayReport, gw: Gateway, listeners: seq<ListenerStatus>, typ: string, now: nat)
    : Option<Condition>
  {
    if typ == "Accepted" then WantsAccepted(report, gw, now)
    else if typ == "Programmed" then WantsProgrammed(report, gw, now)
    else if typ == "ResolvedRefs" then WantsResolved(report, listeners)
    else if typ == "InsecureFrontendValidationMode" then WantsInsecure(report, gw, now)
    else Find(report.conditions, typ)
  }

  /** The built Gateway status: one entry for each listener of the spec, and every condition
      type says what is wanted; a stale condition of a type the reporter owns is dropped. */
  ghost predicate TellsGateway(status: Status, report: GatewayReport, gw: Gateway, attached: map<string, nat>, now: nat)
  {
    && status.addresses == gw.status.addresses
    && (status.attachedListenerSets ==
        if report.attachedListenerSets > 0 then Some(report.attachedListenerSets) else None)
    && |status.listeners| == |gw.listeners|
    && (forall i :: 0 <= i < |gw.listeners| ==>
          TellsListener(status.listeners[i], report.listeners, attached, gw.listeners[i], gw.status.listeners,
                        report.observedGeneration, now))
    && UniqueTypes(status.conditions)
    && forall typ :: Find(status.conditions, typ) == GatewaySays(status, report, gw, typ, now)
  }

  ghost function GatewaySays(status: Status, report: GatewayReport, gw: Gateway, typ: string, now: nat)
    : Option<Condition>
  {
    Expected(GatewayWants(report, gw, status.listeners, typ, now), Find(gw.status.conditions, typ),
             if typ == "Programmed" || typ == "ResolvedRefs" || typ == "InsecureFrontendValidationMode" then None
             else Find(gw.status.conditions, typ), report.observedGeneration, now)
  }

  lemma {:induction false} AddressesSay(conds: seq<Condition>, addresses: seq<Option<AddressType>>, now: nat,
                                        typ: string)
    ensures Find(WithAddresses(conds, addresses, now), typ) ==
            if typ == "Programmed" && Some(Hostname) in addresses
            then Some(Overriding(Find(conds, typ), Plain(typ, "False", "AddressNotUsable",
                                                         "Hostname addresses may not be used"), now))
            else if typ == "Accepted" && Some(OtherAddress) in addresses
            then Some(Overriding(Find(conds, typ), Plain(typ, "False", "UnsupportedAddress", "Unknown address kind"),
                                 now))
            else Find(conds, typ)
    decreases |addresses|
  {
    if addresses != [] {
      var front, last := addresses[..|addresses| - 1], addresses[|addresses| - 1];
      AddressesSay(conds, front, now, typ);
      assert addresses == front + [last];
      if last.Some? && AddressCondition(last.value).Some? {
        FoundAfterSet(WithAddresses(conds, front, now), AddressCondition(last.value).value, now, typ);
      }
    }
  }

  lemma InvalidSays(report: GatewayReport, gw: Gateway, now: nat, typ: string)
    requires UniqueListeners(report.listeners)
    ensures var inv := InvalidListeners(report.listeners, gw.listeners, now);
            Find(WithInvalid(report.conditions, inv, now), typ) ==
            if typ == "Accepted" then DownAccepted(report, gw, now) else Find(report.conditions, typ)
  {
    InvalidAreDown(report.listeners, gw.listeners, now);
    var inv := InvalidListeners(report.listeners, gw.listeners, now);
    FoundAfterSet(report.conditions, Plain(ACCEPTED, TRUE, LISTENERS_NOT_VALID, NotProgrammedMessage(inv)), now, typ);
  }

  /** The conditions before the defaults, type by type. */
  lemma OwnSays(report: GatewayReport, gw: Gateway, now: nat, typ: string)
    requires UniqueListeners(report.listeners)
    ensures Find(OwnGateway(report, gw, now), typ) ==
            if typ == "Accepted" then OwnAccepted(report, gw, now)
            else if typ == "Programmed" && Some(Hostname) !in gw.addresses then Find(report.conditions, typ)
            else if typ == "Programmed" then WantsProgrammed(report, gw, now)
            else if typ == "InsecureFrontendValidationMode" then WantsInsecure(report, gw, now)
            else Find(report.conditions, typ)
  {
    var a := WithInvalid(report.conditions, InvalidListeners(report.listeners, gw.listeners, now), now);
    InvalidSays(report, gw, now, typ);
    AddressesSay(a, gw.addresses, now, typ);
    FoundAfterSet(WithAddresses(a, gw.addresses, now),
                  Plain(INSECURE_FRONTEND, TRUE, "ConfigurationChanged",
                        "Gateway frontend validation is configured to allow insecure fallback"), now, typ);
  }

  /** The defaults, type by type. */
  lemma GatewayDefaultsSay(own: seq<Condition>, current: seq<Condition>, listeners: seq<ListenerStatus>, now: nat,
                           typ: string)
    ensures Find(GatewayDefaults(own, current, listeners, now), typ) ==
            if Find(own, typ).Some? then Find(own, typ)
            else if typ == "Accepted" && !HoldsInvalidParameters(current)
            then Some(Condition(typ, "True", "Accepted", "Successfully accepted Gateway", 0, now))
            else if typ == "Programmed"
            then Some(Condition(typ, "True", "Programmed", "Successfully programmed Gateway", 0, now))
            else if typ == "ResolvedRefs" && exists l :: l in listeners && Unresolved(l)
            then Some(Condition(typ, "False", "ListenersNotResolved",
                                "One or more listeners have unresolved references", 0, now))
            else if typ == "ResolvedRefs"
            then Some(Condition(typ, "True", "ResolvedRefs", "Successfully resolved all Gateway references", 0, now))
            else None
  {
    var accepted := Plain(ACCEPTED, TRUE, "Accepted", "Successfully accepted Gateway");
    var programmed := Plain(PROGRAMMED, TRUE, "Programmed", "Successfully programmed Gateway");
    var refs := if SomeListenerUnresolved(listeners)
                then Plain(RESOLVED_REFS, FALSE, "ListenersNotResolved",
                           "One or more listeners have unresolved references")
                else Plain(RESOLVED_REFS, TRUE, "ResolvedRefs", "Successfully resolved all Gateway references");
    FoundType(current, "Accepted");
    assert HasInvalidParameters(current) <==> HoldsInvalidParameters(current);
    UnresolvedMeans(listeners);
    var a := if HasInvalidParameters(current) then own else Default(own, accepted, now);
    FoundAfterDefault(own, accepted, now, typ);
    FoundAfterDefault(a, programmed, now, typ);
    FoundAfterDefault(Default(a, programmed, now), refs, now, typ);
  }

  lemma UnresolvedMeans(listeners: seq<ListenerStatus>)
    ensures SomeListenerUnresolved(listeners) <==> exists l :: l in listeners && Unresolved(l)
  {
    if SomeListenerUnresolved(listeners) {
      var l :| l in listeners && Find(l.conditions, RESOLVED_REFS).Some?
        && Find(l.conditions, RESOLVED_REFS).value.status == FALSE;
      assert Unresolved(l);
    }
    if exists l :: l in listeners && Unresolved(l) {
      var l :| l in listeners && Unresolved(l);
      assert Find(l.conditions, RESOLVED_REFS).Some?;
    }
  }

  lemma DesiredGatewaySays(report: GatewayReport, gw: Gateway, listeners: seq<ListenerStatus>, now: nat, typ: string,
                           was: Option<Condition>, kept: Option<Condition>, generation: int)
    requires UniqueListeners(report.listeners)
    ensures Expected(Find(DesiredGateway(report, gw, listeners, now), typ), was, kept, generation, now) ==
            Expected(GatewayWants(report, gw, listeners, typ, now), was, kept, generation, now)
  {
    OwnSays(report, gw, now, typ);
    GatewayDefaultsSay(OwnGateway(report, gw, now), gw.status.conditions, listeners, now, typ);
  }

  /** A type that is not wanted says what the current status says, unless the reporter owns it. */
  lemma KeptOnGateway(current: seq<Condition>, typ: string)
    requires typ == "Accepted" ==> HoldsInvalidParameters(current)
    ensures FindKept(current, typ, KeepOnGateway) ==
            if typ == "Programmed" || typ == "ResolvedRefs" || typ == "InsecureFrontendValidationMode" then None
            else Find(current, typ)
  {
    if typ == "Programmed" || typ == "ResolvedRefs" || typ == "InsecureFrontendValidationMode" {
      FindKeptNone(current, typ, KeepOnGateway);
    } else if typ == "Accepted" {
      FoundType(current, typ);
      FirstKept(current, typ, KeepOnGateway);
    } else {
      FindKeptAll(current, typ, KeepOnGateway);
    }
  }

  lemma {:induction false} FirstKept(conds: seq<Condition>, typ: string, keep: Condition -> bool)
    requires Find(conds, typ).Some? && keep(Find(conds, typ).value)
    ensures FindKept(conds, typ, keep) == Find(conds, typ)
    decreases |conds|
  {
    if conds[0].typ != typ { FirstKept(conds[1..], typ, keep); }
  }

  lemma GatewayTold(report: GatewayReport, gw: Gateway, attached: map<string, nat>, now: nat)
    requires Reported(report.conditions, report.listeners)
    ensures TellsGateway(BuiltGateway(report, gw, attached, now), report, gw, attached, now)
  {
    var built, g := BuiltGateway(report, gw, attached, now), report.observedGeneration;
    GatewayConditionsStamped(report, gw, attached, now);
    forall i | 0 <= i < |gw.listeners|
      ensures TellsListener(built.listeners[i], report.listeners, attached, gw.listeners[i], gw.status.listeners, g,
                            now)
    {
      BuiltListenerEntry(report.listeners, attached, gw.listeners, gw.status.listeners, g, now, i);
      ListenerTold(report.listeners, attached, gw.listeners[i], gw.status.listeners, g, now);
    }
    forall typ ensures Find(built.conditions, typ) == GatewaySays(built, report, gw, typ, now) {
      GatewayTypeTold(report, gw, attached, now, typ);
    }
  }

  lemma GatewayTypeTold(report: GatewayReport, gw: Gateway, attached: map<string, nat>, now: nat, typ: string)
    requires Reported(report.conditions, report.listeners)
    ensures var built := BuiltGateway(report, gw, attached, now);
            Find(built.conditions, typ) == GatewaySays(built, report, gw, typ, now)
  {
    var built, g := BuiltGateway(report, gw, attached, now), report.observedGeneration;
    var desired, current := DesiredGateway(report, gw, built.listeners, now), gw.status.conditions;
    DesiredGatewayFacts(report, gw, gw, built.listeners, now, now);
    BuildSays(desired, current, g, now, KeepOnGateway, typ);
    DesiredGatewaySays(report, gw, built.listeners, now, typ, Find(current, typ), FindKept(current, typ, KeepOnGateway),
                       g);
    if GatewayWants(report, gw, built.listeners, typ, now).None? {
      UnwantedAccepted(report, gw, built.listeners, now, typ);
      KeptOnGateway(current, typ);
    }
  }

  lemma UnwantedAccepted(report: GatewayReport, gw: Gateway, listeners: seq<ListenerStatus>, now: nat, typ: string)
    requires GatewayWants(report, gw, listeners, typ, now).None?
    ensures typ == "Accepted" ==> HoldsInvalidParameters(gw.status.conditions)
  {}

  // ---- ListenerSets

  ghost predicate Rejected(report: ListenerSetReport) {
    var c := Find(report.conditions, "Accepted");
    c.Some? && c.value.status == "False"
  }

  /** The listeners a set's status is about: none once the set is rejected. */
  ghost function ListenersShown(report: ListenerSetReport, ls: ListenerSet): seq<string> {
    if Rejected(report) then [] else ls.listeners
  }

  ghost predicate AllDown(report: ListenerSetReport, ls: ListenerSet) {
    var names := ListenersShown(report, ls);
    names != [] && forall i :: 0 <= i < |names| ==> Down(report.listeners, names[i])
  }

  /** Some unprogrammed listeners leave a set accepted and say so. */
  ghost function SomeDown(report: ListenerSetReport, ls: ListenerSet, typ: string, now: nat): Option<Condition> {
    var reported, names := Find(report.conditions, typ), ListenersShown(report, ls);
    if typ == "Accepted" && DownNames(report.listeners, names) != []
    then Some(Overriding(reported, Condition(typ, "True", "ListenersNotValid", DownText(report.listeners, names), 0, 0),
                         now))
    else reported
  }

  /** When none is programmed the set is neither accepted nor programmed. */
  ghost function SetOwn(report: ListenerSetReport, ls: ListenerSet, typ: string, now: nat): Option<Condition> {
    var some := SomeDown(report, ls, typ, now);
    if (typ == "Accepted" || typ == "Programmed") && AllDown(report, ls)
    then Some(Overriding(some, Condition(typ, "False", "ListenersNotValid", "No valid listeners", 0, 0), now))
    else some
  }

  /** Silence means healthy. */
  ghost function OrHealthySet(own: Option<Condition>, typ: string): Option<Condition> {
    if own.Some? then own
    else if typ == "Accepted" then Some(Condition(typ, "True", "Accepted", "Successfully accepted ListenerSet", 0, 0))
    else if typ == "Programmed"
    then Some(Condition(typ, "True", "Programmed", "Successfully programmed ListenerSet", 0, 0))
    else None
  }

  ghost function SetWants(report: ListenerSetReport, ls: ListenerSet, typ: string, now: nat): Option<Condition> {
    OrHealthySet(SetOwn(report, ls, typ, now), typ)
  }

  ghost predicate TellsSet(status: SetStatusValue, report: ListenerSetReport, ls: ListenerSet, now: nat) {
    var names := ListenersShown(report, ls);
    && |status.listeners| == |names|
    && (forall i :: 0 <= i < |names| ==>
          TellsListener(status.listeners[i], report.listeners, map[], names[i], ls.status.listeners,
                        report.observedGeneration, now))
    && UniqueTypes(status.conditions)
    && forall typ :: Find(status.conditions, typ) == SetSays(report, ls, typ, now)
  }

  ghost function SetSays(report: ListenerSetReport, ls: ListenerSet, typ: string, now: nat): Option<Condition> {
    Expected(SetWants(report, ls, typ, now), Find(ls.status.conditions, typ), Find(ls.status.conditions, typ),
             report.observedGeneration, now)
  }

  lemma {:induction false} DownCount(listeners: ListenerReports, names: seq<string>)
    ensures |DownNames(listeners, names)| <= |names|
    ensures |DownNames(listeners, names)| == |names| <==> forall i :: 0 <= i < |names| ==> Down(listeners, names[i])
    decreases |names|
  {
    if names != [] {
      var n := |names| - 1;
      DownCount(listeners, names[..n]);
      assert forall i :: 0 <= i < n ==> names[..n][i] == names[i];
    }
  }

  lemma SomeDownSays(report: ListenerSetReport, ls: ListenerSet, now: nat, typ: string)
    requires UniqueListeners(report.listeners)
    ensures var invalid := InvalidListeners(report.listeners, ListenersShown(report, ls), now);
            Find(WithInvalid(report.conditions, invalid, now), typ) == SomeDown(report, ls, typ, now)
  {
    InvalidAreDown(report.listeners, ListenersShown(report, ls), now);
    var invalid := InvalidListeners(report.listeners, ListenersShown(report, ls), now);
    FoundAfterSet(report.conditions, Plain(ACCEPTED, TRUE, LISTENERS_NOT_VALID, NotProgrammedMessage(invalid)), now,
                  typ);
  }

  lemma AllDownCount(report: ListenerSetReport, ls: ListenerSet, now: nat)
    requires UniqueListeners(report.listeners)
    ensures var names := ListenersShown(report, ls);
            AllDown(report, ls) <==>
            |names| != 0 && |InvalidListeners(report.listeners, names, now).names| == |names|
  {
    InvalidAreDown(report.listeners, ListenersShown(report, ls), now);
    DownCount(report.listeners, ListenersShown(report, ls));
  }

  lemma SetOwnSays(report: ListenerSetReport, ls: ListenerSet, now: nat, typ: string)
    requires UniqueListeners(report.listeners)
    ensures var names := ListenersShown(report, ls);
            var invalid := InvalidListeners(report.listeners, names, now);
            Find(WithNoValid(WithInvalid(report.conditions, invalid, now), invalid, |names|, now), typ) ==
            SetOwn(report, ls, typ, now)
  {
    var names := ListenersShown(report, ls);
    var invalid := InvalidListeners(report.listeners, names, now);
    SomeDownSays(report, ls, now, typ);
    AllDownCount(report, ls, now);
    NoValidSays(WithInvalid(report.conditions, invalid, now), invalid, |names|, now, typ);
  }

  lemma DesiredSetSays(report: ListenerSetReport, ls: ListenerSet, now: nat, typ: string, was: Option<Condition>,
                       generation: int)
    requires UniqueListeners(report.listeners)
    ensures Expected(Find(DesiredSet(report, ls, now), typ), was, was, generation, now) ==
            Expected(SetWants(report, ls, typ, now), was, was, generation, now)
  {
    var names := SetListeners(report, ls);
    assert names == ListenersShown(report, ls);
    var invalid := InvalidListeners(report.listeners, names, now);
    var own := WithNoValid(WithInvalid(report.conditions, invalid, now), invalid, |names|, now);
    SetOwnSays(report, ls, now, typ);
    SetDefaultsSay(own, now, typ, was, generation);
    assert DesiredSet(report, ls, now) == SetDefaults(own, now);
  }

  lemma NoValidSays(conds: seq<Condition>, invalid: Invalid, count: nat, now: nat, typ: string)
    ensures Find(WithNoValid(conds, invalid, count, now), typ) ==
            if (typ == "Accepted" || typ == "Programmed") && count != 0 && |invalid.names| == count
            then Some(Overriding(Find(conds, typ), Plain(typ, "False", "ListenersNotValid", "No valid listeners"), now))
            else Find(conds, typ)
  {
    var x := Plain(ACCEPTED, FALSE, LISTENERS_NOT_VALID, NO_VALID_LISTENERS);
    FoundAfterSet(conds, x, now, typ);
    FoundAfterSet(Set(conds, x, now), Plain(PROGRAMMED, FALSE, LISTENERS_NOT_VALID, NO_VALID_LISTENERS), now, typ);
  }

  lemma SetDefaultsSay(conds: seq<Condition>, now: nat, typ: string, was: Option<Condition>, generation: int)
    ensures Expected(Find(SetDefaults(conds, now), typ), was, was, generation, now) ==
            Expected(OrHealthySet(Find(conds, typ), typ), was, was, generation, now)
  {
    var x := Plain(ACCEPTED, TRUE, "Accepted", "Successfully accepted ListenerSet");
    var y := Plain(PROGRAMMED, TRUE, "Programmed", "Successfully programmed ListenerSet");
    FoundAfterDefault(conds, x, now, typ);
    FoundAfterDefault(Default(conds, x, now), y, now, typ);
  }

  lemma ListenerSetTold(report: ListenerSetReport, ls: ListenerSet, now: nat)
    requires Reported(report.conditions, report.listeners)
    ensures TellsSet(BuiltSet(report, ls, now), report, ls, now)
  {
    var built, g, names := BuiltSet(report, ls, now), report.observedGeneration, ListenersShown(report, ls);
    assert names == SetListeners(report, ls);
    var desired, current := DesiredSet(report, ls, now), ls.status.conditions;
    DesiredSetFacts(report, ls, ls, now, now);
    BuildShape(desired, current, g, now, KeepAny);
    forall i | 0 <= i < |names|
      ensures TellsListener(built.listeners[i], report.listeners, map[], names[i], ls.status.listeners, g, now)
    {
      BuiltListenerEntry(report.listeners, map[], names, ls.status.listeners, g, now, i);
      ListenerTold(report.listeners, map[], names[i], ls.status.listeners, g, now);
    }
    forall typ ensures Find(built.conditions, typ) == SetSays(report, ls, typ, now) {
      BuildSays(desired, current, g, now, KeepAny, typ);
      FindKeptAll(current, typ, KeepAny);
      DesiredSetSays(report, ls, now, typ, Find(current, typ), g);
    }
  }
}
