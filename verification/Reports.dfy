/** The typed report fragments of one translation (pkg/reports/reporter.go, policy.go). */
module Reports {
  import opened Common
  import opened Conditions

  datatype RouteGroupKind = RouteGroupKind(group: Option<string>, kind: string)

  datatype ListenerStatus = ListenerStatus(name: string, supportedKinds: seq<RouteGroupKind>, attachedRoutes: int,
                                           conditions: seq<Condition>)

  /** A report pointer in a map may be nil. */
  type ListenerReports = map<string, Option<ListenerStatus>>

  datatype GatewayReport = GatewayReport(conditions: seq<Condition>, listeners: ListenerReports,
                                         observedGeneration: int, attachedListenerSets: int)

  datatype ListenerSetReport = ListenerSetReport(conditions: seq<Condition>, listeners: ListenerReports,
                                                 observedGeneration: int)

  datatype ParentRefKey = ParentRefKey(group: string, kind: string, namespace: string, name: string,
                                       sectionName: string)

  datatype ParentReference = ParentReference(group: Option<string>, kind: Option<string>, namespace: Option<string>,
                                             name: string, sectionName: Option<string>, port: Option<int>)

  datatype ParentRefReport = ParentRefReport(conditions: seq<Condition>)

  datatype RouteKind = HTTPRoute | GRPCRoute | TCPRoute | TLSRoute

  datatype RouteReport = RouteReport(parents: map<ParentRefKey, Option<ParentRefReport>>, observedGeneration: int)

  /** The attachment bits; none set is the pending state. */
  datatype Attachment = Attachment(attached: bool, merged: bool, overridden: bool)

  datatype AncestorRefReport = AncestorRefReport(conditions: seq<Condition>, state: Attachment)

  datatype PolicyReport = PolicyReport(ancestors: map<ParentRefKey, Option<AncestorRefReport>>, observedGeneration: int)

  datatype BackendReport = BackendReport(conditions: seq<Condition>, observedGeneration: int)

  /** The list a reporter builds: types are unique (Conditions.ReportsHaveUniqueTypes). */
  ghost predicate UniqueListeners(listeners: ListenerReports) {
    forall n :: n in listeners && listeners[n].Some? ==> UniqueTypes(listeners[n].value.conditions)
  }
}
