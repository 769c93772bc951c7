/** The identity an Envoy gets when it connects: role, namespace, labels and locality
    folded into the snapshot cache key (pkg/krtcollections/uniqueclients.go,
    pkg/pluginsdk/ir/model.go). */
module ClientIdentity {
  import opened Common
  import opened Text

  type Labels = map<string, string>

  datatype Locality = Locality(region: string, zone: string, subzone: string)

  datatype Pod = Pod(namespace: string, labels: Labels, locality: Locality)

  datatype PodRef = PodRef(namespace: string, name: string)

  /** ir.UniquelyConnectedClient. */
  datatype Client = Client(role: string, namespace: string, labels: Labels, locality: Locality,
                           knowsLocalCluster: bool, resourceName: string)

  /** The mTLS caller recorded when a stream opens under xDS auth. */
  datatype Caller = Caller(podNamespace: string, podName: string, serviceAccount: string)

  datatype Peer = Peer(role: string, podRef: Option<PodRef>)

  /** A discovery request: role and node id from node metadata, whether it asks for
      endpoints, the names it asks for, and whether the Envoy version passes the gate. */
  datatype Request = Request(role: string, node: Option<PodRef>, endpoints: bool, names: seq<string>, versionOk: bool)

  /** What the environment fixes: the auth mode, whether pod locality is used, the label
      hash and the expected local-cluster name of a client. */
  datatype Config = Config(xdsAuth: bool, usePods: bool, hash: Labels -> nat, localCluster: Client -> string)

  type Pods = map<PodRef, Pod>

  const GATEWAY_PROXY := "kgateway-kube-gateway-api"
  const KEY_DELIMITER := "~"
  const GATEWAY_NAME_ANNOTATION := "gateway.kgateway.dev/gateway-full-name"
  const GATEWAY_NAME_LABEL := "gateway.networking.k8s.io/gateway-name"
  const NO_LOCALITY := Locality("", "", "")

  predicate IsGatewayCacheKey(key: string) { GATEWAY_PROXY <= key }

  function OwnerNamespaceNameID(owner: string, namespace: string, name: string): string {
    owner + KEY_DELIMITER + namespace + KEY_DELIMITER + name
  }

  function Lookup(labels: Labels, key: string): string {
    if key in labels then labels[key] else ""
  }

  function GatewayNameFromLabels(labels: Labels): string {
    if Lookup(labels, GATEWAY_NAME_ANNOTATION) != "" then Lookup(labels, GATEWAY_NAME_ANNOTATION)
    else Lookup(labels, GATEWAY_NAME_LABEL)
  }

  function NormalizeGatewayRole(role: string, namespace: string, labels: Labels): string {
    var name := GatewayNameFromLabels(labels);
    if name == "" then role else OwnerNamespaceNameID(GATEWAY_PROXY, namespace, name)
  }

  /** The cache key: an empty namespace leaves the role alone. */
  function ResourceName(cfg: Config, role: string, namespace: string, labels: Labels): string {
    if namespace == "" then role
    else role + KEY_DELIMITER + Natural(cfg.hash(labels)) + KEY_DELIMITER + namespace
  }

  function NewClient(cfg: Config, role: string, namespace: string, labels: Labels, locality: Locality): Client {
    Client(role, namespace, labels, locality, false, ResourceName(cfg, role, namespace, labels))
  }

  /** The client a role and an optional pod record describe. */
  function ClientFor(cfg: Config, role: string, pod: Option<Pod>): Client {
    match pod
    case None => NewClient(cfg, role, "", map[], NO_LOCALITY)
    case Some(p) => NewClient(cfg, NormalizeGatewayRole(role, p.namespace, p.labels), p.namespace, p.labels, p.locality)
  }

  /** getPeerInfo: None is the error of an unknown peer under auth. */
  function PeerInfo(cfg: Config, peers: map<int, Caller>, sid: int, r: Request): Option<Peer> {
    if !cfg.xdsAuth then
      Some(Peer(r.role, if cfg.usePods then r.node else None))
    else if sid !in peers then None
    else
      var c := peers[sid];
      Some(Peer(OwnerNamespaceNameID(GATEWAY_PROXY, c.podNamespace, c.serviceAccount),
                if cfg.usePods then Some(PodRef(c.podNamespace, c.podName)) else None))
  }

  /** deriveClientIdentity: the pod record in use, or a failure when it is missing. */
  datatype Derivation = Resolved(pod: Option<Pod>) | PodMissing

  function Derive(pods: Pods, peer: Peer): Derivation {
    match peer.podRef
    case None => Resolved(None)
    case Some(ref) => if ref in pods then Resolved(Some(pods[ref])) else PodMissing
  }

  /** A gateway role always turns into a non-empty gateway cache key, so a stream whose
      node metadata was rewritten is still recognised on its next request. */
  lemma RewrittenRoleIsGatewayKey(cfg: Config, role: string, pod: Option<Pod>)
    requires IsGatewayCacheKey(role)
    ensures IsGatewayCacheKey(ClientFor(cfg, role, pod).resourceName)
    ensures ClientFor(cfg, role, pod).resourceName != ""
  {
    match pod {
      case None =>
      case Some(p) =>
        var name := GatewayNameFromLabels(p.labels);
        var norm := NormalizeGatewayRole(role, p.namespace, p.labels);
        if name != "" {
          assert norm == GATEWAY_PROXY + (KEY_DELIMITER + p.namespace + KEY_DELIMITER + name);
        }
        assert IsGatewayCacheKey(norm);
        var key := ResourceName(cfg, norm, p.namespace, p.labels);
        if p.namespace != "" {
          assert key == norm + (KEY_DELIMITER + Natural(cfg.hash(p.labels)) + KEY_DELIMITER + p.namespace);
        }
        assert norm <= key;
    }
  }

  /** The client of a pod carries the pod's namespace, labels and locality; its role is the
      gateway's that the labels name, where they name one; its key ends with the namespace. */
  lemma ClientCarriesPod(cfg: Config, role: string, p: Pod)
    ensures var c := ClientFor(cfg, role, Some(p));
            && c.namespace == p.namespace && c.labels == p.labels && c.locality == p.locality && !c.knowsLocalCluster
            && (GATEWAY_NAME_ANNOTATION in p.labels && p.labels[GATEWAY_NAME_ANNOTATION] != "" ==>
                  c.role == GATEWAY_PROXY + "~" + p.namespace + "~" + p.labels[GATEWAY_NAME_ANNOTATION])
            && (GATEWAY_NAME_ANNOTATION !in p.labels && GATEWAY_NAME_LABEL in p.labels
                && p.labels[GATEWAY_NAME_LABEL] != "" ==>
                  c.role == GATEWAY_PROXY + "~" + p.namespace + "~" + p.labels[GATEWAY_NAME_LABEL])
            && (GATEWAY_NAME_ANNOTATION !in p.labels && GATEWAY_NAME_LABEL !in p.labels ==> c.role == role)
            && (p.namespace != "" ==> c.resourceName == c.role + "~" + Natural(cfg.hash(p.labels)) + "~" + p.namespace)
            && (p.namespace == "" ==> c.resourceName == c.role)
  {
  }

  /** Without a pod the client is its role. */
  lemma ClientWithoutPod(cfg: Config, role: string)
    ensures ClientFor(cfg, role, None) == Client(role, "", map[], Locality("", "", ""), false, role)
  {
  }
}
