/** What the registry of a run says about the requests of the run
    (pkg/krtcollections/uniqueclients.go): which streams are known to have named their local
    cluster, and which pods the listed clients were derived from. */
module ClientHistory {
  import opened Common
  import opened Text
  import opened ClientIdentity
  import opened ClientRegistry
  import opened ClientProtocol

  /** The stream is not removed from step k on. */
  ghost predicate Stays(cfg: Config, steps: seq<Step>, sid: Sid, k: nat) {
    forall j :: k <= j < |steps| && sid in After(cfg, steps[..j]).reg.clients ==>
                  sid in After(cfg, steps[..j + 1]).reg.clients
  }

  /** The request arrived at step k, in the stream's present life. */
  ghost predicate Sent(cfg: Config, steps: seq<Step>, sid: Sid, r: Request, k: nat) {
    k < |steps| && steps[k] == Begin(sid, r) && Stays(cfg, steps, sid, k)
  }

  /** The request asks for endpoints and names the local cluster of the stream's bucket. */
  ghost predicate NamesLocalCluster(cfg: Config, g: Registry, sid: Sid, r: Request) {
    && sid in g.clients && g.clients[sid].name in g.buckets
    && r.endpoints
    && cfg.localCluster(g.buckets[g.clients[sid].name]) != ""
    && cfg.localCluster(g.buckets[g.clients[sid].name]) in r.names
  }

  ghost function Carried(pc: Pc): Option<Request> {
    match pc
    case WantRead(r, _) => Some(r)
    case Reading(r, _) => Some(r)
    case Read(r, _, _) => Some(r)
    case Decide(r, _, _, _) => Some(r)
    case WantPublish(r, _, _) => Some(r)
    case Publishing(r, _, _) => Some(r)
    case Joined(r, _, _) => Some(r)
    case WantConfirm(r, _, _) => Some(r)
    case Confirming(r, _, _) => Some(r)
    case _ => None
  }

  /** A bucket does not change while one of its streams is live. */
  lemma BucketStays(cfg: Config, g: Registry, mover: Sid, pc: Pc, sid: Sid)
    requires Valid(g) && PcInv(g, mover, pc)
    requires sid in g.clients && sid in NextReg(cfg, g, mover, pc).clients
    ensures var g', n := NextReg(cfg, g, mover, pc), g.clients[sid].name;
            g'.clients[sid] == g.clients[sid] && n in g.buckets && n in g'.buckets && g'.buckets[n] == g.buckets[n]
  {
    var n := g.clients[sid].name;
    assert n in Names(g.clients);
    assert sid in Members(g.clients, n);
    assert g.counts[n] > 0;
    if pc.Removing? && mover in g.clients && g.clients[mover].name == n {
      assert {mover, sid} <= Members(g.clients, n);
      AtLeastTwo(Members(g.clients, n), mover, sid);
    }
  }

  lemma AtLeastTwo(s: set<Sid>, a: Sid, b: Sid)
    requires a in s && b in s && a != b
    ensures |s| >= 2
  {
    assert s == (s - {a}) + {a};
    assert b in s - {a};
  }

  lemma NamesStay(cfg: Config, g: Registry, mover: Sid, pc: Pc, sid: Sid, r: Request)
    requires Valid(g) && PcInv(g, mover, pc)
    requires sid in g.clients && sid in NextReg(cfg, g, mover, pc).clients
    ensures NamesLocalCluster(cfg, NextReg(cfg, g, mover, pc), sid, r) <==> NamesLocalCluster(cfg, g, sid, r)
  {
    BucketStays(cfg, g, mover, pc, sid);
  }

  ghost predicate SentSome(cfg: Config, steps: seq<Step>, sid: Sid, r: Request) {
    exists k: nat :: Sent(cfg, steps, sid, r, k)
  }

  /** What a stream's callback carries was sent, and what is known was named. */
  ghost predicate History(cfg: Config, steps: seq<Step>, sid: Sid) {
    var s := After(cfg, steps);
    && (Carried(PcOf(s, sid)).Some? ==> SentSome(cfg, steps, sid, Carried(PcOf(s, sid)).value))
    && (PcOf(s, sid).WantConfirm? || PcOf(s, sid).Confirming? ==> PcOf(s, sid).r.endpoints)
    && (sid in s.reg.known ==> exists r :: SentSome(cfg, steps, sid, r) && NamesLocalCluster(cfg, s.reg, sid, r))
  }

  lemma SentExtends(cfg: Config, steps: seq<Step>, step: Step, sid: Sid, r: Request)
    requires SentSome(cfg, steps, sid, r)
    requires sid in After(cfg, steps).reg.clients ==> sid in After(cfg, steps + [step]).reg.clients
    ensures SentSome(cfg, steps + [step], sid, r)
  {
    var k: nat :| Sent(cfg, steps, sid, r, k);
    var all := steps + [step];
    forall j | k <= j < |all| && sid in After(cfg, all[..j]).reg.clients
      ensures sid in After(cfg, all[..j + 1]).reg.clients
    {
      if j < |steps| {
        assert all[..j] == steps[..j] && all[..j + 1] == steps[..j + 1];
      } else {
        assert all[..j] == steps && all[..j + 1] == all;
      }
    }
    assert Sent(cfg, all, sid, r, k);
  }

  lemma JustSent(cfg: Config, steps: seq<Step>, sid: Sid, r: Request)
    ensures SentSome(cfg, steps + [Begin(sid, r)], sid, r)
  {
    var all := steps + [Begin(sid, r)];
    assert all[..|steps|] == steps && all[..|steps| + 1] == all;
    assert After(cfg, all) == Do(cfg, After(cfg, steps), Begin(sid, r));
    assert Sent(cfg, all, sid, r, |steps|);
  }

  lemma CarriedStep(cfg: Config, g: Registry, pods: Pods, sid: Sid, pc: Pc)
    ensures var pc' := NextPc(cfg, g, pods, sid, pc);
            && (Carried(pc').Some? ==> Carried(pc') == Carried(pc) && !pc.Removing?)
            && ((pc'.WantConfirm? || pc'.Confirming?) && (pc.WantConfirm? ==> pc.r.endpoints) ==> pc'.r.endpoints)
  {
  }

  /** Only a request that names the local cluster makes its stream known. */
  lemma KnownStep(cfg: Config, g: Registry, sid: Sid, pc: Pc)
    requires Valid(g) && PcInv(g, sid, pc) && (pc.Confirming? ==> pc.r.endpoints)
    requires sid in NextReg(cfg, g, sid, pc).known && sid !in g.known
    ensures pc.Confirming? && NamesLocalCluster(cfg, NextReg(cfg, g, sid, pc), sid, pc.r)
  {
  }

  lemma StaysUnlessRemoved(cfg: Config, g: Registry, sid: Sid, pc: Pc)
    requires PcInv(g, sid, pc) && sid in g.clients && !pc.Removing?
    ensures sid in NextReg(cfg, g, sid, pc).clients
  {
  }

  /** A step of the stream's own callback. */
  lemma OwnHistory(cfg: Config, steps: seq<Step>, sid: Sid)
    requires ValidRun(cfg, steps + [Run(sid)]) && History(cfg, steps, sid)
    ensures History(cfg, steps + [Run(sid)], sid)
  {
    LastStep(cfg, steps, Run(sid));
    RunInv(cfg, steps);
    var s, all := After(cfg, steps), steps + [Run(sid)];
    var pc, s' := PcOf(s, sid), After(cfg, all);
    assert StreamInv(cfg, s, sid);
    assert s'.reg == NextReg(cfg, s.reg, sid, pc) && PcOf(s', sid) == NextPc(cfg, s.reg, s.pods, sid, pc);
    CarriedStep(cfg, s.reg, s.pods, sid, pc);
    if pc.Removing? {
      assert sid !in s'.reg.known;
    } else {
      if sid in s.reg.clients { StaysUnlessRemoved(cfg, s.reg, sid, pc); }
      if Carried(pc).Some? { SentExtends(cfg, steps, Run(sid), sid, Carried(pc).value); }
      if sid in s'.reg.known { OwnKnown(cfg, steps, sid); }
    }
  }

  lemma OwnKnown(cfg: Config, steps: seq<Step>, sid: Sid)
    requires ValidRun(cfg, steps) && History(cfg, steps, sid) && !PcOf(After(cfg, steps), sid).Removing?
    requires After(cfg, steps + [Run(sid)]).reg ==
             NextReg(cfg, After(cfg, steps).reg, sid, PcOf(After(cfg, steps), sid))
    requires sid in After(cfg, steps + [Run(sid)]).reg.known
    ensures exists r :: SentSome(cfg, steps + [Run(sid)], sid, r)
                        && NamesLocalCluster(cfg, After(cfg, steps + [Run(sid)]).reg, sid, r)
  {
    RunInv(cfg, steps);
    var s := After(cfg, steps);
    var pc := PcOf(s, sid);
    assert StreamInv(cfg, s, sid);
    if sid in s.reg.clients { StaysUnlessRemoved(cfg, s.reg, sid, pc); }
    var r;
    if sid in s.reg.known {
      r :| SentSome(cfg, steps, sid, r) && NamesLocalCluster(cfg, s.reg, sid, r);
      NamesStay(cfg, s.reg, sid, pc, sid, r);
    } else {
      KnownStep(cfg, s.reg, sid, pc);
      r := pc.r;
    }
    SentExtends(cfg, steps, Run(sid), sid, r);
  }

  lemma OtherHistory(cfg: Config, steps: seq<Step>, mover: Sid, sid: Sid)
    requires ValidRun(cfg, steps + [Run(mover)]) && History(cfg, steps, sid) && mover != sid
    ensures History(cfg, steps + [Run(mover)], sid)
  {
    LastStep(cfg, steps, Run(mover));
    RunInv(cfg, steps);
    var s, all := After(cfg, steps), steps + [Run(mover)];
    var pc, s' := PcOf(s, mover), After(cfg, all);
    assert StreamInv(cfg, s, mover);
    OtherEntry(cfg, s.reg, mover, pc, sid);
    assert PcOf(s', sid) == PcOf(s, sid) && (sid in s'.reg.known <==> sid in s.reg.known);
    if Carried(PcOf(s, sid)).Some? { SentExtends(cfg, steps, Run(mover), sid, Carried(PcOf(s, sid)).value); }
    if sid in s.reg.known {
      var r :| SentSome(cfg, steps, sid, r) && NamesLocalCluster(cfg, s.reg, sid, r);
      SentExtends(cfg, steps, Run(mover), sid, r);
      NamesStay(cfg, s.reg, mover, pc, sid, r);
    }
  }

  lemma StillHistory(cfg: Config, steps: seq<Step>, step: Step, sid: Sid)
    requires ValidRun(cfg, steps + [step]) && History(cfg, steps, sid) && !step.Run?
    ensures History(cfg, steps + [step], sid)
  {
    LastStep(cfg, steps, step);
    var s, s' := After(cfg, steps), After(cfg, steps + [step]);
    if Quiet(step) { QuietStep(cfg, s, step); }
    assert s'.reg == s.reg;
    if step.Begin? && step.sid == sid { JustSent(cfg, steps, sid, step.r); }
    if Carried(PcOf(s, sid)).Some? { SentExtends(cfg, steps, step, sid, Carried(PcOf(s, sid)).value); }
    if sid in s.reg.known {
      var r :| SentSome(cfg, steps, sid, r) && NamesLocalCluster(cfg, s.reg, sid, r);
      SentExtends(cfg, steps, step, sid, r);
    }
  }

  lemma {:induction false} RunHistory(cfg: Config, steps: seq<Step>, sid: Sid)
    requires ValidRun(cfg, steps)
    ensures History(cfg, steps, sid)
    decreases |steps|
  {
    if steps != [] {
      var front, last := steps[..|steps| - 1], steps[|steps| - 1];
      assert steps == front + [last];
      RunHistory(cfg, front, sid);
      if last.Run? && last.sid == sid {
        OwnHistory(cfg, front, sid);
      } else if last.Run? {
        OtherHistory(cfg, front, last.sid, sid);
      } else {
        StillHistory(cfg, front, last, sid);
      }
    }
  }

  /** A stream is known only if, since it joined, it sent an endpoint request that names the
      local cluster of its bucket. */
  lemma KnownStreamsNamedTheirCluster(cfg: Config, steps: seq<Step>, sid: Sid)
    requires ValidRun(cfg, steps) && sid in After(cfg, steps).reg.known
    ensures exists r, k: nat :: Sent(cfg, steps, sid, r, k) && NamesLocalCluster(cfg, After(cfg, steps).reg, sid, r)
  {
    RunHistory(cfg, steps, sid);
    var r :| SentSome(cfg, steps, sid, r) && NamesLocalCluster(cfg, After(cfg, steps).reg, sid, r);
    var k: nat :| Sent(cfg, steps, sid, r, k);
  }

  // ---- The converse

  /** Where the callback of request r stands: before the confirmation, rejected, or past it with
      the stream known if r names the cluster. */
  ghost predicate Answering(cfg: Config, s: State, sid: Sid, r: Request) {
    var pc := PcOf(s, sid);
    || Carried(pc) == Some(r)
    || pc.Rejecting?
    || (&& (pc.ConfirmTrigger? || pc.Rewrite? || pc.JoinTrigger?)
        && (NamesLocalCluster(cfg, s.reg, sid, r) ==> sid in s.reg.known))
  }

  lemma ConfirmingKnows(cfg: Config, g: Registry, sid: Sid, pc: Pc)
    requires Valid(g) && PcInv(g, sid, pc) && pc.Confirming?
    ensures NamesLocalCluster(cfg, NextReg(cfg, g, sid, pc), sid, pc.r) ==> sid in NextReg(cfg, g, sid, pc).known
  {
  }

  lemma AnsweringOwn(cfg: Config, s: State, sid: Sid, r: Request)
    requires Inv(cfg, s) && Enabled(s, Run(sid)) && Answering(cfg, s, sid, r) && r.endpoints
    ensures PcOf(RunStep(cfg, s, sid), sid).Idle? || Answering(cfg, RunStep(cfg, s, sid), sid, r)
  {
    var pc, s' := PcOf(s, sid), RunStep(cfg, s, sid);
    assert StreamInv(cfg, s, sid);
    assert PcOf(s', sid) == NextPc(cfg, s.reg, s.pods, sid, pc);
    if pc.Confirming? { ConfirmingKnows(cfg, s.reg, sid, pc); }
  }

  lemma AnsweringOther(cfg: Config, s: State, mover: Sid, sid: Sid, r: Request)
    requires Inv(cfg, s) && Enabled(s, Run(mover)) && Answering(cfg, s, sid, r) && mover != sid
    ensures Answering(cfg, RunStep(cfg, s, mover), sid, r)
  {
    var pc, s' := PcOf(s, mover), RunStep(cfg, s, mover);
    assert StreamInv(cfg, s, mover);
    OtherEntry(cfg, s.reg, mover, pc, sid);
    assert PcOf(s', sid) == PcOf(s, sid) && (sid in s'.reg.known <==> sid in s.reg.known);
    if sid in s.reg.clients { NamesStay(cfg, s.reg, mover, pc, sid, r); }
  }

  lemma AnsweringStill(cfg: Config, s: State, step: Step, sid: Sid, r: Request)
    requires Enabled(s, step) && Answering(cfg, s, sid, r) && !step.Run? && !PcOf(s, sid).Idle?
    ensures Answering(cfg, Do(cfg, s, step), sid, r)
  {
    if Quiet(step) { QuietStep(cfg, s, step); }
  }

  /** The callback of the request that arrived at step k is still running. */
  ghost predicate Running(cfg: Config, steps: seq<Step>, sid: Sid, k: nat) {
    forall j :: k < j <= |steps| ==> !PcOf(After(cfg, steps[..j]), sid).Idle?
  }

  lemma {:induction false} AnsweringAlong(cfg: Config, steps: seq<Step>, sid: Sid, r: Request, k: nat)
    requires ValidRun(cfg, steps) && k < |steps| && steps[k] == Begin(sid, r) && r.endpoints
    requires Running(cfg, steps, sid, k)
    ensures Answering(cfg, After(cfg, steps), sid, r)
    decreases |steps|
  {
    var front, last := steps[..|steps| - 1], steps[|steps| - 1];
    assert steps == front + [last] && steps[..|steps|] == steps;
    LastStep(cfg, front, last);
    var s := After(cfg, front);
    if k == |front| {
      QuietStep(cfg, s, last);
      assert PcOf(s, sid).Idle?;
    } else {
      assert forall j :: 0 <= j <= |front| ==> front[..j] == steps[..j];
      assert !PcOf(s, sid).Idle? by { assert front[..|front|] == front; }
      AnsweringAlong(cfg, front, sid, r, k);
      RunInv(cfg, front);
      if last.Run? && last.sid == sid {
        AnsweringOwn(cfg, s, sid, r);
      } else if last.Run? {
        AnsweringOther(cfg, s, last.sid, sid, r);
      } else {
        AnsweringStill(cfg, s, last, sid, r);
      }
    }
  }

  /** When the callback of an endpoint request that names the local cluster of the bucket
      returns, and did not reject the request, the stream is known. */
  lemma NamingTheClusterIsRecorded(cfg: Config, steps: seq<Step>, sid: Sid, r: Request, k: nat)
    requires ValidRun(cfg, steps + [Run(sid)]) && k < |steps| && steps[k] == Begin(sid, r)
    requires Running(cfg, steps, sid, k) && !PcOf(After(cfg, steps), sid).Rejecting?
    requires PcOf(After(cfg, steps + [Run(sid)]), sid).Idle?
    requires NamesLocalCluster(cfg, After(cfg, steps + [Run(sid)]).reg, sid, r)
    ensures sid in After(cfg, steps + [Run(sid)]).reg.known
  {
    LastStep(cfg, steps, Run(sid));
    AnsweringAlong(cfg, steps, sid, r, k);
    RunInv(cfg, steps);
    var s := After(cfg, steps);
    assert StreamInv(cfg, s, sid);
    assert PcOf(After(cfg, steps + [Run(sid)]), sid) == NextPc(cfg, s.reg, s.pods, sid, PcOf(s, sid));
  }

  // ---- Who a stream's caller is

  /** The caller recorded for a stream: that of its last open with one, if it was not closed since. */
  ghost predicate OpenedBy(steps: seq<Step>, sid: Sid, caller: Caller, k: int) {
    && 0 <= k < |steps| && steps[k] == Open(sid, Some(caller))
    && forall j :: k < j < |steps| ==> !Replaces(steps[j], sid)
  }

  lemma OpenedBySnoc(steps: seq<Step>, step: Step, sid: Sid, caller: Caller, k: int)
    ensures OpenedBy(steps + [step], sid, caller, k) <==>
            if k == |steps| then step == Open(sid, Some(caller))
            else OpenedBy(steps, sid, caller, k) && !Replaces(step, sid)
  {
    var all := steps + [step];
    assert forall j :: 0 <= j < |steps| ==> all[j] == steps[j];
    assert all[|steps|] == step;
  }

  ghost predicate Opened(steps: seq<Step>, sid: Sid, caller: Caller) { exists k :: OpenedBy(steps, sid, caller, k) }

  /** The step ends what earlier opens of the stream left. */
  ghost predicate Replaces(step: Step, sid: Sid) {
    step == Close(sid) || (step.Open? && step.sid == sid && step.caller.Some?)
  }

  lemma OpenedSnoc(steps: seq<Step>, step: Step, sid: Sid, caller: Caller)
    ensures Opened(steps + [step], sid, caller) <==>
            step == Open(sid, Some(caller)) || (Opened(steps, sid, caller) && !Replaces(step, sid))
  {
    if k :| OpenedBy(steps + [step], sid, caller, k) { OpenedBySnoc(steps, step, sid, caller, k); }
    if k :| OpenedBy(steps, sid, caller, k) { OpenedBySnoc(steps, step, sid, caller, k); }
    OpenedBySnoc(steps, step, sid, caller, |steps|);
  }

  /** Under authentication the peers of a run are exactly these callers; otherwise there are none. */
  lemma {:induction false} PeersOfRun(cfg: Config, steps: seq<Step>, sid: Sid, caller: Caller)
    ensures sid in After(cfg, steps).peers ==> cfg.xdsAuth
    ensures sid in After(cfg, steps).peers && After(cfg, steps).peers[sid] == caller <==>
            cfg.xdsAuth && Opened(steps, sid, caller)
    decreases |steps|
  {
    if steps != [] {
      var n := |steps| - 1;
      assert steps == steps[..n] + [steps[n]];
      PeersOfRun(cfg, steps[..n], sid, caller);
      OpenedSnoc(steps[..n], steps[n], sid, caller);
      PeerStep(cfg, After(cfg, steps[..n]), steps[n], sid, caller);
    }
  }

  lemma PeerStep(cfg: Config, s: State, step: Step, sid: Sid, caller: Caller)
    requires sid in s.peers ==> cfg.xdsAuth
    ensures sid in Do(cfg, s, step).peers ==> cfg.xdsAuth
    ensures sid in Do(cfg, s, step).peers && Do(cfg, s, step).peers[sid] == caller <==>
            || (cfg.xdsAuth && step == Open(sid, Some(caller)))
            || (sid in s.peers && s.peers[sid] == caller && !Replaces(step, sid))
  {
    match step
    case Open(_, _) =>
    case Close(_) =>
    case _ => assert Do(cfg, s, step).peers == s.peers;
  }

  // ---- Where streams and listed clients come from

  /** The role a request claims and the pod it is looked up as: from the request, or under
      authentication from the caller of its stream; without pod data no pod. */
  ghost predicate Claims(cfg: Config, s: State, sid: Sid, r: Request, role: string, ref: Option<PodRef>) {
    if !cfg.xdsAuth then role == r.role && (ref == if cfg.usePods then r.node else None)
    else
      && sid in s.peers
      && role == "kgateway-kube-gateway-api" + "~" + s.peers[sid].podNamespace + "~" + s.peers[sid].serviceAccount
      && (ref == if cfg.usePods then Some(PodRef(s.peers[sid].podNamespace, s.peers[sid].podName)) else None)
  }

  /** The request was made on the stream and claims them. */
  ghost predicate Asked(cfg: Config, steps: seq<Step>, sid: Sid, r: Request, role: string, ref: Option<PodRef>) {
    exists k: nat :: k < |steps| && steps[k] == Begin(sid, r)
                     && Claims(cfg, After(cfg, steps[..k]), sid, r, role, ref)
  }

  /** The pod record stood under the reference at some point of the run. */
  ghost predicate SeenAt(cfg: Config, steps: seq<Step>, ref: PodRef, p: Pod) {
    exists j: nat :: j <= |steps| && ref in After(cfg, steps[..j]).pods && After(cfg, steps[..j]).pods[ref] == p
  }

  ghost predicate PodFits(cfg: Config, steps: seq<Step>, ref: Option<PodRef>, pod: Option<Pod>) {
    match (ref, pod)
    case (None, None) => true
    case (Some(at), Some(p)) => SeenAt(cfg, steps, at, p)
    case _ => false
  }

  /** A request on the stream whose version was accepted claims the role, and the pod was found
      under its reference. */
  ghost predicate Origin(cfg: Config, steps: seq<Step>, sid: Sid, r: Request, role: string, pod: Option<Pod>) {
    r.versionOk && exists ref :: Asked(cfg, steps, sid, r, role, ref) && PodFits(cfg, steps, ref, pod)
  }

  /** The gateway a pod's labels name: by the full name, or else by the label. */
  ghost function GatewayNamed(labels: Labels): Option<string> {
    var full, plain := "gateway.kgateway.dev/gateway-full-name", "gateway.networking.k8s.io/gateway-name";
    if full in labels && labels[full] != "" then Some(labels[full])
    else if plain in labels && labels[plain] != "" then Some(labels[plain])
    else None
  }

  /** The role a client gets: the gateway's its pod names, if it names one. */
  ghost function RoleOf(role: string, pod: Option<Pod>): string {
    if pod.None? then role
    else match GatewayNamed(pod.value.labels)
         case None => role
         case Some(name) => "kgateway-kube-gateway-api" + "~" + pod.value.namespace + "~" + name
  }

  /** The client of a claimed role and a pod: the pod's namespace, labels and locality. */
  ghost predicate ListedAs(c: Client, role: string, pod: Option<Pod>) {
    && c.role == RoleOf(role, pod)
    && match pod
       case None => c.namespace == "" && c.labels == map[] && c.locality == Locality("", "", "")
       case Some(p) => c.namespace == p.namespace && c.labels == p.labels && c.locality == p.locality
  }

  /** The name of the bucket: role, label hash and namespace, or without a namespace the role. */
  ghost function BucketName(cfg: Config, role: string, pod: Option<Pod>): string {
    if pod.None? || pod.value.namespace == "" then RoleOf(role, pod)
    else RoleOf(role, pod) + "~" + Natural(cfg.hash(pod.value.labels)) + "~" + pod.value.namespace
  }

  ghost predicate FromRequest(cfg: Config, steps: seq<Step>, c: Client) {
    exists sid, r, role, pod :: Origin(cfg, steps, sid, r, role, pod) && ListedAs(c, role, pod)
                                && c.resourceName == BucketName(cfg, role, pod)
  }

  /** The stream was let in by such a request, into the bucket of that name. */
  ghost predicate LetIn(cfg: Config, steps: seq<Step>, sid: Sid, c: Connected) {
    exists r, pod :: Origin(cfg, steps, sid, r, c.originalRole, pod) && c.name == BucketName(cfg, c.originalRole, pod)
  }

  /** What a callback carries was claimed by its request, with a pod seen under its reference. */
  ghost predicate PcOrigin(cfg: Config, steps: seq<Step>, sid: Sid, pc: Pc) {
    match pc
    case WantRead(r, peer) => Asked(cfg, steps, sid, r, peer.role, peer.podRef)
    case Reading(r, peer) => Asked(cfg, steps, sid, r, peer.role, peer.podRef)
    case Read(r, peer, _) => Asked(cfg, steps, sid, r, peer.role, peer.podRef)
    case Decide(r, peer, _, d) =>
      && Asked(cfg, steps, sid, r, peer.role, peer.podRef)
      && (d.Resolved? ==> PodFits(cfg, steps, peer.podRef, d.pod))
    case WantPublish(r, role, pod) => Origin(cfg, steps, sid, r, role, pod)
    case Publishing(r, role, pod) => Origin(cfg, steps, sid, r, role, pod)
    case _ => true
  }

  ghost predicate OriginHistory(cfg: Config, steps: seq<Step>) {
    var s := After(cfg, steps);
    && (forall sid: Sid :: PcOrigin(cfg, steps, sid, PcOf(s, sid)))
    && (forall n :: n in s.reg.buckets ==> FromRequest(cfg, steps, s.reg.buckets[n]))
    && (forall sid :: sid in s.reg.clients ==> LetIn(cfg, steps, sid, s.reg.clients[sid]))
  }

  lemma AskedExtends(cfg: Config, steps: seq<Step>, step: Step, sid: Sid, r: Request, role: string,
                     ref: Option<PodRef>)
    requires Asked(cfg, steps, sid, r, role, ref)
    ensures Asked(cfg, steps + [step], sid, r, role, ref)
  {
    var k: nat :| k < |steps| && steps[k] == Begin(sid, r)
      && Claims(cfg, After(cfg, steps[..k]), sid, r, role, ref);
    assert (steps + [step])[..k] == steps[..k] && (steps + [step])[k] == Begin(sid, r);
  }

  lemma FitsExtends(cfg: Config, steps: seq<Step>, step: Step, ref: Option<PodRef>, pod: Option<Pod>)
    requires PodFits(cfg, steps, ref, pod)
    ensures PodFits(cfg, steps + [step], ref, pod)
  {
    if ref.Some? {
      var j: nat :| j <= |steps| && ref.value in After(cfg, steps[..j]).pods
        && After(cfg, steps[..j]).pods[ref.value] == pod.value;
      assert (steps + [step])[..j] == steps[..j];
    }
  }

  lemma OriginExtends(cfg: Config, steps: seq<Step>, step: Step, sid: Sid, r: Request, role: string, pod: Option<Pod>)
    requires Origin(cfg, steps, sid, r, role, pod)
    ensures Origin(cfg, steps + [step], sid, r, role, pod)
  {
    var ref :| Asked(cfg, steps, sid, r, role, ref) && PodFits(cfg, steps, ref, pod);
    AskedExtends(cfg, steps, step, sid, r, role, ref);
    FitsExtends(cfg, steps, step, ref, pod);
  }

  lemma FromExtends(cfg: Config, steps: seq<Step>, step: Step, c: Client)
    requires FromRequest(cfg, steps, c)
    ensures FromRequest(cfg, steps + [step], c)
  {
    var sid, r, role, pod :| Origin(cfg, steps, sid, r, role, pod) && ListedAs(c, role, pod)
      && c.resourceName == BucketName(cfg, role, pod);
    OriginExtends(cfg, steps, step, sid, r, role, pod);
  }

  lemma LetInExtends(cfg: Config, steps: seq<Step>, step: Step, sid: Sid, c: Connected)
    requires LetIn(cfg, steps, sid, c)
    ensures LetIn(cfg, steps + [step], sid, c)
  {
    var r, pod :| Origin(cfg, steps, sid, r, c.originalRole, pod) && c.name == BucketName(cfg, c.originalRole, pod);
    OriginExtends(cfg, steps, step, sid, r, c.originalRole, pod);
  }

  lemma PcExtends(cfg: Config, steps: seq<Step>, step: Step, sid: Sid, pc: Pc)
    requires PcOrigin(cfg, steps, sid, pc)
    ensures PcOrigin(cfg, steps + [step], sid, pc)
  {
    match pc
    case WantRead(r, peer) => AskedExtends(cfg, steps, step, sid, r, peer.role, peer.podRef);
    case Reading(r, peer) => AskedExtends(cfg, steps, step, sid, r, peer.role, peer.podRef);
    case Read(r, peer, _) => AskedExtends(cfg, steps, step, sid, r, peer.role, peer.podRef);
    case Decide(r, peer, _, d) =>
      AskedExtends(cfg, steps, step, sid, r, peer.role, peer.podRef);
      if d.Resolved? { FitsExtends(cfg, steps, step, peer.podRef, d.pod); }
    case WantPublish(r, role, pod) => OriginExtends(cfg, steps, step, sid, r, role, pod);
    case Publishing(r, role, pod) => OriginExtends(cfg, steps, step, sid, r, role, pod);
    case _ =>
  }

  /** What a lookup finds is seen now. */
  lemma DerivedFits(cfg: Config, steps: seq<Step>, peer: Peer)
    ensures var d := Derive(After(cfg, steps).pods, peer); d.Resolved? ==> PodFits(cfg, steps, peer.podRef, d.pod)
  {
    assert steps[..|steps|] == steps;
  }

  lemma PcStepOrigin(cfg: Config, steps: seq<Step>, sid: Sid, pc: Pc)
    requires PcOrigin(cfg, steps, sid, pc)
    ensures PcOrigin(cfg, steps, sid, NextPc(cfg, After(cfg, steps).reg, After(cfg, steps).pods, sid, pc))
  {
    if pc.Read? { DerivedFits(cfg, steps, Pinned(pc.peer, pc.entry)); }
    if pc.Decide? && pc.d.Resolved? { assert PodFits(cfg, steps, pc.peer.podRef, pc.d.pod); }
  }

  /** Buckets and entries are as they were, or new with the client of the joining stream. */
  lemma RegistryStep(cfg: Config, g: Registry, sid: Sid, pc: Pc)
    ensures OnlyJoins(cfg, g, NextReg(cfg, g, sid, pc), sid, pc)
  {
  }

  ghost predicate OnlyJoins(cfg: Config, g: Registry, g': Registry, sid: Sid, pc: Pc) {
    && (forall n :: n in g'.buckets ==>
          || (n in g.buckets && g'.buckets[n] == g.buckets[n])
          || (pc.Publishing? && g'.buckets[n] == ClientFor(cfg, pc.role, pc.pod)))
    && (forall s :: s in g'.clients ==>
          || (s in g.clients && g'.clients[s] == g.clients[s])
          || (pc.Publishing? && s == sid
              && g'.clients[s] == Connected(ClientFor(cfg, pc.role, pc.pod).resourceName, pc.role)))
  }

  lemma ClientListedAs(cfg: Config, role: string, pod: Option<Pod>)
    ensures ListedAs(ClientFor(cfg, role, pod), role, pod)
    ensures ClientFor(cfg, role, pod).resourceName == BucketName(cfg, role, pod)
  {
    if pod.None? { ClientWithoutPod(cfg, role); }
  }

  lemma RunOrigin(cfg: Config, steps: seq<Step>, sid: Sid)
    requires ValidRun(cfg, steps + [Run(sid)]) && OriginHistory(cfg, steps)
    ensures OriginHistory(cfg, steps + [Run(sid)])
  {
    LastStep(cfg, steps, Run(sid));
    var s, s' := After(cfg, steps), After(cfg, steps + [Run(sid)]);
    var pc := PcOf(s, sid);
    forall other: Sid ensures PcOrigin(cfg, steps + [Run(sid)], other, PcOf(s', other)) {
      if other == sid { PcStepOrigin(cfg, steps, sid, pc); }
      assert PcOf(s', other) == if other == sid then NextPc(cfg, s.reg, s.pods, sid, pc) else PcOf(s, other);
      PcExtends(cfg, steps, Run(sid), other, PcOf(s', other));
    }
    RegistryStep(cfg, s.reg, sid, pc);
    RegistryOrigin(cfg, steps, sid, s.reg, s'.reg, pc);
  }

  lemma RegistryOrigin(cfg: Config, steps: seq<Step>, sid: Sid, g: Registry, g': Registry, pc: Pc)
    requires PcOrigin(cfg, steps, sid, pc) && OnlyJoins(cfg, g, g', sid, pc)
    requires forall n :: n in g.buckets ==> FromRequest(cfg, steps, g.buckets[n])
    requires forall s :: s in g.clients ==> LetIn(cfg, steps, s, g.clients[s])
    ensures forall n :: n in g'.buckets ==> FromRequest(cfg, steps + [Run(sid)], g'.buckets[n])
    ensures forall s :: s in g'.clients ==> LetIn(cfg, steps + [Run(sid)], s, g'.clients[s])
  {
    if pc.Publishing? { JoiningOrigin(cfg, steps, sid, pc); }
    forall n | n in g'.buckets ensures FromRequest(cfg, steps + [Run(sid)], g'.buckets[n]) {
      FromExtends(cfg, steps, Run(sid), g'.buckets[n]);
    }
    forall s | s in g'.clients ensures LetIn(cfg, steps + [Run(sid)], s, g'.clients[s]) {
      LetInExtends(cfg, steps, Run(sid), s, g'.clients[s]);
    }
  }

  lemma JoiningOrigin(cfg: Config, steps: seq<Step>, sid: Sid, pc: Pc)
    requires pc.Publishing? && Origin(cfg, steps, sid, pc.r, pc.role, pc.pod)
    ensures FromRequest(cfg, steps, ClientFor(cfg, pc.role, pc.pod))
    ensures LetIn(cfg, steps, sid, Connected(ClientFor(cfg, pc.role, pc.pod).resourceName, pc.role))
  {
    ClientListedAs(cfg, pc.role, pc.pod);
  }

  /** The peer of a request is what the request claims. */
  lemma PeerClaims(cfg: Config, s: State, sid: Sid, r: Request)
    requires PeerInfo(cfg, s.peers, sid, r).Some?
    ensures var peer := PeerInfo(cfg, s.peers, sid, r).value; Claims(cfg, s, sid, r, peer.role, peer.podRef)
  {
  }

  /** A callback starts exactly for a request whose claimed role starts with the gateway prefix. */
  lemma HandledIffGateway(cfg: Config, s: State, sid: Sid, r: Request)
    ensures BeginsCallback(cfg, s, sid, r) <==>
            exists role, ref, tail :: Claims(cfg, s, sid, r, role, ref) && role == "kgateway-kube-gateway-api" + tail
  {
    var peer := PeerInfo(cfg, s.peers, sid, r);
    if peer.Some? {
      PeerClaims(cfg, s, sid, r);
      var role := peer.value.role;
      if IsGatewayCacheKey(role) { assert role == GATEWAY_PROXY + role[|GATEWAY_PROXY|..]; }
    }
  }

  lemma BeginOrigin(cfg: Config, steps: seq<Step>, sid: Sid, r: Request)
    requires ValidRun(cfg, steps + [Begin(sid, r)]) && OriginHistory(cfg, steps)
    ensures OriginHistory(cfg, steps + [Begin(sid, r)])
  {
    LastStep(cfg, steps, Begin(sid, r));
    var s, all := After(cfg, steps), steps + [Begin(sid, r)];
    var s' := After(cfg, all);
    forall other: Sid ensures PcOrigin(cfg, all, other, PcOf(s', other)) {
      if other == sid && BeginsCallback(cfg, s, sid, r) {
        PeerClaims(cfg, s, sid, r);
        assert all[|steps|] == Begin(sid, r) && all[..|steps|] == steps;
      } else {
        assert PcOf(s', other) == PcOf(s, other);
        PcExtends(cfg, steps, Begin(sid, r), other, PcOf(s, other));
      }
    }
    RegistryOriginStays(cfg, steps, Begin(sid, r));
  }

  lemma RegistryOriginStays(cfg: Config, steps: seq<Step>, step: Step)
    requires OriginHistory(cfg, steps) && After(cfg, steps + [step]).reg == After(cfg, steps).reg
    ensures var s := After(cfg, steps + [step]);
            && (forall n :: n in s.reg.buckets ==> FromRequest(cfg, steps + [step], s.reg.buckets[n]))
            && (forall sid :: sid in s.reg.clients ==> LetIn(cfg, steps + [step], sid, s.reg.clients[sid]))
  {
    var s := After(cfg, steps);
    forall n | n in s.reg.buckets ensures FromRequest(cfg, steps + [step], s.reg.buckets[n]) {
      FromExtends(cfg, steps, step, s.reg.buckets[n]);
    }
    forall sid | sid in s.reg.clients ensures LetIn(cfg, steps + [step], sid, s.reg.clients[sid]) {
      LetInExtends(cfg, steps, step, sid, s.reg.clients[sid]);
    }
  }

  lemma OtherOrigin(cfg: Config, steps: seq<Step>, step: Step)
    requires ValidRun(cfg, steps + [step]) && OriginHistory(cfg, steps) && !step.Run? && !step.Begin?
    ensures OriginHistory(cfg, steps + [step])
  {
    LastStep(cfg, steps, step);
    var s, s' := After(cfg, steps), After(cfg, steps + [step]);
    forall sid: Sid ensures PcOrigin(cfg, steps + [step], sid, PcOf(s', sid)) {
      assert PcOf(s', sid) == PcOf(s, sid) || PcOf(s', sid) == WantRemove;
      PcExtends(cfg, steps, step, sid, PcOf(s', sid));
    }
    RegistryOriginStays(cfg, steps, step);
  }

  lemma {:induction false} OriginsOfRun(cfg: Config, steps: seq<Step>)
    requires ValidRun(cfg, steps)
    ensures OriginHistory(cfg, steps)
    decreases |steps|
  {
    if steps != [] {
      var front, last := steps[..|steps| - 1], steps[|steps| - 1];
      assert steps == front + [last];
      OriginsOfRun(cfg, front);
      match last
      case Run(sid) => RunOrigin(cfg, front, sid);
      case Begin(sid, r) => BeginOrigin(cfg, front, sid, r);
      case _ => OtherOrigin(cfg, front, last);
    }
  }

  /** Every live stream was let in by a request of its own whose version was accepted: its pinned
      role is what the request claims, and its bucket is named after that and the pod record found
      under the request's reference. */
  lemma StreamsAreLetIn(cfg: Config, steps: seq<Step>, sid: Sid)
    requires ValidRun(cfg, steps) && sid in After(cfg, steps).reg.clients
    ensures LetIn(cfg, steps, sid, After(cfg, steps).reg.clients[sid])
  {
    OriginsOfRun(cfg, steps);
  }

  /** Every listed client has its own name, and the role, namespace, labels and locality of a
      request of the run and of the pod record it was looked up as. */
  lemma ListedClientsComeFromRequests(cfg: Config, steps: seq<Step>, n: string)
    requires ValidRun(cfg, steps) && n in View(After(cfg, steps).reg)
    ensures View(After(cfg, steps).reg)[n].resourceName == n
    ensures FromRequest(cfg, steps, View(After(cfg, steps).reg)[n])
  {
    OriginsOfRun(cfg, steps);
    RunInv(cfg, steps);
    ViewIsNotVacuous(After(cfg, steps).reg);
    var b, c := After(cfg, steps).reg.buckets[n], View(After(cfg, steps).reg)[n];
    assert b.role == c.role && b.namespace == c.namespace && b.labels == c.labels && b.locality == c.locality;
    var sid, r, role, pod :| Origin(cfg, steps, sid, r, role, pod) && ListedAs(b, role, pod)
      && b.resourceName == BucketName(cfg, role, pod);
    assert ListedAs(c, role, pod);
  }
}
