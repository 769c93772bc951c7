/** The xDS callbacks as they interleave (pkg/krtcollections/uniqueclients.go). Callbacks
    of one stream are serialised; different streams interleave at every lock operation,
    every critical section, the identity derivation and every trigger. A worker plays the
    recomputation of the published collection. */
module ClientProtocol {
  import opened Common
  import opened ClientIdentity
  import opened ClientRegistry

  datatype Reason = IdentityChanged(was: string, derived: string) | PodUnknown | VersionTooOld | EmptyName

  /** Where a stream's callback stands. */
  datatype Pc =
    | Idle
      // add: read the entry, derive, decide
    | WantRead(r: Request, peer: Peer)
    | Reading(r: Request, peer: Peer)
    | Read(r: Request, peer: Peer, entry: Option<Connected>)
    | Decide(r: Request, peer: Peer, entry: Option<Connected>, d: Derivation)
    | Rejecting(reason: Reason)
      // add: publish a new stream
    | WantPublish(r: Request, role: string, pod: Option<Pod>)
    | Publishing(r: Request, role: string, pod: Option<Pod>)
      // newStream after add
    | Joined(r: Request, name: string, isNew: bool)
    | WantConfirm(r: Request, name: string, isNew: bool)
    | Confirming(r: Request, name: string, isNew: bool)
    | ConfirmTrigger(name: string, isNew: bool)
    | Rewrite(name: string, isNew: bool)
    | JoinTrigger
      // OnStreamClosed
    | WantRemove
    | Removing
    | CloseTrigger

  /** Where the recomputation stands. */
  datatype Worker = Waiting | Woken | Snapshotting | Storing(snapshot: map<string, Client>)

  datatype Holder = Stream(sid: Sid) | Recompute

  datatype State = State(
    reg: Registry,
    pcs: map<Sid, Pc>,
    writer: Option<Holder>,
    readers: set<Holder>,
    peers: map<int, Caller>,
    pods: Pods,
    nodeRole: map<Sid, string>,         // role held by the node object of a stream
    origin: map<Sid, Option<Pod>>,      // pod record a live stream was derived from
    dirty: bool,
    worker: Worker,
    published: map<string, Client>)

  datatype Step =
    | Open(sid: Sid, caller: Option<Caller>)
    | Begin(sid: Sid, r: Request)
    | Close(sid: Sid)
    | Run(sid: Sid)
    | Work
    | PodsChange(pods: Pods)

  ghost function PcOf(s: State, sid: Sid): Pc {
    if sid in s.pcs then s.pcs[sid] else Idle
  }

  const INIT := State(EMPTY, map[], None, {}, map[], map[], map[], map[], false, Waiting, map[])

  ghost predicate LockFree(s: State) { s.writer.None? && s.readers == {} }

  ghost predicate Enabled(s: State, step: Step) {
    match step
    case Open(sid, _) => PcOf(s, sid).Idle?
    case Begin(sid, _) => PcOf(s, sid).Idle?
    case Close(sid) => PcOf(s, sid).Idle?
    case PodsChange(_) => true
    case Work =>
      (match s.worker
       case Waiting => s.dirty
       case Woken => s.writer.None?
       case Snapshotting => true
       case Storing(_) => true)
    case Run(sid) =>
      (match PcOf(s, sid)
       case Idle => false
       case WantRead(_, _) => s.writer.None?
       case WantPublish(_, _, _) => LockFree(s)
       case WantConfirm(_, _, _) => LockFree(s)
       case WantRemove => LockFree(s)
       case _ => true)
  }

  /** The branches of `add` once the identity has been derived. */
  ghost function AfterDecide(cfg: Config, r: Request, peer: Peer, entry: Option<Connected>, d: Derivation): Pc {
    if entry.Some? then
      if d.PodMissing? then Joined(r, entry.value.name, false)
      else
        var derived := ClientFor(cfg, entry.value.originalRole, d.pod).resourceName;
        if derived != entry.value.name then Rejecting(IdentityChanged(entry.value.name, derived))
        else Joined(r, entry.value.name, false)
    else if !r.versionOk then Rejecting(VersionTooOld)
    else if d.PodMissing? then Rejecting(PodUnknown)
    else WantPublish(r, peer.role, d.pod)
  }

  ghost function Entry(g: Registry, sid: Sid): Option<Connected> {
    if sid in g.clients then Some(g.clients[sid]) else None
  }

  /** The peer an established stream is re-derived with: its role is pinned. */
  ghost function Pinned(peer: Peer, entry: Option<Connected>): Peer {
    if entry.Some? then peer.(role := entry.value.originalRole) else peer
  }

  /** Control flow of a callback. */
  ghost function NextPc(cfg: Config, g: Registry, pods: Pods, sid: Sid, pc: Pc): Pc {
    match pc
    case Idle => Idle
    case WantRead(r, peer) => Reading(r, peer)
    case Reading(r, peer) => Read(r, peer, Entry(g, sid))
    case Read(r, peer, entry) => Decide(r, peer, entry, Derive(pods, Pinned(peer, entry)))
    case Decide(r, peer, entry, d) => AfterDecide(cfg, r, peer, entry, d)
    case Rejecting(_) => Idle
    case WantPublish(r, role, pod) => Publishing(r, role, pod)
    case Publishing(r, role, pod) => Joined(r, ClientFor(cfg, role, pod).resourceName, true)
    case Joined(r, name, isNew) =>
      if name == "" then Rejecting(EmptyName)
      else if r.endpoints then WantConfirm(r, name, isNew) else Rewrite(name, isNew)
    case WantConfirm(r, name, isNew) => Confirming(r, name, isNew)
    case Confirming(r, name, isNew) =>
      if Confirms(cfg, g, sid, name, r.names) then ConfirmTrigger(name, isNew) else Rewrite(name, isNew)
    case ConfirmTrigger(name, isNew) => Rewrite(name, isNew)
    case Rewrite(name, isNew) => if isNew then JoinTrigger else Idle
    case JoinTrigger => Idle
    case WantRemove => Removing
    case Removing => CloseTrigger
    case CloseTrigger => Idle
  }

  /** The registry after a step: only the three write sections touch it. */
  ghost function NextReg(cfg: Config, g: Registry, sid: Sid, pc: Pc): Registry {
    match pc
    case Publishing(r, role, pod) => Publish(g, sid, ClientFor(cfg, role, pod), role)
    case Confirming(r, name, isNew) => Confirm(cfg, g, sid, name, r.names)
    case Removing => Remove(g, sid)
    case _ => g
  }

  ghost predicate WantsWrite(pc: Pc) { pc.WantPublish? || pc.WantConfirm? || pc.WantRemove? }

  ghost predicate WritePc(pc: Pc) { pc.Publishing? || pc.Confirming? || pc.Removing? }

  ghost predicate Triggers(pc: Pc) { pc.ConfirmTrigger? || pc.JoinTrigger? || pc.CloseTrigger? }

  ghost function RunStep(cfg: Config, s: State, sid: Sid): State {
    var pc, me := PcOf(s, sid), Stream(sid);
    State(
      NextReg(cfg, s.reg, sid, pc),
      s.pcs[sid := NextPc(cfg, s.reg, s.pods, sid, pc)],
      if WantsWrite(pc) then Some(me) else if WritePc(pc) then None else s.writer,
      if pc.WantRead? then s.readers + {me} else if pc.Reading? then s.readers - {me} else s.readers,
      s.peers,
      s.pods,
      if pc.Rewrite? then s.nodeRole[sid := pc.name] else s.nodeRole,
      if pc.Publishing? then s.origin[sid := pc.pod] else if pc.Removing? then s.origin - {sid} else s.origin,
      s.dirty || Triggers(pc),
      s.worker,
      s.published)
  }

  ghost function NextWorker(g: Registry, w: Worker): Worker {
    match w
    case Waiting => Woken
    case Woken => Snapshotting
    case Snapshotting => Storing(View(g))
    case Storing(_) => Waiting
  }

  /** The recomputation: take the event, read the view under the lock, store it. */
  ghost function WorkStep(s: State): State {
    State(
      s.reg, s.pcs, s.writer,
      if s.worker.Woken? then s.readers + {Recompute}
      else if s.worker.Snapshotting? then s.readers - {Recompute} else s.readers,
      s.peers, s.pods, s.nodeRole, s.origin,
      s.dirty && !s.worker.Waiting?,
      NextWorker(s.reg, s.worker),
      if s.worker.Storing? then s.worker.snapshot else s.published)
  }

  ghost predicate BeginsCallback(cfg: Config, s: State, sid: Sid, r: Request) {
    var peer := PeerInfo(cfg, s.peers, sid, r);
    peer.Some? && IsGatewayCacheKey(peer.value.role)
  }

  /** A request is ignored when its peer is unknown or its role is not a gateway's. */
  ghost function BeginStep(cfg: Config, s: State, sid: Sid, r: Request): State {
    if BeginsCallback(cfg, s, sid, r)
    then s.(nodeRole := s.nodeRole[sid := r.role],
            pcs := s.pcs[sid := WantRead(r, PeerInfo(cfg, s.peers, sid, r).value)])
    else s
  }

  ghost function Do(cfg: Config, s: State, step: Step): State {
    match step
    case Open(sid, caller) =>
      if cfg.xdsAuth && caller.Some? then s.(peers := s.peers[sid := caller.value]) else s
    case Begin(sid, r) => BeginStep(cfg, s, sid, r)
    case Close(sid) => s.(peers := s.peers - {sid}, pcs := s.pcs[sid := WantRemove])
    case Run(sid) => RunStep(cfg, s, sid)
    case Work => WorkStep(s)
    case PodsChange(pods) => s.(pods := pods)
  }

  ghost predicate ValidRun(cfg: Config, steps: seq<Step>)
    decreases |steps|
  {
    steps != [] ==> ValidRun(cfg, steps[..|steps| - 1]) && Enabled(After(cfg, steps[..|steps| - 1]), steps[|steps| - 1])
  }

  /** The state a run of steps leads to. */
  ghost function After(cfg: Config, steps: seq<Step>): State
    decreases |steps|
  {
    if steps == [] then INIT else Do(cfg, After(cfg, steps[..|steps| - 1]), steps[|steps| - 1])
  }

  /** The lock is held exactly by the callbacks that stand inside a section. */
  ghost predicate LockInv(s: State) {
    && (forall sid: Sid :: s.writer == Some(Stream(sid)) <==> WritePc(PcOf(s, sid)))
    && (forall sid: Sid :: Stream(sid) in s.readers <==> PcOf(s, sid).Reading?)
    && s.writer != Some(Recompute)
    && (Recompute in s.readers <==> s.worker.Snapshotting?)
    && (s.writer.Some? ==> s.readers == {})
  }

  ghost predicate PcInv(g: Registry, sid: Sid, pc: Pc) {
    match pc
    case WantRead(r, peer) => IsGatewayCacheKey(peer.role)
    case Reading(r, peer) => IsGatewayCacheKey(peer.role)
    case Read(r, peer, entry) => IsGatewayCacheKey(peer.role) && entry == Entry(g, sid)
    case Decide(r, peer, entry, d) => IsGatewayCacheKey(peer.role) && entry == Entry(g, sid)
    case Rejecting(reason) => reason != EmptyName
    case WantPublish(r, role, pod) => IsGatewayCacheKey(role) && sid !in g.clients
    case Publishing(r, role, pod) => IsGatewayCacheKey(role) && sid !in g.clients
    case Joined(r, name, isNew) => sid in g.clients && g.clients[sid].name == name
    case WantConfirm(r, name, isNew) => sid in g.clients && g.clients[sid].name == name
    case Confirming(r, name, isNew) => sid in g.clients && g.clients[sid].name == name
    case ConfirmTrigger(name, isNew) => sid in g.clients && g.clients[sid].name == name
    case Rewrite(name, isNew) => sid in g.clients && g.clients[sid].name == name
    case JoinTrigger => sid in g.clients
    case _ => true
  }

  /** A live stream's name is what its pinned role and recorded pod derive to. */
  ghost predicate Named(cfg: Config, c: Connected, pod: Option<Pod>) {
    IsGatewayCacheKey(c.originalRole) && c.name == ClientFor(cfg, c.originalRole, pod).resourceName
  }

  ghost predicate StreamInv(cfg: Config, s: State, sid: Sid) {
    && PcInv(s.reg, sid, PcOf(s, sid))
    && (sid in s.reg.clients ==> sid in s.origin && Named(cfg, s.reg.clients[sid], s.origin[sid]))
  }

  ghost predicate StreamsInv(cfg: Config, s: State) { forall sid: Sid :: StreamInv(cfg, s, sid) }

  /** The callback still has to trigger a recomputation before it returns. */
  ghost predicate Owes(pc: Pc) {
    match pc
    case Joined(_, _, isNew) => isNew
    case WantConfirm(_, _, isNew) => isNew
    case Confirming(_, _, isNew) => isNew
    case ConfirmTrigger(_, _) => true
    case Rewrite(_, isNew) => isNew
    case JoinTrigger => true
    case CloseTrigger => true
    case _ => false
  }

  ghost predicate SomeoneOwes(s: State) { exists sid: Sid :: Owes(PcOf(s, sid)) }

  /** What the worker will leave published if nobody triggers again. */
  ghost predicate WillPublish(s: State) {
    || s.dirty
    || s.worker.Woken? || s.worker.Snapshotting?
    || (s.worker.Storing? && s.worker.snapshot == View(s.reg))
    || (s.worker.Waiting? && s.published == View(s.reg))
  }

  ghost predicate FreshInv(s: State) { SomeoneOwes(s) || WillPublish(s) }

  ghost predicate Inv(cfg: Config, s: State) {
    && Valid(s.reg)
    && LockInv(s)
    && StreamsInv(cfg, s)
    && FreshInv(s)
  }

  ghost predicate Quiescent(s: State) {
    && (forall sid: Sid :: PcOf(s, sid).Idle?)
    && !s.dirty && s.worker.Waiting?
  }

  lemma InitInv(cfg: Config)
    ensures Inv(cfg, INIT)
  {
    EmptyIsValid();
  }

  /** A name is never empty, so an accepted callback always gets to its trigger. */
  lemma NameNotEmpty(cfg: Config, c: Connected, pod: Option<Pod>)
    requires Named(cfg, c, pod)
    ensures c.name != "" && IsGatewayCacheKey(c.name)
  {
    RewrittenRoleIsGatewayKey(cfg, c.originalRole, pod);
  }

  lemma RegValid(cfg: Config, g: Registry, sid: Sid, pc: Pc)
    requires Valid(g) && PcInv(g, sid, pc)
    ensures Valid(NextReg(cfg, g, sid, pc))
  {
    match pc
    case Publishing(r, role, pod) => PublishValid(g, sid, ClientFor(cfg, role, pod), role);
    case Confirming(r, name, isNew) => ConfirmValid(cfg, g, sid, name, r.names);
    case Removing => RemoveValid(g, sid);
    case _ =>
  }

  /** Sections are entered only through the lock and left in one step. */
  lemma PcLock(cfg: Config, g: Registry, pods: Pods, sid: Sid, pc: Pc)
    ensures WritePc(NextPc(cfg, g, pods, sid, pc)) <==> WantsWrite(pc)
    ensures NextPc(cfg, g, pods, sid, pc).Reading? <==> pc.WantRead?
  {}

  lemma RunLock(cfg: Config, s: State, sid: Sid)
    requires LockInv(s) && Enabled(s, Run(sid))
    ensures LockInv(RunStep(cfg, s, sid))
  {
    PcLock(cfg, s.reg, s.pods, sid, PcOf(s, sid));
  }

  lemma WorkLock(s: State)
    requires LockInv(s) && Enabled(s, Work)
    ensures LockInv(WorkStep(s))
  {
    WorkerLock(s.reg, s.worker);
  }

  lemma WorkerLock(g: Registry, w: Worker)
    ensures NextWorker(g, w).Snapshotting? <==> w.Woken?
  {}

  /** Another stream's entry is not this step's to change. */
  lemma OtherEntry(cfg: Config, g: Registry, sid: Sid, pc: Pc, other: Sid)
    requires other != sid
    ensures Entry(NextReg(cfg, g, sid, pc), other) == Entry(g, other)
  {}

  lemma PcStep(cfg: Config, g: Registry, pods: Pods, sid: Sid, pc: Pc)
    requires PcInv(g, sid, pc)
    requires pc.Joined? ==> pc.name != ""
    ensures PcInv(NextReg(cfg, g, sid, pc), sid, NextPc(cfg, g, pods, sid, pc))
  {}

  lemma EntryStep(cfg: Config, g: Registry, sid: Sid, pc: Pc)
    requires PcInv(g, sid, pc)
    ensures Entry(NextReg(cfg, g, sid, pc), sid) ==
            if pc.Publishing? then Some(Connected(ClientFor(cfg, pc.role, pc.pod).resourceName, pc.role))
            else if pc.Removing? then None else Entry(g, sid)
  {}

  lemma RunStreams(cfg: Config, s: State, sid: Sid)
    requires StreamsInv(cfg, s)
    ensures StreamsInv(cfg, RunStep(cfg, s, sid))
  {
    forall other: Sid ensures StreamInv(cfg, RunStep(cfg, s, sid), other) {
      assert StreamInv(cfg, s, other);
      if other == sid { RunOwnStream(cfg, s, sid); } else { RunOtherStream(cfg, s, sid, other); }
    }
  }

  lemma RunOwnStream(cfg: Config, s: State, sid: Sid)
    requires StreamInv(cfg, s, sid)
    ensures StreamInv(cfg, RunStep(cfg, s, sid), sid)
  {
    var pc := PcOf(s, sid);
    if pc.Joined? { NameNotEmpty(cfg, s.reg.clients[sid], s.origin[sid]); }
    PcStep(cfg, s.reg, s.pods, sid, pc);
    EntryStep(cfg, s.reg, sid, pc);
  }

  lemma RunOtherStream(cfg: Config, s: State, sid: Sid, other: Sid)
    requires StreamInv(cfg, s, other) && other != sid
    ensures StreamInv(cfg, RunStep(cfg, s, sid), other)
  {
    var pc := PcOf(s, sid);
    OtherEntry(cfg, s.reg, sid, pc, other);
    SameEntry(s.reg, NextReg(cfg, s.reg, sid, pc), other, PcOf(s, other));
  }

  lemma SameEntry(g: Registry, g': Registry, sid: Sid, pc: Pc)
    requires PcInv(g, sid, pc) && Entry(g, sid) == Entry(g', sid)
    ensures PcInv(g', sid, pc)
  {}

  /** A callback that changed the registry owes a trigger, and one that owes keeps owing
      until it triggers. */
  lemma ChangeOwes(cfg: Config, g: Registry, pods: Pods, sid: Sid, pc: Pc)
    requires pc.Joined? ==> pc.name != ""
    ensures NextReg(cfg, g, sid, pc) != g ==> Owes(NextPc(cfg, g, pods, sid, pc))
    ensures Owes(pc) ==> Triggers(pc) || Owes(NextPc(cfg, g, pods, sid, pc))
  {}

  lemma RunFresh(cfg: Config, s: State, sid: Sid)
    requires StreamInv(cfg, s, sid) && FreshInv(s)
    ensures FreshInv(RunStep(cfg, s, sid))
  {
    var s', pc := RunStep(cfg, s, sid), PcOf(s, sid);
    if pc.Joined? { NameNotEmpty(cfg, s.reg.clients[sid], s.origin[sid]); }
    ChangeOwes(cfg, s.reg, s.pods, sid, pc);
    assert PcOf(s', sid) == NextPc(cfg, s.reg, s.pods, sid, pc);
    if w: Sid :| Owes(PcOf(s, w)) && w != sid {
      assert Owes(PcOf(s', w));
    }
  }

  /** The steps that touch neither the registry nor the worker. */
  ghost predicate Quiet(step: Step) { step.Open? || step.Begin? || step.Close? || step.PodsChange? }

  lemma QuietStep(cfg: Config, s: State, step: Step)
    requires Quiet(step)
    ensures var s' := Do(cfg, s, step);
            && s'.(pcs := s.pcs, peers := s.peers, pods := s.pods, nodeRole := s.nodeRole) == s
            && (s'.pcs == s.pcs
                || (step.Begin? && BeginsCallback(cfg, s, step.sid, step.r)
                    && s'.pcs == s.pcs[step.sid := WantRead(step.r, PeerInfo(cfg, s.peers, step.sid, step.r).value)])
                || (step.Close? && s'.pcs == s.pcs[step.sid := WantRemove]))
  {}

  lemma QuietInv(cfg: Config, s: State, step: Step)
    requires Inv(cfg, s) && Enabled(s, step) && Quiet(step)
    ensures Inv(cfg, Do(cfg, s, step))
  {
    var s' := Do(cfg, s, step);
    QuietStep(cfg, s, step);
    assert LockInv(s');
    forall sid: Sid ensures StreamInv(cfg, s', sid) { assert StreamInv(cfg, s, sid); }
    if w: Sid :| Owes(PcOf(s, w)) { assert Owes(PcOf(s', w)); }
  }

  lemma WorkInv(cfg: Config, s: State)
    requires Inv(cfg, s) && Enabled(s, Work)
    ensures Inv(cfg, WorkStep(s))
  {
    var s' := WorkStep(s);
    WorkLock(s);
    forall sid: Sid ensures StreamInv(cfg, s', sid) { assert StreamInv(cfg, s, sid); }
    if w: Sid :| Owes(PcOf(s, w)) { assert Owes(PcOf(s', w)); }
  }

  lemma RunStepInv(cfg: Config, s: State, sid: Sid)
    requires Inv(cfg, s) && Enabled(s, Run(sid))
    ensures Inv(cfg, RunStep(cfg, s, sid))
  {
    assert StreamInv(cfg, s, sid);
    RegValid(cfg, s.reg, sid, PcOf(s, sid));
    RunLock(cfg, s, sid);
    RunStreams(cfg, s, sid);
    RunFresh(cfg, s, sid);
  }

  lemma StepInv(cfg: Config, s: State, step: Step)
    requires Inv(cfg, s) && Enabled(s, step)
    ensures Inv(cfg, Do(cfg, s, step))
  {
    match step
    case Run(sid) => RunStepInv(cfg, s, sid);
    case Work => WorkInv(cfg, s);
    case _ => QuietInv(cfg, s, step);
  }

  /** Every interleaving keeps the invariant. */
  lemma {:induction false} RunInv(cfg: Config, steps: seq<Step>)
    requires ValidRun(cfg, steps)
    ensures Inv(cfg, After(cfg, steps))
    decreases |steps|
  {
    if steps == [] {
      InitInv(cfg);
    } else {
      RunInv(cfg, steps[..|steps| - 1]);
      StepInv(cfg, After(cfg, steps[..|steps| - 1]), steps[|steps| - 1]);
    }
  }

  // ---- What every run guarantees

  /** Refcounts are the live streams, the two bucket maps agree, no count is zero,
      confirmations belong to live streams, and closing every stream empties the maps. */
  lemma RegistryMatchesStreams(cfg: Config, steps: seq<Step>)
    requires ValidRun(cfg, steps)
    ensures var g := After(cfg, steps).reg;
            && g.counts.Keys == g.buckets.Keys
            && (forall n :: n in g.counts <==> exists s :: s in g.clients && g.clients[s].name == n)
            && (forall n :: n in g.counts ==> g.counts[n] == |Members(g.clients, n)| > 0)
            && g.known.Keys <= g.clients.Keys
            && (g.clients == map[] ==> g == EMPTY)
  {
    RunInv(cfg, steps);
    var g := After(cfg, steps).reg;
    forall n ensures n in g.counts <==> exists s :: s in g.clients && g.clients[s].name == n {
      assert n in g.counts <==> n in Names(g.clients);
    }
    forall n | n in g.counts ensures |Members(g.clients, n)| > 0 { MembersNonEmpty(g.clients, n); }
    if g.clients == map[] { EmptyWhenAllClosed(g); }
  }

  /** When nothing is in flight the published collection is what getClients returns now;
      while it is stale, some callback or the worker still has to act. */
  lemma NoLostRecomputation(cfg: Config, steps: seq<Step>)
    requires ValidRun(cfg, steps)
    ensures var s := After(cfg, steps);
            && (Quiescent(s) ==> s.published == View(s.reg))
            && (s.published != View(s.reg) ==> SomeoneOwes(s) || s.dirty || !s.worker.Waiting?)
  {
    RunInv(cfg, steps);
  }

  /** A trigger is never issued by a callback that holds the state lock, and the registry
      is only written while its writer holds it alone. */
  lemma LockDiscipline(cfg: Config, steps: seq<Step>, step: Step)
    requires ValidRun(cfg, steps + [step])
    ensures var s, s' := After(cfg, steps), After(cfg, steps + [step]);
            && (s'.dirty && !s.dirty ==> step.Run? && Triggers(PcOf(s, step.sid)))
            && (step.Run? && Triggers(PcOf(s, step.sid)) ==> s.writer != Some(Stream(step.sid))
                                                             && Stream(step.sid) !in s.readers)
            && (s'.reg != s.reg ==> step.Run? && s.writer == Some(Stream(step.sid)) && s.readers == {})
  {
    LastStep(cfg, steps, step);
    RunInv(cfg, steps);
    var s := After(cfg, steps);
    if step.Run? {
      assert s.writer == Some(Stream(step.sid)) <==> WritePc(PcOf(s, step.sid));
    } else if Quiet(step) {
      QuietStep(cfg, s, step);
    }
  }

  lemma LastStep(cfg: Config, steps: seq<Step>, step: Step)
    requires ValidRun(cfg, steps + [step])
    ensures ValidRun(cfg, steps) && Enabled(After(cfg, steps), step)
    ensures After(cfg, steps + [step]) == Do(cfg, After(cfg, steps), step)
  {
    assert (steps + [step])[..|steps|] == steps;
  }

  /** A live stream keeps its name and its pinned role until it is closed. */
  lemma IdentityNeverChanges(cfg: Config, steps: seq<Step>, step: Step, sid: Sid)
    requires ValidRun(cfg, steps + [step])
    requires sid in After(cfg, steps).reg.clients && sid in After(cfg, steps + [step]).reg.clients
    ensures After(cfg, steps + [step]).reg.clients[sid] == After(cfg, steps).reg.clients[sid]
  {
    LastStep(cfg, steps, step);
    RunInv(cfg, steps);
    var s := After(cfg, steps);
    if step.Run? {
      assert StreamInv(cfg, s, step.sid);
      if step.sid == sid { EntryStep(cfg, s.reg, sid, PcOf(s, sid)); }
      else { OtherEntry(cfg, s.reg, step.sid, PcOf(s, step.sid), sid); }
      assert Entry(NextReg(cfg, s.reg, step.sid, PcOf(s, step.sid)), sid) == Entry(s.reg, sid);
    } else if Quiet(step) {
      QuietStep(cfg, s, step);
    }
  }

  /** A bucket loses its mark only when a new stream joins that bucket. */
  lemma MarkClearedOnlyByJoin(cfg: Config, steps: seq<Step>, step: Step, n: string)
    requires ValidRun(cfg, steps + [step])
    requires n in View(After(cfg, steps).reg) && View(After(cfg, steps).reg)[n].knowsLocalCluster
    requires n in View(After(cfg, steps + [step]).reg) && !View(After(cfg, steps + [step]).reg)[n].knowsLocalCluster
    ensures step.Run? && PcOf(After(cfg, steps), step.sid).Publishing?
    ensures step.sid !in After(cfg, steps).reg.clients
    ensures After(cfg, steps + [step]).reg.clients[step.sid].name == n
  {
    LastStep(cfg, steps, step);
    RunInv(cfg, steps);
    var s := After(cfg, steps);
    if step.Run? {
      assert StreamInv(cfg, s, step.sid);
      MarkStep(cfg, s.reg, step.sid, PcOf(s, step.sid), n);
    } else if Quiet(step) {
      QuietStep(cfg, s, step);
    }
  }

  lemma MarkStep(cfg: Config, g: Registry, sid: Sid, pc: Pc, n: string)
    requires Valid(g) && PcInv(g, sid, pc)
    requires n in View(g) && View(g)[n].knowsLocalCluster
    requires n in View(NextReg(cfg, g, sid, pc)) && !View(NextReg(cfg, g, sid, pc))[n].knowsLocalCluster
    ensures pc.Publishing? && sid !in g.clients
    ensures ClientFor(cfg, pc.role, pc.pod).resourceName == n
  {
    match pc
    case Publishing(r, role, pod) =>
      var c := ClientFor(cfg, role, pod);
      if c.resourceName != n { PublishMarks(g, sid, c, role, n); }
    case Confirming(r, name, isNew) => ConfirmMarks(cfg, g, sid, name, r.names, n);
    case Removing => RemoveMarks(g, sid, n);
    case _ =>
  }

  /** In every reachable state the mark means that all live streams of the bucket, and
      there is at least one, have confirmed. */
  lemma MarkMeansAllConfirmed(cfg: Config, steps: seq<Step>, n: string)
    requires ValidRun(cfg, steps)
    requires n in View(After(cfg, steps).reg)
    ensures var g := After(cfg, steps).reg;
            && Members(g.clients, n) != {}
            && (View(g)[n].knowsLocalCluster <==> forall s :: s in g.clients && g.clients[s].name == n ==>
                Confirmed(g.known, s))
  {
    RunInv(cfg, steps);
    var g := After(cfg, steps).reg;
    ViewIsNotVacuous(g);
    assert forall s :: s in Members(g.clients, n) <==> s in g.clients && g.clients[s].name == n;
  }

  /** A follow-up is rejected exactly when the pinned role and the current pod derive to
      another name; a missing pod, or one with the recorded namespace and labels, keeps
      the stream. */
  lemma FollowUpVerdict(cfg: Config, steps: seq<Step>, sid: Sid)
    requires ValidRun(cfg, steps)
    requires PcOf(After(cfg, steps), sid).Read? && PcOf(After(cfg, steps), sid).entry.Some?
    ensures var s := After(cfg, steps);
            var pc := PcOf(s, sid);
            var c := pc.entry.value;
            var d := Derive(s.pods, pc.peer);
            var end := AfterDecide(cfg, pc.r, pc.peer, pc.entry, d);
            && NextPc(cfg, s.reg, s.pods, sid, pc) == Decide(pc.r, pc.peer, pc.entry, d)
            && sid in s.origin && sid in s.reg.clients && s.reg.clients[sid] == c
            && (end.Rejecting? <==> d.Resolved? && ClientFor(cfg, c.originalRole, d.pod).resourceName != c.name)
            && (!end.Rejecting? ==> end == Joined(pc.r, c.name, false))
            && (d.PodMissing? ==> end == Joined(pc.r, c.name, false))
            && (d.Resolved? && SamePod(d.pod, s.origin[sid]) ==> end == Joined(pc.r, c.name, false))
  {
    RunInv(cfg, steps);
    assert StreamInv(cfg, After(cfg, steps), sid);
  }

  /** The pod fields the cache key is made of; locality reaches it through the labels. */
  ghost predicate SamePod(a: Option<Pod>, b: Option<Pod>) {
    match (a, b)
    case (None, None) => true
    case (Some(p), Some(q)) => p.namespace == q.namespace && p.labels == q.labels
    case _ => false
  }

  /** A request that reuses the rewritten node is still a gateway request. */
  lemma RewrittenNodePassesGate(cfg: Config, steps: seq<Step>, sid: Sid, r: Request)
    requires ValidRun(cfg, steps + [Run(sid)]) && !cfg.xdsAuth
    requires PcOf(After(cfg, steps), sid).Rewrite?
    requires sid in After(cfg, steps + [Run(sid)]).nodeRole
    requires r.role == After(cfg, steps + [Run(sid)]).nodeRole[sid]
    ensures Entry(After(cfg, steps).reg, sid).Some? && r.role == Entry(After(cfg, steps).reg, sid).value.name
    ensures BeginsCallback(cfg, After(cfg, steps + [Run(sid)]), sid, r)
  {
    LastStep(cfg, steps, Run(sid));
    RunInv(cfg, steps);
    var s := After(cfg, steps);
    assert StreamInv(cfg, s, sid);
    NameNotEmpty(cfg, s.reg.clients[sid], s.origin[sid]);
  }

  // ---- A rejected request leaves no trace

  ghost predicate Undecided(pc: Pc) { pc.WantRead? || pc.Reading? || pc.Read? || pc.Decide? || pc.Rejecting? }

  lemma UndecidedBefore(cfg: Config, s: State, step: Step, sid: Sid)
    requires StreamInv(cfg, s, sid) && Enabled(s, step)
    requires Undecided(PcOf(Do(cfg, s, step), sid)) && !PcOf(s, sid).Idle?
    ensures Undecided(PcOf(s, sid))
    ensures step == Run(sid) ==> Do(cfg, s, step).reg == s.reg && Do(cfg, s, step).dirty == s.dirty
  {
    if step == Run(sid) && PcOf(s, sid).Joined? { NameNotEmpty(cfg, s.reg.clients[sid], s.origin[sid]); }
    if Quiet(step) { QuietStep(cfg, s, step); }
  }

  /** Step k of the run left the registry and the recomputation request alone. */
  ghost predicate NoTrace(cfg: Config, steps: seq<Step>, k: nat)
    requires k < |steps|
  {
    && After(cfg, steps[..k + 1]).reg == After(cfg, steps[..k]).reg
    && After(cfg, steps[..k + 1]).dirty == After(cfg, steps[..k]).dirty
  }

  /** From the start of a callback that ends rejected, none of its steps changed the
      registry or asked for a recomputation. */
  lemma {:induction false} RejectionChangesNothing(cfg: Config, steps: seq<Step>, sid: Sid, start: nat)
    requires ValidRun(cfg, steps) && start <= |steps|
    requires Undecided(PcOf(After(cfg, steps), sid))
    requires forall k :: start <= k <= |steps| ==> !PcOf(After(cfg, steps[..k]), sid).Idle?
    ensures forall k :: start <= k < |steps| && steps[k] == Run(sid) ==> NoTrace(cfg, steps, k)
    decreases |steps|
  {
    if start < |steps| {
      var front := steps[..|steps| - 1];
      assert steps[..|steps|] == steps && !PcOf(After(cfg, front), sid).Idle?;
      UndecidedLast(cfg, steps, sid);
      assert forall k :: 0 <= k <= |front| ==> front[..k] == steps[..k];
      RejectionChangesNothing(cfg, front, sid, start);
      forall k | start <= k < |steps| && steps[k] == Run(sid) ensures NoTrace(cfg, steps, k) {
        if k < |front| { assert NoTrace(cfg, front, k); }
      }
    }
  }

  lemma UndecidedLast(cfg: Config, steps: seq<Step>, sid: Sid)
    requires steps != [] && ValidRun(cfg, steps)
    requires Undecided(PcOf(After(cfg, steps), sid)) && !PcOf(After(cfg, steps[..|steps| - 1]), sid).Idle?
    ensures Undecided(PcOf(After(cfg, steps[..|steps| - 1]), sid))
    ensures steps[|steps| - 1] == Run(sid) ==> NoTrace(cfg, steps, |steps| - 1)
  {
    var front, last := steps[..|steps| - 1], steps[|steps| - 1];
    assert steps == front + [last] && steps[..|steps|] == steps;
    LastStep(cfg, front, last);
    RunInv(cfg, front);
    assert StreamInv(cfg, After(cfg, front), sid);
    UndecidedBefore(cfg, After(cfg, front), last, sid);
  }

  // ---- Draining: with no new callbacks the system comes to rest, up to date

  ghost predicate Internal(step: Step) { step.Run? || step.Work? }

  /** Something in flight can always move: the lock cannot deadlock. */
  lemma SomethingCanMove(cfg: Config, s: State) returns (step: Step)
    requires Inv(cfg, s) && !Quiescent(s)
    ensures Internal(step) && Enabled(s, step)
  {
    if s.writer.Some? {
      step := Run(s.writer.value.sid);
    } else if Recompute in s.readers {
      step := Work;
    } else if h :| h in s.readers {
      step := Run(h.sid);
    } else if sid: Sid :| !PcOf(s, sid).Idle? {
      step := Run(sid);
    } else {
      step := Work;
    }
  }

  ghost function Rank(pc: Pc): nat {
    match pc
    case Idle => 0
    case WantRead(_, _) => 12
    case Reading(_, _) => 11
    case Read(_, _, _) => 10
    case Decide(_, _, _, _) => 9
    case WantPublish(_, _, _) => 8
    case Publishing(_, _, _) => 7
    case Joined(_, _, _) => 6
    case WantConfirm(_, _, _) => 5
    case Confirming(_, _, _) => 4
    case ConfirmTrigger(_, _) => 3
    case Rewrite(_, _) => 2
    case WantRemove => 3
    case Removing => 2
    case _ => 1
  }

  lemma RankDrops(cfg: Config, g: Registry, pods: Pods, sid: Sid, pc: Pc)
    requires !pc.Idle?
    ensures Rank(NextPc(cfg, g, pods, sid, pc)) < Rank(pc)
  {}

  ghost function TotalRank(pcs: map<Sid, Pc>): nat
    decreases |pcs|
  {
    if pcs == map[] then 0 else
      var k :| k in pcs;
      assert |pcs - {k}| < |pcs| by { assert (pcs - {k}).Keys == pcs.Keys - {k}; }
      Rank(pcs[k]) + TotalRank(pcs - {k})
  }

  lemma {:induction false} TotalRankSplit(pcs: map<Sid, Pc>, k: Sid)
    requires k in pcs
    ensures TotalRank(pcs) == Rank(pcs[k]) + TotalRank(pcs - {k})
    decreases |pcs|
  {
    var j :| j in pcs && TotalRank(pcs) == Rank(pcs[j]) + TotalRank(pcs - {j});
    assert (pcs - {j}).Keys == pcs.Keys - {j} && (pcs - {k}).Keys == pcs.Keys - {k};
    if j != k {
      TotalRankSplit(pcs - {j}, k);
      TotalRankSplit(pcs - {k}, j);
      assert pcs - {j} - {k} == pcs - {k} - {j};
    }
  }

  lemma TotalRankUpdate(pcs: map<Sid, Pc>, k: Sid, pc: Pc)
    ensures TotalRank(pcs[k := pc]) == TotalRank(pcs - {k}) + Rank(pc)
    ensures TotalRank(pcs) == TotalRank(pcs - {k}) + if k in pcs then Rank(pcs[k]) else 0
  {
    TotalRankSplit(pcs[k := pc], k);
    assert pcs[k := pc] - {k} == pcs - {k};
    if k in pcs { TotalRankSplit(pcs, k); } else { assert pcs - {k} == pcs; }
  }

  ghost function WorkerRank(w: Worker): nat {
    match w
    case Waiting => 0
    case Storing(_) => 1
    case Snapshotting => 2
    case Woken => 3
  }

  ghost function Measure(s: State): nat {
    5 * TotalRank(s.pcs) + (if s.dirty then 4 else 0) + WorkerRank(s.worker)
  }

  lemma InternalStepsShrink(cfg: Config, s: State, step: Step)
    requires Enabled(s, step) && Internal(step)
    ensures Measure(Do(cfg, s, step)) < Measure(s)
  {
    if step.Run? {
      var pc := PcOf(s, step.sid);
      var pc' := NextPc(cfg, s.reg, s.pods, step.sid, pc);
      RankDrops(cfg, s.reg, s.pods, step.sid, pc);
      TotalRankUpdate(s.pcs, step.sid, pc');
    }
  }

  lemma {:induction false} DrainLength(cfg: Config, steps: seq<Step>, drain: seq<Step>)
    requires ValidRun(cfg, steps + drain)
    requires forall i :: 0 <= i < |drain| ==> Internal(drain[i])
    ensures |drain| + Measure(After(cfg, steps + drain)) <= Measure(After(cfg, steps))
    decreases |drain|
  {
    if drain == [] {
      assert steps + drain == steps;
    } else {
      var front, last := drain[..|drain| - 1], drain[|drain| - 1];
      assert steps + drain == (steps + front) + [last];
      LastStep(cfg, steps + front, last);
      DrainLength(cfg, steps, front);
      InternalStepsShrink(cfg, After(cfg, steps + front), last);
    }
  }

  /** After any run, in-flight work alone ends within a bound, and a state where none of
      it can move is at rest with the current clients published. */
  lemma DrainEndsFresh(cfg: Config, steps: seq<Step>, drain: seq<Step>)
    requires ValidRun(cfg, steps + drain)
    requires forall i :: 0 <= i < |drain| ==> Internal(drain[i])
    ensures |drain| <= Measure(After(cfg, steps))
    ensures var s := After(cfg, steps + drain);
            (forall step :: Internal(step) ==> !Enabled(s, step)) ==> Quiescent(s) && s.published == View(s.reg)
  {
    DrainLength(cfg, steps, drain);
    RunInv(cfg, steps + drain);
    var s := After(cfg, steps + drain);
    if !Quiescent(s) { var step := SomethingCanMove(cfg, s); }
  }
}
