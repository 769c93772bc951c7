/** The four maps of callbacksCollection and the critical sections that update them
    (pkg/krtcollections/uniqueclients.go). Each section is a function on the registry;
    the class below is the code that runs it in place. */
module ClientRegistry {
  import opened Common
  import opened ClientIdentity

  const U64 := 0x1_0000_0000_0000_0000

  /** go-control-plane numbers streams upwards from 1 in an int64. */
  type Sid = x: int | 0 < x < 0x8000_0000_0000_0000 witness 1

  datatype Connected = Connected(name: string, originalRole: string)

  datatype Registry = Registry(clients: map<Sid, Connected>, counts: map<string, nat>,
                               buckets: map<string, Client>, known: map<Sid, bool>)

  const EMPTY := Registry(map[], map[], map[], map[])

  function Count(counts: map<string, nat>, name: string): nat {
    if name in counts then counts[name] else 0
  }

  predicate Confirmed(known: map<Sid, bool>, sid: Sid) { sid in known && known[sid] }

  /** The write section of `add`: a new stream joins its bucket. */
  function Publish(g: Registry, sid: Sid, c: Client, role: string): Registry {
    var name := c.resourceName;
    Registry(g.clients[sid := Connected(name, role)],
             g.counts[name := (Count(g.counts, name) + 1) % U64],
             if Count(g.counts, name) == 0 then g.buckets[name := c] else g.buckets,
             g.known)
  }

  /** The section of `del`; the count is a uint64 and would wrap below zero. */
  function Remove(g: Registry, sid: Sid): Registry {
    var g' := Registry(g.clients - {sid}, g.counts, g.buckets, g.known - {sid});
    if sid !in g.clients then g'
    else
      var name := g.clients[sid].name;
      if Count(g.counts, name) == 1 then g'.(counts := g.counts - {name}, buckets := g.buckets - {name})
      else g'.(counts := g.counts[name := (Count(g.counts, name) - 1) % U64])
  }

  /** Whether a request proves that its stream knows the local cluster. */
  predicate Confirms(cfg: Config, g: Registry, sid: Sid, name: string, names: seq<string>) {
    && !Confirmed(g.known, sid)
    && name in g.buckets
    && cfg.localCluster(g.buckets[name]) != ""
    && cfg.localCluster(g.buckets[name]) in names
  }

  /** The section of `tryConfirmLocalCluster`. */
  function Confirm(cfg: Config, g: Registry, sid: Sid, name: string, names: seq<string>): Registry {
    if Confirms(cfg, g, sid, name, names) then g.(known := g.known[sid := true]) else g
  }

  function Members(clients: map<Sid, Connected>, name: string): set<Sid> {
    set s | s in clients && clients[s].name == name
  }

  function Names(clients: map<Sid, Connected>): set<string> {
    set s | s in clients :: clients[s].name
  }

  /** The refcounts are those the live streams call for. */
  ghost predicate CountsLive(clients: map<Sid, Connected>, counts: map<string, nat>) {
    && counts.Keys == Names(clients)
    && forall n :: n in counts ==> counts[n] == |Members(clients, n)|
  }

  /** Every stream of the bucket has named its local cluster. */
  ghost predicate AllConfirmed(g: Registry, name: string) {
    forall s :: s in Members(g.clients, name) ==> Confirmed(g.known, s)
  }

  /** What getClients reports: each bucket once, marked by its streams. */
  ghost function View(g: Registry): map<string, Client> {
    map n | n in g.buckets :: g.buckets[n].(knowsLocalCluster := AllConfirmed(g, n))
  }

  ghost predicate Valid(g: Registry) {
    && CountsLive(g.clients, g.counts)
    && g.buckets.Keys == g.counts.Keys
    && (forall n :: n in g.buckets ==> g.buckets[n].resourceName == n)
    && (forall s :: s in g.known ==> s in g.clients && g.known[s])
  }

  lemma MembersNonEmpty(clients: map<Sid, Connected>, name: string)
    ensures name in Names(clients) <==> Members(clients, name) != {}
    ensures name in Names(clients) ==> |Members(clients, name)| > 0
  {
    if name in Names(clients) {
      var s :| s in clients && clients[s].name == name;
      assert s in Members(clients, name);
    }
    if m :| m in Members(clients, name) { assert clients[m].name in Names(clients); }
  }

  /** A set of numbers below n has at most n of them. */
  lemma {:induction false} BoundedSetSize(s: set<int>, n: nat)
    requires forall x :: x in s ==> 0 <= x < n
    ensures |s| <= n
    decreases n
  {
    if n == 0 {
      assert forall x :: x !in s;
      assert s == {};
    } else {
      BoundedSetSize(s - {n - 1}, n - 1);
      if n - 1 in s { assert |s - {n - 1}| == |s| - 1; } else { assert s - {n - 1} == s; }
    }
  }

  /** A refcount never reaches the width of its type. */
  lemma MembersBelowWidth(clients: map<Sid, Connected>, name: string)
    ensures |Members(clients, name)| < U64 - 1
  {
    var m: set<int> := set s | s in Members(clients, name);
    assert m == Members(clients, name);
    BoundedSetSize(m, 0x8000_0000_0000_0000);
  }

  lemma PublishMembers(clients: map<Sid, Connected>, sid: Sid, c: Connected, n: string)
    requires sid !in clients
    ensures Members(clients[sid := c], n) == if n == c.name then Members(clients, n) + {sid} else Members(clients, n)
    ensures |Members(clients[sid := c], n)| == |Members(clients, n)| + if n == c.name then 1 else 0
  {
    assert sid !in Members(clients, n);
    assert Members(clients[sid := c], n) == if n == c.name then Members(clients, n) + {sid} else Members(clients, n);
  }

  lemma RemoveMembers(clients: map<Sid, Connected>, sid: Sid, n: string)
    ensures Members(clients - {sid}, n) == Members(clients, n) - {sid}
  {}

  /** Joining keeps the refcounts equal to the live streams. */
  lemma PublishValid(g: Registry, sid: Sid, c: Client, role: string)
    requires Valid(g) && sid !in g.clients
    ensures Valid(Publish(g, sid, c, role))
  {
    var g', name := Publish(g, sid, c, role), c.resourceName;
    PublishNames(g.clients, sid, Connected(name, role));
    assert g'.counts.Keys == Names(g'.clients);
    forall n | n in g'.counts ensures g'.counts[n] == |Members(g'.clients, n)| {
      PublishCounts(g, sid, c, role, n);
    }
  }

  lemma PublishCounts(g: Registry, sid: Sid, c: Client, role: string, n: string)
    requires Valid(g) && sid !in g.clients
    ensures Count(Publish(g, sid, c, role).counts, n) == |Members(Publish(g, sid, c, role).clients, n)|
  {
    MembersNonEmpty(g.clients, n);
    MembersBelowWidth(g.clients, n);
    NoWrap(|Members(g.clients, n)|);
    PublishMembers(g.clients, sid, Connected(c.resourceName, role), n);
  }

  lemma NoWrap(n: nat)
    requires n < U64 - 1
    ensures (n + 1) % U64 == n + 1
    ensures n > 0 ==> (n - 1) % U64 == n - 1
  {}

  lemma PublishNames(clients: map<Sid, Connected>, sid: Sid, c: Connected)
    requires sid !in clients
    ensures Names(clients[sid := c]) == Names(clients) + {c.name}
  {
    var after := clients[sid := c];
    forall n | n in Names(clients) ensures n in Names(after) {
      var s :| s in clients && clients[s].name == n;
      assert s in after && after[s].name == n;
    }
    assert after[sid].name in Names(after);
    forall n | n in Names(after) ensures n in Names(clients) + {c.name} {
      var s :| s in after && after[s].name == n;
      if s != sid { assert clients[s].name in Names(clients); }
    }
  }

  /** Leaving keeps them equal too, and drops the bucket with its last stream. */
  lemma RemoveValid(g: Registry, sid: Sid)
    requires Valid(g)
    ensures Valid(Remove(g, sid))
    ensures sid !in Remove(g, sid).clients && sid !in Remove(g, sid).known
  {
    var g' := Remove(g, sid);
    if sid !in g.clients {
      assert g'.clients == g.clients;
    } else {
      var name := g.clients[sid].name;
      assert name in Names(g.clients);
      MembersNonEmpty(g.clients, name);
      MembersBelowWidth(g.clients, name);
      assert sid in Members(g.clients, name);
      forall n ensures n in Names(g'.clients) <==> n in g'.counts {
        RemoveCounts(g, sid, n);
      }
      forall n | n in g'.counts ensures g'.counts[n] == |Members(g'.clients, n)| {
        RemoveCounts(g, sid, n);
      }
      assert g'.counts.Keys == Names(g'.clients);
    }
  }

  lemma RemoveCounts(g: Registry, sid: Sid, n: string)
    requires Valid(g) && sid in g.clients
    ensures n in Names(Remove(g, sid).clients) <==> n in Remove(g, sid).counts
    ensures n in Remove(g, sid).counts ==> Remove(g, sid).counts[n] == |Members(Remove(g, sid).clients, n)|
  {
    var name := g.clients[sid].name;
    assert name in Names(g.clients) && sid in Members(g.clients, name);
    RemoveMembers(g.clients, sid, n);
    MembersNonEmpty(g.clients, n);
    MembersNonEmpty(g.clients - {sid}, n);
    MembersBelowWidth(g.clients, name);
    NoWrap(|Members(g.clients, name)|);
    if n != name {
      assert Members(g.clients, n) - {sid} == Members(g.clients, n);
    } else {
      assert |Members(g.clients, name) - {sid}| == |Members(g.clients, name)| - 1;
    }
  }

  lemma ConfirmValid(cfg: Config, g: Registry, sid: Sid, name: string, names: seq<string>)
    requires Valid(g) && sid in g.clients
    ensures Valid(Confirm(cfg, g, sid, name, names))
  {}

  /** A listed bucket has a live stream, so "every stream confirmed" is never vacuous. */
  lemma ViewIsNotVacuous(g: Registry)
    requires Valid(g)
    ensures View(g).Keys == Names(g.clients)
    ensures forall n :: n in View(g) ==> Members(g.clients, n) != {} && View(g)[n].resourceName == n
  {
    forall n | n in View(g) ensures Members(g.clients, n) != {} { MembersNonEmpty(g.clients, n); }
  }

  /** With no stream left, nothing is left. */
  lemma EmptyWhenAllClosed(g: Registry)
    requires Valid(g) && g.clients == map[]
    ensures g == EMPTY
  {
    assert Names(g.clients) == {};
    assert g.counts.Keys == {} && g.buckets.Keys == {} && g.known.Keys == {};
    assert g.counts == map[] && g.buckets == map[] && g.known == map[];
  }

  lemma EmptyIsValid()
    ensures Valid(EMPTY) && View(EMPTY) == map[]
  {
    assert Names(EMPTY.clients) == {};
  }

  /** Adding a stream can only clear the mark of the bucket it joins. */
  lemma PublishMarks(g: Registry, sid: Sid, c: Client, role: string, n: string)
    requires Valid(g) && sid !in g.clients
    requires n in View(g) && n != c.resourceName
    ensures n in View(Publish(g, sid, c, role)) && View(Publish(g, sid, c, role))[n] == View(g)[n]
  {
    PublishMembers(g.clients, sid, Connected(c.resourceName, role), n);
    if Count(g.counts, c.resourceName) == 0 && n in g.buckets
    { assert Publish(g, sid, c, role).buckets[n] == g.buckets[n]; }
  }

  /** Removing a stream never clears a mark. */
  lemma RemoveMarks(g: Registry, sid: Sid, n: string)
    requires Valid(g) && n in View(g) && n in View(Remove(g, sid))
    ensures View(g)[n].knowsLocalCluster ==> View(Remove(g, sid))[n].knowsLocalCluster
  {
    RemoveMembers(g.clients, sid, n);
  }

  /** Confirming a stream never clears a mark. */
  lemma ConfirmMarks(cfg: Config, g: Registry, sid: Sid, name: string, names: seq<string>, n: string)
    requires n in View(g)
    ensures n in View(Confirm(cfg, g, sid, name, names))
    ensures View(g)[n].knowsLocalCluster ==> View(Confirm(cfg, g, sid, name, names))[n].knowsLocalCluster
  {}

  datatype Verdict = Rejected | Accepted(name: string, isNew: bool)

  /** callbacksCollection, one callback at a time. */
  class CallbacksCollection {
    var clients: map<Sid, Connected>
    var uniqClientsCount: map<string, nat>
    var uniqClients: map<string, Client>
    var knownLocalClusterBySid: map<Sid, bool>
    var triggers: nat

    ghost function State(): Registry
      reads this
    {
      Registry(clients, uniqClientsCount, uniqClients, knownLocalClusterBySid)
    }

    /** Every live stream was admitted by the gateway-role check of OnStreamRequest. */
    ghost predicate Sound()
      reads this
    {
      Valid(State()) && forall s :: s in clients ==> IsGatewayCacheKey(clients[s].name)
    }

    constructor ()
      ensures State() == EMPTY && Sound() && triggers == 0
    {
      clients, uniqClientsCount, uniqClients, knownLocalClusterBySid := map[], map[], map[], map[];
      triggers := 0;
      new;
      EmptyIsValid();
    }

    /** Releases a stream: its entry and confirmation go, its bucket goes with its last
        stream, every other stream and bucket stays. */
    method Del(sid: Sid) returns (gone: Option<Client>)
      requires Valid(State())
      modifies `clients, `uniqClientsCount, `uniqClients, `knownLocalClusterBySid
      ensures Valid(State()) && State() == Remove(old(State()), sid)
      ensures clients == old(clients) - {sid} && knownLocalClusterBySid == old(knownLocalClusterBySid) - {sid}
      ensures gone.Some? <==> sid in old(clients) && Members(old(clients), old(clients)[sid].name) == {sid}
      ensures gone.Some? ==> gone.value == old(uniqClients)[old(clients)[sid].name]
      ensures forall n :: n in uniqClients ==> n in old(uniqClients) && uniqClients[n] == old(uniqClients)[n]
    {
      RemoveValid(State(), sid);
      gone := None;
      var present := sid in clients;
      var entry := if present then clients[sid] else Connected("", "");
      ghost var before := clients;
      clients, knownLocalClusterBySid := clients - {sid}, knownLocalClusterBySid - {sid};
      if present {
        var name := entry.name;
        var current := Count(uniqClientsCount, name);
        ghost var m := Members(before, name);
        assert sid in m && name in Names(before);
        assert current == |m|;
        if current == 1 {
          gone := Some(uniqClients[name]);
          uniqClientsCount, uniqClients := uniqClientsCount - {name}, uniqClients - {name};
          assert |m - {sid}| == 0;
        } else {
          uniqClientsCount := uniqClientsCount[name := (current - 1) % U64];
        }
      }
    }

    method StreamClosed(sid: Sid)
      requires Sound()
      modifies this
      ensures Sound() && State() == Remove(old(State()), sid)
      ensures triggers == old(triggers) + 1
    {
      var _ := Del(sid);
      triggers := triggers + 1;
    }

    /** An established stream keeps its name or is rejected, and nothing changes; a new
        stream is published unless the version or the pod lookup fails. */
    method Add(cfg: Config, pods: Pods, sid: Sid, r: Request, peer: Peer) returns (v: Verdict)
      requires Valid(State())
      modifies `clients, `uniqClientsCount, `uniqClients
      ensures Valid(State())
      ensures v == AddVerdict(cfg, old(State()), pods, sid, r, peer)
      ensures sid !in old(clients) ==>
                (v.Rejected? <==> !r.versionOk || (peer.podRef.Some? && peer.podRef.value !in pods))
      ensures v.Accepted? && v.isNew ==>
                State() == Publish(old(State()), sid, ClientFor(cfg, peer.role, Derive(pods, peer).pod), peer.role)
      ensures !(v.Accepted? && v.isNew) ==> State() == old(State())
    {
      var known := sid in clients;
      var p := if known then peer.(role := clients[sid].originalRole) else peer;
      var d := Derive(pods, p);
      if known {
        var name := clients[sid].name;
        if d.PodMissing? { return Accepted(name, false); }
        if ClientFor(cfg, p.role, d.pod).resourceName != name { return Rejected; }
        return Accepted(name, false);
      }
      if !r.versionOk { return Rejected; }
      if d.PodMissing? { return Rejected; }
      var c := ClientFor(cfg, p.role, d.pod);
      PublishValid(State(), sid, c, p.role);
      var name := c.resourceName;
      var current := Count(uniqClientsCount, name);
      clients := clients[sid := Connected(name, p.role)];
      uniqClientsCount := uniqClientsCount[name := (current + 1) % U64];
      if current == 0 { uniqClients := uniqClients[name := c]; }
      return Accepted(name, true);
    }

    /** Recorded exactly for a stream not yet known whose request names the local cluster of the
        bucket, where the bucket has one. */
    method TryConfirmLocalCluster(cfg: Config, sid: Sid, name: string, r: Request) returns (changed: bool)
      requires Valid(State()) && sid in clients
      modifies `knownLocalClusterBySid
      ensures Valid(State()) && State() == Confirm(cfg, old(State()), sid, name, r.names)
      ensures changed <==>
              (!(sid in old(knownLocalClusterBySid) && old(knownLocalClusterBySid)[sid]) && name in uniqClients
               && cfg.localCluster(uniqClients[name]) != "" && cfg.localCluster(uniqClients[name]) in r.names)
      ensures knownLocalClusterBySid ==
              if changed then old(knownLocalClusterBySid)[sid := true] else old(knownLocalClusterBySid)
    {
      if Confirmed(knownLocalClusterBySid, sid) { return false; }
      if name !in uniqClients { return false; }
      var local := cfg.localCluster(uniqClients[name]);
      if local == "" { return false; }
      if local !in r.names { return false; }
      knownLocalClusterBySid := knownLocalClusterBySid[sid := true];
      return true;
    }

    method ObserveLocalClusterRequest(cfg: Config, sid: Sid, name: string, r: Request)
      requires Valid(State()) && sid in clients
      modifies `knownLocalClusterBySid, `triggers
      ensures Valid(State())
      ensures State() == if r.endpoints then Confirm(cfg, old(State()), sid, name, r.names) else old(State())
      ensures triggers == old(triggers) + 1 <==>
              (r.endpoints && !(sid in old(knownLocalClusterBySid) && old(knownLocalClusterBySid)[sid])
               && name in uniqClients
               && cfg.localCluster(uniqClients[name]) != "" && cfg.localCluster(uniqClients[name]) in r.names)
      ensures triggers == old(triggers) + if State() == old(State()) then 0 else 1
    {
      if !r.endpoints { return; }
      var changed := TryConfirmLocalCluster(cfg, sid, name, r);
      if changed { triggers := triggers + 1; }
    }

    /** One accepted request: what the registry becomes, the role written back to the
        node, and a trigger whenever the published view changed. */
    method NewStream(cfg: Config, pods: Pods, sid: Sid, r: Request, peer: Peer) returns (role: Option<string>)
      requires Sound() && IsGatewayCacheKey(peer.role)
      modifies this
      ensures Sound()
      ensures role.Some? <==> AddVerdict(cfg, old(State()), pods, sid, r, peer).Accepted?
      ensures role.None? ==> State() == old(State()) && triggers == old(triggers)
      ensures role.Some? ==> sid in clients && role.value == clients[sid].name && IsGatewayCacheKey(role.value)
      ensures forall s :: s in old(clients) ==> s in clients && clients[s] == old(clients)[s]
      ensures View(State()) != old(View(State())) ==> triggers > old(triggers)
    {
      var v := Add(cfg, pods, sid, r, peer);
      if v.Rejected? { return None; }
      if v.isNew { RewrittenRoleIsGatewayKey(cfg, peer.role, Derive(pods, peer).pod); }
      if v.name == "" { return None; }
      ObserveLocalClusterRequest(cfg, sid, v.name, r);
      if v.isNew { triggers := triggers + 1; }
      return Some(v.name);
    }

    /** The buckets that some unconfirmed stream holds back. */
    method UnconfirmedBuckets() returns (held: set<string>)
      ensures forall n :: n in held <==> !AllConfirmed(State(), n)
    {
      held := {};
      var sids := clients.Keys;
      while sids != {}
        invariant sids <= clients.Keys
        invariant forall n :: n in held ==> !AllConfirmed(State(), n)
        invariant forall s :: s in clients && s !in sids && !Confirmed(knownLocalClusterBySid, s) ==>
                  clients[s].name in held
        decreases |sids|
      {
        var s :| s in sids;
        sids := sids - {s};
        if !Confirmed(knownLocalClusterBySid, s) {
          assert s in Members(clients, clients[s].name);
          held := held + {clients[s].name};
        }
      }
    }

    /** Each bucket exactly once, marked exactly when all its live streams confirmed. */
    method GetClients() returns (out: seq<Client>)
      requires Valid(State())
      ensures |out| == |uniqClients|
      ensures forall i, j :: 0 <= i < j < |out| ==> out[i].resourceName != out[j].resourceName
      ensures forall c :: c in out <==> c.resourceName in View(State()) && c == View(State())[c.resourceName]
    {
      var held := UnconfirmedBuckets();
      out := ListBuckets(uniqClients, held);
      MarkedIsView(State(), held);
      ListingMeans(out, View(State()));
    }
  }

  lemma MarkedIsView(g: Registry, held: set<string>)
    requires forall n :: n in held <==> !AllConfirmed(g, n)
    ensures View(g) == Marked(g.buckets, held)
  {
  }

  lemma ListingMeans(out: seq<Client>, view: map<string, Client>)
    requires Listing(out, view.Keys, view) && forall n :: n in view ==> view[n].resourceName == n
    ensures forall c :: c in out <==> c.resourceName in view && c == view[c.resourceName]
  {
  }

  function Marked(buckets: map<string, Client>, held: set<string>): map<string, Client> {
    map n | n in buckets :: buckets[n].(knowsLocalCluster := n !in held)
  }

  method ListBuckets(buckets: map<string, Client>, held: set<string>) returns (out: seq<Client>)
    requires forall n :: n in buckets ==> buckets[n].resourceName == n
    ensures Listing(out, buckets.Keys, Marked(buckets, held)) && |out| == |buckets|
  {
    out := [];
    var names := buckets.Keys;
    ghost var view := Marked(buckets, held);
    while names != {}
      invariant names <= buckets.Keys && |out| == |buckets.Keys - names|
      invariant Listing(out, buckets.Keys - names, view)
      decreases |names|
    {
      var n :| n in names;
      ListingSnoc(out, buckets.Keys - names, view, n);
      Shrink(buckets.Keys, names, n);
      out, names := out + [buckets[n].(knowsLocalCluster := n !in held)], names - {n};
    }
    assert buckets.Keys - {} == buckets.Keys;
  }

  /** `out` lists the view of the names in `done`, each once. */
  ghost predicate Listing(out: seq<Client>, done: set<string>, view: map<string, Client>) {
    && done <= view.Keys
    && (forall i :: 0 <= i < |out| ==> out[i].resourceName in done && out[i] == view[out[i].resourceName])
    && (forall i, j :: 0 <= i < j < |out| ==> out[i].resourceName != out[j].resourceName)
    && (forall n :: n in done ==> view[n] in out)
  }

  lemma ListingSnoc(out: seq<Client>, done: set<string>, view: map<string, Client>, n: string)
    requires Listing(out, done, view) && n in view && n !in done && view[n].resourceName == n
    ensures Listing(out + [view[n]], done + {n}, view)
  {
    var out' := out + [view[n]];
    forall m | m in done + {n} ensures view[m] in out' {
      if m == n { assert out'[|out|] == view[n]; }
    }
  }

  /** The decision of `add`: follow-ups compare a fresh derivation from the pinned role. */
  function AddVerdict(cfg: Config, g: Registry, pods: Pods, sid: Sid, r: Request, peer: Peer): Verdict {
    if sid in g.clients then
      var c := g.clients[sid];
      var d := Derive(pods, peer.(role := c.originalRole));
      if d.Resolved? && ClientFor(cfg, c.originalRole, d.pod).resourceName != c.name then Rejected
      else Accepted(c.name, false)
    else if r.versionOk && Derive(pods, peer).Resolved? then
      Accepted(ClientFor(cfg, peer.role, Derive(pods, peer).pod).resourceName, true)
    else Rejected
  }
}
