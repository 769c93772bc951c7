/** The caching validator and the memo under concurrent callers (pkg/validator/cache.go,
    memo.go). Callers interleave at every cache access, at joining a flight, around the
    inner call and at storing its result; either cache may drop any entry at any time. */
module ValidatorProtocol {
  import opened Common
  import opened ValidatorCache

  /** A call validates a bootstrap, or a resource through the memo. */
  datatype Call = Direct(b: Bootstrap) | Memoised(resource: string)

  ghost function BootstrapOf(env: Env, call: Call): Bootstrap {
    match call
    case Direct(b) => b
    case Memoised(r) => env.wrap(r)
  }

  datatype Pc =
    | MemoLookup
    | Lookup
    | Join(key: string)
    | Calling(key: string, flight: nat)            // leader: the inner validator is running
    | Store(key: string, flight: nat, o: Outcome)  // leader: about to add the verdict
    | Finish(key: string, flight: nat, o: Outcome) // leader: about to release the waiters
    | Wait(key: string, flight: nat)
    | CallingUncached                              // no key: straight to the inner validator
    | Return(o: Outcome)
    | Done(o: Outcome)

  datatype Task = Task(call: Call, pc: Pc)

  datatype State = State(
    tasks: seq<Task>,
    cache: map<string, CachedResult>,
    memo: map<string, CachedResult>,
    leader: map<string, nat>,             // key -> flight now in singleflight's map
    owner: seq<nat>,                      // flight -> task that leads it
    result: map<nat, Outcome>,            // flight -> what it handed to its waiters
    failures: set<(Option<string>, string)>) // transient errors the inner validator produced, by key

  datatype Step =
    | Arrive(call: Call)
    | Run(id: nat)
    | InnerReturns(id: nat, o: Outcome)
    | EvictCache(key: string)
    | EvictMemo(key: string)

  const INIT := State([], map[], map[], map[], [], map[], {})

  ghost predicate Enabled(env: Env, s: State, step: Step) {
    match step
    case Run(id) =>
      && id < |s.tasks|
      && var pc := s.tasks[id].pc;
      && !pc.Done? && !pc.Calling? && !pc.CallingUncached?
      && (pc.Wait? ==> pc.flight in s.result)
    case InnerReturns(id, o) =>
      && id < |s.tasks|
      && (s.tasks[id].pc.Calling? || s.tasks[id].pc.CallingUncached?)
      && InnerMay(env, BootstrapOf(env, s.tasks[id].call), o)
    case _ => true
  }

  /** Where the caller goes next, given what it reads now. */
  ghost function NextPc(env: Env, s: State, call: Call, pc: Pc): Pc {
    match pc
    case MemoLookup =>
      if call.Memoised? && env.contentKey(call.resource) in s.memo
      then Done(Rehydrate(s.memo[env.contentKey(call.resource)])) else Lookup
    case Lookup =>
      var key := CacheKeyFor(env, BootstrapOf(env, call));
      if key.None? then CallingUncached
      else if key.value in s.cache then Return(Rehydrate(s.cache[key.value]))
      else Join(key.value)
    case Join(key) => if key in s.leader then Wait(key, s.leader[key]) else Calling(key, |s.owner|)
    case Store(key, flight, o) => Finish(key, flight, o)
    case Finish(key, flight, o) => Return(o)
    case Wait(key, flight) => if flight in s.result then Return(s.result[flight]) else pc
    case Return(o) => Done(o)
    case _ => pc
  }

  ghost function RunStep(env: Env, s: State, id: nat): State
    requires id < |s.tasks|
  {
    var t := s.tasks[id];
    var pc := t.pc;
    var lead := pc.Join? && pc.key !in s.leader;
    State(
      s.tasks[id := t.(pc := NextPc(env, s, t.call, pc))],
      if pc.Store? && !pc.o.Transient? then s.cache[pc.key := Memoize(pc.o)] else s.cache,
      if pc.Return? && t.call.Memoised? && !pc.o.Transient?
      then s.memo[env.contentKey(t.call.resource) := Memoize(pc.o)] else s.memo,
      if lead then s.leader[pc.key := |s.owner|] else if pc.Finish? then s.leader - {pc.key} else s.leader,
      if lead then s.owner + [id] else s.owner,
      if pc.Finish? then s.result[pc.flight := pc.o] else s.result,
      s.failures)
  }

  ghost function InnerStep(s: State, id: nat, o: Outcome): State
    requires id < |s.tasks|
  {
    var t := s.tasks[id];
    var key := if t.pc.Calling? then Some(t.pc.key) else None;
    var pc := if t.pc.Calling?
              then if o.Transient? then Finish(t.pc.key, t.pc.flight, o) else Store(t.pc.key, t.pc.flight, o)
              else Return(o);
    s.(tasks := s.tasks[id := t.(pc := pc)],
       failures := if o.Transient? then s.failures + {(key, o.msg)} else s.failures)
  }

  ghost function Do(env: Env, s: State, step: Step): State
    requires Enabled(env, s, step)
  {
    match step
    case Arrive(call) => s.(tasks := s.tasks + [Task(call, MemoLookup)])
    case Run(id) => RunStep(env, s, id)
    case InnerReturns(id, o) => InnerStep(s, id, o)
    case EvictCache(key) => s.(cache := s.cache - {key})
    case EvictMemo(key) => s.(memo := s.memo - {key})
  }

  ghost predicate ValidRun(env: Env, steps: seq<Step>)
    decreases |steps|, 0
  {
    steps != [] ==>
      ValidRun(env, steps[..|steps| - 1]) && Enabled(env, After(env, steps[..|steps| - 1]), steps[|steps| - 1])
  }

  ghost function After(env: Env, steps: seq<Step>): State
    requires ValidRun(env, steps)
    decreases |steps|, 1
  {
    if steps == [] then INIT else Do(env, After(env, steps[..|steps| - 1]), steps[|steps| - 1])
  }

  /** The outcome is Envoy's verdict on the prepared bytes, or a transient error that an
      inner call for the same key produced. */
  ghost predicate Faithful(env: Env, failures: set<(Option<string>, string)>, key: Option<string>, b: Bootstrap,
                           o: Outcome) {
    if o.Transient? then (key, o.msg) in failures
    else IsVerdict(env, b, o)
  }

  ghost predicate KeyOf(env: Env, call: Call, key: string) {
    CacheKeyFor(env, BootstrapOf(env, call)) == Some(key)
  }

  /** A flight's outcome is right for every bootstrap with its key. */
  ghost predicate FlightOutcome(env: Env, failures: set<(Option<string>, string)>, key: string, o: Outcome) {
    forall bytes :: env.sha(bytes) == key ==>
      if o.Transient? then (Some(key), o.msg) in failures else o == env.envoy(bytes)
  }

  ghost predicate CallOutcome(env: Env, failures: set<(Option<string>, string)>, call: Call, o: Outcome) {
    Faithful(env, failures, CacheKeyFor(env, BootstrapOf(env, call)), BootstrapOf(env, call), o)
  }

  ghost predicate Leads(s: State, id: nat, key: string, flight: nat) {
    key in s.leader && s.leader[key] == flight && flight < |s.owner| && s.owner[flight] == id
  }

  ghost predicate TaskInv(env: Env, s: State, id: nat)
    requires id < |s.tasks|
  {
    var call := s.tasks[id].call;
    match s.tasks[id].pc
    case MemoLookup => true
    case Lookup => true
    case Join(key) => KeyOf(env, call, key)
    case Calling(key, flight) => KeyOf(env, call, key) && Leads(s, id, key, flight)
    case Store(key, flight, o) =>
      KeyOf(env, call, key) && Leads(s, id, key, flight) && !o.Transient? && FlightOutcome(env, s.failures, key, o)
    case Finish(key, flight, o) =>
      KeyOf(env, call, key) && Leads(s, id, key, flight) && FlightOutcome(env, s.failures, key, o)
    case Wait(key, flight) =>
      && KeyOf(env, call, key) && flight < |s.owner|
      && (flight in s.result ==> FlightOutcome(env, s.failures, key, s.result[flight]))
      && (flight !in s.result ==> key in s.leader && s.leader[key] == flight)
    case CallingUncached => CacheKeyFor(env, BootstrapOf(env, call)).None?
    case Return(o) => CallOutcome(env, s.failures, call, o)
    case Done(o) => CallOutcome(env, s.failures, call, o)
  }

  /** The flights in singleflight's map are the unfinished ones, and each is led by the
      task that owns it. */
  ghost predicate FlightsInv(s: State) {
    && (forall k :: k in s.leader ==> s.leader[k] < |s.owner| && s.leader[k] !in s.result)
    && (forall k, k' :: k in s.leader && k' in s.leader && s.leader[k] == s.leader[k'] ==> k == k')
    && (forall f :: f in s.result ==> f < |s.owner|)
    && (forall k :: k in s.leader && s.leader[k] < |s.owner| ==>
          s.owner[s.leader[k]] < |s.tasks| && Leading(s.tasks[s.owner[s.leader[k]]].pc, k, s.leader[k]))
  }

  ghost predicate Leading(pc: Pc, key: string, flight: nat) {
    (pc.Calling? || pc.Store? || pc.Finish?) && pc.key == key && pc.flight == flight
  }

  ghost predicate Inv(env: Env, s: State) {
    && CacheSound(env, s.cache)
    && MemoSound(env, s.memo)
    && FlightsInv(s)
    && forall id: nat :: id < |s.tasks| ==> TaskInv(env, s, id)
  }

  lemma FlightToCall(env: Env, failures: set<(Option<string>, string)>, call: Call, key: string, o: Outcome)
    requires KeyOf(env, call, key) && FlightOutcome(env, failures, key, o)
    ensures CallOutcome(env, failures, call, o)
  {
    var bytes := Prepare(env, BootstrapOf(env, call)).value;
    assert env.sha(bytes) == key;
  }

  lemma VerdictToFlight(env: Env, failures: set<(Option<string>, string)>, call: Call, key: string, o: Outcome)
    requires Sane(env) && KeyOf(env, call, key) && InnerMay(env, BootstrapOf(env, call), o)
    ensures FlightOutcome(env, if o.Transient? then failures + {(Some(key), o.msg)} else failures, key, o)
  {
    var bytes := Prepare(env, BootstrapOf(env, call)).value;
    assert env.sha(bytes) == key;
  }

  /** Recording more failures keeps every outcome right. */
  lemma MoreFailures(env: Env, f: set<(Option<string>, string)>, f': set<(Option<string>, string)>, key: string,
                     o: Outcome)
    requires f <= f' && FlightOutcome(env, f, key, o)
    ensures FlightOutcome(env, f', key, o)
  {}

  lemma RunCaches(env: Env, s: State, id: nat)
    requires Sane(env) && Inv(env, s) && Enabled(env, s, Run(id))
    ensures CacheSound(env, RunStep(env, s, id).cache) && MemoSound(env, RunStep(env, s, id).memo)
  {
    assert TaskInv(env, s, id);
    var t := s.tasks[id];
    if t.pc.Store? {
      var bytes := Prepare(env, BootstrapOf(env, t.call)).value;
      assert env.sha(bytes) == t.pc.key;
      CacheAdd(env, s.cache, bytes, t.pc.o);
    } else if t.pc.Return? && t.call.Memoised? && !t.pc.o.Transient? {
      MemoAdd(env, s.memo, t.call.resource, t.pc.o);
    }
  }

  lemma RunFlights(env: Env, s: State, id: nat)
    requires Inv(env, s) && Enabled(env, s, Run(id))
    ensures FlightsInv(RunStep(env, s, id))
  {
    assert TaskInv(env, s, id);
    var s' := RunStep(env, s, id);
    forall k | k in s'.leader && s'.leader[k] < |s'.owner|
      ensures s'.owner[s'.leader[k]] < |s'.tasks| && Leading(s'.tasks[s'.owner[s'.leader[k]]].pc, k, s'.leader[k])
    {
      if k in s.leader { assert Leading(s.tasks[s.owner[s.leader[k]]].pc, k, s.leader[k]); }
    }
  }

  /** The task that moves. */
  lemma RunOwnTask(env: Env, s: State, id: nat)
    requires Sane(env) && Inv(env, s) && Enabled(env, s, Run(id))
    ensures TaskInv(env, RunStep(env, s, id), id)
  {
    assert TaskInv(env, s, id);
    var t := s.tasks[id];
    match t.pc
    case Lookup =>
      var b := BootstrapOf(env, t.call);
      if Prepare(env, b).Some? { assert CacheKeyFor(env, b).value == env.sha(Prepare(env, b).value); }
    case Finish(key, flight, o) => FlightToCall(env, s.failures, t.call, key, o);
    case Wait(key, flight) => FlightToCall(env, s.failures, t.call, key, s.result[flight]);
    case _ =>
  }

  /** A task that stands still while another one moves. */
  lemma RunOtherTask(env: Env, s: State, id: nat, other: nat)
    requires Inv(env, s) && Enabled(env, s, Run(id)) && other < |s.tasks| && other != id
    ensures TaskInv(env, RunStep(env, s, id), other)
  {
    assert TaskInv(env, s, id) && TaskInv(env, s, other);
    var s', pc := RunStep(env, s, id), s.tasks[id].pc;
    match s.tasks[other].pc
    case Calling(key, flight) => StillLeads(env, s, id, other, key, flight);
    case Store(key, flight, o) => StillLeads(env, s, id, other, key, flight);
    case Finish(key, flight, o) => StillLeads(env, s, id, other, key, flight);
    case Wait(key, flight) =>
      if pc.Finish? && pc.flight == flight && flight !in s.result {
        assert pc.key == key;
      }
    case _ =>
  }

  lemma StillLeads(env: Env, s: State, id: nat, other: nat, key: string, flight: nat)
    requires Inv(env, s) && Enabled(env, s, Run(id)) && other < |s.tasks| && other != id
    requires Leads(s, other, key, flight)
    ensures Leads(RunStep(env, s, id), other, key, flight)
  {
    assert TaskInv(env, s, id);
  }

  lemma RunStepInv(env: Env, s: State, id: nat)
    requires Sane(env) && Inv(env, s) && Enabled(env, s, Run(id))
    ensures Inv(env, RunStep(env, s, id))
  {
    RunCaches(env, s, id);
    RunFlights(env, s, id);
    forall other: nat | other < |s.tasks| ensures TaskInv(env, RunStep(env, s, id), other) {
      if other == id { RunOwnTask(env, s, id); } else { RunOtherTask(env, s, id, other); }
    }
  }

  lemma InnerStepInv(env: Env, s: State, id: nat, o: Outcome)
    requires Sane(env) && Inv(env, s) && Enabled(env, s, InnerReturns(id, o))
    ensures Inv(env, InnerStep(s, id, o))
  {
    var s', t := InnerStep(s, id, o), s.tasks[id];
    assert TaskInv(env, s, id);
    if t.pc.Calling? { VerdictToFlight(env, s.failures, t.call, t.pc.key, o); }
    forall other: nat | other < |s.tasks| ensures TaskInv(env, s', other) {
      assert TaskInv(env, s, other);
      if other != id { KeepTask(env, s, s', other); }
    }
  }

  lemma KeepTask(env: Env, s: State, s': State, id: nat)
    requires id < |s.tasks| && id < |s'.tasks| && s'.tasks[id] == s.tasks[id] && TaskInv(env, s, id)
    requires s.failures <= s'.failures
    requires s'.leader == s.leader && s'.owner == s.owner && s'.result == s.result
    ensures TaskInv(env, s', id)
  {
    match s.tasks[id].pc
    case Store(key, flight, o) => MoreFailures(env, s.failures, s'.failures, key, o);
    case Finish(key, flight, o) => MoreFailures(env, s.failures, s'.failures, key, o);
    case Wait(key, flight) =>
      if flight in s.result { MoreFailures(env, s.failures, s'.failures, key, s.result[flight]); }
    case _ =>
  }

  lemma StepInv(env: Env, s: State, step: Step)
    requires Sane(env) && Inv(env, s) && Enabled(env, s, step)
    ensures Inv(env, Do(env, s, step))
  {
    match step
    case Run(id) => RunStepInv(env, s, id);
    case InnerReturns(id, o) => InnerStepInv(env, s, id, o);
    case _ =>
      var s' := Do(env, s, step);
      forall id: nat | id < |s'.tasks| ensures TaskInv(env, s', id) {
        if id < |s.tasks| { assert TaskInv(env, s, id); KeepTask(env, s, s', id); }
      }
  }

  lemma {:induction false} RunInv(env: Env, steps: seq<Step>)
    requires Sane(env) && ValidRun(env, steps)
    ensures Inv(env, After(env, steps))
    decreases |steps|
  {
    if steps != [] {
      RunInv(env, steps[..|steps| - 1]);
      StepInv(env, After(env, steps[..|steps| - 1]), steps[|steps| - 1]);
    }
  }

  // ---- What every run guarantees

  /** Every answer is Envoy's verdict, text and ErrInvalidXDS identity included, or a
      transient error that an inner call for the same key produced. */
  lemma AnswersAreFaithful(env: Env, steps: seq<Step>, id: nat)
    requires Sane(env) && ValidRun(env, steps)
    requires id < |After(env, steps).tasks| && After(env, steps).tasks[id].pc.Done?
    ensures var s := After(env, steps);
            var b := BootstrapOf(env, s.tasks[id].call);
            var o := s.tasks[id].pc.o;
            if o.Transient? then (CacheKeyFor(env, b), o.msg) in s.failures
            else && env.marshal(Bootstrap(b.body, None)).Some?
                 && o == env.envoy(env.marshal(Bootstrap(b.body, None)).value)
  {
    RunInv(env, steps);
    assert TaskInv(env, After(env, steps), id);
  }

  /** What is cached is the verdict for its key; a transient error is never cached. */
  lemma CachesHoldVerdicts(env: Env, steps: seq<Step>)
    requires Sane(env) && ValidRun(env, steps)
    ensures CacheSound(env, After(env, steps).cache) && MemoSound(env, After(env, steps).memo)
  {
    RunInv(env, steps);
  }

  /** At most one inner call per key is in flight. */
  lemma OneInnerCallPerKey(env: Env, steps: seq<Step>, a: nat, b: nat)
    requires Sane(env) && ValidRun(env, steps)
    requires a < |After(env, steps).tasks| && b < |After(env, steps).tasks|
    requires After(env, steps).tasks[a].pc.Calling? && After(env, steps).tasks[b].pc.Calling?
    requires After(env, steps).tasks[a].pc.key == After(env, steps).tasks[b].pc.key
    ensures a == b
  {
    RunInv(env, steps);
    var s := After(env, steps);
    assert TaskInv(env, s, a) && TaskInv(env, s, b);
  }

  /** A waiter's flight has handed over its result or is led by a task still at work. */
  lemma WaitersAreServed(env: Env, steps: seq<Step>, id: nat)
    requires Sane(env) && ValidRun(env, steps)
    requires id < |After(env, steps).tasks| && After(env, steps).tasks[id].pc.Wait?
    ensures var s := After(env, steps);
            var pc := s.tasks[id].pc;
            || pc.flight in s.result
            || exists l: nat :: l < |s.tasks| && Leading(s.tasks[l].pc, pc.key, pc.flight)
  {
    RunInv(env, steps);
    assert TaskInv(env, After(env, steps), id);
  }

  /** No deadlock: while a call is unfinished, some caller or some inner call can move. */
  lemma SomethingCanMove(env: Env, steps: seq<Step>, id: nat) returns (step: Step)
    requires Sane(env) && ValidRun(env, steps)
    requires id < |After(env, steps).tasks| && !After(env, steps).tasks[id].pc.Done?
    ensures (step.Run? || step.InnerReturns?) && Enabled(env, After(env, steps), step)
  {
    RunInv(env, steps);
    var s := After(env, steps);
    assert TaskInv(env, s, id);
    var pc, mover := s.tasks[id].pc, id;
    if pc.Wait? && pc.flight !in s.result { mover := s.owner[pc.flight]; }
    if s.tasks[mover].pc.Calling? || s.tasks[mover].pc.CallingUncached? {
      step := InnerReturns(mover, Transient(""));
    } else {
      step := Run(mover);
    }
  }

  // ---- Every call is answered within a bound

  /** How many more moves a caller can make. */
  ghost function Rank(pc: Pc): nat {
    match pc
    case MemoLookup => 7
    case Lookup => 6
    case Join(_) => 5
    case Calling(_, _) => 4
    case Store(_, _, _) => 3
    case Finish(_, _, _) => 2
    case Wait(_, _) => 2
    case CallingUncached => 2
    case Return(_) => 1
    case Done(_) => 0
  }

  ghost function Ranks(tasks: seq<Task>): nat {
    if tasks == [] then 0 else Ranks(tasks[..|tasks| - 1]) + Rank(tasks[|tasks| - 1].pc)
  }

  lemma {:induction false} RanksUpdate(tasks: seq<Task>, id: nat, t: Task)
    requires id < |tasks|
    ensures Ranks(tasks[id := t]) + Rank(tasks[id].pc) == Ranks(tasks) + Rank(t.pc)
    decreases |tasks|
  {
    var n := |tasks| - 1;
    if id == n {
      assert tasks[id := t][..n] == tasks[..n];
    } else {
      RanksUpdate(tasks[..n], id, t);
      assert tasks[id := t][..n] == tasks[..n][id := t];
    }
  }

  /** A caller or an inner call moves; arrivals and evictions are the environment's. */
  ghost predicate Moves(step: Step) { step.Run? || step.InnerReturns? }

  lemma MoveLowersRank(env: Env, s: State, step: Step)
    requires Enabled(env, s, step)
    ensures Moves(step) ==> Ranks(Do(env, s, step).tasks) < Ranks(s.tasks)
    ensures step.Arrive? ==> Ranks(Do(env, s, step).tasks) == Ranks(s.tasks) + 7
    ensures step.EvictCache? || step.EvictMemo? ==> Ranks(Do(env, s, step).tasks) == Ranks(s.tasks)
  {
    match step
    case Arrive(call) => assert (s.tasks + [Task(call, MemoLookup)])[..|s.tasks|] == s.tasks;
    case Run(id) => RunLowersRank(env, s, id);
    case InnerReturns(id, o) => InnerLowersRank(s, id, o);
    case _ =>
  }

  lemma RunLowersRank(env: Env, s: State, id: nat)
    requires Enabled(env, s, Run(id))
    ensures Ranks(RunStep(env, s, id).tasks) < Ranks(s.tasks)
  {
    var t := s.tasks[id];
    RanksUpdate(s.tasks, id, t.(pc := NextPc(env, s, t.call, t.pc)));
  }

  lemma InnerLowersRank(s: State, id: nat, o: Outcome)
    requires id < |s.tasks| && (s.tasks[id].pc.Calling? || s.tasks[id].pc.CallingUncached?)
    ensures Ranks(InnerStep(s, id, o).tasks) < Ranks(s.tasks)
  {
    RanksUpdate(s.tasks, id, InnerStep(s, id, o).tasks[id]);
  }

  ghost function CountMoves(steps: seq<Step>): nat {
    if steps == [] then 0 else CountMoves(steps[..|steps| - 1]) + if Moves(steps[|steps| - 1]) then 1 else 0
  }

  ghost function CountCalls(steps: seq<Step>): nat {
    if steps == [] then 0 else CountCalls(steps[..|steps| - 1]) + if steps[|steps| - 1].Arrive? then 1 else 0
  }

  lemma {:induction false} MovesBounded(env: Env, steps: seq<Step>)
    requires ValidRun(env, steps)
    ensures CountMoves(steps) + Ranks(After(env, steps).tasks) <= 7 * CountCalls(steps)
    decreases |steps|
  {
    if steps != [] {
      var front := steps[..|steps| - 1];
      MovesBounded(env, front);
      MoveLowersRank(env, After(env, front), steps[|steps| - 1]);
    }
  }

  /** In every run the callers and inner calls make at most seven moves per call, and they can
      move exactly as long as some call is unanswered. */
  lemma EveryCallIsAnswered(env: Env, steps: seq<Step>)
    requires Sane(env) && ValidRun(env, steps)
    ensures CountMoves(steps) <= 7 * CountCalls(steps)
    ensures (forall step :: Moves(step) ==> !Enabled(env, After(env, steps), step)) <==>
            (forall id: nat :: id < |After(env, steps).tasks| ==> After(env, steps).tasks[id].pc.Done?)
  {
    MovesBounded(env, steps);
    var s := After(env, steps);
    if id: nat :| id < |s.tasks| && !s.tasks[id].pc.Done? {
      var step := SomethingCanMove(env, steps, id);
    }
  }
}
