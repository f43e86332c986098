/**
 The agent work queues of one controller: one queue and one worker per shard,
 with an agent's owner choosing its shard (packages/controller/main.go). A call
 into the queue is a thread of its own that looks the name up in the agent cache,
 then promotes and adds in separate steps, so anything can happen in between.
 */
module ShardedQueue {
  import opened AgentQueue

  type Owner = string
  type ThreadId = nat

  const WORKERS := 8

  type Shard = i: nat | i < WORKERS

  /** What is fixed for the life of the controller: an agent's owner label never
      changes once it is created, and the hash is any function of it. */
  datatype Config = Config(owner: Name -> Owner, hash: Owner -> nat) {
    function Home(name: Name): Shard {
      hash(owner(name)) % WORKERS
    }
  }

  // A call that chose its shard: still to promote the name there, or to add it.
  datatype Call = ToPromote(shard: Shard, name: Name) | ToAdd(shard: Shard, name: Name)

  /** Where a worker is in its loop. `fromUrgent` records the lane its name really
      came from, `urgent` what the worker read with poppedUrgent afterwards. */
  datatype Worker =
    | Waiting
    | Got(name: Name, fromUrgent: bool)
    | Reconciling(name: Name, fromUrgent: bool, urgent: bool)
    | Finishing(name: Name)
  {
    function Held(): set<Name> {
      if Waiting? then {} else {name}
    }
  }

  datatype System = System(shards: seq<Queue>, workers: seq<Worker>, calls: map<ThreadId, Call>, cache: set<Name>)

  datatype Action =
    | CacheChanges(cache: set<Name>)
    | CallAdd(thread: ThreadId, name: Name)
    | CallAddUrgent(thread: ThreadId, name: Name)
    | PromoteStep(thread: ThreadId)
    | AddStep(thread: ThreadId)
    | WorkerGets(shard: Shard)
    | WorkerReadsLane(shard: Shard)
    | WorkerFails(shard: Shard, retry: ThreadId)
    | WorkerDone(shard: Shard)
    | ShutDownShard(shard: Shard)

  ghost predicate Shaped(sys: System) {
    |sys.shards| == |sys.workers| == WORKERS
  }

  ghost predicate Possible(sys: System, a: Action)
    requires Shaped(sys)
  {
    match a
    case CacheChanges(_) => true
    case CallAdd(t, _) => t !in sys.calls
    case CallAddUrgent(t, _) => t !in sys.calls
    case PromoteStep(t) => t in sys.calls && sys.calls[t].ToPromote?
    case AddStep(t) => t in sys.calls && sys.calls[t].ToAdd?
    case WorkerGets(i) => sys.workers[i].Waiting? && sys.shards[i].lanes.Len() > 0
    case WorkerReadsLane(i) => sys.workers[i].Got?
    case WorkerFails(i, t) => sys.workers[i].Reconciling? && t !in sys.calls
    case WorkerDone(i) =>
      && (sys.workers[i].Reconciling? || sys.workers[i].Finishing?)
      && sys.workers[i].name in sys.shards[i].processing
    case ShutDownShard(_) => true
  }

  /** What an action does to the queue of shard `i`: one step of it, or nothing. */
  ghost function StepOn(sys: System, a: Action, i: Shard): Step
    requires Shaped(sys) && Possible(sys, a)
  {
    match a
    case PromoteStep(t) => if sys.calls[t].shard == i then Promote(sys.calls[t].name) else Stutter
    case AddStep(t) => if sys.calls[t].shard == i then Add(sys.calls[t].name) else Stutter
    case WorkerGets(j) => if i == j then Get else Stutter
    case WorkerFails(j, _) =>
      if i == j && sys.workers[j].urgent then Promote(sys.workers[j].name) else Stutter
    case WorkerDone(j) => if i == j then Done(sys.workers[j].name) else Stutter
    case ShutDownShard(j) => if i == j then ShutDown else Stutter
    case _ => Stutter
  }

  ghost function WorkersAfter(sys: System, a: Action): seq<Worker>
    requires Shaped(sys) && Possible(sys, a)
  {
    var ws := sys.workers;
    match a
    case WorkerGets(i) => ws[i := Got(sys.shards[i].lanes.Front(), |sys.shards[i].lanes.urgent| > 0)]
    case WorkerReadsLane(i) => ws[i := Reconciling(ws[i].name, ws[i].fromUrgent, sys.shards[i].lanes.lastPopUrgent)]
    case WorkerFails(i, _) => ws[i := Finishing(ws[i].name)]
    case WorkerDone(i) => ws[i := Waiting]
    case _ => ws
  }

  // A name the cache does not hold is dropped rather than guessed at. A failed
  // reconcile schedules its retry on the shard it runs on.
  ghost function CallsAfter(c: Config, sys: System, a: Action): map<ThreadId, Call>
    requires Shaped(sys) && Possible(sys, a)
  {
    match a
    case CallAdd(t, n) => if n in sys.cache then sys.calls[t := ToAdd(c.Home(n), n)] else sys.calls
    case CallAddUrgent(t, n) => if n in sys.cache then sys.calls[t := ToPromote(c.Home(n), n)] else sys.calls
    case PromoteStep(t) => sys.calls[t := ToAdd(sys.calls[t].shard, sys.calls[t].name)]
    case AddStep(t) => sys.calls - {t}
    case WorkerFails(i, t) => sys.calls[t := ToAdd(i, sys.workers[i].name)]
    case _ => sys.calls
  }

  ghost function Act(c: Config, sys: System, a: Action): (after: System)
    requires Shaped(sys) && Possible(sys, a)
    ensures Shaped(after)
  {
    System(
      seq(WORKERS, (i: nat) requires i < WORKERS => Apply(sys.shards[i], StepOn(sys, a, i))),
      WorkersAfter(sys, a),
      CallsAfter(c, sys, a),
      if a.CacheChanges? then a.cache else sys.cache)
  }

  ghost predicate Initial(sys: System) {
    && Shaped(sys)
    && (forall i: Shard :: sys.shards[i] == EMPTY && sys.workers[i] == Waiting)
    && sys.calls == map[]
  }

  ghost predicate Runs(c: Config, ss: seq<System>, acts: seq<Action>) {
    && |ss| == |acts| + 1
    && Initial(ss[0])
    && forall k :: 0 <= k < |acts| ==> Happens(c, ss, acts, k)
  }

  ghost predicate Happens(c: Config, ss: seq<System>, acts: seq<Action>, k: nat)
    requires k < |acts| < |ss|
  {
    Shaped(ss[k]) && Possible(ss[k], acts[k]) && ss[k + 1] == Act(c, ss[k], acts[k])
  }

  // ---------- each shard runs as a single queue does ----------

  ghost function QueueStates(ss: seq<System>, i: Shard): seq<Queue>
    requires forall k :: 0 <= k < |ss| ==> Shaped(ss[k])
  {
    seq(|ss|, k requires 0 <= k < |ss| && Shaped(ss[k]) => ss[k].shards[i])
  }

  ghost function QueueSteps(c: Config, ss: seq<System>, acts: seq<Action>, i: Shard): seq<Step>
    requires Runs(c, ss, acts)
  {
    seq(|acts|, k requires 0 <= k < |acts| => (assert Happens(c, ss, acts, k); StepOn(ss[k], acts[k], i)))
  }

  lemma EveryStateIsShaped(c: Config, ss: seq<System>, acts: seq<Action>)
    requires Runs(c, ss, acts)
    ensures forall k :: 0 <= k < |ss| ==> Shaped(ss[k])
  {
    forall k | 0 <= k < |ss| ensures Shaped(ss[k]) {
      if k > 0 { assert Happens(c, ss, acts, k - 1); }
    }
  }

  /** Whatever the other shards, the cache and the callers do, a shard goes through
      an execution of one queue, so everything proved of a queue holds of it. */
  lemma ShardRefinesQueue(c: Config, ss: seq<System>, acts: seq<Action>, i: Shard)
    requires Runs(c, ss, acts)
    ensures forall k :: 0 <= k < |ss| ==> Shaped(ss[k])
    ensures Execution(QueueStates(ss, i), QueueSteps(c, ss, acts, i))
  {
    EveryStateIsShaped(c, ss, acts);
    var qs, steps := QueueStates(ss, i), QueueSteps(c, ss, acts, i);
    forall k | 0 <= k < |steps| ensures Moves(qs, steps, k) {
      assert Happens(c, ss, acts, k);
    }
  }

  // ---------- what every run keeps ----------

  ghost predicate Mentions(q: Queue, n: Name) {
    q.lanes.Holds(n) || n in q.lanes.promoted || n in q.dirty || n in q.processing
  }

  ghost predicate AtHome(c: Config, sys: System)
    requires Shaped(sys)
  {
    && (forall i: Shard, n: Name :: Mentions(sys.shards[i], n) ==> c.Home(n) == i)
    && (forall t :: t in sys.calls ==> sys.calls[t].shard == c.Home(sys.calls[t].name))
  }

  /** A worker holds the one name its shard has in processing, and what it read of
      the last pop describes that name. */
  ghost predicate WorkerMatches(q: Queue, w: Worker) {
    && q.processing == w.Held()
    && (w.Got? ==> q.lanes.lastPopUrgent == w.fromUrgent)
    && (w.Reconciling? ==> w.urgent == w.fromUrgent)
  }

  ghost predicate WorkersMatch(sys: System)
    requires Shaped(sys)
  {
    forall i: Shard :: WorkerMatches(sys.shards[i], sys.workers[i])
  }

  lemma StepMentions(q: Queue, s: Step, n: Name)
    requires Consistent(q) && Enabled(q, s) && Mentions(Apply(q, s), n)
    ensures Mentions(q, n) || s == Promote(n) || s == Add(n)
  {
    match s
    case Add(name) =>
      if name in q.dirty { TouchKeeps(q.lanes, name); } else { PushKeeps(q.lanes, name); }
    case Get => PopKeeps(q.lanes);
    case Done(name) => if name in q.dirty { PushKeeps(q.lanes, name); }
    case _ =>
  }

  lemma ActKeepsHome(c: Config, sys: System, a: Action)
    requires Shaped(sys) && Possible(sys, a) && AtHome(c, sys) && WorkersMatch(sys)
    requires forall i: Shard :: Consistent(sys.shards[i])
    ensures AtHome(c, Act(c, sys, a))
  {
    if a.WorkerFails? { assert WorkerMatches(sys.shards[a.shard], sys.workers[a.shard]); }
    if a.WorkerFails? { assert Mentions(sys.shards[a.shard], sys.workers[a.shard].name); }
    forall i: Shard, n: Name | Mentions(Act(c, sys, a).shards[i], n) ensures c.Home(n) == i {
      StepMentions(sys.shards[i], StepOn(sys, a, i), n);
    }
  }

  lemma ActKeepsMatch(c: Config, sys: System, a: Action, i: Shard)
    requires Shaped(sys) && Possible(sys, a)
    requires WorkerMatches(sys.shards[i], sys.workers[i])
    ensures WorkerMatches(Act(c, sys, a).shards[i], Act(c, sys, a).workers[i])
  {}

  /** In every state of every run: each name is known only to its owner's shard,
      each worker holds exactly what its shard processes, and the lane a worker
      read describes the name it holds. */
  lemma {:induction false} EveryRunKeeps(c: Config, ss: seq<System>, acts: seq<Action>, k: nat)
    requires Runs(c, ss, acts) && k < |ss|
    ensures Shaped(ss[k]) && AtHome(c, ss[k]) && WorkersMatch(ss[k])
    ensures forall i: Shard :: Consistent(ss[k].shards[i])
  {
    forall i: Shard ensures k < |ss| && Shaped(ss[k]) && Consistent(ss[k].shards[i]) {
      ShardRefinesQueue(c, ss, acts, i);
      ReachableIsConsistent(QueueStates(ss, i), QueueSteps(c, ss, acts, i), k);
    }
    if k > 0 {
      EveryRunKeeps(c, ss, acts, k - 1);
      assert Happens(c, ss, acts, k - 1);
      ActKeepsHome(c, ss[k - 1], acts[k - 1]);
      forall i: Shard ensures WorkerMatches(ss[k].shards[i], ss[k].workers[i]) {
        ActKeepsMatch(c, ss[k - 1], acts[k - 1], i);
      }
    }
  }

  /** Two workers never reconcile agents of one owner at the same time, and no name
      is known to two shards. */
  lemma OneReconcilePerOwner(c: Config, ss: seq<System>, acts: seq<Action>, k: nat, i: Shard, j: Shard)
    requires Runs(c, ss, acts) && k < |ss| && i != j
    ensures Shaped(ss[k])
    ensures !ss[k].workers[i].Waiting? && !ss[k].workers[j].Waiting? ==>
              c.owner(ss[k].workers[i].name) != c.owner(ss[k].workers[j].name)
    ensures forall n :: !(Mentions(ss[k].shards[i], n) && Mentions(ss[k].shards[j], n))
    ensures forall n :: Mentions(ss[k].shards[i], n) ==> i == c.hash(c.owner(n)) % 8
  {
    EveryRunKeeps(c, ss, acts, k);
    forall s: Shard ensures !ss[k].workers[s].Waiting? ==> c.Home(ss[k].workers[s].name) == s {
      assert WorkerMatches(ss[k].shards[s], ss[k].workers[s]);
      if !ss[k].workers[s].Waiting? { assert Mentions(ss[k].shards[s], ss[k].workers[s].name); }
    }
    forall n | Mentions(ss[k].shards[i], n)
      ensures !Mentions(ss[k].shards[j], n) && i == c.hash(c.owner(n)) % 8
    {
      assert c.Home(n) == i;
    }
  }

  /** A worker never gets stuck: when a name waits it can take the front one, read the
      lane it came from, reconcile it, and be done with it whether that failed or not. */
  lemma RoundCanAlwaysEnd(c: Config, ss: seq<System>, acts: seq<Action>, k: nat, i: Shard, t: ThreadId)
    requires Runs(c, ss, acts) && k < |ss|
    ensures Shaped(ss[k])
    ensures var sys, w := ss[k], ss[k].workers[i];
            match w
            case Waiting =>
              sys.shards[i].lanes.Len() > 0 ==>
                Possible(sys, WorkerGets(i)) && Act(c, sys, WorkerGets(i)).workers[i].Got?
                && Act(c, sys, WorkerGets(i)).workers[i].name == sys.shards[i].lanes.Front()
            case Got(name, urgent) =>
              Possible(sys, WorkerReadsLane(i)) &&
              Act(c, sys, WorkerReadsLane(i)).workers[i] == Reconciling(name, urgent, urgent)
            case Reconciling(name, _, _) =>
              && Possible(sys, WorkerDone(i)) && Act(c, sys, WorkerDone(i)).workers[i] == Waiting
              && (t !in sys.calls ==>
                    Possible(sys, WorkerFails(i, t)) && Act(c, sys, WorkerFails(i, t)).workers[i] == Finishing(name))
            case Finishing(_) =>
              Possible(sys, WorkerDone(i)) && Act(c, sys, WorkerDone(i)).workers[i] == Waiting
  {
    EveryRunKeeps(c, ss, acts, k);
    assert WorkerMatches(ss[k].shards[i], ss[k].workers[i]);
  }

  ghost predicate CallIs(sys: System, t: ThreadId, call: Call) {
    t in sys.calls && sys.calls[t] == call
  }

  /** Nor does a call: it can promote its name and then add it, and is over with that. */
  lemma CallCanAlwaysEnd(c: Config, sys: System, t: ThreadId)
    requires Shaped(sys) && t in sys.calls
    ensures match sys.calls[t]
            case ToPromote(i, n) =>
              Possible(sys, PromoteStep(t)) && CallIs(Act(c, sys, PromoteStep(t)), t, ToAdd(i, n))
            case ToAdd(_, _) =>
              Possible(sys, AddStep(t)) && Act(c, sys, AddStep(t)).calls.Keys == sys.calls.Keys - {t}
  {}

  /** Each shard is shut down on its own, for good, and takes no new name after that; the
      cache and the shards may be changed and shut at any time. */
  lemma ShardIsShutDown(c: Config, ss: seq<System>, acts: seq<Action>, i: Shard, a: nat, k: nat, n: Name)
    requires Runs(c, ss, acts) && a < k < |ss| && acts[a] == ShutDownShard(i)
    ensures Shaped(ss[a]) && Shaped(ss[a + 1]) && Shaped(ss[k])
    ensures ss[k].shards[i].shuttingDown && (n in ss[k].shards[i].dirty ==> n in ss[a].shards[i].dirty)
    ensures forall j: Shard :: j != i ==> ss[a + 1].shards[j] == ss[a].shards[j]
    ensures forall cache :: Possible(ss[k], CacheChanges(cache)) && Possible(ss[k], ShutDownShard(i))
  {
    EveryStateIsShaped(c, ss, acts);
    assert Happens(c, ss, acts, a);
    ShardRefinesQueue(c, ss, acts, i);
    ClosingQueueTakesNothing(QueueStates(ss, i), QueueSteps(c, ss, acts, i), n, a + 1, k);
  }

  /** An urgent call that ran both its steps, the promotion at `a` and the add at
      `b`, is delivered urgently by the worker of the name's own owner. */
  lemma UrgentCallIsDelivered(c: Config, ss: seq<System>, acts: seq<Action>, t: ThreadId, n: Name,
                              a: nat, b: nat, k: nat)
    requires Runs(c, ss, acts) && a < b < k < |ss|
    requires acts[a] == PromoteStep(t) && t in ss[a].calls && ss[a].calls[t].name == n
    requires acts[b] == AddStep(t) && t in ss[b].calls && ss[b].calls[t].name == n
    requires Shaped(ss[b]) && !ss[b].shards[c.Home(n)].shuttingDown
    ensures forall m :: 0 <= m < |ss| ==> Shaped(ss[m])
    ensures var i := c.Home(n);
            var qs, steps := QueueStates(ss, i), QueueSteps(c, ss, acts, i);
            PoppedUrgentBetween(qs, steps, n, a, k) || OwedUrgent(ss[k].shards[i], n)
  {
    var i := c.Home(n);
    EveryRunKeeps(c, ss, acts, a);
    EveryRunKeeps(c, ss, acts, b);
    assert Happens(c, ss, acts, a) && Happens(c, ss, acts, b);
    ShardRefinesQueue(c, ss, acts, i);
    UrgentAddIsDelivered(QueueStates(ss, i), QueueSteps(c, ss, acts, i), n, a, b, k);
  }

  // Thread `t` ran its promotion of `n` at `p`, or its add.
  ghost predicate PromotedAt(ss: seq<System>, acts: seq<Action>, t: ThreadId, n: Name, p: nat) {
    p < |acts| && p < |ss| && acts[p] == PromoteStep(t) && t in ss[p].calls && ss[p].calls[t].name == n
  }

  ghost predicate AddedAt(ss: seq<System>, acts: seq<Action>, t: ThreadId, n: Name, b: nat) {
    b < |acts| && b < |ss| && acts[b] == AddStep(t) && t in ss[b].calls && ss[b].calls[t].name == n
  }

  // How far an urgent call for a cached name is: it is to promote the name, it promoted
  // it at `p` and is to add it, or it added it at `b`.
  lemma {:induction false} UrgentCallStage(c: Config, ss: seq<System>, acts: seq<Action>, t: ThreadId, n: Name,
                                           a: nat, k: nat) returns (p: nat, b: nat)
    requires Runs(c, ss, acts) && a < k < |ss| && acts[a] == CallAddUrgent(t, n) && n in ss[a].cache
    ensures || CallIs(ss[k], t, ToPromote(c.Home(n), n))
            || (a < p < k && PromotedAt(ss, acts, t, n, p) && CallIs(ss[k], t, ToAdd(c.Home(n), n)))
            || (a < p < b < k && PromotedAt(ss, acts, t, n, p) && AddedAt(ss, acts, t, n, b))
    decreases k
  {
    p, b := 0, 0;
    assert Happens(c, ss, acts, k - 1);
    if a < k - 1 {
      p, b := UrgentCallStage(c, ss, acts, t, n, a, k - 1);
      if acts[k - 1] == PromoteStep(t) && CallIs(ss[k - 1], t, ToPromote(c.Home(n), n)) {
        p := k - 1;
      } else if acts[k - 1] == AddStep(t) && CallIs(ss[k - 1], t, ToAdd(c.Home(n), n)) {
        b := k - 1;
      }
    }
  }

  /** An urgent call for a name the cache holds goes through: at every later point it has
      a step of its own to make, at the name's own shard, or the name is owed an urgent
      round there or got one. */
  lemma UrgentCallGoesThrough(c: Config, ss: seq<System>, acts: seq<Action>, t: ThreadId, n: Name, a: nat, k: nat)
    requires Runs(c, ss, acts) && a < k < |ss| && acts[a] == CallAddUrgent(t, n) && n in ss[a].cache
    requires Shaped(ss[k]) && !ss[k].shards[c.Home(n)].shuttingDown
    ensures forall m :: 0 <= m < |ss| ==> Shaped(ss[m])
    ensures var i := c.Home(n);
            || CallIs(ss[k], t, ToPromote(i, n))
            || CallIs(ss[k], t, ToAdd(i, n))
            || PoppedUrgentBetween(QueueStates(ss, i), QueueSteps(c, ss, acts, i), n, a, k)
            || OwedUrgent(ss[k].shards[i], n)
  {
    EveryStateIsShaped(c, ss, acts);
    var p, b := UrgentCallStage(c, ss, acts, t, n, a, k);
    if a < p < b < k && PromotedAt(ss, acts, t, n, p) && AddedAt(ss, acts, t, n, b) {
      StillOpen(c, ss, acts, c.Home(n), b, k);
      UrgentCallIsDelivered(c, ss, acts, t, n, p, b, k);
      PoppedSince(c, ss, acts, n, a, p, k);
    }
  }

  // A shard that is open was open before.
  lemma StillOpen(c: Config, ss: seq<System>, acts: seq<Action>, i: Shard, b: nat, k: nat)
    requires Runs(c, ss, acts) && b <= k < |ss| && Shaped(ss[k]) && !ss[k].shards[i].shuttingDown
    ensures Shaped(ss[b]) && !ss[b].shards[i].shuttingDown
  {
    ShardRefinesQueue(c, ss, acts, i);
    if ss[b].shards[i].shuttingDown {
      ClosingQueueTakesNothing(QueueStates(ss, i), QueueSteps(c, ss, acts, i), "", b, k);
    }
  }

  lemma PoppedSince(c: Config, ss: seq<System>, acts: seq<Action>, n: Name, a: nat, p: nat, k: nat)
    requires Runs(c, ss, acts) && a <= p && forall m :: 0 <= m < |ss| ==> Shaped(ss[m])
    ensures var qs, steps := QueueStates(ss, c.Home(n)), QueueSteps(c, ss, acts, c.Home(n));
            PoppedUrgentBetween(qs, steps, n, p, k) ==> PoppedUrgentBetween(qs, steps, n, a, k)
  {
    var qs, steps := QueueStates(ss, c.Home(n)), QueueSteps(c, ss, acts, c.Home(n));
    if PoppedUrgentBetween(qs, steps, n, p, k) {
      var g :| p < g < k && PopsUrgent(qs, steps, n, g);
    }
  }

  lemma {:induction false} CallStage(c: Config, ss: seq<System>, acts: seq<Action>, t: ThreadId, n: Name,
                                     a: nat, k: nat) returns (b: nat)
    requires Runs(c, ss, acts) && a < k < |ss| && acts[a] == CallAdd(t, n) && n in ss[a].cache
    ensures CallIs(ss[k], t, ToAdd(c.Home(n), n)) || (a < b < k && AddedAt(ss, acts, t, n, b))
    decreases k
  {
    b := 0;
    assert Happens(c, ss, acts, k - 1);
    if a < k - 1 {
      b := CallStage(c, ss, acts, t, n, a, k - 1);
      if acts[k - 1] == AddStep(t) && CallIs(ss[k - 1], t, ToAdd(c.Home(n), n)) { b := k - 1; }
    }
  }

  /** So does any other call for such a name: at every later point it has its add to make,
      or the name is owed a round or got one. */
  lemma CallGoesThrough(c: Config, ss: seq<System>, acts: seq<Action>, t: ThreadId, n: Name, a: nat, k: nat)
    requires Runs(c, ss, acts) && a < k < |ss| && acts[a] == CallAdd(t, n) && n in ss[a].cache
    requires Shaped(ss[k]) && !ss[k].shards[c.Home(n)].shuttingDown
    ensures forall m :: 0 <= m < |ss| ==> Shaped(ss[m])
    ensures var i := c.Home(n);
            || CallIs(ss[k], t, ToAdd(i, n))
            || (exists g :: a < g < k && Pops(QueueStates(ss, i), QueueSteps(c, ss, acts, i), n, g))
            || n in ss[k].shards[i].dirty
  {
    EveryStateIsShaped(c, ss, acts);
    var i := c.Home(n);
    var b := CallStage(c, ss, acts, t, n, a, k);
    if a < b < k && AddedAt(ss, acts, t, n, b) {
      StillOpen(c, ss, acts, i, b, k);
      EveryRunKeeps(c, ss, acts, b);
      assert Happens(c, ss, acts, b);
      ShardRefinesQueue(c, ss, acts, i);
      AddIsNotLost(QueueStates(ss, i), QueueSteps(c, ss, acts, i), n, b, k);
    }
  }

  /** A call for a name the cache does not hold is dropped. */
  lemma UncachedCallIsDropped(c: Config, sys: System, t: ThreadId, n: Name)
    requires Shaped(sys) && t !in sys.calls && n !in sys.cache
    ensures Act(c, sys, CallAdd(t, n)) == sys && Act(c, sys, CallAddUrgent(t, n)) == sys
  {
    assert Act(c, sys, CallAdd(t, n)).shards == sys.shards == Act(c, sys, CallAddUrgent(t, n)).shards;
  }

  /** A failed urgent reconcile comes back urgent: its worker promotes the name of
      its round at `a`, and whichever retry of it lands at `b` is delivered so. */
  lemma FailedUrgentRoundRetriesUrgently(c: Config, ss: seq<System>, acts: seq<Action>, i: Shard, t: ThreadId,
                                         a: nat, b: nat, k: nat)
    requires Runs(c, ss, acts) && a < b < k < |ss|
    requires acts[a] == WorkerFails(i, t) && Shaped(ss[a])
    requires ss[a].workers[i].Reconciling? && ss[a].workers[i].fromUrgent
    requires acts[b] == AddStep(t) && t in ss[b].calls && ss[b].calls[t] == ToAdd(i, ss[a].workers[i].name)
    requires Shaped(ss[b]) && !ss[b].shards[i].shuttingDown
    ensures forall m :: 0 <= m < |ss| ==> Shaped(ss[m])
    ensures var n := ss[a].workers[i].name;
            PoppedUrgentBetween(QueueStates(ss, i), QueueSteps(c, ss, acts, i), n, a, k)
            || OwedUrgent(ss[k].shards[i], n)
  {
    EveryRunKeeps(c, ss, acts, a);
    assert WorkerMatches(ss[a].shards[i], ss[a].workers[i]);
    assert Happens(c, ss, acts, a) && Happens(c, ss, acts, b);
    ShardRefinesQueue(c, ss, acts, i);
    UrgentAddIsDelivered(QueueStates(ss, i), QueueSteps(c, ss, acts, i), ss[a].workers[i].name, a, b, k);
  }

  lemma {:induction false} RetryStage(c: Config, ss: seq<System>, acts: seq<Action>, i: Shard, t: ThreadId,
                                      n: Name, a: nat, k: nat) returns (b: nat)
    requires Runs(c, ss, acts) && a < k < |ss| && acts[a] == WorkerFails(i, t)
    requires Shaped(ss[a]) && ss[a].workers[i].Reconciling? && ss[a].workers[i].name == n
    ensures CallIs(ss[k], t, ToAdd(i, n)) ||
            (a < b < k && AddedAt(ss, acts, t, n, b) && CallIs(ss[b], t, ToAdd(i, n)))
    decreases k
  {
    b := 0;
    assert Happens(c, ss, acts, k - 1);
    if a < k - 1 {
      b := RetryStage(c, ss, acts, i, t, n, a, k - 1);
      if acts[k - 1] == AddStep(t) && CallIs(ss[k - 1], t, ToAdd(i, n)) { b := k - 1; }
    }
  }

  /** A failed reconcile is made again: at every later point its retry is still to come,
      or the name is owed a round or got one, from the urgent lane if the failed one was
      urgent. */
  lemma FailedRoundIsRetried(c: Config, ss: seq<System>, acts: seq<Action>, i: Shard, t: ThreadId, a: nat, k: nat)
    requires Runs(c, ss, acts) && a < k < |ss| && acts[a] == WorkerFails(i, t)
    requires Shaped(ss[a]) && ss[a].workers[i].Reconciling?
    requires Shaped(ss[k]) && !ss[k].shards[i].shuttingDown
    ensures forall m :: 0 <= m < |ss| ==> Shaped(ss[m])
    ensures var n := ss[a].workers[i].name;
            var qs, steps := QueueStates(ss, i), QueueSteps(c, ss, acts, i);
            || CallIs(ss[k], t, ToAdd(i, n))
            || (ss[a].workers[i].fromUrgent &&
                (PoppedUrgentBetween(qs, steps, n, a, k) || OwedUrgent(ss[k].shards[i], n)))
            || (!ss[a].workers[i].fromUrgent &&
                ((exists g :: a < g < k && Pops(qs, steps, n, g)) || n in ss[k].shards[i].dirty))
  {
    EveryStateIsShaped(c, ss, acts);
    var n := ss[a].workers[i].name;
    var b := RetryStage(c, ss, acts, i, t, n, a, k);
    if a < b < k && AddedAt(ss, acts, t, n, b) && CallIs(ss[b], t, ToAdd(i, n)) {
      StillOpen(c, ss, acts, i, b, k);
      if ss[a].workers[i].fromUrgent {
        FailedUrgentRoundRetriesUrgently(c, ss, acts, i, t, a, b, k);
      } else {
        assert Happens(c, ss, acts, b);
        ShardRefinesQueue(c, ss, acts, i);
        AddIsNotLost(QueueStates(ss, i), QueueSteps(c, ss, acts, i), n, b, k);
      }
    }
  }
}
