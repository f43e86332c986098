/**
 The work queue of one agent worker (packages/controller/main.go): two lanes of
 waiting names, a set of promotions not yet used, and around them the dirty and
 processing sets of a client-go work queue.

 The queue is a value, `Queue`, that changes by `Step`s. Every step is one
 critical section of the original, so an execution is one interleaving of the
 informer, watch and worker goroutines. The classes at the end are the
 imperative form, proved to perform exactly these steps.
 */
module AgentQueue {

  type Name = string

  // ---------- the lanes ----------

  datatype Lanes = Lanes(urgent: seq<Name>, background: seq<Name>, promoted: set<Name>, lastPopUrgent: bool) {

    function Promote(name: Name): Lanes {
      this.(promoted := promoted + {name})
    }

    // A promotion is used up by the first touch; a name that waits in the
    // background then moves to the end of the urgent lane.
    function Touch(name: Name): Lanes {
      if name !in promoted then this
      else
        var used := this.(promoted := promoted - {name});
        var i := IndexOf(background, name);
        if i < |background| then
          used.(background := background[..i] + background[i + 1..], urgent := urgent + [name])
        else used
    }

    function Push(name: Name): Lanes {
      if name in promoted then this.(promoted := promoted - {name}, urgent := urgent + [name])
      else this.(background := background + [name])
    }

    function Len(): nat {
      |urgent| + |background|
    }

    function Front(): Name
      requires Len() > 0
    {
      if |urgent| > 0 then urgent[0] else background[0]
    }

    function Pop(): Lanes
      requires Len() > 0
    {
      if |urgent| > 0 then this.(urgent := urgent[1..], lastPopUrgent := true)
      else this.(background := background[1..], lastPopUrgent := false)
    }

    predicate Holds(name: Name) {
      name in urgent || name in background
    }
  }

  // The first index of `name`, or the length when it is not there.
  function IndexOf(s: seq<Name>, name: Name): (i: nat)
    ensures i <= |s|
    ensures i < |s| ==> s[i] == name
    ensures name !in s[..i]
  {
    if s == [] || s[0] == name then 0 else
      var i := IndexOf(s[1..], name);
      assert s[..i + 1] == [s[0]] + s[1..][..i];
      i + 1
  }

  // ---------- the queue ----------

  datatype Queue = Queue(lanes: Lanes, dirty: set<Name>, processing: set<Name>, shuttingDown: bool)

  const EMPTY := Queue(Lanes([], [], {}, false), {}, {}, false)

  /** One atomic action on the queue. `Stutter` is a moment in which some other
      shard acts. */
  datatype Step =
    | Promote(name: Name)
    | Add(name: Name)
    | Get
    | Done(name: Name)
    | ShutDown
    | Stutter

  /** When a step can happen: Get blocks on an empty queue, and Done is called
      for a name that Get returned. */
  predicate Enabled(q: Queue, s: Step) {
    match s
    case Get => q.lanes.Len() > 0
    case Done(name) => name in q.processing
    case _ => true
  }

  function AddTo(q: Queue, name: Name): Queue {
    if q.shuttingDown then q
    else if name in q.dirty then
      if name in q.processing then q else q.(lanes := q.lanes.Touch(name))
    else
      var marked := q.(dirty := q.dirty + {name});
      if name in q.processing then marked else marked.(lanes := q.lanes.Push(name))
  }

  function GetFrom(q: Queue): Queue
    requires q.lanes.Len() > 0
  {
    var name := q.lanes.Front();
    q.(lanes := q.lanes.Pop(), processing := q.processing + {name}, dirty := q.dirty - {name})
  }

  function DoneWith(q: Queue, name: Name): Queue {
    var ended := q.(processing := q.processing - {name});
    if name in q.dirty then ended.(lanes := q.lanes.Push(name)) else ended
  }

  function Apply(q: Queue, s: Step): Queue
    requires Enabled(q, s)
  {
    match s
    case Promote(name) => q.(lanes := q.lanes.Promote(name))
    case Add(name) => AddTo(q, name)
    case Get => GetFrom(q)
    case Done(name) => DoneWith(q, name)
    case ShutDown => q.(shuttingDown := true)
    case Stutter => q
  }

  /** `qs` are the successive states of a run that takes `steps` from a new queue. */
  ghost predicate Execution(qs: seq<Queue>, steps: seq<Step>) {
    && |qs| == |steps| + 1
    && qs[0] == EMPTY
    && forall i :: 0 <= i < |steps| ==> Moves(qs, steps, i)
  }

  ghost predicate Moves(qs: seq<Queue>, steps: seq<Step>, i: nat)
    requires i < |steps| < |qs|
  {
    Enabled(qs[i], steps[i]) && qs[i + 1] == Apply(qs[i], steps[i])
  }

  // ---------- what every reachable state keeps ----------

  ghost predicate NoDuplicates(s: seq<Name>) {
    forall i, j :: 0 <= i < j < |s| ==> s[i] != s[j]
  }

  /** No name waits twice, in one lane or across the two, and the names that wait
      are exactly the dirty ones that are not being reconciled. */
  ghost predicate Consistent(q: Queue) {
    && NoDuplicates(q.lanes.urgent)
    && NoDuplicates(q.lanes.background)
    && (forall n :: n in q.lanes.urgent ==> n !in q.lanes.background)
    && (forall n :: q.lanes.Holds(n) <==> n in q.dirty && n !in q.processing)
  }

  lemma AppendKeepsDistinct(s: seq<Name>, name: Name)
    requires NoDuplicates(s) && name !in s
    ensures NoDuplicates(s + [name])
  {}

  lemma RemoveOne(s: seq<Name>, i: nat)
    requires i < |s| && NoDuplicates(s)
    ensures NoDuplicates(s[..i] + s[i + 1..])
    ensures forall n :: n in s[..i] + s[i + 1..] <==> n in s && n != s[i]
  {
    var r := s[..i] + s[i + 1..];
    forall n | n in s && n != s[i] ensures n in r {
      var k :| 0 <= k < |s| && s[k] == n;
      assert r[if k < i then k else k - 1] == n;
    }
  }

  lemma PushKeeps(lanes: Lanes, name: Name)
    requires NoDuplicates(lanes.urgent) && NoDuplicates(lanes.background)
    requires forall n :: n in lanes.urgent ==> n !in lanes.background
    requires !lanes.Holds(name)
    ensures NoDuplicates(lanes.Push(name).urgent) && NoDuplicates(lanes.Push(name).background)
    ensures forall n :: n in lanes.Push(name).urgent ==> n !in lanes.Push(name).background
    ensures forall n :: lanes.Push(name).Holds(n) <==> lanes.Holds(n) || n == name
  {
    AppendKeepsDistinct(lanes.urgent, name);
    AppendKeepsDistinct(lanes.background, name);
  }

  lemma TouchKeeps(lanes: Lanes, name: Name)
    requires NoDuplicates(lanes.urgent) && NoDuplicates(lanes.background)
    requires forall n :: n in lanes.urgent ==> n !in lanes.background
    ensures NoDuplicates(lanes.Touch(name).urgent) && NoDuplicates(lanes.Touch(name).background)
    ensures forall n :: n in lanes.Touch(name).urgent ==> n !in lanes.Touch(name).background
    ensures forall n :: lanes.Touch(name).Holds(n) <==> lanes.Holds(n)
  {
    var i := IndexOf(lanes.background, name);
    if name in lanes.promoted && i < |lanes.background| {
      RemoveOne(lanes.background, i);
      AppendKeepsDistinct(lanes.urgent, name);
    }
  }

  lemma PopKeeps(lanes: Lanes)
    requires lanes.Len() > 0
    requires NoDuplicates(lanes.urgent) && NoDuplicates(lanes.background)
    requires forall n :: n in lanes.urgent ==> n !in lanes.background
    ensures NoDuplicates(lanes.Pop().urgent) && NoDuplicates(lanes.Pop().background)
    ensures forall n :: n in lanes.Pop().urgent ==> n !in lanes.Pop().background
    ensures forall n :: lanes.Pop().Holds(n) <==> lanes.Holds(n) && n != lanes.Front()
  {
    var lane := if |lanes.urgent| > 0 then lanes.urgent else lanes.background;
    assert lane[..0] + lane[0 + 1..] == lane[1..];
    RemoveOne(lane, 0);
  }

  lemma StepKeepsConsistent(q: Queue, s: Step)
    requires Consistent(q) && Enabled(q, s)
    ensures Consistent(Apply(q, s))
  {
    match s
    case Add(name) =>
      if name in q.dirty { TouchKeeps(q.lanes, name); } else { PushKeeps(q.lanes, name); }
    case Get => PopKeeps(q.lanes);
    case Done(name) => if name in q.dirty { PushKeeps(q.lanes, name); }
    case _ =>
  }

  /** In every state of every run no name is queued twice, queued while it is
      reconciled, or lost. */
  lemma {:induction false} ReachableIsConsistent(qs: seq<Queue>, steps: seq<Step>, k: nat)
    requires Execution(qs, steps) && k < |qs|
    ensures Consistent(qs[k])
  {
    if k > 0 {
      ReachableIsConsistent(qs, steps, k - 1);
      assert Moves(qs, steps, k - 1);
      StepKeepsConsistent(qs[k - 1], steps[k - 1]);
    }
  }

  // ---------- an urgent add is delivered urgently ----------

  /** The step at `g` hands `n` to the worker out of the urgent lane. */
  ghost predicate PopsUrgent(qs: seq<Queue>, steps: seq<Step>, n: Name, g: int) {
    && 0 <= g < |steps| && g < |qs|
    && steps[g] == Get && |qs[g].lanes.urgent| > 0 && qs[g].lanes.urgent[0] == n
  }

  ghost predicate PoppedUrgentBetween(qs: seq<Queue>, steps: seq<Step>, n: Name, from: int, to: int) {
    exists g :: from < g < to && PopsUrgent(qs, steps, n, g)
  }

  // A promotion is not dropped: it stays pending until the name is in the urgent
  // lane, and from there only a pop takes the name away.
  lemma {:induction false} PromotionStands(qs: seq<Queue>, steps: seq<Step>, n: Name, i: nat, k: nat)
    requires Execution(qs, steps) && i < k < |qs|
    requires steps[i] == Promote(n)
    ensures PoppedUrgentBetween(qs, steps, n, i, k) || n in qs[k].lanes.promoted || n in qs[k].lanes.urgent
  {
    assert Moves(qs, steps, k - 1);
    if k - 1 > i {
      PromotionStands(qs, steps, n, i, k - 1);
      ReachableIsConsistent(qs, steps, k - 1);
      var q, s := qs[k - 1], steps[k - 1];
      if PoppedUrgentBetween(qs, steps, n, i, k - 1) {
      } else if n in q.lanes.urgent {
        if s == Get && q.lanes.urgent[0] == n {
          assert PopsUrgent(qs, steps, n, k - 1);
        } else if s == Get {
          UrgentTailKeeps(q.lanes.urgent, n);
        }
      } else {
        PendingSurvives(q, s, n);
      }
    }
  }

  lemma UrgentTailKeeps(s: seq<Name>, n: Name)
    requires n in s && s[0] != n
    ensures n in s[1..]
  {
    var k :| 0 <= k < |s| && s[k] == n;
    assert s[1..][k - 1] == n;
  }

  lemma PendingSurvives(q: Queue, s: Step, n: Name)
    requires Consistent(q) && Enabled(q, s)
    requires n in q.lanes.promoted
    ensures n in Apply(q, s).lanes.promoted || n in Apply(q, s).lanes.urgent
  {
    if s == Add(n) && n in q.dirty && n !in q.processing {
      assert q.lanes.Holds(n);
      var i := IndexOf(q.lanes.background, n);
      if i == |q.lanes.background| {
        assert q.lanes.background[..i] == q.lanes.background;
      }
    }
  }

  /** Where an urgent add leaves a name: in the urgent lane, or being reconciled
      with a second round owed to it that Done will put in the urgent lane. */
  ghost predicate OwedUrgent(q: Queue, n: Name) {
    n in q.lanes.urgent || (n in q.processing && n in q.dirty && n in q.lanes.promoted)
  }

  lemma AddMakesOwed(q: Queue, n: Name)
    requires Consistent(q) && !q.shuttingDown
    requires n in q.lanes.promoted || n in q.lanes.urgent
    ensures OwedUrgent(AddTo(q, n), n)
  {
    if n in q.lanes.promoted && n !in q.processing {
      PendingSurvives(q, Add(n), n);
    } else if n in q.lanes.urgent {
      assert q.lanes.Holds(n);
    }
  }

  lemma OwedSurvives(q: Queue, s: Step, n: Name)
    requires Consistent(q) && Enabled(q, s) && OwedUrgent(q, n)
    requires !(s == Get && |q.lanes.urgent| > 0 && q.lanes.urgent[0] == n)
    ensures OwedUrgent(Apply(q, s), n)
  {
    if n in q.lanes.urgent {
      assert q.lanes.Holds(n);
      if s == Get { UrgentTailKeeps(q.lanes.urgent, n); }
    } else {
      assert !q.lanes.Holds(n);
      if s == Get { assert q.lanes.Holds(q.lanes.Front()); }
    }
  }

  /** Whatever runs between and after the two steps of an urgent add — the
      promotion at `i`, the add at `j` — the name is either owed urgently or was
      handed out from the urgent lane after the promotion. The retry a worker
      makes of a failed urgent reconcile is such a pair of steps too. */
  lemma {:induction false} UrgentAddIsDelivered(qs: seq<Queue>, steps: seq<Step>, n: Name, i: nat, j: nat, k: nat)
    requires Execution(qs, steps) && i < j < k < |qs|
    requires steps[i] == Promote(n) && steps[j] == Add(n) && !qs[j].shuttingDown
    ensures PoppedUrgentBetween(qs, steps, n, i, k) || OwedUrgent(qs[k], n)
    decreases k
  {
    assert Moves(qs, steps, k - 1);
    ReachableIsConsistent(qs, steps, k - 1);
    if k == j + 1 {
      PromotionStands(qs, steps, n, i, j);
      if !PoppedUrgentBetween(qs, steps, n, i, j) { AddMakesOwed(qs[j], n); }
    } else {
      UrgentAddIsDelivered(qs, steps, n, i, j, k - 1);
      if !PoppedUrgentBetween(qs, steps, n, i, k - 1) {
        if PopsUrgent(qs, steps, n, k - 1) {
        } else {
          OwedSurvives(qs[k - 1], steps[k - 1], n);
        }
      }
    }
  }

  // The step at `g` hands `n` to the worker, from either lane.
  ghost predicate Pops(qs: seq<Queue>, steps: seq<Step>, n: Name, g: int) {
    && 0 <= g < |steps| && g < |qs|
    && steps[g] == Get && qs[g].lanes.Len() > 0 && qs[g].lanes.Front() == n
  }

  /** An add that the queue took is never lost: until the name is handed out, it
      stays dirty, which is to say queued or owed another round. */
  lemma {:induction false} AddIsNotLost(qs: seq<Queue>, steps: seq<Step>, n: Name, j: nat, k: nat)
    requires Execution(qs, steps) && j < k < |qs|
    requires steps[j] == Add(n) && !qs[j].shuttingDown
    ensures (exists g :: j < g < k && Pops(qs, steps, n, g)) || n in qs[k].dirty
    decreases k
  {
    assert Moves(qs, steps, k - 1);
    if k - 1 > j {
      AddIsNotLost(qs, steps, n, j, k - 1);
      if n in qs[k - 1].dirty && n !in qs[k].dirty {
        assert Pops(qs, steps, n, k - 1);
      }
    }
  }

  // ---------- the order names are handed out in ----------

  ghost function Gets(steps: seq<Step>): nat {
    if steps == [] then 0
    else Gets(steps[..|steps| - 1]) + (if steps[|steps| - 1] == Get then 1 else 0)
  }

  /** A name at position `p` of the urgent lane moves up by one at each pop and at
      nothing else, so it is handed out by exactly the (p+1)-th later pop, whatever
      is added meanwhile and however long the background lane is. */
  lemma {:induction false} UrgentNameIsServedInTurn(qs: seq<Queue>, steps: seq<Step>, a: nat, b: nat, p: nat)
    requires Execution(qs, steps) && a <= b < |qs|
    requires p < |qs[a].lanes.urgent| && Gets(steps[a..b]) <= p
    ensures p - Gets(steps[a..b]) < |qs[b].lanes.urgent|
    ensures qs[b].lanes.urgent[p - Gets(steps[a..b])] == qs[a].lanes.urgent[p]
    ensures b < |steps| && steps[b] == Get && Gets(steps[a..b]) == p ==>
              PopsUrgent(qs, steps, qs[a].lanes.urgent[p], b)
    decreases b
  {
    if a < b {
      var part := steps[a..b];
      assert part[..|part| - 1] == steps[a..b - 1];
      UrgentNameIsServedInTurn(qs, steps, a, b - 1, p);
      assert Moves(qs, steps, b - 1);
    }
  }

  ghost predicate Before(lane: seq<Name>, x: Name, y: Name) {
    exists i, j :: 0 <= i < j < |lane| && lane[i] == x && lane[j] == y
  }

  lemma RemovalKeepsBefore(lane: seq<Name>, drop: nat, x: Name, y: Name)
    requires drop < |lane| && Before(lane, x, y)
    requires x != lane[drop] && y != lane[drop]
    ensures Before(lane[..drop] + lane[drop + 1..], x, y)
  {
    var i, j :| 0 <= i < j < |lane| && lane[i] == x && lane[j] == y;
    var rest := lane[..drop] + lane[drop + 1..];
    assert rest[if i < drop then i else i - 1] == x && rest[if j < drop then j else j - 1] == y;
  }

  lemma AppendKeepsBefore(lane: seq<Name>, name: Name, x: Name, y: Name)
    requires Before(lane, x, y)
    ensures Before(lane + [name], x, y)
  {
    var i, j :| 0 <= i < j < |lane| && lane[i] == x && lane[j] == y;
    assert (lane + [name])[i] == x && (lane + [name])[j] == y;
  }

  lemma StepKeepsBackgroundOrder(q: Queue, s: Step, x: Name, y: Name)
    requires NoDuplicates(q.lanes.background) && Enabled(q, s) && Before(q.lanes.background, x, y)
    requires x in Apply(q, s).lanes.background && y in Apply(q, s).lanes.background
    ensures Before(Apply(q, s).lanes.background, x, y)
  {
    match s
    case Add(name) =>
      if q.shuttingDown || name in q.processing {
      } else if name in q.dirty {
        TouchKeepsBefore(q.lanes, name, x, y);
      } else {
        AppendKeepsBefore(q.lanes.background, name, x, y);
      }
    case Get => PopKeepsBefore(q.lanes, x, y);
    case Done(name) => AppendKeepsBefore(q.lanes.background, name, x, y);
    case _ =>
  }

  lemma PopKeepsBefore(lanes: Lanes, x: Name, y: Name)
    requires NoDuplicates(lanes.background) && lanes.Len() > 0 && Before(lanes.background, x, y)
    requires x in lanes.Pop().background && y in lanes.Pop().background
    ensures Before(lanes.Pop().background, x, y)
  {
    if |lanes.urgent| == 0 { TailKeepsBefore(lanes.background, x, y); }
  }

  lemma TailKeepsBefore(lane: seq<Name>, x: Name, y: Name)
    requires NoDuplicates(lane) && Before(lane, x, y) && x in lane[1..]
    ensures Before(lane[1..], x, y)
  {
    var i, j :| 0 <= i < j < |lane| && lane[i] == x && lane[j] == y;
    var k :| 0 <= k < |lane| - 1 && lane[1..][k] == x;
    assert lane[k + 1] == x;
    assert lane[1..][i - 1] == x && lane[1..][j - 1] == y;
  }

  lemma TouchKeepsBefore(lanes: Lanes, name: Name, x: Name, y: Name)
    requires NoDuplicates(lanes.background) && Before(lanes.background, x, y)
    requires x in lanes.Touch(name).background && y in lanes.Touch(name).background
    ensures Before(lanes.Touch(name).background, x, y)
  {
    var i := IndexOf(lanes.background, name);
    if name in lanes.promoted && i < |lanes.background| {
      RemoveOne(lanes.background, i);
      RemovalKeepsBefore(lanes.background, i, x, y);
    }
  }

  /** The background lane is first in, first out: while two names wait in it they
      keep their order, and the later one is never handed out ahead. A pop that
      takes a background name finds the urgent lane empty. */
  lemma {:induction false} BackgroundIsFirstInFirstOut(qs: seq<Queue>, steps: seq<Step>, a: nat, b: nat, x: Name,
                                                       y: Name)
    requires Execution(qs, steps) && a <= b < |qs|
    requires Before(qs[a].lanes.background, x, y)
    requires forall m :: a <= m <= b ==> x in qs[m].lanes.background && y in qs[m].lanes.background
    ensures Before(qs[b].lanes.background, x, y)
    ensures b < |steps| && steps[b] == Get ==> qs[b].lanes.Front() != y
    ensures b < |steps| && steps[b] == Get && qs[b].lanes.Front() in qs[b].lanes.background ==> qs[b].lanes.urgent == []
    decreases b
  {
    ReachableIsConsistent(qs, steps, b);
    if a < b {
      BackgroundIsFirstInFirstOut(qs, steps, a, b - 1, x, y);
      ReachableIsConsistent(qs, steps, b - 1);
      assert Moves(qs, steps, b - 1);
      StepKeepsBackgroundOrder(qs[b - 1], steps[b - 1], x, y);
    }
    if b < |steps| { assert Moves(qs, steps, b); }
  }

  lemma LastIsBehind(lane: seq<Name>, x: Name, y: Name)
    requires x in lane
    ensures Before(lane + [y], x, y)
  {
    var i :| 0 <= i < |lane| && lane[i] == x;
    assert (lane + [y])[i] == x && (lane + [y])[|lane|] == y;
  }

  // A name that joins the background lane stands behind every name that waits there.
  lemma NewNameJoinsBehind(q: Queue, s: Step, x: Name, y: Name)
    requires NoDuplicates(q.lanes.background) && Enabled(q, s)
    requires x in q.lanes.background && y !in q.lanes.background
    requires y in Apply(q, s).lanes.background
    ensures Before(Apply(q, s).lanes.background, x, y)
  {
    var lane := q.lanes.background;
    LastIsBehind(lane, x, y);
    if s.Add? && IndexOf(lane, s.name) < |lane| { RemoveOne(lane, IndexOf(lane, s.name)); }
  }

  /** Nobody gets ahead of a name that waits in the background: a name that is not ahead
      of it there, and comes and goes as it will, is behind it whenever it waits there
      too, and is handed out before it from the urgent lane only. */
  lemma {:induction false} NoNameGetsAhead(qs: seq<Queue>, steps: seq<Step>, a: nat, b: nat, x: Name, y: Name)
    requires Execution(qs, steps) && a <= b < |qs| && x != y
    requires forall m :: a <= m <= b ==> x in qs[m].lanes.background
    requires y in qs[a].lanes.background ==> Before(qs[a].lanes.background, x, y)
    ensures y in qs[b].lanes.background ==> Before(qs[b].lanes.background, x, y)
    ensures b < |steps| && Pops(qs, steps, y, b) ==> PopsUrgent(qs, steps, y, b)
    decreases b
  {
    ReachableIsConsistent(qs, steps, b);
    if a < b {
      NoNameGetsAhead(qs, steps, a, b - 1, x, y);
      ReachableIsConsistent(qs, steps, b - 1);
      assert Moves(qs, steps, b - 1);
      if y in qs[b].lanes.background {
        if y in qs[b - 1].lanes.background {
          StepKeepsBackgroundOrder(qs[b - 1], steps[b - 1], x, y);
        } else {
          NewNameJoinsBehind(qs[b - 1], steps[b - 1], x, y);
        }
      }
    }
  }

  // The pops up to `b` that found the urgent lane empty.
  ghost function BackgroundGets(qs: seq<Queue>, steps: seq<Step>, a: nat, b: nat): nat
    requires a <= b <= |steps| < |qs|
  {
    if a == b then 0
    else BackgroundGets(qs, steps, a, b - 1) +
         (if steps[b - 1] == Get && qs[b - 1].lanes.urgent == [] then 1 else 0)
  }

  // A name that is still in a lane after another was taken out moved up or stayed.
  lemma RemovalMovesUp(lane: seq<Name>, i: nat, p: nat) returns (p': nat)
    requires NoDuplicates(lane) && i < |lane| && p < |lane|
    requires lane[p] in lane[..i] + lane[i + 1..]
    ensures p' < |lane| - 1 && (lane[..i] + lane[i + 1..])[p'] == lane[p]
    ensures p' <= p
  {
    RemoveOne(lane, i);
    p' := if i < p then p - 1 else p;
  }

  lemma TailMovesUp(lane: seq<Name>, p: nat)
    requires NoDuplicates(lane) && p < |lane| && lane[p] in lane[1..]
    ensures p > 0 && lane[1..][p - 1] == lane[p]
  {
    var k :| 0 <= k < |lane| - 1 && lane[1..][k] == lane[p];
    assert lane[k + 1] == lane[p];
  }

  lemma PopMovesUp(lanes: Lanes, p: nat) returns (p': nat)
    requires NoDuplicates(lanes.background) && lanes.Len() > 0
    requires p < |lanes.background| && lanes.background[p] in lanes.Pop().background
    ensures p' + (if lanes.urgent == [] then 1 else 0) <= p
    ensures p' < |lanes.Pop().background| && lanes.Pop().background[p'] == lanes.background[p]
  {
    p' := p;
    if lanes.urgent == [] {
      TailMovesUp(lanes.background, p);
      p' := p - 1;
    }
  }

  lemma TouchMovesUp(lanes: Lanes, name: Name, p: nat) returns (p': nat)
    requires NoDuplicates(lanes.background)
    requires p < |lanes.background| && lanes.background[p] in lanes.Touch(name).background
    ensures p' <= p < |lanes.background|
    ensures p' < |lanes.Touch(name).background| && lanes.Touch(name).background[p'] == lanes.background[p]
  {
    var i := IndexOf(lanes.background, name);
    p' := p;
    if name in lanes.promoted && i < |lanes.background| { p' := RemovalMovesUp(lanes.background, i, p); }
  }

  // Where a waiting name stands after a step: no farther back, and one place up after a
  // background pop.
  lemma StepMovesUp(q: Queue, s: Step, p: nat) returns (p': nat)
    requires NoDuplicates(q.lanes.background) && Enabled(q, s)
    requires p < |q.lanes.background| && q.lanes.background[p] in Apply(q, s).lanes.background
    ensures p' + (if s == Get && q.lanes.urgent == [] then 1 else 0) <= p
    ensures p' < |Apply(q, s).lanes.background| && Apply(q, s).lanes.background[p'] == q.lanes.background[p]
  {
    p' := p;
    if s == Get {
      p' := PopMovesUp(q.lanes, p);
    } else if s.Add? && Apply(q, s).lanes == q.lanes.Touch(s.name) {
      p' := TouchMovesUp(q.lanes, s.name, p);
    }
  }

  /** A name at position `p` of the background lane never falls back and moves up at each
      pop that finds the urgent lane empty: while it waits there have been at most `p` of
      those, and the next one after that many hands it out. */
  lemma {:induction false} BackgroundNameIsServedInTurn(qs: seq<Queue>, steps: seq<Step>, a: nat, b: nat, p: nat)
    returns (p': nat)
    requires Execution(qs, steps) && a <= b < |qs| && p < |qs[a].lanes.background|
    requires forall m :: a <= m <= b ==> qs[a].lanes.background[p] in qs[m].lanes.background
    ensures p' + BackgroundGets(qs, steps, a, b) <= p
    ensures p' < |qs[b].lanes.background| && qs[b].lanes.background[p'] == qs[a].lanes.background[p]
    ensures b < |steps| && steps[b] == Get && qs[b].lanes.urgent == [] && BackgroundGets(qs, steps, a, b) == p ==>
              Pops(qs, steps, qs[a].lanes.background[p], b)
    decreases b
  {
    p' := p;
    if a < b {
      p' := BackgroundNameIsServedInTurn(qs, steps, a, b - 1, p);
      ReachableIsConsistent(qs, steps, b - 1);
      assert Moves(qs, steps, b - 1);
      p' := StepMovesUp(qs[b - 1], steps[b - 1], p');
    }
  }

  // ---------- what a promotion is worth ----------

  ghost function Promotions(steps: seq<Step>, n: Name, k: nat): nat
    requires k <= |steps|
  {
    if k == 0 then 0 else Promotions(steps, n, k - 1) + (if steps[k - 1] == Promote(n) then 1 else 0)
  }

  ghost function UrgentPops(qs: seq<Queue>, steps: seq<Step>, n: Name, k: nat): nat
    requires k <= |steps|
  {
    if k == 0 then 0 else UrgentPops(qs, steps, n, k - 1) + (if PopsUrgent(qs, steps, n, k - 1) then 1 else 0)
  }

  // What of a promotion is left: it is pending, or its name waits urgently.
  ghost function Unspent(q: Queue, n: Name): nat {
    (if n in q.lanes.promoted then 1 else 0) + (if n in q.lanes.urgent then 1 else 0)
  }

  lemma StepSpends(q: Queue, s: Step, n: Name)
    requires Consistent(q) && Enabled(q, s)
    ensures Unspent(Apply(q, s), n) + (if s == Get && |q.lanes.urgent| > 0 && q.lanes.urgent[0] == n then 1 else 0)
            <= Unspent(q, n) + (if s == Promote(n) then 1 else 0)
  {
    if s == Get && |q.lanes.urgent| > 0 && q.lanes.urgent[0] == n {
      assert n !in q.lanes.urgent[1..];
    }
    if n in q.lanes.urgent { assert q.lanes.Holds(n); }
  }

  /** A promotion is worth one delivery from the urgent lane and no more: over every
      run, those a name had and the one it may still get are no more than its promotions.
      A name that was never promoted is never in the urgent lane. */
  lemma {:induction false} PromotionIsSpentOnce(qs: seq<Queue>, steps: seq<Step>, n: Name, k: nat)
    requires Execution(qs, steps) && k < |qs|
    ensures UrgentPops(qs, steps, n, k) + Unspent(qs[k], n) <= Promotions(steps, n, k)
  {
    if k > 0 {
      PromotionIsSpentOnce(qs, steps, n, k - 1);
      ReachableIsConsistent(qs, steps, k - 1);
      assert Moves(qs, steps, k - 1);
      StepSpends(qs[k - 1], steps[k - 1], n);
    }
  }

  /** A queue that is closing takes no name it did not owe a round already. */
  lemma {:induction false} ClosingQueueTakesNothing(qs: seq<Queue>, steps: seq<Step>, n: Name, j: nat, k: nat)
    requires Execution(qs, steps) && j <= k < |qs| && qs[j].shuttingDown
    ensures qs[k].shuttingDown && (n in qs[k].dirty ==> n in qs[j].dirty)
    decreases k
  {
    if j < k {
      ClosingQueueTakesNothing(qs, steps, n, j, k - 1);
      assert Moves(qs, steps, k - 1);
    }
  }

  // ---------- the imperative form ----------

  /** agentLanes: the storage under the queue, changed in place. */
  class AgentLanes {
    var urgent: seq<Name>
    var background: seq<Name>
    var promoted: set<Name>
    var lastPopUrgent: bool

    function View(): Lanes
      reads this
    {
      Lanes(urgent, background, promoted, lastPopUrgent)
    }

    constructor ()
      ensures View() == EMPTY.lanes
    {
      urgent, background, promoted, lastPopUrgent := [], [], {}, false;
    }

    method Promote(name: Name)
      modifies this
      ensures View() == old(View()).Promote(name)
    {
      promoted := promoted + {name};
    }

    method PoppedUrgent() returns (flag: bool)
      ensures flag == View().lastPopUrgent
    {
      flag := lastPopUrgent;
    }

    method Touch(name: Name)
      modifies this
      ensures View() == old(View()).Touch(name)
    {
      if name !in promoted { return; }
      promoted := promoted - {name};
      var i := 0;
      while i < |background| && background[i] != name
        invariant i <= |background| && name !in background[..i]
        invariant unchanged(`urgent) && unchanged(`background) && unchanged(`lastPopUrgent)
        invariant promoted == old(promoted) - {name}
      {
        i := i + 1;
      }
      FirstIndexIsUnique(background, name, i);
      if i < |background| {
        background := background[..i] + background[i + 1..];
        urgent := urgent + [name];
      }
    }

    method Push(name: Name)
      modifies this
      ensures View() == old(View()).Push(name)
      ensures name !in promoted
      ensures if name in old(promoted) then urgent == old(urgent) + [name] && background == old(background)
              else background == old(background) + [name] && urgent == old(urgent)
    {
      if name in promoted {
        promoted := promoted - {name};
        urgent := urgent + [name];
        return;
      }
      background := background + [name];
    }

    method Len() returns (n: nat)
      ensures n == View().Len()
    {
      n := |urgent| + |background|;
    }

    method Pop() returns (name: Name)
      requires View().Len() > 0
      modifies this
      ensures name == old(View()).Front()
      ensures View() == old(View()).Pop()
    {
      lastPopUrgent := |urgent| > 0;
      if lastPopUrgent {
        name, urgent := urgent[0], urgent[1..];
      } else {
        name, background := background[0], background[1..];
      }
    }
  }

  lemma FirstIndexIsUnique(s: seq<Name>, name: Name, i: nat)
    requires i <= |s| && name !in s[..i] && (i < |s| ==> s[i] == name)
    ensures i == IndexOf(s, name)
  {
    var k := IndexOf(s, name);
    assert forall m :: 0 <= m < i ==> s[..i][m] == s[m];
    assert forall m :: 0 <= m < k ==> s[..k][m] == s[m];
  }

  /** agentQueue: the client-go queue over the lanes. */
  class WorkQueue {
    const lanes: AgentLanes
    var dirty: set<Name>
    var processing: set<Name>
    var shuttingDown: bool

    function View(): Queue
      reads this, lanes
    {
      Queue(lanes.View(), dirty, processing, shuttingDown)
    }

    constructor ()
      ensures View() == EMPTY
      ensures fresh(lanes)
    {
      lanes := new AgentLanes();
      dirty, processing, shuttingDown := {}, {}, false;
    }

    method Add(name: Name)
      modifies this, lanes
      ensures View() == Apply(old(View()), Step.Add(name))
    {
      if shuttingDown { return; }
      if name in dirty {
        if name !in processing { lanes.Touch(name); }
        return;
      }
      dirty := dirty + {name};
      if name in processing { return; }
      lanes.Push(name);
    }

    /** Get, once it need not wait: the front name, or the shutdown of a queue that is
        empty and closing, which changes nothing. */
    method Get() returns (name: Name, shutdown: bool)
      requires Enabled(View(), Step.Get) || shuttingDown
      modifies this, lanes
      ensures shutdown <==> !old(Enabled(View(), Step.Get))
      ensures shutdown ==> name == "" && View() == old(View())
      ensures !shutdown ==> name == old(View()).lanes.Front() && View() == Apply(old(View()), Step.Get)
    {
      var waiting := lanes.Len();
      if waiting == 0 { return "", true; }
      shutdown := false;
      name := lanes.Pop();
      processing := processing + {name};
      dirty := dirty - {name};
    }

    method Done(name: Name)
      requires Enabled(View(), Step.Done(name))
      modifies this, lanes
      ensures View() == Apply(old(View()), Step.Done(name))
    {
      processing := processing - {name};
      if name in dirty { lanes.Push(name); }
    }

    // The two critical sections, with nothing between them.
    method AddUrgent(name: Name)
      modifies this, lanes
      ensures View() == Apply(Apply(old(View()), Step.Promote(name)), Step.Add(name))
      ensures old(Consistent(View())) ==> Consistent(View())
      ensures old(Consistent(View())) && !shuttingDown ==> OwedUrgent(View(), name)
    {
      ghost var before := View();
      lanes.Promote(name);
      if Consistent(before) {
        StepKeepsConsistent(before, Step.Promote(name));
        if !shuttingDown { AddMakesOwed(View(), name); }
        StepKeepsConsistent(View(), Step.Add(name));
      }
      Add(name);
    }

    method Enqueue(isBackground: bool, name: Name)
      modifies this, lanes
      ensures old(Consistent(View())) ==> Consistent(View())
      ensures name == "" ==> View() == old(View())
      ensures name != "" && isBackground ==> View() == Apply(old(View()), Step.Add(name))
      ensures name != "" && !isBackground ==>
                View() == Apply(Apply(old(View()), Step.Promote(name)), Step.Add(name))
    {
      if name == "" {
        return;
      } else if isBackground {
        if Consistent(View()) { StepKeepsConsistent(View(), Step.Add(name)); }
        Add(name);
      } else {
        AddUrgent(name);
      }
    }

    /** One round of the worker's loop, undisturbed. `retry` says that a
        rate-limited add of the name was scheduled: it comes back urgent exactly
        when the round that failed was urgent or an urgent add came before it. */
    method Round(reconciled: bool) returns (name: Name, retry: bool)
      requires Consistent(View()) && Enabled(View(), Step.Get)
      modifies this, lanes
      ensures name == old(View()).lanes.Front() && retry == !reconciled
      ensures Consistent(View()) && processing == old(processing) - {name} && name !in dirty
      ensures lanes.urgent == old(lanes.urgent) || [name] + lanes.urgent == old(lanes.urgent)
      ensures retry && !shuttingDown ==>
                (OwedUrgent(AddTo(View(), name), name) <==>
                 old(lanes.urgent) != [] || name in old(lanes.promoted))
    {
      ghost var q0 := View();
      var shutdown;
      name, shutdown := Get();
      var urgent := lanes.PoppedUrgent();
      StepKeepsConsistent(q0, Step.Get);
      ghost var q1 := View();
      assert q0.lanes.Holds(name) && !q1.lanes.Holds(name);
      retry := !reconciled;
      if retry && urgent { lanes.Promote(name); }
      ghost var q2 := View();
      assert Consistent(q2);
      StepKeepsConsistent(q2, Step.Done(name));
      Done(name);
      assert !View().lanes.Holds(name);
      if !shuttingDown && name in lanes.promoted { AddMakesOwed(View(), name); }
    }
  }
}
