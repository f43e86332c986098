/**
 The rollback command itself (packages/api-server/src/agent-store-cli.ts and
 packages/api-server/src/modules/agent-store/rollback.ts), request by request, with
 the garbage collector at work between any two of them: its run is one of the safe
 steps of Rollback, wherever it stops.
 */
module RollbackCommand {
  import opened Wrappers
  import opened Rollback

  // ---------- the decisions ----------

  /** The cluster's marker: which store it says the fleet is in, since when, and whether
      the way back was closed. */
  datatype Marker = Marker(store: Option<string>, absorbedAt: Option<string>, contracted: bool)

  datatype Verdict = Noop | Refuse | Go

  function RollbackVerdict(absorbedAt: Option<string>, marker: Option<Marker>, sameInstall: bool, rows: nat,
                           liveAgents: bool): Verdict {
    var store := if marker.Some? then marker.value.store else None;
    if absorbedAt == None then (if store == Some("postgres") then Refuse else Noop)
    else if store == Some("postgres") && marker.value.contracted then Refuse
    else if store.Some? && store != Some("postgres") then Refuse
    else if !sameInstall then Refuse
    else if marker.Some? && marker.value.absorbedAt.Some? && marker.value.absorbedAt != absorbedAt then Refuse
    else if rows == 0 && liveAgents then Refuse
    else Go
  }

  // The marker says that the fleet is in the store of that name.
  ghost predicate MarkedAs(marker: Option<Marker>, store: string) {
    marker.Some? && marker.value.store == Some(store)
  }

  /** What speaks against a rollback: the marker says postgres and the database has no
      stamp; or, with a stamp, the marker names another store, the way back was closed,
      the rows are another install's, the marker's absorb was another, or there is no
      Agent row while Agents are live. */
  ghost predicate Forbidden(absorbedAt: Option<string>, marker: Option<Marker>, sameInstall: bool, anyRow: bool,
                            liveAgents: bool) {
    if absorbedAt == None then MarkedAs(marker, "postgres")
    else
      || !sameInstall
      || (exists store :: MarkedAs(marker, store) && store != "postgres")
      || (MarkedAs(marker, "postgres") && marker.value.contracted)
      || (marker.Some? && exists time :: marker.value.absorbedAt == Some(time) && absorbedAt != Some(time))
      || (!anyRow && liveAgents)
  }

  /** Each of these is refused and nothing else is; with no stamp and no such marker
      there is nothing to do. */
  lemma VerdictIs(absorbedAt: Option<string>, marker: Option<Marker>, sameInstall: bool, rows: nat, liveAgents: bool)
    ensures var verdict := RollbackVerdict(absorbedAt, marker, sameInstall, rows, liveAgents);
            && (verdict == Refuse <==> Forbidden(absorbedAt, marker, sameInstall, rows > 0, liveAgents))
            && (verdict == Noop <==> absorbedAt == None && !MarkedAs(marker, "postgres"))
  {
    if absorbedAt.Some? && marker.Some? {
      if marker.value.store.Some? { assert MarkedAs(marker, marker.value.store.value); }
      if marker.value.absorbedAt.Some? { assert marker.value.absorbedAt == Some(marker.value.absorbedAt.value); }
    }
  }

  datatype Listed = Listed(name: string, uid: Option<Uid>)

  /** The live custom resources of a kind that the absorb recorded and whose row is
      gone. */
  function Absent(p: Plan, live: seq<Listed>, recorded: map<string, Uid>): seq<string> {
    if live == [] then [] else
      var one, rest := live[0], Absent(p, live[1..], recorded);
      if one.name != "" && !p.Restores(one.name) && one.uid.Some? && one.name in recorded
         && recorded[one.name] == one.uid.value
      then [one.name] + rest else rest
  }

  /** Exactly the recorded ones are removed, never a restored name, and never one whose
      uid is another object's than the absorb saw. */
  lemma {:induction false} AbsentIsRecorded(p: Plan, live: seq<Listed>, recorded: map<string, Uid>, name: string)
    ensures name in Absent(p, live, recorded)
            <==> name != "" && !p.Restores(name) && name in recorded && Listed(name, Some(recorded[name])) in live
  {
    if live != [] { AbsentIsRecorded(p, live[1..], recorded, name); }
  }

  lemma AbsentNotRestored(p: Plan, live: seq<Listed>, recorded: map<string, Uid>)
    ensures forall j :: 0 <= j < |Absent(p, live, recorded)| ==> !p.Restores(Absent(p, live, recorded)[j])
  {
    forall j | 0 <= j < |Absent(p, live, recorded)| ensures !p.Restores(Absent(p, live, recorded)[j]) {
      AbsentIsRecorded(p, live, recorded, Absent(p, live, recorded)[j]);
    }
  }

  // The live resources at the start, and the ones the absorb recorded.
  datatype Listing = Listing(agents: seq<Listed>, budgets: seq<Listed>)

  datatype Membership = Membership(agents: map<string, Uid>, budgets: map<string, Uid>)

  ghost predicate HasAgents(c: Cluster) {
    exists k :: k in c.objects && k.kind == Agent
  }

  lemma {:induction false} NoAgentAppears(p: Plan, cs: seq<Cluster>, steps: seq<Step>, i: nat)
    requires Runs(p, cs, steps) && p.AgentRows() == 0 && !HasAgents(cs[0]) && i < |cs|
    ensures !HasAgents(cs[i])
  {
    if i > 0 {
      NoAgentAppears(p, cs, steps, i - 1);
      assert Happens(p, cs, steps, i - 1);
      NoAgentRow(p);
    }
  }

  lemma NoAgentRow(p: Plan)
    requires p.AgentRows() == 0
    ensures forall row :: row in p.rows ==> row.kind != Agent
  {
    forall row | row in p.rows ensures row.kind != Agent { AgentsCounted(p.rows, row); }
  }

  lemma {:induction false} SomeAgentRow(rows: seq<Row>)
    ensures CountAgents(rows) > 0 <==> exists i :: 0 <= i < |rows| && rows[i].kind == Agent
  {
    if rows != [] {
      SomeAgentRow(rows[1..]);
      assert rows == [rows[0]] + rows[1..];
    }
  }

  lemma {:induction false} AgentsCounted(rows: seq<Row>, row: Row)
    requires row in rows
    ensures row.kind == Agent ==> CountAgents(rows) > 0
  {
    if rows[0] != row { AgentsCounted(rows[1..], row); }
  }

  datatype Action = RePointTo(uid: Uid) | Skip | Throw

  function RePointAction(dryRun: bool, uid: Option<Uid>): Action {
    if uid.Some? then RePointTo(uid.value) else if dryRun then Skip else Throw
  }

  /** What happens around the command's requests: which of them fail, and what the
      collector looks at meanwhile. */
  datatype Host = Host(fails: nat -> bool, visits: nat -> seq<Key>) {
    ghost predicate NeverFails() {
      forall n :: !fails(n)
    }

    // The collector stays away.
    ghost predicate Quiet() {
      forall n :: visits(n) == []
    }
  }

  datatype Child = Child(key: Key, owners: seq<Ref>)

  ghost predicate OnlyCollector(steps: seq<Step>) {
    forall i :: 0 <= i < |steps| ==> steps[i].Collect? || steps[i].Strip?
  }

  /** The collector's work: objects went, and owners went from those that are left. */
  ghost predicate Fewer(c: Cluster, d: Cluster) {
    forall k :: k in d.objects ==>
                  k in c.objects && d.objects[k].agent == c.objects[k].agent
                  && forall r :: r in d.objects[k].owners ==> r in c.objects[k].owners
  }

  lemma CollectorLeavesFewer(p: Plan, b: Cluster, c: Cluster, step: Step)
    requires Fewer(b, c) && Enabled(p, c, step) && (step.Collect? || step.Strip?)
    ensures Fewer(b, Apply(c, step))
  {
    var d := Apply(c, step);
    forall k, r | k in d.objects && r in d.objects[k].owners
      ensures r in b.objects[k].owners
    {
      OwnersAfter(p, c, step, k, r);
    }
  }

  lemma FewerKeepsFree(p: Plan, c: Cluster, d: Cluster)
    requires Fewer(c, d) && AnchorsAreFree(p, c)
    ensures AnchorsAreFree(p, d)
  {
    forall x, k | p.RestoresAgent(x) && ChildIn(d, x, k) ensures !ReferencesAnchor(d.objects[k]) {
      assert ChildIn(c, x, k);
    }
  }

  lemma RunGrows(p: Plan, cs: seq<Cluster>, steps: seq<Step>, step: Step)
    requires Runs(p, cs, steps) && Enabled(p, cs[|cs| - 1], step)
    ensures Runs(p, cs + [Apply(cs[|cs| - 1], step)], steps + [step])
  {
    var cs1, steps1 := cs + [Apply(cs[|cs| - 1], step)], steps + [step];
    forall i | 0 <= i < |steps1| ensures Happens(p, cs1, steps1, i) {
      if i < |steps| { assert Happens(p, cs, steps, i); }
    }
  }

  // Nothing is created.
  ghost predicate Shrinks(c: Cluster, d: Cluster) {
    forall k :: k in d.objects ==> k in c.objects
  }

  /** A listing of a kind by label: every object once, with its owners. */
  ghost predicate Lists(c: Cluster, kind: Kind, x: string, children: seq<Child>) {
    && (forall j :: 0 <= j < |children| ==> Shows(c, kind, x, children[j]))
    && (forall k :: k in c.objects && k.kind == kind && c.objects[k].agent == Some(x) ==> Shown(children, k))
    && (forall i, j :: 0 <= i < j < |children| ==> children[i].key != children[j].key)
  }

  ghost predicate Shows(c: Cluster, kind: Kind, x: string, child: Child) {
    && child.key in c.objects && child.key.kind == kind && c.objects[child.key].agent == Some(x)
    && child.owners == c.objects[child.key].owners
  }

  ghost predicate Shown(children: seq<Child>, k: Key) {
    exists j :: 0 <= j < |children| && children[j].key == k
  }

  /** The first `i` listed children are re-pointed, and the listing of the others holds. */
  ghost predicate Progress(c: Cluster, x: string, kind: Kind, children: seq<Child>, i: nat) {
    && (forall j :: i <= j < |children| && !IsAnchor(children[j].key) ==>
          ChildIn(c, x, children[j].key) && StillHolds(c, children[j].key, children[j].owners))
    && (forall k: Key :: k.kind == kind && ChildIn(c, x, k) ==> Shown(children, k))
    && (forall j :: 0 <= j < i && j < |children| && !IsAnchor(children[j].key) ==>
          ChildIn(c, x, children[j].key) && Pointed(c, x, children[j].key))
  }

  lemma ProgressStarts(c: Cluster, x: string, kind: Kind, children: seq<Child>)
    requires UidsAreSound(c) && Lists(c, kind, x, children) && kind in CHILD_KINDS
    ensures Progress(c, x, kind, children, 0)
  {
    forall j | 0 <= j < |children| && !IsAnchor(children[j].key)
      ensures ChildIn(c, x, children[j].key) && StillHolds(c, children[j].key, children[j].owners)
    {
      assert Shows(c, kind, x, children[j]);
    }
  }

  lemma ProgressGoesOn(p: Plan, c: Cluster, d: Cluster, x: string, kind: Kind, children: seq<Child>, i: nat)
    requires Progress(c, x, kind, children, i) && i < |children| && p.RestoresAgent(x) && Later(p, c, d)
    requires !IsAnchor(children[i].key) && Pointed(d, x, children[i].key)
    ensures Progress(d, x, kind, children, i + 1)
  {
  }

  lemma RunKeepsProgress(p: Plan, cs: seq<Cluster>, steps: seq<Step>, from: nat, x: string, kind: Kind,
                         children: seq<Child>, i: nat)
    requires Runs(p, cs, steps) && Safe(p, cs[0]) && from < |cs| && p.RestoresAgent(x)
    requires Progress(cs[from], x, kind, children, i) && i < |children|
    requires !IsAnchor(children[i].key) && Pointed(cs[|cs| - 1], x, children[i].key)
    ensures Progress(cs[|cs| - 1], x, kind, children, i + 1)
  {
    RunIsLater(p, cs, steps, from, |cs| - 1);
    ProgressGoesOn(p, cs[from], cs[|cs| - 1], x, kind, children, i);
  }

  lemma ProgressSkips(c: Cluster, x: string, kind: Kind, children: seq<Child>, i: nat)
    requires Progress(c, x, kind, children, i) && i < |children| && IsAnchor(children[i].key)
    ensures Progress(c, x, kind, children, i + 1)
  {
  }

  lemma ProgressEnds(c: Cluster, x: string, kind: Kind, children: seq<Child>)
    requires Progress(c, x, kind, children, |children|) && AgentKey(x) in c.objects
    ensures KindPointed(c, x, kind)
  {
    forall k: Key | k.kind == kind && ChildIn(c, x, k) ensures Pointed(c, x, k) {
      var j :| 0 <= j < |children| && children[j].key == k;
    }
  }

  // A listing read off the objects, in no particular order.
  method ListOf(c: Cluster, kind: Kind, x: string) returns (children: seq<Child>)
    ensures Lists(c, kind, x, children)
  {
    children := [];
    var rest := set k | k in c.objects && k.kind == kind && c.objects[k].agent == Some(x);
    ghost var all := rest;
    while rest != {}
      invariant rest <= all
      invariant forall j :: 0 <= j < |children| ==> Shows(c, kind, x, children[j]) && children[j].key !in rest
      invariant forall k :: k in all ==> k in rest || Shown(children, k)
      invariant forall i, j :: 0 <= i < j < |children| ==> children[i].key != children[j].key
      decreases |rest|
    {
      var k :| k in rest;
      var child := Child(k, c.objects[k].owners);
      ShownGrows(children, child, all - rest);
      children, rest := children + [child], rest - {k};
    }
  }

  lemma ShownGrows(children: seq<Child>, child: Child, keys: set<Key>)
    requires forall k :: k in keys ==> Shown(children, k)
    ensures forall k :: k in keys ==> Shown(children + [child], k)
    ensures Shown(children + [child], child.key)
  {
    var grown := children + [child];
    assert grown[|children|].key == child.key;
    forall k | k in keys ensures Shown(grown, k) {
      var j :| 0 <= j < |children| && children[j].key == k;
      assert grown[j].key == k;
    }
  }

  ghost predicate KindFree(c: Cluster, x: string, kind: Kind) {
    forall k :: k in c.objects && k.kind == kind && c.objects[k].agent == Some(x) ==> !ReferencesAnchor(c.objects[k])
  }

  ghost predicate KindsFree(c: Cluster, x: string, kinds: seq<Kind>) {
    forall kind :: kind in kinds ==> KindFree(c, x, kind)
  }

  lemma FewerKeepsKinds(c: Cluster, d: Cluster, x: string, kinds: seq<Kind>)
    requires Fewer(c, d) && KindsFree(c, x, kinds)
    ensures KindsFree(d, x, kinds)
  {
    forall kind | kind in kinds ensures KindFree(d, x, kind) { assert KindFree(c, x, kind); }
  }

  lemma AllFree(p: Plan, c: Cluster)
    requires forall j :: 0 <= j < |p.rows| && p.rows[j].kind == Agent ==> KindsFree(c, p.rows[j].name, CHILD_KINDS)
    ensures AnchorsAreFree(p, c)
  {
    forall x, k | p.RestoresAgent(x) && ChildIn(c, x, k) ensures !ReferencesAnchor(c.objects[k]) {
      assert KindFree(c, x, k.kind);
    }
  }

  lemma AnchorsStayFree(p: Plan, c: Cluster, x: string)
    requires Safe(p, c) && AnchorsAreFree(p, c) && p.RestoresAgent(x)
    ensures AnchorsAreFree(p, Apply(c, DeleteAnchor(x)))
  {
    var step := DeleteAnchor(x);
    var d := Apply(c, step);
    forall y, k | p.RestoresAgent(y) && ChildIn(d, y, k) ensures !ReferencesAnchor(d.objects[k]) {
      ChildWasChild(p, c, step, y, k);
      forall r | r in d.objects[k].owners ensures !NamesAnchor(r) { OwnersAfter(p, c, step, k, r); }
    }
  }

  /** Whether no listed child references an anchor. */
  method FindStale(c: Cluster, x: string, kind: Kind, children: seq<Child>) returns (ok: bool)
    requires Lists(c, kind, x, children)
    ensures ok <==> KindFree(c, x, kind)
  {
    for i := 0 to |children|
      invariant forall j :: 0 <= j < i ==> !ReferencesAnchor(c.objects[children[j].key])
    {
      if exists r :: r in children[i].owners && NamesAnchor(r) {
        assert Shows(c, kind, x, children[i]);
        return false;
      }
    }
    return true;
  }

  lemma RunKeepsKinds(p: Plan, cs: seq<Cluster>, steps: seq<Step>, i: nat, x: string, kinds: seq<Kind>)
    requires Runs(p, cs, steps) && Safe(p, cs[0]) && i < |cs| && p.RestoresAgent(x) && KindsPointed(cs[i], x, kinds)
    ensures KindsPointed(cs[|cs| - 1], x, kinds)
  {
    RunIsLater(p, cs, steps, i, |cs| - 1);
    forall kind | kind in kinds ensures KindPointed(cs[|cs| - 1], x, kind) {
      LaterKeepsKind(p, cs[i], cs[|cs| - 1], x, kind);
    }
  }

  // The first `n` rows' Agents have all their children.
  ghost predicate AgentsPointed(p: Plan, c: Cluster, n: nat) {
    forall j :: 0 <= j < n && j < |p.rows| && p.rows[j].kind == Agent ==> AllPointed(c, p.rows[j].name)
  }

  lemma RunKeepsAgents(p: Plan, cs: seq<Cluster>, steps: seq<Step>, i: nat, n: nat)
    requires Runs(p, cs, steps) && Safe(p, cs[0]) && i < |cs| && AgentsPointed(p, cs[i], n)
    ensures AgentsPointed(p, cs[|cs| - 1], n)
  {
    forall j | 0 <= j < n && j < |p.rows| && p.rows[j].kind == Agent ensures AllPointed(cs[|cs| - 1], p.rows[j].name) {
      RunKeepsKinds(p, cs, steps, i, p.rows[j].name, CHILD_KINDS);
    }
  }

  lemma OneMoreAgent(p: Plan, c: Cluster, n: nat)
    requires n < |p.rows| && AgentsPointed(p, c, n) && (p.rows[n].kind == Agent ==> AllPointed(c, p.rows[n].name))
    ensures AgentsPointed(p, c, n + 1)
  {
  }

  lemma OneMoreKind(c: Cluster, x: string, kinds: seq<Kind>, n: nat)
    requires n < |kinds| && KindsPointed(c, x, kinds[..n]) && KindPointed(c, x, kinds[n])
    ensures KindsPointed(c, x, kinds[..n + 1])
  {
    assert kinds[..n + 1] == kinds[..n] + [kinds[n]];
  }

  /** What a finished rollback leaves: every resource of a row is there as its row has it,
      every labelled child of an Agent points to it and to no anchor, no anchor is left,
      and the recorded resources without a row are gone. */
  ghost predicate Finished(p: Plan, c: Cluster, agents: seq<string>, budgets: seq<string>) {
    && (forall j :: 0 <= j < |p.rows| ==> RowFinished(c, p.rows[j]))
    && (forall j :: 0 <= j < |agents| ==> Key(Agent, agents[j]) !in c.objects)
    && (forall j :: 0 <= j < |budgets| ==> Key(UserBudget, budgets[j]) !in c.objects)
  }

  // The first `n` rows' Agents have no anchor left.
  ghost predicate AnchorsGone(p: Plan, c: Cluster, n: nat) {
    forall j :: 0 <= j < n && j < |p.rows| && p.rows[j].kind == Agent ==> AnchorKey(p.rows[j].name) !in c.objects
  }

  ghost predicate RowFinished(c: Cluster, row: Row) {
    IsRestored(c, row) && (row.kind == Agent ==> AllPointed(c, row.name) && AnchorKey(row.name) !in c.objects)
  }

  lemma LaterKeepsFinished(p: Plan, c: Cluster, d: Cluster, agents: seq<string>, budgets: seq<string>)
    requires Later(p, c, d) && Shrinks(c, d) && Finished(p, c, agents, budgets)
    ensures Finished(p, d, agents, budgets)
  {
    forall j | 0 <= j < |p.rows| ensures RowFinished(d, p.rows[j]) {
      var row := p.rows[j];
      assert RowFinished(c, row);
      forall kind | row.kind == Agent && kind in CHILD_KINDS ensures KindPointed(d, row.name, kind) {
        assert KindPointed(c, row.name, kind);
        LaterKeepsKind(p, c, d, row.name, kind);
      }
    }
  }

  // ---------- when nothing stands in the way ----------

  // No anchor that carries a restored Agent's label references one.
  ghost predicate AnchorsStandAlone(p: Plan, c: Cluster) {
    forall x, k :: p.RestoresAgent(x) && LabelledAnchor(c, x, k) ==> !ReferencesAnchor(c.objects[k])
  }

  ghost predicate LabelledAnchor(c: Cluster, x: string, k: Key) {
    k in c.objects && c.objects[k].agent == Some(x) && IsAnchor(k)
  }

  lemma StepKeepsStanding(p: Plan, c: Cluster, step: Step)
    requires Enabled(p, c, step) && AnchorsStandAlone(p, c)
    ensures AnchorsStandAlone(p, Apply(c, step))
  {
    var d := Apply(c, step);
    forall x, k | p.RestoresAgent(x) && LabelledAnchor(d, x, k) ensures !ReferencesAnchor(d.objects[k]) {
      if step.Restore? && step.key !in c.objects && k == step.key {
      } else {
        assert LabelledAnchor(c, x, k);
        forall r | r in d.objects[k].owners ensures r in c.objects[k].owners { OwnersAfter(p, c, step, k, r); }
      }
    }
  }

  // Nor does a step before the anchors go take such a reference away.
  lemma StepKeepsLeaning(p: Plan, c: Cluster, step: Step)
    requires p.Valid() && Enabled(p, c, step) && !AnchorsStandAlone(p, c)
    requires step.Restore? || step.Delete? || step.RePoint?
    ensures !AnchorsStandAlone(p, Apply(c, step))
  {
    var x, k :| p.RestoresAgent(x) && LabelledAnchor(c, x, k) && ReferencesAnchor(c.objects[k]);
    assert Apply(c, step).objects[k].owners == c.objects[k].owners;
    assert LabelledAnchor(Apply(c, step), x, k);
  }

  lemma {:induction false} RunKeepsStanding(p: Plan, cs: seq<Cluster>, steps: seq<Step>, i: nat, j: nat)
    requires Runs(p, cs, steps) && i <= j < |cs| && AnchorsStandAlone(p, cs[i])
    ensures AnchorsStandAlone(p, cs[j])
    decreases j
  {
    if i < j {
      RunKeepsStanding(p, cs, steps, i, j - 1);
      assert Happens(p, cs, steps, j - 1);
      StepKeepsStanding(p, cs[j - 1], steps[j - 1]);
    }
  }

  // The check before the anchors go has nothing to find.
  ghost predicate NothingStale(p: Plan, c: Cluster) {
    forall j :: 0 <= j < |p.rows| && p.rows[j].kind == Agent ==> KindsFree(c, p.rows[j].name, CHILD_KINDS)
  }

  lemma PointedIsFree(p: Plan, c: Cluster, x: string, k: Key)
    requires p.RestoresAgent(x) && AllPointed(c, x) && AnchorsStandAlone(p, c)
    requires k in c.objects && k.kind in CHILD_KINDS && c.objects[k].agent == Some(x)
    ensures !ReferencesAnchor(c.objects[k])
  {
    if IsAnchor(k) {
      assert LabelledAnchor(c, x, k);
    } else {
      assert KindPointed(c, x, k.kind) && ChildIn(c, x, k);
      forall r | r in c.objects[k].owners && NamesAnchor(r) ensures r.kind == Agent {
        FilterIn(c.objects[k].owners, MARKED, r);
      }
    }
  }

  lemma PointedIsNotStale(p: Plan, c: Cluster)
    requires AgentsPointed(p, c, |p.rows|) && AnchorsStandAlone(p, c)
    ensures NothingStale(p, c)
  {
    forall j, k: Key | 0 <= j < |p.rows| && p.rows[j].kind == Agent && k in c.objects && k.kind in CHILD_KINDS
                       && c.objects[k].agent == Some(p.rows[j].name)
      ensures !ReferencesAnchor(c.objects[k])
    {
      PointedIsFree(p, c, p.rows[j].name, k);
    }
  }

  lemma NotStaleStandsAlone(p: Plan, c: Cluster)
    requires NothingStale(p, c)
    ensures AnchorsStandAlone(p, c)
  {
    forall x, k | p.RestoresAgent(x) && LabelledAnchor(c, x, k) ensures !ReferencesAnchor(c.objects[k]) {
      assert ConfigMap in CHILD_KINDS && KindFree(c, x, ConfigMap);
    }
  }

  /** There are such clusters: ones with a ConfigMap that is named like an anchor, labelled
      with a restored Agent and owned by that Agent's anchor. The re-point passes it over
      and the check does not, so the rollback is refused for as long as it is there. */
  lemma AnchorCanLean(x: string, y: string, p: Plan, c: Cluster)
    requires y != x && p == Plan([Row(Agent, x, "")])
    requires c == Cluster(map[AnchorKey(x) := Object(0, Some(x), "", []),
                              AnchorKey(y) := Object(1, Some(x), "", [Ref(ConfigMap, AnchorName(x), 0, true)])], 2)
    ensures Safe(p, c) && !AnchorsStandAlone(p, c)
  {
    var k, r := AnchorKey(y), Ref(ConfigMap, AnchorName(x), 0, true);
    AnchorIsNamed(x);
    AnchorIsNamed(y);
    NamesDiffer(x, y);
    assert p.rows[0].name == x && p.RestoresAgent(x);
    assert r in c.objects[k].owners && NamesAnchor(r) && LabelledAnchor(c, x, k);
    OnlyAnchors(p, c, x);
  }

  lemma NamesDiffer(x: string, y: string)
    requires x != y
    ensures AnchorName(x) != AnchorName(y)
  {
    assert AnchorName(x)[..|AnchorName(x)| - 7] == x && AnchorName(y)[..|AnchorName(y)| - 7] == y;
  }

  // Without children nothing needs a holder.
  lemma OnlyAnchors(p: Plan, c: Cluster, x: string)
    requires p == Plan([Row(Agent, x, "")]) && UidsAreSound(c)
    requires forall k :: k in c.objects ==> IsAnchor(k) && (k == AnchorKey(x) ==> c.objects[k].owners == [])
    ensures Safe(p, c)
  {
    forall y | p.RestoresAgent(y) ensures y == x {}
  }

  ghost predicate AllThere(p: Plan, c: Cluster) {
    forall j :: 0 <= j < |p.rows| ==> p.rows[j].At() in c.objects
  }

  /** The cluster and the database, as the command sees them. The ghost fields record
      the run. */
  class Install {
    const host: Host
    var cluster: Cluster
    var marker: Option<Marker>
    var absorbedAt: Option<string>
    var rows: seq<Row>
    var calls: nat
    ghost var cs: seq<Cluster>
    ghost var steps: seq<Step>

    constructor (host: Host, cluster: Cluster, marker: Option<Marker>, absorbedAt: Option<string>, rows: seq<Row>)
      ensures this.host == host && this.cluster == cluster
      ensures this.marker == marker && this.absorbedAt == absorbedAt && this.rows == rows
      ensures cs == [cluster] && steps == []
    {
      this.host, this.cluster, calls := host, cluster, 0;
      this.marker, this.absorbedAt, this.rows := marker, absorbedAt, rows;
      cs, steps := [cluster], [];
    }

    /** The run so far is one of safe steps, from a safe cluster to this one. */
    ghost predicate On(p: Plan)
      reads this
    {
      Runs(p, cs, steps) && Safe(p, cs[0]) && cs[|cs| - 1] == cluster
    }

    // The run went on; in a dry run, by the collector's steps alone.
    twostate predicate WentOn(p: Plan, dryRun: bool)
      reads this
    {
      && On(p) && old(cs) <= cs && old(steps) <= steps
      && (dryRun ==> OnlyCollector(steps[|old(steps)|..]))
    }

    // Without the collector, a labelled anchor that references one still does.
    twostate predicate StillLeans(p: Plan)
      reads this
    {
      host.Quiet() && !AnchorsStandAlone(p, old(cluster)) ==> !AnchorsStandAlone(p, cluster)
    }

    method Make(p: Plan, step: Step)
      requires On(p) && Enabled(p, cluster, step)
      modifies this`cluster, this`cs, this`steps
      ensures WentOn(p, step.Collect? || step.Strip?) && cluster == Apply(old(cluster), step)
      ensures step.Restore? || step.Delete? || step.RePoint? ==> StillLeans(p)
    {
      if !AnchorsStandAlone(p, cluster) && (step.Restore? || step.Delete? || step.RePoint?) {
        StepKeepsLeaning(p, cluster, step);
      }
      RunGrows(p, cs, steps, step);
      cluster := Apply(cluster, step);
      cs, steps := cs + [cluster], steps + [step];
    }

    // The collector looks at an object.
    method Visit(p: Plan, key: Key)
      requires On(p)
      modifies this`cluster, this`cs, this`steps
      ensures WentOn(p, true) && Fewer(old(cluster), cluster)
    {
      if Garbage(cluster, key) {
        CollectorLeavesFewer(p, cluster, cluster, Collect(key));
        Make(p, Collect(key));
      } else if HasLiveOwner(cluster, key) {
        CollectorLeavesFewer(p, cluster, cluster, Strip(key));
        Make(p, Strip(key));
      }
    }

    /** A request, which may fail; the collector has been at work by then. */
    method Request(p: Plan) returns (ok: bool)
      requires On(p)
      modifies this`cluster, this`cs, this`steps, this`calls
      ensures WentOn(p, true) && Fewer(old(cluster), cluster) && Later(p, old(cluster), cluster)
      ensures host.NeverFails() ==> ok
      ensures host.Quiet() ==> cluster == old(cluster)
    {
      var visits, i := host.visits(calls), 0;
      ghost var before := |cs| - 1;
      while i < |visits|
        invariant WentOn(p, true) && Fewer(old(cluster), cluster)
        invariant host.Quiet() ==> cluster == old(cluster)
      {
        Visit(p, visits[i]);
        i := i + 1;
      }
      RunIsLater(p, cs, steps, before, |cs| - 1);
      ok := !host.fails(calls);
      calls := calls + 1;
    }

    // One resource is written back: created, or replaced with its uid and owners kept.
    method RestoreRow(p: Plan, row: Row, dryRun: bool) returns (ok: bool)
      requires On(p) && row in p.rows
      modifies this`cluster, this`cs, this`steps, this`calls
      ensures WentOn(p, dryRun)
      ensures ok && !dryRun ==> IsRestored(cluster, row)
      ensures host.NeverFails() ==> ok
      ensures StillLeans(p)
    {
      ok := Request(p);
      if !ok || dryRun { return; }
      var live := row.At() in cluster.objects;
      ok := Request(p);
      ok := ok && live == (row.At() in cluster.objects);
      if ok { Make(p, Restore(row.At(), row.body)); }
    }

    method RestoreAll(p: Plan, dryRun: bool) returns (ok: bool)
      requires On(p)
      modifies this`cluster, this`cs, this`steps, this`calls
      ensures WentOn(p, dryRun)
      ensures ok && !dryRun ==> forall j :: 0 <= j < |p.rows| ==> IsRestored(cluster, p.rows[j])
      ensures host.NeverFails() ==> ok
      ensures StillLeans(p)
    {
      for i := 0 to |p.rows|
        invariant WentOn(p, dryRun)
        invariant StillLeans(p)
        invariant !dryRun ==> forall j :: 0 <= j < i ==> IsRestored(cluster, p.rows[j])
      {
        ghost var before := |cs| - 1;
        ok := RestoreRow(p, p.rows[i], dryRun);
        if !ok { return; }
        RunIsLater(p, cs, steps, before, |cs| - 1);
      }
      return true;
    }

    method DeleteOne(p: Plan, key: Key) returns (ok: bool)
      requires On(p) && (key.kind == Agent || key.kind == UserBudget) && !p.Restores(key.name)
      modifies this`cluster, this`cs, this`steps, this`calls
      ensures WentOn(p, false) && Shrinks(old(cluster), cluster)
      ensures ok ==> key !in cluster.objects
      ensures host.NeverFails() ==> ok
      ensures StillLeans(p)
    {
      ok := Request(p);
      if ok { Make(p, Delete(key)); }
    }

    method DeleteAbsent(p: Plan, kind: Kind, names: seq<string>, dryRun: bool) returns (ok: bool)
      requires On(p) && (kind == Agent || kind == UserBudget)
      requires forall j :: 0 <= j < |names| ==> !p.Restores(names[j])
      modifies this`cluster, this`cs, this`steps, this`calls
      ensures WentOn(p, dryRun) && Shrinks(old(cluster), cluster)
      ensures ok && !dryRun ==> forall j :: 0 <= j < |names| ==> Key(kind, names[j]) !in cluster.objects
      ensures host.NeverFails() ==> ok
      ensures StillLeans(p)
    {
      if dryRun { return true; }
      for i := 0 to |names|
        invariant WentOn(p, dryRun) && Shrinks(old(cluster), cluster)
        invariant StillLeans(p)
        invariant forall j :: 0 <= j < i ==> Key(kind, names[j]) !in cluster.objects
      {
        ok := DeleteOne(p, Key(kind, names[i]));
        if !ok { return; }
      }
      return true;
    }

    // The Agent whose uid the children are given is there.
    ghost predicate Has(x: string, uid: Uid)
      reads this
    {
      AgentKey(x) in cluster.objects && cluster.objects[AgentKey(x)].uid == uid
    }

    /** The owners written are worked out from the listing, which may be old by now; of a
        child of a restored Agent it still holds whatever is live. */
    method RePointChild(p: Plan, x: string, uid: Uid, child: Child) returns (ok: bool)
      requires On(p) && p.RestoresAgent(x) && Has(x, uid)
      requires ChildIn(cluster, x, child.key) && StillHolds(cluster, child.key, child.owners)
      modifies this`cluster, this`cs, this`steps, this`calls
      ensures WentOn(p, false) && Shrinks(old(cluster), cluster) && Has(x, uid)
      ensures ok ==>
              Pointed(cluster, x, child.key) && cluster.objects[child.key].owners == RePointed(child.owners, x, uid)
      ensures host.NeverFails() ==> ok
      ensures StillLeans(p)
    {
      ok := Request(p);
      assert SameAgent(old(cluster), cluster, x);
      if ok {
        RePointLeavesOneAgent(child.owners, x, uid);
        Make(p, RePoint(child.key, x, child.owners));
      }
    }

    method RePointNextChild(p: Plan, x: string, uid: Uid, kind: Kind, children: seq<Child>, i: nat) returns (ok: bool)
      requires On(p) && p.RestoresAgent(x) && Has(x, uid) && Progress(cluster, x, kind, children, i)
      requires i < |children| && !IsAnchor(children[i].key)
      modifies this`cluster, this`cs, this`steps, this`calls
      ensures WentOn(p, false) && Shrinks(old(cluster), cluster) && Has(x, uid)
      ensures ok ==> Progress(cluster, x, kind, children, i + 1)
      ensures host.NeverFails() ==> ok
      ensures StillLeans(p)
    {
      ghost var before := |cs| - 1;
      ok := RePointChild(p, x, uid, children[i]);
      if ok { RunKeepsProgress(p, cs, steps, before, x, kind, children, i); }
    }

    method RePointListed(p: Plan, x: string, uid: Uid, kind: Kind, children: seq<Child>) returns (ok: bool)
      requires On(p) && p.RestoresAgent(x) && Has(x, uid) && kind in CHILD_KINDS && Lists(cluster, kind, x, children)
      modifies this`cluster, this`cs, this`steps, this`calls
      ensures WentOn(p, false) && Shrinks(old(cluster), cluster) && Has(x, uid)
      ensures ok ==> KindPointed(cluster, x, kind)
      ensures host.NeverFails() ==> ok
      ensures StillLeans(p)
    {
      EveryRunIsSafe(p, cs, steps, |cs| - 1);
      ProgressStarts(cluster, x, kind, children);
      for i := 0 to |children|
        invariant WentOn(p, false) && Shrinks(old(cluster), cluster) && Has(x, uid)
        invariant StillLeans(p)
        invariant Progress(cluster, x, kind, children, i)
      {
        if IsAnchor(children[i].key) {
          ProgressSkips(cluster, x, kind, children, i);
        } else {
          ok := RePointNextChild(p, x, uid, kind, children, i);
          if !ok { return; }
        }
      }
      ProgressEnds(cluster, x, kind, children);
      return true;
    }

    method RePointKind(p: Plan, x: string, uid: Uid, kind: Kind, dryRun: bool) returns (ok: bool)
      requires On(p) && p.RestoresAgent(x) && Has(x, uid) && kind in CHILD_KINDS
      modifies this`cluster, this`cs, this`steps, this`calls
      ensures WentOn(p, dryRun) && Shrinks(old(cluster), cluster) && Has(x, uid)
      ensures ok && !dryRun ==> KindPointed(cluster, x, kind)
      ensures host.NeverFails() ==> ok
      ensures StillLeans(p)
    {
      ok := Request(p);
      assert SameAgent(old(cluster), cluster, x);
      if !ok { return; }
      var children := ListOf(cluster, kind, x);
      if !dryRun { ok := RePointListed(p, x, uid, kind, children); }
    }

    // One more kind, with the kinds before it still re-pointed.
    method RePointNext(p: Plan, x: string, uid: Uid, kinds: seq<Kind>, n: nat) returns (ok: bool)
      requires On(p) && p.RestoresAgent(x) && Has(x, uid) && n < |kinds| && kinds[n] in CHILD_KINDS
      requires KindsPointed(cluster, x, kinds[..n])
      modifies this`cluster, this`cs, this`steps, this`calls
      ensures WentOn(p, false) && Shrinks(old(cluster), cluster) && Has(x, uid)
      ensures ok ==> KindsPointed(cluster, x, kinds[..n + 1])
      ensures host.NeverFails() ==> ok
      ensures StillLeans(p)
    {
      ghost var before := |cs| - 1;
      ok := RePointKind(p, x, uid, kinds[n], false);
      RunKeepsKinds(p, cs, steps, before, x, kinds[..n]);
      if ok { OneMoreKind(cluster, x, kinds, n); }
    }

    method RePointKinds(p: Plan, x: string, uid: Uid, kinds: seq<Kind>, dryRun: bool) returns (ok: bool)
      requires On(p) && p.RestoresAgent(x) && Has(x, uid) && forall kind :: kind in kinds ==> kind in CHILD_KINDS
      modifies this`cluster, this`cs, this`steps, this`calls
      ensures WentOn(p, dryRun) && Shrinks(old(cluster), cluster)
      ensures ok && !dryRun ==> KindsPointed(cluster, x, kinds)
      ensures host.NeverFails() ==> ok
      ensures StillLeans(p)
    {
      for n := 0 to |kinds|
        invariant WentOn(p, dryRun) && Shrinks(old(cluster), cluster) && Has(x, uid)
        invariant StillLeans(p)
        invariant !dryRun ==> KindsPointed(cluster, x, kinds[..n])
      {
        if dryRun { ok := RePointKind(p, x, uid, kinds[n], true); } else { ok := RePointNext(p, x, uid, kinds, n); }
        if !ok { return; }
      }
      assert kinds[..|kinds|] == kinds;
      return true;
    }

    method RePointAgent(p: Plan, x: string, dryRun: bool) returns (ok: bool)
      requires On(p) && p.RestoresAgent(x)
      modifies this`cluster, this`cs, this`steps, this`calls
      ensures WentOn(p, dryRun) && Shrinks(old(cluster), cluster)
      ensures ok && !dryRun ==> AllPointed(cluster, x)
      ensures host.NeverFails() && (dryRun || AgentKey(x) in old(cluster).objects) ==> ok
      ensures StillLeans(p)
    {
      ok := Request(p);
      assert SameAgent(old(cluster), cluster, x);
      if !ok { return; }
      var uid := if AgentKey(x) in cluster.objects then Some(cluster.objects[AgentKey(x)].uid) else None;
      match RePointAction(dryRun, uid)
      case Skip => return true;
      case Throw => return false;
      case RePointTo(uid) => ok := RePointKinds(p, x, uid, CHILD_KINDS, dryRun);
    }

    // One more row, with the Agents before it still done.
    method RePointRow(p: Plan, i: nat) returns (ok: bool)
      requires On(p) && i < |p.rows| && AgentsPointed(p, cluster, i) && p.rows[i].kind == Agent
      modifies this`cluster, this`cs, this`steps, this`calls
      ensures WentOn(p, false) && Shrinks(old(cluster), cluster)
      ensures ok ==> AgentsPointed(p, cluster, i + 1)
      ensures host.NeverFails() && p.rows[i].At() in old(cluster).objects ==> ok
      ensures StillLeans(p)
    {
      ghost var before := |cs| - 1;
      ok := RePointAgent(p, p.rows[i].name, false);
      RunKeepsAgents(p, cs, steps, before, i);
      if ok { OneMoreAgent(p, cluster, i); }
    }

    method RePointAll(p: Plan, dryRun: bool) returns (ok: bool)
      requires On(p)
      modifies this`cluster, this`cs, this`steps, this`calls
      ensures WentOn(p, dryRun) && Shrinks(old(cluster), cluster)
      ensures ok && !dryRun ==> AgentsPointed(p, cluster, |p.rows|)
      ensures host.NeverFails() && (dryRun || AllThere(p, old(cluster))) ==> ok
      ensures StillLeans(p)
    {
      ghost var start := |cs| - 1;
      for i := 0 to |p.rows|
        invariant WentOn(p, dryRun) && Shrinks(old(cluster), cluster)
        invariant StillLeans(p)
        invariant !dryRun ==> AgentsPointed(p, cluster, i)
      {
        if p.rows[i].kind == Agent {
          RunIsLater(p, cs, steps, start, |cs| - 1);
          if dryRun { ok := RePointAgent(p, p.rows[i].name, true); } else { ok := RePointRow(p, i); }
          if !ok { return; }
        }
      }
      return true;
    }

    method CheckKind(p: Plan, x: string, kind: Kind) returns (ok: bool)
      requires On(p)
      modifies this`cluster, this`cs, this`steps, this`calls
      ensures WentOn(p, true) && Fewer(old(cluster), cluster)
      ensures ok ==> KindFree(cluster, x, kind)
      ensures host.NeverFails() && KindFree(old(cluster), x, kind) ==> ok
      ensures host.Quiet() ==> cluster == old(cluster)
    {
      ok := Request(p);
      if KindFree(old(cluster), x, kind) { FewerKeepsKinds(old(cluster), cluster, x, [kind]); }
      if !ok { return; }
      var children := ListOf(cluster, kind, x);
      ok := FindStale(cluster, x, kind, children);
    }

    method CheckKinds(p: Plan, x: string, kinds: seq<Kind>) returns (ok: bool)
      requires On(p)
      modifies this`cluster, this`cs, this`steps, this`calls
      ensures WentOn(p, true) && Fewer(old(cluster), cluster)
      ensures ok ==> KindsFree(cluster, x, kinds)
      ensures host.NeverFails() && KindsFree(old(cluster), x, kinds) ==> ok
      ensures host.Quiet() ==> cluster == old(cluster)
    {
      for n := 0 to |kinds|
        invariant WentOn(p, true) && Fewer(old(cluster), cluster) && KindsFree(cluster, x, kinds[..n])
        invariant host.Quiet() ==> cluster == old(cluster)
      {
        ghost var before := cluster;
        if KindsFree(old(cluster), x, kinds) { FewerKeepsKinds(old(cluster), cluster, x, kinds); }
        ok := CheckKind(p, x, kinds[n]);
        if !ok { return; }
        FewerKeepsKinds(before, cluster, x, kinds[..n]);
        assert kinds[..n + 1] == kinds[..n] + [kinds[n]];
      }
      assert kinds[..|kinds|] == kinds;
      return true;
    }

    /** The check before any anchor goes: it passes only if no labelled child of a
        restored Agent references an anchor. */
    method CheckAll(p: Plan) returns (ok: bool)
      requires On(p)
      modifies this`cluster, this`cs, this`steps, this`calls
      ensures WentOn(p, true) && Fewer(old(cluster), cluster)
      ensures ok ==> AnchorsAreFree(p, cluster) && NothingStale(p, cluster)
      ensures host.NeverFails() && NothingStale(p, old(cluster)) ==> ok
      ensures host.Quiet() ==> cluster == old(cluster)
    {
      for i := 0 to |p.rows|
        invariant WentOn(p, true) && Fewer(old(cluster), cluster)
        invariant host.Quiet() ==> cluster == old(cluster)
        invariant forall j :: 0 <= j < i && p.rows[j].kind == Agent ==> KindsFree(cluster, p.rows[j].name, CHILD_KINDS)
      {
        if p.rows[i].kind == Agent {
          ghost var before := cluster;
          if NothingStale(p, old(cluster)) { FewerKeepsKinds(old(cluster), cluster, p.rows[i].name, CHILD_KINDS); }
          ok := CheckKinds(p, p.rows[i].name, CHILD_KINDS);
          if !ok { return; }
          forall j | 0 <= j < i && p.rows[j].kind == Agent ensures KindsFree(cluster, p.rows[j].name, CHILD_KINDS) {
            FewerKeepsKinds(before, cluster, p.rows[j].name, CHILD_KINDS);
          }
        }
      }
      AllFree(p, cluster);
      return true;
    }

    method DeleteAnchors(p: Plan) returns (ok: bool)
      requires On(p) && AnchorsAreFree(p, cluster)
      modifies this`cluster, this`cs, this`steps, this`calls
      ensures WentOn(p, false) && Shrinks(old(cluster), cluster)
      ensures ok ==> AnchorsGone(p, cluster, |p.rows|)
      ensures host.NeverFails() ==> ok
    {
      for i := 0 to |p.rows|
        invariant WentOn(p, false) && Shrinks(old(cluster), cluster) && AnchorsAreFree(p, cluster)
        invariant AnchorsGone(p, cluster, i)
      {
        if p.rows[i].kind == Agent {
          ok := DeleteOneAnchor(p, p.rows[i].name);
          if !ok { return; }
        }
      }
      return true;
    }

    method DeleteOneAnchor(p: Plan, x: string) returns (ok: bool)
      requires On(p) && AnchorsAreFree(p, cluster) && p.RestoresAgent(x)
      modifies this`cluster, this`cs, this`steps, this`calls
      ensures WentOn(p, false) && Shrinks(old(cluster), cluster) && AnchorsAreFree(p, cluster)
      ensures ok ==> AnchorKey(x) !in cluster.objects
      ensures host.NeverFails() ==> ok
    {
      ghost var before := cluster;
      ok := Request(p);
      FewerKeepsFree(p, before, cluster);
      if !ok { return; }
      EveryRunIsSafe(p, cs, steps, |cs| - 1);
      AnchorsStayFree(p, cluster, x);
      Make(p, DeleteAnchor(x));
    }

    // Up to the re-point: the resources are back, and the stale ones gone.
    method Resources(p: Plan, agents: seq<string>, budgets: seq<string>, dryRun: bool) returns (ok: bool)
      requires On(p)
      requires forall j :: 0 <= j < |agents| ==> !p.Restores(agents[j])
      requires forall j :: 0 <= j < |budgets| ==> !p.Restores(budgets[j])
      modifies this`cluster, this`cs, this`steps, this`calls
      ensures WentOn(p, dryRun)
      ensures ok && !dryRun ==> forall j :: 0 <= j < |p.rows| ==> IsRestored(cluster, p.rows[j])
      ensures ok && !dryRun ==> forall j :: 0 <= j < |agents| ==> Key(Agent, agents[j]) !in cluster.objects
      ensures ok && !dryRun ==> forall j :: 0 <= j < |budgets| ==> Key(UserBudget, budgets[j]) !in cluster.objects
      ensures host.NeverFails() ==> ok
      ensures StillLeans(p)
    {
      ok := RestoreAll(p, dryRun);
      if !ok { return; }
      ghost var before := |cs| - 1;
      ok := DeleteAbsent(p, Agent, agents, dryRun);
      if !ok { return; }
      ok := DeleteAbsent(p, UserBudget, budgets, dryRun);
      RunIsLater(p, cs, steps, before, |cs| - 1);
    }

    // The check, and then the anchors.
    method Unanchor(p: Plan) returns (ok: bool)
      requires On(p) && AgentsPointed(p, cluster, |p.rows|)
      modifies this`cluster, this`cs, this`steps, this`calls
      ensures WentOn(p, false) && Shrinks(old(cluster), cluster)
      ensures ok ==> AgentsPointed(p, cluster, |p.rows|) && AnchorsGone(p, cluster, |p.rows|)
      ensures host.NeverFails() && AnchorsStandAlone(p, old(cluster)) ==> ok
      ensures host.Quiet() && !AnchorsStandAlone(p, old(cluster)) ==> !ok
    {
      ghost var before := |cs| - 1;
      if AnchorsStandAlone(p, cluster) { PointedIsNotStale(p, cluster); }
      ok := CheckAll(p);
      if !ok { return; }
      NotStaleStandsAlone(p, cluster);
      ok := DeleteAnchors(p);
      RunKeepsAgents(p, cs, steps, before, |p.rows|);
    }

    method ClearAbsorb(p: Plan, agents: seq<string>, budgets: seq<string>) returns (ok: bool)
      requires On(p) && Finished(p, cluster, agents, budgets)
      modifies this
      ensures WentOn(p, false) && Finished(p, cluster, agents, budgets)
      ensures marker == old(marker) || marker == None
      ensures if ok then marker == None && absorbedAt == None && rows == []
              else absorbedAt == old(absorbedAt) && rows == old(rows)
      ensures host.NeverFails() ==> ok
    {
      ghost var before := cluster;
      ok := Request(p);
      LaterKeepsFinished(p, before, cluster, agents, budgets);
      if !ok { return; }
      marker := None;
      before := cluster;
      ok := Request(p);
      LaterKeepsFinished(p, before, cluster, agents, budgets);
      if ok { rows, absorbedAt := [], None; }
    }

    // All but the last step.
    method Migrate(p: Plan, agents: seq<string>, budgets: seq<string>, dryRun: bool) returns (ok: bool)
      requires On(p)
      requires forall j :: 0 <= j < |agents| ==> !p.Restores(agents[j])
      requires forall j :: 0 <= j < |budgets| ==> !p.Restores(budgets[j])
      modifies this`cluster, this`cs, this`steps, this`calls
      ensures WentOn(p, dryRun)
      ensures ok && !dryRun ==> Finished(p, cluster, agents, budgets)
      ensures host.NeverFails() && AnchorsStandAlone(p, old(cluster)) ==> ok
      ensures host.Quiet() && !dryRun && !AnchorsStandAlone(p, old(cluster)) ==> !ok
    {
      ghost var start := |cs| - 1;
      ok := Resources(p, agents, budgets, dryRun);
      if !ok { return; }
      ghost var before := |cs| - 1;
      ok := RePointAll(p, dryRun);
      if AnchorsStandAlone(p, old(cluster)) { RunKeepsStanding(p, cs, steps, start, |cs| - 1); }
      if ok && !dryRun { ok := Unanchor(p); }
      RunIsLater(p, cs, steps, before, |cs| - 1);
    }

    // The marker and the database are as they were, but for a marker that is gone.
    twostate predicate RecordsStand()
      reads this
    {
      absorbedAt == old(absorbedAt) && rows == old(rows) && (marker == old(marker) || marker == None)
    }

    twostate predicate NothingCleared()
      reads this
    {
      absorbedAt == old(absorbedAt) && rows == old(rows) && marker == old(marker)
    }

    /** The command. Wherever it stops, its run so far is one of safe steps. What is
        forbidden is refused, and with nothing to do, or in a dry run, no record is
        changed and no step of its own taken. Otherwise it clears the absorb and deletes
        the rows when all is done and not before, and gets there if no request fails and
        no labelled anchor references one. */
    method Rollback(live: Listing, recorded: Membership, sameInstall: bool, dryRun: bool) returns (ok: bool)
      requires On(Plan(rows))
      modifies this
      ensures var p, forbidden, idle := Plan(old(rows)), old(IsForbidden(live, sameInstall)), old(IsIdle());
              && WentOn(p, dryRun) && Safe(p, cluster)
              && (forbidden ==> !ok)
              && (idle ==> ok)
              && (forbidden || idle ==> cluster == old(cluster))
              && (forbidden || idle || dryRun ==> NothingCleared())
              && (!ok ==> RecordsStand())
              && (!forbidden && !idle && host.NeverFails() && AnchorsStandAlone(p, old(cluster)) ==> ok)
              && (!forbidden && !idle && host.Quiet() && !dryRun && !AnchorsStandAlone(p, old(cluster)) ==> !ok)
              && (!forbidden && !idle && ok && !dryRun ==>
                    && Finished(p, cluster, Absent(p, live.agents, recorded.agents),
                                Absent(p, live.budgets, recorded.budgets))
                    && marker == None && absorbedAt == None && rows == [])
    {
      var p := Plan(rows);
      EveryRunIsSafe(p, cs, steps, |cs| - 1);
      SomeAgentRow(rows);
      VerdictIs(absorbedAt, marker, sameInstall, CountAgents(rows), live.agents != []);
      var verdict := RollbackVerdict(absorbedAt, marker, sameInstall, CountAgents(rows), live.agents != []);
      if verdict != Go { return verdict == Noop; }
      AbsentNotRestored(p, live.agents, recorded.agents);
      AbsentNotRestored(p, live.budgets, recorded.budgets);
      ok := Proceed(p, Absent(p, live.agents, recorded.agents), Absent(p, live.budgets, recorded.budgets), dryRun);
      EveryRunIsSafe(p, cs, steps, |cs| - 1);
    }

    ghost predicate IsForbidden(live: Listing, sameInstall: bool)
      reads this
    {
      Forbidden(absorbedAt, marker, sameInstall, exists i :: 0 <= i < |rows| && rows[i].kind == Agent,
                live.agents != [])
    }

    // The database has no stamp, and the marker does not speak of one.
    ghost predicate IsIdle()
      reads this
    {
      absorbedAt == None && !MarkedAs(marker, "postgres")
    }

    method Proceed(p: Plan, agents: seq<string>, budgets: seq<string>, dryRun: bool) returns (ok: bool)
      requires On(p)
      requires forall j :: 0 <= j < |agents| ==> !p.Restores(agents[j])
      requires forall j :: 0 <= j < |budgets| ==> !p.Restores(budgets[j])
      modifies this
      ensures WentOn(p, dryRun)
      ensures dryRun ==> NothingCleared()
      ensures ok && !dryRun ==>
              Finished(p, cluster, agents, budgets) && marker == None && absorbedAt == None && rows == []
      ensures !ok ==> RecordsStand()
      ensures host.NeverFails() && AnchorsStandAlone(p, old(cluster)) ==> ok
      ensures host.Quiet() && !dryRun && !AnchorsStandAlone(p, old(cluster)) ==> !ok
    {
      ok := Migrate(p, agents, budgets, dryRun);
      if ok && !dryRun { ok := ClearAbsorb(p, agents, budgets); }
    }
  }

  /** A rollback that was not forbidden is not forbidden after it stopped anywhere, and
      once it is through there is nothing left to do: the records it leaves are the ones
      it found, or the marker is gone, or both are cleared. */
  lemma RerunIsAllowed(p: Plan, cs: seq<Cluster>, steps: seq<Step>, absorbedAt: Option<string>, marker: Option<Marker>,
                       same: bool, absorbedNow: Option<string>, markerNow: Option<Marker>)
    requires Runs(p, cs, steps) && Safe(p, cs[0]) && absorbedAt.Some?
    requires !Forbidden(absorbedAt, marker, same, p.AgentRows() > 0, HasAgents(cs[0]))
    requires (absorbedNow == absorbedAt && (markerNow == marker || markerNow == None))
             || (absorbedNow == None && markerNow == None)
    ensures !Forbidden(absorbedNow, markerNow, same, p.AgentRows() > 0, HasAgents(cs[|cs| - 1]))
    ensures RollbackVerdict(absorbedNow, markerNow, same, p.AgentRows(), HasAgents(cs[|cs| - 1]))
            == if absorbedNow == None then Noop else Go
  {
    if p.AgentRows() == 0 { NoAgentAppears(p, cs, steps, |cs| - 1); }
    VerdictIs(absorbedNow, markerNow, same, p.AgentRows(), HasAgents(cs[|cs| - 1]));
  }
}
