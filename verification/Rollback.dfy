/**
 The rollback of the agent store (the rollback command of
 packages/api-server/src/agent-store-cli.ts): the custom resources are written back
 from the rows, and the children an absorbed Agent left with its anchor are re-pointed
 to the restored Agent before any anchor is deleted. Kubernetes' garbage collector
 runs beside it all the time and takes every object whose owners are all gone.
 */
module Rollback {
  import opened Wrappers

  type Uid = nat

  datatype Kind =
    | Agent | UserBudget
    | StatefulSet | Service | ServiceAccount | ConfigMap | Secret | NetworkPolicy | Certificate | AuthorizationPolicy
    | OtherKind(name: string)

  const CHILD_KINDS := [StatefulSet, Service, ServiceAccount, ConfigMap, Secret, NetworkPolicy, Certificate,
      AuthorizationPolicy]

  datatype Key = Key(kind: Kind, name: string)

  datatype Ref = Ref(kind: Kind, name: string, uid: Uid, controller: bool)

  // `agent`: the Agent the object's label names.
  datatype Object = Object(uid: Uid, agent: Option<string>, body: string, owners: seq<Ref>)

  // `next`: the uid the next created object gets; no uid is given twice.
  datatype Cluster = Cluster(objects: map<Key, Object>, next: Uid)

  // ---------- owner references ----------

  predicate EndsWith(s: string, t: string) {
    |t| <= |s| && s[|s| - |t|..] == t
  }

  function AnchorName(agent: string): string {
    agent + "-anchor"
  }

  predicate IsAnchor(k: Key) {
    k.kind == ConfigMap && EndsWith(k.name, "-anchor")
  }

  /** An anchor is a ConfigMap whose name ends so, and nothing else is. */
  lemma AnchorsAre(k: Key)
    ensures IsAnchor(k) <==> k.kind == ConfigMap && exists x: string :: k.name == x + "-anchor"
  {
    if IsAnchor(k) {
      var x := k.name[..|k.name| - 7];
      assert k.name == x + "-anchor";
    }
  }

  predicate NamesAnchor(r: Ref) {
    IsAnchor(Key(r.kind, r.name))
  }

  predicate IsAnchorOrAgent(r: Ref) {
    r.kind == Agent || NamesAnchor(r)
  }

  function Filter(owners: seq<Ref>, keep: Ref -> bool): seq<Ref> {
    if owners == [] then [] else
      var rest := Filter(owners[1..], keep);
      if keep(owners[0]) then [owners[0]] + rest else rest
  }

  function Unrelated(uid: Uid): Ref -> bool {
    (r: Ref) => !IsAnchorOrAgent(r) && r.uid != uid
  }

  function NotTo(uid: Uid): Ref -> bool {
    (r: Ref) => r.uid != uid
  }

  const FOREIGN: Ref -> bool := r => !IsAnchorOrAgent(r)

  function AgentRef(agent: string, uid: Uid): Ref {
    Ref(Agent, agent, uid, true)
  }

  /** A child's owners after it was re-pointed. */
  function RePointed(owners: seq<Ref>, agent: string, uid: Uid): seq<Ref> {
    Filter(owners, Unrelated(uid)) + [AgentRef(agent, uid)]
  }

  lemma {:induction false} FilterIn(owners: seq<Ref>, keep: Ref -> bool, r: Ref)
    ensures r in Filter(owners, keep) <==> r in owners && keep(r)
  {
    if owners != [] { FilterIn(owners[1..], keep, r); }
  }

  lemma {:induction false} FilterJoins(a: seq<Ref>, b: seq<Ref>, keep: Ref -> bool)
    ensures Filter(a + b, keep) == Filter(a, keep) + Filter(b, keep)
  {
    if a == [] {
      assert a + b == b;
    } else {
      FilterJoins(a[1..], b, keep);
      assert (a + b)[1..] == a[1..] + b;
    }
  }

  // Filtering first by something weaker on these references changes nothing.
  lemma {:induction false} FilterTwice(owners: seq<Ref>, weak: Ref -> bool, keep: Ref -> bool)
    requires forall r :: r in owners && keep(r) ==> weak(r)
    ensures Filter(Filter(owners, weak), keep) == Filter(owners, keep)
  {
    if owners != [] {
      var r, rest := owners[0], Filter(owners[1..], weak);
      FilterTwice(owners[1..], weak, keep);
      if weak(r) { assert ([r] + rest)[1..] == rest; }
    }
  }

  lemma {:induction false} FilterAll(owners: seq<Ref>, keep: Ref -> bool)
    requires forall r :: r in owners ==> keep(r)
    ensures Filter(owners, keep) == owners
  {
    if owners != [] { FilterAll(owners[1..], keep); }
  }

  /** Re-pointing again changes nothing. */
  lemma RePointIsIdempotent(owners: seq<Ref>, agent: string, uid: Uid)
    ensures RePointed(RePointed(owners, agent, uid), agent, uid) == RePointed(owners, agent, uid)
  {
    var kept, ref := Filter(owners, Unrelated(uid)), AgentRef(agent, uid);
    FilterJoins(kept, [ref], Unrelated(uid));
    FilterTwice(owners, Unrelated(uid), Unrelated(uid));
    assert Filter([ref], Unrelated(uid)) == [];
  }

  // The references to an anchor or an Agent.
  const MARKED: Ref -> bool := r => IsAnchorOrAgent(r)

  /** A re-pointed child has one Agent reference, the restored Agent's, and none to an
      anchor; every owner that is neither and does not carry the Agent's uid is kept,
      in order. */
  lemma RePointLeavesOneAgent(owners: seq<Ref>, agent: string, uid: Uid)
    ensures Filter(RePointed(owners, agent, uid), MARKED) == [Ref(Agent, agent, uid, true)]
    ensures Filter(RePointed(owners, agent, uid), FOREIGN) == Filter(owners, Unrelated(uid))
  {
    var kept, ref := Filter(owners, Unrelated(uid)), AgentRef(agent, uid);
    forall r | r in kept ensures !MARKED(r) && FOREIGN(r) { FilterIn(owners, Unrelated(uid), r); }
    FilterJoins(kept, [ref], MARKED);
    FilterJoins(kept, [ref], FOREIGN);
    FilterAll(kept, FOREIGN);
    FilterNone(kept, MARKED);
    assert Filter([ref], MARKED) == [ref] && Filter([ref], FOREIGN) == [];
  }

  lemma {:induction false} FilterNone(owners: seq<Ref>, keep: Ref -> bool)
    requires forall r :: r in owners ==> !keep(r)
    ensures Filter(owners, keep) == []
  {
    if owners != [] { FilterNone(owners[1..], keep); }
  }

  // ---------- the cluster ----------

  /** What the rows hold: the custom resources to restore. */
  datatype Row = Row(kind: Kind, name: string, body: string) {
    function At(): Key { Key(kind, name) }
  }

  function CountAgents(rows: seq<Row>): nat {
    if rows == [] then 0 else (if rows[0].kind == Agent then 1 else 0) + CountAgents(rows[1..])
  }

  datatype Plan = Plan(rows: seq<Row>) {
    function AgentRows(): nat { CountAgents(rows) }

    ghost predicate Valid() {
      && (forall i :: 0 <= i < |rows| ==> rows[i].kind == Agent || rows[i].kind == UserBudget)
      && (forall i, j :: 0 <= i < |rows| && 0 <= j < |rows| && rows[i].At() == rows[j].At() ==> i == j)
    }

    // The restored names, of either kind.
    predicate Restores(name: string) {
      exists i :: 0 <= i < |rows| && rows[i].name == name
    }

    predicate RestoresAgent(name: string) {
      exists i :: 0 <= i < |rows| && rows[i].kind == Agent && rows[i].name == name
    }
  }

  function AgentKey(agent: string): Key {
    Key(Agent, agent)
  }

  function AnchorKey(agent: string): Key {
    Key(ConfigMap, AnchorName(agent))
  }

  // What an Agent's reconciler creates: every kind that has a name here but the custom
  // resources themselves.
  predicate OfAgents(kind: Kind) {
    kind != Agent && kind != UserBudget && !kind.OtherKind?
  }

  // The labelled objects a rollback re-points.
  predicate IsChild(k: Key, o: Object, agent: string) {
    OfAgents(k.kind) && o.agent == Some(agent) && !IsAnchor(k)
  }

  predicate Live(c: Cluster, r: Ref) {
    var k := Key(r.kind, r.name);
    k in c.objects && c.objects[k].uid == r.uid
  }

  function LiveIn(c: Cluster): Ref -> bool {
    (r: Ref) => Live(c, r)
  }

  // The live owners that are neither an anchor nor an Agent.
  function LiveForeign(c: Cluster): Ref -> bool {
    (r: Ref) => Live(c, r) && !IsAnchorOrAgent(r)
  }

  /** What the garbage collector takes: an object that has owners, none of them live. */
  predicate Garbage(c: Cluster, k: Key) {
    k in c.objects && c.objects[k].owners != [] && forall r :: r in c.objects[k].owners ==> !Live(c, r)
  }

  // What it strips of its dead references: an object that has a live owner.
  predicate HasLiveOwner(c: Cluster, k: Key) {
    k in c.objects && exists r :: r in c.objects[k].owners && Live(c, r)
  }

  // ---------- the steps ----------

  /** A re-point writes owners worked out from what a listing showed, which may be older
      than the object. */
  datatype Step =
    | Restore(key: Key, body: string)
    | Delete(key: Key)
    | RePoint(key: Key, agent: string, listed: seq<Ref>)
    | DeleteAnchor(agent: string)
    | Collect(key: Key)
    | Strip(key: Key)

  ghost predicate ReferencesAnchor(o: Object) {
    exists r :: r in o.owners && NamesAnchor(r)
  }

  ghost predicate ChildIn(c: Cluster, x: string, k: Key) {
    k in c.objects && IsChild(k, c.objects[k], x)
  }

  // No child of a restored Agent references an anchor.
  ghost predicate AnchorsAreFree(p: Plan, c: Cluster) {
    forall x, k :: p.RestoresAgent(x) && ChildIn(c, x, k) ==> !ReferencesAnchor(c.objects[k])
  }

  /** Listed owners that still hold: whatever of them is live and neither an anchor nor an
      Agent is what the object has of that kind, in its order. */
  ghost predicate StillHolds(c: Cluster, k: Key, listed: seq<Ref>) {
    && k in c.objects && RefsAreSound(c, listed)
    && Filter(listed, LiveForeign(c)) == Filter(c.objects[k].owners, LiveForeign(c))
  }

  /** When a step is safe to make. */
  ghost predicate Enabled(p: Plan, c: Cluster, step: Step) {
    match step
    case Restore(key, body) => Row(key.kind, key.name, body) in p.rows
    case Delete(key) => (key.kind == Agent || key.kind == UserBudget) && !p.Restores(key.name)
    case RePoint(key, agent, listed) =>
      p.RestoresAgent(agent) && AgentKey(agent) in c.objects && ChildIn(c, agent, key) && StillHolds(c, key, listed)
    case DeleteAnchor(agent) => p.RestoresAgent(agent) && AnchorsAreFree(p, c)
    case Collect(key) => Garbage(c, key)
    case Strip(key) => HasLiveOwner(c, key)
  }

  function Orphaned(o: Object, uid: Uid): Object {
    o.(owners := Filter(o.owners, NotTo(uid)))
  }

  // A deletion that orphans: the dependents lose their reference and stay.
  function WithoutAnchor(c: Cluster, anchor: Key): Cluster {
    if anchor !in c.objects then c else
      var uid := c.objects[anchor].uid;
      c.(objects := map k | k in c.objects && k != anchor :: Orphaned(c.objects[k], uid))
  }

  function WithOwners(c: Cluster, k: Key, owners: seq<Ref>): Cluster
    requires k in c.objects
  {
    c.(objects := c.objects[k := c.objects[k].(owners := owners)])
  }

  function Apply(c: Cluster, step: Step): Cluster
    requires step.RePoint? ==> AgentKey(step.agent) in c.objects && step.key in c.objects
    requires step.Strip? ==> step.key in c.objects
  {
    match step
    case Restore(key, body) =>
      if key in c.objects then c.(objects := c.objects[key := c.objects[key].(body := body)])
      else Cluster(c.objects[key := Object(c.next, None, body, [])], c.next + 1)
    case Delete(key) => c.(objects := c.objects - {key})
    case RePoint(key, agent, listed) => WithOwners(c, key, RePointed(listed, agent, c.objects[AgentKey(agent)].uid))
    case DeleteAnchor(agent) => WithoutAnchor(c, AnchorKey(agent))
    case Collect(key) => c.(objects := c.objects - {key})
    case Strip(key) => WithOwners(c, key, Filter(c.objects[key].owners, LiveIn(c)))
  }

  ghost predicate Runs(p: Plan, cs: seq<Cluster>, steps: seq<Step>) {
    |cs| == |steps| + 1 && forall i :: 0 <= i < |steps| ==> Happens(p, cs, steps, i)
  }

  ghost predicate Happens(p: Plan, cs: seq<Cluster>, steps: seq<Step>, i: nat)
    requires i < |steps| < |cs|
  {
    Enabled(p, cs[i], steps[i]) && cs[i + 1] == Apply(cs[i], steps[i])
  }

  // ---------- the invariant ----------

  /** A uid is one object's, and a reference that carries a live object's uid names
      that object. */
  ghost predicate UidsAreSound(c: Cluster) {
    && (forall k :: k in c.objects ==> c.objects[k].uid < c.next)
    && (forall k, l :: k in c.objects && l in c.objects && c.objects[k].uid == c.objects[l].uid ==> k == l)
    && (forall k :: k in c.objects ==> RefsAreSound(c, c.objects[k].owners))
  }

  ghost predicate RefsAreSound(c: Cluster, owners: seq<Ref>) {
    forall r :: r in owners ==> RefIsSound(c, r)
  }

  ghost predicate RefIsSound(c: Cluster, r: Ref) {
    r.uid < c.next && forall k :: k in c.objects && c.objects[k].uid == r.uid ==> k == Key(r.kind, r.name)
  }

  // The Agent itself, or its anchor.
  predicate Holder(agent: string, k: Key) {
    k == AgentKey(agent) || k == AnchorKey(agent)
  }

  ghost predicate Held(c: Cluster, agent: string, owners: seq<Ref>) {
    exists r :: r in owners && Live(c, r) && Holder(agent, Key(r.kind, r.name))
  }

  // Holders and restored resources have no owner that could take them along.
  ghost predicate Rooted(p: Plan, c: Cluster) {
    && (forall x, k :: p.RestoresAgent(x) && Holder(x, k) && k in c.objects ==> c.objects[k].owners == [])
    && (forall row :: row in p.rows && row.At() in c.objects ==> c.objects[row.At()].owners == [])
  }

  ghost predicate ChildrenHeld(p: Plan, c: Cluster) {
    forall x, k :: p.RestoresAgent(x) && ChildIn(c, x, k) ==> Held(c, x, c.objects[k].owners)
  }

  ghost predicate Safe(p: Plan, c: Cluster) {
    p.Valid() && UidsAreSound(c) && Rooted(p, c) && ChildrenHeld(p, c)
  }

  // ---------- every step ----------

  lemma AnchorIsNamed(agent: string)
    ensures IsAnchor(AnchorKey(agent))
  {
    assert AnchorName(agent)[|agent|..] == "-anchor";
  }

  // A step gives no object a reference but the restored Agent's and those of a listing.
  lemma OwnersAfter(p: Plan, c: Cluster, step: Step, k: Key, r: Ref)
    requires Enabled(p, c, step)
    requires k in Apply(c, step).objects && r in Apply(c, step).objects[k].owners
    ensures k in c.objects
    ensures r in c.objects[k].owners
            || (step.RePoint? && (r in step.listed || r == AgentRef(step.agent, c.objects[AgentKey(step.agent)].uid)))
  {
    match step
    case RePoint(key, agent, listed) => FilterIn(listed, Unrelated(c.objects[AgentKey(agent)].uid), r);
    case DeleteAnchor(agent) =>
      if AnchorKey(agent) in c.objects { FilterIn(c.objects[k].owners, NotTo(c.objects[AnchorKey(agent)].uid), r); }
    case Strip(key) => FilterIn(c.objects[key].owners, LiveIn(c), r);
    case _ =>
  }

  lemma StepKeepsRef(p: Plan, c: Cluster, step: Step, r: Ref)
    requires Enabled(p, c, step) && RefIsSound(c, r)
    ensures RefIsSound(Apply(c, step), r)
  {
  }

  lemma OwnerIsSound(p: Plan, c: Cluster, step: Step, k: Key, r: Ref)
    requires UidsAreSound(c) && Enabled(p, c, step)
    requires k in Apply(c, step).objects && r in Apply(c, step).objects[k].owners
    ensures RefIsSound(Apply(c, step), r)
  {
    OwnersAfter(p, c, step, k, r);
    StepKeepsRef(p, c, step, r);
  }

  lemma StepKeepsUids(p: Plan, c: Cluster, step: Step)
    requires UidsAreSound(c) && Enabled(p, c, step)
    ensures UidsAreSound(Apply(c, step))
  {
    var d := Apply(c, step);
    forall k, r | k in d.objects && r in d.objects[k].owners ensures RefIsSound(d, r) {
      OwnerIsSound(p, c, step, k, r);
    }
  }

  lemma StepKeepsRooted(p: Plan, c: Cluster, step: Step)
    requires Safe(p, c) && Enabled(p, c, step)
    ensures Rooted(p, Apply(c, step))
  {
    var d := Apply(c, step);
    forall x, k | p.RestoresAgent(x) && Holder(x, k) && k in d.objects ensures d.objects[k].owners == [] {
      AnchorIsNamed(x);
    }
  }

  // A holder goes only with its anchor's own deletion, and a restored resource never.
  lemma HolderStays(p: Plan, c: Cluster, step: Step, x: string, k: Key)
    requires Safe(p, c) && Enabled(p, c, step) && p.RestoresAgent(x) && Holder(x, k) && k in c.objects
    requires step.DeleteAnchor? ==> k == AgentKey(x)
    ensures k in Apply(c, step).objects && Apply(c, step).objects[k].uid == c.objects[k].uid
  {
  }

  // A step that does not re-point the object leaves its references to what stays.
  lemma OwnerStays(p: Plan, c: Cluster, step: Step, k: Key, r: Ref)
    requires Enabled(p, c, step) && k in c.objects && k in Apply(c, step).objects
    requires r in c.objects[k].owners && Live(c, r) && Live(Apply(c, step), r)
    requires !(step.RePoint? && step.key == k)
    requires step.DeleteAnchor? && AnchorKey(step.agent) in c.objects ==> r.uid != c.objects[AnchorKey(step.agent)].uid
    ensures r in Apply(c, step).objects[k].owners
  {
    var o := c.objects[k];
    if step.DeleteAnchor? && AnchorKey(step.agent) in c.objects {
      FilterIn(o.owners, NotTo(c.objects[AnchorKey(step.agent)].uid), r);
    } else if step.Strip? {
      FilterIn(o.owners, LiveIn(c), r);
    }
  }

  lemma StepKeepsHeld(p: Plan, c: Cluster, step: Step, x: string, k: Key)
    requires Safe(p, c) && Enabled(p, c, step) && p.RestoresAgent(x)
    requires ChildIn(c, x, k) && k in Apply(c, step).objects
    ensures Held(Apply(c, step), x, Apply(c, step).objects[k].owners)
  {
    var d, o := Apply(c, step), c.objects[k];
    var r :| r in o.owners && Live(c, r) && Holder(x, Key(r.kind, r.name));
    AnchorIsNamed(x);
    HolderStays(p, c, step, x, Key(r.kind, r.name));
    if step.RePoint? && step.key == k {
      assert AgentRef(x, c.objects[AgentKey(x)].uid) in d.objects[k].owners;
    } else {
      OwnerStays(p, c, step, k, r);
    }
  }

  // ---------- what becomes of a child's other owners ----------

  /** The same child, with those of its owners that are neither an anchor nor an Agent and
      are live in `c` unchanged and in order. */
  ghost predicate SameChild(c: Cluster, o: Object, q: Object) {
    && q.uid == o.uid && q.agent == o.agent && q.body == o.body
    && Filter(q.owners, LiveForeign(c)) == Filter(o.owners, LiveForeign(c))
  }

  lemma {:induction false} FilterAgrees(owners: seq<Ref>, f: Ref -> bool, g: Ref -> bool)
    requires forall r :: r in owners ==> (f(r) <==> g(r))
    ensures Filter(owners, f) == Filter(owners, g)
  {
    if owners != [] { FilterAgrees(owners[1..], f, g); }
  }

  // No step brings a reference back to life.
  lemma LiveWasLive(p: Plan, c: Cluster, step: Step, r: Ref)
    requires Enabled(p, c, step) && r.uid < c.next && Live(Apply(c, step), r)
    ensures Live(c, r)
  {
  }

  // Two texts with the same live owners have the same after a step.
  lemma StaysAlike(p: Plan, c: Cluster, step: Step, a: seq<Ref>, b: seq<Ref>)
    requires Enabled(p, c, step) && RefsAreSound(c, a) && RefsAreSound(c, b)
    requires Filter(a, LiveForeign(c)) == Filter(b, LiveForeign(c))
    ensures var d := Apply(c, step); Filter(a, LiveForeign(d)) == Filter(b, LiveForeign(d))
  {
    var was, now := LiveForeign(c), LiveForeign(Apply(c, step));
    forall r | (r in a || r in b) && now(r) ensures was(r) {
      assert RefIsSound(c, r);
      LiveWasLive(p, c, step, r);
    }
    FilterTwice(a, was, now);
    FilterTwice(b, was, now);
  }

  // What a re-point writes has the live owners of the listing.
  lemma RePointKeepsForeign(c: Cluster, listed: seq<Ref>, agent: string)
    requires RefsAreSound(c, listed) && AgentKey(agent) in c.objects
    ensures var uid := c.objects[AgentKey(agent)].uid;
            Filter(RePointed(listed, agent, uid), LiveForeign(c)) == Filter(listed, LiveForeign(c))
  {
    var uid, live := c.objects[AgentKey(agent)].uid, LiveForeign(c);
    var kept, ref := Filter(listed, Unrelated(uid)), AgentRef(agent, uid);
    forall r | r in listed && live(r) ensures Unrelated(uid)(r) { assert RefIsSound(c, r); }
    FilterJoins(kept, [ref], live);
    FilterTwice(listed, Unrelated(uid), live);
    assert Filter([ref], live) == [];
  }

  lemma OrphaningKeepsForeign(c: Cluster, d: Cluster, owners: seq<Ref>, anchor: Key)
    requires RefsAreSound(c, owners) && anchor in c.objects && d == WithoutAnchor(c, anchor)
    ensures Filter(Filter(owners, NotTo(c.objects[anchor].uid)), LiveForeign(d)) == Filter(owners, LiveForeign(d))
  {
    var uid := c.objects[anchor].uid;
    forall r | r in owners && LiveForeign(d)(r) ensures NotTo(uid)(r) { assert RefIsSound(c, r); }
    FilterTwice(owners, NotTo(uid), LiveForeign(d));
  }

  lemma SameLives(c: Cluster, k: Key, owners: seq<Ref>, some: seq<Ref>)
    requires k in c.objects
    ensures Filter(some, LiveForeign(WithOwners(c, k, owners))) == Filter(some, LiveForeign(c))
  {
    FilterAgrees(some, LiveForeign(WithOwners(c, k, owners)), LiveForeign(c));
  }

  /** A labelled child of a restored Agent outlives every step, the collector's too, and
      keeps every live owner that is neither an anchor nor an Agent, in order. */
  lemma StepKeepsChild(p: Plan, c: Cluster, step: Step, x: string, k: Key)
    requires Safe(p, c) && Enabled(p, c, step) && p.RestoresAgent(x) && ChildIn(c, x, k)
    ensures ChildIn(Apply(c, step), x, k) && SameChild(Apply(c, step), c.objects[k], Apply(c, step).objects[k])
  {
    var o, d := c.objects[k], Apply(c, step);
    assert Held(c, x, o.owners);
    match step
    case RePoint(key, agent, listed) =>
      if key == k {
        var owners := RePointed(listed, agent, c.objects[AgentKey(agent)].uid);
        RePointKeepsForeign(c, listed, agent);
        SameLives(c, k, owners, owners);
        SameLives(c, k, owners, o.owners);
      }
    case DeleteAnchor(agent) =>
      if AnchorKey(agent) in c.objects {
        AnchorIsNamed(agent);
        OrphaningKeepsForeign(c, d, o.owners, AnchorKey(agent));
      }
    case Strip(key) =>
      if key == k { StripKeepsForeign(c, k); }
    case _ =>
  }

  lemma StripKeepsForeign(c: Cluster, k: Key)
    requires k in c.objects
    ensures var kept := Filter(c.objects[k].owners, LiveIn(c));
            var d := WithOwners(c, k, kept);
            Filter(kept, LiveForeign(d)) == Filter(c.objects[k].owners, LiveForeign(d))
  {
    var owners := c.objects[k].owners;
    var kept := Filter(owners, LiveIn(c));
    FilterTwice(owners, LiveIn(c), LiveForeign(c));
    SameLives(c, k, kept, kept);
    SameLives(c, k, kept, owners);
  }

  // No step makes an object a child.
  lemma ChildWasChild(p: Plan, c: Cluster, step: Step, x: string, k: Key)
    requires Safe(p, c) && Enabled(p, c, step) && p.RestoresAgent(x) && ChildIn(Apply(c, step), x, k)
    ensures ChildIn(c, x, k)
  {
  }

  lemma StepKeepsSafe(p: Plan, c: Cluster, step: Step)
    requires Safe(p, c) && Enabled(p, c, step)
    ensures Safe(p, Apply(c, step))
  {
    var d := Apply(c, step);
    StepKeepsUids(p, c, step);
    StepKeepsRooted(p, c, step);
    forall x, k | p.RestoresAgent(x) && ChildIn(d, x, k) ensures Held(d, x, d.objects[k].owners) {
      ChildWasChild(p, c, step, x, k);
      StepKeepsHeld(p, c, step, x, k);
    }
  }

  /** Whatever the order of the steps, wherever a rollback stops and however often it
      is started again, at every point every labelled child of a restored Agent has a
      live owner, its own Agent or that Agent's anchor. */
  lemma {:induction false} EveryRunIsSafe(p: Plan, cs: seq<Cluster>, steps: seq<Step>, i: nat)
    requires Runs(p, cs, steps) && Safe(p, cs[0]) && i < |cs|
    ensures Safe(p, cs[i])
  {
    if i > 0 {
      EveryRunIsSafe(p, cs, steps, i - 1);
      assert Happens(p, cs, steps, i - 1);
      StepKeepsSafe(p, cs[i - 1], steps[i - 1]);
    }
  }

  lemma StepKeepsListing(p: Plan, c: Cluster, step: Step, x: string, k: Key, listed: seq<Ref>)
    requires Safe(p, c) && Enabled(p, c, step) && p.RestoresAgent(x) && ChildIn(c, x, k) && StillHolds(c, k, listed)
    ensures StillHolds(Apply(c, step), k, listed)
  {
    StepKeepsChild(p, c, step, x, k);
    StaysAlike(p, c, step, listed, c.objects[k].owners);
    forall r | r in listed ensures RefIsSound(Apply(c, step), r) {
      assert RefIsSound(c, r);
      StepKeepsRef(p, c, step, r);
    }
  }

  /** So no such child is ever collected, and of the owners it had that are neither an
      anchor nor an Agent it has all that are still live, in their order. */
  lemma {:induction false} NoChildIsLost(p: Plan, cs: seq<Cluster>, steps: seq<Step>, i: nat, x: string, k: Key)
    requires Runs(p, cs, steps) && Safe(p, cs[0]) && i < |cs| && p.RestoresAgent(x) && ChildIn(cs[0], x, k)
    ensures ChildIn(cs[i], x, k) && SameChild(cs[i], cs[0].objects[k], cs[i].objects[k])
    ensures StillHolds(cs[i], k, cs[0].objects[k].owners)
  {
    if i > 0 {
      NoChildIsLost(p, cs, steps, i - 1, x, k);
      EveryRunIsSafe(p, cs, steps, i - 1);
      assert Happens(p, cs, steps, i - 1);
      StepKeepsChild(p, cs[i - 1], steps[i - 1], x, k);
      StepKeepsListing(p, cs[i - 1], steps[i - 1], x, k, cs[0].objects[k].owners);
    }
  }

  // ---------- what stays re-pointed ----------

  // The child's one reference to an anchor or an Agent is the live Agent's.
  ghost predicate Pointed(c: Cluster, x: string, k: Key) {
    && AgentKey(x) in c.objects && k in c.objects
    && Filter(c.objects[k].owners, MARKED) == [AgentRef(x, c.objects[AgentKey(x)].uid)]
  }

  // Filtering by something true of the Agent's reference leaves it the one.
  lemma FilterKeepsPointed(c: Cluster, x: string, k: Key, weak: Ref -> bool)
    requires Pointed(c, x, k) && weak(AgentRef(x, c.objects[AgentKey(x)].uid))
    ensures Filter(Filter(c.objects[k].owners, weak), MARKED) == Filter(c.objects[k].owners, MARKED)
  {
    var owners := c.objects[k].owners;
    forall r | r in owners && MARKED(r) ensures weak(r) { FilterIn(owners, MARKED, r); }
    FilterTwice(owners, weak, MARKED);
  }

  /** Once re-pointed, a child stays so. */
  lemma StepKeepsPointed(p: Plan, c: Cluster, step: Step, x: string, k: Key)
    requires Safe(p, c) && Enabled(p, c, step) && p.RestoresAgent(x) && ChildIn(c, x, k) && Pointed(c, x, k)
    ensures Pointed(Apply(c, step), x, k)
  {
    StepKeepsChild(p, c, step, x, k);
    HolderStays(p, c, step, x, AgentKey(x));
    match step
    case RePoint(key, agent, listed) => RePointLeavesOneAgent(listed, agent, c.objects[AgentKey(agent)].uid);
    case DeleteAnchor(agent) =>
      if AnchorKey(agent) in c.objects { FilterKeepsPointed(c, x, k, NotTo(c.objects[AnchorKey(agent)].uid)); }
    case Strip(key) => FilterKeepsPointed(c, x, k, LiveIn(c));
    case _ =>
  }

  ghost predicate KindPointed(c: Cluster, x: string, kind: Kind) {
    && AgentKey(x) in c.objects
    && forall k: Key :: k.kind == kind && ChildIn(c, x, k) ==> Pointed(c, x, k)
  }

  ghost predicate KindsPointed(c: Cluster, x: string, kinds: seq<Kind>) {
    forall kind :: kind in kinds ==> KindPointed(c, x, kind)
  }

  ghost predicate AllPointed(c: Cluster, x: string) {
    forall kind :: OfAgents(kind) ==> KindPointed(c, x, kind)
  }

  predicate IsRestored(c: Cluster, row: Row) {
    row.At() in c.objects && c.objects[row.At()].body == row.body
  }

  ghost predicate SameAgent(c: Cluster, d: Cluster, x: string) {
    AgentKey(x) in c.objects ==> AgentKey(x) in d.objects && d.objects[AgentKey(x)].uid == c.objects[AgentKey(x)].uid
  }

  /** What later steps leave standing: the restored resources, the children and their
      listings, and what was re-pointed. */
  ghost predicate Later(p: Plan, c: Cluster, d: Cluster) {
    && (forall row :: row in p.rows && IsRestored(c, row) ==> IsRestored(d, row))
    && (forall row :: row in p.rows && row.At() in c.objects ==> row.At() in d.objects)
    && (forall x :: p.RestoresAgent(x) ==> SameAgent(c, d, x))
    && (forall x, k :: p.RestoresAgent(x) ==> (ChildIn(c, x, k) <==> ChildIn(d, x, k)))
    && (forall x, k :: p.RestoresAgent(x) && ChildIn(c, x, k) && Pointed(c, x, k) ==> Pointed(d, x, k))
    && (forall x, k, listed ::
          p.RestoresAgent(x) && ChildIn(c, x, k) && StillHolds(c, k, listed) ==> StillHolds(d, k, listed))
  }

  lemma StepKeepsRestored(p: Plan, c: Cluster, step: Step, row: Row)
    requires Safe(p, c) && Enabled(p, c, step) && row in p.rows && row.At() in c.objects
    ensures row.At() in Apply(c, step).objects
    ensures IsRestored(c, row) ==> IsRestored(Apply(c, step), row)
  {
  }

  lemma StepIsLater(p: Plan, c: Cluster, step: Step)
    requires Safe(p, c) && Enabled(p, c, step)
    ensures Later(p, c, Apply(c, step))
  {
    var d := Apply(c, step);
    forall row | row in p.rows && row.At() in c.objects
      ensures row.At() in d.objects && (IsRestored(c, row) ==> IsRestored(d, row))
    {
      StepKeepsRestored(p, c, step, row);
    }
    forall x | p.RestoresAgent(x) ensures SameAgent(c, d, x) {
      if AgentKey(x) in c.objects { HolderStays(p, c, step, x, AgentKey(x)); }
    }
    forall x, k | p.RestoresAgent(x) ensures ChildIn(c, x, k) <==> ChildIn(d, x, k) {
      if ChildIn(c, x, k) { StepKeepsChild(p, c, step, x, k); }
      if ChildIn(d, x, k) { ChildWasChild(p, c, step, x, k); }
    }
    forall x, k | p.RestoresAgent(x) && ChildIn(c, x, k) && Pointed(c, x, k) ensures Pointed(d, x, k) {
      StepKeepsPointed(p, c, step, x, k);
    }
    forall x, k, listed | p.RestoresAgent(x) && ChildIn(c, x, k) && StillHolds(c, k, listed)
      ensures StillHolds(d, k, listed)
    {
      StepKeepsListing(p, c, step, x, k, listed);
    }
  }

  lemma LaterJoins(p: Plan, b: Cluster, c: Cluster, d: Cluster)
    requires Later(p, b, c) && Later(p, c, d)
    ensures Later(p, b, d)
  {
    forall x | p.RestoresAgent(x) ensures SameAgent(b, d, x) { assert SameAgent(b, c, x) && SameAgent(c, d, x); }
  }

  lemma LaterIsReflexive(p: Plan, c: Cluster)
    ensures Later(p, c, c)
  {
  }

  lemma OneStepLater(p: Plan, b: Cluster, c: Cluster, d: Cluster, step: Step)
    requires Later(p, b, c) && Safe(p, c) && Enabled(p, c, step) && d == Apply(c, step)
    ensures Later(p, b, d)
  {
    StepIsLater(p, c, step);
    LaterJoins(p, b, c, d);
  }

  lemma LaterKeepsKind(p: Plan, c: Cluster, d: Cluster, x: string, kind: Kind)
    requires Later(p, c, d) && p.RestoresAgent(x) && KindPointed(c, x, kind)
    ensures KindPointed(d, x, kind)
  {
    assert SameAgent(c, d, x);
  }

  /** Every later point of a run is later in that sense. */
  lemma {:induction false} RunIsLater(p: Plan, cs: seq<Cluster>, steps: seq<Step>, i: nat, j: nat)
    requires Runs(p, cs, steps) && Safe(p, cs[0]) && i <= j < |cs|
    ensures Later(p, cs[i], cs[j])
    decreases j
  {
    if i == j {
      LaterIsReflexive(p, cs[i]);
    } else {
      RunIsLater(p, cs, steps, i, j - 1);
      EveryRunIsSafe(p, cs, steps, j - 1);
      assert Happens(p, cs, steps, j - 1);
      OneStepLater(p, cs[i], cs[j - 1], cs[j], steps[j - 1]);
    }
  }
}
