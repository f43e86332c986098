/**
 How the vm-runner writes a file another process will be judged by
 (packages/vm-runner/src/files.rs): the body goes to a new file beside the old one,
 which is synced and renamed over it. Any number of writers run interleaved, beside
 other processes that use the directory, and the runner or the machine may stop
 between any two steps.
 */
module AtomicWrite {
  import opened Wrappers

  type Name = string

  type Bytes = seq<bv8>

  datatype File = File(data: Bytes, mode: nat)

  // `synced`: the file's bytes and mode are on the disk as they are now.
  datatype Inode = Inode(file: File, synced: bool)

  type Directory = map<Name, nat>

  /** The files ever made, the directory as processes see it, and every state it had
      since it was last synced, the current one last. */
  datatype Disk = Disk(inodes: seq<Inode>, names: Directory, past: seq<Directory>)

  // ---------- the calls ----------

  function Listed(d: Disk, names: Directory): Disk {
    d.(names := names, past := d.past + [names])
  }

  function Create(d: Disk, name: Name, inode: Inode): Disk {
    Listed(d, d.names[name := |d.inodes|]).(inodes := d.inodes + [inode])
  }

  function Set(d: Disk, ino: nat, inode: Inode): Disk
    requires ino < |d.inodes|
  {
    d.(inodes := d.inodes[ino := inode])
  }

  // Bytes written at an offset, over what was there.
  function WrittenAt(data: Bytes, at: nat, bytes: Bytes): Bytes
    requires at <= |data|
  {
    data[..at] + bytes + if at + |bytes| <= |data| then data[at + |bytes|..] else []
  }

  function Renamed(names: Directory, from: Name, target: Name): Directory
    requires from in names
  {
    (names - {from})[target := names[from]]
  }

  // ---------- the writers ----------

  datatype Job = Job(path: Name, body: Bytes, mode: nat)

  datatype Stage = Made | Writing(count: nat) | Moded | Flushed

  /** Where a call to write is: looking for a free name, filling the staged file,
      removing it after a failure, renamed but the directory not synced yet, or
      returned. */
  datatype Phase =
    | Naming(tries: nat)
    | Staged(name: Name, ino: nat, stage: Stage)
    | Cleaning(name: Name, ino: nat)
    | Replaced(ino: nat)
    | Durable(ino: nat)
    | Unsynced(ino: nat)
    | Failed
  {
    predicate Holds() { Staged? || Cleaning? }

    predicate InPlace() { Replaced? || Durable? || Unsynced? }

    predicate HasFile() { Holds() || InPlace() }
  }

  const TRIES := 100

  function Digits(n: nat): string {
    var last := ["0123456789"[n % 10]];
    if n < 10 then last else Digits(n / 10) + last
  }

  function StagedName(name: Name, pid: nat, k: nat): Name {
    "." + name + "." + Digits(pid) + "-" + Digits(k) + ".tmp"
  }

  /** What a staged file's name looks like. */
  predicate StagedLike(name: Name) {
    |name| >= 5 && name[0] == '.' && name[|name| - 4..] == ".tmp"
  }

  lemma StagedNameLooksStaged(name: Name, pid: nat, k: nat)
    ensures StagedLike(StagedName(name, pid, k)) && StagedName(name, pid, k) != name
  {
  }

  // ---------- the system ----------

  /** A directory's jobs, the runner's pid, and the names watched: names other
      processes leave alone and no staged file can have. */
  datatype Setup = Setup(jobs: seq<Job>, pid: nat, watched: set<Name>) {
    ghost predicate Valid() {
      && (forall i :: 0 <= i < |jobs| ==> jobs[i].path in watched)
      && (forall p :: p in watched ==> !StagedLike(p))
    }
  }

  datatype System = System(disk: Disk, counter: nat, phases: seq<Phase>)

  datatype Change = Removed | Linked(ino: nat) | Put(inode: Inode)

  datatype Step =
    | TryName(i: nat, mode: nat)
    | Open(i: nat)
    | Write(i: nat, count: nat)
    | SetMode(i: nat)
    | SyncFile(i: nat)
    | Rename(i: nat)
    | Fail(i: nat)
    | Clean(i: nat, removed: bool)
    | SyncDirectory(i: nat)
    | Other(name: Name, change: Change)

  ghost predicate Enabled(u: Setup, s: System, step: Step) {
    if step.Other? then
      && step.name !in u.watched
      && (forall i :: 0 <= i < |s.phases| && s.phases[i].Holds() ==> s.phases[i].name != step.name)
      && (step.change.Linked? ==> step.change.ino < |s.disk.inodes|)
    else
      && step.i < |s.phases| == |u.jobs|
      && CanMove(s.disk, u.jobs[step.i], s.phases[step.i], step)
  }

  predicate CanMove(d: Disk, job: Job, f: Phase, step: Step) {
    match step
    case TryName(_, _) => f.Naming?
    case Open(_) => f.Staged? && f.stage.Made? && f.name in d.names
    case Write(_, count) =>
      f.Staged? && f.stage.Writing? && f.stage.count + count <= |job.body| && HasAtLeast(d, f.ino, f.stage.count)
    case SetMode(_) => f.Staged? && f.stage == Writing(|job.body|) && f.ino < |d.inodes|
    case SyncFile(_) => f.Staged? && f.stage.Moded? && f.ino < |d.inodes|
    case Rename(_) => f.Staged? && f.stage.Flushed? && f.name in d.names
    case Fail(_) => f.Naming? || f.Staged? || f.Replaced?
    case Clean(_, _) => f.Cleaning?
    case SyncDirectory(_) => f.Replaced?
    case Other(_, _) => false
  }

  predicate HasAtLeast(d: Disk, ino: nat, count: nat) {
    ino < |d.inodes| && count <= |d.inodes[ino].file.data|
  }

  /** What a writer's step does to the disk and to its own phase. */
  function Move(u: Setup, counter: nat, d: Disk, job: Job, f: Phase, step: Step): (Disk, Phase)
    requires CanMove(d, job, f, step)
  {
    match step
    case TryName(_, mode) =>
      var name := StagedName(job.path, u.pid, counter);
      if name in d.names then (d, if f.tries + 1 < TRIES then Naming(f.tries + 1) else Failed)
      else (Create(d, name, Inode(File([], mode), false)), Staged(name, |d.inodes|, Made))
    case Open(_) => (d, f.(ino := d.names[f.name], stage := Writing(0)))
    case Write(_, count) =>
      var n, file := f.stage.count, d.inodes[f.ino].file;
      var data := WrittenAt(file.data, n, job.body[n..n + count]);
      (Set(d, f.ino, Inode(file.(data := data), false)), f.(stage := Writing(n + count)))
    case SetMode(_) =>
      (Set(d, f.ino, Inode(d.inodes[f.ino].file.(mode := job.mode), false)), f.(stage := Moded))
    case SyncFile(_) => (Set(d, f.ino, d.inodes[f.ino].(synced := true)), f.(stage := Flushed))
    case Rename(_) => (Listed(d, Renamed(d.names, f.name, job.path)), Replaced(f.ino))
    case Fail(_) =>
      (d, if f.Naming? then Failed else if f.Staged? then Cleaning(f.name, f.ino) else Unsynced(f.ino))
    case Clean(_, removed) => (if removed then Listed(d, d.names - {f.name}) else d, Failed)
    case SyncDirectory(_) => (d.(past := [d.names]), Durable(f.ino))
  }

  /** Only the file's own sync puts it on the disk: a write or a change of its mode takes
      it off again, and nothing else is put there. */
  lemma OnlySyncIsSafe(u: Setup, counter: nat, d: Disk, job: Job, f: Phase, step: Step, ino: nat)
    requires CanMove(d, job, f, step) && ino < |Move(u, counter, d, job, f, step).0.inodes|
    ensures var after := Move(u, counter, d, job, f, step).0;
            && (step.SyncFile? && ino == f.ino ==> after.inodes[ino].synced)
            && ((step.Write? || step.SetMode?) && ino == f.ino ==> !after.inodes[ino].synced)
            && (after.inodes[ino].synced && !(ino < |d.inodes| && d.inodes[ino].synced) ==>
                  step.SyncFile? && ino == f.ino)
  {}

  function OtherChange(d: Disk, name: Name, change: Change): Disk {
    match change
    case Removed => Listed(d, d.names - {name})
    case Linked(ino) => Listed(d, d.names[name := ino])
    case Put(inode) => Create(d, name, inode)
  }

  ghost function Apply(u: Setup, s: System, step: Step): System
    requires Enabled(u, s, step)
  {
    if step.Other? then s.(disk := OtherChange(s.disk, step.name, step.change)) else
      var (disk, phase) := Move(u, s.counter, s.disk, u.jobs[step.i], s.phases[step.i], step);
      System(disk, if s.phases[step.i].Naming? then s.counter + 1 else s.counter, s.phases[step.i := phase])
  }

  /** The disk before the first write: each watched name has been what it is since the
      directory was synced, and is a synced file. */
  ghost predicate Fresh(u: Setup, d: Disk) {
    && d.past != [] && d.past[|d.past| - 1] == d.names
    && (forall k, p :: 0 <= k < |d.past| && p in u.watched ==> Entry(d.past[k], p) == Entry(d.names, p))
    && (forall p :: p in u.watched && p in d.names ==> d.names[p] < |d.inodes| && d.inodes[d.names[p]].synced)
  }

  ghost predicate Runs(u: Setup, ss: seq<System>, steps: seq<Step>) {
    && |ss| == |steps| + 1 && |ss[0].phases| == |u.jobs|
    && (forall i :: 0 <= i < |u.jobs| ==> ss[0].phases[i] == Naming(0))
    && forall k :: 0 <= k < |steps| ==> Happens(u, ss, steps, k)
  }

  ghost predicate Happens(u: Setup, ss: seq<System>, steps: seq<Step>, k: nat)
    requires k < |steps| < |ss|
  {
    Enabled(u, ss[k], steps[k]) && ss[k + 1] == Apply(u, ss[k], steps[k])
  }

  // ---------- what a reader finds ----------

  function Entry(names: Directory, p: Name): Option<nat> {
    if p in names then Some(names[p]) else None
  }

  /** What a reader of `p` finds while the machine is up, whether or not the runner
      is: nothing, or a file. */
  ghost predicate Finds(d: Disk, p: Name, r: Option<File>) {
    if p !in d.names then r == None else d.names[p] < |d.inodes| && r == Some(d.inodes[d.names[p]].file)
  }

  /** What a reader of `p` may find after the power went: the name as it was at some
      point since the directory was synced, and behind it a file that is as it was
      if it was synced, and anything at all if it was not. */
  ghost predicate FindsAfterPowerLoss(d: Disk, p: Name, r: Option<File>) {
    exists k :: 0 <= k < |d.past| && FindsEntry(d, d.past[k], p, r)
  }

  ghost predicate FindsEntry(d: Disk, names: Directory, p: Name, r: Option<File>) {
    if p !in names then r == None
    else r.Some? && (names[p] < |d.inodes| && d.inodes[names[p]].synced ==> r.value == d.inodes[names[p]].file)
  }

  // ---------- the invariant ----------

  ghost predicate Filled(inode: Inode, job: Job, stage: Stage) {
    match stage
    case Made => inode.file.data == []
    case Writing(n) => n <= |job.body| && inode.file.data == job.body[..n]
    case Moded => inode.file == File(job.body, job.mode)
    case Flushed => inode == Inode(File(job.body, job.mode), true)
  }

  /** A writer's staged name is its own new file, filled as far as the writer got;
      once in place the file is whole and synced. */
  ghost predicate WriterOk(d: Disk, base: nat, job: Job, f: Phase) {
    && (f.Holds() ==> StagedLike(f.name) && f.name in d.names && d.names[f.name] == f.ino)
    && (f.HasFile() ==> base <= f.ino < |d.inodes|)
    && (f.Staged? ==> Filled(d.inodes[f.ino], job, f.stage))
    && (f.InPlace() ==> d.inodes[f.ino] == Inode(File(job.body, job.mode), true))
  }

  ghost predicate Apart(f: Phase, g: Phase) {
    f.HasFile() && g.HasFile() ==> f.ino != g.ino
  }

  ghost predicate InPlaceAt(u: Setup, phases: seq<Phase>, i: nat, p: Name, e: Option<nat>) {
    i < |phases| == |u.jobs| && u.jobs[i].path == p && phases[i].InPlace() && e == Some(phases[i].ino)
  }

  /** An entry the name had from the start, or the file of a writer that renamed it
      there. */
  ghost predicate Legit(u: Setup, phases: seq<Phase>, p: Name, start: Option<nat>, e: Option<nat>) {
    e == start || exists i :: InPlaceAt(u, phases, i, p, e)
  }

  ghost predicate LegitAll(u: Setup, phases: seq<Phase>, start: Directory, names: Directory) {
    forall p :: p in u.watched ==> Legit(u, phases, p, Entry(start, p), Entry(names, p))
  }

  ghost predicate WritersOk(u: Setup, base: nat, s: System) {
    && |s.phases| == |u.jobs|
    && (forall i :: 0 <= i < |u.jobs| ==> WriterOk(s.disk, base, u.jobs[i], s.phases[i]))
    && (forall i, j :: 0 <= i < j < |s.phases| ==> Apart(s.phases[i], s.phases[j]))
  }

  ghost predicate DirectoryOk(u: Setup, start: Disk, s: System) {
    && |s.phases| == |u.jobs|
    && s.disk.past != [] && s.disk.past[|s.disk.past| - 1] == s.disk.names
    && (forall k :: 0 <= k < |s.disk.past| ==> LegitAll(u, s.phases, start.names, s.disk.past[k]))
  }

  ghost predicate Keeps(u: Setup, start: Disk, s: System) {
    WritersOk(u, |start.inodes|, s) && start.inodes <= s.disk.inodes && DirectoryOk(u, start, s)
  }

  // ---------- one writer's step ----------

  lemma WritingExtends(body: Bytes, n: nat, count: nat)
    requires n + count <= |body|
    ensures WrittenAt(body[..n], n, body[n..n + count]) == body[..n + count]
  {
  }

  lemma MoveKeepsOwn(u: Setup, counter: nat, d: Disk, base: nat, job: Job, f: Phase, step: Step)
    requires CanMove(d, job, f, step) && WriterOk(d, base, job, f) && base <= |d.inodes|
    requires !StagedLike(job.path)
    ensures var (e, g) := Move(u, counter, d, job, f, step); WriterOk(e, base, job, g)
  {
    if step.TryName? { StagedNameLooksStaged(job.path, u.pid, counter); }
    if step.Write? { WritingExtends(job.body, f.stage.count, step.count); }
    if step.SetMode? { assert job.body[..|job.body|] == job.body; }
  }

  lemma MoveKeepsOther(u: Setup, counter: nat, d: Disk, base: nat, job: Job, f: Phase, step: Step, other: Job, g: Phase)
    requires CanMove(d, job, f, step) && WriterOk(d, base, job, f) && WriterOk(d, base, other, g)
    requires Apart(f, g) && !StagedLike(job.path)
    ensures var (e, _) := Move(u, counter, d, job, f, step); WriterOk(e, base, other, g)
    ensures var (_, h) := Move(u, counter, d, job, f, step); Apart(h, g)
  {
  }

  lemma MoveKeepsOld(u: Setup, counter: nat, d: Disk, base: nat, job: Job, f: Phase, step: Step)
    requires CanMove(d, job, f, step) && WriterOk(d, base, job, f) && base <= |d.inodes|
    ensures var (e, _) := Move(u, counter, d, job, f, step); base <= |e.inodes| && e.inodes[..base] == d.inodes[..base]
  {
  }

  lemma MoveListsOnlyItsOwn(u: Setup, counter: nat, d: Disk, base: nat, job: Job, f: Phase, step: Step, p: Name)
    requires CanMove(d, job, f, step) && WriterOk(d, base, job, f) && !StagedLike(p)
    ensures var (e, h) := Move(u, counter, d, job, f, step);
            Entry(e.names, p) == if step.Rename? && p == job.path then Some(f.ino) else Entry(d.names, p)
  {
    if step.TryName? { StagedNameLooksStaged(job.path, u.pid, counter); }
  }

  lemma MoveKeepsThePast(u: Setup, counter: nat, d: Disk, base: nat, job: Job, f: Phase, step: Step)
    requires CanMove(d, job, f, step) && WriterOk(d, base, job, f)
    ensures var (e, h) := Move(u, counter, d, job, f, step);
            && (|| (e.past == d.past && e.names == d.names)
                || e.past == d.past + [e.names]
                || (e.past == [e.names] && e.names == d.names))
            && (h.Durable? ==> f.Durable? || e.past == [e.names])
            && (h.InPlace() <==> f.InPlace() || step.Rename?)
            && (f.InPlace() ==> h.ino == f.ino) && (step.Rename? ==> h.ino == f.ino)
  {
  }

  lemma LegitGrows(u: Setup, phases: seq<Phase>, i: nat, h: Phase, start: Directory, names: Directory)
    requires i < |phases| && LegitAll(u, phases, start, names)
    requires phases[i].InPlace() ==> h.InPlace() && h.ino == phases[i].ino
    ensures LegitAll(u, phases[i := h], start, names)
  {
    forall p | p in u.watched ensures Legit(u, phases[i := h], p, Entry(start, p), Entry(names, p)) {
      var e := Entry(names, p);
      if e != Entry(start, p) {
        var j: nat :| InPlaceAt(u, phases, j, p, e);
        assert InPlaceAt(u, phases[i := h], j, p, e);
      }
    }
  }

  // The directory a step lists is legitimate: a rename puts a whole file there.
  lemma ListedIsLegit(u: Setup, phases: seq<Phase>, i: nat, h: Phase, start: Directory, names: Directory,
                      next: Directory, renames: bool)
    requires u.Valid() && i < |phases| == |u.jobs| && LegitAll(u, phases[i := h], start, names)
    requires renames ==> h.InPlace()
    requires forall p :: p in u.watched ==>
                           Entry(next, p) == if renames && p == u.jobs[i].path then Some(h.ino) else Entry(names, p)
    ensures LegitAll(u, phases[i := h], start, next)
  {
    forall p | p in u.watched ensures Legit(u, phases[i := h], p, Entry(start, p), Entry(next, p)) {
      if renames && p == u.jobs[i].path {
        assert InPlaceAt(u, phases[i := h], i, p, Entry(next, p));
      }
    }
  }

  // ---------- every step ----------

  lemma MoveKeepsWriters(u: Setup, base: nat, s: System, step: Step)
    requires u.Valid() && WritersOk(u, base, s) && !step.Other? && Enabled(u, s, step) && base <= |s.disk.inodes|
    ensures WritersOk(u, base, Apply(u, s, step))
  {
    var i := step.i;
    var job, f := u.jobs[i], s.phases[i];
    MoveKeepsOwn(u, s.counter, s.disk, base, job, f, step);
    forall j | 0 <= j < |u.jobs| && j != i
      ensures var (e, h) := Move(u, s.counter, s.disk, job, f, step);
              WriterOk(e, base, u.jobs[j], s.phases[j]) && Apart(h, s.phases[j])
    {
      assert Apart(f, s.phases[j]);
      MoveKeepsOther(u, s.counter, s.disk, base, job, f, step, u.jobs[j], s.phases[j]);
    }
  }

  lemma MoveKeepsLegit(u: Setup, start: Disk, s: System, step: Step)
    requires u.Valid() && WritersOk(u, |start.inodes|, s) && DirectoryOk(u, start, s)
    requires !step.Other? && Enabled(u, s, step)
    ensures var t := Apply(u, s, step);
            LegitAll(u, t.phases, start.names, t.disk.names)
            && forall k :: 0 <= k < |s.disk.past| ==> LegitAll(u, t.phases, start.names, s.disk.past[k])
  {
    var i, base, d := step.i, |start.inodes|, s.disk;
    var job, f := u.jobs[i], s.phases[i];
    var (e, h) := Move(u, s.counter, d, job, f, step);
    MoveKeepsThePast(u, s.counter, d, base, job, f, step);
    forall k | 0 <= k < |d.past| ensures LegitAll(u, s.phases[i := h], start.names, d.past[k]) {
      LegitGrows(u, s.phases, i, h, start.names, d.past[k]);
    }
    forall p | p in u.watched
      ensures Entry(e.names, p) == if step.Rename? && p == job.path then Some(h.ino) else Entry(d.names, p)
    {
      MoveListsOnlyItsOwn(u, s.counter, d, base, job, f, step, p);
    }
    ListedIsLegit(u, s.phases, i, h, start.names, d.names, e.names, step.Rename?);
  }

  lemma MoveKeepsDirectory(u: Setup, start: Disk, s: System, step: Step)
    requires u.Valid() && WritersOk(u, |start.inodes|, s) && DirectoryOk(u, start, s)
    requires !step.Other? && Enabled(u, s, step)
    ensures DirectoryOk(u, start, Apply(u, s, step))
  {
    var i, base, d := step.i, |start.inodes|, s.disk;
    var job, f := u.jobs[i], s.phases[i];
    MoveKeepsLegit(u, start, s, step);
    MoveKeepsThePast(u, s.counter, d, base, job, f, step);
  }

  lemma OtherKeepsWriters(u: Setup, base: nat, s: System, step: Step)
    requires u.Valid() && WritersOk(u, base, s) && step.Other? && Enabled(u, s, step)
    ensures WritersOk(u, base, Apply(u, s, step))
  {
  }

  lemma OtherKeepsDirectory(u: Setup, start: Disk, s: System, step: Step)
    requires u.Valid() && DirectoryOk(u, start, s) && step.Other? && Enabled(u, s, step)
    ensures DirectoryOk(u, start, Apply(u, s, step))
  {
    var names, next := s.disk.names, Apply(u, s, step).disk.names;
    assert LegitAll(u, s.phases, start.names, names);
    assert forall p :: p in u.watched ==> Entry(next, p) == Entry(names, p);
  }

  lemma StepKeeps(u: Setup, start: Disk, s: System, step: Step)
    requires u.Valid() && Keeps(u, start, s) && Enabled(u, s, step)
    ensures Keeps(u, start, Apply(u, s, step))
  {
    var base := |start.inodes|;
    if step.Other? {
      OtherKeepsWriters(u, base, s, step);
      OtherKeepsDirectory(u, start, s, step);
    } else {
      MoveKeepsWriters(u, base, s, step);
      MoveKeepsDirectory(u, start, s, step);
      MoveKeepsOld(u, s.counter, s.disk, base, u.jobs[step.i], s.phases[step.i], step);
    }
  }

  /** Whatever the interleaving, and whatever fails: at every point every writer has
      a name and a file of its own, no file from before the writes was written into,
      and every watched name is what it was or a whole new file. */
  lemma {:induction false} EveryRunKeeps(u: Setup, ss: seq<System>, steps: seq<Step>, k: nat)
    requires u.Valid() && Runs(u, ss, steps) && Fresh(u, ss[0].disk) && k < |ss|
    ensures Keeps(u, ss[0].disk, ss[k])
  {
    if k > 0 {
      EveryRunKeeps(u, ss, steps, k - 1);
      assert Happens(u, ss, steps, k - 1);
      StepKeeps(u, ss[0].disk, ss[k - 1], steps[k - 1]);
    }
  }

  // ---------- what a reader finds ----------

  // What the name was at the start, or the whole file of a writer that put it there.
  ghost predicate WholeFile(u: Setup, s: System, p: Name, r: Option<File>, i: nat) {
    && i < |u.jobs| == |s.phases| && u.jobs[i].path == p && s.phases[i].InPlace()
    && r == Some(File(u.jobs[i].body, u.jobs[i].mode))
  }

  lemma NewEntryReadsWhole(u: Setup, start: Disk, s: System, names: Directory, p: Name, r: Option<File>)
    requires WritersOk(u, |start.inodes|, s)
    requires exists i :: InPlaceAt(u, s.phases, i, p, Entry(names, p))
    requires FindsEntry(s.disk, names, p, r)
    ensures exists i :: WholeFile(u, s, p, r, i)
  {
    var i: nat :| InPlaceAt(u, s.phases, i, p, Entry(names, p));
    assert WriterOk(s.disk, |start.inodes|, u.jobs[i], s.phases[i]);
    assert WholeFile(u, s, p, r, i);
  }

  lemma EntryReadsWhole(u: Setup, start: Disk, s: System, names: Directory, p: Name, r: Option<File>)
    requires Keeps(u, start, s) && Fresh(u, start) && p in u.watched
    requires LegitAll(u, s.phases, start.names, names) && FindsEntry(s.disk, names, p, r)
    ensures Finds(start, p, r) || exists i :: WholeFile(u, s, p, r, i)
  {
    var e := Entry(names, p);
    if e != Entry(start.names, p) {
      NewEntryReadsWhole(u, start, s, names, p, r);
    } else if p in names {
      assert s.disk.inodes[names[p]] == start.inodes[names[p]];
    }
  }

  /** Stop the runner, or the machine, at any point of any run: a reader of a watched
      name finds what was there before, whole, or the whole file of a writer that got
      to its rename. A writer that failed up to its rename left what was there. */
  lemma StoppedWriteLeavesAWholeFile(u: Setup, ss: seq<System>, steps: seq<Step>, k: nat, p: Name, r: Option<File>)
    requires u.Valid() && Runs(u, ss, steps) && Fresh(u, ss[0].disk) && k < |ss| && p in u.watched
    requires Finds(ss[k].disk, p, r) || FindsAfterPowerLoss(ss[k].disk, p, r)
    ensures Finds(ss[0].disk, p, r) || exists i :: WholeFile(u, ss[k], p, r, i)
  {
    EveryRunKeeps(u, ss, steps, k);
    var start, s := ss[0].disk, ss[k];
    if Finds(s.disk, p, r) {
      EntryReadsWhole(u, start, s, s.disk.past[|s.disk.past| - 1], p, r);
    } else {
      var j :| 0 <= j < |s.disk.past| && FindsEntry(s.disk, s.disk.past[j], p, r);
      EntryReadsWhole(u, start, s, s.disk.past[j], p, r);
    }
  }

  /** A name nobody wrote, and one whose every writer failed by its rename, is what it
      was. */
  lemma FailedWriteChangesNothing(u: Setup, ss: seq<System>, steps: seq<Step>, k: nat, p: Name, r: Option<File>)
    requires u.Valid() && Runs(u, ss, steps) && Fresh(u, ss[0].disk) && k < |ss| && p in u.watched
             && |ss[k].phases| == |u.jobs|
    requires forall i :: 0 <= i < |u.jobs| && u.jobs[i].path == p ==> !ss[k].phases[i].InPlace()
    requires Finds(ss[k].disk, p, r) || FindsAfterPowerLoss(ss[k].disk, p, r)
    ensures Finds(ss[0].disk, p, r)
  {
    StoppedWriteLeavesAWholeFile(u, ss, steps, k, p, r);
  }

  // ---------- when a name is replaced ----------

  lemma MoveRenames(u: Setup, counter: nat, d: Disk, job: Job, f: Phase, step: Step)
    requires CanMove(d, job, f, step)
    ensures var (_, h) := Move(u, counter, d, job, f, step);
            (h.InPlace() <==> f.InPlace() || step.Rename?) && (f.InPlace() ==> h.InPlace() && h.ino == f.ino)
  {}

  lemma StepRenames(u: Setup, s: System, step: Step, i: nat)
    requires Enabled(u, s, step) && i < |u.jobs| == |s.phases|
    ensures var t := Apply(u, s, step);
            && |t.phases| == |u.jobs|
            && (t.phases[i].InPlace() <==> s.phases[i].InPlace() || step == Rename(i))
            && (s.phases[i].InPlace() ==> t.phases[i].ino == s.phases[i].ino)
  {
    if !step.Other? { MoveRenames(u, s.counter, s.disk, u.jobs[step.i], s.phases[step.i], step); }
  }

  lemma {:induction false} RunsAreShaped(u: Setup, ss: seq<System>, steps: seq<Step>, k: nat)
    requires Runs(u, ss, steps) && k < |ss|
    ensures |ss[k].phases| == |u.jobs|
  {
    if k > 0 {
      RunsAreShaped(u, ss, steps, k - 1);
      assert Happens(u, ss, steps, k - 1);
    }
  }

  ghost predicate Renames(steps: seq<Step>, i: nat, t: nat) {
    t < |steps| && steps[t] == Rename(i)
  }

  /** A writer's file is in place from its rename on and not before, whatever the call
      returns in the end. */
  lemma {:induction false} InPlaceIffRenamed(u: Setup, ss: seq<System>, steps: seq<Step>, i: nat, k: nat)
    requires Runs(u, ss, steps) && k < |ss| && i < |u.jobs|
    ensures |ss[k].phases| == |u.jobs|
    ensures ss[k].phases[i].InPlace() <==> exists t :: 0 <= t < k && Renames(steps, i, t)
  {
    RunsAreShaped(u, ss, steps, k);
    if k > 0 {
      InPlaceIffRenamed(u, ss, steps, i, k - 1);
      assert Happens(u, ss, steps, k - 1);
      StepRenames(u, ss[k - 1], steps[k - 1], i);
      assert steps[k - 1] == Rename(i) <==> Renames(steps, i, k - 1);
    }
  }

  lemma {:induction false} StaysInPlace(u: Setup, ss: seq<System>, steps: seq<Step>, i: nat, m: nat, k: nat)
    requires Runs(u, ss, steps) && m <= k < |ss| && i < |u.jobs|
    requires |ss[m].phases| == |u.jobs| && ss[m].phases[i].InPlace()
    ensures |ss[k].phases| == |u.jobs| && ss[k].phases[i].InPlace() && ss[k].phases[i].ino == ss[m].phases[i].ino
  {
    if m < k {
      StaysInPlace(u, ss, steps, i, m, k - 1);
      assert Happens(u, ss, steps, k - 1);
      StepRenames(u, ss[k - 1], steps[k - 1], i);
    }
  }

  // Writer `j` renamed its file to `p` at `t`, no earlier than `from`, and it is there.
  ghost predicate PutBy(u: Setup, s: System, steps: seq<Step>, p: Name, e: Option<nat>, from: nat, j: nat, t: nat) {
    InPlaceAt(u, s.phases, j, p, e) && Renames(steps, j, t) && from <= t
  }

  // What a step does to the entry of a watched name.
  lemma StepListsOnlyRenames(u: Setup, base: nat, s: System, step: Step, p: Name)
    requires u.Valid() && WritersOk(u, base, s) && Enabled(u, s, step) && p in u.watched
    ensures var t := Apply(u, s, step);
            if step.Rename? && u.jobs[step.i].path == p then Entry(t.disk.names, p) == Some(t.phases[step.i].ino)
            else Entry(t.disk.names, p) == Entry(s.disk.names, p)
  {
    if !step.Other? { MoveListsOnlyItsOwn(u, s.counter, s.disk, base, u.jobs[step.i], s.phases[step.i], step, p); }
  }

  /** From a writer's rename on its name is the file of that writer or of one that
      renamed after it. */
  lemma {:induction false} LastRenameStands(u: Setup, ss: seq<System>, steps: seq<Step>, i: nat, from: nat, k: nat)
    returns (j: nat, t: nat)
    requires u.Valid() && Runs(u, ss, steps) && Fresh(u, ss[0].disk) && from < k < |ss|
    requires i < |u.jobs| && Renames(steps, i, from)
    ensures PutBy(u, ss[k], steps, u.jobs[i].path, Entry(ss[k].disk.names, u.jobs[i].path), from, j, t) && t < k
  {
    var p, s, step := u.jobs[i].path, ss[k - 1], steps[k - 1];
    EveryRunKeeps(u, ss, steps, k - 1);
    RunsAreShaped(u, ss, steps, k);
    assert Happens(u, ss, steps, k - 1);
    StepListsOnlyRenames(u, |ss[0].disk.inodes|, s, step, p);
    if step.Rename? && u.jobs[step.i].path == p {
      j, t := step.i, k - 1;
      StepRenames(u, s, step, j);
    } else {
      j, t := LastRenameStands(u, ss, steps, i, from, k - 1);
      StepRenames(u, s, step, j);
    }
  }

  lemma {:induction false} DurableWasSynced(u: Setup, ss: seq<System>, steps: seq<Step>, i: nat, k: nat)
    returns (t: nat)
    requires Runs(u, ss, steps) && k < |ss| && i < |u.jobs| == |ss[k].phases| && ss[k].phases[i].Durable?
    ensures t < k && steps[t] == SyncDirectory(i)
  {
    assert k > 0;
    RunsAreShaped(u, ss, steps, k - 1);
    assert Happens(u, ss, steps, k - 1);
    if ss[k - 1].phases[i].Durable? { t := DurableWasSynced(u, ss, steps, i, k - 1); } else { t := k - 1; }
  }

  lemma StepListsTheLatest(u: Setup, s: System, step: Step, n: nat)
    requires Enabled(u, s, step) && n < |Apply(u, s, step).disk.past|
    ensures var d := Apply(u, s, step).disk;
            d.past[n] == d.names || (!step.SyncDirectory? && n < |s.disk.past| && d.past[n] == s.disk.past[n])
  {
    if step.Other? {
      OtherLists(s.disk, step.name, step.change);
    } else {
      MoveLists(u, s.counter, s.disk, u.jobs[step.i], s.phases[step.i], step);
    }
  }

  lemma OtherLists(d: Disk, name: Name, change: Change)
    ensures var e := OtherChange(d, name, change); e.past == d.past + [e.names]
  {}

  lemma MoveLists(u: Setup, counter: nat, d: Disk, job: Job, f: Phase, step: Step)
    requires CanMove(d, job, f, step)
    ensures var (e, _) := Move(u, counter, d, job, f, step);
            || (e.past == d.past && !step.SyncDirectory?)
            || (e.past == d.past + [e.names] && !step.SyncDirectory?)
            || e.past == [e.names]
  {}

  /** What a power loss can bring back after a sync is what the directory was since. */
  lemma {:induction false} PastIsRecent(u: Setup, ss: seq<System>, steps: seq<Step>, i: nat, t: nat, k: nat, n: nat)
    returns (m: nat)
    requires u.Valid() && Runs(u, ss, steps) && Fresh(u, ss[0].disk) && t < k < |ss|
    requires steps[t] == SyncDirectory(i) && n < |ss[k].disk.past|
    ensures t < m <= k && ss[k].disk.past[n] == ss[m].disk.names
    decreases k
  {
    EveryRunKeeps(u, ss, steps, k - 1);
    assert Happens(u, ss, steps, k - 1);
    StepListsTheLatest(u, ss[k - 1], steps[k - 1], n);
    if ss[k].disk.past[n] == ss[k].disk.names { m := k; } else { m := PastIsRecent(u, ss, steps, i, t, k - 1, n); }
  }

  lemma SyncComesAfterRename(u: Setup, ss: seq<System>, steps: seq<Step>, i: nat, from: nat, t: nat)
    requires Runs(u, ss, steps) && i < |u.jobs| && Renames(steps, i, from) && t < |steps|
             && steps[t] == SyncDirectory(i)
    ensures from < t
  {
    RunsAreShaped(u, ss, steps, t);
    RunsAreShaped(u, ss, steps, from);
    assert Happens(u, ss, steps, t);
    assert Happens(u, ss, steps, from);
    if t < from { StaysInPlace(u, ss, steps, i, t, from); }
  }

  /** Once a write has returned success, no power loss brings an older file back: what
      is found is the whole file of that writer or of one that renamed after it. */
  lemma SuccessIsDurable(u: Setup, ss: seq<System>, steps: seq<Step>, k: nat, i: nat, from: nat, r: Option<File>)
    returns (j: nat, t: nat)
    requires u.Valid() && Runs(u, ss, steps) && Fresh(u, ss[0].disk) && k < |ss| && i < |u.jobs| == |ss[k].phases|
    requires ss[k].phases[i].Durable? && Renames(steps, i, from) && FindsAfterPowerLoss(ss[k].disk, u.jobs[i].path, r)
    ensures WholeFile(u, ss[k], u.jobs[i].path, r, j) && Renames(steps, j, t) && from <= t < k
  {
    var d, p := ss[k].disk, u.jobs[i].path;
    var n :| 0 <= n < |d.past| && FindsEntry(d, d.past[n], p, r);
    var synced := DurableWasSynced(u, ss, steps, i, k);
    SyncComesAfterRename(u, ss, steps, i, from, synced);
    var m := PastIsRecent(u, ss, steps, i, synced, k, n);
    j, t := LastRenameStands(u, ss, steps, i, from, m);
    StaysInPlace(u, ss, steps, j, m, k);
    EveryRunKeeps(u, ss, steps, k);
    assert WriterOk(d, |ss[0].disk.inodes|, u.jobs[j], ss[k].phases[j]);
  }

  /** A call that fails leaves a directory it can be made in again, unless it got to its
      rename. */
  lemma FailureStaysFresh(u: Setup, ss: seq<System>, steps: seq<Step>, k: nat)
    requires u.Valid() && Runs(u, ss, steps) && Fresh(u, ss[0].disk) && k < |ss| && |ss[k].phases| == |u.jobs|
    requires forall i :: 0 <= i < |u.jobs| ==> !ss[k].phases[i].InPlace()
    ensures Fresh(u, ss[k].disk)
  {
    EveryRunKeeps(u, ss, steps, k);
    var start, d := ss[0].disk, ss[k].disk;
    forall n, p | 0 <= n < |d.past| && p in u.watched ensures Entry(d.past[n], p) == Entry(start.names, p) {
      assert LegitAll(u, ss[k].phases, start.names, d.past[n]);
      assert Legit(u, ss[k].phases, p, Entry(start.names, p), Entry(d.past[n], p));
    }
    forall p | p in u.watched && p in d.names ensures d.names[p] < |d.inodes| && d.inodes[d.names[p]].synced {
      assert Entry(d.past[|d.past| - 1], p) == Entry(start.names, p);
    }
  }

  /** A writer alone with its name. Success is the new file and nothing else. Whatever
      the call returns, while the machine is up the new file is found exactly from its
      rename on, and the old one before; a stop anywhere leaves one of the two. */
  lemma LoneWriter(u: Setup, ss: seq<System>, steps: seq<Step>, job: Job, r: Option<File>)
    requires u.Valid() && u.jobs == [job] && Runs(u, ss, steps) && Fresh(u, ss[0].disk)
    ensures var d, written := ss[|ss| - 1].disk, Some(File(job.body, job.mode));
            && |ss[|ss| - 1].phases| == 1
            && (Finds(d, job.path, r) ==> if Rename(0) in steps then r == written else Finds(ss[0].disk, job.path, r))
            && (FindsAfterPowerLoss(d, job.path, r) ==> r == written || Finds(ss[0].disk, job.path, r))
            && (FindsAfterPowerLoss(d, job.path, r) && Rename(0) !in steps ==> Finds(ss[0].disk, job.path, r))
            && (FindsAfterPowerLoss(d, job.path, r) && ss[|ss| - 1].phases[0].Durable? ==> r == written)
  {
    var k := |ss| - 1;
    EveryRunKeeps(u, ss, steps, k);
    assert u.jobs[0].path in u.watched;
    InPlaceIffRenamed(u, ss, steps, 0, k);
    RenamedOrNot(steps);
    if Finds(ss[k].disk, job.path, r) || FindsAfterPowerLoss(ss[k].disk, job.path, r) {
      StoppedWriteLeavesAWholeFile(u, ss, steps, k, job.path, r);
    }
    if Rename(0) in steps {
      var from :| 0 <= from < k && Renames(steps, 0, from);
      LoneRename(u, ss, steps, job, from, r);
    }
  }

  lemma RenamedOrNot(steps: seq<Step>)
    ensures Rename(0) in steps <==> exists t :: 0 <= t < |steps| && Renames(steps, 0, t)
  {
    if Rename(0) in steps {
      var t :| 0 <= t < |steps| && steps[t] == Rename(0);
      assert Renames(steps, 0, t);
    }
  }

  lemma LoneRename(u: Setup, ss: seq<System>, steps: seq<Step>, job: Job, from: nat, r: Option<File>)
    requires u.Valid() && u.jobs == [job] && Runs(u, ss, steps) && Fresh(u, ss[0].disk) && Renames(steps, 0, from)
    requires |ss[|ss| - 1].phases| == 1
    ensures var d, written := ss[|ss| - 1].disk, Some(File(job.body, job.mode));
            && (Finds(d, job.path, r) ==> r == written)
            && (FindsAfterPowerLoss(d, job.path, r) && ss[|ss| - 1].phases[0].Durable? ==> r == written)
  {
    var k := |ss| - 1;
    EveryRunKeeps(u, ss, steps, k);
    var j, t := LastRenameStands(u, ss, steps, 0, from, k);
    assert WriterOk(ss[k].disk, |ss[0].disk.inodes|, job, ss[k].phases[0]);
    if FindsAfterPowerLoss(ss[k].disk, job.path, r) && ss[k].phases[0].Durable? {
      var j1, t1 := SuccessIsDurable(u, ss, steps, k, 0, from, r);
    }
  }

  // ---------- an error with the new file in place ----------

  // The steps of a call in which only the directory's sync fails.
  function OnlySyncFails(job: Job, mode: nat): seq<Step> {
    [TryName(0, mode), Open(0), Step.Write(0, |job.body|), SetMode(0), SyncFile(0), Rename(0), Fail(0)]
  }

  // The states they lead through, from any disk on which the first name tried is free.
  lemma {:induction false} StepsLead(u: Setup, job: Job, mode: nat, s: System, n: nat) returns (ss: seq<System>)
    requires u.jobs == [job] && s.phases == [Naming(0)] && StagedName(job.path, u.pid, s.counter) !in s.disk.names
    requires n <= 7
    ensures Runs(u, ss, OnlySyncFails(job, mode)[..n]) && ss[0] == s
            && Reached(job, s, ss[n], mode, n, StagedName(job.path, u.pid, s.counter))
  {
    var steps := OnlySyncFails(job, mode);
    if n == 0 {
      ss := [s];
    } else {
      ss := StepsLead(u, job, mode, s, n - 1);
      StepLeads(u, job, mode, s, ss[n - 1], n);
      RunGrows(u, ss, steps[..n - 1], steps[n - 1]);
      assert steps[..n] == steps[..n - 1] + [steps[n - 1]];
      ss := ss + [Apply(u, ss[n - 1], steps[n - 1])];
    }
  }

  // Where the call is after `n` of them.
  ghost predicate Reached(job: Job, start: System, s: System, mode: nat, n: nat, name: Name) {
    var ino := |start.disk.inodes|;
    && |s.phases| == 1
    && (n == 0 ==> s == start)
    && (0 < n < 7 ==> |s.disk.inodes| == ino + 1)
    && (0 < n < 6 ==> name in s.disk.names && s.disk.names[name] == ino)
    && (n == 1 ==> s.phases[0] == Staged(name, ino, Made) && s.disk.inodes[ino].file.data == [])
    && (n == 2 ==> s.phases[0] == Staged(name, ino, Writing(0)) && s.disk.inodes[ino].file.data == [])
    && (n == 3 ==> s.phases[0] == Staged(name, ino, Writing(|job.body|)) && s.disk.inodes[ino].file.data == job.body)
    && (n == 4 ==> s.phases[0] == Staged(name, ino, Moded) && s.disk.inodes[ino].file == File(job.body, job.mode))
    && (n == 5 ==> s.phases[0] == Staged(name, ino, Flushed) && s.disk.inodes[ino].file == File(job.body, job.mode))
    && (n == 6 ==> s.phases[0] == Replaced(ino) && Finds(s.disk, job.path, Some(File(job.body, job.mode))))
    && (n == 7 ==> s.phases[0] == Unsynced(ino) && Finds(s.disk, job.path, Some(File(job.body, job.mode))))
  }

  lemma StepLeads(u: Setup, job: Job, mode: nat, start: System, s: System, n: nat)
    requires u.jobs == [job] && start.phases == [Naming(0)] && 0 < n <= 7
    requires StagedName(job.path, u.pid, start.counter) !in start.disk.names
    requires Reached(job, start, s, mode, n - 1, StagedName(job.path, u.pid, start.counter))
    ensures Enabled(u, s, OnlySyncFails(job, mode)[n - 1])
    ensures Reached(job, start, Apply(u, s, OnlySyncFails(job, mode)[n - 1]), mode, n,
                    StagedName(job.path, u.pid, start.counter))
  {
    assert job.body[0..0 + |job.body|] == job.body;
  }

  /** A call can return an error with the new file in place: from any disk on which the
      first staged name is free, the call in which only the last step fails. */
  lemma ErrorCanLeaveTheNewFile(u: Setup, job: Job, mode: nat, s: System) returns (ss: seq<System>, steps: seq<Step>)
    requires u.jobs == [job] && s.phases == [Naming(0)] && StagedName(job.path, u.pid, s.counter) !in s.disk.names
    ensures Runs(u, ss, steps) && ss[0] == s && |ss[|ss| - 1].phases| == 1 && ss[|ss| - 1].phases[0].Unsynced?
    ensures Finds(ss[|ss| - 1].disk, job.path, Some(File(job.body, job.mode)))
  {
    ss := StepsLead(u, job, mode, s, 7);
    steps := OnlySyncFails(job, mode)[..7];
  }

  // ---------- the call itself ----------

  lemma RunGrows(u: Setup, ss: seq<System>, steps: seq<Step>, step: Step)
    requires Runs(u, ss, steps) && Enabled(u, ss[|ss| - 1], step)
    ensures Runs(u, ss + [Apply(u, ss[|ss| - 1], step)], steps + [step])
  {
    var s1, t1 := ss + [Apply(u, ss[|ss| - 1], step)], steps + [step];
    forall k | 0 <= k < |t1| ensures Happens(u, s1, t1, k) {
      if k < |steps| { assert Happens(u, ss, steps, k); }
    }
  }

  // The file is whole and synced.
  ghost predicate Holds(d: Disk, ino: nat, job: Job) {
    ino < |d.inodes| && d.inodes[ino] == Inode(File(job.body, job.mode), true)
  }

  // A name that was free became the name of a new, empty file.
  ghost predicate Took(before: Disk, after: Disk, name: Name) {
    && name !in before.names
    && exists mode :: after == Create(before, name, Inode(File([], mode), false))
  }

  /** What the machine does to the runner's calls: which of them fail, how many bytes
      a write takes, and what is left of a mode after the umask. */
  datatype Host = Host(fails: nat -> bool, takes: nat -> nat, masked: nat -> nat) {
    // Every call succeeds, and a write takes something.
    ghost predicate NeverFails() {
      forall n :: !fails(n) && takes(n) > 0
    }
  }

  /** The runner and its directory. The ghost fields record the run of the writer's
      protocol the current call has made. */
  class Runner {
    const pid: nat
    const host: Host
    var disk: Disk
    var counter: nat
    var calls: nat
    ghost var ss: seq<System>
    ghost var steps: seq<Step>

    constructor (pid: nat, host: Host, disk: Disk)
      ensures this.pid == pid && this.host == host && this.disk == disk && counter == 0
    {
      this.pid, this.host, this.disk, counter, calls := pid, host, disk, 0, 0;
      ss, steps := [], [];
    }

    ghost function For(job: Job): Setup {
      Setup([job], pid, {job.path})
    }

    /** The run so far ends where the runner is. */
    ghost predicate At(job: Job, f: Phase)
      reads this
    {
      Runs(For(job), ss, steps) && ss[|ss| - 1] == System(disk, counter, [f])
    }

    method CallFails() returns (fails: bool)
      modifies this`calls
      ensures fails == host.fails(old(calls)) && calls == old(calls) + 1
    {
      fails := host.fails(calls);
      calls := calls + 1;
    }

    ghost method Record(job: Job, f: Phase, step: Step)
      requires At(job, f) && !step.Other? && step.i == 0 && CanMove(disk, job, f, step)
      modifies this`ss, this`steps
      ensures Runs(For(job), ss, steps) && |ss| == |old(ss)| + 1 && old(ss) <= ss
      ensures var (d, g) := Move(For(job), counter, disk, job, f, step);
              ss[|ss| - 1] == System(d, if f.Naming? then counter + 1 else counter, [g])
    {
      RunGrows(For(job), ss, steps, step);
      var s := ss[|ss| - 1];
      ss, steps := ss + [Apply(For(job), s, step)], steps + [step];
    }

    // One attempt: `done` says whether the search is over.
    method TryOne(job: Job, tries: nat) returns (done: bool, staged: Option<Name>)
      requires At(job, Naming(tries)) && tries < TRIES
      modifies this
      ensures old(ss) <= ss
      ensures staged == None ==> disk == old(disk)
      ensures staged == None ==> At(job, if done || tries + 1 == TRIES then Failed else Naming(tries + 1))
      ensures staged.Some? ==> done && Took(old(disk), disk, staged.value)
      ensures host.NeverFails() ==>
                counter == old(counter) + 1 && (done <==> StagedName(job.path, pid, old(counter)) !in old(disk).names)
                && (done ==> staged.Some?)
      ensures staged.Some? ==> At(job, Staged(staged.value, |old(disk).inodes|, Made))
    {
      var name := StagedName(job.path, pid, counter);
      var fails := CallFails();
      if fails {
        Record(job, Naming(tries), Fail(0));
        counter := counter + 1;
        return true, None;
      }
      Record(job, Naming(tries), TryName(0, host.masked(job.mode)));
      counter := counter + 1;
      if name in disk.names { return false, None; }
      disk := Create(disk, name, Inode(File([], host.masked(job.mode)), false));
      return true, Some(name);
    }

    // One of the first hundred names to try is free.
    ghost predicate HasRoom(path: Name)
      reads this`disk, this`counter
    {
      exists k :: counter <= k < counter + 100 && StagedName(path, pid, k) !in disk.names
    }

    /** A new file beside the name that nothing else had, or nothing after a failed
        call or a hundred taken names. */
    method UniqueSibling(job: Job) returns (staged: Option<Name>)
      requires At(job, Naming(0))
      modifies this
      ensures host.NeverFails() ==> (staged.Some? <==> old(HasRoom(job.path)))
      ensures old(ss) <= ss
      ensures staged == None ==> disk == old(disk) && At(job, Failed)
      ensures staged.Some? ==> Took(old(disk), disk, staged.value)
      ensures staged.Some? ==> At(job, Staged(staged.value, |old(disk).inodes|, Made))
    {
      var tries := 0;
      while tries < TRIES
        invariant 0 <= tries <= TRIES && disk == old(disk) && old(ss) <= ss
        invariant At(job, if tries < TRIES then Naming(tries) else Failed)
        invariant host.NeverFails() ==> counter == old(counter) + tries
        invariant host.NeverFails() ==>
                    forall k :: old(counter) <= k < counter ==> StagedName(job.path, pid, k) in old(disk).names
      {
        var done, found := TryOne(job, tries);
        if done { return found; }
        tries := tries + 1;
      }
      return None;
    }

    // The file is open and holds the first `count` bytes of the body.
    ghost predicate Contains(job: Job, name: Name, ino: nat, count: nat)
      reads this
    {
      && name in disk.names && ino < |disk.inodes| && count <= |job.body|
      && disk.inodes[ino].file.data == job.body[..count]
    }

    /** All of the body, as many bytes at a time as the machine takes. */
    method WriteAll(job: Job, name: Name, ino: nat) returns (ok: bool, ghost count: nat)
      requires At(job, Staged(name, ino, Writing(0))) && Contains(job, name, ino, 0)
      modifies this
      ensures old(ss) <= ss && disk.names == old(disk).names
      ensures Contains(job, name, ino, count) && At(job, Staged(name, ino, Writing(count)))
      ensures ok ==> count == |job.body|
      ensures host.NeverFails() ==> ok
    {
      var n := 0;
      count := 0;
      while n < |job.body|
        invariant n == count <= |job.body| && old(ss) <= ss && disk.names == old(disk).names
        invariant Contains(job, name, ino, n) && At(job, Staged(name, ino, Writing(n)))
      {
        var fails := CallFails();
        var most := host.takes(calls);
        var taken := if most < |job.body| - n then most else |job.body| - n;
        if fails || taken == 0 { return false, count; }
        WriteSome(job, name, ino, n, taken);
        n := n + taken;
        count := n;
      }
      return true, count;
    }

    method WriteSome(job: Job, name: Name, ino: nat, n: nat, taken: nat)
      requires Contains(job, name, ino, n) && n + taken <= |job.body| && At(job, Staged(name, ino, Writing(n)))
      modifies this
      ensures old(ss) <= ss && disk.names == old(disk).names
      ensures Contains(job, name, ino, n + taken) && At(job, Staged(name, ino, Writing(n + taken)))
    {
      Record(job, Staged(name, ino, Writing(n)), Step.Write(0, taken));
      WritingExtends(job.body, n, taken);
      var file := disk.inodes[ino].file;
      disk := Set(disk, ino, Inode(file.(data := WrittenAt(file.data, n, job.body[n..n + taken])), false));
    }

    // After the body: the mode, the sync, the rename.
    method Place(job: Job, name: Name, ino: nat) returns (ok: bool, ghost f: Phase)
      requires At(job, Staged(name, ino, Writing(|job.body|))) && Contains(job, name, ino, |job.body|)
      modifies this
      ensures old(ss) <= ss && At(job, f)
      ensures if ok then f == Replaced(ino) else f.Staged? && f.name == name
      ensures disk.names == if ok then Renamed(old(disk).names, name, job.path) else old(disk).names
      ensures ok ==> ino < |disk.inodes| && disk.inodes[ino] == Inode(File(job.body, job.mode), true)
      ensures host.NeverFails() ==> ok
    {
      var fails := CallFails();
      f := Staged(name, ino, Writing(|job.body|));
      if fails { return false, f; }
      Record(job, f, SetMode(0));
      disk := Set(disk, ino, Inode(disk.inodes[ino].file.(mode := job.mode), false));
      f := Staged(name, ino, Moded);

      fails := CallFails();
      if fails { return false, f; }
      Record(job, f, SyncFile(0));
      disk := Set(disk, ino, disk.inodes[ino].(synced := true));
      f := Staged(name, ino, Flushed);

      fails := CallFails();
      if fails { return false, f; }
      Record(job, f, Rename(0));
      disk := Listed(disk, Renamed(disk.names, name, job.path));
      f := Replaced(ino);
      return true, f;
    }

    method Fill(job: Job, name: Name, ino: nat) returns (ok: bool, ghost f: Phase)
      requires At(job, Staged(name, ino, Made)) && Entry(disk.names, name) == Some(ino)
      requires ino < |disk.inodes| && disk.inodes[ino].file.data == []
      modifies this
      ensures old(ss) <= ss && At(job, f)
      ensures if ok then f == Replaced(ino) else f.Staged? && f.name == name
      ensures disk.names == if ok then Renamed(old(disk).names, name, job.path) else old(disk).names
      ensures ok ==> ino < |disk.inodes| && disk.inodes[ino] == Inode(File(job.body, job.mode), true)
      ensures host.NeverFails() ==> ok
    {
      f := Staged(name, ino, Made);
      var fails := CallFails();
      if fails { return false, f; }
      Record(job, f, Open(0));
      var wrote;
      ghost var count;
      wrote, count := WriteAll(job, name, ino);
      f := Staged(name, ino, Writing(count));
      if !wrote { return false, f; }
      ok, f := Place(job, name, ino);
    }

    // A failed writer's staged file is removed, if the machine lets it.
    method Remove(job: Job, ghost f: Phase, name: Name)
      requires At(job, f) && f.Staged? && f.name == name
      modifies this
      ensures old(ss) <= ss && At(job, Failed)
      ensures disk.names == old(disk).names - {name} || (calls > 0 && host.fails(calls - 1))
      ensures disk.names == old(disk).names || disk.names == old(disk).names - {name}
    {
      Record(job, f, Fail(0));
      var fails := CallFails();
      Record(job, Cleaning(f.name, f.ino), Clean(0, !fails));
      if !fails { disk := Listed(disk, disk.names - {name}); }
    }

    method SyncNames(job: Job, ghost ino: nat) returns (ok: bool)
      requires At(job, Replaced(ino))
      modifies this
      ensures old(ss) <= ss && At(job, if ok then Durable(ino) else Unsynced(ino)) && disk.names == old(disk).names
      ensures disk.inodes == old(disk).inodes && (ok ==> disk.past == [disk.names])
      ensures host.NeverFails() ==> ok
    {
      var fails := CallFails();
      if fails {
        Record(job, Replaced(ino), Fail(0));
        return false;
      }
      Record(job, Replaced(ino), SyncDirectory(0));
      disk := disk.(past := [disk.names]);
      return true;
    }

    /** One call is a run of the writer's protocol, so every point of it is a point of
        that run. Success means the rename is on the disk; an error means the writer
        failed by its rename, or that only the directory's sync failed. No other name is
        touched, and no staged file is left, unless the last call, its removal, failed
        too. With no call failing it succeeds exactly if one of a hundred names is
        free. */
    method Replace(job: Job) returns (ok: bool, ghost f: Phase)
      modifies this
      ensures At(job, f) && ss[0] == System(old(disk), old(counter), [Naming(0)])
      ensures if ok then f.Durable? else f.Failed? || f.Unsynced?
      ensures f.InPlace() <==> Rename(0) in steps
      ensures f.InPlace() ==> disk.names == old(disk).names[job.path := |old(disk).inodes|]
      ensures f.InPlace() ==>
              Entry(disk.names, job.path) == Some(|old(disk).inodes|) && Holds(disk, |old(disk).inodes|, job)
      ensures ok ==> disk.past == [disk.names]
      ensures f.Failed? ==> forall p :: p in old(disk).names ==> Entry(disk.names, p) == Entry(old(disk).names, p)
      ensures f.Failed? ==> disk.names == old(disk).names || (calls > 0 && host.fails(calls - 1))
      ensures host.NeverFails() ==> (ok <==> old(HasRoom(job.path)))
    {
      ss, steps := [System(disk, counter, [Naming(0)])], [];
      ghost var ino := |disk.inodes|;
      var staged := UniqueSibling(job);
      f := Failed;
      if staged == None {
        Told(job, f);
        return false, f;
      }
      var name := staged.value;
      var placed;
      placed, f := Fill(job, name, disk.names[name]);
      if !placed {
        Remove(job, f, name);
        f := Failed;
        Told(job, f);
        return false, f;
      }
      ok := SyncNames(job, ino);
      f := if ok then Durable(ino) else Unsynced(ino);
      Told(job, f);
    }

    // A call's end is in place exactly if its run has the rename.
    lemma Told(job: Job, f: Phase)
      requires At(job, f)
      ensures f.InPlace() <==> Rename(0) in steps
    {
      InPlaceIffRenamed(For(job), ss, steps, 0, |ss| - 1);
      RenamedOrNot(steps);
    }

    // The directory is synced, and the name is no staged file's.
    ghost predicate Ready(job: Job)
      reads this
    {
      !StagedLike(job.path) && Fresh(For(job), disk)
    }

    /** What a caller can rely on. After success only the new file can be found, whatever
        happens next to the machine. After an error the new file is found exactly when the
        call got to its rename, that is when all but the directory's sync succeeded;
        otherwise the old one is. The call can be made again after success, and after an
        error without the rename. A path with no file name is refused before anything is
        done. */
    method Write(name: Option<Name>, body: Bytes, mode: nat) returns (ok: bool)
      modifies this
      ensures name == None ==> !ok && disk == old(disk)
      ensures name.Some? && ok ==> Rename(0) in steps
      ensures name.Some? && host.NeverFails() ==> (ok <==> old(HasRoom(name.value)))
      ensures name.Some? && old(Ready(Job(name.value, body, mode))) ==>
                && (forall r :: Finds(disk, name.value, r) ==>
                                  if Rename(0) in steps then r == Some(File(body, mode))
                                  else Finds(old(disk), name.value, r))
                && (forall r :: FindsAfterPowerLoss(disk, name.value, r) ==>
                                  r == Some(File(body, mode)) || (!ok && Finds(old(disk), name.value, r)))
                && (ok || Rename(0) !in steps ==> Ready(Job(name.value, body, mode)))
    {
      if name == None { return false; }
      var job := Job(name.value, body, mode);
      ghost var f;
      ok, f := Replace(job);
      if old(Ready(job)) { WhatIsFound(old(disk), job, f); }
    }

    // The protocol's guarantees, of the run the call made.
    lemma WhatIsFound(before: Disk, job: Job, f: Phase)
      requires At(job, f) && ss[0].disk == before && !StagedLike(job.path) && Fresh(For(job), before)
      ensures forall r :: Finds(disk, job.path, r) ==>
                            if Rename(0) in steps then r == Some(File(job.body, job.mode))
                            else Finds(before, job.path, r)
      ensures forall r :: FindsAfterPowerLoss(disk, job.path, r) ==>
                            r == Some(File(job.body, job.mode)) || (!f.Durable? && Finds(before, job.path, r))
      ensures Rename(0) !in steps ==> Fresh(For(job), disk)
    {
      forall r
        ensures Finds(disk, job.path, r) ==>
                  if Rename(0) in steps then r == Some(File(job.body, job.mode)) else Finds(before, job.path, r)
        ensures FindsAfterPowerLoss(disk, job.path, r) ==>
                  r == Some(File(job.body, job.mode)) || (!f.Durable? && Finds(before, job.path, r))
      {
        LoneWriter(For(job), ss, steps, job, r);
      }
      if Rename(0) !in steps {
        InPlaceIffRenamed(For(job), ss, steps, 0, |ss| - 1);
        RenamedOrNot(steps);
        FailureStaysFresh(For(job), ss, steps, |ss| - 1);
      }
    }
  }
}
