/**
 How a probe publishes a guest's room while a cut may rewrite the log under it and a
 boot may start a new one (note_guest_room, read_current, forget_kernel_read and
 start_machine in packages/vm-runner/src/server.rs). The probe reads the log outside the
 lock; the boot and the cut counter it remembers decide whether what it read still
 describes the log.
 */
module ProbeProtocol {
  import opened Lines
  import opened RoomMarks
  import opened ConsoleReader
  import opened Wrappers

  /** A probe that took its offset, boot and cut count under the lock, and one that has
      read the log as well. */
  datatype Probe =
    | Began(boot: nat, cuts: nat, from: nat)
    | HasRead(boot: nat, cuts: nat, next: nat, mark: Option<bool>)

  /** A machine's log, whether a cut is rewriting it, whether a boot was recorded that has
      not emptied it yet, and what the runner holds about it. */
  datatype Machine = Machine(log: Bytes, rewriting: bool, booting: bool,
                             read: nat, cuts: nat, boot: nat, full: bool, probe: Option<Probe>) {
    // The log is the one the runner's offset counts from.
    predicate Settled() {
      !rewriting && !booting
    }

    predicate IsCurrent(p: Probe) {
      p.boot == boot && p.cuts == cuts
    }
  }

  const NEW_MACHINE := Machine([], false, false, 0, 0, 0, false, None)

  datatype Step =
    | VmmAppends(bytes: Bytes)
    | CutRewrites(log: Bytes)
    | CutIsForgotten
    | BootIsRecorded
    | LogIsEmptied
    | ProbeBegins
    | ProbeReads
    | ProbePublishes

  // The lines of a log, without one that is still being written.
  function WholeLines(log: Bytes): Bytes {
    log[..WholeEnd(log)]
  }

  // No mark of `b` is older than a mark of `a`.
  ghost predicate NotOlder(w: Words, a: Bytes, b: Bytes) {
    forall m, n :: m in MarksIn(w, a) && n in MarksIn(w, b) && m.at.Some? && n.at.Some? ==> m.at.value <= n.at.value
  }

  // The lines an append completes, which may have been begun before it.
  function Completed(log: Bytes, bytes: Bytes): Bytes {
    if WholeEnd(log) <= WholeEnd(log + bytes) then (log + bytes)[WholeEnd(log)..WholeEnd(log + bytes)] else []
  }

  /** When a step can happen. The VMM appends any bytes, whose lines are in the order of
      their stamps; while a cut or a boot is at it the log may be anything, and so may what
      a cut leaves. */
  ghost predicate Enabled(w: Words, s: Machine, step: Step) {
    match step
    case VmmAppends(bytes) => s.Settled() ==> NotOlder(w, WholeLines(s.log), Completed(s.log, bytes))
    case CutRewrites(_) => true
    case CutIsForgotten => s.rewriting
    case BootIsRecorded => true
    case LogIsEmptied => s.booting
    case ProbeBegins => s.probe.None?
    case ProbeReads => s.probe.Some? && s.probe.value.Began?
    case ProbePublishes => s.probe.Some? && s.probe.value.HasRead?
  }

  function Apply(w: Words, s: Machine, step: Step): Machine
    requires step == ProbeReads ==> s.probe.Some? && s.probe.value.Began?
    requires step == ProbePublishes ==> s.probe.Some? && s.probe.value.HasRead?
  {
    match step
    case VmmAppends(bytes) => s.(log := s.log + bytes)
    case CutRewrites(log) => s.(rewriting := true, log := log)
    case CutIsForgotten => s.(rewriting := false, read := 0, cuts := s.cuts + 1)
    case BootIsRecorded => s.(booting := true, boot := s.boot + 1, read := 0, full := false)
    case LogIsEmptied => s.(booting := false, log := [])
    case ProbeBegins => s.(probe := Some(Began(s.boot, s.cuts, s.read)))
    case ProbeReads =>
      var p := s.probe.value;
      var (next, text) := Since(s.log, p.from);
      s.(probe := Some(HasRead(p.boot, p.cuts, next, RoomFull(w, text))))
    case ProbePublishes =>
      var p := s.probe.value;
      var ended := s.(probe := None);
      if !s.IsCurrent(p) then ended
      else ended.(read := p.next, full := if p.mark.Some? then p.mark.value else s.full)
  }

  ghost predicate Reachable(w: Words, ss: seq<Machine>, steps: seq<Step>) {
    && |ss| == |steps| + 1 && ss[0] == NEW_MACHINE
    && forall i :: 0 <= i < |steps| ==> Moves(w, ss, steps, i)
  }

  ghost predicate Moves(w: Words, ss: seq<Machine>, steps: seq<Step>, i: nat)
    requires i < |steps| < |ss|
  {
    Enabled(w, ss[i], steps[i]) && ss[i + 1] == Apply(w, ss[i], steps[i])
  }

  // ---------- what the runner's view should be ----------

  /** The saved offset is between two lines of the log as it is, and the view of the
      guest's room is the newest mark of everything before it. */
  ghost predicate RoomIsCurrent(w: Words, s: Machine) {
    && s.read <= |s.log| && Whole(s.log[..s.read])
    && (RoomFull(w, s.log[..s.read]).Some? ==> Some(s.full) == RoomFull(w, s.log[..s.read]))
  }

  /** What the runner holds about the boot being made, or is about to be told by a probe
      that has read, was read off the log before it. */
  predicate Stale(s: Machine) {
    s.read > 0 || PendingStale(s)
  }

  predicate PendingStale(s: Machine) {
    s.probe.Some? && s.probe.value.HasRead? && s.IsCurrent(s.probe.value) && s.probe.value.next > 0
  }

  predicate EmptiesStale(s: Machine, step: Step) {
    step == LogIsEmptied && !s.rewriting && Stale(s)
  }

  // The reading of the log starts over with these, whatever was read before.
  predicate StartsOver(step: Step) {
    step.CutRewrites? || step.BootIsRecorded?
  }

  // The boot that emptied its log at `i` did so with such a reading about, and that was
  // the last anyone did to the log up to `k` but append to it.
  ghost predicate StaleSince(ss: seq<Machine>, steps: seq<Step>, i: nat, k: nat)
    requires i < k <= |steps| < |ss|
  {
    EmptiesStale(ss[i], steps[i]) && forall j :: i < j < k ==> !StartsOver(steps[j])
  }

  ghost predicate NoStaleBoot(ss: seq<Machine>, steps: seq<Step>, k: nat)
    requires k <= |steps| < |ss|
  {
    forall i :: 0 <= i < k ==> !StaleSince(ss, steps, i, k)
  }

  // ---------- what every interleaving keeps ----------

  // `n` is between two lines, and what stands after it is not older.
  ghost predicate Boundary(w: Words, lines: Bytes, n: nat) {
    n <= |lines| && Whole(lines[..n]) && NotOlder(w, lines[..n], lines[n..])
  }

  /** What the runner knows is what the log says up to where it has read it. */
  ghost predicate Current(w: Words, s: Machine) {
    var lines := WholeLines(s.log);
    && Boundary(w, lines, s.read)
    && (RoomFull(w, lines[..s.read]).Some? ==> s.full == RoomFull(w, lines[..s.read]).value)
  }

  // What a current probe has read describes the log from where the runner stopped.
  ghost predicate ReadFits(w: Words, s: Machine, p: Probe)
    requires p.HasRead?
  {
    var lines := WholeLines(s.log);
    s.read <= p.next && Boundary(w, lines, p.next) && p.mark == RoomFull(w, lines[s.read..p.next])
  }

  ghost predicate NotAhead(s: Machine) {
    s.probe.Some? ==> s.probe.value.cuts <= s.cuts && s.probe.value.boot <= s.boot
  }

  // A current probe starts where the runner stopped, and one that read nothing has no mark.
  ghost predicate ProbeIsSound(s: Machine) {
    s.probe.Some? ==>
      match s.probe.value
      case Began(_, _, from) => s.IsCurrent(s.probe.value) ==> from == s.read
      case HasRead(_, _, next, mark) => next == 0 ==> mark.None?
  }

  ghost predicate Orderly(s: Machine) {
    NotAhead(s) && ProbeIsSound(s)
  }

  ghost predicate Inv(w: Words, s: Machine) {
    && Orderly(s)
    && (s.Settled() ==> Current(w, s))
    && (s.Settled() && s.probe.Some? && s.probe.value.HasRead? && s.IsCurrent(s.probe.value) ==>
          ReadFits(w, s, s.probe.value))
  }

  lemma LinesAreWhole(log: Bytes)
    ensures Whole(WholeLines(log)) && WholeEnd(WholeLines(log)) == |WholeLines(log)|
  {
    WholeEndIs(log);
    var lines := WholeLines(log);
    assert lines[..|lines|] == lines;
    WholeEndIsUnique(lines, |lines|);
  }

  // An append leaves the lines as they are and completes some more.
  lemma AppendCompletes(log: Bytes, bytes: Bytes)
    ensures WholeLines(log + bytes) == WholeLines(log) + Completed(log, bytes)
    ensures Whole(Completed(log, bytes))
  {
    var e := WholeEnd(log);
    WholeEndIs(log);
    SplitAt(log, e);
    JoinIsAssociative(log[..e], log[e..], bytes);
    JoinedLines(log[..e], log[e..] + bytes, log + bytes);
  }

  lemma JoinedLines(lines: Bytes, rest: Bytes, all: Bytes)
    requires Whole(lines) && all == lines + rest
    ensures WholeEnd(all) == |lines| + WholeEnd(rest)
    ensures all[..WholeEnd(all)] == lines + all[|lines|..WholeEnd(all)] && Whole(all[|lines|..WholeEnd(all)])
  {
    WholeEndOfJoin(lines, rest);
    WholeEndIs(rest);
    PartsOfJoin(lines, rest, WholeEnd(rest));
  }

  lemma PartsOfJoin(a: Bytes, b: Bytes, n: nat)
    requires n <= |b|
    ensures (a + b)[|a|..|a| + n] == b[..n] && (a + b)[..|a| + n] == a + b[..n]
  {}

  lemma BoundaryGrows(w: Words, lines: Bytes, more: Bytes, n: nat)
    requires Whole(lines) && Whole(more) && Boundary(w, lines, n) && NotOlder(w, lines, more)
    ensures Boundary(w, lines + more, n)
  {
    assert (lines + more)[..n] == lines[..n] && (lines + more)[n..] == lines[n..] + more;
    SplitAt(lines, n);
    assert Whole(lines[n..]);
    MarksOfJoin(w, lines[n..], more);
    MarksOfJoin(w, lines[..n], lines[n..]);
  }

  lemma AppendKeeps(w: Words, s: Machine, bytes: Bytes)
    requires Inv(w, s) && Enabled(w, s, VmmAppends(bytes))
    ensures Inv(w, Apply(w, s, VmmAppends(bytes)))
  {
    if s.Settled() {
      var lines, more := WholeLines(s.log), Completed(s.log, bytes);
      LinesAreWhole(s.log);
      AppendCompletes(s.log, bytes);
      BoundaryGrows(w, lines, more, s.read);
      SamePrefix(lines, more, 0, s.read);
      if s.probe.Some? && s.probe.value.HasRead? && s.IsCurrent(s.probe.value) {
        AppendKeepsProbe(w, s, bytes, s.probe.value);
      }
    }
  }

  lemma SamePrefix(a: Bytes, b: Bytes, lo: nat, hi: nat)
    requires lo <= hi <= |a|
    ensures (a + b)[lo..hi] == a[lo..hi] && (a + b)[..hi] == a[..hi]
  {}

  lemma AppendKeepsProbe(w: Words, s: Machine, bytes: Bytes, p: Probe)
    requires NotOlder(w, WholeLines(s.log), Completed(s.log, bytes)) && p.HasRead? && ReadFits(w, s, p)
    ensures ReadFits(w, s.(log := s.log + bytes), p)
  {
    var lines, more := WholeLines(s.log), Completed(s.log, bytes);
    LinesAreWhole(s.log);
    AppendCompletes(s.log, bytes);
    BoundaryGrows(w, lines, more, p.next);
    SamePrefix(lines, more, s.read, p.next);
  }

  lemma EndIsBoundary(w: Words, lines: Bytes)
    requires Whole(lines)
    ensures Boundary(w, lines, |lines|)
  {
    assert lines[..|lines|] == lines && lines[|lines|..] == [];
  }

  lemma ReadKeeps(w: Words, s: Machine)
    requires Inv(w, s) && Enabled(w, s, ProbeReads)
    ensures Inv(w, Apply(w, s, ProbeReads))
  {
    NothingHasNoMark(w, s.log, s.probe.value.from);
    if s.Settled() && s.IsCurrent(s.probe.value) {
      LinesAreWhole(s.log);
      EndIsBoundary(w, WholeLines(s.log));
      ReadOfLines(s.log, s.read, WholeLines(s.log));
    }
  }

  lemma ReadOfLines(log: Bytes, from: nat, lines: Bytes)
    requires lines == WholeLines(log) && from <= |lines| && Whole(lines[..from])
    ensures Since(log, from) == (|lines|, lines[from..|lines|])
  {
    assert log[..from] == lines[..from];
    ReadIsWholeLines(log, from);
    assert log[from..|lines|] == lines[from..|lines|];
  }

  lemma NothingHasNoMark(w: Words, log: Bytes, from: nat)
    ensures Since(log, from).0 == 0 ==> RoomFull(w, Since(log, from).1).None?
  {
    assert RoomFull(w, []).None?;
  }

  // The newest of two stretches, the second not older, is the newest of the second
  // if that has a mark.
  lemma LaterStretchDecides(w: Words, a: Bytes, b: Bytes)
    requires Whole(a) && NotOlder(w, a, b)
    ensures RoomFull(w, a + b) == if RoomFull(w, b).Some? then RoomFull(w, b) else RoomFull(w, a)
  {
    MarksOfJoin(w, a, b);
    NewestIsTheOneStanding(MarksIn(w, b), 0);
    if MarksIn(w, b) == [] {
      assert MarksIn(w, a) + [] == MarksIn(w, a);
    } else {
      JoinedMarks(MarksIn(w, a), MarksIn(w, b));
    }
  }

  // A mark that is not older than any before it takes their place, stamped or not.
  lemma {:induction false} JoinedMarks(older: seq<Mark>, newer: seq<Mark>)
    requires forall m, n :: m in older && n in newer && m.at.Some? && n.at.Some? ==> m.at.value <= n.at.value
    requires newer != []
    ensures Newest(older + newer) == Newest(newer)
  {
    var n := |newer| - 1;
    assert (older + newer)[..|older + newer| - 1] == older + newer[..n];
    if n == 0 {
      assert newer[..0] == [] && older + [] == older;
      NewestIsOne(older);
    } else {
      JoinedMarks(older, newer[..n]);
    }
  }

  lemma NewestIsOne(marks: seq<Mark>)
    ensures Newest(marks).Some? ==> Newest(marks).value in marks
  {
    if marks != [] { var i := NewestStands(marks); }
  }

  lemma NotOlderPrefix(w: Words, a: Bytes, b: Bytes, c: Bytes)
    requires Whole(b) && NotOlder(w, a, b + c)
    ensures NotOlder(w, a, b)
  {
    MarksOfJoin(w, b, c);
  }

  lemma RoomUpTo(w: Words, lines: Bytes, read: nat, next: nat)
    requires read <= next && Boundary(w, lines, read) && Boundary(w, lines, next)
    ensures var gained := RoomFull(w, lines[read..next]);
            RoomFull(w, lines[..next]) == if gained.Some? then gained else RoomFull(w, lines[..read])
  {
    var a, b, c := lines[..read], lines[read..next], lines[next..];
    assert lines[..next] == a + b && lines == (a + b) + c && lines[read..] == b + c;
    BetweenIsWhole(lines, read, next);
    NotOlderPrefix(w, a, b, c);
    LaterStretchDecides(w, a, b);
  }

  lemma BetweenIsWhole(lines: Bytes, read: nat, next: nat)
    requires read <= next <= |lines| && Whole(lines[..next])
    ensures Whole(lines[read..next])
  {
    assert next > 0 ==> lines[..next][next - 1] == lines[next - 1];
  }

  lemma PublishKeeps(w: Words, s: Machine)
    requires Inv(w, s) && Enabled(w, s, ProbePublishes)
    ensures Inv(w, Apply(w, s, ProbePublishes))
  {
    var p := s.probe.value;
    if s.Settled() && s.IsCurrent(p) { RoomUpTo(w, WholeLines(s.log), s.read, p.next); }
  }

  // A log whose reading starts over is current.
  lemma StartIsCurrent(w: Words, s: Machine)
    requires s.read == 0
    ensures Current(w, s)
  {
    assert WholeLines(s.log)[..0] == [];
  }

  lemma ForgetKeeps(w: Words, s: Machine)
    requires Inv(w, s) && Enabled(w, s, CutIsForgotten)
    ensures Inv(w, Apply(w, s, CutIsForgotten))
  {
    if !s.booting { StartIsCurrent(w, Apply(w, s, CutIsForgotten)); }
  }

  lemma EmptyKeeps(w: Words, s: Machine)
    requires Inv(w, s) && Enabled(w, s, LogIsEmptied) && !EmptiesStale(s, LogIsEmptied)
    ensures Inv(w, Apply(w, s, LogIsEmptied))
  {
    assert WholeLines([]) == [] && RoomFull(w, []).None?;
    if !s.rewriting { StartIsCurrent(w, Apply(w, s, LogIsEmptied)); }
  }

  lemma StepKeeps(w: Words, s: Machine, step: Step)
    requires Inv(w, s) && Enabled(w, s, step) && !EmptiesStale(s, step)
    ensures Inv(w, Apply(w, s, step))
  {
    match step
    case VmmAppends(bytes) => AppendKeeps(w, s, bytes);
    case ProbeReads => ReadKeeps(w, s);
    case ProbePublishes => PublishKeeps(w, s);
    case CutIsForgotten => ForgetKeeps(w, s);
    case LogIsEmptied => EmptyKeeps(w, s);
    case _ =>
  }

  lemma NewIsKept(w: Words)
    ensures Inv(w, NEW_MACHINE)
  {
    assert WholeLines([]) == [];
    StartIsCurrent(w, NEW_MACHINE);
  }

  lemma StepKeepsOrderly(w: Words, s: Machine, step: Step)
    requires Orderly(s) && Enabled(w, s, step)
    ensures Orderly(Apply(w, s, step))
    ensures StartsOver(step) ==> Inv(w, Apply(w, s, step))
  {
    if step == ProbeReads { NothingHasNoMark(w, s.log, s.probe.value.from); }
  }

  // What does not start over leaves a stale boot as it is.
  lemma StaleLasts(ss: seq<Machine>, steps: seq<Step>, k: nat)
    requires 0 < k <= |steps| < |ss| && NoStaleBoot(ss, steps, k) && !StartsOver(steps[k - 1])
    ensures NoStaleBoot(ss, steps, k - 1) && !EmptiesStale(ss[k - 1], steps[k - 1])
  {
    var last := k - 1;
    assert !StaleSince(ss, steps, last, k);
    forall i | 0 <= i < last ensures !StaleSince(ss, steps, i, last) {
      assert !StaleSince(ss, steps, i, k);
    }
  }

  lemma {:induction false} EveryInterleavingKeeps(w: Words, ss: seq<Machine>, steps: seq<Step>, k: nat)
    requires Reachable(w, ss, steps) && k < |ss|
    ensures Orderly(ss[k])
    ensures NoStaleBoot(ss, steps, k) ==> Inv(w, ss[k])
  {
    if k == 0 {
      NewIsKept(w);
    } else {
      EveryInterleavingKeeps(w, ss, steps, k - 1);
      assert Moves(w, ss, steps, k - 1);
      StepKeepsOrderly(w, ss[k - 1], steps[k - 1]);
      if NoStaleBoot(ss, steps, k) && !StartsOver(steps[k - 1]) {
        StaleLasts(ss, steps, k);
        StepKeeps(w, ss[k - 1], steps[k - 1]);
      }
    }
  }

  /** Whatever appends, cuts, boots and probes interleave, whenever no cut and no boot is
      in progress the saved offset is between two lines of the log as it is, and the
      runner's view of the guest's room is the newest mark of everything before that
      offset, unless the last boot emptied its log with a stale reading about and no cut or
      boot came since. */
  lemma PublishedRoomIsCurrent(w: Words, ss: seq<Machine>, steps: seq<Step>, k: nat)
    requires Reachable(w, ss, steps) && k < |ss| && ss[k].Settled() && NoStaleBoot(ss, steps, k)
    ensures RoomIsCurrent(w, ss[k])
  {
    EveryInterleavingKeeps(w, ss, steps, k);
    assert WholeLines(ss[k].log)[..ss[k].read] == ss[k].log[..ss[k].read];
  }

  // A probe with nothing between its steps.
  function Begun(w: Words, s: Machine): Machine {
    Apply(w, s, ProbeBegins)
  }

  function HasLooked(w: Words, s: Machine): Machine {
    Apply(w, Begun(w, s), ProbeReads)
  }

  function Probed(w: Words, s: Machine): Machine {
    Apply(w, HasLooked(w, s), ProbePublishes)
  }

  /** And a probe that nothing comes between brings the view up to date: wherever the last
      one stopped, all whole lines of the log are read, and the view is the newest mark of
      the whole log, or as it was if that has none. */
  lemma ProbeCatchesUp(w: Words, ss: seq<Machine>, steps: seq<Step>, k: nat)
    requires Reachable(w, ss, steps) && k < |ss| && ss[k].Settled() && NoStaleBoot(ss, steps, k) && ss[k].probe.None?
    ensures var s, e := ss[k], Probed(w, ss[k]);
            && Enabled(w, s, ProbeBegins) && Enabled(w, Begun(w, s), ProbeReads)
            && Enabled(w, HasLooked(w, s), ProbePublishes)
            && e.log == s.log && e.read == WholeEnd(s.log) && e.probe.None?
            && (var mark := RoomFull(w, WholeLines(s.log)); mark.Some? ==> e.full == mark.value)
  {
    var s := ss[k];
    EveryInterleavingKeeps(w, ss, steps, k);
    StepKeeps(w, s, ProbeBegins);
    StepKeeps(w, Begun(w, s), ProbeReads);
    StepKeeps(w, HasLooked(w, s), ProbePublishes);
    ReadOfLines(s.log, s.read, WholeLines(s.log));
    assert WholeLines(s.log)[..WholeEnd(s.log)] == WholeLines(s.log);
  }

  /** The machine is free: a log may be cut to anything and a boot recorded at any time,
      and while either is at it anything may be appended. */
  lemma MachineIsFree(w: Words, s: Machine, log: Bytes)
    ensures Enabled(w, s, CutRewrites(log)) && Enabled(w, s, BootIsRecorded)
    ensures !s.Settled() ==> Enabled(w, s, VmmAppends(log))
    ensures var cut := Apply(w, s, CutRewrites(log)); cut.log == log && Enabled(w, cut, CutIsForgotten)
    ensures Enabled(w, Apply(w, s, BootIsRecorded), LogIsEmptied)
  {}

  // ---------- when a boot is told of the one before ----------

  /** What that leaves out is what fails: a boot that empties its log leaves the view
      current, and current still once a probe that has read by then is through, if and
      only if nothing stale is about. */
  lemma StaleBootIsSeen(w: Words, s: Machine)
    requires Enabled(w, s, LogIsEmptied)
    ensures var e := Apply(w, s, LogIsEmptied);
            && RoomIsCurrent(w, e)
            && (e.probe.Some? && e.probe.value.HasRead? ==> RoomIsCurrent(w, Apply(w, e, ProbePublishes)))
            <==> !Stale(s)
  {
    assert RoomFull(w, []).None?;
    var none: Bytes := [];
    assert none[..0] == none;
  }

  predicate PublishesCurrent(s: Machine, step: Step) {
    step == ProbePublishes && s.probe.Some? && s.probe.value.HasRead? && s.IsCurrent(s.probe.value)
  }

  // At `t` a current probe publishes an offset past the start of the log, and up to `i`
  // no cut is forgotten and no current probe publishes again.
  ghost predicate PublishedAt(ss: seq<Machine>, steps: seq<Step>, t: nat, i: nat)
    requires t < i <= |steps| < |ss|
  {
    && PublishesCurrent(ss[t], steps[t]) && ss[t].probe.value.next > 0
    && forall j :: t < j < i ==> steps[j] != CutIsForgotten && !PublishesCurrent(ss[j], steps[j])
  }

  ghost predicate NoBootIn(steps: seq<Step>, a: nat, b: nat)
    requires b <= |steps|
  {
    forall i :: a <= i < b ==> steps[i] != BootIsRecorded
  }

  /** Since a boot was recorded the offset is past the start exactly if a current probe
      published such a one and nothing has replaced it. */
  lemma {:induction false} OffsetSinceBoot(w: Words, ss: seq<Machine>, steps: seq<Step>, b: nat, i: nat)
    requires Reachable(w, ss, steps) && b < i < |ss| && steps[b] == BootIsRecorded && NoBootIn(steps, b + 1, i)
    ensures ss[i].read > 0 <==> exists t :: b < t < i && PublishedAt(ss, steps, t, i)
    decreases i
  {
    assert Moves(w, ss, steps, i - 1);
    if b + 1 < i {
      OffsetSinceBoot(w, ss, steps, b, i - 1);
      var s, step := ss[i - 1], steps[i - 1];
      forall t | b < t < i - 1
        ensures PublishedAt(ss, steps, t, i) <==>
                PublishedAt(ss, steps, t, i - 1) && step != CutIsForgotten && !PublishesCurrent(s, step)
      {}
      var last := i - 1;
      if (exists t :: b < t < last && PublishedAt(ss, steps, t, last)) && step != CutIsForgotten {
        var t :| b < t < last && PublishedAt(ss, steps, t, last);
        assert PublishedAt(ss, steps, t, i) <==> !PublishesCurrent(s, step);
      }
      assert PublishedAt(ss, steps, i - 1, i) <==> PublishesCurrent(s, step) && s.probe.value.next > 0;
    }
  }

  // At `t` a current probe reads a log that has a whole line for it, and up to `i` no cut
  // is forgotten and no probe ends.
  ghost predicate ReadAt(ss: seq<Machine>, steps: seq<Step>, t: nat, i: nat)
    requires t < i <= |steps| < |ss|
  {
    && ReadsSome(ss[t], steps[t])
    && forall j :: t < j < i ==> steps[j] != CutIsForgotten && steps[j] != ProbePublishes
  }

  predicate ReadsSome(s: Machine, step: Step) {
    && step == ProbeReads && s.probe.Some? && s.probe.value.Began? && s.IsCurrent(s.probe.value)
    && Since(s.log, s.probe.value.from).0 > 0
  }

  lemma PendingAfter(w: Words, s: Machine, step: Step)
    requires Enabled(w, s, step) && NotAhead(s)
    ensures step == BootIsRecorded ==> !PendingStale(Apply(w, s, step))
    ensures step != BootIsRecorded ==>
              (PendingStale(Apply(w, s, step)) <==>
               (PendingStale(s) && step != CutIsForgotten && step != ProbePublishes) || ReadsSome(s, step))
  {}

  /** Since a boot was recorded something stale is pending exactly if a current probe read
      some lines and is not through, and no cut has dropped it. */
  lemma {:induction false} PendingSinceBoot(w: Words, ss: seq<Machine>, steps: seq<Step>, b: nat, i: nat)
    requires Reachable(w, ss, steps) && b < i < |ss| && steps[b] == BootIsRecorded && NoBootIn(steps, b + 1, i)
    ensures PendingStale(ss[i]) <==> exists t :: b < t < i && ReadAt(ss, steps, t, i)
    decreases i
  {
    assert Moves(w, ss, steps, i - 1);
    EveryInterleavingKeeps(w, ss, steps, i - 1);
    PendingAfter(w, ss[i - 1], steps[i - 1]);
    if b + 1 < i {
      PendingSinceBoot(w, ss, steps, b, i - 1);
      var step := steps[i - 1];
      forall t | b < t < i - 1
        ensures ReadAt(ss, steps, t, i) <==>
                ReadAt(ss, steps, t, i - 1) && step != CutIsForgotten && step != ProbePublishes
      {}
      var last := i - 1;
      if (exists t :: b < t < last && ReadAt(ss, steps, t, last)) && step != CutIsForgotten {
        var t :| b < t < last && ReadAt(ss, steps, t, last);
        assert ReadAt(ss, steps, t, i) <==> step != ProbePublishes;
      }
      assert ReadAt(ss, steps, i - 1, i) <==> ReadsSome(ss[i - 1], step);
    }
  }

  /** When a boot leaves a view that is not current, or a probe that will publish one:
      exactly when a probe that took its figures after the boot was recorded read some
      lines of the log before it was emptied, and published them or has yet to, with no
      cut forgotten and no other publication since. */
  lemma BootIsToldOfTheLast(w: Words, ss: seq<Machine>, steps: seq<Step>, b: nat, i: nat)
    requires Reachable(w, ss, steps) && b < i < |steps| && steps[b] == BootIsRecorded && NoBootIn(steps, b + 1, i)
    requires steps[i] == LogIsEmptied
    ensures var e := ss[i + 1];
            && RoomIsCurrent(w, e)
            && (e.probe.Some? && e.probe.value.HasRead? ==> RoomIsCurrent(w, Apply(w, e, ProbePublishes)))
            <==> !exists t :: b < t < i && (PublishedAt(ss, steps, t, i) || ReadAt(ss, steps, t, i))
  {
    assert Moves(w, ss, steps, i);
    StaleBootIsSeen(w, ss[i]);
    OffsetSinceBoot(w, ss, steps, b, i);
    PendingSinceBoot(w, ss, steps, b, i);
  }

  // At `t` a probe that took its figures after the last boot or cut publishes full.
  ghost predicate SaysFullAt(ss: seq<Machine>, steps: seq<Step>, t: nat) {
    t < |steps| < |ss| && PublishesCurrent(ss[t], steps[t]) && ss[t].probe.value.mark == Some(true)
  }

  /** A guest that booted counts as full only if a probe since then read that it is. */
  lemma {:induction false} FullWasRead(w: Words, ss: seq<Machine>, steps: seq<Step>, b: nat, i: nat)
    requires Reachable(w, ss, steps) && b < i < |ss| && steps[b] == BootIsRecorded && NoBootIn(steps, b + 1, i)
    ensures ss[i].full ==> exists t :: b < t < i && SaysFullAt(ss, steps, t)
    decreases i
  {
    assert Moves(w, ss, steps, i - 1);
    if b + 1 < i {
      FullWasRead(w, ss, steps, b, i - 1);
      var last := i - 1;
      if ss[i].full && !ss[last].full { assert SaysFullAt(ss, steps, last); }
    }
  }

  // ---------- probes that come too late ----------

  /** A probe that took its offset before a cut was forgotten or a boot was recorded
      publishes nothing after it: neither its offset nor its mark. */
  lemma LateProbeIsDropped(w: Words, ss: seq<Machine>, steps: seq<Step>, a: nat, b: nat)
    requires Reachable(w, ss, steps) && a < b < |steps|
    requires (steps[a] == CutIsForgotten || steps[a] == BootIsRecorded) && ss[a].probe.Some?
    requires forall i :: a < i < b ==> steps[i] != ProbeBegins
    requires steps[b] == ProbePublishes
    ensures ss[b + 1] == ss[b].(probe := None)
  {
    StaleStaysStale(w, ss, steps, a, b);
    assert Moves(w, ss, steps, b);
  }

  lemma {:induction false} StaleStaysStale(w: Words, ss: seq<Machine>, steps: seq<Step>, a: nat, b: nat)
    requires Reachable(w, ss, steps) && a < b < |ss|
    requires (steps[a] == CutIsForgotten || steps[a] == BootIsRecorded) && ss[a].probe.Some?
    requires forall i :: a < i < b ==> steps[i] != ProbeBegins
    ensures ss[b].probe.Some? ==> ss[b].probe.value.cuts < ss[b].cuts || ss[b].probe.value.boot < ss[b].boot
    decreases b
  {
    assert Moves(w, ss, steps, b - 1);
    if b == a + 1 { EveryInterleavingKeeps(w, ss, steps, a); } else { StaleStaysStale(w, ss, steps, a, b - 1); }
  }

  /** A run that ends so: a probe that takes the new boot's figures and then reads the log
      before it is emptied publishes the old boot's room for a guest that has just
      started, and an offset past the end of its log. */
  lemma OldBootCanBePublished(w: Words, before: Bytes) returns (ss: seq<Machine>, steps: seq<Step>)
    requires Whole(before) && before != [] && RoomFull(w, before) == Some(true)
    ensures Reachable(w, ss, steps)
    ensures var s := ss[|ss| - 1]; s.Settled() && s.log == [] && s.full && !RoomIsCurrent(w, s)
  {
    FirstAppend(w, before);
    ReadOfAll(before);
    ss, steps := [NEW_MACHINE], [];
    ss, steps := Extended(w, ss, steps, VmmAppends(before));
    ss, steps := Extended(w, ss, steps, BootIsRecorded);
    ss, steps := Extended(w, ss, steps, ProbeBegins);
    ss, steps := Extended(w, ss, steps, ProbeReads);
    ss, steps := Extended(w, ss, steps, ProbePublishes);
    ss, steps := Extended(w, ss, steps, LogIsEmptied);
  }

  lemma Extended(w: Words, ss: seq<Machine>, steps: seq<Step>, step: Step)
    returns (ss1: seq<Machine>, steps1: seq<Step>)
    requires Reachable(w, ss, steps) && Enabled(w, ss[|ss| - 1], step)
    ensures Reachable(w, ss1, steps1) && ss1[|ss1| - 1] == Apply(w, ss[|ss| - 1], step)
  {
    ss1, steps1 := ss + [Apply(w, ss[|ss| - 1], step)], steps + [step];
    forall i | 0 <= i < |steps1| ensures Moves(w, ss1, steps1, i) {
      if i < |steps| {
        assert Moves(w, ss, steps, i);
        assert ss1[i] == ss[i] && ss1[i + 1] == ss[i + 1] && steps1[i] == steps[i];
      }
    }
  }

  lemma ReadOfAll(log: Bytes)
    requires Whole(log)
    ensures Since(log, 0) == (|log|, log)
  {
    assert log[..|log|] == log && log[0..] == log && log[0..|log|] == log;
    WholeEndIsUnique(log, |log|);
  }

  lemma FirstAppend(w: Words, log: Bytes)
    requires Whole(log)
    ensures Enabled(w, NEW_MACHINE, VmmAppends(log))
            && Apply(w, NEW_MACHINE, VmmAppends(log)) == NEW_MACHINE.(log := log)
  {
    assert [] + log == log && log[..|log|] == log;
    WholeEndIsUnique(log, |log|);
    assert WholeLines([]) == [];
  }
}
