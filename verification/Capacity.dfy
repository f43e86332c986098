/**
 Whether one more machine fits in the memory a VM runner was given
 (packages/vm-runner/src/capacity.rs): the counting rules, the sum over the
 machines, and what a whole run of admissions keeps.
 */
module Capacity {
  import opened Wrappers

  type Id = string

  const I32_MAX := 0x7fff_ffff

  // Memory in MiB, as a non-negative i32.
  type Mib = m: int | 0 <= m <= I32_MAX

  datatype Config = Config(limit: Mib, reserve: Mib, headroom: Mib, boot: Mib)

  /** What the runner knows of its machines: the directories on disk, each with the
      size its spec gives if the spec can be read; the sizes operations in flight
      asked for; which run; what was last measured and whether a read has failed
      since; and which are warming up. */
  datatype Host = Host(
    disk: map<Id, Option<Mib>>,
    committing: map<Id, Mib>,
    running: set<Id>,
    resident: map<Id, (Mib, bool)>,
    warming: set<Id>)
  {
    // A machine on disk and in flight is one machine.
    function Ids(): set<Id> {
      disk.Keys + committing.Keys
    }
  }

  // ---------- what one machine counts ----------

  function SaturatingAdd(a: Mib, b: Mib): Mib {
    if a + b > I32_MAX then I32_MAX else a + b
  }

  function Min(a: int, b: int): int {
    if a < b then a else b
  }

  function Max(a: int, b: int): int {
    if a > b then a else b
  }

  function Unmeasured(c: Config, size: Mib): Mib {
    if c.boot > 0 then Min(size, c.boot) else size
  }

  function Handout(c: Config): Mib {
    Max(c.limit - c.reserve, 0)
  }

  // A running machine whose spec gives its size.
  function Readable(c: Config, size: Mib, resident: Option<(Mib, bool)>, warming: bool): Mib {
    var floor := Unmeasured(c, size);
    match resident
    case None => floor
    case Some((mib, stale)) =>
      var counted := Min(size, SaturatingAdd(mib, c.headroom));
      if warming || stale then Max(counted, floor) else counted
  }

  // A running machine whose spec cannot be read.
  function Unreadable(c: Config, resident: Option<(Mib, bool)>, warming: bool): Mib {
    var floor := if c.boot > 0 then c.boot else Handout(c);
    match resident
    case None => Handout(c)
    case Some((mib, stale)) =>
      var counted := SaturatingAdd(mib, c.headroom);
      if warming || stale then Max(counted, floor) else counted
  }

  function Reading(h: Host, id: Id): Option<(Mib, bool)> {
    if id in h.resident then Some(h.resident[id]) else None
  }

  function Count(c: Config, h: Host, id: Id): Mib {
    if id in h.committing then Unmeasured(c, h.committing[id])
    else if id !in h.running then 0
    else if id in h.disk && h.disk[id].Some? then
      Readable(c, h.disk[id].value, Reading(h, id), id in h.warming)
    else Unreadable(c, Reading(h, id), id in h.warming)
  }

  /** A machine whose spec reads, or that is in flight, never counts above its size. */
  lemma NeverAboveItsSize(c: Config, h: Host, id: Id)
    ensures id in h.committing ==> Count(c, h, id) <= h.committing[id]
    ensures id !in h.committing && id in h.disk && h.disk[id].Some? ==> Count(c, h, id) <= h.disk[id].value
  {}

  // Running, and not in flight.
  predicate Counted(h: Host, id: Id) {
    id in h.running && id !in h.committing
  }

  // Measured, with no read failed since, and not warming up.
  predicate Settled(h: Host, id: Id) {
    id in h.resident && !h.resident[id].1 && id !in h.warming
  }

  /** What a running machine with a readable spec counts: once settled its measured use
      and the headroom, or its size if that is less; until then at least that, and at
      least its size or the warm-up floor, and no more than one of them. */
  lemma ReadableCounts(c: Config, h: Host, id: Id)
    requires Counted(h, id) && id in h.disk && h.disk[id].Some?
    ensures var n, size := Count(c, h, id), h.disk[id].value;
            && (Settled(h, id) ==> n <= size && n <= h.resident[id].0 + c.headroom)
            && (id in h.resident ==> n == size || n >= h.resident[id].0 + c.headroom)
            && (!Settled(h, id) ==> n == size || (n >= c.boot > 0))
            && (id !in h.resident && c.boot > 0 ==> n <= c.boot)
            && (id in h.resident && c.boot > 0 ==> n <= c.boot || n <= h.resident[id].0 + c.headroom)
  {}

  /** What one whose spec cannot be read counts: all there is to hand out before it was
      measured, its measured use and the headroom once settled, and in between at least
      that, and at least the floor or, where none is set, all there is. */
  lemma UnreadableCounts(c: Config, h: Host, id: Id)
    requires Counted(h, id) && (id !in h.disk || h.disk[id].None?)
    ensures var n, all := Count(c, h, id), if c.limit > c.reserve then c.limit - c.reserve else 0;
            && (id !in h.resident ==> n == all)
            && (id in h.resident ==>
                  var used := h.resident[id].0 + c.headroom;
                  var floor := if c.boot > 0 then c.boot else all;
                  && (used <= I32_MAX ==> n >= used) && (used > I32_MAX ==> n == I32_MAX)
                  && (Settled(h, id) ==> n <= used)
                  && (!Settled(h, id) ==> n >= floor && (n <= used || n == floor)))
  {}

  /** What an operation in flight counts: what it asked for, or the warm-up floor if that
      is less. A machine that neither runs nor is in flight counts nothing. */
  lemma OthersCount(c: Config, h: Host, id: Id)
    requires !Counted(h, id)
    ensures id !in h.committing ==> Count(c, h, id) == 0
    ensures id in h.committing ==>
              var n, want := Count(c, h, id), h.committing[id];
              n <= want && (n == want || n == c.boot) && (c.boot > 0 ==> n <= c.boot) && (n < want ==> c.boot > 0)
  {}

  // ---------- the sum ----------

  ghost function Total(c: Config, h: Host, ids: set<Id>): int {
    if ids == {} then 0 else
      var id :| id in ids;
      Count(c, h, id) + Total(c, h, ids - {id})
  }

  lemma {:induction false} TotalRemove(c: Config, h: Host, ids: set<Id>, id: Id)
    requires id in ids
    ensures Total(c, h, ids) == Count(c, h, id) + Total(c, h, ids - {id})
    decreases ids
  {
    var first :| first in ids && Total(c, h, ids) == Count(c, h, first) + Total(c, h, ids - {first});
    if first != id {
      TotalRemove(c, h, ids - {first}, id);
      TotalRemove(c, h, ids - {id}, first);
      assert ids - {first} - {id} == ids - {id} - {first};
    }
  }

  lemma {:induction false} TotalSame(c: Config, h: Host, h': Host, ids: set<Id>)
    requires forall id :: id in ids ==> Count(c, h, id) == Count(c, h', id)
    ensures Total(c, h, ids) == Total(c, h', ids)
    decreases ids
  {
    if ids != {} {
      var id :| id in ids;
      TotalRemove(c, h, ids, id);
      TotalRemove(c, h', ids, id);
      TotalSame(c, h, h', ids - {id});
    }
  }

  // An id that is nowhere, or only one that counts nothing, may be left out.
  lemma TotalWithout(c: Config, h: Host, ids: set<Id>, id: Id)
    ensures Total(c, h, ids) == Total(c, h, ids - {id}) + if id in ids then Count(c, h, id) else 0
  {
    if id in ids { TotalRemove(c, h, ids, id); } else { assert ids - {id} == ids; }
  }

  ghost function Committed(c: Config, h: Host): int {
    Total(c, h, h.Ids())
  }

  ghost function Others(c: Config, h: Host, id: Id): int {
    Total(c, h, h.Ids() - {id})
  }

  // The machine's own part of the sum.
  function Share(c: Config, h: Host, id: Id): Mib {
    if id in h.Ids() then Count(c, h, id) else 0
  }

  ghost predicate RoomFor(c: Config, h: Host, id: Id, want: Mib) {
    c.limit == 0 || Others(c, h, id) + Unmeasured(c, want) + c.reserve <= c.limit
  }

  /** A measured use each machine may grow to: by the headroom, up to its size. */
  ghost predicate MayGrowTo(c: Config, h: Host, id: Id, use: nat) {
    && Counted(h, id) && id in h.Ids() && id in h.resident
    && use <= h.resident[id].0 + c.headroom && use <= I32_MAX
    && (id in h.disk && h.disk[id].Some? ==> use <= h.disk[id].value)
  }

  ghost predicate MayAllGrowTo(c: Config, h: Host, use: map<Id, nat>) {
    forall id :: id in use ==> MayGrowTo(c, h, id, use[id])
  }

  ghost function Sum(use: map<Id, nat>): nat {
    if use == map[] then 0 else
      var id :| id in use;
      use[id] + Sum(use - {id})
  }

  lemma {:induction false} SumIsCovered(c: Config, h: Host, ids: set<Id>, use: map<Id, nat>)
    requires use.Keys <= ids && MayAllGrowTo(c, h, use)
    ensures Sum(use) <= Total(c, h, ids)
    decreases |use|
  {
    if use == map[] {
      TotalIsNatural(c, h, ids);
    } else {
      var id :| id in use && Sum(use) == use[id] + Sum(use - {id});
      TotalRemove(c, h, ids, id);
      SumIsCovered(c, h, ids - {id}, use - {id});
    }
  }

  lemma {:induction false} TotalIsNatural(c: Config, h: Host, ids: set<Id>)
    ensures Total(c, h, ids) >= 0
    decreases ids
  {
    if ids != {} {
      var id :| id in ids;
      TotalRemove(c, h, ids, id);
      TotalIsNatural(c, h, ids - {id});
    }
  }

  /** What admission is for: beside the machine let in, every other measured one may grow
      by its headroom, all of them at once, and it fits. */
  lemma AdmittedLeavesHeadroom(c: Config, h: Host, id: Id, want: Mib, use: map<Id, nat>)
    requires RoomFor(c, h, id, want) && c.limit > 0
    requires id !in use && MayAllGrowTo(c, h, use)
    ensures Sum(use) + Floor(c, want) + c.reserve <= c.limit
  {
    SumIsCovered(c, h, h.Ids() - {id}, use);
  }

  /** A machine of 4096 MiB measured at 3000, with a headroom of 512: of 8192 MiB another
      5000 do not fit, though they would beside the measured use alone. */
  lemma HeadroomIsRefused(c: Config, h: Host)
    requires c == Config(8192, 0, 512, 0)
    requires h == Host(map["a" := Some(4096)], map[], {"a"}, map["a" := (3000, false)], {})
    ensures !RoomFor(c, h, "b", 5000) && RoomFor(c, h, "b", 4680) && !RoomFor(c, h, "b", 4681)
  {
    assert h.Ids() - {"b"} == {"a"};
    TotalRemove(c, h, {"a"}, "a");
    assert {"a"} - {"a"} == {};
  }

  // ---------- the loops ----------

  /** committed: the loop over every machine but `except`. */
  method SumCommitted(c: Config, h: Host, except: Option<Id>) returns (used: int)
    ensures used == if except.Some? then Others(c, h, except.value) else Committed(c, h)
  {
    var ids := h.disk.Keys;
    ids := ids + h.committing.Keys;
    var rest := if except.Some? then ids - {except.value} else ids;
    ghost var all := rest;
    used := 0;
    while rest != {}
      invariant used + Total(c, h, rest) == Total(c, h, all)
      decreases rest
    {
      var other :| other in rest;
      TotalRemove(c, h, rest, other);
      rest := rest - {other};
      if other in h.committing {
        used := used + Unmeasured(c, h.committing[other]);
        continue;
      }
      if other !in h.running { continue; }
      var reading := Reading(h, other);
      if other !in h.disk || h.disk[other].None? {
        used := used + Unreadable(c, reading, other in h.warming);
        continue;
      }
      used := used + Readable(c, h.disk[other].value, reading, other in h.warming);
    }
  }

  /** room_for. */
  method HasRoom(c: Config, h: Host, id: Id, want: Mib) returns (ok: bool)
    ensures ok <==> RoomFor(c, h, id, want)
    ensures ok && c.limit > 0 ==>
              forall use :: id !in use && MayAllGrowTo(c, h, use) ==>
                              Sum(use) + Floor(c, want) + c.reserve <= c.limit
  {
    if c.limit == 0 { return true; }
    var used := SumCommitted(c, h, Some(id));
    ok := used + Unmeasured(c, want) + c.reserve <= c.limit;
    if ok {
      forall use | id !in use && MayAllGrowTo(c, h, use)
        ensures Sum(use) + Floor(c, want) + c.reserve <= c.limit
      {
        AdmittedLeavesHeadroom(c, h, id, want, use);
      }
    }
  }

  // ---------- a run of the runner ----------

  datatype Step =
    | Admit(id: Id, want: Mib)
    | BootFinished(id: Id, size: Mib)
    | Abandoned(id: Id)
    | Stopped(id: Id)
    | Deleted(id: Id)
    | WarmedUp(id: Id)
    | Measured(id: Id, mib: Mib)
    | ReadFailed(id: Id)
    | SpecLost(id: Id)
    | SpecFound(id: Id, size: Mib)

  ghost predicate Enabled(c: Config, h: Host, s: Step) {
    match s
    // An operation is admitted under the admission lock, one at a time.
    case Admit(id, want) => RoomFor(c, h, id, want)
    case BootFinished(id, size) => id in h.committing && size <= h.committing[id]
    case Abandoned(id) => id in h.committing
    case Stopped(id) => true
    case Deleted(id) => true
    case WarmedUp(id) => true
    case Measured(id, _) => id in h.running
    case ReadFailed(id) => id in h.resident
    case SpecLost(id) => id in h.disk
    case SpecFound(id, _) => id in h.disk
  }

  function Apply(h: Host, s: Step): Host
    requires s.ReadFailed? ==> s.id in h.resident
  {
    match s
    case Admit(id, want) => h.(committing := h.committing[id := want])
    case BootFinished(id, size) =>
      h.(committing := h.committing - {id}, disk := h.disk[id := Some(size)], running := h.running + {id},
         resident := h.resident - {id}, warming := h.warming + {id})
    case Abandoned(id) => h.(committing := h.committing - {id})
    case Stopped(id) => h.(running := h.running - {id}, resident := h.resident - {id}, warming := h.warming - {id})
    case Deleted(id) =>
      Host(h.disk - {id}, h.committing - {id}, h.running - {id}, h.resident - {id}, h.warming - {id})
    case WarmedUp(id) => h.(warming := h.warming - {id})
    case Measured(id, mib) => h.(resident := h.resident[id := (mib, false)])
    case ReadFailed(id) => h.(resident := h.resident[id := (h.resident[id].0, true)])
    case SpecLost(id) => h.(disk := h.disk[id := None])
    case SpecFound(id, size) => h.(disk := h.disk[id := Some(size)])
  }

  /** The machines are free: one may stop, be deleted or have warmed up at any time, and
      one that runs be measured as anything. */
  lemma MachinesAreFree(c: Config, h: Host, id: Id, mib: Mib)
    ensures Enabled(c, h, Stopped(id)) && Enabled(c, h, Deleted(id)) && Enabled(c, h, WarmedUp(id))
    ensures id in h.running ==> Enabled(c, h, Measured(id, mib))
    ensures id in h.disk ==> Enabled(c, h, SpecLost(id)) && Enabled(c, h, SpecFound(id, mib))
  {}

  /** A step changes the sum by exactly what it changes of its own machine. */
  lemma StepChangesOneMachine(c: Config, h: Host, s: Step)
    requires Enabled(c, h, s)
    ensures Committed(c, Apply(h, s)) == Committed(c, h) - Share(c, h, s.id) + Share(c, Apply(h, s), s.id)
    ensures Others(c, Apply(h, s), s.id) == Others(c, h, s.id)
  {
    var h' := Apply(h, s);
    TotalWithout(c, h, h.Ids(), s.id);
    TotalWithout(c, h', h'.Ids(), s.id);
    assert h'.Ids() - {s.id} == h.Ids() - {s.id};
    forall id | id in h.Ids() - {s.id} ensures Count(c, h, id) == Count(c, h', id) {
      OtherCountsStay(c, h, s, id);
    }
    TotalSame(c, h, h', h.Ids() - {s.id});
  }

  lemma OtherCountsStay(c: Config, h: Host, s: Step, id: Id)
    requires Enabled(c, h, s) && id != s.id
    ensures Count(c, Apply(h, s), id) == Count(c, h, id)
  {}

  // The warm-up floor of a size.
  ghost function Floor(c: Config, size: nat): nat {
    if 0 < c.boot < size then c.boot else size
  }

  /** What the steps make of their machine. A boot that is done counts the warm-up floor
      of its size; the first reading after the warm-up counts with the headroom, and a
      failed one no less than the floor; a stop or a deletion gives back all of it. */
  lemma StepCounts(c: Config, h: Host, s: Step)
    requires Enabled(c, h, s)
    ensures var n := Share(c, Apply(h, s), s.id);
            match s
            case Admit(_, want) => n == Floor(c, want)
            case BootFinished(_, size) => n == Floor(c, size)
            case Stopped(id) => id !in h.committing ==> n == 0
            case Deleted(_) => n == 0
            case Abandoned(id) => id !in h.running ==> n == 0
            case WarmedUp(id) =>
              Counted(h, id) && id in h.disk && h.disk[id].Some? && id in h.resident && !h.resident[id].1 ==>
                n == Min(h.disk[id].value, h.resident[id].0 + c.headroom)
            case Measured(id, mib) =>
              Counted(h, id) && id in h.disk && h.disk[id].Some? && id !in h.warming ==>
                n == Min(h.disk[id].value, mib + c.headroom)
            case ReadFailed(id) =>
              Counted(h, id) && id in h.disk && h.disk[id].Some? ==> n >= Floor(c, h.disk[id].value)
            case SpecLost(id) => Counted(h, id) && id !in h.resident ==> n == Max(c.limit - c.reserve, 0)
            case SpecFound(id, size) => Counted(h, id) && id !in h.resident ==> n == Floor(c, size)
  {}

  /** A stop gives back what its machine counted, no more and no less. */
  lemma StopGivesBack(c: Config, h: Host, id: Id)
    requires id !in h.committing
    ensures Committed(c, Apply(h, Stopped(id))) == Others(c, h, id) == Committed(c, Apply(h, Deleted(id)))
  {
    StepChangesOneMachine(c, h, Stopped(id));
    StepChangesOneMachine(c, h, Deleted(id));
    TotalWithout(c, h, h.Ids(), id);
  }

  /** Admission commits exactly what it checked, and what it commits fits. */
  lemma AdmissionFits(c: Config, h: Host, id: Id, want: Mib)
    requires c.limit > 0 && RoomFor(c, h, id, want)
    ensures var h' := Apply(h, Admit(id, want));
            && Committed(c, h') == Others(c, h, id) + Unmeasured(c, want)
            && Committed(c, h') + c.reserve <= c.limit
  {
    var h' := Apply(h, Admit(id, want));
    StepChangesOneMachine(c, h, Admit(id, want));
    TotalWithout(c, h', h'.Ids(), id);
  }

  /** A boot that finishes at the size it was admitted for leaves the sum as it was:
      it only moves from in flight to running and not yet measured. */
  lemma BootLeavesTheSum(c: Config, h: Host, id: Id)
    requires id in h.committing
    ensures Committed(c, Apply(h, BootFinished(id, h.committing[id]))) == Committed(c, h)
  {
    StepChangesOneMachine(c, h, BootFinished(id, h.committing[id]));
  }

  /** The steps that can raise the sum of the others: a new reading, a failed read, a
      spec that stops or starts to read, and a restart given up while its old machine
      still runs. */
  predicate CanRaise(h: Host, s: Step) {
    s.Measured? || s.ReadFailed? || s.SpecLost? || s.SpecFound? || (s.Abandoned? && s.id in h.running)
  }

  lemma QuietStepDoesNotRaise(c: Config, h: Host, s: Step)
    requires Enabled(c, h, s) && !CanRaise(h, s) && !s.Admit?
    ensures Committed(c, Apply(h, s)) <= Committed(c, h)
  {
    StepChangesOneMachine(c, h, s);
  }

  ghost predicate Fits(c: Config, h: Host) {
    Committed(c, h) + c.reserve <= c.limit
  }

  ghost predicate Execution(c: Config, hs: seq<Host>, steps: seq<Step>) {
    |hs| == |steps| + 1 && forall i :: 0 <= i < |steps| ==> Moves(c, hs, steps, i)
  }

  ghost predicate Moves(c: Config, hs: seq<Host>, steps: seq<Step>, i: nat)
    requires i < |steps| < |hs|
  {
    Enabled(c, hs[i], steps[i]) && hs[i + 1] == Apply(hs[i], steps[i])
  }

  /** Over every run the sum stays within the limit less the reserve, as long as no
      step of it can raise what a machine counts: admission alone never breaks it. */
  lemma {:induction false} AdmissionNeverOvercommits(c: Config, hs: seq<Host>, steps: seq<Step>, k: nat)
    requires c.limit > 0 && Execution(c, hs, steps) && k < |hs| && Fits(c, hs[0])
    requires forall i :: 0 <= i < k ==> !CanRaise(hs[i], steps[i])
    ensures Fits(c, hs[k])
  {
    if k > 0 {
      AdmissionNeverOvercommits(c, hs, steps, k - 1);
      assert Moves(c, hs, steps, k - 1);
      var s := steps[k - 1];
      if s.Admit? { AdmissionFits(c, hs[k - 1], s.id, s.want); } else { QuietStepDoesNotRaise(c, hs[k - 1], s); }
    }
  }

  /** Once an operation was admitted the sum fits for as long as no step raises it, even
      if it did not fit before. */
  lemma {:induction false} FitsSinceAdmission(c: Config, hs: seq<Host>, steps: seq<Step>, a: nat, k: nat)
    requires c.limit > 0 && Execution(c, hs, steps) && a < k < |hs| && steps[a].Admit?
    requires forall i :: a < i < k ==> !CanRaise(hs[i], steps[i])
    ensures Fits(c, hs[k])
  {
    assert Moves(c, hs, steps, k - 1);
    var s := steps[k - 1];
    if s.Admit? {
      AdmissionFits(c, hs[k - 1], s.id, s.want);
    } else {
      FitsSinceAdmission(c, hs, steps, a, k - 1);
      QuietStepDoesNotRaise(c, hs[k - 1], s);
    }
  }

  // By how much the raising steps from `a` to `k` raised the sum.
  ghost function Raised(c: Config, hs: seq<Host>, steps: seq<Step>, a: nat, k: nat): nat
    requires k < |hs| == |steps| + 1
    decreases k
  {
    if k <= a then 0 else
      var gain := Committed(c, hs[k]) - Committed(c, hs[k - 1]);
      Raised(c, hs, steps, a, k - 1) + if CanRaise(hs[k - 1], steps[k - 1]) && gain > 0 then gain else 0
  }

  /** What is committed past the limit is never more than what readings, specs and given
      up restarts added since the last admission: admission itself adds nothing to it. */
  lemma {:induction false} ExcessIsWhatWasRaised(c: Config, hs: seq<Host>, steps: seq<Step>, a: nat, k: nat)
    requires c.limit > 0 && Execution(c, hs, steps) && a < k < |hs| && steps[a].Admit?
    ensures Committed(c, hs[k]) + c.reserve <= c.limit + Raised(c, hs, steps, a + 1, k)
    decreases k
  {
    assert Moves(c, hs, steps, k - 1);
    var s := steps[k - 1];
    if s.Admit? {
      AdmissionFits(c, hs[k - 1], s.id, s.want);
    } else {
      ExcessIsWhatWasRaised(c, hs, steps, a, k - 1);
      if !CanRaise(hs[k - 1], s) { QuietStepDoesNotRaise(c, hs[k - 1], s); }
    }
  }

  /** What raising steps can do is bounded: a running machine whose spec reads takes
      the sum over by no more than its size less what it counted before. */
  lemma RaiseIsBoundedBySize(c: Config, h: Host, s: Step)
    requires Enabled(c, h, s) && (s.Measured? || s.ReadFailed?)
    requires s.id in h.disk && h.disk[s.id].Some? && s.id !in h.committing
    ensures Committed(c, Apply(h, s)) <= Committed(c, h) + h.disk[s.id].value - Share(c, h, s.id)
  {
    StepChangesOneMachine(c, h, s);
    NeverAboveItsSize(c, Apply(h, s), s.id);
  }

  /** A spec that starts to read raises the sum in exactly these cases: its machine was
      never measured and its floor is above all the runner hands out, or it counts at
      its floor with no floor configured and its size is above what it counted as. */
  lemma WhenAFoundSpecRaises(c: Config, h: Host, id: Id, size: Mib)
    requires id in h.disk && h.disk[id].None? && id in h.running && id !in h.committing
    ensures Committed(c, Apply(h, SpecFound(id, size))) > Committed(c, h) <==>
            if id !in h.resident then Unmeasured(c, size) > Handout(c)
            else c.boot == 0 && (id in h.warming || h.resident[id].1) && size > Count(c, h, id)
  {
    StepChangesOneMachine(c, h, SpecFound(id, size));
  }

  // What a machine counts as once nothing of it is in flight.
  function Standing(c: Config, h: Host, id: Id): Mib {
    if id !in h.running || id !in h.disk then 0
    else if h.disk[id].Some? then Readable(c, h.disk[id].value, Reading(h, id), id in h.warming)
    else Unreadable(c, Reading(h, id), id in h.warming)
  }

  /** Giving up a boot raises the sum exactly when the machine it was to replace counts
      above what was admitted, and what is left fits exactly when that count does. */
  lemma WhenGivingUpRaises(c: Config, h: Host, id: Id)
    requires id in h.committing
    ensures Committed(c, Apply(h, Abandoned(id))) > Committed(c, h) <==>
            Standing(c, h, id) > Unmeasured(c, h.committing[id])
    ensures Fits(c, Apply(h, Abandoned(id))) <==> Others(c, h, id) + Standing(c, h, id) + c.reserve <= c.limit
  {
    var h' := Apply(h, Abandoned(id));
    StepChangesOneMachine(c, h, Abandoned(id));
    TotalWithout(c, h', h'.Ids(), id);
  }

  /** A restart is admitted at the warm-up floor while the machine it replaces still
      holds its measured memory, so giving it up can leave more committed than fits. */
  lemma AbandonedRestartCanOvercommit(c: Config, h: Host)
    requires c == Config(4, 0, 0, 2)
    requires h == Host(map["a" := Some(4)], map["a" := 4, "b" := 2], {"a"}, map["a" := (3, false)], {})
    ensures Fits(c, h) && !Fits(c, Apply(h, Abandoned("a")))
  {
    StepChangesOneMachine(c, h, Abandoned("a"));
    TotalWithout(c, h, h.Ids(), "a");
    assert h.Ids() - {"a"} == {"b"};
    TotalWithout(c, h, {"b"}, "b");
    assert {"b"} - {"b"} == {};
  }
}
