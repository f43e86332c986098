/**
 The runner's CPU readings of the last minute (Window in
 packages/vm-runner/src/cgroup.rs).
 */
module CpuWindow {
  import opened Wrappers

  datatype CpuStat = CpuStat(usage: nat, periods: nat, throttled: nat)

  // A reading and when it was made, in nanoseconds.
  datatype Sample = Sample(at: int, stat: CpuStat)

  const WINDOW := 60_000_000_000

  // The time from one instant to another, nothing if the clock went back.
  function Since(at: int, from: int): nat {
    if at < from then 0 else at - from
  }

  // ---------- one push ----------

  function Last(samples: seq<Sample>): Sample
    requires samples != []
  {
    samples[|samples| - 1]
  }

  // Counters that went backwards start over.
  function Restart(samples: seq<Sample>, s: Sample): seq<Sample> {
    if samples != [] && s.stat.usage < Last(samples).stat.usage then [] else samples
  }

  function DropOld(samples: seq<Sample>, at: int): seq<Sample> {
    if samples != [] && Since(at, samples[0].at) > WINDOW then DropOld(samples[1..], at) else samples
  }

  function Push(samples: seq<Sample>, s: Sample): seq<Sample> {
    DropOld(Restart(samples, s) + [s], s.at)
  }

  // ---------- the window of a whole history ----------

  function WindowOf(history: seq<Sample>): seq<Sample> {
    if history == [] then [] else Push(WindowOf(history[..|history| - 1]), Last(history))
  }

  ghost predicate Ordered(history: seq<Sample>) {
    forall i, j :: 0 <= i < j < |history| ==> history[i].at <= history[j].at
  }

  /** Where the counters last went backwards, or the start. */
  ghost function LastReset(history: seq<Sample>): (r: nat)
    requires history != []
    ensures r < |history|
  {
    var n := |history| - 1;
    if n == 0 || history[n].stat.usage < history[n - 1].stat.usage then n else LastReset(history[..n])
  }

  /** The window starts at `s`: not before the reset, with everything from there
      within the window of the newest reading and everything between the reset and
      there outside it. */
  ghost predicate StartsFrom(history: seq<Sample>, reset: nat, s: nat) {
    && reset <= s < |history|
    && (forall i :: s <= i < |history| ==> Last(history).at - history[i].at <= 60_000_000_000)
    && (forall i :: reset <= i < s ==> Last(history).at - history[i].at > 60_000_000_000)
  }

  ghost predicate StartsAt(history: seq<Sample>, s: nat)
    requires history != []
  {
    StartsFrom(history, LastReset(history), s)
  }

  lemma {:induction false} DropOldIs(samples: seq<Sample>, at: int) returns (d: nat)
    ensures d <= |samples| && DropOld(samples, at) == samples[d..]
    ensures forall i :: 0 <= i < d ==> Since(at, samples[i].at) > WINDOW
    ensures d < |samples| ==> Since(at, samples[d].at) <= WINDOW
  {
    if samples != [] && Since(at, samples[0].at) > WINDOW {
      var e := DropOldIs(samples[1..], at);
      d := e + 1;
      assert samples[1..][e..] == samples[d..];
    } else {
      d := 0;
      assert samples[0..] == samples;
    }
  }

  lemma {:induction false} ResetOfExtension(front: seq<Sample>, last: Sample)
    requires front != []
    ensures LastReset(front + [last])
            == if last.stat.usage < Last(front).stat.usage then |front| else LastReset(front)
  {
    assert (front + [last])[..|front|] == front;
  }

  // The part of the history a push drops old samples from.
  lemma BaseOf(front: seq<Sample>, last: Sample, before: nat) returns (b: nat)
    requires front != [] && before < |front|
    ensures b == if last.stat.usage < Last(front).stat.usage then |front| else before
    ensures Restart(front[before..], last) + [last] == (front + [last])[b..]
  {
    assert Last(front[before..]) == Last(front);
    b := if last.stat.usage < Last(front).stat.usage then |front| else before;
  }

  lemma NewestStays(history: seq<Sample>, b: nat, d: nat)
    requires history != [] && Ordered(history) && b < |history| && d <= |history| - b
    requires forall i :: 0 <= i < d ==> Since(Last(history).at, history[b..][i].at) > WINDOW
    requires d < |history| - b ==> Since(Last(history).at, history[b..][d].at) <= WINDOW
    ensures b + d < |history|
    ensures forall i :: b + d <= i < |history| ==> Last(history).at - history[i].at <= WINDOW
    ensures forall i :: b <= i < b + d ==> Last(history).at - history[i].at > WINDOW
  {
    var from := history[b..];
    assert forall i :: b <= i < |history| ==> from[i - b] == history[i];
    assert from[|history| - 1 - b] == Last(history);
  }

  // What is left after the old samples are dropped from a part of the history.
  lemma DroppedFrom(history: seq<Sample>, b: nat) returns (s: nat)
    requires Ordered(history) && b < |history|
    ensures StartsFrom(history, b, s) && DropOld(history[b..], Last(history).at) == history[s..]
  {
    var d := DropOldIs(history[b..], Last(history).at);
    s := b + d;
    assert history[b..][d..] == history[s..];
    NewestStays(history, b, d);
  }

  lemma OldOnesAreOld(front: seq<Sample>, last: Sample, reset: nat, before: nat, i: nat)
    requires Ordered(front + [last]) && StartsFrom(front, reset, before) && reset <= i < before
    ensures last.at - front[i].at > WINDOW
  {
    var history := front + [last];
    assert history[|front| - 1].at <= history[|front|].at;
  }

  lemma StartOfExtension(front: seq<Sample>, last: Sample, reset: nat, before: nat, s: nat)
    requires Ordered(front + [last]) && StartsFrom(front, reset, before) && StartsFrom(front + [last], before, s)
    ensures StartsFrom(front + [last], reset, s)
  {
    forall i | reset <= i < before ensures last.at - front[i].at > WINDOW {
      OldOnesAreOld(front, last, reset, before, i);
    }
  }

  // One push moves the start forward, past what became old.
  lemma PushMovesTheStart(front: seq<Sample>, last: Sample, reset: nat, before: nat) returns (s: nat)
    requires Ordered(front + [last]) && StartsFrom(front, reset, before)
    ensures StartsFrom(front + [last], if last.stat.usage < Last(front).stat.usage then |front| else reset, s)
    ensures Push(front[before..], last) == (front + [last])[s..]
  {
    var history := front + [last];
    var b := BaseOf(front, last, before);
    s := DroppedFrom(history, b);
    if b < |front| {
      StartOfExtension(front, last, reset, before, s);
    }
  }

  /** After any pushes in the order of time, the window holds exactly the readings
      since the counters last went backwards that are within a minute of the newest. */
  lemma {:induction false} WindowIsTheRecentHistory(history: seq<Sample>) returns (s: nat)
    requires history != [] && Ordered(history)
    ensures StartsAt(history, s) && WindowOf(history) == history[s..]
  {
    var front, last := history[..|history| - 1], Last(history);
    assert front + [last] == history;
    if front == [] {
      s := 0;
    } else {
      var before := WindowIsTheRecentHistory(front);
      s := PushMovesTheStart(front, last, LastReset(front), before);
      ResetOfExtension(front, last);
    }
  }

  // ---------- the figures ----------

  predicate Rising(samples: seq<Sample>) {
    forall i, j :: 0 <= i < j < |samples| ==> samples[i].stat.usage <= samples[j].stat.usage
  }

  lemma {:induction false} RisingSinceReset(history: seq<Sample>)
    requires history != []
    ensures Rising(history[LastReset(history)..])
  {
    var n := |history| - 1;
    if !(n == 0 || history[n].stat.usage < history[n - 1].stat.usage) {
      var front, r := history[..n], LastReset(history);
      RisingSinceReset(front);
      assert front[r..] + [history[n]] == history[r..];
      assert front[r..][n - 1 - r] == history[n - 1];
    }
  }

  lemma {:induction false} DropOldKeepsRising(samples: seq<Sample>, at: int)
    requires Rising(samples)
    ensures Rising(DropOld(samples, at))
  {
    if samples != [] && Since(at, samples[0].at) > WINDOW { DropOldKeepsRising(samples[1..], at); }
  }

  lemma PushKeepsRising(samples: seq<Sample>, s: Sample)
    requires Rising(samples)
    ensures Rising(Push(samples, s))
  {
    DropOldKeepsRising(Restart(samples, s) + [s], s.at);
  }

  function Low32(n: nat): nat {
    n % 0x1_0000_0000
  }

  function Quotient(a: nat, b: nat): nat {
    if b == 0 then 0 else a / b
  }

  // A percentage, cut to 32 bits.
  function Percent(part: nat, of: nat): nat {
    Low32(Quotient(part * 100, of))
  }

  // The average milli-CPUs and the share of throttled periods between two readings.
  function Figures(first: Sample, last: Sample): Option<(nat, nat)>
    requires first.stat.usage <= last.stat.usage
  {
    var elapsed := Since(last.at, first.at) / 1000;
    if elapsed == 0 then None else
      var used := Quotient((last.stat.usage - first.stat.usage) * 1000, elapsed);
      var periods := SaturatingSub(last.stat.periods, first.stat.periods);
      var throttled := SaturatingSub(last.stat.throttled, first.stat.throttled);
      Some((used, Percent(throttled, periods)))
  }

  // `q` is `a / b`, rounded down.
  predicate IsQuotient(q: nat, a: nat, b: nat) {
    q * b <= a < (q + 1) * b
  }

  lemma DivisionIs(a: nat, b: nat)
    requires b > 0
    ensures IsQuotient(Quotient(a, b), a, b)
  {
    assert a == a / b * b + a % b;
  }

  /** The first figure is the milli-CPUs that make up the usage over the microseconds
      between the readings. There are no figures for readings less than a microsecond
      apart. */
  lemma UsageIs(first: Sample, last: Sample)
    requires first.stat.usage <= last.stat.usage
    ensures Figures(first, last).None? <==> last.at - first.at < 1000
    ensures Figures(first, last).Some? ==>
              IsQuotient(Figures(first, last).value.0, (last.stat.usage - first.stat.usage) * 1000,
                         (last.at - first.at) / 1000)
  {
    if last.at - first.at >= 1000 {
      DivisionIs((last.stat.usage - first.stat.usage) * 1000, (last.at - first.at) / 1000);
    }
  }

  /** The second is the percentage of the periods between them that were throttled, none
      where there was no period. */
  lemma ThrottlingIs(first: Sample, last: Sample, of: nat, part: nat)
    requires first.stat.usage <= last.stat.usage && last.at - first.at >= 1000
    requires last.stat.periods == first.stat.periods + of && last.stat.throttled == first.stat.throttled + part
    requires part <= of
    ensures Figures(first, last).Some?
    ensures if of == 0 then Figures(first, last).value.1 == 0
            else IsQuotient(Figures(first, last).value.1, part * 100, of)
  {
    if of > 0 { PercentIs(part, of); }
  }

  /** Counters of periods that went backwards, alone of the three, count as standing
      still. */
  lemma ThrottlingNeverUnderflows(first: Sample, last: Sample)
    requires first.stat.usage <= last.stat.usage && last.at - first.at >= 1000
    requires last.stat.periods <= first.stat.periods || last.stat.throttled <= first.stat.throttled
    ensures Figures(first, last).Some? && Figures(first, last).value.1 == 0
  {
    if last.stat.periods > first.stat.periods { DivisionIs(0, last.stat.periods - first.stat.periods); }
  }

  lemma PercentIs(part: nat, of: nat)
    requires part <= of && of > 0
    ensures IsQuotient(Percent(part, of), part * 100, of)
  {
    DivisionIs(part * 100, of);
    PercentIsSmall(Quotient(part * 100, of), part, of);
    SmallIsLow(Quotient(part * 100, of));
  }

  lemma SmallIsLow(n: nat)
    requires n <= 100
    ensures Low32(n) == n
  {}

  lemma PercentIsSmall(percent: nat, part: nat, of: nat)
    requires part <= of && of > 0 && IsQuotient(percent, part * 100, of)
    ensures percent <= 100
  {
    if percent > 100 { MulOrder(101, percent, of); }
  }

  lemma MulOrder(a: nat, b: nat, c: nat)
    requires a <= b
    ensures a * c <= b * c
  {}

  // The figures of a window: nothing while it is empty.
  function Report(samples: seq<Sample>): Option<(nat, nat)>
    requires Rising(samples)
  {
    if samples == [] then None else
      assert |samples| > 1 ==> samples[0].stat.usage <= Last(samples).stat.usage;
      Figures(samples[0], Last(samples))
  }

  /** The readings' window, changed in place. */
  class Window {
    var samples: seq<Sample>

    ghost predicate Valid()
      reads this
    {
      Rising(samples)
    }

    constructor ()
      ensures Valid() && samples == WindowOf([])
    {
      samples := [];
    }

    method Add(at: int, stat: CpuStat)
      requires Valid()
      modifies this
      ensures Valid() && samples == Push(old(samples), Sample(at, stat))
    {
      PushKeepsRising(samples, Sample(at, stat));
      if samples != [] && stat.usage < Last(samples).stat.usage {
        samples := [];
      }
      samples := samples + [Sample(at, stat)];
      ghost var goal := DropOld(samples, at);
      while samples != [] && Since(at, samples[0].at) > WINDOW
        invariant DropOld(samples, at) == goal
        decreases |samples|
      {
        samples := samples[1..];
      }
    }

    /** The difference of the counters never underflows: a valid window only rises. */
    method Read() returns (r: Option<(nat, nat)>)
      requires Valid()
      ensures r == Report(samples)
    {
      if samples == [] { return None; }
      var first, last := samples[0], Last(samples);
      assert |samples| > 1 ==> first.stat.usage <= last.stat.usage;
      var elapsed := Since(last.at, first.at) / 1000;
      if elapsed == 0 { return None; }
      var used := (last.stat.usage - first.stat.usage) * 1000 / elapsed;
      var periods := SaturatingSub(last.stat.periods, first.stat.periods);
      var throttled := SaturatingSub(last.stat.throttled, first.stat.throttled);
      return Some((used, if periods == 0 then 0 else throttled * 100 / periods % 0x1_0000_0000));
    }
  }

  lemma TailRises(history: seq<Sample>, r: nat, s: nat)
    requires r <= s < |history| && Rising(history[r..])
    ensures Rising(history[s..])
  {
    assert history[s..] == history[r..][s - r..];
  }

  lemma ReportOfTail(history: seq<Sample>, s: nat)
    requires s < |history| && Rising(history[s..])
    ensures history[s].stat.usage <= Last(history).stat.usage
    ensures Report(history[s..]) == Figures(history[s], Last(history))
    ensures s == |history| - 1 ==> Report(history[s..]) == None
  {
    var w := history[s..];
    assert w[0] == history[s] && Last(w) == Last(history);
    assert |w| > 1 ==> w[0].stat.usage <= Last(w).stat.usage;
  }

  // No window starts at two places.
  lemma StartIsUnique(history: seq<Sample>, reset: nat, s: nat, t: nat)
    requires StartsFrom(history, reset, s) && s < t
    ensures !StartsFrom(history, reset, t)
  {
    assert Last(history).at - history[s].at <= WINDOW;
  }

  lemma WindowFrom(history: seq<Sample>, s: nat)
    requires history != [] && Ordered(history) && StartsAt(history, s)
    ensures WindowOf(history) == history[s..]
  {
    var t := WindowIsTheRecentHistory(history);
    if s < t { StartIsUnique(history, LastReset(history), s, t); }
    if t < s { StartIsUnique(history, LastReset(history), t, s); }
  }

  lemma RisesFrom(history: seq<Sample>, s: nat)
    requires history != [] && StartsAt(history, s)
    ensures Rising(history[s..])
  {
    RisingSinceReset(history);
    TailRises(history, LastReset(history), s);
  }

  /** What the window reports is a figure of the whole history: the one between its
      newest reading and the first one since the last reset that is within a minute of
      it. Right after a reset there is none. */
  lemma ReportIsOfTheHistory(history: seq<Sample>, s: nat, w: seq<Sample>)
    requires history != [] && Ordered(history) && StartsAt(history, s) && w == WindowOf(history)
    ensures history[s].stat.usage <= Last(history).stat.usage
    ensures Rising(w) && Report(w) == Figures(history[s], Last(history))
    ensures LastReset(history) == |history| - 1 ==> Report(w) == None
  {
    WindowFrom(history, s);
    RisesFrom(history, s);
    ReportOfTail(history, s);
  }
}
