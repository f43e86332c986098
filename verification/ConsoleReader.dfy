/**
 Reading a machine's kernel log as it grows (kernel_since in
 packages/vm-runner/src/console.rs).
 */
module ConsoleReader {
  import opened Lines
  import opened Wrappers

  // ---------- one read ----------

  // Where a read starts: from the beginning of a log that is shorter than expected.
  function Start(log: Bytes, from: nat): (n: nat)
    ensures n <= |log|
  {
    if |log| < from then 0 else from
  }

  /** What a read of the log delivers, and where the next one starts. */
  function Since(log: Bytes, from: nat): (nat, Bytes) {
    var start := Start(log, from);
    var n := WholeEnd(log[start..]);
    (start + n, log[start..start + n])
  }

  /** kernel_since. `file` is None for a log that cannot be opened; one whose length
      cannot be told counts as empty, and one that cannot be read delivers nothing. */
  method KernelSince(file: Option<Bytes>, measured: bool, readable: bool, from: nat) returns (next: nat, text: Bytes)
    ensures file.None? ==> next == from && text == []
    ensures file.Some? && readable ==> (next, text) == Since(file.value, if measured then from else 0)
    ensures file.Some? && !readable ==> next == (if measured then Start(file.value, from) else 0) && text == []
  {
    if file.None? { return from, []; }
    var log := file.value;
    var len := if measured then |log| else 0;
    var start := if len < from then 0 else from;
    if !readable { return start, []; }
    var bytes := log[start..];
    var n := |bytes|;
    while n > 0 && bytes[n - 1] != NEWLINE
      invariant 0 <= n <= |bytes| && forall i :: n <= i < |bytes| ==> bytes[i] != NEWLINE
    {
      n := n - 1;
    }
    WholeEndIsUnique(bytes, n);
    assert bytes[..n] == log[start..start + n];
    return start + n, bytes[..n];
  }

  /** The read stops at a line, misses no whole line, and what it leaves for the next
      one is the line still being written. */
  lemma ReadIsWholeLines(log: Bytes, from: nat)
    requires from <= |log| && Whole(log[..from])
    ensures var (next, text) := Since(log, from);
            && from <= next <= |log| && text == log[from..next]
            && next == WholeEnd(log) && Whole(log[..next])
            && log[..next] == log[..from] + text
  {
    EndAfter(log, from);
    WholeEndIs(log);
    ReadUpTo(log, from, WholeEnd(log[from..]), WholeEnd(log));
  }

  lemma ReadUpTo(log: Bytes, from: nat, n: nat, e: nat)
    requires from <= |log| && n == WholeEnd(log[from..]) && e == from + n <= |log|
    ensures Since(log, from) == (e, log[from..e]) && log[..e] == log[..from] + log[from..e]
  {
    TakeFurther(log, from, e);
  }

  lemma EndAfter(log: Bytes, from: nat)
    requires from <= |log| && Whole(log[..from])
    ensures WholeEnd(log) == from + WholeEnd(log[from..])
  {
    SplitAt(log, from);
    WholeEndOfJoin(log[..from], log[from..]);
  }

  lemma TakeFurther(s: Bytes, n: nat, m: nat)
    requires n <= m <= |s|
    ensures s[..m] == s[..n] + s[n..m]
  {}

  // ---------- a log that only grows ----------

  datatype Event = Append(bytes: Bytes) | Read

  datatype Reader = Reader(log: Bytes, offset: nat, delivered: Bytes)

  function Happen(r: Reader, e: Event): Reader {
    match e
    case Append(bytes) => r.(log := r.log + bytes)
    case Read =>
      var (next, text) := Since(r.log, r.offset);
      r.(offset := next, delivered := r.delivered + text)
  }

  function Run(events: seq<Event>): Reader {
    if events == [] then Reader([], 0, []) else Happen(Run(events[..|events| - 1]), events[|events| - 1])
  }

  /** However appends and reads alternate, what was delivered is exactly the log up to
      the saved offset, each line once; the offset is between lines, and right after a
      read no whole line is left over. */
  lemma {:induction false} EveryLineIsDeliveredOnce(events: seq<Event>)
    ensures var r := Run(events);
            && r.offset <= |r.log| && Whole(r.log[..r.offset])
            && r.delivered == r.log[..r.offset]
            && (events != [] && events[|events| - 1].Read? ==> r.offset == WholeEnd(r.log))
  {
    if events != [] {
      var before, e := Run(events[..|events| - 1]), events[|events| - 1];
      EveryLineIsDeliveredOnce(events[..|events| - 1]);
      match e
      case Append(bytes) =>
        assert (before.log + bytes)[..before.offset] == before.log[..before.offset];
      case Read =>
        ReadIsWholeLines(before.log, before.offset);
    }
  }

  lemma EndOfRest(log: Bytes, from: nat, e: nat)
    requires from <= |log| && e == WholeEnd(log)
    ensures WholeEnd(log[from..]) == SaturatingSub(e, from)
  {
    var rest := log[from..];
    WholeEndIs(log);
    if e <= from {
      WholeEndIsUnique(rest, 0);
    } else {
      assert log[..e][e - 1] == log[e - 1] == rest[e - from - 1];
      WholeEndIsUnique(rest, e - from);
    }
  }

  /** All whole lines of an emptied log are read exactly when it is still shorter than
      the saved offset, that offset is its start, or it has none: regrown past the
      offset, its first lines are missed. */
  lemma ShrunkLogIsReadWhole(log: Bytes, from: nat)
    ensures Since(log, from).1 == log[..WholeEnd(log)] <==> from > |log| || from == 0 || WholeEnd(log) == 0
  {
    var start, e := Start(log, from), WholeEnd(log);
    EndOfRest(log, start, e);
    SliceIsPrefix(log, start, start + SaturatingSub(e, start), e);
  }

  lemma SliceIsPrefix(log: Bytes, start: nat, end: nat, e: nat)
    requires start <= end <= |log| && e <= |log| && end - start == SaturatingSub(e, start)
    ensures log[start..end] == log[..e] <==> start == 0 || e == 0
  {
    assert |log[start..end]| == end - start && |log[..e]| == e;
  }

  /** A log that was emptied and has grown past the saved offset: the lines up to it are
      never delivered. */
  lemma RegrownLogIsMissed(first: Bytes, rest: Bytes)
    requires Whole(first) && first != [] && Whole(rest)
    ensures Since(first + rest, |first|) == (|first + rest|, rest)
    ensures WholeEnd(first + rest) == |first + rest|
  {
    var log := first + rest;
    assert log[|first|..] == rest && rest[..|rest|] == rest;
    assert log[|first|..|first| + |rest|] == rest;
    WholeEndIsUnique(rest, |rest|);
    WholeEndOfJoin(first, rest);
  }
}
