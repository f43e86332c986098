/**
 The cut of a machine log that the VMM keeps appending to (trim_with in
 packages/vm-runner/src/console.rs), and what the runner reads of the guest's
 room afterwards.
 */
module ConsoleTrim {
  import opened Lines
  import opened RoomMarks
  import opened Wrappers

  const TAIL_BYTES := 4096
  const TRIM_READS := 4

  // ---------- what the cut keeps of the log ----------

  function Take(s: Bytes, n: nat): Bytes {
    if n <= |s| then s[..n] else s
  }

  function Drop(s: Bytes, n: nat): Bytes {
    if n <= |s| then s[n..] else []
  }

  function Window(size: nat): (n: nat)
    ensures n <= size
  {
    if TAIL_BYTES * 16 < size then TAIL_BYTES * 16 else size
  }

  // What comes before the window, and the window itself. A log that shrank since it
  // was measured has less of both.
  function Head(file: Bytes, size: nat): Bytes {
    Take(file, size - Window(size))
  }

  function Tail(file: Bytes, size: nat): Bytes {
    Take(Drop(file, size - Window(size)), Window(size))
  }

  function KernelTarget(): Bytes {
    Ascii(" init_or_kernel] ")
  }

  function KernelLines(lines: seq<Bytes>): seq<Bytes> {
    if lines == [] then [] else
      var line := lines[|lines| - 1];
      KernelLines(lines[..|lines| - 1]) + (if Contains(line, KernelTarget()) then [line] else [])
  }

  // The size of lines with their newlines.
  function Total(lines: seq<Bytes>): nat {
    if lines == [] then 0 else |lines[0]| + 1 + Total(lines[1..])
  }

  // Drops lines from the front until the rest fit.
  function Fit(lines: seq<Bytes>): seq<Bytes> {
    if Total(lines) > TAIL_BYTES * 2 then Fit(lines[1..]) else lines
  }

  function Flatten(lines: seq<Bytes>): Bytes {
    if lines == [] then [] else lines[0] + [NEWLINE] + Flatten(lines[1..])
  }

  function Kept(file: Bytes, size: nat): Bytes {
    Flatten(Fit(KernelLines(Split(Head(file, size))))) + Tail(file, size)
  }

  /** Of the lines before the window the cut keeps the longest run of last ones that
      is within 8192 bytes. */
  lemma {:induction false} FitIsLongest(lines: seq<Bytes>) returns (d: nat)
    ensures d <= |lines| && Fit(lines) == lines[d..] && Total(lines[d..]) <= 8192
    ensures forall k :: 0 <= k < d ==> Total(lines[k..]) > 8192
  {
    if Total(lines) > TAIL_BYTES * 2 {
      var e := FitIsLongest(lines[1..]);
      d := e + 1;
      assert lines[1..][e..] == lines[d..];
      forall k | 0 <= k < d ensures Total(lines[k..]) > TAIL_BYTES * 2 {
        if k > 0 { assert lines[1..][k - 1..] == lines[k..]; } else { assert lines[0..] == lines; }
      }
    } else {
      d := 0;
      assert lines[0..] == lines;
    }
  }

  lemma {:induction false} TotalIsLength(lines: seq<Bytes>)
    ensures |Flatten(lines)| == Total(lines)
  {
    if lines != [] { TotalIsLength(lines[1..]); }
  }

  lemma KeptIsBounded(file: Bytes, size: nat)
    ensures |Kept(file, size)| <= 73_728
  {
    var lines := KernelLines(Split(Head(file, size)));
    var d := FitIsLongest(lines);
    TotalIsLength(Fit(lines));
  }

  /** The window is the last 65536 bytes of the log as it was measured, or all of it. */
  lemma WindowIsTheEnd(file: Bytes, size: nat)
    requires size <= |file|
    ensures var start := if size > 65_536 then size - 65_536 else 0;
            Head(file, size) == file[..start] && Tail(file, size) == file[start..size]
  {}

  /** Of the lines ahead of it those of the kernel are looked at: the ones with its log
      target, each once and in order. */
  lemma {:induction false} KernelLinesAre(lines: seq<Bytes>)
    ensures forall line :: line in KernelLines(lines) ==> Contains(line, Ascii(" init_or_kernel] "))
    ensures forall line :: line in lines && Contains(line, Ascii(" init_or_kernel] ")) ==> line in KernelLines(lines)
    ensures (forall line :: line in lines ==> Contains(line, Ascii(" init_or_kernel] "))) ==>
              KernelLines(lines) == lines
  {
    if lines != [] { KernelLinesAre(lines[..|lines| - 1]); }
  }

  // ---------- what the VMM writes meanwhile ----------

  /** What lands in the file while the cut runs: after pass `k` has read the file and
      before it empties it, after that emptying, before the kept bytes are written
      back, and between the two writes. */
  datatype Writer = Writer(unread: nat -> Bytes, during: nat -> Bytes, last: Bytes, between: Bytes)

  // The passes from `k` on, with `batch` what pass `k` reads: the file they leave
  // and what they collected.
  function Passes(w: Writer, k: nat, batch: Bytes, landed: Bytes): (Bytes, Bytes)
    decreases TRIM_READS - k
  {
    if batch == [] || k + 1 >= TRIM_READS then (w.during(k), landed + batch)
    else Passes(w, k + 1, w.during(k), landed + batch)
  }

  function PassCount(w: Writer, k: nat, batch: Bytes): (n: nat)
    ensures n > k
    decreases TRIM_READS - k
  {
    if batch == [] || k + 1 >= TRIM_READS then k + 1 else PassCount(w, k + 1, w.during(k))
  }

  // The file the cut leaves.
  function Trimmed(file: Bytes, size: nat, w: Writer): Bytes {
    var (rest, landed) := Passes(w, 0, Drop(file, size), []);
    rest + w.last + Kept(file, size) + w.between + landed
  }

  // What the VMM wrote after the emptyings of passes `lo` to `hi - 1`, in order.
  function During(w: Writer, lo: nat, hi: nat): Bytes
    decreases hi
  {
    if lo >= hi then [] else During(w, lo, hi - 1) + w.during(hi - 1)
  }

  lemma {:induction false} DuringFirst(w: Writer, lo: nat, hi: nat)
    requires lo < hi
    ensures During(w, lo, hi) == w.during(lo) + During(w, lo + 1, hi)
    decreases hi
  {
    if lo + 1 < hi { DuringFirst(w, lo, hi - 1); }
  }

  lemma {:induction false} PassesCollect(w: Writer, k: nat, batch: Bytes, landed: Bytes)
    requires k < TRIM_READS
    ensures var n := PassCount(w, k, batch);
            && k < n <= 4
            && Passes(w, k, batch, landed) == (w.during(n - 1), landed + batch + During(w, k, n - 1))
    decreases TRIM_READS - k
  {
    if batch == [] || k + 1 >= TRIM_READS {
      assert landed + batch + During(w, k, k) == landed + batch;
    } else {
      PassesCollect(w, k + 1, w.during(k), landed + batch);
      var n := PassCount(w, k, batch);
      DuringFirst(w, k, n - 1);
      JoinIsAssociative(landed + batch, w.during(k), During(w, k + 1, n - 1));
    }
  }

  // What pass `m` reads, after passes that read `batch` at `k`.
  function ReadBy(w: Writer, k: nat, batch: Bytes, m: nat): Bytes {
    if m <= k then batch else w.during(m - 1)
  }

  /** The passes go on until one reads nothing, or for four. */
  lemma {:induction false} PassesStop(w: Writer, k: nat, batch: Bytes)
    requires k < TRIM_READS
    ensures var n := PassCount(w, k, batch);
            && (forall m :: k <= m < n - 1 ==> ReadBy(w, k, batch, m) != [])
            && (n == 4 || ReadBy(w, k, batch, n - 1) == [])
    decreases TRIM_READS - k
  {
    if batch != [] && k + 1 < TRIM_READS {
      PassesStop(w, k + 1, w.during(k));
      var n := PassCount(w, k, batch);
      PassesCollect(w, k + 1, w.during(k), []);
      forall m | k <= m < n - 1 ensures ReadBy(w, k, batch, m) != [] {
        if m > k { assert ReadBy(w, k + 1, w.during(k), m) == ReadBy(w, k, batch, m); }
      }
    }
  }

  // What the VMM wrote past the size and before the last emptying, and after it.
  function Early(file: Bytes, size: nat, w: Writer): Bytes {
    Drop(file, size) + During(w, 0, PassCount(w, 0, Drop(file, size)) - 1)
  }

  function Late(file: Bytes, size: nat, w: Writer): Bytes {
    w.during(PassCount(w, 0, Drop(file, size)) - 1) + w.last
  }

  // All of it, in the order it was written.
  function Written(file: Bytes, size: nat, w: Writer): Bytes {
    Drop(file, size) + During(w, 0, PassCount(w, 0, Drop(file, size))) + w.last
  }

  /** Every byte written past the size the cut was sized for, and after any emptying,
      is in the file exactly once: what came before the last emptying stands in order
      behind the kept bytes, what came after it in order ahead of them. Only what lands
      between a read and the emptying after it is lost. */
  lemma CutKeepsEveryWrite(file: Bytes, size: nat, w: Writer)
    ensures PassCount(w, 0, Drop(file, size)) <= 4
    ensures Early(file, size, w) + Late(file, size, w) == Written(file, size, w)
    ensures Trimmed(file, size, w) == Late(file, size, w) + Kept(file, size) + w.between + Early(file, size, w)
  {
    var past := Drop(file, size);
    PassesCollect(w, 0, past, []);
    var n := PassCount(w, 0, past);
    assert [] + past == past;
    Rejoin(past, During(w, 0, n - 1), w.during(n - 1), w.last);
  }

  lemma Rejoin<T>(a: seq<T>, b: seq<T>, c: seq<T>, d: seq<T>)
    ensures (a + b) + (c + d) == a + (b + c) + d
  {}

  /** A log nobody writes to is cut to at most 18 times 4096 bytes. */
  lemma QuietCutIsBounded(file: Bytes, size: nat, w: Writer)
    requires |file| <= size
    requires w.last == w.between == [] && forall k :: w.during(k) == []
    ensures Trimmed(file, size, w) == Kept(file, size)
    ensures |Trimmed(file, size, w)| <= 73_728
  {
    KeptIsBounded(file, size);
    assert Drop(file, size) == [];
  }

  // ---------- what the runner then reads of the guest's room ----------

  /** The VMM writes whole lines, and the log was measured between two of them. The
      window may start anywhere. */
  ghost predicate WholeLines(file: Bytes, size: nat, w: Writer) {
    && Whole(Take(file, size)) && Whole(Drop(file, size))
    && (forall k :: Whole(w.during(k))) && (forall k :: Whole(w.unread(k)))
    && Whole(w.last) && Whole(w.between)
  }

  lemma TakeIsHeadAndTail(file: Bytes, size: nat)
    ensures Take(file, size) == Head(file, size) + Tail(file, size)
  {}

  lemma {:induction false} FlattenIsWhole(lines: seq<Bytes>)
    ensures Whole(Flatten(lines))
  {
    if lines != [] { FlattenIsWhole(lines[1..]); }
  }

  lemma TailIsWhole(file: Bytes, size: nat)
    requires Whole(Take(file, size))
    ensures Whole(Tail(file, size))
  {
    var tail := Tail(file, size);
    TakeIsHeadAndTail(file, size);
    if tail != [] { assert Take(file, size)[|Take(file, size)| - 1] == tail[|tail| - 1]; }
  }

  lemma KeptIsWhole(file: Bytes, size: nat)
    requires Whole(Take(file, size))
    ensures Whole(Kept(file, size))
  {
    var lines := KernelLines(Split(Head(file, size)));
    FlattenIsWhole(Fit(lines));
    TailIsWhole(file, size);
    WholeJoins(Flatten(Fit(lines)), Tail(file, size));
  }

  lemma {:induction false} DuringIsWhole(w: Writer, lo: nat, hi: nat)
    requires forall k :: Whole(w.during(k))
    ensures Whole(During(w, lo, hi))
    decreases hi
  {
    if lo < hi {
      DuringIsWhole(w, lo, hi - 1);
      WholeJoins(During(w, lo, hi - 1), w.during(hi - 1));
    }
  }

  lemma WritesAreWhole(file: Bytes, size: nat, w: Writer)
    requires WholeLines(file, size, w)
    ensures Whole(Early(file, size, w)) && Whole(Late(file, size, w))
  {
    var n := PassCount(w, 0, Drop(file, size));
    DuringIsWhole(w, 0, n - 1);
    WholeJoins(Drop(file, size), During(w, 0, n - 1));
    WholeJoins(w.during(n - 1), w.last);
  }

  // The kept bytes and everything written, in the order it happened.
  function InTime(file: Bytes, size: nat, w: Writer): Bytes {
    Kept(file, size) + Written(file, size, w) + w.between
  }

  // Marks of four whole texts, joined one way and another.
  lemma MarksOfFour(words: Words, a: Bytes, b: Bytes, c: Bytes, d: Bytes)
    requires Whole(a) && Whole(b) && Whole(c) && Whole(d)
    ensures MarksIn(words, a + b + c + d) ==
            MarksIn(words, a) + MarksIn(words, b) + MarksIn(words, c) + MarksIn(words, d)
  {
    WholeJoins(a, b);
    WholeJoins(a + b, c);
    MarksOfJoin(words, a, b);
    MarksOfJoin(words, a + b, c);
    MarksOfJoin(words, a + b + c, d);
  }

  lemma FourInEitherOrder(words: Words, a: Bytes, b: Bytes, c: Bytes, d: Bytes)
    requires Whole(a) && Whole(b) && Whole(c) && Whole(d)
    ensures forall m :: m in MarksIn(words, a + b + c + d) <==> m in MarksIn(words, b + d + a + c)
  {
    MarksOfFour(words, a, b, c, d);
    MarksOfFour(words, b, d, a, c);
  }

  lemma InTimeIs(file: Bytes, size: nat, w: Writer)
    ensures InTime(file, size, w) == Kept(file, size) + Early(file, size, w) + Late(file, size, w) + w.between
  {
    CutKeepsEveryWrite(file, size, w);
    JoinIsAssociative(Kept(file, size), Early(file, size, w), Late(file, size, w));
  }

  /** The cut changes the order of the marks it keeps and nothing else about them. */
  lemma CutMovesMarks(words: Words, file: Bytes, size: nat, w: Writer)
    requires WholeLines(file, size, w)
    ensures forall m :: m in MarksIn(words, Trimmed(file, size, w)) <==> m in MarksIn(words, InTime(file, size, w))
  {
    CutKeepsEveryWrite(file, size, w);
    WritesAreWhole(file, size, w);
    KeptIsWhole(file, size);
    InTimeIs(file, size, w);
    FourInEitherOrder(words, Late(file, size, w), Kept(file, size), w.between, Early(file, size, w));
  }

  /** With a stamp on every mark in the kept bytes and the later writes, the cut file
      answers what they would answer in the order they were made, even where the cut
      left the newest mark ahead of older ones. */
  lemma CutReadsTheNewestMark(words: Words, file: Bytes, size: nat, w: Writer)
    requires WholeLines(file, size, w)
    requires AllStamped(MarksIn(words, InTime(file, size, w)))
    requires StampsDecide(MarksIn(words, InTime(file, size, w)))
    ensures Newest(MarksIn(words, Trimmed(file, size, w))) == Newest(MarksIn(words, InTime(file, size, w)))
    ensures RoomFull(words, Trimmed(file, size, w)) == RoomFull(words, InTime(file, size, w))
  {
    CutMovesMarks(words, file, size, w);
    OrderDoesNotMatter(MarksIn(words, InTime(file, size, w)), MarksIn(words, Trimmed(file, size, w)));
  }

  // ---------- the line the window starts in ----------

  // The whole lines ahead of the window, and the first half of the line it starts in;
  // no half if it starts between two lines.
  function Ahead(file: Bytes, size: nat): Bytes {
    Head(file, size)[..WholeEnd(Head(file, size))]
  }

  function FirstHalf(file: Bytes, size: nat): Bytes {
    Head(file, size)[WholeEnd(Head(file, size))..]
  }

  // The second half of that line, and the whole lines of the window.
  function SecondHalf(file: Bytes, size: nat): Bytes {
    if FirstHalf(file, size) == [] then [] else Tail(file, size)[..FirstBreak(Tail(file, size))]
  }

  function InWindow(file: Bytes, size: nat): Bytes {
    if FirstHalf(file, size) == [] then Tail(file, size) else Drop(Tail(file, size), FirstBreak(Tail(file, size)) + 1)
  }

  // The kernel's lines ahead of the window, and the first half where it is taken for one.
  function AheadLines(file: Bytes, size: nat): seq<Bytes> {
    KernelLines(Split(Ahead(file, size)))
  }

  function HalfLine(file: Bytes, size: nat): seq<Bytes> {
    var p := FirstHalf(file, size);
    if p != [] && Contains(p, KernelTarget()) then [p] else []
  }

  // The lines the cut makes of the two halves.
  function Halves(file: Bytes, size: nat): seq<Bytes> {
    (if Total(HalfLine(file, size)) <= TAIL_BYTES * 2 then HalfLine(file, size) else [])
    + (if FirstHalf(file, size) == [] then [] else [SecondHalf(file, size)])
  }

  lemma {:induction false} KernelJoins(a: seq<Bytes>, b: seq<Bytes>)
    ensures KernelLines(a + b) == KernelLines(a) + KernelLines(b)
  {
    if b == [] {
      assert a + b == a;
    } else {
      var n := |b| - 1;
      assert (a + b)[..|a + b| - 1] == a + b[..n];
      KernelJoins(a, b[..n]);
    }
  }

  // A text without newlines is one line, and a kernel's line or not.
  lemma LinesOfHalf(p: Bytes)
    requires NEWLINE !in p
    ensures Split(p) == if p == [] then [] else [p]
  {
    FirstBreakIs(p);
  }

  lemma KernelOfOne(p: Bytes)
    ensures KernelLines([p]) == if Contains(p, KernelTarget()) then [p] else []
  {
    assert [p][..0] == [];
    assert KernelLines([]) == [];
  }

  lemma KernelOfSplit(ahead: Bytes, p: Bytes)
    requires Whole(ahead) && NEWLINE !in p
    ensures KernelLines(Split(ahead + p)) ==
            KernelLines(Split(ahead)) + if p != [] && Contains(p, KernelTarget()) then [p] else []
  {
    SplitJoins(ahead, p);
    LinesOfHalf(p);
    if p == [] {
      assert Split(ahead) + [] == Split(ahead);
    } else {
      KernelJoins(Split(ahead), [p]);
      KernelOfOne(p);
    }
  }

  lemma HeadSplits(head: Bytes)
    ensures head == head[..WholeEnd(head)] + head[WholeEnd(head)..]
    ensures Whole(head[..WholeEnd(head)]) && NEWLINE !in head[WholeEnd(head)..]
  {
    WholeEndIs(head);
    SplitAt(head, WholeEnd(head));
  }

  lemma KernelOfHead(file: Bytes, size: nat)
    ensures KernelLines(Split(Head(file, size))) == AheadLines(file, size) + HalfLine(file, size)
  {
    HeadSplits(Head(file, size));
    KernelOfSplit(Ahead(file, size), FirstHalf(file, size));
  }

  lemma {:induction false} TotalShrinks(lines: seq<Bytes>, i: nat, j: nat)
    requires i <= j <= |lines|
    ensures Total(lines[j..]) <= Total(lines[i..])
    decreases j - i
  {
    if i < j {
      TotalShrinks(lines, i + 1, j);
      assert lines[i..][1..] == lines[i + 1..];
    }
  }

  /** Of lines and at most one more, those are kept from which on all of them fit. */
  lemma FitOfJoin(lines: seq<Bytes>, half: seq<Bytes>) returns (e: nat)
    requires |half| <= 1
    ensures e <= |lines|
    ensures Fit(lines + half) == lines[e..] + if Total(half) <= TAIL_BYTES * 2 then half else []
    ensures forall i :: 0 <= i < |lines| ==> (e <= i <==> Total((lines + half)[i..]) <= TAIL_BYTES * 2)
  {
    var all := lines + half;
    var d := FitIsLongest(all);
    assert all[|lines|..] == half;
    forall i | d <= i < |lines| ensures Total(all[i..]) <= TAIL_BYTES * 2 { TotalShrinks(all, d, i); }
    if d <= |lines| {
      e := d;
      TotalShrinks(all, d, |lines|);
      assert all[d..] == lines[d..] + half;
    } else {
      e := |lines|;
      assert all[d..] == [] == lines[e..];
      assert Total(all[|lines|..]) > TAIL_BYTES * 2;
    }
  }

  lemma BreakSplits(tail: Bytes)
    requires Whole(tail) && tail != []
    ensures var i := FirstBreak(tail);
            && i < |tail| && tail == tail[..i] + [NEWLINE] + tail[i + 1..]
            && NEWLINE !in tail[..i] && Whole(tail[i + 1..])
  {
    WholeHasBreak(tail);
    FirstBreakIs(tail);
    SplitAround(tail, FirstBreak(tail));
  }

  lemma SplitAround(s: Bytes, i: nat)
    requires i < |s| && s[i] == NEWLINE
    ensures s == s[..i] + [NEWLINE] + s[i + 1..]
  {}

  // A text that ends in the middle of a line has more to come.
  lemma MoreToCome(head: Bytes, tail: Bytes)
    requires Whole(head + tail) && head[WholeEnd(head)..] != []
    ensures tail != []
  {
    WholeEndIs(head);
    assert head[|head| - 1] != NEWLINE;
    assert tail == [] ==> head + tail == head;
  }

  lemma WindowOfHalves(file: Bytes, size: nat)
    requires Whole(Take(file, size)) && FirstHalf(file, size) != []
    ensures Tail(file, size) == SecondHalf(file, size) + [NEWLINE] + InWindow(file, size)
    ensures NEWLINE !in SecondHalf(file, size) && Whole(InWindow(file, size))
  {
    TakeIsHeadAndTail(file, size);
    TailIsWhole(file, size);
    MoreToCome(Head(file, size), Tail(file, size));
    BreakSplits(Tail(file, size));
  }

  lemma MarksOfLine(words: Words, line: Bytes, rest: Bytes)
    requires NEWLINE !in line
    ensures MarksIn(words, line + [NEWLINE] + rest) == Marks(words, [line]) + MarksIn(words, rest)
  {
    OneLine(line);
    MarksOfJoin(words, line + [NEWLINE], rest);
  }

  lemma MarksOfWindow(words: Words, file: Bytes, size: nat)
    requires Whole(Take(file, size))
    ensures MarksIn(words, Tail(file, size)) ==
            Marks(words, if FirstHalf(file, size) == [] then [] else [SecondHalf(file, size)])
                + MarksIn(words, InWindow(file, size))
    ensures Whole(InWindow(file, size))
  {
    if FirstHalf(file, size) == [] {
      TailIsWhole(file, size);
    } else {
      WindowOfHalves(file, size);
      MarksOfLine(words, SecondHalf(file, size), InWindow(file, size));
    }
  }

  lemma {:induction false} LinesHaveNoBreaks(lines: seq<Bytes>)
    requires NoBreaks(lines)
    ensures NoBreaks(Fit(lines))
  {
    if Total(lines) > TAIL_BYTES * 2 { LinesHaveNoBreaks(lines[1..]); }
  }

  lemma MarksOfKernel(words: Words, head: Bytes, rest: Bytes)
    ensures var lines := Fit(KernelLines(Split(head)));
            MarksIn(words, Flatten(lines) + rest) == Marks(words, lines) + MarksIn(words, rest)
  {
    var lines := KernelLines(Split(head));
    SplitHasNoBreaks(head);
    KernelLinesAreLines(Split(head));
    assert forall i :: 0 <= i < |lines| ==> lines[i] in Split(head);
    LinesHaveNoBreaks(lines);
    SplitOfFlatten(Fit(lines));
    FlattenIsWhole(Fit(lines));
    MarksOfJoin(words, Flatten(Fit(lines)), rest);
  }

  /** The marks of the kept bytes: those of the last kernel lines that fit, of the two
      halves, and of the window. */
  lemma MarksOfKept(words: Words, file: Bytes, size: nat) returns (e: nat)
    requires Whole(Take(file, size))
    ensures e <= |AheadLines(file, size)|
    ensures MarksIn(words, Kept(file, size)) ==
            Marks(words, AheadLines(file, size)[e..]) + Marks(words, Halves(file, size))
                + MarksIn(words, InWindow(file, size))
    ensures forall i :: 0 <= i < |AheadLines(file, size)| ==> (e <= i <==> Fits(file, size, i))
  {
    var lines, half := AheadLines(file, size), HalfLine(file, size);
    var kept := if Total(half) <= TAIL_BYTES * 2 then half else [];
    var second := if FirstHalf(file, size) == [] then [] else [SecondHalf(file, size)];
    KernelOfHead(file, size);
    e := FitOfJoin(lines, half);
    MarksOfKernel(words, Head(file, size), Tail(file, size));
    MarksOfWindow(words, file, size);
    MarksJoin(words, lines[e..], kept);
    MarksJoin(words, kept, second);
    Rejoin(Marks(words, lines[e..]), Marks(words, kept), Marks(words, second), MarksIn(words, InWindow(file, size)));
  }

  // The kernel's lines from the `i`-th one on are within what the cut keeps.
  ghost predicate Fits(file: Bytes, size: nat, i: nat)
    requires i < |AheadLines(file, size)|
  {
    Total((AheadLines(file, size) + HalfLine(file, size))[i..]) <= TAIL_BYTES * 2
  }

  // ---------- when the newest mark survives ----------

  // All that lands in the file in the first `n` passes, what their emptyings lose included.
  function Landed(w: Writer, n: nat): Bytes {
    if n == 0 then [] else Landed(w, n - 1) + (w.unread(n - 1) + w.during(n - 1))
  }

  // The log as it would be had it not been cut.
  function Uncut(file: Bytes, size: nat, w: Writer): Bytes {
    Take(file, size) + Drop(file, size) + Landed(w, PassCount(w, 0, Drop(file, size))) + w.last + w.between
  }

  ghost predicate NoBreaks(lines: seq<Bytes>) {
    forall i :: 0 <= i < |lines| ==> NEWLINE !in lines[i]
  }

  lemma {:induction false} SplitHasNoBreaks(s: Bytes)
    ensures NoBreaks(Split(s))
    decreases |s|
  {
    if s != [] {
      var i := FirstBreak(s);
      FirstBreakIs(s);
      if i < |s| { SplitHasNoBreaks(s[i + 1..]); } else { assert s[..i] == s; }
    }
  }

  lemma {:induction false} SplitOfFlatten(lines: seq<Bytes>)
    requires NoBreaks(lines)
    ensures Split(Flatten(lines)) == lines
  {
    if lines != [] {
      SplitOfFlatten(lines[1..]);
      OneLine(lines[0]);
      SplitJoins(lines[0] + [NEWLINE], Flatten(lines[1..]));
    }
  }

  lemma {:induction false} KernelLinesAreLines(lines: seq<Bytes>)
    ensures forall line :: line in KernelLines(lines) ==> line in lines
  {
    if lines != [] { KernelLinesAreLines(lines[..|lines| - 1]); }
  }

  lemma {:induction false} MarksAreOfLines(words: Words, lines: seq<Bytes>, m: Mark)
    ensures m in Marks(words, lines) <==> exists i :: 0 <= i < |lines| && IsMarkAt(words, lines, i, m)
  {
    if lines != [] {
      var n := |lines| - 1;
      MarksAreOfLines(words, lines[..n], m);
      forall i | 0 <= i < n ensures IsMarkAt(words, lines[..n], i, m) <==> IsMarkAt(words, lines, i, m) {}
      if IsMarkAt(words, lines, n, m) { assert m in [m]; }
      if m in Marks(words, lines[..n]) {
        var i :| 0 <= i < n && IsMarkAt(words, lines[..n], i, m);
        assert IsMarkAt(words, lines, i, m);
      }
    }
  }

  ghost predicate IsMarkAt(words: Words, lines: seq<Bytes>, i: nat, m: Mark)
    requires i < |lines|
  {
    words.IsMark(lines[i]) && words.MarkOf(lines[i]) == m
  }

  /** `m` is on a kernel line ahead of the window that the cut keeps. */
  ghost predicate OnKeptLine(words: Words, file: Bytes, size: nat, m: Mark) {
    exists i :: 0 <= i < |AheadLines(file, size)| && Fits(file, size, i)
        && IsMarkAt(words, AheadLines(file, size), i, m)
  }

  lemma KeptLinesHaveIt(words: Words, file: Bytes, size: nat, e: nat, m: Mark)
    requires e <= |AheadLines(file, size)|
    requires forall i :: 0 <= i < |AheadLines(file, size)| ==> (e <= i <==> Fits(file, size, i))
    ensures m in Marks(words, AheadLines(file, size)[e..]) <==> OnKeptLine(words, file, size, m)
  {
    var lines := AheadLines(file, size);
    MarksAreOfLines(words, lines[e..], m);
    forall i | 0 <= i < |lines[e..]| ensures IsMarkAt(words, lines[e..], i, m) <==> IsMarkAt(words, lines, e + i, m) {}
    if OnKeptLine(words, file, size, m) {
      var i :| 0 <= i < |lines| && Fits(file, size, i) && IsMarkAt(words, lines, i, m);
      assert IsMarkAt(words, lines[e..], i - e, m);
    }
    if m in Marks(words, lines[e..]) {
      var i :| 0 <= i < |lines[e..]| && IsMarkAt(words, lines[e..], i, m);
      assert IsMarkAt(words, lines, e + i, m);
    }
  }

  // The line the window starts in, put together again.
  lemma MarksOfRejoined(words: Words, file: Bytes, size: nat)
    requires Whole(Take(file, size))
    ensures var p, q := FirstHalf(file, size), SecondHalf(file, size);
            MarksIn(words, p + Tail(file, size)) ==
            Marks(words, if p == [] then [] else [p + q]) + MarksIn(words, InWindow(file, size))
  {
    var p, q := FirstHalf(file, size), SecondHalf(file, size);
    if p == [] {
      assert p + Tail(file, size) == Tail(file, size);
    } else {
      HeadSplits(Head(file, size));
      WindowOfHalves(file, size);
      LineOfHalves(p, q, InWindow(file, size));
      MarksOfLine(words, p + q, InWindow(file, size));
    }
  }

  lemma MarksOfTake(words: Words, file: Bytes, size: nat)
    requires Whole(Take(file, size))
    ensures MarksIn(words, Take(file, size)) ==
            MarksIn(words, Ahead(file, size)) + MarksIn(words, FirstHalf(file, size) + Tail(file, size))
  {
    TakeIsHeadAndTail(file, size);
    HeadSplits(Head(file, size));
    MarksOfThree(words, Ahead(file, size), FirstHalf(file, size), Tail(file, size));
  }

  lemma MarksOfThree(words: Words, a: Bytes, b: Bytes, c: Bytes)
    requires Whole(a)
    ensures MarksIn(words, a + b + c) == MarksIn(words, a) + MarksIn(words, b + c)
  {
    JoinIsAssociative(a, b, c);
    MarksOfJoin(words, a, b + c);
  }

  lemma LineOfHalves(p: Bytes, q: Bytes, rest: Bytes)
    ensures p + (q + [NEWLINE] + rest) == p + q + [NEWLINE] + rest
  {}

  lemma AheadMarksAreOld(words: Words, file: Bytes, size: nat, m: Mark)
    requires OnKeptLine(words, file, size, m)
    ensures m in MarksIn(words, Ahead(file, size))
  {
    var lines, all := AheadLines(file, size), Split(Ahead(file, size));
    var i: nat :| i < |lines| && Fits(file, size, i) && IsMarkAt(words, lines, i, m);
    KernelLinesAreLines(all);
    assert lines[i] in lines;
    assert words.IsMark(lines[i]) && words.MarkOf(lines[i]) == m;
    LineHasItsMark(words, all, lines[i]);
  }

  lemma {:induction false} LineHasItsMark(words: Words, lines: seq<Bytes>, line: Bytes)
    requires line in lines && words.IsMark(line)
    ensures words.MarkOf(line) in Marks(words, lines)
  {
    if lines[|lines| - 1] != line { LineHasItsMark(words, lines[..|lines| - 1], line); }
  }

  /** Where the cut file has `m` ahead of the two halves, and where behind them. */
  ghost predicate StandsAhead(words: Words, file: Bytes, size: nat, w: Writer, m: Mark) {
    m in MarksIn(words, Late(file, size, w)) || OnKeptLine(words, file, size, m)
  }

  ghost predicate StandsBehind(words: Words, file: Bytes, size: nat, w: Writer, m: Mark) {
    || m in MarksIn(words, InWindow(file, size))
    || m in MarksIn(words, w.between)
    || m in MarksIn(words, Early(file, size, w))
  }

  lemma {:induction false} MarksOfLanded(words: Words, w: Writer, n: nat, m: Mark)
    requires (forall k :: Whole(w.during(k))) && (forall k :: Whole(w.unread(k)))
    ensures Whole(Landed(w, n)) && Whole(During(w, 0, n))
    ensures m in MarksIn(words, During(w, 0, n)) ==> m in MarksIn(words, Landed(w, n))
    ensures (exists k :: 0 <= k < n && m in MarksIn(words, w.unread(k))) ==> m in MarksIn(words, Landed(w, n))
  {
    if n > 0 {
      var before, lost, kept := Landed(w, n - 1), w.unread(n - 1), w.during(n - 1);
      MarksOfLanded(words, w, n - 1, m);
      WholeJoins(lost, kept);
      WholeJoins(before, lost + kept);
      WholeJoins(During(w, 0, n - 1), kept);
      MarksOfJoin(words, lost, kept);
      MarksOfJoin(words, before, lost + kept);
      MarksOfJoin(words, During(w, 0, n - 1), kept);
    }
  }

  lemma MarksOfFive(words: Words, a: Bytes, b: Bytes, c: Bytes, d: Bytes, e: Bytes)
    requires Whole(a) && Whole(b) && Whole(c) && Whole(d)
    ensures MarksIn(words, a + b + c + d + e) ==
            MarksIn(words, a) + MarksIn(words, b) + MarksIn(words, c) + MarksIn(words, d) + MarksIn(words, e)
  {
    MarksOfFour(words, a, b, c, d);
    WholeJoins(a, b);
    WholeJoins(a + b, c);
    WholeJoins(a + b + c, d);
    MarksOfJoin(words, a + b + c + d, e);
  }

  // The whole log has the marks of all that was there and all that was written.
  lemma MarksOfUncut(words: Words, file: Bytes, size: nat, w: Writer, m: Mark)
    requires WholeLines(file, size, w)
    ensures m in MarksIn(words, Take(file, size)) || m in MarksIn(words, Early(file, size, w))
            || m in MarksIn(words, Late(file, size, w)) || m in MarksIn(words, w.between)
            ==> m in MarksIn(words, Uncut(file, size, w))
  {
    var n := PassCount(w, 0, Drop(file, size));
    MarksOfLanded(words, w, n, m);
    MarksOfFive(words, Take(file, size), Drop(file, size), Landed(w, n), w.last, w.between);
    DuringIsWhole(w, 0, n - 1);
    MarksOfJoin(words, Drop(file, size), During(w, 0, n - 1));
    MarksOfJoin(words, w.during(n - 1), w.last);
    MarksOfJoin(words, During(w, 0, n - 1), w.during(n - 1));
  }

  lemma StandingIsOld(words: Words, file: Bytes, size: nat, w: Writer, m: Mark)
    requires WholeLines(file, size, w)
    requires StandsAhead(words, file, size, w, m) || StandsBehind(words, file, size, w, m)
    ensures m in MarksIn(words, Uncut(file, size, w))
  {
    MarksOfUncut(words, file, size, w, m);
    MarksOfTake(words, file, size);
    MarksOfRejoined(words, file, size);
    if OnKeptLine(words, file, size, m) { AheadMarksAreOld(words, file, size, m); }
  }

  /** The marks of the cut file, in its order: ahead of the halves, of the halves, and
      behind them. */
  lemma MarksOfTrimmed(words: Words, file: Bytes, size: nat, w: Writer) returns (a: seq<Mark>, r: seq<Mark>)
    requires WholeLines(file, size, w)
    ensures MarksIn(words, Trimmed(file, size, w)) == a + Marks(words, Halves(file, size)) + r
    ensures forall m :: m in a <==> StandsAhead(words, file, size, w, m)
    ensures forall m :: m in r <==> StandsBehind(words, file, size, w, m)
  {
    CutKeepsEveryWrite(file, size, w);
    WritesAreWhole(file, size, w);
    KeptIsWhole(file, size);
    MarksOfFour(words, Late(file, size, w), Kept(file, size), w.between, Early(file, size, w));
    var e := MarksOfKept(words, file, size);
    var late, kept := MarksIn(words, Late(file, size, w)), Marks(words, AheadLines(file, size)[e..]);
    var window, between, early := MarksIn(words, InWindow(file, size)), MarksIn(words, w.between),
        MarksIn(words, Early(file, size, w));
    a, r := late + kept, window + between + early;
    SixParts(late, kept, Marks(words, Halves(file, size)), window, between, early);
    forall m ensures m in kept <==> OnKeptLine(words, file, size, m) { KeptLinesHaveIt(words, file, size, e, m); }
  }

  lemma SixParts(a: seq<Mark>, b: seq<Mark>, c: seq<Mark>, d: seq<Mark>, e: seq<Mark>, f: seq<Mark>)
    ensures a + (b + c + d) + e + f == (a + b) + c + (d + e + f)
  {}

  lemma TrimmedIsWhole(file: Bytes, size: nat, w: Writer)
    requires WholeLines(file, size, w)
    ensures Whole(Trimmed(file, size, w))
  {
    CutKeepsEveryWrite(file, size, w);
    WritesAreWhole(file, size, w);
    KeptIsWhole(file, size);
    WholeJoins(Late(file, size, w), Kept(file, size));
    WholeJoins(Late(file, size, w) + Kept(file, size), w.between);
    WholeJoins(Late(file, size, w) + Kept(file, size) + w.between, Early(file, size, w));
  }

  lemma NewestBounds(all: seq<Mark>, some: seq<Mark>, n: Mark)
    requires AllStamped(all) && StampsDecide(all) && Newest(all) == Some(n) && forall m :: m in some ==> m in all
    ensures n.at.Some? && AtMost(some, n)
  {
    NewestIsTheOneStanding(all, 0);
    NewestIsLatest(all);
    var i :| 0 <= i < |all| && all[i] == n;
    forall m | m in some ensures m.at.Some? && m.at.value <= n.at.value && (m.at == n.at ==> m == n) {
      var j :| 0 <= j < |all| && all[j] == m;
    }
  }

  /** The mark is behind the two halves and they hold nothing newer, or they carry it
      through. */
  ghost predicate Survives(words: Words, file: Bytes, size: nat, w: Writer, n: Mark)
    requires n.at.Some?
  {
    var halves := Marks(words, Halves(file, size));
    || (StandsBehind(words, file, size, w, n) && NotOver(halves, n))
    || Carried(StandsAhead(words, file, size, w, n), halves, n)
  }

  /** Whether the cut file gives the newest mark of the whole log. It does exactly when
      that mark is in a later write that no emptying lost, in the window, or on one of the
      last 8192 bytes of kernel lines ahead of it, and the two halves of the line the
      window starts in do not stand in its way: behind them nothing newer may be held, and
      ahead of them they must carry it through. With no mark on a half only the place
      counts. */
  lemma CutKeepsTheNewestMark(words: Words, file: Bytes, size: nat, w: Writer, n: Mark)
    requires WholeLines(file, size, w)
    requires var all := MarksIn(words, Uncut(file, size, w));
             AllStamped(all) && StampsDecide(all) && Newest(all) == Some(n)
    ensures n.at.Some?
    ensures Newest(MarksIn(words, Trimmed(file, size, w))) == Some(n) <==> Survives(words, file, size, w, n)
    ensures Marks(words, Halves(file, size)) == [] ==>
              (Newest(MarksIn(words, Trimmed(file, size, w))) == Some(n) <==>
               StandsBehind(words, file, size, w, n) || StandsAhead(words, file, size, w, n))
  {
    var a, r := MarksOfTrimmed(words, file, size, w);
    var all := MarksIn(words, Uncut(file, size, w));
    forall m | m in a || m in r ensures m in all { StandingIsOld(words, file, size, w, m); }
    NewestBounds(all, a, n);
    NewestBounds(all, r, n);
    StraysDecide(a, Marks(words, Halves(file, size)), r, n);
  }

  lemma MarkOfHalvesIsMark(words: Words, p: Bytes, q: Bytes)
    ensures words.IsMark(p) || words.IsMark(q) ==> words.IsMark(p + q)
  {
    ContainsInJoin(p, q, words.full);
    ContainsInJoin(p, q, words.nearlyFull);
    ContainsInJoin(p, q, words.room);
  }

  lemma HalvesAreOfALine(words: Words, file: Bytes, size: nat)
    requires Whole(Take(file, size)) && MarksIn(words, Take(file, size)) == []
    ensures Marks(words, Halves(file, size)) == []
  {
    var p, q := FirstHalf(file, size), SecondHalf(file, size);
    MarksOfTake(words, file, size);
    MarksOfRejoined(words, file, size);
    MarkOfHalvesIsMark(words, p, q);
    if p != [] {
      OneLineMark(words, p + q);
      OneLineMark(words, p);
      OneLineMark(words, q);
      MarksJoin(words, [p], [q]);
    }
  }

  lemma OneLineMark(words: Words, line: Bytes)
    ensures Marks(words, [line]) == if words.IsMark(line) then [words.MarkOf(line)] else []
  {
    assert [line][..0] == [];
    assert Marks(words, []) == [];
  }

  /** A log without a mark is cut to one without a mark. */
  lemma NoMarkAppears(words: Words, file: Bytes, size: nat, w: Writer)
    requires WholeLines(file, size, w) && MarksIn(words, Uncut(file, size, w)) == []
    ensures MarksIn(words, Trimmed(file, size, w)) == []
  {
    if MarksIn(words, Take(file, size)) != [] {
      MarksOfUncut(words, file, size, w, MarksIn(words, Take(file, size))[0]);
    }
    HalvesAreOfALine(words, file, size);
    var a, r := MarksOfTrimmed(words, file, size, w);
    if a != [] { StandingIsOld(words, file, size, w, a[0]); }
    if r != [] { StandingIsOld(words, file, size, w, r[0]); }
  }

  /** A window that starts behind a mark's stamp: the newest mark is then read exactly
      when it stands behind that half, wherever else it was kept. */
  lemma UnstampedHalfDecides(words: Words, file: Bytes, size: nat, w: Writer, n: Mark)
    requires WholeLines(file, size, w)
    requires var all := MarksIn(words, Uncut(file, size, w));
             AllStamped(all) && StampsDecide(all) && Newest(all) == Some(n)
    requires FirstHalf(file, size) != []
    requires words.IsMark(SecondHalf(file, size)) && words.uptime(SecondHalf(file, size)).None?
    ensures Newest(MarksIn(words, Trimmed(file, size, w))) == Some(n) <==> StandsBehind(words, file, size, w, n)
  {
    CutKeepsTheNewestMark(words, file, size, w, n);
    var halves, q := Halves(file, size), SecondHalf(file, size);
    var front := halves[..|halves| - 1];
    assert halves == front + [q];
    MarksJoin(words, front, [q]);
    OneLineMark(words, q);
    LastStrayDecides(Marks(words, front), words.MarkOf(q), Marks(words, halves), n,
        StandsAhead(words, file, size, w, n));
  }

  lemma LastStrayDecides(front: seq<Mark>, y: Mark, x: seq<Mark>, n: Mark, before: bool)
    requires x == front + [y] && y.at.None? && n.at.Some?
    ensures NotOver(x, n) && !Carried(before, x, n)
  {}

  // ---------- the imperative form ----------

  /** A log file, changed in place by the runner and by the VMM. */
  class LogFile {
    var bytes: Bytes

    constructor (initial: Bytes)
      ensures bytes == initial
    {
      bytes := initial;
    }

    method Append(more: Bytes)
      modifies this
      ensures bytes == old(bytes) + more
    {
      bytes := bytes + more;
    }

    method Empty()
      modifies this
      ensures bytes == []
    {
      bytes := [];
    }
  }

  lemma {:induction false} TotalSnoc(lines: seq<Bytes>, line: Bytes)
    ensures Total(lines + [line]) == Total(lines) + |line| + 1
  {
    if lines == [] {
      assert [line][1..] == [] && lines + [line] == [line];
    } else {
      assert (lines + [line])[1..] == lines[1..] + [line];
      TotalSnoc(lines[1..], line);
    }
  }

  lemma {:induction false} FitSnoc(lines: seq<Bytes>, line: Bytes)
    ensures Fit(Fit(lines) + [line]) == Fit(lines + [line])
  {
    if Total(lines) > TAIL_BYTES * 2 {
      FitSnoc(lines[1..], line);
      TotalSnoc(lines, line);
      assert (lines + [line])[1..] == lines[1..] + [line];
    }
  }

  /** The deque of the kernel's last lines, as the cut fills it. */
  method CollectKernel(lines: seq<Bytes>) returns (kernel: seq<Bytes>)
    ensures kernel == Fit(KernelLines(lines))
  {
    kernel := [];
    var kept := 0;
    for i := 0 to |lines|
      invariant kernel == Fit(KernelLines(lines[..i])) && kept == Total(kernel)
    {
      assert lines[..i + 1][..i] == lines[..i];
      ghost var before := KernelLines(lines[..i]);
      assert before + [] == before;
      if Contains(lines[i], KernelTarget()) {
        FitSnoc(before, lines[i]);
        TotalSnoc(kernel, lines[i]);
        kernel := kernel + [lines[i]];
        kept := kept + |lines[i]| + 1;
        while kept > TAIL_BYTES * 2
          invariant Fit(kernel) == Fit(before + [lines[i]]) && kept == Total(kernel)
          decreases |kernel|
        {
          kept := kept - (|kernel[0]| + 1);
          kernel := kernel[1..];
        }
      }
    }
    assert lines[..|lines|] == lines;
  }

  // Empties the file of what was read, pass after pass.
  method Collect(log: LogFile, size: nat, w: Writer) returns (landed: Bytes)
    modifies log
    ensures (log.bytes, landed) == Passes(w, 0, Drop(old(log.bytes), size), [])
  {
    landed := [];
    var from, k := size, 0;
    ghost var goal := Passes(w, 0, Drop(log.bytes, size), []);
    while k < TRIM_READS
      invariant k <= TRIM_READS
      invariant k < TRIM_READS ==> goal == Passes(w, k, Drop(log.bytes, from), landed)
      invariant k == TRIM_READS ==> goal == (log.bytes, landed)
    {
      var batch := Drop(log.bytes, from);
      log.Append(w.unread(k));
      log.Empty();
      from := 0;
      log.Append(w.during(k));
      assert [] + w.during(k) == w.during(k) && Drop(log.bytes, 0) == log.bytes;
      if batch == [] {
        assert landed + batch == landed;
        return;
      }
      landed := landed + batch;
      k := k + 1;
    }
  }

  /** trim_with, with the VMM writing what `w` says at each point it can. */
  method TrimWith(log: LogFile, size: nat, w: Writer)
    modifies log
    ensures log.bytes == Trimmed(old(log.bytes), size, w)
  {
    ghost var file := log.bytes;
    var kernel := CollectKernel(Split(Head(log.bytes, size)));
    var kept := Flatten(kernel) + Tail(log.bytes, size);
    var landed := Collect(log, size, w);
    log.Append(w.last);
    log.Append(kept);
    log.Append(w.between);
    log.Append(landed);
  }
}
