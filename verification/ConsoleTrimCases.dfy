/**
 The three ways a cut changes what the runner reads of the guest's room: a window that
 starts in the middle of a mark, a newest mark that is too far back, and one that lands
 between a read and the emptying after it. Each comes as a family of logs and as one log
 in full.
 */
module ConsoleTrimCases {
  import opened Lines
  import opened RoomMarks
  import opened Wrappers
  import opened ConsoleTrim

  // A VMM that writes before the first emptying, where it is lost, and before the kept
  // bytes are put back.
  function Writes(lost: Bytes, last: Bytes): Writer {
    Writer(k => if k == 0 then lost else [], _ => [], last, [])
  }

  lemma OnlyLast(file: Bytes, w: Writer)
    requires w.during(0) == [] && w.between == []
    ensures Early(file, |file|, w) == [] && Late(file, |file|, w) == w.last && PassCount(w, 0, Drop(file, |file|)) == 1
  {
    assert Drop(file, |file|) == [];
    assert PassCount(w, 0, []) == 1;
    assert During(w, 0, 0) == [];
  }

  lemma QuietPasses(file: Bytes, w: Writer)
    requires w.during(0) == [] && w.between == []
    ensures Trimmed(file, |file|, w) == w.last + Kept(file, |file|)
    ensures Uncut(file, |file|, w) == file + w.unread(0) + w.last
  {
    OnlyLast(file, w);
    CutKeepsEveryWrite(file, |file|, w);
    assert Take(file, |file|) == file && Drop(file, |file|) == [];
    assert Landed(w, 0) == [] && Landed(w, 1) == w.unread(0);
  }

  lemma WholeFile(file: Bytes, lost: Bytes, last: Bytes)
    requires Whole(file) && Whole(lost) && Whole(last)
    ensures WholeLines(file, |file|, Writes(lost, last))
  {
    assert Take(file, |file|) == file && Drop(file, |file|) == [];
  }

  // A log with a head of its own and a full window.
  lemma CutOfTwo(head: Bytes, tail: Bytes)
    requires |tail| == TAIL_BYTES * 16 && head != []
    ensures var file := head + tail;
            Head(file, |file|) == head && Tail(file, |file|) == tail
            && Kept(file, |file|) == Flatten(Fit(KernelLines(Split(head)))) + tail
  {
    var file := head + tail;
    assert Window(|file|) == TAIL_BYTES * 16;
    assert Take(file, |head|) == head && Drop(file, |head|) == tail && Take(tail, TAIL_BYTES * 16) == tail;
  }

  lemma EndsWhole(line: Bytes, filler: Bytes)
    requires Whole(filler)
    ensures Whole(line + [NEWLINE] + filler)
  {}

  lemma NewestOfTwo(m: Mark, n: Mark)
    ensures Newest([m, n]) == Some(if Supersedes(n, Some(m)) then n else m)
  {
    assert [m, n][..1] == [m] && [m][..0] == [];
    assert Newest([]) == None;
    assert Newest([m]) == Some(m);
  }

  // ---------- a mark cut in two ----------

  // The window starts between `a` and `q`, and before a filler without marks.
  function SplitLog(a: Bytes, q: Bytes, filler: Bytes): Bytes {
    a + (q + [NEWLINE] + filler)
  }

  lemma HalvesOfSplitLog(a: Bytes, q: Bytes, filler: Bytes, file: Bytes)
    requires file == SplitLog(a, q, filler) && a != [] && NEWLINE !in a && NEWLINE !in q
    requires Whole(filler) && |q| + 1 + |filler| == TAIL_BYTES * 16
    ensures FirstHalf(file, |file|) == a && SecondHalf(file, |file|) == q && InWindow(file, |file|) == filler
  {
    var tail := q + [NEWLINE] + filler;
    CutOfTwo(a, tail);
    WholeEndIsUnique(a, 0);
    BreakOfLine(q);
    FirstBreakOfJoin(q + [NEWLINE], filler);
    assert tail[..|q|] == q && tail[|q| + 1..] == filler;
  }

  /** The window starts between the stamp and the word of an old mark, and the guest has
      room again before the kept bytes are put back. The half without a stamp stands
      behind the newer mark and is read instead of it, whether or not the other half is
      kept as a line of its own. */
  lemma HalfAMarkIsReadAsNewest(words: Words, a: Bytes, q: Bytes, filler: Bytes, room: Bytes, was: Mark, newer: Mark)
    requires a != [] && NEWLINE !in a && NEWLINE !in q && NEWLINE !in room
    requires words.IsMark(a + q) && words.MarkOf(a + q) == was
    requires words.IsMark(q) && words.MarkOf(q) == Mark(None, was.full)
    requires words.IsMark(room) && words.MarkOf(room) == newer && newer.full != was.full
    requires was.at.Some? && newer.at.Some? && was.at.value < newer.at.value
    requires Whole(filler) && MarksIn(words, filler) == [] && |q| + 1 + |filler| == TAIL_BYTES * 16
    ensures var file, w := SplitLog(a, q, filler), Writes([], room + [NEWLINE]);
            && WholeLines(file, |file|, w)
            && MarksIn(words, Uncut(file, |file|, w)) == [was, newer]
            && Newest([was, newer]) == Some(newer)
            && newer in MarksIn(words, Trimmed(file, |file|, w))
            && RoomFull(words, Trimmed(file, |file|, w)) == Some(was.full)
  {
    var file, w := SplitLog(a, q, filler), Writes([], room + [NEWLINE]);
    LineOfHalves(a, q, filler);
    EndsWhole(a + q, filler);
    WholeFile(file, [], room + [NEWLINE]);
    QuietPasses(file, w);
    assert file + [] == file;
    HalfMarks(words, a, q, filler, room);
    NewestOfTwo(was, newer);
    HalvesOfSplitLog(a, q, filler, file);
    HalfStands(words, file, w, room);
  }

  // The second half, without a stamp, is the last mark of the cut file.
  lemma HalfStands(words: Words, file: Bytes, w: Writer, room: Bytes)
    requires WholeLines(file, |file|, w) && w.during(0) == [] && w.between == [] && w.last == room + [NEWLINE]
    requires FirstHalf(file, |file|) != [] && MarksIn(words, InWindow(file, |file|)) == []
    requires words.IsMark(SecondHalf(file, |file|)) && words.MarkOf(SecondHalf(file, |file|)).at.None?
    requires NEWLINE !in room && words.IsMark(room)
    ensures words.MarkOf(room) in MarksIn(words, Trimmed(file, |file|, w))
    ensures Newest(MarksIn(words, Trimmed(file, |file|, w))) == Some(words.MarkOf(SecondHalf(file, |file|)))
  {
    var front := HalvesEnd(words, file, |file|);
    LateLineStandsAhead(words, file, w, room);
    forall m ensures !StandsBehind(words, file, |file|, w, m) { NothingBehind(words, file, w, m); }
    LastHalfIsRead(words, file, |file|, w, front, words.MarkOf(SecondHalf(file, |file|)), words.MarkOf(room));
  }

  lemma LateLineStandsAhead(words: Words, file: Bytes, w: Writer, room: Bytes)
    requires w.during(0) == [] && w.between == [] && w.last == room + [NEWLINE] && NEWLINE !in room
             && words.IsMark(room)
    ensures StandsAhead(words, file, |file|, w, words.MarkOf(room))
  {
    OnlyLast(file, w);
    OneLine(room);
    OneLineMark(words, room);
  }

  lemma NothingBehind(words: Words, file: Bytes, w: Writer, m: Mark)
    requires w.during(0) == [] && w.between == [] && MarksIn(words, InWindow(file, |file|)) == []
    ensures !StandsBehind(words, file, |file|, w, m)
  {
    OnlyLast(file, w);
  }

  lemma LastHalfIsRead(words: Words, file: Bytes, size: nat, w: Writer, front: seq<Mark>, y: Mark, m: Mark)
    requires WholeLines(file, size, w) && Marks(words, Halves(file, size)) == front + [y] && y.at.None?
    requires StandsAhead(words, file, size, w, m) && forall n :: !StandsBehind(words, file, size, w, n)
    ensures m in MarksIn(words, Trimmed(file, size, w)) && Newest(MarksIn(words, Trimmed(file, size, w))) == Some(y)
  {
    var a, r := MarksOfTrimmed(words, file, size, w);
    HasMember(r);
    LastIsRead(a, front, y, r, MarksIn(words, Trimmed(file, size, w)), m);
  }

  lemma HasMember(r: seq<Mark>)
    ensures r != [] ==> exists m :: m in r
  {
    if r != [] { assert r[0] in r; }
  }

  lemma LastIsRead(a: seq<Mark>, front: seq<Mark>, y: Mark, r: seq<Mark>, all: seq<Mark>, m: Mark)
    requires all == a + (front + [y]) + r && r == [] && y.at.None? && m in a
    ensures m in all && Newest(all) == Some(y)
  {
    assert all == (a + front) + [y];
    LastWithoutStamp(a + front, y, all);
  }

  lemma HalvesEnd(words: Words, file: Bytes, size: nat) returns (front: seq<Mark>)
    requires FirstHalf(file, size) != [] && words.IsMark(SecondHalf(file, size))
    ensures Marks(words, Halves(file, size)) == front + [words.MarkOf(SecondHalf(file, size))]
  {
    var halves, q := Halves(file, size), SecondHalf(file, size);
    var lines := halves[..|halves| - 1];
    assert halves == lines + [q];
    MarksJoin(words, lines, [q]);
    OneLineMark(words, q);
    front := Marks(words, lines);
  }

  lemma LastWithoutStamp(front: seq<Mark>, y: Mark, all: seq<Mark>)
    requires all == front + [y] && y.at.None?
    ensures Newest(all) == Some(y)
  {}

  lemma HalfMarks(words: Words, a: Bytes, q: Bytes, filler: Bytes, room: Bytes)
    requires NEWLINE !in a && NEWLINE !in q && NEWLINE !in room && words.IsMark(a + q) && words.IsMark(room)
    requires Whole(filler) && MarksIn(words, filler) == []
    ensures MarksIn(words, SplitLog(a, q, filler) + (room + [NEWLINE])) == [words.MarkOf(a + q), words.MarkOf(room)]
  {
    var file, last := SplitLog(a, q, filler), room + [NEWLINE];
    LineOfHalves(a, q, filler);
    EndsWhole(a + q, filler);
    MarksOfLine(words, a + q, filler);
    OneLineMark(words, a + q);
    OneLineMark(words, room);
    OneLine(room);
    MarksOfJoin(words, file, last);
  }

  // ---------- a mark lost at an emptying ----------

  /** A log that is all window, and a mark that lands after it was read and before it is
      emptied: the cut file is the log as it was. */
  lemma MarkAtAnEmptyingIsLost(words: Words, file: Bytes, line: Bytes)
    requires Whole(file) && |file| <= TAIL_BYTES * 16 && NEWLINE !in line && words.IsMark(line)
    ensures var w := Writes(line + [NEWLINE], []);
            && WholeLines(file, |file|, w)
            && MarksIn(words, Uncut(file, |file|, w)) == MarksIn(words, file) + [words.MarkOf(line)]
            && Trimmed(file, |file|, w) == file
  {
    var w := Writes(line + [NEWLINE], []);
    WholeFile(file, line + [NEWLINE], []);
    QuietPasses(file, w);
    AllWindow(file);
    MarksOfOneLine(words, line);
    MarksOfJoin(words, file, line + [NEWLINE]);
    assert file + (line + [NEWLINE]) + [] == file + (line + [NEWLINE]) && [] + file == file;
  }

  lemma AllWindow(file: Bytes)
    requires |file| <= TAIL_BYTES * 16
    ensures Kept(file, |file|) == file
  {
    assert Head(file, |file|) == [] && Tail(file, |file|) == file;
    assert Split([]) == [] && KernelLines([]) == [] && Fit([]) == [];
    assert Flatten([]) + file == file;
  }

  // ---------- a mark too far back ----------

  /** The newest mark is on a kernel line, and the next kernel line alone is more than
      the cut keeps ahead of the window. */
  lemma MarkTooFarBackIsLost(words: Words, mark: Bytes, big: Bytes, filler: Bytes)
    requires NEWLINE !in mark && NEWLINE !in big && Contains(mark, KernelTarget()) && Contains(big, KernelTarget())
    requires |big| >= TAIL_BYTES * 2 && words.IsMark(mark) && !words.IsMark(big)
    requires Whole(filler) && MarksIn(words, filler) == [] && |filler| == TAIL_BYTES * 16
    ensures var file, w := mark + [NEWLINE] + (big + [NEWLINE]) + filler, Writes([], []);
            && WholeLines(file, |file|, w)
            && MarksIn(words, Uncut(file, |file|, w)) == [words.MarkOf(mark)]
            && MarksIn(words, Trimmed(file, |file|, w)) == []
  {
    var file := mark + [NEWLINE] + (big + [NEWLINE]) + filler;
    WholeFile(file, [], []);
    CutFarBack(mark, big, filler, Writes([], []));
    FarBackMarks(words, mark, big, filler);
  }

  lemma CutFarBack(mark: Bytes, big: Bytes, filler: Bytes, w: Writer)
    requires NEWLINE !in mark && NEWLINE !in big && Contains(mark, KernelTarget()) && Contains(big, KernelTarget())
    requires |big| >= TAIL_BYTES * 2 && |filler| == TAIL_BYTES * 16
    requires w.during(0) == [] && w.between == [] && w.last == [] && w.unread(0) == []
    ensures var file := mark + [NEWLINE] + (big + [NEWLINE]) + filler;
            Trimmed(file, |file|, w) == filler && Uncut(file, |file|, w) == file
  {
    var head := mark + [NEWLINE] + (big + [NEWLINE]);
    var file := head + filler;
    QuietPasses(file, w);
    KeptOfFarBack(mark, big, head, filler);
    assert [] + filler == filler && file + [] + [] == file;
  }

  lemma KeptOfFarBack(mark: Bytes, big: Bytes, head: Bytes, filler: Bytes)
    requires NEWLINE !in mark && NEWLINE !in big && Contains(mark, KernelTarget()) && Contains(big, KernelTarget())
    requires |big| >= TAIL_BYTES * 2 && |filler| == TAIL_BYTES * 16
    requires head == mark + [NEWLINE] + (big + [NEWLINE])
    ensures Kept(head + filler, |head + filler|) == filler
  {
    CutOfTwo(head, filler);
    KernelOfTwo(mark, big);
    NothingFits(mark, big);
    assert Flatten([]) + filler == filler;
  }

  lemma KernelOfTwo(mark: Bytes, big: Bytes)
    requires NEWLINE !in mark && NEWLINE !in big && Contains(mark, KernelTarget()) && Contains(big, KernelTarget())
    ensures KernelLines(Split(mark + [NEWLINE] + (big + [NEWLINE]))) == [mark] + [big]
  {
    OneLine(mark);
    OneLine(big);
    SplitJoins(mark + [NEWLINE], big + [NEWLINE]);
    KernelJoins([mark], [big]);
    KernelOfOne(mark);
    KernelOfOne(big);
  }

  lemma FarBackMarks(words: Words, mark: Bytes, big: Bytes, filler: Bytes)
    requires NEWLINE !in mark && NEWLINE !in big && words.IsMark(mark) && !words.IsMark(big)
    requires MarksIn(words, filler) == []
    ensures MarksIn(words, mark + [NEWLINE] + (big + [NEWLINE]) + filler) == [words.MarkOf(mark)]
  {
    var head := mark + [NEWLINE] + (big + [NEWLINE]);
    MarksOfLine(words, mark, big + [NEWLINE]);
    OneLine(big);
    OneLineMark(words, mark);
    OneLineMark(words, big);
    MarksOfJoin(words, head, filler);
  }

  lemma NothingFits(mark: Bytes, big: Bytes)
    requires |big| >= TAIL_BYTES * 2
    ensures Fit([mark] + [big]) == []
  {
    var both := [mark] + [big];
    assert both[1..] == [big] && [big][1..] == [];
    assert Total([big]) == |big| + 1;
    assert Fit([]) == [];
    assert Fit([big]) == [];
  }

  // A log of one mark, and a newer one that is lost.
  lemma LostLine(words: Words, line: Bytes, room: Bytes, file: Bytes, w: Writer, was: Mark, newer: Mark)
    requires NEWLINE !in line && NEWLINE !in room && words.IsMark(line) && words.IsMark(room)
    requires words.MarkOf(line) == was && words.MarkOf(room) == newer && |line| < TAIL_BYTES * 16
    requires was.at.Some? && newer.at.Some? && was.at.value < newer.at.value
    requires file == line + [NEWLINE] && w == Writes(room + [NEWLINE], [])
    ensures WholeLines(file, |file|, w)
    ensures var all := MarksIn(words, Uncut(file, |file|, w)); AllStamped(all) && StampsDecide(all)
    ensures RoomFull(words, Uncut(file, |file|, w)) == Some(newer.full)
    ensures RoomFull(words, Trimmed(file, |file|, w)) == Some(was.full)
  {
    MarksOfOneLine(words, line);
    MarkAtAnEmptyingIsLost(words, file, room);
    NewestOfOne(was);
    NewestOfTwo(was, newer);
    TwoMarks(was, newer, [was] + [newer]);
  }

  // ---------- three logs in full ----------

  // A stamp of one digit in brackets, behind the 17 bytes of the kernel's target.
  function Stamp(line: Bytes): Option<real> {
    if |line| >= 20 && line[17] == 91 && line[19] == 93 then Some(line[18] as real - 48.0) else None
  }

  // Short words for the three marks.
  const WORDS := Words([1], [2], [3], Stamp)

  function Zeros(n: nat): Bytes {
    seq(n, _ => 0)
  }

  lemma HasByte(line: Bytes, b: Byte)
    ensures Contains(line, [b]) <==> b in line
  {
    forall i | 0 <= i < |line| ensures StandsAt(line, [b], i) <==> line[i] == b {
      assert line[i..i + 1] == [line[i]];
    }
    if Contains(line, [b]) {
      var i :| 0 <= i <= |line| && StandsAt(line, [b], i);
      assert line[i] == b;
    }
    if b in line {
      var i :| 0 <= i < |line| && line[i] == b;
      assert StandsAt(line, [b], i);
    }
  }

  lemma WordsAreBytes(line: Bytes)
    ensures WORDS.IsMark(line) <==> 1 in line || 2 in line || 3 in line
    ensures WORDS.MarkOf(line) == Mark(Stamp(line), 1 in line)
  {
    HasByte(line, 1);
    HasByte(line, 2);
    HasByte(line, 3);
  }

  lemma FillerHasNoMark(n: nat)
    ensures var filler := Zeros(n) + [NEWLINE]; Whole(filler) && MarksIn(WORDS, filler) == []
  {
    WordsAreBytes(Zeros(n));
    OneLine(Zeros(n));
    OneLineMark(WORDS, Zeros(n));
  }

  predicate Printable(t: Bytes) {
    |t| == 17 && forall i :: 0 <= i < |t| ==> t[i] >= 32
  }

  lemma AsciiIsPrintable(s: string)
    requires |s| == 17 && forall c :: c in s ==> c as int % 256 >= 32
    ensures Printable(Ascii(s))
  {
    forall i | 0 <= i < 17 ensures Ascii(s)[i] >= 32 { assert s[i] in s; }
  }

  lemma TargetIsPrintable()
    ensures Printable(KernelTarget())
  {
    AsciiIsPrintable(" init_or_kernel] ");
  }

  lemma HasItself(front: Bytes, word: Bytes, rest: Bytes)
    ensures Contains(front + word + rest, word)
  {
    var line, i := front + word + rest, |front|;
    assert line[i..i + |word|] == word;
    assert StandsAt(line, word, i);
  }

  // The front of a kernel line, up to its stamp, and the line of a mark.
  function Front(t: Bytes, digit: Byte): Bytes {
    t + [91, digit, 93]
  }

  function MarkLine(t: Bytes, digit: Byte, word: Byte): Bytes {
    Front(t, digit) + [word]
  }

  lemma FrontIsKernels(t: Bytes, digit: Byte, word: Byte)
    requires Printable(t) && digit >= 48 && 1 <= word <= 3
    ensures NEWLINE !in Front(t, digit) && NEWLINE !in MarkLine(t, digit, word)
    ensures Contains(Front(t, digit), t) && Contains(MarkLine(t, digit, word), t)
  {
    var front, line := Front(t, digit), MarkLine(t, digit, word);
    HasItself([], t, [91, digit, 93]);
    HasItself([], t, [91, digit, 93] + [word]);
    assert [] + t + [91, digit, 93] == front && [] + t + ([91, digit, 93] + [word]) == line;
    assert forall i :: 0 <= i < |front| ==> front[i] >= 32;
  }

  lemma MarkOfLine(t: Bytes, digit: Byte, word: Byte)
    requires Printable(t) && digit >= 48 && 1 <= word <= 3
    ensures WORDS.IsMark(MarkLine(t, digit, word))
    ensures WORDS.MarkOf(MarkLine(t, digit, word)) == Mark(Some(digit as real - 48.0), word == 1)
  {
    var line := MarkLine(t, digit, word);
    WordsAreBytes(line);
    assert line[17] == 91 && line[18] == digit && line[19] == 93 && line[20] == word;
    assert forall i :: 0 <= i < 20 ==> line[i] >= 32;
  }

  lemma TwoMarks(was: Mark, newer: Mark, all: seq<Mark>)
    requires all == [was, newer] && was.at.Some? && newer.at.Some? && was.at != newer.at
    ensures AllStamped(all) && StampsDecide(all)
  {}

  /** A guest that was full at second 1 and has room at second 2 reads as full after a
      cut whose window starts right behind the first mark's stamp. */
  lemma GuestWithRoomReadsFull(t: Bytes, filler: Bytes, file: Bytes, w: Writer)
    requires t == KernelTarget() && filler == Zeros(TAIL_BYTES * 16 - 3) + [NEWLINE]
    requires file == SplitLog(Front(t, 49), [1], filler) && w == Writes([], MarkLine(t, 50, 3) + [NEWLINE])
    ensures WholeLines(file, |file|, w)
    ensures var all := MarksIn(WORDS, Uncut(file, |file|, w)); AllStamped(all) && StampsDecide(all)
    ensures RoomFull(WORDS, Uncut(file, |file|, w)) == Some(false)
    ensures RoomFull(WORDS, Trimmed(file, |file|, w)) == Some(true)
  {
    var was, newer := Mark(Some(1.0), true), Mark(Some(2.0), false);
    TargetIsPrintable();
    FrontIsKernels(t, 49, 1);
    FrontIsKernels(t, 50, 3);
    MarkOfLine(t, 49, 1);
    MarkOfLine(t, 50, 3);
    BareWord([1]);
    FillerHasNoMark(TAIL_BYTES * 16 - 3);
    HalfAMarkIsReadAsNewest(WORDS, Front(t, 49), [1], filler, MarkLine(t, 50, 3), was, newer);
    TwoMarks(was, newer, MarksIn(WORDS, Uncut(file, |file|, w)));
  }

  lemma MarksOfOneLine(words: Words, line: Bytes)
    requires NEWLINE !in line && words.IsMark(line)
    ensures MarksIn(words, line + [NEWLINE]) == [words.MarkOf(line)] && Whole(line + [NEWLINE])
  {
    OneLine(line);
    OneLineMark(words, line);
  }

  lemma BareWord(q: Bytes)
    requires q == [1]
    ensures NEWLINE !in q && WORDS.IsMark(q) && WORDS.MarkOf(q) == Mark(None, true)
  {
    WordsAreBytes(q);
    assert q[0] == 1;
  }

  /** A guest that was full at second 1 and gets room at second 2, in a line that lands
      while the log is emptied, reads as full. */
  lemma LostRoomReadsFull(t: Bytes, file: Bytes, w: Writer)
    requires t == KernelTarget() && file == MarkLine(t, 49, 1) + [NEWLINE]
    requires w == Writes(MarkLine(t, 50, 3) + [NEWLINE], [])
    ensures WholeLines(file, |file|, w)
    ensures var all := MarksIn(WORDS, Uncut(file, |file|, w)); AllStamped(all) && StampsDecide(all)
    ensures RoomFull(WORDS, Uncut(file, |file|, w)) == Some(false)
    ensures RoomFull(WORDS, Trimmed(file, |file|, w)) == Some(true)
  {
    var was, newer := Mark(Some(1.0), true), Mark(Some(2.0), false);
    TargetIsPrintable();
    FrontIsKernels(t, 49, 1);
    FrontIsKernels(t, 50, 3);
    MarkOfLine(t, 49, 1);
    MarkOfLine(t, 50, 3);
    LostLine(WORDS, MarkLine(t, 49, 1), MarkLine(t, 50, 3), file, w, was, newer);
  }

  // A log with a mark of second 1 and more than 8192 bytes of the kernel's behind it.
  function FarBig(t: Bytes): Bytes {
    t + Zeros(TAIL_BYTES * 2)
  }

  function FarLog(t: Bytes): Bytes {
    MarkLine(t, 49, 1) + [NEWLINE] + (FarBig(t) + [NEWLINE]) + (Zeros(TAIL_BYTES * 16 - 1) + [NEWLINE])
  }

  lemma BigIsNoMark(t: Bytes)
    requires Printable(t)
    ensures NEWLINE !in FarBig(t) && !WORDS.IsMark(FarBig(t))
  {
    var big := FarBig(t);
    assert forall i :: 0 <= i < |big| ==> big[i] >= 32 || big[i] == 0;
    WordsAreBytes(big);
  }

  lemma BigIsKernels(t: Bytes)
    ensures Contains(FarBig(t), t)
  {
    HasItself([], t, Zeros(TAIL_BYTES * 2));
    assert [] + t + Zeros(TAIL_BYTES * 2) == FarBig(t);
  }

  lemma NewestOfOne(m: Mark)
    ensures Newest([m]) == Some(m)
  {
    assert [m][..0] == [];
  }

  /** A full guest of which nothing is read after the cut. */
  lemma FullGuestReadsAsNothing(file: Bytes, w: Writer)
    requires file == FarLog(KernelTarget()) && w == Writes([], [])
    ensures WholeLines(file, |file|, w)
    ensures RoomFull(WORDS, Uncut(file, |file|, w)) == Some(true)
    ensures RoomFull(WORDS, Trimmed(file, |file|, w)) == None
  {
    var t := KernelTarget();
    TargetIsPrintable();
    FrontIsKernels(t, 49, 1);
    MarkOfLine(t, 49, 1);
    BigIsNoMark(t);
    BigIsKernels(t);
    FillerHasNoMark(TAIL_BYTES * 16 - 1);
    MarkTooFarBackIsLost(WORDS, MarkLine(t, 49, 1), FarBig(t), Zeros(TAIL_BYTES * 16 - 1) + [NEWLINE]);
    NewestOfOne(WORDS.MarkOf(MarkLine(t, 49, 1)));
  }
}
