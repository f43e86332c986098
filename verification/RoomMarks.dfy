/**
 How the runner reads a guest's room from the marks on its kernel log
 (room_full in packages/vm-runner/src/console.rs). A mark counts by the time the
 kernel stamped on it, so that a cut of the log may leave marks out of order.
 */
module RoomMarks {
  import opened Lines
  import opened Wrappers

  /** The three marks a guest prints, and how a line's kernel stamp is read. */
  datatype Words = Words(full: Bytes, nearlyFull: Bytes, room: Bytes, uptime: Bytes -> Option<real>) {
    predicate IsMark(line: Bytes) {
      Contains(line, full) || Contains(line, nearlyFull) || Contains(line, room)
    }

    function MarkOf(line: Bytes): Mark {
      Mark(uptime(line), Contains(line, full))
    }
  }

  datatype Mark = Mark(at: Option<real>, full: bool)

  function Marks(w: Words, lines: seq<Bytes>): seq<Mark> {
    if lines == [] then [] else
      var line := lines[|lines| - 1];
      Marks(w, lines[..|lines| - 1]) + (if w.IsMark(line) then [w.MarkOf(line)] else [])
  }

  function MarksIn(w: Words, text: Bytes): seq<Mark> {
    Marks(w, Split(text))
  }

  // Whether `m` takes the place of the newest mark so far.
  predicate Supersedes(m: Mark, last: Option<Mark>) {
    last.Some? && m.at.Some? && last.value.at.Some? ==> m.at.value >= last.value.at.value
  }

  function Newest(marks: seq<Mark>): Option<Mark> {
    if marks == [] then None else
      var last := Newest(marks[..|marks| - 1]);
      var m := marks[|marks| - 1];
      if Supersedes(m, last) then Some(m) else last
  }

  function Fullness(m: Option<Mark>): Option<bool> {
    if m.None? then None else Some(m.value.full)
  }

  /** What room_full answers for a text. */
  function RoomFull(w: Words, text: Bytes): Option<bool> {
    Fullness(Newest(MarksIn(w, text)))
  }

  /** One line alone: full if it has the full mark, not full if it has one of the others
      only, and nothing if it has none. */
  lemma OneLineSays(w: Words, line: Bytes)
    requires NEWLINE !in line
    ensures RoomFull(w, line + [NEWLINE]) ==
            if Contains(line, w.full) then Some(true)
            else if Contains(line, w.nearlyFull) || Contains(line, w.room) then Some(false)
            else None
  {
    OneLine(line);
    var m, lines, marks: seq<Mark> := w.MarkOf(line), Split([]), [];
    assert [line][..0] == lines && Marks(w, lines) == marks && Newest(marks).None?;
    assert marks + [m] == [m] && [m][..0] == marks && marks + [] == marks;
  }

  // ---------- which mark is the newest ----------

  ghost predicate StampedThrough(marks: seq<Mark>, from: int, to: int) {
    forall m :: from <= m <= to && 0 <= m < |marks| ==> marks[m].at.Some?
  }

  /** Mark `i` stands: every mark after it is stamped earlier, and it is stamped no
      earlier than any mark before it back to the last one without a stamp. */
  ghost predicate Stands(marks: seq<Mark>, i: int) {
    && 0 <= i < |marks|
    && (forall j :: i < j < |marks| ==>
        marks[i].at.Some? && marks[j].at.Some? && marks[j].at.value < marks[i].at.value)
    && (forall j :: 0 <= j < i && StampedThrough(marks, j, i) ==> marks[j].at.value <= marks[i].at.value)
  }

  lemma StandsIsUnique(marks: seq<Mark>, i: int, k: int)
    requires Stands(marks, i) && Stands(marks, k)
    ensures i == k
  {
    if i < k { StandingExcludesLater(marks, i, k); }
    if k < i { StandingExcludesLater(marks, k, i); }
  }

  lemma StandingExcludesLater(marks: seq<Mark>, i: int, k: int)
    requires Stands(marks, i) && i < k < |marks|
    ensures !Stands(marks, k)
  {
    assert marks[k].at.value < marks[i].at.value;
    assert StampedThrough(marks, i, k);
  }

  lemma LastStands(marks: seq<Mark>, i: int)
    requires |marks| > 0 && Stands(marks[..|marks| - 1], i)
    requires Supersedes(marks[|marks| - 1], Some(marks[i]))
    ensures Stands(marks, |marks| - 1)
  {
    var n := |marks| - 1;
    var front := marks[..n];
    forall j | 0 <= j < n && StampedThrough(marks, j, n) ensures marks[j].at.value <= marks[n].at.value {
      assert marks[j].at.Some?;
      if j > i {
        assert front[j].at.value < front[i].at.value;
      } else if j < i {
        assert StampedThrough(front, j, i);
      }
    }
  }

  lemma FrontStands(marks: seq<Mark>, i: int)
    requires |marks| > 0 && Stands(marks[..|marks| - 1], i)
    requires !Supersedes(marks[|marks| - 1], Some(marks[i]))
    ensures Stands(marks, i)
  {
    var front := marks[..|marks| - 1];
    forall j | i < j < |marks| ensures marks[i].at.Some? && marks[j].at.Some? && marks[j].at.value < marks[i].at.value {
      assert j < |front| ==> front[j] == marks[j];
    }
    forall j | 0 <= j < i && StampedThrough(marks, j, i) ensures marks[j].at.value <= marks[i].at.value {
      assert StampedThrough(front, j, i);
    }
  }

  lemma {:induction false} NewestStands(marks: seq<Mark>) returns (i: nat)
    requires marks != []
    ensures Stands(marks, i) && Newest(marks) == Some(marks[i])
  {
    var n := |marks| - 1;
    if n == 0 {
      i := 0;
    } else {
      i := NewestStands(marks[..n]);
      if Supersedes(marks[n], Some(marks[i])) {
        LastStands(marks, i);
        i := n;
      } else {
        FrontStands(marks, i);
      }
    }
  }

  /** The mark read is the one that stands, for every sequence of marks, stamped or
      not: there is one as soon as there is a mark at all, and never two. */
  lemma NewestIsTheOneStanding(marks: seq<Mark>, i: int)
    ensures Newest(marks).None? <==> marks == []
    ensures marks != [] ==> exists k :: Stands(marks, k)
    ensures Stands(marks, i) ==> Newest(marks) == Some(marks[i])
  {
    if marks != [] {
      var k := NewestStands(marks);
      if Stands(marks, i) { StandsIsUnique(marks, i, k); }
    }
  }

  // ---------- stamped marks may stand in any order ----------

  ghost predicate AllStamped(marks: seq<Mark>) {
    forall i :: 0 <= i < |marks| ==> marks[i].at.Some?
  }

  /** The guest makes one mark at a time: marks of one stamp say the same. */
  ghost predicate StampsDecide(marks: seq<Mark>) {
    forall i, j :: 0 <= i < |marks| && 0 <= j < |marks| && marks[i].at == marks[j].at ==> marks[i].full == marks[j].full
  }

  ghost predicate Latest(marks: seq<Mark>, m: Mark) {
    && m in marks && m.at.Some?
    && forall i :: 0 <= i < |marks| && marks[i].at.Some? ==> marks[i].at.value <= m.at.value
  }

  lemma NewestIsLatest(marks: seq<Mark>)
    requires AllStamped(marks) && marks != []
    ensures Newest(marks).Some? && Latest(marks, Newest(marks).value)
  {
    var i := NewestStands(marks);
    forall j | 0 <= j < |marks| ensures marks[j].at.value <= marks[i].at.value {
      if j < i { assert StampedThrough(marks, j, i); }
    }
  }

  lemma LatestDecides(marks: seq<Mark>, m: Mark)
    requires AllStamped(marks) && StampsDecide(marks) && Latest(marks, m)
    ensures Newest(marks) == Some(m)
  {
    NewestIsLatest(marks);
    var n := Newest(marks).value;
    var i :| 0 <= i < |marks| && marks[i] == m;
    var j :| 0 <= j < |marks| && marks[j] == n;
    assert marks[i].at == marks[j].at;
  }

  /** When every mark is stamped, the one read depends on which marks there are and
      not on where in the file they stand. */
  lemma OrderDoesNotMatter(a: seq<Mark>, b: seq<Mark>)
    requires AllStamped(a) && StampsDecide(a)
    requires forall m :: m in a <==> m in b
    ensures Newest(a) == Newest(b)
  {
    forall i | 0 <= i < |b| ensures b[i] in a { assert b[i] in b; }
    if a != [] {
      NewestIsLatest(a);
      var m := Newest(a).value;
      LatestDecides(a, m);
      assert AllStamped(b);
      assert m in b;
      SameMarks(a, b);
      LatestDecides(b, m);
    }
  }

  lemma SameMarks(a: seq<Mark>, b: seq<Mark>)
    requires AllStamped(a) && StampsDecide(a) && forall m :: m in b ==> m in a
    ensures AllStamped(b) && StampsDecide(b)
  {
    forall i | 0 <= i < |b| ensures b[i] in a { assert b[i] in b; }
  }

  // ---------- marks out of place ----------

  // No mark that would keep `n` out is held after the marks `x`.
  ghost predicate NotOver(x: seq<Mark>, n: Mark)
    requires n.at.Some?
  {
    if x == [] then true else
      var y, front := x[|x| - 1], x[..|x| - 1];
      y.at.None? || (y.at.value <= n.at.value && NotOver(front, n))
  }

  // `n` is held after the marks `x`; `before` says whether it was held ahead of them.
  ghost predicate Carried(before: bool, x: seq<Mark>, n: Mark)
    requires n.at.Some?
  {
    if x == [] then before else
      var y, front := x[|x| - 1], x[..|x| - 1];
      || (y == n && NotOver(front, n))
      || (y.at.Some? && y.at.value < n.at.value && Carried(before, front, n))
  }

  /** No mark of `marks` is newer than `n`, and none of its stamp says otherwise. */
  ghost predicate AtMost(marks: seq<Mark>, n: Mark) {
    forall m :: m in marks ==> m.at.Some? && n.at.Some? && m.at.value <= n.at.value && (m.at == n.at ==> m == n)
  }

  ghost predicate Over(e: Option<Mark>, n: Mark) {
    e.Some? && e.value.at.Some? && n.at.Some? && e.value.at.value > n.at.value
  }

  lemma {:induction false} HeldAfter(a: seq<Mark>, x: seq<Mark>, n: Mark)
    requires n.at.Some? && AtMost(a, n)
    ensures Newest(a + x) == Some(n) <==> Carried(n in a, x, n)
    ensures NotOver(x, n) <==> !Over(Newest(a + x), n)
  {
    if x == [] {
      assert a + x == a;
      HeldAtFirst(a, n);
    } else {
      HeldAfter(a, x[..|x| - 1], n);
      assert (a + x)[..|a + x| - 1] == a + x[..|x| - 1];
    }
  }

  lemma HeldAtFirst(a: seq<Mark>, n: Mark)
    requires n.at.Some? && AtMost(a, n)
    ensures Newest(a) == Some(n) <==> n in a
    ensures !Over(Newest(a), n)
  {
    if a != [] {
      forall i | 0 <= i < |a| ensures a[i].at.Some? { assert a[i] in a; }
      NewestIsLatest(a);
    }
  }

  lemma {:induction false} CarriedOver(before: bool, x: seq<Mark>, r: seq<Mark>, n: Mark)
    requires n.at.Some? && AtMost(r, n)
    ensures NotOver(x + r, n) <==> NotOver(x, n)
    ensures Carried(before, x + r, n) <==> (n in r && NotOver(x, n)) || Carried(before, x, n)
  {
    if r == [] {
      assert x + r == x;
    } else {
      var front, y := r[..|r| - 1], r[|r| - 1];
      CarriedOver(before, x, front, n);
      assert (x + r)[..|x + r| - 1] == x + front;
      assert y in r;
      assert n in r <==> n in front || n == y;
      if Carried(before, x, n) { CarriedIsNotOver(before, x, n); }
    }
  }

  lemma {:induction false} CarriedIsNotOver(before: bool, x: seq<Mark>, n: Mark)
    requires n.at.Some? && Carried(before, x, n)
    ensures NotOver(x, n)
  {
    if x != [] && x[|x| - 1] != n { CarriedIsNotOver(before, x[..|x| - 1], n); }
  }

  /** Between marks none of which is newer than `n` stand others that may be anything.
      `n` is read exactly when it comes after them and they hold nothing newer, or when
      they carry it through. */
  lemma StraysDecide(a: seq<Mark>, x: seq<Mark>, r: seq<Mark>, n: Mark)
    requires n.at.Some? && AtMost(a, n) && AtMost(r, n)
    ensures Newest(a + x + r) == Some(n) <==> (n in r && NotOver(x, n)) || Carried(n in a, x, n)
  {
    JoinIsAssociative(a, x, r);
    HeldAfter(a, x + r, n);
    CarriedOver(n in a, x, r, n);
  }

  // ---------- marks of joined texts ----------

  lemma {:induction false} MarksJoin(w: Words, a: seq<Bytes>, b: seq<Bytes>)
    ensures Marks(w, a + b) == Marks(w, a) + Marks(w, b)
  {
    if b == [] {
      assert a + b == a;
    } else {
      var n := |b| - 1;
      assert (a + b)[..|a + b| - 1] == a + b[..n];
      MarksJoin(w, a, b[..n]);
    }
  }

  lemma MarksOfJoin(w: Words, a: Bytes, b: Bytes)
    requires Whole(a)
    ensures MarksIn(w, a + b) == MarksIn(w, a) + MarksIn(w, b)
  {
    SplitJoins(a, b);
    MarksJoin(w, Split(a), Split(b));
  }

  // ---------- the loop ----------

  /** room_full. */
  method ReadRoomFull(w: Words, text: Bytes) returns (r: Option<bool>)
    ensures r == RoomFull(w, text)
  {
    var lines := Split(text);
    var last: Option<Mark> := None;
    for i := 0 to |lines|
      invariant last == Newest(Marks(w, lines[..i]))
    {
      var line := lines[i];
      ghost var before := Marks(w, lines[..i]);
      assert lines[..i + 1][..i] == lines[..i] && before + [] == before;
      if w.IsMark(line) {
        var m := w.MarkOf(line);
        var later := match last
          case Some(was) => (was.at.Some? && m.at.Some? ==> m.at.value >= was.at.value)
          case None => true;
        assert (before + [m])[..|before|] == before;
        if later { last := Some(m); }
      }
    }
    assert lines[..|lines|] == lines;
    r := if last.Some? then Some(last.value.full) else None;
  }
}
