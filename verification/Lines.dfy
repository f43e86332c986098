/**
 Bytes and lines, as the vm-runner's console code reads them
 (packages/vm-runner/src/console.rs).
 */
module Lines {
  import opened Wrappers

  type Byte = b: int | 0 <= b < 256

  type Bytes = seq<Byte>

  const NEWLINE: Byte := 10

  function Ascii(s: string): (bytes: Bytes)
    ensures |bytes| == |s|
  {
    seq(|s|, i requires 0 <= i < |s| => (s[i] as int) % 256)
  }

  /** Empty, or ending in a newline: what whole lines written one after the other
      add up to. */
  ghost predicate Whole(s: Bytes) {
    s == [] || s[|s| - 1] == NEWLINE
  }

  // The index of the first newline, or the length.
  function FirstBreak(s: Bytes): (i: nat)
    ensures i <= |s|
  {
    if s == [] || s[0] == NEWLINE then 0 else 1 + FirstBreak(s[1..])
  }

  lemma {:induction false} FirstBreakIs(s: Bytes)
    ensures FirstBreak(s) < |s| ==> s[FirstBreak(s)] == NEWLINE
    ensures NEWLINE !in s[..FirstBreak(s)]
  {
    if s != [] && s[0] != NEWLINE {
      FirstBreakIs(s[1..]);
      assert s[..FirstBreak(s)] == [s[0]] + s[1..][..FirstBreak(s[1..])];
    }
  }

  /** The lines of a text, without their newlines; a text that ends in a newline has
      no empty line after it. */
  function Split(s: Bytes): seq<Bytes>
    decreases |s|
  {
    if s == [] then [] else
      var i := FirstBreak(s);
      if i == |s| then [s] else [s[..i]] + Split(s[i + 1..])
  }

  lemma {:induction false} FirstBreakOfJoin(a: Bytes, b: Bytes)
    requires FirstBreak(a) < |a|
    ensures FirstBreak(a + b) == FirstBreak(a)
  {
    if a[0] != NEWLINE {
      assert (a + b)[1..] == a[1..] + b;
      FirstBreakOfJoin(a[1..], b);
    }
  }

  lemma {:induction false} WholeHasBreak(a: Bytes)
    requires Whole(a) && a != []
    ensures FirstBreak(a) < |a| && Whole(a[FirstBreak(a) + 1..])
  {
    if a[0] != NEWLINE {
      WholeHasBreak(a[1..]);
      assert a[FirstBreak(a) + 1..] == a[1..][FirstBreak(a[1..]) + 1..];
    }
  }

  /** Splitting after whole lines splits the two parts on their own. */
  lemma {:induction false} SplitJoins(a: Bytes, b: Bytes)
    requires Whole(a)
    ensures Split(a + b) == Split(a) + Split(b)
    decreases |a|
  {
    if a == [] {
      assert a + b == b;
    } else {
      var line, rest := SplitFirst(a, b);
      SplitJoins(rest, b);
      JoinIsAssociative([line], Split(rest), Split(b));
    }
  }

  lemma SplitFirst(a: Bytes, b: Bytes) returns (line: Bytes, rest: Bytes)
    requires Whole(a) && a != []
    ensures |rest| < |a| && Whole(rest)
    ensures Split(a) == [line] + Split(rest) && Split(a + b) == [line] + Split(rest + b)
  {
    var i := FirstBreak(a);
    WholeHasBreak(a);
    FirstBreakOfJoin(a, b);
    JoinParts(a, b, i);
    line, rest := a[..i], a[i + 1..];
  }

  lemma JoinParts(a: Bytes, b: Bytes, i: nat)
    requires i < |a|
    ensures (a + b)[..i] == a[..i] && (a + b)[i + 1..] == a[i + 1..] + b
  {}

  lemma WholeJoins(a: Bytes, b: Bytes)
    requires Whole(a) && Whole(b)
    ensures Whole(a + b)
  {}

  predicate StandsAt(line: Bytes, needle: Bytes, i: nat) {
    i + |needle| <= |line| && line[i..i + |needle|] == needle
  }

  // Whether `needle` stands anywhere in `line`.
  predicate Contains(line: Bytes, needle: Bytes) {
    exists i :: 0 <= i <= |line| && StandsAt(line, needle, i)
  }

  lemma ContainsInJoin(a: Bytes, b: Bytes, needle: Bytes)
    ensures Contains(a, needle) || Contains(b, needle) ==> Contains(a + b, needle)
  {
    var n := |needle|;
    if Contains(a, needle) {
      var i :| 0 <= i <= |a| && StandsAt(a, needle, i);
      assert (a + b)[i..i + n] == a[i..i + n];
      assert StandsAt(a + b, needle, i);
    }
    if Contains(b, needle) {
      var i :| 0 <= i <= |b| && StandsAt(b, needle, i);
      var j := |a| + i;
      assert (a + b)[j..j + n] == b[i..i + n];
      assert StandsAt(a + b, needle, j);
    }
  }

  lemma {:induction false} BreakOfLine(line: Bytes)
    requires NEWLINE !in line
    ensures FirstBreak(line + [NEWLINE]) == |line|
  {
    if line != [] {
      assert (line + [NEWLINE])[1..] == line[1..] + [NEWLINE];
      BreakOfLine(line[1..]);
    }
  }

  lemma OneLine(line: Bytes)
    requires NEWLINE !in line
    ensures Split(line + [NEWLINE]) == [line]
  {
    var s := line + [NEWLINE];
    BreakOfLine(line);
    assert s[..|line|] == line && s[|line| + 1..] == [];
  }

  // ---------- a text whose last line may still be written ----------

  // The length of the whole lines at the front of a text.
  function WholeEnd(s: Bytes): (n: nat)
    ensures n <= |s|
  {
    if s == [] || s[|s| - 1] == NEWLINE then |s| else WholeEnd(s[..|s| - 1])
  }

  lemma {:induction false} WholeEndIs(s: Bytes)
    ensures Whole(s[..WholeEnd(s)])
    ensures forall i :: WholeEnd(s) <= i < |s| ==> s[i] != NEWLINE
  {
    if s != [] && s[|s| - 1] != NEWLINE {
      var t := s[..|s| - 1];
      WholeEndIs(t);
      assert t[..WholeEnd(t)] == s[..WholeEnd(t)];
    } else {
      assert s[..|s|] == s;
    }
  }

  lemma {:induction false} WholeEndIsUnique(s: Bytes, n: nat)
    requires n <= |s| && Whole(s[..n]) && forall i :: n <= i < |s| ==> s[i] != NEWLINE
    ensures n == WholeEnd(s)
  {
    assert n > 0 ==> s[..n][n - 1] == s[n - 1];
    if s != [] && s[|s| - 1] != NEWLINE {
      assert s[..|s| - 1][..n] == s[..n];
      WholeEndIsUnique(s[..|s| - 1], n);
    }
  }

  lemma WholeEndOfJoin(a: Bytes, b: Bytes)
    requires Whole(a)
    ensures WholeEnd(a + b) == |a| + WholeEnd(b)
  {
    WholeEndIs(b);
    var n := |a| + WholeEnd(b);
    assert (a + b)[..n] == a + b[..WholeEnd(b)];
    WholeEndIsUnique(a + b, n);
  }
}
