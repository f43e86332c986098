/**
 Go durations as the api-server reads them (packages/api-server/src/duration.ts):
 a port of Go's time.ParseDuration with its exact 2^63 bounds.

 The parser is compared with a grammar that does not scan: a sign and a sequence
 of terms, with the exact sum of what they denote. The one floating-point step,
 the value of a fraction, is a parameter: any function from the digits kept, how
 many they are, and the unit, to nanoseconds.
 */
module Duration {
  import opened Wrappers

  /** What the grammar leaves open: the nanoseconds of each unit, 0 for a word that
      is no unit, and the worth of the kept digits of a fraction. */
  datatype Reading = Reading(units: string -> nat, fraction: (nat, nat, nat) -> nat)

  /** Units are words: no digit and no dot is in them. */
  ghost predicate Plain(g: Reading) {
    forall unit :: g.units(unit) > 0 ==> Word(unit)
  }

  ghost predicate Word(unit: string) {
    forall i :: 0 <= i < |unit| ==> unit[i] != '.' && !IsDigit(unit[i])
  }

  function UnitNs(unit: string): nat {
    match unit
    case "ns" => 1
    case "us" => 1_000
    case "\U{b5}s" => 1_000
    case "\U{3bc}s" => 1_000
    case "ms" => 1_000_000
    case "s" => 1_000_000_000
    case "m" => 60_000_000_000
    case "h" => 3_600_000_000_000
    case _ => 0
  }

  const MAX := 0x8000_0000_0000_0000
  const NS_PER_MINUTE := 60_000_000_000

  /** Go's units, with fractions worth whatever `f` says. */
  function Go(f: (nat, nat, nat) -> nat): Reading {
    Reading(UnitNs, f)
  }

  lemma GoIsPlain(f: (nat, nat, nat) -> nat)
    ensures Plain(Go(f))
  {
    forall unit | UnitNs(unit) > 0 ensures Word(unit) {}
  }

  // ---------- numerals ----------

  predicate IsDigit(c: char) {
    '0' <= c <= '9'
  }

  ghost predicate AllDigits(s: string) {
    forall i :: 0 <= i < |s| ==> IsDigit(s[i])
  }

  function DigitValue(c: char): nat {
    if IsDigit(c) then c as nat - '0' as nat else 0
  }

  // The number a run of digits writes, at any length.
  function Value(s: string): nat {
    if s == "" then 0 else Value(s[..|s| - 1]) * 10 + DigitValue(s[|s| - 1])
  }

  // How many digits a text starts with.
  function DigitRun(s: string): (n: nat)
    ensures n <= |s|
  {
    if s == "" || !IsDigit(s[0]) then 0 else 1 + DigitRun(s[1..])
  }

  lemma {:induction false} DigitRunIs(s: string)
    ensures AllDigits(s[..DigitRun(s)])
    ensures DigitRun(s) < |s| ==> !IsDigit(s[DigitRun(s)])
  {
    if s != "" && IsDigit(s[0]) {
      DigitRunIs(s[1..]);
      var n := DigitRun(s[1..]);
      assert s[..n + 1] == [s[0]] + s[1..][..n];
    }
  }

  lemma DigitRunIsUnique(s: string, n: nat)
    requires n <= |s| && AllDigits(s[..n]) && (n < |s| ==> !IsDigit(s[n]))
    ensures n == DigitRun(s)
  {
    DigitRunIs(s);
    var m := DigitRun(s);
    assert forall i :: 0 <= i < n ==> s[..n][i] == s[i];
    assert forall i :: 0 <= i < m ==> s[..m][i] == s[i];
  }

  lemma {:induction false} ValueGrows(s: string, k: nat)
    requires k <= |s|
    ensures Value(s[..k]) <= Value(s)
  {
    if k < |s| {
      var t := s[..|s| - 1];
      ValueGrows(t, k);
      assert t[..k] == s[..k];
    } else {
      assert s[..k] == s;
    }
  }

  lemma ValueSnoc(s: string, k: nat)
    requires k < |s|
    ensures Value(s[..k + 1]) == Value(s[..k]) * 10 + DigitValue(s[k])
  {
    assert s[..k + 1][..k] == s[..k];
  }

  // How many digits of a fraction are kept: the longest front that stays within MAX.
  function Kept(s: string): (k: nat)
    ensures k <= |s| && Value(s[..k]) <= MAX
  {
    if s == "" then 0 else
      var n := |s| - 1;
      var k := Kept(s[..n]);
      assert s[..n][..k] == s[..k] && s[..|s|] == s;
      if k == n && Value(s) <= MAX then |s| else k
  }

  /** Every longer front of the digits passes 2^63. */
  lemma {:induction false} KeptIsLongest(s: string, j: nat)
    requires Kept(s) < j <= |s|
    ensures Value(s[..j]) > MAX
  {
    var n := |s| - 1;
    var t := s[..n];
    if Kept(t) < n {
      if j == |s| {
        KeptIsLongest(t, n);
        assert t[..n] == t && s[..j] == s;
        ValueGrows(s, n);
      } else {
        KeptIsLongest(t, j);
        assert t[..j] == s[..j];
      }
    } else {
      assert j == |s| && s[..j] == s;
    }
  }

  // ---------- terms ----------

  /** A number and its unit. `fraction` is what follows the dot, if there is one. */
  datatype Term = Term(whole: string, fraction: Option<string>, unit: string) {
    function Decimals(): string {
      if fraction.Some? then fraction.value else ""
    }

    predicate Reads(g: Reading) {
      (whole != "" || Decimals() != "") && unit != "" && g.units(unit) > 0
    }

    ghost function Text(): string {
      whole + (DotText(fraction) + unit)
    }

    ghost predicate WellFormed(g: Reading) {
      AllDigits(whole) && AllDigits(Decimals()) && Reads(g)
    }

    // A fraction whose kept digits are all zero adds nothing.
    function Ns(g: Reading): nat {
      var k, unit := Kept(Decimals()), g.units(unit);
      var kept := Value(Decimals()[..k]);
      Value(whole) * unit + (if kept > 0 then g.fraction(kept, k, unit) else 0)
    }
  }

  ghost function DotText(fraction: Option<string>): string {
    if fraction.Some? then "." + fraction.value else ""
  }

  ghost predicate AllWellFormed(g: Reading, terms: seq<Term>) {
    forall i :: 0 <= i < |terms| ==> terms[i].WellFormed(g)
  }

  ghost function Text(terms: seq<Term>): string {
    if terms == [] then "" else terms[0].Text() + Text(terms[1..])
  }

  function TotalNs(g: Reading, terms: seq<Term>): nat {
    if terms == [] then 0 else TotalNs(g, terms[..|terms| - 1]) + terms[|terms| - 1].Ns(g)
  }

  // ---------- the scanner ----------

  function UnitEnd(s: string): (n: nat)
    ensures n <= |s|
  {
    if s == "" || s[0] == '.' || IsDigit(s[0]) then 0 else 1 + UnitEnd(s[1..])
  }

  // The number at the front of a text, and what follows it.
  function ScanNumber(s: string): (string, Option<string>, string) {
    var n := DigitRun(s);
    var s1 := s[n..];
    if s1 != "" && s1[0] == '.' then
      var m := DigitRun(s1[1..]);
      (s[..n], Some(s1[1..][..m]), s1[1..][m..])
    else (s[..n], None, s1)
  }

  // Splits a text after its first term, well formed or not.
  function Scan(s: string): (Term, string) {
    var (whole, fraction, tail) := ScanNumber(s);
    var e := UnitEnd(tail);
    (Term(whole, fraction, tail[..e]), tail[e..])
  }

  // The terms a text consists of, or None if it is not made of terms.
  function Terms(g: Reading, s: string): Option<seq<Term>>
    decreases |s|
  {
    if s == "" then Some([]) else
      var (t, rest) := Scan(s);
      if !t.Reads(g) || |rest| >= |s| then None else Extend([t], Terms(g, rest))
  }

  function Extend(done: seq<Term>, more: Option<seq<Term>>): Option<seq<Term>> {
    if more.None? then None else Some(done + more.value)
  }

  function Unsigned(raw: string): string {
    if raw != "" && (raw[0] == '-' || raw[0] == '+') then raw[1..] else raw
  }

  /** What parseGoDurationNs returns. */
  function Parse(g: Reading, raw: string): Option<int> {
    var neg := raw != "" && raw[0] == '-';
    var s := Unsigned(raw);
    if s == "0" then Some(0)
    else if s == "" then None
    else Signed(neg, Bounded(g, Terms(g, s)))
  }

  // The sum of the terms, unless they are none or pass 2^63.
  function Bounded(g: Reading, terms: Option<seq<Term>>): Option<nat> {
    if terms.None? || TotalNs(g, terms.value) > MAX then None else Some(TotalNs(g, terms.value))
  }

  function Signed(neg: bool, total: Option<nat>): Option<int> {
    if total.None? then None else
      var total: int := total.value;
      if neg then Some(-total) else if total > MAX - 1 then None else Some(total)
  }

  // ---------- the grammar ----------

  /** `raw` is a bare zero, or a sign and one or more terms whose exact sum is `v`
      and fits Go's 64-bit nanoseconds. */
  ghost predicate Denotes(g: Reading, raw: string, v: int) {
    exists sign: string, body: string ::
      && (sign == "" || sign == "+" || sign == "-")
      && raw == sign + body
      && ((body == "0" && v == 0) || DenotesTerms(g, sign == "-", body, v))
  }

  ghost predicate DenotesTerms(g: Reading, neg: bool, body: string, v: int) {
    exists terms :: SumsTo(g, neg, body, v, terms)
  }

  ghost predicate SumsTo(g: Reading, neg: bool, body: string, v: int, terms: seq<Term>) {
    && terms != [] && AllWellFormed(g, terms) && body == Text(terms)
    && -MAX <= v < MAX
    && (var total: int := TotalNs(g, terms); v == if neg then -total else total)
  }

  // ---------- a text has the terms it is written from, and no others ----------

  lemma UnitEndIsUnique(s: string, n: nat)
    requires n <= |s|
    requires forall i :: 0 <= i < n ==> s[i] != '.' && !IsDigit(s[i])
    requires n < |s| ==> s[n] == '.' || IsDigit(s[n])
    ensures n == UnitEnd(s)
  {
    if n > 0 { UnitEndIsUnique(s[1..], n - 1); }
  }

  lemma Joined(a: string, b: string)
    ensures (a + b)[..|a|] == a && (a + b)[|a|..] == b
  {}

  lemma NumberSplits(s: string)
    ensures var (whole, fraction, tail) := ScanNumber(s);
            s == whole + (DotText(fraction) + tail)
  {
    var n := DigitRun(s);
    var s1 := s[n..];
    SplitAt(s, n);
    if s1 != "" && s1[0] == '.' {
      SplitAt(s1[1..], DigitRun(s1[1..]));
      assert s1 == "." + s1[1..];
      JoinIsAssociative(".", ScanNumber(s).1.value, ScanNumber(s).2);
    } else {
      assert "" + s1 == s1;
    }
  }

  lemma ScanSplits(s: string)
    ensures s == Scan(s).0.Text() + Scan(s).1
    ensures AllDigits(Scan(s).0.whole) && AllDigits(Scan(s).0.Decimals())
  {
    var (whole, fraction, tail) := ScanNumber(s);
    NumberSplits(s);
    DigitRunIs(s);
    if fraction.Some? { DigitRunIs(s[DigitRun(s)..][1..]); }
    SplitAt(tail, UnitEnd(tail));
    var unit, rest := Scan(s).0.unit, Scan(s).1;
    JoinIsAssociative(DotText(fraction), unit, rest);
    JoinIsAssociative(whole, DotText(fraction) + unit, rest);
  }

  lemma DigitsFound(digits: string, tail: string)
    requires AllDigits(digits) && (tail != "" ==> !IsDigit(tail[0]))
    ensures DigitRun(digits + tail) == |digits|
    ensures (digits + tail)[..|digits|] == digits && (digits + tail)[|digits|..] == tail
  {
    Joined(digits, tail);
    DigitRunIsUnique(digits + tail, |digits|);
  }

  lemma NumberFound(whole: string, fraction: Option<string>, tail: string)
    requires AllDigits(whole) && (fraction.Some? ==> AllDigits(fraction.value))
    requires tail != "" ==> tail[0] != '.' && !IsDigit(tail[0])
    ensures ScanNumber(whole + (DotText(fraction) + tail)) == (whole, fraction, tail)
  {
    if fraction.Some? {
      var s1 := DotText(fraction) + tail;
      assert s1[0] == '.' && s1[1..] == fraction.value + tail;
      DigitsFound(whole, s1);
      DigitsFound(fraction.value, tail);
    } else {
      assert DotText(fraction) + tail == tail;
      DigitsFound(whole, tail);
    }
  }

  ghost predicate StartsTerm(s: string) {
    s == "" || s[0] == '.' || IsDigit(s[0])
  }

  lemma ScanFindsTerm(g: Reading, t: Term, rest: string)
    requires Plain(g)
    requires t.WellFormed(g) && StartsTerm(rest)
    ensures Scan(t.Text() + rest) == (t, rest)
  {
    assert Word(t.unit);
    var tail := t.unit + rest;
    JoinIsAssociative(DotText(t.fraction), t.unit, rest);
    JoinIsAssociative(t.whole, DotText(t.fraction) + t.unit, rest);
    NumberFound(t.whole, t.fraction, tail);
    UnitEndIsUnique(tail, |t.unit|);
    Joined(t.unit, rest);
  }

  lemma TermTextStarts(g: Reading, t: Term)
    requires t.WellFormed(g)
    ensures t.Text() != "" && StartsTerm(t.Text())
  {
    if t.whole != "" { assert t.Text()[0] == t.whole[0]; } else { assert t.Text()[0] == '.'; }
  }

  lemma TextStarts(g: Reading, terms: seq<Term>)
    requires AllWellFormed(g, terms)
    ensures StartsTerm(Text(terms))
    ensures terms != [] ==> Text(terms) != ""
  {
    if terms != [] {
      TermTextStarts(g, terms[0]);
      assert Text(terms)[0] == terms[0].Text()[0];
    }
  }

  lemma TermsOfOne(g: Reading, t: Term, rest: string)
    requires Plain(g) && t.WellFormed(g) && StartsTerm(rest)
    ensures Terms(g, t.Text() + rest) == Extend([t], Terms(g, rest))
  {
    TermTextStarts(g, t);
    ScanFindsTerm(g, t, rest);
  }

  // The terms of a text, and the text they were read from.
  ghost predicate ReadAs(g: Reading, s: string, terms: seq<Term>) {
    Terms(g, s) == Some(terms)
  }

  lemma OneMoreTerm(g: Reading, t: Term, rest: string, terms: seq<Term>)
    requires Plain(g) && t.WellFormed(g) && StartsTerm(rest) && ReadAs(g, rest, terms)
    ensures ReadAs(g, t.Text() + rest, [t] + terms)
  {
    TermsOfOne(g, t, rest);
  }

  lemma {:induction false} TextSplits(terms: seq<Term>)
    requires terms != []
    ensures Text(terms) == terms[0].Text() + Text(terms[1..]) && terms == [terms[0]] + terms[1..]
  {
  }

  lemma {:induction false} TermsOfText(g: Reading, terms: seq<Term>, s: string)
    requires Plain(g) && AllWellFormed(g, terms) && s == Text(terms)
    ensures ReadAs(g, s, terms)
    decreases |terms|
  {
    if terms != [] {
      var rest := Text(terms[1..]);
      TextStarts(g, terms[1..]);
      TermsOfText(g, terms[1..], rest);
      TextSplits(terms);
      OneMoreTerm(g, terms[0], rest, terms[1..]);
    }
  }

  lemma {:induction false} TextOfTerms(g: Reading, s: string)
    requires Terms(g, s).Some?
    ensures AllWellFormed(g, Terms(g, s).value) && Text(Terms(g, s).value) == s
    decreases |s|
  {
    if s != "" {
      ScanSplits(s);
      TextOfTerms(g, Scan(s).1);
      assert Terms(g, s).value[1..] == Terms(g, Scan(s).1).value;
    }
  }

  lemma TermTextEnds(g: Reading, t: Term)
    requires Plain(g) && t.WellFormed(g)
    ensures t.Text() != "" && !IsDigit(t.Text()[|t.Text()| - 1])
  {
    assert Word(t.unit);
    assert t.Text()[|t.Text()| - 1] == t.unit[|t.unit| - 1];
  }

  lemma ZeroIsNoTerm(g: Reading, terms: seq<Term>)
    requires Plain(g)
    requires terms != [] && AllWellFormed(g, terms)
    ensures Text(terms) != "0"
  {
    TermTextEnds(g, terms[0]);
    var head := terms[0].Text();
    assert Text(terms)[|head| - 1] == head[|head| - 1];
  }

  lemma SignIsRead(sign: string, body: string)
    requires sign == "" || sign == "+" || sign == "-"
    requires body != "" && body[0] != '+' && body[0] != '-'
    ensures Unsigned(sign + body) == body
    ensures (sign + body)[0] == '-' <==> sign == "-"
  {
    if sign != "" { assert (sign + body)[1..] == body; } else { assert sign + body == body; }
  }

  lemma ParseBody(g: Reading, sign: string, body: string)
    requires sign == "" || sign == "+" || sign == "-"
    requires body != "" && body != "0" && body[0] != '+' && body[0] != '-'
    ensures Parse(g, sign + body) == Signed(sign == "-", Bounded(g, Terms(g, body)))
  {
    SignIsRead(sign, body);
  }

  lemma TermsFit(g: Reading, neg: bool, terms: seq<Term>, v: int)
    ensures Signed(neg, Bounded(g, Some(terms))) == Some(v) <==>
            var total: int := TotalNs(g, terms); v == (if neg then -total else total) && -MAX <= v < MAX
  {}

  lemma GrammarIsRead(g: Reading, sign: string, body: string, v: int, terms: seq<Term>)
    requires Plain(g)
    requires sign == "" || sign == "+" || sign == "-"
    requires SumsTo(g, sign == "-", body, v, terms)
    ensures Parse(g, sign + body) == Some(v)
  {
    TextStarts(g, terms);
    ZeroIsNoTerm(g, terms);
    ParseBody(g, sign, body);
    TermsOfText(g, terms, Text(terms));
    TermsFit(g, sign == "-", terms, v);
  }

  lemma SignSplits(raw: string) returns (sign: string)
    ensures sign == "" || sign == "+" || sign == "-"
    ensures raw == sign + Unsigned(raw)
    ensures (raw != "" && raw[0] == '-') <==> sign == "-"
  {
    var body := Unsigned(raw);
    sign := raw[..|raw| - |body|];
  }

  lemma ReadIsGrammar(g: Reading, raw: string)
    requires Parse(g, raw).Some?
    ensures Denotes(g, raw, Parse(g, raw).value)
  {
    var sign := SignSplits(raw);
    var body := Unsigned(raw);
    if body != "0" {
      TextOfTerms(g, body);
      TermsFit(g, sign == "-", Terms(g, body).value, Parse(g, raw).value);
      assert SumsTo(g, sign == "-", body, Parse(g, raw).value, Terms(g, body).value);
    }
  }

  /** The parser accepts exactly the grammar within 64-bit nanoseconds, and returns
      exactly what the text denotes. */
  lemma ParseIsExact(g: Reading, raw: string, v: int)
    requires Plain(g)
    ensures Parse(g, raw) == Some(v) <==> Denotes(g, raw, v)
  {
    if Parse(g, raw) == Some(v) { ReadIsGrammar(g, raw); }
    if Denotes(g, raw, v) {
      var sign: string, body: string :|
        && (sign == "" || sign == "+" || sign == "-")
        && raw == sign + body
        && ((body == "0" && v == 0) || DenotesTerms(g, sign == "-", body, v));
      if body == "0" && v == 0 {
        SignIsRead(sign, body);
      } else {
        var terms :| SumsTo(g, sign == "-", body, v, terms);
        GrammarIsRead(g, sign, body, v, terms);
      }
    }
  }

  /** And so it is with Go's own units, however a fraction is rounded. */
  lemma GoParseIsExact(f: (nat, nat, nat) -> nat, raw: string, v: int)
    ensures HasGosUnits(Go(f)) && (Parse(Go(f), raw) == Some(v) <==> Denotes(Go(f), raw, v))
  {
    forall word, ns ensures IsUnit(word, ns) <==> ns > 0 && UnitNs(word) == ns { UnitsAreGos(word, ns); }
    GoIsPlain(f);
    ParseIsExact(Go(f), raw, v);
  }

  lemma FractionHasDot(t: Term, rest: string)
    ensures t.fraction.Some? ==> '.' in t.Text() + rest
  {
    if t.fraction.Some? { assert (t.Text() + rest)[|t.whole|] == '.'; }
  }

  lemma {:induction false} NoDotNoDecimals(terms: seq<Term>)
    requires '.' !in Text(terms)
    ensures forall i :: 0 <= i < |terms| ==> terms[i].Decimals() == ""
  {
    if terms != [] {
      var rest := Text(terms[1..]);
      assert forall c :: c in rest ==> c in terms[0].Text() + rest;
      FractionHasDot(terms[0], rest);
      NoDotNoDecimals(terms[1..]);
    }
  }

  lemma {:induction false} WholeTotals(g: Reading, h: Reading, terms: seq<Term>)
    requires g.units == h.units
    requires forall i :: 0 <= i < |terms| ==> terms[i].Decimals() == ""
    ensures TotalNs(g, terms) == TotalNs(h, terms)
  {
    if terms != [] { WholeTotals(g, h, terms[..|terms| - 1]); }
  }

  lemma {:induction false} SameTerms(g: Reading, h: Reading, s: string)
    requires g.units == h.units
    ensures Terms(g, s) == Terms(h, s)
    decreases |s|
  {
    if s != "" && |Scan(s).1| < |s| { SameTerms(g, h, Scan(s).1); }
  }

  /** A text without a dot has one meaning, whatever fractions are worth: for these
      nothing about the parser is left to the floating-point step. */
  lemma NoDotNeedsNoFractions(g: Reading, h: Reading, raw: string)
    requires g.units == h.units && '.' !in raw
    ensures Parse(g, raw) == Parse(h, raw)
  {
    var s := Unsigned(raw);
    SameTerms(g, h, s);
    if Terms(g, s).Some? {
      TextOfTerms(g, s);
      NoDotNoDecimals(Terms(g, s).value);
      WholeTotals(g, h, Terms(g, s).value);
    }
  }

  // ---------- what Go's units are worth ----------

  function DecimalText(n: nat): (s: string)
    ensures s != "" && AllDigits(s) && Value(s) == n
  {
    var last := ['0' + (n % 10) as char];
    assert last[..0] == "";
    if n < 10 then last
    else
      var s := DecimalText(n / 10) + last;
      assert s[..|s| - 1] == DecimalText(n / 10);
      s
  }

  lemma OneTermIsRead(g: Reading, t: Term)
    requires Plain(g) && t.WellFormed(g)
    ensures Parse(g, t.Text()) == if t.Ns(g) < MAX then Some(t.Ns(g)) else None
  {
    var total: int := t.Ns(g);
    assert [t][1..] == [] && [t][..0] == [];
    assert Text([t]) == t.Text() + "" == "" + t.Text() == t.Text();
    assert TotalNs(g, [t]) == total;
    TextStarts(g, [t]);
    ZeroIsNoTerm(g, [t]);
    ParseBody(g, "", t.Text());
    TermsOfText(g, [t], Text([t]));
  }

  // A sum that fits Go's 64 bits, or nothing.
  function Fits(ns: nat): Option<int> {
    if ns < MAX then Some(ns) else None
  }

  // Go's units and the nanoseconds of each.
  const GO_UNITS: seq<(string, nat)> := [
    ("ns", 1), ("us", 1_000), ("\U{b5}s", 1_000), ("\U{3bc}s", 1_000),
    ("ms", 1_000_000), ("s", 1_000_000_000), ("m", 60_000_000_000), ("h", 3_600_000_000_000)]

  ghost predicate IsUnit(word: string, ns: nat) {
    exists i :: 0 <= i < |GO_UNITS| && GO_UNITS[i] == (word, ns)
  }

  ghost predicate HasGosUnits(g: Reading) {
    forall word, ns :: IsUnit(word, ns) <==> ns > 0 && g.units(word) == ns
  }

  lemma UnitsAreGos(word: string, ns: nat)
    ensures IsUnit(word, ns) <==> ns > 0 && UnitNs(word) == ns
  {
    if UnitNs(word) == ns > 0 {
      var i := if word == "ns" then 0 else if word == "us" then 1 else if word == "\U{b5}s" then 2
               else if word == "\U{3bc}s" then 3 else if word == "ms" then 4 else if word == "s" then 5
               else if word == "m" then 6 else 7;
      assert GO_UNITS[i] == (word, ns);
    }
  }

  /** A whole number of a unit is read as that many times the unit's nanoseconds. */
  lemma UnitIsWorth(f: (nat, nat, nat) -> nat, n: nat, unit: string, ns: nat)
    requires IsUnit(unit, ns)
    ensures Parse(Go(f), DecimalText(n) + unit) == Fits(n * ns)
  {
    UnitsAreGos(unit, ns);
    GoIsPlain(f);
    WholeTerm(Go(f), DecimalText(n), unit, ns);
  }

  lemma WholeTerm(g: Reading, digits: string, unit: string, ns: nat)
    requires Plain(g) && digits != "" && AllDigits(digits) && unit != "" && g.units(unit) == ns > 0
    ensures Parse(g, digits + unit) == Fits(Value(digits) * ns)
  {
    var t := Term(digits, None, unit);
    assert t.Text() == digits + unit && t.Ns(g) == Value(digits) * ns;
    OneTermIsRead(g, t);
  }

  /** No other word is a unit: after a number it is refused, and so is no unit at all
      but after a bare zero. */
  lemma OtherWordsAreRefused(f: (nat, nat, nat) -> nat, n: nat, word: string)
    requires Word(word) && forall ns :: !IsUnit(word, ns)
    ensures Parse(Go(f), DecimalText(n) + word) == if n == 0 && word == "" then Some(0) else None
  {
    if UnitNs(word) > 0 { UnitsAreGos(word, UnitNs(word)); }
    NumberAndWord(Go(f), DecimalText(n), word);
    if n == 0 && word == "" { assert "0" + word == "0"; }
    if DecimalText(n) + word == "0" { ZeroIsWritten(n, word); }
  }

  lemma NumberAndWord(g: Reading, digits: string, word: string)
    requires digits != "" && AllDigits(digits) && Word(word) && g.units(word) == 0
    ensures Parse(g, digits + word) == if digits + word == "0" then Some(0) else None
  {
    var s := digits + word;
    assert s[0] == digits[0];
    FirstTerm(digits, word);
    assert !Scan(s).0.Reads(g);
  }

  lemma FirstTerm(digits: string, word: string)
    requires AllDigits(digits) && Word(word)
    ensures Scan(digits + word) == (Term(digits, None, word), "")
  {
    NumberFound(digits, None, word);
    UnitEndIsUnique(word, |word|);
    assert DotText(None) + word == word && word[..|word|] == word && word[|word|..] == "";
  }

  lemma ZeroIsWritten(n: nat, word: string)
    requires DecimalText(n) + word == "0"
    ensures n == 0 && word == ""
  {
    assert DecimalText(n) == "0";
    assert "0"[..0] == "" && Value("0") == 0;
  }

  ghost predicate Numeral(digits: string) {
    digits != "" && AllDigits(digits)
  }

  function ClockTerms(h: string, m: string, s: string): seq<Term> {
    [Term(h, None, "h"), Term(m, None, "m"), Term(s, None, "s")]
  }

  // The nanoseconds of so many hours, minutes and seconds.
  ghost predicate IsClock(h: string, m: string, s: string, ns: nat) {
    ns == Value(h) * 3_600_000_000_000 + Value(m) * 60_000_000_000 + Value(s) * 1_000_000_000
  }

  /** Hours, minutes and seconds add up, and a minus makes them negative. */
  lemma ClockIsRead(g: Reading, sign: string, h: string, m: string, s: string, text: string, ns: nat)
    requires Plain(g) && HasGosUnits(g) && Numeral(h) && Numeral(m) && Numeral(s) && IsClock(h, m, s, ns)
    requires (sign == "" || sign == "+" || sign == "-") && text == h + "h" + (m + "m" + (s + "s"))
    ensures Parse(g, sign + text) == Summed(sign, ns)
  {
    ClockText(h, m, s);
    ClockNs(g, h, m, s, ns);
    TermsAreSummed(g, ClockTerms(h, m, s), sign, text, ns);
  }

  lemma ClockUnits(g: Reading)
    requires HasGosUnits(g)
    ensures g.units("h") == 3_600_000_000_000 && g.units("m") == 60_000_000_000 && g.units("s") == 1_000_000_000
  {
    assert GO_UNITS[5] == ("s", 1_000_000_000) && GO_UNITS[6] == ("m", 60_000_000_000);
    assert GO_UNITS[7] == ("h", 3_600_000_000_000);
    assert IsUnit("s", 1_000_000_000) && IsUnit("m", 60_000_000_000) && IsUnit("h", 3_600_000_000_000);
  }

  lemma ClockText(h: string, m: string, s: string)
    ensures Text(ClockTerms(h, m, s)) == h + "h" + (m + "m" + (s + "s"))
  {
    var a, b, c := Term(h, None, "h"), Term(m, None, "m"), Term(s, None, "s");
    WholeText(a);
    WholeText(b);
    WholeText(c);
    ThreeTerms(a, b, c);
  }

  lemma WholeText(t: Term)
    requires t.fraction.None?
    ensures t.Text() == t.whole + t.unit
  {
    assert "" + t.unit == t.unit;
  }

  lemma ClockNs(g: Reading, h: string, m: string, s: string, ns: nat)
    requires HasGosUnits(g) && Numeral(h) && Numeral(m) && Numeral(s) && IsClock(h, m, s, ns)
    ensures AllWellFormed(g, ClockTerms(h, m, s)) && TotalNs(g, ClockTerms(h, m, s)) == ns
  {
    var a, b, c := Term(h, None, "h"), Term(m, None, "m"), Term(s, None, "s");
    ClockUnits(g);
    WholeNs(g, a, 3_600_000_000_000);
    WholeNs(g, b, 60_000_000_000);
    WholeNs(g, c, 1_000_000_000);
    ThreeNs(g, a, b, c);
  }

  lemma WholeNs(g: Reading, t: Term, ns: nat)
    requires t.fraction.None? && g.units(t.unit) == ns
    ensures t.Ns(g) == Value(t.whole) * ns
  {}

  lemma ThreeTerms(a: Term, b: Term, c: Term)
    ensures Text([a, b, c]) == a.Text() + (b.Text() + c.Text())
  {
    TextSplits([a, b, c]);
    TextSplits([b, c]);
    TextSplits([c]);
    assert [a, b, c][1..] == [b, c] && [b, c][1..] == [c] && [c][1..] == [];
    assert c.Text() + "" == c.Text();
  }

  lemma ThreeNs(g: Reading, a: Term, b: Term, c: Term)
    ensures TotalNs(g, [a, b, c]) == a.Ns(g) + b.Ns(g) + c.Ns(g)
  {
    var none: seq<Term> := [];
    assert [a, b, c][..2] == [a, b] && [a, b][..1] == [a] && [a][..0] == none;
    assert TotalNs(g, none) == 0 && TotalNs(g, [a]) == a.Ns(g) && TotalNs(g, [a, b]) == a.Ns(g) + b.Ns(g);
  }

  // A sum with its sign, or nothing past 64 bits.
  function Summed(sign: string, ns: nat): Option<int> {
    if sign != "-" then Fits(ns) else if ns <= MAX then Some(-(ns as int)) else None
  }

  lemma SignedIs(g: Reading, sign: string, terms: seq<Term>)
    ensures Signed(sign == "-", Bounded(g, Some(terms))) == Summed(sign, TotalNs(g, terms))
  {}

  lemma TermsAreSummed(g: Reading, terms: seq<Term>, sign: string, text: string, ns: nat)
    requires Plain(g) && terms != [] && AllWellFormed(g, terms) && text == Text(terms) && ns == TotalNs(g, terms)
    requires sign == "" || sign == "+" || sign == "-"
    ensures Parse(g, sign + text) == Summed(sign, ns)
  {
    TextStarts(g, terms);
    ZeroIsNoTerm(g, terms);
    TermsOfText(g, terms, text);
    SignedIs(g, sign, terms);
    ParseBody(g, sign, text);
  }

  /** A fraction adds what the floating-point step makes of its digits, how many they are,
      and the unit. */
  lemma FractionIsRead(g: Reading, t: Term, decimals: string, raw: string, ns: nat)
    requires Plain(g) && t.WellFormed(g) && t.fraction == Some(decimals) && 0 < Value(decimals) <= MAX
    requires raw == t.whole + ("." + decimals + t.unit)
    requires ns == Value(t.whole) * g.units(t.unit) + g.fraction(Value(decimals), |decimals|, g.units(t.unit))
    ensures Parse(g, raw) == Fits(ns)
  {
    FractionNs(g, t, decimals, g.units(t.unit));
    FractionText(t, decimals);
    TermIsRead(g, t, raw, ns);
  }

  lemma TermIsRead(g: Reading, t: Term, raw: string, ns: nat)
    requires Plain(g) && t.WellFormed(g) && raw == t.Text() && ns == t.Ns(g)
    ensures Parse(g, raw) == Fits(ns)
  {
    OneTermIsRead(g, t);
  }

  lemma FractionText(t: Term, decimals: string)
    requires t.fraction == Some(decimals)
    ensures t.Text() == t.whole + ("." + decimals + t.unit)
  {}

  lemma FractionNs(g: Reading, t: Term, decimals: string, ns: nat)
    requires t.fraction == Some(decimals) && 0 < Value(decimals) <= MAX && g.units(t.unit) == ns
    ensures t.Ns(g) == Value(t.whole) * ns + g.fraction(Value(decimals), |decimals|, ns)
  {
    assert decimals[..|decimals|] == decimals;
    if Kept(decimals) < |decimals| { KeptIsLongest(decimals, |decimals|); }
  }

  // ---------- minutes ----------

  function MinutesToDuration(min: nat): string {
    if min == 0 then "0s" else DecimalText(min) + "m"
  }

  // The projection of a parsed duration to the minutes the platform shows.
  function Minutes(ns: int): nat {
    if ns <= 0 then 0 else
      var minutes := (ns + NS_PER_MINUTE / 2) / NS_PER_MINUTE;
      if minutes < 1 then 1 else minutes
  }

  function GoDurationToMinutes(g: Reading, d: string): Option<nat> {
    var ns := Parse(g, d);
    if ns.None? then None else Some(Minutes(ns.value))
  }

  lemma MinuteTerm(f: (nat, nat, nat) -> nat, n: nat) returns (t: Term)
    ensures t.WellFormed(Go(f)) && t.Text() == MinutesToDuration(n)
    ensures t.Ns(Go(f)) == n * NS_PER_MINUTE
  {
    t := if n == 0 then Term("0", None, "s") else Term(DecimalText(n), None, "m");
    assert "0"[..0] == "" && Value("0") == 0;
  }

  /** A whole number of minutes survives the trip through its text exactly when its
      nanoseconds fit Go's 64 bits, and is refused otherwise. */
  lemma MinutesRoundTrip(f: (nat, nat, nat) -> nat, n: nat)
    ensures GoDurationToMinutes(Go(f), MinutesToDuration(n)) ==
            if n * NS_PER_MINUTE < MAX then Some(n) else None
  {
    var t := MinuteTerm(f, n);
    GoIsPlain(f);
    OneTermIsRead(Go(f), t);
    WholeMinutes(n);
  }

  lemma WholeMinutes(n: nat)
    ensures Minutes(n * NS_PER_MINUTE) == n
  {}

  /** The minutes shown are the nearest to the duration, halves up, and never none for a
      positive one. */
  lemma ProjectionIsNearest(g: Reading, d: string)
    requires Parse(g, d).Some? && Parse(g, d).value > 0
    ensures var ns, shown: int := Parse(g, d).value, GoDurationToMinutes(g, d).value;
            shown >= 1 &&
            (-30_000_000_000 <= ns - shown * 60_000_000_000 < 30_000_000_000 || (shown == 1 && ns < 30_000_000_000))
  {}

  /** The projection never reverses two durations, and is zero for exactly the
      durations the controller takes as never hibernating. */
  lemma ProjectionIsMonotone(g: Reading, a: string, b: string)
    requires Parse(g, a).Some? && Parse(g, b).Some? && Parse(g, a).value <= Parse(g, b).value
    ensures GoDurationToMinutes(g, a).value <= GoDurationToMinutes(g, b).value
    ensures GoDurationToMinutes(g, a).value == 0 <==> Parse(g, a).value <= 0
  {}

  // ---------- the loops ----------

  datatype IntPart = IntPart(value: nat, digits: string, rest: string)

  /** leadingInt: null exactly when the numeral at the front exceeds 2^63. */
  method LeadingInt(s: string) returns (r: Option<IntPart>)
    ensures var n := DigitRun(s);
            r == if Value(s[..n]) > MAX then None else Some(IntPart(Value(s[..n]), s[..n], s[n..]))
  {
    var i, value := 0, 0;
    ghost var n := DigitRun(s);
    DigitRunIs(s);
    while i < |s| && IsDigit(s[i])
      invariant i <= n && AllDigits(s[..i]) && value == Value(s[..i]) <= MAX
    {
      ValueSnoc(s, i);
      ValueGrows(s[..n], i + 1);
      assert s[..n][..i + 1] == s[..i + 1];
      if value > MAX / 10 { return None; }
      value := value * 10 + DigitValue(s[i]);
      if value > MAX { return None; }
      i := i + 1;
    }
    DigitRunIsUnique(s, i);
    return Some(IntPart(value, s[..i], s[i..]));
  }

  /** leadingFraction: the longest front of the digits that stays within 2^63, and
      how many digits that is; the rest of the run is read and dropped. */
  method LeadingFraction(s: string) returns (value: nat, kept: nat, digits: string, rest: string)
    ensures digits == s[..DigitRun(s)] && rest == s[DigitRun(s)..]
    ensures kept == Kept(digits) && value == Value(digits[..kept])
  {
    var i, overflow := 0, false;
    value, kept := 0, 0;
    ghost var n := DigitRun(s);
    ghost var run := s[..n];
    DigitRunIs(s);
    while i < |s| && IsDigit(s[i])
      invariant kept <= i <= n && AllDigits(s[..i])
      invariant value == Value(run[..kept]) <= MAX
      invariant !overflow ==> kept == i
      invariant overflow ==> kept < i && Value(run[..kept + 1]) > MAX
    {
      ValueSnoc(run, kept);
      if overflow {
      } else if value > (MAX - 1) / 10 {
        overflow := true;
      } else {
        var next := value * 10 + DigitValue(s[i]);
        if next > MAX {
          overflow := true;
        } else {
          value, kept := next, kept + 1;
        }
      }
      i := i + 1;
    }
    DigitRunIsUnique(s, i);
    digits, rest := s[..i], s[i..];
    KeptIsUnique(digits, kept);
  }

  lemma KeptIsUnique(s: string, k: nat)
    requires k <= |s| && Value(s[..k]) <= MAX
    requires k < |s| ==> Value(s[..k + 1]) > MAX
    ensures k == Kept(s)
  {
    if Kept(s) < k {
      KeptIsLongest(s, k);
    } else if k < Kept(s) {
      assert s[..Kept(s)][..k + 1] == s[..k + 1];
      ValueGrows(s[..Kept(s)], k + 1);
    }
  }

  // v > floor(MAX / u) and v * u > MAX say the same.
  lemma DivisionIsTheBound(v: nat, u: nat)
    requires u > 0
    ensures v > MAX / u <==> v * u > MAX
  {
    var q := MAX / u;
    assert q * u <= MAX < (q + 1) * u;
    if v > q { MulOrder(q + 1, v, u); } else { MulOrder(v, q, u); }
  }

  lemma MulOrder(a: nat, b: nat, u: nat)
    requires a <= b
    ensures a * u <= b * u
  {}

  // The number at the front of the text; its whole part is None past 2^63.
  method NextNumber(text: string)
    returns (whole: Option<IntPart>, value: nat, kept: nat, decimals: string, rest: string)
    ensures var (digits, fraction, tail) := ScanNumber(text);
            && whole.None? == (Value(digits) > MAX)
            && (whole.Some? ==>
              && whole.value.value == Value(digits) && whole.value.digits == digits
              && decimals == (if fraction.Some? then fraction.value else "") && rest == tail
              && kept == Kept(decimals) && value == Value(decimals[..kept]))
  {
    whole := LeadingInt(text);
    value, kept, decimals, rest := 0, 0, "", text;
    if whole.None? { return; }
    rest := whole.value.rest;
    if rest != "" && rest[0] == '.' {
      value, kept, decimals, rest := LeadingFraction(rest[1..]);
    }
  }

  method UnitWord(s: string) returns (end: nat)
    ensures end == UnitEnd(s)
  {
    end := 0;
    while end < |s| && s[end] != '.' && !IsDigit(s[end])
      invariant end <= |s|
      invariant forall i :: 0 <= i < end ==> s[i] != '.' && !IsDigit(s[i])
    {
      end := end + 1;
    }
    UnitEndIsUnique(s, end);
  }

  lemma WholeIsAtMostTerm(g: Reading, t: Term)
    requires g.units(t.unit) > 0
    ensures Value(t.whole) <= t.Ns(g)
  {
    MulAtLeast(Value(t.whole), g.units(t.unit));
  }

  lemma MulAtLeast(v: nat, u: nat)
    requires u > 0
    ensures v <= v * u
  {}

  // The worth of a term, or None past 2^63.
  method Worth(g: Reading, whole: nat, fraction: nat, kept: nat, unit: nat) returns (r: Option<nat>)
    requires unit > 0
    ensures var value := whole * unit + (if fraction > 0 then g.fraction(fraction, kept, unit) else 0);
            r == if value > MAX then None else Some(value)
  {
    DivisionIsTheBound(whole, unit);
    if whole > MAX / unit { return None; }
    var value := whole * unit;
    if fraction > 0 {
      value := value + g.fraction(fraction, kept, unit);
      if value > MAX { return None; }
    }
    return Some(value);
  }

  lemma NoNumberAhead(text: string)
    requires text != "" && text[0] != '.' && !IsDigit(text[0])
    ensures Scan(text).0.whole == "" && Scan(text).0.Decimals() == ""
  {
    assert text[0..] == text;
  }

  // The term at the front, in the pieces the arithmetic needs.
  method NextParts(text: string)
    returns (whole: Option<IntPart>, value: nat, kept: nat, decimals: string, unit: string, rest: string)
    ensures var (t, tail) := Scan(text);
            && whole.None? == (Value(t.whole) > MAX)
            && (whole.Some? ==>
              && whole.value.value == Value(t.whole) && whole.value.digits == t.whole
              && decimals == t.Decimals() && unit == t.unit && rest == tail
              && kept == Kept(decimals) && value == Value(decimals[..kept]))
  {
    whole, value, kept, decimals, rest := NextNumber(text);
    unit := "";
    if whole.Some? {
      var end := UnitWord(rest);
      unit, rest := rest[..end], rest[end..];
    }
  }

  // What one turn of the loop makes of a term: its worth, unless it is no term or
  // passes 2^63.
  ghost function TermResult(g: Reading, t: Term): Option<nat> {
    if t.Reads(g) && t.Ns(g) <= MAX then Some(t.Ns(g)) else None
  }

  /** One turn of the loop, up to adding the term to the total. */
  method NextTerm(g: Reading, text: string) returns (r: Option<nat>, rest: string)
    requires text != ""
    ensures r == TermResult(g, Scan(text).0)
    ensures r.Some? ==> rest == Scan(text).1
  {
    if text[0] != '.' && !IsDigit(text[0]) {
      NoNumberAhead(text);
      return None, text;
    }
    var whole, fraction, kept, decimals, word, tail := NextParts(text);
    ghost var t := Scan(text).0;
    rest := tail;
    if whole.None? {
      if g.units(t.unit) > 0 { WholeIsAtMostTerm(g, t); }
      return None, rest;
    }
    if whole.value.digits == "" && decimals == "" { return None, rest; }
    var unit := g.units(word);
    if word == "" || unit == 0 { return None, rest; }
    r := Worth(g, whole.value.value, fraction, kept, unit);
  }

  lemma {:induction false} TotalGrows(g: Reading, terms: seq<Term>, k: nat)
    requires k <= |terms|
    ensures TotalNs(g, terms[..k]) <= TotalNs(g, terms)
  {
    if k < |terms| {
      var fewer := terms[..|terms| - 1];
      TotalGrows(g, fewer, k);
      assert fewer[..k] == terms[..k];
    } else {
      assert terms[..k] == terms;
    }
  }

  lemma TooMuchAlready(g: Reading, done: seq<Term>, more: Option<seq<Term>>)
    requires TotalNs(g, done) > MAX
    ensures Bounded(g, Extend(done, more)) == None
  {
    if more.Some? {
      TotalGrows(g, done + more.value, |done|);
      assert (done + more.value)[..|done|] == done;
    }
  }

  lemma OneMore(g: Reading, done: seq<Term>, t: Term, more: Option<seq<Term>>)
    ensures Extend(done, Extend([t], more)) == Extend(done + [t], more)
    ensures TotalNs(g, done + [t]) == TotalNs(g, done) + t.Ns(g)
  {
    assert (done + [t])[..|done|] == done;
    if more.Some? { assert done + ([t] + more.value) == done + [t] + more.value; }
  }

  // What the rest of the loop makes of what it has read and what is left.
  ghost function Pending(g: Reading, done: seq<Term>, s: string): Option<nat> {
    Bounded(g, Extend(done, Terms(g, s)))
  }

  lemma PendingStep(g: Reading, done: seq<Term>, s: string)
    requires s != ""
    ensures var (t, rest) := Scan(s);
            if t.Reads(g) && TotalNs(g, done) + t.Ns(g) <= MAX
            then |rest| < |s| && Pending(g, done, s) == Pending(g, done + [t], rest)
            else Pending(g, done, s) == None
    ensures TotalNs(g, done + [Scan(s).0]) == TotalNs(g, done) + Scan(s).0.Ns(g)
  {
    var (t, rest) := Scan(s);
    ScanSplits(s);
    OneMore(g, done, t, Terms(g, rest));
    if t.Reads(g) && TotalNs(g, done) + t.Ns(g) > MAX {
      TooMuchAlready(g, done + [t], Terms(g, rest));
    }
  }

  // The loop: adds up the terms, and stops at the first that cannot be read or kept.
  method AddUp(g: Reading, body: string) returns (r: Option<nat>)
    ensures r == Bounded(g, Terms(g, body))
  {
    var s, total := body, 0;
    ghost var done: seq<Term> := [];
    assert Terms(g, s).Some? ==> [] + Terms(g, s).value == Terms(g, s).value;
    while s != ""
      invariant Bounded(g, Terms(g, body)) == Pending(g, done, s) && total == TotalNs(g, done) <= MAX
      decreases |s|
    {
      ghost var t := Scan(s).0;
      PendingStep(g, done, s);
      var term, rest := NextTerm(g, s);
      if term.None? { return None; }
      done := done + [t];
      total := total + term.value;
      if total > MAX { return None; }
      s := rest;
    }
    assert done + [] == done;
    return Some(total);
  }

  /** parseGoDurationNs, on every string. */
  method ParseGoDurationNs(g: Reading, raw: string) returns (r: Option<int>)
    ensures r == Parse(g, raw)
  {
    var s, neg := raw, false;
    if s != "" && (s[0] == '-' || s[0] == '+') {
      neg := s[0] == '-';
      s := s[1..];
    }
    if s == "0" { return Some(0); }
    if s == "" { return None; }
    var total := AddUp(g, s);
    if total.None? { return None; }
    if neg { return Some(-(total.value as int)); }
    if total.value > MAX - 1 { return None; }
    return Some(total.value as int);
  }
}
