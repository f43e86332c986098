/**
 How the image cache client reads the head of a response (the first half of
 parse_response in packages/vm-runner/src/cacheapi.rs): the status on its first line,
 and whether a header line says that the body is chunked. A head with bytes past ASCII
 is left to a parameter.
 */
module ResponseHead {
  import opened Lines
  import opened Wrappers
  import opened ChunkedBody

  const SPACE: Byte := 32
  const COLON: Byte := 58
  const U16_MAX := 65535

  // ---------- reading a head ----------

  function SplitLines(s: Bytes): seq<Bytes>
    decreases |s|
  {
    var i := FindCrlf(s);
    if i.None? || i.value + 2 > |s| then [s] else [s[..i.value]] + SplitLines(s[i.value + 2..])
  }

  function TokenEnd(s: Bytes): (n: nat)
    ensures n <= |s|
  {
    if s == [] || IsSpace(s[0]) then 0 else 1 + TokenEnd(s[1..])
  }

  // What stands between spaces.
  function Tokens(s: Bytes): seq<Bytes>
    decreases |s|
  {
    if s == [] then []
    else if IsSpace(s[0]) then Tokens(s[1..])
    else [s[..TokenEnd(s)]] + Tokens(s[TokenEnd(s)..])
  }

  predicate IsDigit(b: Byte) {
    48 <= b <= 57
  }

  function DecimalValue(s: Bytes): Option<nat> {
    if s == [] then Some(0) else
      var front, last := DecimalValue(s[..|s| - 1]), s[|s| - 1];
      if front.None? || !IsDigit(last) then None else Some(front.value * 10 + (last - 48))
  }

  function FromDecimal(s: Bytes): Option<nat> {
    var digits := if s != [] && s[0] == PLUS then s[1..] else s;
    var n := DecimalValue(digits);
    if digits == [] || n.None? || n.value > U16_MAX then None else n
  }

  function Lower(s: Bytes): Bytes {
    seq(|s|, i requires 0 <= i < |s| => if 65 <= s[i] <= 90 then (s[i] + 32) as Byte else s[i])
  }

  // Whether two texts are the same but for the case of their letters.
  predicate Same(a: Bytes, b: Bytes) {
    Lower(a) == Lower(b)
  }

  function TransferEncoding(): Bytes {
    Ascii("transfer-encoding")
  }

  function Chunked(): Bytes {
    Ascii("chunked")
  }

  // The index of the first colon, or the length.
  function FirstColon(s: Bytes): (i: nat)
    ensures i <= |s|
  {
    if s == [] || s[0] == COLON then 0 else 1 + FirstColon(s[1..])
  }

  predicate SaysChunked(line: Bytes) {
    var i := FirstColon(line);
    i < |line| && Same(Trim(line[..i]), TransferEncoding()) && Same(Trim(line[i + 1..]), Chunked())
  }

  function ReadHead(head: Bytes): Option<(nat, bool)> {
    var lines := SplitLines(head);
    var tokens := Tokens(lines[0]);
    if |tokens| < 2 || FromDecimal(tokens[1]).None? then None
    else Some((FromDecimal(tokens[1]).value, exists i :: 1 <= i < |lines| && SaysChunked(lines[i])))
  }

  /** The reading of a head; `other` is what is read of one with bytes past ASCII. */
  function HeadOf(other: HeadReader): HeadReader {
    (head: Bytes) => if forall i :: 0 <= i < |head| ==> head[i] < 128 then ReadHead(head) else other(head)
  }

  // ---------- writing one ----------

  datatype Header = Header(name: Bytes, value: Bytes) {
    function Line(): Bytes { name + [COLON] + value }

    // Nothing in it ends a line, and the name has no colon.
    ghost predicate WellFormed() {
      PlainText(name) && PlainText(value) && COLON !in name
    }

    // A transfer encoding whose whole value is chunked, in any letters and padding.
    ghost predicate SaysChunked() {
      Padded(name, "transfer-encoding") && Padded(value, "chunked")
    }
  }

  ghost predicate PlainText(s: Bytes) {
    forall i :: 0 <= i < |s| ==> s[i] < 128 && s[i] != CR
  }

  /** The first line: a version, the status in digits, and a reason or nothing. */
  datatype StatusLine = StatusLine(version: Bytes, code: Bytes, reason: Bytes) {
    function Line(): Bytes { version + [SPACE] + (code + reason) }

    ghost predicate WellFormed(status: nat) {
      && version != [] && PlainText(version) && (forall i :: 0 <= i < |version| ==> !IsSpace(version[i]))
      && Writes(code, 10, status) && status <= U16_MAX
      && PlainText(reason) && (reason != [] ==> reason[0] == SPACE)
    }
  }

  function HeaderLines(headers: seq<Header>): seq<Bytes> {
    if headers == [] then [] else [headers[0].Line()] + HeaderLines(headers[1..])
  }

  // Lines put together with a line end between each two.
  function Joined(first: Bytes, rest: seq<Bytes>): Bytes
    decreases |rest|
  {
    if rest == [] then first else first + CRLF + Joined(rest[0], rest[1..])
  }

  function HeadText(first: StatusLine, headers: seq<Header>): Bytes {
    Joined(first.Line(), HeaderLines(headers))
  }

  ghost predicate WellFormedHead(first: StatusLine, status: nat, headers: seq<Header>) {
    first.WellFormed(status) && forall i :: 0 <= i < |headers| ==> headers[i].WellFormed()
  }

  ghost predicate AnyChunked(headers: seq<Header>) {
    exists i :: 0 <= i < |headers| && headers[i].SaysChunked()
  }

  // ---------- reading what was written ----------

  ghost predicate PlainLine(line: Bytes) {
    line != [] && PlainText(line)
  }

  ghost predicate PlainLines(lines: seq<Bytes>) {
    forall i :: 0 <= i < |lines| ==> PlainLine(lines[i])
  }

  lemma {:induction false} PlainHasNoCrlf(s: Bytes)
    requires PlainText(s)
    ensures NoCrlf(s) && FindCrlf(s).None?
  {
    if |s| >= 2 { PlainHasNoCrlf(s[1..]); }
  }

  lemma {:induction false} JoinedSplits(first: Bytes, rest: seq<Bytes>)
    requires PlainLine(first) && PlainLines(rest)
    ensures SplitLines(Joined(first, rest)) == [first] + rest
    decreases |rest|
  {
    PlainHasNoCrlf(first);
    if rest != [] {
      var more := Joined(rest[0], rest[1..]);
      JoinedSplits(rest[0], rest[1..]);
      FirstCrlf(first, more);
      AfterLine(first, more);
      assert rest == [rest[0]] + rest[1..];
    }
  }

  lemma {:induction false} BlankAfter(line: Bytes, s: Bytes)
    requires PlainText(line)
    ensures FindBlankLine(line + s) == Shift(FindBlankLine(s), |line|)
  {
    if line == [] {
      assert line + s == s;
    } else {
      assert (line + s)[1..] == line[1..] + s;
      assert |line + s| >= 4 ==> (line + s)[..4][0] == line[0];
      BlankAfter(line[1..], s);
    }
  }

  lemma BlankAfterEnd(s: Bytes)
    requires s != [] && s[0] != CR
    ensures FindBlankLine(CRLF + s) == Shift(FindBlankLine(s), 2)
  {
    var t := CRLF + s;
    assert t[1..] == [LF] + s && t[1..][1..] == s;
    assert |t| >= 4 ==> t[..4][2] == s[0];
    assert |t| >= 5 ==> t[1..][..4][0] == LF;
  }

  lemma {:induction false} JoinedEndsHead(first: Bytes, rest: seq<Bytes>)
    requires PlainLine(first) && PlainLines(rest)
    ensures EndsHead(Joined(first, rest)) && Joined(first, rest) != [] && Joined(first, rest)[0] != CR
    decreases |rest|
  {
    if rest == [] {
      BlankAfter(first, BLANK_LINE);
      assert BLANK_LINE[..4] == BLANK_LINE;
    } else {
      var more := Joined(rest[0], rest[1..]);
      JoinedEndsHead(rest[0], rest[1..]);
      BlankAfterEnd(more + BLANK_LINE);
      BlankAfter(first, CRLF + (more + BLANK_LINE));
      assert first + CRLF + more + BLANK_LINE == first + (CRLF + (more + BLANK_LINE));
    }
  }

  lemma {:induction false} TokenEndIs(word: Bytes, rest: Bytes)
    requires forall i :: 0 <= i < |word| ==> !IsSpace(word[i])
    requires rest != [] ==> IsSpace(rest[0])
    ensures TokenEnd(word + rest) == |word|
  {
    if word == [] {
      assert word + rest == rest;
    } else {
      assert (word + rest)[1..] == word[1..] + rest;
      TokenEndIs(word[1..], rest);
    }
  }

  lemma FirstToken(word: Bytes, rest: Bytes)
    requires word != [] && (forall i :: 0 <= i < |word| ==> !IsSpace(word[i]))
    requires rest != [] ==> IsSpace(rest[0])
    ensures Tokens(word + rest) == [word] + Tokens(rest)
  {
    TokenEndIs(word, rest);
    assert (word + rest)[..|word|] == word && (word + rest)[|word|..] == rest;
  }

  lemma {:induction false} DecimalIsValued(s: Bytes, n: nat)
    requires Writes(s, 10, n)
    ensures s != [] && (forall i :: 0 <= i < |s| ==> IsDigit(s[i])) && DecimalValue(s) == Some(n)
    decreases |s|
  {
    LastOfNumber(s, 10, n);
    var last := |s| - 1;
    DigitIsDecimal(s[last], n % 10);
    if last > 0 {
      DecimalIsValued(s[..last], n / 10);
      assert forall i :: 0 <= i < last ==> s[i] == s[..last][i];
    }
  }

  lemma DigitIsDecimal(b: Byte, d: nat)
    requires d < 10 && SpellsOne(b, DIGITS[d])
    ensures IsDigit(b) && b - 48 == d
  {}

  lemma DecimalGrows(s: Bytes, b: Byte, n: nat)
    requires IsDigit(b) && (s == [] ==> n == 0) && (s != [] ==> Writes(s, 10, n))
    ensures Writes(s + [b], 10, n * 10 + (b - 48))
  {
    assert SpellsOne(b, DIGITS[b - 48]);
    if s == [] {
      assert s + [b] == [b];
      FirstDigit(b, 10, b - 48);
    } else {
      OneMoreDigit(s, b, 10, n, b - 48);
    }
  }

  lemma {:induction false} DecimalIsWritten(s: Bytes, n: nat)
    requires s != [] && DecimalValue(s) == Some(n)
    ensures Writes(s, 10, n)
    decreases |s|
  {
    var front, b := s[..|s| - 1], s[|s| - 1];
    var m := DecimalValue(front).value;
    if front != [] { DecimalIsWritten(front, m); }
    DecimalGrows(front, b, m);
    assert front + [b] == s;
  }

  // A status: a number within 16 bits, with a plus ahead or not.
  ghost predicate WritesStatus(s: Bytes, n: nat) {
    n <= 65_535 && (Writes(s, 10, n) || (s != [] && s[0] == PLUS && Writes(s[1..], 10, n)))
  }

  lemma StatusIsExact(s: Bytes, n: nat)
    ensures FromDecimal(s) == Some(n) <==> WritesStatus(s, n)
  {
    if Writes(s, 10, n) {
      DecimalIsValued(s, n);
      assert IsDigit(s[0]);
    }
    if s != [] && s[0] == PLUS && Writes(s[1..], 10, n) { DecimalIsValued(s[1..], n); }
    if FromDecimal(s).Some? { DecimalIsWritten(if s[0] == PLUS then s[1..] else s, FromDecimal(s).value); }
  }

  lemma StatusIsRead(first: StatusLine, status: nat)
    requires first.WellFormed(status)
    ensures |Tokens(first.Line())| >= 2 && FromDecimal(Tokens(first.Line())[1]) == Some(status)
  {
    var rest := first.code + first.reason;
    assert first.Line() == first.version + ([SPACE] + rest);
    DecimalIsValued(first.code, status);
    FirstToken(first.version, [SPACE] + rest);
    assert ([SPACE] + rest)[1..] == rest;
    FirstToken(first.code, first.reason);
  }

  lemma {:induction false} FirstColonIs(name: Bytes, value: Bytes)
    requires COLON !in name
    ensures FirstColon(name + [COLON] + value) == |name|
  {
    if name != [] {
      assert (name + [COLON] + value)[1..] == name[1..] + [COLON] + value;
      FirstColonIs(name[1..], value);
    }
  }

  // Small letters and no blank at either end.
  ghost predicate Small(text: string) {
    && text != "" && (forall i :: 0 <= i < |text| ==> 'A' > text[i] || 'Z' < text[i] < 128 as char)
    && 'a' <= text[0] <= 'z' && 'a' <= text[|text| - 1] <= 'z'
  }

  lemma SpellingIsSame(s: Bytes, text: string)
    requires Small(text)
    ensures Same(s, Ascii(text)) <==> Spells(s, text)
  {
    var low, want := Lower(s), Lower(Ascii(text));
    assert |low| == |s| && |want| == |text|;
    if low == want {
      forall i | 0 <= i < |s| ensures SpellsOne(s[i], text[i]) { assert low[i] == want[i]; }
    }
  }

  /** What is trimmed and compared without regard to case is the text with blanks around
      it, in letters of any case. */
  lemma TrimmedIsPadded(s: Bytes, text: string)
    requires Small(text)
    ensures Same(Trim(s), Ascii(text)) <==> Padded(s, text)
  {
    if Same(Trim(s), Ascii(text)) {
      var a, b := TrimIsPadded(s);
      SpellingIsSame(Trim(s), text);
      assert PaddedAt(s, text, a, b);
    }
    if Padded(s, text) {
      var a: nat, b: nat :| PaddedAt(s, text, a, b);
      assert SpellsOne(s[a..b][0], text[0]) && SpellsOne(s[a..b][|text| - 1], text[|text| - 1]);
      TrimOfPadded(s, a, b);
      SpellingIsSame(s[a..b], text);
    }
  }

  lemma HeaderIsRead(h: Header)
    requires h.WellFormed()
    ensures SaysChunked(h.Line()) <==> h.SaysChunked()
    ensures PlainLine(h.Line())
  {
    var line := h.Line();
    FirstColonIs(h.name, h.value);
    assert line[..|h.name|] == h.name && line[|h.name| + 1..] == h.value;
    TrimmedIsPadded(h.name, "transfer-encoding");
    TrimmedIsPadded(h.value, "chunked");
  }

  lemma {:induction false} LinesAre(headers: seq<Header>)
    ensures |HeaderLines(headers)| == |headers|
    ensures forall i :: 0 <= i < |headers| ==> HeaderLines(headers)[i] == headers[i].Line()
  {
    if headers != [] { LinesAre(headers[1..]); }
  }

  lemma StatusLineIsPlain(first: StatusLine, status: nat)
    requires first.WellFormed(status)
    ensures PlainLine(first.Line())
  {
    DecimalIsValued(first.code, status);
  }

  lemma {:induction false} JoinedIsAscii(first: Bytes, rest: seq<Bytes>)
    requires PlainLine(first) && PlainLines(rest)
    ensures forall i :: 0 <= i < |Joined(first, rest)| ==> Joined(first, rest)[i] < 128
    decreases |rest|
  {
    if rest != [] { JoinedIsAscii(rest[0], rest[1..]); }
  }

  lemma WrittenLinesArePlain(first: StatusLine, status: nat, headers: seq<Header>)
    requires WellFormedHead(first, status, headers)
    ensures PlainLine(first.Line()) && PlainLines(HeaderLines(headers))
    ensures |HeaderLines(headers)| == |headers|
    ensures forall i :: 0 <= i < |headers| ==> (SaysChunked(HeaderLines(headers)[i]) <==> headers[i].SaysChunked())
  {
    StatusLineIsPlain(first, status);
    LinesAre(headers);
    forall i | 0 <= i < |headers|
      ensures PlainLine(HeaderLines(headers)[i])
      ensures SaysChunked(HeaderLines(headers)[i]) <==> headers[i].SaysChunked()
    {
      HeaderIsRead(headers[i]);
    }
  }

  lemma AnyOf(first: Bytes, lines: seq<Bytes>, headers: seq<Header>)
    requires |lines| == |headers|
    requires forall i :: 0 <= i < |headers| ==> (SaysChunked(lines[i]) <==> headers[i].SaysChunked())
    ensures var all := [first] + lines; (exists i :: 1 <= i < |all| && SaysChunked(all[i])) <==> AnyChunked(headers)
  {
    var all := [first] + lines;
    if AnyChunked(headers) {
      var i :| 0 <= i < |headers| && headers[i].SaysChunked();
      assert all[i + 1] == lines[i];
    }
  }

  /** A head is read as its status and whether one of its headers is a transfer encoding
      whose whole value is chunked. */
  lemma HeadIsRead(other: HeadReader, first: StatusLine, status: nat, headers: seq<Header>)
    requires WellFormedHead(first, status, headers)
    ensures HeadOf(other)(HeadText(first, headers)) == Some((status, AnyChunked(headers)))
    ensures EndsHead(HeadText(first, headers))
  {
    var line, lines := first.Line(), HeaderLines(headers);
    WrittenLinesArePlain(first, status, headers);
    JoinedIsAscii(line, lines);
    JoinedSplits(line, lines);
    JoinedEndsHead(line, lines);
    StatusIsRead(first, status);
    AnyOf(line, lines, headers);
    LinesAreRead(Joined(line, lines), [line] + lines, status, AnyChunked(headers));
  }

  lemma LinesAreRead(text: Bytes, lines: seq<Bytes>, status: nat, chunked: bool)
    requires SplitLines(text) == lines && lines != []
    requires |Tokens(lines[0])| >= 2 && FromDecimal(Tokens(lines[0])[1]) == Some(status)
    requires (exists i :: 1 <= i < |lines| && SaysChunked(lines[i])) <==> chunked
    ensures ReadHead(text) == Some((status, chunked))
  {}

  /** Every well-formed response: its body is decoded exactly when some header is a
      transfer encoding whose whole value, trimmed and in any case, is chunked, and is
      returned as it stands otherwise. */
  lemma BodyIsDecodedExactlyWhenChunked(other: HeadReader, size: SizeReader, first: StatusLine, status: nat,
                                        headers: seq<Header>, body: Bytes)
    requires WellFormedHead(first, status, headers)
    ensures ParseResponse(HeadOf(other), size, HeadText(first, headers) + BLANK_LINE + body) ==
            if !AnyChunked(headers) then Some((status, body))
            else if Decode(size, body).Some? then Some((status, Decode(size, body).value)) else None
  {
    HeadIsRead(other, first, status, headers);
    BodyFollowsHead(HeadOf(other), size, HeadText(first, headers), body);
  }

  // No blank in it.
  ghost predicate Solid(s: Bytes) {
    s != [] && forall i :: 0 <= i < |s| ==> s[i] !in [9, 10, 11, 12, 13, 32]
  }

  // The first line of a response in parts, between any blanks.
  datatype FirstLine = FirstLine(gap: Bytes, version: Bytes, space: Bytes, code: Bytes, reason: Bytes) {
    function Text(): Bytes { gap + (version + (space + (code + reason))) }

    ghost predicate WellFormed() {
      && Blank(gap) && Solid(version) && Blank(space) && space != [] && Solid(code)
      && (reason != [] ==> Blank(reason[..1])) && PlainLine(Text())
    }
  }

  // Blanks and a word off the front.
  lemma NextToken(gap: Bytes, word: Bytes, rest: Bytes)
    requires Blank(gap) && Solid(word) && (rest != [] ==> IsSpace(rest[0]))
    ensures Tokens(gap + (word + rest)) == [word] + Tokens(rest)
  {
    SkipBlanks(gap, word + rest);
    FirstToken(word, rest);
  }

  lemma SecondToken(first: FirstLine)
    requires first.WellFormed()
    ensures |Tokens(first.Text())| >= 2 && Tokens(first.Text())[1] == first.code
  {
    var rest := first.space + (first.code + first.reason);
    assert rest[0] == first.space[0] && first.space[0] in [9, 10, 11, 12, 13, 32];
    assert first.reason != [] ==> first.reason[..1][0] == first.reason[0];
    NextToken(first.gap, first.version, rest);
    NextToken(first.space, first.code, first.reason);
  }

  /** Whatever stands where the status should is read as one or the response is refused:
      the second word of the first line is a number within 16 bits or nothing is read. */
  lemma OnlyAStatusIsRead(other: HeadReader, size: SizeReader, first: FirstLine, rest: seq<Bytes>, body: Bytes)
    requires first.WellFormed() && PlainLines(rest)
    ensures (forall n :: !WritesStatus(first.code, n)) ==>
              ParseResponse(HeadOf(other), size, Joined(first.Text(), rest) + BLANK_LINE + body).None?
    ensures forall n :: WritesStatus(first.code, n) ==>
              HeadOf(other)(Joined(first.Text(), rest)).Some? && HeadOf(other)(Joined(first.Text(), rest)).value.0 == n
  {
    var text := Joined(first.Text(), rest);
    SecondToken(first);
    JoinedIsAscii(first.Text(), rest);
    JoinedSplits(first.Text(), rest);
    JoinedEndsHead(first.Text(), rest);
    StatusOfLines(text, [first.Text()] + rest, first.code);
    if FromDecimal(first.code).Some? { StatusIsExact(first.code, FromDecimal(first.code).value); }
    forall n: nat | WritesStatus(first.code, n) ensures FromDecimal(first.code) == Some(n) {
      StatusIsExact(first.code, n);
    }
    RefusedHead(HeadOf(other), size, text, body);
  }

  lemma StatusOfLines(text: Bytes, lines: seq<Bytes>, code: Bytes)
    requires SplitLines(text) == lines && lines != [] && |Tokens(lines[0])| >= 2 && Tokens(lines[0])[1] == code
    ensures ReadHead(text).Some? <==> FromDecimal(code).Some?
    ensures ReadHead(text).Some? ==> ReadHead(text).value.0 == FromDecimal(code).value
  {}

  lemma {:induction false} SkipBlanks(gap: Bytes, s: Bytes)
    requires Blank(gap)
    ensures Tokens(gap + s) == Tokens(s)
  {
    if gap == [] {
      assert gap + s == s;
    } else {
      assert (gap + s)[1..] == gap[1..] + s;
      SkipBlanks(gap[1..], s);
    }
  }

  lemma RefusedHead(head: HeadReader, size: SizeReader, text: Bytes, body: Bytes)
    requires EndsHead(text)
    ensures head(text).None? ==> ParseResponse(head, size, text + BLANK_LINE + body).None?
  {
    HeadEndsThere(text, body);
    HeadSplits(text, body);
  }

  /** However a body is framed it reads the same: whole under a head that names no
      chunked encoding, or in chunks without extensions under one that does. */
  lemma FramingDoesNotMatter(other: HeadReader, sizes: SizeReader, first: StatusLine, status: nat,
                             headers: seq<Header>, chunked: seq<Header>, chunks: seq<Chunk>, last: Chunk,
                             trailer: Bytes)
    requires WellFormedHead(first, status, headers) && !AnyChunked(headers)
    requires WellFormedHead(first, status, chunked) && AnyChunked(chunked)
    requires StopsAtExtensions(sizes) && WellFormed(chunks, last) && Plain(chunks, last)
    ensures ParseResponse(HeadOf(other), SizeOf(sizes),
                          HeadText(first, chunked) + BLANK_LINE + Encode(chunks, last, trailer)) ==
            ParseResponse(HeadOf(other), SizeOf(sizes), HeadText(first, headers) + BLANK_LINE + Body(chunks)) ==
            Some((status, Body(chunks)))
  {
    BodyIsDecodedExactlyWhenChunked(other, SizeOf(sizes), first, status, headers, Body(chunks));
    BodyIsDecodedExactlyWhenChunked(other, SizeOf(sizes), first, status, chunked, Encode(chunks, last, trailer));
    ChunksAreDecodedUnlessExtended(sizes, chunks, last, trailer);
  }

  /** A list of codings that ends in chunked is not taken for chunked: the chunks come
      back as they were sent. */
  lemma ListOfCodingsIsNotDecoded(other: HeadReader, size: SizeReader, first: StatusLine, status: nat, coding: Bytes,
                                  body: Bytes)
    requires coding != [] && PlainText(coding) && !IsSpace(coding[0])
    requires var h := Header(TransferEncoding(), coding + [44, SPACE] + Chunked()); WellFormedHead(first, status, [h])
    ensures var h := Header(TransferEncoding(), coding + [44, SPACE] + Chunked());
            ParseResponse(HeadOf(other), size, HeadText(first, [h]) + BLANK_LINE + body) == Some((status, body))
  {
    var value := coding + [44, SPACE] + Chunked();
    var h := Header(TransferEncoding(), value);
    LongerIsNotChunked(value);
    TrimmedIsPadded(value, "chunked");
    BodyIsDecodedExactlyWhenChunked(other, size, first, status, [h], body);
  }

  lemma LongerIsNotChunked(value: Bytes)
    requires |value| > 7 && !IsSpace(value[0]) && value[|value| - 1] == Chunked()[6]
    ensures !Same(Trim(value), Chunked())
  {
    assert Chunked()[6] == 100;
    assert |Lower(Trim(value))| == |value| && |Lower(Chunked())| == 7;
  }

  // ---------- a response, byte by byte ----------

  lemma AsciiJoins(a: string, b: string)
    ensures Ascii(a + b) == Ascii(a) + Ascii(b)
  {}

  const HELLO_STATUS := "HTTP/1.1" + (" " + ("200" + " OK"))
  const HELLO_HEADER := "Transfer-Encoding" + (":" + " chunked")
  const HELLO_HEAD := HELLO_STATUS + ("\r\n" + HELLO_HEADER)
  const HELLO_BODY := "5\r\nhello\r\n0\r\n\r\n"

  /** A response as a server writes it, and what is read of it. */
  lemma HelloIsRead(other: HeadReader, sizes: SizeReader)
    requires StopsAtExtensions(sizes)
    ensures ParseResponse(HeadOf(other), SizeOf(sizes), Ascii(HELLO_HEAD) + Ascii("\r\n\r\n") + Ascii(HELLO_BODY))
            == Some((200, Ascii("hello")))
  {
    var first := HelloStatus();
    var h := HelloHeader();
    var c, last := HelloBody();
    OneHeader(first, h);
    AsciiJoins(HELLO_STATUS, "\r\n" + HELLO_HEADER);
    AsciiJoins("\r\n", HELLO_HEADER);
    assert Ascii("\r\n") == CRLF && Ascii("\r\n\r\n") == BLANK_LINE;
    HelloIsDecoded(other, sizes, first, h, c, last, Ascii(HELLO_HEAD), Ascii(HELLO_BODY));
  }

  lemma HelloIsDecoded(other: HeadReader, sizes: SizeReader, first: StatusLine, h: Header, c: Chunk, last: Chunk,
                       head: Bytes, body: Bytes)
    requires StopsAtExtensions(sizes) && WellFormedHead(first, 200, [h]) && AnyChunked([h])
    requires WellFormed([c], last) && Plain([c], last)
    requires head == HeadText(first, [h]) && body == Encode([c], last, CRLF)
    ensures ParseResponse(HeadOf(other), SizeOf(sizes), head + BLANK_LINE + body) == Some((200, Body([c])))
  {
    BodyIsDecodedExactlyWhenChunked(other, SizeOf(sizes), first, 200, [h], body);
    ChunksAreDecodedUnlessExtended(sizes, [c], last, CRLF);
  }

  lemma OneHeader(first: StatusLine, h: Header)
    ensures HeadText(first, [h]) == first.Line() + (CRLF + h.Line())
  {
    LinesAre([h]);
    var line, none: seq<Bytes> := h.Line(), [];
    assert HeaderLines([h]) == [line] && [line][1..] == none;
    assert Joined(line, none) == line;
    assert first.Line() + CRLF + line == first.Line() + (CRLF + line);
  }

  // Visible ASCII, and spaces.
  ghost predicate Printable(s: string) {
    forall i :: 0 <= i < |s| ==> ' ' <= s[i] <= '~'
  }

  lemma PrintableIsPlain(s: string)
    requires Printable(s)
    ensures PlainText(Ascii(s)) && (' ' !in s ==> forall i :: 0 <= i < |s| ==> !IsSpace(Ascii(s)[i]))
  {}

  lemma StatusText(version: string, code: string, reason: string)
    ensures StatusLine(Ascii(version), Ascii(code), Ascii(reason)).Line() ==
            Ascii(version + (" " + (code + reason)))
  {
    AsciiJoins(version, " " + (code + reason));
    AsciiJoins(" ", code + reason);
    AsciiJoins(code, reason);
    assert Ascii(" ") == [SPACE];
    JoinIsAssociative(Ascii(version), [SPACE], Ascii(code) + Ascii(reason));
  }

  lemma HeaderText(name: string, value: string)
    ensures Header(Ascii(name), Ascii(value)).Line() == Ascii(name + (":" + value))
  {
    AsciiJoins(name, ":" + value);
    AsciiJoins(":", value);
    assert Ascii(":") == [COLON];
    JoinIsAssociative(Ascii(name), [COLON], Ascii(value));
  }

  lemma HelloStatus() returns (first: StatusLine)
    ensures first.WellFormed(200) && first.Line() == Ascii(HELLO_STATUS)
  {
    first := StatusLine(Ascii("HTTP/1.1"), Ascii("200"), Ascii(" OK"));
    StatusText("HTTP/1.1", "200", " OK");
    PrintableIsPlain("HTTP/1.1");
    PrintableIsPlain(" OK");
    TwoHundred(first.code);
  }

  lemma TwoHundred(s: Bytes)
    requires s == Ascii("200")
    ensures Writes(s, 10, 200)
  {
    assert NumberText(2, 10) == "2" && NumberText(20, 10) == "20" && NumberText(200, 10) == "200";
    assert Zeros(0) + NumberText(200, 10) == "200";
    assert Spells(s, Zeros(0) + NumberText(200, 10));
  }

  lemma HelloHeader() returns (h: Header)
    ensures h.WellFormed() && h.SaysChunked() && h.Line() == Ascii(HELLO_HEADER) && AnyChunked([h])
  {
    h := Header(Ascii("Transfer-Encoding"), Ascii(" chunked"));
    HeaderText("Transfer-Encoding", " chunked");
    PrintableIsPlain("Transfer-Encoding");
    PrintableIsPlain(" chunked");
    HelloName(h.name);
    HelloValue(h.value);
    assert [h][0].SaysChunked();
  }

  lemma SpelledIsPadded(s: Bytes, text: string, a: nat)
    requires a <= |s| && Blank(s[..a]) && Spells(s[a..], text)
    ensures Padded(s, text)
  {
    assert s[a..|s|] == s[a..];
    assert PaddedAt(s, text, a, |s|);
  }

  lemma HelloName(s: Bytes)
    requires s == Ascii("Transfer-Encoding")
    ensures Padded(s, "transfer-encoding") && COLON !in s
  {
    assert s[0..] == s;
    SpelledIsPadded(s, "transfer-encoding", 0);
  }

  lemma HelloValue(s: Bytes)
    requires s == Ascii(" chunked")
    ensures Padded(s, "chunked")
  {
    SpelledIsPadded(s, "chunked", 1);
  }

  lemma HelloBody() returns (c: Chunk, last: Chunk)
    ensures WellFormed([c], last) && Plain([c], last) && Body([c]) == Ascii("hello")
    ensures Encode([c], last, CRLF) == Ascii(HELLO_BODY)
  {
    c, last := Chunk(Ascii("5"), [], Ascii("hello")), Chunk(Ascii("0"), [], []);
    OneDigit(c.size, 5);
    OneDigit(last.size, 0);
    assert c.size + [] == c.size && last.size + [] == last.size && [c][1..] == [];
  }
}
