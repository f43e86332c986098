/**
 The image cache client's reading of an HTTP response
 (parse_response in packages/vm-runner/src/cacheapi.rs): the body of a response is
 everything after its head, or the chunks of a chunked body put together.

 Reading the head, and reading the number on a chunk's size line, are parameters
 of the decoder; `SizeOf` is the number reading itself, and ResponseHead the reading
 of the head.
 */
module ChunkedBody {
  import opened Lines
  import opened Wrappers

  const CR: Byte := 13
  const LF: Byte := 10
  const CRLF: Bytes := [CR, LF]
  const SEMICOLON: Byte := 59
  const PLUS: Byte := 43
  const USIZE := 0x1_0000_0000_0000_0000

  type SizeReader = Bytes -> Option<nat>

  // ---------- where a line ends ----------

  predicate CrlfAt(s: Bytes, i: nat) {
    i + 1 < |s| && s[i] == CR && s[i + 1] == LF
  }

  function FindCrlf(s: Bytes): Option<nat> {
    if |s| < 2 then None
    else if CrlfAt(s, 0) then Some(0)
    else
      var i := FindCrlf(s[1..]);
      if i.None? then None else Some(i.value + 1)
  }

  ghost predicate NoCrlf(s: Bytes) {
    |s| < 2 || (!CrlfAt(s, 0) && NoCrlf(s[1..]))
  }

  lemma {:induction false} FindCrlfIs(s: Bytes)
    ensures FindCrlf(s).Some? ==> CrlfAt(s, FindCrlf(s).value) && NoCrlf(s[..FindCrlf(s).value])
    ensures FindCrlf(s).None? ==> NoCrlf(s)
  {
    if |s| >= 2 && !CrlfAt(s, 0) {
      FindCrlfIs(s[1..]);
      if FindCrlf(s).Some? {
        var front := s[..FindCrlf(s).value];
        assert front[1..] == s[1..][..FindCrlf(s).value - 1];
      }
    }
  }

  lemma {:induction false} FirstCrlf(line: Bytes, rest: Bytes)
    requires NoCrlf(line)
    ensures FindCrlf(line + CRLF + rest) == Some(|line|)
  {
    if line != [] {
      assert (line + CRLF + rest)[1..] == line[1..] + CRLF + rest;
      FirstCrlf(line[1..], rest);
    }
  }

  // ---------- the decoder ----------

  /** The chunks of `rest` put together, or None where the original gives up. */
  function Decode(size: SizeReader, rest: Bytes): Option<Bytes>
    decreases |rest|
  {
    var end := FindCrlf(rest);
    if end.None? || end.value + 2 > |rest| then None else
      var n := size(rest[..end.value]);
      if n.None? then None
      else if n.value == 0 then Some([])
      else
        var after := rest[end.value + 2..];
        if n.value + 2 > |after| then None else
          var more := Decode(size, after[n.value + 2..]);
          if more.None? then None else Some(after[..n.value] + more.value)
  }

  // ---------- the texts it accepts ----------

  /** A size line, the data it announces, and the two bytes after them, which the
      decoder skips whatever they are. */
  datatype Frame = Frame(line: Bytes, data: Bytes, skipped: Bytes) {
    ghost predicate Fits(size: SizeReader) {
      NoCrlf(line) && data != [] && size(line) == Some(|data|) && |skipped| == 2
    }
  }

  ghost function Text(frames: seq<Frame>, last: Bytes, rest: Bytes): Bytes {
    if frames == [] then last + CRLF + rest
    else frames[0].line + CRLF + (frames[0].data + frames[0].skipped + Text(frames[1..], last, rest))
  }

  ghost function Data(frames: seq<Frame>): Bytes {
    if frames == [] then [] else frames[0].data + Data(frames[1..])
  }

  ghost predicate Framed(size: SizeReader, frames: seq<Frame>, last: Bytes) {
    && (forall i :: 0 <= i < |frames| ==> frames[i].Fits(size))
    && NoCrlf(last) && size(last) == Some(0)
  }

  lemma AfterLine(line: Bytes, rest: Bytes)
    ensures (line + CRLF + rest)[..|line|] == line && (line + CRLF + rest)[|line| + 2..] == rest
  {}

  lemma AfterData(data: Bytes, skipped: Bytes, rest: Bytes)
    requires |skipped| == 2
    ensures (data + skipped + rest)[..|data|] == data && (data + skipped + rest)[|data| + 2..] == rest
  {}

  // One frame off the front.
  lemma DecodeFrame(size: SizeReader, f: Frame, rest: Bytes)
    requires f.Fits(size)
    ensures Decode(size, f.line + CRLF + (f.data + f.skipped + rest)) ==
            var more := Decode(size, rest); if more.None? then None else Some(f.data + more.value)
  {
    FirstCrlf(f.line, f.data + f.skipped + rest);
    AfterLine(f.line, f.data + f.skipped + rest);
    AfterData(f.data, f.skipped, rest);
  }

  lemma {:induction false} FramesAreDecoded(size: SizeReader, frames: seq<Frame>, last: Bytes, rest: Bytes)
    requires Framed(size, frames, last)
    ensures Decode(size, Text(frames, last, rest)) == Some(Data(frames))
  {
    if frames == [] {
      FirstCrlf(last, rest);
      AfterLine(last, rest);
    } else {
      DecodeFrame(size, frames[0], Text(frames[1..], last, rest));
      FramesAreDecoded(size, frames[1..], last, rest);
    }
  }

  lemma TakeApart(b: Bytes, end: nat)
    requires CrlfAt(b, end)
    ensures b == b[..end] + CRLF + b[end + 2..]
  {}

  lemma TakeDataApart(after: Bytes, n: nat)
    requires n + 2 <= |after|
    ensures after == after[..n] + after[n..n + 2] + after[n + 2..]
  {}

  lemma {:induction false} DecodedIsFramed(size: SizeReader, b: Bytes)
    returns (frames: seq<Frame>, last: Bytes, rest: Bytes)
    requires Decode(size, b).Some?
    ensures Framed(size, frames, last) && b == Text(frames, last, rest) && Decode(size, b).value == Data(frames)
    decreases |b|
  {
    var end := FindCrlf(b).value;
    FindCrlfIs(b);
    TakeApart(b, end);
    var n, after := size(b[..end]).value, b[end + 2..];
    if n == 0 {
      frames, last, rest := [], b[..end], after;
    } else {
      TakeDataApart(after, n);
      var f := Frame(b[..end], after[..n], after[n..n + 2]);
      var more, l, r := DecodedIsFramed(size, after[n + 2..]);
      frames, last, rest := [f] + more, l, r;
      assert frames[1..] == more;
    }
  }

  /** The decoder accepts exactly the texts made of frames and a last line of size 0,
      and returns their data put together; what follows the last line does not matter. */
  lemma DecodeIsExact(size: SizeReader, b: Bytes, d: Bytes)
    ensures Decode(size, b) == Some(d) <==>
            exists frames, last, rest :: Framed(size, frames, last) && b == Text(frames, last, rest)
                && d == Data(frames)
  {
    if Decode(size, b) == Some(d) {
      var frames, last, rest := DecodedIsFramed(size, b);
    }
    forall frames, last, rest | Framed(size, frames, last) && b == Text(frames, last, rest) && d == Data(frames)
      ensures Decode(size, b) == Some(d)
    {
      FramesAreDecoded(size, frames, last, rest);
    }
  }

  // ---------- the number on a size line ----------

  predicate IsSpace(b: Byte) {
    b == 32 || 9 <= b <= 13
  }

  function Trim(s: Bytes): Bytes {
    if s == [] then []
    else if IsSpace(s[0]) then Trim(s[1..])
    else if IsSpace(s[|s| - 1]) then Trim(s[..|s| - 1])
    else s
  }

  function HexDigit(b: Byte): Option<nat> {
    if 48 <= b <= 57 then Some(b - 48)
    else if 97 <= b <= 102 then Some(b - 87)
    else if 65 <= b <= 70 then Some(b - 55)
    else None
  }

  // The value of hexadecimal digits of either case, with any leading zeros.
  function HexValue(s: Bytes): Option<nat> {
    if s == [] then Some(0) else
      var front, last := HexValue(s[..|s| - 1]), HexDigit(s[|s| - 1]);
      if front.None? || last.None? then None else Some(front.value * 16 + last.value)
  }

  function FromHex(s: Bytes): Option<nat> {
    var digits := if s != [] && s[0] == PLUS then s[1..] else s;
    var n := HexValue(digits);
    if digits == [] || n.None? || n.value >= USIZE then None else n
  }

  /** A size line of ASCII is trimmed and read as hexadecimal, a number past 64 bits
      being refused; `other` is what is read from a line with bytes past ASCII. */
  function SizeOf(other: SizeReader): SizeReader {
    (line: Bytes) => if forall i :: 0 <= i < |line| ==> line[i] < 128 then FromHex(Trim(line)) else other(line)
  }

  // ---------- how words and numbers are written ----------

  // The text in ASCII, with any of its small letters made capital.
  ghost predicate Spells(s: Bytes, text: string) {
    |s| == |text| && forall i :: 0 <= i < |s| ==> SpellsOne(s[i], text[i])
  }

  predicate SpellsOne(b: Byte, c: char) {
    b == c as int || ('a' <= c <= 'z' && b == c as int - 32)
  }

  // Spaces, tabs and the other blanks of ASCII.
  ghost predicate Blank(s: Bytes) {
    forall i :: 0 <= i < |s| ==> s[i] in [9, 10, 11, 12, 13, 32]
  }

  // The text with blanks around it.
  ghost predicate Padded(s: Bytes, text: string) {
    exists a, b :: PaddedAt(s, text, a, b)
  }

  ghost predicate PaddedAt(s: Bytes, text: string, a: nat, b: nat) {
    a <= b <= |s| && Blank(s[..a]) && Spells(s[a..b], text) && Blank(s[b..])
  }

  const DIGITS := "0123456789abcdef"

  function NumberText(n: nat, base: nat): string
    requires 2 <= base <= 16
  {
    (if n < base then "" else NumberText(n / base, base)) + [DIGITS[n % base]]
  }

  function Zeros(k: nat): string {
    seq(k, _ => '0')
  }

  /** The number in digits of the base, with any zeros ahead of it and letters of either
      case. */
  ghost predicate Writes(s: Bytes, base: nat, n: nat)
    requires 2 <= base <= 16
  {
    exists k: nat :: Spells(s, Zeros(k) + NumberText(n, base))
  }

  lemma SpellsSplit(s: Bytes, text: string, c: char)
    requires Spells(s, text + [c])
    ensures s != [] && SpellsOne(s[|s| - 1], c) && Spells(s[..|s| - 1], text)
  {
    var all := text + [c];
    assert all[|text|] == c && all[..|text|] == text;
  }

  lemma SpellsJoin(s: Bytes, b: Byte, text: string, c: char)
    requires Spells(s, text) && SpellsOne(b, c)
    ensures Spells(s + [b], text + [c])
  {}

  lemma ZerosGrow(k: nat)
    ensures Zeros(k) + "0" == Zeros(k + 1)
  {}

  // A number without its last digit, and the digit.
  lemma LastDigit(k: nat, base: nat, n: nat) returns (text: string)
    requires 2 <= base <= 16
    ensures Zeros(k) + NumberText(n, base) == text + [DIGITS[n % base]]
    ensures text == "" ==> n < base
    ensures text != "" ==> exists k': nat :: text == Zeros(k') + NumberText(n / base, base)
  {
    if n >= base {
      text := Zeros(k) + NumberText(n / base, base);
      JoinIsAssociative(Zeros(k), NumberText(n / base, base), [DIGITS[n % base]]);
    } else {
      text := Zeros(k);
      assert NumberText(n, base) == "" + [DIGITS[n % base]];
      if k > 0 { ZeroAhead(k, base, n); }
    }
  }

  lemma ZeroAhead(k: nat, base: nat, n: nat)
    requires 2 <= base <= 16 && n < base && k > 0
    ensures Zeros(k) == Zeros(k - 1) + NumberText(n / base, base)
  {
    assert n / base == 0;
    assert NumberText(0, base) == "" + [DIGITS[0]] == "0";
    ZerosGrow(k - 1);
  }

  // The last digit of a written number, and what is ahead of it.
  lemma LastOfNumber(s: Bytes, base: nat, n: nat)
    requires 2 <= base <= 16 && Writes(s, base, n)
    ensures s != [] && SpellsOne(s[|s| - 1], DIGITS[n % base])
    ensures if |s| == 1 then n < base else Writes(s[..|s| - 1], base, n / base)
  {
    var k: nat :| Spells(s, Zeros(k) + NumberText(n, base));
    var text := LastDigit(k, base, n);
    SpellsSplit(s, text, DIGITS[n % base]);
  }

  lemma {:induction false} HexIsValued(s: Bytes, n: nat)
    requires Writes(s, 16, n)
    ensures s != [] && (forall i :: 0 <= i < |s| ==> HexDigit(s[i]).Some?) && HexValue(s) == Some(n)
    decreases |s|
  {
    LastOfNumber(s, 16, n);
    var last := |s| - 1;
    DigitIsHex(s[last], n % 16);
    if last > 0 {
      HexIsValued(s[..last], n / 16);
      assert forall i :: 0 <= i < last ==> s[i] == s[..last][i];
    }
  }

  lemma DigitIsHex(b: Byte, d: nat)
    requires d < 16 && SpellsOne(b, DIGITS[d])
    ensures HexDigit(b) == Some(d)
  {}

  // Text between blanks.
  ghost predicate Within(s: Bytes, a: nat, b: nat) {
    a < b <= |s| && Blank(s[..a]) && Blank(s[b..]) && !IsSpace(s[a]) && !IsSpace(s[b - 1])
  }

  lemma WithoutFirst(s: Bytes, a: nat, b: nat)
    requires Within(s, a, b) && a > 0
    ensures IsSpace(s[0]) && Within(s[1..], a - 1, b - 1) && s[1..][a - 1..b - 1] == s[a..b]
  {
    var t := s[1..];
    assert s[..a][0] == s[0];
    assert t[..a - 1] == s[..a][1..] && t[b - 1..] == s[b..] && t[a - 1] == s[a] && t[b - 2] == s[b - 1];
  }

  lemma WithoutLast(s: Bytes, a: nat, b: nat)
    requires Within(s, a, b) && b < |s|
    ensures IsSpace(s[|s| - 1]) && Within(s[..|s| - 1], a, b) && s[..|s| - 1][a..b] == s[a..b]
  {
    var t, n := s[..|s| - 1], |s| - 1;
    assert s[b..][n - b] == s[n];
    assert t[..a] == s[..a] && t[b..] == s[b..][..n - b];
  }

  lemma {:induction false} TrimOfPadded(s: Bytes, a: nat, b: nat)
    requires Within(s, a, b)
    ensures Trim(s) == s[a..b]
    decreases |s|
  {
    if a > 0 {
      WithoutFirst(s, a, b);
      TrimOfPadded(s[1..], a - 1, b - 1);
    } else if b < |s| {
      WithoutLast(s, a, b);
      TrimOfPadded(s[..|s| - 1], a, b);
    } else {
      assert s[a..b] == s;
    }
  }

  // What was trimmed off is blank.
  lemma {:induction false} TrimIsPadded(s: Bytes) returns (a: nat, b: nat)
    ensures a <= b <= |s| && Blank(s[..a]) && Blank(s[b..]) && Trim(s) == s[a..b]
    decreases |s|
  {
    if s != [] && IsSpace(s[0]) {
      a, b := TrimIsPadded(s[1..]);
      PadAhead(s, a, b);
      a, b := a + 1, b + 1;
    } else if s != [] && IsSpace(s[|s| - 1]) {
      a, b := TrimIsPadded(s[..|s| - 1]);
      PadBehind(s, a, b);
    } else {
      a, b := 0, |s|;
      assert s[0..|s|] == s;
    }
  }

  lemma PadAhead(s: Bytes, a: nat, b: nat)
    requires s != [] && IsSpace(s[0]) && a <= b < |s| && Blank(s[1..][..a]) && Blank(s[1..][b..])
    ensures Blank(s[..a + 1]) && Blank(s[b + 1..]) && s[1..][a..b] == s[a + 1..b + 1]
  {
    assert s[..a + 1] == [s[0]] + s[1..][..a] && s[b + 1..] == s[1..][b..];
  }

  lemma PadBehind(s: Bytes, a: nat, b: nat)
    requires s != [] && IsSpace(s[|s| - 1]) && a <= b < |s|
    requires Blank(s[..|s| - 1][..a]) && Blank(s[..|s| - 1][b..])
    ensures Blank(s[..a]) && Blank(s[b..]) && s[..|s| - 1][a..b] == s[a..b]
  {
    var t := s[..|s| - 1];
    assert s[b..] == t[b..] + [s[|s| - 1]] && s[..a] == t[..a];
  }

  // One more digit behind a number.
  lemma OneMoreDigit(s: Bytes, b: Byte, base: nat, n: nat, digit: nat)
    requires (base == 10 || base == 16) && digit < base && SpellsOne(b, DIGITS[digit]) && Writes(s, base, n)
    ensures Writes(s + [b], base, n * base + digit)
  {
    var k: nat :| Spells(s, Zeros(k) + NumberText(n, base));
    SpellsJoin(s, b, Zeros(k) + NumberText(n, base), DIGITS[digit]);
    var k' := TextGrows(k, base, n, digit, n * base + digit);
  }

  lemma TextGrows(k: nat, base: nat, n: nat, digit: nat, more: nat) returns (k': nat)
    requires (base == 10 || base == 16) && digit < base && more == n * base + digit
    ensures Zeros(k') + NumberText(more, base) == Zeros(k) + NumberText(n, base) + [DIGITS[digit]]
  {
    DivideByBase(n, base, digit);
    k' := k;
    if n == 0 {
      k' := k + 1;
      ZerosGrow(k);
      assert NumberText(0, base) == "0" && NumberText(more, base) == [DIGITS[digit]];
    } else {
      assert NumberText(more, base) == NumberText(n, base) + [DIGITS[digit]];
    }
  }

  lemma DivideByBase(n: nat, base: nat, digit: nat)
    requires (base == 10 || base == 16) && digit < base
    ensures (n * base + digit) / base == n && (n * base + digit) % base == digit
    ensures n > 0 ==> n * base + digit >= base
  {
    if base == 10 { assert (n * 10 + digit) / 10 == n; } else { assert (n * 16 + digit) / 16 == n; }
  }

  // One digit alone.
  lemma FirstDigit(b: Byte, base: nat, digit: nat)
    requires 2 <= base <= 16 && digit < base && SpellsOne(b, DIGITS[digit])
    ensures Writes([b], base, digit)
  {
    assert Zeros(0) + NumberText(digit, base) == [DIGITS[digit]];
    assert Spells([b], Zeros(0) + NumberText(digit, base));
  }

  // One more hexadecimal digit.
  lemma HexGrows(s: Bytes, b: Byte, n: nat)
    requires HexDigit(b).Some? && (s == [] ==> n == 0) && (s != [] ==> Writes(s, 16, n))
    ensures Writes(s + [b], 16, n * 16 + HexDigit(b).value)
  {
    var digit := HexDigit(b).value;
    assert digit < 16 && SpellsOne(b, DIGITS[digit]);
    if s == [] {
      assert s + [b] == [b];
      FirstDigit(b, 16, digit);
    } else {
      OneMoreDigit(s, b, 16, n, digit);
    }
  }

  // What has a value is written so.
  lemma {:induction false} ValueIsWritten(s: Bytes, n: nat)
    requires s != [] && HexValue(s) == Some(n)
    ensures Writes(s, 16, n)
    decreases |s|
  {
    var front, b := s[..|s| - 1], s[|s| - 1];
    var m := HexValue(front).value;
    if front != [] { ValueIsWritten(front, m); }
    HexGrows(front, b, m);
    assert front + [b] == s;
  }

  // A number in hexadecimal, with a plus ahead or not.
  ghost predicate WritesSize(s: Bytes, n: nat) {
    Writes(s, 16, n) || (s != [] && s[0] == PLUS && Writes(s[1..], 16, n))
  }

  lemma SizeIsHex(s: Bytes, n: nat)
    requires WritesSize(s, n)
    ensures s != [] && !IsSpace(s[0]) && !IsSpace(s[|s| - 1]) && forall i :: 0 <= i < |s| ==> s[i] < 128
    ensures FromHex(s) == if n < USIZE then Some(n) else None
  {
    if Writes(s, 16, n) {
      HexIsValued(s, n);
      assert HexDigit(s[0]).Some?;
    } else {
      HexIsValued(s[1..], n);
      forall i | 0 <= i < |s| ensures s[i] < 128 { if i > 0 { assert HexDigit(s[1..][i - 1]).Some?; } }
      assert s[1..][|s| - 2] == s[|s| - 1];
    }
  }

  /** A number in hexadecimal is read as such, whatever blanks are around it and with a
      plus ahead or not, and refused if it passes 64 bits. */
  lemma HexIsRead(other: SizeReader, line: Bytes, a: nat, b: nat, n: nat)
    requires a <= b <= |line| && Blank(line[..a]) && Blank(line[b..]) && WritesSize(line[a..b], n)
    ensures SizeOf(other)(line) == if n < USIZE then Some(n) else None
  {
    SizeIsHex(line[a..b], n);
    forall i | 0 <= i < |line| ensures line[i] < 128 {
      if i < a {
        assert line[i] == line[..a][i];
      } else if i >= b {
        assert line[i] == line[b..][i - b];
      } else {
        assert line[i] == line[a..b][i - a];
      }
    }
    TrimOfPadded(line, a, b);
  }

  ghost predicate PaddedSize(line: Bytes, a: nat, b: nat, n: nat) {
    a <= b <= |line| && Blank(line[..a]) && Blank(line[b..]) && WritesSize(line[a..b], n)
  }

  /** And nothing else is: what is read off a line of ASCII is a number within 64 bits
      that stands on it so. A line with other bytes is read as the parameter says. */
  lemma OnlyHexIsRead(other: SizeReader, line: Bytes)
    ensures (exists i :: 0 <= i < |line| && line[i] >= 128) ==> SizeOf(other)(line) == other(line)
    ensures SizeOf(other)(line).Some? && (forall i :: 0 <= i < |line| ==> line[i] < 128) ==>
              SizeOf(other)(line).value < USIZE && exists a, b :: PaddedSize(line, a, b, SizeOf(other)(line).value)
  {
    if (forall i :: 0 <= i < |line| ==> line[i] < 128) && FromHex(Trim(line)).Some? {
      var a, b := TrimIsPadded(line);
      var text := Trim(line);
      ValueIsWritten(if text[0] == PLUS then text[1..] else text, FromHex(text).value);
      assert PaddedSize(line, a, b, FromHex(text).value);
    }
  }

  lemma {:induction false} HexHasNoCrlf(s: Bytes)
    requires forall i :: 0 <= i < |s| ==> HexDigit(s[i]).Some?
    ensures NoCrlf(s)
  {
    if |s| >= 2 { HexHasNoCrlf(s[1..]); }
  }

  lemma {:induction false} OneBadDigit(s: Bytes, b: Byte)
    requires b in s && HexDigit(b).None?
    ensures HexValue(s).None?
  {
    var n := |s| - 1;
    if s[n] != b {
      assert b in s[..n];
      OneBadDigit(s[..n], b);
    }
  }

  lemma {:induction false} TrimKeeps(s: Bytes, b: Byte)
    requires b in s && !IsSpace(b)
    ensures b in Trim(s)
  {
    if IsSpace(s[0]) {
      assert b in s[1..];
      TrimKeeps(s[1..], b);
    } else if IsSpace(s[|s| - 1]) {
      assert b in s[..|s| - 1];
      TrimKeeps(s[..|s| - 1], b);
    }
  }

  /** A size line with a chunk extension on it is refused. */
  lemma ExtensionIsRefused(other: SizeReader, line: Bytes)
    requires SEMICOLON in line && other(line).None?
    ensures SizeOf(other)(line).None?
  {
    TrimKeeps(line, SEMICOLON);
    var t := Trim(line);
    var digits := if t != [] && t[0] == PLUS then t[1..] else t;
    assert SEMICOLON in digits;
    OneBadDigit(digits, SEMICOLON);
  }

  // ---------- a chunked body, as section 7.1 of RFC 9112 writes it ----------

  /** A chunk: its size in hexadecimal, an extension or nothing, and its data. The
      last chunk has no data. */
  datatype Chunk = Chunk(size: Bytes, extension: Bytes, data: Bytes) {
    ghost predicate WellFormed() {
      && Writes(size, 16, |data|) && |data| < USIZE
      && NoCrlf(size + extension) && (extension != [] ==> SEMICOLON in extension)
    }
  }

  ghost predicate WellFormed(chunks: seq<Chunk>, last: Chunk) {
    && (forall i :: 0 <= i < |chunks| ==> chunks[i].WellFormed() && chunks[i].data != [])
    && last.WellFormed() && last.data == []
  }

  ghost function Encode(chunks: seq<Chunk>, last: Chunk, trailer: Bytes): Bytes {
    if chunks == [] then last.size + last.extension + CRLF + trailer
    else chunks[0].size + chunks[0].extension + CRLF + (chunks[0].data + CRLF + Encode(chunks[1..], last, trailer))
  }

  ghost function Body(chunks: seq<Chunk>): Bytes {
    if chunks == [] then [] else chunks[0].data + Body(chunks[1..])
  }

  ghost predicate Plain(chunks: seq<Chunk>, last: Chunk) {
    (forall i :: 0 <= i < |chunks| ==> chunks[i].extension == []) && last.extension == []
  }

  // A reader that never reads a number past a semicolon.
  ghost predicate StopsAtExtensions(other: SizeReader) {
    forall line :: SEMICOLON in line ==> other(line).None?
  }

  lemma LineSize(other: SizeReader, c: Chunk)
    requires StopsAtExtensions(other) && c.WellFormed()
    ensures SizeOf(other)(c.size + c.extension) == if c.extension == [] then Some(|c.data|) else None
  {
    if c.extension == [] {
      assert c.size + c.extension == c.size;
      assert c.size[0..|c.size|] == c.size;
      HexIsValued(c.size, |c.data|);
      HexIsRead(other, c.size, 0, |c.size|, |c.data|);
    } else {
      ExtensionIsRefused(other, c.size + c.extension);
    }
  }

  lemma DecodeLine(size: SizeReader, line: Bytes, rest: Bytes)
    requires NoCrlf(line)
    ensures size(line).None? ==> Decode(size, line + CRLF + rest).None?
    ensures size(line) == Some(0) ==> Decode(size, line + CRLF + rest) == Some([])
  {
    FirstCrlf(line, rest);
    AfterLine(line, rest);
  }

  /** A chunked body decodes to the data of its chunks exactly when none of them
      carries an extension, and is refused as soon as one does; RFC 9112 asks a
      recipient to ignore extensions it does not know. */
  lemma {:induction false} ChunksAreDecodedUnlessExtended(other: SizeReader, chunks: seq<Chunk>, last: Chunk,
                                                          trailer: Bytes)
    requires StopsAtExtensions(other) && WellFormed(chunks, last)
    ensures Decode(SizeOf(other), Encode(chunks, last, trailer)) ==
            if Plain(chunks, last) then Some(Body(chunks)) else None
  {
    if chunks == [] {
      LineSize(other, last);
      DecodeLine(SizeOf(other), last.size + last.extension, trailer);
    } else {
      var c, more := chunks[0], Encode(chunks[1..], last, trailer);
      LineSize(other, c);
      if c.extension == [] {
        ChunksAreDecodedUnlessExtended(other, chunks[1..], last, trailer);
        DecodeFrame(SizeOf(other), Frame(c.size + c.extension, c.data, CRLF), more);
      } else {
        DecodeLine(SizeOf(other), c.size + c.extension, c.data + CRLF + more);
      }
    }
  }

  lemma OneDigit(s: Bytes, n: nat)
    requires n < 10 && s == [(48 + n) as Byte]
    ensures Writes(s, 16, n)
  {
    assert Zeros(0) + NumberText(n, 16) == [DIGITS[n]];
    assert Spells(s, Zeros(0) + NumberText(n, 16));
  }

  /** One chunk `1;a` with one byte of data, then the last chunk: a body section 7.1
      allows and the decoder refuses. */
  lemma AnExtensionIsRefused(other: SizeReader)
    requires StopsAtExtensions(other)
    ensures var chunks, last := [Chunk([49], [SEMICOLON, 97], [120])], Chunk([48], [], []);
            WellFormed(chunks, last) && Decode(SizeOf(other), Encode(chunks, last, CRLF)).None?
  {
    var c, last := Chunk([49], [SEMICOLON, 97], [120]), Chunk([48], [], []);
    OneDigit([49], 1);
    OneDigit([48], 0);
    assert c.WellFormed() by {
      var line := c.size + c.extension;
      assert line == [49, SEMICOLON, 97] && line[1..] == [SEMICOLON, 97] && line[1..][1..] == [97];
    }
    assert last.WellFormed() by { assert last.size + last.extension == [48]; }
    ChunksAreDecodedUnlessExtended(other, [c], last, CRLF);
    assert [c][0].extension != [];
  }

  // ---------- the response ----------

  /** What is read of a response's head: its status, and whether its body is chunked. */
  type HeadReader = Bytes -> Option<(nat, bool)>

  const BLANK_LINE: Bytes := [CR, LF, CR, LF]

  function FindBlankLine(s: Bytes): Option<nat> {
    if |s| < 4 then None
    else if s[..4] == BLANK_LINE then Some(0)
    else
      var i := FindBlankLine(s[1..]);
      if i.None? then None else Some(i.value + 1)
  }

  function ParseResponse(head: HeadReader, size: SizeReader, raw: Bytes): Option<(nat, Bytes)> {
    var split := FindBlankLine(raw);
    if split.None? || split.value + 4 > |raw| then None else
      var h, body := head(raw[..split.value]), raw[split.value + 4..];
      if h.None? then None
      else if !h.value.1 then Some((h.value.0, body))
      else
        var d := Decode(size, body);
        if d.None? then None else Some((h.value.0, d.value))
  }

  // A head holds no blank line, nor does its end with the one that ends it.
  ghost predicate EndsHead(text: Bytes) {
    FindBlankLine(text + BLANK_LINE) == Some(|text|)
  }

  lemma {:induction false} HeadEndsThere(text: Bytes, body: Bytes)
    requires EndsHead(text)
    ensures FindBlankLine(text + BLANK_LINE + body) == Some(|text|)
  {
    var s := text + BLANK_LINE;
    if text == [] {
      assert (s + body)[..4] == BLANK_LINE;
    } else {
      assert (s + body)[..4] == s[..4];
      assert s[1..] == text[1..] + BLANK_LINE && (s + body)[1..] == text[1..] + BLANK_LINE + body;
      HeadEndsThere(text[1..], body);
    }
  }

  /** What follows the head is the body as it stands, or decoded, as the head says. */
  lemma BodyFollowsHead(head: HeadReader, size: SizeReader, text: Bytes, body: Bytes)
    requires EndsHead(text) && head(text).Some?
    ensures var (status, chunked) := head(text).value;
            ParseResponse(head, size, text + BLANK_LINE + body) ==
            if !chunked then Some((status, body))
            else if Decode(size, body).Some? then Some((status, Decode(size, body).value)) else None
  {
    HeadEndsThere(text, body);
    HeadSplits(text, body);
  }

  lemma HeadSplits(text: Bytes, body: Bytes)
    ensures (text + BLANK_LINE + body)[..|text|] == text && (text + BLANK_LINE + body)[|text| + 4..] == body
  {}

  // ---------- the loops ----------

  method SearchCrlf(s: Bytes) returns (r: Option<nat>)
    ensures r == FindCrlf(s)
  {
    var i := 0;
    ghost var goal := FindCrlf(s);
    assert s[0..] == s;
    while i + 1 < |s|
      invariant 0 <= i <= |s|
      invariant goal == Shift(FindCrlf(s[i..]), i)
    {
      if s[i] == CR && s[i + 1] == LF { return Some(i); }
      assert s[i..][1..] == s[i + 1..];
      i := i + 1;
    }
    return None;
  }

  function Shift(r: Option<nat>, offset: nat): Option<nat> {
    if r.None? then None else Some(r.value + offset)
  }

  /** The decoding loop, on any bytes: it ends, and reads only what is there. */
  method DecodeChunks(size: SizeReader, body: Bytes) returns (r: Option<Bytes>)
    ensures r == Decode(size, body)
  {
    var decoded: Bytes, rest := [], body;
    assert Decode(size, body).Some? ==> [] + Decode(size, body).value == Decode(size, body).value;
    while true
      invariant Decode(size, body) == Prepend(decoded, Decode(size, rest))
      decreases |rest|
    {
      var end := SearchCrlf(rest);
      FindCrlfIs(rest);
      if end.None? { return None; }
      var n := size(rest[..end.value]);
      if n.None? { return None; }
      rest := rest[end.value + 2..];
      if n.value == 0 {
        assert decoded + [] == decoded;
        return Some(decoded);
      }
      if n.value > |rest| { return None; }
      var data := rest[..n.value];
      if n.value + 2 > |rest| { return None; }
      rest := rest[n.value + 2..];
      PrependTwice(decoded, data, Decode(size, rest));
      decoded := decoded + data;
    }
  }

  ghost function Prepend(front: Bytes, rest: Option<Bytes>): Option<Bytes> {
    if rest.None? then None else Some(front + rest.value)
  }

  lemma PrependTwice(a: Bytes, b: Bytes, rest: Option<Bytes>)
    ensures Prepend(a, Prepend(b, rest)) == Prepend(a + b, rest)
  {
    if rest.Some? { assert a + (b + rest.value) == a + b + rest.value; }
  }

  method SearchBlankLine(s: Bytes) returns (r: Option<nat>)
    ensures r == FindBlankLine(s)
  {
    var i := 0;
    ghost var goal := FindBlankLine(s);
    assert s[0..] == s;
    while i + 4 <= |s|
      invariant 0 <= i <= |s|
      invariant goal == Shift(FindBlankLine(s[i..]), i)
    {
      assert s[i..][..4] == s[i..i + 4] && s[i..][1..] == s[i + 1..];
      if s[i..i + 4] == BLANK_LINE { return Some(i); }
      i := i + 1;
    }
    return None;
  }

  lemma {:induction false} BlankLineFits(s: Bytes)
    ensures FindBlankLine(s).Some? ==> FindBlankLine(s).value + 4 <= |s|
  {
    if |s| >= 4 && s[..4] != BLANK_LINE { BlankLineFits(s[1..]); }
  }

  /** parse_response, on any bytes. */
  method ReadResponse(head: HeadReader, size: SizeReader, raw: Bytes) returns (r: Option<(nat, Bytes)>)
    ensures r == ParseResponse(head, size, raw)
  {
    var split := SearchBlankLine(raw);
    BlankLineFits(raw);
    if split.None? { return None; }
    var h := head(raw[..split.value]);
    if h.None? { return None; }
    var body := raw[split.value + 4..];
    if !h.value.1 { return Some((h.value.0, body)); }
    var decoded := DecodeChunks(size, body);
    if decoded.None? { return None; }
    return Some((h.value.0, decoded.value));
  }
}
