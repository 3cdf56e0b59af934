/**
 The string operations the diff parser relies on: `str.splitlines`, `str.strip`,
 `str.startswith`, runs of digits and `int`.
 */
module Text {

  /** The characters at which `str.splitlines` ends a line. */
  predicate IsBreak(c: char) {
    || c == '\n' || c == '\r' || c == '\U{0B}' || c == '\U{0C}'
    || '\U{1C}' <= c <= '\U{1E}'
    || c == '\U{85}' || c == '\U{2028}' || c == '\U{2029}'
  }

  /** The characters `str.strip` removes. Every line break is one of them. */
  predicate IsSpace(c: char) {
    || IsBreak(c) || c == ' ' || c == '\t' || c == '\U{1F}'
    || c == '\U{A0}' || c == '\U{1680}' || '\U{2000}' <= c <= '\U{200A}'
    || c == '\U{202F}' || c == '\U{205F}' || c == '\U{3000}'
  }

  /** The same characters by their code points, and the few white-space ones that do not end a line. */
  lemma CharacterCodes(c: char)
    ensures IsBreak(c) <==> c as int in {10, 11, 12, 13, 28, 29, 30, 133, 8232, 8233}
    ensures IsSpace(c) && !IsBreak(c) <==>
            c as int in {9, 31, 32, 160, 5760, 8192, 8193, 8194, 8195, 8196, 8197, 8198, 8199, 8200, 8201, 8202, 8239, 8287, 12288}
  {
  }

  /** A string that occupies a single line. */
  predicate OneLine(s: string) {
    forall i :: 0 <= i < |s| ==> !IsBreak(s[i])
  }

  predicate AllSpace(s: string) {
    forall i :: 0 <= i < |s| ==> IsSpace(s[i])
  }

  predicate StartsWith(s: string, prefix: string) {
    prefix <= s
  }

  // ----- splitlines -----

  /** The number of characters before the first line break. */
  function LineLength(s: string): (n: nat)
    ensures n <= |s|
  {
    if |s| == 0 || IsBreak(s[0]) then 0 else 1 + LineLength(s[1..])
  }

  lemma {:induction false} LineLengthStops(s: string)
    ensures OneLine(s[..LineLength(s)])
    ensures LineLength(s) < |s| ==> IsBreak(s[LineLength(s)])
  {
    if |s| > 0 && !IsBreak(s[0]) {
      LineLengthStops(s[1..]);
    }
  }

  /** The length of the line break that starts s: "\r\n" counts as one break. */
  function BreakLength(s: string): nat
    requires |s| > 0
  {
    if |s| >= 2 && s[0] == '\r' && s[1] == '\n' then 2 else 1
  }

  function SplitLines(s: string): (lines: seq<string>)
    decreases |s|
  {
    if |s| == 0 then [] else
    var n := LineLength(s);
    if n == |s| then [s] else [s[..n]] + SplitLines(s[n + BreakLength(s[n..])..])
  }

  /** The text of lines that each end in a newline. */
  function Unlines(lines: seq<string>): string {
    if lines == [] then "" else lines[0] + "\n" + Unlines(lines[1..])
  }

  lemma {:induction false} LineLengthOfLine(line: string, rest: string)
    requires OneLine(line)
    requires |rest| == 0 || IsBreak(rest[0])
    ensures LineLength(line + rest) == |line|
  {
    if |line| == 0 {
      assert line + rest == rest;
    } else {
      assert (line + rest)[1..] == line[1..] + rest;
      LineLengthOfLine(line[1..], rest);
    }
  }

  /** Splitting never leaves a line break inside a line. */
  lemma {:induction false} SplitLinesOneLine(s: string)
    ensures forall k :: 0 <= k < |SplitLines(s)| ==> OneLine(SplitLines(s)[k])
    decreases |s|
  {
    if |s| > 0 {
      var n := LineLength(s);
      LineLengthStops(s);
      if n < |s| {
        SplitLinesOneLine(s[n + BreakLength(s[n..])..]);
      }
    }
  }

  /** The first line of a text is split off whole. */
  lemma SplitFirstLine(line: string, brk: string, rest: string)
    requires OneLine(line)
    requires |brk| > 0 && IsBreak(brk[0]) && BreakLength(brk + rest) == |brk|
    ensures SplitLines(line + brk + rest) == [line] + SplitLines(rest)
  {
    var s := line + brk + rest;
    assert s == line + (brk + rest);
    LineLengthOfLine(line, brk + rest);
    assert s[|line|..] == brk + rest;
    assert s[..|line|] == line;
    assert s[|line| + |brk|..] == rest;
  }

  lemma {:induction false} SplitUnlines(lines: seq<string>)
    requires forall k :: 0 <= k < |lines| ==> OneLine(lines[k])
    ensures SplitLines(Unlines(lines)) == lines
  {
    if lines != [] {
      SplitFirstLine(lines[0], "\n", Unlines(lines[1..]));
      SplitUnlines(lines[1..]);
    }
  }

  /** Lines survive being joined and split again exactly when none contains a line break. */
  lemma SplitUnlinesIff(lines: seq<string>)
    ensures SplitLines(Unlines(lines)) == lines <==> forall k :: 0 <= k < |lines| ==> OneLine(lines[k])
  {
    if SplitLines(Unlines(lines)) == lines {
      SplitLinesOneLine(Unlines(lines));
    } else if forall k :: 0 <= k < |lines| ==> OneLine(lines[k]) {
      SplitUnlines(lines);
    }
  }

  /** Where s ends and t starts, a line ends and another starts. */
  predicate LineEndsBetween(s: string, t: string) {
    |s| == 0 || |t| == 0 || (IsBreak(s[|s| - 1]) && !(s[|s| - 1] == '\r' && t[0] == '\n'))
  }

  /** A text with a line break is a line, its break and the rest. */
  lemma FirstBreak(s: string) returns (line: string, brk: string, rest: string)
    requires LineLength(s) < |s|
    ensures s == line + brk + rest && OneLine(line)
    ensures |brk| > 0 && IsBreak(brk[0]) && BreakLength(brk + rest) == |brk|
    ensures |brk| == 1 || (|brk| == 2 && brk[0] == '\r' && brk[1] == '\n')
  {
    LineLengthStops(s);
    var n := LineLength(s);
    var b := BreakLength(s[n..]);
    line, brk, rest := s[..n], s[n..n + b], s[n + b..];
    assert brk + rest == s[n..];
  }

  lemma SplitLinesEmpty(s: string)
    requires |s| == 0
    ensures SplitLines(s) == []
  {
  }

  /** A text without a line break is one line. */
  lemma SplitLinesOne(s: string)
    requires |s| > 0 && OneLine(s)
    ensures SplitLines(s) == [s]
  {
    assert s + "" == s;
    LineLengthOfLine(s, "");
  }

  /** Whatever follows, the first line of a text stays the first line, unless "\r\n" is cut in two. */
  lemma SplitBeforeSuffix(s: string, t: string) returns (line: string, rest: string)
    requires LineLength(s) < |s|
    ensures |rest| < |s|
    ensures SplitLines(s) == [line] + SplitLines(rest)
    ensures |rest| > 0 ==> SplitLines(s + t) == [line] + SplitLines(rest + t) && rest[|rest| - 1] == s[|s| - 1]
    ensures |rest| == 0 && LineEndsBetween(s, t) ==> SplitLines(s + t) == [line] + SplitLines(rest + t)
    ensures |rest| == 0 ==> IsBreak(s[|s| - 1])
    ensures |rest| == 0 && |t| > 0 && !LineEndsBetween(s, t) ==> SplitLines(s + t) == [line] + SplitLines(t[1..])
  {
    hide SplitLines;
    var brk;
    line, brk, rest := FirstBreak(s);
    assert |rest| > 0 ==> (brk + rest)[|brk|] == rest[0] == (brk + (rest + t))[|brk|];
    SplitFirstLine(line, brk, rest);
    assert s + t == line + brk + (rest + t);
    assert |rest| == 0 ==> s[|s| - 1] == brk[|brk| - 1];
    if |rest| > 0 || LineEndsBetween(s, t) {
      assert |rest| == 0 ==> s == line + brk && rest + t == t;
      SplitFirstLine(line, brk, rest + t);
    } else if |t| > 0 {
      assert brk == "\r" && s == line + brk && s + t == line + "\r\n" + t[1..];
      SplitFirstLine(line, "\r\n", t[1..]);
    }
  }

  /** A line without a break joins the first line of what follows. */
  lemma SplitJoined(s: string, t: string)
    requires |s| > 0 && OneLine(s) && |t| > 0
    ensures |SplitLines(s + t)| == |SplitLines(t)|
  {
    hide SplitLines;
    if LineLength(t) == |t| {
      LineLengthStops(t);
      SplitLinesOne(t);
      SplitLinesOne(s + t);
    } else {
      var line, brk, rest := FirstBreak(t);
      SplitFirstLine(line, brk, rest);
      assert s + t == (s + line) + brk + rest;
      SplitFirstLine(s + line, brk, rest);
    }
  }

  lemma {:induction false} SplitLinesCount(s: string, t: string)
    ensures LineEndsBetween(s, t) ==> SplitLines(s + t) == SplitLines(s) + SplitLines(t)
    ensures !LineEndsBetween(s, t) ==> |SplitLines(s + t)| == |SplitLines(s)| + |SplitLines(t)| - 1
    decreases |s|
  {
    hide SplitLines;
    if |s| == 0 {
      SplitLinesEmpty(s);
      assert s + t == t;
    } else if |t| == 0 {
      SplitLinesEmpty(t);
      assert s + t == s;
    } else if LineLength(s) == |s| {
      LineLengthStops(s);
      SplitLinesOne(s);
      SplitJoined(s, t);
    } else {
      var line, rest := SplitBeforeSuffix(s, t);
      if |rest| == 0 && !LineEndsBetween(s, t) {
        assert t == "" + "\n" + t[1..];
        SplitFirstLine("", "\n", t[1..]);
        SplitLinesEmpty(rest);
      } else {
        SplitLinesCount(rest, t);
        assert [line] + (SplitLines(rest) + SplitLines(t)) == [line] + SplitLines(rest) + SplitLines(t);
      }
    }
  }

  /** Two texts are split independently exactly when a line ends between them. */
  lemma SplitLinesConcatIff(s: string, t: string)
    ensures SplitLines(s + t) == SplitLines(s) + SplitLines(t) <==> LineEndsBetween(s, t)
  {
    SplitLinesCount(s, t);
  }

  // ----- digits -----

  predicate IsDigit(c: char) {
    '0' <= c <= '9'
  }

  /** A non-empty run of digits. */
  predicate IsNumeral(s: string) {
    |s| > 0 && forall i :: 0 <= i < |s| ==> IsDigit(s[i])
  }

  function DigitsLength(s: string): (n: nat)
    ensures n <= |s|
    ensures forall i :: 0 <= i < n ==> IsDigit(s[i])
    ensures n < |s| ==> !IsDigit(s[n])
  {
    if |s| == 0 || !IsDigit(s[0]) then 0 else 1 + DigitsLength(s[1..])
  }

  lemma {:induction false} DigitsLengthOfNumeral(digits: string, rest: string)
    requires forall i :: 0 <= i < |digits| ==> IsDigit(digits[i])
    requires |rest| == 0 || !IsDigit(rest[0])
    ensures DigitsLength(digits + rest) == |digits|
  {
    if |digits| == 0 {
      assert digits + rest == rest;
    } else {
      assert (digits + rest)[1..] == digits[1..] + rest;
      DigitsLengthOfNumeral(digits[1..], rest);
    }
  }

  /** The value of a run of digits, most significant first. */
  function ParseNat(s: string): nat
    requires forall i :: 0 <= i < |s| ==> IsDigit(s[i])
  {
    if |s| == 0 then 0
    else
      var last := s[|s| - 1];
      assert IsDigit(last);
      10 * ParseNat(s[..|s| - 1]) + (last as int - '0' as int)
  }

  /** The usual decimal numeral of a number. */
  function PrintNat(n: nat): (s: string)
    ensures IsNumeral(s)
  {
    var digit := ('0' as int + n % 10) as char;
    if n < 10 then [digit] else PrintNat(n / 10) + [digit]
  }

  lemma {:induction false} ParsePrintNat(n: nat)
    ensures ParseNat(PrintNat(n)) == n
  {
    var s := PrintNat(n);
    if n < 10 {
      assert s[..0] == "";
    } else {
      ParsePrintNat(n / 10);
      assert s[..|s| - 1] == PrintNat(n / 10);
    }
  }

  // ----- strip -----

  function LeftStrip(s: string): (t: string)
    ensures |t| == 0 || !IsSpace(t[0])
    ensures |t| <= |s| && t == s[|s| - |t|..]
  {
    if |s| == 0 || !IsSpace(s[0]) then s else LeftStrip(s[1..])
  }

  function RightStrip(s: string): (t: string)
    ensures |t| == 0 || !IsSpace(t[|t| - 1])
    ensures t <= s
  {
    if |s| == 0 || !IsSpace(s[|s| - 1]) then s else RightStrip(s[..|s| - 1])
  }

  function Strip(s: string): string {
    RightStrip(LeftStrip(s))
  }

  lemma {:induction false} LeftStripDropsSpace(s: string)
    ensures AllSpace(s[..|s| - |LeftStrip(s)|])
  {
    if |s| > 0 && IsSpace(s[0]) {
      LeftStripDropsSpace(s[1..]);
      var n := |s| - |LeftStrip(s)|;
      assert forall i :: 1 <= i < n ==> s[..n][i] == s[1..][..n - 1][i - 1];
    }
  }

  lemma {:induction false} RightStripDropsSpace(s: string)
    ensures AllSpace(s[|RightStrip(s)|..])
  {
    if |s| > 0 && IsSpace(s[|s| - 1]) {
      RightStripDropsSpace(s[..|s| - 1]);
      var n := |RightStrip(s)|;
      assert forall i :: 0 <= i < |s| - 1 - n ==> s[n..][i] == s[..|s| - 1][n..][i];
    }
  }

  /** A string is its stripped part between white space. */
  lemma StripSplit(s: string) returns (lead: string, trail: string)
    ensures s == lead + Strip(s) + trail && AllSpace(lead) && AllSpace(trail)
  {
    hide LeftStrip, RightStrip, IsSpace;
    var t := LeftStrip(s);
    LeftStripDropsSpace(s);
    RightStripDropsSpace(t);
    var u := RightStrip(t);
    lead, trail := s[..|s| - |t|], t[|u|..];
    assert t == u + trail && s == lead + t;
  }

  /** Neither end is white space. */
  predicate Trimmed(s: string) {
    |s| == 0 || (!IsSpace(s[0]) && !IsSpace(s[|s| - 1]))
  }

  lemma StripTrims(s: string)
    ensures Trimmed(Strip(s))
    ensures OneLine(s) ==> OneLine(Strip(s))
  {
    hide IsSpace, LeftStrip, RightStrip;
    var t := LeftStrip(s);
    assert forall i :: 0 <= i < |t| ==> t[i] == s[|s| - |t| + i];
    var u := RightStrip(t);
    assert forall i :: 0 <= i < |u| ==> u[i] == t[i];
  }

  lemma {:induction false} LeftStripPadding(pad: string, s: string)
    requires AllSpace(pad)
    requires |s| == 0 || !IsSpace(s[0])
    ensures LeftStrip(pad + s) == s
  {
    if |pad| == 0 {
      assert pad + s == s;
    } else {
      assert (pad + s)[1..] == pad[1..] + s;
      LeftStripPadding(pad[1..], s);
    }
  }

  lemma {:induction false} RightStripPadding(s: string, pad: string)
    requires AllSpace(pad)
    requires |s| == 0 || !IsSpace(s[|s| - 1])
    ensures RightStrip(s + pad) == s
  {
    if |pad| == 0 {
      assert s + pad == s;
    } else {
      var t := s + pad;
      assert t[..|t| - 1] == s + pad[..|pad| - 1];
      RightStripPadding(s, pad[..|pad| - 1]);
    }
  }

  lemma {:induction false} LeftStripAllSpace(s: string)
    requires AllSpace(s)
    ensures LeftStrip(s) == ""
  {
    if |s| > 0 {
      LeftStripAllSpace(s[1..]);
    }
  }

  /** Stripping removes padding on either side of a trimmed string and nothing else. */
  lemma StripPadding(left: string, s: string, right: string)
    requires AllSpace(left) && AllSpace(right) && Trimmed(s)
    ensures Strip(left + s + right) == s
  {
    if |s| == 0 {
      assert left + s + right == left + right;
      assert AllSpace(left + right);
      LeftStripAllSpace(left + right);
    } else {
      assert left + s + right == left + (s + right);
      LeftStripPadding(left, s + right);
      RightStripPadding(s, right);
    }
  }
}
