/**
 Unified diffs as documents: every way of writing a list of patches down, including the
 choices that must not matter to a reader (extra header lines, omitted counts, padding
 around the section header, markers between the lines of a hunk).
 */
module DiffDocument {

  import opened Wrappers
  import opened Text
  import opened DiffModel
  import opened DiffParser

  // ----- hunk bodies -----

  /** A body line; Blank is an empty context line written without its leading space. */
  datatype BodyDoc = Added(text: string) | Removed(text: string) | Kept(text: string) | Blank | Ignored(raw: string)

  function BodyText(b: BodyDoc): string {
    match b
    case Added(text) => "+" + text
    case Removed(text) => "-" + text
    case Kept(text) => " " + text
    case Blank => []
    case Ignored(raw) => raw
  }

  function BodyTexts(body: seq<BodyDoc>): (texts: seq<string>)
    ensures |texts| == |body|
  {
    if body == [] then [] else [BodyText(body[0])] + BodyTexts(body[1..])
  }

  predicate ValidBody(b: BodyDoc) {
    match b
    case Added(text) => OneLine(text)
    case Removed(text) => OneLine(text)
    case Kept(text) => OneLine(text)
    case Blank => true
    case Ignored(raw) =>
      OneLine(raw) && |raw| > 0 && raw[0] != '+' && raw[0] != '-' && raw[0] != ' ' && !EndsBody(raw)
  }

  function ShowLine(b: BodyDoc, oldNo: nat, newNo: nat): Option<HunkLine> {
    match b
    case Added(text) => Some(HunkLine(Add, text, None, Some(newNo)))
    case Removed(text) => Some(HunkLine(Delete, text, Some(oldNo), None))
    case Kept(text) => Some(HunkLine(Context, text, Some(oldNo), Some(newNo)))
    case Blank => Some(HunkLine(Context, [], Some(oldNo), Some(newNo)))
    case Ignored(_) => None
  }

  /** The hunk lines a body stands for, numbered from the given starts. */
  function ShowBody(body: seq<BodyDoc>, oldNo: nat, newNo: nat): seq<HunkLine> {
    if body == [] then [] else
    var l := ShowLine(body[0], oldNo, newNo);
    (if l.Some? then [l.value] else []) + ShowBody(body[1..], NextOld(l, oldNo), NextNew(l, newNo))
  }

  /** The marker of POSIX diff, and anything else that starts with a backslash, is ignored. */
  lemma MarkerIsIgnored(note: string)
    requires OneLine(note)
    ensures ValidBody(Ignored("\\" + note))
  {
    var raw := "\\" + note;
    assert raw[0] == '\\';
    assert "@@ -"[0] == '@' && "diff --git"[0] == 'd';
  }

  lemma ReadBodyText(b: BodyDoc, oldNo: nat, newNo: nat)
    requires ValidBody(b)
    ensures OneLine(BodyText(b)) && !EndsBody(BodyText(b))
    ensures ReadLine(BodyText(b), oldNo, newNo) == ShowLine(b, oldNo, newNo)
  {
    var raw := BodyText(b);
    assert "@@ -"[0] == '@' && "diff --git"[0] == 'd';
    if b.Added? || b.Removed? || b.Kept? {
      assert raw[1..] == b.text;
      assert forall i :: 1 <= i < |raw| ==> raw[i] == b.text[i - 1];
      assert !StartsWith(raw, "@@ -") && !StartsWith(raw, "diff --git");
    } else if b.Blank? {
      assert raw == [];
    }
    assert "+"[0] == '+' && "-"[0] == '-' && " "[0] == ' ';
    assert StartsWith(raw, "+") <==> |raw| > 0 && raw[0] == '+';
    assert StartsWith(raw, "-") <==> |raw| > 0 && raw[0] == '-';
    assert StartsWith(raw, " ") <==> |raw| > 0 && raw[0] == ' ';
  }

  lemma {:induction false} ReadBodyTexts(body: seq<BodyDoc>, tail: seq<string>, oldNo: nat, newNo: nat)
    requires forall k :: 0 <= k < |body| ==> ValidBody(body[k])
    requires tail == [] || EndsBody(tail[0])
    ensures ReadBody(BodyTexts(body) + tail, oldNo, newNo) == ShowBody(body, oldNo, newNo)
    ensures BodyLength(BodyTexts(body) + tail) == |body|
  {
    hide EndsBody, ReadLine, ShowLine, BodyText;
    var lines := BodyTexts(body) + tail;
    if body == [] {
      assert lines == tail;
    } else {
      ReadBodyText(body[0], oldNo, newNo);
      var l := ShowLine(body[0], oldNo, newNo);
      assert lines[0] == BodyText(body[0]);
      assert lines[1..] == BodyTexts(body[1..]) + tail;
      ReadBodyTexts(body[1..], tail, NextOld(l, oldNo), NextNew(l, newNo));
    }
  }

  // ----- hunks -----

  /** A line range as numerals; the count may be left out. */
  datatype RangeDoc = RangeDoc(start: string, count: Option<string>)

  datatype HunkDoc = HunkDoc(oldRange: RangeDoc, newRange: RangeDoc,
                             lead: string, section: string, trail: string, body: seq<BodyDoc>)

  predicate ValidRange(r: RangeDoc) {
    IsNumeral(r.start) && (r.count.Some? ==> IsNumeral(r.count.value))
  }

  function RangeText(r: RangeDoc): string {
    match r.count
    case None => r.start
    case Some(count) => r.start + ("," + count)
  }

  function StartOf(r: RangeDoc): nat
    requires ValidRange(r)
  {
    ParseNat(r.start)
  }

  function CountOf(r: RangeDoc): nat
    requires ValidRange(r)
  {
    match r.count
    case None => 1
    case Some(count) => ParseNat(count)
  }

  predicate ValidHunk(h: HunkDoc) {
    && ValidRange(h.oldRange) && ValidRange(h.newRange)
    && AllSpace(h.lead) && AllSpace(h.trail) && Trimmed(h.section)
    && OneLine(h.lead) && OneLine(h.section) && OneLine(h.trail)
    && forall k :: 0 <= k < |h.body| ==> ValidBody(h.body[k])
  }

  function HeaderText(h: HunkDoc): string {
    "@@ -" + (RangeText(h.oldRange) + (" +" + (RangeText(h.newRange) + (" @@" + (h.lead + h.section + h.trail)))))
  }

  function HeaderOf(h: HunkDoc): HunkHeader
    requires ValidHunk(h)
  {
    HunkHeader(StartOf(h.oldRange), CountOf(h.oldRange), StartOf(h.newRange), CountOf(h.newRange), h.section)
  }

  function HunkOf(h: HunkDoc): Hunk
    requires ValidHunk(h)
  {
    var header := HeaderOf(h);
    Hunk(header.oldStart, header.oldCount, header.newStart, header.newCount,
         ShowBody(h.body, header.oldStart, header.newStart), h.section, None)
  }

  lemma MatchRangeText(r: RangeDoc, rest: string)
    requires ValidRange(r)
    requires |rest| > 0 && rest[0] == ' '
    ensures MatchRange(RangeText(r) + rest) == Some(Range(StartOf(r), CountOf(r), rest))
  {
    var s := RangeText(r) + rest;
    match r.count
    case None =>
      DigitsLengthOfNumeral(r.start, rest);
      assert s[..|r.start|] == r.start && s[|r.start|..] == rest;
    case Some(count) =>
      var after := "," + count + rest;
      assert s == r.start + after;
      DigitsLengthOfNumeral(r.start, after);
      assert s[..|r.start|] == r.start && s[|r.start|..] == after;
      assert after[1..] == count + rest;
      DigitsLengthOfNumeral(count, rest);
      assert after[1..][..|count|] == count && after[1 + |count|..] == rest;
  }

  lemma MatchHeaderText(h: HunkDoc)
    requires ValidHunk(h)
    ensures MatchHeader(HeaderText(h)) == Some(HeaderOf(h))
  {
    hide MatchRange, RangeText, StartOf, CountOf, Strip;
    var title := h.lead + h.section + h.trail;
    var r3 := " @@" + title;
    var r2 := RangeText(h.newRange) + r3;
    var r1 := " +" + r2;
    var line := HeaderText(h);
    assert line[4..] == RangeText(h.oldRange) + r1;
    MatchRangeText(h.oldRange, r1);
    assert r1[2..] == r2;
    MatchRangeText(h.newRange, r3);
    assert r3[3..] == title;
    StripPadding(h.lead, h.section, h.trail);
  }

  lemma HeaderTextOneLine(h: HunkDoc)
    requires ValidHunk(h)
    ensures OneLine(HeaderText(h)) && !IsFileHeader(HeaderText(h))
  {
    RangeTextOneLine(h.oldRange);
    RangeTextOneLine(h.newRange);
    hide RangeText;
    OneLineConcat(h.lead, h.section);
    OneLineConcat(h.lead + h.section, h.trail);
    var title := h.lead + h.section + h.trail;
    OneLineConcat(" @@", title);
    OneLineConcat(RangeText(h.newRange), " @@" + title);
    OneLineConcat(" +", RangeText(h.newRange) + (" @@" + title));
    OneLineConcat(RangeText(h.oldRange), " +" + (RangeText(h.newRange) + (" @@" + title)));
    OneLineConcat("@@ -", RangeText(h.oldRange) + (" +" + (RangeText(h.newRange) + (" @@" + title))));
    assert HeaderText(h)[0] == '@' && "diff --git "[0] == 'd';
  }

  lemma OneLineConcat(a: string, b: string)
    requires OneLine(a) && OneLine(b)
    ensures OneLine(a + b)
  {
    assert forall i :: 0 <= i < |a + b| ==> (a + b)[i] == if i < |a| then a[i] else b[i - |a|];
  }

  lemma RangeTextOneLine(r: RangeDoc)
    requires ValidRange(r)
    ensures OneLine(RangeText(r))
  {
    NumeralOneLine(r.start);
    if r.count.Some? {
      NumeralOneLine(r.count.value);
      OneLineConcat(",", r.count.value);
      OneLineConcat(r.start, "," + r.count.value);
    }
  }

  lemma NumeralOneLine(s: string)
    requires IsNumeral(s)
    ensures OneLine(s)
  {
    forall i | 0 <= i < |s| ensures !IsBreak(s[i]) {
      assert IsDigit(s[i]);
    }
  }

  function HunkTexts(hunks: seq<HunkDoc>): seq<string> {
    if hunks == [] then []
    else [HeaderText(hunks[0])] + (BodyTexts(hunks[0].body) + HunkTexts(hunks[1..]))
  }

  function HunksOf(hunks: seq<HunkDoc>): seq<Hunk>
    requires forall k :: 0 <= k < |hunks| ==> ValidHunk(hunks[k])
  {
    if hunks == [] then [] else [HunkOf(hunks[0])] + HunksOf(hunks[1..])
  }

  /** Reading the lines of hunks gives the hunks back. */
  lemma {:induction false} ReadHunkTexts(hunks: seq<HunkDoc>)
    requires forall k :: 0 <= k < |hunks| ==> ValidHunk(hunks[k])
    ensures ReadHunks(HunkTexts(hunks)) == HunksOf(hunks)
  {
    hide MatchHeader, HeaderText, ReadBody, BodyLength, ValidHunk;
    if hunks != [] {
      var h := hunks[0];
      var tail := HunkTexts(hunks[1..]);
      var lines := HunkTexts(hunks);
      MatchHeaderText(h);
      assert lines[1..] == BodyTexts(h.body) + tail;
      NextHunkEndsBody(hunks[1..]);
      ValidHunkBody(h);
      ReadBodyTexts(h.body, tail, HeaderOf(h).oldStart, HeaderOf(h).newStart);
      assert lines[1 + |h.body|..] == tail;
      ReadHunkTexts(hunks[1..]);
    }
  }

  lemma ValidHunkBody(h: HunkDoc)
    requires ValidHunk(h)
    ensures forall k :: 0 <= k < |h.body| ==> ValidBody(h.body[k])
  {
  }

  lemma NextHunkEndsBody(hunks: seq<HunkDoc>)
    requires forall k :: 0 <= k < |hunks| ==> ValidHunk(hunks[k])
    ensures HunkTexts(hunks) == [] || EndsBody(HunkTexts(hunks)[0])
  {
    if hunks != [] {
      MatchHeaderText(hunks[0]);
    }
  }

  /** A line that can stand inside a file block without being taken for the next file. */
  predicate BlockLine(line: string) {
    OneLine(line) && !IsFileHeader(line)
  }

  predicate BlockLines(lines: seq<string>) {
    forall k :: 0 <= k < |lines| ==> BlockLine(lines[k])
  }

  lemma {:induction false} BodyTextsInBlock(body: seq<BodyDoc>)
    requires forall k :: 0 <= k < |body| ==> ValidBody(body[k])
    ensures BlockLines(BodyTexts(body))
  {
    if body != [] {
      ReadBodyText(body[0], 0, 0);
      assert "diff --git" <= "diff --git ";
      assert IsFileHeader(BodyText(body[0])) ==> StartsWith(BodyText(body[0]), "diff --git");
      BodyTextsInBlock(body[1..]);
    }
  }

  lemma {:induction false} HunkTextsInBlock(hunks: seq<HunkDoc>)
    requires forall k :: 0 <= k < |hunks| ==> ValidHunk(hunks[k])
    ensures BlockLines(HunkTexts(hunks))
  {
    if hunks != [] {
      HeaderTextOneLine(hunks[0]);
      BodyTextsInBlock(hunks[0].body);
      HunkTextsInBlock(hunks[1..]);
    }
  }
}
