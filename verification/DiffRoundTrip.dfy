/**
 Printing patches and parsing them back: what every parse result satisfies, that exactly the
 patches of that shape can be written down, and what the form git prints can carry.
 */
module DiffRoundTrip {

  import opened Wrappers
  import opened Text
  import opened DiffModel
  import opened DiffParser
  import opened DiffDocument
  import opened DiffFiles

  // ----- what every parse result satisfies -----

  /** The shape every parsed hunk has, however malformed the input. */
  predicate CleanHunk(h: Hunk) {
    && Numbered(h.lines, h.oldStart, h.newStart)
    && Trimmed(h.sectionHeader) && OneLine(h.sectionHeader)
    && (forall k :: 0 <= k < |h.lines| ==> OneLine(h.lines[k].content))
    && h.enclosingScope.None?
  }

  predicate CleanPatch(p: PatchFile) {
    && (p.oldPath.Some? ==> OneLine(p.oldPath.value))
    && (p.newPath.Some? ==> OneLine(p.newPath.value))
    && (forall k :: 0 <= k < |p.hunks| ==> CleanHunk(p.hunks[k]))
    && (p.isBinary ==> p.hunks == [])
  }

  predicate CleanPatches(patches: seq<PatchFile>) {
    forall k :: 0 <= k < |patches| ==> CleanPatch(patches[k])
  }

  predicate OneLiners(lines: seq<string>) {
    forall k :: 0 <= k < |lines| ==> OneLine(lines[k])
  }

  /** The line numbers of a parsed hunk body run consecutively from its starts, for any lines. */
  lemma {:induction false} ReadBodyNumbered(lines: seq<string>, oldNo: nat, newNo: nat)
    ensures Numbered(ReadBody(lines, oldNo, newNo), oldNo, newNo)
    ensures OneLiners(lines) ==> forall k :: 0 <= k < |ReadBody(lines, oldNo, newNo)| ==> OneLine(ReadBody(lines, oldNo, newNo)[k].content)
  {
    hide EndsBody;
    if lines != [] && !EndsBody(lines[0]) {
      var l := ReadLine(lines[0], oldNo, newNo);
      ReadBodyNumbered(lines[1..], NextOld(l, oldNo), NextNew(l, newNo));
      var body := ReadBody(lines, oldNo, newNo);
      var rest := ReadBody(lines[1..], NextOld(l, oldNo), NextNew(l, newNo));
      if l.Some? {
        assert body == [l.value] + rest;
        assert body[1..] == rest;
      } else {
        assert body == rest;
      }
    }
  }

  lemma MatchHeaderClean(line: string)
    requires MatchHeader(line).Some?
    ensures Trimmed(MatchHeader(line).value.section)
    ensures OneLine(line) ==> OneLine(MatchHeader(line).value.section)
  {
    hide MatchHeader, Strip, OneLine;
    var tail := SectionTail(line);
    StripTrims(tail);
    if OneLine(line) {
      SuffixOneLine(line, tail);
    }
  }

  /** The section of a header is the stripped end of the line. */
  lemma SectionTail(line: string) returns (tail: string)
    requires MatchHeader(line).Some?
    ensures |tail| <= |line| && tail == line[|line| - |tail|..]
    ensures MatchHeader(line).value.section == Strip(tail)
  {
    hide MatchRange, Strip;
    var o := MatchRange(line[4..]).value;
    MatchRangeSuffix(line[4..]);
    var n := MatchRange(o.rest[2..]).value;
    MatchRangeSuffix(o.rest[2..]);
    tail := n.rest[3..];
  }

  lemma MatchRangeSuffix(s: string)
    ensures MatchRange(s).Some? ==> var r := MatchRange(s).value.rest; |r| <= |s| && r == s[|s| - |r|..]
  {
  }

  lemma SuffixOneLine(s: string, t: string)
    requires OneLine(s) && |t| <= |s| && t == s[|s| - |t|..]
    ensures OneLine(t)
  {
    assert forall i :: 0 <= i < |t| ==> t[i] == s[|s| - |t| + i];
  }

  lemma {:induction false} ReadHunksClean(lines: seq<string>)
    requires OneLiners(lines)
    ensures forall k :: 0 <= k < |ReadHunks(lines)| ==> CleanHunk(ReadHunks(lines)[k])
    decreases |lines|
  {
    hide MatchHeader, ReadBody, BodyLength;
    if lines != [] {
      var rest := lines[1..];
      if MatchHeader(lines[0]).None? {
        ReadHunksClean(rest);
      } else {
        var h := MatchHeader(lines[0]).value;
        MatchHeaderClean(lines[0]);
        ReadBodyNumbered(rest, h.oldStart, h.newStart);
        ReadHunksClean(lines[1 + BodyLength(rest)..]);
      }
    }
  }

  predicate CleanHead(head: FileHead) {
    && (head.oldPath.Some? ==> OneLine(head.oldPath.value))
    && (head.newPath.Some? ==> OneLine(head.newPath.value))
    && (head.renameFrom.Some? ==> OneLine(head.renameFrom.value))
    && (head.renameTo.Some? ==> OneLine(head.renameTo.value))
    && OneLiners(head.hunkLines)
  }

  lemma MatchGitPathsClean(line: string)
    requires OneLine(line) && MatchGitPaths(line).Some?
    ensures OneLine(MatchGitPaths(line).value.0) && OneLine(MatchGitPaths(line).value.1)
  {
    var s := line[13..];
    SuffixOneLine(line, s);
    var j := LastSeparator(s, |s|).value;
    SuffixOneLine(s, s[j + 3..]);
    assert forall i :: 0 <= i < j ==> s[..j][i] == s[i];
  }

  lemma StripPathPrefixClean(path: string)
    requires OneLine(path)
    ensures StripPathPrefix(path).Some? ==> OneLine(StripPathPrefix(path).value)
  {
    if |path| >= 2 {
      SuffixOneLine(path, path[2..]);
    }
  }

  /** One header line keeps what is known about a file free of line breaks. */
  lemma {:induction false} ReadHeadClean(block: seq<string>, head: FileHead)
    requires OneLiners(block) && CleanHead(head)
    ensures CleanHead(ReadHead(block, head))
  {
    hide MatchGitPaths, StripPathPrefix;
    if block != [] {
      var line, rest := block[0], block[1..];
      if IsFileHeader(line) {
        match MatchGitPaths(line)
        case None => ReadHeadClean(rest, head);
        case Some(paths) =>
          MatchGitPathsClean(line);
          ReadHeadClean(rest, head.(oldPath := Some(paths.0), newPath := Some(paths.1)));
      } else if StartsWith(line, "--- ") {
        SuffixOneLine(line, line[4..]);
        StripPathPrefixClean(line[4..]);
        ReadHeadClean(rest, head.(oldPath := StripPathPrefix(line[4..])));
      } else if StartsWith(line, "+++ ") {
        SuffixOneLine(line, line[4..]);
        StripPathPrefixClean(line[4..]);
      } else if StartsWith(line, "Binary files") {
      } else if StartsWith(line, "rename from ") {
        SuffixOneLine(line, line[12..]);
        ReadHeadClean(rest, head.(renameFrom := Some(line[12..])));
      } else if StartsWith(line, "rename to ") {
        SuffixOneLine(line, line[10..]);
        ReadHeadClean(rest, head.(renameTo := Some(line[10..])));
      } else {
        ReadHeadClean(rest, head);
      }
    }
  }

  lemma {:induction false} ReadDiffClean(lines: seq<string>)
    requires OneLiners(lines)
    ensures forall k :: 0 <= k < |ReadDiff(lines)| ==> CleanPatch(ReadDiff(lines)[k])
    decreases |lines|
  {
    hide ReadHead, ReadHunks, IsFileHeader, CleanHunk;
    if lines != [] {
      if !IsFileHeader(lines[0]) {
        ReadDiffClean(lines[1..]);
      } else {
        var n := 1 + BlockTail(lines[1..]);
        ReadHeadClean(lines[..n], NO_HEAD);
        ReadHunksClean(ReadHead(lines[..n], NO_HEAD).hunkLines);
        ReadDiffClean(lines[n..]);
      }
    }
  }

  /** For any text at all, every parsed patch is clean: numbered consecutively, trimmed, on single lines. */
  lemma ParsedPatchesAreClean(text: string)
    ensures CleanPatches(DiffOf(text, true))
  {
    SplitLinesOneLine(text);
    ReadDiffClean(SplitLines(text));
  }

  // ----- hunks in print -----

  /** A POSIX line range: the count is left out when it is 1. */
  function PrintRange(start: nat, count: nat): RangeDoc {
    RangeDoc(PrintNat(start), if count == 1 then None else Some(PrintNat(count)))
  }

  function PrintLine(l: HunkLine): BodyDoc {
    match l.changeType
    case Add => Added(l.content)
    case Delete => Removed(l.content)
    case Context => Kept(l.content)
  }

  function PrintLines(lines: seq<HunkLine>): (body: seq<BodyDoc>)
    ensures |body| == |lines|
    ensures forall k :: 0 <= k < |lines| ==> body[k] == PrintLine(lines[k])
  {
    if lines == [] then [] else [PrintLine(lines[0])] + PrintLines(lines[1..])
  }

  function PrintHunk(h: Hunk): HunkDoc {
    HunkDoc(PrintRange(h.oldStart, h.oldCount), PrintRange(h.newStart, h.newCount),
            if |h.sectionHeader| == 0 then [] else " ", h.sectionHeader, [], PrintLines(h.lines))
  }

  function PrintHunks(hunks: seq<Hunk>): (docs: seq<HunkDoc>)
    ensures |docs| == |hunks|
    ensures forall k :: 0 <= k < |hunks| ==> docs[k] == PrintHunk(hunks[k])
  {
    if hunks == [] then [] else [PrintHunk(hunks[0])] + PrintHunks(hunks[1..])
  }

  lemma {:induction false} ShowPrintedLines(lines: seq<HunkLine>, oldNo: nat, newNo: nat)
    requires Numbered(lines, oldNo, newNo)
    ensures ShowBody(PrintLines(lines), oldNo, newNo) == lines
  {
    if lines != [] {
      var l := lines[0];
      ShowPrintedLines(lines[1..], if l.InOld() then oldNo + 1 else oldNo, if l.InNew() then newNo + 1 else newNo);
      assert PrintLines(lines)[1..] == PrintLines(lines[1..]);
    }
  }

  lemma PrintedHunk(h: Hunk)
    requires CleanHunk(h)
    ensures ValidHunk(PrintHunk(h)) && HunkOf(PrintHunk(h)) == h
  {
    hide Trimmed, IsNumeral, PrintNat, ParseNat, ShowBody, Numbered;
    ParsePrintNat(h.oldStart);
    ParsePrintNat(h.oldCount);
    ParsePrintNat(h.newStart);
    ParsePrintNat(h.newCount);
    ShowPrintedLines(h.lines, h.oldStart, h.newStart);
    var d := PrintHunk(h);
    assert forall k :: 0 <= k < |d.body| ==> ValidBody(d.body[k]);
  }

  lemma {:induction false} PrintedHunks(hunks: seq<Hunk>)
    requires forall k :: 0 <= k < |hunks| ==> CleanHunk(hunks[k])
    ensures forall k :: 0 <= k < |hunks| ==> ValidHunk(PrintHunks(hunks)[k])
    ensures HunksOf(PrintHunks(hunks)) == hunks
  {
    hide CleanHunk, ValidHunk, PrintHunk, HunkOf;
    if hunks != [] {
      PrintedHunk(hunks[0]);
      PrintedHunks(hunks[1..]);
      assert PrintHunks(hunks)[1..] == PrintHunks(hunks[1..]);
    }
  }

  function PrintSide(path: Option<string>): Side {
    match path
    case None => DevNull
    case Some(p) => Named(p)
  }

  // ----- every clean patch can be written -----

  function PathOr(path: Option<string>, other: Option<string>): string {
    if path.Some? then path.value else if other.Some? then other.value else []
  }

  /** Rename lines alone can carry the known paths. */
  function RenameLines(oldPath: Option<string>, newPath: Option<string>): seq<HeadDoc> {
    (if oldPath.Some? then [RenameFrom(oldPath.value)] else []) +
    (if newPath.Some? then [RenameTo(newPath.value)] else [])
  }

  /** A form that leaves the "diff --git" line empty: the sides, or the rename lines, carry the paths. */
  function WriteFile(p: PatchFile): FileDoc {
    if p.isBinary then
      FileDoc("diff --git ", RenameLines(p.oldPath, p.newPath), BinaryContent([], []))
    else
      FileDoc("diff --git ", [], TextContent(PrintSide(p.oldPath), PrintSide(p.newPath), PrintHunks(p.hunks)))
  }

  function WriteFiles(patches: seq<PatchFile>): (docs: seq<FileDoc>)
    ensures |docs| == |patches|
    ensures forall k :: 0 <= k < |docs| ==> docs[k] == WriteFile(patches[k])
  {
    if patches == [] then [] else [WriteFile(patches[0])] + WriteFiles(patches[1..])
  }

  function WriteDiff(patches: seq<PatchFile>): string {
    Unlines(DiffTexts(WriteFiles(patches)))
  }

  lemma NoteRename(a: string, b: string, head: FileHead)
    ensures NoteHeads([RenameFrom(a), RenameTo(b)], head) == head.(renameFrom := Some(a), renameTo := Some(b))
    ensures NoteHeads([RenameFrom(a)], head) == head.(renameFrom := Some(a))
    ensures NoteHeads([RenameTo(b)], head) == head.(renameTo := Some(b))
    ensures NoteHeads([], head) == head
  {
    assert [RenameFrom(a), RenameTo(b)][1..] == [RenameTo(b)];
    var from := head.(renameFrom := Some(a));
    assert NoteHeads([RenameTo(b)], from) == NoteHead(RenameTo(b), from);
  }

  lemma EmptyHeader()
    ensures OneLine("diff --git ") && IsFileHeader("diff --git ") && GitHead("diff --git ") == NO_HEAD
  {
  }

  lemma WrittenHead(oldPath: Option<string>, newPath: Option<string>)
    requires oldPath.Some? ==> OneLine(oldPath.value)
    requires newPath.Some? ==> OneLine(newPath.value)
    ensures NoteHeads(RenameLines(oldPath, newPath), NO_HEAD) == NO_HEAD.(renameFrom := oldPath, renameTo := newPath)
    ensures forall k :: 0 <= k < |RenameLines(oldPath, newPath)| ==> ValidHead(RenameLines(oldPath, newPath)[k])
  {
    hide OneLine, NoteHeads;
    var a, b := PathOr(oldPath, None), PathOr(newPath, None);
    NoteRename(a, b, NO_HEAD);
    assert RenameLines(oldPath, newPath) ==
           if oldPath.Some? && newPath.Some? then [RenameFrom(a), RenameTo(b)]
           else if oldPath.Some? then [RenameFrom(a)]
           else if newPath.Some? then [RenameTo(b)] else [];
  }

  lemma WrittenFile(p: PatchFile)
    requires CleanPatch(p)
    ensures ValidFile(WriteFile(p)) && FileOf(WriteFile(p)) == p
  {
    hide CleanHunk, ValidHunk, HunksOf, NoteHeads, ValidHead, GitHead, StartsWith;
    PrintedHunks(p.hunks);
    EmptyHeader();
    var d := WriteFile(p);
    if p.isBinary {
      WrittenHead(p.oldPath, p.newPath);
    } else {
      NoteRename([], [], NO_HEAD);
    }
  }

  lemma {:induction false} WrittenFiles(patches: seq<PatchFile>)
    requires CleanPatches(patches)
    ensures ValidFiles(WriteFiles(patches)) && PatchesOf(WriteFiles(patches)) == patches
  {
    hide CleanPatch, WriteFile, ValidFile, FileOf;
    if patches != [] {
      WrittenFile(patches[0]);
      WrittenFiles(patches[1..]);
      assert WriteFiles(patches)[1..] == WriteFiles(patches[1..]);
    }
  }

  /** Parsing undoes writing exactly for the clean patches. */
  lemma ParseWriteIff(patches: seq<PatchFile>)
    ensures DiffOf(WriteDiff(patches), true) == patches <==> CleanPatches(patches)
  {
    if CleanPatches(patches) {
      WrittenFiles(patches);
      ParseDocument(WriteFiles(patches));
    } else {
      ParsedPatchesAreClean(WriteDiff(patches));
    }
  }

  /** What diffs can express: some text parses to the patches exactly when they are all clean. */
  lemma ParseImageIff(patches: seq<PatchFile>)
    ensures (exists text :: DiffOf(text, true) == patches) <==> CleanPatches(patches)
  {
    ParseWriteIff(patches);
    if text :| DiffOf(text, true) == patches {
      ParsedPatchesAreClean(text);
    }
  }

  // ----- the form git prints -----

  function GitLine(oldName: string, newName: string): string {
    "diff --git a/" + (oldName + (" b/" + newName))
  }

  /** Both paths are known and differ. */
  predicate IsRename(p: PatchFile) {
    p.oldPath.Some? && p.newPath.Some? && p.oldPath != p.newPath
  }

  function PrintFile(p: PatchFile): FileDoc {
    FileDoc(GitLine(PathOr(p.oldPath, p.newPath), PathOr(p.newPath, p.oldPath)),
            if IsRename(p) then [RenameFrom(p.oldPath.value), RenameTo(p.newPath.value)] else [],
            if p.isBinary then BinaryContent(" differ", [])
            else if p.hunks == [] && p.oldPath.Some? && p.newPath.Some? then NoContent
            else TextContent(PrintSide(p.oldPath), PrintSide(p.newPath), PrintHunks(p.hunks)))
  }

  function PrintFiles(patches: seq<PatchFile>): (docs: seq<FileDoc>)
    ensures |docs| == |patches|
    ensures forall k :: 0 <= k < |docs| ==> docs[k] == PrintFile(patches[k])
  {
    if patches == [] then [] else [PrintFile(patches[0])] + PrintFiles(patches[1..])
  }

  function PrintDiff(patches: seq<PatchFile>): string {
    Unlines(DiffTexts(PrintFiles(patches)))
  }

  // ----- which lines are hunk headers -----

  lemma CountSplit(s: string, n: nat, c: nat)
    requires n < |s| && s[n] == ',' && n + 1 + c <= |s|
    ensures s == (s[..n] + ("," + s[n..][1..][..c])) + s[n..][1 + c..]
  {
  }

  /** A range that is recognised is the text of a range document. */
  lemma MatchedRange(s: string) returns (d: RangeDoc)
    requires MatchRange(s).Some?
    ensures ValidRange(d) && s == RangeText(d) + MatchRange(s).value.rest
    ensures StartOf(d) == MatchRange(s).value.start && CountOf(d) == MatchRange(s).value.count
  {
    hide DigitsLength, ParseNat;
    var n := DigitsLength(s);
    var rest := s[n..];
    assert IsNumeral(s[..n]);
    if |rest| > 0 && rest[0] == ',' && DigitsLength(rest[1..]) > 0 {
      var c := DigitsLength(rest[1..]);
      assert IsNumeral(rest[1..][..c]);
      hide IsNumeral, IsDigit;
      d := RangeDoc(s[..n], Some(rest[1..][..c]));
      CountSplit(s, n, c);
    } else {
      hide IsNumeral, IsDigit;
      d := RangeDoc(s[..n], None);
      assert s == s[..n] + rest;
    }
  }

  /** Any line that is read as a hunk header is the text of one. */
  lemma MatchedHeader(line: string) returns (d: HunkDoc)
    requires OneLine(line) && MatchHeader(line).Some?
    ensures ValidHunk(d) && HeaderText(d) == line && HeaderOf(d) == MatchHeader(line).value
  {
    hide MatchRange, RangeText, StartOf, CountOf, ValidRange, Strip, AllSpace, Trimmed, OneLine;
    var a := MatchedRange(line[4..]);
    var o := MatchRange(line[4..]).value.rest;
    var b := MatchedRange(o[2..]);
    var n := MatchRange(o[2..]).value.rest;
    var tail := n[3..];
    var lead, trail := StripSplit(tail);
    StripTrims(tail);
    d := HunkDoc(a, b, lead, Strip(tail), trail, []);
    assert n == " @@" + tail && o == " +" + (RangeText(b) + n) && line == "@@ -" + (RangeText(a) + o);
    assert line == HeaderText(d);
    var k := |line| - |tail|;
    assert tail == line[k..];
    SuffixOneLine(line, tail);
    PartsOneLine(lead, Strip(tail), trail);
  }

  lemma PartsOneLine(a: string, b: string, c: string)
    requires OneLine(a + b + c)
    ensures OneLine(a) && OneLine(b) && OneLine(c)
  {
    var s := a + b + c;
    assert forall i :: 0 <= i < |a| ==> a[i] == s[i];
    assert forall i :: 0 <= i < |b| ==> b[i] == s[|a| + i];
    assert forall i :: 0 <= i < |c| ==> c[i] == s[|a| + |b| + i];
  }

  /** A line is read as a hunk header exactly when it is the text of one, with those numbers and that section. */
  lemma MatchHeaderIff(line: string, h: HunkHeader)
    requires OneLine(line)
    ensures MatchHeader(line) == Some(h) <==> exists d :: ValidHunk(d) && HeaderText(d) == line && HeaderOf(d) == h
  {
    hide MatchHeader, ValidHunk, HeaderText, HeaderOf;
    if MatchHeader(line) == Some(h) {
      var d := MatchedHeader(line);
    }
    if d :| ValidHunk(d) && HeaderText(d) == line && HeaderOf(d) == h {
      MatchHeaderText(d);
    }
  }

  /** A hunk body ends at the text of a hunk header, and at anything that starts like a file header. */
  lemma EndsBodyIff(line: string)
    requires OneLine(line)
    ensures EndsBody(line) <==>
            || (|line| >= 10 && line[..10] == "diff --git")
            || exists d :: ValidHunk(d) && HeaderText(d) == line
  {
    hide MatchHeader, ValidHunk, HeaderText, HeaderOf;
    if MatchHeader(line).Some? {
      var d := MatchedHeader(line);
    }
    if d :| ValidHunk(d) && HeaderText(d) == line {
      MatchHeaderText(d);
    }
  }

  /** Only a space after "diff --git" makes a line the header of another file. */
  lemma FileHeaderIff(line: string)
    ensures IsFileHeader(line) <==> |line| >= 11 && line[..10] == "diff --git" && line[10] == ' '
  {
    if |line| >= 11 {
      assert line[..11] == line[..10] + [line[10]] && "diff --git " == "diff --git" + [' '];
    }
  }

  /** Lines in front of the first hunk header, whatever they are, do not count. */
  lemma {:induction false} LinesBeforeHunks(junk: seq<string>, lines: seq<string>)
    requires forall k :: 0 <= k < |junk| ==> MatchHeader(junk[k]).None?
    ensures ReadHunks(junk + lines) == ReadHunks(lines)
  {
    hide MatchHeader;
    if junk == [] {
      assert junk + lines == lines;
    } else {
      assert (junk + lines)[1..] == junk[1..] + lines;
      LinesBeforeHunks(junk[1..], lines);
    }
  }

  // ----- which paths the "diff --git" line can carry -----

  /** Some " b/" inside the path is followed by more of the path. */
  predicate HasInnerSeparator(path: string) {
    exists k: nat :: k < |path| && SeparatorAt(path, k)
  }

  lemma {:induction false} LastSeparatorIsLast(s: string, j: nat, k: nat)
    requires 1 <= k <= j && SeparatorAt(s, k)
    ensures LastSeparator(s, j).Some? && LastSeparator(s, j).value >= k
  {
    if !SeparatorAt(s, j) {
      LastSeparatorIsLast(s, j - 1, k);
    }
  }

  /** A separator behind the one between two names lies inside the second name. */
  lemma SeparatorInSecondName(oldName: string, newName: string, m: nat)
    requires m > |oldName|
    ensures SeparatorAt(oldName + (" b/" + newName), m) <==> m >= |oldName| + 3 && SeparatorAt(newName, m - |oldName| - 3)
  {
    var s := oldName + (" b/" + newName);
    assert forall i :: 0 <= i < |newName| ==> s[|oldName| + 3 + i] == newName[i];
    assert s[|oldName| + 1] == 'b' && s[|oldName| + 2] == '/';
  }

  /**
   The "diff --git" line alone gives back a pair of paths exactly when the old path is not
   empty, the new path is not empty and the new path has no inner " b/".
   */
  lemma GitLineIff(oldName: string, newName: string)
    ensures MatchGitPaths(GitLine(oldName, newName)) == Some((oldName, newName)) <==>
            |oldName| > 0 && |newName| > 0 && !HasInnerSeparator(newName)
  {
    hide MatchGitPaths, GitLine, LastSeparator;
    var s := oldName + (" b/" + newName);
    var n := |oldName|;
    GitLineSplit(oldName, newName);
    if n > 0 && |newName| > 0 {
      LastSeparatorIsLast(s, |s|, n);
      var m := LastSeparator(s, |s|).value;
      if m > n {
        SeparatorInSecondName(oldName, newName, m);
      } else if HasInnerSeparator(newName) {
        var k: nat :| k < |newName| && SeparatorAt(newName, k);
        SeparatorInSecondName(oldName, newName, n + 3 + k);
        LastSeparatorIsLast(s, |s|, n + 3 + k);
      }
    }
  }

  /** The paths of the line are the two names exactly when its last separator is the one between them. */
  lemma GitLineSplit(oldName: string, newName: string)
    ensures var s := oldName + (" b/" + newName);
            && (MatchGitPaths(GitLine(oldName, newName)) == Some((oldName, newName)) <==>
                LastSeparator(s, |s|) == Some(|oldName|))
            && (SeparatorAt(s, |oldName|) <==> |newName| > 0)
  {
    hide LastSeparator;
    var s := oldName + (" b/" + newName);
    var n := |oldName|;
    assert GitLine(oldName, newName)[13..] == s;
    assert s[n] == ' ' && s[n + 1] == 'b' && s[n + 2] == '/';
    assert s[..n] == oldName && s[n + 3..] == newName;
    assert LastSeparator(s, |s|).Some? ==> |s[..LastSeparator(s, |s|).value]| == LastSeparator(s, |s|).value;
  }

  /** A line gives a pair of paths exactly when it is the "diff --git" line of that pair, and that can carry it. */
  lemma MatchGitPathsIff(line: string, oldName: string, newName: string)
    ensures MatchGitPaths(line) == Some((oldName, newName)) <==>
            line == GitLine(oldName, newName) && |oldName| > 0 && |newName| > 0 && !HasInnerSeparator(newName)
  {
    hide MatchGitPaths, GitLine, HasInnerSeparator;
    GitLineIff(oldName, newName);
    if MatchGitPaths(line) == Some((oldName, newName)) {
      MatchedGitLine(line);
    }
  }

  lemma MatchedGitLine(line: string)
    requires MatchGitPaths(line).Some?
    ensures line == GitLine(MatchGitPaths(line).value.0, MatchGitPaths(line).value.1)
  {
    hide LastSeparator;
    var s := line[13..];
    var j := LastSeparator(s, |s|).value;
    SeparatorSplit(s, j);
    assert line == "diff --git a/" + s;
  }

  lemma SeparatorSplit(s: string, j: nat)
    requires SeparatorAt(s, j)
    ensures s == s[..j] + (" b/" + s[j + 3..])
  {
  }

  /** A path that the "diff --git" line alone must carry, for want of hunks and renames. */
  predicate CarriedByGitLine(p: PatchFile) {
    p.hunks == [] && p.oldPath.Some? && p.oldPath == p.newPath
  }

  /** The patches that the form git prints carries whole. */
  predicate Printable(p: PatchFile) {
    && CleanPatch(p)
    && (p.isBinary ==> (p.oldPath.Some? <==> p.newPath.Some?))
    && (CarriedByGitLine(p) ==> |p.oldPath.value| > 0 && !HasInnerSeparator(p.oldPath.value))
  }

  lemma GitLineIsHeader(a: string, b: string)
    requires OneLine(a) && OneLine(b)
    ensures OneLine(GitLine(a, b)) && IsFileHeader(GitLine(a, b))
  {
    OneLineConcat(" b/", b);
    OneLineConcat(a, " b/" + b);
    OneLineConcat("diff --git a/", a + (" b/" + b));
    var prefix, header := "diff --git ", "diff --git a/";
    assert prefix <= header <= GitLine(a, b);
  }

  lemma PrintedFileIsValid(p: PatchFile)
    requires CleanPatch(p)
    ensures ValidFile(PrintFile(p))
  {
    hide CleanHunk, ValidHunk, GitLine, IsFileHeader;
    PrintedHunks(p.hunks);
    GitLineIsHeader(PathOr(p.oldPath, p.newPath), PathOr(p.newPath, p.oldPath));
  }

  /** One printed file stands for the patch it was printed from exactly when the patch is printable. */
  lemma PrintedFileIff(p: PatchFile)
    requires CleanPatch(p)
    ensures ValidFile(PrintFile(p))
    ensures FileOf(PrintFile(p)) == p <==> Printable(p)
  {
    hide CleanHunk, ValidHunk, MatchGitPaths, HunksOf, NoteHeads, ValidFile, GitLine, HasInnerSeparator;
    PrintedFileIsValid(p);
    PrintedHunks(p.hunks);
    var d := PrintFile(p);
    GitLineIff(PathOr(p.oldPath, p.newPath), PathOr(p.newPath, p.oldPath));
    if IsRename(p) {
      NoteRename(p.oldPath.value, p.newPath.value, GitHead(d.header));
    } else {
      NoteRename([], [], GitHead(d.header));
      if p.isBinary && p.oldPath.None? && p.newPath.None? {
        EmptyGitLine();
      }
    }
  }

  /** The hunks survive printing, whatever becomes of the paths. */
  lemma PrintedFileHunks(p: PatchFile)
    requires CleanPatch(p) && !p.isBinary
    ensures ValidFile(PrintFile(p)) && FileOf(PrintFile(p)).hunks == p.hunks
  {
    hide CleanHunk, ValidHunk, MatchGitPaths, HunksOf, NoteHeads, ValidFile, GitLine;
    PrintedFileIsValid(p);
    PrintedHunks(p.hunks);
  }

  lemma EmptyGitLine()
    ensures MatchGitPaths(GitLine([], [])).None?
  {
    assert GitLine([], [])[13..] == " b/";
    assert forall j: nat :: LastSeparator(" b/", j).None?;
  }

  lemma {:induction false} PrintedFilesIff(patches: seq<PatchFile>)
    requires CleanPatches(patches)
    ensures ValidFiles(PrintFiles(patches))
    ensures PatchesOf(PrintFiles(patches)) == patches <==> forall k :: 0 <= k < |patches| ==> Printable(patches[k])
  {
    hide CleanPatch, Printable, PrintFile, ValidFile, FileOf;
    if patches != [] {
      PrintedFileIff(patches[0]);
      PrintedFilesIff(patches[1..]);
      var docs := PrintFiles(patches);
      assert docs[1..] == PrintFiles(patches[1..]);
      assert PatchesOf(docs) == [FileOf(docs[0])] + PatchesOf(docs[1..]);
      assert PatchesOf(docs)[1..] == PatchesOf(docs[1..]);
    }
  }

  /** Parse undoes print in the form of git exactly for the printable patches. */
  lemma ParsePrintIff(patches: seq<PatchFile>)
    ensures DiffOf(PrintDiff(patches), true) == patches <==> forall k :: 0 <= k < |patches| ==> Printable(patches[k])
  {
    if CleanPatches(patches) {
      PrintedFilesIff(patches);
      ParseDocument(PrintFiles(patches));
    } else {
      ParsedPatchesAreClean(PrintDiff(patches));
      assert !(forall k :: 0 <= k < |patches| ==> Printable(patches[k]));
    }
  }
}
