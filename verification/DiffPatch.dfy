/**
 What a parsed diff means: printed from an edit script and parsed back, its hunks show the
 right slices of both files, and applying them turns the old file into the new one.
 */
module DiffPatch {

  import opened Wrappers
  import opened Text
  import opened DiffModel
  import opened DiffParser
  import opened DiffFiles
  import opened DiffRoundTrip

  // ----- edit scripts -----

  datatype Edit = Keep(text: string) | Drop(text: string) | Insert(text: string)

  /** A stretch of common lines that no hunk shows, or the edits of one hunk and its section header. */
  datatype Segment = Common(lines: seq<string>) | Change(edits: seq<Edit>, section: string)

  function OldSide(edits: seq<Edit>): seq<string> {
    if edits == [] then []
    else (if edits[0].Insert? then [] else [edits[0].text]) + OldSide(edits[1..])
  }

  function NewSide(edits: seq<Edit>): seq<string> {
    if edits == [] then []
    else (if edits[0].Drop? then [] else [edits[0].text]) + NewSide(edits[1..])
  }

  function OldLines(s: Segment): seq<string> {
    match s
    case Common(lines) => lines
    case Change(edits, _) => OldSide(edits)
  }

  function NewLines(s: Segment): seq<string> {
    match s
    case Common(lines) => lines
    case Change(edits, _) => NewSide(edits)
  }

  function OldFile(script: seq<Segment>): seq<string> {
    if script == [] then [] else OldLines(script[0]) + OldFile(script[1..])
  }

  function NewFile(script: seq<Segment>): seq<string> {
    if script == [] then [] else NewLines(script[0]) + NewFile(script[1..])
  }

  // ----- the diff of a script -----

  function EditLines(edits: seq<Edit>, oldNo: nat, newNo: nat): seq<HunkLine> {
    if edits == [] then [] else
    match edits[0]
    case Keep(text) =>
      [HunkLine(Context, text, Some(oldNo), Some(newNo))] + EditLines(edits[1..], oldNo + 1, newNo + 1)
    case Drop(text) =>
      [HunkLine(Delete, text, Some(oldNo), None)] + EditLines(edits[1..], oldNo + 1, newNo)
    case Insert(text) =>
      [HunkLine(Add, text, None, Some(newNo))] + EditLines(edits[1..], oldNo, newNo + 1)
  }

  /** POSIX: an empty range is named by the line before it, any other by its first line. */
  function RangeStart(position: nat, count: nat): nat {
    if count == 0 then position else position + 1
  }

  function EditHunk(edits: seq<Edit>, section: string, oldPos: nat, newPos: nat): Hunk {
    var oldCount, newCount := |OldSide(edits)|, |NewSide(edits)|;
    Hunk(RangeStart(oldPos, oldCount), oldCount, RangeStart(newPos, newCount), newCount,
         EditLines(edits, oldPos + 1, newPos + 1), section, None)
  }

  function ScriptHunks(script: seq<Segment>, oldPos: nat, newPos: nat): seq<Hunk> {
    if script == [] then [] else
    var rest := ScriptHunks(script[1..], oldPos + |OldLines(script[0])|, newPos + |NewLines(script[0])|);
    if script[0].Change? then [EditHunk(script[0].edits, script[0].section, oldPos, newPos)] + rest else rest
  }

  lemma {:induction false} EditLinesViews(edits: seq<Edit>, oldNo: nat, newNo: nat)
    ensures OldView(EditLines(edits, oldNo, newNo)) == OldSide(edits)
    ensures NewView(EditLines(edits, oldNo, newNo)) == NewSide(edits)
    ensures Numbered(EditLines(edits, oldNo, newNo), oldNo, newNo)
  {
    if edits != [] {
      EditLinesViews(edits[1..], if edits[0].Insert? then oldNo else oldNo + 1, if edits[0].Drop? then newNo else newNo + 1);
    }
  }

  /** A side that a hunk does not show can be numbered from anywhere. */
  lemma {:induction false} NumberedAbsentSide(lines: seq<HunkLine>, oldNo: nat, newNo: nat, oldNo': nat, newNo': nat)
    requires Numbered(lines, oldNo, newNo)
    requires oldNo == oldNo' || OldView(lines) == []
    requires newNo == newNo' || NewView(lines) == []
    ensures Numbered(lines, oldNo', newNo')
  {
    if lines != [] {
      var l := lines[0];
      NumberedAbsentSide(lines[1..],
                         if l.InOld() then oldNo + 1 else oldNo, if l.InNew() then newNo + 1 else newNo,
                         if l.InOld() then oldNo' + 1 else oldNo', if l.InNew() then newNo' + 1 else newNo');
    }
  }

  predicate EditsOneLine(edits: seq<Edit>) {
    forall k :: 0 <= k < |edits| ==> OneLine(edits[k].text)
  }

  predicate ScriptOneLine(script: seq<Segment>) {
    forall k :: 0 <= k < |script| && script[k].Change? ==>
      EditsOneLine(script[k].edits) && Trimmed(script[k].section) && OneLine(script[k].section)
  }

  lemma {:induction false} EditLinesOneLine(edits: seq<Edit>, oldNo: nat, newNo: nat)
    requires EditsOneLine(edits)
    ensures forall l :: l in EditLines(edits, oldNo, newNo) ==> OneLine(l.content)
  {
    if edits != [] {
      EditLinesOneLine(edits[1..], if edits[0].Insert? then oldNo else oldNo + 1, if edits[0].Drop? then newNo else newNo + 1);
    }
  }

  lemma EditHunkIsClean(edits: seq<Edit>, section: string, oldPos: nat, newPos: nat)
    requires EditsOneLine(edits) && Trimmed(section) && OneLine(section)
    ensures CleanHunk(EditHunk(edits, section, oldPos, newPos))
  {
    var h := EditHunk(edits, section, oldPos, newPos);
    EditLinesViews(edits, oldPos + 1, newPos + 1);
    EditLinesOneLine(edits, oldPos + 1, newPos + 1);
    NumberedAbsentSide(h.lines, oldPos + 1, newPos + 1, h.oldStart, h.newStart);
    assert forall k :: 0 <= k < |h.lines| ==> h.lines[k] in EditLines(edits, oldPos + 1, newPos + 1);
  }

  lemma {:induction false} ScriptHunksAreClean(script: seq<Segment>, oldPos: nat, newPos: nat)
    requires ScriptOneLine(script)
    ensures forall h :: h in ScriptHunks(script, oldPos, newPos) ==> CleanHunk(h)
  {
    hide CleanHunk;
    if script != [] {
      ScriptHunksAreClean(script[1..], oldPos + |OldLines(script[0])|, newPos + |NewLines(script[0])|);
      if script[0].Change? {
        EditHunkIsClean(script[0].edits, script[0].section, oldPos, newPos);
      }
    }
  }

  // ----- applying hunks -----

  /** The number of old lines in front of a hunk, as its header states it. */
  function Position(h: Hunk): int {
    if h.oldCount == 0 then h.oldStart else h.oldStart - 1
  }

  /** The number of new lines in front of a hunk, as its header states it. */
  function NewPosition(h: Hunk): int {
    if h.newCount == 0 then h.newStart else h.newStart - 1
  }

  /** A hunk fits the file if the lines it shows as old are the ones at its position. */
  predicate Fits(file: seq<string>, h: Hunk, pos: nat) {
    && pos <= Position(h) && Position(h) + h.oldCount <= |file|
    && file[Position(h)..Position(h) + h.oldCount] == OldView(h.lines)
  }

  /** Apply hunks, in order, to the part of the file from pos on; None if one does not fit. */
  function Apply(file: seq<string>, hunks: seq<Hunk>, pos: nat): Option<seq<string>>
    requires pos <= |file|
    decreases |hunks|
  {
    if hunks == [] then Some(file[pos..])
    else if !Fits(file, hunks[0], pos) then None
    else
      match Apply(file, hunks[1..], Position(hunks[0]) + hunks[0].oldCount)
      case None => None
      case Some(rest) => Some(file[pos..Position(hunks[0])] + (NewView(hunks[0].lines) + rest))
  }

  /** A script's files and hunks, one segment at a time. */
  lemma UnfoldScript(script: seq<Segment>, oldPos: nat, newPos: nat)
    requires script != []
    ensures OldFile(script) == OldLines(script[0]) + OldFile(script[1..])
    ensures NewFile(script) == NewLines(script[0]) + NewFile(script[1..])
    ensures ScriptHunks(script, oldPos, newPos) ==
            var rest := ScriptHunks(script[1..], oldPos + |OldLines(script[0])|, newPos + |NewLines(script[0])|);
            if script[0].Change? then [EditHunk(script[0].edits, script[0].section, oldPos, newPos)] + rest else rest
    ensures match script[0]
            case Common(lines) => OldLines(script[0]) == lines == NewLines(script[0])
            case Change(edits, _) => OldLines(script[0]) == OldSide(edits) && NewLines(script[0]) == NewSide(edits)
  {
  }

  lemma UnfoldEmptyScript(file: seq<string>, pos: nat, newPos: nat)
    requires pos <= |file| && file[pos..] == OldFile([])
    ensures Apply(file, ScriptHunks([], pos, newPos), pos) == Some(NewFile([]))
  {
  }

  /** Common lines in front of the hunks come through unchanged. */
  lemma ApplyAfterCommon(file: seq<string>, hunks: seq<Hunk>, pos: nat, next: nat)
    requires pos <= next <= |file|
    requires Apply(file, hunks, next).Some?
    ensures Apply(file, hunks, pos) == Some(file[pos..next] + Apply(file, hunks, next).value)
  {
    if hunks == [] {
      assert file[pos..] == file[pos..next] + file[next..];
    } else {
      var at := Position(hunks[0]);
      assert file[pos..at] == file[pos..next] + file[next..at];
      var rest := NewView(hunks[0].lines) + Apply(file, hunks[1..], at + hunks[0].oldCount).value;
      Regroup(file[pos..next], file[next..at], rest);
    }
  }

  lemma {:induction false} ApplyScript(file: seq<string>, script: seq<Segment>, oldPos: nat, newPos: nat)
    requires oldPos <= |file| && file[oldPos..] == OldFile(script)
    ensures Apply(file, ScriptHunks(script, oldPos, newPos), oldPos) == Some(NewFile(script))
  {
    hide Apply, ScriptHunks, OldFile, NewFile, OldLines, NewLines, OldSide, NewSide, EditHunk;
    if script == [] {
      UnfoldEmptyScript(file, oldPos, newPos);
    } else {
      var s := script[0];
      UnfoldScript(script, oldPos, newPos);
      var nextOld, nextNew := oldPos + |OldLines(s)|, newPos + |NewLines(s)|;
      SplitAt(file, oldPos, OldLines(s), OldFile(script[1..]));
      var hunks := ScriptHunks(script[1..], nextOld, nextNew);
      ApplyScript(file, script[1..], nextOld, nextNew);
      if s.Common? {
        ApplyAfterCommon(file, hunks, oldPos, nextOld);
      } else {
        EditHunkPosition(s.edits, s.section, oldPos, newPos);
        ApplyOne(file, EditHunk(s.edits, s.section, oldPos, newPos), hunks, oldPos, nextOld);
      }
    }
  }

  lemma SplitAt(file: seq<string>, pos: nat, first: seq<string>, rest: seq<string>)
    requires pos <= |file| && file[pos..] == first + rest
    ensures pos + |first| <= |file|
    ensures file[pos..pos + |first|] == first && file[pos + |first|..] == rest
  {
    assert |file[pos..]| == |first| + |rest|;
    assert file[pos..pos + |first|] == file[pos..][..|first|];
    assert file[pos + |first|..] == file[pos..][|first|..];
  }

  lemma EditHunkPosition(edits: seq<Edit>, section: string, oldPos: nat, newPos: nat)
    ensures var h := EditHunk(edits, section, oldPos, newPos);
            && Position(h) == oldPos && h.oldCount == |OldSide(edits)| && h.newCount == |NewSide(edits)|
            && NewPosition(h) == newPos
            && OldView(h.lines) == OldSide(edits) && NewView(h.lines) == NewSide(edits)
  {
    EditLinesViews(edits, oldPos + 1, newPos + 1);
  }

  lemma ApplyOne(file: seq<string>, h: Hunk, hunks: seq<Hunk>, pos: nat, next: nat)
    requires pos <= next <= |file| && Position(h) == pos && next == pos + h.oldCount
    requires file[pos..next] == OldView(h.lines)
    requires Apply(file, hunks, next).Some?
    ensures Apply(file, [h] + hunks, pos) == Some(NewView(h.lines) + Apply(file, hunks, next).value)
  {
    assert ([h] + hunks)[1..] == hunks;
    assert file[pos..pos] == [];
    assert [] + (NewView(h.lines) + Apply(file, hunks, next).value) == NewView(h.lines) + Apply(file, hunks, next).value;
  }

  // ----- reversing -----

  function ReverseLine(l: HunkLine): HunkLine {
    HunkLine(match l.changeType case Add => Delete case Delete => Add case Context => Context,
             l.content, l.newLineno, l.oldLineno)
  }

  function ReverseLines(lines: seq<HunkLine>): seq<HunkLine> {
    if lines == [] then [] else [ReverseLine(lines[0])] + ReverseLines(lines[1..])
  }

  function ReverseHunk(h: Hunk): Hunk {
    Hunk(h.newStart, h.newCount, h.oldStart, h.oldCount, ReverseLines(h.lines), h.sectionHeader, h.enclosingScope)
  }

  function ReverseHunks(hunks: seq<Hunk>): seq<Hunk> {
    if hunks == [] then [] else [ReverseHunk(hunks[0])] + ReverseHunks(hunks[1..])
  }

  function ReverseEdits(edits: seq<Edit>): seq<Edit> {
    if edits == [] then []
    else [match edits[0] case Keep(t) => Keep(t) case Drop(t) => Insert(t) case Insert(t) => Drop(t)] + ReverseEdits(edits[1..])
  }

  function ReverseSegment(s: Segment): Segment {
    if s.Change? then Change(ReverseEdits(s.edits), s.section) else s
  }

  function ReverseScript(script: seq<Segment>): seq<Segment> {
    if script == [] then []
    else [ReverseSegment(script[0])] + ReverseScript(script[1..])
  }

  lemma {:induction false} ReverseEditsSides(edits: seq<Edit>, oldNo: nat, newNo: nat)
    ensures OldSide(ReverseEdits(edits)) == NewSide(edits) && NewSide(ReverseEdits(edits)) == OldSide(edits)
    ensures ReverseLines(EditLines(edits, oldNo, newNo)) == EditLines(ReverseEdits(edits), newNo, oldNo)
  {
    if edits != [] {
      ReverseEditsSides(edits[1..], if edits[0].Insert? then oldNo else oldNo + 1, if edits[0].Drop? then newNo else newNo + 1);
    }
  }

  /** The reversed script takes the new file back to the old one. */
  lemma {:induction false} ReverseScriptFiles(script: seq<Segment>)
    ensures OldFile(ReverseScript(script)) == NewFile(script) && NewFile(ReverseScript(script)) == OldFile(script)
  {
    if script != [] {
      ReverseScriptFiles(script[1..]);
      if script[0].Change? {
        ReverseEditsSides(script[0].edits, 0, 0);
      }
    }
  }

  lemma ReverseSegmentSides(s: Segment)
    ensures OldLines(ReverseSegment(s)) == NewLines(s) && NewLines(ReverseSegment(s)) == OldLines(s)
  {
    if s.Change? {
      ReverseEditsSides(s.edits, 0, 0);
    }
  }

  lemma UnfoldReverse(script: seq<Segment>)
    requires script != []
    ensures var r := ReverseScript(script);
            r != [] && r[0] == ReverseSegment(script[0]) && r[1..] == ReverseScript(script[1..])
  {
  }

  lemma {:induction false} ReverseScriptHunks(script: seq<Segment>, oldPos: nat, newPos: nat)
    ensures ReverseHunks(ScriptHunks(script, oldPos, newPos)) == ScriptHunks(ReverseScript(script), newPos, oldPos)
  {
    if script != [] {
      hide ReverseHunk, ReverseHunks, EditHunk, ScriptHunks, OldFile, NewFile, OldSide, NewSide, ReverseEdits;
      hide ReverseScript, OldLines, NewLines;
      var s := script[0];
      var oldNext, newNext := oldPos + |OldLines(s)|, newPos + |NewLines(s)|;
      UnfoldReverse(script);
      ReverseSegmentSides(s);
      UnfoldScript(script, oldPos, newPos);
      UnfoldScript(ReverseScript(script), newPos, oldPos);
      ReverseScriptHunks(script[1..], oldNext, newNext);
      if s.Change? {
        ReverseEditHunk(s.edits, s.section, oldPos, newPos);
        ReverseHunksFirst(EditHunk(s.edits, s.section, oldPos, newPos), ScriptHunks(script[1..], oldNext, newNext));
      }
    } else {
      assert ReverseHunks([]) == [];
    }
  }

  lemma ReverseHunksFirst(h: Hunk, rest: seq<Hunk>)
    ensures ReverseHunks([h] + rest) == [ReverseHunk(h)] + ReverseHunks(rest)
  {
    assert ([h] + rest)[1..] == rest;
  }

  lemma ReverseEditHunk(edits: seq<Edit>, section: string, oldPos: nat, newPos: nat)
    ensures ReverseHunk(EditHunk(edits, section, oldPos, newPos)) == EditHunk(ReverseEdits(edits), section, newPos, oldPos)
  {
    ReverseEditsSides(edits, oldPos + 1, newPos + 1);
  }

  // ----- the slices of the two files -----

  predicate ShowsSlice(file: seq<string>, position: int, count: nat, view: seq<string>) {
    0 <= position && position + count <= |file| && file[position..position + count] == view
  }

  lemma MiddleSlice(a: seq<string>, b: seq<string>, c: seq<string>)
    ensures ShowsSlice(a + (b + c), |a|, |b|, b)
  {
  }

  /**
   The hunks of a script show slices of the two files: the counts in a hunk's header are the
   numbers of lines it shows, and each view is the part of its file that the header names.
   */
  lemma {:induction false} HunkViewsAreSlices(script: seq<Segment>, before: seq<string>, after: seq<string>, k: nat)
    requires k < |ScriptHunks(script, |before|, |after|)|
    ensures var h := ScriptHunks(script, |before|, |after|)[k];
            && ShowsSlice(before + OldFile(script), Position(h), h.oldCount, OldView(h.lines))
            && ShowsSlice(after + NewFile(script), NewPosition(h), h.newCount, NewView(h.lines))
  {
    hide EditHunk, OldView, NewView, OldSide, NewSide;
    var s := script[0];
    if s.Change? && k == 0 {
      EditHunkPosition(s.edits, s.section, |before|, |after|);
      MiddleSlice(before, OldLines(s), OldFile(script[1..]));
      MiddleSlice(after, NewLines(s), NewFile(script[1..]));
    } else {
      Regroup(before, OldLines(s), OldFile(script[1..]));
      Regroup(after, NewLines(s), NewFile(script[1..]));
      HunkViewsAreSlices(script[1..], before + OldLines(s), after + NewLines(s), if s.Change? then k - 1 else k);
    }
  }

  // ----- the theorem -----

  /** One file of a commit: a side without a path is absent, two different paths are a rename. */
  datatype FileChange = FileChange(oldPath: Option<string>, newPath: Option<string>, script: seq<Segment>)

  predicate ValidChange(c: FileChange) {
    && (c.oldPath.Some? ==> OneLine(c.oldPath.value)) && (c.newPath.Some? ==> OneLine(c.newPath.value))
    && ScriptOneLine(c.script)
  }

  function ChangePatch(c: FileChange): PatchFile {
    PatchFile(c.oldPath, c.newPath, ScriptHunks(c.script, 0, 0), false)
  }

  function ChangePatches(changes: seq<FileChange>): (patches: seq<PatchFile>)
    ensures |patches| == |changes|
    ensures forall k :: 0 <= k < |changes| ==> patches[k] == ChangePatch(changes[k])
  {
    if changes == [] then [] else [ChangePatch(changes[0])] + ChangePatches(changes[1..])
  }

  /**
   The hunks of p take the old file to the new one and, reversed, the new file to the old one,
   and each shows the slices of the two files that its header names.
   */
  predicate Realizes(p: PatchFile, c: FileChange) {
    && Apply(OldFile(c.script), p.hunks, 0) == Some(NewFile(c.script))
    && Apply(NewFile(c.script), ReverseHunks(p.hunks), 0) == Some(OldFile(c.script))
    && forall k :: 0 <= k < |p.hunks| ==>
         && ShowsSlice(OldFile(c.script), Position(p.hunks[k]), p.hunks[k].oldCount, OldView(p.hunks[k].lines))
         && ShowsSlice(NewFile(c.script), NewPosition(p.hunks[k]), p.hunks[k].newCount, NewView(p.hunks[k].lines))
  }

  lemma ScriptHunksRealize(p: PatchFile, c: FileChange)
    requires p.hunks == ScriptHunks(c.script, 0, 0)
    ensures Realizes(p, c)
  {
    hide Apply, OldFile, NewFile, ScriptHunks, ReverseHunks, ReverseScript, ShowsSlice, OldView, NewView;
    var a, b := OldFile(c.script), NewFile(c.script);
    assert a[0..] == a && b[0..] == b && [] + a == a && [] + b == b;
    ApplyScript(a, c.script, 0, 0);
    ReverseScriptFiles(c.script);
    ReverseScriptHunks(c.script, 0, 0);
    ApplyScript(b, ReverseScript(c.script), 0, 0);
    forall k | 0 <= k < |p.hunks|
      ensures ShowsSlice(a, Position(p.hunks[k]), p.hunks[k].oldCount, OldView(p.hunks[k].lines))
      ensures ShowsSlice(b, NewPosition(p.hunks[k]), p.hunks[k].newCount, NewView(p.hunks[k].lines))
    {
      HunkViewsAreSlices(c.script, [], [], k);
    }
  }

  lemma ChangePatchIsClean(c: FileChange)
    requires ValidChange(c)
    ensures CleanPatch(ChangePatch(c))
  {
    hide CleanHunk, ScriptHunks;
    ScriptHunksAreClean(c.script, 0, 0);
    var hunks := ChangePatch(c).hunks;
    assert forall k :: 0 <= k < |hunks| ==> hunks[k] in ScriptHunks(c.script, 0, 0);
  }

  lemma ChangePatchesAreClean(changes: seq<FileChange>)
    requires forall k :: 0 <= k < |changes| ==> ValidChange(changes[k])
    ensures CleanPatches(ChangePatches(changes))
  {
    hide CleanPatch, ChangePatch, ValidChange;
    forall k | 0 <= k < |changes| ensures CleanPatch(ChangePatch(changes[k])) {
      ChangePatchIsClean(changes[k]);
    }
  }

  /**
   Patch semantics. Write the diff of any list of changed files, each new, deleted, renamed or
   edited by any script, and parse it: the k-th patch has the paths of the k-th change, its
   hunks show the slices of the two files they name, and applying them turns the old file into
   the new one and back. Hunks with an empty range on either side are included.
   */
  lemma ParsedDiffApplies(changes: seq<FileChange>)
    requires forall k :: 0 <= k < |changes| ==> ValidChange(changes[k])
    ensures var patches := DiffOf(WriteDiff(ChangePatches(changes)), true);
            && |patches| == |changes|
            && forall k :: 0 <= k < |changes| ==>
                 && patches[k].oldPath == changes[k].oldPath && patches[k].newPath == changes[k].newPath
                 && Realizes(patches[k], changes[k])
  {
    hide ScriptHunks, DiffOf, WriteDiff, Realizes, CleanPatches;
    ChangePatchesAreClean(changes);
    ParseWriteIff(ChangePatches(changes));
    forall k | 0 <= k < |changes| ensures Realizes(ChangePatch(changes[k]), changes[k]) {
      ScriptHunksRealize(ChangePatch(changes[k]), changes[k]);
    }
  }

  /**
   The same for the form git prints. There the paths come through unless only the "diff --git"
   line carries them and cannot; the hunks always do.
   */
  lemma PrintedDiffApplies(changes: seq<FileChange>)
    requires forall k :: 0 <= k < |changes| ==> ValidChange(changes[k])
    ensures var patches := DiffOf(PrintDiff(ChangePatches(changes)), true);
            && |patches| == |changes|
            && forall k :: 0 <= k < |changes| ==>
                 && Realizes(patches[k], changes[k])
                 && (patches[k] == ChangePatch(changes[k]) <==> Printable(ChangePatch(changes[k])))
  {
    hide ScriptHunks, Realizes, CleanPatch, Printable, PrintFile, ValidFile, FileOf;
    var patches := ChangePatches(changes);
    ChangePatchesAreClean(changes);
    PrintedFilesIff(patches);
    var docs := PrintFiles(patches);
    ParseDocument(docs);
    forall k | 0 <= k < |changes|
      ensures Realizes(PatchesOf(docs)[k], changes[k])
      ensures PatchesOf(docs)[k] == patches[k] <==> Printable(patches[k])
    {
      PatchesOfAt(docs, k);
      PrintedFileIff(patches[k]);
      PrintedFileHunks(patches[k]);
      ScriptHunksRealize(FileOf(docs[k]), changes[k]);
    }
  }
}
