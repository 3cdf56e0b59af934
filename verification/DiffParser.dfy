/**
 The unified-diff parser: the meaning of a diff as recursive functions over its lines,
 and the loops of `_parse_hunks` and `parse_diff` proved to compute it.
 */
module DiffParser {

  import opened Wrappers
  import opened Text
  import opened DiffModel

  lemma Regroup<T>(a: seq<T>, b: seq<T>, c: seq<T>)
    ensures (a + b) + c == a + (b + c)
  {
  }

  // ----- hunk headers: "@@ -start[,count] +start[,count] @@ section" -----

  datatype HunkHeader = HunkHeader(oldStart: nat, oldCount: nat, newStart: nat, newCount: nat, section: string)

  datatype Range = Range(start: nat, count: nat, rest: string)

  /** A line range in front of some text; a missing count means 1. */
  function MatchRange(s: string): Option<Range> {
    var d := DigitsLength(s);
    if d == 0 then None else
    var start := ParseNat(s[..d]);
    var rest := s[d..];
    if |rest| > 0 && rest[0] == ',' && DigitsLength(rest[1..]) > 0 then
      var c := DigitsLength(rest[1..]);
      Some(Range(start, ParseNat(rest[1..][..c]), rest[1 + c..]))
    else
      Some(Range(start, 1, rest))
  }

  function MatchHeader(line: string): Option<HunkHeader> {
    if !StartsWith(line, "@@ -") then None else
    match MatchRange(line[4..])
    case None => None
    case Some(o) =>
      if !StartsWith(o.rest, " +") then None else
      match MatchRange(o.rest[2..])
      case None => None
      case Some(n) =>
        if !StartsWith(n.rest, " @@") then None else
        Some(HunkHeader(o.start, o.count, n.start, n.count, Strip(n.rest[3..])))
  }

  // ----- hunk bodies -----

  predicate EndsBody(line: string) {
    MatchHeader(line).Some? || StartsWith(line, "diff --git")
  }

  /** What a body line contributes: nothing when it is a marker or unknown. */
  function ReadLine(raw: string, oldNo: nat, newNo: nat): Option<HunkLine> {
    if StartsWith(raw, "+") then Some(HunkLine(Add, raw[1..], None, Some(newNo)))
    else if StartsWith(raw, "-") then Some(HunkLine(Delete, raw[1..], Some(oldNo), None))
    else if StartsWith(raw, " ") then Some(HunkLine(Context, raw[1..], Some(oldNo), Some(newNo)))
    else if |raw| == 0 then Some(HunkLine(Context, raw, Some(oldNo), Some(newNo)))
    else None
  }

  function NextOld(l: Option<HunkLine>, oldNo: nat): nat {
    if l.Some? && l.value.InOld() then oldNo + 1 else oldNo
  }

  function NextNew(l: Option<HunkLine>, newNo: nat): nat {
    if l.Some? && l.value.InNew() then newNo + 1 else newNo
  }

  function BodyLength(lines: seq<string>): (n: nat)
    ensures n <= |lines|
  {
    if lines == [] || EndsBody(lines[0]) then 0 else 1 + BodyLength(lines[1..])
  }

  function ReadBody(lines: seq<string>, oldNo: nat, newNo: nat): seq<HunkLine> {
    if lines == [] || EndsBody(lines[0]) then [] else
    var l := ReadLine(lines[0], oldNo, newNo);
    (if l.Some? then [l.value] else []) + ReadBody(lines[1..], NextOld(l, oldNo), NextNew(l, newNo))
  }

  function ReadHunk(h: HunkHeader, body: seq<string>): Hunk {
    Hunk(h.oldStart, h.oldCount, h.newStart, h.newCount, ReadBody(body, h.oldStart, h.newStart), h.section, None)
  }

  function ReadHunks(lines: seq<string>): seq<Hunk>
    decreases |lines|
  {
    if lines == [] then [] else
    match MatchHeader(lines[0])
    case None => ReadHunks(lines[1..])
    case Some(h) => [ReadHunk(h, lines[1..])] + ReadHunks(lines[1 + BodyLength(lines[1..])..])
  }

  // ----- the same from a position on -----

  function BodyFrom(lines: seq<string>, i: nat, oldNo: nat, newNo: nat): seq<HunkLine>
    requires i <= |lines|
  {
    ReadBody(lines[i..], oldNo, newNo)
  }

  /** The position at which the body that starts at i ends. */
  function BodyEnd(lines: seq<string>, i: nat): (end: nat)
    requires i <= |lines|
    ensures i <= end <= |lines|
  {
    i + BodyLength(lines[i..])
  }

  function HunksFrom(lines: seq<string>, i: nat): seq<Hunk>
    requires i <= |lines|
  {
    ReadHunks(lines[i..])
  }

  /** One body line is read onto what was read before. */
  lemma ReadBodyStep(read: seq<HunkLine>, lines: seq<string>, i: nat, oldNo: nat, newNo: nat)
    requires i < |lines| && !EndsBody(lines[i])
    ensures BodyEnd(lines, i) == BodyEnd(lines, i + 1)
    ensures var l := ReadLine(lines[i], oldNo, newNo);
            read + BodyFrom(lines, i, oldNo, newNo) ==
            (if l.Some? then read + [l.value] else read) + BodyFrom(lines, i + 1, NextOld(l, oldNo), NextNew(l, newNo))
  {
    hide ReadLine, EndsBody, NextOld, NextNew;
    assert lines[i..][1..] == lines[i + 1..];
    var l := ReadLine(lines[i], oldNo, newNo);
    Regroup(read, if l.Some? then [l.value] else [], BodyFrom(lines, i + 1, NextOld(l, oldNo), NextNew(l, newNo)));
  }

  lemma ReadBodyEnds(lines: seq<string>, i: nat, oldNo: nat, newNo: nat)
    requires i <= |lines| && (i == |lines| || EndsBody(lines[i]))
    ensures BodyFrom(lines, i, oldNo, newNo) == [] && BodyEnd(lines, i) == i
  {
    hide EndsBody;
  }

  lemma SkipToHunk(lines: seq<string>, i: nat)
    requires i < |lines| && MatchHeader(lines[i]).None?
    ensures HunksFrom(lines, i) == HunksFrom(lines, i + 1)
  {
    hide MatchHeader, BodyLength;
    assert lines[i..][1..] == lines[i + 1..];
  }

  /** One hunk is read onto what was read before. */
  lemma ReadHunkStep(read: seq<Hunk>, lines: seq<string>, i: nat)
    requires i < |lines| && MatchHeader(lines[i]).Some?
    ensures var h := MatchHeader(lines[i]).value;
            var hunk := Hunk(h.oldStart, h.oldCount, h.newStart, h.newCount,
                             BodyFrom(lines, i + 1, h.oldStart, h.newStart), h.section, None);
            read + HunksFrom(lines, i) == (read + [hunk]) + HunksFrom(lines, BodyEnd(lines, i + 1))
  {
    hide MatchHeader, BodyLength;
    var h := MatchHeader(lines[i]).value;
    assert lines[i..][1..] == lines[i + 1..];
    var n := BodyLength(lines[i + 1..]);
    assert lines[i..][1 + n..] == lines[i + 1 + n..];
    Regroup(read, [ReadHunk(h, lines[i + 1..])], HunksFrom(lines, i + 1 + n));
  }

  lemma WholeHunks(lines: seq<string>)
    ensures HunksFrom(lines, 0) == ReadHunks(lines) && HunksFrom(lines, |lines|) == []
  {
    assert lines[0..] == lines;
  }

  /** `_parse_hunks`: one cursor over the lines, two counters for the line numbers. */
  method ParseHunks(lines: seq<string>) returns (hunks: seq<Hunk>)
    ensures hunks == ReadHunks(lines)
  {
    hide MatchHeader, BodyFrom, BodyEnd, HunksFrom, ReadHunks;
    hunks := [];
    var i := 0;
    WholeHunks(lines);
    while i < |lines|
      invariant 0 <= i <= |lines|
      invariant hunks + HunksFrom(lines, i) == ReadHunks(lines)
    {
      var m := MatchHeader(lines[i]);
      if m.None? {
        SkipToHunk(lines, i);
        i := i + 1;
        continue;
      }
      ReadHunkStep(hunks, lines, i);
      var h := m.value;
      var hunkLines := [];
      var oldLineno, newLineno := h.oldStart, h.newStart;
      i := i + 1;
      ghost var body, end := BodyFrom(lines, i, oldLineno, newLineno), BodyEnd(lines, i);
      while i < |lines|
        invariant 0 < i <= |lines|
        invariant hunkLines + BodyFrom(lines, i, oldLineno, newLineno) == body
        invariant BodyEnd(lines, i) == end
      {
        var raw := lines[i];
        if MatchHeader(raw).Some? {
          break;
        }
        if StartsWith(raw, "diff --git") {
          break;
        }
        ReadBodyStep(hunkLines, lines, i, oldLineno, newLineno);
        if StartsWith(raw, "+") {
          hunkLines := hunkLines + [HunkLine(Add, raw[1..], None, Some(newLineno))];
          newLineno := newLineno + 1;
        } else if StartsWith(raw, "-") {
          hunkLines := hunkLines + [HunkLine(Delete, raw[1..], Some(oldLineno), None)];
          oldLineno := oldLineno + 1;
        } else if StartsWith(raw, " ") || |raw| == 0 {
          var content := if StartsWith(raw, " ") then raw[1..] else raw;
          hunkLines := hunkLines + [HunkLine(Context, content, Some(oldLineno), Some(newLineno))];
          oldLineno := oldLineno + 1;
          newLineno := newLineno + 1;
        }
        i := i + 1;
      }
      ReadBodyEnds(lines, i, oldLineno, newLineno);
      assert hunkLines == body && i == end;
      hunks := hunks + [Hunk(h.oldStart, h.oldCount, h.newStart, h.newCount, hunkLines, h.section, None)];
    }
  }

  // ----- file blocks -----

  predicate IsFileHeader(line: string) {
    StartsWith(line, "diff --git ")
  }

  /** A separating " b/" at position k, with something after it. */
  predicate SeparatorAt(s: string, k: nat) {
    k + 3 < |s| && s[k] == ' ' && s[k + 1] == 'b' && s[k + 2] == '/'
  }

  /** The last separator of s at or before index j that has something in front of it. */
  function LastSeparator(s: string, j: nat): (p: Option<nat>)
    ensures p.Some? ==> 1 <= p.value <= j && SeparatorAt(s, p.value)
  {
    if 1 <= j && SeparatorAt(s, j) then Some(j)
    else if j == 0 then None else LastSeparator(s, j - 1)
  }

  /** The two paths of a "diff --git a/X b/Y" line; X extends as far as it can. */
  function MatchGitPaths(line: string): Option<(string, string)> {
    if !StartsWith(line, "diff --git a/") then None else
    var s := line[13..];
    match LastSeparator(s, |s|)
    case None => None
    case Some(j) => Some((s[..j], s[j + 3..]))
  }

  /** A path on a "---" or "+++" line; None stands for /dev/null. */
  function StripPathPrefix(path: string): Option<string> {
    if path == "/dev/null" then None
    else if StartsWith(path, "a/") || StartsWith(path, "b/") then Some(path[2..])
    else Some(path)
  }

  /** What is known about a file while its header lines are read. */
  datatype FileHead = FileHead(oldPath: Option<string>, newPath: Option<string>, isBinary: bool,
                               renameFrom: Option<string>, renameTo: Option<string>,
                               hunkLines: seq<string>)

  const NO_HEAD := FileHead(None, None, false, None, None, [])

  function ReadHead(block: seq<string>, head: FileHead): FileHead {
    if block == [] then head else
    var line := block[0];
    var rest := block[1..];
    if IsFileHeader(line) then
      match MatchGitPaths(line)
      case None => ReadHead(rest, head)
      case Some(paths) => ReadHead(rest, head.(oldPath := Some(paths.0), newPath := Some(paths.1)))
    else if StartsWith(line, "--- ") then ReadHead(rest, head.(oldPath := StripPathPrefix(line[4..])))
    else if StartsWith(line, "+++ ") then head.(newPath := StripPathPrefix(line[4..]), hunkLines := rest)
    else if StartsWith(line, "Binary files") then head.(isBinary := true)
    else if StartsWith(line, "rename from ") then ReadHead(rest, head.(renameFrom := Some(line[12..])))
    else if StartsWith(line, "rename to ") then ReadHead(rest, head.(renameTo := Some(line[10..])))
    else ReadHead(rest, head)
  }

  function ReadFile(block: seq<string>): PatchFile {
    var head := ReadHead(block, NO_HEAD);
    PatchFile(if head.renameFrom.Some? then head.renameFrom else head.oldPath,
              if head.renameTo.Some? then head.renameTo else head.newPath,
              if head.isBinary then [] else ReadHunks(head.hunkLines),
              head.isBinary)
  }

  /** The number of lines before the next file header. */
  function BlockTail(lines: seq<string>): (n: nat)
    ensures n <= |lines|
    ensures n < |lines| ==> IsFileHeader(lines[n])
    ensures forall k :: 0 <= k < n ==> !IsFileHeader(lines[k])
  {
    if lines == [] || IsFileHeader(lines[0]) then 0 else 1 + BlockTail(lines[1..])
  }

  /** One patch per file header; lines before the first header belong to no file. */
  function ReadDiff(lines: seq<string>): seq<PatchFile>
    decreases |lines|
  {
    if lines == [] then []
    else if !IsFileHeader(lines[0]) then ReadDiff(lines[1..])
    else
      var n := 1 + BlockTail(lines[1..]);
      [ReadFile(lines[..n])] + ReadDiff(lines[n..])
  }

  function OmitDeletions(patches: seq<PatchFile>): seq<PatchFile> {
    if patches == [] then []
    else if patches[0].IsDeletedFile() then OmitDeletions(patches[1..])
    else [patches[0].(hunks := KeepAdditions(patches[0].hunks))] + OmitDeletions(patches[1..])
  }

  function KeepAdditions(hunks: seq<Hunk>): seq<Hunk> {
    if hunks == [] then []
    else if hunks[0].IsDeletionOnly() then KeepAdditions(hunks[1..])
    else [hunks[0]] + KeepAdditions(hunks[1..])
  }

  /** The patches of a diff text, with or without the deletion-omission pass. */
  function DiffOf(text: string, includeDeletions: bool): seq<PatchFile> {
    var patches := ReadDiff(SplitLines(text));
    if includeDeletions then patches else OmitDeletions(patches)
  }

  /** The header loop of `parse_diff`: it stops at "+++" and at a binary marker. */
  method ParseFile(block: seq<string>) returns (patch: PatchFile)
    ensures patch == ReadFile(block)
  {
    var oldPath: Option<string>, newPath: Option<string> := None, None;
    var isBinary := false;
    var renameFrom: Option<string>, renameTo: Option<string> := None, None;
    var hunkStart := |block|;
    var i := 0;
    while i < |block|
      invariant 0 <= i <= |block|
      invariant hunkStart == |block| && !isBinary
      invariant ReadHead(block, NO_HEAD) ==
                ReadHead(block[i..], FileHead(oldPath, newPath, false, renameFrom, renameTo, []))
    {
      var line := block[i];
      assert block[i..][1..] == block[i + 1..];
      if IsFileHeader(line) {
        var m := MatchGitPaths(line);
        if m.Some? {
          oldPath, newPath := Some(m.value.0), Some(m.value.1);
        }
      } else if StartsWith(line, "--- ") {
        oldPath := StripPathPrefix(line[4..]);
      } else if StartsWith(line, "+++ ") {
        newPath := StripPathPrefix(line[4..]);
        hunkStart := i + 1;
        break;
      } else if StartsWith(line, "Binary files") {
        isBinary := true;
        break;
      } else if StartsWith(line, "rename from ") {
        renameFrom := Some(line[12..]);
      } else if StartsWith(line, "rename to ") {
        renameTo := Some(line[10..]);
      }
      i := i + 1;
    }
    assert ReadHead(block, NO_HEAD) ==
           FileHead(oldPath, newPath, isBinary, renameFrom, renameTo, block[hunkStart..]);
    if renameFrom.Some? {
      oldPath := renameFrom;
    }
    if renameTo.Some? {
      newPath := renameTo;
    }
    var hunks := [];
    if !isBinary {
      hunks := ParseHunks(block[hunkStart..]);
    }
    patch := PatchFile(oldPath, newPath, hunks, isBinary);
  }

  // ----- what the omission pass keeps -----

  predicate Increasing(at: seq<nat>) {
    forall k, l :: 0 <= k < l < |at| ==> at[k] < at[l]
  }

  /** The elements of s at these positions. */
  predicate ElementsAt<T(==)>(kept: seq<T>, s: seq<T>, at: seq<nat>) {
    |at| == |kept| && forall k :: 0 <= k < |at| ==> at[k] < |s| && kept[k] == s[at[k]]
  }

  /** The positions are those of the hunks with an added line. */
  predicate AtAdditions(hunks: seq<Hunk>, at: seq<nat>) {
    forall i: nat :: i < |hunks| ==>
      (i in at <==> exists j :: 0 <= j < |hunks[i].lines| && hunks[i].lines[j].changeType == Add)
  }

  /** kept is the hunks at these positions: in order, exactly those with an added line. */
  predicate HunksWithAdditions(kept: seq<Hunk>, hunks: seq<Hunk>, at: seq<nat>) {
    Increasing(at) && ElementsAt(kept, hunks, at) && AtAdditions(hunks, at)
  }

  /** The patch stands for the other one: the same file with the hunks that add lines. */
  ghost predicate StandsFor(kept: PatchFile, p: PatchFile) {
    && kept.oldPath == p.oldPath && kept.newPath == p.newPath && kept.isBinary == p.isBinary
    && exists hunksAt :: HunksWithAdditions(kept.hunks, p.hunks, hunksAt)
  }

  /**
   kept stands for the patches at these positions: in order, exactly those without an old path
   or with a new one.
   */
  ghost predicate FilesNotDeleted(kept: seq<PatchFile>, patches: seq<PatchFile>, at: seq<nat>) {
    && |at| == |kept|
    && (forall k :: 0 <= k < |at| ==> at[k] < |patches| && StandsFor(kept[k], patches[at[k]]))
    && Increasing(at)
    && (forall i: nat :: i < |patches| ==> (i in at <==> patches[i].oldPath.None? || patches[i].newPath.Some?))
  }

  /** The same positions, one further on. */
  function Shift(at: seq<nat>): (r: seq<nat>)
    ensures |r| == |at|
    ensures forall k :: 0 <= k < |at| ==> r[k] == at[k] + 1
    ensures forall i: nat :: i in r <==> i > 0 && i - 1 in at
  {
    if at == [] then [] else [at[0] + 1] + Shift(at[1..])
  }

  /** Positions for the rest, with or without the first one. */
  function Prepend(keep: bool, at: seq<nat>): (r: seq<nat>) {
    if keep then [0] + Shift(at) else Shift(at)
  }

  /** Prepending keeps positions increasing, and picks a later one exactly if it was picked before. */
  lemma PrependPositions(keep: bool, at: seq<nat>)
    requires Increasing(at)
    ensures var r := Prepend(keep, at);
            && Increasing(r)
            && (forall i: nat :: i in r <==> if i == 0 then keep else i - 1 in at)
            && |r| == |at| + (if keep then 1 else 0)
            && (keep ==> r[0] == 0)
            && forall k :: 0 <= k < |at| ==> r[if keep then k + 1 else k] == at[k] + 1
  {
    hide Shift;
  }

  lemma {:induction false} KeepAdditionsKeeps(hunks: seq<Hunk>) returns (at: seq<nat>)
    ensures HunksWithAdditions(KeepAdditions(hunks), hunks, at)
  {
    if hunks == [] {
      at := [];
    } else {
      var rest := KeepAdditionsKeeps(hunks[1..]);
      at := Prepend(!hunks[0].IsDeletionOnly(), rest);
      HunksOneMore(hunks, rest);
    }
  }

  lemma HunksOneMore(hunks: seq<Hunk>, rest: seq<nat>)
    requires hunks != [] && HunksWithAdditions(KeepAdditions(hunks[1..]), hunks[1..], rest)
    ensures HunksWithAdditions(KeepAdditions(hunks), hunks, Prepend(!hunks[0].IsDeletionOnly(), rest))
  {
    hide Prepend, KeepAdditions, Increasing, ElementsAt, AtAdditions;
    var keep := !hunks[0].IsDeletionOnly();
    PrependPositions(keep, rest);
    UnfoldKeepAdditions(hunks);
    PickedElements(keep, KeepAdditions(hunks[1..]), hunks, rest);
    PickedHunks(hunks, rest);
  }

  /** Picking from the rest of a sequence is picking from the sequence, one further on. */
  lemma PickedElements(keep: bool, kept: seq<Hunk>, s: seq<Hunk>, rest: seq<nat>)
    requires s != [] && ElementsAt(kept, s[1..], rest)
    ensures ElementsAt(if keep then [s[0]] + kept else kept, s, Prepend(keep, rest))
  {
    hide Prepend, ElementsAt;
    ElementsLength(kept, s[1..], rest);
    PrependLength(keep, rest);
    var r, at := if keep then [s[0]] + kept else kept, Prepend(keep, rest);
    forall k | 0 <= k < |at| ensures at[k] < |s| && r[k] == s[at[k]] {
      PrependAt(keep, rest, k);
      if !(keep && k == 0) {
        ElementAt(kept, s, rest, if keep then k - 1 else k);
      }
    }
    ElementsFrom(r, s, at);
  }

  lemma PrependLength(keep: bool, at: seq<nat>)
    ensures |Prepend(keep, at)| == |at| + (if keep then 1 else 0)
  {
  }

  lemma PrependAt(keep: bool, at: seq<nat>, k: nat)
    requires k < |Prepend(keep, at)|
    ensures Prepend(keep, at)[k] == if !keep then at[k] + 1 else if k == 0 then 0 else at[k - 1] + 1
  {
  }

  lemma ElementsLength(kept: seq<Hunk>, s: seq<Hunk>, at: seq<nat>)
    requires ElementsAt(kept, s, at)
    ensures |at| == |kept|
  {
  }

  lemma ElementAt(kept: seq<Hunk>, s: seq<Hunk>, rest: seq<nat>, m: nat)
    requires s != [] && ElementsAt(kept, s[1..], rest) && m < |rest|
    ensures m < |kept| && rest[m] + 1 < |s| && kept[m] == s[rest[m] + 1]
  {
  }

  lemma ElementsFrom(kept: seq<Hunk>, s: seq<Hunk>, at: seq<nat>)
    requires |at| == |kept| && forall k :: 0 <= k < |at| ==> at[k] < |s| && kept[k] == s[at[k]]
    ensures ElementsAt(kept, s, at)
  {
  }

  lemma PickedHunks(hunks: seq<Hunk>, rest: seq<nat>)
    requires hunks != [] && Increasing(rest) && AtAdditions(hunks[1..], rest)
    ensures AtAdditions(hunks, Prepend(!hunks[0].IsDeletionOnly(), rest))
  {
    PrependPositions(!hunks[0].IsDeletionOnly(), rest);
    hide Prepend, Increasing;
    assert forall i: nat :: 0 < i < |hunks| ==> hunks[i] == hunks[1..][i - 1];
  }

  lemma UnfoldKeepAdditions(hunks: seq<Hunk>)
    requires hunks != []
    ensures var rest := KeepAdditions(hunks[1..]);
            KeepAdditions(hunks) == if hunks[0].IsDeletionOnly() then rest else [hunks[0]] + rest
  {
  }

  /** The omission pass keeps exactly what it should, in order. */
  lemma {:induction false} OmissionKeeps(patches: seq<PatchFile>) returns (at: seq<nat>)
    ensures FilesNotDeleted(OmitDeletions(patches), patches, at)
  {
    if patches == [] {
      at := [];
    } else {
      var rest := OmissionKeeps(patches[1..]);
      at := Prepend(!patches[0].IsDeletedFile(), rest);
      FilesOneMore(patches, rest);
    }
  }

  lemma FilesOneMore(patches: seq<PatchFile>, rest: seq<nat>)
    requires patches != [] && FilesNotDeleted(OmitDeletions(patches[1..]), patches[1..], rest)
    ensures FilesNotDeleted(OmitDeletions(patches), patches, Prepend(!patches[0].IsDeletedFile(), rest))
  {
    hide StandsFor, Prepend, OmitDeletions, KeepAdditions, Increasing;
    var p := patches[0];
    var keep, first := !p.IsDeletedFile(), p.(hunks := KeepAdditions(p.hunks));
    UnfoldOmitDeletions(patches);
    KeptStandsFor(p);
    PrependPositions(keep, rest);
    PickedPatches(first, OmitDeletions(patches[1..]), patches, rest, keep);
    PickedFiles(patches, rest);
  }

  lemma UnfoldOmitDeletions(patches: seq<PatchFile>)
    requires patches != []
    ensures var p, rest := patches[0], OmitDeletions(patches[1..]);
            OmitDeletions(patches) == if p.IsDeletedFile() then rest else [p.(hunks := KeepAdditions(p.hunks))] + rest
  {
  }

  lemma KeptStandsFor(p: PatchFile)
    ensures StandsFor(p.(hunks := KeepAdditions(p.hunks)), p)
  {
    hide HunksWithAdditions;
    var hunksAt := KeepAdditionsKeeps(p.hunks);
  }

  lemma PickedFiles(patches: seq<PatchFile>, rest: seq<nat>)
    requires patches != []
    requires Increasing(rest)
    requires forall i: nat :: i < |patches[1..]| ==> (i in rest <==> patches[1..][i].oldPath.None? || patches[1..][i].newPath.Some?)
    ensures forall i: nat :: i < |patches| ==>
              (i in Prepend(!patches[0].IsDeletedFile(), rest) <==> patches[i].oldPath.None? || patches[i].newPath.Some?)
  {
    PrependPositions(!patches[0].IsDeletedFile(), rest);
    hide Prepend;
    assert forall i: nat :: 0 < i < |patches| ==> patches[i] == patches[1..][i - 1];
  }

  lemma PickedPatches(first: PatchFile, kept: seq<PatchFile>, patches: seq<PatchFile>, rest: seq<nat>, keep: bool)
    requires patches != [] && |rest| == |kept| && StandsFor(first, patches[0])
    requires Increasing(rest)
    requires forall k :: 0 <= k < |rest| ==> rest[k] < |patches| - 1 && StandsFor(kept[k], patches[1..][rest[k]])
    ensures var r, at := if keep then [first] + kept else kept, Prepend(keep, rest);
            |at| == |r| && forall k :: 0 <= k < |at| ==> at[k] < |patches| && StandsFor(r[k], patches[at[k]])
  {
    hide Prepend, StandsFor, Increasing;
    PrependLength(keep, rest);
    var r, at := if keep then [first] + kept else kept, Prepend(keep, rest);
    forall k | 0 <= k < |at| ensures at[k] < |patches| && StandsFor(r[k], patches[at[k]]) {
      PrependAt(keep, rest, k);
      if !(keep && k == 0) {
        PatchAt(kept, patches, rest, if keep then k - 1 else k);
      }
    }
  }

  lemma PatchAt(kept: seq<PatchFile>, patches: seq<PatchFile>, rest: seq<nat>, m: nat)
    requires patches != [] && m < |rest| == |kept|
    requires rest[m] < |patches| - 1 && StandsFor(kept[m], patches[1..][rest[m]])
    ensures StandsFor(kept[m], patches[rest[m] + 1])
  {
    hide StandsFor;
  }

  /** `_apply_deletion_omission`. */
  method ApplyDeletionOmission(patches: seq<PatchFile>) returns (result: seq<PatchFile>)
    ensures result == OmitDeletions(patches)
    ensures exists at :: FilesNotDeleted(result, patches, at)
  {
    ghost var kept := OmissionKeeps(patches);
    hide FilesNotDeleted;
    result := [];
    for p := 0 to |patches|
      invariant result + OmitDeletions(patches[p..]) == OmitDeletions(patches)
    {
      var patch := patches[p];
      assert patches[p..][1..] == patches[p + 1..];
      if patch.IsDeletedFile() {
        continue;
      }
      result := result + [PatchFile(patch.oldPath, patch.newPath, KeepAdditions(patch.hunks), patch.isBinary)];
    }
  }

  /** The positions of the file headers, as the list comprehension collects them. */
  function HeaderIndices(lines: seq<string>, i: nat): (starts: seq<nat>)
    requires i <= |lines|
    ensures forall k :: 0 <= k < |starts| ==> i <= starts[k] < |lines|
    ensures |starts| > 0 ==> IsFileHeader(lines[starts[0]])
    decreases |lines| - i
  {
    if i == |lines| then []
    else (if IsFileHeader(lines[i]) then [i] else []) + HeaderIndices(lines, i + 1)
  }

  /** Looking for headers from i is looking for them from the first header at or after i. */
  lemma {:induction false} HeaderIndicesNext(lines: seq<string>, i: nat)
    requires i <= |lines|
    ensures i + BlockTail(lines[i..]) <= |lines|
    ensures HeaderIndices(lines, i) == HeaderIndices(lines, i + BlockTail(lines[i..]))
    decreases |lines| - i
  {
    if i < |lines| && !IsFileHeader(lines[i]) {
      assert lines[i..][1..] == lines[i + 1..];
      HeaderIndicesNext(lines, i + 1);
    }
  }

  /** A header at position i is the first index collected from i on. */
  lemma HeaderIndicesAt(lines: seq<string>, i: nat, starts: seq<nat>, idx: nat)
    requires i <= |lines| && idx <= |starts| && starts[idx..] == HeaderIndices(lines, i)
    requires i < |lines| ==> IsFileHeader(lines[i])
    ensures idx < |starts| <==> i < |lines|
    ensures idx < |starts| ==> starts[idx] == i && starts[idx + 1..] == HeaderIndices(lines, i + 1)
  {
    if i < |lines| {
      assert starts[idx..][0] == i;
      assert starts[idx..][1..] == starts[idx + 1..];
    }
  }

  lemma {:induction false} ReadDiffSkips(lines: seq<string>)
    ensures ReadDiff(lines) == ReadDiff(lines[BlockTail(lines)..])
  {
    if lines == [] || IsFileHeader(lines[0]) {
      assert lines[0..] == lines;
    } else {
      ReadDiffSkips(lines[1..]);
      assert lines[1..][BlockTail(lines[1..])..] == lines[BlockTail(lines)..];
    }
  }

  /** One file at a time, from the header at position i. */
  lemma ReadDiffAt(lines: seq<string>, i: nat)
    requires i < |lines| && IsFileHeader(lines[i])
    ensures i + 1 + BlockTail(lines[i + 1..]) <= |lines|
    ensures ReadDiff(lines[i..]) ==
            var end := i + 1 + BlockTail(lines[i + 1..]);
            [ReadFile(lines[i..end])] + ReadDiff(lines[end..])
  {
    hide ReadFile, BlockTail, IsFileHeader;
    assert lines[i..][1..] == lines[i + 1..];
    var end := i + 1 + BlockTail(lines[i + 1..]);
    assert lines[i..][..end - i] == lines[i..end];
    assert lines[i..][end - i..] == lines[end..];
  }

  /** The block of the idx-th header ends where the next header is, or at the end. */
  lemma BlockAt(lines: seq<string>, pos: nat, starts: seq<nat>, idx: nat) returns (end: nat)
    requires pos <= |lines| && (pos < |lines| ==> IsFileHeader(lines[pos]))
    requires idx < |starts| && starts[idx..] == HeaderIndices(lines, pos)
    ensures starts[idx] == pos < end <= |lines|
    ensures end < |lines| ==> IsFileHeader(lines[end])
    ensures end == if idx + 1 < |starts| then starts[idx + 1] else |lines|
    ensures starts[idx + 1..] == HeaderIndices(lines, end)
    ensures ReadDiff(lines[pos..]) == [ReadFile(lines[pos..end])] + ReadDiff(lines[end..])
  {
    hide ReadFile, ReadDiff, HeaderIndices, IsFileHeader, BlockTail;
    HeaderIndicesAt(lines, pos, starts, idx);
    HeaderIndicesNext(lines, pos + 1);
    end := pos + 1 + BlockTail(lines[pos + 1..]);
    HeaderIndicesAt(lines, end, starts, idx + 1);
    ReadDiffAt(lines, pos);
  }

  /** `parse_diff`: find the file headers, then read each block between two of them. */
  method ParseDiff(text: string, includeDeletions: bool) returns (patches: seq<PatchFile>)
    ensures patches == DiffOf(text, includeDeletions)
    ensures !includeDeletions ==> exists at :: FilesNotDeleted(patches, DiffOf(text, true), at)
  {
    ghost var kept := OmissionKeeps(DiffOf(text, true));
    hide FilesNotDeleted, SplitLines, ReadFile, Strip, ReadDiff, HeaderIndices, BlockTail, IsFileHeader, OmitDeletions;
    if |text| == 0 || |Strip(text)| == 0 {
      BlankTextHasNoPatches(text);
      return [];
    }
    patches := [];
    var lines := SplitLines(text);
    var starts := HeaderIndices(lines, 0);
    ghost var pos: nat := BlockTail(lines);
    HeaderIndicesNext(lines, 0);
    assert lines[0..] == lines && starts[0..] == starts;
    ReadDiffSkips(lines);
    for idx := 0 to |starts|
      invariant pos <= |lines| && (pos < |lines| ==> IsFileHeader(lines[pos]))
      invariant starts[idx..] == HeaderIndices(lines, pos)
      invariant patches + ReadDiff(lines[pos..]) == ReadDiff(lines)
    {
      ghost var next := BlockAt(lines, pos, starts, idx);
      var start := starts[idx];
      var end := if idx + 1 < |starts| then starts[idx + 1] else |lines|;
      var patch := ParseFile(lines[start..end]);
      Regroup(patches, [patch], ReadDiff(lines[end..]));
      patches := patches + [patch];
      pos := next;
    }
    HeaderIndicesAt(lines, pos, starts, |starts|);
    ReadDiffEnd(lines);
    assert patches == ReadDiff(lines);
    if !includeDeletions {
      patches := ApplyDeletionOmission(patches);
    }
  }

  lemma ReadDiffEnd(lines: seq<string>)
    ensures ReadDiff(lines[|lines|..]) == []
  {
  }

  /** White space contains no file header. */
  lemma BlankTextHasNoPatches(text: string)
    requires |text| == 0 || |Strip(text)| == 0
    ensures ReadDiff(SplitLines(text)) == [] && OmitDeletions([]) == []
  {
    AllSpaceFromStrip(text);
    SplitLinesSpace(text);
    NoHeaderNoPatch(SplitLines(text));
  }

  lemma {:induction false} AllSpaceFromStrip(s: string)
    requires |Strip(s)| == 0
    ensures AllSpace(s)
  {
    var t := LeftStrip(s);
    if |t| > 0 {
      RightStripKeeps(t);
    }
    LeftStripDropsSpace(s);
  }

  lemma {:induction false} RightStripKeeps(s: string)
    requires |s| > 0 && !IsSpace(s[0])
    ensures |RightStrip(s)| > 0
  {
    if IsSpace(s[|s| - 1]) {
      RightStripKeeps(s[..|s| - 1]);
    }
  }

  lemma {:induction false} SplitLinesSpace(s: string)
    requires AllSpace(s)
    ensures forall k :: 0 <= k < |SplitLines(s)| ==> AllSpace(SplitLines(s)[k])
    decreases |s|
  {
    if |s| > 0 {
      var n := LineLength(s);
      if n < |s| {
        SplitLinesSpace(s[n + BreakLength(s[n..])..]);
      }
    }
  }

  lemma HeaderIsNotSpace(line: string)
    requires IsFileHeader(line)
    ensures !AllSpace(line)
  {
    assert line[0] == 'd';
  }

  lemma {:induction false} NoHeaderNoPatch(lines: seq<string>)
    requires forall k :: 0 <= k < |lines| ==> AllSpace(lines[k])
    ensures ReadDiff(lines) == []
  {
    if lines != [] {
      if IsFileHeader(lines[0]) {
        HeaderIsNotSpace(lines[0]);
      }
      NoHeaderNoPatch(lines[1..]);
    }
  }
}
