/** Whole-file documents, and the theorem that reading a diff document gives back its patches. */
module DiffFiles {

  import opened Wrappers
  import opened Text
  import opened DiffModel
  import opened DiffParser
  import opened DiffComposition
  import opened DiffDocument

  /** The file named on a "---" or "+++" line, with or without its a/ or b/ prefix. */
  datatype Side = DevNull | Named(path: string) | Bare(path: string)

  /**
   An extended header line, or a "---" line that no "+++" line follows at once; Extended stands
   for the lines the parser does not interpret.
   */
  datatype HeadDoc = Extended(raw: string) | RenameFrom(path: string) | RenameTo(path: string) | OldLine(side: Side)

  datatype Content =
    | TextContent(oldSide: Side, newSide: Side, hunks: seq<HunkDoc>)
    | BinaryContent(note: string, tail: seq<string>)
    | NoContent

  datatype FileDoc = FileDoc(header: string, head: seq<HeadDoc>, content: Content)

  // ----- the two sides -----

  predicate ValidSide(side: Side) {
    match side
    case DevNull => true
    case Named(path) => OneLine(path)
    case Bare(path) => OneLine(path) && path != "/dev/null" && !StartsWith(path, "a/") && !StartsWith(path, "b/")
  }

  function SideText(side: Side, prefix: string): string {
    match side
    case DevNull => "/dev/null"
    case Named(path) => prefix + path
    case Bare(path) => path
  }

  function SidePath(side: Side): Option<string> {
    if side.DevNull? then None else Some(side.path)
  }

  lemma StripSide(side: Side, prefix: string)
    requires ValidSide(side)
    requires prefix == "a/" || prefix == "b/"
    ensures StripPathPrefix(SideText(side, prefix)) == SidePath(side)
    ensures OneLine(SideText(side, prefix))
  {
    if side.Named? {
      OneLineConcat(prefix, side.path);
      assert (prefix + side.path)[2..] == side.path;
      assert "/dev/null"[0] == '/';
    }
  }

  // ----- extended headers -----

  predicate IsInterpreted(line: string) {
    || IsFileHeader(line) || StartsWith(line, "--- ") || StartsWith(line, "+++ ")
    || StartsWith(line, "Binary files") || StartsWith(line, "rename from ") || StartsWith(line, "rename to ")
  }

  predicate ValidHead(d: HeadDoc) {
    match d
    case Extended(raw) => OneLine(raw) && !IsInterpreted(raw)
    case RenameFrom(path) => OneLine(path)
    case RenameTo(path) => OneLine(path)
    case OldLine(side) => ValidSide(side)
  }

  function HeadText(d: HeadDoc): string {
    match d
    case Extended(raw) => raw
    case RenameFrom(path) => "rename from " + path
    case RenameTo(path) => "rename to " + path
    case OldLine(side) => "--- " + SideText(side, "a/")
  }

  function HeadTexts(head: seq<HeadDoc>): seq<string> {
    if head == [] then [] else [HeadText(head[0])] + HeadTexts(head[1..])
  }

  function NoteHead(d: HeadDoc, head: FileHead): FileHead {
    match d
    case Extended(_) => head
    case RenameFrom(path) => head.(renameFrom := Some(path))
    case RenameTo(path) => head.(renameTo := Some(path))
    case OldLine(side) => head.(oldPath := SidePath(side))
  }

  function NoteHeads(ds: seq<HeadDoc>, head: FileHead): FileHead {
    if ds == [] then head else NoteHeads(ds[1..], NoteHead(ds[0], head))
  }

  lemma ReadHeadText(d: HeadDoc, rest: seq<string>, head: FileHead)
    requires ValidHead(d)
    ensures ReadHead([HeadText(d)] + rest, head) == ReadHead(rest, NoteHead(d, head))
    ensures BlockLine(HeadText(d))
  {
    var line := HeadText(d);
    assert ([line] + rest)[1..] == rest;
    assert "diff --git "[0] == 'd' && "--- "[0] == '-' && "+++ "[0] == '+' && "Binary files"[0] == 'B';
    if d.RenameFrom? {
      OneLineConcat("rename from ", d.path);
      assert line[0] == 'r' && line[12..] == d.path;
    } else if d.RenameTo? {
      OneLineConcat("rename to ", d.path);
      assert line[0] == 'r' && line[10..] == d.path;
      assert "rename from "[7] == 'f' && line[7] == 't';
    } else if d.OldLine? {
      StripSide(d.side, "a/");
      OneLineConcat("--- ", SideText(d.side, "a/"));
      assert line[0] == '-' && line[4..] == SideText(d.side, "a/");
    }
  }

  lemma {:induction false} ReadHeadTexts(ds: seq<HeadDoc>, rest: seq<string>, head: FileHead)
    requires forall k :: 0 <= k < |ds| ==> ValidHead(ds[k])
    ensures ReadHead(HeadTexts(ds) + rest, head) == ReadHead(rest, NoteHeads(ds, head))
    ensures BlockLines(HeadTexts(ds))
  {
    hide ReadHead, BlockLine, HeadText, NoteHead, ValidHead;
    if ds == [] {
      assert HeadTexts(ds) + rest == rest;
    } else {
      Regroup([HeadText(ds[0])], HeadTexts(ds[1..]), rest);
      ReadHeadText(ds[0], HeadTexts(ds[1..]) + rest, head);
      ReadHeadTexts(ds[1..], rest, NoteHead(ds[0], head));
    }
  }

  // ----- files -----

  predicate ValidFile(d: FileDoc) {
    && OneLine(d.header) && IsFileHeader(d.header)
    && (forall k :: 0 <= k < |d.head| ==> ValidHead(d.head[k]))
    && match d.content
       case TextContent(oldSide, newSide, hunks) =>
         ValidSide(oldSide) && ValidSide(newSide) && forall k :: 0 <= k < |hunks| ==> ValidHunk(hunks[k])
       case BinaryContent(note, tail) => OneLine(note) && BlockLines(tail)
       case NoContent => true
  }

  function ContentTexts(content: Content): seq<string> {
    match content
    case TextContent(oldSide, newSide, hunks) =>
      ["--- " + SideText(oldSide, "a/")] + (["+++ " + SideText(newSide, "b/")] + HunkTexts(hunks))
    case BinaryContent(note, tail) => ["Binary files" + note] + tail
    case NoContent => []
  }

  function FileTexts(d: FileDoc): seq<string> {
    [d.header] + (HeadTexts(d.head) + ContentTexts(d.content))
  }

  /** What the "diff --git" line alone says about the two paths. */
  function GitHead(header: string): FileHead {
    match MatchGitPaths(header)
    case None => NO_HEAD
    case Some(paths) => NO_HEAD.(oldPath := Some(paths.0), newPath := Some(paths.1))
  }

  /** The patch a file document stands for. Rename lines override the paths of the sides. */
  function FileOf(d: FileDoc): PatchFile
    requires ValidFile(d)
  {
    var head := NoteHeads(d.head, GitHead(d.header));
    var oldPath := if d.content.TextContent? then SidePath(d.content.oldSide) else head.oldPath;
    var newPath := if d.content.TextContent? then SidePath(d.content.newSide) else head.newPath;
    PatchFile(if head.renameFrom.Some? then head.renameFrom else oldPath,
              if head.renameTo.Some? then head.renameTo else newPath,
              if d.content.TextContent? then HunksOf(d.content.hunks) else [],
              d.content.BinaryContent?)
  }

  lemma ReadTextContent(c: Content, head: FileHead)
    requires c.TextContent? && ValidSide(c.oldSide) && ValidSide(c.newSide)
    ensures ReadHead(ContentTexts(c), head) ==
            head.(oldPath := SidePath(c.oldSide), newPath := SidePath(c.newSide), hunkLines := HunkTexts(c.hunks))
    ensures BlockLine(ContentTexts(c)[0]) && BlockLine(ContentTexts(c)[1])
  {
    hide StripPathPrefix, SideText, SidePath;
    StripSide(c.oldSide, "a/");
    StripSide(c.newSide, "b/");
    var a, b := SideText(c.oldSide, "a/"), SideText(c.newSide, "b/");
    var old_, new_ := "--- " + a, "+++ " + b;
    OneLineConcat("--- ", a);
    OneLineConcat("+++ ", b);
    assert old_[4..] == a && new_[4..] == b;
    assert old_[0] == '-' && new_[0] == '+' && "diff --git "[0] == 'd';
    var lines := ContentTexts(c);
    assert lines[0] == old_ && lines[1..][0] == new_;
    assert lines[1..][1..] == HunkTexts(c.hunks);
    assert ReadHead(lines[1..], head.(oldPath := SidePath(c.oldSide))) ==
           head.(oldPath := SidePath(c.oldSide), newPath := SidePath(c.newSide), hunkLines := HunkTexts(c.hunks));
  }

  lemma ReadBinaryContent(c: Content, head: FileHead)
    requires c.BinaryContent? && OneLine(c.note)
    ensures ReadHead(ContentTexts(c), head) == head.(isBinary := true)
    ensures BlockLine(ContentTexts(c)[0])
  {
    var line := "Binary files" + c.note;
    OneLineConcat("Binary files", c.note);
    assert line[0] == 'B' && "diff --git "[0] == 'd' && "--- "[0] == '-' && "+++ "[0] == '+';
  }

  /** Header lines say nothing about the new path and the hunks. */
  lemma {:induction false} NoteHeadsKeepsRest(ds: seq<HeadDoc>, head: FileHead)
    ensures var noted := NoteHeads(ds, head);
            noted == head.(oldPath := noted.oldPath, renameFrom := noted.renameFrom, renameTo := noted.renameTo)
  {
    if ds != [] {
      NoteHeadsKeepsRest(ds[1..], NoteHead(ds[0], head));
    }
  }

  /** Reading the lines of one file document gives its patch. */
  lemma ReadFileTexts(d: FileDoc)
    requires ValidFile(d)
    ensures ReadFile(FileTexts(d)) == FileOf(d)
  {
    hide MatchGitPaths, ReadHunks, HunksOf, ContentTexts, HeadTexts;
    var rest := HeadTexts(d.head) + ContentTexts(d.content);
    assert FileTexts(d)[1..] == rest;
    assert ReadHead(FileTexts(d), NO_HEAD) == ReadHead(rest, GitHead(d.header));
    ReadHeadTexts(d.head, ContentTexts(d.content), GitHead(d.header));
    var head := NoteHeads(d.head, GitHead(d.header));
    NoteHeadsKeepsRest(d.head, GitHead(d.header));
    match d.content
    case TextContent(_, _, hunks) =>
      ReadTextContent(d.content, head);
      ReadHunkTexts(hunks);
    case BinaryContent(_, _) =>
      ReadBinaryContent(d.content, head);
    case NoContent =>
      NoContentReadsNothing(head);
  }

  lemma NoContentReadsNothing(head: FileHead)
    ensures ReadHead(ContentTexts(NoContent), head) == head
    ensures ReadHunks([]) == []
  {
  }

  lemma FileTextsBlock(d: FileDoc)
    requires ValidFile(d)
    ensures BlockLines(FileTexts(d)[1..])
    ensures OneLine(FileTexts(d)[0]) && IsFileHeader(FileTexts(d)[0])
  {
    hide IsFileHeader, OneLine;
    ReadHeadTexts(d.head, [], NO_HEAD);
    var c := d.content;
    match c {
      case TextContent(_, _, hunks) =>
        ReadTextContent(c, NO_HEAD);
        HunkTextsInBlock(hunks);
      case BinaryContent(_, _) =>
        ReadBinaryContent(c, NO_HEAD);
      case NoContent =>
    }
    assert BlockLines(ContentTexts(c));
    assert FileTexts(d)[1..] == HeadTexts(d.head) + ContentTexts(c);
  }

  lemma FileTextsNonEmpty(d: FileDoc)
    ensures |FileTexts(d)| > 0
  {
  }

  // ----- whole diffs -----

  predicate ValidFiles(docs: seq<FileDoc>) {
    forall k :: 0 <= k < |docs| ==> ValidFile(docs[k])
  }

  function DiffTexts(docs: seq<FileDoc>): seq<string> {
    if docs == [] then [] else FileTexts(docs[0]) + DiffTexts(docs[1..])
  }

  function PatchesOf(docs: seq<FileDoc>): (patches: seq<PatchFile>)
    requires ValidFiles(docs)
    ensures |patches| == |docs|
  {
    if docs == [] then [] else [FileOf(docs[0])] + PatchesOf(docs[1..])
  }

  lemma {:induction false} PatchesOfAt(docs: seq<FileDoc>, k: nat)
    requires ValidFiles(docs) && k < |docs|
    ensures PatchesOf(docs)[k] == FileOf(docs[k])
  {
    hide ValidFile, FileOf;
    if k > 0 {
      PatchesOfAt(docs[1..], k - 1);
    }
  }

  lemma {:induction false} BlockTailOfBlock(lines: seq<string>)
    requires BlockLines(lines)
    ensures BlockTail(lines) == |lines|
  {
    if lines != [] {
      BlockTailOfBlock(lines[1..]);
    }
  }

  lemma ReadOneFile(d: FileDoc)
    requires ValidFile(d)
    ensures ReadDiff(FileTexts(d)) == [FileOf(d)]
  {
    hide ReadFile, FileTexts, FileOf, ValidFile;
    var lines := FileTexts(d);
    FileTextsBlock(d);
    FileTextsNonEmpty(d);
    BlockTailOfBlock(lines[1..]);
    assert lines[..|lines|] == lines && lines[|lines|..] == [];
    ReadFileTexts(d);
  }

  lemma {:induction false} ReadDiffTexts(docs: seq<FileDoc>)
    requires ValidFiles(docs)
    ensures ReadDiff(DiffTexts(docs)) == PatchesOf(docs)
    ensures DiffTexts(docs) == [] || IsFileHeader(DiffTexts(docs)[0])
    ensures forall k :: 0 <= k < |DiffTexts(docs)| ==> OneLine(DiffTexts(docs)[k])
  {
    hide ReadFile, FileTexts, FileOf, ValidFile;
    if docs != [] {
      ReadDiffTexts(docs[1..]);
      ReadOneFile(docs[0]);
      FileTextsBlock(docs[0]);
      ReadDiffConcat(FileTexts(docs[0]), DiffTexts(docs[1..]));
      var first := FileTexts(docs[0]);
      assert forall k :: 1 <= k < |first| ==> first[k] == first[1..][k - 1];
    }
  }

  /** Parsing the text of a diff document gives exactly the patches it stands for. */
  lemma ParseDocument(docs: seq<FileDoc>)
    requires ValidFiles(docs)
    ensures DiffOf(Unlines(DiffTexts(docs)), true) == PatchesOf(docs)
  {
    ReadDiffTexts(docs);
    SplitUnlines(DiffTexts(docs));
  }
}
