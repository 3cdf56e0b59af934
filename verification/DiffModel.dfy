/** The records a unified diff is parsed into. */
module DiffModel {

  import opened Wrappers

  datatype ChangeType = Add | Delete | Context

  /** One line of a hunk; the side a line does not occur on has no number. */
  datatype HunkLine = HunkLine(changeType: ChangeType, content: string,
                               oldLineno: Option<nat>, newLineno: Option<nat>)
  {
    predicate InOld() {
      changeType != Add
    }

    predicate InNew() {
      changeType != Delete
    }
  }

  /** The enclosing function or class; lines are 1-based and inclusive. */
  datatype ScopeContext = ScopeContext(kind: string, startLine: int, endLine: int)

  datatype Hunk = Hunk(oldStart: nat, oldCount: nat, newStart: nat, newCount: nat,
                       lines: seq<HunkLine>, sectionHeader: string,
                       enclosingScope: Option<ScopeContext>)
  {
    predicate IsDeletionOnly() {
      forall k :: 0 <= k < |lines| ==> lines[k].changeType != Add
    }

    /** First and last line of the hunk in the new file, both inclusive. */
    function NewLineRange(): (int, int) {
      (newStart, newStart + Max(newCount - 1, 0))
    }
  }

  datatype PatchFile = PatchFile(oldPath: Option<string>, newPath: Option<string>,
                                 hunks: seq<Hunk>, isBinary: bool)
  {
    predicate IsDeletedFile() {
      oldPath.Some? && newPath.None?
    }

    function Additions(): nat {
      AdditionsIn(hunks)
    }
  }

  function AddLines(lines: seq<HunkLine>): nat {
    if lines == [] then 0
    else (if lines[0].changeType == Add then 1 else 0) + AddLines(lines[1..])
  }

  function AdditionsIn(hunks: seq<Hunk>): nat {
    if hunks == [] then 0 else AddLines(hunks[0].lines) + AdditionsIn(hunks[1..])
  }

  lemma {:induction false} AddLinesSplit(lines: seq<HunkLine>, last: HunkLine)
    ensures AddLines(lines + [last]) == AddLines(lines) + if last.changeType == Add then 1 else 0
  {
    if lines == [] {
      assert lines + [last] == [last];
    } else {
      AddLinesSplit(lines[1..], last);
      assert (lines + [last])[1..] == lines[1..] + [last];
    }
  }

  /** The positions of the added lines among the first n. */
  function AddPositions(lines: seq<HunkLine>, n: nat): set<nat>
    requires n <= |lines|
  {
    set k: nat | k < n && lines[k].changeType == Add
  }

  lemma NextPosition(lines: seq<HunkLine>, n: nat)
    requires n < |lines|
    ensures |AddPositions(lines, n + 1)| == |AddPositions(lines, n)| + if lines[n].changeType == Add then 1 else 0
  {
    assert AddPositions(lines, n + 1) == AddPositions(lines, n) + if lines[n].changeType == Add then {n} else {};
  }

  lemma {:induction false} AddLinesCount(lines: seq<HunkLine>, n: nat)
    requires n <= |lines|
    ensures AddLines(lines[..n]) == |AddPositions(lines, n)|
  {
    if n > 0 {
      AddLinesCount(lines, n - 1);
      hide AddLines, AddPositions;
      AddLinesSplit(lines[..n - 1], lines[n - 1]);
      NextPosition(lines, n - 1);
      assert lines[..n] == lines[..n - 1] + [lines[n - 1]];
    } else {
      assert AddPositions(lines, 0) == {};
    }
  }

  /** The additions of hunks are those of each, and of a hunk one for each added line. */
  lemma {:induction false} AdditionsCount(a: seq<Hunk>, b: seq<Hunk>, h: Hunk)
    ensures AdditionsIn(a + b) == AdditionsIn(a) + AdditionsIn(b)
    ensures AdditionsIn([h]) == |AddPositions(h.lines, |h.lines|)|
  {
    if a == [] {
      assert a + b == b;
      AddLinesCount(h.lines, |h.lines|);
      assert h.lines[..|h.lines|] == h.lines;
    } else {
      AdditionsCount(a[1..], b, h);
      assert (a + b)[1..] == a[1..] + b;
    }
  }

  // ----- the two files a hunk speaks about -----

  /** The old file's lines, in order, as the hunk shows them. */
  function OldView(lines: seq<HunkLine>): seq<string> {
    if lines == [] then []
    else (if lines[0].InOld() then [lines[0].content] else []) + OldView(lines[1..])
  }

  /** The new file's lines, in order, as the hunk shows them. */
  function NewView(lines: seq<HunkLine>): seq<string> {
    if lines == [] then []
    else (if lines[0].InNew() then [lines[0].content] else []) + NewView(lines[1..])
  }

  /**
   The numbers on each side run consecutively: every line that occurs in the old file
   carries the next old number, every line that occurs in the new file the next new one.
   */
  predicate Numbered(lines: seq<HunkLine>, oldNo: nat, newNo: nat) {
    lines == [] ||
    var l := lines[0];
    && l.oldLineno == (if l.InOld() then Some(oldNo) else None)
    && l.newLineno == (if l.InNew() then Some(newNo) else None)
    && Numbered(lines[1..], if l.InOld() then oldNo + 1 else oldNo, if l.InNew() then newNo + 1 else newNo)
  }

  lemma UnfoldViews(lines: seq<HunkLine>)
    requires lines != []
    ensures var l, old_, new_ := lines[0], OldView(lines[1..]), NewView(lines[1..]);
            && OldView(lines) == (if l.InOld() then [l.content] + old_ else old_)
            && NewView(lines) == (if l.InNew() then [l.content] + new_ else new_)
  {
  }

  lemma EmptyViews()
    ensures OldView([]) == [] && NewView([]) == []
  {
  }

  /** A numbered line sits in its file at its number: the k-th old line is numbered k from the start. */
  lemma {:induction false} NumberedPositions(lines: seq<HunkLine>, oldNo: nat, newNo: nat, k: nat)
    requires Numbered(lines, oldNo, newNo) && k < |lines|
    ensures lines[k].oldLineno ==
            if lines[k].InOld() then Some(oldNo + |OldView(lines[..k])|) else None
    ensures lines[k].newLineno ==
            if lines[k].InNew() then Some(newNo + |NewView(lines[..k])|) else None
    ensures lines[k].InOld() ==> |OldView(lines[..k])| < |OldView(lines)| && OldView(lines)[|OldView(lines[..k])|] == lines[k].content
    ensures lines[k].InNew() ==> |NewView(lines[..k])| < |NewView(lines)| && NewView(lines)[|NewView(lines[..k])|] == lines[k].content
  {
    hide OldView, NewView;
    UnfoldViews(lines);
    if k > 0 {
      var l := lines[0];
      UnfoldViews(lines[..k]);
      NumberedPositions(lines[1..], if l.InOld() then oldNo + 1 else oldNo, if l.InNew() then newNo + 1 else newNo, k - 1);
      assert lines[..k][1..] == lines[1..][..k - 1];
      assert lines[..k][0] == l && lines[1..][k - 1] == lines[k];
    } else {
      assert lines[..k] == [];
      EmptyViews();
    }
  }
}
