/** Diffs are parsed file by file, and the deletion-omission pass acts on one file at a time. */
module DiffComposition {

  import opened Text
  import opened DiffModel
  import opened DiffParser

  lemma {:induction false} BlockTailConcat(a: seq<string>, b: seq<string>)
    requires b == [] || IsFileHeader(b[0])
    ensures BlockTail(a + b) == BlockTail(a)
  {
    if a == [] {
      assert a + b == b;
    } else {
      assert (a + b)[1..] == a[1..] + b;
      BlockTailConcat(a[1..], b);
    }
  }

  lemma NoLinesNoPatch()
    ensures ReadDiff([]) == []
  {
  }

  lemma SkipLine(lines: seq<string>)
    requires lines != [] && !IsFileHeader(lines[0])
    ensures ReadDiff(lines) == ReadDiff(lines[1..])
  {
    hide ReadFile, IsFileHeader, BlockTail;
  }

  lemma FirstFile(lines: seq<string>)
    requires lines != [] && IsFileHeader(lines[0])
    ensures var n := 1 + BlockTail(lines[1..]);
            ReadDiff(lines) == [ReadFile(lines[..n])] + ReadDiff(lines[n..])
  {
    hide ReadFile, IsFileHeader, BlockTail, ReadDiff;
    assert lines[0..] == lines;
    ReadDiffAt(lines, 0);
  }

  /** Lines up to a file header, whatever they are, are read independently of what follows. */
  lemma {:induction false} ReadDiffConcat(a: seq<string>, b: seq<string>)
    requires b == [] || IsFileHeader(b[0])
    ensures ReadDiff(a + b) == ReadDiff(a) + ReadDiff(b)
    decreases |a|
  {
    hide ReadFile, IsFileHeader, BlockTail, ReadDiff;
    if a == [] {
      assert a + b == b;
      NoLinesNoPatch();
    } else {
      assert (a + b)[1..] == a[1..] + b;
      if !IsFileHeader(a[0]) {
        SkipLine(a);
        SkipLine(a + b);
        ReadDiffConcat(a[1..], b);
      } else {
        FirstFile(a);
        FirstFile(a + b);
        BlockTailConcat(a[1..], b);
        var n := 1 + BlockTail(a[1..]);
        assert (a + b)[..n] == a[..n];
        assert (a + b)[n..] == a[n..] + b;
        ReadDiffConcat(a[n..], b);
        Regroup([ReadFile(a[..n])], ReadDiff(a[n..]), ReadDiff(b));
      }
    }
  }

  lemma {:induction false} OmitDeletionsConcat(a: seq<PatchFile>, b: seq<PatchFile>)
    ensures OmitDeletions(a + b) == OmitDeletions(a) + OmitDeletions(b)
  {
    if a == [] {
      assert a + b == b;
    } else {
      assert (a + b)[1..] == a[1..] + b;
      OmitDeletionsConcat(a[1..], b);
    }
  }

  /**
   Compositional parsing of texts: the patches of two diffs one after the other are the
   patches of each, with deletions kept or omitted, whatever the first text contains.
   */
  lemma ParseConcat(s: string, t: string, includeDeletions: bool)
    requires |s| == 0 || IsBreak(s[|s| - 1])
    requires IsFileHeader(t)
    ensures DiffOf(s + t, includeDeletions) == DiffOf(s, includeDeletions) + DiffOf(t, includeDeletions)
  {
    var a, b := SplitLines(s), SplitLines(t);
    assert t[0] == "diff --git "[0] == 'd';
    SplitLinesConcatIff(s, t);
    FirstLineIsHeader(t);
    ReadDiffConcat(a, b);
    OmitDeletionsConcat(ReadDiff(a), ReadDiff(b));
  }

  lemma FirstLineIsHeader(t: string)
    requires IsFileHeader(t)
    ensures |SplitLines(t)| > 0 && IsFileHeader(SplitLines(t)[0])
  {
    var p := "diff --git ";
    LineLengthAtLeast(t, |p|);
    assert p <= t[..LineLength(t)];
  }

  lemma {:induction false} LineLengthAtLeast(t: string, n: nat)
    requires n <= |t| && OneLine(t[..n])
    ensures LineLength(t) >= n
  {
    if n > 0 {
      assert t[0] == t[..n][0];
      assert t[1..][..n - 1] == t[..n][1..];
      LineLengthAtLeast(t[1..], n - 1);
    }
  }

  // ----- the omission pass -----

  lemma {:induction false} KeepAdditionsLaws(hunks: seq<Hunk>)
    ensures AdditionsIn(KeepAdditions(hunks)) == AdditionsIn(hunks)
    ensures KeepAdditions(KeepAdditions(hunks)) == KeepAdditions(hunks)
    ensures forall h :: h in KeepAdditions(hunks) <==> h in hunks && !h.IsDeletionOnly()
  {
    if hunks != [] {
      KeepAdditionsLaws(hunks[1..]);
      DeletionOnlyAddsNothing(hunks[0].lines);
      if !hunks[0].IsDeletionOnly() {
        assert KeepAdditions(hunks)[1..] == KeepAdditions(hunks[1..]);
      }
    }
  }

  /** A hunk is deletion-only exactly when it contributes no addition. */
  lemma {:induction false} DeletionOnlyAddsNothing(lines: seq<HunkLine>)
    ensures AddLines(lines) == 0 <==> forall k :: 0 <= k < |lines| ==> lines[k].changeType != Add
  {
    if lines != [] {
      DeletionOnlyAddsNothing(lines[1..]);
      assert forall k :: 1 <= k < |lines| ==> lines[k] == lines[1..][k - 1];
    }
  }

  /** Additions over the files that are not deleted. */
  function LiveAdditions(patches: seq<PatchFile>): nat {
    if patches == [] then 0
    else (if patches[0].IsDeletedFile() then 0 else patches[0].Additions()) + LiveAdditions(patches[1..])
  }

  /**
   The omission pass is idempotent, keeps every addition of the files it does not drop, and
   leaves no deleted file and no deletion-only hunk behind.
   */
  lemma {:induction false} OmissionLaws(patches: seq<PatchFile>)
    ensures OmitDeletions(OmitDeletions(patches)) == OmitDeletions(patches)
    ensures LiveAdditions(OmitDeletions(patches)) == LiveAdditions(patches)
    ensures forall p :: p in OmitDeletions(patches) ==>
              !p.IsDeletedFile() && forall h :: h in p.hunks ==> !h.IsDeletionOnly()
  {
    if patches != [] {
      OmissionLaws(patches[1..]);
      var p := patches[0];
      if !p.IsDeletedFile() {
        KeepAdditionsLaws(p.hunks);
        var kept := p.(hunks := KeepAdditions(p.hunks));
        assert OmitDeletions(patches)[0] == kept;
        assert OmitDeletions(patches)[1..] == OmitDeletions(patches[1..]);
      }
    }
  }
}
