/**
 The search for the innermost scope around a hunk. A syntax tree is a rose tree whose nodes
 span rows; the pruned recursive search is compared with a search through all nodes.
 */
module ScopeSearch {

  import opened Wrappers
  import opened DiffModel
  import opened DiffParser
  import opened DiffRoundTrip

  datatype Node = Node(kind: string, startRow: nat, endRow: nat, children: seq<Node>)
  {
    function Size(): int {
      endRow - startRow
    }
  }

  /** The rows looked for and the node kinds that count as scopes. */
  datatype Target = Target(first: int, last: int, kinds: set<string>)

  predicate Contains(n: Node, t: Target) {
    n.kind in t.kinds && n.startRow <= t.first && n.endRow >= t.last
  }

  /** The candidate replaces the best node so far only if it is strictly smaller. */
  function Better(best: Option<Node>, candidate: Option<Node>): Option<Node> {
    if candidate.None? then best
    else if best.None? then candidate
    else if candidate.value.Size() < best.value.Size() then candidate else best
  }

  function Innermost(node: Node, t: Target): Option<Node>
    decreases node, 1
  {
    if node.startRow > t.last || node.endRow < t.first then None else
    var best := BestOf(node.children, t, None);
    if best.Some? then best
    else if Contains(node, t) then Some(node)
    else None
  }

  function BestOf(children: seq<Node>, t: Target, best: Option<Node>): Option<Node>
    decreases children, 0
  {
    if children == [] then best else BestOf(children[1..], t, Better(best, Innermost(children[0], t)))
  }

  /** `_find_innermost_scope`: prune, search the children left to right, then the node itself. */
  method FindInnermostScope(node: Node, t: Target) returns (found: Option<Node>)
    ensures found == Innermost(node, t)
    decreases node
  {
    if node.startRow > t.last || node.endRow < t.first {
      return None;
    }
    var best: Option<Node> := None;
    for i := 0 to |node.children|
      invariant BestOf(node.children[i..], t, best) == BestOf(node.children, t, None)
    {
      assert node.children[i..][1..] == node.children[i + 1..];
      var candidate := FindInnermostScope(node.children[i], t);
      if candidate.Some? {
        if best.None? {
          best := candidate;
        } else {
          var candidateSize := candidate.value.endRow - candidate.value.startRow;
          var bestSize := best.value.endRow - best.value.startRow;
          if candidateSize < bestSize {
            best := candidate;
          }
        }
      }
    }
    if best.Some? {
      return best;
    }
    if node.kind in t.kinds && node.startRow <= t.first && node.endRow >= t.last {
      return Some(node);
    }
    return None;
  }

  // ----- brute force -----

  /** Every node of a tree, and every node of a forest. */
  function Nodes(root: Node): seq<Node>
    decreases root, 1
  {
    [root] + NodesOf(root.children)
  }

  function NodesOf(forest: seq<Node>): seq<Node>
    decreases forest, 0
  {
    if forest == [] then [] else Nodes(forest[0]) + NodesOf(forest[1..])
  }

  /** The row ranges of children lie within the range of their parent. */
  predicate WellNested(root: Node) {
    forall k :: 0 <= k < |root.children| ==>
      && root.startRow <= root.children[k].startRow && root.children[k].endRow <= root.endRow
      && WellNested(root.children[k])
  }

  /**
   The answer a search through all the nodes would accept: none only if no node contains the
   target, otherwise a containing node of least size below which no node contains it, and the
   first of these.
   */
  predicate IsInnermost(r: Option<Node>, nodes: seq<Node>, t: Target) {
    match r
    case None => forall n :: n in nodes ==> !Contains(n, t)
    case Some(s) =>
      && Contains(s, t) && NoneBelow(s, t)
      && (forall n :: n in nodes && Contains(n, t) ==> s.Size() <= n.Size())
      && exists i :: 0 <= i < |nodes| && IsFirst(nodes, i, s, t)
  }

  predicate NoneBelow(s: Node, t: Target) {
    forall n :: n in NodesOf(s.children) ==> !Contains(n, t)
  }

  /** The node stands at this place, and no smaller or equal rival stands before it. */
  predicate IsFirst(nodes: seq<Node>, i: nat, s: Node, t: Target) {
    && i < |nodes| && nodes[i] == s
    && forall j :: 0 <= j < i && Contains(nodes[j], t) && NoneBelow(nodes[j], t) ==> s.Size() < nodes[j].Size()
  }

  lemma {:induction false} NodesWithin(root: Node)
    requires WellNested(root)
    ensures forall n :: n in Nodes(root) ==> root.startRow <= n.startRow && n.endRow <= root.endRow
    decreases root, 1
  {
    NodesOfWithin(root.children, root.startRow, root.endRow);
  }

  lemma {:induction false} NodesOfWithin(forest: seq<Node>, lo: nat, hi: nat)
    requires forall k :: 0 <= k < |forest| ==>
               lo <= forest[k].startRow && forest[k].endRow <= hi && WellNested(forest[k])
    ensures forall n :: n in NodesOf(forest) ==> lo <= n.startRow && n.endRow <= hi
    decreases forest, 0
  {
    if forest != [] {
      NodesWithin(forest[0]);
      NodesOfWithin(forest[1..], lo, hi);
    }
  }

  /** Pruning loses nothing: the pruned search agrees with brute force on every well-nested tree. */
  lemma {:induction false} SearchAgrees(root: Node, t: Target)
    requires WellNested(root) && t.first <= t.last
    ensures IsInnermost(Innermost(root, t), Nodes(root), t)
    decreases root, 1
  {
    if root.startRow > t.last || root.endRow < t.first {
      NodesWithin(root);
      assert forall n :: n in Nodes(root) ==> !Contains(n, t);
    } else {
      ForestSearchAgrees(root.children, t, None, []);
      var below := NodesOf(root.children);
      assert [] + below == below;
      RootIsInnermost(root, BestOf(root.children, t, None), t);
    }
  }

  /** The root itself is the answer only if there is none below it. */
  lemma RootIsInnermost(root: Node, best: Option<Node>, t: Target)
    requires WellNested(root) && t.first <= t.last && IsInnermost(best, NodesOf(root.children), t)
    ensures IsInnermost(if best.Some? then best else if Contains(root, t) then Some(root) else None, Nodes(root), t)
  {
    NodesWithin(root);
    hide WellNested, NoneBelow;
    var below := NodesOf(root.children);
    assert Nodes(root) == [root] + below;
    if best.Some? {
      var i :| 0 <= i < |below| && IsFirst(below, i, best.value, t);
      FoundBelow(root, best.value, i, t);
      assert forall n :: n in Nodes(root) <==> n == root || n in below;
      assert best.value in below;
    } else if Contains(root, t) {
      NothingBelow(root, t);
      assert IsFirst(Nodes(root), 0, root, t);
    }
  }

  lemma NothingBelow(root: Node, t: Target)
    requires IsInnermost(None, NodesOf(root.children), t)
    ensures NoneBelow(root, t)
  {
  }

  /** A rooted tree in which something is found below: the root is no rival. */
  lemma FoundBelow(root: Node, s: Node, i: nat, t: Target)
    requires Contains(s, t) && IsFirst(NodesOf(root.children), i, s, t)
    ensures IsFirst(Nodes(root), i + 1, s, t)
  {
    var below, all := NodesOf(root.children), Nodes(root);
    assert s in below && !NoneBelow(root, t);
    hide NoneBelow, Contains;
    assert forall j :: 0 < j < |all| ==> all[j] == below[j - 1];
  }

  lemma BetterIsInnermost(a: Option<Node>, seenA: seq<Node>, b: Option<Node>, seenB: seq<Node>, t: Target)
    requires IsInnermost(a, seenA, t) && IsInnermost(b, seenB, t)
    ensures IsInnermost(Better(a, b), seenA + seenB, t)
  {
    hide NoneBelow;
    if a.Some? && Better(a, b) == a {
      var i :| 0 <= i < |seenA| && IsFirst(seenA, i, a.value, t);
      assert IsFirst(seenA + seenB, i, a.value, t);
    } else if b.Some? {
      var i :| 0 <= i < |seenB| && IsFirst(seenB, i, b.value, t);
      LaterIsFirst(a, seenA, b.value, seenB, i, t);
    }
  }

  /** What was seen earlier is no rival: it does not contain the target or is larger. */
  lemma LaterIsFirst(a: Option<Node>, seenA: seq<Node>, s: Node, seenB: seq<Node>, i: nat, t: Target)
    requires IsInnermost(a, seenA, t) && IsFirst(seenB, i, s, t)
    requires a.Some? ==> s.Size() < a.value.Size()
    ensures IsFirst(seenA + seenB, |seenA| + i, s, t)
  {
    hide NoneBelow;
    var all := seenA + seenB;
    forall j | 0 <= j < |seenA| + i && Contains(all[j], t) && NoneBelow(all[j], t) ensures s.Size() < all[j].Size() {
      if j < |seenA| {
        assert all[j] in seenA;
      } else {
        assert all[j] == seenB[j - |seenA|];
      }
    }
  }

  lemma {:induction false} ForestSearchAgrees(forest: seq<Node>, t: Target, best: Option<Node>, seen: seq<Node>)
    requires forall k :: 0 <= k < |forest| ==> WellNested(forest[k])
    requires t.first <= t.last && IsInnermost(best, seen, t)
    ensures IsInnermost(BestOf(forest, t, best), seen + NodesOf(forest), t)
    decreases forest, 0
  {
    hide Innermost, Better, Nodes, IsInnermost;
    if forest == [] {
      assert seen + NodesOf(forest) == seen;
    } else {
      SearchAgrees(forest[0], t);
      var next := Better(best, Innermost(forest[0], t));
      var more := seen + Nodes(forest[0]);
      BetterIsInnermost(best, seen, Innermost(forest[0], t), Nodes(forest[0]), t);
      ForestSearchAgrees(forest[1..], t, next, more);
      assert more + NodesOf(forest[1..]) == seen + NodesOf(forest);
    }
  }

  /**
   The pruned search on the fields: it finds nothing only if no node of a listed kind spans both
   rows; otherwise it finds such a node of least size, with no such node below it, and of these
   the first in the order of the text.
   */
  lemma SearchIsExact(root: Node, t: Target)
    requires WellNested(root) && t.first <= t.last
    ensures var nodes := Nodes(root);
            match Innermost(root, t)
            case None =>
              forall n :: n in nodes ==> n.kind !in t.kinds || n.startRow > t.first || n.endRow < t.last
            case Some(s) =>
              && s.kind in t.kinds && s.startRow <= t.first <= t.last <= s.endRow
              && (forall n :: n in nodes && n.kind in t.kinds && n.startRow <= t.first && t.last <= n.endRow ==>
                    s.endRow - s.startRow <= n.endRow - n.startRow)
              && (forall n :: n in NodesOf(s.children) ==> n.kind !in t.kinds || n.startRow > t.first || n.endRow < t.last)
              && exists i :: 0 <= i < |nodes| && nodes[i] == s
                   && forall j :: 0 <= j < i && nodes[j].kind in t.kinds && nodes[j].startRow <= t.first && t.last <= nodes[j].endRow
                        && (forall n :: n in NodesOf(nodes[j].children) ==> n.kind !in t.kinds || n.startRow > t.first || n.endRow < t.last)
                        ==> s.endRow - s.startRow < nodes[j].endRow - nodes[j].startRow
  {
    SearchAgrees(root, t);
    var nodes := Nodes(root);
    hide Innermost, Nodes, NodesOf;
    if Innermost(root, t).Some? {
      var i :| 0 <= i < |nodes| && IsFirst(nodes, i, Innermost(root, t).value, t);
    }
  }

  /** A subtree whose root lies outside the rows is not entered, whatever is below. */
  lemma OutsideIsPruned(root: Node, t: Target)
    requires root.startRow > t.last || root.endRow < t.first
    ensures Innermost(root, t) == None
  {
  }

  /** Whatever the tree, nested or not, a scope that is found contains the target. */
  lemma {:induction false} FoundScopeContains(root: Node, t: Target)
    ensures Innermost(root, t).Some? ==>
              var s := Innermost(root, t).value;
              s.kind in t.kinds && s.startRow <= t.first && t.last <= s.endRow
    decreases root, 1
  {
    ForestScopeContains(root.children, t, None);
  }

  lemma {:induction false} ForestScopeContains(forest: seq<Node>, t: Target, best: Option<Node>)
    requires best.Some? ==> Contains(best.value, t)
    ensures BestOf(forest, t, best).Some? ==> Contains(BestOf(forest, t, best).value, t)
    decreases forest, 0
  {
    if forest != [] {
      FoundScopeContains(forest[0], t);
      ForestScopeContains(forest[1..], t, Better(best, Innermost(forest[0], t)));
    }
  }

  // ----- hunks -----

  /** The 0-based rows of a hunk, as both copies of the range code compute them. */
  function HunkRows(h: Hunk): (int, int) {
    var first := h.newStart - 1;
    (first, Max(first, h.newStart + Max(h.newCount - 1, 0) - 1))
  }

  /** They are the hunk's inclusive line range, shifted to count from 0. */
  lemma HunkRowsAreTheLineRange(h: Hunk)
    ensures HunkRows(h) == (h.NewLineRange().0 - 1, h.NewLineRange().1 - 1)
    ensures HunkRows(h).0 <= HunkRows(h).1
  {
  }

  function ScopeOf(n: Node): ScopeContext {
    ScopeContext(n.kind, n.startRow + 1, n.endRow + 1)
  }

  /** A line lies in a scope exactly when its row lies in the node, and a scope is of its node's kind. */
  lemma ScopeLines(n: Node, line: int)
    ensures ScopeOf(n).startLine <= line <= ScopeOf(n).endLine <==> n.startRow <= line - 1 <= n.endRow
    ensures ScopeOf(n).kind == n.kind
  {
  }

  function FindEnclosingScope(h: Hunk, root: Node, kinds: set<string>): Option<ScopeContext> {
    match Innermost(root, Target(HunkRows(h).0, HunkRows(h).1, kinds))
    case None => None
    case Some(n) => Some(ScopeOf(n))
  }

  /** A hunk for which no scope is found keeps whatever scope it has. */
  function WithScope(h: Hunk, root: Node, kinds: set<string>): Hunk {
    match FindEnclosingScope(h, root, kinds)
    case None => h
    case Some(s) => h.(enclosingScope := Some(s))
  }

  /** The loop of `extend_hunks_with_ast` over the hunks of one file, in place. */
  method ExtendHunks(hunks: array<Hunk>, root: Node, kinds: set<string>)
    modifies hunks
    ensures forall k :: 0 <= k < hunks.Length ==> hunks[k] == WithScope(old(hunks[k]), root, kinds)
    ensures forall k :: 0 <= k < hunks.Length ==>
              match FindEnclosingScope(old(hunks[k]), root, kinds)
              case None => hunks[k] == old(hunks[k])
              case Some(s) => hunks[k] == old(hunks[k]).(enclosingScope := Some(s))
  {
    for i := 0 to hunks.Length
      invariant forall k :: 0 <= k < i ==> hunks[k] == WithScope(old(hunks[k]), root, kinds)
      invariant forall k :: i <= k < hunks.Length ==> hunks[k] == old(hunks[k])
    {
      var hunk := hunks[i];
      var first := hunk.newStart - 1;
      var last := hunk.newStart + Max(hunk.newCount - 1, 0) - 1;
      last := Max(first, last);
      var node := FindInnermostScope(root, Target(first, last, kinds));
      if node.Some? {
        hunks[i] := hunk.(enclosingScope := Some(ScopeOf(node.value)));
      }
    }
  }

  /** The numbered new lines of a consecutively numbered hunk stay in its line range exactly when there are not too many. */
  lemma NewLinesInRangeIff(h: Hunk)
    requires Numbered(h.lines, h.oldStart, h.newStart)
    ensures (forall k :: 0 <= k < |h.lines| && h.lines[k].newLineno.Some? ==>
               h.NewLineRange().0 <= h.lines[k].newLineno.value <= h.NewLineRange().1)
            <==> |NewView(h.lines)| <= Max(h.newCount, 1)
  {
    forall k | 0 <= k < |h.lines|
      ensures h.lines[k].newLineno.Some? ==>
                && h.lines[k].newLineno.value == h.newStart + |NewView(h.lines[..k])|
                && |NewView(h.lines[..k])| < |NewView(h.lines)|
    {
      NumberedPositions(h.lines, h.oldStart, h.newStart, k);
    }
    if |NewView(h.lines)| > Max(h.newCount, 1) {
      var k := LastNewLine(h.lines);
      NumberedPositions(h.lines, h.oldStart, h.newStart, k);
      assert h.lines[k].newLineno.value > h.NewLineRange().1;
    }
  }

  lemma {:induction false} LastNewLine(lines: seq<HunkLine>) returns (k: nat)
    requires NewView(lines) != []
    ensures k < |lines| && lines[k].InNew() && |NewView(lines[..k])| == |NewView(lines)| - 1
  {
    if NewView(lines[1..]) == [] {
      k := 0;
    } else {
      var j := LastNewLine(lines[1..]);
      k := j + 1;
      assert lines[..k][1..] == lines[1..][..j];
    }
  }

  /**
   From text to scope: parse any text, malformed or not, and look for the scope of one of its
   hunks. If the hunk's new count is the number of lines it has in the new file, every
   numbered new line of the hunk lies within the scope that is attached.
   */
  lemma ScopeCoversHunk(text: string, p: nat, q: nat, root: Node, kinds: set<string>, k: nat)
    requires p < |DiffOf(text, true)| && q < |DiffOf(text, true)[p].hunks|
    requires var h := DiffOf(text, true)[p].hunks[q];
             && h.newCount == |NewView(h.lines)| && k < |h.lines| && h.lines[k].newLineno.Some?
             && FindEnclosingScope(h, root, kinds).Some?
    ensures var h := DiffOf(text, true)[p].hunks[q];
            var scope := WithScope(h, root, kinds).enclosingScope.value;
            scope.startLine <= h.lines[k].newLineno.value <= scope.endLine
  {
    hide DiffOf, Innermost, Numbered, NewView;
    var h := DiffOf(text, true)[p].hunks[q];
    ParsedPatchesAreClean(text);
    assert CleanHunk(h);
    NewLinesInRangeIff(h);
    HunkRowsAreTheLineRange(h);
    FoundScopeContains(root, Target(HunkRows(h).0, HunkRows(h).1, kinds));
  }
}
