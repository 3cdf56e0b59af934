/** Matching produced findings against annotated ones: a greedy one-to-one matching and how good it is. */
module Matching {

  import opened Wrappers

  datatype Category = Bug | Security | BreakingChange | Performance | MissingTest | CoChange | StaleDoc | Style

  datatype Confidence = Verified | High | Medium | Low

  datatype Finding = Finding(filePath: string, lineStart: int, lineEnd: int, category: Category, confidence: Confidence)
  {
    predicate HasLine(p: int) {
      lineStart <= p <= lineEnd
    }
  }

  datatype Annotated = Annotated(filePath: string, lineStart: int, lineEnd: int, category: Category)
  {
    predicate HasLine(p: int) {
      lineStart <= p <= lineEnd
    }
  }

  const TOLERANCE := 5

  /** The ranges overlap once the expected one is widened by the tolerance on both sides. */
  predicate LineRangesOverlap(pStart: int, pEnd: int, eStart: int, eEnd: int, tolerance: int) {
    pStart <= eEnd + tolerance && pEnd >= eStart - tolerance
  }

  predicate Compatible(f: Finding, a: Annotated) {
    && f.filePath == a.filePath && f.category == a.category
    && LineRangesOverlap(f.lineStart, f.lineEnd, a.lineStart, a.lineEnd, TOLERANCE)
  }

  /** For proper ranges, overlapping with a tolerance means coming within that many lines of each other. */
  lemma OverlapIff(pStart: int, pEnd: int, eStart: int, eEnd: int, tolerance: nat)
    requires pStart <= pEnd && eStart <= eEnd
    ensures LineRangesOverlap(pStart, pEnd, eStart, eEnd, tolerance) <==>
            exists p, e :: WithinRanges(p, e, pStart, pEnd, eStart, eEnd) && p - e <= tolerance && e - p <= tolerance
  {
    if LineRangesOverlap(pStart, pEnd, eStart, eEnd, tolerance) {
      var p := if eEnd < pStart then pStart else if eStart > pEnd then pEnd else Max(pStart, eStart);
      var e := if eEnd < pStart then eEnd else if eStart > pEnd then eStart else Max(pStart, eStart);
      assert WithinRanges(p, e, pStart, pEnd, eStart, eEnd);
    }
  }

  predicate WithinRanges(p: int, e: int, pStart: int, pEnd: int, eStart: int, eEnd: int) {
    pStart <= p <= pEnd && eStart <= e <= eEnd
  }

  // ----- the greedy matching -----

  datatype Classified = Classified(truePositives: seq<Finding>, falsePositives: seq<Finding>, missed: seq<Annotated>)

  function FirstCompatible(f: Finding, open_: seq<Annotated>): (i: Option<nat>)
    ensures i.Some? ==> i.value < |open_| && Compatible(f, open_[i.value])
    ensures i.None? ==> forall k :: 0 <= k < |open_| ==> !Compatible(f, open_[k])
  {
    if open_ == [] then None
    else if Compatible(f, open_[0]) then Some(0)
    else
      match FirstCompatible(f, open_[1..])
      case None => None
      case Some(i) => Some(i + 1)
  }

  function RemoveAt<T>(s: seq<T>, i: nat): seq<T>
    requires i < |s|
  {
    s[..i] + s[i + 1..]
  }

  /** Each finding in turn takes the first annotation that is still open and compatible. */
  function Classify(produced: seq<Finding>, open_: seq<Annotated>): Classified {
    if produced == [] then Classified([], [], open_) else
    match FirstCompatible(produced[0], open_)
    case Some(i) =>
      var r := Classify(produced[1..], RemoveAt(open_, i));
      r.(truePositives := [produced[0]] + r.truePositives)
    case None =>
      var r := Classify(produced[1..], open_);
      r.(falsePositives := [produced[0]] + r.falsePositives)
  }

  /** `match_findings`. */
  method MatchFindings(produced: seq<Finding>, expected: seq<Annotated>)
    returns (truePositives: seq<Finding>, falsePositives: seq<Finding>, missed: seq<Annotated>)
    ensures Classified(truePositives, falsePositives, missed) == Classify(produced, expected)
  {
    hide Classify, FirstCompatible, Compatible, RemoveAt;
    var unmatched := expected;
    truePositives, falsePositives := [], [];
    assert produced[0..] == produced;
    for n := 0 to |produced|
      invariant var rest := Classify(produced[n..], unmatched);
                Classify(produced, expected) ==
                Classified(truePositives + rest.truePositives, falsePositives + rest.falsePositives, rest.missed)
    {
      var finding := produced[n];
      ClassifyNext(produced, n, unmatched, truePositives, falsePositives);
      var matched := false;
      var i := 0;
      while i < |unmatched|
        invariant 0 <= i <= |unmatched| && !matched
        invariant forall k :: 0 <= k < i ==> !Compatible(finding, unmatched[k])
      {
        if Compatible(finding, unmatched[i]) {
          FirstIs(finding, unmatched, i);
          truePositives := truePositives + [finding];
          unmatched := RemoveAt(unmatched, i);
          matched := true;
          break;
        }
        i := i + 1;
      }
      if !matched {
        falsePositives := falsePositives + [finding];
      }
    }
    NothingToClassify(produced, unmatched);
    missed := unmatched;
  }

  /** Classifying on from position n: one finding joins what was classified before. */
  lemma ClassifyNext(produced: seq<Finding>, n: nat, open_: seq<Annotated>, tp: seq<Finding>, fp: seq<Finding>)
    requires n < |produced|
    ensures var f, rest := produced[n], Classify(produced[n..], open_);
            var whole := Classified(tp + rest.truePositives, fp + rest.falsePositives, rest.missed);
            match FirstCompatible(f, open_)
            case Some(i) =>
              var next := Classify(produced[n + 1..], RemoveAt(open_, i));
              whole == Classified(tp + [f] + next.truePositives, fp + next.falsePositives, next.missed)
            case None =>
              var next := Classify(produced[n + 1..], open_);
              whole == Classified(tp + next.truePositives, fp + [f] + next.falsePositives, next.missed)
  {
    hide FirstCompatible, RemoveAt;
    assert produced[n..][1..] == produced[n + 1..];
  }

  lemma NothingToClassify(produced: seq<Finding>, open_: seq<Annotated>)
    ensures Classify(produced[|produced|..], open_) == Classified([], [], open_)
  {
  }

  lemma {:induction false} FirstIs(f: Finding, open_: seq<Annotated>, i: nat)
    requires i < |open_| && Compatible(f, open_[i])
    requires forall k :: 0 <= k < i ==> !Compatible(f, open_[k])
    ensures FirstCompatible(f, open_) == Some(i)
  {
    if i > 0 {
      FirstIs(f, open_[1..], i - 1);
    }
  }

  // ----- accounting -----

  /** a and b, taken apart from s without reordering either. */
  predicate Interleaves<T(==)>(s: seq<T>, a: seq<T>, b: seq<T>)
    decreases |s|
  {
    if s == [] then a == [] && b == []
    else
      || (a != [] && a[0] == s[0] && Interleaves(s[1..], a[1..], b))
      || (b != [] && b[0] == s[0] && Interleaves(s[1..], a, b[1..]))
  }

  predicate IsSubsequence<T(==)>(a: seq<T>, s: seq<T>)
    decreases |s|
  {
    || a == []
    || (s != [] && ((a[0] == s[0] && IsSubsequence(a[1..], s[1..])) || IsSubsequence(a, s[1..])))
  }

  lemma {:induction false} SubsequenceReflexive<T>(s: seq<T>)
    ensures IsSubsequence(s, s)
  {
    if s != [] {
      SubsequenceReflexive(s[1..]);
    }
  }

  lemma {:induction false} RemovedIsSubsequence<T>(a: seq<T>, s: seq<T>, i: nat)
    requires i < |s| && IsSubsequence(a, RemoveAt(s, i))
    ensures IsSubsequence(a, s)
    decreases |s|
  {
    var r := RemoveAt(s, i);
    if a != [] {
      if i == 0 {
        assert r == s[1..];
      } else {
        assert r[0] == s[0] && r[1..] == RemoveAt(s[1..], i - 1);
        if a[0] == r[0] && IsSubsequence(a[1..], r[1..]) {
          RemovedIsSubsequence(a[1..], s[1..], i - 1);
        } else {
          RemovedIsSubsequence(a, s[1..], i - 1);
        }
      }
    }
  }

  /**
   Accounting: the two classes of findings interleave, in order, to the produced list; the
   missed annotations are the expected ones, in order, less one for each true positive.
   */
  lemma {:induction false} ClassifyAccounts(produced: seq<Finding>, expected: seq<Annotated>)
    ensures var r := Classify(produced, expected);
            && Interleaves(produced, r.truePositives, r.falsePositives)
            && |r.truePositives| + |r.falsePositives| == |produced|
            && |r.truePositives| + |r.missed| == |expected|
            && IsSubsequence(r.missed, expected)
  {
    if produced == [] {
      SubsequenceReflexive(expected);
    } else {
      match FirstCompatible(produced[0], expected)
      case Some(i) =>
        ClassifyAccounts(produced[1..], RemoveAt(expected, i));
        RemovedIsSubsequence(Classify(produced[1..], RemoveAt(expected, i)).missed, expected, i);
      case None =>
        ClassifyAccounts(produced[1..], expected);
    }
  }

  // ----- maximality -----

  lemma {:induction false} MissedWereOpen(produced: seq<Finding>, open_: seq<Annotated>)
    ensures forall a :: a in Classify(produced, open_).missed ==> a in open_
  {
    if produced != [] {
      match FirstCompatible(produced[0], open_)
      case Some(i) => MissedWereOpen(produced[1..], RemoveAt(open_, i));
      case None => MissedWereOpen(produced[1..], open_);
    }
  }

  /** No false positive could still have been matched: none is compatible with any missed annotation. */
  lemma {:induction false} GreedyIsMaximal(produced: seq<Finding>, expected: seq<Annotated>)
    ensures var r := Classify(produced, expected);
            forall f, a :: f in r.falsePositives && a in r.missed ==> !Compatible(f, a)
  {
    if produced != [] {
      match FirstCompatible(produced[0], expected)
      case Some(i) =>
        GreedyIsMaximal(produced[1..], RemoveAt(expected, i));
      case None =>
        GreedyIsMaximal(produced[1..], expected);
        MissedWereOpen(produced[1..], expected);
    }
  }

  // ----- optimality -----

  /** A one-to-one matching: which annotation, if any, each finding is paired with. */
  predicate IsMatching(m: seq<Option<nat>>, produced: seq<Finding>, expected: seq<Annotated>) {
    && |m| == |produced|
    && (forall k :: 0 <= k < |m| && m[k].Some? ==> m[k].value < |expected| && Compatible(produced[k], expected[m[k].value]))
    && (forall k, l :: 0 <= k < l < |m| && m[k].Some? ==> m[k] != m[l])
  }

  function Size(m: seq<Option<nat>>): nat {
    if m == [] then 0 else (if m[0].Some? then 1 else 0) + Size(m[1..])
  }

  /** The matching without annotation i, with the later annotations renumbered. */
  function Without(m: seq<Option<nat>>, i: nat): (r: seq<Option<nat>>)
    ensures |r| == |m|
    ensures forall k :: 0 <= k < |m| ==> r[k] == WithoutOne(m[k], i)
  {
    if m == [] then [] else [WithoutOne(m[0], i)] + Without(m[1..], i)
  }

  function WithoutOne(o: Option<nat>, i: nat): Option<nat> {
    match o
    case None => None
    case Some(j) => if j == i then None else if j > i then Some(j - 1) else o
  }

  /** Taking one annotation out costs a matching at most one pair. */
  lemma {:induction false} WithoutSize(m: seq<Option<nat>>, i: nat)
    requires forall k, l :: 0 <= k < l < |m| && m[k].Some? ==> m[k] != m[l]
    ensures Size(m) <= Size(Without(m, i)) + 1
    ensures Some(i) !in m ==> Size(m) == Size(Without(m, i))
  {
    if m != [] {
      WithoutSize(m[1..], i);
      assert Without(m, i)[1..] == Without(m[1..], i);
      if m[0] == Some(i) {
        assert forall l :: 1 <= l < |m| ==> m[l] != m[0];
        assert Some(i) !in m[1..];
      }
    }
  }

  lemma WithoutIsMatching(m: seq<Option<nat>>, produced: seq<Finding>, expected: seq<Annotated>, i: nat)
    requires IsMatching(m, produced, expected) && i < |expected|
    ensures IsMatching(Without(m, i), produced, RemoveAt(expected, i))
  {
    hide Compatible, Without, WithoutOne, RemoveAt;
    var r := Without(m, i);
    forall k | 0 <= k < |r| && r[k].Some?
      ensures r[k].value < |RemoveAt(expected, i)| && Compatible(produced[k], RemoveAt(expected, i)[r[k].value])
    {
      WithoutOneKeeps(m[k], i, expected);
    }
    forall k, l | 0 <= k < l < |r| && r[k].Some? ensures r[k] != r[l] {
      assert r[k] == WithoutOne(m[k], i) && r[l] == WithoutOne(m[l], i);
      WithoutOneKeeps(m[k], i, expected);
      assert m[k] != m[l];
      WithoutOneInjective(m[k], m[l], i);
    }
  }

  /** What is not taken out is shifted, and stands for the same annotation. */
  lemma WithoutOneKeeps(o: Option<nat>, i: nat, expected: seq<Annotated>)
    requires i < |expected| && (o.Some? ==> o.value < |expected|)
    ensures var r := WithoutOne(o, i);
            r.Some? ==> o.Some? && r.value < |RemoveAt(expected, i)| && RemoveAt(expected, i)[r.value] == expected[o.value]
  {
  }

  lemma WithoutOneInjective(a: Option<nat>, b: Option<nat>, i: nat)
    requires a != b && WithoutOne(a, i).Some?
    ensures WithoutOne(a, i) != WithoutOne(b, i)
  {
  }

  lemma TailIsMatching(m: seq<Option<nat>>, produced: seq<Finding>, expected: seq<Annotated>)
    requires IsMatching(m, produced, expected) && produced != []
    ensures IsMatching(m[1..], produced[1..], expected)
  {
  }

  /** Half-optimality: no one-to-one matching has more than twice as many pairs as there are true positives. */
  lemma {:induction false} GreedyIsHalfOptimal(produced: seq<Finding>, expected: seq<Annotated>, m: seq<Option<nat>>)
    requires IsMatching(m, produced, expected)
    ensures Size(m) <= 2 * |Classify(produced, expected).truePositives|
  {
    hide IsMatching;
    MatchingShape(m, produced, expected);
    if produced != [] {
      TailIsMatching(m, produced, expected);
      var tail := m[1..];
      match FirstCompatible(produced[0], expected)
      case Some(i) =>
        MatchingShape(tail, produced[1..], expected);
        WithoutSize(tail, i);
        WithoutIsMatching(tail, produced[1..], expected, i);
        GreedyIsHalfOptimal(produced[1..], RemoveAt(expected, i), Without(tail, i));
      case None =>
        FirstUnmatched(m, produced, expected);
        GreedyIsHalfOptimal(produced[1..], expected, tail);
    }
  }

  lemma MatchingShape(m: seq<Option<nat>>, produced: seq<Finding>, expected: seq<Annotated>)
    requires IsMatching(m, produced, expected)
    ensures |m| == |produced|
    ensures forall k, l :: 0 <= k < l < |m| && m[k].Some? ==> m[k] != m[l]
  {
  }

  lemma FirstUnmatched(m: seq<Option<nat>>, produced: seq<Finding>, expected: seq<Annotated>)
    requires IsMatching(m, produced, expected) && produced != [] && FirstCompatible(produced[0], expected).None?
    ensures m[0].None?
  {
  }

  /** The greedy matching itself. */
  function Chosen(produced: seq<Finding>, open_: seq<Annotated>): (m: seq<Option<nat>>)
    ensures |m| == |produced|
  {
    if produced == [] then [] else
    match FirstCompatible(produced[0], open_)
    case None => [None] + Chosen(produced[1..], open_)
    case Some(i) => [Some(i)] + Back(Chosen(produced[1..], RemoveAt(open_, i)), i)
  }

  /** Renumber a matching on the annotations without i to one on all of them. */
  function Back(m: seq<Option<nat>>, i: nat): (r: seq<Option<nat>>)
    ensures |r| == |m|
    ensures forall k :: 0 <= k < |m| ==>
              r[k] == if m[k].Some? && m[k].value >= i then Some(m[k].value + 1) else m[k]
  {
    if m == [] then []
    else [if m[0].Some? && m[0].value >= i then Some(m[0].value + 1) else m[0]] + Back(m[1..], i)
  }

  lemma {:induction false} BackSize(m: seq<Option<nat>>, i: nat)
    ensures Size(Back(m, i)) == Size(m)
  {
    if m != [] {
      BackSize(m[1..], i);
      assert Back(m, i)[1..] == Back(m[1..], i);
    }
  }

  /** The findings that a matching pairs, or does not pair, in order. */
  function Having(paired: bool, produced: seq<Finding>, m: seq<Option<nat>>): seq<Finding>
    requires |m| == |produced|
  {
    if m == [] then []
    else
      var rest := Having(paired, produced[1..], m[1..]);
      if m[0].Some? == paired then [produced[0]] + rest else rest
  }

  /** The annotations from position p on that a matching leaves out, in order. */
  function LeftOut(expected: seq<Annotated>, m: seq<Option<nat>>, p: nat): seq<Annotated>
    requires p <= |expected|
    decreases |expected| - p
  {
    if p == |expected| then []
    else
      var rest := LeftOut(expected, m, p + 1);
      if Some(p) in m then rest else [expected[p]] + rest
  }

  /** First match wins: whatever a finding passes over was taken by an earlier one. */
  predicate FirstWins(m: seq<Option<nat>>, produced: seq<Finding>, expected: seq<Annotated>) {
    && |m| == |produced|
    && forall k, a :: 0 <= k < |m| && 0 <= a < |expected| ==>
         Compatible(produced[k], expected[a]) && (m[k].None? || a < m[k].value) ==> Some(a) in m[..k]
  }

  lemma BackIsMatching(m: seq<Option<nat>>, produced: seq<Finding>, expected: seq<Annotated>, i: nat)
    requires i < |expected| && IsMatching(m, produced, RemoveAt(expected, i))
    ensures IsMatching(Back(m, i), produced, expected)
    ensures Some(i) !in Back(m, i)
  {
    hide Compatible;
    var r := Back(m, i);
    forall k | 0 <= k < |r| && r[k].Some?
      ensures r[k].value < |expected| && r[k].value != i && Compatible(produced[k], expected[r[k].value])
    {
      assert m[k].Some?;
      assert RemoveAt(expected, i)[m[k].value] == expected[r[k].value];
    }
    forall k, l | 0 <= k < l < |r| && r[k].Some? ensures r[k] != r[l] {
      assert m[k] != m[l];
    }
  }

  lemma {:induction false} BackHaving(paired: bool, produced: seq<Finding>, m: seq<Option<nat>>, i: nat)
    requires |m| == |produced|
    ensures Having(paired, produced, Back(m, i)) == Having(paired, produced, m)
    decreases |m|
  {
    if m != [] {
      BackHaving(paired, produced[1..], m[1..], i);
      assert Back(m, i)[1..] == Back(m[1..], i);
    }
  }

  lemma BackMembers(m: seq<Option<nat>>, i: nat, a: nat)
    ensures Some(a) in [Some(i)] + Back(m, i) <==> a == i || Some(if a < i then a else a - 1) in m
  {
    hide Back;
    var r := Back(m, i);
    if a != i && Some(if a < i then a else a - 1) in m {
      var k :| 0 <= k < |m| && m[k] == Some(if a < i then a else a - 1);
      assert r[k] == Some(a);
    }
    if Some(a) in r {
      var k :| 0 <= k < |r| && r[k] == Some(a);
      assert m[k] == Some(if a < i then a else a - 1);
    }
  }

  lemma RemovedAt(expected: seq<Annotated>, i: nat, p: nat)
    requires i < |expected|
    ensures |RemoveAt(expected, i)| == |expected| - 1
    ensures p < |expected| && p != i ==> RemoveAt(expected, i)[if p < i then p else p - 1] == expected[p]
  {
  }

  lemma {:induction false} BackLeftOut(expected: seq<Annotated>, m: seq<Option<nat>>, i: nat, p: nat)
    requires i < |expected| && p <= |expected|
    ensures LeftOut(expected, [Some(i)] + Back(m, i), p) ==
            LeftOut(RemoveAt(expected, i), m, if p <= i then p else p - 1)
    decreases |expected| - p
  {
    hide Back, RemoveAt;
    RemovedAt(expected, i, p);
    if p < |expected| {
      BackLeftOut(expected, m, i, p + 1);
      BackMembers(m, i, p);
    }
  }

  lemma {:induction false} FirstIsFirst(f: Finding, open_: seq<Annotated>)
    ensures var i := FirstCompatible(f, open_);
            forall a :: 0 <= a < |open_| && Compatible(f, open_[a]) ==> i.Some? && i.value <= a
  {
    if open_ != [] && !Compatible(f, open_[0]) {
      FirstIsFirst(f, open_[1..]);
      assert forall a :: 1 <= a < |open_| ==> open_[a] == open_[1..][a - 1];
    }
  }

  /** A finding without an open annotation leaves the others to the rest. */
  lemma SkipFirstWins(m: seq<Option<nat>>, produced: seq<Finding>, expected: seq<Annotated>)
    requires produced != [] && FirstCompatible(produced[0], expected).None?
    requires FirstWins(m, produced[1..], expected)
    ensures FirstWins([None] + m, produced, expected)
  {
    hide Compatible, FirstCompatible;
    var r := [None] + m;
    forall k, a | 0 <= k < |r| && 0 <= a < |expected| && Compatible(produced[k], expected[a]) && (r[k].None? || a < r[k].value)
      ensures Some(a) in r[..k]
    {
      if k > 0 {
        assert produced[1..][k - 1] == produced[k] && Some(a) in m[..k - 1];
        assert r[..k] == [None] + m[..k - 1];
      }
    }
  }

  lemma BackFirstWins(m: seq<Option<nat>>, produced: seq<Finding>, expected: seq<Annotated>, i: nat)
    requires produced != [] && FirstCompatible(produced[0], expected) == Some(i)
    requires FirstWins(m, produced[1..], RemoveAt(expected, i))
    ensures FirstWins([Some(i)] + Back(m, i), produced, expected)
  {
    hide Compatible, Back, FirstCompatible;
    var r := [Some(i)] + Back(m, i);
    FirstIsFirst(produced[0], expected);
    forall k, a | 0 <= k < |r| && 0 <= a < |expected| && Compatible(produced[k], expected[a]) && (r[k].None? || a < r[k].value)
      ensures Some(a) in r[..k]
    {
      if k > 0 {
        BackPrefix(m, i, k - 1);
        assert r[..k] == [Some(i)] + Back(m[..k - 1], i);
        BackMembers(m[..k - 1], i, a);
        if a != i {
          var b := if a < i then a else a - 1;
          assert produced[1..][k - 1] == produced[k] && RemoveAt(expected, i)[b] == expected[a];
        }
      }
    }
  }

  lemma BackPrefix(m: seq<Option<nat>>, i: nat, n: nat)
    requires n <= |m|
    ensures Back(m, i)[..n] == Back(m[..n], i)
  {
  }

  /**
   What greedy matching computes: the true positives are the findings paired by a one-to-one
   matching of compatible pairs in which the first match wins, the false positives are the
   findings it does not pair, and the missed annotations are the ones it leaves out, all in order.
   */
  lemma {:induction false} GreedyIsMatching(produced: seq<Finding>, expected: seq<Annotated>)
    ensures var m, r := Chosen(produced, expected), Classify(produced, expected);
            && IsMatching(m, produced, expected) && FirstWins(m, produced, expected)
            && r.truePositives == Having(true, produced, m) && r.falsePositives == Having(false, produced, m)
            && r.missed == LeftOut(expected, m, 0)
            && Size(m) == |r.truePositives|
  {
    hide IsMatching, FirstWins, LeftOut, Compatible;
    if produced == [] {
      NothingChosen(expected, 0);
    } else {
      match FirstCompatible(produced[0], expected)
      case None =>
        var inner := Chosen(produced[1..], expected);
        GreedyIsMatching(produced[1..], expected);
        assert Chosen(produced, expected)[1..] == inner;
        SkipIsMatching(inner, produced, expected);
        SkipFirstWins(inner, produced, expected);
        SkipLeftOut(expected, inner, 0);
      case Some(i) =>
        var rest := RemoveAt(expected, i);
        var inner := Chosen(produced[1..], rest);
        GreedyIsMatching(produced[1..], rest);
        var outer := Back(inner, i);
        assert Chosen(produced, expected)[1..] == outer;
        TakeIsMatching(inner, produced, expected, i);
        BackFirstWins(inner, produced, expected, i);
        BackHaving(true, produced[1..], inner, i);
        BackHaving(false, produced[1..], inner, i);
        BackLeftOut(expected, inner, i, 0);
        BackSize(inner, i);
    }
  }

  lemma {:induction false} NothingChosen(expected: seq<Annotated>, p: nat)
    requires p <= |expected|
    ensures LeftOut(expected, [], p) == expected[p..] && IsMatching([], [], expected) && FirstWins([], [], expected)
    decreases |expected| - p
  {
    if p < |expected| {
      NothingChosen(expected, p + 1);
    }
  }

  lemma SkipIsMatching(m: seq<Option<nat>>, produced: seq<Finding>, expected: seq<Annotated>)
    requires produced != [] && IsMatching(m, produced[1..], expected)
    ensures IsMatching([None] + m, produced, expected)
  {
  }

  lemma {:induction false} SkipLeftOut(expected: seq<Annotated>, m: seq<Option<nat>>, p: nat)
    requires p <= |expected|
    ensures LeftOut(expected, [None] + m, p) == LeftOut(expected, m, p)
    decreases |expected| - p
  {
    if p < |expected| {
      SkipLeftOut(expected, m, p + 1);
    }
  }

  lemma TakeIsMatching(m: seq<Option<nat>>, produced: seq<Finding>, expected: seq<Annotated>, i: nat)
    requires produced != [] && i < |expected| && Compatible(produced[0], expected[i])
    requires IsMatching(m, produced[1..], RemoveAt(expected, i))
    ensures IsMatching([Some(i)] + Back(m, i), produced, expected)
  {
    hide Compatible;
    BackIsMatching(m, produced[1..], expected, i);
  }

  /**
   What a match is, on the fields: a paired finding and its annotation have the same file and
   category and line ranges at most five lines apart, and a false positive and a missed
   annotation differ in one of the three.
   */
  lemma MatchesByFields(produced: seq<Finding>, expected: seq<Annotated>)
    ensures var m := Chosen(produced, expected);
            |m| == |produced| && forall k :: 0 <= k < |m| && m[k].Some? ==>
              && m[k].value < |expected|
              && produced[k].filePath == expected[m[k].value].filePath
              && produced[k].category == expected[m[k].value].category
              && produced[k].lineStart - expected[m[k].value].lineEnd <= 5
              && expected[m[k].value].lineStart - produced[k].lineEnd <= 5
    ensures var r := Classify(produced, expected);
            forall f, a :: f in r.falsePositives && a in r.missed ==>
              || f.filePath != a.filePath || f.category != a.category
              || f.lineStart - a.lineEnd > 5 || a.lineStart - f.lineEnd > 5
  {
    hide Classify, Chosen, Having, LeftOut, FirstWins, Size;
    GreedyIsMatching(produced, expected);
    GreedyIsMaximal(produced, expected);
  }

  /** For proper ranges that means some line of the one within five lines of some line of the other. */
  lemma MatchesShareLines(produced: seq<Finding>, expected: seq<Annotated>)
    ensures var m := Chosen(produced, expected);
            |m| == |produced| && forall k :: 0 <= k < |m| && m[k].Some? ==>
              var f := produced[k];
              && m[k].value < |expected|
              && var a := expected[m[k].value];
              && f.filePath == a.filePath && f.category == a.category
              && (f.lineStart <= f.lineEnd && a.lineStart <= a.lineEnd ==> LinesWithinFive(f, a))
    ensures var r := Classify(produced, expected);
            forall f, a :: f in r.falsePositives && a in r.missed ==>
              f.filePath != a.filePath || f.category != a.category || !LinesWithinFive(f, a)
  {
    var m, r := Chosen(produced, expected), Classify(produced, expected);
    MatchesByFields(produced, expected);
    forall k | 0 <= k < |m| && m[k].Some? && produced[k].lineStart <= produced[k].lineEnd
                 && expected[m[k].value].lineStart <= expected[m[k].value].lineEnd
      ensures LinesWithinFive(produced[k], expected[m[k].value])
    {
      var f, a := produced[k], expected[m[k].value];
      OverlapIff(f.lineStart, f.lineEnd, a.lineStart, a.lineEnd, 5);
      var p, e :| WithinRanges(p, e, f.lineStart, f.lineEnd, a.lineStart, a.lineEnd) && p - e <= 5 && e - p <= 5;
      assert f.HasLine(p) && a.HasLine(e);
    }
  }

  ghost predicate LinesWithinFive(f: Finding, a: Annotated) {
    exists p, e :: f.HasLine(p) && a.HasLine(e) && -5 <= p - e <= 5
  }

  /** Twice is sharp: a finding that fits two annotations can take the only one the next finding fits. */
  lemma GreedyCanLoseHalf()
    ensures var produced := [Finding("f", 10, 10, Bug, High), Finding("f", 2, 2, Bug, High)];
            var expected := [Annotated("f", 6, 6, Bug), Annotated("f", 14, 14, Bug)];
            && |Classify(produced, expected).truePositives| == 1
            && IsMatching([Some(1), Some(0)], produced, expected) && Size([Some(1), Some(0)]) == 2
  {
    var produced := [Finding("f", 10, 10, Bug, High), Finding("f", 2, 2, Bug, High)];
    var expected := [Annotated("f", 6, 6, Bug), Annotated("f", 14, 14, Bug)];
    FirstIs(produced[0], expected, 0);
    var rest := RemoveAt(expected, 0);
    assert rest == [expected[1]];
    assert produced[1..] == [produced[1]];
    assert FirstCompatible(produced[1], rest).None?;
    assert Classify(produced[1..], rest).truePositives == [];
    var m: seq<Option<nat>> := [Some(1), Some(0)];
    assert m[1..] == [Some(0)] && m[1..][1..] == [];
  }
}
