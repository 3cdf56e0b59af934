/** Supersession of reviews: the two functions over mutable reviews, and whole runs over their values. */
module Supersession {

  import opened Wrappers

  datatype Status = Queued | Processing | Complete | Failed | Aborted | Superseded
  {
    /** Not superseded, aborted or failed. */
    predicate IsCanonical() {
      this != Superseded && this != Aborted && this != Failed
    }
  }

  /** The value of a review. */
  datatype Row = Row(id: string, repo: string, number: nat, headSha: string, status: Status, supersededBy: Option<string>)

  predicate SamePr(a: Row, b: Row) {
    a.repo == b.repo && a.number == b.number
  }

  /** What superseding makes of one review. */
  function SupersedeRow(r: Row, newId: string, repo: string, number: nat): Row {
    if r.id != newId && r.repo == repo && r.number == number && r.status.IsCanonical()
    then r.(status := Superseded, supersededBy := Some(newId))
    else r
  }

  /**
   Superseding on the fields: only a queued, processing or complete review of the pull request
   with another id becomes superseded, by the new one; every other review keeps all its fields.
   */
  lemma SupersedeRowIff(r: Row, newId: string, repo: string, number: nat)
    ensures var s := SupersedeRow(r, newId, repo, number);
            if r.id != newId && r.repo == repo && r.number == number
               && (r.status == Queued || r.status == Processing || r.status == Complete)
            then s == Row(r.id, r.repo, r.number, r.headSha, Superseded, Some(newId))
            else s == r
  {
  }

  predicate IsCanonicalFor(r: Row, repo: string, number: nat, headSha: string) {
    r.repo == repo && r.number == number && r.headSha == headSha && r.status.IsCanonical()
  }

  // ----- the objects -----

  class Review {
    const id: string
    const repo: string
    const number: nat
    const headSha: string
    var status: Status
    var supersededBy: Option<string>

    constructor (id: string, repo: string, number: nat, headSha: string)
      ensures Value() == Row(id, repo, number, headSha, Queued, None)
    {
      this.id, this.repo, this.number, this.headSha := id, repo, number, headSha;
      status, supersededBy := Queued, None;
    }

    function Value(): Row
      reads this
    {
      Row(id, repo, number, headSha, status, supersededBy)
    }
  }

  /** `supersede_previous_reviews`, in place. The list may hold a review more than once. */
  method SupersedePreviousReviews(reviews: seq<Review>, newId: string, repo: string, number: nat)
    modifies reviews
    ensures forall k :: 0 <= k < |reviews| ==> reviews[k].Value() == SupersedeRow(old(reviews[k].Value()), newId, repo, number)
  {
    for i := 0 to |reviews|
      invariant forall k :: 0 <= k < i ==> reviews[k].Value() == SupersedeRow(old(reviews[k].Value()), newId, repo, number)
      invariant forall k :: i <= k < |reviews| ==>
        || reviews[k].Value() == old(reviews[k].Value())
        || reviews[k].Value() == SupersedeRow(old(reviews[k].Value()), newId, repo, number)
    {
      var review := reviews[i];
      if review.id == newId {
        continue;
      }
      if review.repo != repo || review.number != number {
        continue;
      }
      if review.status.IsCanonical() {
        review.status := Superseded;
        review.supersededBy := Some(newId);
      }
    }
  }

  /** The first canonical review of the exact triple, if any. */
  function FirstCanonical(rows: seq<Row>, repo: string, number: nat, headSha: string): Option<nat> {
    if rows == [] then None
    else if IsCanonicalFor(rows[0], repo, number, headSha) then Some(0)
    else
      match FirstCanonical(rows[1..], repo, number, headSha)
      case None => None
      case Some(k) => Some(k + 1)
  }

  lemma {:induction false} FirstCanonicalIff(rows: seq<Row>, repo: string, number: nat, headSha: string)
    ensures match FirstCanonical(rows, repo, number, headSha)
            case None => forall k :: 0 <= k < |rows| ==> !IsCanonicalFor(rows[k], repo, number, headSha)
            case Some(k) =>
              && k < |rows| && IsCanonicalFor(rows[k], repo, number, headSha)
              && forall j :: 0 <= j < k ==> !IsCanonicalFor(rows[j], repo, number, headSha)
  {
    if rows != [] {
      FirstCanonicalIff(rows[1..], repo, number, headSha);
      assert forall k :: 1 <= k < |rows| ==> rows[k] == rows[1..][k - 1];
    }
  }

  /** What the search looks for, on the fields: a live review of exactly this commit. */
  lemma CanonicalForIff(r: Row, repo: string, number: nat, headSha: string)
    ensures IsCanonicalFor(r, repo, number, headSha) <==>
            && r.repo == repo && r.number == number && r.headSha == headSha
            && (r.status == Queued || r.status == Processing || r.status == Complete)
  {
  }

  function Values(reviews: seq<Review>): seq<Row>
    reads reviews
  {
    seq(|reviews|, k requires 0 <= k < |reviews| reads reviews => reviews[k].Value())
  }

  /** `ensure_unique_canonical`: a first-match search. */
  method EnsureUniqueCanonical(reviews: seq<Review>, repo: string, number: nat, headSha: string) returns (found: Option<Review>)
    ensures match FirstCanonical(Values(reviews), repo, number, headSha)
            case None => found == None
            case Some(k) => k < |reviews| && found == Some(reviews[k])
  {
    FirstCanonicalIff(Values(reviews), repo, number, headSha);
    for i := 0 to |reviews|
      invariant forall k :: 0 <= k < i ==> !IsCanonicalFor(Values(reviews)[k], repo, number, headSha)
    {
      var review := reviews[i];
      if review.repo == repo && review.number == number && review.headSha == headSha && review.status.IsCanonical() {
        assert IsCanonicalFor(Values(reviews)[i], repo, number, headSha);
        return Some(review);
      }
    }
    return None;
  }

  // ----- whole runs -----

  /** A submission with a fresh id, or a status change by the rest of the system. */
  datatype Action = Submit(id: string, repo: string, number: nat, headSha: string) | SetStatus(index: nat, status: Status)

  predicate FreshId(rows: seq<Row>, id: string) {
    forall k :: 0 <= k < |rows| ==> rows[k].id != id
  }

  /** Statuses never return to canonical, and only superseding makes a review superseded. */
  predicate Enabled(rows: seq<Row>, a: Action) {
    match a
    case Submit(id, _, _, _) => FreshId(rows, id)
    case SetStatus(k, status) =>
      k < |rows| && status != Superseded && (status.IsCanonical() ==> rows[k].status.IsCanonical())
  }

  function Supersede(rows: seq<Row>, newId: string, repo: string, number: nat): (r: seq<Row>)
    ensures |r| == |rows|
    ensures forall k :: 0 <= k < |rows| ==> r[k] == SupersedeRow(rows[k], newId, repo, number)
  {
    seq(|rows|, k requires 0 <= k < |rows| => SupersedeRow(rows[k], newId, repo, number))
  }

  /** A submission creates a review only if none is canonical for its triple, and then supersedes the others. */
  function Step(rows: seq<Row>, a: Action): seq<Row>
    requires Enabled(rows, a)
  {
    match a
    case Submit(id, repo, number, headSha) =>
      if FirstCanonical(rows, repo, number, headSha).Some? then rows
      else Supersede(rows + [Row(id, repo, number, headSha, Queued, None)], id, repo, number)
    case SetStatus(k, status) =>
      rows[k := rows[k].(status := status)]
  }

  /** Position j holds the review that superseded the one at position i. */
  predicate SupersededAt(rows: seq<Row>, i: nat, j: nat) {
    i < j < |rows| && rows[i].supersededBy == Some(rows[j].id) && SamePr(rows[i], rows[j])
  }

  predicate DistinctIds(rows: seq<Row>) {
    forall i, j :: 0 <= i < j < |rows| ==> rows[i].id != rows[j].id
  }

  predicate OnlyNewestCanonical(rows: seq<Row>) {
    forall i, j :: 0 <= i < j < |rows| && SamePr(rows[i], rows[j]) ==> !rows[i].status.IsCanonical()
  }

  predicate HasSuccessor(rows: seq<Row>, i: nat) {
    exists j: nat :: j < |rows| && SupersededAt(rows, i, j)
  }

  predicate LinksOk(rows: seq<Row>) {
    && (forall i :: 0 <= i < |rows| && rows[i].supersededBy.Some? ==> !rows[i].status.IsCanonical() && HasSuccessor(rows, i))
    && (forall i :: 0 <= i < |rows| && rows[i].status == Superseded ==> rows[i].supersededBy.Some?)
  }

  predicate Ok(rows: seq<Row>) {
    DistinctIds(rows) && OnlyNewestCanonical(rows) && LinksOk(rows)
  }

  /** A step appends, and what a review was superseded by is never rewritten. */
  predicate Extends(a: seq<Row>, b: seq<Row>) {
    && |a| <= |b|
    && forall i :: 0 <= i < |a| ==>
         && b[i] == a[i].(status := b[i].status, supersededBy := b[i].supersededBy)
         && (a[i].supersededBy.Some? ==> b[i].supersededBy == a[i].supersededBy)
  }

  /** A created review supersedes the canonical one of its pull request and stays canonical itself. */
  lemma SubmitKeeps(rows: seq<Row>, id: string, repo: string, number: nat, headSha: string)
    requires Ok(rows) && FreshId(rows, id)
    ensures var after := Supersede(rows + [Row(id, repo, number, headSha, Queued, None)], id, repo, number);
            Ok(after) && Extends(rows, after)
  {
    hide HasSuccessor;
    var created := Row(id, repo, number, headSha, Queued, None);
    var after := Supersede(rows + [created], id, repo, number);
    assert after[|rows|] == created;
    assert forall i :: 0 <= i < |rows| ==> after[i] == SupersedeRow(rows[i], id, repo, number);
    forall i | 0 <= i < |after| && after[i].supersededBy.Some?
      ensures !after[i].status.IsCanonical() && HasSuccessor(after, i)
    {
      if rows[i].supersededBy.Some? {
        SuccessorStays(rows, after, i);
      } else {
        IsSuccessor(after, i, |rows|);
      }
    }
  }

  lemma IsSuccessor(rows: seq<Row>, i: nat, j: nat)
    requires SupersededAt(rows, i, j)
    ensures HasSuccessor(rows, i)
  {
  }

  lemma SuccessorStays(rows: seq<Row>, after: seq<Row>, i: nat)
    requires i < |rows| && HasSuccessor(rows, i) && Extends(rows, after)
    ensures HasSuccessor(after, i)
  {
    var j: nat :| j < |rows| && SupersededAt(rows, i, j);
    assert SupersededAt(after, i, j);
  }

  lemma SetStatusKeeps(rows: seq<Row>, k: nat, status: Status)
    requires Ok(rows) && Enabled(rows, SetStatus(k, status))
    ensures Ok(rows[k := rows[k].(status := status)]) && Extends(rows, rows[k := rows[k].(status := status)])
  {
    hide HasSuccessor;
    var after := rows[k := rows[k].(status := status)];
    forall i | 0 <= i < |after| && after[i].supersededBy.Some?
      ensures HasSuccessor(after, i)
    {
      SuccessorStays(rows, after, i);
    }
  }

  lemma StepKeeps(rows: seq<Row>, a: Action)
    requires Ok(rows) && Enabled(rows, a)
    ensures Ok(Step(rows, a)) && Extends(rows, Step(rows, a))
  {
    hide Ok;
    match a
    case Submit(id, repo, number, headSha) => SubmitKeeps(rows, id, repo, number, headSha);
    case SetStatus(k, status) => SetStatusKeeps(rows, k, status);
  }

  /** The reviews after a run; actions that are not enabled do not happen. */
  function Run(actions: seq<Action>): (rows: seq<Row>)
    ensures Ok(rows)
  {
    if actions == [] then
      NoRowsOk();
      []
    else
      var rows := Run(actions[..|actions| - 1]);
      var a := actions[|actions| - 1];
      if Enabled(rows, a) then
        StepKeeps(rows, a);
        Step(rows, a)
      else rows
  }

  lemma NoRowsOk()
    ensures Ok([])
  {
  }

  /** Over every run a pull request has at most one canonical review, and it is the newest one. */
  lemma CanonicalIsNewest(actions: seq<Action>, i: nat, j: nat)
    requires i < |Run(actions)| && j < |Run(actions)|
    requires SamePr(Run(actions)[i], Run(actions)[j]) && Run(actions)[i].status.IsCanonical()
    ensures j <= i
    ensures Run(actions)[j].status.IsCanonical() ==> i == j
  {
  }

  /** Once a review is superseded, however the run goes on, it stays superseded by the same review. */
  lemma {:induction false} SupersededByIsFinal(actions: seq<Action>, more: seq<Action>, i: nat)
    requires i < |Run(actions)| && Run(actions)[i].supersededBy.Some?
    ensures i < |Run(actions + more)|
    ensures Run(actions + more)[i].supersededBy == Run(actions)[i].supersededBy
    ensures !Run(actions + more)[i].status.IsCanonical()
    decreases |more|
  {
    hide Run, Step, Enabled, Ok;
    SupersededNotCanonical(Run(actions + more));
    if more == [] {
      assert actions + more == actions;
    } else {
      var n := |more| - 1;
      assert (actions + more)[..|actions| + n] == actions + more[..n];
      SupersededByIsFinal(actions, more[..n], i);
      var rows := Run(actions + more[..n]);
      RunOneMore(actions + more);
      if Enabled(rows, more[n]) {
        StepKeeps(rows, more[n]);
      }
    }
  }

  lemma SupersededNotCanonical(rows: seq<Row>)
    requires Ok(rows)
    ensures forall i :: 0 <= i < |rows| && rows[i].supersededBy.Some? ==> !rows[i].status.IsCanonical()
  {
  }

  lemma RunOneMore(actions: seq<Action>)
    requires actions != []
    ensures var rows, a := Run(actions[..|actions| - 1]), actions[|actions| - 1];
            Run(actions) == if Enabled(rows, a) then Step(rows, a) else rows
  {
  }

  /** Follow superseded-by links from position i to their end. */
  ghost function Latest(rows: seq<Row>, i: nat): (k: nat)
    requires Ok(rows) && i < |rows|
    ensures i <= k < |rows| && rows[k].supersededBy.None? && SamePr(rows[i], rows[k])
    ensures k == i <==> rows[i].supersededBy.None?
    decreases |rows| - i
  {
    if rows[i].supersededBy.None? then i
    else
      var j: nat :| j < |rows| && SupersededAt(rows, i, j);
      Latest(rows, j)
  }

  /**
   Following the links from any review of any run ends at a review of the same pull request
   that nothing superseded; if the pull request has a canonical review, no link ends later.
   */
  lemma LinksEnd(actions: seq<Action>, i: nat, c: nat)
    requires i < |Run(actions)| && c < |Run(actions)|
    requires SamePr(Run(actions)[i], Run(actions)[c]) && Run(actions)[c].status.IsCanonical()
    ensures i <= Latest(Run(actions), i) <= c
    ensures Run(actions)[Latest(Run(actions), i)].status != Superseded
  {
    CanonicalIsNewest(actions, c, Latest(Run(actions), i));
  }

  // ----- the documented database constraint -----

  /** UNIQUE (repo, number, head sha) WHERE status NOT IN (superseded, aborted), as the module documents it. */
  predicate IndexedTogether(a: Row, b: Row) {
    && SamePr(a, b) && a.headSha == b.headSha
    && a.status != Superseded && a.status != Aborted && b.status != Superseded && b.status != Aborted
  }

  predicate DbUnique(rows: seq<Row>) {
    forall i, j :: 0 <= i < j < |rows| ==> !IndexedTogether(rows[i], rows[j])
  }

  /**
   The code excludes failed reviews from the canonical ones and the documented constraint does
   not. A submission that creates a review keeps the constraint exactly when no failed review
   of the same triple is there.
   */
  lemma SubmitKeepsDbUniqueIff(rows: seq<Row>, id: string, repo: string, number: nat, headSha: string)
    requires Ok(rows) && DbUnique(rows) && FreshId(rows, id)
    requires FirstCanonical(rows, repo, number, headSha).None?
    ensures DbUnique(Step(rows, Submit(id, repo, number, headSha))) <==>
            forall k :: 0 <= k < |rows| && rows[k].repo == repo && rows[k].number == number && rows[k].headSha == headSha ==>
              rows[k].status != Failed
  {
    var after := Step(rows, Submit(id, repo, number, headSha));
    FirstCanonicalIff(rows, repo, number, headSha);
    forall i, j | 0 <= i < j < |rows| ensures !IndexedTogether(after[i], after[j]) {
      assert !IndexedTogether(rows[i], rows[j]);
    }
    forall k | 0 <= k < |rows| && rows[k].repo == repo && rows[k].number == number && rows[k].headSha == headSha
      ensures IndexedTogether(after[k], after[|rows|]) <==> rows[k].status == Failed
    {
      assert !IsCanonicalFor(rows[k], repo, number, headSha);
    }
  }

  /** A failed review of the same commit is enough to break it. */
  lemma FailedReviewBreaksDbUnique()
    ensures var rows := [Row("a", "owner/repo", 42, "sha", Failed, None)];
            Ok(rows) && DbUnique(rows) && FreshId(rows, "b") && !DbUnique(Step(rows, Submit("b", "owner/repo", 42, "sha")))
  {
    var rows := [Row("a", "owner/repo", 42, "sha", Failed, None)];
    FirstCanonicalIff(rows, "owner/repo", 42, "sha");
    assert "a"[0] != "b"[0];
    SubmitKeepsDbUniqueIff(rows, "b", "owner/repo", 42, "sha");
    assert rows[0].status == Failed;
  }
}
