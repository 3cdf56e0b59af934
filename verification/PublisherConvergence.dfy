/**
 What one publisher call achieves when nothing is deleted while it runs: it converges, a
 second call changes nothing, and which findings get a fresh comment is known beforehand.
 */
module PublisherConvergence {

  import opened Wrappers
  import opened Publisher
  import opened PublisherSafety

  /** Outsiders delete nothing during the call; it may still be lost anywhere. */
  predicate NoDeletions(script: seq<Await>) {
    forall k :: 0 <= k < |script| ==> script[k].comments == {} && script[k].reviews == {}
  }

  /** The finding is marked published and its row names a live comment with the current body. */
  predicate Shown(r: Record, remote: Remote, f: Finding) {
    && f.id in r.rows && r.rows[f.id].published && r.rows[f.id].commentId.Some?
    && r.rows[f.id].commentId.value in remote.comments
    && remote.comments[r.rows[f.id].commentId.value] == Comment(f.id, f.body)
  }

  predicate ReviewShown(r: Record, remote: Remote) {
    r.reviewId.Some? && r.reviewId.value in remote.reviews
  }

  /** Every publishable finding is shown, under a live review, and nothing is shown for the others. */
  predicate Converged(w: World, fs: seq<Finding>) {
    && ReviewShown(w.durable, w.remote)
    && (forall k :: 0 <= k < |fs| && fs[k].publishable ==> Shown(w.durable, w.remote, fs[k]))
    && (forall id :: id in w.remote.comments ==> w.remote.comments[id].finding in PublishableIds(fs))
  }

  lemma BeginWithoutDeletions(s: Session)
    requires NoDeletions(s.script)
    ensures Begin(s) == s.(script := Begin(s).script) && NoDeletions(Begin(s).script)
  {
    if s.script != [] {
      assert s.world.remote.comments - {} == s.world.remote.comments;
      assert s.world.remote.reviews - {} == s.world.remote.reviews;
    }
  }

  // ----- one finding -----

  /** The comment the record knows for a finding is live. */
  predicate HasLiveComment(r: Record, remote: Remote, f: FindingId) {
    f in r.rows && r.rows[f].commentId.Some? && r.rows[f].commentId.value in remote.comments
  }

  /** How a finding's record changes over part of a call: a live comment is kept, anything else is replaced. */
  predicate Refreshed(s: Session, t: Session, f: FindingId) {
    && f in s.row.rows && f in t.row.rows
    && (if HasLiveComment(s.row, s.world.remote, f)
        then t.row.rows[f].commentId == s.row.rows[f].commentId
        else t.row.rows[f].commentId.Some? && t.row.rows[f].commentId.value >= s.world.remote.nextId)
    && (f in t.localIds <==> f in s.localIds || !HasLiveComment(s.row, s.world.remote, f))
  }

  /** Part of a call that concerns other findings leaves this one alone. */
  predicate Untouched(s: Session, t: Session, f: FindingId) {
    && f in s.row.rows && f in t.row.rows && t.row.rows[f] == s.row.rows[f]
    && (f in t.localIds <==> f in s.localIds)
    && forall id :: id in s.world.ledger.posted && s.world.ledger.posted[id] == f ==>
         && (id in t.world.remote.comments <==> id in s.world.remote.comments)
         && (id in s.world.remote.comments ==> t.world.remote.comments[id] == s.world.remote.comments[id])
  }

  /** What every deletion-free part of a call keeps: ids grow, reviews and ownership stay. */
  predicate Grows(s: Session, t: Session) {
    && s.world.remote.nextId <= t.world.remote.nextId
    && t.world.remote.reviews == s.world.remote.reviews && t.row.reviewId == s.row.reviewId
    && t.row.rows.Keys == s.row.rows.Keys
    && (forall id :: id in s.world.ledger.posted ==> id in t.world.ledger.posted && t.world.ledger.posted[id] == s.world.ledger.posted[id])
  }

  lemma PostCommentEffect(s: Session, fs: seq<Finding>, f: Finding, published: bool)
    requires NoDeletions(s.script) && s.alive && f.id in s.row.rows && LedgerOk(s.world, fs)
    ensures var t := PostComment(s, f, published);
            t.alive ==>
              && NoDeletions(t.script) && Grows(s, t)
              && t.row.rows == s.row.rows[f.id := Row(Some(s.world.remote.nextId), published)]
              && t.localIds == s.localIds[f.id := s.world.remote.nextId]
              && t.world.remote.comments == s.world.remote.comments[s.world.remote.nextId := Comment(f.id, f.body)]
  {
    BeginWithoutDeletions(s);
    var (s1, id) := CreateComment(s, f);
    if s1.alive {
      BeginWithoutDeletions(NoteComment(s1, f, id, published));
    }
  }

  /** A finding whose recorded comment is not live gets a new one; nothing else changes. */
  lemma NewCommentOutcome(s: Session, t: Session, fs: seq<Finding>, f: Finding)
    requires LedgerOk(s.world, fs) && f.id in s.row.rows && !HasLiveComment(s.row, s.world.remote, f.id)
    requires t.row.rows == s.row.rows[f.id := Row(Some(s.world.remote.nextId), true)]
    requires t.localIds == s.localIds[f.id := s.world.remote.nextId]
    requires t.world.remote.comments == s.world.remote.comments[s.world.remote.nextId := Comment(f.id, f.body)]
    ensures Shown(t.row, t.world.remote, f) && Refreshed(s, t, f.id)
    ensures forall g :: g in s.row.rows && g != f.id ==> Untouched(s, t, g)
  {
  }

  /** A finding whose recorded comment is live keeps it, with the current body. */
  lemma PatchedCommentOutcome(s: Session, t: Session, fs: seq<Finding>, f: Finding, id: Id)
    requires LedgerOk(s.world, fs) && f.id in s.row.rows && s.row.rows[f.id].commentId == Some(id)
    requires id in s.world.remote.comments && s.world.remote.comments[id].finding == f.id
    requires t.row.rows == s.row.rows[f.id := Row(Some(id), true)] && t.localIds == s.localIds
    requires t.world.remote.comments == s.world.remote.comments[id := Comment(f.id, f.body)]
    ensures Shown(t.row, t.world.remote, f) && Refreshed(s, t, f.id)
    ensures forall g :: g in s.row.rows && g != f.id ==> Untouched(s, t, g)
  {
  }

  lemma UpdateCommentEffect(s: Session, id: Id, f: Finding)
    requires NoDeletions(s.script) && s.alive
    ensures var (t, found) := UpdateComment(s, id, f);
            t.alive ==>
              && NoDeletions(t.script) && Grows(s, t) && t.row == s.row && t.localIds == s.localIds
              && t.world == EditComment(s.world, id, f)
              && (found <==> id in s.world.remote.comments)
  {
    BeginWithoutDeletions(s);
  }

  lemma PublishOneEffect(s: Session, fs: seq<Finding>, f: Finding)
    requires Settled(s, fs) && s.alive && f.id in PublishableIds(fs) && f.id in s.row.rows && NoDeletions(s.script)
    requires PublishOne(s, f).alive
    ensures var t := PublishOne(s, f);
            && NoDeletions(t.script) && Grows(s, t)
            && Shown(t.row, t.world.remote, f) && Refreshed(s, t, f.id)
            && forall g :: g in s.row.rows && g != f.id ==> Untouched(s, t, g)
  {
    hide PostComment, UpdateComment, Settled, NoDeletions, Shown, Refreshed, Untouched;
    SettledLedger(s, fs);
    var t := PublishOne(s, f);
    match Existing(s, f)
    case None =>
      RecordedIsExisting(s, fs, f);
      PostCommentEffect(s, fs, f, true);
      NewCommentOutcome(s, t, fs, f);
    case Some(id) =>
      ExistingIsRecorded(s, fs, f, id);
      UpdateCommentEffect(s, id, f);
      var (s1, found) := UpdateComment(s, id, f);
      if found {
        PatchedCommentOutcome(s, t, fs, f, id);
      } else {
        PostCommentEffect(s1, fs, f, s1.row.rows[f.id].published);
        NewCommentOutcome(s, t, fs, f);
      }
  }

  lemma RecordedIsExisting(s: Session, fs: seq<Finding>, f: Finding)
    requires Settled(s, fs) && s.alive && f.id in s.row.rows && Existing(s, f).None?
    ensures s.row.rows[f.id].commentId.None?
  {
  }

  /** The id that is patched belongs to the finding. */
  lemma ExistingIsRecorded(s: Session, fs: seq<Finding>, f: Finding, id: Id)
    requires Settled(s, fs) && s.alive && Existing(s, f) == Some(id) && f.id in s.row.rows
    ensures s.row.rows[f.id].commentId == Some(id)
    ensures id in s.world.ledger.posted && s.world.ledger.posted[id] == f.id
    ensures id in s.world.remote.comments ==> s.world.remote.comments[id].finding == f.id
  {
  }

  // ----- all findings -----

  lemma {:induction false} PublishAllEffect(s: Session, fs: seq<Finding>, rest: seq<Finding>)
    requires Settled(s, fs) && s.alive && NoDeletions(s.script) && Covers(s.row.rows, rest) && Distinct(rest)
    requires forall f :: f in rest ==> f in fs
    requires PublishAll(s, rest).alive
    ensures var t := PublishAll(s, rest);
            && NoDeletions(t.script) && Grows(s, t) && Settled(t, fs)
            && (forall k :: 0 <= k < |rest| && rest[k].publishable ==>
                  Shown(t.row, t.world.remote, rest[k]) && Refreshed(s, t, rest[k].id))
            && (forall g :: g in s.row.rows && g !in Ids(rest) ==> Untouched(s, t, g))
    decreases |rest|
  {
    hide PublishOne, Settled, NoDeletions, LedgerOk, Recorded, Shown, Refreshed, Untouched, Grows;
    GrowsReflexive(s);
    if rest == [] {
      UntouchedReflexive(s);
    } else {
      var f := rest[0];
      assert f in fs && f.id in s.row.rows.Keys;
      var s1 := if f.publishable then PublishOne(s, f) else s;
      assert Ids(rest) == {f.id} + Ids(rest[1..]);
      assert f.id !in Ids(rest[1..]);
      DeadStaysDead(s1, rest[1..]);
      if f.publishable {
        PublishOneKeeps(s, fs, f);
        PublishOneEffect(s, fs, f);
      } else {
        UntouchedReflexive(s);
      }
      PublishAllEffect(s1, fs, rest[1..]);
      var t := PublishAll(s, rest);
      SettledLedger(s, fs);
      SettledLedger(s1, fs);
      ChainGrows(s, s1, t);
      forall k | 0 <= k < |rest| && rest[k].publishable
        ensures Shown(t.row, t.world.remote, rest[k]) && Refreshed(s, t, rest[k].id)
      {
        if k == 0 {
          ShownStays(s1, t, fs, f);
          RefreshedBeforeUntouched(s, s1, t, f.id);
        } else {
          assert rest[1..][k - 1] == rest[k];
          assert rest[k].id in s.row.rows.Keys;
          RefreshedAfterUntouched(s, s1, t, fs, rest[k].id);
        }
      }
      forall g | g in s.row.rows && g !in Ids(rest) ensures Untouched(s, t, g) {
        UntouchedChain(s, s1, t, fs, g);
      }
    }
  }

  lemma GrowsReflexive(s: Session)
    ensures Grows(s, s)
  {
  }

  lemma UntouchedReflexive(s: Session)
    ensures forall g :: g in s.row.rows ==> Untouched(s, s, g)
  {
  }

  lemma ChainGrows(s: Session, s1: Session, t: Session)
    requires Grows(s, s1) && Grows(s1, t)
    ensures Grows(s, t) && s1.row.rows.Keys == s.row.rows.Keys
  {
  }

  lemma UntouchedChain(s: Session, s1: Session, t: Session, fs: seq<Finding>, f: FindingId)
    requires Untouched(s, s1, f) && Untouched(s1, t, f) && Grows(s, s1)
    ensures Untouched(s, t, f)
  {
  }

  lemma RefreshedBeforeUntouched(s: Session, s1: Session, t: Session, f: FindingId)
    requires Refreshed(s, s1, f) && Untouched(s1, t, f)
    ensures Refreshed(s, t, f)
  {
  }

  /** A call that is lost does not come back. */
  lemma DeadStaysDead(s: Session, rest: seq<Finding>)
    requires Covers(s.row.rows, rest)
    ensures PublishAll(s, rest).alive ==> s.alive
  {
  }

  lemma SettledLedger(s: Session, fs: seq<Finding>)
    requires Settled(s, fs)
    ensures LedgerOk(s.world, fs)
    ensures s.alive ==> Recorded(s.row, s.world, {}, {})
  {
  }

  lemma ShownStays(s: Session, t: Session, fs: seq<Finding>, f: Finding)
    requires Shown(s.row, s.world.remote, f) && Untouched(s, t, f.id) && LedgerOk(s.world, fs)
    ensures Shown(t.row, t.world.remote, f)
  {
    var id := s.row.rows[f.id].commentId.value;
    assert s.world.ledger.posted[id] == f.id;
  }

  lemma RefreshedAfterUntouched(s: Session, s1: Session, t: Session, fs: seq<Finding>, f: FindingId)
    requires Untouched(s, s1, f) && Refreshed(s1, t, f) && Grows(s, s1)
    requires LedgerOk(s.world, fs) && Recorded(s.row, s.world, {}, {})
    ensures Refreshed(s, t, f)
  {
    if s.row.rows[f].commentId.Some? {
      assert s.world.ledger.posted[s.row.rows[f].commentId.value] == f;
    }
  }

  // ----- the call -----

  /** The review part of a deletion-free call: comments and rows are left alone, the map is cleared on recreation. */
  lemma EnsureReviewEffect(s: Session)
    requires NoDeletions(s.script) && s.alive && EnsureReview(s).alive
    ensures var t := EnsureReview(s);
            && NoDeletions(t.script) && ReviewShown(t.row, t.world.remote)
            && t.row.rows == s.row.rows && t.world.remote.comments == s.world.remote.comments
            && t.world.ledger.posted == s.world.ledger.posted && t.world.remote.nextId >= s.world.remote.nextId
            && t.localIds == (if s.row.reviewId.None? || s.row.reviewId.value in s.world.remote.reviews then s.localIds else map[])
  {
    BeginWithoutDeletions(s);
    match s.row.reviewId
    case None =>
      CreateReviewEffect(s, false);
    case Some(r) =>
      var (s1, found) := UpdateReview(s, r);
      if !found {
        CreateReviewEffect(s1, true);
      }
  }

  lemma CreateReviewEffect(s: Session, clear: bool)
    requires NoDeletions(s.script) && s.alive
    ensures var (s1, id) := CreateReview(s);
            var s2 := NoteReview(s1, id);
            var t := Flush(if clear then s2.(localIds := map[]) else s2, {}, {id});
            s1.alive && t.alive ==>
              && NoDeletions(t.script) && ReviewShown(t.row, t.world.remote)
              && t.row.rows == s.row.rows && t.world.remote.comments == s.world.remote.comments
              && t.world.ledger.posted == s.world.ledger.posted && t.world.remote.nextId >= s.world.remote.nextId
              && t.localIds == if clear then map[] else s.localIds
  {
    BeginWithoutDeletions(s);
    var (s1, id) := CreateReview(s);
    if s1.alive {
      var s2 := NoteReview(s1, id);
      BeginWithoutDeletions(if clear then s2.(localIds := map[]) else s2);
    }
  }

  /** A call that returns has run the review part and the whole loop, and commits what they left. */
  lemma ReturnedCall(w: World, fs: seq<Finding>, headMatches: bool, script: seq<Await>) returns (s2: Session, s3: Session)
    requires Inv(w, fs, {}, {}) && NoDeletions(script) && Distinct(fs)
    requires Publish(w, fs, headMatches, script).1
    ensures s2.alive && s2.row.rows == w.durable.rows && s2.world.remote.comments == w.remote.comments
    ensures s2.world.ledger.posted == w.ledger.posted && s2.world.remote.nextId >= w.remote.nextId
    ensures s2.localIds == if w.durable.reviewId.None? || w.durable.reviewId.value in w.remote.reviews then w.durable.commentIds else map[]
    ensures ReviewShown(s2.row, s2.world.remote) && Grows(s2, s3)
    ensures forall k :: 0 <= k < |fs| && fs[k].publishable ==>
              Shown(s3.row, s3.world.remote, fs[k]) && Refreshed(s2, s3, fs[k].id)
    ensures var after := Publish(w, fs, headMatches, script).0;
            && after.remote == s3.world.remote
            && after.durable == s3.row.(commentIds := s3.localIds)
  {
    hide Inv, EnsureReview, PublishAll;
    var s0 := Open(w, script);
    BeginWithoutDeletions(s0);
    BeginKeeps(s0, fs, {}, {});
    var s1 := Begin(s0);
    OpenSettled(w, fs, script);
    EnsureReviewKeeps(s1, fs);
    EnsureReviewKeepsRows(s1);
    s2 := EnsureReview(s1);
    DeadStaysDead(s2, fs);
    s3 := PublishAll(s2, fs);
    EnsureReviewEffect(s1);
    PublishAllEffect(s2, fs, fs);
    BeginWithoutDeletions(s3.(row := s3.row.(commentIds := s3.localIds)));
  }

  lemma OpenSettled(w: World, fs: seq<Finding>, script: seq<Await>)
    requires Inv(w, fs, {}, {})
    ensures Settled(Begin(Open(w, script)), fs)
  {
    BeginKeeps(Open(w, script), fs, {}, {});
  }

  /**
   Convergence: from every world the invariant allows, a call that returns with nothing deleted
   meanwhile leaves every publishable finding published under a recorded id that names a live
   comment with this call's body, the review live, and no comment for any other finding.
   */
  lemma PublishConverges(w: World, fs: seq<Finding>, script: seq<Await>)
    requires Inv(w, fs, {}, {}) && Distinct(fs) && NoDeletions(script)
    requires Publish(w, fs, true, script).1
    ensures Converged(Publish(w, fs, true, script).0, fs)
  {
    hide Publish;
    var s2, s3 := ReturnedCall(w, fs, true, script);
    PublishKeeps(w, fs, true, script);
    var after := Publish(w, fs, true, script).0;
    forall k | 0 <= k < |fs| && fs[k].publishable ensures Shown(after.durable, after.remote, fs[k]) {
      assert Shown(s3.row, s3.world.remote, fs[k]);
    }
  }

  // ----- progress -----

  predicate AllDone(script: seq<Await>) {
    forall k :: 0 <= k < |script| ==> script[k].fate == Done
  }

  /** The call is running and at least n more awaits will succeed. */
  predicate CanGoOn(s: Session, n: nat) {
    s.alive && AllDone(s.script) && |s.script| >= n
  }

  lemma CallsGoOn(s: Session, f: Finding, id: Id, n: nat)
    requires CanGoOn(s, n + 1)
    ensures CanGoOn(CreateComment(s, f).0, n) && CanGoOn(UpdateComment(s, id, f).0, n)
    ensures CanGoOn(CreateReview(s).0, n) && CanGoOn(UpdateReview(s, id).0, n)
  {
  }

  lemma FlushGoesOn(s: Session, unsaved: set<Id>, unsavedReviews: set<Id>, n: nat)
    requires CanGoOn(s, n + 1)
    ensures CanGoOn(Flush(s, unsaved, unsavedReviews), n)
  {
  }

  lemma PostCommentGoesOn(s: Session, f: Finding, published: bool, n: nat)
    requires CanGoOn(s, n + 2)
    ensures CanGoOn(PostComment(s, f, published), n)
  {
    hide CreateComment, Flush;
    CallsGoOn(s, f, 1, n + 1);
    var (s1, id) := CreateComment(s, f);
    FlushGoesOn(NoteComment(s1, f, id, published), {id}, {}, n);
  }

  lemma EnsureReviewGoesOn(s: Session, n: nat)
    requires CanGoOn(s, n + 3)
    ensures CanGoOn(EnsureReview(s), n)
  {
    hide CreateReview, UpdateReview, Flush;
    var f := Finding(0, false, []);
    match s.row.reviewId
    case None =>
      CallsGoOn(s, f, 1, n + 2);
      var (s1, id) := CreateReview(s);
      FlushGoesOn(NoteReview(s1, id), {}, {id}, n);
    case Some(r) =>
      CallsGoOn(s, f, r, n + 2);
      var (s1, _) := UpdateReview(s, r);
      CallsGoOn(s1, f, 1, n + 1);
      var (s2, id) := CreateReview(s1);
      FlushGoesOn(NoteReview(s2, id).(localIds := map[]), {}, {id}, n);
  }

  lemma PublishOneGoesOn(s: Session, f: Finding, n: nat)
    requires CanGoOn(s, n + 3) && f.id in s.row.rows
    ensures CanGoOn(PublishOne(s, f), n)
  {
    hide PostComment, UpdateComment;
    match Existing(s, f)
    case None =>
      PostCommentGoesOn(s, f, true, n);
    case Some(id) =>
      CallsGoOn(s, f, id, n + 2);
      var (s1, found) := UpdateComment(s, id, f);
      UpdateKeepsRow(s, id, f);
      PostCommentGoesOn(s1, f, s1.row.rows[f.id].published, n);
  }

  lemma {:induction false} PublishAllGoesOn(s: Session, fs: seq<Finding>, n: nat)
    requires CanGoOn(s, n + 3 * |fs|) && Covers(s.row.rows, fs)
    ensures CanGoOn(PublishAll(s, fs), n)
    decreases |fs|
  {
    hide PublishOne;
    if fs != [] {
      assert Covers(s.row.rows, fs[1..]);
      if fs[0].publishable {
        PublishOneGoesOn(s, fs[0], n + 3 * |fs[1..]|);
        PublishAllGoesOn(PublishOne(s, fs[0]), fs[1..], n);
      } else {
        PublishAllGoesOn(s, fs[1..], n);
      }
    }
  }

  /** Progress: if no await is lost, three for each finding and five more are enough to return, whatever is deleted. */
  lemma PublishReturns(w: World, fs: seq<Finding>, script: seq<Await>)
    requires Covers(w.durable.rows, fs)
    requires AllDone(script) && |script| >= 5 + 3 * |fs|
    ensures Publish(w, fs, true, script).1
  {
    hide EnsureReview, PublishAll, Flush;
    var s1 := Begin(Open(w, script));
    assert CanGoOn(s1, 4 + 3 * |fs|);
    EnsureReviewGoesOn(s1, 1 + 3 * |fs|);
    EnsureReviewKeepsRows(s1);
    var s2 := EnsureReview(s1);
    PublishAllGoesOn(s2, fs, 1);
    var s3 := PublishAll(s2, fs);
    FlushGoesOn(s3.(row := s3.row.(commentIds := s3.localIds)), {}, {}, 0);
  }

  /**
   After any history of calls with any comment bodies, outside deletions and crashes, one
   undisturbed call with the bodies of the day returns and shows exactly them.
   */
  lemma UndisturbedCallConverges(fs: seq<Finding>, history: seq<Event>, bodies: map<FindingId, string>, script: seq<Await>)
    requires Distinct(fs) && NoDeletions(script)
    requires AllDone(script) && |script| >= 5 + 3 * |fs|
    ensures var w, gs := Run(fs, history), WithBodies(fs, bodies);
            Covers(w.durable.rows, gs) && Publish(w, gs, true, script).1 && Converged(Publish(w, gs, true, script).0, gs)
  {
    var w, gs := Run(fs, history), WithBodies(fs, bodies);
    hide Run, Publish;
    BodiesDoNotMatter(fs, bodies);
    SameInv(w, fs, bodies);
    InvCovers(w, gs);
    PublishReturns(w, gs, script);
    PublishConverges(w, gs, script);
  }

  /**
   Which comments are fresh. The source clears the id map when it recreates a deleted review so
   that every finding gets a fresh comment. It does not: with or without recreation, a finding
   gets a fresh comment exactly when it had no live one, and after a recreation the id map
   covers exactly the findings with fresh comments.
   */
  lemma FreshCommentIff(w: World, fs: seq<Finding>, script: seq<Await>, k: nat)
    requires Inv(w, fs, {}, {}) && Distinct(fs) && NoDeletions(script)
    requires Publish(w, fs, true, script).1
    requires k < |fs| && fs[k].publishable
    ensures var after, f := Publish(w, fs, true, script).0, fs[k].id;
            && f in after.durable.rows && after.durable.rows[f].commentId.Some?
            && (after.durable.rows[f].commentId.value !in w.ledger.posted <==> !HasLiveComment(w.durable, w.remote, f))
            && (f in after.durable.commentIds <==>
                || !HasLiveComment(w.durable, w.remote, f)
                || (f in w.durable.commentIds && (w.durable.reviewId.None? || w.durable.reviewId.value in w.remote.reviews)))
  {
    hide Publish;
    var s2, s3 := ReturnedCall(w, fs, true, script);
    var f := fs[k].id;
    assert Shown(s3.row, s3.world.remote, fs[k]) && Refreshed(s2, s3, f);
    assert HasLiveComment(s2.row, s2.world.remote, f) <==> HasLiveComment(w.durable, w.remote, f);
    if HasLiveComment(w.durable, w.remote, f) {
      assert w.durable.rows[f].commentId.value in w.ledger.posted;
    }
  }

  /** A review recreated over a comment that still exists: the comment is patched, not posted afresh. */
  lemma RecreatedReviewKeepsComment()
    ensures var f := Finding(7, true, "body");
            var w := World(Record(Some(1), map[7 := 2], map[7 := Row(Some(2), true)]),
                           Remote(3, map[2 := Comment(7, "body")], {}),
                           Ledger(map[2 := 7], {1}, {}, {}, 0));
            var ok := Await({}, {}, Done);
            var script := [ok, ok, ok, ok, ok, ok];
            && Covers(w.durable.rows, [f])
            && Publish(w, [f], true, script).1
            && var after := Publish(w, [f], true, script).0;
               && after.durable.reviewId == Some(3)
               && 7 in after.durable.rows && after.durable.rows[7].commentId == Some(2)
               && after.durable.commentIds == map[]
  {
    var f := Finding(7, true, "body");
    var w := World(Record(Some(1), map[7 := 2], map[7 := Row(Some(2), true)]),
                   Remote(3, map[2 := Comment(7, "body")], {}),
                   Ledger(map[2 := 7], {1}, {}, {}, 0));
    var ok := Await({}, {}, Done);
    var script := [ok, ok, ok, ok, ok, ok];
    var s1 := Begin(Open(w, script));
    assert NoDeletions(script);
    BeginWithoutDeletions(Open(w, script));
    assert s1.script == [ok, ok, ok, ok, ok];
    var (s2, found) := UpdateReview(s1, 1);
    BeginWithoutDeletions(s1);
    assert s2.alive && !found && s2.script == [ok, ok, ok, ok];
    var (s3, id) := CreateReview(s2);
    BeginWithoutDeletions(s2);
    assert s3.alive && id == 3 && s3.script == [ok, ok, ok];
    var s4 := NoteReview(s3, id).(localIds := map[]);
    BeginWithoutDeletions(s4);
    var s5 := Flush(s4, {}, {id});
    assert s5 == EnsureReview(s1) && s5.alive && s5.script == [ok, ok];
    assert Existing(s5, f) == Some(2);
    BeginWithoutDeletions(s5);
    var (s6, patched) := UpdateComment(s5, 2, f);
    assert s6.alive && patched && s6.script == [ok];
    var s7 := MarkPublished(s6, f);
    assert PublishOne(s5, f) == s7;
    assert [f][1..] == [];
    assert PublishAll(s7, []) == s7;
    assert PublishAll(s5, [f]) == s7;
    BeginWithoutDeletions(s7.(row := s7.row.(commentIds := s7.localIds)));
  }

  // ----- idempotence -----

  /** Nothing but the number of lost calls differs. */
  predicate SameWorld(a: World, b: World) {
    a.durable == b.durable && a.remote == b.remote && a.ledger == b.ledger.(crashes := a.ledger.crashes)
  }

  /** The session has not diverged from the world it was opened on. */
  predicate Steady(s: Session, w: World) {
    && SameWorld(s.world, w) && NoDeletions(s.script)
    && (s.alive ==> s.row == w.durable && s.localIds == w.durable.commentIds)
  }

  lemma PublishOneSteady(s: Session, w: World, f: Finding)
    requires Steady(s, w) && s.alive && MapAgrees(w.durable.commentIds, w.durable.rows)
    requires Shown(w.durable, w.remote, f)
    ensures f.id in s.row.rows && Steady(PublishOne(s, f), w)
  {
    BeginWithoutDeletions(s);
    var id := w.durable.rows[f.id].commentId.value;
    assert Existing(s, f) == Some(id);
    assert EditComment(s.world, id, f).remote.comments == s.world.remote.comments;
    var (s1, found) := UpdateComment(s, id, f);
    if s1.alive {
      assert MarkPublished(s1, f).row.rows == s1.row.rows;
    }
  }

  lemma {:induction false} PublishAllSteady(s: Session, w: World, rest: seq<Finding>)
    requires Steady(s, w) && MapAgrees(w.durable.commentIds, w.durable.rows)
    requires Covers(s.row.rows, rest)
    requires forall k :: 0 <= k < |rest| && rest[k].publishable ==> Shown(w.durable, w.remote, rest[k])
    ensures Steady(PublishAll(s, rest), w)
    decreases |rest|
  {
    hide PublishOne;
    if rest != [] && s.alive {
      assert Covers(s.row.rows, rest[1..]);
      if rest[0].publishable {
        PublishOneSteady(s, w, rest[0]);
        PublishAllSteady(PublishOne(s, rest[0]), w, rest[1..]);
      } else {
        PublishAllSteady(s, w, rest[1..]);
      }
    }
  }

  /**
   Idempotence: once converged, a call during which nothing is deleted posts nothing and leaves
   the durable record and everything on GitHub as they were, whether it returns or is lost.
   */
  lemma RepublishChangesNothing(w: World, fs: seq<Finding>, headMatches: bool, script: seq<Await>)
    requires Inv(w, fs, {}, {}) && Converged(w, fs) && NoDeletions(script)
    ensures SameWorld(Publish(w, fs, headMatches, script).0, w)
  {
    InvCovers(w, fs);
    InvMapAgrees(w, fs);
    hide Inv, PublishAll, EnsureReview, Flush, Begin, Crash, SameWorld, Shown, ReviewShown, MapAgrees, NoDeletions;
    OpenSteady(w, script);
    var s1 := Begin(Open(w, script));
    EnsureReviewSteady(s1, w);
    EnsureReviewKeepsRows(s1);
    var s2 := EnsureReview(s1);
    PublishAllSteady(s2, w, fs);
    var s3 := PublishAll(s2, fs);
    if s3.alive {
      FlushSteady(s3, w);
    }
  }

  lemma OpenSteady(w: World, script: seq<Await>)
    requires NoDeletions(script)
    ensures var s := Begin(Open(w, script)); Steady(s, w) && s.alive && SameWorld(Crash(s, {}, {}).world, w)
  {
    BeginWithoutDeletions(Open(w, script));
  }

  /** A live review is updated and nothing else happens. */
  lemma EnsureReviewSteady(s: Session, w: World)
    requires Steady(s, w) && s.alive && ReviewShown(w.durable, w.remote)
    ensures Steady(EnsureReview(s), w)
  {
    BeginWithoutDeletions(s);
  }

  /** The final state is the one already recorded. */
  lemma FlushSteady(s: Session, w: World)
    requires Steady(s, w) && s.alive
    ensures SameWorld(Flush(s.(row := s.row.(commentIds := s.localIds)), {}, {}).world, w)
  {
    BeginWithoutDeletions(s.(row := s.row.(commentIds := s.localIds)));
  }

  lemma InvCovers(w: World, fs: seq<Finding>)
    requires Inv(w, fs, {}, {})
    ensures Covers(w.durable.rows, fs)
  {
  }

  lemma InvMapAgrees(w: World, fs: seq<Finding>)
    requires Inv(w, fs, {}, {})
    ensures MapAgrees(w.durable.commentIds, w.durable.rows)
  {
  }
}
