/**
 What every run of the publisher keeps, with deletions and lost calls anywhere: each live
 comment is the recorded one of its finding or was left behind by a lost call.
 */
module PublisherSafety {

  import opened Wrappers
  import opened Publisher

  // ----- the findings -----

  predicate Distinct(fs: seq<Finding>) {
    forall i, j :: 0 <= i < j < |fs| ==> fs[i].id != fs[j].id
  }

  function Ids(fs: seq<Finding>): set<FindingId> {
    set k | 0 <= k < |fs| :: fs[k].id
  }

  function PublishableIds(fs: seq<Finding>): set<FindingId> {
    set k | 0 <= k < |fs| && fs[k].publishable :: fs[k].id
  }

  /** The same findings with other comment bodies, as a later call may render them. */
  function WithBodies(fs: seq<Finding>, bodies: map<FindingId, string>): (gs: seq<Finding>)
    ensures |gs| == |fs|
    ensures forall k :: 0 <= k < |fs| ==>
              gs[k] == fs[k].(body := if fs[k].id in bodies then bodies[fs[k].id] else fs[k].body)
  {
    if fs == [] then []
    else
      var f := fs[0];
      [f.(body := if f.id in bodies then bodies[f.id] else f.body)] + WithBodies(fs[1..], bodies)
  }

  lemma BodiesDoNotMatter(fs: seq<Finding>, bodies: map<FindingId, string>)
    ensures Ids(WithBodies(fs, bodies)) == Ids(fs)
    ensures PublishableIds(WithBodies(fs, bodies)) == PublishableIds(fs)
    ensures Distinct(fs) ==> Distinct(WithBodies(fs, bodies))
  {
    hide WithBodies;
    var gs := WithBodies(fs, bodies);
    assert forall k :: 0 <= k < |fs| ==> gs[k].id == fs[k].id && gs[k].publishable == fs[k].publishable;
    assert forall k :: 0 <= k < |fs| ==> fs[k].id in Ids(gs) && gs[k].id in Ids(fs);
    assert forall k :: 0 <= k < |fs| && fs[k].publishable ==> fs[k].id in PublishableIds(gs) && gs[k].id in PublishableIds(fs);
  }

  // ----- the invariant -----

  /** Any entry of an id map agrees with the finding's own row. */
  predicate MapAgrees(ids: map<FindingId, Id>, rows: map<FindingId, Row>) {
    forall f :: f in ids ==> f in rows && rows[f].commentId == Some(ids[f])
  }

  predicate RecordOk(r: Record, fs: seq<Finding>) {
    && r.rows.Keys == Ids(fs)
    && MapAgrees(r.commentIds, r.rows)
    && forall f :: f in r.rows && r.rows[f].published ==> r.rows[f].commentId.Some?
  }

  predicate LedgerOk(w: World, fs: seq<Finding>) {
    var l := w.ledger;
    && (forall id :: id in w.remote.comments ==> id in l.posted && w.remote.comments[id].finding == l.posted[id])
    && (forall id :: id in l.posted ==> id < w.remote.nextId && l.posted[id] in PublishableIds(fs))
    && w.remote.reviews <= l.reviewsPosted
    && (forall r :: r in l.reviewsPosted ==> r < w.remote.nextId)
    && l.lost <= l.posted.Keys && l.lostReviews <= l.reviewsPosted
    && |l.lost| + |l.lostReviews| <= l.crashes
  }

  /** Recorded ids were posted for their finding and were not left behind. */
  predicate Recorded(r: Record, w: World, held: set<Id>, heldReviews: set<Id>) {
    && (forall f :: f in r.rows && r.rows[f].commentId.Some? ==>
          var id := r.rows[f].commentId.value;
          id in w.ledger.posted && w.ledger.posted[id] == f && id !in w.ledger.lost && id !in held)
    && (r.reviewId.Some? ==>
          r.reviewId.value in w.ledger.reviewsPosted - w.ledger.lostReviews - heldReviews)
  }

  /** The finding's row records this comment id. */
  predicate Records(r: Record, f: FindingId, id: Id) {
    f in r.rows && r.rows[f].commentId == Some(id)
  }

  /** Everything live is recorded, held by the running call, or was left behind by a lost call. */
  predicate Accounted(r: Record, w: World, held: set<Id>, heldReviews: set<Id>) {
    && (forall id :: id in w.remote.comments ==>
          id in w.ledger.lost || id in held || (id in w.ledger.posted && Records(r, w.ledger.posted[id], id)))
    && (forall v :: v in w.remote.reviews ==>
          v in w.ledger.lostReviews || v in heldReviews || r.reviewId == Some(v))
  }

  /** The invariant; held are ids a running call has posted and not yet flushed. */
  predicate Inv(w: World, fs: seq<Finding>, held: set<Id>, heldReviews: set<Id>) {
    && RecordOk(w.durable, fs)
    && LedgerOk(w, fs)
    && Recorded(w.durable, w, held, heldReviews)
    && Accounted(w.durable, w, held, heldReviews)
    && held <= w.ledger.posted.Keys - w.ledger.lost
    && heldReviews <= w.ledger.reviewsPosted - w.ledger.lostReviews
  }

  /** Between two comments of a call, memory and the durable record know the same ids. */
  predicate SameIds(a: Record, b: Record) {
    && a.reviewId == b.reviewId && a.rows.Keys == b.rows.Keys
    && forall f :: f in a.rows ==> a.rows[f].commentId == b.rows[f].commentId
  }

  predicate Settled(s: Session, fs: seq<Finding>) {
    && Inv(s.world, fs, {}, {})
    && (s.alive ==> SameIds(s.row, s.world.durable) && RecordOk(s.row, fs) && MapAgrees(s.localIds, s.row.rows))
  }

  // ----- the operations keep it -----

  lemma BeginKeeps(s: Session, fs: seq<Finding>, held: set<Id>, heldReviews: set<Id>)
    requires Inv(s.world, fs, held, heldReviews)
    ensures Inv(Begin(s).world, fs, held, heldReviews)
    ensures Begin(s).world.durable == s.world.durable && Begin(s).world.ledger == s.world.ledger
    ensures Begin(s).world.remote.comments.Keys <= s.world.remote.comments.Keys
    ensures Begin(s).world.remote.reviews <= s.world.remote.reviews
    ensures Begin(s).row == s.row && Begin(s).localIds == s.localIds && Begin(s).alive == s.alive
  {
  }

  /** A lost call leaves behind at most what it holds. */
  lemma CrashKeeps(s: Session, fs: seq<Finding>, held: set<Id>, heldReviews: set<Id>)
    requires Inv(s.world, fs, held, heldReviews) && |held| + |heldReviews| <= 1
    ensures Inv(Crash(s, held, heldReviews).world, fs, {}, {})
  {
    var l := s.world.ledger;
    assert |l.lost + held| == |l.lost| + |held| - |l.lost * held|;
    assert |l.lostReviews + heldReviews| == |l.lostReviews| + |heldReviews| - |l.lostReviews * heldReviews|;
  }

  lemma AddCommentKeeps(w: World, fs: seq<Finding>, f: Finding)
    requires Inv(w, fs, {}, {}) && f.id in PublishableIds(fs)
    ensures Inv(AddComment(w, f), fs, {w.remote.nextId}, {})
  {
  }

  lemma AddReviewKeeps(w: World, fs: seq<Finding>)
    requires Inv(w, fs, {}, {})
    ensures Inv(AddReview(w), fs, {}, {w.remote.nextId})
  {
  }

  lemma EditCommentKeeps(w: World, fs: seq<Finding>, id: Id, f: Finding)
    requires Inv(w, fs, {}, {})
    ensures Inv(EditComment(w, id, f), fs, {}, {})
  {
  }

  /** Flushing a record that differs only by the held comment id settles the world. */
  lemma SaveCommentKeeps(w: World, fs: seq<Finding>, row: Record, f: FindingId, id: Id)
    requires Inv(w, fs, {id}, {}) && RecordOk(row, fs)
    requires f in row.rows && row.rows[f].commentId == Some(id) && w.ledger.posted[id] == f
    requires row.reviewId == w.durable.reviewId
    requires forall g :: g in row.rows && g != f ==> row.rows[g].commentId == w.durable.rows[g].commentId
    requires w.durable.rows[f].commentId.Some? ==> w.durable.rows[f].commentId.value !in w.remote.comments
    ensures Inv(w.(durable := row), fs, {}, {})
  {
  }

  /** The comment of the finding, if the record knows one, is gone. */
  predicate NoLiveComment(s: Session, f: FindingId) {
    f in s.row.rows && (s.row.rows[f].commentId.Some? ==> s.row.rows[f].commentId.value !in s.world.remote.comments)
  }

  lemma PostCommentKeeps(s: Session, fs: seq<Finding>, f: Finding, published: bool)
    requires Settled(s, fs) && s.alive && f.id in PublishableIds(fs) && NoLiveComment(s, f.id)
    ensures Settled(PostComment(s, f, published), fs)
    ensures PostComment(s, f, published).alive ==> PostComment(s, f, published).row.rows[f.id].commentId.Some?
  {
    hide Inv, RecordOk;
    BeginKeeps(s, fs, {}, {});
    var s1 := Begin(s);
    CrashKeeps(s1, fs, {}, {});
    AddCommentKeeps(s1.world, fs, f);
    var id := s1.world.remote.nextId;
    var s2 := s1.(world := AddComment(s1.world, f));
    CrashKeeps(s2, fs, {id}, {});
    if NextFate(s) == Done {
      var s3 := NoteComment(s2, f, id, published);
      BeginKeeps(s3, fs, {id}, {});
      var s4 := Begin(s3);
      CrashKeeps(s4, fs, {id}, {});
      NoteCommentOk(s2, fs, f, id, published);
      RecordDead(s, s4, fs, f.id);
      SaveCommentKeeps(s4.world, fs, s3.row, f.id, id);
      CrashKeeps(s4.(world := s4.world.(durable := s4.row)), fs, {}, {});
    }
  }

  lemma NoteCommentOk(s: Session, fs: seq<Finding>, f: Finding, id: Id, published: bool)
    requires RecordOk(s.row, fs) && MapAgrees(s.localIds, s.row.rows) && f.id in s.row.rows
    ensures RecordOk(NoteComment(s, f, id, published).row, fs)
    ensures MapAgrees(NoteComment(s, f, id, published).localIds, NoteComment(s, f, id, published).row.rows)
  {
  }

  /** A recorded comment that is gone stays gone while the finding's new comment is posted. */
  lemma RecordDead(s: Session, later: Session, fs: seq<Finding>, f: FindingId)
    requires Inv(s.world, fs, {}, {}) && SameIds(s.row, s.world.durable) && NoLiveComment(s, f)
    requires later.world.durable == s.world.durable
    requires forall id :: id in later.world.remote.comments && id !in s.world.remote.comments ==> id >= s.world.remote.nextId
    ensures later.world.durable.rows[f].commentId.Some? ==>
              later.world.durable.rows[f].commentId.value !in later.world.remote.comments
  {
  }

  lemma MarkPublishedKeeps(s: Session, fs: seq<Finding>, f: Finding)
    requires Settled(s, fs) && s.alive && f.id in s.row.rows && s.row.rows[f.id].commentId.Some?
    ensures Settled(MarkPublished(s, f), fs)
  {
  }

  lemma UpdateCommentKeeps(s: Session, fs: seq<Finding>, id: Id, f: Finding)
    requires Settled(s, fs) && s.alive
    ensures var (r, found) := UpdateComment(s, id, f);
            && Settled(r, fs)
            && (r.alive ==> r.row == s.row && r.localIds == s.localIds && (found <==> id in r.world.remote.comments))
  {
    hide Inv;
    BeginKeeps(s, fs, {}, {});
    CrashKeeps(Begin(s), fs, {}, {});
    EditCommentKeeps(Begin(s).world, fs, id, f);
    CrashKeeps(Begin(s).(world := EditComment(Begin(s).world, id, f)), fs, {}, {});
  }

  lemma PublishOneKeeps(s: Session, fs: seq<Finding>, f: Finding)
    requires Settled(s, fs) && s.alive && f.id in PublishableIds(fs) && f.id in s.row.rows
    ensures Settled(PublishOne(s, f), fs)
  {
    hide Inv, Settled, PostComment, UpdateComment, MarkPublished;
    SettledFacts(s, fs);
    match Existing(s, f)
    case None =>
      PostCommentKeeps(s, fs, f, true);
    case Some(id) =>
      UpdateCommentKeeps(s, fs, id, f);
      var (s1, found) := UpdateComment(s, id, f);
      if s1.alive {
        if found {
          MarkPublishedKeeps(s1, fs, f);
        } else {
          PostCommentKeeps(s1, fs, f, s1.row.rows[f.id].published);
          var s2 := PostComment(s1, f, s1.row.rows[f.id].published);
          if s2.alive {
            MarkPublishedKeeps(s2, fs, f);
          }
        }
      }
  }

  lemma SettledFacts(s: Session, fs: seq<Finding>)
    requires Settled(s, fs) && s.alive
    ensures RecordOk(s.row, fs) && MapAgrees(s.localIds, s.row.rows)
  {
  }

  lemma PostReviewKeeps(s: Session, fs: seq<Finding>, clear: bool)
    requires Settled(s, fs) && s.alive
    requires s.row.reviewId.Some? ==> s.row.reviewId.value !in s.world.remote.reviews
    ensures var (s1, id) := CreateReview(s);
            var s2 := NoteReview(s1, id);
            if s1.alive then Settled(Flush(if clear then s2.(localIds := map[]) else s2, {}, {id}), fs)
            else Settled(s1, fs)
  {
    hide Inv, RecordOk;
    BeginKeeps(s, fs, {}, {});
    var s1 := Begin(s);
    CrashKeeps(s1, fs, {}, {});
    AddReviewKeeps(s1.world, fs);
    var id := s1.world.remote.nextId;
    var s2 := s1.(world := AddReview(s1.world));
    CrashKeeps(s2, fs, {}, {id});
    if NextFate(s) == Done {
      var s3 := if clear then NoteReview(s2, id).(localIds := map[]) else NoteReview(s2, id);
      BeginKeeps(s3, fs, {}, {id});
      var s4 := Begin(s3);
      CrashKeeps(s4, fs, {}, {id});
      NoteReviewOk(s2, fs, id);
      ReviewDead(s, s4, fs);
      SaveReviewKeeps(s4.world, fs, s4.row, id);
      CrashKeeps(s4.(world := s4.world.(durable := s4.row)), fs, {}, {});
    }
  }

  lemma ReviewDead(s: Session, later: Session, fs: seq<Finding>)
    requires Inv(s.world, fs, {}, {}) && s.row.reviewId == s.world.durable.reviewId
    requires s.row.reviewId.Some? ==> s.row.reviewId.value !in s.world.remote.reviews
    requires later.world.durable == s.world.durable
    requires forall v :: v in later.world.remote.reviews && v !in s.world.remote.reviews ==> v >= s.world.remote.nextId
    ensures later.world.durable.reviewId.Some? ==> later.world.durable.reviewId.value !in later.world.remote.reviews
  {
  }

  lemma NoteReviewOk(s: Session, fs: seq<Finding>, id: Id)
    requires RecordOk(s.row, fs)
    ensures RecordOk(NoteReview(s, id).row, fs)
  {
  }

  lemma SaveReviewKeeps(w: World, fs: seq<Finding>, row: Record, id: Id)
    requires Inv(w, fs, {}, {id}) && RecordOk(row, fs) && row.reviewId == Some(id)
    requires row.rows.Keys == w.durable.rows.Keys
    requires forall f :: f in row.rows ==> row.rows[f].commentId == w.durable.rows[f].commentId
    requires w.durable.reviewId.Some? ==> w.durable.reviewId.value !in w.remote.reviews
    ensures Inv(w.(durable := row), fs, {}, {})
  {
  }

  lemma EnsureReviewKeeps(s: Session, fs: seq<Finding>)
    requires Settled(s, fs) && s.alive
    ensures Settled(EnsureReview(s), fs)
  {
    hide Inv, RecordOk;
    match s.row.reviewId
    case None =>
      PostReviewKeeps(s, fs, false);
    case Some(r) =>
      BeginKeeps(s, fs, {}, {});
      CrashKeeps(Begin(s), fs, {}, {});
      var (s1, found) := UpdateReview(s, r);
      if s1.alive && !found {
        PostReviewKeeps(s1, fs, true);
      }
  }

  lemma {:induction false} PublishAllKeeps(s: Session, fs: seq<Finding>, rest: seq<Finding>)
    requires Settled(s, fs) && Covers(s.row.rows, rest)
    requires forall f :: f in rest ==> f in fs
    ensures Settled(PublishAll(s, rest), fs)
    decreases |rest|
  {
    hide Inv, PublishOne, Settled;
    if rest != [] && s.alive {
      assert Covers(s.row.rows, rest[1..]);
      if rest[0].publishable {
        assert rest[0] in fs;
        PublishOneKeeps(s, fs, rest[0]);
        PublishAllKeeps(PublishOne(s, rest[0]), fs, rest[1..]);
      } else {
        PublishAllKeeps(s, fs, rest[1..]);
      }
    }
  }

  lemma FinalFlushKeeps(s: Session, fs: seq<Finding>)
    requires Settled(s, fs) && s.alive
    ensures Inv(Flush(s.(row := s.row.(commentIds := s.localIds)), {}, {}).world, fs, {}, {})
  {
    var s0 := s.(row := s.row.(commentIds := s.localIds));
    BeginKeeps(s0, fs, {}, {});
    var s1 := Begin(s0);
    CrashKeeps(s1, fs, {}, {});
    SaveFinalKeeps(s1.world, fs, s1.row);
    hide Inv;
    CrashKeeps(s1.(world := s1.world.(durable := s1.row)), fs, {}, {});
  }

  /** Flushing a record that knows the same ids keeps the invariant. */
  lemma SaveFinalKeeps(w: World, fs: seq<Finding>, row: Record)
    requires Inv(w, fs, {}, {}) && RecordOk(row, fs)
    requires SameIds(row, w.durable)
    ensures Inv(w.(durable := row), fs, {}, {})
  {
  }

  /** One call, returned or lost at any await, keeps the invariant. */
  lemma PublishKeeps(w: World, fs: seq<Finding>, headMatches: bool, script: seq<Await>)
    requires Inv(w, fs, {}, {})
    ensures Covers(w.durable.rows, fs)
    ensures Inv(Publish(w, fs, headMatches, script).0, fs, {}, {})
  {
    hide EnsureReview, PublishAll, Flush;
    assert Covers(w.durable.rows, fs);
    var s0 := Open(w, script);
    BeginKeeps(s0, fs, {}, {});
    var s1 := Begin(s0);
    CrashKeeps(s1, fs, {}, {});
    EnsureReviewKeeps(s1, fs);
    EnsureReviewKeepsRows(s1);
    var s2 := EnsureReview(s1);
    PublishAllKeeps(s2, fs, fs);
    var s3 := PublishAll(s2, fs);
    if s3.alive {
      FinalFlushKeeps(s3, fs);
    }
  }

  lemma SameInv(w: World, fs: seq<Finding>, bodies: map<FindingId, string>)
    ensures Inv(w, WithBodies(fs, bodies), {}, {}) <==> Inv(w, fs, {}, {})
  {
    BodiesDoNotMatter(fs, bodies);
  }

  // ----- whole runs -----

  /** What can happen to a review over time: a publish call with its comment bodies, or outside deletions. */
  datatype Event =
    | Call(bodies: map<FindingId, string>, headMatches: bool, script: seq<Await>)
    | Removal(comments: set<Id>, reviews: set<Id>)

  /** Nothing posted, nothing recorded. */
  function Fresh(fs: seq<Finding>): World {
    World(Record(None, map[], map f | f in Ids(fs) :: Row(None, false)),
          Remote(1, map[], {}), Ledger(map[], {}, {}, {}, 0))
  }

  function Step(w: World, fs: seq<Finding>, e: Event): World
    requires Inv(w, fs, {}, {})
  {
    match e
    case Call(bodies, headMatches, script) =>
      SameInv(w, fs, bodies);
      PublishKeeps(w, WithBodies(fs, bodies), headMatches, script);
      Publish(w, WithBodies(fs, bodies), headMatches, script).0
    case Removal(comments, reviews) => Delete(w, comments, reviews)
  }

  /** The world after a history of events. */
  function Run(fs: seq<Finding>, history: seq<Event>): (w: World)
    ensures Inv(w, fs, {}, {})
  {
    if history == [] then Fresh(fs) else
    var w := Run(fs, history[..|history| - 1]);
    var e := history[|history| - 1];
    StepKeeps(w, fs, e);
    Step(w, fs, e)
  }

  lemma StepKeeps(w: World, fs: seq<Finding>, e: Event)
    requires Inv(w, fs, {}, {})
    ensures Inv(Step(w, fs, e), fs, {}, {})
  {
    if e.Call? {
      SameInv(w, fs, e.bodies);
      PublishKeeps(w, WithBodies(fs, e.bodies), e.headMatches, e.script);
      SameInv(Step(w, fs, e), fs, e.bodies);
    }
  }

  // ----- the bounds -----

  /** The comments of one finding that are live, and the ones its lost calls left behind. */
  function LiveComments(w: World, f: FindingId): set<Id> {
    set id | id in w.remote.comments && w.remote.comments[id].finding == f
  }

  function LostComments(w: World, f: FindingId): set<Id> {
    set id | id in w.ledger.lost && id in w.ledger.posted && w.ledger.posted[id] == f
  }

  /** Every comment ever posted for a finding, and the ones among them deleted from outside. */
  function PostedComments(w: World, f: FindingId): set<Id> {
    set id | id in w.ledger.posted && w.ledger.posted[id] == f
  }

  function DeletedComments(w: World, f: FindingId): set<Id> {
    set id | id in w.ledger.posted && w.ledger.posted[id] == f && id !in w.remote.comments
  }

  lemma SubsetSize(a: set<Id>, b: set<Id>)
    requires a <= b
    ensures |a| <= |b|
  {
    assert b == a + (b - a);
  }

  /**
   Over every history, a finding has at most one live comment more than there were crashes
   between one of its posts and the flush, and was posted at most once more than its comments
   were deleted or left behind. The same holds for the review itself.
   */
  lemma AtMostOneExtraPerCrash(fs: seq<Finding>, history: seq<Event>, f: FindingId)
    ensures var w := Run(fs, history);
            && |LiveComments(w, f)| <= 1 + |LostComments(w, f)|
            && |PostedComments(w, f)| <= 1 + |DeletedComments(w, f)| + |LostComments(w, f)|
            && |w.remote.reviews| <= 1 + |w.ledger.lostReviews|
            && |w.ledger.reviewsPosted| <= 1 + |w.ledger.reviewsPosted - w.remote.reviews| + |w.ledger.lostReviews|
  {
    hide Run;
    var w := Run(fs, history);
    var recorded: set<Id> := if f in w.durable.rows && w.durable.rows[f].commentId.Some? then {w.durable.rows[f].commentId.value} else {};
    assert LiveComments(w, f) <= recorded + LostComments(w, f);
    SubsetSize(LiveComments(w, f), recorded + LostComments(w, f));
    assert PostedComments(w, f) <= recorded + LostComments(w, f) + DeletedComments(w, f);
    SubsetSize(PostedComments(w, f), recorded + LostComments(w, f) + DeletedComments(w, f));
    var review: set<Id> := if w.durable.reviewId.Some? then {w.durable.reviewId.value} else {};
    SubsetSize(w.remote.reviews, review + w.ledger.lostReviews);
    var gone := w.ledger.reviewsPosted - w.remote.reviews;
    SubsetSize(w.ledger.reviewsPosted, review + w.ledger.lostReviews + gone);
  }

  /** The recorded comment ids, one at most for each finding. */
  function RecordedIds(rows: map<FindingId, Row>, fs: set<FindingId>): set<Id> {
    set f | f in fs && f in rows && rows[f].commentId.Some? :: rows[f].commentId.value
  }

  lemma {:induction false} RecordedIdsSize(rows: map<FindingId, Row>, fs: set<FindingId>)
    ensures |RecordedIds(rows, fs)| <= |fs|
    decreases |fs|
  {
    if fs != {} {
      var f :| f in fs;
      RecordedIdsSize(rows, fs - {f});
      var one: set<Id> := if f in rows && rows[f].commentId.Some? then {rows[f].commentId.value} else {};
      assert RecordedIds(rows, fs) <= RecordedIds(rows, fs - {f}) + one;
      SubsetSize(RecordedIds(rows, fs), RecordedIds(rows, fs - {f}) + one);
    } else {
      assert RecordedIds(rows, fs) == {};
    }
  }

  /**
   Over every history, the number of comments ever posted is at most the number of publishable
   findings plus the number of comments deleted from outside plus the number of lost calls,
   and no comment is ever posted for a finding that is not publishable.
   */
  lemma PostsAreBounded(fs: seq<Finding>, history: seq<Event>)
    ensures var w := Run(fs, history);
            && |w.ledger.posted.Keys| <= |PublishableIds(fs)| + |w.ledger.posted.Keys - w.remote.comments.Keys| + w.ledger.crashes
            && forall id :: id in w.remote.comments ==> w.remote.comments[id].finding in PublishableIds(fs)
  {
    hide Run;
    var w := Run(fs, history);
    var recorded := RecordedIds(w.durable.rows, PublishableIds(fs));
    var deleted := w.ledger.posted.Keys - w.remote.comments.Keys;
    RecordedIdsSize(w.durable.rows, PublishableIds(fs));
    forall id | id in w.ledger.posted.Keys ensures id in recorded + w.ledger.lost + deleted {
      if id in w.remote.comments && id !in w.ledger.lost {
        assert Records(w.durable, w.ledger.posted[id], id);
      }
    }
    SubsetSize(w.ledger.posted.Keys, recorded + w.ledger.lost + deleted);
  }
}
