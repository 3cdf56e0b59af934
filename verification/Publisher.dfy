/**
 The idempotent review publisher as a protocol between a durable record and a remote store
 that outsiders may delete from. Every await is a point where deletions can happen and where
 the call can be lost, before or after the awaited request has taken effect.
 */
module Publisher {

  import opened Wrappers

  type FindingId = nat
  type Id = n: nat | n > 0 witness 1

  /** A finding of the review being published; publishable covers publish and redact-and-publish. */
  datatype Finding = Finding(id: FindingId, publishable: bool, body: string)

  // ----- durable record -----

  datatype Row = Row(commentId: Option<Id>, published: bool)

  /** The review row and its finding rows. */
  datatype Record = Record(reviewId: Option<Id>, commentIds: map<FindingId, Id>, rows: map<FindingId, Row>)

  // ----- remote store -----

  datatype Comment = Comment(finding: FindingId, body: string)

  /** What is live on GitHub; ids are handed out in increasing order. */
  datatype Remote = Remote(nextId: Id, comments: map<Id, Comment>, reviews: set<Id>)

  /** Bookkeeping over the whole history: what was ever posted, and what a lost call left unrecorded. */
  datatype Ledger = Ledger(posted: map<Id, FindingId>, reviewsPosted: set<Id>,
                           lost: set<Id>, lostReviews: set<Id>, crashes: nat)

  datatype World = World(durable: Record, remote: Remote, ledger: Ledger)

  /** The fate of an awaited operation. A lost operation ends the call. */
  datatype Fate = Done | LostBefore | LostAfter

  /** What happens during one await: outside deletions first, then the operation. */
  datatype Await = Await(comments: set<Id>, reviews: set<Id>, fate: Fate)

  /** A running call: row is the unflushed in-memory state, localIds the local id map. */
  datatype Session = Session(world: World, row: Record, localIds: map<FindingId, Id>, script: seq<Await>, alive: bool)

  // ----- the operations a call awaits -----

  function NextFate(s: Session): Fate {
    if s.script == [] then LostBefore else s.script[0].fate
  }

  function Delete(w: World, comments: set<Id>, reviews: set<Id>): World {
    w.(remote := w.remote.(comments := w.remote.comments - comments, reviews := w.remote.reviews - reviews))
  }

  /** Let the deletions of the next await happen. */
  function Begin(s: Session): Session {
    if s.script == [] then s
    else s.(world := Delete(s.world, s.script[0].comments, s.script[0].reviews), script := s.script[1..])
  }

  /** The call is lost; the given ids were posted but never flushed. */
  function Crash(s: Session, lost: set<Id>, lostReviews: set<Id>): Session {
    var l := s.world.ledger;
    s.(alive := false,
       world := s.world.(ledger := l.(lost := l.lost + lost, lostReviews := l.lostReviews + lostReviews, crashes := l.crashes + 1)))
  }

  function AddComment(w: World, f: Finding): World {
    var id := w.remote.nextId;
    w.(remote := w.remote.(nextId := id + 1, comments := w.remote.comments[id := Comment(f.id, f.body)]),
       ledger := w.ledger.(posted := w.ledger.posted[id := f.id]))
  }

  function AddReview(w: World): World {
    var id := w.remote.nextId;
    w.(remote := w.remote.(nextId := id + 1, reviews := w.remote.reviews + {id}),
       ledger := w.ledger.(reviewsPosted := w.ledger.reviewsPosted + {id}))
  }

  function EditComment(w: World, id: Id, f: Finding): World {
    if id in w.remote.comments
    then w.(remote := w.remote.(comments := w.remote.comments[id := w.remote.comments[id].(body := f.body)]))
    else w
  }

  /** `_create_comment`. */
  function CreateComment(s: Session, f: Finding): (Session, Id) {
    var s1 := Begin(s);
    var id := s1.world.remote.nextId;
    var s2 := s1.(world := AddComment(s1.world, f));
    match NextFate(s)
    case LostBefore => (Crash(s1, {}, {}), id)
    case LostAfter => (Crash(s2, {id}, {}), id)
    case Done => (s2, id)
  }

  /** `_update_comment`: false when the comment no longer exists. */
  function UpdateComment(s: Session, id: Id, f: Finding): (Session, bool) {
    var s1 := Begin(s);
    var s2 := s1.(world := EditComment(s1.world, id, f));
    match NextFate(s)
    case LostBefore => (Crash(s1, {}, {}), false)
    case LostAfter => (Crash(s2, {}, {}), false)
    case Done => (s2, id in s1.world.remote.comments)
  }

  /** `_create_review`. */
  function CreateReview(s: Session): (Session, Id) {
    var s1 := Begin(s);
    var id := s1.world.remote.nextId;
    var s2 := s1.(world := AddReview(s1.world));
    match NextFate(s)
    case LostBefore => (Crash(s1, {}, {}), id)
    case LostAfter => (Crash(s2, {}, {id}), id)
    case Done => (s2, id)
  }

  /** `_update_review`: false when the review no longer exists. */
  function UpdateReview(s: Session, id: Id): (Session, bool) {
    var s1 := Begin(s);
    match NextFate(s)
    case LostBefore => (Crash(s1, {}, {}), false)
    case LostAfter => (Crash(s1, {}, {}), false)
    case Done => (s1, id in s1.world.remote.reviews)
  }

  /** `session.flush()` as a durable checkpoint; unsaved are the ids only the session knows. */
  function Flush(s: Session, unsaved: set<Id>, unsavedReviews: set<Id>): Session {
    var s1 := Begin(s);
    var s2 := s1.(world := s1.world.(durable := s1.row));
    match NextFate(s)
    case LostBefore => Crash(s1, unsaved, unsavedReviews)
    case LostAfter => Crash(s2, {}, {})
    case Done => s2
  }

  // ----- the call -----

  /** A comment id held by the record for a finding: the local map first, then the finding's own row. */
  function Existing(s: Session, f: Finding): Option<Id> {
    if f.id in s.localIds then Some(s.localIds[f.id])
    else if f.id in s.row.rows then s.row.rows[f.id].commentId
    else None
  }

  /** The id map is asked first, and the finding's own row only when the map does not know it. */
  lemma MapComesFirst(s: Session, f: Finding)
    ensures f.id in s.localIds ==> Existing(s, f) == Some(s.localIds[f.id])
    ensures f.id !in s.localIds && f.id in s.row.rows ==> Existing(s, f) == s.row.rows[f.id].commentId
    ensures f.id !in s.localIds && f.id !in s.row.rows ==> Existing(s, f) == None
  {
  }

  /** Note a new comment id in the finding's row and in the id map, in memory. */
  function NoteComment(s: Session, f: Finding, id: Id, published: bool): Session {
    var ids := s.localIds[f.id := id];
    s.(localIds := ids, row := s.row.(commentIds := ids, rows := s.row.rows[f.id := Row(Some(id), published)]))
  }

  function MarkPublished(s: Session, f: Finding): Session
    requires f.id in s.row.rows
  {
    s.(row := s.row.(rows := s.row.rows[f.id := s.row.rows[f.id].(published := true)]))
  }

  function NoteReview(s: Session, id: Id): Session {
    s.(row := s.row.(reviewId := Some(id)))
  }

  /** Make sure the review exists; a recreated review clears the local id map. */
  function EnsureReview(s: Session): Session {
    match s.row.reviewId
    case None =>
      var (s1, id) := CreateReview(s);
      if !s1.alive then s1 else Flush(NoteReview(s1, id), {}, {id})
    case Some(r) =>
      var (s1, found) := UpdateReview(s, r);
      if !s1.alive || found then s1 else
      var (s2, id) := CreateReview(s1);
      if !s2.alive then s2 else Flush(NoteReview(s2, id).(localIds := map[]), {}, {id})
  }

  /** Post a comment for the finding, note its id and flush. */
  function PostComment(s: Session, f: Finding, published: bool): (r: Session)
    ensures r.row.rows.Keys == s.row.rows.Keys || r.row.rows.Keys == s.row.rows.Keys + {f.id}
  {
    var (s1, id) := CreateComment(s, f);
    if !s1.alive then s1 else Flush(NoteComment(s1, f, id, published), {id}, {})
  }

  function PublishOne(s: Session, f: Finding): (r: Session)
    requires f.id in s.row.rows
    ensures r.row.rows.Keys == s.row.rows.Keys
  {
    match Existing(s, f)
    case None => PostComment(s, f, true)
    case Some(id) =>
      var (s1, found) := UpdateComment(s, id, f);
      if !s1.alive then s1 else
      var s2 := if found then s1 else PostComment(s1, f, s1.row.rows[f.id].published);
      if !s2.alive then s2 else MarkPublished(s2, f)
  }

  // ----- what the operations leave of the record -----

  lemma BeginKeepsRow(s: Session)
    ensures Begin(s).row == s.row
  {
  }

  lemma CallsKeepRow(s: Session)
    ensures CreateReview(s).0.row == s.row
    ensures forall r :: UpdateReview(s, r).0.row == s.row
  {
  }

  lemma CreateKeepsRow(s: Session, f: Finding)
    ensures CreateComment(s, f).0.row == s.row
  {
  }

  lemma UpdateKeepsRow(s: Session, id: Id, f: Finding)
    ensures UpdateComment(s, id, f).0.row == s.row
  {
  }

  lemma FlushKeepsRow(s: Session, unsaved: set<Id>, unsavedReviews: set<Id>)
    ensures Flush(s, unsaved, unsavedReviews).row == s.row
  {
  }

  /** Before the loop the rows in memory are the durable ones. */
  lemma EnsureReviewKeepsRows(s: Session)
    ensures EnsureReview(s).row.rows == s.row.rows
  {
    hide Begin, Crash, AddReview;
    BeginKeepsRow(s);
    CallsKeepRow(s);
    match s.row.reviewId
    case None =>
      var (s1, id) := CreateReview(s);
      FlushKeepsRow(NoteReview(s1, id), {}, {id});
    case Some(r) =>
      var (s1, _) := UpdateReview(s, r);
      CallsKeepRow(s1);
      var (s2, id) := CreateReview(s1);
      FlushKeepsRow(NoteReview(s2, id).(localIds := map[]), {}, {id});
  }

  lemma PostCommentRows(s: Session, f: Finding, published: bool)
    ensures var t := PostComment(s, f, published);
            && (t.alive ==> f.id in t.row.rows && t.row.rows[f.id].published == published)
            && forall g :: g in s.row.rows && g != f.id ==> g in t.row.rows && t.row.rows[g] == s.row.rows[g]
  {
    hide Flush, CreateComment;
    var (s1, id) := CreateComment(s, f);
    CreateKeepsRow(s, f);
    FlushKeepsRow(NoteComment(s1, f, id, published), {id}, {});
  }

  /**
   The checkpoint of a new comment: once it is posted and flushed, the durable record holds its
   id in the finding's row and in the id map, with the flag it was noted with, and nothing else
   of the session's rows has been lost.
   */
  lemma NewCommentIsRecorded(s: Session, f: Finding, published: bool)
    ensures var t, id := PostComment(s, f, published), s.world.remote.nextId;
            s.alive && t.alive ==>
              && t.world.durable == t.row
              && t.row.reviewId == s.row.reviewId
              && t.row.rows == s.row.rows[f.id := Row(Some(id), published)]
              && t.row.commentIds == s.localIds[f.id := id] && t.localIds == t.row.commentIds
  {
  }

  /** When a patched comment turns out to be gone, the new one is flushed before the finding is marked published. */
  lemma RecreatedCommentKeepsFlag(s: Session, f: Finding)
    requires s.alive && f.id in s.row.rows && Existing(s, f).Some? && PublishOne(s, f).alive
    ensures var (s1, found) := UpdateComment(s, Existing(s, f).value, f);
            var t := PublishOne(s, f);
            && t.world.durable.rows == (if found then s.world.durable.rows
                                        else s.row.rows[f.id := Row(Some(s1.world.remote.nextId), s.row.rows[f.id].published)])
            && f.id in t.row.rows && t.row.rows[f.id].published
  {
    var (s1, _) := UpdateComment(s, Existing(s, f).value, f);
    UpdateKeepsRow(s, Existing(s, f).value, f);
    hide PostComment;
    NewCommentIsRecorded(s1, f, s.row.rows[f.id].published);
  }

  /** Publishing one finding leaves the rows of the others alone. */
  lemma PublishOneRows(s: Session, f: Finding)
    requires f.id in s.row.rows
    ensures var t := PublishOne(s, f);
            && (t.alive ==> f.id in t.row.rows && t.row.rows[f.id].published)
            && forall g :: g in s.row.rows && g != f.id ==> g in t.row.rows && t.row.rows[g] == s.row.rows[g]
  {
    hide PostComment, UpdateComment;
    PostCommentRows(s, f, true);
    match Existing(s, f)
    case None =>
    case Some(id) =>
      var (s1, found) := UpdateComment(s, id, f);
      UpdateKeepsRow(s, id, f);
      PostCommentRows(s1, f, s1.row.rows[f.id].published);
  }

  // ----- all findings -----

  predicate Covers(rows: map<FindingId, Row>, fs: seq<Finding>) {
    forall k :: 0 <= k < |fs| ==> fs[k].id in rows.Keys
  }

  function PublishAll(s: Session, fs: seq<Finding>): (r: Session)
    requires Covers(s.row.rows, fs)
    decreases |fs|
  {
    if fs == [] || !s.alive then s
    else
      assert Covers(s.row.rows, fs[1..]);
      PublishAll(if fs[0].publishable then PublishOne(s, fs[0]) else s, fs[1..])
  }

  function Open(w: World, script: seq<Await>): Session {
    Session(w, w.durable, w.durable.commentIds, script, true)
  }

  /** `publish_review`, up to and including the caller's commit; true when it returned normally. */
  function Publish(w: World, fs: seq<Finding>, headMatches: bool, script: seq<Await>): (World, bool)
    requires Covers(w.durable.rows, fs)
  {
    var s0 := Open(w, script);
    var s1 := Begin(s0);
    if NextFate(s0) != Done then (Crash(s1, {}, {}).world, false)
    else if !headMatches then (s1.world, false)
    else
      EnsureReviewKeepsRows(s1);
      BeginKeepsRow(s0);
      var s2 := EnsureReview(s1);
      var s3 := PublishAll(s2, fs);
      if !s3.alive then (s3.world, false) else
      var s4 := Flush(s3.(row := s3.row.(commentIds := s3.localIds)), {}, {});
      (s4.world, s4.alive)
  }

  /**
   The head guard. If the head has moved on, the call does not return, and it changes nothing:
   not the record, not what was ever posted, and on GitHub only what outsiders delete meanwhile
   is gone.
   */
  lemma HeadGuardStops(w: World, fs: seq<Finding>, script: seq<Await>)
    requires Covers(w.durable.rows, fs)
    ensures var (after, returned) := Publish(w, fs, false, script);
            && !returned && after.durable == w.durable
            && after.ledger.posted == w.ledger.posted && after.ledger.reviewsPosted == w.ledger.reviewsPosted
            && after.ledger.lost == w.ledger.lost && after.ledger.lostReviews == w.ledger.lostReviews
            && after.remote.nextId == w.remote.nextId
            && after.remote.comments == w.remote.comments - (if script == [] then {} else script[0].comments)
            && after.remote.reviews == w.remote.reviews - (if script == [] then {} else script[0].reviews)
  {
  }

  /** Step 3 of `publish_review`: the review, created, updated or recreated. */
  method EnsureGitHubReview(start: Session) returns (s: Session)
    ensures s == EnsureReview(start)
    ensures s.row.rows == start.row.rows && (s.alive ==> s.row.reviewId.Some?)
  {
    s := start;
    var id, found;
    if s.row.reviewId.None? {
      s, id := CreateReview(s).0, CreateReview(s).1;
      if s.alive {
        s := NoteReview(s, id);
        s := Flush(s, {}, {id});
      }
    } else {
      s, found := UpdateReview(s, s.row.reviewId.value).0, UpdateReview(s, s.row.reviewId.value).1;
      if s.alive && !found {
        s, id := CreateReview(s).0, CreateReview(s).1;
        if s.alive {
          s := NoteReview(s, id);
          s := s.(localIds := map[]);
          s := Flush(s, {}, {id});
        }
      }
    }
  }

  /** The loop body of step 4: one publishable finding. */
  method PublishFinding(start: Session, f: Finding) returns (s: Session)
    requires f.id in start.row.rows
    ensures s == PublishOne(start, f)
    ensures s.alive ==> f.id in s.row.rows && s.row.rows[f.id].published
    ensures forall g :: g in start.row.rows && g != f.id ==> g in s.row.rows && s.row.rows[g] == start.row.rows[g]
  {
    PublishOneRows(start, f);
    s := start;
    var id, found;
    var existing := Existing(s, f);
    if existing.None? {
      s, id := CreateComment(s, f).0, CreateComment(s, f).1;
      if s.alive {
        s := NoteComment(s, f, id, true);
        s := Flush(s, {id}, {});
      }
    } else {
      s, found := UpdateComment(s, existing.value, f).0, UpdateComment(s, existing.value, f).1;
      if s.alive && !found {
        s, id := CreateComment(s, f).0, CreateComment(s, f).1;
        if s.alive {
          s := NoteComment(s, f, id, s.row.rows[f.id].published);
          s := Flush(s, {id}, {});
        }
      }
      if s.alive {
        s := MarkPublished(s, f);
      }
    }
  }

  /** `publish_review`: the head guard, the review, the loop over findings, the final state. */
  method PublishReview(w: World, fs: seq<Finding>, headMatches: bool, script: seq<Await>)
    returns (after: World, returned: bool)
    requires Covers(w.durable.rows, fs)
    ensures (after, returned) == Publish(w, fs, headMatches, script)
    ensures !headMatches ==> !returned && after.durable == w.durable && after.ledger.posted == w.ledger.posted
                             && after.ledger.reviewsPosted == w.ledger.reviewsPosted
  {
    HeadGuardStops(w, fs, script);
    hide EnsureReview, PublishOne, Flush, NextFate, Crash, Begin;
    EnsureReviewKeepsRows(Begin(Open(w, script)));
    BeginKeepsRow(Open(w, script));
    var s := Open(w, script);
    var fate := NextFate(s);
    s := Begin(s);
    if fate != Done {
      return Crash(s, {}, {}).world, false;
    }
    if !headMatches {
      return s.world, false;
    }
    s := EnsureGitHubReview(s);
    ghost var start := s;
    var k := 0;
    assert fs[0..] == fs;
    while k < |fs| && s.alive
      invariant 0 <= k <= |fs| && Covers(s.row.rows, fs) && Covers(s.row.rows, fs[k..])
      invariant PublishAll(s, fs[k..]) == PublishAll(start, fs)
    {
      var f := fs[k];
      assert fs[k..][1..] == fs[k + 1..];
      if f.publishable {
        s := PublishFinding(s, f);
      }
      k := k + 1;
    }
    assert s == PublishAll(start, fs);
    if !s.alive {
      return s.world, false;
    }
    s := s.(row := s.row.(commentIds := s.localIds));
    s := Flush(s, {}, {});
    return s.world, s.alive;
  }
}
