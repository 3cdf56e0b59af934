/**
 The shared cache under interleaving: several checks run at once, heads are pushed to at any
 time, and every verdict is still about a commit that was the head recently.
 */
module ShaGuardCoherence {

  import opened Wrappers
  import opened ShaGuard

  /** A point of a run: the number of actions before it, and the time. */
  datatype Instant = Instant(step: nat, time: real)

  /** A request that was answered: the check that made it, and when it was sent and its response received. */
  datatype Request = Request(call: nat, sent: Instant, received: Instant)

  /** What a verdict rests on: a commit and the request that read it. */
  datatype Basis = Basis(sha: Sha, request: Request)

  datatype Stage =
    | Waiting
    | Replied(outcome: Outcome)
    | Sleeping
    | Answered(result: GuardResult, at: Instant, basis: Option<Basis>)

  /** A running check: the entry it found, when it began, when its current request was sent, which attempt it is on. */
  datatype Call = Call(pr: PrRef, exit: bool, stale: Option<CacheEntry>, begun: Instant, sent: Instant, attempt: nat, stage: Stage)

  /** The server reads a head while it handles a request of a check. */
  datatype Observation = Observation(call: nat, key: PrKey, sha: Sha, at: Instant)

  /**
   The process and the server. source notes the request behind each cache entry; issued notes
   the commit that each etag stands for.
   */
  datatype World = World(steps: nat, now: real, heads: map<PrKey, Sha>, issued: map<(PrKey, Etag), Sha>,
                         observed: seq<Observation>, cache: Cache, source: map<PrKey, Request>, calls: seq<Call>)
  {
    function Here(): Instant {
      Instant(steps, now)
    }
  }

  const START := World(0, 0.0, map[], map[], [], map[], map[], [])

  /** What the server may answer: the head with an etag, "not modified", or some error status. */
  datatype ServerReply = Head(etag: Option<Etag>) | NotModified | Refused(status: nat)

  datatype Action =
    | Push(key: PrKey, sha: Sha)
    | Tick(time: real)
    | Check(pr: PrRef)
    | ExitCheck(pr: PrRef)
    | Serve(call: nat, reply: ServerReply)
    | Drop(call: nat)
    | Receive(call: nat)
    | Resume(call: nat)

  predicate InStage(w: World, id: nat, stage: Stage) {
    id < |w.calls| && w.calls[id].stage == stage
  }

  /** An etag determines the commit, and 304 is answered only for the current one. */
  predicate MayReply(w: World, c: Call, reply: ServerReply) {
    match reply
    case Head(etag) =>
      && c.pr.key in w.heads
      && (etag.Some? && (c.pr.key, etag.value) in w.issued ==> w.issued[(c.pr.key, etag.value)] == w.heads[c.pr.key])
    case NotModified =>
      && c.pr.key in w.heads && SentEtag(c.stale).Some?
      && (c.pr.key, SentEtag(c.stale).value) in w.issued
      && w.issued[(c.pr.key, SentEtag(c.stale).value)] == w.heads[c.pr.key]
    case Refused(status) => status != 200 && status != 304
  }

  predicate Enabled(w: World, a: Action) {
    match a
    case Push(_, _) => true
    case Tick(time) => time >= 0.0
    case Check(_) => true
    case ExitCheck(_) => true
    case Serve(id, reply) => InStage(w, id, Waiting) && MayReply(w, w.calls[id], reply)
    case Drop(id) => InStage(w, id, Waiting)
    case Receive(id) => id < |w.calls| && w.calls[id].stage.Replied?
    case Resume(id) => InStage(w, id, Sleeping)
  }

  function SetCall(w: World, id: nat, c: Call): World
    requires id < |w.calls|
  {
    w.(calls := w.calls[id := c])
  }

  /** A check up to its first await: answered from a fresh entry, or a request is sent. */
  function BeginCheck(w: World, pr: PrRef, exit: bool): World {
    var entry := Lookup(w.cache, pr.key);
    var stage :=
      if entry.Some? && IsFresh(entry.value, w.now) then
        Answered(Verdict(entry.value.sha, pr.expected), w.Here(),
                 if pr.key in w.source then Some(Basis(entry.value.sha, w.source[pr.key])) else None)
      else Waiting;
    w.(calls := w.calls + [Call(pr, exit, entry, w.Here(), w.Here(), 0, stage)])
  }

  /** `_evict_cached` runs in the same step as the start of the check. */
  function Evict(w: World, key: PrKey): World {
    w.(cache := w.cache - {key}, source := w.source - {key})
  }

  /** The server reads the head and replies. */
  function ServeCall(w: World, id: nat, reply: ServerReply): World
    requires InStage(w, id, Waiting) && MayReply(w, w.calls[id], reply)
  {
    var c := w.calls[id];
    match reply
    case Head(etag) =>
      var sha := w.heads[c.pr.key];
      SetCall(w, id, c.(stage := Replied(Response(200, sha, etag))))
      .(observed := w.observed + [Observation(id, c.pr.key, sha, w.Here())],
        issued := if etag.Some? then w.issued[(c.pr.key, etag.value) := sha] else w.issued)
    case NotModified =>
      SetCall(w, id, c.(stage := Replied(Response(304, "", None))))
      .(observed := w.observed + [Observation(id, c.pr.key, w.heads[c.pr.key], w.Here())])
    case Refused(status) =>
      SetCall(w, id, c.(stage := Replied(Response(status, "", None))))
  }

  /** From a response to the next await or the answer. */
  function ReceiveReply(w: World, id: nat): World
    requires id < |w.calls| && w.calls[id].stage.Replied?
  {
    var c := w.calls[id];
    var o := c.stage.outcome;
    var entry := Refresh(o, c.stale, w.now);
    var request := Request(id, c.sent, w.Here());
    var stage :=
      match Decide(o, c.stale, c.pr.expected)
      case Some(r) => Answered(r, w.Here(), if entry.Some? then Some(Basis(entry.value.sha, request)) else None)
      case None => if c.attempt + 1 < MAX_RETRIES then Sleeping else Answered(ApiError, w.Here(), None);
    SetCall(w, id, c.(stage := stage))
    .(cache := Store(w.cache, c.pr.key, entry),
      source := if entry.Some? then w.source[c.pr.key := request] else w.source)
  }

  function Step(w: World, a: Action): World
    requires Enabled(w, a)
  {
    match a
    case Push(key, sha) => w.(heads := w.heads[key := sha])
    case Tick(time) => w.(now := w.now + time)
    case Check(pr) => BeginCheck(w, pr, false)
    case ExitCheck(pr) => BeginCheck(Evict(w, pr.key), pr, true)
    case Serve(id, reply) => ServeCall(w, id, reply)
    case Drop(id) => SetCall(w, id, w.calls[id].(stage := Replied(NetworkError)))
    case Receive(id) => ReceiveReply(w, id)
    case Resume(id) => SetCall(w, id, w.calls[id].(stage := Waiting, sent := w.Here(), attempt := w.calls[id].attempt + 1))
  }

  /** One action of a run; an action that is not enabled does not happen. */
  function Next(w: World, a: Action): World {
    var v := if Enabled(w, a) then Step(w, a) else w;
    v.(steps := w.steps + 1)
  }

  function Run(actions: seq<Action>): World {
    if actions == [] then START else Next(Run(actions[..|actions| - 1]), actions[|actions| - 1])
  }

  /** How a check starts, on the fields: from an entry younger than five seconds it answers, otherwise it asks. */
  lemma BeginCheckIff(w: World, pr: PrRef, exit: bool)
    ensures var v := BeginCheck(w, pr, exit);
            && |v.calls| == |w.calls| + 1 && v.cache == w.cache
            && var stage := v.calls[|w.calls|].stage;
               if pr.key in w.cache && w.now - w.cache[pr.key].fetchedAt < 5.0
               then stage.Answered? && stage.result == (if w.cache[pr.key].sha == pr.expected then Current else Stale)
               else stage == Waiting
  {
  }

  /** How a check goes on after a reply, by statuses. */
  lemma ReceiveReplyIff(w: World, id: nat)
    requires id < |w.calls| && w.calls[id].stage.Replied?
    ensures var c, v := w.calls[id], ReceiveReply(w, id);
            var o, stage := c.stage.outcome, v.calls[id].stage;
            if o.Response? && (o.status == 200 || (o.status == 304 && c.stale.Some?)) then
              var sha, etag := if o.status == 200 then o.sha else c.stale.value.sha, if o.status == 200 then o.etag else c.stale.value.etag;
              && stage.Answered? && stage.result == (if sha == c.pr.expected then Current else Stale)
              && v.cache == w.cache[c.pr.key := CacheEntry(sha, w.now, etag)]
            else
              && v.cache == w.cache
              && if (o.NetworkError? || o.status >= 500) && c.attempt < 2 then stage == Sleeping
                 else stage.Answered? && stage.result == ApiError
  {
  }

  // ----- the invariant -----

  predicate Before(a: Instant, b: Instant) {
    a.step <= b.step && a.time <= b.time
  }

  /** Handling a request of the check, the server saw the commit as the head within the interval. */
  predicate SeenWithin(observed: seq<Observation>, call: nat, key: PrKey, sha: Sha, from: Instant, to: Instant) {
    exists i :: 0 <= i < |observed| && IsSighting(observed[i], call, key, sha, from, to)
  }

  predicate IsSighting(o: Observation, call: nat, key: PrKey, sha: Sha, from: Instant, to: Instant) {
    o.call == call && o.key == key && o.sha == sha && Before(from, o.at) && Before(o.at, to)
  }

  predicate SeenBy(observed: seq<Observation>, key: PrKey, sha: Sha, q: Request) {
    SeenWithin(observed, q.call, key, sha, q.sent, q.received)
  }

  /** The etag an entry would send stands for the entry's commit. */
  predicate EtagOk(w: World, key: PrKey, entry: CacheEntry) {
    SentEtag(Some(entry)).Some? ==>
      (key, entry.etag.value) in w.issued && w.issued[(key, entry.etag.value)] == entry.sha
  }

  predicate EntriesOk(w: World) {
    forall key :: key in w.cache ==>
      && key in w.source && Before(w.source[key].received, w.Here()) && EtagOk(w, key, w.cache[key])
      && w.cache[key].fetchedAt == w.source[key].received.time
      && SeenBy(w.observed, key, w.cache[key].sha, w.source[key])
  }

  predicate CallOk(w: World, id: nat, c: Call) {
    && Before(c.begun, c.sent) && Before(c.sent, w.Here())
    && (c.exit ==> c.stale.None?)
    && (c.stale.Some? ==> EtagOk(w, c.pr.key, c.stale.value))
    && match c.stage
       case Waiting => true
       case Sleeping => true
       case Replied(NetworkError) => true
       case Replied(Response(status, sha, etag)) =>
         && (status == 200 ==>
               && SeenWithin(w.observed, id, c.pr.key, sha, c.sent, w.Here())
               && (etag.Some? ==> (c.pr.key, etag.value) in w.issued && w.issued[(c.pr.key, etag.value)] == sha))
         && (status == 304 ==>
               c.stale.Some? && SeenWithin(w.observed, id, c.pr.key, c.stale.value.sha, c.sent, w.Here()))
       case Answered(result, at, basis) =>
         result != ApiError ==>
           && basis.Some? && result == Verdict(basis.value.sha, c.pr.expected)
           && SeenBy(w.observed, c.pr.key, basis.value.sha, basis.value.request)
           && Before(basis.value.request.received, at) && at.time - basis.value.request.received.time < SHA_CACHE_TTL
           && (c.exit ==> basis.value.request.call == id && Before(c.begun, basis.value.request.sent))
  }

  predicate Coherent(w: World) {
    && EntriesOk(w)
    && forall id :: 0 <= id < |w.calls| ==> CallOk(w, id, w.calls[id])
  }

  /** The world only learns: what was seen stays seen, etags keep their meaning, time does not go back. */
  predicate Learns(w: World, v: World) {
    && Before(w.Here(), v.Here()) && w.observed <= v.observed
    && forall e :: e in w.issued ==> e in v.issued && v.issued[e] == w.issued[e]
  }

  lemma SeenStaysSeen(a: seq<Observation>, b: seq<Observation>, call: nat, key: PrKey, sha: Sha, from: Instant, to: Instant, later: Instant)
    requires a <= b && SeenWithin(a, call, key, sha, from, to) && Before(to, later)
    ensures SeenWithin(b, call, key, sha, from, later)
  {
    var i :| 0 <= i < |a| && IsSighting(a[i], call, key, sha, from, to);
    assert IsSighting(b[i], call, key, sha, from, later);
  }

  lemma CallStaysOk(w: World, v: World, id: nat, c: Call)
    requires CallOk(w, id, c) && Learns(w, v)
    ensures CallOk(v, id, c)
  {
    hide SeenWithin;
    match c.stage
    case Replied(Response(status, sha, _)) =>
      if status == 200 {
        SeenStaysSeen(w.observed, v.observed, id, c.pr.key, sha, c.sent, w.Here(), v.Here());
      } else if status == 304 {
        SeenStaysSeen(w.observed, v.observed, id, c.pr.key, c.stale.value.sha, c.sent, w.Here(), v.Here());
      }
    case Answered(result, at, basis) =>
      if result != ApiError {
        var q := basis.value.request;
        SeenStaysSeen(w.observed, v.observed, q.call, c.pr.key, basis.value.sha, q.sent, q.received, q.received);
      }
    case _ =>
  }

  lemma EntriesStayOk(w: World, v: World)
    requires EntriesOk(w) && Learns(w, v) && v.cache == w.cache && v.source == w.source
    ensures EntriesOk(v)
  {
    hide SeenWithin;
    forall key | key in v.cache ensures SeenBy(v.observed, key, v.cache[key].sha, v.source[key]) {
      var q := v.source[key];
      SeenStaysSeen(w.observed, v.observed, q.call, key, v.cache[key].sha, q.sent, q.received, q.received);
    }
  }

  /** If only one call changes, and changes well, all calls stay well. */
  lemma OneCallChanges(w: World, v: World, id: nat)
    requires Coherent(w) && Learns(w, v) && id < |v.calls|
    requires forall k :: 0 <= k < |v.calls| && k != id ==> k < |w.calls| && v.calls[k] == w.calls[k]
    requires CallOk(v, id, v.calls[id])
    ensures forall k :: 0 <= k < |v.calls| ==> CallOk(v, k, v.calls[k])
  {
    hide CallOk;
    forall k | 0 <= k < |v.calls| ensures CallOk(v, k, v.calls[k]) {
      var c := v.calls[k];
      if k != id {
        assert k < |w.calls| && c == w.calls[k];
        CallStaysOk(w, v, k, c);
      }
    }
  }

  lemma BeginCheckKeeps(w: World, pr: PrRef, exit: bool)
    requires Coherent(w) && (exit ==> pr.key !in w.cache)
    ensures Coherent(BeginCheck(w, pr, exit))
  {
    hide SeenWithin;
    var v := BeginCheck(w, pr, exit);
    EntriesStayOk(w, v);
    OneCallChanges(w, v, |w.calls|);
  }

  lemma EvictKeeps(w: World, key: PrKey)
    requires Coherent(w)
    ensures Coherent(Evict(w, key))
  {
    hide SeenWithin;
    var v := Evict(w, key);
    forall id | 0 <= id < |v.calls| ensures CallOk(v, id, v.calls[id]) {
      CallStaysOk(w, v, id, w.calls[id]);
    }
  }

  lemma ServeKeeps(w: World, id: nat, reply: ServerReply)
    requires Coherent(w) && InStage(w, id, Waiting) && MayReply(w, w.calls[id], reply)
    ensures Coherent(ServeCall(w, id, reply))
  {
    var v := ServeCall(w, id, reply);
    var c := w.calls[id];
    assert CallOk(w, id, c);
    if !reply.Refused? {
      assert IsSighting(v.observed[|w.observed|], id, c.pr.key, w.heads[c.pr.key], c.sent, v.Here());
    }
    hide SeenWithin;
    EntriesStayOk(w, v);
    OneCallChanges(w, v, id);
  }

  lemma ReceiveKeeps(w: World, id: nat)
    requires Coherent(w) && id < |w.calls| && w.calls[id].stage.Replied?
    ensures Coherent(ReceiveReply(w, id))
  {
    hide SeenWithin;
    var v := ReceiveReply(w, id);
    assert CallOk(w, id, w.calls[id]);
    OneCallChanges(w, v, id);
  }

  lemma StepKeeps(w: World, a: Action)
    requires Coherent(w) && Enabled(w, a)
    ensures Coherent(Step(w, a))
  {
    hide EntriesOk, CallOk;
    match a
    case Check(pr) => BeginCheckKeeps(w, pr, false);
    case ExitCheck(pr) =>
      EvictKeeps(w, pr.key);
      BeginCheckKeeps(Evict(w, pr.key), pr, true);
    case Serve(id, reply) => ServeKeeps(w, id, reply);
    case Receive(id) => ReceiveKeeps(w, id);
    case Drop(id) => QuietStepKeeps(w, a);
    case Resume(id) => QuietStepKeeps(w, a);
    case Push(_, _) => QuietStepKeeps(w, a);
    case Tick(_) => QuietStepKeeps(w, a);
  }

  lemma QuietStepKeeps(w: World, a: Action)
    requires Coherent(w) && Enabled(w, a) && (a.Drop? || a.Resume? || a.Push? || a.Tick?)
    ensures Coherent(Step(w, a))
  {
    hide SeenWithin;
    var v := Step(w, a);
    EntriesStayOk(w, v);
    forall id | 0 <= id < |v.calls| ensures CallOk(v, id, v.calls[id]) {
      assert CallOk(w, id, w.calls[id]);
      CallStaysOk(w, v, id, w.calls[id]);
    }
  }

  lemma CountKeeps(w: World, steps: nat)
    requires Coherent(w) && w.steps <= steps
    ensures Coherent(w.(steps := steps))
  {
    hide SeenWithin;
    var v := w.(steps := steps);
    EntriesStayOk(w, v);
    forall id | 0 <= id < |v.calls| ensures CallOk(v, id, v.calls[id]) {
      CallStaysOk(w, v, id, w.calls[id]);
    }
  }

  lemma StepCounts(w: World, a: Action)
    requires Enabled(w, a)
    ensures Step(w, a).steps == w.steps
  {
  }

  lemma {:induction false} RunIsCoherent(actions: seq<Action>)
    ensures Coherent(Run(actions))
  {
    hide Coherent, Step, Enabled;
    if actions == [] {
      StartIsCoherent();
    } else {
      var w, a := Run(actions[..|actions| - 1]), actions[|actions| - 1];
      RunIsCoherent(actions[..|actions| - 1]);
      if Enabled(w, a) {
        StepKeeps(w, a);
        StepCounts(w, a);
        CountKeeps(Step(w, a), w.steps + 1);
      } else {
        CountKeeps(w, w.steps + 1);
      }
    }
  }

  lemma StartIsCoherent()
    ensures Coherent(START)
  {
  }

  // ----- what the bookkeeping means in the run -----

  /** After the first n actions the commit was the head of the pull request. */
  predicate HeadAfter(actions: seq<Action>, n: nat, key: PrKey, sha: Sha) {
    n <= |actions| && key in Run(actions[..n]).heads && Run(actions[..n]).heads[key] == sha
  }

  predicate Happens(actions: seq<Action>, n: nat) {
    n < |actions| && Enabled(Run(actions[..n]), actions[n])
  }

  /** Action n starts the check. */
  predicate Begins(actions: seq<Action>, n: nat, id: nat) {
    Happens(actions, n) && (actions[n].Check? || actions[n].ExitCheck?) && id == |Run(actions[..n]).calls|
  }

  /** Action n sends a request of the check: its first one, or another one after a sleep. */
  predicate Sends(actions: seq<Action>, n: nat, id: nat) {
    Begins(actions, n, id) || (Happens(actions, n) && actions[n] == Resume(id))
  }

  predicate Serves(actions: seq<Action>, n: nat, id: nat) {
    Happens(actions, n) && actions[n].Serve? && actions[n].call == id
  }

  predicate Receives(actions: seq<Action>, n: nat, id: nat) {
    Happens(actions, n) && actions[n] == Receive(id)
  }

  /** The time at an instant of the run. */
  predicate IsInstant(actions: seq<Action>, i: Instant) {
    i.step < |actions| && Run(actions[..i.step]).now == i.time
  }

  predicate NoSend(actions: seq<Action>, id: nat, from: nat, to: nat) {
    forall n :: from < n < to ==> !Sends(actions, n, id)
  }

  /** The request was sent and its response received at these instants of the run. */
  predicate RequestIsTrue(actions: seq<Action>, q: Request) {
    && IsInstant(actions, q.sent) && IsInstant(actions, q.received)
    && Sends(actions, q.sent.step, q.call) && Receives(actions, q.received.step, q.call)
    && NoSend(actions, q.call, q.sent.step, q.received.step)
  }

  predicate ObservationIsTrue(actions: seq<Action>, o: Observation) {
    && IsInstant(actions, o.at) && Serves(actions, o.at.step, o.call) && HeadAfter(actions, o.at.step, o.key, o.sha)
    && o.call < |Run(actions).calls| && Run(actions).calls[o.call].pr.key == o.key
  }

  predicate CallIsTrue(actions: seq<Action>, id: nat, c: Call) {
    && IsInstant(actions, c.begun) && Begins(actions, c.begun.step, id)
    && (actions[c.begun.step] == if c.exit then ExitCheck(c.pr) else Check(c.pr))
    && IsInstant(actions, c.sent) && Sends(actions, c.sent.step, id) && NoSend(actions, id, c.sent.step, |actions|)
    && (c.stage.Answered? ==>
          IsInstant(actions, c.stage.at) && (c.stage.basis.Some? ==> RequestIsTrue(actions, c.stage.basis.value.request)))
  }

  predicate BookkeepingIsTrue(actions: seq<Action>) {
    var w := Run(actions);
    && w.steps == |actions|
    && (forall o :: o in w.observed ==> ObservationIsTrue(actions, o))
    && (forall key :: key in w.source ==> RequestIsTrue(actions, w.source[key]))
    && (forall id :: 0 <= id < |w.calls| ==> CallIsTrue(actions, id, w.calls[id]))
  }

  /** One more action changes nothing about the actions before it. */
  lemma SamePast(actions: seq<Action>, a: Action, n: nat)
    requires n <= |actions|
    ensures (actions + [a])[..n] == actions[..n]
    ensures n < |actions| ==> (actions + [a])[n] == actions[n]
  {
  }

  lemma SendsStays(actions: seq<Action>, a: Action, n: nat, id: nat)
    requires n < |actions|
    ensures Sends(actions + [a], n, id) <==> Sends(actions, n, id)
    ensures Begins(actions + [a], n, id) <==> Begins(actions, n, id)
  {
    SamePast(actions, a, n);
  }

  lemma InstantStays(actions: seq<Action>, a: Action, i: Instant)
    requires IsInstant(actions, i)
    ensures IsInstant(actions + [a], i)
  {
    SamePast(actions, a, i.step);
  }

  lemma NoSendStays(actions: seq<Action>, a: Action, id: nat, from: nat, to: nat)
    requires NoSend(actions, id, from, to) && to <= |actions|
    ensures NoSend(actions + [a], id, from, to)
  {
    forall n | from < n < to ensures !Sends(actions + [a], n, id) {
      SendsStays(actions, a, n, id);
    }
  }

  lemma RequestStaysTrue(actions: seq<Action>, a: Action, q: Request)
    requires RequestIsTrue(actions, q)
    ensures RequestIsTrue(actions + [a], q)
  {
    hide Run, Sends, NoSend, Enabled;
    InstantStays(actions, a, q.sent);
    InstantStays(actions, a, q.received);
    SendsStays(actions, a, q.sent.step, q.call);
    SamePast(actions, a, q.received.step);
    NoSendStays(actions, a, q.call, q.sent.step, q.received.step);
  }

  /** The last action of a run is taken in the world before it. */
  lemma LastAction(actions: seq<Action>, a: Action)
    ensures Run(actions + [a]) == Next(Run(actions), a)
    ensures (actions + [a])[..|actions|] == actions && (actions + [a])[|actions|] == a
  {
    assert (actions + [a])[..|actions|] == actions;
  }

  /** Observations stay, and calls stay with their pull requests. */
  predicate Grows(w: World, v: World) {
    && w.observed <= v.observed && |w.calls| <= |v.calls|
    && forall id :: 0 <= id < |w.calls| ==> v.calls[id].pr == w.calls[id].pr
  }

  lemma ServeGrows(w: World, id: nat, reply: ServerReply)
    requires InStage(w, id, Waiting) && MayReply(w, w.calls[id], reply)
    ensures Grows(w, ServeCall(w, id, reply))
  {
  }

  lemma ReceiveGrows(w: World, id: nat)
    requires id < |w.calls| && w.calls[id].stage.Replied?
    ensures Grows(w, ReceiveReply(w, id))
  {
  }

  lemma NextGrows(w: World, a: Action)
    ensures Grows(w, Next(w, a))
  {
    hide MayReply, Decide, Refresh, IsFresh, Lookup, Store, SentEtag;
    match a
    case Check(pr) =>
    case ExitCheck(pr) =>
    case Serve(id, reply) => if Enabled(w, a) { ServeGrows(w, id, reply); }
    case Receive(id) => if Enabled(w, a) { ReceiveGrows(w, id); }
    case Drop(id) =>
    case Resume(id) =>
    case Push(_, _) =>
    case Tick(_) =>
  }

  lemma NextObserved(actions: seq<Action>, a: Action, o: Observation)
    requires BookkeepingIsTrue(actions) && o in Next(Run(actions), a).observed
    ensures ObservationIsTrue(actions + [a], o)
  {
    hide Run, Enabled, MayReply, RequestIsTrue, CallIsTrue;
    var w := Run(actions);
    LastAction(actions, a);
    NextGrows(w, a);
    if o in w.observed {
      InstantStays(actions, a, o.at);
      SamePast(actions, a, o.at.step);
    } else {
      NewObservation(w, a, o);
    }
  }

  lemma NewObservation(w: World, a: Action, o: Observation)
    requires o in Next(w, a).observed && o !in w.observed
    ensures a.Serve? && Enabled(w, a) && o.call == a.call < |w.calls| && o.at == w.Here()
    ensures o.key == w.calls[o.call].pr.key && o.key in w.heads && o.sha == w.heads[o.key]
  {
  }

  /** A new request is one whose response has just been received. */
  predicate JustReceived(w: World, a: Action, q: Request) {
    && a == Receive(q.call) && Enabled(w, a)
    && q.sent == w.calls[q.call].sent && q.received == w.Here()
  }

  lemma NextSource(w: World, a: Action, key: PrKey)
    requires key in Next(w, a).source
    ensures var q := Next(w, a).source[key]; (key in w.source && q == w.source[key]) || JustReceived(w, a, q)
  {
  }

  lemma ReceivedIsTrue(actions: seq<Action>, a: Action, q: Request)
    requires BookkeepingIsTrue(actions) && JustReceived(Run(actions), a, q)
    ensures RequestIsTrue(actions + [a], q)
  {
    hide Run, Sends, NoSend, Begins;
    var w := Run(actions);
    LastAction(actions, a);
    assert CallIsTrue(actions, q.call, w.calls[q.call]);
    InstantStays(actions, a, q.sent);
    SendsStays(actions, a, q.sent.step, q.call);
    NoSendStays(actions, a, q.call, q.sent.step, |actions|);
  }

  /** How a check can change in one step, or come into being. */
  predicate CallStep(w: World, a: Action, id: nat, c: Call) {
    if id == |w.calls| then
      && Enabled(w, a) && (a == if c.exit then ExitCheck(c.pr) else Check(c.pr))
      && c.begun == w.Here() && c.sent == w.Here()
      && (c.stage.Answered? ==> c.stage.at == w.Here())
      && (c.stage.Answered? && c.stage.basis.Some? ==> c.pr.key in w.source && c.stage.basis.value.request == w.source[c.pr.key])
    else
      && id < |w.calls| && c.begun == w.calls[id].begun && c.exit == w.calls[id].exit && c.pr == w.calls[id].pr
      && (if Enabled(w, a) && a == Resume(id) then c.sent == w.Here() && c.stage.Waiting? else c.sent == w.calls[id].sent)
      && (c.stage.Answered? ==>
            || c.stage == w.calls[id].stage
            || (c.stage.at == w.Here() && (c.stage.basis.Some? ==> JustReceived(w, a, c.stage.basis.value.request))))
  }

  lemma BeginCall(w: World, a: Action, id: nat)
    requires a.Check? || a.ExitCheck?
    requires id < |Step(w, a).calls|
    ensures CallStep(w, a, id, Step(w, a).calls[id])
  {
    hide IsFresh, Verdict;
  }

  lemma ServedCall(w: World, a: Action, id: nat)
    requires a.Serve? && Enabled(w, a)
    requires id < |Step(w, a).calls|
    ensures CallStep(w, a, id, Step(w, a).calls[id])
  {
    hide MayReply, SentEtag, JustReceived;
    assert id != a.call ==> Step(w, a).calls[id] == w.calls[id];
  }

  lemma QuietCall(w: World, a: Action, id: nat)
    requires (a.Drop? || a.Push? || a.Tick?) && Enabled(w, a)
    requires id < |Step(w, a).calls|
    ensures CallStep(w, a, id, Step(w, a).calls[id])
  {
    hide JustReceived;
  }

  lemma ReceivedCall(w: World, a: Action, id: nat)
    requires (a.Receive? || a.Resume?) && Enabled(w, a)
    requires id < |Step(w, a).calls|
    ensures CallStep(w, a, id, Step(w, a).calls[id])
  {
    hide Decide, Refresh, Store;
  }

  lemma NextCall(w: World, a: Action, id: nat)
    requires id < |Next(w, a).calls|
    ensures CallStep(w, a, id, Next(w, a).calls[id])
  {
    if !Enabled(w, a) {
      hide Enabled, JustReceived;
    } else {
      hide Enabled, Step, CallStep;
      match a
      case Check(_) => BeginCall(w, a, id);
      case ExitCheck(_) => BeginCall(w, a, id);
      case Receive(_) => ReceivedCall(w, a, id);
      case Resume(_) => ReceivedCall(w, a, id);
      case Serve(_, _) => ServedCall(w, a, id);
      case _ => QuietCall(w, a, id);
    }
  }

  lemma NextCallIsTrue(actions: seq<Action>, a: Action, id: nat)
    requires BookkeepingIsTrue(actions) && id < |Next(Run(actions), a).calls|
    ensures CallIsTrue(actions + [a], id, Next(Run(actions), a).calls[id])
  {
    hide Run, Step, NoSend;
    var w, more := Run(actions), actions + [a];
    var c := Next(w, a).calls[id];
    LastAction(actions, a);
    NextCall(w, a, id);
    if id == |w.calls| {
      assert NoSend(more, id, c.sent.step, |more|) by { NothingBetween(more, id, |actions|); }
      if c.stage.Answered? && c.stage.basis.Some? {
        RequestStaysTrue(actions, a, w.source[c.pr.key]);
      }
    } else {
      var was := w.calls[id];
      assert CallIsTrue(actions, id, was);
      InstantStays(actions, a, c.begun);
      SendsStays(actions, a, c.begun.step, id);
      NextSentIsTrue(actions, a, id, was, c);
      if c.stage.Answered? {
        NextAnswerIsTrue(actions, a, id, was, c);
      }
    }
  }

  lemma NothingBetween(actions: seq<Action>, id: nat, n: nat)
    requires n + 1 == |actions|
    ensures NoSend(actions, id, n, |actions|)
  {
  }

  lemma NextSentIsTrue(actions: seq<Action>, a: Action, id: nat, was: Call, c: Call)
    requires CallIsTrue(actions, id, was) && CallStep(Run(actions), a, id, c)
    requires Run(actions).steps == |actions| && id < |Run(actions).calls| && was == Run(actions).calls[id]
    ensures var more := actions + [a];
            IsInstant(more, c.sent) && Sends(more, c.sent.step, id) && NoSend(more, id, c.sent.step, |more|)
  {
    hide Run, Step, Enabled;
    var w, more := Run(actions), actions + [a];
    LastAction(actions, a);
    if Enabled(w, a) && a == Resume(id) {
      NothingBetween(more, id, |actions|);
    } else {
      InstantStays(actions, a, c.sent);
      SendsStays(actions, a, c.sent.step, id);
      NoSendStays(actions, a, id, c.sent.step, |actions|);
      assert !Sends(more, |actions|, id);
    }
  }

  lemma NextAnswerIsTrue(actions: seq<Action>, a: Action, id: nat, was: Call, c: Call)
    requires BookkeepingIsTrue(actions) && CallIsTrue(actions, id, was) && CallStep(Run(actions), a, id, c)
    requires id < |Run(actions).calls| && was == Run(actions).calls[id] && c.stage.Answered?
    ensures IsInstant(actions + [a], c.stage.at)
    ensures c.stage.basis.Some? ==> RequestIsTrue(actions + [a], c.stage.basis.value.request)
  {
    hide Run, Step, Enabled, Sends, NoSend, Begins;
    LastAction(actions, a);
    if c.stage == was.stage {
      InstantStays(actions, a, c.stage.at);
      if c.stage.basis.Some? {
        RequestStaysTrue(actions, a, c.stage.basis.value.request);
      }
    } else if c.stage.basis.Some? {
      ReceivedIsTrue(actions, a, c.stage.basis.value.request);
    }
  }

  /** The stamps and requests a run keeps are those of its actions. */
  lemma {:induction false} RunBookkeeping(actions: seq<Action>)
    ensures BookkeepingIsTrue(actions)
  {
    if actions != [] {
      hide Run, Step, Enabled, ObservationIsTrue, RequestIsTrue, CallIsTrue;
      var prefix, a := actions[..|actions| - 1], actions[|actions| - 1];
      assert actions == prefix + [a];
      RunBookkeeping(prefix);
      var w := Run(prefix);
      LastAction(prefix, a);
      forall o | o in Run(actions).observed ensures ObservationIsTrue(actions, o) {
        NextObserved(prefix, a, o);
      }
      forall key | key in Run(actions).source ensures RequestIsTrue(actions, Run(actions).source[key]) {
        NextSource(w, a, key);
        if JustReceived(w, a, Run(actions).source[key]) {
          ReceivedIsTrue(prefix, a, Run(actions).source[key]);
        } else {
          RequestStaysTrue(prefix, a, Run(actions).source[key]);
        }
      }
      forall id | 0 <= id < |Run(actions).calls| ensures CallIsTrue(actions, id, Run(actions).calls[id]) {
        NextCallIsTrue(prefix, a, id);
      }
    }
  }

  // ----- the verdicts -----

  /**
   One request of the check read the commit: sent by action s, answered by the server in action
   v, when the commit was the head, and received by action r, with no other request between.
   */
  predicate Fetched(actions: seq<Action>, id: nat, s: nat, v: nat, r: nat, key: PrKey, sha: Sha) {
    && s < v < r < |actions|
    && Sends(actions, s, id) && Serves(actions, v, id) && Receives(actions, r, id) && NoSend(actions, id, s, r)
    && id < |Run(actions).calls| && Run(actions).calls[id].pr.key == key
    && HeadAfter(actions, v, key, sha)
  }

  /** A request of the bookkeeping behind which a commit was seen did read it. */
  lemma SeenIsFetched(actions: seq<Action>, q: Request, key: PrKey, sha: Sha) returns (v: nat)
    requires BookkeepingIsTrue(actions) && RequestIsTrue(actions, q) && SeenBy(Run(actions).observed, key, sha, q)
    ensures Fetched(actions, q.call, q.sent.step, v, q.received.step, key, sha)
    ensures q.sent.time <= Run(actions[..v]).now <= q.received.time
  {
    hide Run, Enabled, Step, NoSend, CallIsTrue;
    var observed := Run(actions).observed;
    var i :| 0 <= i < |observed| && IsSighting(observed[i], q.call, key, sha, q.sent, q.received);
    assert observed[i] in observed && ObservationIsTrue(actions, observed[i]);
    v := observed[i].at.step;
  }

  /**
   Cache coherence: over all interleavings of checks, pushes, replies, losses and delays, every
   cached commit was read as the true head by one request of some check for that pull request,
   and the entry is dated at the receipt of its response.
   */
  lemma CachedCommitsWereHeads(actions: seq<Action>, key: PrKey)
    requires key in Run(actions).cache
    ensures exists id: nat, s: nat, v: nat, r: nat :: Fetched(actions, id, s, v, r, key, Run(actions).cache[key].sha)
                             && Run(actions[..r]).now == Run(actions).cache[key].fetchedAt
  {
    RunIsCoherent(actions);
    RunBookkeeping(actions);
    hide Run, Fetched, SeenBy, RequestIsTrue;
    var w := Run(actions);
    var q := w.source[key];
    var v := SeenIsFetched(actions, q, key, w.cache[key].sha);
    RequestInstants(actions, q);
    assert Fetched(actions, q.call, q.sent.step, v, q.received.step, key, w.cache[key].sha);
  }

  lemma RequestInstants(actions: seq<Action>, q: Request)
    requires RequestIsTrue(actions, q)
    ensures IsInstant(actions, q.sent) && IsInstant(actions, q.received)
  {
  }

  /** The verdict is right about the commit that the request read, and that was recently. */
  predicate IsRecentTruth(actions: seq<Action>, c: Call, id: nat, s: nat, v: nat, r: nat, sha: Sha)
    requires c.stage.Answered?
  {
    && Fetched(actions, id, s, v, r, c.pr.key, sha)
    && (c.stage.result == Current <==> sha == c.pr.expected)
    && r <= c.stage.at.step < |actions| && Run(actions[..c.stage.at.step]).now == c.stage.at.time
    && c.stage.at.time - Run(actions[..v]).now < SHA_CACHE_TTL + (Run(actions[..r]).now - Run(actions[..s]).now)
  }

  /** The request behind a verdict. */
  lemma VerdictRequest(actions: seq<Action>, id: nat) returns (q: Request, v: nat, sha: Sha)
    requires id < |Run(actions).calls| && Run(actions).calls[id].stage.Answered?
    requires Run(actions).calls[id].stage.result != ApiError
    ensures var c := Run(actions).calls[id];
            && IsRecentTruth(actions, c, q.call, q.sent.step, v, q.received.step, sha)
            && (c.exit ==> q.call == id && c.begun.step <= q.sent.step)
  {
    RunIsCoherent(actions);
    RunBookkeeping(actions);
    hide Run, Fetched, SeenBy, RequestIsTrue, Begins, Sends, NoSend;
    var w := Run(actions);
    var c := w.calls[id];
    assert CallOk(w, id, c) && CallIsTrue(actions, id, c);
    q, sha := c.stage.basis.value.request, c.stage.basis.value.sha;
    v := SeenIsFetched(actions, q, c.pr.key, sha);
    RequestInstants(actions, q);
  }

  /**
   Every verdict is recent truth: a check that answered Current, or Stale, rests on one request,
   of its own or of an earlier check, that read the head at an instant less than the time to
   live plus the duration of that request ago; the head was then, or was not, the expected commit.
   */
  lemma VerdictsAreRecent(actions: seq<Action>, id: nat)
    requires id < |Run(actions).calls| && Run(actions).calls[id].stage.Answered?
    requires Run(actions).calls[id].stage.result != ApiError
    ensures exists j: nat, s: nat, v: nat, r: nat, sha: Sha :: IsRecentTruth(actions, Run(actions).calls[id], j, s, v, r, sha)
  {
    hide Run, IsRecentTruth;
    var q, v, sha := VerdictRequest(actions, id);
    assert IsRecentTruth(actions, Run(actions).calls[id], q.call, q.sent.step, v, q.received.step, sha);
  }

  /**
   The exit guard's verdict rests on a request of that very call, sent no earlier than the
   action that started it: no interleaving lets it answer from what an earlier request saw.
   */
  lemma ExitVerdictsAreFresh(actions: seq<Action>, id: nat)
    requires id < |Run(actions).calls| && Run(actions).calls[id].exit && Run(actions).calls[id].stage.Answered?
    requires Run(actions).calls[id].stage.result != ApiError
    ensures exists b: nat, s: nat, v: nat, r: nat, sha: Sha ::
              && Begins(actions, b, id) && actions[b] == ExitCheck(Run(actions).calls[id].pr) && b <= s
              && IsRecentTruth(actions, Run(actions).calls[id], id, s, v, r, sha)
  {
    var q, v, sha := VerdictRequest(actions, id);
    RunBookkeeping(actions);
    hide Run, IsRecentTruth, Begins, Sends, NoSend, RequestIsTrue;
    var c := Run(actions).calls[id];
    assert CallIsTrue(actions, id, c);
    assert Begins(actions, c.begun.step, id) && IsRecentTruth(actions, c, id, q.sent.step, v, q.received.step, sha);
  }
}
