/** What every interleaving of the debounce manager keeps. */
module DebounceSafety {

  import opened Debounce

  // ----- slots -----

  /** Timers: the live ones are exactly the pending ones. Slots: each holds an unfinished task that was not cancelled. */
  predicate Safe(w: World) {
    && w.pending.Keys !! w.inFlight.Keys
    && (forall k :: k in w.pending ==>
          w.pending[k] < |w.timers| && w.timers[w.pending[k]].status == Live && w.timers[w.pending[k]].key == k)
    && (forall t :: 0 <= t < |w.timers| && w.timers[t].status == Live ==>
          w.timers[t].key in w.pending && w.pending[w.timers[t].key] == t)
    && (forall k :: k in w.inFlight ==>
          w.inFlight[k] < |w.tasks| && w.tasks[w.inFlight[k]].key == k && Active(w, w.inFlight[k]))
  }

  /** Unfinished and not cancelled. */
  predicate Active(w: World, id: nat) {
    id < |w.tasks| && !w.tasks[id].cancelled && w.tasks[id].phase != Finished
  }

  /** The active task of a key is exactly the one in its slot. */
  predicate SlotsExact(w: World) {
    forall id :: 0 <= id < |w.tasks| && Active(w, id) ==>
      w.tasks[id].key in w.inFlight && w.inFlight[w.tasks[id].key] == id
  }

  /** A cancelled task unwinds while its key's slot is taken again. */
  predicate LateUnwind(w: World, a: Action) {
    && a.DoFinish? && a.task < |w.tasks| && w.tasks[a.task].phase == Running
    && w.tasks[a.task].cancelled && w.tasks[a.task].key in w.inFlight
  }

  lemma CancelPendingSafe(w: World, k: Key)
    requires Safe(w)
    ensures Safe(CancelPending(w, k)) && k !in CancelPending(w, k).pending
  {
  }

  lemma CancelInFlightSafe(w: World, k: Key)
    requires Safe(w)
    ensures Safe(CancelInFlight(w, k)) && k !in CancelInFlight(w, k).inFlight
    ensures CancelInFlight(w, k).pending == w.pending
  {
  }

  lemma AddTimerSafe(w: World, k: Key)
    requires Safe(w) && k !in w.pending && k !in w.inFlight
    ensures Safe(AddTimer(w, k))
  {
  }

  lemma FireSafe(w: World, t: nat)
    requires Safe(w) && CanFire(w, t)
    ensures Safe(Fire(w, t))
  {
  }

  lemma StartSafe(w: World, id: nat)
    requires Safe(w) && id < |w.tasks| && w.tasks[id].phase == Created
    ensures Safe(Start(w, id))
  {
  }

  lemma FinishSafe(w: World, id: nat)
    requires Safe(w) && id < |w.tasks| && w.tasks[id].phase == Running
    ensures Safe(Finish(w, id))
  {
  }

  lemma StepKeepsSafe(w: World, a: Action)
    requires Safe(w) && Enabled(w, a)
    ensures Safe(Step(w, a))
  {
    hide CancelPending, CancelInFlight, AddTimer, Fire, Start, Finish;
    match a
    case DoSchedule(k) =>
      CancelPendingSafe(w, k);
      CancelInFlightSafe(CancelPending(w, k), k);
      AddTimerSafe(CancelBoth(w, k), k);
    case DoCancel(k) =>
      CancelPendingSafe(w, k);
      CancelInFlightSafe(CancelPending(w, k), k);
    case DoFire(t) => FireSafe(w, t);
    case DoStart(id) => StartSafe(w, id);
    case DoFinish(id) => FinishSafe(w, id);
    case Tick(_) =>
  }

  /** One step keeps the slots exact unless it is a late unwinding, which always breaks them. */
  lemma StepSlotsExactIff(w: World, a: Action)
    requires Safe(w) && SlotsExact(w) && Enabled(w, a)
    ensures SlotsExact(Step(w, a)) <==> !LateUnwind(w, a)
  {
    var v := Step(w, a);
    if LateUnwind(w, a) {
      var other := w.inFlight[w.tasks[a.task].key];
      assert Active(w, other) && Active(v, other);
    } else {
      forall id: nat | Active(v, id)
        ensures v.tasks[id].key in v.inFlight && v.inFlight[v.tasks[id].key] == id
      {
        assert id < |w.tasks| ==> Active(w, id);
        if a.DoFinish? && id < |w.tasks| {
          assert w.tasks[a.task].cancelled || Active(w, a.task);
        }
      }
    }
  }

  /** In every reachable world pending and in-flight keys are disjoint and a key's only live timer is the pending one. */
  lemma {:induction false} RunIsSafe(quiet: real, actions: seq<Action>)
    ensures Safe(Run(quiet, actions))
  {
    if actions != [] {
      RunIsSafe(quiet, actions[..|actions| - 1]);
      var w := Run(quiet, actions[..|actions| - 1]);
      var a := actions[|actions| - 1];
      if Enabled(w, a) {
        StepKeepsSafe(w, a);
      }
    }
  }

  /** No action of the run is a late unwinding. */
  predicate UnwindsInTime(quiet: real, actions: seq<Action>) {
    forall n :: 0 <= n < |actions| ==> !LateUnwind(Run(quiet, actions[..n]), actions[n])
  }

  /** The slots are exact all along the run. */
  predicate ExactThroughout(quiet: real, actions: seq<Action>) {
    forall n :: 0 <= n <= |actions| ==> SlotsExact(Run(quiet, actions[..n]))
  }

  /**
   Exactly when the in-flight slots tell the truth: over a run, the active task of each key is
   always the one in its slot if and only if no cancelled task unwinds while its key's slot
   is taken again.
   */
  lemma {:induction false} SlotsExactIff(quiet: real, actions: seq<Action>)
    ensures ExactThroughout(quiet, actions) <==> UnwindsInTime(quiet, actions)
  {
    hide Run, Step, Safe, SlotsExact, LateUnwind;
    if actions == [] {
      InitialIsExact(quiet);
      assert actions[..0] == [];
    } else {
      var n := |actions| - 1;
      var prefix, a := actions[..n], actions[n];
      SlotsExactIff(quiet, prefix);
      ThroughoutPrefix(quiet, actions);
      var w := Run(quiet, prefix);
      RunIsSafe(quiet, prefix);
      RunTo(quiet, actions, n);
      assert actions[..n + 1] == actions && prefix[..n] == prefix;
      if ExactThroughout(quiet, prefix) {
        assert SlotsExact(Run(quiet, prefix[..n]));
        if Enabled(w, a) {
          StepSlotsExactIff(w, a);
        } else {
          NotEnabledNotLate(w, a);
        }
      }
    }
  }

  lemma InitialIsExact(quiet: real)
    ensures Run(quiet, []) == Initial(quiet) && SlotsExact(Initial(quiet))
  {
  }

  lemma NotEnabledNotLate(w: World, a: Action)
    requires !Enabled(w, a)
    ensures !LateUnwind(w, a)
  {
  }

  /** Both properties of a run are properties of its prefixes and of its last action. */
  lemma ThroughoutPrefix(quiet: real, actions: seq<Action>)
    requires actions != []
    ensures var prefix := actions[..|actions| - 1];
            && (ExactThroughout(quiet, actions) <==> ExactThroughout(quiet, prefix) && SlotsExact(Run(quiet, actions)))
            && (UnwindsInTime(quiet, actions) <==> UnwindsInTime(quiet, prefix) && !LateUnwind(Run(quiet, prefix), actions[|actions| - 1]))
  {
    hide Run, SlotsExact, LateUnwind;
    var n := |actions| - 1;
    var prefix := actions[..n];
    assert actions[..n + 1] == actions && prefix[..n] == prefix;
    assert forall m :: 0 <= m <= n ==> actions[..m] == prefix[..m];
    if ExactThroughout(quiet, actions) {
      assert SlotsExact(Run(quiet, actions[..n + 1]));
      forall m | 0 <= m <= n ensures SlotsExact(Run(quiet, prefix[..m])) {
        assert SlotsExact(Run(quiet, actions[..m]));
      }
    }
    if UnwindsInTime(quiet, actions) {
      assert !LateUnwind(Run(quiet, actions[..n]), actions[n]);
      forall m | 0 <= m < n ensures !LateUnwind(Run(quiet, prefix[..m]), prefix[m]) {
        assert !LateUnwind(Run(quiet, actions[..m]), actions[m]);
      }
    }
  }

  /** Then a key never has two active tasks at once. */
  lemma AtMostOneActiveTask(quiet: real, actions: seq<Action>, a: nat, b: nat)
    requires UnwindsInTime(quiet, actions)
    requires Active(Run(quiet, actions), a) && Active(Run(quiet, actions), b)
    requires Run(quiet, actions).tasks[a].key == Run(quiet, actions).tasks[b].key
    ensures a == b
  {
    SlotsExactIff(quiet, actions);
    assert actions[..|actions|] == actions;
    assert SlotsExact(Run(quiet, actions));
  }

  /**
   Any late unwinding can lead to two: the slot it removes belongs to a task that stays active,
   so the next schedule does not cancel that task and the next firing adds a second one.
   */
  lemma LateUnwindLosesATask(w: World, id: nat)
    requires Safe(w) && LateUnwind(w, DoFinish(id)) && w.quiet >= 0.0
    ensures var k := w.tasks[id].key;
            var scheduled := Schedule(Finish(w, id), k);
            var due := scheduled.(now := scheduled.now + w.quiet);
            var t := |w.timers|;
            && CanFire(due, t)
            && Active(Fire(due, t), w.inFlight[k]) && Active(Fire(due, t), |w.tasks|)
            && w.inFlight[k] < |w.tasks|
            && Fire(due, t).tasks[w.inFlight[k]].key == Fire(due, t).tasks[|w.tasks|].key == k
  {
    var k := w.tasks[id].key;
    assert k !in w.pending;
    assert CancelBoth(Finish(w, id), k) == Finish(w, id);
  }

  /** A run towards a late unwinding: a running review is superseded and its successor fires first. */
  function LateRun(k: Key): seq<Action> {
    [DoSchedule(k), DoFire(0), DoStart(0), DoSchedule(k), DoFire(1)]
  }

  function LateWorld(k: Key, n: nat): World {
    var scheduled := World(0.0, 0.0, map[k := 0], map[], [Timer(k, 0.0, Live, 0)], [], [Scheduled(k, 0, 0.0)]);
    var fired := World(0.0, 0.0, map[], map[k := 0], [Timer(k, 0.0, Fired, 0)], [Task(k, 0, false, Created, 1)],
                       scheduled.log + [TimerFired(0, 0, 0.0)]);
    var running := fired.(tasks := [Task(k, 0, false, Running, 1)], log := fired.log + [Invoked(0, 0.0)]);
    var again := World(0.0, 0.0, map[k := 1], map[], running.timers + [Timer(k, 0.0, Live, 3)],
                       [Task(k, 0, true, Running, 1)], running.log + [Scheduled(k, 1, 0.0)]);
    if n == 0 then Initial(0.0) else if n == 1 then scheduled else if n == 2 then fired
    else if n == 3 then running else again
  }

  lemma LateWorldStep(k: Key, n: nat)
    requires n < 4
    ensures Enabled(LateWorld(k, n), LateRun(k)[n])
    ensures Step(LateWorld(k, n), LateRun(k)[n]) == LateWorld(k, n + 1)
  {
    var v := Step(LateWorld(k, n), LateRun(k)[n]);
    assert v.timers == LateWorld(k, n + 1).timers;
    assert v.tasks == LateWorld(k, n + 1).tasks;
    assert v.log == LateWorld(k, n + 1).log;
    assert v.pending == LateWorld(k, n + 1).pending && v.inFlight == LateWorld(k, n + 1).inFlight;
  }

  lemma {:induction false} LateRunReaches(k: Key, n: nat)
    requires n <= 4
    ensures Run(0.0, LateRun(k)[..n]) == LateWorld(k, n)
  {
    hide LateWorld, Step;
    if n == 0 {
      RunTo(0.0, LateRun(k), 0);
      LateWorldStart(k);
    } else {
      LateRunReaches(k, n - 1);
      LateWorldStep(k, n - 1);
      RunTo(0.0, LateRun(k), n - 1);
    }
  }

  lemma LateWorldStart(k: Key)
    ensures LateWorld(k, 0) == Initial(0.0)
  {
  }

  lemma LateUnwindIsReachable(k: Key)
    ensures LateUnwind(Run(0.0, LateRun(k)), DoFinish(0))
  {
    LateRunReaches(k, 4);
    RunTo(0.0, LateRun(k), 4);
    hide Run;
    assert LateRun(k)[..5] == LateRun(k);
    var w := LateWorld(k, 4);
    assert CanFire(w, 1);
    assert Run(0.0, LateRun(k)) == Fire(w, 1);
  }

  lemma RunTo(quiet: real, actions: seq<Action>, n: nat)
    requires n < |actions|
    ensures Run(quiet, actions[..0]) == Initial(quiet)
    ensures var w := Run(quiet, actions[..n]);
            Run(quiet, actions[..n + 1]) == if Enabled(w, actions[n]) then Step(w, actions[n]) else w
  {
    assert actions[..n + 1][..n] == actions[..n];
  }

  // ----- the latest event wins -----

  /** The entry is a schedule or cancel of the key. */
  predicate Concerns(e: Entry, k: Key) {
    (e.Scheduled? || e.CancelRequested?) && e.key == k
  }

  /** No schedule or cancel of the key strictly between two positions of the log. */
  predicate QuietBetween(log: seq<Entry>, k: Key, from: nat, to: nat) {
    forall i :: from < i < to && i < |log| ==> !Concerns(log[i], k)
  }

  predicate TimersLogged(w: World) {
    forall t :: 0 <= t < |w.timers| ==>
      var timer := w.timers[t];
      && timer.entry < |w.log|
      && w.log[timer.entry] == Scheduled(timer.key, t, timer.due - w.quiet)
      && (timer.status == Live ==> QuietBetween(w.log, timer.key, timer.entry, |w.log|))
  }

  predicate TasksLogged(w: World) {
    forall id :: 0 <= id < |w.tasks| ==>
      var task := w.tasks[id];
      && task.timer < |w.timers| && task.key == w.timers[task.timer].key
      && w.timers[task.timer].entry < task.entry < |w.log|
      && w.log[task.entry].TimerFired? && w.log[task.entry].timer == task.timer && w.log[task.entry].task == id
      && w.log[task.entry].at >= w.timers[task.timer].due
      && QuietBetween(w.log, task.key, w.timers[task.timer].entry, task.entry)
  }

  predicate InvocationsLogged(w: World) {
    forall i :: 0 <= i < |w.log| && w.log[i].Invoked? ==>
      w.log[i].task < |w.tasks| && w.tasks[w.log[i].task].entry < i
  }

  predicate Logged(w: World) {
    TimersLogged(w) && TasksLogged(w) && InvocationsLogged(w)
  }

  /** Cancelling changes statuses only. */
  lemma CancelBothFrame(w: World, k: Key)
    ensures var v := CancelBoth(w, k);
            && v.log == w.log && v.now == w.now && v.quiet == w.quiet
            && |v.timers| == |w.timers| && |v.tasks| == |w.tasks|
            && (forall t :: 0 <= t < |w.timers| ==>
                  v.timers[t] == w.timers[t] || v.timers[t] == w.timers[t].(status := Cancelled))
            && (forall id :: 0 <= id < |w.tasks| ==>
                  v.tasks[id] == w.tasks[id] || v.tasks[id] == w.tasks[id].(cancelled := true))
  {
  }

  /** After cancelling, no live timer and no task in a slot is left for the key. */
  lemma CancelBothClears(w: World, k: Key)
    requires Safe(w)
    ensures forall t :: 0 <= t < |w.timers| && CancelBoth(w, k).timers[t].status == Live ==> w.timers[t].key != k
  {
    hide Safe;
    CancelPendingSafe(w, k);
    CancelInFlightSafe(CancelPending(w, k), k);
    CancelBothFrame(w, k);
    LiveIsPending(CancelBoth(w, k));
  }

  lemma LiveIsPending(w: World)
    requires Safe(w)
    ensures forall t :: 0 <= t < |w.timers| && w.timers[t].status == Live ==> w.timers[t].key in w.pending
  {
  }

  /** The facts about a step the log invariants need. */
  predicate LogStep(w: World, v: World) {
    && v.quiet == w.quiet && w.log <= v.log && |v.log| <= |w.log| + 1
    && |w.timers| <= |v.timers| && |w.tasks| <= |v.tasks|
    && (forall t :: 0 <= t < |w.timers| ==>
          && v.timers[t].key == w.timers[t].key && v.timers[t].due == w.timers[t].due && v.timers[t].entry == w.timers[t].entry
          && (v.timers[t].status == Live ==>
                && w.timers[t].status == Live
                && (|v.log| == |w.log| || !Concerns(v.log[|w.log|], w.timers[t].key))))
    && (forall id :: 0 <= id < |w.tasks| ==>
          v.tasks[id].key == w.tasks[id].key && v.tasks[id].timer == w.tasks[id].timer && v.tasks[id].entry == w.tasks[id].entry)
    && (forall t :: |w.timers| <= t < |v.timers| ==>
          && v.timers[t].entry == |w.log| < |v.log|
          && v.log[|w.log|] == Scheduled(v.timers[t].key, t, v.timers[t].due - w.quiet))
    && (forall id :: |w.tasks| <= id < |v.tasks| ==>
          var t := v.tasks[id].timer;
          && t < |w.timers| && w.timers[t].status == Live && v.tasks[id].key == w.timers[t].key
          && v.tasks[id].entry == |w.log| < |v.log|
          && v.log[|w.log|].TimerFired? && v.log[|w.log|].timer == t && v.log[|w.log|].task == id
          && v.log[|w.log|].at >= w.timers[t].due)
    && (|w.log| < |v.log| && v.log[|w.log|].Invoked? ==> v.log[|w.log|].task < |w.tasks|)
  }

  lemma StepIsLogStep(w: World, a: Action)
    requires Safe(w) && Enabled(w, a)
    ensures LogStep(w, Step(w, a))
  {
    hide Safe, CancelBoth;
    match a
    case DoSchedule(k) =>
      CancelBothFrame(w, k);
      CancelBothClears(w, k);
    case DoCancel(k) =>
      CancelBothFrame(w, k);
      CancelBothClears(w, k);
    case _ =>
  }

  lemma LogStepKeepsLogged(w: World, v: World)
    requires LogStep(w, v) && Logged(w)
    ensures Logged(v)
  {
    TimersLoggedKept(w, v);
    TasksLoggedKept(w, v);
  }

  lemma TimersLoggedKept(w: World, v: World)
    requires LogStep(w, v) && TimersLogged(w)
    ensures TimersLogged(v)
  {
  }

  lemma TasksLoggedKept(w: World, v: World)
    requires LogStep(w, v) && TimersLogged(w) && TasksLogged(w)
    ensures TasksLogged(v)
  {
    forall id | 0 <= id < |v.tasks|
      ensures QuietBetween(v.log, v.tasks[id].key, v.timers[v.tasks[id].timer].entry, v.tasks[id].entry)
    {
      if id < |w.tasks| {
        assert QuietBetween(w.log, w.tasks[id].key, w.timers[w.tasks[id].timer].entry, w.tasks[id].entry);
      } else {
        var t := v.tasks[id].timer;
        assert QuietBetween(w.log, w.timers[t].key, w.timers[t].entry, |w.log|);
      }
    }
  }

  lemma {:induction false} RunIsLogged(quiet: real, actions: seq<Action>)
    ensures Logged(Run(quiet, actions)) && Run(quiet, actions).quiet == quiet
  {
    hide Safe, Logged, LogStep, Step;
    if actions == [] {
      InitialIsLogged(quiet);
    } else {
      var prefix := actions[..|actions| - 1];
      RunIsLogged(quiet, prefix);
      RunIsSafe(quiet, prefix);
      var w := Run(quiet, prefix);
      var a := actions[|actions| - 1];
      if Enabled(w, a) {
        StepIsLogStep(w, a);
        LogStepKeepsLogged(w, Step(w, a));
        StepKeepsQuiet(w, a);
      }
    }
  }

  lemma InitialIsLogged(quiet: real)
    ensures Logged(Initial(quiet)) && Initial(quiet).quiet == quiet
  {
  }

  lemma StepKeepsQuiet(w: World, a: Action)
    requires Enabled(w, a)
    ensures Step(w, a).quiet == w.quiet
  {
  }

  /**
   Only the latest event of a burst is reviewed: whenever a factory is invoked, its timer was
   scheduled at some point, fired at least the quiet period later, and no schedule or cancel
   of the same key happened in between.
   */
  lemma InvokedOnlyAfterQuietPeriod(quiet: real, actions: seq<Action>, i: nat)
    requires i < |Run(quiet, actions).log| && Run(quiet, actions).log[i].Invoked?
    ensures var log := Run(quiet, actions).log;
            exists s: nat, f: nat :: s < f < i && StartsReview(log, quiet, s, f, log[i].task)
  {
    RunIsLogged(quiet, actions);
    var w := Run(quiet, actions);
    var task := w.tasks[w.log[i].task];
    assert StartsReview(w.log, quiet, w.timers[task.timer].entry, task.entry, w.log[i].task);
  }

  /** Position s schedules a timer and position f fires it into the task, after a quiet period without events of the key. */
  predicate StartsReview(log: seq<Entry>, quiet: real, s: nat, f: nat, task: nat) {
    && s < f < |log| && log[s].Scheduled? && log[f].TimerFired?
    && log[f].timer == log[s].timer && log[f].task == task
    && log[f].at >= log[s].at + quiet
    && QuietBetween(log, log[s].key, s, f)
  }

  /** An active task that has not started yet is for the latest event of its key. */
  predicate CreatedIsLatest(w: World) {
    forall id :: 0 <= id < |w.tasks| && w.tasks[id].phase == Created && !w.tasks[id].cancelled ==>
      QuietBetween(w.log, w.tasks[id].key, w.tasks[id].entry, |w.log|)
  }

  /** A factory is invoked with no event of its key since its timer fired. */
  predicate InvocationsLatest(w: World) {
    forall i :: 0 <= i < |w.log| && w.log[i].Invoked? && w.log[i].task < |w.tasks| ==>
      QuietBetween(w.log, w.tasks[w.log[i].task].key, w.tasks[w.log[i].task].entry, i)
  }

  /** A step that adds an event of a key leaves no task of that key created and active. */
  predicate LatestStep(w: World, v: World) {
    && |w.tasks| <= |v.tasks| && |w.log| <= |v.log|
    && (forall id :: 0 <= id < |w.tasks| && v.tasks[id].phase == Created && !v.tasks[id].cancelled ==>
          && w.tasks[id].phase == Created && !w.tasks[id].cancelled
          && (|v.log| == |w.log| || !Concerns(v.log[|w.log|], w.tasks[id].key)))
    && (|w.log| < |v.log| && v.log[|w.log|].Invoked? ==>
          var id := v.log[|w.log|].task;
          id < |w.tasks| && w.tasks[id].phase == Created && !w.tasks[id].cancelled)
  }

  /** After cancelling a key whose slot is exact, none of its tasks is active. */
  lemma CancelBothStops(w: World, k: Key)
    requires Safe(w) && SlotsExact(w)
    ensures forall id :: 0 <= id < |w.tasks| && w.tasks[id].key == k && CancelBoth(w, k).tasks[id].phase == Created ==>
              CancelBoth(w, k).tasks[id].cancelled
  {
    forall id | 0 <= id < |w.tasks| && w.tasks[id].key == k && w.tasks[id].phase == Created && !w.tasks[id].cancelled
      ensures CancelBoth(w, k).tasks[id].cancelled
    {
      assert Active(w, id);
    }
  }

  lemma StepIsLatestStep(w: World, a: Action)
    requires Safe(w) && SlotsExact(w) && Enabled(w, a) && |w.tasks| <= |Step(w, a).tasks|
    ensures LatestStep(w, Step(w, a))
  {
    hide Safe, SlotsExact, CancelBoth;
    match a
    case DoSchedule(k) =>
      CancelBothFrame(w, k);
      CancelBothStops(w, k);
    case DoCancel(k) =>
      CancelBothFrame(w, k);
      CancelBothStops(w, k);
    case _ =>
  }

  lemma LatestStepKeeps(w: World, v: World)
    requires LogStep(w, v) && LatestStep(w, v) && InvocationsLogged(w)
    requires CreatedIsLatest(w) && InvocationsLatest(w)
    ensures CreatedIsLatest(v) && InvocationsLatest(v)
  {
    forall id | 0 <= id < |v.tasks| && v.tasks[id].phase == Created && !v.tasks[id].cancelled
      ensures QuietBetween(v.log, v.tasks[id].key, v.tasks[id].entry, |v.log|)
    {
      if id < |w.tasks| {
        assert QuietBetween(w.log, w.tasks[id].key, w.tasks[id].entry, |w.log|);
      }
    }
    forall i | 0 <= i < |v.log| && v.log[i].Invoked? && v.log[i].task < |v.tasks|
      ensures QuietBetween(v.log, v.tasks[v.log[i].task].key, v.tasks[v.log[i].task].entry, i)
    {
      var id := v.log[i].task;
      if i < |w.log| {
        assert w.log[i] == v.log[i];
        assert QuietBetween(w.log, w.tasks[id].key, w.tasks[id].entry, i);
      } else {
        assert QuietBetween(w.log, w.tasks[id].key, w.tasks[id].entry, |w.log|);
      }
    }
  }

  /**
   When cancelled tasks unwind in time, a factory is invoked only with no schedule or cancel of
   its key between its timer's firing and the invocation itself.
   */
  lemma {:induction false} InvokedOnlyIfLatest(quiet: real, actions: seq<Action>)
    requires UnwindsInTime(quiet, actions)
    ensures CreatedIsLatest(Run(quiet, actions)) && InvocationsLatest(Run(quiet, actions))
  {
    hide Safe, SlotsExact, CreatedIsLatest, InvocationsLatest, Step, LogStep, LatestStep, TimersLogged, TasksLogged, InvocationsLogged;
    if actions == [] {
      InitialIsLatest(quiet);
    } else {
      var n := |actions| - 1;
      var prefix := actions[..n];
      assert forall m :: 0 <= m <= n ==> actions[..m] == prefix[..m];
      InvokedOnlyIfLatest(quiet, prefix);
      SlotsExactIff(quiet, prefix);
      assert prefix[..n] == prefix;
      assert SlotsExact(Run(quiet, prefix));
      RunIsSafe(quiet, prefix);
      RunIsLogged(quiet, prefix);
      var w := Run(quiet, prefix);
      if Enabled(w, actions[n]) {
        StepIsLogStep(w, actions[n]);
        LogStepGrows(w, Step(w, actions[n]));
        StepIsLatestStep(w, actions[n]);
        LatestStepKeeps(w, Step(w, actions[n]));
      }
    }
  }

  lemma LogStepGrows(w: World, v: World)
    requires LogStep(w, v)
    ensures |w.tasks| <= |v.tasks|
  {
  }

  lemma InitialIsLatest(quiet: real)
    ensures CreatedIsLatest(Initial(quiet)) && InvocationsLatest(Initial(quiet))
  {
  }

  // ----- cancelled before the first step -----

  /** The log shows no invocation of the task's factory. */
  predicate NotInvoked(w: World, id: nat) {
    forall i :: 0 <= i < |w.log| && w.log[i].Invoked? ==> w.log[i].task != id
  }

  /** The task was cancelled before it started and its factory has not been invoked. */
  predicate NeverStarted(w: World, id: nat) {
    id < |w.tasks| && w.tasks[id].cancelled && w.tasks[id].phase != Running && NotInvoked(w, id)
  }

  lemma StepKeepsNeverStarted(w: World, a: Action, id: nat)
    requires NeverStarted(w, id) && Enabled(w, a)
    ensures NeverStarted(Step(w, a), id)
  {
  }

  lemma RunOneMore(quiet: real, actions: seq<Action>, more: seq<Action>)
    requires more != []
    ensures var w, a := Run(quiet, actions + more[..|more| - 1]), more[|more| - 1];
            Run(quiet, actions + more) == if Enabled(w, a) then Step(w, a) else w
  {
    hide Enabled, Step;
    assert (actions + more)[..|actions + more| - 1] == actions + more[..|more| - 1];
  }

  /** Once a task is cancelled before its first step, its factory is not invoked however the run goes on. */
  lemma {:induction false} CancelledTaskNeverInvokes(quiet: real, actions: seq<Action>, more: seq<Action>, id: nat)
    requires NeverStarted(Run(quiet, actions), id)
    ensures NeverStarted(Run(quiet, actions + more), id)
    decreases |more|
  {
    if more == [] {
      assert actions + more == actions;
    } else {
      hide Enabled, Step, NeverStarted, Run;
      var n := |more| - 1;
      RunOneMore(quiet, actions, more);
      CancelledTaskNeverInvokes(quiet, actions, more[..n], id);
      var w := Run(quiet, actions + more[..n]);
      if Enabled(w, more[n]) {
        StepKeepsNeverStarted(w, more[n], id);
      }
    }
  }

  /** A created task has not invoked its factory yet, so a cancellation then comes in time. */
  lemma {:induction false} CreatedTaskNotInvoked(quiet: real, actions: seq<Action>, id: nat)
    requires id < |Run(quiet, actions).tasks| && Run(quiet, actions).tasks[id].phase == Created
    ensures NotInvoked(Run(quiet, actions), id)
  {
    if actions != [] {
      var prefix, a := actions[..|actions| - 1], actions[|actions| - 1];
      var w := Run(quiet, prefix);
      RunIsLogged(quiet, prefix);
      if id < |w.tasks| && w.tasks[id].phase == Created {
        CreatedTaskNotInvoked(quiet, prefix, id);
      }
      if Enabled(w, a) {
        StepKeepsCreatedNotInvoked(w, a, id);
      }
    }
  }

  lemma StepKeepsCreatedNotInvoked(w: World, a: Action, id: nat)
    requires Enabled(w, a) && InvocationsLogged(w)
    requires id < |w.tasks| && w.tasks[id].phase == Created ==> NotInvoked(w, id)
    requires id < |Step(w, a).tasks| && Step(w, a).tasks[id].phase == Created
    ensures NotInvoked(Step(w, a), id)
  {
    hide CancelBoth;
    if a.DoSchedule? || a.DoCancel? {
      CancelBothFrame(w, a.key);
    }
  }
}
