/** Nothing is lost: the latest schedule of a key is pending, started or invoked, and no schedule is invoked twice. */
module DebounceProgress {

  import opened Debounce
  import opened DebounceSafety

  // ----- every schedule keeps its timer -----

  predicate SchedulesLogged(w: World) {
    forall s :: 0 <= s < |w.log| && w.log[s].Scheduled? ==>
      && w.log[s].timer < |w.timers|
      && w.timers[w.log[s].timer].entry == s && w.timers[w.log[s].timer].key == w.log[s].key
  }

  /** The task was made for the timer and nobody has cancelled it. */
  predicate ServesTimer(w: World, id: nat, t: nat) {
    id < |w.tasks| && w.tasks[id].timer == t && !w.tasks[id].cancelled
  }

  predicate HasInvoked(log: seq<Entry>, id: nat) {
    exists i :: 0 <= i < |log| && log[i].Invoked? && log[i].task == id
  }

  /** The timer is live, or its task waits for its first step uncancelled, or its factory has been invoked. */
  predicate InHand(w: World, t: nat) {
    || (t < |w.timers| && w.timers[t].status == Live)
    || exists id :: 0 <= id < |w.tasks| && ServesTimer(w, id, t) && (w.tasks[id].phase == Created || HasInvoked(w.log, id))
  }

  /** Position s is a schedule, and the latest event of its key. */
  predicate IsLatest(log: seq<Entry>, s: nat) {
    s < |log| && log[s].Scheduled? && QuietBetween(log, log[s].key, s, |log|)
  }

  predicate LatestInHand(w: World) {
    forall s :: 0 <= s < |w.log| && IsLatest(w.log, s) ==> InHand(w, w.log[s].timer)
  }

  /** Cancelling one key leaves the timers and tasks of the others alone. */
  lemma CancelBothSpares(w: World, k: Key)
    requires Safe(w)
    ensures var v := CancelBoth(w, k);
            && v.log == w.log && |v.timers| == |w.timers| && |v.tasks| == |w.tasks|
            && (forall t :: 0 <= t < |w.timers| ==>
                  && v.timers[t].entry == w.timers[t].entry && v.timers[t].key == w.timers[t].key
                  && (w.timers[t].key != k ==> v.timers[t] == w.timers[t]))
            && (forall id :: 0 <= id < |w.tasks| && w.tasks[id].key != k ==> v.tasks[id] == w.tasks[id])
  {
  }

  lemma StepKeepsSchedules(w: World, a: Action)
    requires Safe(w) && Enabled(w, a) && SchedulesLogged(w)
    ensures SchedulesLogged(Step(w, a))
  {
    hide Safe, CancelBoth;
    match a
    case DoSchedule(k) => CancelBothSpares(w, k);
    case DoCancel(k) => CancelBothSpares(w, k);
    case _ =>
  }

  /** A step that does not concern the timer's key keeps what is in hand. */
  lemma StepKeepsInHand(w: World, a: Action, t: nat, k: Key)
    requires Safe(w) && TasksLogged(w) && Enabled(w, a) && InHand(w, t)
    requires t < |w.timers| && w.timers[t].key == k
    requires a != DoSchedule(k) && a != DoCancel(k)
    ensures InHand(Step(w, a), t)
  {
    hide Safe, CancelBoth, HasInvoked;
    var v := Step(w, a);
    if a.DoSchedule? || a.DoCancel? {
      CancelBothSpares(w, a.key);
    }
    if w.timers[t].status == Live {
      if a == DoFire(t) {
        assert ServesTimer(v, |w.tasks|, t);
      }
    } else {
      var id :| 0 <= id < |w.tasks| && ServesTimer(w, id, t) && (w.tasks[id].phase == Created || HasInvoked(w.log, id));
      assert w.tasks[id].key == k;
      StepKeepsInvoked(w, a, id);
      if a == DoStart(id) {
        StartInvokes(w, id);
      }
      assert ServesTimer(v, id, t);
    }
  }

  lemma StartInvokes(w: World, id: nat)
    requires id < |w.tasks| && w.tasks[id].phase == Created && !w.tasks[id].cancelled
    ensures HasInvoked(Start(w, id).log, id)
  {
    var v := Start(w, id);
    assert v.log[|w.log|] == Invoked(id, w.now);
  }

  lemma StepExtendsLog(w: World, a: Action)
    requires Enabled(w, a)
    ensures w.log <= Step(w, a).log && |Step(w, a).log| <= |w.log| + 1
    ensures match a
            case DoSchedule(k) => Step(w, a).log == w.log + [Scheduled(k, |w.timers|, w.now)]
            case DoCancel(k) => Step(w, a).log == w.log + [CancelRequested(k, w.now)]
            case _ => |Step(w, a).log| == |w.log| || !Step(w, a).log[|w.log|].Scheduled?
  {
    hide CancelBoth;
    if a.DoSchedule? || a.DoCancel? {
      CancelBothFrame(w, a.key);
    }
  }

  lemma StepKeepsInvoked(w: World, a: Action, id: nat)
    requires Enabled(w, a)
    ensures HasInvoked(w.log, id) ==> HasInvoked(Step(w, a).log, id)
  {
    hide Enabled, Step;
    StepExtendsLog(w, a);
    if HasInvoked(w.log, id) {
      var i :| 0 <= i < |w.log| && w.log[i].Invoked? && w.log[i].task == id;
      assert Step(w, a).log[i] == w.log[i];
    }
  }

  lemma ScheduledIsLive(w: World, k: Key)
    ensures var v := Schedule(w, k);
            InHand(v, |CancelBoth(w, k).timers|) && |CancelBoth(w, k).timers| == |w.timers|
  {
    CancelBothFrame(w, k);
  }

  lemma StepKeepsLatest(w: World, a: Action)
    requires Safe(w) && TasksLogged(w) && SchedulesLogged(w) && Enabled(w, a) && LatestInHand(w)
    ensures LatestInHand(Step(w, a))
  {
    hide Safe, TasksLogged, InHand, Step, Enabled;
    var v := Step(w, a);
    StepExtendsLog(w, a);
    forall s | 0 <= s < |v.log| && IsLatest(v.log, s) ensures InHand(v, v.log[s].timer) {
      var k := v.log[s].key;
      if s == |w.log| {
        NewScheduleInHand(w, a);
      } else {
        assert v.log[s] == w.log[s] && IsLatest(w.log, s);
        assert |v.log| > |w.log| ==> !Concerns(v.log[|w.log|], k);
        StepKeepsInHand(w, a, w.log[s].timer, k);
      }
    }
  }

  lemma NewScheduleInHand(w: World, a: Action)
    requires Enabled(w, a) && |Step(w, a).log| > |w.log| && Step(w, a).log[|w.log|].Scheduled?
    ensures InHand(Step(w, a), Step(w, a).log[|w.log|].timer)
  {
    hide InHand, CancelBoth;
    StepExtendsLog(w, a);
    ScheduledIsLive(w, a.key);
  }

  /**
   No latest event is lost: in every reachable world, if the last event of a key is a schedule,
   then its timer is live, or its task waits for its first step uncancelled, or its factory
   has been invoked. Late unwindings make no difference.
   */
  lemma {:induction false} LatestIsInHand(quiet: real, actions: seq<Action>)
    ensures SchedulesLogged(Run(quiet, actions)) && LatestInHand(Run(quiet, actions))
  {
    if actions != [] {
      hide Safe, TasksLogged, TimersLogged, InvocationsLogged, SchedulesLogged, LatestInHand, Step, Enabled;
      var prefix, a := actions[..|actions| - 1], actions[|actions| - 1];
      LatestIsInHand(quiet, prefix);
      RunIsSafe(quiet, prefix);
      RunIsLogged(quiet, prefix);
      var w := Run(quiet, prefix);
      if Enabled(w, a) {
        StepKeepsSchedules(w, a);
        StepKeepsLatest(w, a);
      }
    }
  }

  // ----- at most one invocation for each schedule -----

  /** A fired timer has one task, and a task that has started one invocation. */
  predicate Once(w: World) {
    && (forall id :: 0 <= id < |w.tasks| ==> w.tasks[id].timer < |w.timers| && w.timers[w.tasks[id].timer].status == Fired)
    && (forall a, b :: 0 <= a < b < |w.tasks| ==> w.tasks[a].timer != w.tasks[b].timer)
    && (forall i :: 0 <= i < |w.log| && w.log[i].Invoked? ==>
          w.log[i].task < |w.tasks| && w.tasks[w.log[i].task].phase != Created)
    && (forall i, j :: 0 <= i < j < |w.log| && w.log[i].Invoked? && w.log[j].Invoked? ==> w.log[i].task != w.log[j].task)
  }

  /** Cancelling touches neither fired timers nor phases. */
  lemma CancelBothKeepsOnce(w: World, k: Key)
    requires Safe(w) && Once(w)
    ensures Once(CancelBoth(w, k)) && CancelBoth(w, k).log == w.log
  {
  }

  lemma FireKeepsOnce(w: World, t: nat)
    requires Once(w) && CanFire(w, t)
    ensures Once(Fire(w, t))
  {
  }

  lemma StartKeepsOnce(w: World, id: nat)
    requires Once(w) && id < |w.tasks| && w.tasks[id].phase == Created
    ensures Once(Start(w, id))
  {
  }

  lemma StepKeepsOnce(w: World, a: Action)
    requires Safe(w) && Once(w) && Enabled(w, a)
    ensures Once(Step(w, a))
  {
    hide Safe, CancelBoth, Fire, Start;
    if a.DoSchedule? || a.DoCancel? {
      CancelBothKeepsOnce(w, a.key);
    } else if a.DoFire? {
      FireKeepsOnce(w, a.timer);
    } else if a.DoStart? {
      StartKeepsOnce(w, a.task);
    }
  }

  lemma {:induction false} RunIsOnce(quiet: real, actions: seq<Action>)
    ensures Once(Run(quiet, actions))
  {
    if actions != [] {
      hide Safe, Once, Step, Enabled;
      var prefix := actions[..|actions| - 1];
      RunIsOnce(quiet, prefix);
      RunIsSafe(quiet, prefix);
      if Enabled(Run(quiet, prefix), actions[|actions| - 1]) {
        StepKeepsOnce(Run(quiet, prefix), actions[|actions| - 1]);
      }
    }
  }

  /** Two invocations for the same timer are the same one. */
  lemma AtMostOneInvocation(quiet: real, actions: seq<Action>, i: nat, j: nat)
    requires var w := Run(quiet, actions);
             && i < |w.log| && w.log[i].Invoked? && w.log[i].task < |w.tasks|
             && j < |w.log| && w.log[j].Invoked? && w.log[j].task < |w.tasks|
             && w.tasks[w.log[i].task].timer == w.tasks[w.log[j].task].timer
    ensures i == j
  {
    hide Run;
    RunIsOnce(quiet, actions);
  }
}
