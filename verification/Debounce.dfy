/**
 The debounce manager on its event loop: timers, tasks and cancellation as interleaved steps,
 and the manager's methods proved to take exactly those steps.
 */
module Debounce {

  /** A pull request: repository and number. */
  datatype Key = Key(repo: string, number: nat)

  datatype TimerStatus = Live | Cancelled | Fired

  /** A call_later handle; entry is the position of its schedule in the log. */
  datatype Timer = Timer(key: Key, due: real, status: TimerStatus, entry: nat)

  datatype Phase = Created | Running | Finished

  /** A task made by a firing timer; entry is the position of that firing in the log. */
  datatype Task = Task(key: Key, timer: nat, cancelled: bool, phase: Phase, entry: nat)

  /** What has happened so far, in order. */
  datatype Entry =
    | Scheduled(key: Key, timer: nat, at: real)
    | CancelRequested(key: Key, at: real)
    | TimerFired(timer: nat, task: nat, at: real)
    | Invoked(task: nat, at: real)

  /** The manager's two dictionaries and the loop they live on. */
  datatype World = World(quiet: real, now: real,
                         pending: map<Key, nat>, inFlight: map<Key, nat>,
                         timers: seq<Timer>, tasks: seq<Task>, log: seq<Entry>)

  function Initial(quiet: real): World {
    World(quiet, 0.0, map[], map[], [], [], [])
  }

  // ----- the steps -----

  function CancelPending(w: World, k: Key): World {
    if k !in w.pending then w else
    var t := w.pending[k];
    w.(pending := w.pending - {k},
       timers := if t < |w.timers| then w.timers[t := w.timers[t].(status := Cancelled)] else w.timers)
  }

  function CancelInFlight(w: World, k: Key): World {
    if k !in w.inFlight then w else
    var t := w.inFlight[k];
    w.(inFlight := w.inFlight - {k},
       tasks := if t < |w.tasks| then w.tasks[t := w.tasks[t].(cancelled := true)] else w.tasks)
  }

  function CancelBoth(w: World, k: Key): World {
    CancelInFlight(CancelPending(w, k), k)
  }

  function AddTimer(w: World, k: Key): World {
    var t := |w.timers|;
    w.(pending := w.pending[k := t],
       timers := w.timers + [Timer(k, w.now + w.quiet, Live, |w.log|)],
       log := w.log + [Scheduled(k, t, w.now)])
  }

  /** `schedule`: cancel what there is for the key, then start a new timer. */
  function Schedule(w: World, k: Key): World {
    AddTimer(CancelBoth(w, k), k)
  }

  function NoteCancel(w: World, k: Key): World {
    w.(log := w.log + [CancelRequested(k, w.now)])
  }

  /** `cancel`. */
  function CancelKey(w: World, k: Key): World {
    NoteCancel(CancelBoth(w, k), k)
  }

  predicate CanFire(w: World, t: nat) {
    t < |w.timers| && w.timers[t].status == Live && w.timers[t].due <= w.now
  }

  /** `_fire`: the timer is no longer pending; a task is created and takes the key's slot. */
  function Fire(w: World, t: nat): World
    requires CanFire(w, t)
  {
    var k := w.timers[t].key;
    var id := |w.tasks|;
    w.(pending := w.pending - {k},
       inFlight := w.inFlight[k := id],
       timers := w.timers[t := w.timers[t].(status := Fired)],
       tasks := w.tasks + [Task(k, t, false, Created, |w.log|)],
       log := w.log + [TimerFired(t, id, w.now)])
  }

  /**
   The first step of a task. A task cancelled before it never enters `_run`, so it neither
   invokes the factory nor reaches the finally clause.
   */
  function Start(w: World, id: nat): World
    requires id < |w.tasks| && w.tasks[id].phase == Created
  {
    if w.tasks[id].cancelled then w.(tasks := w.tasks[id := w.tasks[id].(phase := Finished)])
    else w.(tasks := w.tasks[id := w.tasks[id].(phase := Running)], log := w.log + [Invoked(id, w.now)])
  }

  /** A running task ends, by returning, failing or unwinding; the finally clause pops the key's slot. */
  function Finish(w: World, id: nat): World
    requires id < |w.tasks| && w.tasks[id].phase == Running
  {
    w.(tasks := w.tasks[id := w.tasks[id].(phase := Finished)],
       inFlight := w.inFlight - {w.tasks[id].key})
  }

  datatype Action =
    | DoSchedule(key: Key)
    | DoCancel(key: Key)
    | DoFire(timer: nat)
    | DoStart(task: nat)
    | DoFinish(task: nat)
    | Tick(time: real)

  predicate Enabled(w: World, a: Action) {
    match a
    case DoSchedule(_) => true
    case DoCancel(_) => true
    case DoFire(t) => CanFire(w, t)
    case DoStart(id) => id < |w.tasks| && w.tasks[id].phase == Created
    case DoFinish(id) => id < |w.tasks| && w.tasks[id].phase == Running
    case Tick(time) => time >= 0.0
  }

  function Step(w: World, a: Action): World
    requires Enabled(w, a)
  {
    match a
    case DoSchedule(k) => Schedule(w, k)
    case DoCancel(k) => CancelKey(w, k)
    case DoFire(t) => Fire(w, t)
    case DoStart(id) => Start(w, id)
    case DoFinish(id) => Finish(w, id)
    case Tick(time) => w.(now := w.now + time)
  }

  /** The world after a run; actions that are not enabled do not happen. */
  function Run(quiet: real, actions: seq<Action>): World {
    if actions == [] then Initial(quiet) else
    var w := Run(quiet, actions[..|actions| - 1]);
    var a := actions[|actions| - 1];
    if Enabled(w, a) then Step(w, a) else w
  }

  // ----- the manager as an object -----

  /** The parts of the asyncio loop the manager uses. */
  class EventLoop {
    var now: real
    var timers: seq<Timer>
    var tasks: seq<Task>
    var log: seq<Entry>

    constructor ()
      ensures now == 0.0 && timers == [] && tasks == [] && log == []
    {
      now := 0.0;
      timers, tasks, log := [], [], [];
    }
  }

  lemma OneMoreAction(quiet: real, actions: seq<Action>, a: Action)
    ensures var w := Run(quiet, actions);
            Run(quiet, actions + [a]) == if Enabled(w, a) then Step(w, a) else w
  {
    assert (actions + [a])[..|actions|] == actions;
  }

  /** The manager and the loop it runs on; taken lists what the callers and the loop have done with it. */
  class DebounceManager {
    const quietPeriod: real
    const loop: EventLoop
    var pending: map<Key, nat>
    var inFlight: map<Key, nat>
    ghost var taken: seq<Action>

    /** The manager is where the run of everything done so far leads. */
    ghost predicate Valid()
      reads this, loop
    {
      State() == Run(quietPeriod, taken)
    }

    function State(): World
      reads this, loop
    {
      World(quietPeriod, loop.now, pending, inFlight, loop.timers, loop.tasks, loop.log)
    }

    constructor (quiet: real, eventLoop: EventLoop)
      requires eventLoop.now == 0.0 && eventLoop.timers == [] && eventLoop.tasks == [] && eventLoop.log == []
      ensures Valid() && taken == []
      ensures loop == eventLoop && State() == Initial(quiet)
    {
      quietPeriod := quiet;
      loop := eventLoop;
      pending, inFlight := map[], map[];
      taken := [];
    }

    method CancelPendingTimer(k: Key) returns (cancelled: bool)
      modifies this`pending, loop`timers
      ensures State() == CancelPending(old(State()), k)
      ensures cancelled == (k in old(pending))
    {
      if k in pending {
        var handle := pending[k];
        pending := pending - {k};
        if handle < |loop.timers| {
          loop.timers := loop.timers[handle := loop.timers[handle].(status := Cancelled)];
        }
        return true;
      }
      return false;
    }

    method CancelInFlightTask(k: Key) returns (cancelled: bool)
      modifies this`inFlight, loop`tasks
      ensures State() == CancelInFlight(old(State()), k)
      ensures cancelled == (k in old(inFlight))
    {
      if k in inFlight {
        var task := inFlight[k];
        inFlight := inFlight - {k};
        if task < |loop.tasks| {
          loop.tasks := loop.tasks[task := loop.tasks[task].(cancelled := true)];
        }
        return true;
      }
      return false;
    }

    method ScheduleReview(k: Key)
      requires Valid()
      modifies this, loop
      ensures Valid() && taken == old(taken) + [DoSchedule(k)]
      ensures State() == Schedule(old(State()), k)
      ensures k !in inFlight && k in pending && pending[k] < |loop.timers|
      ensures loop.timers[pending[k]].due == loop.now + quietPeriod && loop.timers[pending[k]].status == Live
    {
      hide Run;
      OneMoreAction(quietPeriod, taken, DoSchedule(k));
      taken := taken + [DoSchedule(k)];
      var _ := CancelPendingTimer(k);
      var _ := CancelInFlightTask(k);
      var handle := |loop.timers|;
      loop.timers := loop.timers + [Timer(k, loop.now + quietPeriod, Live, |loop.log|)];
      loop.log := loop.log + [Scheduled(k, handle, loop.now)];
      pending := pending[k := handle];
    }

    method Cancel(k: Key) returns (cancelled: bool)
      requires Valid()
      modifies this, loop
      ensures Valid() && taken == old(taken) + [DoCancel(k)]
      ensures State() == CancelKey(old(State()), k)
      ensures cancelled == (k in old(pending) || k in old(inFlight))
      ensures k !in pending && k !in inFlight
    {
      hide Run;
      OneMoreAction(quietPeriod, taken, DoCancel(k));
      taken := taken + [DoCancel(k)];
      var cancelledPending := CancelPendingTimer(k);
      var cancelledInFlight := CancelInFlightTask(k);
      loop.log := loop.log + [CancelRequested(k, loop.now)];
      return cancelledPending || cancelledInFlight;
    }

    /** Called by the loop when a live timer is due. */
    method FireTimer(t: nat)
      requires Valid() && CanFire(State(), t)
      modifies this, loop
      ensures Valid() && taken == old(taken) + [DoFire(t)]
      ensures State() == Fire(old(State()), t)
      ensures var k := old(loop.timers[t].key);
              k !in pending && k in inFlight && inFlight[k] < |loop.tasks| && loop.tasks[inFlight[k]].timer == t
    {
      hide Run;
      OneMoreAction(quietPeriod, taken, DoFire(t));
      taken := taken + [DoFire(t)];
      var k := loop.timers[t].key;
      loop.timers := loop.timers[t := loop.timers[t].(status := Fired)];
      pending := pending - {k};
      var task := |loop.tasks|;
      loop.tasks := loop.tasks + [Task(k, t, false, Created, |loop.log|)];
      loop.log := loop.log + [TimerFired(t, task, loop.now)];
      inFlight := inFlight[k := task];
    }

    /** The loop gives a created task its first step. */
    method StartTask(id: nat)
      requires Valid() && id < |loop.tasks| && loop.tasks[id].phase == Created
      modifies this`taken, loop
      ensures Valid() && taken == old(taken) + [DoStart(id)]
      ensures State() == Start(old(State()), id)
      ensures loop.log == old(loop.log) + (if old(loop.tasks[id].cancelled) then [] else [Invoked(id, loop.now)])
    {
      hide Run;
      OneMoreAction(quietPeriod, taken, DoStart(id));
      taken := taken + [DoStart(id)];
      if loop.tasks[id].cancelled {
        loop.tasks := loop.tasks[id := loop.tasks[id].(phase := Finished)];
      } else {
        loop.tasks := loop.tasks[id := loop.tasks[id].(phase := Running)];
        loop.log := loop.log + [Invoked(id, loop.now)];
      }
    }

    /** The finally clause of `_run`. */
    method FinishTask(id: nat)
      requires Valid() && id < |loop.tasks| && loop.tasks[id].phase == Running
      modifies this, loop
      ensures Valid() && taken == old(taken) + [DoFinish(id)]
      ensures State() == Finish(old(State()), id)
      ensures loop.tasks[id].key !in inFlight
    {
      hide Run;
      OneMoreAction(quietPeriod, taken, DoFinish(id));
      taken := taken + [DoFinish(id)];
      loop.tasks := loop.tasks[id := loop.tasks[id].(phase := Finished)];
      inFlight := inFlight - {loop.tasks[id].key};
    }

    /** The loop's clock moves on. */
    method PassTime(time: real)
      requires Valid() && time >= 0.0
      modifies this`taken, loop`now
      ensures Valid() && taken == old(taken) + [Tick(time)]
      ensures loop.now == old(loop.now) + time
    {
      hide Run, Schedule, CancelKey, Fire, Start, Finish;
      OneMoreAction(quietPeriod, taken, Tick(time));
      taken := taken + [Tick(time)];
      loop.now := loop.now + time;
    }
  }
}
