/** The sliding-window rate limiter: an evicting queue that refines a count over the full history. */
module RateLimiter {

  import opened Wrappers

  // ----- the full-history specification -----

  /** The positions of the instants in (now - period, now]. */
  function Recent(history: seq<real>, period: real, now: real): set<nat> {
    set k: nat | k < |history| && now - period < history[k] <= now
  }

  /** How many instants of the history lie in (from, to]. */
  function InWindow(history: seq<real>, from: real, to: real): nat {
    if history == [] then 0 else
    var last := history[|history| - 1];
    InWindow(history[..|history| - 1], from, to) + (if from < last <= to then 1 else 0)
  }

  /** A call is admitted if the window that ends now has room. */
  predicate Admits(history: seq<real>, calls: int, period: real, now: real) {
    InWindow(history, now - period, now) < calls
  }

  /** The instants of the admitted calls, given the clock reading of every call so far. */
  function Accepted(readings: seq<real>, calls: int, period: real): seq<real> {
    if readings == [] then [] else
    var now := readings[|readings| - 1];
    var before := Accepted(readings[..|readings| - 1], calls, period);
    if Admits(before, calls, period, now) then before + [now] else before
  }

  /** A call is admitted exactly when fewer than the allowed calls were admitted in the period before it. */
  lemma {:induction false} AdmitsIff(history: seq<real>, calls: int, period: real, now: real)
    ensures InWindow(history, now - period, now) == |Recent(history, period, now)|
    ensures Admits(history, calls, period, now) <==> |Recent(history, period, now)| < calls
  {
    if history == [] {
      assert Recent(history, period, now) == {};
    } else {
      var n := |history| - 1;
      var before := history[..n];
      AdmitsIff(before, calls, period, now);
      assert Recent(history, period, now) ==
             Recent(before, period, now) + (if now - period < history[n] <= now then {n} else {});
    }
  }

  predicate NonDecreasing(s: seq<real>) {
    forall i, j :: 0 <= i < j < |s| ==> s[i] <= s[j]
  }

  predicate AllAtMost(s: seq<real>, bound: real) {
    forall i :: 0 <= i < |s| ==> s[i] <= bound
  }

  lemma {:induction false} AcceptedOrdered(readings: seq<real>, calls: int, period: real)
    requires NonDecreasing(readings)
    ensures NonDecreasing(Accepted(readings, calls, period))
    ensures readings != [] ==> AllAtMost(Accepted(readings, calls, period), readings[|readings| - 1])
    ensures readings == [] ==> Accepted(readings, calls, period) == []
  {
    if readings != [] {
      AcceptedOrdered(readings[..|readings| - 1], calls, period);
    }
  }

  /** A window reaching further back, over instants that are not later than its end, counts at least as many. */
  lemma {:induction false} WiderWindow(history: seq<real>, from: real, to: real, from': real, to': real)
    requires from' <= from && AllAtMost(history, to')
    ensures InWindow(history, from, to) <= InWindow(history, from', to')
  {
    if history != [] {
      WiderWindow(history[..|history| - 1], from, to, from', to');
    }
  }

  /**
   The rate is never exceeded: with a clock that does not go back, every half-open window of
   one period, anywhere in time, contains at most the allowed number of admitted calls.
   */
  lemma {:induction false} EveryWindowIsBounded(readings: seq<real>, calls: int, period: real, from: real)
    requires NonDecreasing(readings)
    ensures InWindow(Accepted(readings, calls, period), from, from + period) <= Max(calls, 0)
  {
    if readings != [] {
      var prefix := readings[..|readings| - 1];
      var now := readings[|readings| - 1];
      var before := Accepted(prefix, calls, period);
      EveryWindowIsBounded(prefix, calls, period, from);
      if Admits(before, calls, period, now) {
        AcceptedOrdered(readings, calls, period);
        var after := before + [now];
        assert after[..|after| - 1] == before;
        if from < now <= from + period {
          assert AllAtMost(before, now) by {
            assert forall i :: 0 <= i < |before| ==> before[i] == after[i];
          }
          WiderWindow(before, from, from + period, now - period, now);
        }
      }
    }
  }

  // ----- the queue -----

  /** Drop the instants at the front that are at or before the cutoff. */
  function Evicted(queue: seq<real>, cutoff: real): seq<real> {
    if queue == [] || queue[0] > cutoff then queue else Evicted(queue[1..], cutoff)
  }

  /** The queue is the end of the history; everything dropped is at or before the bound. */
  predicate IsTail(queue: seq<real>, history: seq<real>, dropped: real) {
    && |queue| <= |history| && queue == history[|history| - |queue|..]
    && AllAtMost(history[..|history| - |queue|], dropped)
  }

  lemma {:induction false} EvictedIsTail(queue: seq<real>, history: seq<real>, dropped: real, cutoff: real)
    requires IsTail(queue, history, dropped) && dropped <= cutoff
    ensures IsTail(Evicted(queue, cutoff), history, cutoff)
  {
    if queue != [] && queue[0] <= cutoff {
      EvictedIsTail(queue[1..], history, cutoff, cutoff);
    }
  }

  /** After eviction the length of the queue is the number of admitted calls in the window. */
  lemma TailCountsWindow(queue: seq<real>, history: seq<real>, cutoff: real, now: real)
    requires IsTail(queue, history, cutoff) && NonDecreasing(history) && AllAtMost(history, now)
    requires queue != [] ==> queue[0] > cutoff
    ensures |queue| == InWindow(history, cutoff, now)
  {
    var n := |history| - |queue|;
    assert forall i :: n <= i < |history| ==> history[i] == queue[i - n];
    CountFrom(history, n, cutoff, now);
  }

  lemma {:induction false} CountFrom(history: seq<real>, n: nat, cutoff: real, now: real)
    requires n <= |history|
    requires forall i :: 0 <= i < n ==> history[i] <= cutoff
    requires forall i :: n <= i < |history| ==> cutoff < history[i] <= now
    ensures InWindow(history, cutoff, now) == |history| - n
  {
    if history != [] {
      CountFrom(history[..|history| - 1], if n == |history| then n - 1 else n, cutoff, now);
    }
  }

  /** The queue is the end of the admitted calls; what was dropped is out of the window for good. */
  predicate QueueOk(queue: seq<real>, readings: seq<real>, calls: int, period: real) {
    && NonDecreasing(readings)
    && |queue| <= Max(calls, 0)
    && if readings == [] then queue == []
       else IsTail(queue, Accepted(readings, calls, period), readings[|readings| - 1] - period)
  }

  lemma AcceptedOneMore(readings: seq<real>, now: real, calls: int, period: real)
    requires NonDecreasing(readings) && (readings != [] ==> readings[|readings| - 1] <= now)
    ensures NonDecreasing(readings + [now])
    ensures var before := Accepted(readings, calls, period);
            && NonDecreasing(before) && AllAtMost(before, now)
            && Accepted(readings + [now], calls, period) ==
               if Admits(before, calls, period, now) then before + [now] else before
  {
    AcceptedOrdered(readings, calls, period);
    assert (readings + [now])[..|readings|] == readings;
  }

  lemma AppendToTail(queue: seq<real>, history: seq<real>, dropped: real, now: real)
    requires IsTail(queue, history, dropped)
    ensures IsTail(queue + [now], history + [now], dropped)
  {
    var n := |history| - |queue|;
    assert (history + [now])[..n] == history[..n];
    assert (history + [now])[n..] == history[n..] + [now];
  }

  /** Evicting, comparing the length and appending decides as the full history does. */
  lemma QueueRefinesHistory(queue: seq<real>, readings: seq<real>, calls: int, period: real, now: real)
    requires QueueOk(queue, readings, calls, period)
    requires readings != [] ==> readings[|readings| - 1] <= now
    ensures var evicted := Evicted(queue, now - period);
            && (|evicted| < calls <==> Admits(Accepted(readings, calls, period), calls, period, now))
            && QueueOk(if |evicted| < calls then evicted + [now] else evicted, readings + [now], calls, period)
  {
    hide Accepted, NonDecreasing, AllAtMost, Evicted, IsTail, InWindow;
    var history := Accepted(readings, calls, period);
    var cutoff := now - period;
    var evicted := Evicted(queue, cutoff);
    AcceptedOneMore(readings, now, calls, period);
    if readings == [] {
      NothingAccepted(calls, period, cutoff);
    } else {
      EvictedIsTail(queue, history, readings[|readings| - 1] - period, cutoff);
    }
    EvictedShrinks(queue, cutoff);
    TailCountsWindow(evicted, history, cutoff, now);
    AppendToTail(evicted, history, cutoff, now);
  }

  lemma NothingAccepted(calls: int, period: real, cutoff: real)
    ensures Accepted([], calls, period) == [] && Evicted([], cutoff) == [] && IsTail([], [], cutoff)
  {
  }

  lemma {:induction false} EvictedShrinks(queue: seq<real>, cutoff: real)
    ensures |Evicted(queue, cutoff)| <= |queue|
    ensures Evicted(queue, cutoff) != [] ==> Evicted(queue, cutoff)[0] > cutoff
  {
    if queue != [] && queue[0] <= cutoff {
      EvictedShrinks(queue[1..], cutoff);
    }
  }

  class Limiter {
    const calls: int
    const period: real
    var timestamps: seq<real>
    ghost var readings: seq<real>

    ghost predicate Valid()
      reads this
    {
      QueueOk(timestamps, readings, calls, period)
    }

    constructor (calls: int, period: real)
      ensures Valid() && readings == [] && this.calls == calls && this.period == period
    {
      this.calls, this.period := calls, period;
      timestamps, readings := [], [];
    }

    /** `acquire`: false stands for RateLimitedError. */
    method Acquire(now: real) returns (ok: bool)
      requires Valid()
      requires readings != [] ==> readings[|readings| - 1] <= now
      modifies this
      ensures Valid() && readings == old(readings) + [now]
      ensures ok <==> |Recent(Accepted(old(readings), calls, period), period, now)| < calls
      ensures Accepted(readings, calls, period) ==
              Accepted(old(readings), calls, period) + (if ok then [now] else [])
      ensures |timestamps| <= Max(calls, 0)
    {
      hide Accepted, Admits, NonDecreasing, IsTail, Recent;
      AdmitsIff(Accepted(readings, calls, period), calls, period, now);
      AcceptedOneMore(readings, now, calls, period);
      QueueRefinesHistory(timestamps, readings, calls, period, now);
      var cutoff := now - period;
      ghost var evicted := Evicted(timestamps, cutoff);
      while timestamps != [] && timestamps[0] <= cutoff
        invariant Evicted(timestamps, cutoff) == evicted
        modifies this`timestamps
      {
        timestamps := timestamps[1..];
      }
      readings := readings + [now];
      if |timestamps| >= calls {
        return false;
      }
      timestamps := timestamps + [now];
      return true;
    }
  }
}
