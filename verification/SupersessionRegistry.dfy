/** The in-process registry that signals superseded reviews, and the law of its traces. */
module SupersessionRegistry {

  import opened Wrappers

  datatype ReviewKey = ReviewKey(repo: string, number: nat)

  /** A completion names the review that asks for it, by the position of its registration. */
  datatype Op = Register(key: ReviewKey) | Complete(key: ReviewKey, holder: nat)

  /** The registry on values: an event is named by the position of its registration in the trace. */
  datatype State = State(current: map<ReviewKey, nat>, superseded: set<ReviewKey>, signalled: set<nat>)

  function Apply(s: State, op: Op, position: nat): State {
    match op
    case Register(k) =>
      if k in s.current then State(s.current[k := position], s.superseded + {k}, s.signalled + {s.current[k]})
      else s.(current := s.current[k := position])
    case Complete(k, _) =>
      s.(current := s.current - {k}, superseded := s.superseded - {k})
  }

  function After(trace: seq<Op>): State {
    if trace == [] then State(map[], {}, {})
    else Apply(After(trace[..|trace| - 1]), trace[|trace| - 1], |trace| - 1)
  }

  // ----- the object -----


  /** Different registrations have different events. */
  ghost predicate Injective(m: map<nat, CancelEvent>) {
    forall i, j :: i in m && j in m && i != j ==> m[i] != m[j]
  }

  lemma ExtendInjective(m: map<nat, CancelEvent>, i: nat, e: CancelEvent)
    requires Injective(m) && i !in m && e !in m.Values
    ensures Injective(m[i := e])
  {
    assert forall j :: j in m ==> m[j] in m.Values;
  }

  lemma InjectiveAt(m: map<nat, CancelEvent>, i: nat)
    requires Injective(m) && i in m
    ensures forall j :: j in m && m[j] == m[i] ==> j == i
  {
  }

  /** The dictionary holds the current event of each key. */
  ghost predicate DictionaryIs(events: map<ReviewKey, CancelEvent>, issued: map<nat, CancelEvent>, current: map<ReviewKey, nat>) {
    && events.Keys == current.Keys
    && forall k :: k in current ==> current[k] in issued && events[k] == issued[current[k]]
  }

  lemma DictionaryAt(events: map<ReviewKey, CancelEvent>, issued: map<nat, CancelEvent>, current: map<ReviewKey, nat>, k: ReviewKey)
    requires DictionaryIs(events, issued, current)
    ensures k in events <==> k in current
    ensures k in current ==> current[k] in issued && events[k] == issued[current[k]] && events[k] in issued.Values
  {
  }

  lemma ExtendDictionary(events: map<ReviewKey, CancelEvent>, issued: map<nat, CancelEvent>, current: map<ReviewKey, nat>,
                         k: ReviewKey, i: nat, e: CancelEvent)
    requires DictionaryIs(events, issued, current) && i !in issued
    ensures DictionaryIs(events[k := e], issued[i := e], current[k := i])
  {
  }

  /** An event was issued for each registration and for nothing else. */
  ghost predicate IssuedFor(issued: map<nat, CancelEvent>, trace: seq<Op>) {
    && (forall i :: i in issued ==> i < |trace| && trace[i].Register?)
    && (forall i :: 0 <= i < |trace| && trace[i].Register? ==> i in issued)
  }

  lemma IssuedPositions(issued: map<nat, CancelEvent>, trace: seq<Op>)
    requires IssuedFor(issued, trace)
    ensures |trace| !in issued
  {
  }

  lemma ExtendIssued(issued: map<nat, CancelEvent>, trace: seq<Op>, k: ReviewKey, e: CancelEvent)
    requires IssuedFor(issued, trace)
    ensures IssuedFor(issued[|trace| := e], trace + [Register(k)])
  {
  }

  class CancelEvent {
    var isSet: bool

    constructor ()
      ensures !isSet
    {
      isSet := false;
    }
  }

  class Registry {
    var events: map<ReviewKey, CancelEvent>
    var superseded: set<ReviewKey>
    ghost var trace: seq<Op>
    ghost var issued: map<nat, CancelEvent>

    /** The dictionaries and every event ever issued are as the trace says. */
    ghost predicate Valid()
      reads this, issued.Values
    {
      var s := After(trace);
      && superseded == s.superseded
      && DictionaryIs(events, issued, s.current)
      && IssuedFor(issued, trace)
      && Injective(issued)
      && forall i :: i in issued ==> (issued[i].isSet <==> i in s.signalled)
    }

    constructor ()
      ensures Valid() && trace == [] && issued == map[]
    {
      events, superseded := map[], {};
      trace, issued := [], map[];
    }

    method RegisterReview(key: ReviewKey) returns (event: CancelEvent)
      requires Valid()
      modifies this, issued.Values
      ensures Valid() && fresh(event) && trace == old(trace) + [Register(key)]
      ensures issued == old(issued)[|old(trace)| := event]
    {
      hide After, Injective, DictionaryIs, IssuedFor;
      AfterOneMore(trace, Register(key));
      CurrentBelow(trace);
      ghost var s := After(trace);
      DictionaryAt(events, issued, s.current, key);
      IssuedPositions(issued, trace);
      if key in events {
        InjectiveAt(issued, s.current[key]);
        events[key].isSet := true;
        superseded := superseded + {key};
      }
      event := new CancelEvent();
      ExtendDictionary(events, issued, s.current, key, |trace|, event);
      ExtendInjective(issued, |trace|, event);
      ExtendIssued(issued, trace, key, event);
      events := events[key := event];
      issued := issued[|trace| := event];
      trace := trace + [Register(key)];
    }

    method CompleteReview(key: ReviewKey, ghost holder: nat)
      requires Valid()
      modifies this
      ensures Valid() && trace == old(trace) + [Complete(key, holder)] && issued == old(issued)
    {
      hide After;
      AfterOneMore(trace, Complete(key, holder));
      events := events - {key};
      superseded := superseded - {key};
      trace := trace + [Complete(key, holder)];
    }

    method IsCancelled(key: ReviewKey) returns (cancelled: bool)
      requires Valid()
      ensures cancelled <==> RegistersSinceComplete(trace, key) >= 2
    {
      CancelledIff(trace, key);
      return key in superseded;
    }
  }

  lemma AfterOneMore(trace: seq<Op>, op: Op)
    ensures After(trace + [op]) == Apply(After(trace), op, |trace|)
  {
    assert (trace + [op])[..|trace|] == trace;
  }

  /** Positions in the state are positions of the trace. */
  lemma {:induction false} CurrentBelow(trace: seq<Op>)
    ensures forall k :: k in After(trace).current ==>
              After(trace).current[k] < |trace| && trace[After(trace).current[k]] == Register(k)
    ensures forall i :: i in After(trace).signalled ==> i < |trace| && trace[i].Register?
  {
    if trace != [] {
      CurrentBelow(trace[..|trace| - 1]);
    }
  }

  // ----- the law -----

  /** How often the key was registered since it was last completed. */
  function RegistersSinceComplete(trace: seq<Op>, k: ReviewKey): nat {
    if trace == [] then 0 else
    var before := RegistersSinceComplete(trace[..|trace| - 1], k);
    var op := trace[|trace| - 1];
    if op.key != k then before else if op.Register? then before + 1 else 0
  }

  /** A key counts as cancelled exactly when it was registered at least twice since its last completion. */
  lemma {:induction false} CancelledIff(trace: seq<Op>, k: ReviewKey)
    ensures k in After(trace).superseded <==> RegistersSinceComplete(trace, k) >= 2
    ensures k in After(trace).current <==> RegistersSinceComplete(trace, k) >= 1
  {
    if trace != [] {
      CancelledIff(trace[..|trace| - 1], k);
    }
  }

  /** The first operation on the key after position i, if there is one. */
  function NextOp(trace: seq<Op>, i: nat, k: ReviewKey): (j: Option<nat>)
    requires i < |trace|
    ensures j.Some? ==> i < j.value < |trace| && trace[j.value].key == k
    ensures forall m :: i < m < (if j.Some? then j.value else |trace|) ==> trace[m].key != k
    decreases |trace| - i
  {
    if i + 1 == |trace| then None
    else if trace[i + 1].key == k then Some(i + 1)
    else NextOp(trace, i + 1, k)
  }

  lemma NextOpOfPrefix(trace: seq<Op>, i: nat, k: ReviewKey)
    requires i < |trace| - 1
    ensures var prefix := trace[..|trace| - 1];
            NextOp(trace, i, k) ==
            if NextOp(prefix, i, k).Some? then NextOp(prefix, i, k)
            else if trace[|trace| - 1].key == k then Some(|trace| - 1) else None
  {
    var prefix := trace[..|trace| - 1];
    var a, b := NextOp(trace, i, k), NextOp(prefix, i, k);
    assert forall m :: 0 <= m < |prefix| ==> prefix[m] == trace[m];
    assert b.Some? ==> trace[b.value].key == k;
    assert a.Some? && a.value < |prefix| ==> prefix[a.value] == trace[a.value];
  }

  /**
   The trace law. What became of the event of a registration is decided by the next operation
   on its key: another registration sets it, a completion drops it unset, and without one it
   is the current event of the key, unset.
   */
  lemma {:induction false} TraceLaw(trace: seq<Op>, i: nat)
    requires i < |trace| && trace[i].Register?
    ensures var s, next := After(trace), NextOp(trace, i, trace[i].key);
            && (i in s.signalled <==> next.Some? && trace[next.value].Register?)
            && (trace[i].key in s.current && s.current[trace[i].key] == i <==> next.None?)
  {
    var n := |trace| - 1;
    var prefix := trace[..n];
    CurrentBelow(prefix);
    if i < n {
      TraceLaw(prefix, i);
      NextOpOfPrefix(trace, i, trace[i].key);
    }
  }

  /** Every completion comes from the review that is current for its key. */
  predicate CompletedByHolder(trace: seq<Op>) {
    forall n :: 0 <= n < |trace| && trace[n].Complete? ==> IsCurrent(trace[..n], trace[n].key, trace[n].holder)
  }

  predicate IsCurrent(trace: seq<Op>, k: ReviewKey, i: nat) {
    k in After(trace).current && After(trace).current[k] == i
  }

  /** The review of registration i has not completed, and nothing has told it to stop. */
  predicate ActiveUnset(trace: seq<Op>, i: nat) {
    && i < |trace| && trace[i].Register? && i !in After(trace).signalled
    && forall n :: 0 <= n < |trace| && trace[n].Complete? ==> trace[n].holder != i
  }

  /** If only the current review of a key completes, at most one review of a key is active and not told to stop. */
  lemma AtMostOneActive(trace: seq<Op>, i: nat, j: nat)
    requires CompletedByHolder(trace)
    requires ActiveUnset(trace, i) && ActiveUnset(trace, j) && trace[i].key == trace[j].key
    ensures i == j
  {
    ActiveIsCurrent(trace, i);
    ActiveIsCurrent(trace, j);
  }

  lemma ActiveIsCurrent(trace: seq<Op>, i: nat)
    requires CompletedByHolder(trace) && ActiveUnset(trace, i)
    ensures IsCurrent(trace, trace[i].key, i)
  {
    TraceLaw(trace, i);
    var next := NextOp(trace, i, trace[i].key);
    if next.Some? && trace[next.value].Complete? {
      DroppedByHolder(trace, i, next.value);
    }
  }

  /** A completion that drops an unset event comes from that event's own review. */
  lemma DroppedByHolder(trace: seq<Op>, i: nat, n: nat)
    requires CompletedByHolder(trace) && i < n < |trace| && trace[i].Register?
    requires NextOp(trace, i, trace[i].key) == Some(n) && trace[n].Complete?
    ensures trace[n].holder == i
  {
    var prefix := trace[..n];
    TraceLaw(prefix, i);
    assert forall m :: 0 <= m < n ==> prefix[m] == trace[m];
    assert IsCurrent(prefix, trace[n].key, trace[n].holder);
  }
}
