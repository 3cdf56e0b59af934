/**
 The guard that compares a pull request's head with the commit a review was made for: a cache
 with a time to live, conditional requests, and a retry loop.
 */
module ShaGuard {

  import opened Wrappers

  type Sha = string
  type Etag = string

  datatype PrKey = PrKey(owner: string, name: string, number: nat)

  datatype PrRef = PrRef(key: PrKey, expected: Sha)

  datatype GuardResult = Current | Stale | ApiError

  datatype CacheEntry = CacheEntry(sha: Sha, fetchedAt: real, etag: Option<Etag>)

  type Cache = map<PrKey, CacheEntry>

  const MAX_RETRIES: nat := 3
  const SHA_CACHE_TTL: real := 5.0

  /** What one request comes to; a network error includes timeouts. */
  datatype Outcome = Response(status: nat, sha: Sha, etag: Option<Etag>) | NetworkError

  /** One request as the waiting coroutine sees it: the cache others left meanwhile, the time, the outcome. */
  datatype Attempt = Attempt(meanwhile: Cache, now: real, outcome: Outcome)

  function Verdict(sha: Sha, expected: Sha): GuardResult {
    if sha == expected then Current else Stale
  }

  function Lookup(cache: Cache, key: PrKey): Option<CacheEntry> {
    if key in cache then Some(cache[key]) else None
  }

  predicate IsFresh(entry: CacheEntry, now: real) {
    now - entry.fetchedAt < SHA_CACHE_TTL
  }

  /** The If-None-Match header: an entry without an etag, or with an empty one, sends none. */
  function SentEtag(stale: Option<CacheEntry>): Option<Etag> {
    if stale.Some? && stale.value.etag.Some? && |stale.value.etag.value| > 0 then stale.value.etag else None
  }

  /** What an outcome decides; None means try again if an attempt is left. */
  function Decide(o: Outcome, stale: Option<CacheEntry>, expected: Sha): Option<GuardResult> {
    match o
    case NetworkError => None
    case Response(status, sha, _) =>
      if status == 200 then Some(Verdict(sha, expected))
      else if status == 304 then Some(if stale.None? then ApiError else Verdict(stale.value.sha, expected))
      else if status == 403 || status == 429 then Some(ApiError)
      else if status >= 500 then None
      else Some(ApiError)
  }

  /** The entry an outcome writes: a 200 response a new one, a 304 response the old one again. */
  function Refresh(o: Outcome, stale: Option<CacheEntry>, now: real): Option<CacheEntry> {
    if o.Response? && o.status == 200 then Some(CacheEntry(o.sha, now, o.etag))
    else if o.Response? && o.status == 304 && stale.Some? then Some(CacheEntry(stale.value.sha, now, stale.value.etag))
    else None
  }

  function Store(cache: Cache, key: PrKey, entry: Option<CacheEntry>): Cache {
    match entry
    case None => cache
    case Some(e) => cache[key := e]
  }

  /** The first decisive outcome decides; if there is none, the API has failed. */
  function FirstDecisive(attempts: seq<Attempt>, stale: Option<CacheEntry>, expected: Sha): GuardResult {
    if attempts == [] then ApiError else
    match Decide(attempts[0].outcome, stale, expected)
    case Some(r) => r
    case None => FirstDecisive(attempts[1..], stale, expected)
  }

  /** The number of requests made up to and including the first decisive one. */
  function Requests(attempts: seq<Attempt>, stale: Option<CacheEntry>, expected: Sha): (n: nat)
    ensures n <= |attempts|
  {
    if attempts == [] then 0
    else if Decide(attempts[0].outcome, stale, expected).Some? then 1
    else 1 + Requests(attempts[1..], stale, expected)
  }

  /** Seconds slept between the requests made: 1 after the first, 2 after the second. */
  function SleptFor(requests: nat): real {
    if requests <= 1 then 0.0 else if requests == 2 then 1.0 else 3.0
  }

  /** What a check without a fresh entry answers. */
  function RemoteAnswer(attempts: seq<Attempt>, stale: Option<CacheEntry>, expected: Sha): GuardResult
    requires |attempts| == MAX_RETRIES
  {
    FirstDecisive(attempts, stale, expected)
  }

  /** The cache after a check: what others left when its last response came, and its own entry. */
  function CacheAfter(pr: PrRef, attempts: seq<Attempt>, stale: Option<CacheEntry>): Cache
    requires |attempts| == MAX_RETRIES
  {
    var n := Requests(attempts, stale, pr.expected);
    if n == 0 then map[] else
    var last := attempts[n - 1];
    Store(last.meanwhile, pr.key, Refresh(last.outcome, stale, last.now))
  }

  /** One attempt at a time, from position k. */
  lemma NextAttempt(attempts: seq<Attempt>, k: nat, stale: Option<CacheEntry>, expected: Sha)
    requires k < |attempts|
    ensures var d, rest := Decide(attempts[k].outcome, stale, expected), attempts[k + 1..];
            && FirstDecisive(attempts[k..], stale, expected) == (if d.Some? then d.value else FirstDecisive(rest, stale, expected))
            && Requests(attempts[k..], stale, expected) == (if d.Some? then 1 else 1 + Requests(rest, stale, expected))
  {
    hide Decide;
    assert attempts[k..][1..] == attempts[k + 1..];
  }

  lemma NoAttempt(attempts: seq<Attempt>, stale: Option<CacheEntry>, expected: Sha)
    ensures FirstDecisive(attempts[|attempts|..], stale, expected) == ApiError
    ensures Requests(attempts[|attempts|..], stale, expected) == 0
  {
  }

  lemma LastAttempt(attempts: seq<Attempt>, stale: Option<CacheEntry>, expected: Sha)
    requires |attempts| == MAX_RETRIES && Decide(attempts[2].outcome, stale, expected).None?
    ensures FirstDecisive(attempts[2..], stale, expected) == ApiError
    ensures Requests(attempts[2..], stale, expected) == 1
  {
    assert attempts[2..][1..] == [];
  }

  class Guard {
    var cache: Cache

    constructor ()
      ensures cache == map[]
    {
      cache := map[];
    }

    /** `check_sha_current`: serve from a fresh entry, otherwise ask up to three times. */
    method CheckShaCurrent(pr: PrRef, now: real, attempts: seq<Attempt>)
      returns (result: GuardResult, requests: nat, slept: real)
      requires |attempts| == MAX_RETRIES
      modifies this
      ensures
        var entry := Lookup(old(cache), pr.key);
        if pr.key in old(cache) && now - old(cache)[pr.key].fetchedAt < 5.0 then
          && result == (if old(cache)[pr.key].sha == pr.expected then Current else Stale)
          && requests == 0 && slept == 0.0 && cache == old(cache)
        else
          && result == RemoteAnswer(attempts, entry, pr.expected)
          && requests == Requests(attempts, entry, pr.expected) && 1 <= requests <= 3
          && slept == (if requests == 1 then 0.0 else if requests == 2 then 1.0 else 3.0)
          && cache == CacheAfter(pr, attempts, entry)
    {
      hide FirstDecisive, Requests;
      requests, slept := 0, 0.0;
      if pr.key in cache && now - cache[pr.key].fetchedAt < SHA_CACHE_TTL {
        return Verdict(cache[pr.key].sha, pr.expected), 0, 0.0;
      }
      var staleEntry := Lookup(cache, pr.key);
      assert attempts[0..] == attempts;
      var delay := 1.0;
      for attempt := 0 to MAX_RETRIES
        invariant requests == attempt && slept == SleptFor(if attempt == MAX_RETRIES then attempt else attempt + 1)
        invariant delay == (if attempt == 0 then 1.0 else if attempt == 1 then 2.0 else 4.0) || attempt == MAX_RETRIES
        invariant FirstDecisive(attempts[attempt..], staleEntry, pr.expected) == FirstDecisive(attempts, staleEntry, pr.expected)
        invariant attempt + Requests(attempts[attempt..], staleEntry, pr.expected) == Requests(attempts, staleEntry, pr.expected)
        invariant attempt > 0 ==> cache == attempts[attempt - 1].meanwhile
        invariant attempt > 0 ==> Refresh(attempts[attempt - 1].outcome, staleEntry, attempts[attempt - 1].now).None?
      {
        NextAttempt(attempts, attempt, staleEntry, pr.expected);
        cache := attempts[attempt].meanwhile;
        requests := requests + 1;
        var response := attempts[attempt].outcome;
        if response.NetworkError? {
          if attempt < MAX_RETRIES - 1 {
            slept := slept + delay;
            delay := 2.0 * delay;
          }
          continue;
        }
        if response.status == 200 {
          cache := cache[pr.key := CacheEntry(response.sha, attempts[attempt].now, response.etag)];
          return Verdict(response.sha, pr.expected), requests, slept;
        }
        if response.status == 304 {
          if staleEntry.None? {
            return ApiError, requests, slept;
          }
          cache := cache[pr.key := CacheEntry(staleEntry.value.sha, attempts[attempt].now, staleEntry.value.etag)];
          return Verdict(staleEntry.value.sha, pr.expected), requests, slept;
        }
        if response.status == 403 || response.status == 429 {
          return ApiError, requests, slept;
        }
        if response.status >= 500 && attempt < MAX_RETRIES - 1 {
          slept := slept + delay;
          delay := 2.0 * delay;
          continue;
        }
        if response.status >= 500 {
          LastAttempt(attempts, staleEntry, pr.expected);
        }
        return ApiError, requests, slept;
      }
      NoAttempt(attempts, staleEntry, pr.expected);
      return ApiError, requests, slept;
    }

    /** `exit_guard`: forget the entry first, then check. */
    method ExitGuard(pr: PrRef, now: real, attempts: seq<Attempt>)
      returns (result: GuardResult, requests: nat, slept: real)
      requires |attempts| == MAX_RETRIES
      modifies this
      ensures result == RemoteAnswer(attempts, None, pr.expected)
      ensures requests == Requests(attempts, None, pr.expected) && 1 <= requests <= 3
      ensures slept == (if requests == 1 then 0.0 else if requests == 2 then 1.0 else 3.0)
      ensures cache == CacheAfter(pr, attempts, None)
    {
      cache := cache - {pr.key};
      result, requests, slept := CheckShaCurrent(pr, now, attempts);
    }
  }

  // ----- what the answers mean -----

  /** Attempt i decides: all before it were server or network errors. */
  predicate DecidedAt(attempts: seq<Attempt>, i: nat, stale: Option<CacheEntry>, expected: Sha, r: GuardResult) {
    && i < |attempts| && Decide(attempts[i].outcome, stale, expected) == Some(r)
    && forall j :: 0 <= j < i ==> Decide(attempts[j].outcome, stale, expected).None?
  }

  /** A verdict about the commit comes from the first decisive response and from nothing else. */
  lemma {:induction false} VerdictIff(attempts: seq<Attempt>, stale: Option<CacheEntry>, expected: Sha, r: GuardResult)
    requires r != ApiError
    ensures FirstDecisive(attempts, stale, expected) == r <==>
            exists i: nat :: DecidedAt(attempts, i, stale, expected, r)
  {
    if attempts != [] {
      var d := Decide(attempts[0].outcome, stale, expected);
      if d.Some? {
        if d.value == r {
          assert DecidedAt(attempts, 0, stale, expected, r);
        }
        forall i: nat | DecidedAt(attempts, i, stale, expected, r) ensures i == 0 {
        }
      } else {
        VerdictIff(attempts[1..], stale, expected, r);
        if FirstDecisive(attempts, stale, expected) == r {
          var i: nat :| DecidedAt(attempts[1..], i, stale, expected, r);
          assert DecidedAt(attempts, i + 1, stale, expected, r);
        }
        forall i: nat | DecidedAt(attempts, i, stale, expected, r)
          ensures i > 0 && DecidedAt(attempts[1..], i - 1, stale, expected, r)
        {
          assert forall j :: 0 <= j < i - 1 ==> attempts[1..][j] == attempts[j + 1];
        }
      }
    }
  }

  /** Attempt i is the first that got an answer other than a server error. */
  predicate FirstAnswer(attempts: seq<Attempt>, i: nat) {
    && i < |attempts| && attempts[i].outcome.Response? && attempts[i].outcome.status < 500
    && forall j :: 0 <= j < i ==> attempts[j].outcome.NetworkError? || attempts[j].outcome.status >= 500
  }

  /** The response shows the commit: a 200 that carries it, or a 304 while the stale entry holds it. */
  predicate Shows(o: Outcome, stale: Option<CacheEntry>, sha: Sha) {
    || (o.Response? && o.status == 200 && o.sha == sha)
    || (o.Response? && o.status == 304 && stale.Some? && stale.value.sha == sha)
  }

  lemma DecidedIff(attempts: seq<Attempt>, i: nat, stale: Option<CacheEntry>, expected: Sha, r: GuardResult)
    requires r != ApiError
    ensures DecidedAt(attempts, i, stale, expected, r) <==>
            FirstAnswer(attempts, i) && exists sha :: Shows(attempts[i].outcome, stale, sha) && (r == Current <==> sha == expected)
  {
    forall j | 0 <= j < |attempts|
      ensures Decide(attempts[j].outcome, stale, expected).None? <==>
              attempts[j].outcome.NetworkError? || attempts[j].outcome.status >= 500
    {
    }
    if i < |attempts| && attempts[i].outcome.Response? {
      var o := attempts[i].outcome;
      assert o.status == 200 ==> Shows(o, stale, o.sha);
      assert o.status == 304 && stale.Some? ==> Shows(o, stale, stale.value.sha);
    }
  }

  /**
   The answer of a check by statuses, whatever entry it found: Current, or Stale, exactly when
   the first response that is neither a server nor a network error shows the expected, or
   another, commit. Everything else is an API error.
   */
  lemma CheckIff(attempts: seq<Attempt>, stale: Option<CacheEntry>, expected: Sha, r: GuardResult)
    requires |attempts| == MAX_RETRIES && r != ApiError
    ensures RemoteAnswer(attempts, stale, expected) == r <==>
            exists i: nat, sha :: FirstAnswer(attempts, i) && Shows(attempts[i].outcome, stale, sha) && (r == Current <==> sha == expected)
  {
    VerdictIff(attempts, stale, expected, r);
    hide FirstDecisive, Decide;
    if RemoteAnswer(attempts, stale, expected) == r {
      var i: nat :| DecidedAt(attempts, i, stale, expected, r);
      DecidedIff(attempts, i, stale, expected, r);
    }
    if i: nat, sha :| FirstAnswer(attempts, i) && Shows(attempts[i].outcome, stale, sha) && (r == Current <==> sha == expected) {
      DecidedIff(attempts, i, stale, expected, r);
    }
  }

  /** The check makes its last request at the first such response, or uses up its attempts. */
  lemma {:induction false} RequestsIff(attempts: seq<Attempt>, stale: Option<CacheEntry>, expected: Sha)
    ensures forall i: nat :: FirstAnswer(attempts, i) ==> Requests(attempts, stale, expected) == i + 1
    ensures (forall i: nat :: !FirstAnswer(attempts, i)) ==> Requests(attempts, stale, expected) == |attempts|
  {
    if attempts != [] {
      var rest := attempts[1..];
      RequestsIff(rest, stale, expected);
      if Decide(attempts[0].outcome, stale, expected).Some? {
        assert FirstAnswer(attempts, 0);
      } else {
        forall i: nat ensures FirstAnswer(attempts, i) <==> i > 0 && FirstAnswer(rest, i - 1) {
          LaterAnswer(attempts, i);
        }
        if i: nat :| FirstAnswer(rest, i) {
          assert FirstAnswer(attempts, i + 1);
        }
      }
    }
  }

  lemma LaterAnswer(attempts: seq<Attempt>, i: nat)
    requires attempts != [] && (attempts[0].outcome.NetworkError? || attempts[0].outcome.status >= 500)
    ensures FirstAnswer(attempts, i) <==> i > 0 && FirstAnswer(attempts[1..], i - 1)
  {
    if i > 0 && FirstAnswer(attempts, i) {
      assert forall j :: 0 <= j < i - 1 ==> attempts[1..][j] == attempts[j + 1];
    }
    if i > 0 && FirstAnswer(attempts[1..], i - 1) {
      assert forall j :: 0 < j < i ==> attempts[j] == attempts[1..][j - 1];
    }
  }

  /**
   What a check leaves in the cache, by statuses: a 200 enters its commit and etag, a 304 enters
   the stale entry's again, both dated now; anything else leaves the cache as others left it.
   */
  lemma CacheIff(pr: PrRef, attempts: seq<Attempt>, stale: Option<CacheEntry>)
    requires |attempts| == MAX_RETRIES
    ensures forall i: nat :: FirstAnswer(attempts, i) ==>
              var a := attempts[i];
              CacheAfter(pr, attempts, stale) ==
              if a.outcome.status == 200 then a.meanwhile[pr.key := CacheEntry(a.outcome.sha, a.now, a.outcome.etag)]
              else if a.outcome.status == 304 && stale.Some?
              then a.meanwhile[pr.key := CacheEntry(stale.value.sha, a.now, stale.value.etag)]
              else a.meanwhile
    ensures (forall i: nat :: !FirstAnswer(attempts, i)) ==> CacheAfter(pr, attempts, stale) == attempts[2].meanwhile
  {
    RequestsIff(attempts, stale, pr.expected);
    if forall i: nat :: !FirstAnswer(attempts, i) {
      NoAnswerFails(attempts, 2);
    }
  }

  /** Without a first answer every attempt failed. */
  lemma {:induction false} NoAnswerFails(attempts: seq<Attempt>, n: nat)
    requires n < |attempts| && forall i: nat :: !FirstAnswer(attempts, i)
    ensures forall j :: 0 <= j <= n ==> attempts[j].outcome.NetworkError? || attempts[j].outcome.status >= 500
  {
    if n > 0 {
      NoAnswerFails(attempts, n - 1);
    }
    assert !FirstAnswer(attempts, n);
  }

  /** The etag that is sent is the stale entry's, unless it has none or an empty one. */
  lemma SentEtagIff(stale: Option<CacheEntry>, etag: Etag)
    ensures SentEtag(stale) == Some(etag) <==> stale.Some? && stale.value.etag == Some(etag) && etag != ""
  {
  }

  /** Attempt i is the first that got an answer other than a server error, and it is a 200. */
  predicate FirstAnswerIs200(attempts: seq<Attempt>, i: nat) {
    && i < |attempts| && attempts[i].outcome.Response? && attempts[i].outcome.status == 200
    && forall j :: 0 <= j < i ==> attempts[j].outcome.NetworkError? || attempts[j].outcome.status >= 500
  }

  lemma DecidedByThe200(attempts: seq<Attempt>, i: nat, expected: Sha, r: GuardResult)
    requires r != ApiError
    ensures DecidedAt(attempts, i, None, expected, r) <==>
            FirstAnswerIs200(attempts, i) && Verdict(attempts[i].outcome.sha, expected) == r
  {
    forall j | 0 <= j < |attempts|
      ensures Decide(attempts[j].outcome, None, expected).None? <==>
              attempts[j].outcome.NetworkError? || attempts[j].outcome.status >= 500
    {
    }
  }

  /**
   The exit guard lets a review through exactly when the first response that is neither a server
   nor a network error is a 200 with the expected commit, and stops it as stale exactly when
   that response is a 200 with another commit. Rate limits, client errors, unexpected 304s and
   outages give neither.
   */
  lemma ExitGuardIff(attempts: seq<Attempt>, expected: Sha, r: GuardResult)
    requires |attempts| == MAX_RETRIES && r != ApiError
    ensures RemoteAnswer(attempts, None, expected) == r <==>
            exists i: nat :: FirstAnswerIs200(attempts, i) && Verdict(attempts[i].outcome.sha, expected) == r
  {
    VerdictIff(attempts, None, expected, r);
    forall i: nat
      ensures DecidedAt(attempts, i, None, expected, r) <==>
              FirstAnswerIs200(attempts, i) && Verdict(attempts[i].outcome.sha, expected) == r
    {
      DecidedByThe200(attempts, i, expected, r);
    }
    if RemoteAnswer(attempts, None, expected) == r {
      var i: nat :| DecidedAt(attempts, i, None, expected, r);
      assert FirstAnswerIs200(attempts, i);
    }
    if i: nat :| FirstAnswerIs200(attempts, i) && Verdict(attempts[i].outcome.sha, expected) == r {
      assert DecidedAt(attempts, i, None, expected, r);
    }
  }
}
