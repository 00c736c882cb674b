/** The in-memory rate limiter: it counts and reports, never refuses. */
module RateLimit {
  import opened FixedWindow

  datatype Quota = Quota(count: nat, resetTime: int, blocked: bool)

  datatype Headers = Headers(limit: nat, remaining: nat, reset: int)

  const DEFAULT_WINDOW_MS: nat := 60_000
  const DEFAULT_MAX_REQUESTS: nat := 100

  /** Seconds, rounded up. */
  function CeilSeconds(ms: int): int {
    -(-ms / 1000)
  }

  /** The least second that is not before the instant. */
  predicate FirstSecond(second: int, ms: int) {
    ms <= 1000 * second && 1000 * (second - 1) < ms
  }

  lemma CeilingIsFirst(ms: int)
    ensures FirstSecond(CeilSeconds(ms), ms)
    ensures forall second: int :: FirstSecond(second, ms) ==> second == CeilSeconds(ms)
  {
  }

  function Counted(quotas: map<string, Quota>, key: string, now: int, windowMs: nat, maxRequests: nat): Quota {
    var opens := key !in quotas || now >= quotas[key].resetTime;
    var count := if opens then 1 else quotas[key].count + 1;
    Quota(count, if opens then now + windowMs else quotas[key].resetTime,
          count > maxRequests || (!opens && quotas[key].blocked))
  }

  function HeadersOf(quota: Quota, maxRequests: nat): Headers {
    var remaining := if quota.count > maxRequests then 0 else maxRequests - quota.count;
    Headers(maxRequests, remaining, CeilSeconds(quota.resetTime))
  }

  function Unexpired(quotas: map<string, Quota>, now: int): map<string, Quota> {
    map key | key in quotas && now < quotas[key].resetTime :: quotas[key]
  }

  class RateLimitMiddleware {
    const windowMs: nat
    const maxRequests: nat
    var clientQuotas: map<string, Quota>

    /** Zero counts as not configured. */
    constructor (windowMs: nat, maxRequests: nat)
      ensures this.windowMs == (if windowMs == 0 then 60_000 else windowMs)
      ensures this.maxRequests == (if maxRequests == 0 then 100 else maxRequests)
      ensures clientQuotas == map[]
    {
      this.windowMs := if windowMs == 0 then DEFAULT_WINDOW_MS else windowMs;
      this.maxRequests := if maxRequests == 0 then DEFAULT_MAX_REQUESTS else maxRequests;
      clientQuotas := map[];
    }

    method Use(key: string, now: int) returns (headers: Headers)
      modifies this
      ensures
        var quota := Counted(old(clientQuotas), key, now, windowMs, maxRequests);
        clientQuotas == old(clientQuotas)[key := quota] && headers == HeadersOf(quota, maxRequests)
      ensures
        var opens := key !in old(clientQuotas) || old(clientQuotas)[key].resetTime <= now;
        var quota := clientQuotas[key];
        quota.count == (if opens then 1 else old(clientQuotas)[key].count + 1) &&
        quota.resetTime == (if opens then now + windowMs else old(clientQuotas)[key].resetTime) &&
        headers.limit == maxRequests && FirstSecond(headers.reset, quota.resetTime) &&
        (quota.count <= maxRequests ==> headers.remaining == maxRequests - quota.count) &&
        (quota.count > maxRequests ==> headers.remaining == 0 && quota.blocked)
    {
      if key !in clientQuotas || now >= clientQuotas[key].resetTime {
        clientQuotas := clientQuotas[key := Quota(0, now + windowMs, false)];
      }
      var quota := clientQuotas[key];
      quota := quota.(count := quota.count + 1);
      var left := maxRequests - quota.count;
      headers := Headers(maxRequests, if left < 0 then 0 else left, CeilSeconds(quota.resetTime));
      if quota.count > maxRequests {
        quota := quota.(blocked := true);
      }
      clientQuotas := clientQuotas[key := quota];
      CeilingIsFirst(quota.resetTime);
    }

    method CleanupExpiredQuotas(now: int)
      modifies this
      ensures clientQuotas == Unexpired(old(clientQuotas), now)
      ensures forall key | key in old(clientQuotas) :: key in clientQuotas <==> now < old(clientQuotas)[key].resetTime
      ensures forall key | key in clientQuotas ::
        key in old(clientQuotas) && clientQuotas[key] == old(clientQuotas)[key]
    {
      var keys := clientQuotas.Keys;
      while keys != {}
        invariant keys <= old(clientQuotas).Keys
        invariant forall key | key in clientQuotas ::
          key in old(clientQuotas) && clientQuotas[key] == old(clientQuotas)[key]
        invariant forall key | key in old(clientQuotas) ::
          if key in keys then key in clientQuotas else key in clientQuotas <==> now < old(clientQuotas)[key].resetTime
        decreases keys
      {
        var key :| key in keys;
        keys := keys - {key};
        if now >= clientQuotas[key].resetTime {
          clientQuotas := clientQuotas - {key};
        }
      }
      assert clientQuotas.Keys == Unexpired(old(clientQuotas), now).Keys;
    }
  }

  /** The configuration of the limiter. */
  datatype Limits = Limits(windowMs: nat, maxRequests: nat)

  // ---------- Refinement of the log ----------

  function Step(quotas: map<string, Quota>, e: Event<Limits>): map<string, Quota> {
    match e
    case Hit(key, limits, at) => quotas[key := Counted(quotas, key, at, limits.windowMs, limits.maxRequests)]
    case Cleanup(at) => Unexpired(quotas, at)
  }

  function After(events: seq<Event<Limits>>): map<string, Quota> {
    if events == [] then map[] else Step(After(events[..|events| - 1]), events[|events| - 1])
  }

  predicate HitsUnder(events: seq<Event<Limits>>, limits: Limits) {
    forall e | e in events :: e.Hit? && e.rule == limits
  }

  /** One client's entry, read off the times of its hits. */
  predicate EntryIsLog(quotas: map<string, Quota>, key: string, hits: seq<int>, limits: Limits) {
    if hits == [] then key !in quotas
    else
      key in quotas && quotas[key].count == Since(hits, limits.windowMs) &&
      quotas[key].resetTime == hits[First(hits, limits.windowMs)] + limits.windowMs &&
      (quotas[key].blocked <==> Since(hits, limits.windowMs) > limits.maxRequests)
  }

  lemma OwnHit(quotas: map<string, Quota>, key: string, hits: seq<int>, limits: Limits, at: int)
    requires EntryIsLog(quotas, key, hits, limits)
    ensures EntryIsLog(Step(quotas, Hit(key, limits, at)), key, hits + [at], limits)
  {
    assert (hits + [at])[..|hits|] == hits;
  }

  lemma OtherHit(quotas: map<string, Quota>, key: string, hits: seq<int>, limits: Limits, e: Event<Limits>)
    requires EntryIsLog(quotas, key, hits, limits) && e.Hit? && e.key != key
    ensures EntryIsLog(Step(quotas, e), key, hits, limits)
  {
    hide Counted, Since, First;
  }

  lemma {:induction false} EntriesAreLogs(events: seq<Event<Limits>>, key: string, limits: Limits)
    requires HitsUnder(events, limits)
    ensures EntryIsLog(After(events), key, Times(events, key), limits)
  {
    if events != [] {
      hide EntryIsLog, Step;
      var before, e := events[..|events| - 1], events[|events| - 1];
      assert e in events && forall x | x in before :: x in events;
      EntriesAreLogs(before, key, limits);
      if e.key == key {
        OwnHit(After(before), key, Times(before, key), limits, e.at);
        assert e == Hit(key, limits, e.at);
      } else {
        OtherHit(After(before), key, Times(before, key), limits, e);
        assert Times(before, key) + [] == Times(before, key);
      }
    } else {
      assert EntryIsLog(map[], key, [], limits);
    }
  }

  /**
   In a run over any number of clients, one client's headers depend on its own log alone: the hits of its current
   window, and when that window ends. A client without a hit has no quota.
   */
  lemma HeadersAreLog(events: seq<Event<Limits>>, key: string, limits: Limits)
    requires HitsUnder(events, limits)
    ensures
      var after, hits := After(events), Times(events, key);
      if hits == [] then key !in after
      else
        var since, end := Since(hits, limits.windowMs), hits[First(hits, limits.windowMs)] + limits.windowMs;
        key in after && (after[key].blocked <==> since > limits.maxRequests) &&
        var headers := HeadersOf(after[key], limits.maxRequests);
        headers.limit == limits.maxRequests && FirstSecond(headers.reset, end) &&
        headers.remaining == (if since > limits.maxRequests then 0 else limits.maxRequests - since)
  {
    hide After, Times, Since, First, CeilSeconds, FirstSecond;
    EntriesAreLogs(events, key, limits);
    if Times(events, key) != [] {
      CeilingIsFirst(After(events)[key].resetTime);
    }
  }

  // ---------- Cleanup ----------

  function Answers(quotas: map<string, Quota>, events: seq<Event<Limits>>): seq<Headers>
    decreases events
  {
    if events == [] then []
    else
      var e, next := events[0], Step(quotas, events[0]);
      (if e.Hit? then [HeadersOf(next[e.key], e.rule.maxRequests)] else []) + Answers(next, events[1..])
  }

  function WindowEnd(quota: Quota): int {
    quota.resetTime
  }

  lemma {:induction false} TrimmedMapsAgree(a: map<string, Quota>, b: map<string, Quota>, events: seq<Event<Limits>>,
        now: int)
    requires Trimmed(a, b, WindowEnd, now) && Timed(events, now)
    ensures Answers(a, events) == Answers(b, WithoutCleanups(events))
    decreases events
  {
    if events != [] {
      var e := events[0];
      CleanupsAreDropped(events);
      if e.Hit? {
        TrimmedMapsAgree(Step(a, e), Step(b, e), events[1..], e.at);
      } else {
        assert Answers(a, events) == Answers(Step(a, e), events[1..]);
        TrimmedMapsAgree(Step(a, e), b, events[1..], e.at);
      }
    }
  }

  /** Cleanups anywhere in a run change no header of any later request. */
  lemma CleanupIsUnobservable(quotas: map<string, Quota>, events: seq<Event<Limits>>, now: int)
    requires Timed(events, now)
    ensures Answers(quotas, events) == Answers(quotas, WithoutCleanups(events))
  {
    TrimmedMapsAgree(quotas, quotas, events, now);
  }

  /** What the last of some requests is answered. */
  function LastAnswer(sofar: seq<Event<Limits>>): Headers
    requires sofar != [] && sofar[|sofar| - 1].Hit?
  {
    var e := sofar[|sofar| - 1];
    HeadersOf(Step(After(sofar[..|sofar| - 1]), e)[e.key], e.rule.maxRequests)
  }

  lemma FirstAnswer(before: seq<Event<Limits>>, events: seq<Event<Limits>>)
    requires events != [] && events[0].Hit?
    ensures Answers(After(before), events) ==
            [LastAnswer(before + [events[0]])] + Answers(After(before + [events[0]]), events[1..])
  {
    var longer := before + [events[0]];
    assert longer[..|longer| - 1] == before && longer[|longer| - 1] == events[0];
    hide HeadersOf;
  }

  lemma {:induction false} AnswersCount(before: seq<Event<Limits>>, events: seq<Event<Limits>>)
    requires forall e | e in events :: e.Hit?
    ensures |Answers(After(before), events)| == |events|
    decreases events
  {
    hide Answers, After, LastAnswer;
    if events != [] {
      assert events[0] in events && forall e | e in events[1..] :: e in events;
      FirstAnswer(before, events);
      AnswersCount(before + [events[0]], events[1..]);
    } else {
      NoAnswer(before);
    }
  }

  lemma NoAnswer(before: seq<Event<Limits>>)
    ensures Answers(After(before), []) == []
  {
  }

  /** Requests alone are answered one after the other from what those before them left. */
  lemma {:induction false} AnswersFollowRun(before: seq<Event<Limits>>, events: seq<Event<Limits>>, k: nat)
    requires k < |events| && forall e | e in events :: e.Hit?
    ensures events[k].Hit? && (before + events[..k + 1])[|before| + k] == events[k]
    ensures |Answers(After(before), events)| == |events|
    ensures Answers(After(before), events)[k] == LastAnswer(before + events[..k + 1])
    decreases events
  {
    assert events[k] in events && events[0] in events && forall e | e in events[1..] :: e in events;
    hide Answers, After, LastAnswer;
    AnswersCount(before, events);
    FirstAnswer(before, events);
    if k == 0 {
      assert events[..1] == [events[0]];
    } else {
      assert before + [events[0]] + events[1..][..k] == before + events[..k + 1];
      AnswersFollowRun(before + [events[0]], events[1..], k - 1);
    }
  }

  /** Headers that tell the log of one client. */
  predicate ShowsLog(headers: Headers, hits: seq<int>, limits: Limits)
    requires hits != []
  {
    var since, end := Since(hits, limits.windowMs), hits[First(hits, limits.windowMs)] + limits.windowMs;
    headers.limit == limits.maxRequests && FirstSecond(headers.reset, end) &&
    headers.remaining == (if since > limits.maxRequests then 0 else limits.maxRequests - since)
  }

  lemma LastAnswerIsLog(sofar: seq<Event<Limits>>, limits: Limits)
    requires sofar != [] && HitsUnder(sofar, limits)
    ensures
      var e := sofar[|sofar| - 1];
      var hits := Times(sofar, e.key);
      e.Hit? && hits != [] && hits[|hits| - 1] == e.at && ShowsLog(LastAnswer(sofar), hits, limits)
  {
    var e := sofar[|sofar| - 1];
    assert e in sofar;
    TimesStep(sofar, e.key);
    hide Times, Since, First, FirstSecond, HeadersOf;
    HeadersAreLog(sofar, e.key, limits);
  }

  /** In any run, with cleanups anywhere, each request is answered once, with headers read off its own client's log. */
  lemma AnswersAreLogs(events: seq<Event<Limits>>, now: int, limits: Limits, k: nat)
    requires Timed(events, now) && HitsUnder(WithoutCleanups(events), limits) && k < |WithoutCleanups(events)|
    ensures
      var requests := WithoutCleanups(events);
      var hits := Times(requests[..k + 1], requests[k].key);
      |Answers(map[], events)| == |requests| && hits != [] && hits[|hits| - 1] == requests[k].at &&
      ShowsLog(Answers(map[], events)[k], hits, limits)
  {
    CleanupIsUnobservable(map[], events, now);
    assert After([]) == map[];
    hide *;
    RequestAnswers(WithoutCleanups(events), limits, k);
  }

  lemma RequestAnswers(requests: seq<Event<Limits>>, limits: Limits, k: nat)
    requires HitsUnder(requests, limits) && k < |requests|
    ensures
      var hits := Times(requests[..k + 1], requests[k].key);
      requests[k].Hit? && |Answers(After([]), requests)| == |requests| &&
      hits != [] && hits[|hits| - 1] == requests[k].at && ShowsLog(Answers(After([]), requests)[k], hits, limits)
  {
    var sofar := requests[..k + 1];
    assert [] + sofar == sofar && sofar[|sofar| - 1] == requests[k];
    assert requests[k] in requests && HitsUnder(sofar, limits);
    hide *;
    AnswersFollowRun([], requests, k);
    LastAnswerIsLog(sofar, limits);
  }
}
