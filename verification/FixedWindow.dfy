/** A plain log of hits cut into fixed windows: the reference that both rate limiters refine. */
module FixedWindow {

  predicate Ordered(hits: seq<int>) {
    forall i, j | 0 <= i < j < |hits| :: hits[i] <= hits[j]
  }

  /** The index of the hit that opened the window of the last hit: a window lasts `ttl` from its first hit. */
  function First(hits: seq<int>, ttl: nat): (f: nat)
    requires hits != []
    ensures f < |hits|
  {
    var last := |hits| - 1;
    if last == 0 then 0
    else
      var f := First(hits[..last], ttl);
      if hits[f] + ttl <= hits[last] then last else f
  }

  /** The hits of the last hit's window so far. */
  function Since(hits: seq<int>, ttl: nat): (count: nat)
    requires hits != []
    ensures count >= 1
  {
    |hits| - First(hits, ttl)
  }

  function FirstAt(hits: seq<int>, ttl: nat, k: nat): (f: nat)
    requires k < |hits|
    ensures f <= k
  {
    First(hits[..k + 1], ttl)
  }

  lemma FirstSteps(hits: seq<int>, ttl: nat, k: nat)
    requires k + 1 < |hits|
    ensures
      var f := FirstAt(hits, ttl, k);
      FirstAt(hits, ttl, k + 1) == if hits[f] + ttl <= hits[k + 1] then k + 1 else f
  {
    assert hits[..k + 2][..k + 1] == hits[..k + 1];
  }

  lemma {:induction false} FirstIsStable(hits: seq<int>, ttl: nat, i: nat, j: nat)
    requires i <= j < |hits|
    ensures FirstAt(hits, ttl, j) == FirstAt(hits, ttl, i) || FirstAt(hits, ttl, j) > i
  {
    if i < j {
      FirstIsStable(hits, ttl, i, j - 1);
      FirstSteps(hits, ttl, j - 1);
    }
  }

  /**
   Windows tile the log: a hit opens a window exactly when the previous window is over, and lies inside it otherwise.
   */
  lemma {:induction false} WindowsTile(hits: seq<int>, ttl: nat, k: nat)
    requires k < |hits| && Ordered(hits)
    ensures
      var f := FirstAt(hits, ttl, k);
      FirstAt(hits, ttl, f) == f &&
      (f < k ==> hits[k] < hits[f] + ttl) &&
      (f > 0 ==> hits[FirstAt(hits, ttl, f - 1)] + ttl <= hits[f])
  {
    if k > 0 {
      WindowsTile(hits, ttl, k - 1);
      FirstSteps(hits, ttl, k - 1);
    }
  }

  /** A hit admitted by its place in its window: among the first `quota`. */
  predicate Admitted(hits: seq<int>, ttl: nat, quota: nat, k: nat)
    requires k < |hits|
  {
    k - FirstAt(hits, ttl, k) < quota
  }

  /** How many of the hits `i..j`, both included, are admitted. */
  function AdmittedIn(hits: seq<int>, ttl: nat, quota: nat, i: nat, j: nat): nat
    requires i <= j < |hits|
  {
    (if Admitted(hits, ttl, quota, j) then 1 else 0) + (if i == j then 0 else AdmittedIn(hits, ttl, quota, i, j - 1))
  }

  /** The windows met by a stretch of hits no longer than `ttl`: the first hit's, and at most one more. */
  lemma {:induction false} AtMostTwoWindows(hits: seq<int>, ttl: nat, i: nat, j: nat)
    requires i <= j < |hits| && Ordered(hits) && ttl >= 1 && hits[j] - hits[i] <= ttl
    ensures FirstAt(hits, ttl, j) > i ==> FirstAt(hits, ttl, FirstAt(hits, ttl, j) - 1) == FirstAt(hits, ttl, i)
  {
    hide FirstAt;
    var f := FirstAt(hits, ttl, j);
    if f > i {
      FirstIsStable(hits, ttl, i, f - 1);
      WindowsTile(hits, ttl, j);
      ThirdWindowIsFar(hits, ttl, i, f);
    }
  }

  lemma ThirdWindowIsFar(hits: seq<int>, ttl: nat, i: nat, f: nat)
    requires i < f < |hits| && Ordered(hits) && ttl >= 1 && FirstAt(hits, ttl, f) == f
    ensures FirstAt(hits, ttl, f - 1) > i ==> hits[f] - hits[i] > ttl
  {
    hide FirstAt;
    var g := FirstAt(hits, ttl, f - 1);
    WindowsTile(hits, ttl, f);
    if g > i {
      WindowsTile(hits, ttl, f - 1);
      FirstIsStable(hits, ttl, i, g - 1);
      WindowStarts(hits, ttl, i, FirstAt(hits, ttl, g - 1));
    }
  }

  /** A window met from hit `i` on starts no earlier than `i` lies before its own window's end. */
  lemma WindowStarts(hits: seq<int>, ttl: nat, i: nat, h: nat)
    requires i < |hits| && h < |hits| && Ordered(hits) && ttl >= 1 && (h == FirstAt(hits, ttl, i) || h > i)
    ensures hits[i] < hits[h] + ttl
  {
    WindowsTile(hits, ttl, i);
  }

  lemma {:induction false} AdmittedBound(hits: seq<int>, ttl: nat, quota: nat, i: nat, j: nat)
    requires i <= j < |hits| && Ordered(hits) && ttl >= 1 && quota >= 1 && hits[j] - hits[i] <= ttl
    ensures
      var f := FirstAt(hits, ttl, j);
      AdmittedIn(hits, ttl, quota, i, j) <=
        (if f > i then quota else 0) + (if j - f + 1 <= quota then j - f + 1 else quota)
  {
    hide FirstAt, Ordered;
    if i < j {
      OrderedPair(hits, j);
      AdmittedBound(hits, ttl, quota, i, j - 1);
      FirstSteps(hits, ttl, j - 1);
      AtMostTwoWindows(hits, ttl, i, j);
      FirstIsStable(hits, ttl, i, j);
      FirstIsStable(hits, ttl, i, j - 1);
    }
  }

  lemma OrderedPair(hits: seq<int>, j: nat)
    requires Ordered(hits) && 0 < j < |hits|
    ensures hits[j - 1] <= hits[j]
  {
  }

  /** Any stretch of hits no longer than one window length admits at most twice the quota. */
  lemma TwiceTheQuota(hits: seq<int>, ttl: nat, quota: nat, i: nat, j: nat)
    requires i <= j < |hits| && Ordered(hits) && ttl >= 1 && quota >= 1 && hits[j] - hits[i] <= ttl
    ensures AdmittedIn(hits, ttl, quota, i, j) <= 2 * quota
  {
    AdmittedBound(hits, ttl, quota, i, j);
  }

  // ---------- Runs over many keys, with cleanups in between ----------

  /** A hit under the rule of its key, or a cleanup. */
  datatype Event<R> = Hit(key: string, rule: R, at: int) | Cleanup(at: int)

  predicate Timed<R>(events: seq<Event<R>>, now: int) {
    events == [] || (now <= events[0].at && Timed(events[1..], events[0].at))
  }

  function WithoutCleanups<R>(events: seq<Event<R>>): seq<Event<R>> {
    if events == [] then []
    else (if events[0].Hit? then [events[0]] else []) + WithoutCleanups(events[1..])
  }

  lemma CleanupsAreDropped<R>(events: seq<Event<R>>)
    requires events != []
    ensures events[0].Hit? ==>
      WithoutCleanups(events) != [] && WithoutCleanups(events)[0] == events[0] &&
      WithoutCleanups(events)[1..] == WithoutCleanups(events[1..])
    ensures events[0].Cleanup? ==> WithoutCleanups(events) == WithoutCleanups(events[1..])
  {
  }

  /** One store holds what the other holds, except entries whose window is over. */
  predicate Trimmed<V(==)>(a: map<string, V>, b: map<string, V>, end: V -> int, now: int) {
    (forall key | key in a :: key in b && a[key] == b[key]) &&
    (forall key | key in b && key !in a :: end(b[key]) <= now)
  }

  /** The times of one key's hits. */
  function Times<R>(events: seq<Event<R>>, key: string): seq<int> {
    if events == [] then []
    else
      var e := events[|events| - 1];
      Times(events[..|events| - 1], key) + (if e.Hit? && e.key == key then [e.at] else [])
  }

  lemma TimesStep<R>(events: seq<Event<R>>, key: string)
    requires events != []
    ensures
      var before, e, times := events[..|events| - 1], events[|events| - 1], Times(events, key);
      if e.Hit? && e.key == key
      then times != [] && times[..|times| - 1] == Times(before, key) && times[|times| - 1] == e.at
      else times == Times(before, key)
  {
  }
}
