/**
 The permission scope cache: an insertion-ordered map with a lifetime, a size bound and eviction of the oldest key.
 */
module ScopeCache {
  import opened Wrappers

  const TTL_MS := 300_000
  const MAX_ENTRIES := 10_000

  datatype Stored<T> = Stored(scopes: T, timestamp: int)

  /** `order` is the iteration order of the underlying Map: rewriting a key keeps its place. */
  datatype Cache<T> = Cache(order: seq<string>, entries: map<string, Stored<T>>, hits: nat, misses: nat, evictions: nat)

  function Key(userId: string, companyId: string): string {
    userId + ":" + companyId
  }

  predicate Expired<T>(entry: Stored<T>, now: int) {
    now - entry.timestamp > TTL_MS
  }

  ghost predicate WellFormed<T>(c: Cache<T>) {
    (forall i, j | 0 <= i < j < |c.order| :: c.order[i] != c.order[j]) &&
      (forall key :: key in c.order <==> key in c.entries)
  }

  // ---------- What each call does ----------

  function Keeping(order: seq<string>, keep: set<string>): seq<string> {
    if order == [] then []
    else (if order[0] in keep then [order[0]] else []) + Keeping(order[1..], keep)
  }

  function Without<T>(c: Cache<T>, doomed: set<string>): Cache<T> {
    c.(order := Keeping(c.order, c.entries.Keys - doomed), entries := c.entries - doomed)
  }

  function Got<T>(c: Cache<T>, key: string, now: int): (Cache<T>, Option<T>) {
    if key !in c.entries then (c.(misses := c.misses + 1), None)
    else if Expired(c.entries[key], now) then (Without(c, {key}).(misses := c.misses + 1), None)
    else (c.(hits := c.hits + 1), Some(c.entries[key].scopes))
  }

  /** The oldest key makes room for a new one in a full cache. */
  function MadeRoom<T>(c: Cache<T>, key: string): Cache<T> {
    if |c.order| >= MAX_ENTRIES && key !in c.entries then Without(c, {c.order[0]}).(evictions := c.evictions + 1) else c
  }

  function Put<T>(c: Cache<T>, key: string, scopes: T, now: int): Cache<T> {
    var room := MadeRoom(c, key);
    room.(order := if key in room.entries then room.order else room.order + [key],
          entries := room.entries[key := Stored(scopes, now)])
  }

  /** Without a company, every key that starts with the user's id goes. */
  function Doomed<T>(c: Cache<T>, userId: string, companyId: string): set<string> {
    if companyId != "" then {Key(userId, companyId)} else set key | key in c.entries && userId <= key
  }

  function Stale<T>(c: Cache<T>, now: int): set<string> {
    set key | key in c.entries && Expired(c.entries[key], now)
  }

  // ---------- Order of the keys ----------

  lemma {:induction false} KeepingKeeps(order: seq<string>, keep: set<string>)
    ensures forall key :: key in Keeping(order, keep) <==> key in order && key in keep
    ensures |Keeping(order, keep)| <= |order|
  {
    if order != [] {
      KeepingKeeps(order[1..], keep);
    }
  }

  lemma {:induction false} KeepingDistinct(order: seq<string>, keep: set<string>)
    requires forall i, j | 0 <= i < j < |order| :: order[i] != order[j]
    ensures forall i, j | 0 <= i < j < |Keeping(order, keep)| :: Keeping(order, keep)[i] != Keeping(order, keep)[j]
  {
    if order != [] {
      KeepingDistinct(order[1..], keep);
      KeepingKeeps(order[1..], keep);
    }
  }

  lemma {:induction false} KeepingAll(order: seq<string>, keep: set<string>)
    requires forall key | key in order :: key in keep
    ensures Keeping(order, keep) == order
  {
    if order != [] {
      assert order[0] in order && forall key | key in order[1..] :: key in order;
      KeepingAll(order[1..], keep);
    }
  }

  lemma WithoutIsWellFormed<T>(c: Cache<T>, doomed: set<string>)
    requires WellFormed(c)
    ensures WellFormed(Without(c, doomed))
    ensures |Without(c, doomed).order| <= |c.order|
  {
    KeepingDistinct(c.order, c.entries.Keys - doomed);
    KeepingKeeps(c.order, c.entries.Keys - doomed);
  }

  /** Well-formedness does not look at the counters. */
  lemma CountersAreFree<T>(c: Cache<T>)
    requires WellFormed(c)
    ensures WellFormed(c.(misses := c.misses + 1)) && WellFormed(c.(hits := c.hits + 1))
    ensures WellFormed(c.(evictions := c.evictions + 1))
  {
  }

  /** Removing the oldest key shortens the order. */
  lemma RoomIsMade<T>(c: Cache<T>, key: string)
    requires WellFormed(c) && |c.order| <= MAX_ENTRIES
    ensures WellFormed(MadeRoom(c, key))
    ensures key !in MadeRoom(c, key).entries ==> |MadeRoom(c, key).order| < MAX_ENTRIES
    ensures |MadeRoom(c, key).order| <= MAX_ENTRIES
  {
    hide WellFormed;
    if |c.order| >= MAX_ENTRIES && key !in c.entries {
      WithoutIsWellFormed(c, {c.order[0]});
      CountersAreFree(Without(c, {c.order[0]}));
      var keep := c.entries.Keys - {c.order[0]};
      KeepingKeeps(c.order[1..], keep);
      assert Keeping(c.order, keep) == Keeping(c.order[1..], keep);
    }
  }

  lemma PutIsWellFormed<T>(c: Cache<T>, key: string, scopes: T, now: int)
    requires WellFormed(c) && |c.order| <= MAX_ENTRIES
    ensures WellFormed(Put(c, key, scopes, now)) && |Put(c, key, scopes, now).order| <= MAX_ENTRIES
  {
    hide MadeRoom;
    RoomIsMade(c, key);
  }

  /** A lookup finds what is at most five minutes old; only an older entry is removed. */
  lemma GotExactly<T>(c: Cache<T>, userId: string, companyId: string, now: int)
    ensures
      var key, after := userId + ":" + companyId, Got(c, Key(userId, companyId), now);
      after.1 == (if key in c.entries && now - c.entries[key].timestamp <= 300_000 then Some(c.entries[key].scopes)
                  else None) &&
      after.0.entries == (if after.1.Some? then c.entries else c.entries - {key}) &&
      (after.1.Some? || key !in c.entries ==> after.0.order == c.order)
  {
  }

  /** Only a new key in a cache of ten thousand costs a key, the one inserted first; no rewriting moves a key. */
  lemma PutExactly<T>(c: Cache<T>, userId: string, companyId: string, scopes: T, now: int)
    requires WellFormed(c)
    ensures
      var key, after := userId + ":" + companyId, Put(c, Key(userId, companyId), scopes, now);
      var evicting := key !in c.entries && |c.order| >= 10_000;
      after.entries == (if evicting then c.entries - {c.order[0]} else c.entries)[key := Stored(scopes, now)] &&
      after.order == (if evicting then c.order[1..] else c.order) + (if key in c.entries then [] else [key]) &&
      after.evictions == c.evictions + (if evicting then 1 else 0)
  {
    if |c.order| >= 10_000 && userId + ":" + companyId !in c.entries {
      KeepingAll(c.order[1..], c.entries.Keys - {c.order[0]});
    }
  }

  // ---------- The service ----------

  class PermissionScopeCacheService<T> {
    var order: seq<string>
    var entries: map<string, Stored<T>>
    var hits: nat
    var misses: nat
    var evictions: nat

    ghost function State(): Cache<T>
      reads this
    {
      Cache(order, entries, hits, misses, evictions)
    }

    ghost predicate Valid()
      reads this
    {
      WellFormed(State()) && |order| <= MAX_ENTRIES
    }

    constructor ()
      ensures Valid() && State() == Cache([], map[], 0, 0, 0)
    {
      order, entries, hits, misses, evictions := [], map[], 0, 0, 0;
    }

    method Get(userId: string, companyId: string, now: int) returns (scopes: Option<T>)
      requires Valid()
      modifies this
      ensures Valid() && (State(), scopes) == Got(old(State()), Key(userId, companyId), now)
    {
      hide WellFormed;
      var key := userId + ":" + companyId;
      if key !in entries {
        misses := misses + 1;
        CountersAreFree(old(State()));
        return None;
      }
      if Expired(entries[key], now) {
        WithoutIsWellFormed(State(), {key});
        CountersAreFree(Without(old(State()), {key}));
        Delete({key});
        misses := misses + 1;
        return None;
      }
      hits := hits + 1;
      CountersAreFree(old(State()));
      return Some(entries[key].scopes);
    }

    method Set(userId: string, companyId: string, scopes: T, now: int)
      requires Valid()
      modifies this
      ensures Valid() && State() == Put(old(State()), Key(userId, companyId), scopes, now)
    {
      hide WellFormed;
      var key := userId + ":" + companyId;
      PutIsWellFormed(State(), key, scopes, now);
      if |order| >= MAX_ENTRIES && key !in entries {
        Delete({order[0]});
        evictions := evictions + 1;
      }
      if key !in entries {
        order := order + [key];
      }
      entries := entries[key := Stored(scopes, now)];
    }

    /** `Map.delete` for each of some keys. */
    method Delete(doomed: set<string>)
      modifies this`order, this`entries
      ensures State() == Without(old(State()), doomed)
    {
      order, entries := Keeping(order, entries.Keys - doomed), entries - doomed;
    }

    method Invalidate(userId: string, companyId: string)
      requires Valid()
      modifies this
      ensures Valid() && State() == Without(old(State()), Doomed(old(State()), userId, companyId))
    {
      WithoutIsWellFormed(State(), Doomed(State(), userId, companyId));
      if companyId != "" {
        Delete({Key(userId, companyId)});
        return;
      }
      var keysToDelete: set<string> := {};
      var i := 0;
      while i < |order|
        invariant 0 <= i <= |order| && State() == old(State())
        invariant keysToDelete == set key | key in order[..i] && userId <= key
      {
        if userId <= order[i] {
          keysToDelete := keysToDelete + {order[i]};
        }
        i := i + 1;
      }
      assert order[..i] == order;
      assert keysToDelete == Doomed(State(), userId, companyId);
      Delete(keysToDelete);
    }

    method Clear()
      modifies this
      ensures Valid() && State() == Cache([], map[], old(hits), old(misses), old(evictions))
    {
      order, entries := [], map[];
    }

    method Cleanup(now: int)
      requires Valid()
      modifies this
      ensures Valid() && State() == Without(old(State()), Stale(old(State()), now))
    {
      WithoutIsWellFormed(State(), Stale(State(), now));
      var stale: set<string> := {};
      var i := 0;
      while i < |order|
        invariant 0 <= i <= |order| && State() == old(State())
        invariant stale == set key | key in order[..i] && Expired(entries[key], now)
      {
        if Expired(entries[order[i]], now) {
          stale := stale + {order[i]};
        }
        i := i + 1;
      }
      assert order[..i] == order;
      assert stale == Stale(State(), now);
      Delete(stale);
    }
  }

  // ---------- Against a plain store ----------

  /** The reference: what was last set for a user and a company, until it is invalidated. */
  type Store<T> = map<(string, string), Stored<T>>

  datatype Event<T> =
    | GetEvent(userId: string, companyId: string, at: int)
    | SetEvent(userId: string, companyId: string, scopes: T, at: int)
    | InvalidateEvent(userId: string, companyId: string, at: int)
    | ClearEvent(at: int)
    | CleanupEvent(at: int)

  function Next<T>(c: Cache<T>, e: Event<T>): Cache<T> {
    match e
    case GetEvent(userId, companyId, at) => Got(c, Key(userId, companyId), at).0
    case SetEvent(userId, companyId, scopes, at) => Put(c, Key(userId, companyId), scopes, at)
    case InvalidateEvent(userId, companyId, _) => Without(c, Doomed(c, userId, companyId))
    case ClearEvent(_) => c.(order := [], entries := map[])
    case CleanupEvent(at) => Without(c, Stale(c, at))
  }

  function Remembered<T>(s: Store<T>, e: Event<T>): Store<T> {
    match e
    case SetEvent(userId, companyId, scopes, at) => s[(userId, companyId) := Stored(scopes, at)]
    case InvalidateEvent(userId, companyId, _) =>
      map p | p in s && !(p.0 == userId && (companyId == "" || p.1 == companyId)) :: s[p]
    case ClearEvent(_) => map[]
    case _ => s
  }

  function After<T>(c: Cache<T>, events: seq<Event<T>>): Cache<T> {
    if events == [] then c else Next(After(c, events[..|events| - 1]), events[|events| - 1])
  }

  function StoreAfter<T>(events: seq<Event<T>>): Store<T> {
    if events == [] then map[] else Remembered(StoreAfter(events[..|events| - 1]), events[|events| - 1])
  }

  predicate ColonFree(id: string) {
    ':' !in id
  }

  predicate PlainIds<T>(events: seq<Event<T>>) {
    forall i | 0 <= i < |events| && (events[i].SetEvent? || events[i].InvalidateEvent? || events[i].GetEvent?) ::
      ColonFree(events[i].userId)
  }

  /** A longer prefix of a key reaches past its first colon. */
  lemma ColonInside(u: string, key: string, longer: string)
    requires u + ":" <= key && longer <= key && |u| < |longer|
    ensures !ColonFree(longer)
  {
    assert longer[|u|] == key[|u|] == (u + ":")[|u|];
  }

  /** Keys of colon-free user ids name one user and one company. */
  lemma KeyIsInjective(u: string, c: string, u': string, c': string)
    requires ColonFree(u) && ColonFree(u') && Key(u, c) == Key(u', c')
    ensures u == u' && c == c'
  {
    var key := Key(u, c);
    if |u| < |u'| {
      ColonInside(u, key, u');
    } else if |u'| < |u| {
      ColonInside(u', key, u);
    }
    assert key[..|u|] == u && key[|u| + 1..] == c;
    assert key[..|u'|] == u' && key[|u'| + 1..] == c';
  }

  /** Every cached entry is the stored one. */
  ghost predicate Agrees<T>(c: Cache<T>, s: Store<T>) {
    forall key | key in c.entries ::
      exists p: (string, string) :: p in s && ColonFree(p.0) && key == Key(p.0, p.1) && c.entries[key] == s[p]
  }

  lemma AgreesForward<T>(c: Cache<T>, s: Store<T>, e: Event<T>, key: string)
    requires Agrees(c, s) && key in Next(c, e).entries
    requires e.SetEvent? || e.InvalidateEvent? || e.GetEvent? ==> ColonFree(e.userId)
    ensures exists p: (string, string) ::
      p in Remembered(s, e) && ColonFree(p.0) && key == Key(p.0, p.1) && Next(c, e).entries[key] == Remembered(s, e)[p]
  {
    if e.SetEvent? && key == Key(e.userId, e.companyId) {
      assert (e.userId, e.companyId) in Remembered(s, e);
    } else {
      var p: (string, string) :| p in s && ColonFree(p.0) && key == Key(p.0, p.1) && c.entries[key] == s[p];
      if e.InvalidateEvent? {
        assert p.0 == e.userId ==> e.userId <= key;
      }
      assert p in Remembered(s, e);
    }
  }

  lemma {:induction false} RunAgrees<T>(events: seq<Event<T>>)
    requires PlainIds(events)
    ensures
      var c := After(Cache([], map[], 0, 0, 0), events);
      Agrees(c, StoreAfter(events)) && WellFormed(c) && |c.order| <= MAX_ENTRIES
  {
    if events != [] {
      hide Next, Remembered, Agrees, WellFormed;
      var before, e := events[..|events| - 1], events[|events| - 1];
      RunAgrees(before);
      var c := After(Cache([], map[], 0, 0, 0), before);
      StepIsWellFormed(c, e);
      StepAgrees(c, StoreAfter(before), e);
    }
  }

  lemma StepAgrees<T>(c: Cache<T>, s: Store<T>, e: Event<T>)
    requires Agrees(c, s)
    requires e.SetEvent? || e.InvalidateEvent? || e.GetEvent? ==> ColonFree(e.userId)
    ensures Agrees(Next(c, e), Remembered(s, e))
  {
    hide Next, Remembered;
    forall key | key in Next(c, e).entries
      ensures exists p: (string, string) ::
        p in Remembered(s, e) && ColonFree(p.0) && key == Key(p.0, p.1) &&
          Next(c, e).entries[key] == Remembered(s, e)[p]
    {
      AgreesForward(c, s, e, key);
    }
  }

  lemma StepIsWellFormed<T>(c: Cache<T>, e: Event<T>)
    requires WellFormed(c) && |c.order| <= MAX_ENTRIES
    ensures WellFormed(Next(c, e)) && |Next(c, e).order| <= MAX_ENTRIES
  {
    match e
    case GetEvent(userId, companyId, at) =>
      WithoutIsWellFormed(c, {Key(userId, companyId)});
    case SetEvent(userId, companyId, scopes, at) => PutIsWellFormed(c, Key(userId, companyId), scopes, at);
    case InvalidateEvent(userId, companyId, _) => WithoutIsWellFormed(c, Doomed(c, userId, companyId));
    case ClearEvent(_) =>
    case CleanupEvent(at) => WithoutIsWellFormed(c, Stale(c, at));
  }

  /**
   After any events with colon-free user ids, a lookup finds nothing or exactly the latest scopes set for that user and
   company, not invalidated since and no older than the lifetime; and the cache is within its bound.
   */
  lemma GetIsLatestOrNothing<T>(events: seq<Event<T>>, userId: string, companyId: string, now: int)
    requires PlainIds(events) && ColonFree(userId)
    ensures
      var c, s := After(Cache([], map[], 0, 0, 0), events), StoreAfter(events);
      var found := Got(c, Key(userId, companyId), now).1;
      |c.entries| <= MAX_ENTRIES &&
      (found.Some? ==> (userId, companyId) in s && found.value == s[(userId, companyId)].scopes &&
                       now - s[(userId, companyId)].timestamp <= TTL_MS)
  {
    RunAgrees(events);
    var c, s := After(Cache([], map[], 0, 0, 0), events), StoreAfter(events);
    SizeIsOrder(c);
    var key := Key(userId, companyId);
    if key in c.entries {
      var p: (string, string) :| p in s && ColonFree(p.0) && key == Key(p.0, p.1) && c.entries[key] == s[p];
      KeyIsInjective(userId, companyId, p.0, p.1);
      assert p == (userId, companyId);
    }
  }

  lemma SizeIsOrder<T>(c: Cache<T>)
    requires WellFormed(c)
    ensures |c.entries| == |c.order|
  {
    DistinctCount(c.order);
    assert c.entries.Keys == set key | key in c.order;
  }

  lemma {:induction false} DistinctCount(order: seq<string>)
    requires forall i, j | 0 <= i < j < |order| :: order[i] != order[j]
    ensures |set key | key in order| == |order|
  {
    if order != [] {
      DistinctCount(order[1..]);
      assert (set key | key in order) == {order[0]} + set key | key in order[1..];
    }
  }

  function Gets<T>(events: seq<Event<T>>): nat {
    if events == [] then 0
    else Gets(events[..|events| - 1]) + (if events[|events| - 1].GetEvent? then 1 else 0)
  }

  /** Every lookup is counted once, as a hit or as a miss. */
  lemma {:induction false} HitsAndMissesAreGets<T>(events: seq<Event<T>>)
    ensures
      var c := After(Cache([], map[], 0, 0, 0), events);
      c.hits + c.misses == Gets(events)
  {
    if events != [] {
      HitsAndMissesAreGets(events[..|events| - 1]);
    }
  }

  // ---------- What the cache may forget ----------

  /** No user id is a proper prefix of another. */
  predicate PrefixFree(users: set<string>) {
    (forall u | u in users :: ColonFree(u)) && forall u, u' | u in users && u' in users && u <= u' :: u == u'
  }

  predicate UsedBy<T>(events: seq<Event<T>>, users: set<string>) {
    forall i | 0 <= i < |events| && (events[i].SetEvent? || events[i].InvalidateEvent? || events[i].GetEvent?) ::
      events[i].userId in users
  }

  predicate Timed<T>(events: seq<Event<T>>, now: int) {
    (forall i, j | 0 <= i < j < |events| :: events[i].at <= events[j].at) && forall i | 0 <= i < |events| ::
      events[i].at <= now
  }

  /** Every stored entry that has not expired is cached. */
  ghost predicate Complete<T>(c: Cache<T>, s: Store<T>, users: set<string>, now: int) {
    forall p: (string, string) | p in s ::
      p.0 in users &&
      (!Expired(s[p], now) ==> Key(p.0, p.1) in c.entries && c.entries[Key(p.0, p.1)] == s[p])
  }

  lemma StepIsComplete<T>(c: Cache<T>, s: Store<T>, users: set<string>, e: Event<T>)
    requires Complete(c, s, users, e.at) && PrefixFree(users) && Next(c, e).evictions == c.evictions
    requires e.SetEvent? || e.InvalidateEvent? || e.GetEvent? ==> e.userId in users
    ensures Complete(Next(c, e), Remembered(s, e), users, e.at)
  {
    var next, s' := Next(c, e), Remembered(s, e);
    forall p: (string, string) | p in s'
      ensures p.0 in users
      ensures !Expired(s'[p], e.at) ==> Key(p.0, p.1) in next.entries && next.entries[Key(p.0, p.1)] == s'[p]
    {
      if (e.GetEvent? || e.SetEvent? || (e.InvalidateEvent? && e.companyId != "")) &&
        Key(p.0, p.1) == Key(e.userId, e.companyId)
      {
        KeyIsInjective(p.0, p.1, e.userId, e.companyId);
      } else if e.InvalidateEvent? && e.companyId == "" && e.userId <= Key(p.0, p.1) {
        PrefixOfKey(e.userId, p.0, p.1);
      }
    }
  }

  lemma PrefixOfKey(userId: string, other: string, companyId: string)
    requires ColonFree(userId) && userId <= Key(other, companyId)
    ensures userId <= other
  {
    var key := Key(other, companyId);
    if |userId| > |other| {
      ColonInside(other, key, userId);
    } else {
      assert userId == key[..|userId|] == other[..|userId|];
    }
  }

  lemma {:induction false} EvictionsGrow<T>(c: Cache<T>, e: Event<T>)
    ensures Next(c, e).evictions >= c.evictions
  {
  }

  lemma {:induction false} RunIsComplete<T>(events: seq<Event<T>>, users: set<string>, now: int)
    requires PrefixFree(users) && UsedBy(events, users) && Timed(events, now)
    requires After<T>(Cache([], map[], 0, 0, 0), events).evictions == 0
    ensures Complete(After(Cache([], map[], 0, 0, 0), events), StoreAfter(events), users, now)
  {
    if events != [] {
      hide Next, Remembered, PrefixFree;
      var before, e := events[..|events| - 1], events[|events| - 1];
      var c := After(Cache([], map[], 0, 0, 0), before);
      EvictionsGrow(c, e);
      RunIsComplete(before, users, e.at);
      StepIsComplete(c, StoreAfter(before), users, e);
    }
  }

  /**
   While nothing was evicted and no user id is a prefix of another, the cache forgets nothing: a lookup finds the stored
   scopes exactly when the plain store has them unexpired.
   */
  lemma ForgetsOnlyByEviction<T>(events: seq<Event<T>>, users: set<string>, userId: string, companyId: string, now: int)
    requires PrefixFree(users) && UsedBy(events, users) && Timed(events, now) && userId in users
    requires After<T>(Cache([], map[], 0, 0, 0), events).evictions == 0
    ensures
      var c, s := After(Cache([], map[], 0, 0, 0), events), StoreAfter(events);
      Got(c, Key(userId, companyId), now).1 ==
        if (userId, companyId) in s && !Expired(s[(userId, companyId)], now) then Some(s[(userId, companyId)].scopes)
          else None
  {
    RunIsComplete(events, users, now);
    GetIsLatestOrNothing(events, userId, companyId, now);
  }

  // ---------- Where the cache does less or more than its comments say ----------

  /** Invalidating a user drops another user's entry exactly when the first id is a prefix of the second. */
  lemma InvalidationReachesExactly<T>(c: Cache<T>, userId: string, other: string, companyId: string)
    requires ColonFree(userId) && Key(other, companyId) in c.entries
    ensures Key(other, companyId) !in Without(c, Doomed(c, userId, "")).entries <==> userId <= other
  {
    var key := Key(other, companyId);
    if userId <= key {
      PrefixOfKey(userId, other, companyId);
    }
    if userId <= other {
      assert userId == other[..|userId|] == key[..|userId|];
    }
  }

  // ---------- Eviction and recency ----------

  /** The cached key that an event uses: a hit, or a set. */
  function UsedKey<T>(c: Cache<T>, e: Event<T>): Option<string> {
    match e
    case GetEvent(userId, companyId, at) => if Got(c, Key(userId, companyId), at).1.Some?
      then Some(Key(userId, companyId)) else None
    case SetEvent(userId, companyId, _, _) => Some(Key(userId, companyId))
    case _ => None
  }

  /** The cached keys by last use, after one more event: keys that left are dropped, a used key moves to the end. */
  function Recency<T>(recent: seq<string>, c: Cache<T>, e: Event<T>): seq<string> {
    var cached := Next(c, e).entries.Keys;
    match UsedKey(c, e)
    case None => Keeping(recent, cached)
    case Some(key) => Keeping(recent, cached - {key}) + [key]
  }

  function RecencyAfter<T>(events: seq<Event<T>>): seq<string> {
    if events == [] then []
    else Recency(RecencyAfter(events[..|events| - 1]), After(Cache([], map[], 0, 0, 0), events[..|events| - 1]),
      events[|events| - 1])
  }

  /** The event uses no cached key, or the one that was inserted last. */
  predicate UsesNewest<T>(c: Cache<T>, e: Event<T>) {
    UsedKey(c, e).Some? && UsedKey(c, e).value in c.entries ==>
      c.order != [] && UsedKey(c, e).value == c.order[|c.order| - 1]
  }

  lemma {:induction false} KeepingChains(a: seq<string>, b: seq<string>, keep: set<string>)
    ensures Keeping(a + b, keep) == Keeping(a, keep) + Keeping(b, keep)
  {
    if a == [] {
      assert a + b == b;
    } else {
      assert (a + b)[1..] == a[1..] + b;
      KeepingChains(a[1..], b, keep);
    }
  }

  /** Taking one key out of distinct keys and putting it last changes nothing exactly when it was last. */
  lemma MoveToEnd(order: seq<string>, keys: set<string>, key: string)
    requires key in order && (forall k | k in order :: k in keys) && forall i, j | 0 <= i < j < |order| ::
        order[i] != order[j]
    ensures Keeping(order, keys - {key}) + [key] == order <==> order[|order| - 1] == key
  {
    hide Keeping;
    var last := |order| - 1;
    var init := order[..last];
    if order[last] == key {
      assert order == init + [key];
      KeepingChains(init, [key], keys - {key});
      KeepingOne(key, keys - {key});
      forall k | k in init ensures k in keys - {key} {
        var i :| 0 <= i < |init| && init[i] == k;
        assert order[i] == k;
      }
      KeepingAll(init, keys - {key});
      assert init + [] == init;
    }
  }

  lemma KeepingOne(key: string, keep: set<string>)
    requires key !in keep
    ensures Keeping([key], keep) == []
  {
    assert [key][1..] == [];
  }

  lemma {:induction false} KeepingNone(order: seq<string>)
    ensures Keeping(order, {}) == []
  {
    if order != [] {
      KeepingNone(order[1..]);
    }
  }

  /** Events that use no cached key keep the order of the keys that stay, and add a new key at the end. */
  lemma UnusedKeepOrder<T>(c: Cache<T>, e: Event<T>)
    requires WellFormed(c) && (UsedKey(c, e).Some? ==> UsedKey(c, e).value !in c.entries)
    ensures Recency(c.order, c, e) == Next(c, e).order
  {
    hide WellFormed, Keeping, MadeRoom;
    CachedStay(c);
    KeepingNone(c.order);
    match e
    case SetEvent(userId, companyId, scopes, at) => NewKeyGoesLast(c, Key(userId, companyId), scopes, at);
    case GetEvent(userId, companyId, at) => RemovedLeave(c, {Key(userId, companyId)});
    case InvalidateEvent(userId, companyId, _) => RemovedLeave(c, Doomed(c, userId, companyId));
    case CleanupEvent(at) => RemovedLeave(c, Stale(c, at));
    case ClearEvent(_) => assert Next(c, e).entries.Keys == {};
  }

  lemma CachedStay<T>(c: Cache<T>)
    requires WellFormed(c)
    ensures Keeping(c.order, c.entries.Keys) == c.order
  {
    hide Keeping;
    KeepingAll(c.order, c.entries.Keys);
  }

  lemma RemovedLeave<T>(c: Cache<T>, doomed: set<string>)
    ensures Keeping(c.order, Without(c, doomed).entries.Keys) == Without(c, doomed).order
  {
    hide Keeping;
    assert (c.entries - doomed).Keys == c.entries.Keys - doomed;
  }

  lemma NewKeyGoesLast<T>(c: Cache<T>, key: string, scopes: T, now: int)
    requires WellFormed(c) && key !in c.entries
    ensures Keeping(c.order, Put(c, key, scopes, now).entries.Keys - {key}) + [key] == Put(c, key, scopes, now).order
  {
    hide Keeping, WellFormed;
    var room := MadeRoom(c, key);
    assert key !in room.entries && room.entries[key := Stored(scopes, now)].Keys - {key} == room.entries.Keys;
    CachedStay(c);
    if |c.order| >= MAX_ENTRIES {
      RemovedLeave(c, {c.order[0]});
    }
  }

  /** A used cached key leaves the keys and their order as they are. */
  lemma UseKeepsOrder<T>(c: Cache<T>, e: Event<T>)
    requires UsedKey(c, e).Some? && UsedKey(c, e).value in c.entries
    ensures Next(c, e).order == c.order && Next(c, e).entries.Keys == c.entries.Keys
  {
  }

  /** One event keeps the keys sorted by last use exactly when it uses no cached key but the one inserted last. */
  lemma StepFollowsRecencyExactly<T>(c: Cache<T>, e: Event<T>)
    requires WellFormed(c)
    ensures Recency(c.order, c, e) == Next(c, e).order <==> UsesNewest(c, e)
  {
    hide Next, UsedKey;
    if UsedKey(c, e).Some? && UsedKey(c, e).value in c.entries {
      UseKeepsOrder(c, e);
      MoveToEnd(c.order, c.entries.Keys, UsedKey(c, e).value);
    } else {
      UnusedKeepOrder(c, e);
    }
  }

  predicate AlwaysUsesNewest<T>(events: seq<Event<T>>) {
    forall n | 0 <= n < |events| :: UsesNewest(After(Cache([], map[], 0, 0, 0), events[..n]), events[n])
  }

  lemma {:induction false} RunFollowsRecency<T>(events: seq<Event<T>>)
    requires AlwaysUsesNewest(events)
    ensures
      var c := After(Cache([], map[], 0, 0, 0), events);
      WellFormed(c) && |c.order| <= MAX_ENTRIES && RecencyAfter(events) == c.order
  {
    if events != [] {
      hide Next, WellFormed, UsesNewest, Recency;
      var n := |events| - 1;
      var before, e := events[..n], events[n];
      forall k | 0 <= k < |before| ensures UsesNewest(After(Cache([], map[], 0, 0, 0), before[..k]), before[k]) {
        assert before[..k] == events[..k] && before[k] == events[k];
      }
      RunFollowsRecency(before);
      StepFollowsRecencyExactly(After(Cache([], map[], 0, 0, 0), before), e);
      StepIsWellFormed(After(Cache([], map[], 0, 0, 0), before), e);
    }
  }

  /** After such a run a full cache evicts the key used least recently. */
  lemma EvictsLeastRecentlyUsed<T>(events: seq<Event<T>>, key: string)
    requires AlwaysUsesNewest(events)
    ensures
      var c := After(Cache([], map[], 0, 0, 0), events);
      |c.order| == MAX_ENTRIES && key !in c.entries ==>
        RecencyAfter(events) != [] && MadeRoom(c, key).entries == c.entries - {RecencyAfter(events)[0]}
  {
    hide After, RecencyAfter, AlwaysUsesNewest;
    RunFollowsRecency(events);
  }

  /**
   The oldest key of a full cache is evicted next, even right after it was read and rewritten: eviction is first in,
   first out.
   */
  lemma RecentUseDoesNotSave<T>(c: Cache<T>, scopes: T, now: int, newKey: string)
    requires WellFormed(c) && |c.order| == MAX_ENTRIES && newKey !in c.entries && !Expired(c.entries[c.order[0]], now)
    ensures
      var oldest := c.order[0];
      var used := Put(Got(c, oldest, now).0, oldest, scopes, now);
      oldest !in Put(used, newKey, scopes, now).entries
  {
    assert c.order[0] in c.order;
  }
}
