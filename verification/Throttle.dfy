/** The throttle store: one upsert whose assignments run left to right, and an hourly cleanup. */
module Throttle {
  import opened Wrappers
  import opened FixedWindow

  const DAY := 86_400_000

  datatype Row = Row(totalHits: nat, expiresAt: int, blockedUntil: Option<int>)

  datatype Rule = Rule(ttl: nat, limit: nat, blockDuration: nat)

  datatype Verdict = Verdict(totalHits: nat, timeToExpire: nat, isBlocked: bool, timeToBlockExpire: nat)

  function EffectiveBlock(rule: Rule): (ms: nat)
    ensures ms >= 1
  {
    var chosen := if rule.blockDuration == 0 then rule.ttl else rule.blockDuration;
    if chosen < 1 then 1 else chosen
  }

  function CeilSeconds(ms: int): nat {
    if ms <= 0 then 0 else (ms + 999) / 1000
  }

  /** The configured length, the window's when none is configured, and at least a millisecond. */
  lemma BlockLength(rule: Rule)
    ensures rule.blockDuration >= 1 ==> EffectiveBlock(rule) == rule.blockDuration
    ensures rule.blockDuration == 0 && rule.ttl >= 1 ==> EffectiveBlock(rule) == rule.ttl
    ensures rule.blockDuration == 0 && rule.ttl == 0 ==> EffectiveBlock(rule) == 1
  {
  }

  /** The fewest whole seconds that cover some milliseconds. */
  predicate CoversLeast(seconds: nat, ms: int) {
    1000 * seconds >= ms && forall fewer: nat | 1000 * fewer >= ms :: seconds <= fewer
  }

  lemma CeilingIsLeast(ms: int)
    ensures CoversLeast(CeilSeconds(ms), ms)
    ensures forall seconds: nat :: CoversLeast(seconds, ms) ==> seconds == CeilSeconds(ms)
  {
  }

  predicate Running(blockedUntil: Option<int>, now: int) {
    blockedUntil.Some? && blockedUntil.value > now
  }

  /** The row after the upsert; `blockedUntil` sees the new total and the old expiry. */
  function Upserted(row: Option<Row>, now: int, rule: Rule): Row {
    if row.None? || row.value.expiresAt <= now then Row(1, now + rule.ttl, None)
    else
      var total := row.value.totalHits + 1;
      Row(total, row.value.expiresAt,
          if total > rule.limit && !Running(row.value.blockedUntil, now) then Some(now + EffectiveBlock(rule))
          else row.value.blockedUntil)
  }

  function VerdictOf(row: Row, now: int): Verdict {
    Verdict(row.totalHits, CeilSeconds(row.expiresAt - now), Running(row.blockedUntil, now),
            if row.blockedUntil.Some? then CeilSeconds(row.blockedUntil.value - now) else 0)
  }

  /** What the SELECT answers; a row that is gone counts as one hit and no block. */
  function ReadRow(row: Option<Row>, now: int): Verdict {
    if row.None? then Verdict(1, 0, false, 0) else VerdictOf(row.value, now)
  }

  predicate Removable(row: Row, now: int) {
    row.expiresAt < now - DAY && (row.blockedUntil.None? || row.blockedUntil.value < now)
  }

  function Found(rows: map<string, Row>, key: string): Option<Row> {
    if key in rows then Some(rows[key]) else None
  }

  function Cleaned(rows: map<string, Row>, now: int): map<string, Row> {
    map key | key in rows && !Removable(rows[key], now) :: rows[key]
  }

  class DatabaseThrottlerStorage {
    var rows: map<string, Row>

    constructor ()
      ensures rows == map[]
    {
      rows := map[];
    }

    /**
     The row is new, restarted after its window, or counted up; the first hit beyond the limit, and the first one
     beyond it after a block has run out, blocks for `blockDuration`, or for `ttl` without one.
     */
    method Upsert(id: string, rule: Rule, now: int)
      modifies this
      ensures rows == old(rows)[id := Upserted(Found(old(rows), id), now, rule)]
      ensures id !in old(rows) || old(rows)[id].expiresAt <= now ==> rows[id] == Row(1, now + rule.ttl, None)
      ensures id in old(rows) && old(rows)[id].expiresAt > now ==>
        var before, after := old(rows)[id], rows[id];
        var length := if rule.blockDuration > 0 then rule.blockDuration else if rule.ttl > 0 then rule.ttl else 1;
        after.totalHits == before.totalHits + 1 && after.expiresAt == before.expiresAt &&
        (after.totalHits > rule.limit && (before.blockedUntil.None? || before.blockedUntil.value <= now) ==>
           after.blockedUntil == Some(now + length)) &&
        (after.totalHits <= rule.limit || (before.blockedUntil.Some? && before.blockedUntil.value > now) ==>
           after.blockedUntil == before.blockedUntil)
    {
      if id !in rows {
        rows := rows[id := Row(1, now + rule.ttl, None)];
      } else {
        var row := rows[id];
        row := row.(totalHits := if row.expiresAt <= now then 1 else row.totalHits + 1);
        row := row.(blockedUntil :=
          if row.expiresAt <= now then None
          else if row.totalHits > rule.limit then
            if row.blockedUntil.Some? && row.blockedUntil.value > now then row.blockedUntil
            else Some(now + EffectiveBlock(rule))
          else row.blockedUntil);
        row := row.(expiresAt := if row.expiresAt <= now then now + rule.ttl else row.expiresAt);
        rows := rows[id := row];
      }
    }

    method Read(id: string, now: int) returns (verdict: Verdict)
      ensures verdict == ReadRow(Found(rows, id), now)
      ensures id !in rows ==> verdict == Verdict(1, 0, false, 0)
      ensures id in rows ==>
        var row := rows[id];
        verdict.totalHits == row.totalHits && CoversLeast(verdict.timeToExpire, row.expiresAt - now) &&
        (verdict.isBlocked <==> row.blockedUntil.Some? && row.blockedUntil.value > now) &&
        (row.blockedUntil.Some? ==> CoversLeast(verdict.timeToBlockExpire, row.blockedUntil.value - now)) &&
        (row.blockedUntil.None? ==> verdict.timeToBlockExpire == 0)
    {
      if id !in rows {
        return Verdict(1, 0, false, 0);
      }
      CeilingIsLeast(rows[id].expiresAt - now);
      CeilingIsLeast(if rows[id].blockedUntil.Some? then rows[id].blockedUntil.value - now else 0);
      return VerdictOf(rows[id], now);
    }

    /** The two statements of one caller when no other comes between them, each with its own time. */
    method Increment(key: string, rule: Rule, throttlerName: string, now: int, later: int) returns (verdict: Verdict)
      requires now <= later
      modifies this
      ensures
        var id := throttlerName + ":" + key;
        rows == old(rows)[id := Upserted(Found(old(rows), id), now, rule)] && verdict == VerdictOf(rows[id], later)
    {
      var id := throttlerName + ":" + key;
      Upsert(id, rule, now);
      verdict := Read(id, later);
    }

    method CleanupExpiredState(now: int)
      modifies this
      ensures rows == Cleaned(old(rows), now)
      ensures forall key | key in old(rows) :: key in rows <==>
        !(old(rows)[key].expiresAt < now - 24 * 60 * 60 * 1000 &&
          (old(rows)[key].blockedUntil.None? || old(rows)[key].blockedUntil.value < now))
      ensures forall key | key in rows :: key in old(rows) && rows[key] == old(rows)[key]
    {
      rows := map key | key in rows && !(rows[key].expiresAt < now - DAY &&
        (rows[key].blockedUntil.None? || rows[key].blockedUntil.value < now)) :: rows[key];
    }
  }

  // ---------- Refinement of the log ----------

  function After(hits: seq<int>, rule: Rule): Option<Row> {
    if hits == [] then None
    else Some(Upserted(After(hits[..|hits| - 1], rule), hits[|hits| - 1], rule))
  }

  function VerdictAt(hits: seq<int>, rule: Rule, k: nat): Verdict
    requires k < |hits|
  {
    VerdictOf(After(hits[..k + 1], rule).value, hits[k])
  }

  /** The first hit of a window is never refused, whatever the limit. */
  function Quota(rule: Rule): nat {
    if rule.limit < 1 then 1 else rule.limit
  }

  lemma {:induction false} RowIsLog(hits: seq<int>, rule: Rule)
    requires hits != [] && Ordered(hits)
    ensures
      var row, last := After(hits, rule).value, hits[|hits| - 1];
      row.totalHits == Since(hits, rule.ttl) &&
      row.expiresAt == hits[First(hits, rule.ttl)] + rule.ttl &&
      (row.blockedUntil.Some? <==> row.totalHits > Quota(rule)) &&
      (Running(row.blockedUntil, last) <==> row.totalHits > Quota(rule))
  {
    var last := |hits| - 1;
    if last > 0 {
      RowIsLog(hits[..last], rule);
    } else {
      assert After(hits[..last], rule) == None;
    }
  }

  /**
   Every verdict speaks about the log: the total is the hits since the window opened, the time to expire is what is
   left of the window, and the hit is refused exactly when the total exceeds the limit, except that a window's first
   hit always passes.
   */
  lemma VerdictIsLog(hits: seq<int>, rule: Rule, k: nat)
    requires k < |hits| && Ordered(hits)
    ensures
      var v, f := VerdictAt(hits, rule, k), FirstAt(hits, rule.ttl, k);
      v.totalHits == k - f + 1 &&
      v.timeToExpire == CeilSeconds(hits[f] + rule.ttl - hits[k]) &&
      (v.isBlocked <==> v.totalHits > rule.limit && v.totalHits > 1) &&
      (v.isBlocked <==> !Admitted(hits, rule.ttl, Quota(rule), k)) &&
      (v.isBlocked <==> v.timeToBlockExpire > 0)
  {
    assert hits[..k + 1][k] == hits[k];
    RowIsLog(hits[..k + 1], rule);
    Ceiling(After(hits[..k + 1], rule).value.blockedUntil, hits[k]);
  }

  lemma Ceiling(until: Option<int>, now: int)
    ensures until.Some? ==> (CeilSeconds(until.value - now) > 0 <==> until.value > now)
  {
  }

  /** `isBlocked` is "total above limit" for every hit exactly when the limit is at least one. */
  lemma BlockedMeansOverLimitExactly(rule: Rule)
    ensures
      (forall hits: seq<int>, k: nat | k < |hits| && Ordered(hits) ::
         VerdictAt(hits, rule, k).isBlocked <==> VerdictAt(hits, rule, k).totalHits > rule.limit)
      <==> rule.limit >= 1
  {
    if rule.limit >= 1 {
      forall hits: seq<int>, k: nat | k < |hits| && Ordered(hits)
        ensures VerdictAt(hits, rule, k).isBlocked <==> VerdictAt(hits, rule, k).totalHits > rule.limit
      {
        VerdictIsLog(hits, rule, k);
      }
    } else {
      assert Ordered([0]);
      VerdictIsLog([0], rule, 0);
    }
  }

  function UnblockedIn(hits: seq<int>, rule: Rule, i: nat, j: nat): nat
    requires i <= j < |hits|
  {
    (if VerdictAt(hits, rule, j).isBlocked then 0 else 1) + (if i == j then 0 else UnblockedIn(hits, rule, i, j - 1))
  }

  lemma {:induction false} UnblockedIsAdmitted(hits: seq<int>, rule: Rule, i: nat, j: nat)
    requires i <= j < |hits| && Ordered(hits)
    ensures UnblockedIn(hits, rule, i, j) == AdmittedIn(hits, rule.ttl, Quota(rule), i, j)
  {
    VerdictIsLog(hits, rule, j);
    if i < j {
      UnblockedIsAdmitted(hits, rule, i, j - 1);
    }
  }

  /** Any stretch of hits no longer than the window lets at most twice the limit through. */
  lemma BurstBound(hits: seq<int>, rule: Rule, i: nat, j: nat)
    requires i <= j < |hits| && Ordered(hits) && rule.ttl >= 1 && hits[j] - hits[i] <= rule.ttl
    ensures UnblockedIn(hits, rule, i, j) <= 2 * Quota(rule)
  {
    UnblockedIsAdmitted(hits, rule, i, j);
    TwiceTheQuota(hits, rule.ttl, Quota(rule), i, j);
  }

  /** A hit during a running block is refused exactly while the window is still open: a longer block is cut short. */
  lemma BlockEndsWithItsWindow(hits: seq<int>, rule: Rule, at: int)
    requires hits != [] && Ordered(hits + [at]) && Running(After(hits, rule).value.blockedUntil, at)
    ensures VerdictAt(hits + [at], rule, |hits|).isBlocked <==> at < hits[First(hits, rule.ttl)] + rule.ttl
  {
    var all := hits + [at];
    assert all[..|hits| + 1] == all && all[..|hits|] == hits;
    assert Ordered(hits) by {
      assert forall i | 0 <= i < |hits| :: all[i] == hits[i];
    }
    RowIsLog(hits, rule);
  }

  /**
   The first refusal of a window starts a block of the effective length, and a hit during a running block does not
   extend it.
   */
  lemma BlockRunsItsLength(hits: seq<int>, rule: Rule, at: int)
    requires hits != [] && Ordered(hits + [at])
    ensures
      var before, after := After(hits, rule).value, After(hits + [at], rule).value;
      (after.totalHits == (if rule.limit == 0 then 1 else rule.limit) + 1 ==>
         after.blockedUntil ==
         Some(at + if rule.blockDuration > 0 then rule.blockDuration else if rule.ttl > 0 then rule.ttl else 1)) &&
      (Running(before.blockedUntil, at) && at < before.expiresAt ==> after.blockedUntil == before.blockedUntil)
  {
    hide Upserted, Since, First, After;
    assert Ordered(hits) by {
      assert forall i | 0 <= i < |hits| :: (hits + [at])[i] == hits[i];
    }
    AfterOneMore(hits, rule, at);
    RowIsLog(hits, rule);
    BlockOfNext(After(hits, rule).value, at, rule);
  }

  lemma AfterOneMore(hits: seq<int>, rule: Rule, at: int)
    ensures After(hits + [at], rule) == Some(Upserted(After(hits, rule), at, rule))
    ensures hits != [] ==> After(hits, rule).Some?
  {
    hide Upserted;
    assert (hits + [at])[..|hits|] == hits;
  }

  lemma BlockOfNext(row: Row, at: int, rule: Rule)
    requires row.totalHits >= 1 && (row.blockedUntil.Some? <==> row.totalHits > Quota(rule))
    ensures
      var next := Upserted(Some(row), at, rule);
      (next.totalHits == Quota(rule) + 1 ==> next.blockedUntil == Some(at + EffectiveBlock(rule))) &&
      (Running(row.blockedUntil, at) && at < row.expiresAt ==> next.blockedUntil == row.blockedUntil)
  {
  }

  // ---------- The block on the log ----------

  /**
   The hit that started the block of the last hit, while its window is over the quota: the first one refused, or the
   first one after the block before it had run its length.
   */
  function BlockStart(hits: seq<int>, rule: Rule): (b: nat)
    requires hits != []
    ensures b < |hits|
  {
    var last := |hits| - 1;
    if last == 0 then 0
    else if last - First(hits, rule.ttl) <= Quota(rule) then last
    else
      var b := BlockStart(hits[..last], rule);
      if hits[b] + EffectiveBlock(rule) <= hits[last] then last else b
  }

  /** The block's start plus the configured length, or the window's without one. */
  function BlockEnd(hits: seq<int>, rule: Rule): int
    requires hits != []
  {
    hits[BlockStart(hits, rule)] +
    if rule.blockDuration > 0 then rule.blockDuration else if rule.ttl > 0 then rule.ttl else 1
  }

  /** In a window over the quota the row's block is the one that the log shows. */
  lemma {:induction false} BlockIsLog(hits: seq<int>, rule: Rule)
    requires hits != [] && Ordered(hits) && Since(hits, rule.ttl) > Quota(rule)
    ensures After(hits, rule).value.blockedUntil == Some(BlockEnd(hits, rule))
  {
    var last := |hits| - 1;
    RowIsLog(hits, rule);
    if last > 0 {
      RowIsLog(hits[..last], rule);
      if last - First(hits, rule.ttl) > Quota(rule) {
        BlockIsLog(hits[..last], rule);
      }
    }
  }

  /** A block at least as long as the window starts with the window's first refusal and outlasts the window. */
  lemma {:induction false} LongBlockStartsOnce(hits: seq<int>, rule: Rule)
    requires hits != [] && Ordered(hits) && Since(hits, rule.ttl) > Quota(rule) && EffectiveBlock(rule) >= rule.ttl
    ensures BlockStart(hits, rule) == First(hits, rule.ttl) + Quota(rule)
    ensures hits[First(hits, rule.ttl)] + rule.ttl <= BlockEnd(hits, rule)
  {
    var last, f := |hits| - 1, First(hits, rule.ttl);
    assert hits[..last + 1] == hits;
    WindowsTile(hits, rule.ttl, last);
    if last - f > Quota(rule) {
      LongBlockStartsOnce(hits[..last], rule);
    }
  }

  // ---------- Reads that come late ----------

  /** What a caller reads at some time after its upsert, when the key has had `n` hits. */
  function ReadAt(hits: seq<int>, rule: Rule, n: nat, at: int): Verdict
    requires 0 < n <= |hits|
  {
    VerdictOf(After(hits[..n], rule).value, at)
  }

  /**
   With hits of other callers between its upsert and its read, a caller is told the total of the last hit's window and
   is refused exactly when that hit exceeds the quota and the read comes before the end of its block.
   */
  lemma LateReadIsLog(hits: seq<int>, rule: Rule, n: nat, at: int)
    requires 0 < n <= |hits| && Ordered(hits) && hits[n - 1] <= at
    ensures
      var late := ReadAt(hits, rule, n, at);
      late.totalHits == n - FirstAt(hits, rule.ttl, n - 1) &&
      late.timeToExpire == CeilSeconds(hits[FirstAt(hits, rule.ttl, n - 1)] + rule.ttl - at) &&
      (late.isBlocked <==> !Admitted(hits, rule.ttl, Quota(rule), n - 1) && at < BlockEnd(hits[..n], rule)) &&
      (!Admitted(hits, rule.ttl, Quota(rule), n - 1) ==> hits[n - 1] < BlockEnd(hits[..n], rule))
  {
    RowIsLog(hits[..n], rule);
    if Since(hits[..n], rule.ttl) > Quota(rule) {
      BlockIsLog(hits[..n], rule);
    }
  }

  /**
   The refusal is what the caller's own place calls for exactly when, for a place within the quota, the last hit is
   within it too or the read comes after its block, and for a place beyond it, the last hit is beyond it too and the
   read comes before the end of its block.
   */
  lemma LateReadFollowsOwnPlaceExactly(hits: seq<int>, rule: Rule, k: nat, n: nat, at: int)
    requires k < n <= |hits| && Ordered(hits) && hits[n - 1] <= at
    ensures
      var quota, end := Quota(rule), BlockEnd(hits[..n], rule);
      (ReadAt(hits, rule, n, at).isBlocked <==> VerdictAt(hits, rule, k).isBlocked) <==>
      if Admitted(hits, rule.ttl, quota, k)
      then Admitted(hits, rule.ttl, quota, n - 1) || end <= at
      else !Admitted(hits, rule.ttl, quota, n - 1) && at < end
  {
    hide After, FirstAt, BlockStart;
    VerdictIsLog(hits, rule, k);
    LateReadIsLog(hits, rule, n, at);
  }

  /**
   Within one window a block as long as the window hides no refusal: a caller beyond the quota is refused by any read
   before the window is over.
   */
  lemma LongBlockKeepsRefusal(hits: seq<int>, rule: Rule, k: nat, n: nat, at: int)
    requires k < n <= |hits| && Ordered(hits) && hits[n - 1] <= at && EffectiveBlock(rule) >= rule.ttl
    requires !Admitted(hits, rule.ttl, Quota(rule), k) && at < hits[FirstAt(hits, rule.ttl, k)] + rule.ttl
    ensures ReadAt(hits, rule, n, at).isBlocked
  {
    hide After, BlockStart, FirstAt, First;
    SameWindow(hits, rule.ttl, k, n - 1);
    LateReadIsLog(hits, rule, n, at);
    FirstOfPrefix(hits, rule.ttl, n - 1);
    LongBlockStartsOnce(hits[..n], rule);
  }

  lemma FirstOfPrefix(hits: seq<int>, ttl: nat, i: nat)
    requires i < |hits|
    ensures FirstAt(hits, ttl, i) == First(hits[..i + 1], ttl)
  {
  }

  /** A later hit before the end of a window belongs to it. */
  lemma {:induction false} SameWindow(hits: seq<int>, ttl: nat, k: nat, i: nat)
    requires k <= i < |hits| && Ordered(hits) && hits[i] < hits[FirstAt(hits, ttl, k)] + ttl
    ensures FirstAt(hits, ttl, i) == FirstAt(hits, ttl, k)
  {
    hide FirstAt;
    if k < i {
      SameWindow(hits, ttl, k, i - 1);
      FirstSteps(hits, ttl, i - 1);
    }
  }

  /** One caller within its limit is told that it is blocked, by the hit of another. */
  lemma OthersHitRefusesMe()
    ensures
      var rule, hits := Rule(1000, 1, 0), [0, 1];
      Ordered(hits) && !VerdictAt(hits, rule, 0).isBlocked && ReadAt(hits, rule, 2, 1).isBlocked
  {
    var rule, hits := Rule(1000, 1, 0), [0, 1];
    TwoHits(rule);
    VerdictIsLog(hits, rule, 0);
    LateReadIsLog(hits, rule, 2, 1);
  }

  /** One caller beyond its limit is let through, by a block shorter than the wait for its read. */
  lemma ShortBlockIsMissed()
    ensures
      var rule, hits := Rule(1000, 1, 1), [0, 1];
      Ordered(hits) && VerdictAt(hits, rule, 1).isBlocked && !ReadAt(hits, rule, 2, 2).isBlocked
  {
    var rule, hits := Rule(1000, 1, 1), [0, 1];
    TwoHits(rule);
    VerdictIsLog(hits, rule, 1);
    LateReadIsLog(hits, rule, 2, 2);
  }

  lemma TwoHits(rule: Rule)
    requires rule.ttl == 1000
    ensures
      var hits := [0, 1];
      FirstAt(hits, rule.ttl, 0) == 0 && FirstAt(hits, rule.ttl, 1) == 0 && hits[..2] == hits &&
      (rule.limit == 1 ==> BlockStart(hits, rule) == 1)
  {
    var hits := [0, 1];
    assert hits[..1] == [0] && hits[..2] == hits;
    FirstSteps(hits, rule.ttl, 0);
  }

  /** A cleanup before the read changes at most the reported total, and that exactly when it removes a longer log. */
  lemma CleanupBeforeReadExactly(row: Row, cleaned: int, at: int)
    requires cleaned <= at
    ensures
      var read, kept := ReadRow(if Removable(row, cleaned) then None else Some(row), at), VerdictOf(row, at);
      read.isBlocked == kept.isBlocked && read.timeToExpire == kept.timeToExpire &&
      read.timeToBlockExpire == kept.timeToBlockExpire &&
      (read == kept <==> !(Removable(row, cleaned) && row.totalHits != 1))
  {
  }

  // ---------- Cleanup ----------

  function Step(rows: map<string, Row>, e: Event<Rule>): map<string, Row> {
    match e
    case Hit(key, rule, at) => rows[key := Upserted(Found(rows, key), at, rule)]
    case Cleanup(at) => Cleaned(rows, at)
  }

  function Verdicts(rows: map<string, Row>, events: seq<Event<Rule>>): seq<Verdict>
    decreases events
  {
    if events == [] then []
    else
      var next := Step(rows, events[0]);
      (if events[0].Hit? then [VerdictOf(next[events[0].key], events[0].at)] else []) + Verdicts(next, events[1..])
  }

  function WindowEnd(row: Row): int {
    row.expiresAt
  }

  lemma {:induction false} TrimmedStoresAgree(a: map<string, Row>, b: map<string, Row>, events: seq<Event<Rule>>,
        now: int)
    requires Trimmed(a, b, WindowEnd, now) && Timed(events, now)
    ensures Verdicts(a, events) == Verdicts(b, WithoutCleanups(events))
    decreases events
  {
    if events != [] {
      var e := events[0];
      CleanupsAreDropped(events);
      if e.Hit? {
        TrimmedStoresAgree(Step(a, e), Step(b, e), events[1..], e.at);
      } else {
        assert Verdicts(a, events) == Verdicts(Step(a, e), events[1..]);
        TrimmedStoresAgree(Step(a, e), b, events[1..], e.at);
      }
    }
  }

  /** Cleanup steps anywhere in a run change no later verdict. */
  lemma CleanupIsUnobservable(rows: map<string, Row>, events: seq<Event<Rule>>, now: int)
    requires Timed(events, now)
    ensures Verdicts(rows, events) == Verdicts(rows, WithoutCleanups(events))
  {
    TrimmedStoresAgree(rows, rows, events, now);
  }

  function StoreAfter(events: seq<Event<Rule>>): map<string, Row> {
    if events == [] then map[] else Step(StoreAfter(events[..|events| - 1]), events[|events| - 1])
  }

  /** In a run over many keys each key's row is that of its own log: keys do not disturb one another. */
  lemma {:induction false} KeysAreIndependent(events: seq<Event<Rule>>, key: string, rule: Rule)
    requires forall e | e in events :: e.Hit? && (e.key == key ==> e.rule == rule)
    ensures Found(StoreAfter(events), key) == After(Times(events, key), rule)
  {
    if events != [] {
      KeysAreIndependent(events[..|events| - 1], key, rule);
      TimesStep(events, key);
      assert events[|events| - 1] in events;
    }
  }

  /** What a caller reads between the hits of any keys is what the log of its own key shows. */
  lemma ReadInRunIsLog(events: seq<Event<Rule>>, key: string, rule: Rule, at: int)
    requires forall e | e in events :: e.Hit? && (e.key == key ==> e.rule == rule)
    requires var hits := Times(events, key); hits != [] && Ordered(hits) && hits[|hits| - 1] <= at
    ensures
      var hits, late := Times(events, key), ReadRow(Found(StoreAfter(events), key), at);
      late == ReadAt(hits, rule, |hits|, at) && late.totalHits == Since(hits, rule.ttl) &&
      (late.isBlocked <==> late.totalHits > Quota(rule) && at < BlockEnd(hits, rule))
  {
    hide After, StoreAfter, BlockStart;
    var hits := Times(events, key);
    KeysAreIndependent(events, key, rule);
    assert hits[..|hits|] == hits;
    LateReadIsLog(hits, rule, |hits|, at);
    AfterHits(hits, rule);
  }

  lemma AfterHits(hits: seq<int>, rule: Rule)
    requires hits != []
    ensures After(hits, rule).Some?
  {
  }

  /** What the last of some requests is answered. */
  function LastVerdict(sofar: seq<Event<Rule>>): Verdict
    requires sofar != [] && sofar[|sofar| - 1].Hit?
  {
    var e := sofar[|sofar| - 1];
    VerdictOf(Step(StoreAfter(sofar[..|sofar| - 1]), e)[e.key], e.at)
  }

  lemma FirstVerdict(before: seq<Event<Rule>>, events: seq<Event<Rule>>)
    requires events != [] && events[0].Hit?
    ensures Verdicts(StoreAfter(before), events) ==
            [LastVerdict(before + [events[0]])] + Verdicts(StoreAfter(before + [events[0]]), events[1..])
  {
    var longer := before + [events[0]];
    assert longer[..|longer| - 1] == before && longer[|longer| - 1] == events[0];
    hide VerdictOf;
  }

  lemma {:induction false} VerdictsCount(before: seq<Event<Rule>>, events: seq<Event<Rule>>)
    requires forall e | e in events :: e.Hit?
    ensures |Verdicts(StoreAfter(before), events)| == |events|
    decreases events
  {
    hide Verdicts, StoreAfter, LastVerdict;
    if events != [] {
      assert events[0] in events && forall e | e in events[1..] :: e in events;
      FirstVerdict(before, events);
      VerdictsCount(before + [events[0]], events[1..]);
    } else {
      NoVerdict(before);
    }
  }

  lemma NoVerdict(before: seq<Event<Rule>>)
    ensures Verdicts(StoreAfter(before), []) == []
  {
  }

  /** Requests alone are answered one after the other from what those before them left. */
  lemma {:induction false} VerdictsFollowRun(before: seq<Event<Rule>>, events: seq<Event<Rule>>, k: nat)
    requires k < |events| && forall e | e in events :: e.Hit?
    ensures events[k].Hit? && (before + events[..k + 1])[|before| + k] == events[k]
    ensures |Verdicts(StoreAfter(before), events)| == |events|
    ensures Verdicts(StoreAfter(before), events)[k] == LastVerdict(before + events[..k + 1])
    decreases events
  {
    assert events[k] in events && events[0] in events && forall e | e in events[1..] :: e in events;
    hide Verdicts, StoreAfter, LastVerdict;
    VerdictsCount(before, events);
    FirstVerdict(before, events);
    if k == 0 {
      assert events[..1] == [events[0]];
    } else {
      assert before + [events[0]] + events[1..][..k] == before + events[..k + 1];
      VerdictsFollowRun(before + [events[0]], events[1..], k - 1);
    }
  }

  lemma LastVerdictIsLog(sofar: seq<Event<Rule>>, rule: Rule)
    requires sofar != [] && sofar[|sofar| - 1].Hit?
    requires forall e | e in sofar :: e.Hit? && (e.key == sofar[|sofar| - 1].key ==> e.rule == rule)
    ensures
      var e := sofar[|sofar| - 1];
      var hits := Times(sofar, e.key);
      e.Hit? && hits != [] && hits[|hits| - 1] == e.at && LastVerdict(sofar) == VerdictAt(hits, rule, |hits| - 1)
  {
    var e := sofar[|sofar| - 1];
    assert e in sofar;
    TimesStep(sofar, e.key);
    hide Times, VerdictOf, After, Upserted;
    KeysAreIndependent(sofar, e.key, rule);
    var hits := Times(sofar, e.key);
    assert hits[..|hits| - 1 + 1] == hits;
  }

  /** In any run, with cleanups anywhere, each hit is answered once, with the verdict that its own key's log shows. */
  lemma VerdictsAreLogs(events: seq<Event<Rule>>, now: int, rules: string -> Rule, k: nat)
    requires Timed(events, now) && k < |WithoutCleanups(events)|
    requires forall e | e in WithoutCleanups(events) :: e.Hit? && e.rule == rules(e.key)
    ensures
      var requests := WithoutCleanups(events);
      var hits := Times(requests[..k + 1], requests[k].key);
      |Verdicts(map[], events)| == |requests| && hits != [] && hits[|hits| - 1] == requests[k].at &&
      Verdicts(map[], events)[k] == VerdictAt(hits, rules(requests[k].key), |hits| - 1)
  {
    CleanupIsUnobservable(map[], events, now);
    assert StoreAfter([]) == map[];
    hide *;
    HitVerdicts(WithoutCleanups(events), rules, k);
  }

  lemma HitVerdicts(requests: seq<Event<Rule>>, rules: string -> Rule, k: nat)
    requires k < |requests| && forall e | e in requests :: e.Hit? && e.rule == rules(e.key)
    ensures
      var hits := Times(requests[..k + 1], requests[k].key);
      requests[k].Hit? && |Verdicts(StoreAfter([]), requests)| == |requests| &&
      hits != [] && hits[|hits| - 1] == requests[k].at &&
      Verdicts(StoreAfter([]), requests)[k] == VerdictAt(hits, rules(requests[k].key), |hits| - 1)
  {
    var sofar := requests[..k + 1];
    assert [] + sofar == sofar && sofar[|sofar| - 1] == requests[k];
    assert requests[k] in requests && forall e | e in sofar :: e in requests;
    hide *;
    VerdictsFollowRun([], requests, k);
    LastVerdictIsLog(sofar, rules(requests[k].key));
  }
}
