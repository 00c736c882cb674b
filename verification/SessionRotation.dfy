/**
 Refresh-token rotation: a compare-and-swap UPDATE followed by a separate history INSERT, interleaved statement
 by statement among any number of callers.
 */
module SessionRotation {
  import opened Wrappers

  /** `hashCredential`: any injective function of strings. */
  type Hash = string -> string

  ghost predicate Injective(hash: Hash) {
    forall x: string, y: string :: hash(x) == hash(y) ==> x == y
  }

  /** A stored credential is found by its hash or, for legacy rows, by the plain text. */
  predicate Matches(hash: Hash, stored: string, presented: string) {
    stored == hash(presented) || stored == presented
  }

  datatype Session = Session(userId: string, token: string, expiresAt: nat, revokedAt: Option<nat>) {
    predicate Live(now: nat) {
      revokedAt.None? && expiresAt > now
    }
  }

  datatype Past = Past(sessionId: string, userId: string, expiresAt: nat)

  type Sessions = map<string, Session>
  type History = map<string, Past>

  // ---------- The statements ----------

  predicate Rotatable(hash: Hash, sessions: Sessions, id: string, userId: string, presented: string, now: nat) {
    id in sessions && sessions[id].userId == userId && Matches(hash, sessions[id].token, presented) &&
      sessions[id].Live(now)
  }

  function Rotated(sessions: Sessions, id: string, newToken: string, expiresAt: nat): Sessions
    requires id in sessions
  {
    sessions[id := Session(sessions[id].userId, newToken, expiresAt, None)]
  }

  function RevokedFor(sessions: Sessions, now: nat, affected: Session -> bool): Sessions {
    map id | id in sessions :: if affected(sessions[id]) then sessions[id].(revokedAt := Some(now)) else sessions[id]
  }

  /** INSERT IGNORE on the unique token hash. */
  function Recorded(history: History, tokenHash: string, past: Past): History {
    if tokenHash in history then history else history[tokenHash := past]
  }

  // ---------- The repository, one statement at a time ----------

  class SessionRepository {
    const hash: Hash
    var now: nat
    var sessions: Sessions
    var history: History

    constructor (hash: Hash, sessions: Sessions, now: nat)
      ensures this.hash == hash && this.now == now && this.sessions == sessions && history == map[]
    {
      this.hash, this.now, this.sessions, this.history := hash, now, sessions, map[];
    }

    /** The hashed match first, then the legacy one; `UNIQUE` leaves at most one row of each kind. */
    method FindByRefreshToken(presented: string) returns (found: Option<string>)
      ensures found.Some? ==> found.value in sessions && Matches(hash, sessions[found.value].token, presented)
      ensures found.None? ==> forall id | id in sessions :: !Matches(hash, sessions[id].token, presented)
      ensures (exists id | id in sessions :: sessions[id].token == hash(presented)) ==>
              found.Some? && sessions[found.value].token == hash(presented)
    {
      if id :| id in sessions && sessions[id].token == hash(presented) {
        return Some(id);
      }
      if id :| id in sessions && sessions[id].token == presented {
        return Some(id);
      }
      return None;
    }

    /** Without a `revokedAt IS NULL` guard: a second logout moves the revocation time. */
    method RevokeByRefreshToken(presented: string)
      modifies this`sessions
      ensures sessions == RevokedFor(old(sessions), now, (s: Session) => Matches(hash, s.token, presented))
      ensures sessions.Keys == old(sessions).Keys && forall id | id in sessions ::
        var was := old(sessions)[id];
        sessions[id] == if was.token == hash(presented) || was.token == presented
                        then Session(was.userId, was.token, was.expiresAt, Some(now)) else was
    {
      var affected := (s: Session) => Matches(hash, s.token, presented);
      sessions := RevokedFor(sessions, now, affected);
    }

    method RevokeActiveFamily(userId: string)
      modifies this`sessions
      ensures sessions == RevokedFor(old(sessions), now, (s: Session) => s.userId == userId && s.revokedAt.None?)
      ensures sessions.Keys == old(sessions).Keys && forall id | id in sessions ::
        var was := old(sessions)[id];
        sessions[id] == if was.userId == userId && was.revokedAt == None
                        then Session(was.userId, was.token, was.expiresAt, Some(now)) else was
      ensures forall id | id in sessions && sessions[id].userId == userId :: !sessions[id].Live(now)
      ensures forall id | id in old(sessions) && old(sessions)[id].userId != userId ::
        id in sessions && sessions[id] == old(sessions)[id]
    {
      sessions := RevokedFor(sessions, now, (s: Session) => s.userId == userId && s.revokedAt.None?);
    }

    method RecordRotation(sessionId: string, userId: string, previous: string, expiresAt: nat)
      modifies this`history
      ensures history == Recorded(old(history), hash(previous), Past(sessionId, userId, expiresAt))
      ensures history == if hash(previous) in old(history) then old(history)
                         else old(history)[hash(previous) := Past(sessionId, userId, expiresAt)]
    {
      if hash(previous) !in history {
        history := history[hash(previous) := Past(sessionId, userId, expiresAt)];
      }
    }

    /** The UPDATE alone; the result is whether a row was affected. */
    method SwapToken(sessionId: string, userId: string, previous: string, newToken: string, expiresAt: nat)
      returns (swapped: bool)
      modifies this`sessions
      ensures swapped == Rotatable(hash, old(sessions), sessionId, userId, previous, now)
      ensures swapped <==> (sessionId in old(sessions) &&
        var was := old(sessions)[sessionId];
        was.userId == userId && (was.token == hash(previous) || was.token == previous) && was.revokedAt == None &&
        was.expiresAt > now)
      ensures sessions == if swapped then Rotated(old(sessions), sessionId, newToken, expiresAt) else old(sessions)
      ensures swapped ==> sessions == old(sessions)[sessionId := Session(userId, newToken, expiresAt, None)]
    {
      swapped := Rotatable(hash, sessions, sessionId, userId, previous, now);
      if swapped {
        sessions := sessions[sessionId := Session(userId, newToken, expiresAt, None)];
      }
    }

    /** One caller's `rotate` when no other statement comes between its two. */
    method Rotate(sessionId: string, userId: string, previous: string, newToken: string, expiresAt: nat)
      returns (rotated: Option<string>)
      modifies this`sessions, this`history
      ensures rotated == if Rotatable(hash, old(sessions), sessionId, userId, previous, now) then Some(sessionId)
          else None
      ensures rotated == Some(sessionId) <==> (sessionId in old(sessions) &&
        var was := old(sessions)[sessionId];
        was.userId == userId && (was.token == hash(previous) || was.token == previous) && was.revokedAt == None &&
        was.expiresAt > now)
      ensures rotated.Some? ==> sessions == old(sessions)[sessionId := Session(userId, newToken, expiresAt, None)]
      ensures rotated.Some? ==> sessions == Rotated(old(sessions), sessionId, newToken, expiresAt)
      ensures rotated.Some? ==> history == Recorded(old(history), hash(previous), Past(sessionId, userId, expiresAt))
      ensures rotated.None? ==> sessions == old(sessions) && history == old(history)
    {
      var swapped := SwapToken(sessionId, userId, previous, newToken, expiresAt);
      if !swapped {
        return None;
      }
      RecordRotation(sessionId, userId, previous, expiresAt);
      return Some(sessionId);
    }

    method FindReusedToken(presented: string) returns (reused: Option<Past>)
      ensures reused == Reused(hash, history, presented, now)
      ensures reused == if hash(presented) in history && history[hash(presented)].expiresAt > now
                        then Some(history[hash(presented)]) else None
    {
      if hash(presented) in history && history[hash(presented)].expiresAt > now {
        return Some(history[hash(presented)]);
      }
      return None;
    }
  }

  /** The unexpired history row of a presented token. */
  function Reused(hash: Hash, history: History, presented: string, now: nat): Option<Past> {
    if hash(presented) in history && history[hash(presented)].expiresAt > now then Some(history[hash(presented)])
      else None
  }

  // ---------- Interleaved runs ----------

  datatype Progress = InFlight | Written | Lost

  /**
   A successful compare-and-swap: when it happened, the session as it was, and how far its caller's history INSERT has
   come.
   */
  datatype Rotation = Rotation(presented: string, at: nat, was: Session, past: Past, progress: Progress)

  /** `stored` is every credential stored so far, `used` these and every token presented to a successful rotation. */
  datatype State = State(
    now: nat,
    sessions: Sessions,
    history: History,
    log: seq<Rotation>,
    stored: set<string>,
    used: set<string>)

  datatype Event =
    | Tick(later: nat)
    | Create(id: string, userId: string, token: string, expiresAt: nat)
    | Swap(id: string, userId: string, presented: string, token: string, expiresAt: nat)
    | Record(caller: nat)
    | Lose(caller: nat)
    | Logout(presented: string)
    | RevokeFamily(userId: string)
    | Trim(ids: set<string>)
    | Delete(ids: set<string>)

  /** A new random token: neither it nor its hash nor its double hash has been seen. */
  predicate Fresh(hash: Hash, used: set<string>, token: string) {
    token !in used && hash(token) !in used && hash(hash(token)) !in used
  }

  /** What the environment guarantees: fresh tokens and ids; only a caller between its two statements writes history. */
  predicate Possible(hash: Hash, s: State, e: Event) {
    match e
    case Create(id, _, token, _) => id !in s.sessions && Fresh(hash, s.used, token)
    case Swap(_, _, _, token, _) => Fresh(hash, s.used, token)
    case Record(caller) => caller < |s.log| && s.log[caller].progress == InFlight
    case Lose(caller) => caller < |s.log| && s.log[caller].progress == InFlight
    case _ => true
  }

  function Step(hash: Hash, s: State, e: Event): State {
    match e
    case Tick(later) => s.(now := s.now + later)
    case Create(id, userId, token, expiresAt) =>
      s.(sessions := s.sessions[id := Session(userId, hash(token), expiresAt, None)],
         stored := s.stored + {hash(token)}, used := s.used + {hash(token)})
    case Swap(id, userId, presented, token, expiresAt) =>
      if !Rotatable(hash, s.sessions, id, userId, presented, s.now) then s
      else State(s.now, Rotated(s.sessions, id, hash(token), expiresAt), s.history,
                 s.log + [Rotation(presented, s.now, s.sessions[id], Past(id, userId, expiresAt), InFlight)],
                 s.stored + {hash(token)}, s.used + {hash(token), presented})
    case Record(caller) =>
      if caller >= |s.log| then s
      else s.(history := Recorded(s.history, hash(s.log[caller].presented), s.log[caller].past),
              log := s.log[caller := s.log[caller].(progress := Written)])
    case Lose(caller) =>
      if caller >= |s.log| then s else s.(log := s.log[caller := s.log[caller].(progress := Lost)])
    case Logout(presented) => s.(sessions := RevokedFor(s.sessions, s.now,
      (x: Session) => Matches(hash, x.token, presented)))
    case RevokeFamily(userId) =>
      s.(sessions := RevokedFor(s.sessions, s.now, (x: Session) => x.userId == userId && x.revokedAt.None?))
    case Trim(ids) =>
      s.(sessions := map id | id in s.sessions ::
           if id in ids then s.sessions[id].(revokedAt := Some(s.now)) else s.sessions[id])
    case Delete(ids) => s.(sessions := s.sessions - ids)
  }

  predicate Run(hash: Hash, s: State, events: seq<Event>)
    decreases events
  {
    events == [] || (Possible(hash, s, events[0]) && Run(hash, Step(hash, s, events[0]), events[1..]))
  }

  function After(hash: Hash, s: State, events: seq<Event>): State
    decreases events
  {
    if events == [] then s else After(hash, Step(hash, s, events[0]), events[1..])
  }

  /** Stored tokens are unique, and none is the hash of another (a legacy token never looks like a hash). */
  predicate Separate(hash: Hash, sessions: Sessions) {
    forall a, b | a in sessions && b in sessions && a != b ::
      sessions[a].token != sessions[b].token && sessions[a].token != hash(sessions[b].token)
  }

  predicate Start(hash: Hash, s: State) {
    Separate(hash, s.sessions) && s.history == map[] && s.log == [] && s.stored <= s.used &&
    s.stored == set id | id in s.sessions :: s.sessions[id].token
  }

  predicate SpentOnce(log: seq<Rotation>) {
    forall i, j | 0 <= i < j < |log| :: log[i].presented != log[j].presented
  }

  /** No session still answers to a consumed token. */
  predicate SpentIsDead(hash: Hash, sessions: Sessions, log: seq<Rotation>) {
    forall id, k | id in sessions && 0 <= k < |log| :: !Matches(hash, sessions[id].token, log[k].presented)
  }

  predicate HistoryIsWritten(hash: Hash, history: History, log: seq<Rotation>) {
    (forall k | 0 <= k < |log| && log[k].progress == Written ::
       hash(log[k].presented) in history && history[hash(log[k].presented)] == log[k].past) &&
    (forall h | h in history :: WrittenFor(hash, log, h))
  }

  predicate WrittenFor(hash: Hash, log: seq<Rotation>, tokenHash: string) {
    exists k | 0 <= k < |log| :: log[k].progress == Written && hash(log[k].presented) == tokenHash
  }

  predicate UsedCovers(s: State) {
    (forall id | id in s.sessions :: s.sessions[id].token in s.used) &&
    (forall k | 0 <= k < |s.log| :: s.log[k].presented in s.used)
  }

  predicate Invariant(hash: Hash, s: State) {
    Separate(hash, s.sessions) && SpentOnce(s.log) && SpentIsDead(hash, s.sessions, s.log) &&
    HistoryIsWritten(hash, s.history, s.log) && UsedCovers(s)
  }

  /** Storing a fresh token's hash keeps the stored tokens apart and away from everything consumed. */
  lemma FreshTokenIsApart(hash: Hash, used: set<string>, token: string, other: string)
    requires Injective(hash) && Fresh(hash, used, token) && other in used
    ensures hash(token) != other && hash(token) != hash(other) && other != hash(hash(token))
    ensures !Matches(hash, hash(token), other)
  {
  }

  lemma SwapKeeps(hash: Hash, s: State, e: Event)
    requires Injective(hash) && Invariant(hash, s) && e.Swap? && Possible(hash, s, e)
    requires Rotatable(hash, s.sessions, e.id, e.userId, e.presented, s.now)
    ensures Invariant(hash, Step(hash, s, e))
  {
    var after := Step(hash, s, e);
    var stored := s.sessions[e.id].token;
    forall other | other in s.used
      ensures hash(e.token) != other && hash(e.token) != hash(other) && other != hash(hash(e.token))
    {
      FreshTokenIsApart(hash, s.used, e.token, other);
    }
    SwapSpends(hash, s, e);
    assert Separate(hash, after.sessions);
    WrittenSurvivesAppend(hash, s.history, s.log, after.log[|s.log|]);
  }

  lemma SwapSpends(hash: Hash, s: State, e: Event)
    requires Injective(hash) && Invariant(hash, s) && e.Swap? && Possible(hash, s, e)
    requires Rotatable(hash, s.sessions, e.id, e.userId, e.presented, s.now)
    ensures SpentOnce(Step(hash, s, e).log) && SpentIsDead(hash, Step(hash, s, e).sessions, Step(hash, s, e).log)
  {
    var after := Step(hash, s, e);
    var stored := s.sessions[e.id].token;
    forall id, k | id in after.sessions && 0 <= k < |after.log|
      ensures !Matches(hash, after.sessions[id].token, after.log[k].presented)
    {
      if k < |s.log| && id == e.id {
        FreshTokenIsApart(hash, s.used, e.token, s.log[k].presented);
      } else if k == |s.log| && id == e.id {
        FreshTokenIsApart(hash, s.used, e.token, stored);
      }
    }
  }

  lemma WrittenSurvivesAppend(hash: Hash, history: History, log: seq<Rotation>, r: Rotation)
    requires HistoryIsWritten(hash, history, log) && r.progress == InFlight
    ensures HistoryIsWritten(hash, history, log + [r])
  {
    forall h | h in history
      ensures WrittenFor(hash, log + [r], h)
    {
      var k :| 0 <= k < |log| && log[k].progress == Written && hash(log[k].presented) == h;
      assert (log + [r])[k] == log[k];
    }
  }

  lemma LoseKeeps(hash: Hash, s: State, e: Event)
    requires Injective(hash) && Invariant(hash, s) && e.Lose? && Possible(hash, s, e)
    ensures Invariant(hash, Step(hash, s, e))
  {
    var after := Step(hash, s, e);
    forall h | h in after.history
      ensures WrittenFor(hash, after.log, h)
    {
      var k :| 0 <= k < |s.log| && s.log[k].progress == Written && hash(s.log[k].presented) == h;
      assert after.log[k] == s.log[k];
    }
  }

  lemma RecordKeeps(hash: Hash, s: State, e: Event)
    requires Injective(hash) && Invariant(hash, s) && e.Record? && Possible(hash, s, e)
    ensures Invariant(hash, Step(hash, s, e))
  {
    hide Matches, Separate;
    var after := Step(hash, s, e);
    assert forall k | 0 <= k < |s.log| ::
      after.log[k].presented == s.log[k].presented && after.log[k].past == s.log[k].past;
    RecordIsWritten(hash, s.history, s.log, e.caller);
  }

  lemma RecordIsWritten(hash: Hash, history: History, log: seq<Rotation>, caller: nat)
    requires Injective(hash) && SpentOnce(log) && HistoryIsWritten(hash, history, log)
    requires caller < |log| && log[caller].progress == InFlight
    ensures HistoryIsWritten(hash, Recorded(history, hash(log[caller].presented), log[caller].past),
                             log[caller := log[caller].(progress := Written)])
  {
    var log' := log[caller := log[caller].(progress := Written)];
    var key := hash(log[caller].presented);
    forall k | 0 <= k < |log| && log[k].progress == Written ensures hash(log[k].presented) != key {
      assert k < caller || caller < k;
    }
    assert key !in history;
    assert log'[caller].progress == Written && WrittenFor(hash, log', key);
    forall h | h in history ensures WrittenFor(hash, log', h) {
      var k :| 0 <= k < |log| && log[k].progress == Written && hash(log[k].presented) == h;
      assert log'[k] == log[k];
    }
  }

  lemma CreateKeeps(hash: Hash, s: State, e: Event)
    requires Injective(hash) && Invariant(hash, s) && e.Create? && Possible(hash, s, e)
    ensures Invariant(hash, Step(hash, s, e))
  {
    forall other | other in s.used
      ensures hash(e.token) != other && hash(e.token) != hash(other) && other != hash(hash(e.token))
      ensures !Matches(hash, hash(e.token), other)
    {
      FreshTokenIsApart(hash, s.used, e.token, other);
    }
  }

  lemma StepKeeps(hash: Hash, s: State, e: Event)
    requires Injective(hash) && Invariant(hash, s) && Possible(hash, s, e)
    ensures Invariant(hash, Step(hash, s, e))
  {
    if e.Swap? {
      if Rotatable(hash, s.sessions, e.id, e.userId, e.presented, s.now) {
        SwapKeeps(hash, s, e);
      }
    } else if e.Record? {
      RecordKeeps(hash, s, e);
    } else if e.Lose? {
      LoseKeeps(hash, s, e);
    } else if e.Create? {
      CreateKeeps(hash, s, e);
    }
  }

  lemma {:induction false} RunKeeps(hash: Hash, s: State, events: seq<Event>)
    requires Injective(hash) && Invariant(hash, s) && Run(hash, s, events)
    ensures Invariant(hash, After(hash, s, events))
    decreases events
  {
    hide Invariant, Possible, Step;
    if events != [] {
      StepKeeps(hash, s, events[0]);
      RunKeeps(hash, Step(hash, s, events[0]), events[1..]);
    }
  }

  /**
   Over every interleaving, at most one rotation succeeds for each presented token, and afterwards no session answers
   to it.
   */
  lemma SingleWinner(hash: Hash, s: State, events: seq<Event>)
    requires Injective(hash) && Start(hash, s) && Run(hash, s, events)
    ensures
      var end := After(hash, s, events);
      SpentOnce(end.log) && SpentIsDead(hash, end.sessions, end.log)
  {
    RunKeeps(hash, s, events);
  }

  /**
   The reuse lookup finds a token exactly when a rotation consumed it, that rotation's history row was written, and
   the row has not expired.
   */
  lemma ReuseIsDetectedExactly(hash: Hash, s: State, events: seq<Event>, presented: string)
    requires Injective(hash) && Start(hash, s) && Run(hash, s, events)
    ensures
      var end := After(hash, s, events);
      Reused(hash, end.history, presented, end.now).Some? <==>
      exists k | 0 <= k < |end.log| ::
        end.log[k].presented == presented && end.log[k].progress == Written && end.log[k].past.expiresAt > end.now
  {
    RunKeeps(hash, s, events);
    var end := After(hash, s, events);
    if Reused(hash, end.history, presented, end.now).Some? {
      var k :| 0 <= k < |end.log| && end.log[k].progress == Written && hash(end.log[k].presented) == hash(presented);
      assert end.log[k].presented == presented;
    }
  }

  /** No token that still answers for a session is ever reported as reused. */
  lemma CurrentTokenIsNeverReused(hash: Hash, s: State, events: seq<Event>, id: string, presented: string)
    requires Injective(hash) && Start(hash, s) && Run(hash, s, events)
    requires id in After(hash, s, events).sessions &&
        Matches(hash, After(hash, s, events).sessions[id].token, presented)
    ensures Reused(hash, After(hash, s, events).history, presented, After(hash, s, events).now) == None
    ensures forall other | other in After(hash, s, events).sessions && other != id ::
      !Matches(hash, After(hash, s, events).sessions[other].token, presented)
  {
    RunKeeps(hash, s, events);
    ReuseIsDetectedExactly(hash, s, events, presented);
  }

  /**
   Replaying a consumed token once its history row is written: the session lookup fails, the reuse lookup names
   the rotated session's user, and revoking that family leaves the user no live session.
   */
  lemma ReplayRevokesTheFamily(hash: Hash, s: State, events: seq<Event>, k: nat)
    requires Injective(hash) && Start(hash, s) && Run(hash, s, events)
    requires k < |After(hash, s, events).log|
    requires After(hash, s, events).log[k].progress == Written
    requires After(hash, s, events).log[k].past.expiresAt > After(hash, s, events).now
    ensures
      var end := After(hash, s, events);
      var presented, past := end.log[k].presented, end.log[k].past;
      (forall id | id in end.sessions :: !Matches(hash, end.sessions[id].token, presented)) &&
      Reused(hash, end.history, presented, end.now) == Some(past) &&
      var revoked := Step(hash, end, RevokeFamily(past.userId));
      forall id | id in revoked.sessions && revoked.sessions[id].userId == past.userId ::
        !revoked.sessions[id].Live(revoked.now)
  {
    RunKeeps(hash, s, events);
  }

  // ---------- When a rotation may and must succeed ----------

  /** Made while the session was its user's, unrevoked and unexpired, by its credential or the token behind it. */
  predicate Allowed(hash: Hash, r: Rotation) {
    r.was.userId == r.past.userId && (r.was.token == hash(r.presented) || r.was.token == r.presented) &&
    r.was.revokedAt == None && r.at < r.was.expiresAt
  }

  predicate AllAllowed(hash: Hash, s: State) {
    forall k | 0 <= k < |s.log| :: Allowed(hash, s.log[k]) && s.log[k].at <= s.now
  }

  lemma {:induction false} RunAllows(hash: Hash, s: State, events: seq<Event>)
    requires AllAllowed(hash, s)
    ensures AllAllowed(hash, After(hash, s, events))
    decreases events
  {
    if events != [] {
      StepAllows(hash, s, events[0]);
      RunAllows(hash, Step(hash, s, events[0]), events[1..]);
    }
  }

  lemma StepAllows(hash: Hash, s: State, e: Event)
    requires AllAllowed(hash, s)
    ensures AllAllowed(hash, Step(hash, s, e))
  {
  }

  /** Over every run, each rotation was made while its session was its user's, unrevoked and unexpired. */
  lemma RotationsWereAllowed(hash: Hash, s: State, events: seq<Event>, k: nat)
    requires s.log == [] && k < |After(hash, s, events).log|
    ensures
      var r := After(hash, s, events).log[k];
      r.was.userId == r.past.userId && (r.was.token == hash(r.presented) || r.was.token == r.presented) &&
      r.was.revokedAt == None && r.at < r.was.expiresAt
  {
    RunAllows(hash, s, events);
  }

  /**
   A swap is logged exactly when it names a session of that user, unrevoked and unexpired, and presents its credential
   or the token behind it; it then stores the new token's hash and the new expiry, and otherwise changes nothing.
   */
  lemma SwapSucceedsExactly(hash: Hash, s: State, id: string, userId: string, presented: string, token: string,
                            expiresAt: nat)
    ensures
      var after := Step(hash, s, Swap(id, userId, presented, token, expiresAt));
      var may := id in s.sessions && s.sessions[id].userId == userId && s.sessions[id].revokedAt == None &&
                 s.now < s.sessions[id].expiresAt &&
                 (s.sessions[id].token == hash(presented) || s.sessions[id].token == presented);
      (may ==>
         after.sessions == s.sessions[id := Session(userId, hash(token), expiresAt, None)] &&
         after.log == s.log + [Rotation(presented, s.now, s.sessions[id], Past(id, userId, expiresAt), InFlight)]) &&
      (!may ==> after == s)
  {
  }

  /** The sessions after a statement that marks some of them as revoked. */
  ghost predicate RevokesExactly(s: State, after: State, chosen: string -> bool) {
    after.now == s.now && after.history == s.history && after.log == s.log && after.sessions.Keys == s.sessions.Keys &&
    forall id | id in s.sessions ::
      after.sessions[id] == if chosen(id) then s.sessions[id].(revokedAt := Some(s.now)) else s.sessions[id]
  }

  /** What the other statements do to the sessions. */
  lemma OtherStatements(hash: Hash, s: State, presented: string, userId: string, ids: set<string>, later: nat)
    ensures RevokesExactly(s, Step(hash, s, Logout(presented)),
      id => id in s.sessions && (s.sessions[id].token == hash(presented) || s.sessions[id].token == presented))
    ensures RevokesExactly(s, Step(hash, s, RevokeFamily(userId)),
      id => id in s.sessions && s.sessions[id].userId == userId && s.sessions[id].revokedAt == None)
    ensures RevokesExactly(s, Step(hash, s, Trim(ids)), id => id in ids)
    ensures Step(hash, s, Delete(ids)) == s.(sessions := map id | id in s.sessions && id !in ids :: s.sessions[id])
    ensures Step(hash, s, Tick(later)) == s.(now := s.now + later)
  {
    LogoutRevokes(hash, s, presented);
    FamilyRevokes(hash, s, userId);
    assert (s.sessions - ids) == map id | id in s.sessions && id !in ids :: s.sessions[id];
    hide RevokedFor, Matches;
  }

  lemma LogoutRevokes(hash: Hash, s: State, presented: string)
    ensures RevokesExactly(s, Step(hash, s, Logout(presented)),
      id => id in s.sessions && (s.sessions[id].token == hash(presented) || s.sessions[id].token == presented))
  {
  }

  lemma FamilyRevokes(hash: Hash, s: State, userId: string)
    ensures RevokesExactly(s, Step(hash, s, RevokeFamily(userId)),
      id => id in s.sessions && s.sessions[id].userId == userId && s.sessions[id].revokedAt == None)
  {
  }

  /** Only new tokens and history writes need anything of the state. */
  lemma {:induction false} AlwaysPossible(hash: Hash, s: State, events: seq<Event>)
    requires forall e | e in events :: !e.Create? && !e.Swap? && !e.Record? && !e.Lose?
    ensures Run(hash, s, events)
    decreases events
  {
    if events != [] {
      assert events[0] in events && forall e | e in events[1..] :: e in events;
      AlwaysPossible(hash, Step(hash, s, events[0]), events[1..]);
    }
  }

  predicate SameOrGone(s: State, id: string, session: Session, rotations: nat) {
    session.expiresAt <= s.now &&
    (id in s.sessions ==>
       s.sessions[id].token == session.token && s.sessions[id].expiresAt == session.expiresAt) &&
    rotations <= |s.log| && forall k | rotations <= k < |s.log| :: s.log[k].past.sessionId != id
  }

  lemma {:induction false} ExpiredStays(hash: Hash, s: State, events: seq<Event>, id: string, session: Session,
                                        rotations: nat)
    requires SameOrGone(s, id, session, rotations) && !Recreates(events, id)
    ensures SameOrGone(After(hash, s, events), id, session, rotations)
    decreases events
  {
    if events != [] {
      assert !(events[0].Create? && events[0].id == id);
      assert forall i | 0 <= i < |events[1..]| :: events[1..][i] == events[i + 1];
      ExpiredStep(hash, s, events[0], id, session, rotations);
      ExpiredStays(hash, Step(hash, s, events[0]), events[1..], id, session, rotations);
    }
  }

  lemma ExpiredStep(hash: Hash, s: State, e: Event, id: string, session: Session, rotations: nat)
    requires SameOrGone(s, id, session, rotations) && !(e.Create? && e.id == id)
    ensures SameOrGone(Step(hash, s, e), id, session, rotations)
  {
    hide Matches, Recorded;
  }

  /** An expired session is never rotated again: over every run it keeps its credential and expiry while it is there. */
  lemma ExpiredStaysUnrotated(hash: Hash, s: State, events: seq<Event>, id: string)
    requires id in s.sessions && s.sessions[id].expiresAt <= s.now && !Recreates(events, id)
    ensures
      var end := After(hash, s, events);
      (id in end.sessions ==>
         end.sessions[id].token == s.sessions[id].token && end.sessions[id].expiresAt == s.sessions[id].expiresAt) &&
      |s.log| <= |end.log| && forall k | |s.log| <= k < |end.log| :: end.log[k].past.sessionId != id
  {
    ExpiredStays(hash, s, events, id, s.sessions[id], |s.log|);
  }

  // ---------- Stored credentials ----------

  /** No stored credential is ever the hash of another. */
  predicate Apart(hash: Hash, stored: set<string>) {
    forall a, b | a in stored && b in stored && a != b :: a != hash(b)
  }

  predicate ReplacedOnce(log: seq<Rotation>) {
    forall i, j | 0 <= i < j < |log| :: log[i].was.token != log[j].was.token
  }

  predicate ReplacedIsGone(sessions: Sessions, log: seq<Rotation>) {
    forall id, k | id in sessions && 0 <= k < |log| :: sessions[id].token != log[k].was.token
  }

  predicate StoredCovers(s: State) {
    s.stored <= s.used && (forall id | id in s.sessions :: s.sessions[id].token in s.stored) &&
    forall k | 0 <= k < |s.log| :: s.log[k].was.token in s.stored
  }

  predicate AnsweredBy(hash: Hash, log: seq<Rotation>) {
    forall k | 0 <= k < |log| :: Matches(hash, log[k].was.token, log[k].presented)
  }

  predicate Accounted(hash: Hash, s: State) {
    Apart(hash, s.stored) && ReplacedOnce(s.log) && ReplacedIsGone(s.sessions, s.log) && StoredCovers(s) &&
      AnsweredBy(hash, s.log)
  }

  /** A fresh token's hash stays apart from everything stored. */
  lemma ApartGrows(hash: Hash, s: State, token: string)
    requires Injective(hash) && Apart(hash, s.stored) && s.stored <= s.used && Fresh(hash, s.used, token)
    ensures Apart(hash, s.stored + {hash(token)}) && hash(token) !in s.stored
  {
    forall a | a in s.stored ensures a != hash(hash(token)) && hash(token) != hash(a) {
      FreshTokenIsApart(hash, s.used, token, a);
    }
  }

  lemma SwapAccounts(hash: Hash, s: State, e: Event)
    requires Injective(hash) && Separate(hash, s.sessions) && Accounted(hash, s) && e.Swap? && Possible(hash, s, e)
    requires Rotatable(hash, s.sessions, e.id, e.userId, e.presented, s.now)
    ensures Accounted(hash, Step(hash, s, e))
  {
    hide Injective, Fresh, Matches, Apart;
    ApartGrows(hash, s, e.token);
  }

  lemma StepAccounts(hash: Hash, s: State, e: Event)
    requires Injective(hash) && Separate(hash, s.sessions) && Accounted(hash, s) && Possible(hash, s, e)
    ensures Accounted(hash, Step(hash, s, e))
  {
    hide Injective, Fresh, Matches, Recorded, Apart;
    if e.Swap? {
      if Rotatable(hash, s.sessions, e.id, e.userId, e.presented, s.now) {
        SwapAccounts(hash, s, e);
      }
    } else if e.Create? {
      ApartGrows(hash, s, e.token);
    }
  }

  lemma {:induction false} RunAccounts(hash: Hash, s: State, events: seq<Event>)
    requires Injective(hash) && Invariant(hash, s) && Accounted(hash, s) && Run(hash, s, events)
    ensures Accounted(hash, After(hash, s, events))
    decreases events
  {
    hide Accounted, Possible, Step, HistoryIsWritten, SpentIsDead, SpentOnce, UsedCovers, Separate;
    if events != [] {
      StepKeeps(hash, s, events[0]);
      StepAccounts(hash, s, events[0]);
      RunAccounts(hash, Step(hash, s, events[0]), events[1..]);
    }
  }

  /**
   Over every interleaving, each stored credential is replaced at most once, whichever text was presented for it. From
   then on no session answers to anything it answered to, and the lookup reports exactly the text that was presented,
   once and as long as its history row is there.
   */
  lemma CredentialIsConsumedOnce(hash: Hash, s: State, events: seq<Event>, k: nat, p: string)
    requires Injective(hash) && Start(hash, s) && Run(hash, s, events) && k < |After(hash, s, events).log|
    requires Matches(hash, After(hash, s, events).log[k].was.token, p)
    ensures
      var end := After(hash, s, events);
      ReplacedOnce(end.log) && (forall id | id in end.sessions :: !Matches(hash, end.sessions[id].token, p)) &&
      (Reused(hash, end.history, p, end.now).Some? <==>
       end.log[k].presented == p && end.log[k].progress == Written && end.log[k].past.expiresAt > end.now)
  {
    hide Injective, Run, After, Reused, HistoryIsWritten, SpentIsDead, SpentOnce;
    StartIsAccounted(hash, s);
    RunAccounts(hash, s, events);
    ReuseIsDetectedExactly(hash, s, events, p);
    var end := After(hash, s, events);
    forall id | id in end.sessions ensures !Matches(hash, end.sessions[id].token, p) {
      assert end.sessions[id].token != end.log[k].was.token;
    }
    forall j | 0 <= j < |end.log| && end.log[j].presented == p ensures j == k {
      assert Matches(hash, end.log[j].was.token, p);
      assert end.log[j].was.token == end.log[k].was.token;
    }
  }

  lemma StartIsAccounted(hash: Hash, s: State)
    requires Injective(hash) && Start(hash, s)
    ensures Invariant(hash, s) && Accounted(hash, s)
  {
    forall a, b | a in s.stored && b in s.stored && a != b ensures a != hash(b) {
      var i :| i in s.sessions && s.sessions[i].token == a;
      var j :| j in s.sessions && s.sessions[j].token == b;
      assert i != j;
    }
  }

  // ---------- Revocation is final ----------

  predicate Gone(s: State, id: string) {
    id in s.sessions ==> s.sessions[id].revokedAt.Some?
  }

  predicate Recreates(events: seq<Event>, id: string) {
    exists i | 0 <= i < |events| :: events[i].Create? && events[i].id == id
  }

  /** A revoked session never becomes live again, although every rotation writes `revokedAt = NULL`. */
  lemma {:induction false} RevokedStaysRevoked(hash: Hash, s: State, events: seq<Event>, id: string)
    requires Run(hash, s, events) && Gone(s, id) && !Recreates(events, id)
    ensures Gone(After(hash, s, events), id)
    decreases events
  {
    if events != [] {
      var next := Step(hash, s, events[0]);
      assert Gone(next, id);
      assert forall i | 0 <= i < |events[1..]| :: events[1..][i] == events[i + 1];
      RevokedStaysRevoked(hash, next, events[1..], id);
    }
  }

  /** Without the freshness of new tokens the guarantee is lost: a reissued token can be consumed twice. */
  lemma ReissuedTokenIsSpentTwice(hash: Hash)
    requires Injective(hash)
    ensures exists s: State, a: Event, b: Event, c: Event ::
      Start(hash, s) && a.Swap? && b.Swap? && c.Swap? && !SpentOnce(Step(hash, Step(hash, Step(hash, s, a), b), c).log)
  {
    var s := State(0, map["s" := Session("u", hash("x"), 9, None)], map[], [], {hash("x")}, {hash("x")});
    var a := Swap("s", "u", "x", "y", 9);
    var b := Swap("s", "u", "y", "x", 9);
    var c := Swap("s", "u", "x", "z", 9);
    SwapEffect(hash, s, a);
    SwapEffect(hash, Step(hash, s, a), b);
    SwapEffect(hash, Step(hash, Step(hash, s, a), b), c);
    hide *;
    var end := Step(hash, Step(hash, Step(hash, s, a), b), c);
    assert end.log[0].presented == end.log[2].presented;
    SpentTwice(end.log);
    StartOfOne(hash, s);
  }

  lemma SwapEffect(hash: Hash, s: State, e: Event)
    requires e.Swap? && Rotatable(hash, s.sessions, e.id, e.userId, e.presented, s.now)
    ensures
      var after := Step(hash, s, e);
      after.now == s.now && e.id in after.sessions &&
      after.sessions[e.id] == Session(e.userId, hash(e.token), e.expiresAt, None) &&
      after.log == s.log + [Rotation(e.presented, s.now, s.sessions[e.id], Past(e.id, e.userId, e.expiresAt), InFlight)]
  {
  }

  lemma SpentTwice(log: seq<Rotation>)
    requires |log| == 3 && log[0].presented == log[2].presented
    ensures !SpentOnce(log)
  {
  }

  lemma StartOfOne(hash: Hash, s: State)
    requires s == State(0, map["s" := Session("u", hash("x"), 9, None)], map[], [], {hash("x")}, {hash("x")})
    ensures Start(hash, s)
  {
    var tokens := set id | id in s.sessions :: s.sessions[id].token;
    assert s.sessions["s"].token in tokens;
    assert tokens == s.stored;
  }
}
