/**
 Links that work once: verification links and export links. A call selects a row by its token, consumes it with a
 conditional UPDATE, and then writes one event; any number of calls interleave between these statements.
 */
module OneShotTokens {
  import opened PrivacyRequests
  import opened Wrappers

  /**
   `offered` is the rest of the SELECT's condition, which administrators may change; `spent` is the consumed mark;
   consuming a verification link also clears its credential, an export link keeps it.
   */
  datatype Link = Link(stored: Option<string>, expiresAt: nat, offered: bool, spent: bool, clears: bool)

  datatype Call = Selected(id: string, token: string) | Won(id: string, token: string) | Finished

  datatype Win = Win(id: string, token: string)

  /** `issued` remembers the credential that each link was issued with. */
  datatype State = State(
    now: nat,
    links: map<string, Link>,
    issued: map<string, string>,
    calls: seq<Call>,
    wins: seq<Win>,
    events: seq<string>,
    lostEvents: seq<string>)

  datatype Step =
    | Tick(later: nat)
    | Issue(id: string, stored: string, expiresAt: nat, clears: bool)
    | Offer(id: string, offered: bool)
    | Select(id: string, token: string)
    | Consume(call: nat)
    | WriteEvent(call: nat)
    | LoseEvent(call: nat)

  predicate Selectable(hash: string -> string, s: State, id: string, token: string) {
    id in s.links && s.links[id].offered && !s.links[id].spent && s.links[id].expiresAt > s.now &&
    s.links[id].stored.Some? && CredentialMatches(hash, token, s.links[id].stored.value)
  }

  function Consumed(link: Link): Link {
    link.(spent := true, stored := if link.clears then None else link.stored)
  }

  /** The conditional UPDATE asks only whether the row is still unspent. */
  function Next(hash: string -> string, s: State, step: Step): State {
    match step
    case Tick(later) => s.(now := s.now + later)
    case Issue(id, stored, expiresAt, clears) =>
      if id in s.links then s
      else s.(links := s.links[id := Link(Some(stored), expiresAt, true, false, clears)],
              issued := s.issued[id := stored])
    case Offer(id, offered) =>
      if id !in s.links then s else s.(links := s.links[id := s.links[id].(offered := offered)])
    case Select(id, token) =>
      if Selectable(hash, s, id, token) then s.(calls := s.calls + [Selected(id, token)]) else s
    case Consume(call) =>
      if call >= |s.calls| || !s.calls[call].Selected? then s
      else
        var id, token := s.calls[call].id, s.calls[call].token;
        if id !in s.links || s.links[id].spent then s.(calls := s.calls[call := Finished])
        else s.(links := s.links[id := Consumed(s.links[id])], calls := s.calls[call := Won(id, token)],
                wins := s.wins + [Win(id, token)])
    case WriteEvent(call) =>
      if call >= |s.calls| || !s.calls[call].Won? then s
      else s.(calls := s.calls[call := Finished], events := s.events + [s.calls[call].id])
    case LoseEvent(call) =>
      if call >= |s.calls| || !s.calls[call].Won? then s
      else s.(calls := s.calls[call := Finished], lostEvents := s.lostEvents + [s.calls[call].id])
  }

  /**
   What a call's statements do: the SELECT takes only a link that is offered, unspent, unexpired and has a matching
   credential; the UPDATE wins only one still unspent, marks it, and clears the credential of a verification link.
   */
  lemma StatementsExactly(hash: string -> string, s: State, id: string, token: string, call: nat)
    ensures
      var may := id in s.links && s.links[id].offered && !s.links[id].spent && s.now < s.links[id].expiresAt &&
                 s.links[id].stored.Some? && CredentialMatches(hash, token, s.links[id].stored.value);
      Next(hash, s, Select(id, token)) == s.(calls := if may then s.calls + [Selected(id, token)] else s.calls)
    ensures call < |s.calls| && s.calls[call] == Selected(id, token) && id in s.links && !s.links[id].spent ==>
      var after := Next(hash, s, Consume(call));
      after.calls == s.calls[call := Won(id, token)] && after.wins == s.wins + [Win(id, token)] &&
      after.links.Keys == s.links.Keys &&
      (forall other | other in s.links && other != id :: after.links[other] == s.links[other]) &&
      after.links[id].spent && after.links[id].expiresAt == s.links[id].expiresAt &&
      after.links[id].stored == (if s.links[id].clears then None else s.links[id].stored) &&
      after.events == s.events && after.lostEvents == s.lostEvents
    ensures call < |s.calls| && s.calls[call] == Selected(id, token) && (id !in s.links || s.links[id].spent) ==>
      Next(hash, s, Consume(call)) == s.(calls := s.calls[call := Finished])
  {
  }

  /**
   A link is issued unspent and offered, with its credential; it can be offered or not at any time; a winner's event is
   written or lost.
   */
  lemma OtherStatements(hash: string -> string, s: State, id: string, token: string, expiresAt: nat, clears: bool,
                        call: nat, offered: bool)
    ensures id !in s.links ==>
      var after := Next(hash, s, Issue(id, token, expiresAt, clears));
      id in after.links && after.links[id].stored == Some(token) && after.links[id].expiresAt == expiresAt &&
      after.links[id].offered && !after.links[id].spent && after.links[id].clears == clears &&
      id in after.issued && after.issued[id] == token
    ensures id in s.links ==>
      Next(hash, s, Offer(id, offered)) == s.(links := s.links[id := s.links[id].(offered := offered)])
    ensures call < |s.calls| && s.calls[call] == Won(id, token) ==>
      Next(hash, s, WriteEvent(call)) == s.(calls := s.calls[call := Finished], events := s.events + [id]) &&
      Next(hash, s, LoseEvent(call)) == s.(calls := s.calls[call := Finished], lostEvents := s.lostEvents + [id])
  {
  }

  function After(hash: string -> string, s: State, steps: seq<Step>): State
    decreases steps
  {
    if steps == [] then s else After(hash, Next(hash, s, steps[0]), steps[1..])
  }

  /** A new link that is presented in time with its token wins, and no state stands in the way. */
  lemma NewLinkWins(hash: string -> string, s: State, id: string, credential: string, token: string, expiresAt: nat,
                    clears: bool)
    requires id !in s.links && s.now < expiresAt && CredentialMatches(hash, token, credential)
    ensures
      var end := After(hash, s, [Issue(id, credential, expiresAt, clears), Select(id, token), Consume(|s.calls|)]);
      id in end.links && end.links[id].spent && end.wins == s.wins + [Win(id, token)] &&
      end.calls == s.calls + [Won(id, token)]
  {
    hide CredentialMatches;
    var steps := [Issue(id, credential, expiresAt, clears), Select(id, token), Consume(|s.calls|)];
    var issued := Next(hash, s, steps[0]);
    OtherStatements(hash, s, id, credential, expiresAt, clears, 0, true);
    StatementsExactly(hash, issued, id, token, 0);
    var selected := Next(hash, issued, steps[1]);
    StatementsExactly(hash, selected, id, token, |s.calls|);
    assert steps[1..][1..] == [steps[2]] && [steps[2]][1..] == [];
    hide Next;
    assert After(hash, selected, [steps[2]]) == After(hash, Next(hash, selected, steps[2]), []);
    assert After(hash, issued, steps[1..]) == After(hash, selected, [steps[2]]);
  }

  function Count(ids: seq<string>, id: string): nat {
    if ids == [] then 0
    else Count(ids[..|ids| - 1], id) + (if ids[|ids| - 1] == id then 1 else 0)
  }

  function Ids(wins: seq<Win>): seq<string> {
    seq(|wins|, i requires 0 <= i < |wins| => wins[i].id)
  }

  /** How often a link was won. */
  function Wins(wins: seq<Win>, id: string): nat {
    Count(Ids(wins), id)
  }

  /** The winning calls for a link whose event is still to be written. */
  function Owing(calls: seq<Call>, id: string): nat {
    if calls == [] then 0
    else Owing(calls[..|calls| - 1], id) + Owed(calls[|calls| - 1], id)
  }

  function Owed(c: Call, id: string): nat {
    if c.Won? && c.id == id then 1 else 0
  }

  lemma CountAppend(ids: seq<string>, x: string, id: string)
    ensures Count(ids + [x], id) == Count(ids, id) + (if x == id then 1 else 0)
  {
    assert (ids + [x])[..|ids|] == ids;
  }

  lemma WinsAppend(wins: seq<Win>, w: Win, id: string)
    ensures Wins(wins + [w], id) == Wins(wins, id) + (if w.id == id then 1 else 0)
  {
    assert Ids(wins + [w]) == Ids(wins) + [w.id];
    CountAppend(Ids(wins), w.id, id);
  }

  lemma OwingAppend(calls: seq<Call>, c: Call, id: string)
    ensures Owing(calls + [c], id) == Owing(calls, id) + Owed(c, id)
  {
    assert (calls + [c])[..|calls|] == calls;
  }

  lemma {:induction false} OwingUpdate(calls: seq<Call>, i: nat, c: Call, id: string)
    requires i < |calls|
    ensures Owing(calls[i := c], id) == Owing(calls, id) - Owed(calls[i], id) + Owed(c, id)
  {
    var last := |calls| - 1;
    if i == last {
      assert calls[i := c][..last] == calls[..last];
    } else {
      assert calls[i := c][..last] == calls[..last][i := c];
      OwingUpdate(calls[..last], i, c, id);
    }
  }

  /** One link's account: its wins are spent marks, and each has its event written, lost or owed. */
  predicate Kept(s: State, id: string) {
    Wins(s.wins, id) == Count(s.events, id) + Count(s.lostEvents, id) + Owing(s.calls, id) &&
    Wins(s.wins, id) <= 1 && (Wins(s.wins, id) == 1 ==> id in s.links && s.links[id].spent)
  }

  lemma StepKeeps(hash: string -> string, s: State, step: Step, id: string)
    requires Kept(s, id)
    ensures Kept(Next(hash, s, step), id)
  {
    hide CredentialMatches, Count, Owing, Wins;
    if step.Select? {
      OwingAppend(s.calls, Selected(step.id, step.token), id);
    } else if (step.Consume? || step.WriteEvent? || step.LoseEvent?) && step.call < |s.calls| {
      OwingUpdate(s.calls, step.call, Finished, id);
      if s.calls[step.call].Selected? {
        OwingUpdate(s.calls, step.call, Won(s.calls[step.call].id, s.calls[step.call].token), id);
        WinsAppend(s.wins, Win(s.calls[step.call].id, s.calls[step.call].token), id);
      } else if s.calls[step.call].Won? {
        CountAppend(s.events, s.calls[step.call].id, id);
        CountAppend(s.lostEvents, s.calls[step.call].id, id);
      }
    }
  }

  /** Whatever credential a link still has is the one it was issued with. */
  predicate CredentialsAsIssued(s: State) {
    forall id | id in s.links && s.links[id].stored.Some? :: id in s.issued && s.issued[id] == s.links[id].stored.value
  }

  predicate Start(s: State) {
    s.calls == [] && s.wins == [] && s.events == [] && s.lostEvents == [] && CredentialsAsIssued(s)
  }

  lemma {:induction false} RunKeeps(hash: string -> string, s: State, steps: seq<Step>, id: string)
    requires Kept(s, id)
    ensures Kept(After(hash, s, steps), id)
    decreases steps
  {
    hide Kept, Next;
    if steps != [] {
      StepKeeps(hash, s, steps[0], id);
      RunKeeps(hash, Next(hash, s, steps[0]), steps[1..], id);
    }
  }

  /**
   Over every interleaving each link is won at most once, and every win has one event: written, lost or still owed.
   */
  lemma EachLinkWorksOnce(hash: string -> string, s: State, steps: seq<Step>, id: string)
    requires Start(s)
    ensures
      var end := After(hash, s, steps);
      Wins(end.wins, id) <= 1 && (Wins(end.wins, id) == 1 ==> id in end.links && end.links[id].spent) &&
      Wins(end.wins, id) == Count(end.events, id) + Count(end.lostEvents, id) + Owing(end.calls, id)
  {
    RunKeeps(hash, s, steps, id);
  }

  lemma {:induction false} NothingOwed(calls: seq<Call>, id: string)
    requires forall i | 0 <= i < |calls| :: !calls[i].Won?
    ensures Owing(calls, id) == 0
  {
    if calls != [] {
      NothingOwed(calls[..|calls| - 1], id);
    }
  }

  /** Once all calls are through and no event write failed, each link has exactly as many events as wins. */
  lemma OneEventPerSuccess(hash: string -> string, s: State, steps: seq<Step>, id: string)
    requires Start(s)
    requires forall i | 0 <= i < |After(hash, s, steps).calls| :: !After(hash, s, steps).calls[i].Won?
    requires After(hash, s, steps).lostEvents == []
    ensures Count(After(hash, s, steps).events, id) == Wins(After(hash, s, steps).wins, id)
  {
    RunKeeps(hash, s, steps, id);
    NothingOwed(After(hash, s, steps).calls, id);
  }

  /** A spent link stays spent, whatever the status of its row becomes. */
  lemma {:induction false} SpentStaysSpent(hash: string -> string, s: State, steps: seq<Step>, id: string)
    requires id in s.links && s.links[id].spent
    ensures id in After(hash, s, steps).links && After(hash, s, steps).links[id].spent
    decreases steps
  {
    hide CredentialMatches;
    if steps != [] {
      SpentStaysSpent(hash, Next(hash, s, steps[0]), steps[1..], id);
    }
  }

  predicate Held(hash: string -> string, s: State, id: string, token: string) {
    id in s.links && id in s.issued && CredentialMatches(hash, token, s.issued[id])
  }

  predicate AllHeld(hash: string -> string, s: State) {
    CredentialsAsIssued(s) && (forall i | 0 <= i < |s.wins| :: Held(hash, s, s.wins[i].id, s.wins[i].token)) &&
    forall i | 0 <= i < |s.calls| && !s.calls[i].Finished? :: Held(hash, s, s.calls[i].id, s.calls[i].token)
  }

  lemma HeldStays(hash: string -> string, s: State, step: Step, id: string, token: string)
    requires Held(hash, s, id, token)
    ensures Held(hash, Next(hash, s, step), id, token)
  {
    hide CredentialMatches, Selectable;
  }

  lemma CredentialsStay(hash: string -> string, s: State, step: Step)
    requires CredentialsAsIssued(s)
    ensures CredentialsAsIssued(Next(hash, s, step))
  {
    hide CredentialMatches, Selectable;
  }

  lemma SelectedIsHeld(hash: string -> string, s: State, id: string, token: string)
    requires CredentialsAsIssued(s) && Selectable(hash, s, id, token)
    ensures Held(hash, s, id, token)
  {
    hide CredentialMatches;
  }

  lemma StepHolds(hash: string -> string, s: State, step: Step)
    requires AllHeld(hash, s)
    ensures AllHeld(hash, Next(hash, s, step))
  {
    hide CredentialsAsIssued, Selectable;
    CredentialsStay(hash, s, step);
    if step.Select? && Selectable(hash, s, step.id, step.token) {
      SelectedIsHeld(hash, s, step.id, step.token);
    }
    forall id, token | Held(hash, s, id, token) ensures Held(hash, Next(hash, s, step), id, token) {
      HeldStays(hash, s, step, id, token);
    }
    hide Held;
  }

  lemma {:induction false} RunHolds(hash: string -> string, s: State, steps: seq<Step>)
    requires AllHeld(hash, s)
    ensures AllHeld(hash, After(hash, s, steps))
    decreases steps
  {
    hide AllHeld, Next;
    if steps != [] {
      StepHolds(hash, s, steps[0]);
      RunHolds(hash, Next(hash, s, steps[0]), steps[1..]);
    }
  }

  /**
   Over every interleaving, whoever won a link presented a token that matches the credential the link was issued with,
   cleared since or not.
   */
  lemma WinnersHeldTheToken(hash: string -> string, s: State, steps: seq<Step>, i: nat)
    requires Start(s) && i < |After(hash, s, steps).wins|
    ensures
      var end := After(hash, s, steps);
      var win := end.wins[i];
      win.id in end.issued && CredentialMatches(hash, win.token, end.issued[win.id]) &&
      win.id in end.links && end.links[win.id].spent
  {
    hide CredentialMatches, Next;
    RunHolds(hash, s, steps);
    var end := After(hash, s, steps);
    EachLinkWorksOnce(hash, s, steps, end.wins[i].id);
    SomeWin(end.wins, i);
  }

  lemma {:induction false} SomeWin(wins: seq<Win>, i: nat)
    requires i < |wins|
    ensures Wins(wins, wins[i].id) >= 1
  {
    var last := |wins| - 1;
    WinsAppend(wins[..last], wins[last], wins[i].id);
    assert wins[..last] + [wins[last]] == wins;
    if i < last {
      SomeWin(wins[..last], i);
    }
  }
}
