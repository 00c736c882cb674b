/**
 The calls on one privacy request, statement by statement: an update writes on the strength of the row it read
 earlier, a verification on the strength of its earlier SELECT.
 */
module PrivacyLifecycle {
  import opened Wrappers
  import opened PrivacyRequests

  /** A call that has read the row and has not written yet. */
  datatype Call = Verification | Change(existing: Request, dto: Update, actorId: string) | Finished

  datatype State = State(now: nat, row: Request, calls: seq<Call>)

  datatype Step =
    | Tick(later: nat)
    | BeginVerify
    | BeginUpdate(dto: Update, actorId: string)
    | Write(call: nat)

  /** Calls that the read already refuses never reach their write. */
  function Next(s: State, step: Step): State {
    match step
    case Tick(later) => s.(now := s.now + later)
    case BeginVerify => if Verifiable(s.row, s.now) then s.(calls := s.calls + [Verification]) else s
    case BeginUpdate(dto, actorId) =>
      if Refusal(s.row, dto).Some? then s else s.(calls := s.calls + [Change(s.row, dto, actorId)])
    case Write(call) =>
      if call >= |s.calls| then s
      else
        var c := s.calls[call];
        State(s.now,
              match c
              case Verification => Verified(s.row, s.now)
              case Change(existing, dto, actorId) => Updated(s.row, existing, dto, actorId, s.now)
              case Finished => s.row,
              s.calls[call := Finished])
  }

  function After(s: State, steps: seq<Step>): State
    decreases steps
  {
    if steps == [] then s else After(Next(s, steps[0]), steps[1..])
  }

  /** What only ever grows: a row read earlier says no more than the row of today. */
  predicate Older(a: Request, b: Request) {
    a.requestType == b.requestType && (a.identityVerifiedAt.Some? ==> b.identityVerifiedAt.Some?) &&
    (a.deletionApprovedAt.Some? ==> b.deletionApprovedAt.Some?)
  }

  predicate Passed(c: Call, row: Request) {
    c.Change? ==> Older(c.existing, row) && Refusal(c.existing, c.dto).None?
  }

  predicate CallsPassed(s: State) {
    forall i | 0 <= i < |s.calls| :: Passed(s.calls[i], s.row)
  }

  /**
   The two races: a verification that writes on a request closed in the meantime, and the completion of a deletion
   that was put on hold after it was read and that does not lift the hold itself.
   */
  predicate Raced(s: State, step: Step) {
    step.Write? && step.call < |s.calls| &&
    match s.calls[step.call]
    case Verification => s.row.verifiedAt.None? && Terminal(s.row.status)
    case Change(_, dto, _) =>
      dto.status == Completed && s.row.requestType == Deletion && s.row.legalHoldAt.Some? &&
        dto.legalHold != Some(false)
    case Finished => false
  }

  lemma CallsStayPassed(s: State, step: Step)
    requires CallsPassed(s)
    ensures CallsPassed(Next(s, step))
  {
  }

  /** A statement keeps the row good exactly when it is not one of the two races. */
  lemma StatementKeepsExactly(s: State, step: Step)
    requires Good(s.row) && CallsPassed(s)
    ensures Good(Next(s, step).row) <==> !Raced(s, step)
  {
    if step.Write? && step.call < |s.calls| {
      assert Passed(s.calls[step.call], s.row);
    }
  }

  predicate NeverRaced(s: State, steps: seq<Step>)
    decreases steps
  {
    steps == [] || (!Raced(s, steps[0]) && NeverRaced(Next(s, steps[0]), steps[1..]))
  }

  /** Over every interleaving without a race, the row stays good. */
  lemma {:induction false} InterleavedRunKeeps(s: State, steps: seq<Step>)
    requires Good(s.row) && CallsPassed(s) && NeverRaced(s, steps)
    ensures Good(After(s, steps).row)
    decreases steps
  {
    if steps != [] {
      StatementKeepsExactly(s, steps[0]);
      CallsStayPassed(s, steps[0]);
      InterleavedRunKeeps(Next(s, steps[0]), steps[1..]);
    }
  }

  // ---------- Sequential runs ----------

  datatype WholeCall = VerifyNow | UpdateNow(dto: Update, actorId: string) | Wait(later: nat)

  /** One call whose write follows its read at once. */
  function Steps(s: State, call: WholeCall): seq<Step> {
    match call
    case Wait(later) => [Tick(later)]
    case VerifyNow => if Verifiable(s.row, s.now) then [BeginVerify, Write(|s.calls|)] else []
    case UpdateNow(dto, actorId) => if Refusal(s.row, dto).None? then [BeginUpdate(dto, actorId), Write(|s.calls|)]
      else []
  }

  /** A verification on its own does what the service does: it marks a row that is being verified, in time, and once. */
  lemma VerifyNowVerifies(s: State)
    ensures
      var row := After(s, Steps(s, VerifyNow)).row;
      if s.row.status == Verifying && s.row.verificationExpiresAt > s.now && s.row.verifiedAt == None
      then row == s.row.(status := Received, verifiedAt := Some(s.now),
                         identityVerifiedAt := Some(s.now), tokenHash := "")
      else row == s.row
  {
    var steps := Steps(s, VerifyNow);
    if steps != [] {
      assert steps[1..] == [Write(|s.calls|)] && steps[1..][1..] == [];
      assert After(Next(s, BeginVerify), steps[1..]) == Next(Next(s, BeginVerify), Write(|s.calls|));
    }
  }

  /** An update on its own leaves what the guards and the UPDATE statement say. */
  lemma UpdateNowUpdates(s: State, dto: Update, actorId: string)
    ensures
      var row := After(s, Steps(s, UpdateNow(dto, actorId))).row;
      if Refusal(s.row, dto).None? then Holds(row, s.row, dto, actorId, s.now) else row == s.row
  {
    hide Holds, Updated, Refusal;
    var steps := Steps(s, UpdateNow(dto, actorId));
    UpdateLeaves(s.row, dto, actorId, s.now, Updated(s.row, s.row, dto, actorId, s.now));
    if steps != [] {
      assert steps[1..] == [Write(|s.calls|)] && steps[1..][1..] == [];
      assert After(Next(s, steps[0]), steps[1..]) == Next(Next(s, steps[0]), Write(|s.calls|));
    }
  }

  /** What each statement does: the SELECTs decide which calls go on, and an UPDATE marks only an unverified row. */
  lemma StatementsExactly(s: State, dto: Update, actorId: string, call: nat, later: nat)
    ensures
      var may := s.row.status == Verifying && s.now < s.row.verificationExpiresAt && s.row.verifiedAt == None;
      Next(s, BeginVerify) == s.(calls := if may then s.calls + [Verification] else s.calls)
    ensures
      var passed := Refusal(s.row, dto) == None;
      Next(s, BeginUpdate(dto, actorId)) ==
      s.(calls := if passed then s.calls + [Change(s.row, dto, actorId)] else s.calls)
    ensures call < |s.calls| && s.calls[call] == Verification ==>
      Next(s, Write(call)) ==
      State(s.now,
            if s.row.verifiedAt != None then s.row
            else s.row.(status := Received, verifiedAt := Some(s.now),
                        identityVerifiedAt := Some(s.now), tokenHash := ""),
            s.calls[call := Finished])
    ensures call < |s.calls| && s.calls[call] == Change(s.row, dto, actorId) ==>
      Holds(Next(s, Write(call)).row, s.row, dto, actorId, s.now) &&
      Next(s, Write(call)).calls == s.calls[call := Finished] && Next(s, Write(call)).now == s.now
    ensures Next(s, Tick(later)) == s.(now := s.now + later)
  {
    if call < |s.calls| && s.calls[call] == Change(s.row, dto, actorId) {
      UpdateLeaves(s.row, dto, actorId, s.now, Updated(s.row, s.row, dto, actorId, s.now));
    }
    hide Holds, Updated, Refusal;
  }

  function AfterCalls(s: State, calls: seq<WholeCall>): State
    decreases calls
  {
    if calls == [] then s else AfterCalls(After(s, Steps(s, calls[0])), calls[1..])
  }

  /** A new request that is verified in time can be completed, and stands completed then. */
  lemma RequestRunsItsCourse(companyId: string, requestType: RequestType, tokenHash: string, now: nat, later: nat,
                             dto: Update, actorId: string)
    requires later < 24 * 60 * 60 * 1000 && dto.status == Completed && dto.legalHold == None
    requires requestType == Deletion ==> dto.deletionApproved
    ensures
      var submitted := State(now, Submitted(companyId, requestType, tokenHash, now), []);
      var row := AfterCalls(submitted, [Wait(later), VerifyNow, UpdateNow(dto, actorId)]).row;
      row.status == Completed && row.verifiedAt == Some(now + later) && row.completedAt == Some(now + later) &&
      row.identityVerifiedAt == Some(now + later) && row.tokenHash == "" && row.companyId == companyId
  {
    var s := State(now, Submitted(companyId, requestType, tokenHash, now), []);
    var calls := [Wait(later), VerifyNow, UpdateNow(dto, actorId)];
    assert calls[1..] == [VerifyNow, UpdateNow(dto, actorId)] && calls[1..][1..] == [UpdateNow(dto, actorId)];
    assert [UpdateNow(dto, actorId)][1..] == [] && [Tick(later)][1..] == [];
    var waited := After(s, Steps(s, Wait(later)));
    assert After(s, [Tick(later)]) == After(Next(s, Tick(later)), []);
    var verified := After(waited, Steps(waited, VerifyNow));
    VerifyNowVerifies(waited);
    StaysOnTime(waited, VerifyNow);
    UpdateNowUpdates(verified, dto, actorId);
    assert Refusal(verified.row, dto).None?;
    hide After, Steps, Next;
    var end := After(verified, Steps(verified, UpdateNow(dto, actorId)));
    assert AfterCalls(verified, [UpdateNow(dto, actorId)]) == AfterCalls(end, []);
    assert AfterCalls(waited, calls[1..]) == AfterCalls(verified, [UpdateNow(dto, actorId)]);
  }

  lemma StaysOnTime(s: State, call: WholeCall)
    requires !call.Wait?
    ensures After(s, Steps(s, call)).now == s.now
  {
    var steps := Steps(s, call);
    if steps != [] {
      assert steps[1..][1..] == [];
      assert After(Next(s, steps[0]), steps[1..]) == After(Next(Next(s, steps[0]), steps[1]), []);
    }
  }

  lemma WholeCallKeeps(s: State, call: WholeCall)
    requires Good(s.row) && CallsPassed(s)
    ensures Good(After(s, Steps(s, call)).row) && CallsPassed(After(s, Steps(s, call)))
  {
    var steps := Steps(s, call);
    if steps != [] {
      var first := Next(s, steps[0]);
      StatementKeepsExactly(s, steps[0]);
      CallsStayPassed(s, steps[0]);
      if |steps| == 2 {
        assert steps[1..][1..] == [];
        StatementKeepsExactly(first, steps[1]);
        CallsStayPassed(first, steps[1]);
        assert After(first, steps[1..]) == After(Next(first, steps[1]), []);
      } else {
        assert steps[1..] == [];
      }
    }
  }

  /**
   In every state reachable by whole calls: a completed request has a verified identity, a denied one has notes, the
   completion time is set exactly in terminal states, hold and reason come together, and a completed deletion is
   approved and not on hold.
   */
  lemma {:induction false} SequentialRunsAreGood(s: State, calls: seq<WholeCall>)
    requires Good(s.row) && CallsPassed(s)
    ensures Good(AfterCalls(s, calls).row)
    decreases calls
  {
    if calls != [] {
      WholeCallKeeps(s, calls[0]);
      SequentialRunsAreGood(After(s, Steps(s, calls[0])), calls[1..]);
    }
  }

  lemma SubmittedIsGood(companyId: string, requestType: RequestType, tokenHash: string, now: nat)
    ensures Good(Submitted(companyId, requestType, tokenHash, now))
  {
  }

  /** All of this holds of a request from its submission on. */
  lemma NewRequestsStayGood(companyId: string, requestType: RequestType, tokenHash: string, now: nat,
        calls: seq<WholeCall>)
    ensures Good(AfterCalls(State(now, Submitted(companyId, requestType, tokenHash, now), []), calls).row)
  {
    hide Good;
    SubmittedIsGood(companyId, requestType, tokenHash, now);
    SequentialRunsAreGood(State(now, Submitted(companyId, requestType, tokenHash, now), []), calls);
  }

  // ---------- The two races, as runs from a new request ----------

  const COMPLETE := Update(Completed, true, "", "", None, "", true)
  const HOLD := Update(InReview, false, "", "", Some(true), "litigation", false)

  /** A verification read before an administrator completes the request reopens it, completion time and all. */
  lemma VerifyReopensCompleted(now: nat)
    ensures
      var s := State(now, Submitted("c", Access, "h", now), []);
      var end := Next(Next(Next(Next(s, BeginVerify), BeginUpdate(COMPLETE, "a")), Write(1)), Write(0));
      end.row.status == Received && end.row.completedAt.Some? && !Good(end.row)
  {
    var s := State(now, Submitted("c", Access, "h", now), []);
    var s1 := Next(s, BeginVerify);
    var s2 := Next(s1, BeginUpdate(COMPLETE, "a"));
    var s3 := Next(s2, Write(1));
    var s4 := Next(s3, Write(0));
    assert s2.calls == [Verification, Change(s1.row, COMPLETE, "a")];
  }

  /** A hold placed between the read and the write of a completion does not stop the deletion. */
  lemma HoldMissesCompletion(now: nat)
    ensures
      var s := State(now, Submitted("c", Deletion, "h", now), []);
      var end := Next(Next(Next(Next(s, BeginUpdate(COMPLETE, "a")), BeginUpdate(HOLD, "b")), Write(1)), Write(0));
      end.row.status == Completed && end.row.legalHoldAt.Some? && !Good(end.row)
  {
    var s := State(now, Submitted("c", Deletion, "h", now), []);
    var s1 := Next(s, BeginUpdate(COMPLETE, "a"));
    var s2 := Next(s1, BeginUpdate(HOLD, "b"));
    var s3 := Next(s2, Write(1));
    var s4 := Next(s3, Write(0));
    assert s2.calls == [Change(s.row, COMPLETE, "a"), Change(s.row, HOLD, "b")];
  }
}
