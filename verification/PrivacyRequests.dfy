/** Privacy requests: the row, the statements that write it, and the service running one call after another. */
module PrivacyRequests {
  import opened Wrappers

  datatype Status = Received | Verifying | InReview | Completed | Denied | Canceled

  datatype RequestType = Access | Correction | Deletion | Export | OptOut | Appeal

  /** An empty text stands for NULL; texts of a call are trimmed already. */
  datatype Request = Request(
    companyId: string,
    requestType: RequestType,
    status: Status,
    tokenHash: string,
    verificationExpiresAt: nat,
    verifiedAt: Option<nat>,
    identityVerifiedAt: Option<nat>,
    assignedToId: string,
    resolutionNotes: string,
    legalHoldAt: Option<nat>,
    legalHoldReason: string,
    deletionApprovedAt: Option<nat>,
    completedAt: Option<nat>)

  datatype Update = Update(
    status: Status,
    identityVerified: bool,
    resolutionNotes: string,
    assignedToId: string,
    legalHold: Option<bool>,
    legalHoldReason: string,
    deletionApproved: bool)

  datatype PrivacyError =
    | NotFound
    | InvalidLink
    | IdentityNotVerified
    | DenialNeedsReason
    | HoldNeedsReason
    | UnderLegalHold
    | DeletionNotApproved

  const DAY_MS: nat := 86_400_000

  const HASH_PREFIX := "sha256:"

  /** `credentialMatches`: hashed rows compare by hash, legacy rows by plain text, an absent credential never. */
  predicate CredentialMatches(hash: string -> string, candidate: string, stored: string) {
    stored != "" && stored == if HASH_PREFIX <= stored then hash(candidate) else candidate
  }

  /**
   An absent credential matches nothing, one that starts with `sha256:` the texts with that hash, and any other its own
   text.
   */
  lemma CredentialMatchesExactly(hash: string -> string, candidate: string, stored: string)
    ensures stored == "" ==> !CredentialMatches(hash, candidate, stored)
    ensures stored != "" && |stored| >= 7 && stored[..7] == "sha256:" ==>
      (CredentialMatches(hash, candidate, stored) <==> stored == hash(candidate))
    ensures stored != "" && !(|stored| >= 7 && stored[..7] == "sha256:") ==>
      (CredentialMatches(hash, candidate, stored) <==> stored == candidate)
  {
    assert "sha256:" <= stored <==> |stored| >= 7 && stored[..7] == "sha256:";
  }

  predicate Terminal(status: Status) {
    status == Completed || status == Denied || status == Canceled
  }

  function FirstText(a: string, b: string): string {
    if a != "" then a else b
  }

  function FirstTime(a: Option<nat>, now: nat): Option<nat> {
    if a.Some? then a else Some(now)
  }

  function Submitted(companyId: string, requestType: RequestType, tokenHash: string, now: nat): Request {
    Request(companyId, requestType, Verifying, tokenHash, now + DAY_MS, None, None, "", "", None, "", None, None)
  }

  /** The checks of an update, against the row as it was read. */
  function Refusal(existing: Request, dto: Update): Option<PrivacyError> {
    if dto.status == Completed && existing.identityVerifiedAt.None? && !dto.identityVerified
      then Some(IdentityNotVerified)
    else if dto.status == Denied && dto.resolutionNotes == "" && existing.resolutionNotes == ""
      then Some(DenialNeedsReason)
    else if dto.legalHold == Some(true) && dto.legalHoldReason == "" then Some(HoldNeedsReason)
    else if dto.status == Completed && existing.requestType == Deletion then
      if existing.legalHoldAt.Some? || dto.legalHold == Some(true) then Some(UnderLegalHold)
      else if existing.deletionApprovedAt.None? && !dto.deletionApproved then Some(DeletionNotApproved)
      else None
    else None
  }

  /** The UPDATE statement: `row` is what it finds, `existing` what the call read before. */
  function Updated(row: Request, existing: Request, dto: Update, actorId: string, now: nat): Request {
    row.(
      status := dto.status,
      identityVerifiedAt := if dto.identityVerified then FirstTime(row.identityVerifiedAt, now)
        else row.identityVerifiedAt,
      assignedToId := FirstText(dto.assignedToId, FirstText(row.assignedToId, actorId)),
      resolutionNotes := FirstText(dto.resolutionNotes, existing.resolutionNotes),
      legalHoldAt := if dto.legalHold == Some(true) then FirstTime(row.legalHoldAt, now)
                     else if dto.legalHold == Some(false) then None else row.legalHoldAt,
      legalHoldReason := if dto.legalHold == Some(true) then dto.legalHoldReason
                         else if dto.legalHold == Some(false) then "" else row.legalHoldReason,
      deletionApprovedAt := if dto.deletionApproved then FirstTime(row.deletionApprovedAt, now)
        else row.deletionApprovedAt,
      completedAt := if Terminal(dto.status) then Some(now) else None)
  }

  /** The old time if there is one, else now. */
  predicate KeptOrNow(was: Option<nat>, time: Option<nat>, now: nat) {
    time.Some? && (if was.Some? then time == was else time.value == now)
  }

  /**
   What an update leaves in each column: the notes and the hold reason given in the call, else the old ones; the first
   time of each mark, else now; a hold and its reason removed together; the time of completion in a terminal state; the
   caller's assignee, else the old one, else the actor. The rest of the row stays.
   */
  predicate Holds(row: Request, was: Request, dto: Update, actorId: string, now: nat) {
    row.status == dto.status &&
    (dto.resolutionNotes != "" ==> row.resolutionNotes == dto.resolutionNotes) &&
    (dto.resolutionNotes == "" ==> row.resolutionNotes == was.resolutionNotes) &&
    (dto.legalHold == Some(true) ==>
       KeptOrNow(was.legalHoldAt, row.legalHoldAt, now) && row.legalHoldReason == dto.legalHoldReason) &&
    (dto.legalHold == Some(false) ==> row.legalHoldAt == None && row.legalHoldReason == "") &&
    (dto.legalHold == None ==> row.legalHoldAt == was.legalHoldAt && row.legalHoldReason == was.legalHoldReason) &&
    (dto.identityVerified ==> KeptOrNow(was.identityVerifiedAt, row.identityVerifiedAt, now)) &&
    (!dto.identityVerified ==> row.identityVerifiedAt == was.identityVerifiedAt) &&
    (dto.deletionApproved ==> KeptOrNow(was.deletionApprovedAt, row.deletionApprovedAt, now)) &&
    (!dto.deletionApproved ==> row.deletionApprovedAt == was.deletionApprovedAt) &&
    (dto.status in {Completed, Denied, Canceled} ==> row.completedAt == Some(now)) &&
    (dto.status !in {Completed, Denied, Canceled} ==> row.completedAt == None) &&
    (dto.assignedToId != "" ==> row.assignedToId == dto.assignedToId) &&
    (dto.assignedToId == "" && was.assignedToId != "" ==> row.assignedToId == was.assignedToId) &&
    (dto.assignedToId == "" && was.assignedToId == "" ==> row.assignedToId == actorId) &&
    row.companyId == was.companyId && row.requestType == was.requestType && row.tokenHash == was.tokenHash &&
    row.verificationExpiresAt == was.verificationExpiresAt && row.verifiedAt == was.verifiedAt
  }

  /** An update of the row that was read leaves exactly this, and nothing else can be left. */
  lemma UpdateLeaves(was: Request, dto: Update, actorId: string, now: nat, row: Request)
    ensures Holds(row, was, dto, actorId, now) <==> row == Updated(was, was, dto, actorId, now)
  {
    var after := Updated(was, was, dto, actorId, now);
    assert Holds(after, was, dto, actorId, now);
    if Holds(row, was, dto, actorId, now) {
      assert dto.legalHold.Some? ==> dto.legalHold == Some(dto.legalHold.value);
      assert dto.legalHold.Some? ==>
        if dto.legalHold.value then dto.legalHold == Some(true) else dto.legalHold == Some(false);
      assert row.identityVerifiedAt == after.identityVerifiedAt && row.legalHoldAt == after.legalHoldAt;
      assert row.deletionApprovedAt == after.deletionApprovedAt && row.completedAt == after.completedAt;
      assert row == Request(row.companyId, row.requestType, row.status, row.tokenHash, row.verificationExpiresAt,
                            row.verifiedAt, row.identityVerifiedAt, row.assignedToId, row.resolutionNotes,
                            row.legalHoldAt, row.legalHoldReason, row.deletionApprovedAt, row.completedAt);
    }
  }

  /** Of a row that changed since it was read, an update without notes brings back the notes that were read. */
  lemma StaleUpdateLeaves(row: Request, existing: Request, dto: Update, actorId: string, now: nat)
    ensures
      var notes := if dto.resolutionNotes != "" then dto.resolutionNotes else existing.resolutionNotes;
      Updated(row, existing, dto, actorId, now).resolutionNotes == notes &&
      Holds(Updated(row, existing, dto, actorId, now).(resolutionNotes :=
              if dto.resolutionNotes != "" then dto.resolutionNotes else row.resolutionNotes),
            row, dto, actorId, now)
  {
  }

  /** The rows a verification call selects. */
  predicate Verifiable(row: Request, now: nat) {
    row.status == Verifying && row.verificationExpiresAt > now && row.verifiedAt.None?
  }

  /** The verifying UPDATE; it only asks that the row is not verified yet. */
  function Verified(row: Request, now: nat): Request {
    if row.verifiedAt.Some? then row
    else row.(status := Received, verifiedAt := Some(now), identityVerifiedAt := Some(now), tokenHash := "")
  }

  /** What every reachable row of sequential runs satisfies. */
  predicate Good(row: Request) {
    (row.status == Completed ==> row.identityVerifiedAt.Some?) &&
    (row.status == Denied ==> row.resolutionNotes != "") &&
    (row.completedAt.Some? <==> Terminal(row.status)) &&
    (row.legalHoldAt.Some? <==> row.legalHoldReason != "") &&
    (row.status == Completed && row.requestType == Deletion ==> row.deletionApprovedAt.Some? && row.legalHoldAt.None?)
  }

  lemma UpdatedIsGood(existing: Request, dto: Update, actorId: string, now: nat)
    requires Good(existing) && Refusal(existing, dto).None?
    ensures
      var row := Updated(existing, existing, dto, actorId, now);
      Good(row) && row.requestType == existing.requestType &&
      (existing.identityVerifiedAt.Some? || (dto.status == Completed) ==> row.identityVerifiedAt.Some?) &&
      (existing.deletionApprovedAt.Some? || (dto.status == Completed && row.requestType == Deletion) ==>
        row.deletionApprovedAt.Some?)
  {
  }

  /**
   The guards accept exactly the updates that leave a good row, except that a request on hold cannot be completed as a
   deletion even by the call that lifts the hold.
   */
  lemma GuardsAreExact(existing: Request, dto: Update, actorId: string, now: nat)
    requires Good(existing)
    ensures Refusal(existing, dto).None? <==>
      Good(Updated(existing, existing, dto, actorId, now)) &&
      !(dto.status == Completed && existing.requestType == Deletion && existing.legalHoldAt.Some?)
  {
    UpdateParts(existing, dto, actorId, now);
  }

  lemma UpdateParts(existing: Request, dto: Update, actorId: string, now: nat)
    ensures
      var row := Updated(existing, existing, dto, actorId, now);
      row.status == dto.status && row.requestType == existing.requestType &&
      (row.identityVerifiedAt.Some? <==> dto.identityVerified || existing.identityVerifiedAt.Some?) &&
      (row.deletionApprovedAt.Some? <==> dto.deletionApproved || existing.deletionApprovedAt.Some?) &&
      (row.resolutionNotes != "" <==> dto.resolutionNotes != "" || existing.resolutionNotes != "")
  {
  }

  // ---------- The service, one call after another ----------

  datatype EventType = RequestSubmitted | EmailVerified | RequestUpdated | ExportCreated | DeletionApproved |
    ExportDownloaded

  datatype Event = Event(requestId: string, eventType: EventType)

  datatype Artifact = Artifact(requestId: string, tokenHash: string, expiresAt: nat, downloadedAt: Option<nat>)

  /** Good rows; deletion jobs only for approved deletions; artifacts only for verified access and export requests. */
  predicate Founded(requests: map<string, Request>, deletionJobs: seq<string>, artifacts: map<string, Artifact>) {
    (forall id | id in requests :: Good(requests[id])) &&
    (forall id | id in deletionJobs ::
       id in requests && requests[id].requestType == Deletion && requests[id].deletionApprovedAt.Some?) &&
    (forall a | a in artifacts ::
       artifacts[a].requestId in requests && requests[artifacts[a].requestId].requestType in {Access, Export} &&
       requests[artifacts[a].requestId].identityVerifiedAt.Some?)
  }

  lemma UpdateIsFounded(requests: map<string, Request>, deletionJobs: seq<string>, artifacts: map<string, Artifact>,
                        id: string, dto: Update, actorId: string, now: nat, a: string, artifact: Artifact)
    requires artifact.requestId == id
    requires Founded(requests, deletionJobs, artifacts) && id in requests && Refusal(requests[id], dto).None?
    ensures
      var row := Updated(requests[id], requests[id], dto, actorId, now);
      var requests' := requests[id := row];
      Founded(requests', deletionJobs, artifacts) &&
      (dto.status == Completed && row.requestType == Deletion ==> Founded(requests', deletionJobs + [id], artifacts)) &&
      (dto.status == Completed && row.requestType in {Access, Export} ==>
         Founded(requests', deletionJobs, artifacts[a := artifact])) &&
      row.requestType == requests[id].requestType
  {
    hide Good, Updated, Refusal;
    forall other | other in requests ensures Good(requests[other]) {
    }
    UpdatedIsGood(requests[id], dto, actorId, now);
  }

  class PrivacyRequestsService {
    const hash: string -> string
    var requests: map<string, Request>
    var artifacts: map<string, Artifact>
    var deletionJobs: seq<string>
    var events: seq<Event>

    ghost predicate Valid()
      reads this
    {
      Founded(requests, deletionJobs, artifacts)
    }

    constructor (hash: string -> string)
      ensures Valid() && this.hash == hash && requests == map[] && artifacts == map[] && deletionJobs == [] &&
          events == []
    {
      this.hash, requests, artifacts, deletionJobs, events := hash, map[], map[], [], [];
    }

    method Create(id: string, companyId: string, requestType: RequestType, token: string, now: nat)
      requires Valid() && id !in requests
      modifies this
      ensures Valid()
      ensures requests == old(requests)[id := Submitted(companyId, requestType, hash(token), now)]
      ensures
        var row := requests[id];
        row.companyId == companyId && row.requestType == requestType && row.status == Verifying &&
        row.tokenHash == hash(token) && row.verificationExpiresAt == now + 24 * 60 * 60 * 1000 &&
        row.verifiedAt == None && row.identityVerifiedAt == None && row.completedAt == None
      ensures artifacts == old(artifacts) && deletionJobs == old(deletionJobs) &&
          events == old(events) + [Event(id, RequestSubmitted)]
    {
      requests := requests[id := Request(companyId, requestType, Verifying, hash(token), now + DAY_MS, None, None, "",
        "", None, "", None, None)];
      events := events + [Event(id, RequestSubmitted)];
    }

    method Verify(token: string, now: nat) returns (r: Result<string, PrivacyError>)
      requires Valid()
      modifies this
      ensures Valid() && artifacts == old(artifacts) && deletionJobs == old(deletionJobs)
      ensures r.Failure? ==> r.error == InvalidLink && requests == old(requests) && events == old(events)
      ensures r.Failure? ==>
        forall id | id in requests && requests[id].status == Verifying && requests[id].verificationExpiresAt > now &&
                    requests[id].verifiedAt == None ::
          !CredentialMatches(hash, token, requests[id].tokenHash)
      ensures r.Success? ==>
        r.value in old(requests) && Verifiable(old(requests)[r.value], now) &&
        CredentialMatches(hash, token, old(requests)[r.value].tokenHash) &&
        old(requests)[r.value].status == Verifying && old(requests)[r.value].verificationExpiresAt > now &&
        old(requests)[r.value].verifiedAt == None &&
        requests == old(requests)[r.value := old(requests)[r.value].(
          status := Received, verifiedAt := Some(now), identityVerifiedAt := Some(now), tokenHash := "")] &&
        requests == old(requests)[r.value := Verified(old(requests)[r.value], now)] &&
        !Verifiable(requests[r.value], now) && events == old(events) + [Event(r.value, EmailVerified)]
    {
      if id :|
          id in requests && Verifiable(requests[id], now) && CredentialMatches(hash, token, requests[id].tokenHash)
      {
        var row := requests[id];
        row := row.(status := Received, verifiedAt := Some(now), identityVerifiedAt := Some(now), tokenHash := "");
        requests := requests[id := row];
        events := events + [Event(id, EmailVerified)];
        return Success(id);
      }
      return Failure(InvalidLink);
    }

    /** The guards at the top of `update`, in order. */
    static method Check(existing: Request, dto: Update) returns (refusal: Option<PrivacyError>)
      ensures refusal == Refusal(existing, dto)
    {
      if dto.status == Completed && existing.identityVerifiedAt.None? && !dto.identityVerified {
        return Some(IdentityNotVerified);
      }
      if dto.status == Denied && dto.resolutionNotes == "" && existing.resolutionNotes == "" {
        return Some(DenialNeedsReason);
      }
      if dto.legalHold == Some(true) && dto.legalHoldReason == "" {
        return Some(HoldNeedsReason);
      }
      if dto.status == Completed && existing.requestType == Deletion {
        if existing.legalHoldAt.Some? || dto.legalHold == Some(true) {
          return Some(UnderLegalHold);
        }
        if existing.deletionApprovedAt.None? && !dto.deletionApproved {
          return Some(DeletionNotApproved);
        }
      }
      return None;
    }

    /** `company` is the caller's scope; an empty one sees every request. */
    method Update(id: string, dto: Update, company: string, actorId: string, now: nat, artifactId: string,
          exportToken: string)
      returns (r: Result<Request, PrivacyError>)
      requires Valid() && artifactId !in artifacts
      modifies this
      ensures Valid()
      ensures r.Failure? ==>
        requests == old(requests) && artifacts == old(artifacts) && deletionJobs == old(deletionJobs) &&
        events == old(events)
      ensures id !in old(requests) || (company != "" && old(requests)[id].companyId != company) ==>
          r == Failure(NotFound)
      ensures id in old(requests) && (company == "" || old(requests)[id].companyId == company) ==>
        var existing := old(requests)[id];
        match Refusal(existing, dto)
        case Some(error) => r == Failure(error)
        case None =>
          var completes := dto.status == Completed && existing.status != Completed;
          r == Success(Updated(existing, existing, dto, actorId, now)) && requests == old(requests)[id := r.value] &&
          Holds(r.value, existing, dto, actorId, now) &&
          deletionJobs == old(deletionJobs) + (if completes && existing.requestType == Deletion then [id] else []) &&
          artifacts == (if completes && existing.requestType in {Access, Export}
                        then old(artifacts)[artifactId := Artifact(id, hash(exportToken), now + DAY_MS, None)]
                          else old(artifacts)) &&
          events == old(events) + [Event(id, RequestUpdated)] +
            (if completes && existing.requestType in {Access, Export} then [Event(id, ExportCreated)] else []) +
            (if completes && existing.requestType == Deletion then [Event(id, DeletionApproved)] else [])
    {
      hide Founded, Updated, Refusal, Holds;
      if id !in requests || (company != "" && requests[id].companyId != company) {
        return Failure(NotFound);
      }
      var existing := requests[id];
      var refusal := Check(existing, dto);
      if refusal.Some? {
        return Failure(refusal.value);
      }
      var row := Updated(existing, existing, dto, actorId, now);
      UpdateLeaves(existing, dto, actorId, now, row);
      UpdateIsFounded(requests, deletionJobs, artifacts, id, dto, actorId, now,
                      artifactId, Artifact(id, hash(exportToken), now + DAY_MS, None));
      requests := requests[id := row];
      events := events + [Event(id, RequestUpdated)];
      if dto.status == Completed && existing.status != Completed && existing.requestType in {Access, Export} {
        artifacts := artifacts[artifactId := Artifact(id, hash(exportToken), now + DAY_MS, None)];
        events := events + [Event(id, ExportCreated)];
      }
      if dto.status == Completed && existing.status != Completed && existing.requestType == Deletion {
        deletionJobs := deletionJobs + [id];
        events := events + [Event(id, DeletionApproved)];
      }
      return Success(row);
    }

    method DownloadExport(token: string, now: nat) returns (r: Result<string, PrivacyError>)
      requires Valid()
      modifies this
      ensures Valid() && requests == old(requests) && deletionJobs == old(deletionJobs)
      ensures r.Failure? ==> r.error == InvalidLink && artifacts == old(artifacts) && events == old(events)
      ensures r.Failure? ==> forall a | a in artifacts && artifacts[a].downloadedAt.None? &&
          artifacts[a].expiresAt > now ::
        !CredentialMatches(hash, token, artifacts[a].tokenHash)
      ensures r.Success? ==>
        r.value in old(artifacts) && old(artifacts)[r.value].downloadedAt.None? &&
          old(artifacts)[r.value].expiresAt > now &&
        CredentialMatches(hash, token, old(artifacts)[r.value].tokenHash) &&
        artifacts == old(artifacts)[r.value := old(artifacts)[r.value].(downloadedAt := Some(now))] &&
        events == old(events) + [Event(old(artifacts)[r.value].requestId, ExportDownloaded)]
    {
      if a :| a in artifacts && artifacts[a].downloadedAt.None? && artifacts[a].expiresAt > now &&
              CredentialMatches(hash, token, artifacts[a].tokenHash) {
        artifacts := artifacts[a := artifacts[a].(downloadedAt := Some(now))];
        events := events + [Event(artifacts[a].requestId, ExportDownloaded)];
        return Success(a);
      }
      return Failure(InvalidLink);
    }
  }
}
