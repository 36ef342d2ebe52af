/** `SupportRequestService`: contact requests sent by anyone with an email address, listed and
  * answered by the admins. */
module SupportRequestService {

  import opened Wrappers
  import opened Seqs
  import opened Entities
  import opened Store
  import opened JavaText
  import opened SanitizeUtil

  const EmailRequired := "Email is required"
  const MessageRequired := "Message is required"
  const RequestNotFound := "Support request not found"

  // ---------------------------------------------------------------- createRequest

  /** The exception `createRequest` throws: the email is checked before the message. */
  function CreateRefusal(email: Option<string>, message: Option<string>): (r: Option<string>)
    ensures r.None? <==> !IsNullOrBlank(email) && !IsNullOrBlank(message)
    ensures IsNullOrBlank(email) ==> r == Some(EmailRequired)
    ensures !IsNullOrBlank(email) && IsNullOrBlank(message) ==> r == Some(MessageRequired)
  {
    if IsNullOrBlank(email) then Some(EmailRequired)
    else if IsNullOrBlank(message) then Some(MessageRequired)
    else None
  }

  /** The row `createRequest` builds: trimmed and sanitized text, OPEN, nothing handled yet. */
  function NewRequest(id: Id, email: string, message: string, now: Time): SupportRequest
  {
    SupportRequest(id, Sanitize(Trim(email)), Sanitize(Trim(message)), SupportStatus.OPEN, now, None, None)
  }

  /** A new request is OPEN and unhandled, and its email and message are already clean: sanitizing
    * them again, or trimming them, changes nothing. */
  lemma NewRequestShape(id: Id, email: string, message: string, now: Time)
    ensures var q := NewRequest(id, email, message, now);
      q.id == id && q.status == SupportStatus.OPEN && q.createdAt == now
      && q.handledAt.None? && q.adminNotes.None?
      && Sanitize(q.email) == q.email && Sanitize(q.message) == q.message
      && Trim(q.email) == q.email && Trim(q.message) == q.message
  {
    var q := NewRequest(id, email, message, now);
    SanitizeIdempotent(Trim(email));
    SanitizeIdempotent(Trim(message));
    SanitizeIsClean(Trim(email));
    SanitizeIsClean(Trim(message));
    TrimOfTrimmed(q.email);
    TrimOfTrimmed(q.message);
  }

  method AppendRequest(db: Db, q: SupportRequest)
    requires db.WorkflowsValid() && q.id == db.nextSupportRequestId
    modifies db`supportRequests, db`nextSupportRequestId
    ensures db.WorkflowsValid()
    ensures db.supportRequests == old(db.supportRequests) + [q]
    ensures db.nextSupportRequestId == old(db.nextSupportRequestId) + 1
  {
    db.supportRequests := db.supportRequests + [q];
    db.nextSupportRequestId := db.nextSupportRequestId + 1;
  }

  /** `createRequest`: a refused request stores nothing; an accepted one is appended under the next
    * id and returned. */
  method CreateRequest(db: Db, email: Option<string>, message: Option<string>, now: Time)
    returns (r: Result<SupportRequest>)
    requires db.WorkflowsValid()
    modifies db`supportRequests, db`nextSupportRequestId
    ensures db.WorkflowsValid()
    ensures CreateRefusal(email, message).Some? ==>
      r == Err(CreateRefusal(email, message).value)
      && db.supportRequests == old(db.supportRequests)
      && db.nextSupportRequestId == old(db.nextSupportRequestId)
    ensures CreateRefusal(email, message).None? ==>
      r == Ok(NewRequest(old(db.nextSupportRequestId), email.value, message.value, now))
      && db.supportRequests == old(db.supportRequests) + [r.value]
      && db.nextSupportRequestId == old(db.nextSupportRequestId) + 1
  {
    var refusal := CreateRefusal(email, message);
    if refusal.Some? {
      return Err(refusal.value);
    }
    var q := NewRequest(db.nextSupportRequestId, email.value, message.value, now);
    AppendRequest(db, q);
    r := Ok(q);
  }

  /** The request `createRequest` stored is found under the id it was given. */
  lemma CreatedRequestFound(requests: seq<SupportRequest>, q: SupportRequest)
    requires SupportRequestIdsBelow(requests, q.id)
    ensures SupportRequestIndex(requests + [q], q.id) == Some(|requests|)
  {
    IndexWhereAppendFresh(requests, q, (x: SupportRequest) => x.id == q.id);
  }

  // ---------------------------------------------------------------- getAllRequests

  function NewestFirst(q: SupportRequest): int { -q.createdAt }

  /** `getAllRequests`: every request, newest first (rows created at the same instant keep their
    * store order). The listing holds exactly the stored requests, each as often as stored. */
  function AllRequests(requests: seq<SupportRequest>): (r: seq<SupportRequest>)
    ensures multiset(r) == multiset(requests)
    ensures forall i, j :: 0 <= i < j < |r| ==> r[i].createdAt >= r[j].createdAt
  {
    var sorted := SortBy(requests, NewestFirst);
    assert forall i, j :: 0 <= i < j < |sorted| ==> NewestFirst(sorted[i]) <= NewestFirst(sorted[j]);
    sorted
  }

  // ---------------------------------------------------------------- updateStatus

  /** The request after `updateStatus`: the new status; the handling time only when RESOLVED; the
    * admin notes, sanitized, only when given. */
  function Handled(q: SupportRequest, status: SupportStatus, adminNotes: Option<string>, now: Time): (u: SupportRequest)
    ensures u.status == status
    ensures status == SupportStatus.RESOLVED ==> u.handledAt == Some(now)
    ensures status != SupportStatus.RESOLVED ==> u.handledAt == q.handledAt
    ensures adminNotes.Some? ==> u.adminNotes == Some(Sanitize(adminNotes.value))
    ensures adminNotes.None? ==> u.adminNotes == q.adminNotes
    ensures u.(status := q.status, handledAt := q.handledAt, adminNotes := q.adminNotes) == q
  {
    q.(status := status,
       handledAt := if status == SupportStatus.RESOLVED then Some(now) else q.handledAt,
       adminNotes := if adminNotes.Some? then Some(Sanitize(adminNotes.value)) else q.adminNotes)
  }

  /** A request moved away from RESOLVED keeps the time it was handled at; notes once given stay
    * clean. */
  lemma ReopenedKeepsHandledAt(q: SupportRequest, now: Time, later: Time, status: SupportStatus, notes: string)
    requires status != SupportStatus.RESOLVED
    ensures var u := Handled(Handled(q, SupportStatus.RESOLVED, Some(notes), now), status, None, later);
      u.handledAt == Some(now) && u.adminNotes.Some? && Sanitize(u.adminNotes.value) == u.adminNotes.value
  {
    SanitizeIdempotent(notes);
  }

  method SaveRequestAt(db: Db, i: nat, q: SupportRequest)
    requires db.WorkflowsValid() && i < |db.supportRequests| && q.id == db.supportRequests[i].id
    modifies db`supportRequests
    ensures db.WorkflowsValid()
    ensures db.supportRequests == old(db.supportRequests)[i := q]
  {
    db.supportRequests := db.supportRequests[i := q];
  }

  /** `updateStatus`: an unknown id changes nothing; otherwise that row is replaced by its handled
    * version, which is returned. Who may call it is decided by the controller. */
  method UpdateStatus(db: Db, requestId: Id, status: SupportStatus, adminNotes: Option<string>, now: Time)
    returns (r: Result<SupportRequest>)
    requires db.WorkflowsValid()
    modifies db`supportRequests
    ensures db.WorkflowsValid()
    ensures SupportRequestIndex(old(db.supportRequests), requestId).None? ==>
      r == Err(RequestNotFound) && db.supportRequests == old(db.supportRequests)
    ensures SupportRequestIndex(old(db.supportRequests), requestId).Some? ==>
      var i := SupportRequestIndex(old(db.supportRequests), requestId).value;
      r == Ok(Handled(old(db.supportRequests)[i], status, adminNotes, now))
      && db.supportRequests == old(db.supportRequests)[i := r.value]
  {
    var i := SupportRequestIndex(db.supportRequests, requestId);
    if i.None? {
      return Err(RequestNotFound);
    }
    var u := Handled(db.supportRequests[i.value], status, adminNotes, now);
    SaveRequestAt(db, i.value, u);
    r := Ok(u);
  }

  /** After `updateStatus`, the request is still found under its id, carrying the new status, and
    * every other request is untouched. */
  lemma HandledStillFound(requests: seq<SupportRequest>, requestId: Id, status: SupportStatus,
                          adminNotes: Option<string>, now: Time)
    requires SupportRequestIndex(requests, requestId).Some?
    ensures var i := SupportRequestIndex(requests, requestId).value;
      var after := requests[i := Handled(requests[i], status, adminNotes, now)];
      SupportRequestIndex(after, requestId) == Some(i) && after[i].status == status
      && forall k :: 0 <= k < |requests| && k != i ==> after[k] == requests[k]
  {
    var i := SupportRequestIndex(requests, requestId).value;
    IndexWhereAfterSave(requests, i, Handled(requests[i], status, adminNotes, now),
                        (x: SupportRequest) => x.id == requestId);
  }
}
