/** `RefundService`: a user asks for a refund of a transaction once, an admin approves or rejects
  * it, the owner may cancel it while it is still open; the owner and the admins are notified. */
module RefundService {

  import opened Wrappers
  import opened Seqs
  import opened Entities
  import opened Store
  import opened JavaText
  import opened NotificationService

  const RefundNotFound := "Refund not found"
  const AdminNotFound := "Admin not found"
  const NotAdmin := "Unauthorized: User is not admin"
  const NotOwner := "Unauthorized"
  const AlreadyRequested := "Refund already requested for this transaction"

  // The texts of the notices and messages, named so that a proof mentions each as one term.
  const SubmittedMessage := "Your refund request has been submitted and is under review"
  const RequestedRefundOf := " requested refund of $"
  const ApprovedMessage := "Your refund request has been approved. Processing refund of $"
  const RejectedMessage := "Your refund request has been rejected. Reason: "
  const ProcessedMessage := " has been processed successfully"
  const EnumPrefix := "No enum constant com.example.buddyfinder_backend.entity.Refund."
  const CannotCancelPrefix := "Cannot cancel refund with status: "

  /** The fields of `RefundRequest` the service reads; the enum fields are the names as sent. The
    * body is bound without validation, so any of them may be missing (null). */
  datatype RefundRequest = RefundRequest(
    amount: Option<string>,
    refundMethod: Option<string>,
    refundType: Option<string>,
    reason: Option<string>,
    originalTransId: Option<string>)

  const MethodNames: seq<string> := ["ORIGINAL_PAYMENT", "CREDIT", "BANK_TRANSFER", "OTHER"]
  const TypeNames: seq<string> := ["FULL", "PARTIAL", "SUBSCRIPTION_CANCELLATION"]
  const ReasonNames: seq<string> := ["NOT_SATISFIED", "TECHNICAL_ISSUES", "ACCIDENTAL_PURCHASE", "DUPLICATE_CHARGE",
                                     "SERVICE_NOT_AVAILABLE", "PRIVACY_CONCERNS", "OTHER"]

  /** The message of the exception `Enum.valueOf` throws for a name that is not a constant of the
    * nested enum `Refund.<enumName>`. */
  function NoEnumConstant(enumName: string, name: string): string
  {
    EnumPrefix + enumName + "." + name
  }

  /** The message of the `NullPointerException` `Enum.valueOf` throws for a null name. */
  const NameIsNull := "Name is null"

  /** `Refund.<enumName>.valueOf(name)` fails: a null name, or one that is not among `names`. */
  function EnumRefusal(enumName: string, names: seq<string>, name: Option<string>): (r: Option<string>)
    ensures r.None? <==> name.Some? && name.value in names
    ensures name.None? ==> r == Some(NameIsNull)
  {
    match name
    case None => Some(NameIsNull)
    case Some(n) => if n in names then None else Some(NoEnumConstant(enumName, n))
  }

  /** `RefundStatus.name()`. */
  function StatusName(s: RefundStatus): string
  {
    match s
    case PENDING => "PENDING"
    case UNDER_REVIEW => "UNDER_REVIEW"
    case APPROVED => "APPROVED"
    case PROCESSING => "PROCESSING"
    case COMPLETED => "COMPLETED"
    case REJECTED => "REJECTED"
    case CANCELLED => "CANCELLED"
  }

  /** The statuses `findPendingRefunds` lists and `cancelRefund` accepts. */
  predicate IsOpen(s: RefundStatus)
  {
    s == RefundStatus.PENDING || s == RefundStatus.UNDER_REVIEW
  }

  // ---------------------------------------------------------------- requestRefund

  /** `existsByUser_UserIdAndOriginalTransId`. */
  predicate RequestedBefore(refunds: seq<Refund>, userId: Id, transId: string)
  {
    exists i :: 0 <= i < |refunds| && refunds[i].userId == userId && refunds[i].originalTransId == Some(transId)
  }

  /** The checks of `requestRefund`, in the order they run: the user, the duplicate transaction,
    * the three enum names as the builder converts them, then the amount, a `nullable = false`
    * column, when the row is saved. */
  function RequestRefusal(users: seq<User>, refunds: seq<Refund>, userId: Id, req: RefundRequest): (r: Option<string>)
    ensures r.None? <==>
      UserExists(users, userId)
      && !(req.originalTransId.Some? && RequestedBefore(refunds, userId, req.originalTransId.value))
      && req.refundMethod.Some? && req.refundMethod.value in MethodNames
      && req.refundType.Some? && req.refundType.value in TypeNames
      && req.reason.Some? && req.reason.value in ReasonNames
      && req.amount.Some?
    ensures (UserExists(users, userId) && !(req.originalTransId.Some? && RequestedBefore(refunds, userId, req.originalTransId.value))
             && req.refundMethod.None?) ==> r == Some(NameIsNull)
    ensures r.None? ==> req.amount.Some?
  {
    if !UserExists(users, userId) then Some(UserNotFound)
    else if req.originalTransId.Some? && RequestedBefore(refunds, userId, req.originalTransId.value) then
      Some(AlreadyRequested)
    else if EnumRefusal("RefundMethod", MethodNames, req.refundMethod).Some? then
      EnumRefusal("RefundMethod", MethodNames, req.refundMethod)
    else if EnumRefusal("RefundType", TypeNames, req.refundType).Some? then
      EnumRefusal("RefundType", TypeNames, req.refundType)
    else if EnumRefusal("RefundReason", ReasonNames, req.reason).Some? then
      EnumRefusal("RefundReason", ReasonNames, req.reason)
    else if req.amount.None? then Some(NotNullViolation)
    else None
  }

  /** The row `requestRefund` saves: PENDING, stamped by `@CreationTimestamp`. */
  function NewRefund(req: RefundRequest, userId: Id, id: Id, now: Time): Refund
    requires req.amount.Some?
  {
    Refund(id, userId, req.amount.value, req.originalTransId, RefundStatus.PENDING, None, None, None, now, None, None)
  }

  /** The notice to the requester, then one per admin in table order. */
  function RequestNotices(users: seq<User>, f: Refund, name: string): (ds: seq<Draft>)
  {
    [Draft(f.userId, SYSTEM, "Refund Request Submitted", SubmittedMessage,
           Some(f.id), Some("REFUND"))]
    + AdminDrafts(users, "New Refund Request", "User " + name + RequestedRefundOf + f.amount, Some(f.id), Some("REFUND"))
  }

  /** Every notice of a request goes to the requester or to an admin, the requester is told
    * first, and all recipients have rows, so none fails. */
  lemma RequestNoticesReachEveryone(users: seq<User>, f: Refund, name: string)
    requires UserExists(users, f.userId)
    ensures var ds := RequestNotices(users, f, name);
      |ds| == 1 + Count(users, IsAdminRow)
      && ds[0].userId == f.userId && ds[0].kind == SYSTEM
      && (forall j :: 1 <= j < |ds| ==> ds[j].kind == ADMIN && exists k :: 0 <= k < |users| && users[k].isAdmin && users[k].id == ds[j].userId)
      && FirstMissing(users, ds).None?
  {
    OwnerThenAdmins(users, RequestNotices(users, f, name)[0], "New Refund Request",
                    "User " + name + RequestedRefundOf + f.amount, Some(f.id), Some("REFUND"));
  }

  /** Every admin is told of a request. */
  lemma RequestNoticesTellEveryAdmin(users: seq<User>, f: Refund, name: string)
    ensures var ds := RequestNotices(users, f, name);
      forall k :: 0 <= k < |users| && users[k].isAdmin ==> exists j :: 1 <= j < |ds| && ds[j].userId == users[k].id
  {
    OwnerThenEveryAdmin(users, RequestNotices(users, f, name)[0], "New Refund Request",
                        "User " + name + RequestedRefundOf + f.amount, Some(f.id), Some("REFUND"));
  }

  /** Once a request with a transaction id is saved, the same user asking again for that
    * transaction is refused. */
  lemma SecondRequestRefused(users: seq<User>, refunds: seq<Refund>, userId: Id, req: RefundRequest, id: Id, now: Time,
                             again: RefundRequest)
    requires RequestRefusal(users, refunds, userId, req).None? && req.originalTransId.Some?
    requires again.originalTransId == req.originalTransId
    ensures RequestRefusal(users, refunds + [NewRefund(req, userId, id, now)], userId, again) == Some(AlreadyRequested)
  {
    var after := refunds + [NewRefund(req, userId, id, now)];
    assert after[|refunds|].userId == userId && after[|refunds|].originalTransId == again.originalTransId;
  }

  /** The tables refunds touch. */
  ghost predicate RefundTablesValid(db: Db)
    reads db
  {
    db.WorkflowsValid() && db.NotificationsValid()
  }

  /** `refundRepository.save` of a new row. */
  method AppendRefund(db: Db, f: Refund)
    requires RefundTablesValid(db) && f.id == db.nextRefundId
    modifies db`refunds, db`nextRefundId
    ensures RefundTablesValid(db)
    ensures db.refunds == old(db.refunds) + [f] && db.nextRefundId == old(db.nextRefundId) + 1
  {
    db.refunds := db.refunds + [f];
    db.nextRefundId := db.nextRefundId + 1;
  }

  /** `requestRefund`, one transaction: after the checks a PENDING refund is saved and the
    * requester and every admin are notified. */
  method RequestRefund(db: Db, userId: Id, req: RefundRequest, now: Time) returns (r: Result<Refund>)
    requires RefundTablesValid(db)
    modifies db`refunds, db`nextRefundId, db`notifications, db`nextNotificationId, db`outbox
    ensures RefundTablesValid(db)
    ensures var refusal := RequestRefusal(old(db.users), old(db.refunds), userId, req);
      refusal.Some? ==>
        r == Err(refusal.value) && db.refunds == old(db.refunds) && db.nextRefundId == old(db.nextRefundId)
        && db.notifications == old(db.notifications) && db.outbox == old(db.outbox)
        && db.nextNotificationId == old(db.nextNotificationId)
    ensures var refusal := RequestRefusal(old(db.users), old(db.refunds), userId, req);
      refusal.None? ==>
        r == Ok(NewRefund(req, userId, old(db.nextRefundId), now))
        && db.refunds == old(db.refunds) + [r.value] && db.nextRefundId == old(db.nextRefundId) + 1
        && var ds := RequestNotices(db.users, r.value, FindUser(db.users, userId).value.name);
        db.notifications == old(db.notifications) + Saved(ds, |ds|, old(db.nextNotificationId), now)
        && db.nextNotificationId == old(db.nextNotificationId) + |ds|
        && db.outbox == old(db.outbox) + Pushed(db.brokerUp, ds, |ds|, old(db.nextNotificationId), now)
  {
    var refusal := RequestRefusal(db.users, db.refunds, userId, req);
    if refusal.Some? {
      return Err(refusal.value);
    }
    var f := FileRefund(db, userId, req, now);
    r := Ok(f);
  }

  /** `requestRefund` once the request passed its checks: the refund is saved, then the user and
    * every admin are told. */
  method FileRefund(db: Db, userId: Id, req: RefundRequest, now: Time) returns (f: Refund)
    requires RefundTablesValid(db) && RequestRefusal(db.users, db.refunds, userId, req).None?
    modifies db`refunds, db`nextRefundId, db`notifications, db`nextNotificationId, db`outbox
    ensures RefundTablesValid(db)
    ensures f == NewRefund(req, userId, old(db.nextRefundId), now)
    ensures db.refunds == old(db.refunds) + [f] && db.nextRefundId == old(db.nextRefundId) + 1
    ensures var ds := RequestNotices(db.users, f, FindUser(db.users, userId).value.name);
      db.notifications == old(db.notifications) + Saved(ds, |ds|, old(db.nextNotificationId), now)
      && db.nextNotificationId == old(db.nextNotificationId) + |ds|
      && db.outbox == old(db.outbox) + Pushed(db.brokerUp, ds, |ds|, old(db.nextNotificationId), now)
  {
    f := NewRefund(req, userId, db.nextRefundId, now);
    AppendRefund(db, f);
    var ds := RequestNotices(db.users, f, FindUser(db.users, userId).value.name);
    RequestNoticesReachEveryone(db.users, f, FindUser(db.users, userId).value.name);
    var sent := NotifyEach(db, ds, now);
  }

  // ---------------------------------------------------------------- the listings

  function RequestedAt(f: Refund): int { f.requestedAt }

  function NewestRequestFirst(f: Refund): int { -f.requestedAt }

  /** `getPendingRefunds`: the open refunds, oldest request first. */
  function PendingRefunds(refunds: seq<Refund>): (r: seq<Refund>)
    ensures SortedBy(r, RequestedAt)
  {
    SortBy(Filter(refunds, (f: Refund) => IsOpen(f.status)), RequestedAt)
  }

  /** `getUserRefunds`: the user's refunds, newest request first. */
  function UserRefunds(refunds: seq<Refund>, userId: Id): (r: seq<Refund>)
    ensures SortedBy(r, NewestRequestFirst)
  {
    SortBy(Filter(refunds, (f: Refund) => f.userId == userId), NewestRequestFirst)
  }

  /** The listings hold exactly the open refunds, and exactly the user's own. */
  lemma ListingMembers(refunds: seq<Refund>, userId: Id, f: Refund)
    ensures f in PendingRefunds(refunds) <==> f in refunds && IsOpen(f.status)
    ensures f in UserRefunds(refunds, userId) <==> f in refunds && f.userId == userId
  {
    SortedFilterMembers(refunds, (g: Refund) => IsOpen(g.status), RequestedAt, f);
    SortedFilterMembers(refunds, (g: Refund) => g.userId == userId, NewestRequestFirst, f);
  }

  /** `getRefundById`. */
  function RefundById(refunds: seq<Refund>, refundId: Id): (r: Result<Refund>)
    ensures r.Ok? <==> exists i :: 0 <= i < |refunds| && refunds[i].id == refundId
    ensures r.Ok? ==> r.value in refunds && r.value.id == refundId
    ensures r.Err? ==> r.msg == RefundNotFound
  {
    match RefundIndex(refunds, refundId)
    case None => Err(RefundNotFound)
    case Some(i) => Ok(refunds[i])
  }

  // ---------------------------------------------------------------- processRefund

  /** The checks of `processRefund`, in the order they run: the refund, the admin row, the admin
    * flag, the action; last the owner, whom both actions notify. The refund's status is not
    * checked. */
  function ProcessRefusal(users: seq<User>, refunds: seq<Refund>, refundId: Id, adminId: Id, action: Option<string>)
    : (r: Option<string>)
    ensures r.None? <==>
      RefundIndex(refunds, refundId).Some? && FindUser(users, adminId).Some? && FindUser(users, adminId).value.isAdmin
      && (action == Some("APPROVE") || action == Some("REJECT"))
      && UserExists(users, refunds[RefundIndex(refunds, refundId).value].userId)
  {
    match RefundIndex(refunds, refundId)
    case None => Some(RefundNotFound)
    case Some(i) =>
      match FindUser(users, adminId)
      case None => Some(AdminNotFound)
      case Some(admin) =>
        if !admin.isAdmin then Some(NotAdmin)
        else if action != Some("APPROVE") && action != Some("REJECT") then Some("Invalid action: " + OrNull(action))
        else if !UserExists(users, refunds[i].userId) then Some(UserNotFound)
        else None
  }

  /** The refund after `processRefund`. An approval is APPROVED with the admin, the time and the
    * notes, then PROCESSING with the gateway's transaction id, then COMPLETED; when the gateway
    * call throws (`gatewayError` carries the message) it is left UNDER_REVIEW with the failure as
    * its notes. A rejection is REJECTED with the admin, the time and the notes. */
  function Processed(f: Refund, adminId: Id, approve: bool, notes: Option<string>, transId: Option<string>,
                     gatewayError: Option<string>, now: Time): (g: Refund)
  {
    if !approve then
      f.(status := RefundStatus.REJECTED, processedAt := Some(now), processedBy := Some(adminId), adminNotes := notes)
    else
      var approved := f.(status := RefundStatus.APPROVED, processedAt := Some(now), processedBy := Some(adminId),
                         adminNotes := notes);
      var processing := approved.(status := RefundStatus.PROCESSING, refundTransId := transId);
      if gatewayError.None? then processing.(status := RefundStatus.COMPLETED, completedAt := Some(now))
      else processing.(status := RefundStatus.UNDER_REVIEW, adminNotes := Some("Failed to process: " + gatewayError.value))
  }

  /** What the owner is told, in order: a completed approval first reports completion. */
  function ProcessNotices(f: Refund, approve: bool, notes: Option<string>, gatewayError: Option<string>): seq<Draft>
  {
    var approved := Draft(f.userId, SYSTEM, "Refund Approved",
                          ApprovedMessage + f.amount, Some(f.id), Some("REFUND"));
    if !approve then
      [Draft(f.userId, SYSTEM, "Refund Rejected",
             RejectedMessage + OrNull(notes), Some(f.id), Some("REFUND"))]
    else if gatewayError.Some? then [approved]
    else
      [Draft(f.userId, SYSTEM, "Refund Completed \U{1F4B0}",
             "Your refund of $" + f.amount + ProcessedMessage, Some(f.id), Some("REFUND")),
       approved]
  }

  /** A processed refund stays findable under its id and is closed, out of the pending listing
    * and no longer cancellable, unless the gateway failed, which puts it back under review. */
  lemma ProcessedIsClosed(refunds: seq<Refund>, refundId: Id, adminId: Id, approve: bool, notes: Option<string>,
                          transId: Option<string>, gatewayError: Option<string>, now: Time)
    requires RefundIndex(refunds, refundId).Some?
    ensures var i := RefundIndex(refunds, refundId).value;
      var g := Processed(refunds[i], adminId, approve, notes, transId, gatewayError, now);
      var after := refunds[i := g];
      g.userId == refunds[i].userId && RefundIndex(after, refundId) == Some(i)
      && (IsOpen(g.status) <==> approve && gatewayError.Some?)
      && (g in PendingRefunds(after) <==> approve && gatewayError.Some?)
      && (CancelRefusal(after, refundId, g.userId).None? <==> approve && gatewayError.Some?)
  {
    var i := RefundIndex(refunds, refundId).value;
    var g := Processed(refunds[i], adminId, approve, notes, transId, gatewayError, now);
    var after := refunds[i := g];
    assert IsOpen(g.status) <==> approve && gatewayError.Some?;
    IndexWhereAfterSave(refunds, i, g, (f: Refund) => f.id == refundId);
    assert after[i] == g;
    ListingMembers(after, g.userId, g);
  }

  /** `processRefund` never looks at the status: a refund that is already completed, rejected or
    * cancelled is processed again on the same terms. */
  lemma ProcessIgnoresStatus(users: seq<User>, refunds: seq<Refund>, refundId: Id, adminId: Id, action: Option<string>,
                             i: nat, s: RefundStatus)
    requires i < |refunds|
    ensures ProcessRefusal(users, refunds[i := refunds[i].(status := s)], refundId, adminId, action)
         == ProcessRefusal(users, refunds, refundId, adminId, action)
  {
    IndexWhereAfterSave(refunds, i, refunds[i].(status := s), (f: Refund) => f.id == refundId);
  }

  method SaveRefundAt(db: Db, i: nat, f: Refund)
    requires RefundTablesValid(db) && i < |db.refunds| && f.id == db.refunds[i].id
    modifies db`refunds
    ensures RefundTablesValid(db)
    ensures db.refunds == old(db.refunds)[i := f]
  {
    db.refunds := db.refunds[i := f];
  }

  /** `processRefund`, one transaction. The simulated gateway never throws (`gatewayError` is None);
    * a missing owner makes the last notification throw, so the whole call is rolled back. */
  method ProcessRefund(db: Db, refundId: Id, adminId: Id, action: Option<string>, notes: Option<string>,
                       transId: Option<string>, gatewayError: Option<string>, now: Time) returns (r: Result<Refund>)
    requires RefundTablesValid(db)
    modifies db`refunds, db`notifications, db`nextNotificationId, db`outbox
    ensures RefundTablesValid(db)
    ensures var refusal := ProcessRefusal(old(db.users), old(db.refunds), refundId, adminId, action);
      refusal.Some? ==>
        r == Err(refusal.value) && db.refunds == old(db.refunds)
        && db.notifications == old(db.notifications) && db.outbox == old(db.outbox)
        && db.nextNotificationId == old(db.nextNotificationId)
    ensures var refusal := ProcessRefusal(old(db.users), old(db.refunds), refundId, adminId, action);
      refusal.None? ==>
        var i := RefundIndex(old(db.refunds), refundId).value;
        var approve := action == Some("APPROVE");
        r == Ok(Processed(old(db.refunds)[i], adminId, approve, notes, transId, gatewayError, now))
        && db.refunds == old(db.refunds)[i := r.value]
        && var ds := ProcessNotices(old(db.refunds)[i], approve, notes, gatewayError);
        db.notifications == old(db.notifications) + Saved(ds, |ds|, old(db.nextNotificationId), now)
        && db.nextNotificationId == old(db.nextNotificationId) + |ds|
        && db.outbox == old(db.outbox) + Pushed(db.brokerUp, ds, |ds|, old(db.nextNotificationId), now)
  {
    var refusal := ProcessRefusal(db.users, db.refunds, refundId, adminId, action);
    if refusal.Some? {
      return Err(refusal.value);
    }
    var i := RefundIndex(db.refunds, refundId).value;
    var f := db.refunds[i];
    var approve := action == Some("APPROVE");
    var g := Processed(f, adminId, approve, notes, transId, gatewayError, now);
    SaveRefundAt(db, i, g);
    var ds := ProcessNotices(f, approve, notes, gatewayError);
    FirstMissingNone(db.users, ds);
    var sent := NotifyEach(db, ds, now);
    r := Ok(g);
  }

  // ---------------------------------------------------------------- cancelRefund

  function CannotCancel(s: RefundStatus): string
  {
    CannotCancelPrefix + StatusName(s)
  }

  /** The checks of `cancelRefund`: the refund, its owner, an open status. */
  function CancelRefusal(refunds: seq<Refund>, refundId: Id, userId: Id): (r: Option<string>)
    ensures r.None? <==>
      RefundIndex(refunds, refundId).Some? && refunds[RefundIndex(refunds, refundId).value].userId == userId
      && IsOpen(refunds[RefundIndex(refunds, refundId).value].status)
  {
    match RefundIndex(refunds, refundId)
    case None => Some(RefundNotFound)
    case Some(i) =>
      if refunds[i].userId != userId then Some(NotOwner)
      else if !IsOpen(refunds[i].status) then Some(CannotCancel(refunds[i].status))
      else None
  }

  /** A cancelled refund leaves the pending listing and cannot be cancelled again. */
  lemma CancelledOnce(refunds: seq<Refund>, refundId: Id, userId: Id)
    requires CancelRefusal(refunds, refundId, userId).None?
    ensures var i := RefundIndex(refunds, refundId).value;
      var after := refunds[i := refunds[i].(status := RefundStatus.CANCELLED)];
      CancelRefusal(after, refundId, userId) == Some(CannotCancel(RefundStatus.CANCELLED))
      && refunds[i] in PendingRefunds(refunds) && after[i] !in PendingRefunds(after)
  {
    var i := RefundIndex(refunds, refundId).value;
    var after := refunds[i := refunds[i].(status := RefundStatus.CANCELLED)];
    IndexWhereAfterSave(refunds, i, after[i], (f: Refund) => f.id == refundId);
    ListingMembers(refunds, userId, refunds[i]);
    ListingMembers(after, userId, after[i]);
  }

  /** `cancelRefund`: the owner cancels an open refund. */
  method CancelRefund(db: Db, refundId: Id, userId: Id) returns (r: Result<Refund>)
    requires RefundTablesValid(db)
    modifies db`refunds
    ensures RefundTablesValid(db)
    ensures var refusal := CancelRefusal(old(db.refunds), refundId, userId);
      (refusal.Some? ==> r == Err(refusal.value) && db.refunds == old(db.refunds))
      && (refusal.None? ==>
            var i := RefundIndex(old(db.refunds), refundId).value;
            r == Ok(old(db.refunds)[i].(status := RefundStatus.CANCELLED)) && db.refunds == old(db.refunds)[i := r.value])
  {
    var refusal := CancelRefusal(db.refunds, refundId, userId);
    if refusal.Some? {
      return Err(refusal.value);
    }
    var i := RefundIndex(db.refunds, refundId).value;
    var g := db.refunds[i].(status := RefundStatus.CANCELLED);
    SaveRefundAt(db, i, g);
    r := Ok(g);
  }
}
