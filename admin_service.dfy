/** `AdminService`: the admin checks, banning, refund review, admin-account management with the
  * rule that the last super admin can never be removed, and the activity cascade. */
module AdminService {

  import opened Wrappers
  import opened Seqs
  import opened Entities
  import opened Store
  import opened JavaText
  import opened NotificationService
  import opened AccountErasure
  import UserService
  import GroupChatService
  import AuthService

  // ---------------------------------------------------------------- verifyAdmin, verifySuperAdmin

  const AdminNotFound := "Admin not found"
  const NotAdmin := "Unauthorized: Not an admin"
  const NotSuperAdmin := "Unauthorized: Super admin privileges required"
  const TargetIsAdmin := "Only super admins can manage other admins"

  /** Either admin flag is enough for the ordinary admin actions. */
  predicate HasAdminRights(u: User)
  {
    u.isAdmin || u.isSuperAdmin
  }

  /** `verifyAdmin`: the acting account must exist and hold an admin flag. */
  function VerifyAdmin(users: seq<User>, adminId: Id): (r: Result<User>)
    ensures r.Ok? <==> UserExists(users, adminId) && HasAdminRights(FindUser(users, adminId).value)
    ensures r.Ok? ==> r.value.id == adminId && r.value in users
    ensures r == Err(AdminNotFound) <==> !UserExists(users, adminId)
  {
    match FindUser(users, adminId)
    case None => Err(AdminNotFound)
    case Some(admin) => if !HasAdminRights(admin) then Err(NotAdmin) else Ok(admin)
  }

  /** `verifySuperAdmin`: an admin whose super-admin flag is set. */
  function VerifySuperAdmin(users: seq<User>, adminId: Id): (r: Result<User>)
    ensures r.Ok? <==> UserExists(users, adminId) && FindUser(users, adminId).value.isSuperAdmin
    ensures r.Ok? ==> VerifyAdmin(users, adminId) == r
  {
    match VerifyAdmin(users, adminId)
    case Err(m) => Err(m)
    case Ok(admin) => if !admin.isSuperAdmin then Err(NotSuperAdmin) else Ok(admin)
  }

  /** `verifyAdmin`, then `findById` of the target, then `ensureCanManageTarget`: the checks that
    * ban, unban and delete share. */
  function ManageRefusal(users: seq<User>, adminId: Id, targetId: Id): (r: Option<string>)
  {
    match VerifyAdmin(users, adminId)
    case Err(m) => Some(m)
    case Ok(admin) =>
      match FindUser(users, targetId)
      case None => Some(UserNotFound)
      case Some(target) => if target.isAdmin && !admin.isSuperAdmin then Some(TargetIsAdmin) else None
  }

  /** Only admins act on accounts, and only super admins act on admins. */
  lemma ManageNeedsRights(users: seq<User>, adminId: Id, targetId: Id)
    ensures ManageRefusal(users, adminId, targetId).None? <==>
      UserExists(users, adminId) && HasAdminRights(FindUser(users, adminId).value)
      && UserExists(users, targetId)
      && (FindUser(users, targetId).value.isAdmin ==> FindUser(users, adminId).value.isSuperAdmin)
  {
  }

  // ---------------------------------------------------------------- ensureAnotherSuperAdminExists

  const LastSuperAdmin := "At least one super admin must remain"
  const NoOtherSuperAdmin := "Cannot remove the last super admin"

  /** `countByIsSuperAdminTrue`. */
  function SuperAdminCount(users: seq<User>): nat
  {
    Count(users, (u: User) => u.isSuperAdmin)
  }

  predicate HasSuperAdmin(users: seq<User>)
  {
    exists i :: 0 <= i < |users| && users[i].isSuperAdmin
  }

  /** `existsByIsSuperAdminTrueAndUserIdNot`. */
  predicate OtherSuperAdmin(users: seq<User>, excluded: Id)
  {
    exists i :: 0 <= i < |users| && users[i].isSuperAdmin && users[i].id != excluded
  }

  /** `ensureAnotherSuperAdminExists`: more than one super admin, one of them not `excluded`. */
  function AnotherSuperAdminRefusal(users: seq<User>, excluded: Id): (r: Option<string>)
    ensures r.None? <==> SuperAdminCount(users) > 1 && OtherSuperAdmin(users, excluded)
  {
    if SuperAdminCount(users) <= 1 then Some(LastSuperAdmin)
    else if !OtherSuperAdmin(users, excluded) then Some(NoOtherSuperAdmin)
    else None
  }

  /** When the excluded account is itself a super admin, another one implies two, so the count
    * test never decides on its own. */
  lemma OtherImpliesTwo(users: seq<User>, t: nat, excluded: Id)
    requires t < |users| && users[t].isSuperAdmin && users[t].id == excluded
    requires OtherSuperAdmin(users, excluded)
    ensures SuperAdminCount(users) >= 2
  {
    var p := (u: User) => u.isSuperAdmin;
    var k :| 0 <= k < |users| && users[k].isSuperAdmin && users[k].id != excluded;
    var f := Filter(users, p);
    assert users[t] in f && users[k] in f && users[t] != users[k];
  }

  // ---------------------------------------------------------------- banUser, unbanUser

  /** `now.plusDays(days)` for a positive number of days; otherwise the ban has no end. */
  function BanEnd(days: int, now: Time): (r: Option<Time>)
    ensures r.Some? <==> days > 0
    ensures r.Some? ==> r.value > now
  {
    if days > 0 then Some(now + days * Day) else None
  }

  function Banned(u: User, days: int, now: Time): User
  {
    u.(isActive := false, banUntil := BanEnd(days, now))
  }

  predicate ReasonGiven(reason: Option<string>)
  {
    reason.Some? && !IsBlank(reason.value)
  }

  /** The notice `banUser` sends: one for a timed ban, one for a permanent ban with a reason. */
  function BanNotice(userId: Id, days: int, reason: Option<string>): (r: Option<Draft>)
    ensures r.Some? <==> days > 0 || ReasonGiven(reason)
    ensures r.Some? ==> r.value.userId == userId && r.value.kind == SYSTEM
  {
    var why := if ReasonGiven(reason) then " Reason: " + reason.value else "";
    if days > 0 then
      Some(Draft(userId, SYSTEM, "Account Suspended",
        "An administrator has suspended your account for " + NatToString(days) + " days." + why,
        Some(userId), Some("ADMIN")))
    else if ReasonGiven(reason) then
      Some(Draft(userId, SYSTEM, "Account Suspended",
        "An administrator has suspended your account. Reason: " + reason.value, Some(userId), Some("ADMIN")))
    else None
  }

  /** The notifications a ban adds. */
  function BanNotices(userId: Id, days: int, reason: Option<string>, firstId: Id, now: Time): seq<Notification>
  {
    match BanNotice(userId, days, reason)
    case None => []
    case Some(d) => [Stored(d, firstId, now)]
  }

  /** A banned account cannot log in until its ban end has passed; a permanent ban never ends. */
  lemma BanHoldsUntilItsEnd(u: User, days: int, at: Time, now: Time)
    ensures !Banned(u, days, at).isActive
    ensures AuthService.BanExpired(Banned(u, days, at), now) <==> days > 0 && at + days * Day < now
  {
  }

  /** Login against the table right after a ban: refused as banned until the ban end has passed,
    * then admitted with the ban lifted. */
  lemma LoginAfterBan(users: seq<User>, i: nat, email: string, days: int, at: Time, now: Time)
    requires i < |users| && AuthService.ByEmail(users, email) == Found(users[i])
    ensures var banned := Banned(users[i], days, at);
      AuthService.LoginResult(users[i := banned], email, true, now)
      == if days > 0 && at + days * Day < now then Ok(AuthService.Reactivated(banned)) else Err(AuthService.Banned)
  {
    var p := (u: User) => u.email == email;
    assert Filter(users, p) == [users[i]];
    AuthService.FilterReplaceOnly(users, i, Banned(users[i], days, at), p);
  }

  /** Unbanning restores the account for login at once. */
  lemma LoginAfterUnban(users: seq<User>, i: nat, email: string, now: Time)
    requires i < |users| && AuthService.ByEmail(users, email) == Found(users[i])
    ensures AuthService.LoginResult(users[i := AuthService.Reactivated(users[i])], email, true, now)
      == Ok(AuthService.Reactivated(users[i]))
  {
    var p := (u: User) => u.email == email;
    assert Filter(users, p) == [users[i]];
    AuthService.FilterReplaceOnly(users, i, AuthService.Reactivated(users[i]), p);
  }

  /** The tables ban and unban touch. */
  ghost predicate BanTablesValid(db: Db)
    reads db
  {
    db.UsersValid() && db.NotificationsValid()
  }

  method SaveUserAt(db: Db, i: nat, u: User)
    requires BanTablesValid(db) && i < |db.users| && u.id == db.users[i].id
    modifies db`users
    ensures BanTablesValid(db)
    ensures db.users == old(db.users)[i := u]
    ensures forall id :: UserIndex(db.users, id) == UserIndex(old(db.users), id)
  {
    forall id ensures UserIndex(db.users[i := u], id) == UserIndex(db.users, id) {
      UserIndexAfterSave(db.users, i, u, id);
    }
    db.users := db.users[i := u];
  }

  /** `banUser`: after the checks, the account is deactivated with the ban end (none when `days`
    * is not positive), and the user is told when the ban is timed or has a reason. It is not
    * transactional, but nothing after the save can fail: the user exists. */
  method BanUser(db: Db, userId: Id, adminId: Id, days: int, reason: Option<string>, now: Time)
    returns (r: Result<User>)
    requires BanTablesValid(db)
    modifies db`users, db`notifications, db`nextNotificationId, db`outbox
    ensures BanTablesValid(db)
    ensures ManageRefusal(old(db.users), adminId, userId).Some? ==>
      r == Err(ManageRefusal(old(db.users), adminId, userId).value)
      && db.users == old(db.users) && db.notifications == old(db.notifications)
      && db.nextNotificationId == old(db.nextNotificationId) && db.outbox == old(db.outbox)
    ensures ManageRefusal(old(db.users), adminId, userId).None? ==>
      var i := UserIndex(old(db.users), userId).value;
      var notices := BanNotices(userId, days, reason, old(db.nextNotificationId), now);
      r == Ok(Banned(old(db.users)[i], days, now))
      && db.users == old(db.users)[i := Banned(old(db.users)[i], days, now)]
      && db.notifications == old(db.notifications) + notices
      && db.nextNotificationId == old(db.nextNotificationId) + |notices|
      && db.outbox == old(db.outbox) + (if notices == [] then [] else Deliver(db.brokerUp, notices[0]))
  {
    var refusal := ManageRefusal(db.users, adminId, userId);
    if refusal.Some? {
      return Err(refusal.value);
    }
    var i := UserIndex(db.users, userId).value;
    var saved := Banned(db.users[i], days, now);
    SaveUserAt(db, i, saved);
    var notice := BanNotice(userId, days, reason);
    if notice.Some? {
      assert UserExists(db.users, userId);
      var sent := CreateNotification(db, notice.value, now);
      assert sent.Ok?;
    }
    r := Ok(saved);
  }

  /** `unbanUser`: after the same checks, the account is active again with no ban end. */
  method UnbanUser(db: Db, userId: Id, adminId: Id) returns (r: Result<User>)
    requires BanTablesValid(db)
    modifies db`users
    ensures BanTablesValid(db)
    ensures ManageRefusal(old(db.users), adminId, userId).Some? ==>
      r == Err(ManageRefusal(old(db.users), adminId, userId).value) && db.users == old(db.users)
    ensures ManageRefusal(old(db.users), adminId, userId).None? ==>
      var i := UserIndex(old(db.users), userId).value;
      r == Ok(AuthService.Reactivated(old(db.users)[i]))
      && r.value.isActive && r.value.banUntil.None?
      && db.users == old(db.users)[i := AuthService.Reactivated(old(db.users)[i])]
  {
    var refusal := ManageRefusal(db.users, adminId, userId);
    if refusal.Some? {
      return Err(refusal.value);
    }
    var i := UserIndex(db.users, userId).value;
    var saved := AuthService.Reactivated(db.users[i]);
    SaveUserAt(db, i, saved);
    r := Ok(saved);
  }

  /** `deleteUser`: after the same checks, `deleteUserAccount` erases the account. */
  method DeleteUser(db: Db, userId: Id, adminId: Id) returns (r: Result<()>)
    requires db.AccountsValid()
    modifies db`matches, db`messages, db`participants, db`activities, db`ratings, db`notifications
    modifies db`verifications, db`refunds, db`referrals, db`likes, db`profiles, db`users
    ensures db.AccountsValid()
    ensures ManageRefusal(old(db.users), adminId, userId).Some? ==>
      r == Err(ManageRefusal(old(db.users), adminId, userId).value) && unchanged(db)
    ensures ManageRefusal(old(db.users), adminId, userId).None? ==>
      r.Ok? && AccountTables(db) == EraseUser(old(AccountTables(db)), userId)
  {
    var refusal := ManageRefusal(db.users, adminId, userId);
    if refusal.Some? {
      return Err(refusal.value);
    }
    r := UserService.DeleteUserAccount(db, userId);
  }

  // ---------------------------------------------------------------- approveRefund, rejectRefund

  const RefundNotFound := "Refund not found"

  /** `verifyAdmin`, `findById` of the refund and the PENDING test shared by approval and rejection. */
  function ReviewRefusal(users: seq<User>, refunds: seq<Refund>, refundId: Id, adminId: Id, approving: bool)
    : (r: Option<string>)
    ensures r.None? <==>
      VerifyAdmin(users, adminId).Ok? && RefundIndex(refunds, refundId).Some?
      && refunds[RefundIndex(refunds, refundId).value].status == RefundStatus.PENDING
  {
    match VerifyAdmin(users, adminId)
    case Err(m) => Some(m)
    case Ok(_) =>
      match RefundIndex(refunds, refundId)
      case None => Some(RefundNotFound)
      case Some(i) =>
        if refunds[i].status != RefundStatus.PENDING then
          Some(if approving then "Only pending refunds can be approved" else "Only pending refunds can be rejected")
        else None
  }

  /** The refund after approval: the mock gateway completes it at once under "REFUND-" and the
    * clock's milliseconds. */
  function Approved(f: Refund, adminId: Id, notes: Option<string>, millis: nat, now: Time): Refund
  {
    f.(status := RefundStatus.COMPLETED, processedAt := Some(now), processedBy := Some(adminId), adminNotes := notes,
       refundTransId := Some("REFUND-" + NatToString(millis)), completedAt := Some(now))
  }

  const DefaultRejectNote := "Refund request rejected by admin"

  function Rejected(f: Refund, adminId: Id, notes: Option<string>, now: Time): Refund
  {
    f.(status := RefundStatus.REJECTED, processedAt := Some(now), processedBy := Some(adminId),
       adminNotes := Some(if notes.Some? then notes.value else DefaultRejectNote))
  }

  function ApprovalNotice(f: Refund, refundId: Id): Draft
  {
    Draft(f.userId, SYSTEM, "Refund Approved \U{2705}",
      "Your refund of $" + f.amount + " has been approved and processed", Some(refundId), Some("REFUND"))
  }

  function RejectionNotice(f: Refund, refundId: Id, notes: Option<string>): Draft
  {
    Draft(f.userId, SYSTEM, "Refund Rejected \U{274C}",
      "Your refund request has been rejected. " + (if notes.Some? then "Reason: " + notes.value else ""),
      Some(refundId), Some("REFUND"))
  }

  /** A reviewed refund is never reviewed again: approval leaves it COMPLETED and rejection leaves it
    * REJECTED, and both are refused for anything but PENDING. */
  lemma ReviewedOnce(users: seq<User>, refunds: seq<Refund>, refundId: Id, adminId: Id, notes: Option<string>,
                     millis: nat, now: Time, approving: bool, again: bool)
    requires ReviewRefusal(users, refunds, refundId, adminId, approving).None?
    ensures var i := RefundIndex(refunds, refundId).value;
      var after := if approving then Approved(refunds[i], adminId, notes, millis, now)
                   else Rejected(refunds[i], adminId, notes, now);
      ReviewRefusal(users, refunds[i := after], refundId, adminId, again).Some?
  {
    var i := RefundIndex(refunds, refundId).value;
    var after := if approving then Approved(refunds[i], adminId, notes, millis, now)
                 else Rejected(refunds[i], adminId, notes, now);
    IndexWhereAfterSave(refunds, i, after, (f: Refund) => f.id == refundId);
  }

  /** The tables refund review touches. */
  ghost predicate ReviewTablesValid(db: Db)
    reads db
  {
    db.WorkflowsValid() && db.NotificationsValid()
  }

  method SaveRefundAt(db: Db, i: nat, f: Refund)
    requires ReviewTablesValid(db) && i < |db.refunds| && f.id == db.refunds[i].id
    modifies db`refunds
    ensures ReviewTablesValid(db)
    ensures db.refunds == old(db.refunds)[i := f]
  {
    db.refunds := db.refunds[i := f];
  }

  /** Saves the reviewed refund and notifies its owner, in one transaction: an owner who is gone
    * rolls the save back. */
  method SaveAndNotify(db: Db, i: nat, f: Refund, d: Draft, now: Time) returns (r: Result<()>)
    requires ReviewTablesValid(db) && i < |db.refunds| && f.id == db.refunds[i].id
    modifies db`refunds, db`notifications, db`nextNotificationId, db`outbox
    ensures ReviewTablesValid(db)
    ensures r.Ok? <==> UserExists(db.users, d.userId)
    ensures r.Err? ==>
      r.msg == UserNotFound && db.refunds == old(db.refunds) && db.notifications == old(db.notifications)
      && db.nextNotificationId == old(db.nextNotificationId) && db.outbox == old(db.outbox)
    ensures r.Ok? ==>
      db.refunds == old(db.refunds)[i := f]
      && db.notifications == old(db.notifications) + [Stored(d, old(db.nextNotificationId), now)]
      && db.nextNotificationId == old(db.nextNotificationId) + 1
      && db.outbox == old(db.outbox) + Deliver(db.brokerUp, Stored(d, old(db.nextNotificationId), now))
  {
    var saved := db.refunds;
    SaveRefundAt(db, i, f);
    var sent := CreateNotification(db, d, now);
    if sent.Err? {
      db.refunds := saved;
      return Err(sent.msg);
    }
    r := Ok(());
  }

  /** `approveRefund`: a PENDING refund becomes COMPLETED with the reviewer, the notes, the mock
    * transaction id and both timestamps, and its owner is told. */
  method ApproveRefund(db: Db, refundId: Id, adminId: Id, notes: Option<string>, millis: nat, now: Time)
    returns (r: Result<()>)
    requires ReviewTablesValid(db)
    modifies db`refunds, db`notifications, db`nextNotificationId, db`outbox
    ensures ReviewTablesValid(db)
    ensures ReviewRefusal(old(db.users), old(db.refunds), refundId, adminId, true).Some? ==>
      r == Err(ReviewRefusal(old(db.users), old(db.refunds), refundId, adminId, true).value)
      && db.refunds == old(db.refunds) && db.notifications == old(db.notifications)
    ensures r.Err? ==>
      db.refunds == old(db.refunds) && db.notifications == old(db.notifications)
      && db.nextNotificationId == old(db.nextNotificationId) && db.outbox == old(db.outbox)
    ensures r.Ok? ==>
      var i := RefundIndex(old(db.refunds), refundId).value;
      var f := old(db.refunds)[i];
      ReviewRefusal(old(db.users), old(db.refunds), refundId, adminId, true).None?
      && f.status == RefundStatus.PENDING
      && db.refunds == old(db.refunds)[i := Approved(f, adminId, notes, millis, now)]
      && db.notifications == old(db.notifications) + [Stored(ApprovalNotice(f, refundId), old(db.nextNotificationId), now)]
      && db.nextNotificationId == old(db.nextNotificationId) + 1
      && db.outbox == old(db.outbox) + Deliver(db.brokerUp, Stored(ApprovalNotice(f, refundId), old(db.nextNotificationId), now))
    ensures ReviewRefusal(old(db.users), old(db.refunds), refundId, adminId, true).None? ==>
      (r.Ok? <==> UserExists(db.users, old(db.refunds)[RefundIndex(old(db.refunds), refundId).value].userId))
  {
    var refusal := ReviewRefusal(db.users, db.refunds, refundId, adminId, true);
    if refusal.Some? {
      return Err(refusal.value);
    }
    var i := RefundIndex(db.refunds, refundId).value;
    var f := db.refunds[i];
    r := SaveAndNotify(db, i, Approved(f, adminId, notes, millis, now), ApprovalNotice(f, refundId), now);
  }

  /** `rejectRefund`: a PENDING refund becomes REJECTED with the reviewer and the notes, or a default
    * note, and its owner is told. */
  method RejectRefund(db: Db, refundId: Id, adminId: Id, notes: Option<string>, now: Time)
    returns (r: Result<()>)
    requires ReviewTablesValid(db)
    modifies db`refunds, db`notifications, db`nextNotificationId, db`outbox
    ensures ReviewTablesValid(db)
    ensures ReviewRefusal(old(db.users), old(db.refunds), refundId, adminId, false).Some? ==>
      r == Err(ReviewRefusal(old(db.users), old(db.refunds), refundId, adminId, false).value)
      && db.refunds == old(db.refunds) && db.notifications == old(db.notifications)
    ensures r.Err? ==>
      db.refunds == old(db.refunds) && db.notifications == old(db.notifications)
      && db.nextNotificationId == old(db.nextNotificationId) && db.outbox == old(db.outbox)
    ensures r.Ok? ==>
      var i := RefundIndex(old(db.refunds), refundId).value;
      var f := old(db.refunds)[i];
      ReviewRefusal(old(db.users), old(db.refunds), refundId, adminId, false).None?
      && f.status == RefundStatus.PENDING
      && db.refunds == old(db.refunds)[i := Rejected(f, adminId, notes, now)]
      && db.notifications == old(db.notifications)
           + [Stored(RejectionNotice(f, refundId, notes), old(db.nextNotificationId), now)]
      && db.nextNotificationId == old(db.nextNotificationId) + 1
      && db.outbox == old(db.outbox) + Deliver(db.brokerUp, Stored(RejectionNotice(f, refundId, notes), old(db.nextNotificationId), now))
    ensures ReviewRefusal(old(db.users), old(db.refunds), refundId, adminId, false).None? ==>
      (r.Ok? <==> UserExists(db.users, old(db.refunds)[RefundIndex(old(db.refunds), refundId).value].userId))
  {
    var refusal := ReviewRefusal(db.users, db.refunds, refundId, adminId, false);
    if refusal.Some? {
      return Err(refusal.value);
    }
    var i := RefundIndex(db.refunds, refundId).value;
    var f := db.refunds[i];
    r := SaveAndNotify(db, i, Rejected(f, adminId, notes, now), RejectionNotice(f, refundId, notes), now);
  }

  // ---------------------------------------------------------------- createAdminAccount

  const EmailTaken := "Email already exists"

  /** `verifySuperAdmin`, then `existsByEmail` on the address as typed. */
  function AdminCreationRefusal(users: seq<User>, requesterId: Id, email: string): (r: Option<string>)
    ensures r.None? <==>
      VerifySuperAdmin(users, requesterId).Ok? && !(exists i :: 0 <= i < |users| && users[i].email == email)
      && !(exists i :: 0 <= i < |users| && users[i].email == ToLower(Trim(email)))
  {
    match VerifySuperAdmin(users, requesterId)
    case Err(m) => Some(m)
    case Ok(_) =>
      if exists i :: 0 <= i < |users| && users[i].email == email then Some(EmailTaken)
      else if exists i :: 0 <= i < |users| && users[i].email == ToLower(Trim(email)) then Some(EmailNotUnique)
      else None
  }

  /** A created admin account keeps the stored emails distinct: an email taken once trimmed and
    * lower-cased is refused by the unique column. */
  lemma AdminCreationKeepsEmailsUnique(users: seq<User>, requesterId: Id, id: Id, name: Option<string>,
                                       email: string, superAdmin: bool)
    requires UniqueEmails(users) && AdminCreationRefusal(users, requesterId, email).None?
    ensures UniqueEmails(users + [NewAdmin(id, name, email, superAdmin)])
  {
    var all := users + [NewAdmin(id, name, email, superAdmin)];
    forall i, j | 0 <= i < j < |all|
      ensures all[i].email != all[j].email
    {
      if j == |users| {
        assert all[i] == users[i];
      }
    }
  }

  /** The account `createAdminAccount` builds: a verified ELITE admin of age 25. */
  function NewAdmin(id: Id, name: Option<string>, email: string, superAdmin: bool): User
  {
    User(id, ToLower(Trim(email)), if name.Some? then Trim(name.value) else "Admin", Some(25), None,
         None, None, None, None, None, None, None, Some(ELITE), true, None, true, true, superAdmin, false)
  }

  /** The created account passes `verifyAdmin` at once, and `verifySuperAdmin` exactly when it was
    * created as a super admin. */
  lemma NewAdminIsAdmin(users: seq<User>, id: Id, name: Option<string>, email: string, superAdmin: bool)
    requires forall i :: 0 <= i < |users| ==> users[i].id != id
    ensures VerifyAdmin(users + [NewAdmin(id, name, email, superAdmin)], id).Ok?
    ensures VerifySuperAdmin(users + [NewAdmin(id, name, email, superAdmin)], id).Ok? <==> superAdmin
  {
    UserIndexAppendFresh(users, NewAdmin(id, name, email, superAdmin), id);
  }

  /** `createAdminAccount`. */
  method CreateAdminAccount(db: Db, requesterId: Id, name: Option<string>, email: string, superAdmin: bool)
    returns (r: Result<User>)
    requires db.UsersValid()
    modifies db`users, db`nextUserId
    ensures db.UsersValid()
    ensures AdminCreationRefusal(old(db.users), requesterId, email).Some? ==>
      r == Err(AdminCreationRefusal(old(db.users), requesterId, email).value)
      && db.users == old(db.users) && db.nextUserId == old(db.nextUserId)
    ensures AdminCreationRefusal(old(db.users), requesterId, email).None? ==>
      r == Ok(NewAdmin(old(db.nextUserId), name, email, superAdmin))
      && db.users == old(db.users) + [r.value] && db.nextUserId == old(db.nextUserId) + 1
      && VerifyAdmin(db.users, r.value.id).Ok?
      && (VerifySuperAdmin(db.users, r.value.id).Ok? <==> superAdmin)
  {
    var refusal := AdminCreationRefusal(db.users, requesterId, email);
    if refusal.Some? {
      return Err(refusal.value);
    }
    var admin := NewAdmin(db.nextUserId, name, email, superAdmin);
    NewAdminIsAdmin(db.users, admin.id, name, email, superAdmin);
    AppendUser(db, admin);
    r := Ok(admin);
  }

  // ---------------------------------------------------------------- updateAdminRole

  const SelfDowngrade := "Super admin cannot downgrade themselves"
  const SuperAdminRole := "SUPER_ADMIN"
  const AdminRole := "ADMIN"

  /** The `switch` key: the role upper-cased, or empty for null. */
  function RoleKey(role: Option<string>): string
  {
    if role.None? then "" else ToUpper(role.value)
  }

  /** `"SUPER_ADMIN".equalsIgnoreCase(role)`. */
  predicate AsksSuperAdmin(role: Option<string>)
  {
    role.Some? && EqualsIgnoreCase(SuperAdminRole, role.value)
  }

  /** A role that equals "SUPER_ADMIN" ignoring case upper-cases to it. */
  lemma AsksSuperAdminKey(role: Option<string>)
    requires AsksSuperAdmin(role)
    ensures RoleKey(role) == SuperAdminRole
  {
    var s := role.value;
    assert |s| == |SuperAdminRole|;
    forall k | 0 <= k < |s| ensures UpperChar(s[k]) == SuperAdminRole[k] {
      assert ToLower(s)[k] == ToLower(SuperAdminRole)[k];
    }
  }

  /** What `updateAdminRole` saves for the target, or why it refuses. */
  function RoleChange(users: seq<User>, requesterId: Id, targetId: Id, role: Option<string>): (r: Result<User>)
    ensures r.Ok? ==>
      UserExists(users, targetId)
      && r.value == FindUser(users, targetId).value.(isAdmin := r.value.isAdmin, isSuperAdmin := r.value.isSuperAdmin)
    ensures r.Ok? ==>
      (r.value.isSuperAdmin <==> RoleKey(role) == SuperAdminRole)
      && (r.value.isAdmin <==> RoleKey(role) == SuperAdminRole || RoleKey(role) == AdminRole)
    ensures r.Ok? ==> VerifySuperAdmin(users, requesterId).Ok?
    ensures r.Err? <==>
      VerifySuperAdmin(users, requesterId).Err? || !UserExists(users, targetId)
      || (targetId == requesterId && !AsksSuperAdmin(role))
      || (RoleKey(role) != SuperAdminRole && FindUser(users, targetId).value.isSuperAdmin
          && AnotherSuperAdminRefusal(users, targetId).Some?)
    ensures r.Err? ==>
      r.msg == if VerifySuperAdmin(users, requesterId).Err? then VerifySuperAdmin(users, requesterId).msg
               else if !UserExists(users, targetId) then UserNotFound
               else if targetId == requesterId && !AsksSuperAdmin(role) then SelfDowngrade
               else AnotherSuperAdminRefusal(users, targetId).value
  {
    match VerifySuperAdmin(users, requesterId)
    case Err(m) => Err(m)
    case Ok(_) =>
      match FindUser(users, targetId)
      case None => Err(UserNotFound)
      case Some(t) =>
        if t.id == requesterId && !AsksSuperAdmin(role) then Err(SelfDowngrade)
        else if RoleKey(role) == SuperAdminRole then Ok(t.(isAdmin := true, isSuperAdmin := true))
        else if t.isSuperAdmin && AnotherSuperAdminRefusal(users, t.id).Some? then
          Err(AnotherSuperAdminRefusal(users, t.id).value)
        else if RoleKey(role) == AdminRole then Ok(t.(isAdmin := true, isSuperAdmin := false))
        else Ok(t.(isAdmin := false, isSuperAdmin := false))
  }

  /** A super admin never takes their own super-admin flag away. */
  lemma NoSelfDowngrade(users: seq<User>, requesterId: Id, role: Option<string>)
    requires RoleChange(users, requesterId, requesterId, role).Ok?
    ensures RoleChange(users, requesterId, requesterId, role).value.isSuperAdmin
  {
    AsksSuperAdminKey(role);
  }

  /** Saving one row keeps a super admin when the new row is one, or some other row is. */
  lemma SaveKeepsSuperAdmin(users: seq<User>, i: nat, saved: User, k: nat)
    requires i < |users| && k < |users|
    requires saved.isSuperAdmin || (k != i && users[k].isSuperAdmin)
    ensures HasSuperAdmin(users[i := saved])
  {
    if saved.isSuperAdmin {
      assert users[i := saved][i].isSuperAdmin;
    } else {
      assert users[i := saved][k] == users[k];
    }
  }

  /** A role change that goes through leaves at least one super admin: either the target keeps or
    * gains the flag, or another super admin with a different id remains untouched. */
  lemma RoleChangeKeepsSuperAdmin(users: seq<User>, requesterId: Id, targetId: Id, role: Option<string>)
    requires RoleChange(users, requesterId, targetId, role).Ok?
    ensures HasSuperAdmin(users[UserIndex(users, targetId).value := RoleChange(users, requesterId, targetId, role).value])
  {
    var i := UserIndex(users, targetId).value;
    var saved := RoleChange(users, requesterId, targetId, role).value;
    var q := UserIndex(users, requesterId).value;
    assert users[q].isSuperAdmin;
    if saved.isSuperAdmin {
      SaveKeepsSuperAdmin(users, i, saved, i);
    } else if users[i].isSuperAdmin {
      assert OtherSuperAdmin(users, targetId);
      var k :| 0 <= k < |users| && users[k].isSuperAdmin && users[k].id != targetId;
      SaveKeepsSuperAdmin(users, i, saved, k);
    } else {
      SaveKeepsSuperAdmin(users, i, saved, q);
    }
  }

  /** `updateAdminRole`: only the target's two flags change, in one save at the end. */
  method UpdateAdminRole(db: Db, requesterId: Id, targetId: Id, role: Option<string>) returns (r: Result<User>)
    requires db.UsersValid()
    modifies db`users
    ensures db.UsersValid()
    ensures r == RoleChange(old(db.users), requesterId, targetId, role)
    ensures r.Err? ==> db.users == old(db.users)
    ensures r.Ok? ==> db.users == old(db.users)[UserIndex(old(db.users), targetId).value := r.value]
    ensures r.Ok? ==> HasSuperAdmin(db.users)
  {
    r := RoleChange(db.users, requesterId, targetId, role);
    if r.Ok? {
      RoleChangeKeepsSuperAdmin(db.users, requesterId, targetId, role);
      db.users := db.users[UserIndex(db.users, targetId).value := r.value];
    }
  }

  // ---------------------------------------------------------------- deleteAdminAccount

  /** The checks of `deleteAdminAccount`, in order. */
  function AdminDeletionRefusal(users: seq<User>, requesterId: Id, targetId: Id): (r: Option<string>)
    ensures r.None? ==>
      VerifySuperAdmin(users, requesterId).Ok? && UserExists(users, targetId)
      && FindUser(users, targetId).value.isAdmin && targetId != requesterId
  {
    match VerifySuperAdmin(users, requesterId)
    case Err(m) => Some(m)
    case Ok(_) =>
      match FindUser(users, targetId)
      case None => Some(UserNotFound)
      case Some(t) =>
        if !t.isAdmin then Some("Target is not an admin")
        else if t.id == requesterId then Some("Cannot delete your own admin account")
        else if t.isSuperAdmin && AnotherSuperAdminRefusal(users, t.id).Some? then AnotherSuperAdminRefusal(users, t.id)
        else None
  }

  /** Since the requester is a super admin other than the target, the last-super-admin test never
    * refuses a deletion: the requester is the other super admin. */
  lemma DeletionNeverLastSuperAdmin(users: seq<User>, requesterId: Id, targetId: Id)
    requires VerifySuperAdmin(users, requesterId).Ok? && requesterId != targetId
    requires UserExists(users, targetId) && FindUser(users, targetId).value.isSuperAdmin
    ensures AnotherSuperAdminRefusal(users, targetId).None?
  {
    var q := UserIndex(users, requesterId).value;
    var t := UserIndex(users, targetId).value;
    assert OtherSuperAdmin(users, targetId) by {
      assert users[q].isSuperAdmin && users[q].id != targetId;
    }
    OtherImpliesTwo(users, t, targetId);
  }

  /** Erasing the target keeps the requester, so a super admin remains. */
  lemma DeletionKeepsSuperAdmin(users: seq<User>, requesterId: Id, targetId: Id)
    requires AdminDeletionRefusal(users, requesterId, targetId).None?
    ensures HasSuperAdmin(Filter(users, UserKept(targetId)))
  {
    var q := UserIndex(users, requesterId).value;
    var kept := Filter(users, UserKept(targetId));
    assert UserKept(targetId)(users[q]);
    assert users[q] in kept;
  }

  /** `deleteAdminAccount`: after the checks, `deleteUserAccount` erases the admin's account. */
  method DeleteAdminAccount(db: Db, requesterId: Id, targetId: Id) returns (r: Result<()>)
    requires db.AccountsValid()
    modifies db`matches, db`messages, db`participants, db`activities, db`ratings, db`notifications
    modifies db`verifications, db`refunds, db`referrals, db`likes, db`profiles, db`users
    ensures db.AccountsValid()
    ensures AdminDeletionRefusal(old(db.users), requesterId, targetId).Some? ==>
      r == Err(AdminDeletionRefusal(old(db.users), requesterId, targetId).value) && unchanged(db)
    ensures AdminDeletionRefusal(old(db.users), requesterId, targetId).None? ==>
      r.Ok? && AccountTables(db) == EraseUser(old(AccountTables(db)), targetId) && HasSuperAdmin(db.users)
  {
    var refusal := AdminDeletionRefusal(db.users, requesterId, targetId);
    if refusal.Some? {
      return Err(refusal.value);
    }
    DeletionKeepsSuperAdmin(db.users, requesterId, targetId);
    r := UserService.DeleteUserAccount(db, targetId);
  }

  // ---------------------------------------------------------------- deleteActivity

  /** The message of the `ResponseStatusException(NOT_FOUND, "Activity not found")` thrown for a
    * missing activity: the status, then the reason in quotes. */
  const ActivityNotFound := "404 NOT_FOUND \"Activity not found\""

  function MessageOutside(roomId: Id): GroupMessage -> bool { (g: GroupMessage) => g.roomId != roomId }
  function MemberOutside(roomId: Id): RoomMember -> bool { (m: RoomMember) => m.roomId != roomId }
  function RoomOther(roomId: Id): ChatRoom -> bool { (c: ChatRoom) => c.id != roomId }
  function ActivityOther(activityId: Id): Activity -> bool { (a: Activity) => a.id != activityId }

  /** `verifyAdmin`, `findById` of the activity, and the room lookup meeting two rooms. */
  function ActivityDeletionRefusal(users: seq<User>, activities: seq<Activity>, rooms: seq<ChatRoom>,
                                   activityId: Id, adminId: Id): Option<string>
  {
    match VerifyAdmin(users, adminId)
    case Err(m) => Some(m)
    case Ok(_) =>
      if ActivityIndex(activities, activityId).None? then Some(ActivityNotFound)
      else if GroupChatService.RoomByActivity(rooms, activityId).NotUnique? then Some(NotUniqueMessage)
      else None
  }

  lemma MembersDeleted(members: seq<RoomMember>, next: Id, roomNext: Id, roomId: Id)
    requires RoomMemberIdsBelow(members, next) && UniqueMemberships(members)
    requires forall i :: 0 <= i < |members| ==> members[i].roomId < roomNext
    ensures var r := Filter(members, MemberOutside(roomId));
      RoomMemberIdsBelow(r, next) && UniqueMemberships(r)
      && (forall i :: 0 <= i < |r| ==> r[i].roomId < roomNext)
      && forall i :: 0 <= i < |r| ==> r[i].roomId != roomId
  {
    var ok := (a: RoomMember, b: RoomMember) => !(a.roomId == b.roomId && a.userId == b.userId);
    assert Pairwise(members, ok);
    FilterPairwise(members, MemberOutside(roomId), ok);
  }

  lemma MessagesDeleted(messages: seq<GroupMessage>, next: Id, roomNext: Id, roomId: Id)
    requires GroupMessageIdsBelow(messages, next)
    requires forall i :: 0 <= i < |messages| ==> messages[i].roomId < roomNext
    ensures var r := Filter(messages, MessageOutside(roomId));
      GroupMessageIdsBelow(r, next)
      && (forall i :: 0 <= i < |r| ==> r[i].roomId < roomNext)
      && forall i :: 0 <= i < |r| ==> r[i].roomId != roomId
  {
  }

  lemma RoomsDeleted(rooms: seq<ChatRoom>, next: Id, activityNext: Id, roomId: Id)
    requires ChatRoomIdsBelow(rooms, next)
    requires forall i :: 0 <= i < |rooms| ==> rooms[i].activityId < activityNext
    ensures var r := Filter(rooms, RoomOther(roomId));
      ChatRoomIdsBelow(r, next) && forall i :: 0 <= i < |r| ==> r[i].activityId < activityNext
  {
  }

  /** `groupMessageRepository.deleteByChatRoom_Id`. */
  method DeleteRoomMessages(db: Db, roomId: Id)
    requires db.ChatValid()
    modifies db`groupMessages
    ensures db.ChatValid()
    ensures db.groupMessages == Filter(old(db.groupMessages), MessageOutside(roomId))
    ensures forall k :: 0 <= k < |db.groupMessages| ==> db.groupMessages[k].roomId != roomId
  {
    MessagesDeleted(db.groupMessages, db.nextGroupMessageId, db.nextRoomId, roomId);
    db.groupMessages := Filter(db.groupMessages, MessageOutside(roomId));
  }

  /** `chatRoomMemberRepository.deleteByChatRoom_Id`. */
  method DeleteRoomMembers(db: Db, roomId: Id)
    requires db.ChatValid()
    modifies db`members
    ensures db.ChatValid()
    ensures db.members == Filter(old(db.members), MemberOutside(roomId))
    ensures forall k :: 0 <= k < |db.members| ==> db.members[k].roomId != roomId
  {
    MembersDeleted(db.members, db.nextMemberId, db.nextRoomId, roomId);
    db.members := Filter(db.members, MemberOutside(roomId));
  }

  /** `chatRoomRepository.delete`. */
  method DeleteRoom(db: Db, roomId: Id)
    requires db.ChatValid()
    modifies db`rooms
    ensures db.ChatValid()
    ensures db.rooms == Filter(old(db.rooms), RoomOther(roomId))
  {
    RoomsDeleted(db.rooms, db.nextRoomId, db.nextActivityId, roomId);
    db.rooms := Filter(db.rooms, RoomOther(roomId));
  }

  /** When one room belonged to the activity, removing it by id leaves none. */
  lemma NoRoomLeft(rooms: seq<ChatRoom>, activityId: Id)
    requires GroupChatService.RoomByActivity(rooms, activityId).Found?
    ensures GroupChatService.RoomByActivity(
      Filter(rooms, RoomOther(GroupChatService.RoomByActivity(rooms, activityId).value.id)), activityId).NotFound?
  {
    var room := GroupChatService.RoomByActivity(rooms, activityId).value;
    var p := (c: ChatRoom) => c.activityId == activityId;
    var left := Filter(rooms, RoomOther(room.id));
    assert forall c :: c in rooms && p(c) ==> c in Filter(rooms, p);
    assert forall k :: 0 <= k < |left| ==> left[k] in rooms && left[k].id != room.id;
    FilterNone(left, p);
  }

  /** `activityRepository.delete`. */
  method DeleteActivityRow(db: Db, activityId: Id)
    requires db.ActivitiesValid()
    modifies db`activities
    ensures db.ActivitiesValid()
    ensures db.activities == Filter(old(db.activities), ActivityOther(activityId))
    ensures ActivityIndex(db.activities, activityId).None?
  {
    var left := Filter(db.activities, ActivityOther(activityId));
    assert forall k :: 0 <= k < |left| ==> left[k] in db.activities && left[k].id != activityId;
    db.activities := left;
  }

  /** `deleteRelatedChatRoom`: the activity's room, if it has one, goes with its messages and
    * memberships; otherwise nothing changes. */
  method DeleteActivityRoom(db: Db, activityId: Id)
    requires db.ChatValid()
    modifies db`rooms, db`members, db`groupMessages
    ensures db.ChatValid()
    ensures GroupChatService.RoomByActivity(old(db.rooms), activityId).NotUnique? ==>
      db.rooms == old(db.rooms) && db.members == old(db.members) && db.groupMessages == old(db.groupMessages)
    ensures GroupChatService.RoomByActivity(db.rooms, activityId).NotFound?
      || GroupChatService.RoomByActivity(old(db.rooms), activityId).NotUnique?
    ensures GroupChatService.RoomByActivity(old(db.rooms), activityId).NotFound? ==>
      db.rooms == old(db.rooms) && db.members == old(db.members) && db.groupMessages == old(db.groupMessages)
    ensures GroupChatService.RoomByActivity(old(db.rooms), activityId).Found? ==>
      var roomId := GroupChatService.RoomByActivity(old(db.rooms), activityId).value.id;
      db.rooms == Filter(old(db.rooms), RoomOther(roomId))
      && db.members == Filter(old(db.members), MemberOutside(roomId))
      && db.groupMessages == Filter(old(db.groupMessages), MessageOutside(roomId))
      && (forall k :: 0 <= k < |db.members| ==> db.members[k].roomId != roomId)
      && (forall k :: 0 <= k < |db.groupMessages| ==> db.groupMessages[k].roomId != roomId)
  {
    var found := GroupChatService.RoomByActivity(db.rooms, activityId);
    if found.Found? {
      NoRoomLeft(db.rooms, activityId);
      DeleteRoomMessages(db, found.value.id);
      DeleteRoomMembers(db, found.value.id);
      DeleteRoom(db, found.value.id);
    }
  }

  /** `deleteActivity`, one transaction: after the checks, the activity's chat room goes with its
    * messages and memberships, then the activity row. Its participants are not touched. */
  method DeleteActivity(db: Db, activityId: Id, adminId: Id) returns (r: Result<()>)
    requires db.ChatValid() && db.ActivitiesValid()
    modifies db`activities, db`rooms, db`members, db`groupMessages
    ensures db.ChatValid() && db.ActivitiesValid()
    ensures var refusal := ActivityDeletionRefusal(old(db.users), old(db.activities), old(db.rooms), activityId, adminId);
      (refusal.Some? ==> r == Err(refusal.value) && unchanged(db))
      && (refusal.None? <==> r.Ok?)
    ensures r.Ok? ==>
      db.activities == Filter(old(db.activities), ActivityOther(activityId))
      && ActivityIndex(db.activities, activityId).None?
      && GroupChatService.RoomByActivity(db.rooms, activityId).NotFound?
      && db.participants == old(db.participants)
    ensures r.Ok? && GroupChatService.RoomByActivity(old(db.rooms), activityId).NotFound? ==>
      db.rooms == old(db.rooms) && db.members == old(db.members) && db.groupMessages == old(db.groupMessages)
    ensures r.Ok? && GroupChatService.RoomByActivity(old(db.rooms), activityId).Found? ==>
      var roomId := GroupChatService.RoomByActivity(old(db.rooms), activityId).value.id;
      db.rooms == Filter(old(db.rooms), RoomOther(roomId))
      && db.members == Filter(old(db.members), MemberOutside(roomId))
      && db.groupMessages == Filter(old(db.groupMessages), MessageOutside(roomId))
      && (forall k :: 0 <= k < |db.members| ==> db.members[k].roomId != roomId)
      && (forall k :: 0 <= k < |db.groupMessages| ==> db.groupMessages[k].roomId != roomId)
  {
    var refusal := ActivityDeletionRefusal(db.users, db.activities, db.rooms, activityId, adminId);
    if refusal.Some? {
      return Err(refusal.value);
    }
    DeleteActivityRoom(db, activityId);
    DeleteActivityRow(db, activityId);
    r := Ok(());
  }

  // ---------------------------------------------------------------- getDashboardStats

  datatype DashboardStats = DashboardStats(
    totalUsers: nat, activeUsers: nat, totalActivities: nat, totalMatches: nat, totalMessages: nat)

  /** `getDashboardStats`: table sizes, and the users whose account is active. */
  function GetDashboardStats(users: seq<User>, activities: seq<Activity>, matches: seq<Match>, messages: seq<Message>)
    : (r: DashboardStats)
    ensures r.activeUsers <= r.totalUsers == |users|
  {
    DashboardStats(|users|, Count(users, (u: User) => u.isActive), |activities|, |matches|, |messages|)
  }

  /** Every user is counted as active exactly when no account is deactivated. */
  lemma AllActiveIff(users: seq<User>, activities: seq<Activity>, matches: seq<Match>, messages: seq<Message>)
    ensures var stats := GetDashboardStats(users, activities, matches, messages);
      stats.activeUsers == stats.totalUsers <==> forall i :: 0 <= i < |users| ==> users[i].isActive
  {
    var p := (u: User) => u.isActive;
    if forall i :: 0 <= i < |users| ==> users[i].isActive {
      FilterAll(users, p);
    } else {
      var i :| 0 <= i < |users| && !users[i].isActive;
      FilterDropsOne(users, p, i);
    }
  }
}
