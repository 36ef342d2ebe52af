/** `VerificationService`: a user submits an identity document for review, one request at a time;
  * an admin approves or rejects a pending request, and approval gives the account its verified
  * badge. The user and the admins are notified. */
module VerificationService {

  import opened Wrappers
  import opened Seqs
  import opened Entities
  import opened Store
  import opened JavaText
  import opened NotificationService
  import CloudinaryService

  const AlreadyVerified := "User is already verified"
  const AlreadyPending := "You already have a pending verification request"
  const VerificationNotFound := "Verification not found"
  const AdminNotFound := "Admin not found"
  const NotAdmin := "Unauthorized: Not an admin"
  const OnlyPendingApproved := "Only pending verifications can be approved"
  const OnlyPendingRejected := "Only pending verifications can be rejected"
  const DefaultRejectionNote := "Verification request rejected"

  // The texts of the notices, named so that a proof mentions each as one term.
  const SubmittedMessage := "Your verification request has been submitted and is under review"
  const SubmittedByUser := " submitted a verification request"
  const VerifiedMessage := "Congratulations! Your account has been verified. You now have a verified badge on your profile."
  const RejectedMessage := "Your verification request has been rejected. "
  const ClearerDocument := "Please submit a clearer document."

  /** `DocumentType.valueOf`: the constant with that exact name. */
  function DocumentTypeOf(name: string): (r: Option<DocumentType>)
    ensures r.Some? <==> name in ["POLICE_REPORT", "PERSONAL_ID", "DRIVERS_LICENSE", "OTHER"]
  {
    if name == "POLICE_REPORT" then Some(POLICE_REPORT)
    else if name == "PERSONAL_ID" then Some(PERSONAL_ID)
    else if name == "DRIVERS_LICENSE" then Some(DRIVERS_LICENSE)
    else if name == "OTHER" then Some(OTHER)
    else None
  }

  /** The message of the exception `valueOf` throws for any other name. */
  function NoDocumentType(name: string): string
  {
    "No enum constant com.example.buddyfinder_backend.entity.AccountVerification.DocumentType." + name
  }

  /** `verifyAdmin`: the row must exist and carry the admin flag. */
  function VerifyAdmin(users: seq<User>, adminId: Id): (r: Result<User>)
    ensures r.Ok? <==> UserExists(users, adminId) && FindUser(users, adminId).value.isAdmin
    ensures r.Ok? ==> r.value.id == adminId
    ensures r.Err? ==> r.msg == (if UserExists(users, adminId) then NotAdmin else AdminNotFound)
  {
    match FindUser(users, adminId)
    case None => Err(AdminNotFound)
    case Some(admin) => if !admin.isAdmin then Err(NotAdmin) else Ok(admin)
  }

  // ---------------------------------------------------------------- the user's latest request

  function SubmittedAt(v: Verification): int { v.submittedAt }

  function LatestFirst(v: Verification): int { -v.submittedAt }

  predicate OwnedBy(userId: Id, v: Verification) { v.userId == userId }

  /** `findTopByUser_UserIdOrderBySubmittedAtDesc`, which `getUserVerificationStatus` answers:
    * the user's most recently submitted request, or nothing when there is none. */
  function Latest(vs: seq<Verification>, userId: Id): (r: Option<Verification>)
  {
    var mine := SortBy(Filter(vs, v => OwnedBy(userId, v)), LatestFirst);
    if mine == [] then None else Some(mine[0])
  }

  /** The latest request is one of the user's, submitted no earlier than any other of theirs, and
    * there is none exactly when the user has never submitted. */
  lemma LatestIsNewest(vs: seq<Verification>, userId: Id)
    ensures Latest(vs, userId).None? <==> forall i :: 0 <= i < |vs| ==> vs[i].userId != userId
    ensures Latest(vs, userId).Some? ==>
      var v := Latest(vs, userId).value;
      v in vs && v.userId == userId
      && forall i :: 0 <= i < |vs| && vs[i].userId == userId ==> vs[i].submittedAt <= v.submittedAt
  {
    var p := v => OwnedBy(userId, v);
    var mine := SortBy(Filter(vs, p), LatestFirst);
    forall i | 0 <= i < |vs| && vs[i].userId == userId ensures vs[i] in mine {
      SortedFilterMembers(vs, p, LatestFirst, vs[i]);
    }
    if mine != [] {
      SortedFilterMembers(vs, p, LatestFirst, mine[0]);
      forall i | 0 <= i < |vs| && vs[i].userId == userId ensures vs[i].submittedAt <= mine[0].submittedAt {
        var j :| 0 <= j < |mine| && mine[j] == vs[i];
        assert j == 0 || LatestFirst(mine[0]) <= LatestFirst(mine[j]);
      }
    }
  }

  // ---------------------------------------------------------------- submitVerification

  /** `existsByUser_UserIdAndStatus(userId, APPROVED)`. */
  predicate HasApproved(vs: seq<Verification>, userId: Id)
  {
    exists i :: 0 <= i < |vs| && vs[i].userId == userId && vs[i].status == VerificationStatus.APPROVED
  }

  /** The user's latest request is still waiting for review. */
  predicate LatestPending(vs: seq<Verification>, userId: Id)
  {
    Latest(vs, userId).Some? && Latest(vs, userId).value.status == VerificationStatus.PENDING
  }

  /** The checks of `submitVerification`, in the order they run: the user, an approved request,
    * a pending latest request, the upload (`uploadImage` with the client's answer), then the
    * document type. */
  function SubmitRefusal(users: seq<User>, vs: seq<Verification>, userId: Id, file: CloudinaryService.UploadFile,
                         client: Result<string>, documentType: string): (r: Option<string>)
    ensures r.None? <==>
      UserExists(users, userId) && !HasApproved(vs, userId) && !LatestPending(vs, userId)
      && CloudinaryService.UploadImage(file, client).Ok? && DocumentTypeOf(documentType).Some?
  {
    if !UserExists(users, userId) then Some(UserNotFound)
    else if HasApproved(vs, userId) then Some(AlreadyVerified)
    else if LatestPending(vs, userId) then Some(AlreadyPending)
    else if CloudinaryService.UploadImage(file, client).Err? then Some(CloudinaryService.UploadImage(file, client).msg)
    else if DocumentTypeOf(documentType).None? then Some(NoDocumentType(documentType))
    else None
  }

  /** The row `submitVerification` saves: PENDING, unreviewed, stamped by `@CreationTimestamp`. */
  function NewVerification(userId: Id, documentType: DocumentType, documentUrl: string, id: Id, now: Time): Verification
  {
    Verification(id, userId, documentType, documentUrl, VerificationStatus.PENDING, None, None, now, None)
  }

  /** The notice to the user, then one per admin in table order. */
  function SubmitNotices(users: seq<User>, v: Verification, name: string): seq<Draft>
  {
    [Draft(v.userId, SYSTEM, "Verification Submitted", SubmittedMessage,
           Some(v.id), Some("VERIFICATION"))]
    + AdminDrafts(users, "New Verification Request", "User " + name + SubmittedByUser,
                  Some(v.id), Some("VERIFICATION"))
  }

  /** The user is told first, every other notice goes to an admin, and all recipients have rows,
    * so none of the calls fails. */
  lemma SubmitNoticesGoThrough(users: seq<User>, v: Verification, name: string)
    requires UserExists(users, v.userId)
    ensures var ds := SubmitNotices(users, v, name);
      |ds| == 1 + Count(users, IsAdminRow) && ds[0].userId == v.userId && ds[0].kind == SYSTEM
      && (forall j :: 1 <= j < |ds| ==> ds[j].kind == ADMIN && exists k :: 0 <= k < |users| && users[k].isAdmin && users[k].id == ds[j].userId)
      && FirstMissing(users, ds).None?
  {
    OwnerThenAdmins(users, SubmitNotices(users, v, name)[0], "New Verification Request",
                    "User " + name + SubmittedByUser, Some(v.id), Some("VERIFICATION"));
  }

  /** Every admin is told of a submission. */
  lemma SubmitNoticesTellEveryAdmin(users: seq<User>, v: Verification, name: string)
    ensures var ds := SubmitNotices(users, v, name);
      forall k :: 0 <= k < |users| && users[k].isAdmin ==> exists j :: 1 <= j < |ds| && ds[j].userId == users[k].id
  {
    OwnerThenEveryAdmin(users, SubmitNotices(users, v, name)[0], "New Verification Request",
                        "User " + name + SubmittedByUser, Some(v.id), Some("VERIFICATION"));
  }

  /** A user cannot have two requests waiting: once a submission is saved, a second one is
    * refused as pending, provided the clock has moved on since the user's earlier submissions. */
  lemma SecondSubmissionRefused(users: seq<User>, vs: seq<Verification>, userId: Id, file: CloudinaryService.UploadFile,
                                client: Result<string>, documentType: string, id: Id, now: Time,
                                file2: CloudinaryService.UploadFile, client2: Result<string>, documentType2: string)
    requires SubmitRefusal(users, vs, userId, file, client, documentType).None?
    requires forall i :: 0 <= i < |vs| && vs[i].userId == userId ==> vs[i].submittedAt < now
    ensures var nv := NewVerification(userId, DocumentTypeOf(documentType).value,
                                      CloudinaryService.UploadImage(file, client).value, id, now);
      SubmitRefusal(users, vs + [nv], userId, file2, client2, documentType2) == Some(AlreadyPending)
  {
    var nv := NewVerification(userId, DocumentTypeOf(documentType).value,
                              CloudinaryService.UploadImage(file, client).value, id, now);
    var after := vs + [nv];
    assert !HasApproved(after, userId) by {
      forall i | 0 <= i < |after| && after[i].userId == userId
        ensures after[i].status != VerificationStatus.APPROVED
      {
        if i < |vs| {
          assert after[i] == vs[i];
        }
      }
    }
    LatestIsNewest(after, userId);
    assert after[|vs|] == nv;
    var latest := Latest(after, userId).value;
    assert latest == nv by {
      var k :| 0 <= k < |after| && after[k] == latest;
      assert forall m :: 0 <= m < |vs| ==> after[m] == vs[m];
      assert now <= latest.submittedAt;
    }
  }

  /** The tables verifications touch. */
  ghost predicate VerificationTablesValid(db: Db)
    reads db
  {
    db.WorkflowsValid() && db.NotificationsValid()
  }

  /** `verificationRepository.save` of a new row. */
  method AppendVerification(db: Db, v: Verification)
    requires VerificationTablesValid(db) && v.id == db.nextVerificationId
    modifies db`verifications, db`nextVerificationId
    ensures VerificationTablesValid(db)
    ensures db.verifications == old(db.verifications) + [v] && db.nextVerificationId == old(db.nextVerificationId) + 1
  {
    db.verifications := db.verifications + [v];
    db.nextVerificationId := db.nextVerificationId + 1;
  }

  /** `submitVerification`, one transaction: after the checks a PENDING request is saved with the
    * uploaded document's URL, and the user and every admin are notified. `client` is what the
    * Cloudinary upload call answers. */
  method SubmitVerification(db: Db, userId: Id, file: CloudinaryService.UploadFile, client: Result<string>,
                            documentType: string, now: Time) returns (r: Result<Verification>)
    requires VerificationTablesValid(db)
    modifies db`verifications, db`nextVerificationId, db`notifications, db`nextNotificationId, db`outbox
    ensures VerificationTablesValid(db)
    ensures var refusal := SubmitRefusal(old(db.users), old(db.verifications), userId, file, client, documentType);
      refusal.Some? ==>
        r == Err(refusal.value) && db.verifications == old(db.verifications)
        && db.nextVerificationId == old(db.nextVerificationId)
        && db.notifications == old(db.notifications) && db.outbox == old(db.outbox)
        && db.nextNotificationId == old(db.nextNotificationId)
    ensures var refusal := SubmitRefusal(old(db.users), old(db.verifications), userId, file, client, documentType);
      refusal.None? ==>
        r == Ok(NewVerification(userId, DocumentTypeOf(documentType).value, CloudinaryService.UploadImage(file, client).value,
                                old(db.nextVerificationId), now))
        && db.verifications == old(db.verifications) + [r.value]
        && db.nextVerificationId == old(db.nextVerificationId) + 1
        && var ds := SubmitNotices(db.users, r.value, FindUser(db.users, userId).value.name);
        db.notifications == old(db.notifications) + Saved(ds, |ds|, old(db.nextNotificationId), now)
        && db.nextNotificationId == old(db.nextNotificationId) + |ds|
        && db.outbox == old(db.outbox) + Pushed(db.brokerUp, ds, |ds|, old(db.nextNotificationId), now)
  {
    var refusal := SubmitRefusal(db.users, db.verifications, userId, file, client, documentType);
    if refusal.Some? {
      return Err(refusal.value);
    }
    var v := NewVerification(userId, DocumentTypeOf(documentType).value, CloudinaryService.UploadImage(file, client).value,
                             db.nextVerificationId, now);
    SaveSubmission(db, v, FindUser(db.users, userId).value.name, now);
    r := Ok(v);
  }

  /** The saving half of `submitVerification`: the row, then the notices. */
  method SaveSubmission(db: Db, v: Verification, name: string, now: Time)
    requires VerificationTablesValid(db) && v.id == db.nextVerificationId && UserExists(db.users, v.userId)
    modifies db`verifications, db`nextVerificationId, db`notifications, db`nextNotificationId, db`outbox
    ensures VerificationTablesValid(db)
    ensures db.verifications == old(db.verifications) + [v] && db.nextVerificationId == old(db.nextVerificationId) + 1
    ensures var ds := SubmitNotices(db.users, v, name);
      db.notifications == old(db.notifications) + Saved(ds, |ds|, old(db.nextNotificationId), now)
      && db.nextNotificationId == old(db.nextNotificationId) + |ds|
      && db.outbox == old(db.outbox) + Pushed(db.brokerUp, ds, |ds|, old(db.nextNotificationId), now)
  {
    AppendVerification(db, v);
    var ds := SubmitNotices(db.users, v, name);
    SubmitNoticesGoThrough(db.users, v, name);
    var sent := NotifyEach(db, ds, now);
    assert sent.Ok?;
  }

  // ---------------------------------------------------------------- getPendingVerifications

  /** `getPendingVerifications`: for an admin, the PENDING requests, oldest submission first. */
  function PendingVerifications(users: seq<User>, vs: seq<Verification>, adminId: Id): (r: Result<seq<Verification>>)
    ensures r.Ok? <==> VerifyAdmin(users, adminId).Ok?
    ensures r.Ok? ==> SortedBy(r.value, SubmittedAt)
  {
    match VerifyAdmin(users, adminId)
    case Err(m) => Err(m)
    case Ok(_) => Ok(SortBy(Filter(vs, (v: Verification) => v.status == VerificationStatus.PENDING), SubmittedAt))
  }

  /** The listing holds exactly the pending requests. */
  lemma PendingListingMembers(users: seq<User>, vs: seq<Verification>, adminId: Id, v: Verification)
    requires VerifyAdmin(users, adminId).Ok?
    ensures v in PendingVerifications(users, vs, adminId).value <==> v in vs && v.status == VerificationStatus.PENDING
  {
    SortedFilterMembers(vs, (w: Verification) => w.status == VerificationStatus.PENDING, SubmittedAt, v);
  }

  // ---------------------------------------------------------------- approve and reject

  /** The checks approval and rejection share, in the order they run: the admin, the request, a
    * PENDING status. */
  function ReviewRefusal(users: seq<User>, vs: seq<Verification>, verificationId: Id, adminId: Id, approve: bool)
    : (r: Option<string>)
    ensures r.None? <==>
      VerifyAdmin(users, adminId).Ok? && VerificationIndex(vs, verificationId).Some?
      && vs[VerificationIndex(vs, verificationId).value].status == VerificationStatus.PENDING
  {
    match VerifyAdmin(users, adminId)
    case Err(m) => Some(m)
    case Ok(_) =>
      match VerificationIndex(vs, verificationId)
      case None => Some(VerificationNotFound)
      case Some(i) =>
        if vs[i].status != VerificationStatus.PENDING then Some(if approve then OnlyPendingApproved else OnlyPendingRejected)
        else None
  }

  /** The request after review: approved or rejected by the admin at `now`; a rejection without
    * notes records the default note. */
  function Reviewed(v: Verification, adminId: Id, approve: bool, notes: Option<string>, now: Time): Verification
  {
    if approve then
      v.(status := VerificationStatus.APPROVED, reviewedAt := Some(now), reviewedBy := Some(adminId), adminNotes := notes)
    else
      v.(status := VerificationStatus.REJECTED, reviewedAt := Some(now), reviewedBy := Some(adminId),
         adminNotes := Some(if notes.Some? then notes.value else DefaultRejectionNote))
  }

  /** What the owner is told. */
  function ReviewNotice(v: Verification, approve: bool, notes: Option<string>): Draft
  {
    if approve then
      Draft(v.userId, SYSTEM, "Account Verified!",
            VerifiedMessage,
            Some(v.id), Some("VERIFICATION"))
    else
      Draft(v.userId, SYSTEM, "Verification Rejected",
            RejectedMessage
            + (if notes.Some? then "Reason: " + notes.value else ClearerDocument),
            Some(v.id), Some("VERIFICATION"))
  }

  /** A reviewed request is closed: it keeps its id, owner and document, records who reviewed it
    * and when, leaves the pending listing, and a second review of it is refused. A rejection
    * always carries a note. */
  lemma ReviewedOnce(users: seq<User>, vs: seq<Verification>, verificationId: Id, adminId: Id, approve: bool,
                     notes: Option<string>, now: Time, again: bool)
    requires ReviewRefusal(users, vs, verificationId, adminId, approve).None?
    ensures var i := VerificationIndex(vs, verificationId).value;
      var w := Reviewed(vs[i], adminId, approve, notes, now);
      var after := vs[i := w];
      w.id == vs[i].id && w.userId == vs[i].userId && w.documentUrl == vs[i].documentUrl
      && w.submittedAt == vs[i].submittedAt && w.reviewedBy == Some(adminId) && w.reviewedAt == Some(now)
      && (approve ==> w.status == VerificationStatus.APPROVED && w.adminNotes == notes)
      && (!approve ==> w.status == VerificationStatus.REJECTED && w.adminNotes.Some?)
      && w !in PendingVerifications(users, after, adminId).value
      && ReviewRefusal(users, after, verificationId, adminId, again)
         == Some(if again then OnlyPendingApproved else OnlyPendingRejected)
  {
    var i := VerificationIndex(vs, verificationId).value;
    var w := Reviewed(vs[i], adminId, approve, notes, now);
    IndexWhereAfterSave(vs, i, w, (v: Verification) => v.id == verificationId);
    PendingListingMembers(users, vs[i := w], adminId, w);
  }

  /** Approval gives the owner the verified badge and closes submission: once the owner's row is
    * saved verified and the request approved, a new submission by the owner is refused as
    * already verified. */
  lemma ApprovalClosesSubmission(users: seq<User>, vs: seq<Verification>, verificationId: Id, adminId: Id,
                                 notes: Option<string>, now: Time, file: CloudinaryService.UploadFile,
                                 client: Result<string>, documentType: string)
    requires ReviewRefusal(users, vs, verificationId, adminId, true).None?
    requires UserExists(users, vs[VerificationIndex(vs, verificationId).value].userId)
    ensures var i := VerificationIndex(vs, verificationId).value;
      var owner := vs[i].userId;
      var j := UserIndex(users, owner).value;
      var usersAfter := users[j := users[j].(isVerified := true)];
      var after := vs[i := Reviewed(vs[i], adminId, true, notes, now)];
      UserExists(usersAfter, owner) && FindUser(usersAfter, owner).value.isVerified
      && SubmitRefusal(usersAfter, after, owner, file, client, documentType) == Some(AlreadyVerified)
  {
    var i := VerificationIndex(vs, verificationId).value;
    var owner := vs[i].userId;
    var j := UserIndex(users, owner).value;
    var usersAfter := users[j := users[j].(isVerified := true)];
    var after := vs[i := Reviewed(vs[i], adminId, true, notes, now)];
    UserIndexAfterSave(users, j, users[j].(isVerified := true), owner);
    assert after[i].userId == owner && after[i].status == VerificationStatus.APPROVED;
  }

  method SaveVerificationAt(db: Db, i: nat, v: Verification)
    requires VerificationTablesValid(db) && i < |db.verifications| && v.id == db.verifications[i].id
    modifies db`verifications
    ensures VerificationTablesValid(db)
    ensures db.verifications == old(db.verifications)[i := v]
  {
    db.verifications := db.verifications[i := v];
  }

  /** `userRepository.save` of the owner with the verified flag set. */
  method MarkVerified(db: Db, j: nat)
    requires db.UsersValid() && j < |db.users|
    modifies db`users
    ensures db.UsersValid()
    ensures db.users == old(db.users)[j := old(db.users)[j].(isVerified := true)]
  {
    db.users := db.users[j := db.users[j].(isVerified := true)];
  }

  /** `approveVerification`, one transaction: the request is approved, its owner marked verified
    * and told. An owner whose row is gone fails the call when the flag is set. */
  method ApproveVerification(db: Db, verificationId: Id, adminId: Id, notes: Option<string>, now: Time)
    returns (r: Result<Verification>)
    requires db.UsersValid() && VerificationTablesValid(db)
    modifies db`users, db`verifications, db`notifications, db`nextNotificationId, db`outbox
    ensures db.UsersValid() && VerificationTablesValid(db)
    ensures var refusal := ReviewRefusal(old(db.users), old(db.verifications), verificationId, adminId, true);
      refusal.Some? ==>
        r == Err(refusal.value) && db.users == old(db.users) && db.verifications == old(db.verifications)
        && db.notifications == old(db.notifications) && db.outbox == old(db.outbox)
        && db.nextNotificationId == old(db.nextNotificationId)
    ensures var refusal := ReviewRefusal(old(db.users), old(db.verifications), verificationId, adminId, true);
      refusal.None? ==>
        var i := VerificationIndex(old(db.verifications), verificationId).value;
        var owner := old(db.verifications)[i].userId;
        (!UserExists(old(db.users), owner) ==>
           r == Err(UserRowGone(owner)) && db.users == old(db.users) && db.verifications == old(db.verifications)
           && db.notifications == old(db.notifications) && db.outbox == old(db.outbox)
           && db.nextNotificationId == old(db.nextNotificationId))
        && (UserExists(old(db.users), owner) ==>
              var j := UserIndex(old(db.users), owner).value;
              r == Ok(Reviewed(old(db.verifications)[i], adminId, true, notes, now))
              && db.verifications == old(db.verifications)[i := r.value]
              && db.users == old(db.users)[j := old(db.users)[j].(isVerified := true)]
              && db.notifications == old(db.notifications)
                   + [Stored(ReviewNotice(old(db.verifications)[i], true, notes), old(db.nextNotificationId), now)]
              && db.nextNotificationId == old(db.nextNotificationId) + 1
              && db.outbox == old(db.outbox)
                   + Deliver(db.brokerUp, Stored(ReviewNotice(old(db.verifications)[i], true, notes), old(db.nextNotificationId), now)))
  {
    var refusal := ReviewRefusal(db.users, db.verifications, verificationId, adminId, true);
    if refusal.Some? {
      return Err(refusal.value);
    }
    var i := VerificationIndex(db.verifications, verificationId).value;
    var v := db.verifications[i];
    var j := UserIndex(db.users, v.userId);
    if j.None? {
      return Err(UserRowGone(v.userId));
    }
    ApproveAt(db, i, j.value, adminId, notes, now);
    r := Ok(Reviewed(v, adminId, true, notes, now));
  }

  /** The saving half of `approveVerification`: the owner's flag, the request, the notice. */
  method ApproveAt(db: Db, i: nat, j: nat, adminId: Id, notes: Option<string>, now: Time)
    requires db.UsersValid() && VerificationTablesValid(db)
    requires i < |db.verifications| && UserIndex(db.users, db.verifications[i].userId) == Some(j)
    modifies db`users, db`verifications, db`notifications, db`nextNotificationId, db`outbox
    ensures db.UsersValid() && VerificationTablesValid(db)
    ensures db.verifications == old(db.verifications)[i := Reviewed(old(db.verifications)[i], adminId, true, notes, now)]
    ensures db.users == old(db.users)[j := old(db.users)[j].(isVerified := true)]
    ensures db.notifications == old(db.notifications)
              + [Stored(ReviewNotice(old(db.verifications)[i], true, notes), old(db.nextNotificationId), now)]
    ensures db.nextNotificationId == old(db.nextNotificationId) + 1
    ensures db.outbox == old(db.outbox)
              + Deliver(db.brokerUp, Stored(ReviewNotice(old(db.verifications)[i], true, notes), old(db.nextNotificationId), now))
  {
    var v := db.verifications[i];
    MarkVerified(db, j);
    UserIndexAfterSave(old(db.users), j, db.users[j], v.userId);
    SaveAndNotify(db, i, Reviewed(v, adminId, true, notes, now), ReviewNotice(v, true, notes), now);
  }

  /** Saving a reviewed request, then telling its owner, who has a row. */
  method SaveAndNotify(db: Db, i: nat, w: Verification, d: Draft, now: Time)
    requires VerificationTablesValid(db) && i < |db.verifications| && w.id == db.verifications[i].id
    requires UserExists(db.users, d.userId)
    modifies db`verifications, db`notifications, db`nextNotificationId, db`outbox
    ensures VerificationTablesValid(db)
    ensures db.verifications == old(db.verifications)[i := w]
    ensures db.notifications == old(db.notifications) + [Stored(d, old(db.nextNotificationId), now)]
    ensures db.nextNotificationId == old(db.nextNotificationId) + 1
    ensures db.outbox == old(db.outbox) + Deliver(db.brokerUp, Stored(d, old(db.nextNotificationId), now))
  {
    SaveVerificationAt(db, i, w);
    var sent := CreateNotification(db, d, now);
  }

  /** `rejectVerification`, one transaction: the request is rejected and its owner told; the
    * owner's row is not touched. An owner whose row is gone makes the notification fail, which
    * rolls the rejection back. */
  method RejectVerification(db: Db, verificationId: Id, adminId: Id, notes: Option<string>, now: Time)
    returns (r: Result<Verification>)
    requires VerificationTablesValid(db)
    modifies db`verifications, db`notifications, db`nextNotificationId, db`outbox
    ensures VerificationTablesValid(db)
    ensures var refusal := ReviewRefusal(old(db.users), old(db.verifications), verificationId, adminId, false);
      refusal.Some? ==>
        r == Err(refusal.value) && db.verifications == old(db.verifications)
        && db.notifications == old(db.notifications) && db.outbox == old(db.outbox)
        && db.nextNotificationId == old(db.nextNotificationId)
    ensures var refusal := ReviewRefusal(old(db.users), old(db.verifications), verificationId, adminId, false);
      refusal.None? ==>
        var i := VerificationIndex(old(db.verifications), verificationId).value;
        var owner := old(db.verifications)[i].userId;
        (!UserExists(old(db.users), owner) ==>
           r == Err(UserNotFound) && db.verifications == old(db.verifications)
           && db.notifications == old(db.notifications) && db.outbox == old(db.outbox)
           && db.nextNotificationId == old(db.nextNotificationId))
        && (UserExists(old(db.users), owner) ==>
              r == Ok(Reviewed(old(db.verifications)[i], adminId, false, notes, now))
              && db.verifications == old(db.verifications)[i := r.value]
              && db.notifications == old(db.notifications)
                   + [Stored(ReviewNotice(old(db.verifications)[i], false, notes), old(db.nextNotificationId), now)]
              && db.nextNotificationId == old(db.nextNotificationId) + 1
              && db.outbox == old(db.outbox)
                   + Deliver(db.brokerUp, Stored(ReviewNotice(old(db.verifications)[i], false, notes), old(db.nextNotificationId), now)))
  {
    var refusal := ReviewRefusal(db.users, db.verifications, verificationId, adminId, false);
    if refusal.Some? {
      return Err(refusal.value);
    }
    var i := VerificationIndex(db.verifications, verificationId).value;
    var v := db.verifications[i];
    if !UserExists(db.users, v.userId) {
      return Err(UserNotFound);
    }
    var w := Reviewed(v, adminId, false, notes, now);
    SaveAndNotify(db, i, w, ReviewNotice(v, false, notes), now);
    r := Ok(w);
  }
}
