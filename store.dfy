/** The database behind the JPA repositories: one table per repository, each a sequence of rows in
  * insertion order (which is also id order), with the next value of its IDENTITY column. The
  * WebSocket broker is represented by the messages handed to it (`outbox`) and whether it accepts
  * them (`brokerUp`). */
module Store {

  import opened Wrappers
  import opened Entities
  import opened Seqs
  import opened JavaText

  class Db {
    var users: seq<User>
    var nextUserId: Id
    var profiles: seq<Profile>
    var nextProfileId: Id
    var activities: seq<Activity>
    var nextActivityId: Id
    var participants: seq<Participant>
    var nextParticipantId: Id
    var rooms: seq<ChatRoom>
    var nextRoomId: Id
    var members: seq<RoomMember>
    var nextMemberId: Id
    var groupMessages: seq<GroupMessage>
    var nextGroupMessageId: Id
    var likes: seq<Like>
    var nextLikeId: Id
    var matches: seq<Match>
    var nextMatchId: Id
    var messages: seq<Message>
    var nextMessageId: Id
    var notifications: seq<Notification>
    var nextNotificationId: Id
    var refunds: seq<Refund>
    var nextRefundId: Id
    var verifications: seq<Verification>
    var nextVerificationId: Id
    var referrals: seq<Referral>
    var nextReferralId: Id
    var reports: seq<Report>
    var nextReportId: Id
    var reportMessages: seq<ReportMessage>
    var nextReportMessageId: Id
    var supportRequests: seq<SupportRequest>
    var nextSupportRequestId: Id
    var ratings: seq<Rating>
    var nextRatingId: Id

    var outbox: seq<Push>
    var brokerUp: bool

    // Each table keeps its ids below the next IDENTITY value, so a new row's id is fresh. The
    // invariants are split by table so that an operation states only those of the tables it uses.

    /** Besides fresh ids: at most one profile per user. */
    ghost predicate UsersValid()
      reads this`users, this`nextUserId, this`profiles, this`nextProfileId
    {
      UserIdsBelow(users, nextUserId) && ProfileIdsBelow(profiles, nextProfileId) && UniqueProfiles(profiles)
    }

    /** Besides fresh ids: no room, membership or group message refers to a room or activity id not
      * yet handed out, and a user holds at most one membership per room. */
    ghost predicate ChatValid()
      reads this`rooms, this`nextRoomId, this`members, this`nextMemberId, this`groupMessages,
        this`nextGroupMessageId, this`nextActivityId
    {
      ChatRoomIdsBelow(rooms, nextRoomId)
      && (forall i :: 0 <= i < |rooms| ==> rooms[i].activityId < nextActivityId)
      && RoomMemberIdsBelow(members, nextMemberId)
      && (forall i :: 0 <= i < |members| ==> members[i].roomId < nextRoomId)
      && UniqueMemberships(members)
      && GroupMessageIdsBelow(groupMessages, nextGroupMessageId)
      && (forall i :: 0 <= i < |groupMessages| ==> groupMessages[i].roomId < nextRoomId)
    }

    /** Besides fresh ids: participants refer to handed-out activity ids, at most once per user. */
    ghost predicate ActivitiesValid()
      reads this`activities, this`nextActivityId, this`participants, this`nextParticipantId
    {
      ActivityIdsBelow(activities, nextActivityId)
      && ParticipantIdsBelow(participants, nextParticipantId)
      && (forall i :: 0 <= i < |participants| ==> participants[i].activityId < nextActivityId)
      && UniqueParticipation(participants)
    }

    /** Besides fresh ids: at most one match per unordered pair of users. */
    ghost predicate MatchingValid()
      reads this`likes, this`nextLikeId, this`matches, this`nextMatchId, this`messages, this`nextMessageId
    {
      LikeIdsBelow(likes, nextLikeId) && MatchIdsBelow(matches, nextMatchId)
      && MessageIdsBelow(messages, nextMessageId) && UniquePairs(matches)
    }

    ghost predicate NotificationsValid()
      reads this`notifications, this`nextNotificationId
    {
      NotificationIdsBelow(notifications, nextNotificationId)
    }

    ghost predicate WorkflowsValid()
      reads this`refunds, this`nextRefundId, this`verifications, this`nextVerificationId,
        this`referrals, this`nextReferralId, this`reports, this`nextReportId, this`reportMessages,
        this`nextReportMessageId, this`supportRequests, this`nextSupportRequestId, this`ratings,
        this`nextRatingId
    {
      RefundIdsBelow(refunds, nextRefundId) && VerificationIdsBelow(verifications, nextVerificationId)
      && ReferralIdsBelow(referrals, nextReferralId) && ReportIdsBelow(reports, nextReportId)
      && ReportMessageIdsBelow(reportMessages, nextReportMessageId)
      && SupportRequestIdsBelow(supportRequests, nextSupportRequestId)
      && RatingIdsBelow(ratings, nextRatingId)
    }

    /** The invariants of every table a user's rows live in. */
    ghost predicate AccountsValid()
      reads this
    {
      UsersValid() && ActivitiesValid() && MatchingValid() && NotificationsValid() && WorkflowsValid()
    }

    /** An empty database whose IDENTITY columns start at 1. */
    constructor (brokerUp: bool)
      ensures UsersValid() && ChatValid() && ActivitiesValid() && MatchingValid()
      ensures NotificationsValid() && WorkflowsValid()
      ensures users == [] && profiles == [] && activities == [] && participants == []
      ensures rooms == [] && members == [] && groupMessages == [] && likes == [] && matches == []
      ensures messages == [] && notifications == [] && refunds == [] && verifications == []
      ensures referrals == [] && reports == [] && reportMessages == [] && supportRequests == []
      ensures ratings == [] && outbox == [] && this.brokerUp == brokerUp
    {
      users, profiles, activities, participants := [], [], [], [];
      rooms, members, groupMessages, likes, matches := [], [], [], [], [];
      messages, notifications, refunds, verifications := [], [], [], [];
      referrals, reports, reportMessages, supportRequests, ratings := [], [], [], [], [];
      nextUserId, nextProfileId, nextActivityId, nextParticipantId := 1, 1, 1, 1;
      nextRoomId, nextMemberId, nextGroupMessageId, nextLikeId, nextMatchId := 1, 1, 1, 1, 1;
      nextMessageId, nextNotificationId, nextRefundId, nextVerificationId := 1, 1, 1, 1;
      nextReferralId, nextReportId, nextReportMessageId, nextSupportRequestId, nextRatingId := 1, 1, 1, 1, 1;
      outbox := [];
      this.brokerUp := brokerUp;
    }
  }

  // The ids of a table are all below `next`.
  predicate UserIdsBelow(s: seq<User>, next: Id) { forall i :: 0 <= i < |s| ==> s[i].id < next }
  predicate ProfileIdsBelow(s: seq<Profile>, next: Id) { forall i :: 0 <= i < |s| ==> s[i].id < next }
  predicate ActivityIdsBelow(s: seq<Activity>, next: Id) { forall i :: 0 <= i < |s| ==> s[i].id < next }
  predicate ParticipantIdsBelow(s: seq<Participant>, next: Id) { forall i :: 0 <= i < |s| ==> s[i].id < next }
  predicate ChatRoomIdsBelow(s: seq<ChatRoom>, next: Id) { forall i :: 0 <= i < |s| ==> s[i].id < next }
  predicate RoomMemberIdsBelow(s: seq<RoomMember>, next: Id) { forall i :: 0 <= i < |s| ==> s[i].id < next }
  predicate GroupMessageIdsBelow(s: seq<GroupMessage>, next: Id) { forall i :: 0 <= i < |s| ==> s[i].id < next }
  predicate LikeIdsBelow(s: seq<Like>, next: Id) { forall i :: 0 <= i < |s| ==> s[i].id < next }
  predicate MatchIdsBelow(s: seq<Match>, next: Id) { forall i :: 0 <= i < |s| ==> s[i].id < next }
  predicate MessageIdsBelow(s: seq<Message>, next: Id) { forall i :: 0 <= i < |s| ==> s[i].id < next }
  predicate NotificationIdsBelow(s: seq<Notification>, next: Id) { forall i :: 0 <= i < |s| ==> s[i].id < next }
  predicate RefundIdsBelow(s: seq<Refund>, next: Id) { forall i :: 0 <= i < |s| ==> s[i].id < next }
  predicate VerificationIdsBelow(s: seq<Verification>, next: Id) { forall i :: 0 <= i < |s| ==> s[i].id < next }
  predicate ReferralIdsBelow(s: seq<Referral>, next: Id) { forall i :: 0 <= i < |s| ==> s[i].id < next }
  predicate ReportIdsBelow(s: seq<Report>, next: Id) { forall i :: 0 <= i < |s| ==> s[i].id < next }
  predicate ReportMessageIdsBelow(s: seq<ReportMessage>, next: Id) { forall i :: 0 <= i < |s| ==> s[i].id < next }
  predicate SupportRequestIdsBelow(s: seq<SupportRequest>, next: Id) { forall i :: 0 <= i < |s| ==> s[i].id < next }
  predicate RatingIdsBelow(s: seq<Rating>, next: Id) { forall i :: 0 <= i < |s| ==> s[i].id < next }

  /** `profiles.user_id` is declared unique: one profile per user. */
  predicate UniqueProfiles(profiles: seq<Profile>)
  {
    forall i, j :: 0 <= i < j < |profiles| ==> profiles[i].userId != profiles[j].userId
  }

  predicate UniqueMemberships(members: seq<RoomMember>)
  {
    forall i, j :: 0 <= i < j < |members| ==>
      !(members[i].roomId == members[j].roomId && members[i].userId == members[j].userId)
  }

  predicate UniqueParticipation(participants: seq<Participant>)
  {
    forall i, j :: 0 <= i < j < |participants| ==>
      !(participants[i].activityId == participants[j].activityId && participants[i].userId == participants[j].userId)
  }

  /** The two users of a match, in either order. */
  predicate SamePair(m: Match, a: Id, b: Id)
  {
    (m.user1 == a && m.user2 == b) || (m.user1 == b && m.user2 == a)
  }

  predicate UniquePairs(matches: seq<Match>)
  {
    forall i, j :: 0 <= i < j < |matches| ==> !SamePair(matches[j], matches[i].user1, matches[i].user2)
  }

  // ---------------------------------------------------------------- findById

  /** Position of the user row with that id. */
  function UserIndex(users: seq<User>, id: Id): (r: Option<nat>)
    ensures r.Some? ==> r.value < |users| && users[r.value].id == id
  {
    if users == [] then None
    else if users[0].id == id then Some(0)
    else match UserIndex(users[1..], id) case None => None case Some(k) => Some(k + 1)
  }

  /** `userRepository.findById`. */
  function FindUser(users: seq<User>, id: Id): (r: Option<User>)
    ensures r.Some? ==> r.value.id == id
  {
    match UserIndex(users, id) case None => None case Some(i) => Some(users[i])
  }

  predicate UserExists(users: seq<User>, id: Id)
  {
    UserIndex(users, id).Some?
  }

  /** Saving a changed user row under its own id leaves every `findById` where it was. */
  lemma {:induction false} UserIndexAfterSave(users: seq<User>, i: nat, u: User, id: Id)
    requires i < |users| && u.id == users[i].id
    ensures UserIndex(users[i := u], id) == UserIndex(users, id)
  {
    if i > 0 {
      assert users[i := u][1..] == users[1..][i - 1 := u];
      UserIndexAfterSave(users[1..], i - 1, u, id);
    }
  }

  /** Appending a row under a fresh id keeps every old `findById` and makes the new row findable. */
  lemma {:induction false} UserIndexAppendFresh(users: seq<User>, u: User, id: Id)
    requires forall i :: 0 <= i < |users| ==> users[i].id != u.id
    ensures UserIndex(users + [u], id) == if id == u.id then Some(|users|) else UserIndex(users, id)
  {
    if users != [] {
      assert (users + [u])[1..] == users[1..] + [u];
      UserIndexAppendFresh(users[1..], u, id);
    }
  }

  /** An absent id is absent from every row, and a present row is found. */
  lemma {:induction false} UserIndexComplete(users: seq<User>, id: Id)
    ensures UserIndex(users, id).None? <==> forall i :: 0 <= i < |users| ==> users[i].id != id
    ensures UserIndex(users, id).Some? ==> forall k :: 0 <= k < UserIndex(users, id).value ==> users[k].id != id
  {
    if users != [] {
      UserIndexComplete(users[1..], id);
    }
  }

  function ActivityIndex(activities: seq<Activity>, id: Id): Option<nat>
  {
    IndexWhere(activities, (a: Activity) => a.id == id)
  }

  function RoomIndex(rooms: seq<ChatRoom>, id: Id): Option<nat>
  {
    IndexWhere(rooms, (r: ChatRoom) => r.id == id)
  }

  function MatchIndex(matches: seq<Match>, id: Id): Option<nat>
  {
    IndexWhere(matches, (m: Match) => m.id == id)
  }

  function NotificationIndex(notifications: seq<Notification>, id: Id): Option<nat>
  {
    IndexWhere(notifications, (n: Notification) => n.id == id)
  }

  function RefundIndex(refunds: seq<Refund>, id: Id): Option<nat>
  {
    IndexWhere(refunds, (f: Refund) => f.id == id)
  }

  function VerificationIndex(verifications: seq<Verification>, id: Id): Option<nat>
  {
    IndexWhere(verifications, (v: Verification) => v.id == id)
  }

  function ReportIndex(reports: seq<Report>, id: Id): Option<nat>
  {
    IndexWhere(reports, (r: Report) => r.id == id)
  }

  function SupportRequestIndex(requests: seq<SupportRequest>, id: Id): Option<nat>
  {
    IndexWhere(requests, (q: SupportRequest) => q.id == id)
  }

  /** `userRepository.save` of a new row: it takes the next IDENTITY value, and every other
    * `findById` stays where it was. */
  method AppendUser(db: Db, u: User)
    requires db.UsersValid() && u.id == db.nextUserId
    modifies db`users, db`nextUserId
    ensures db.UsersValid()
    ensures db.users == old(db.users) + [u] && db.nextUserId == old(db.nextUserId) + 1
    ensures forall id :: UserIndex(db.users, id) == if id == u.id then Some(|old(db.users)|) else UserIndex(old(db.users), id)
  {
    forall id ensures UserIndex(db.users + [u], id) == if id == u.id then Some(|db.users|) else UserIndex(db.users, id) {
      UserIndexAppendFresh(db.users, u, id);
    }
    db.users := db.users + [u];
    db.nextUserId := db.nextUserId + 1;
  }

  /** The user's name, or `None` when the row is gone (the database's foreign keys are not modelled). */
  function NameOf(users: seq<User>, id: Id): Option<string>
  {
    match FindUser(users, id)
    case None => None
    case Some(u) => Some(u.name)
  }

  /** The message every service throws when a user id it was given has no row. */
  const UserNotFound := "User not found"

  const UserRowPrefix := "Unable to find com.example.buddyfinder_backend.entity.User with id "

  /** The message Hibernate throws when a lazy reference to a deleted user row is first read. */
  function UserRowGone(userId: Id): string
  {
    UserRowPrefix + NatToString(userId)
  }

  /** The constraint violation a save raises for a second row with a stored email: `users.email`
    * is a unique column. */
  const EmailNotUnique := "could not execute statement; unique constraint on users.email"

  /** No two user rows share an email, as the unique `email` column guarantees. */
  predicate UniqueEmails(users: seq<User>)
  {
    forall i, j :: 0 <= i < j < |users| ==> users[i].email != users[j].email
  }

  // ---------------------------------------------------------------- appends keep old lookups

  /** Appending a row that does not satisfy `p` leaves the first hit of `p` where it was. */
  lemma IndexWhereAppendOther<T>(s: seq<T>, x: T, p: T -> bool)
    requires !p(x)
    ensures IndexWhere(s + [x], p) == IndexWhere(s, p)
  {
    if s != [] {
      assert (s + [x])[1..] == s[1..] + [x];
      IndexWhereAppendOther(s[1..], x, p);
    }
  }

  /** Appending the first row that satisfies `p` makes it the hit. */
  lemma IndexWhereAppendFresh<T>(s: seq<T>, x: T, p: T -> bool)
    requires p(x) && forall i :: 0 <= i < |s| ==> !p(s[i])
    ensures IndexWhere(s + [x], p) == Some(|s|)
  {
    if s != [] {
      assert (s + [x])[1..] == s[1..] + [x];
      IndexWhereAppendFresh(s[1..], x, p);
    }
  }
}
