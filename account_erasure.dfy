/** The rows `deleteUserAccount` deletes, stated on values: which rows of which tables refer to a
  * user, the tables once they are gone, and why each table's invariants survive. */
module AccountErasure {

  import opened Wrappers
  import opened Seqs
  import opened Entities
  import opened Store

  // What each step of the erasure keeps: the rows that do not refer to the user.

  function MatchKept(userId: Id): Match -> bool { (m: Match) => m.user1 != userId && m.user2 != userId }
  function MessageKept(userId: Id): Message -> bool { (m: Message) => m.senderId != userId }
  function ParticipantKept(userId: Id): Participant -> bool { (p: Participant) => p.userId != userId }
  function ActivityKept(userId: Id): Activity -> bool { (a: Activity) => a.creatorId != userId }
  function RatingGivenKept(userId: Id): Rating -> bool { (x: Rating) => x.fromUser != userId }
  function RatingReceivedKept(userId: Id): Rating -> bool { (x: Rating) => x.toUser != userId }
  function RatingKept(userId: Id): Rating -> bool { (x: Rating) => x.fromUser != userId && x.toUser != userId }
  function NotificationKept(userId: Id): Notification -> bool { (n: Notification) => n.userId != userId }
  function VerificationKept(userId: Id): Verification -> bool { (v: Verification) => v.userId != userId }
  function RefundKept(userId: Id): Refund -> bool { (x: Refund) => x.userId != userId }
  function ReferrerKept(userId: Id): Referral -> bool { (x: Referral) => x.referrerId != userId }
  function ReferredKept(userId: Id): Referral -> bool { (x: Referral) => x.referredId != Some(userId) }
  function ReferralKept(userId: Id): Referral -> bool { (x: Referral) => x.referrerId != userId && x.referredId != Some(userId) }
  function LikeKept(userId: Id): Like -> bool { (l: Like) => l.fromUser != userId && l.toUser != userId }
  function ProfileKept(userId: Id): Profile -> bool { (p: Profile) => p.userId != userId }
  function UserKept(userId: Id): User -> bool { (u: User) => u.id != userId }

  /** The tables `deleteUserAccount` erases from, as values. */
  datatype Tables = Tables(
    users: seq<User>,
    profiles: seq<Profile>,
    matches: seq<Match>,
    messages: seq<Message>,
    participants: seq<Participant>,
    activities: seq<Activity>,
    ratings: seq<Rating>,
    notifications: seq<Notification>,
    verifications: seq<Verification>,
    refunds: seq<Refund>,
    referrals: seq<Referral>,
    likes: seq<Like>)

  function AccountTables(db: Db): Tables
    reads db`users, db`profiles, db`matches, db`messages, db`participants, db`activities
    reads db`ratings, db`notifications, db`verifications, db`refunds, db`referrals, db`likes
  {
    Tables(db.users, db.profiles, db.matches, db.messages, db.participants, db.activities,
      db.ratings, db.notifications, db.verifications, db.refunds, db.referrals, db.likes)
  }

  /** No row of the tables refers to the user. Chat memberships, group messages, reports and
    * support requests are not among the tables. */
  predicate Erased(t: Tables, userId: Id)
  {
    match t
    case Tables(users, profiles, matches, messages, participants, activities,
      ratings, notifications, verifications, refunds, referrals, likes) =>
      All(users, UserKept(userId)) && All(profiles, ProfileKept(userId))
      && All(matches, MatchKept(userId)) && All(messages, MessageKept(userId))
      && All(participants, ParticipantKept(userId)) && All(activities, ActivityKept(userId))
      && All(ratings, RatingKept(userId)) && All(notifications, NotificationKept(userId))
      && All(verifications, VerificationKept(userId)) && All(refunds, RefundKept(userId))
      && All(referrals, ReferralKept(userId)) && All(likes, LikeKept(userId))
  }

  /** Steps 1 to 13 of `deleteUserAccount` on values: every table keeps, in order, exactly the rows
    * that do not refer to the user. */
  function EraseUser(t: Tables, userId: Id): (r: Tables)
    ensures Erased(r, userId)
  {
    Tables(
      Filter(t.users, UserKept(userId)),
      Filter(t.profiles, ProfileKept(userId)),
      Filter(t.matches, MatchKept(userId)),
      Filter(t.messages, MessageKept(userId)),
      Filter(t.participants, ParticipantKept(userId)),
      Filter(t.activities, ActivityKept(userId)),
      Filter(t.ratings, RatingKept(userId)),
      Filter(t.notifications, NotificationKept(userId)),
      Filter(t.verifications, VerificationKept(userId)),
      Filter(t.refunds, RefundKept(userId)),
      Filter(t.referrals, ReferralKept(userId)),
      Filter(t.likes, LikeKept(userId)))
  }

  // One lemma per erased table: the rows kept keep the table's invariants and none refers to the user.

  lemma MatchesErased(s: seq<Match>, next: Id, userId: Id)
    requires MatchIdsBelow(s, next) && UniquePairs(s)
    ensures var r := Filter(s, MatchKept(userId));
      MatchIdsBelow(r, next) && UniquePairs(r)
      && forall i :: 0 <= i < |r| ==> r[i].user1 != userId && r[i].user2 != userId
  {
    var ok := (a: Match, b: Match) => !SamePair(b, a.user1, a.user2);
    assert Pairwise(s, ok);
    FilterPairwise(s, MatchKept(userId), ok);
  }

  lemma MessagesErased(s: seq<Message>, next: Id, userId: Id)
    requires MessageIdsBelow(s, next)
    ensures var r := Filter(s, MessageKept(userId));
      MessageIdsBelow(r, next) && forall i :: 0 <= i < |r| ==> r[i].senderId != userId
  {
  }

  lemma ParticipantsErased(s: seq<Participant>, next: Id, activityNext: Id, userId: Id)
    requires ParticipantIdsBelow(s, next) && UniqueParticipation(s)
    requires forall i :: 0 <= i < |s| ==> s[i].activityId < activityNext
    ensures var r := Filter(s, ParticipantKept(userId));
      ParticipantIdsBelow(r, next) && UniqueParticipation(r)
      && (forall i :: 0 <= i < |r| ==> r[i].activityId < activityNext)
      && forall i :: 0 <= i < |r| ==> r[i].userId != userId
  {
    var ok := (a: Participant, b: Participant) => !(a.activityId == b.activityId && a.userId == b.userId);
    assert Pairwise(s, ok);
    FilterPairwise(s, ParticipantKept(userId), ok);
  }

  lemma ActivitiesErased(s: seq<Activity>, next: Id, userId: Id)
    requires ActivityIdsBelow(s, next)
    ensures var r := Filter(s, ActivityKept(userId));
      ActivityIdsBelow(r, next) && forall i :: 0 <= i < |r| ==> r[i].creatorId != userId
  {
  }

  lemma RatingsErased(s: seq<Rating>, next: Id, userId: Id)
    requires RatingIdsBelow(s, next)
    ensures Filter(Filter(s, RatingGivenKept(userId)), RatingReceivedKept(userId)) == Filter(s, RatingKept(userId))
    ensures var r := Filter(s, RatingKept(userId));
      RatingIdsBelow(r, next) && forall i :: 0 <= i < |r| ==> r[i].fromUser != userId && r[i].toUser != userId
  {
    FilterTwice(s, RatingGivenKept(userId), RatingReceivedKept(userId), RatingKept(userId));
  }

  lemma NotificationsErased(s: seq<Notification>, next: Id, userId: Id)
    requires NotificationIdsBelow(s, next)
    ensures var r := Filter(s, NotificationKept(userId));
      NotificationIdsBelow(r, next) && forall i :: 0 <= i < |r| ==> r[i].userId != userId
  {
  }

  lemma VerificationsErased(s: seq<Verification>, next: Id, userId: Id)
    requires VerificationIdsBelow(s, next)
    ensures var r := Filter(s, VerificationKept(userId));
      VerificationIdsBelow(r, next) && forall i :: 0 <= i < |r| ==> r[i].userId != userId
  {
  }

  lemma RefundsErased(s: seq<Refund>, next: Id, userId: Id)
    requires RefundIdsBelow(s, next)
    ensures var r := Filter(s, RefundKept(userId));
      RefundIdsBelow(r, next) && forall i :: 0 <= i < |r| ==> r[i].userId != userId
  {
  }

  lemma ReferralsErased(s: seq<Referral>, next: Id, userId: Id)
    requires ReferralIdsBelow(s, next)
    ensures Filter(Filter(s, ReferrerKept(userId)), ReferredKept(userId)) == Filter(s, ReferralKept(userId))
    ensures var r := Filter(s, ReferralKept(userId));
      ReferralIdsBelow(r, next)
      && forall i :: 0 <= i < |r| ==> r[i].referrerId != userId && r[i].referredId != Some(userId)
  {
    FilterTwice(s, ReferrerKept(userId), ReferredKept(userId), ReferralKept(userId));
  }

  lemma LikesErased(s: seq<Like>, next: Id, userId: Id)
    requires LikeIdsBelow(s, next)
    ensures var r := Filter(s, LikeKept(userId));
      LikeIdsBelow(r, next) && forall i :: 0 <= i < |r| ==> r[i].fromUser != userId && r[i].toUser != userId
  {
  }

  lemma ProfilesErased(s: seq<Profile>, next: Id, userId: Id)
    requires ProfileIdsBelow(s, next) && UniqueProfiles(s)
    ensures var r := Filter(s, ProfileKept(userId));
      ProfileIdsBelow(r, next) && UniqueProfiles(r) && forall i :: 0 <= i < |r| ==> r[i].userId != userId
  {
    var ok := (a: Profile, b: Profile) => a.userId != b.userId;
    assert Pairwise(s, ok);
    FilterPairwise(s, ProfileKept(userId), ok);
  }

  lemma UsersErased(s: seq<User>, next: Id, userId: Id)
    requires UserIdsBelow(s, next)
    ensures var r := Filter(s, UserKept(userId));
      UserIdsBelow(r, next) && forall i :: 0 <= i < |r| ==> r[i].id != userId
  {
  }

  /** Erasing the same user twice deletes nothing more. */
  lemma EraseUserIdempotent(t: Tables, userId: Id)
    ensures EraseUser(EraseUser(t, userId), userId) == EraseUser(t, userId)
  {
    var r := EraseUser(t, userId);
    FilterAll(r.users, UserKept(userId));
    FilterAll(r.profiles, ProfileKept(userId));
    FilterAll(r.matches, MatchKept(userId));
    FilterAll(r.messages, MessageKept(userId));
    FilterAll(r.participants, ParticipantKept(userId));
    FilterAll(r.activities, ActivityKept(userId));
    FilterAll(r.ratings, RatingKept(userId));
    FilterAll(r.notifications, NotificationKept(userId));
    FilterAll(r.verifications, VerificationKept(userId));
    FilterAll(r.refunds, RefundKept(userId));
    FilterAll(r.referrals, ReferralKept(userId));
    FilterAll(r.likes, LikeKept(userId));
  }
}
