/** `MatchService`: likes and passes, the match a mutual like makes, and the list of a user's
  * matches. None of its operations is transactional: every save stands on its own. */
module MatchService {

  import opened Wrappers
  import opened Seqs
  import opened Entities
  import opened Store
  import NotificationService

  // ---------------------------------------------------------------- queries

  /** The Likes rows from one user to another, of any type (LIKE, SUPER_LIKE or PASS). */
  function LikesBetween(likes: seq<Like>, fromId: Id, toId: Id): seq<Like>
  {
    Filter(likes, (l: Like) => l.fromUser == fromId && l.toUser == toId)
  }

  /** `existsByFromUser_UserIdAndToUser_UserId`. */
  predicate HasLiked(likes: seq<Like>, fromId: Id, toId: Id)
  {
    LikesBetween(likes, fromId, toId) != []
  }

  /** The matches of a pair of users, in either order: what `findMatchBetweenUsers` selects. */
  function PairMatches(matches: seq<Match>, a: Id, b: Id): seq<Match>
  {
    Filter(matches, (m: Match) => SamePair(m, a, b))
  }

  /** A filter keeps at most one element when no two elements both satisfy its predicate. */
  lemma {:induction false} AtMostOneKept<T>(s: seq<T>, p: T -> bool)
    requires forall i, j :: 0 <= i < j < |s| && p(s[i]) ==> !p(s[j])
    ensures |Filter(s, p)| <= 1
  {
    if s != [] {
      var t := s[1..];
      if p(s[0]) {
        forall k | 0 <= k < |t| ensures !p(t[k]) {
          assert t[k] == s[k + 1];
        }
        FilterNone(t, p);
      } else {
        forall i, j | 0 <= i < j < |t| && p(t[i]) ensures !p(t[j]) {
          assert t[i] == s[i + 1] && t[j] == s[j + 1];
        }
        AtMostOneKept(t, p);
      }
    }
  }

  /** With one match per unordered pair, `findMatchBetweenUsers` never meets two rows. */
  lemma PairMatchesAtMostOne(matches: seq<Match>, a: Id, b: Id)
    requires UniquePairs(matches)
    ensures |PairMatches(matches, a, b)| <= 1
  {
    AtMostOneKept(matches, (m: Match) => SamePair(m, a, b));
  }

  // ---------------------------------------------------------------- createMatch

  /** `createMatch`: the match already recorded for the two users, in either order, or else a new
    * ACTIVE one. Either way the pair has exactly one match afterwards. */
  method CreateMatch(db: Db, user1: Id, user2: Id, now: Time) returns (m: Match)
    requires db.MatchingValid()
    modifies db`matches, db`nextMatchId
    ensures db.MatchingValid()
    ensures SamePair(m, user1, user2)
    ensures old(PairMatches(db.matches, user1, user2)) != [] ==>
      m == old(PairMatches(db.matches, user1, user2))[0]
      && db.matches == old(db.matches) && db.nextMatchId == old(db.nextMatchId)
    ensures old(PairMatches(db.matches, user1, user2)) == [] ==>
      m == Match(old(db.nextMatchId), user1, user2, ACTIVE, now, Some(now))
      && db.matches == old(db.matches) + [m] && db.nextMatchId == old(db.nextMatchId) + 1
    ensures PairMatches(db.matches, user1, user2) == [m]
  {
    PairMatchesAtMostOne(db.matches, user1, user2);
    var existing := Single(PairMatches(db.matches, user1, user2));
    if existing.Found? {
      return existing.value;
    }
    m := Match(db.nextMatchId, user1, user2, ACTIVE, now, Some(now));
    NewPairKeepsUnique(db.matches, m);
    FilterAppend(db.matches, [m], (x: Match) => SamePair(x, user1, user2));
    db.matches := db.matches + [m];
    db.nextMatchId := db.nextMatchId + 1;
  }

  /** A match for a pair that has none keeps one match per pair. */
  lemma NewPairKeepsUnique(matches: seq<Match>, m: Match)
    requires UniquePairs(matches) && PairMatches(matches, m.user1, m.user2) == []
    ensures UniquePairs(matches + [m])
  {
    var s := matches + [m];
    forall i, j | 0 <= i < j < |s| ensures !SamePair(s[j], s[i].user1, s[i].user2) {
      if j == |matches| {
        assert !SamePair(matches[i], m.user1, m.user2);
      }
    }
  }

  // ---------------------------------------------------------------- likeUser

  /** Why `likeUser` stops before saving anything, in the order of its checks: a row already sent
    * to that user (a PASS included), then the two user lookups. */
  function LikeRefusal(likes: seq<Like>, users: seq<User>, fromId: Id, toId: Id): Option<Result<string>>
  {
    if HasLiked(likes, fromId, toId) then Some(Ok("Already liked this user"))
    else if !UserExists(users, fromId) then Some(Err(UserNotFound))
    else if !UserExists(users, toId) then Some(Err("Target user not found"))
    else None
  }

  /** The two MATCH notifications of a match, each naming the other user. */
  function MatchNotices(users: seq<User>, matchId: Id, fromId: Id, toId: Id): seq<NotificationService.Draft>
  {
    [NotificationService.MatchDraft(fromId, matchId, NameOf(users, toId).UnwrapOr("")),
     NotificationService.MatchDraft(toId, matchId, NameOf(users, fromId).UnwrapOr(""))]
  }

  /** `likeUser`. After the LIKE row is saved, the reverse lookup finds any row from the target
    * back to the liker, whatever its type; several such rows make the `Optional` query fail, and
    * the saved LIKE stays, as nothing here is transactional. */
  method LikeUser(db: Db, fromId: Id, toId: Id, now: Time) returns (r: Result<string>)
    requires db.MatchingValid() && db.NotificationsValid()
    modifies db`likes, db`nextLikeId, db`matches, db`nextMatchId
    modifies db`notifications, db`nextNotificationId, db`outbox
    ensures db.MatchingValid() && db.NotificationsValid()
    ensures old(LikeRefusal(db.likes, db.users, fromId, toId)).Some? ==>
      r == old(LikeRefusal(db.likes, db.users, fromId, toId)).value
      && db.likes == old(db.likes) && db.matches == old(db.matches)
      && db.notifications == old(db.notifications) && db.outbox == old(db.outbox)
      && db.nextLikeId == old(db.nextLikeId) && db.nextMatchId == old(db.nextMatchId)
      && db.nextNotificationId == old(db.nextNotificationId)
    ensures old(LikeRefusal(db.likes, db.users, fromId, toId)).None? ==>
      db.likes == old(db.likes) + [Like(old(db.nextLikeId), fromId, toId, LIKE)]
      && db.nextLikeId == old(db.nextLikeId) + 1
    ensures old(LikeRefusal(db.likes, db.users, fromId, toId)).None? && |LikesBetween(db.likes, toId, fromId)| != 1 ==>
      r == (if LikesBetween(db.likes, toId, fromId) == [] then Ok("Like sent!") else Err(NotUniqueMessage))
      && db.matches == old(db.matches) && db.notifications == old(db.notifications) && db.outbox == old(db.outbox)
      && db.nextMatchId == old(db.nextMatchId) && db.nextNotificationId == old(db.nextNotificationId)
    ensures old(LikeRefusal(db.likes, db.users, fromId, toId)).None? && |LikesBetween(db.likes, toId, fromId)| == 1 ==>
      r == Ok("It's a match!")
      && |PairMatches(db.matches, fromId, toId)| == 1
      && (old(PairMatches(db.matches, fromId, toId)) != [] ==>
            db.matches == old(db.matches) && db.nextMatchId == old(db.nextMatchId))
      && (old(PairMatches(db.matches, fromId, toId)) == [] ==>
            db.matches == old(db.matches) + [Match(old(db.nextMatchId), fromId, toId, ACTIVE, now, Some(now))]
            && db.nextMatchId == old(db.nextMatchId) + 1)
      && var ds := MatchNotices(db.users, PairMatches(db.matches, fromId, toId)[0].id, fromId, toId);
      db.notifications == old(db.notifications) + NotificationService.Saved(ds, 2, old(db.nextNotificationId), now)
      && db.nextNotificationId == old(db.nextNotificationId) + 2
      && db.outbox == old(db.outbox) + NotificationService.Pushed(db.brokerUp, ds, 2, old(db.nextNotificationId), now)
  {
    var refusal := LikeRefusal(db.likes, db.users, fromId, toId);
    if refusal.Some? {
      return refusal.value;
    }
    db.likes := db.likes + [Like(db.nextLikeId, fromId, toId, LIKE)];
    db.nextLikeId := db.nextLikeId + 1;
    var back := Single(LikesBetween(db.likes, toId, fromId));
    if back.NotFound? {
      return Ok("Like sent!");
    }
    if back.NotUnique? {
      return Err(NotUniqueMessage);
    }
    Celebrate(db, fromId, toId, now);
    return Ok("It's a match!");
  }

  /** The mutual-like branch of `likeUser`: the pair's match and a MATCH notification for each. */
  method Celebrate(db: Db, fromId: Id, toId: Id, now: Time)
    requires db.MatchingValid() && db.NotificationsValid()
    requires UserExists(db.users, fromId) && UserExists(db.users, toId)
    modifies db`matches, db`nextMatchId, db`notifications, db`nextNotificationId, db`outbox
    ensures db.MatchingValid() && db.NotificationsValid()
    ensures |PairMatches(db.matches, fromId, toId)| == 1
    ensures old(PairMatches(db.matches, fromId, toId)) != [] ==>
      db.matches == old(db.matches) && db.nextMatchId == old(db.nextMatchId)
    ensures old(PairMatches(db.matches, fromId, toId)) == [] ==>
      db.matches == old(db.matches) + [Match(old(db.nextMatchId), fromId, toId, ACTIVE, now, Some(now))]
      && db.nextMatchId == old(db.nextMatchId) + 1
    ensures var ds := MatchNotices(db.users, PairMatches(db.matches, fromId, toId)[0].id, fromId, toId);
      db.notifications == old(db.notifications) + NotificationService.Saved(ds, 2, old(db.nextNotificationId), now)
      && db.nextNotificationId == old(db.nextNotificationId) + 2
      && db.outbox == old(db.outbox) + NotificationService.Pushed(db.brokerUp, ds, 2, old(db.nextNotificationId), now)
  {
    var m := CreateMatch(db, fromId, toId, now);
    NotifyPair(db, MatchNotices(db.users, m.id, fromId, toId), now);
  }

  /** The two `createNotification` calls of a match, one per user, in order. */
  method NotifyPair(db: Db, ds: seq<NotificationService.Draft>, now: Time)
    requires db.NotificationsValid()
    requires |ds| == 2 && UserExists(db.users, ds[0].userId) && UserExists(db.users, ds[1].userId)
    modifies db`notifications, db`nextNotificationId, db`outbox
    ensures db.NotificationsValid()
    ensures db.notifications == old(db.notifications) + NotificationService.Saved(ds, 2, old(db.nextNotificationId), now)
    ensures db.nextNotificationId == old(db.nextNotificationId) + 2
    ensures db.outbox == old(db.outbox) + NotificationService.Pushed(db.brokerUp, ds, 2, old(db.nextNotificationId), now)
  {
    var first := NotificationService.CreateNotification(db, ds[0], now);
    assert first.Ok?;
    var second := NotificationService.CreateNotification(db, ds[1], now);
    assert second.Ok?;
    assert NotificationService.Saved(ds, 1, old(db.nextNotificationId), now) == [first.value];
    assert NotificationService.Pushed(db.brokerUp, ds, 1, old(db.nextNotificationId), now)
      == NotificationService.Deliver(db.brokerUp, first.value);
  }

  /** The reverse lookup of a self-like finds the LIKE just saved: liking oneself makes a match of
    * the user with themselves. For two different users the new row is never found. */
  lemma ReverseLookupAfterLike(likes: seq<Like>, l: Like)
    ensures LikesBetween(likes + [l], l.toUser, l.fromUser)
      == LikesBetween(likes, l.toUser, l.fromUser) + (if l.fromUser == l.toUser then [l] else [])
  {
    FilterAppend(likes, [l], (x: Like) => x.fromUser == l.toUser && x.toUser == l.fromUser);
  }

  // ---------------------------------------------------------------- passUser

  /** `passUser`: always stores a PASS row once both users exist; no duplicate check is made. */
  method PassUser(db: Db, fromId: Id, toId: Id) returns (r: Result<string>)
    requires db.MatchingValid()
    modifies db`likes, db`nextLikeId
    ensures db.MatchingValid()
    ensures !UserExists(db.users, fromId) ==> r == Err(UserNotFound)
    ensures UserExists(db.users, fromId) && !UserExists(db.users, toId) ==> r == Err("Target user not found")
    ensures r.Err? ==> db.likes == old(db.likes) && db.nextLikeId == old(db.nextLikeId)
    ensures r.Ok? <==> UserExists(db.users, fromId) && UserExists(db.users, toId)
    ensures r.Ok? ==>
      r.value == "Passed" && db.likes == old(db.likes) + [Like(old(db.nextLikeId), fromId, toId, PASS)]
      && db.nextLikeId == old(db.nextLikeId) + 1
      && HasLiked(db.likes, fromId, toId)
  {
    if !UserExists(db.users, fromId) {
      return Err(UserNotFound);
    }
    if !UserExists(db.users, toId) {
      return Err("Target user not found");
    }
    var l := Like(db.nextLikeId, fromId, toId, PASS);
    db.likes := db.likes + [l];
    db.nextLikeId := db.nextLikeId + 1;
    assert db.likes[|db.likes| - 1] == l;
    return Ok("Passed");
  }

  // ---------------------------------------------------------------- getMatches

  /** `findActiveMatchesByUserId`: the ACTIVE matches the user is in, in store order. */
  function ActiveMatchesOf(matches: seq<Match>, userId: Id): seq<Match>
  {
    Filter(matches, (m: Match) => m.status == ACTIVE && (m.user1 == userId || m.user2 == userId))
  }

  /** The user on the other side of the match. */
  function OtherParty(m: Match, userId: Id): Id
  {
    if m.user1 == userId then m.user2 else m.user1
  }

  /** The other users of a user's active matches, one per match: entry `i` is the other side of
    * the `i`-th active match of the user. */
  function MatchedUsers(matches: seq<Match>, userId: Id): (r: seq<Id>)
    ensures |r| == |ActiveMatchesOf(matches, userId)|
    ensures forall i :: 0 <= i < |r| ==> ActiveBetween(ActiveMatchesOf(matches, userId)[i], userId, r[i])
  {
    Map(ActiveMatchesOf(matches, userId), (m: Match) => OtherParty(m, userId))
  }

  /** `getMatches`: walks the active matches and collects the other party of each (the profile
    * mapping of each user is left out). */
  method GetMatches(db: Db, userId: Id) returns (r: seq<Id>)
    ensures r == MatchedUsers(db.matches, userId)
  {
    var ms := ActiveMatchesOf(db.matches, userId);
    var f := (m: Match) => OtherParty(m, userId);
    r := [];
    var i := 0;
    while i < |ms|
      invariant i <= |ms|
      invariant r == Map(ms[..i], f)
    {
      assert ms[..i + 1] == ms[..i] + [ms[i]];
      MapSnoc(ms[..i], ms[i], f);
      r := r + [f(ms[i])];
      i := i + 1;
    }
    assert ms[..i] == ms;
  }

  /** An active match between `userId` and `other`. */
  predicate ActiveBetween(m: Match, userId: Id, other: Id)
  {
    m.status == ACTIVE && SamePair(m, userId, other)
  }

  /** A user is listed exactly when an active match joins them to the caller. */
  lemma MatchedUsersExact(matches: seq<Match>, userId: Id, other: Id)
    ensures other in MatchedUsers(matches, userId)
      <==> exists i :: 0 <= i < |matches| && ActiveBetween(matches[i], userId, other)
  {
    var ms := ActiveMatchesOf(matches, userId);
    var f := (m: Match) => OtherParty(m, userId);
    if other in MatchedUsers(matches, userId) {
      var k :| 0 <= k < |ms| && f(ms[k]) == other;
      var i :| 0 <= i < |matches| && matches[i] == ms[k];
      assert ActiveBetween(matches[i], userId, other);
    }
    if exists i :: 0 <= i < |matches| && ActiveBetween(matches[i], userId, other) {
      var i :| 0 <= i < |matches| && ActiveBetween(matches[i], userId, other);
      assert matches[i] in ms;
      var k :| 0 <= k < |ms| && ms[k] == matches[i];
      assert MatchedUsers(matches, userId)[k] == other;
    }
  }

  /** One entry of `getMatchesWithDetails` (the other user's profile fields and photos are left out). */
  datatype MatchDetail = MatchDetail(matchId: Id, userId: Id, name: string, matchedAt: Time)

  /** `getMatchesWithDetails`: one entry per active match of the user, carrying the match id, the
    * other user, that user's name (empty when the row is gone) and the match time. */
  function MatchesWithDetails(matches: seq<Match>, users: seq<User>, userId: Id): (r: seq<MatchDetail>)
    ensures |r| == |ActiveMatchesOf(matches, userId)|
    ensures forall i :: 0 <= i < |r| ==>
      var m := ActiveMatchesOf(matches, userId)[i];
      r[i].matchId == m.id && r[i].matchedAt == m.matchedAt && ActiveBetween(m, userId, r[i].userId)
      && (NameOf(users, r[i].userId).Some? ==> r[i].name == NameOf(users, r[i].userId).value)
      && (NameOf(users, r[i].userId).None? ==> r[i].name == "")
  {
    Map(ActiveMatchesOf(matches, userId),
        (m: Match) => MatchDetail(m.id, OtherParty(m, userId), NameOf(users, OtherParty(m, userId)).UnwrapOr(""), m.matchedAt))
  }

  /** The detailed list names the same users, in the same order, as `getMatches`. */
  lemma DetailsAgreeWithMatches(matches: seq<Match>, users: seq<User>, userId: Id)
    ensures Map(MatchesWithDetails(matches, users, userId), (d: MatchDetail) => d.userId) == MatchedUsers(matches, userId)
  {
  }
}
