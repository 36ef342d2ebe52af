/** `UserService`: a user's own edits to their account, validated field by field before a single
  * save, and the erasure of an account together with every row that refers to it. */
module UserService {

  import opened Wrappers
  import opened Seqs
  import opened Entities
  import opened Store
  import opened JavaText
  import opened SanitizeUtil
  import opened AccountErasure

  // ---------------------------------------------------------------- updateProfile

  /** The keys of the request body `updateProfile` reads; `None` is an absent key, `Some(JNull)` a
    * key mapped to null. The `availability` key is not part of this model (see README). */
  datatype UserUpdate = UserUpdate(
    name: Option<JsonValue>,
    age: Option<JsonValue>,
    gender: Option<JsonValue>,
    interests: Option<JsonValue>,
    location: Option<JsonValue>,
    bio: Option<JsonValue>,
    zodiacSign: Option<JsonValue>,
    mbtiType: Option<JsonValue>,
    fitnessLevel: Option<JsonValue>)

  const MaxNameLength := 35
  const MaxLocationLength := 40
  const MinAge := 18
  const MaxAge := 65

  /** A present key whose value is neither null nor a string. */
  predicate BadCast(key: Option<JsonValue>)
  {
    key.Some? && CastText(key.value).Err?
  }

  /** A present string name that is still too long once sanitized; a non-string name is ignored. */
  predicate NameTooLong(upd: UserUpdate)
  {
    upd.name.Some? && upd.name.value.JText? && Utf16Length(Sanitize(upd.name.value.text)) > MaxNameLength
  }

  /** A present number whose `intValue()` lies outside 18..65; a non-number age is ignored. */
  predicate AgeOutOfRange(upd: UserUpdate)
  {
    upd.age.Some? && upd.age.value.JNumber? && !(MinAge <= IntValue(upd.age.value.number) <= MaxAge)
  }

  predicate LocationTooLong(upd: UserUpdate)
  {
    upd.location.Some? && upd.location.value.JText? && Utf16Length(Sanitize(upd.location.value.text)) > MaxLocationLength
  }

  /** The exception `updateProfile` throws for an existing user, checking the keys in the order
    * name, age, gender, interests, location, bio, zodiacSign, mbtiType, fitnessLevel. */
  function UpdateRefusal(upd: UserUpdate): (r: Option<string>)
    ensures r.None? <==>
      !NameTooLong(upd) && !AgeOutOfRange(upd) && !LocationTooLong(upd)
      && !BadCast(upd.gender) && !BadCast(upd.interests) && !BadCast(upd.bio)
      && !BadCast(upd.zodiacSign) && !BadCast(upd.mbtiType) && !BadCast(upd.fitnessLevel)
    ensures NameTooLong(upd) ==> r == Some("Name must be 35 characters or fewer")
    ensures !NameTooLong(upd) && AgeOutOfRange(upd) ==> r == Some("Age must be between 18 and 65")
  {
    if NameTooLong(upd) then Some("Name must be 35 characters or fewer")
    else if AgeOutOfRange(upd) then Some("Age must be between 18 and 65")
    else if BadCast(upd.gender) || BadCast(upd.interests) then Some(CastFailure)
    else if LocationTooLong(upd) then Some("Location must be 40 characters or fewer")
    else if BadCast(upd.bio) || BadCast(upd.zodiacSign) || BadCast(upd.mbtiType) || BadCast(upd.fitnessLevel)
    then Some(CastFailure)
    else None
  }

  // Each column after its key. Absent keys keep the column; `name` and `location` take only strings
  // and `age` only numbers (the `instanceof` tests); the other text keys take null or a string.

  function NameAfter(current: string, key: Option<JsonValue>): string
  {
    if key.Some? && key.value.JText? then Sanitize(key.value.text) else current
  }

  function AgeAfter(current: Option<int>, key: Option<JsonValue>): Option<int>
  {
    if key.Some? && key.value.JNumber? then Some(IntValue(key.value.number)) else current
  }

  function LocationAfter(current: Option<string>, key: Option<JsonValue>): Option<string>
  {
    if key.Some? && key.value.JText? then Some(Sanitize(key.value.text)) else current
  }

  /** Null clears the column and a string is stored sanitized. */
  function TextAfter(current: Option<string>, key: Option<JsonValue>): Option<string>
  {
    match key
    case None => current
    case Some(v) =>
      match CastText(v)
      case Ok(t) => SanitizeOpt(t)
      case Err(_) => current
  }

  /** The user row `updateProfile` saves when it raises nothing. */
  function Updated(u: User, upd: UserUpdate): (r: User)
    ensures r.id == u.id && r.email == u.email && r.tier == u.tier && r.availability == u.availability
    ensures r.isActive == u.isActive && r.banUntil == u.banUntil && r.isVerified == u.isVerified
    ensures r.isAdmin == u.isAdmin && r.isSuperAdmin == u.isSuperAdmin && r.incognito == u.incognito
    ensures upd.name.None? ==> r.name == u.name
    ensures upd.age.None? ==> r.age == u.age
    ensures upd.gender.None? ==> r.gender == u.gender
    ensures upd.interests.None? ==> r.interests == u.interests
    ensures upd.location.None? ==> r.location == u.location
    ensures upd.bio.None? ==> r.bio == u.bio
    ensures upd.zodiacSign.None? ==> r.zodiacSign == u.zodiacSign
    ensures upd.mbtiType.None? ==> r.mbtiType == u.mbtiType
    ensures upd.fitnessLevel.None? ==> r.fitnessLevel == u.fitnessLevel
  {
    u.(
      name := NameAfter(u.name, upd.name),
      age := AgeAfter(u.age, upd.age),
      gender := TextAfter(u.gender, upd.gender),
      interests := TextAfter(u.interests, upd.interests),
      location := LocationAfter(u.location, upd.location),
      bio := TextAfter(u.bio, upd.bio),
      zodiacSign := TextAfter(u.zodiacSign, upd.zodiacSign),
      mbtiType := TextAfter(u.mbtiType, upd.mbtiType),
      fitnessLevel := TextAfter(u.fitnessLevel, upd.fitnessLevel))
  }

  /** Text that sanitizing leaves as it is. */
  predicate Clean(s: string)
  {
    Sanitize(s) == s
  }

  predicate CleanOpt(s: Option<string>)
  {
    s.Some? ==> Clean(s.value)
  }

  predicate CleanName(name: string)
  {
    Clean(name) && Utf16Length(name) <= MaxNameLength
  }

  predicate CleanLocation(location: Option<string>)
  {
    location.Some? ==> Clean(location.value) && Utf16Length(location.value) <= MaxLocationLength
  }

  predicate AgeInRange(age: Option<int>)
  {
    age.Some? ==> MinAge <= age.value <= MaxAge
  }

  /** The shape `updateProfile` gives every column it writes: sanitized text, a name of at most 35
    * and a location of at most 40 characters, an age within 18..65. */
  predicate WellFormedUser(u: User)
  {
    CleanName(u.name) && AgeInRange(u.age) && CleanLocation(u.location)
    && CleanOpt(u.gender) && CleanOpt(u.interests) && CleanOpt(u.bio)
    && CleanOpt(u.zodiacSign) && CleanOpt(u.mbtiType) && CleanOpt(u.fitnessLevel)
  }

  lemma SanitizedIsClean(t: string)
    ensures Clean(Sanitize(t))
  {
    SanitizeIdempotent(t);
  }

  lemma TextAfterCases(current: Option<string>, key: Option<JsonValue>)
    ensures key.Some? && key.value.JText? ==> TextAfter(current, key) == Some(Sanitize(key.value.text))
    ensures key.Some? && key.value.JNull? ==> TextAfter(current, key) == None
    ensures !(key.Some? && (key.value.JText? || key.value.JNull?)) ==> TextAfter(current, key) == current
  {
  }

  lemma TextAfterIsClean(current: Option<string>, key: Option<JsonValue>)
    requires CleanOpt(current)
    ensures CleanOpt(TextAfter(current, key))
  {
    TextAfterCases(current, key);
    if key.Some? && key.value.JText? {
      SanitizedIsClean(key.value.text);
    }
  }

  lemma NameAfterIsClean(current: string, key: Option<JsonValue>)
    requires CleanName(current)
    requires !(key.Some? && key.value.JText? && Utf16Length(Sanitize(key.value.text)) > MaxNameLength)
    ensures CleanName(NameAfter(current, key))
  {
    if key.Some? && key.value.JText? {
      SanitizeIdempotent(key.value.text);
    }
  }

  lemma LocationAfterIsClean(current: Option<string>, key: Option<JsonValue>)
    requires CleanLocation(current)
    requires !(key.Some? && key.value.JText? && Utf16Length(Sanitize(key.value.text)) > MaxLocationLength)
    ensures CleanLocation(LocationAfter(current, key))
  {
    if key.Some? && key.value.JText? {
      SanitizeIdempotent(key.value.text);
    }
  }

  /** An accepted update keeps a well-formed user well-formed: every value it stores has passed the
    * checks and sanitizing. */
  lemma UpdatePreservesWellFormed(u: User, upd: UserUpdate)
    requires WellFormedUser(u) && UpdateRefusal(upd).None?
    ensures WellFormedUser(Updated(u, upd))
  {
    var r := Updated(u, upd);
    NameAfterIsClean(u.name, upd.name);
    assert CleanName(r.name);
    assert AgeInRange(r.age);
    LocationAfterIsClean(u.location, upd.location);
    assert CleanLocation(r.location);
    TextAfterIsClean(u.gender, upd.gender);
    assert CleanOpt(r.gender);
    TextAfterIsClean(u.interests, upd.interests);
    assert CleanOpt(r.interests);
    TextAfterIsClean(u.bio, upd.bio);
    assert CleanOpt(r.bio);
    TextAfterIsClean(u.zodiacSign, upd.zodiacSign);
    assert CleanOpt(r.zodiacSign);
    TextAfterIsClean(u.mbtiType, upd.mbtiType);
    assert CleanOpt(r.mbtiType);
    TextAfterIsClean(u.fitnessLevel, upd.fitnessLevel);
    assert CleanOpt(r.fitnessLevel);
  }

  function EchoText(s: Option<string>): JsonValue
  {
    match s case None => JNull case Some(t) => JText(t)
  }

  /** The request a client sends back when it submits the profile form unchanged. */
  function Echo(u: User): UserUpdate
  {
    UserUpdate(
      Some(JText(u.name)),
      EchoAge(u.age),
      Some(EchoText(u.gender)), Some(EchoText(u.interests)), Some(EchoText(u.location)),
      Some(EchoText(u.bio)), Some(EchoText(u.zodiacSign)), Some(EchoText(u.mbtiType)),
      Some(EchoText(u.fitnessLevel)))
  }

  /** An absent age is not sent back; a present one is sent as a number. */
  function EchoAge(age: Option<int>): Option<JsonValue>
  {
    match age
    case None => None
    case Some(a) => Some(JNumber(a))
  }

  lemma EchoAgeKeeps(age: Option<int>)
    requires AgeInRange(age)
    ensures var key := EchoAge(age);
      AgeAfter(age, key) == age && (key.Some? ==> key.value.JNumber? && MinAge <= IntValue(key.value.number) <= MaxAge)
  {
  }

  lemma EchoTextKeeps(s: Option<string>)
    requires CleanOpt(s)
    ensures !BadCast(Some(EchoText(s))) && TextAfter(s, Some(EchoText(s))) == s
  {
  }

  /** Submitting a well-formed user's own values is accepted and changes nothing. */
  lemma EchoIsAcceptedNoOp(u: User)
    requires WellFormedUser(u)
    ensures UpdateRefusal(Echo(u)).None?
    ensures Updated(u, Echo(u)) == u
  {
    var e := Echo(u);
    assert !NameTooLong(e) && NameAfter(u.name, e.name) == u.name;
    assert !LocationTooLong(e) && LocationAfter(u.location, e.location) == u.location;
    EchoAgeKeeps(u.age);
    EchoTextKeeps(u.gender);
    EchoTextKeeps(u.interests);
    EchoTextKeeps(u.bio);
    EchoTextKeeps(u.zodiacSign);
    EchoTextKeeps(u.mbtiType);
    EchoTextKeeps(u.fitnessLevel);
  }

  /** A number beyond 32 bits reaches the range check through `intValue()`, so 2^32 + 18 is stored
    * as the age 18. */
  lemma AgeWrapsToThirtyTwoBits(u: User)
    ensures var upd := UserUpdate(None, Some(JNumber(0x1_0000_0000 + 18)), None, None, None, None, None, None, None);
      UpdateRefusal(upd).None? && Updated(u, upd).age == Some(18)
  {
    var n := 0x1_0000_0000 + 18;
    assert n % 0x1_0000_0000 == 18;
    assert IntValue(n) == 18;
  }

  /** `updateProfile`: look the user up, check and apply each present key in turn on a copy, then
    * save the copy once. Any exception leaves the stored row as it was. */
  method UpdateProfile(db: Db, userId: Id, upd: UserUpdate) returns (r: Result<User>)
    requires db.UsersValid()
    modifies db`users
    ensures db.UsersValid()
    ensures !UserExists(old(db.users), userId) ==> r == Err(UserNotFound) && db.users == old(db.users)
    ensures UserExists(old(db.users), userId) && UpdateRefusal(upd).Some? ==>
      r == Err(UpdateRefusal(upd).value) && db.users == old(db.users)
    ensures UserExists(old(db.users), userId) && UpdateRefusal(upd).None? ==>
      var i := UserIndex(old(db.users), userId).value;
      r == Ok(Updated(old(db.users)[i], upd)) && db.users == old(db.users)[i := r.value]
  {
    var found := UserIndex(db.users, userId);
    if found.None? {
      return Err(UserNotFound);
    }
    var i := found.value;
    var user := db.users[i];
    if NameTooLong(upd) {
      return Err("Name must be 35 characters or fewer");
    }
    user := user.(name := NameAfter(user.name, upd.name));
    if AgeOutOfRange(upd) {
      return Err("Age must be between 18 and 65");
    }
    user := user.(age := AgeAfter(user.age, upd.age));
    if BadCast(upd.gender) {
      return Err(CastFailure);
    }
    user := user.(gender := TextAfter(user.gender, upd.gender));
    if BadCast(upd.interests) {
      return Err(CastFailure);
    }
    user := user.(interests := TextAfter(user.interests, upd.interests));
    if LocationTooLong(upd) {
      return Err("Location must be 40 characters or fewer");
    }
    user := user.(location := LocationAfter(user.location, upd.location));
    if BadCast(upd.bio) {
      return Err(CastFailure);
    }
    user := user.(bio := TextAfter(user.bio, upd.bio));
    if BadCast(upd.zodiacSign) {
      return Err(CastFailure);
    }
    user := user.(zodiacSign := TextAfter(user.zodiacSign, upd.zodiacSign));
    if BadCast(upd.mbtiType) {
      return Err(CastFailure);
    }
    user := user.(mbtiType := TextAfter(user.mbtiType, upd.mbtiType));
    if BadCast(upd.fitnessLevel) {
      return Err(CastFailure);
    }
    user := user.(fitnessLevel := TextAfter(user.fitnessLevel, upd.fitnessLevel));
    db.users := db.users[i := user];
    r := Ok(user);
  }

  // ---------------------------------------------------------------- deleteUserAccount

  /** Step 1: the matches the user is on either side of. */
  method DeleteMatches(db: Db, userId: Id)
    requires db.AccountsValid()
    modifies db`matches
    ensures db.AccountsValid()
    ensures AccountTables(db) == old(AccountTables(db)).(
        matches := Filter(old(db.matches), MatchKept(userId)))
  {
    MatchesErased(db.matches, db.nextMatchId, userId);
    db.matches := Filter(db.matches, MatchKept(userId));
  }

  /** Step 2: the direct messages the user sent. */
  method DeleteMessages(db: Db, userId: Id)
    requires db.AccountsValid()
    modifies db`messages
    ensures db.AccountsValid()
    ensures AccountTables(db) == old(AccountTables(db)).(
        messages := Filter(old(db.messages), MessageKept(userId)))
  {
    MessagesErased(db.messages, db.nextMessageId, userId);
    db.messages := Filter(db.messages, MessageKept(userId));
  }

  /** Step 3: the user's participations in activities. */
  method DeleteParticipations(db: Db, userId: Id)
    requires db.AccountsValid()
    modifies db`participants
    ensures db.AccountsValid()
    ensures AccountTables(db) == old(AccountTables(db)).(
        participants := Filter(old(db.participants), ParticipantKept(userId)))
  {
    ParticipantsErased(db.participants, db.nextParticipantId, db.nextActivityId, userId);
    db.participants := Filter(db.participants, ParticipantKept(userId));
  }

  /** Step 4: the activities the user created. */
  method DeleteActivities(db: Db, userId: Id)
    requires db.AccountsValid()
    modifies db`activities
    ensures db.AccountsValid()
    ensures AccountTables(db) == old(AccountTables(db)).(
        activities := Filter(old(db.activities), ActivityKept(userId)))
  {
    ActivitiesErased(db.activities, db.nextActivityId, userId);
    db.activities := Filter(db.activities, ActivityKept(userId));
  }

  /** Steps 5 and 6: the ratings the user gave, then those the user received. */
  method DeleteRatings(db: Db, userId: Id)
    requires db.AccountsValid()
    modifies db`ratings
    ensures db.AccountsValid()
    ensures AccountTables(db) == old(AccountTables(db)).(
        ratings := Filter(old(db.ratings), RatingKept(userId)))
  {
    RatingsErased(db.ratings, db.nextRatingId, userId);
    db.ratings := Filter(db.ratings, RatingGivenKept(userId));
    db.ratings := Filter(db.ratings, RatingReceivedKept(userId));
  }

  /** Step 7: the user's notifications. */
  method DeleteNotifications(db: Db, userId: Id)
    requires db.AccountsValid()
    modifies db`notifications
    ensures db.AccountsValid()
    ensures AccountTables(db) == old(AccountTables(db)).(
        notifications := Filter(old(db.notifications), NotificationKept(userId)))
  {
    NotificationsErased(db.notifications, db.nextNotificationId, userId);
    db.notifications := Filter(db.notifications, NotificationKept(userId));
  }

  /** Step 8: the user's verification requests. */
  method DeleteVerifications(db: Db, userId: Id)
    requires db.AccountsValid()
    modifies db`verifications
    ensures db.AccountsValid()
    ensures AccountTables(db) == old(AccountTables(db)).(
        verifications := Filter(old(db.verifications), VerificationKept(userId)))
  {
    VerificationsErased(db.verifications, db.nextVerificationId, userId);
    db.verifications := Filter(db.verifications, VerificationKept(userId));
  }

  /** Step 9: the user's refund requests. */
  method DeleteRefunds(db: Db, userId: Id)
    requires db.AccountsValid()
    modifies db`refunds
    ensures db.AccountsValid()
    ensures AccountTables(db) == old(AccountTables(db)).(
        refunds := Filter(old(db.refunds), RefundKept(userId)))
  {
    RefundsErased(db.refunds, db.nextRefundId, userId);
    db.refunds := Filter(db.refunds, RefundKept(userId));
  }

  /** Step 10: the referrals the user made, then the one that names the user as referred. */
  method DeleteReferrals(db: Db, userId: Id)
    requires db.AccountsValid()
    modifies db`referrals
    ensures db.AccountsValid()
    ensures AccountTables(db) == old(AccountTables(db)).(
        referrals := Filter(old(db.referrals), ReferralKept(userId)))
  {
    ReferralsErased(db.referrals, db.nextReferralId, userId);
    db.referrals := Filter(db.referrals, ReferrerKept(userId));
    db.referrals := Filter(db.referrals, ReferredKept(userId));
  }

  /** Step 11: likes given or received. */
  method DeleteLikes(db: Db, userId: Id)
    requires db.AccountsValid()
    modifies db`likes
    ensures db.AccountsValid()
    ensures AccountTables(db) == old(AccountTables(db)).(
        likes := Filter(old(db.likes), LikeKept(userId)))
  {
    LikesErased(db.likes, db.nextLikeId, userId);
    db.likes := Filter(db.likes, LikeKept(userId));
  }

  /** Step 12: the user's profile. */
  method DeleteProfile(db: Db, userId: Id)
    requires db.AccountsValid()
    modifies db`profiles
    ensures db.AccountsValid()
    ensures AccountTables(db) == old(AccountTables(db)).(
        profiles := Filter(old(db.profiles), ProfileKept(userId)))
  {
    ProfilesErased(db.profiles, db.nextProfileId, userId);
    db.profiles := Filter(db.profiles, ProfileKept(userId));
  }

  /** Step 13: the user. */
  method DeleteUserRow(db: Db, userId: Id)
    requires db.AccountsValid()
    modifies db`users
    ensures db.AccountsValid()
    ensures AccountTables(db) == old(AccountTables(db)).(
        users := Filter(old(db.users), UserKept(userId)))
  {
    UsersErased(db.users, db.nextUserId, userId);
    db.users := Filter(db.users, UserKept(userId));
  }

  /** Steps 1 to 6: everything the user did with other users. */
  method DeleteActivityRows(db: Db, userId: Id)
    requires db.AccountsValid()
    modifies db`matches, db`messages, db`participants, db`activities, db`ratings
    ensures db.AccountsValid()
    ensures AccountTables(db) == old(AccountTables(db)).(
        matches := Filter(old(db.matches), MatchKept(userId)),
        messages := Filter(old(db.messages), MessageKept(userId)),
        participants := Filter(old(db.participants), ParticipantKept(userId)),
        activities := Filter(old(db.activities), ActivityKept(userId)),
        ratings := Filter(old(db.ratings), RatingKept(userId)))
  {
    DeleteMatches(db, userId);
    DeleteMessages(db, userId);
    DeleteParticipations(db, userId);
    DeleteActivities(db, userId);
    DeleteRatings(db, userId);
  }

  /** Steps 7 to 13: requests, likes, the profile and finally the user. */
  method DeleteAccountRows(db: Db, userId: Id)
    requires db.AccountsValid()
    modifies db`notifications, db`verifications, db`refunds, db`referrals, db`likes, db`profiles, db`users
    ensures db.AccountsValid()
    ensures AccountTables(db) == old(AccountTables(db)).(
        notifications := Filter(old(db.notifications), NotificationKept(userId)),
        verifications := Filter(old(db.verifications), VerificationKept(userId)),
        refunds := Filter(old(db.refunds), RefundKept(userId)),
        referrals := Filter(old(db.referrals), ReferralKept(userId)),
        likes := Filter(old(db.likes), LikeKept(userId)),
        profiles := Filter(old(db.profiles), ProfileKept(userId)),
        users := Filter(old(db.users), UserKept(userId)))
  {
    DeleteNotifications(db, userId);
    DeleteVerifications(db, userId);
    DeleteRefunds(db, userId);
    DeleteReferrals(db, userId);
    DeleteLikes(db, userId);
    DeleteProfile(db, userId);
    DeleteUserRow(db, userId);
  }

  /** `deleteUserAccount`: an unknown user is reported through the outer handler, which prefixes
    * the message, and nothing is deleted; otherwise steps 1 to 13 delete every row that refers to
    * the user, and the store's invariants still hold. Chat memberships, group messages, reports and
    * support requests stay. */
  method DeleteUserAccount(db: Db, userId: Id) returns (r: Result<()>)
    requires db.AccountsValid()
    modifies db`matches, db`messages, db`participants, db`activities, db`ratings, db`notifications
    modifies db`verifications, db`refunds, db`referrals, db`likes, db`profiles, db`users
    ensures db.AccountsValid()
    ensures r.Err? <==> !UserExists(old(db.users), userId)
    ensures r.Err? ==> r.msg == "Failed to delete account: User not found" && unchanged(db)
    ensures r.Ok? ==> AccountTables(db) == EraseUser(old(AccountTables(db)), userId)
  {
    if !UserExists(db.users, userId) {
      return Err("Failed to delete account: User not found");
    }
    DeleteActivityRows(db, userId);
    DeleteAccountRows(db, userId);
    r := Ok(());
  }
}
