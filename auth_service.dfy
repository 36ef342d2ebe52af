/** `AuthService`: registration and login. Password hashing, the authentication manager and the
  * JWT token are outside the model; whether the credentials check passed is a parameter. */
module AuthService {

  import opened Wrappers
  import opened Seqs
  import opened Entities
  import opened Store
  import opened JavaText
  import opened SanitizeUtil
  import ReferralService
  import NotificationService

  // ---------------------------------------------------------------- register

  /** `RegisterRequest` after bean validation: the `@NotBlank`/`@NotNull` fields are present. */
  datatype RegisterRequest = RegisterRequest(
    name: string,
    email: string,
    age: int,
    interests: string,
    location: string,
    availability: string,
    referralCode: Option<string>)

  const NameMax := 35
  const LocationMax := 40

  const EmailTaken := "Email already exists"
  const NameTooLong := "Name must be 35 characters or fewer"
  const LocationTooLong := "Location must be 40 characters or fewer"

  /** Why `register` refuses the request, checked in the order the service checks; `existsByEmail`
    * compares the email exactly as it was typed. An email that passes that check but is stored
    * already once trimmed and lower-cased is refused by the unique column when the row is saved. */
  function RegisterRefusal(users: seq<User>, req: RegisterRequest): (r: Option<string>)
    ensures r.None? <==>
      !ReferralService.EmailRegistered(users, req.email)
      && Utf16Length(Sanitize(req.name)) <= NameMax && Utf16Length(Sanitize(req.location)) <= LocationMax
      && !ReferralService.EmailRegistered(users, ToLower(Trim(req.email)))
    ensures (!ReferralService.EmailRegistered(users, req.email) && Utf16Length(Sanitize(req.name)) <= NameMax
             && Utf16Length(Sanitize(req.location)) <= LocationMax && ReferralService.EmailRegistered(users, ToLower(Trim(req.email)))) ==>
      r == Some(EmailNotUnique)
  {
    if ReferralService.EmailRegistered(users, req.email) then Some(EmailTaken)
    else if Utf16Length(Sanitize(req.name)) > NameMax then Some(NameTooLong)
    else if Utf16Length(Sanitize(req.location)) > LocationMax then Some(LocationTooLong)
    else if ReferralService.EmailRegistered(users, ToLower(Trim(req.email))) then Some(EmailNotUnique)
    else None
  }

  /** An accepted registration keeps the stored emails distinct. */
  lemma RegisterKeepsEmailsUnique(users: seq<User>, req: RegisterRequest, id: Id)
    requires UniqueEmails(users) && RegisterRefusal(users, req).None?
    ensures UniqueEmails(users + [NewUser(req, id)])
  {
    var all := users + [NewUser(req, id)];
    forall i, j | 0 <= i < j < |all|
      ensures all[i].email != all[j].email
    {
      if j == |users| {
        assert all[i] == users[i];
      }
    }
  }

  /** The limits count UTF-16 units, as `String.length()` does: a name of eighteen U+1F600 chars
    * is eighteen chars but thirty-six units, so it is refused. */
  lemma AstralNameRefused(users: seq<User>, req: RegisterRequest)
    requires !ReferralService.EmailRegistered(users, req.email)
    requires req.name == seq(18, _ => '\U{1F600}')
    ensures RegisterRefusal(users, req) == Some(NameTooLong)
  {
    SanitizeOfClean(req.name);
    Utf16LengthOfAstral(req.name);
  }

  /** The row `register` saves under the id the table hands out. */
  function NewUser(req: RegisterRequest, id: Id): User
  {
    User(id, ToLower(Trim(req.email)), Sanitize(req.name), Some(req.age), None,
         Some(Sanitize(req.interests)), Some(Sanitize(req.location)), Some(Sanitize(req.availability)),
         None, None, None, None, Some(FREE), true, None, false, false, false, false)
  }

  /** What every freshly registered account looks like: a free, active, unverified, unbanned
    * member without admin rights, whose email is trimmed and lower-case and whose text fields are
    * already sanitized and within their limits. */
  predicate FreshAccount(u: User)
  {
    u.tier == Some(FREE) && u.isActive && u.banUntil.None? && !u.isVerified && !u.isAdmin && !u.isSuperAdmin
    && IsTrimmed(u.email) && ToLower(u.email) == u.email
    && Sanitize(u.name) == u.name && Utf16Length(u.name) <= NameMax
    && u.location.Some? && Sanitize(u.location.value) == u.location.value && Utf16Length(u.location.value) <= LocationMax
    && u.interests.Some? && Sanitize(u.interests.value) == u.interests.value
    && u.availability.Some? && Sanitize(u.availability.value) == u.availability.value
  }

  /** Lower-casing maps no char across U+0020, so it keeps a trimmed string trimmed. */
  lemma ToLowerKeepsTrimmed(s: string)
    requires IsTrimmed(s)
    ensures IsTrimmed(ToLower(s)) && ToLower(ToLower(s)) == ToLower(s)
  {
    assert forall k :: 0 <= k < |s| ==> LowerChar(LowerChar(s[k])) == LowerChar(s[k]);
  }

  /** Every request `register` accepts yields a fresh account. */
  lemma AcceptedRequestIsFresh(users: seq<User>, req: RegisterRequest, id: Id)
    requires RegisterRefusal(users, req).None?
    ensures FreshAccount(NewUser(req, id))
  {
    ToLowerKeepsTrimmed(Trim(req.email));
    SanitizeIdempotent(req.name);
    SanitizeIdempotent(req.location);
    SanitizeIdempotent(req.interests);
    SanitizeIdempotent(req.availability);
  }

  /** Once an account is saved, registering again with the address as it was stored is refused. */
  lemma StoredEmailIsTaken(users: seq<User>, req: RegisterRequest, id: Id, again: RegisterRequest)
    requires again.email == NewUser(req, id).email
    ensures RegisterRefusal(users + [NewUser(req, id)], again) == Some(EmailTaken)
  {
    assert (users + [NewUser(req, id)])[|users|].email == again.email;
  }

  /** The invariants of the tables `register` touches. */
  ghost predicate RegisterTablesValid(db: Db)
    reads db
  {
    db.UsersValid() && ReferralService.SignupTablesValid(db)
  }

  /** `userRepository.save` of the new row. */
  method SaveNewUser(db: Db, u: User)
    requires RegisterTablesValid(db) && u.id == db.nextUserId
    modifies db`users, db`nextUserId
    ensures RegisterTablesValid(db)
    ensures db.users == old(db.users) + [u] && db.nextUserId == old(db.nextUserId) + 1
    ensures FindUser(db.users, u.id) == Some(u)
  {
    AppendUser(db, u);
  }

  /** `register`: refuse a taken email or an over-long name or location; otherwise save the new
    * account and record the referral. */
  method Register(db: Db, req: RegisterRequest, now: Time) returns (r: Result<User>)
    requires RegisterTablesValid(db)
    modifies db`users, db`nextUserId, db`referrals, db`nextReferralId, db`notifications,
             db`nextNotificationId, db`outbox
    ensures RegisterTablesValid(db)
    ensures RegisterRefusal(old(db.users), req).Some? ==>
      r == Err(RegisterRefusal(old(db.users), req).value)
      && db.users == old(db.users) && db.nextUserId == old(db.nextUserId)
      && db.referrals == old(db.referrals) && db.nextReferralId == old(db.nextReferralId)
      && db.notifications == old(db.notifications) && db.outbox == old(db.outbox)
      && db.nextNotificationId == old(db.nextNotificationId)
    ensures RegisterRefusal(old(db.users), req).None? ==>
      db.users == old(db.users) + [NewUser(req, old(db.nextUserId))]
      && db.nextUserId == old(db.nextUserId) + 1
    ensures r.Ok? ==> r.value == NewUser(req, old(db.nextUserId)) && FreshAccount(r.value)
    ensures RegisterRefusal(old(db.users), req).None? && !ReferralService.KnownCode(old(db.referrals), req.referralCode) ==>
      r.Ok? && db.referrals == old(db.referrals) && db.nextReferralId == old(db.nextReferralId)
      && db.notifications == old(db.notifications)
      && db.nextNotificationId == old(db.nextNotificationId) && db.outbox == old(db.outbox)
    ensures RegisterRefusal(old(db.users), req).None? && ReferralService.KnownCode(old(db.referrals), req.referralCode) ==>
      ReferralSignedUp(old(db.referrals), old(db.nextReferralId), old(db.notifications), old(db.nextNotificationId),
                       old(db.outbox), db, req.referralCode, NewUser(req, old(db.nextUserId)), r, now)
  {
    var refusal := RegisterRefusal(db.users, req);
    if refusal.Some? {
      return Err(refusal.value);
    }
    AcceptedRequestIsFresh(db.users, req, db.nextUserId);
    r := Enrol(db, NewUser(req, db.nextUserId), req.referralCode, now);
  }

  /** The accepted part of `register`: save the new row, then record the referral. It is not
    * transactional, so when the referral step fails the account stays saved and the caller gets
    * the referral's error. */
  method Enrol(db: Db, user: User, referralCode: Option<string>, now: Time) returns (r: Result<User>)
    requires RegisterTablesValid(db) && user.id == db.nextUserId
    modifies db`users, db`nextUserId, db`referrals, db`nextReferralId, db`notifications,
             db`nextNotificationId, db`outbox
    ensures RegisterTablesValid(db)
    ensures db.users == old(db.users) + [user] && db.nextUserId == old(db.nextUserId) + 1
    ensures r.Ok? ==> r.value == user
    ensures !ReferralService.KnownCode(old(db.referrals), referralCode) ==>
      r.Ok? && db.referrals == old(db.referrals) && db.nextReferralId == old(db.nextReferralId)
      && db.notifications == old(db.notifications)
      && db.nextNotificationId == old(db.nextNotificationId) && db.outbox == old(db.outbox)
    ensures ReferralService.KnownCode(old(db.referrals), referralCode) ==>
      ReferralSignedUp(old(db.referrals), old(db.nextReferralId), old(db.notifications), old(db.nextNotificationId),
                       old(db.outbox), db, referralCode, user, r, now)
  {
    SaveNewUser(db, user);
    r := TrackReferral(db, user, referralCode, now);
  }

  /** The referral step of `register`, once the account is saved: `processReferralSignup` for the
    * new user, whose failure becomes `register`'s answer. */
  method TrackReferral(db: Db, user: User, referralCode: Option<string>, now: Time) returns (r: Result<User>)
    requires ReferralService.SignupTablesValid(db) && FindUser(db.users, user.id) == Some(user)
    modifies db`referrals, db`nextReferralId, db`notifications, db`nextNotificationId, db`outbox
    ensures ReferralService.SignupTablesValid(db)
    ensures r.Ok? ==> r.value == user
    ensures !ReferralService.KnownCode(old(db.referrals), referralCode) ==>
      r.Ok? && db.referrals == old(db.referrals) && db.nextReferralId == old(db.nextReferralId)
      && db.notifications == old(db.notifications)
      && db.nextNotificationId == old(db.nextNotificationId) && db.outbox == old(db.outbox)
    ensures ReferralService.KnownCode(old(db.referrals), referralCode) ==>
      ReferralSignedUp(old(db.referrals), old(db.nextReferralId), old(db.notifications), old(db.nextNotificationId),
                       old(db.outbox), db, referralCode, user, r, now)
  {
    var tracked := ReferralService.ProcessReferralSignup(db, referralCode, user.id, now);
    r := if tracked.Err? then Err(tracked.msg) else Ok(user);
  }

  /** The referral side of a registration under a known code, as `processReferralSignup` leaves
    * it: the sign-up goes through exactly when the credited referrer still has a row; then the new
    * user is recorded under the code and the referrer notified, otherwise the referral tables,
    * the notifications and the pushes are as they were and `register` answers "User not found". */
  ghost predicate ReferralSignedUp(refs: seq<Referral>, nextReferralId: Id, notes: seq<Notification>, nextNoteId: Id,
                                   outbox: seq<Push>, db: Db, referralCode: Option<string>,
                                   user: User, r: Result<User>, now: Time)
    requires ReferralService.KnownCode(refs, referralCode)
    reads db
  {
    var code := Trim(referralCode.value);
    var credited := ReferralService.Credited(refs, code, user);
    var ds := ReferralService.SignupDrafts(db.referrals, credited, user);
    (r.Ok? <==> UserExists(db.users, credited))
    && (r.Err? ==>
          r.msg == UserNotFound && db.referrals == refs && db.nextReferralId == nextReferralId
          && db.notifications == notes && db.nextNotificationId == nextNoteId && db.outbox == outbox)
    && (r.Ok? ==>
          r.value == user
          && db.referrals == ReferralService.Signed(refs, code, user, nextReferralId, now)
          && db.nextReferralId == nextReferralId + ReferralService.SignedCount(refs, code, user)
          && db.notifications == notes + NotificationService.Saved(ds, |ds|, nextNoteId, now)
          && db.nextNotificationId == nextNoteId + |ds|
          && db.outbox == outbox + NotificationService.Pushed(db.brokerUp, ds, |ds|, nextNoteId, now))
  }

  // ---------------------------------------------------------------- login

  const BadCredentials := "Bad credentials"
  const Banned := "Your account has been banned. Please contact support."

  /** `userRepository.findByEmail`, exact match. */
  function ByEmail(users: seq<User>, email: string): Lookup<User>
  {
    Single(Filter(users, (u: User) => u.email == email))
  }

  /** A ban with an end that lies strictly before `now`. */
  predicate BanExpired(u: User, now: Time)
  {
    u.banUntil.Some? && u.banUntil.value < now
  }

  /** The row after login lifts an expired ban. */
  function Reactivated(u: User): User
  {
    u.(isActive := true, banUntil := None)
  }

  /** What `login` answers. */
  function LoginResult(users: seq<User>, email: string, authenticated: bool, now: Time): (r: Result<User>)
  {
    if !authenticated then Err(BadCredentials)
    else match ByEmail(users, email)
      case NotFound => Err(UserNotFound)
      case NotUnique => Err(NotUniqueMessage)
      case Found(u) =>
        if u.isActive then Ok(u)
        else if BanExpired(u, now) then Ok(Reactivated(u))
        else Err(Banned)
  }

  /** The users table after `login`: only a lifted ban is saved. */
  function UsersAfterLogin(users: seq<User>, email: string, authenticated: bool, now: Time): (r: seq<User>)
    ensures |r| == |users|
  {
    if !authenticated then users
    else match ByEmail(users, email)
      case Found(u) =>
        if !u.isActive && BanExpired(u, now) && UserIndex(users, u.id).Some?
        then users[UserIndex(users, u.id).value := Reactivated(u)]
        else users
      case _ => users
  }

  /** Nobody who is banned gets in: a successful login always yields an active account, and it is
    * refused as banned exactly when the account found is inactive with no ban end in the past. */
  lemma LoginAdmitsOnlyActive(users: seq<User>, email: string, authenticated: bool, now: Time)
    ensures LoginResult(users, email, authenticated, now).Ok? ==>
      LoginResult(users, email, authenticated, now).value.isActive
      && LoginResult(users, email, authenticated, now).value.banUntil == if ByEmail(users, email).value.isActive
           then ByEmail(users, email).value.banUntil else None
    ensures LoginResult(users, email, authenticated, now) == Err(Banned) <==>
      authenticated && ByEmail(users, email).Found?
      && !ByEmail(users, email).value.isActive && !BanExpired(ByEmail(users, email).value, now)
  {
  }

  /** Table ids are distinct. */
  predicate DistinctUserIds(users: seq<User>)
  {
    forall i, j :: 0 <= i < j < |users| ==> users[i].id != users[j].id
  }

  /** Replacing the only row that satisfies `p` by another row satisfying `p` leaves that row alone. */
  lemma {:induction false} FilterReplaceOnly<T>(s: seq<T>, i: nat, x: T, p: T -> bool)
    requires i < |s| && Filter(s, p) == [s[i]] && p(x)
    ensures Filter(s[i := x], p) == [x]
  {
    if i == 0 {
      assert p(Filter(s, p)[0]);
      assert Filter(s[1..], p) == [];
      assert s[i := x] == [x] + s[1..];
      assert s[i := x][1..] == s[1..];
    } else {
      assert s[i := x][1..] == s[1..][i - 1 := x];
      if p(s[0]) {
        assert false;
      }
      FilterReplaceOnly(s[1..], i - 1, x, p);
    }
  }

  /** Logging in again right after a login changes nothing and gives the same answer: lifting an
    * expired ban is done once. */
  lemma LoginIdempotent(users: seq<User>, email: string, authenticated: bool, now: Time)
    requires DistinctUserIds(users)
    ensures var after := UsersAfterLogin(users, email, authenticated, now);
      UsersAfterLogin(after, email, authenticated, now) == after
      && LoginResult(after, email, authenticated, now) == LoginResult(users, email, authenticated, now)
  {
    var p := (u: User) => u.email == email;
    if authenticated && ByEmail(users, email).Found? {
      var u := ByEmail(users, email).value;
      if !u.isActive && BanExpired(u, now) {
        assert u in users;
        var k :| 0 <= k < |users| && users[k] == u;
        UserIndexComplete(users, u.id);
        var i := UserIndex(users, u.id).value;
        assert i == k;
        FilterReplaceOnly(users, i, Reactivated(u), p);
      }
    }
  }

  /** `userRepository.save` of the reactivated row. */
  method SaveReactivated(db: Db, i: nat, u: User)
    requires db.UsersValid() && i < |db.users| && u.id == db.users[i].id
    modifies db`users
    ensures db.UsersValid()
    ensures db.users == old(db.users)[i := Reactivated(u)]
  {
    db.users := db.users[i := Reactivated(u)];
  }

  /** `login`: check the credentials, look the account up by email, lift an expired ban, refuse a
    * live one. */
  method Login(db: Db, email: string, authenticated: bool, now: Time) returns (r: Result<User>)
    requires db.UsersValid()
    modifies db`users
    ensures db.UsersValid()
    ensures r == LoginResult(old(db.users), email, authenticated, now)
    ensures db.users == UsersAfterLogin(old(db.users), email, authenticated, now)
  {
    if !authenticated {
      return Err(BadCredentials);
    }
    var found := ByEmail(db.users, email);
    if found.NotFound? {
      return Err(UserNotFound);
    } else if found.NotUnique? {
      return Err(NotUniqueMessage);
    }
    var u := found.value;
    if !u.isActive {
      if BanExpired(u, now) {
        assert u in db.users;
        UserIndexComplete(db.users, u.id);
        var i := UserIndex(db.users, u.id).value;
        SaveReactivated(db, i, u);
        return Ok(Reactivated(u));
      } else {
        return Err(Banned);
      }
    }
    r := Ok(u);
  }
}
