/** The start-up runner that makes sure the system has a super admin. */
module SuperAdminInitializer {

  import opened Wrappers
  import opened Seqs
  import opened Entities
  import opened Store
  import AdminService
  import AuthService

  const SuperAdminEmail := "super_admin@buddyfinder.com"

  /** The account the runner builds when no row has the default email; the password is left out. */
  function DefaultSuperAdmin(id: Id): User
  {
    User(id, SuperAdminEmail, "Super Admin", Some(30), Some("Female"),
         Some("Leadership, Fitness, Strategy"), Some("Toronto, ON"), Some("Flexible"),
         None, None, None, None, Some(ELITE), true, None, true, false, false, false)
  }

  /** The two flags the runner sets on the account it keeps. */
  function Promoted(u: User): User
  {
    u.(isAdmin := true, isSuperAdmin := true)
  }

  /** `countByIsSuperAdminTrue() > 0` holds exactly when some row is a super admin. */
  lemma SuperAdminCountPositive(users: seq<User>)
    ensures AdminService.SuperAdminCount(users) > 0 <==> AdminService.HasSuperAdmin(users)
  {
    var p := (u: User) => u.isSuperAdmin;
    if AdminService.HasSuperAdmin(users) {
      var i :| 0 <= i < |users| && users[i].isSuperAdmin;
      assert users[i] in Filter(users, p);
    } else {
      FilterNone(users, p);
    }
  }

  /** The users table after `run`, or the message of the exception it throws: nothing happens when
    * a super admin exists; otherwise the account with the default email is promoted, or a new
    * one is created under the next id. */
  function RunOutcome(users: seq<User>, nextId: Id): Result<seq<User>>
  {
    if AdminService.SuperAdminCount(users) > 0 then Ok(users)
    else match AuthService.ByEmail(users, SuperAdminEmail)
      case NotUnique => Err(NotUniqueMessage)
      case Found(u) =>
        if UserIndex(users, u.id).Some? then Ok(users[UserIndex(users, u.id).value := Promoted(u)]) else Ok(users)
      case NotFound => Ok(users + [Promoted(DefaultSuperAdmin(nextId))])
  }

  /** `run` fails only when several rows carry the default email and there is no super admin, and
    * when it succeeds a super admin exists. */
  lemma RunEnsuresSuperAdmin(users: seq<User>, nextId: Id)
    ensures RunOutcome(users, nextId).Err? <==>
      !AdminService.HasSuperAdmin(users) && AuthService.ByEmail(users, SuperAdminEmail).NotUnique?
    ensures RunOutcome(users, nextId).Ok? ==> AdminService.HasSuperAdmin(RunOutcome(users, nextId).value)
  {
    SuperAdminCountPositive(users);
    if !AdminService.HasSuperAdmin(users) {
      match AuthService.ByEmail(users, SuperAdminEmail)
      case NotUnique =>
      case NotFound =>
        assert (users + [Promoted(DefaultSuperAdmin(nextId))])[|users|].isSuperAdmin;
      case Found(u) =>
        var p := (v: User) => v.email == SuperAdminEmail;
        assert u in Filter(users, p);
        UserIndexComplete(users, u.id);
        var i := UserIndex(users, u.id).value;
        assert users[i := Promoted(u)][i].isSuperAdmin;
    }
  }

  /** With distinct ids, a successful `run` keeps every old row other than the one with the
    * default email as it was, that one only gains the admin flags, and at most one row is added,
    * a super admin with the default email under the next id. */
  lemma RunKeepsOtherRows(users: seq<User>, nextId: Id)
    requires AuthService.DistinctUserIds(users)
    ensures RunOutcome(users, nextId).Ok? ==>
      var after := RunOutcome(users, nextId).value;
      |users| <= |after| <= |users| + 1
      && (forall j :: 0 <= j < |users| ==>
            after[j] == users[j] || (users[j].email == SuperAdminEmail && after[j] == Promoted(users[j])))
      && (|after| == |users| + 1 ==>
            after[|users|] == Promoted(DefaultSuperAdmin(nextId)) && after[|users|].id == nextId)
  {
    if AdminService.SuperAdminCount(users) == 0 && AuthService.ByEmail(users, SuperAdminEmail).Found? {
      var u := AuthService.ByEmail(users, SuperAdminEmail).value;
      var p := (v: User) => v.email == SuperAdminEmail;
      assert u in Filter(users, p);
      var k :| 0 <= k < |users| && users[k] == u;
      UserIndexComplete(users, u.id);
      var i := UserIndex(users, u.id).value;
      assert i == k;
    }
  }

  /** A second run right after a successful one changes nothing. */
  lemma RunOnce(users: seq<User>, nextId: Id, laterId: Id)
    requires RunOutcome(users, nextId).Ok?
    ensures RunOutcome(RunOutcome(users, nextId).value, laterId) == RunOutcome(users, nextId)
  {
    RunEnsuresSuperAdmin(users, nextId);
    SuperAdminCountPositive(RunOutcome(users, nextId).value);
  }

  /** `userRepository.save` of the promoted account, which replaces the row with its id. */
  method SavePromoted(db: Db, i: nat, u: User)
    requires db.UsersValid() && i < |db.users| && u.id == db.users[i].id
    modifies db`users
    ensures db.UsersValid()
    ensures db.users == old(db.users)[i := Promoted(u)]
  {
    db.users := db.users[i := Promoted(u)];
  }

  /** `run` of the start-up runner; the result carries the message of the exception it throws. */
  method Run(db: Db) returns (r: Result<()>)
    requires db.UsersValid()
    modifies db`users, db`nextUserId
    ensures db.UsersValid()
    ensures var outcome := RunOutcome(old(db.users), old(db.nextUserId));
      (outcome.Err? ==> r == Err(outcome.msg) && db.users == old(db.users))
      && (outcome.Ok? ==> r.Ok? && db.users == outcome.value)
    ensures db.nextUserId == if |db.users| > |old(db.users)| then old(db.nextUserId) + 1 else old(db.nextUserId)
  {
    if AdminService.SuperAdminCount(db.users) > 0 {
      return Ok(());
    }
    var found := AuthService.ByEmail(db.users, SuperAdminEmail);
    match found {
      case NotUnique =>
        r := Err(NotUniqueMessage);
      case Found(u) =>
        var i := UserIndex(db.users, u.id);
        if i.Some? {
          SavePromoted(db, i.value, u);
        }
        r := Ok(());
      case NotFound =>
        AppendUser(db, Promoted(DefaultSuperAdmin(db.nextUserId)));
        r := Ok(());
    }
  }
}
