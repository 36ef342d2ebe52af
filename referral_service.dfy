/** `ReferralService`: every user owns a placeholder referral that carries their code; invites and
  * sign-ups add referrals under that code, and three accepted referrals earn a month of Premium. */
module ReferralService {

  import opened Wrappers
  import opened Seqs
  import opened Entities
  import opened Store
  import opened JavaText
  import NotificationService

  // ---------------------------------------------------------------- queries

  /** `isPlaceholderReferral`: the base row, with neither a referred user nor an email. */
  predicate IsPlaceholder(r: Referral)
  {
    r.referredId.None? && r.referredEmail.None?
  }

  function AcceptedBy(userId: Id): Referral -> bool
  {
    (r: Referral) => r.referrerId == userId && r.status == ReferralStatus.ACCEPTED
  }

  function UnclaimedBy(userId: Id): Referral -> bool
  {
    (r: Referral) => r.referrerId == userId && r.status == ReferralStatus.ACCEPTED && !r.rewardClaimed
  }

  /** `countAcceptedReferralsByReferrer`. */
  function AcceptedCount(refs: seq<Referral>, userId: Id): nat
  {
    Count(refs, AcceptedBy(userId))
  }

  /** `hasUnclaimedReward`: at least three accepted referrals whose reward is not claimed yet. */
  predicate HasUnclaimedReward(refs: seq<Referral>, userId: Id)
  {
    Count(refs, UnclaimedBy(userId)) >= 3
  }

  /** An unclaimed reward needs three accepted referrals, so `claimReward`'s second check can only
    * fail once some reward has been claimed. */
  lemma {:induction false} UnclaimedNeedsAccepted(refs: seq<Referral>, userId: Id)
    ensures Count(refs, UnclaimedBy(userId)) <= AcceptedCount(refs, userId)
  {
    if refs != [] {
      UnclaimedNeedsAccepted(refs[1..], userId);
    }
  }

  function NewestFirst(r: Referral): int { -r.createdAt }

  /** `findByReferrer_UserIdOrderByCreatedAtDesc`. */
  function ReferralsOf(refs: seq<Referral>, userId: Id): seq<Referral>
  {
    SortBy(Filter(refs, (r: Referral) => r.referrerId == userId), NewestFirst)
  }

  /** `existsByReferralCode`. */
  predicate CodeTaken(refs: seq<Referral>, code: string)
  {
    exists i :: 0 <= i < |refs| && refs[i].code == code
  }

  // ---------------------------------------------------------------- codes

  predicate IsAsciiAlnum(c: char) { 'a' <= c <= 'z' || 'A' <= c <= 'Z' || '0' <= c <= '9' }

  /** A character of a referral code: an upper-case ASCII letter or a digit. */
  predicate IsCodeChar(c: char) { 'A' <= c <= 'Z' || '0' <= c <= '9' }

  const NamePartLength := 8

  /** The name with every non-alphanumeric character removed, upper-cased and cut to eight. */
  function NamePart(name: string): (r: string)
    ensures |r| <= NamePartLength
    ensures forall k :: 0 <= k < |r| ==> IsCodeChar(r[k])
  {
    var u := ToUpper(Filter(name, IsAsciiAlnum));
    if |u| > NamePartLength then u[..NamePartLength] else u
  }

  /** `String.format("%03d", n)` for `n` below 1000. */
  function ThreeDigits(n: nat): (r: string)
    requires n < 1000
    ensures |r| == 3 && forall k :: 0 <= k < 3 ==> IsDigit(r[k])
  {
    [DigitChar(n / 100), DigitChar(n / 10 % 10), DigitChar(n % 10)]
  }

  /** The three digits read back as the number they render. */
  lemma ThreeDigitsValue(n: nat)
    requires n < 1000
    ensures DecimalValue(ThreeDigits(n)) == n
  {
    var hundreds, tens, units := n / 100, n / 10 % 10, n % 10;
    var r := ThreeDigits(n);
    assert DigitValue(r[0]) == hundreds && DigitValue(r[1]) == tens && DigitValue(r[2]) == units;
    assert r[..2] == [r[0], r[1]];
    assert r[..2][..1] == [r[0]];
    assert [r[0]][..0] == [];
    assert DecimalValue([r[0]]) == hundreds;
    assert DecimalValue(r[..2]) == 10 * hundreds + tens;
    assert DecimalValue(r) == 10 * (10 * hundreds + tens) + units;
    var q := n / 10;
    assert n == 10 * q + units;
    assert q / 10 == hundreds && q % 10 == tens;
    assert q == 10 * hundreds + tens;
  }

  /** `generateCode`: the name part followed by the three digits of `nextInt(1000)`. */
  function GenerateCode(name: string, draw: nat): (code: string)
    requires draw < 1000
    ensures 3 <= |code| <= NamePartLength + 3
    ensures forall k :: 0 <= k < |code| ==> IsCodeChar(code[k])
  {
    NamePart(name) + ThreeDigits(draw)
  }

  /** A code ends in three digits that read back as the draw, after the name part. */
  lemma CodeShape(name: string, draw: nat)
    requires draw < 1000
    ensures var code := GenerateCode(name, draw);
      code[..|code| - 3] == NamePart(name) && DecimalValue(code[|code| - 3..]) == draw
  {
    var code := GenerateCode(name, draw);
    assert code[|code| - 3..] == ThreeDigits(draw);
    ThreeDigitsValue(draw);
  }

  /** Different draws give different codes for the same name, so a retry can find a free code. */
  lemma CodeDrawInjective(name: string, a: nat, b: nat)
    requires a < 1000 && b < 1000
    requires GenerateCode(name, a) == GenerateCode(name, b)
    ensures a == b
  {
    CodeShape(name, a);
    CodeShape(name, b);
  }

  const MaxAttempts := 10

  /** A value of `nextInt(1000)`. */
  type Draw = d: nat | d < 1000
  const CodeFailure := "Failed to generate unique referral code"

  /** The `j`-th draw gives a code some referral already has. */
  predicate DrawTaken(refs: seq<Referral>, name: string, roll: nat -> Draw, j: nat)
  {
    CodeTaken(refs, GenerateCode(name, roll(j)))
  }

  /** The outcome of the draws from the `k`-th on: the first code not taken, or the failure once
    * the tenth draw is also taken. */
  function CodeFrom(refs: seq<Referral>, name: string, roll: nat -> Draw, k: nat): (r: Result<string>)
    requires k <= MaxAttempts
    ensures r.Err? <==> forall j :: k <= j < MaxAttempts ==> DrawTaken(refs, name, roll, j)
    ensures r.Err? ==> r.msg == CodeFailure
    ensures r.Ok? ==> !CodeTaken(refs, r.value)
    decreases MaxAttempts - k
  {
    if k == MaxAttempts then Err(CodeFailure)
    else if !DrawTaken(refs, name, roll, k) then Ok(GenerateCode(name, roll(k)))
    else CodeFrom(refs, name, roll, k + 1)
  }

  /** Every draw from the `k`-th up to, not including, the `j`-th gives a taken code. */
  predicate DrawsTaken(refs: seq<Referral>, name: string, roll: nat -> Draw, k: nat, j: nat)
    decreases j - k
  {
    k >= j || (DrawTaken(refs, name, roll, k) && DrawsTaken(refs, name, roll, k + 1, j))
  }

  /** When draw `j` is the first free one from the `k`-th on, its code is the one found. */
  lemma {:induction false} CodeFromIsFirstFree(refs: seq<Referral>, name: string, roll: nat -> Draw, k: nat, j: nat)
    requires k <= j < MaxAttempts && !DrawTaken(refs, name, roll, j) && DrawsTaken(refs, name, roll, k, j)
    ensures CodeFrom(refs, name, roll, k) == Ok(GenerateCode(name, roll(j)))
    decreases j - k
  {
    if k < j {
      CodeFromIsFirstFree(refs, name, roll, k + 1, j);
    }
  }

  /** The code `generateUniqueReferralCode` settles on for these draws. */
  function UniqueCode(refs: seq<Referral>, name: string, roll: nat -> Draw): Result<string>
  {
    CodeFrom(refs, name, roll, 0)
  }

  /** `generateUniqueReferralCode`: draws codes until one is not taken; `roll(k)` is the value of
    * the k-th `nextInt(1000)`. Ten taken candidates in a row make the eleventh attempt throw. */
  method GenerateUniqueReferralCode(refs: seq<Referral>, name: string, roll: nat -> Draw) returns (r: Result<string>)
    ensures r == UniqueCode(refs, name, roll)
    ensures r.Err? <==> forall k :: 0 <= k < MaxAttempts ==> DrawTaken(refs, name, roll, k)
    ensures r.Err? ==> r.msg == CodeFailure
    ensures r.Ok? ==> !CodeTaken(refs, r.value)
  {
    var attempts := 0;
    while true
      invariant 0 <= attempts <= MaxAttempts
      invariant CodeFrom(refs, name, roll, attempts) == UniqueCode(refs, name, roll)
      decreases MaxAttempts - attempts
    {
      var code := GenerateCode(name, roll(attempts));
      attempts := attempts + 1;
      if attempts > MaxAttempts {
        return Err(CodeFailure);
      }
      if !CodeTaken(refs, code) {
        return Ok(code);
      }
    }
  }

  // ---------------------------------------------------------------- the placeholder

  /** The row `createBaseReferral` saves. */
  function BaseReferral(id: Id, userId: Id, code: string, now: Time): (r: Referral)
    ensures IsPlaceholder(r) && r.referrerId == userId && r.status == ReferralStatus.PENDING
  {
    Referral(id, userId, None, code, None, ReferralStatus.PENDING, now, None, false, None)
  }

  /** `findFirstByReferrer_UserIdAndReferredIsNullAndReferredEmailIsNull`, in id order. */
  function PlaceholderIndex(refs: seq<Referral>, userId: Id): (r: Option<nat>)
    ensures r.Some? ==> r.value < |refs| && IsPlaceholder(refs[r.value]) && refs[r.value].referrerId == userId
    ensures r.None? ==> forall k :: 0 <= k < |refs| ==> !(IsPlaceholder(refs[k]) && refs[k].referrerId == userId)
  {
    IndexWhere(refs, (x: Referral) => IsPlaceholder(x) && x.referrerId == userId)
  }

  /** Appending a row that is not accepted leaves every accepted count as it was. */
  lemma AppendNotAccepted(refs: seq<Referral>, x: Referral, userId: Id)
    requires x.status != ReferralStatus.ACCEPTED
    ensures AcceptedCount(refs + [x], userId) == AcceptedCount(refs, userId)
    ensures Count(refs + [x], UnclaimedBy(userId)) == Count(refs, UnclaimedBy(userId))
  {
    FilterAppend(refs, [x], AcceptedBy(userId));
    FilterAppend(refs, [x], UnclaimedBy(userId));
  }

  /** `createBaseReferral`: saves a PENDING placeholder with a code no referral has yet. */
  method CreateBaseReferral(db: Db, user: User, now: Time, roll: nat -> Draw) returns (r: Result<Referral>)
    requires db.WorkflowsValid()
    modifies db`referrals, db`nextReferralId
    ensures db.WorkflowsValid()
    ensures r.Err? <==> UniqueCode(old(db.referrals), user.name, roll).Err?
    ensures r.Err? ==> r.msg == CodeFailure
    ensures r.Err? ==> db.referrals == old(db.referrals) && db.nextReferralId == old(db.nextReferralId)
    ensures r.Ok? ==> !CodeTaken(old(db.referrals), r.value.code)
    ensures r.Ok? ==> r.value == BaseReferral(old(db.nextReferralId), user.id, UniqueCode(old(db.referrals), user.name, roll).value, now)
    ensures r.Ok? ==> db.referrals == old(db.referrals) + [r.value]
    ensures r.Ok? ==> db.nextReferralId == old(db.nextReferralId) + 1
  {
    var code := GenerateUniqueReferralCode(db.referrals, user.name, roll);
    if code.Err? {
      return Err(code.msg);
    }
    var base := BaseReferral(db.nextReferralId, user.id, code.value, now);
    db.referrals := db.referrals + [base];
    db.nextReferralId := db.nextReferralId + 1;
    return Ok(base);
  }

  /** `ensureBaseReferral`: the user's first placeholder, or a new one. */
  method EnsureBaseReferral(db: Db, user: User, now: Time, roll: nat -> Draw) returns (r: Result<Referral>)
    requires db.WorkflowsValid()
    modifies db`referrals, db`nextReferralId
    ensures db.WorkflowsValid()
    ensures r.Err? ==> r.msg == CodeFailure && PlaceholderIndex(old(db.referrals), user.id).None?
    ensures r.Err? ==> db.referrals == old(db.referrals) && db.nextReferralId == old(db.nextReferralId)
    ensures r.Ok? ==> IsPlaceholder(r.value) && r.value.referrerId == user.id
    ensures PlaceholderIndex(old(db.referrals), user.id).Some? ==>
      r == Ok(old(db.referrals)[PlaceholderIndex(old(db.referrals), user.id).value])
      && db.referrals == old(db.referrals) && db.nextReferralId == old(db.nextReferralId)
    ensures PlaceholderIndex(old(db.referrals), user.id).None? ==>
      (r.Err? <==> UniqueCode(old(db.referrals), user.name, roll).Err?)
    ensures PlaceholderIndex(old(db.referrals), user.id).None? && r.Ok? ==>
      !CodeTaken(old(db.referrals), r.value.code)
      && r.value == BaseReferral(old(db.nextReferralId), user.id, UniqueCode(old(db.referrals), user.name, roll).value, now)
      && db.referrals == old(db.referrals) + [r.value] && db.nextReferralId == old(db.nextReferralId) + 1
  {
    var found := PlaceholderIndex(db.referrals, user.id);
    if found.Some? {
      return Ok(db.referrals[found.value]);
    }
    r := CreateBaseReferral(db, user, now, roll);
  }

  // ---------------------------------------------------------------- getReferralInfo

  datatype ReferralInfo = ReferralInfo(
    referralCode: string,
    referralLink: string,
    totalInvited: nat,
    acceptedCount: nat,
    canClaimReward: bool,
    rewardClaimed: bool,
    featureLocked: bool,
    invites: seq<Referral>)

  const LinkPrefix := "http://localhost:5173/register?ref="
  const RewardThreshold := 3

  /** The refusals of `sendInvite` and `claimReward`. */
  const PerkUsed := "You've already invited 3 friends. This perk can only be used once."
  const EmailRequired := "Email is required"
  const SelfInvite := "You cannot invite yourself"
  const AlreadyRegistered := "This user is already registered"
  const AlreadyInvitedEmail := "You have already invited this email"
  const RewardLocked := "You need 3 accepted referrals to claim reward"
  const RewardClaimed := "Reward already claimed"

  function Claimed(r: Referral): bool { r.rewardClaimed }
  function Invited(r: Referral): bool { !IsPlaceholder(r) }

  /** The response for a user's referrals (newest first, with the placeholder), code and count. */
  function InfoOf(listed: seq<Referral>, code: string, accepted: nat): (info: ReferralInfo)
    ensures info.referralCode == code && info.referralLink == LinkPrefix + code
    ensures info.acceptedCount == accepted
    ensures info.featureLocked <==> accepted >= RewardThreshold
    ensures info.rewardClaimed <==> exists k :: 0 <= k < |listed| && listed[k].rewardClaimed
    ensures info.canClaimReward <==> accepted >= RewardThreshold && !info.rewardClaimed
    ensures info.totalInvited == |info.invites|
    ensures forall k :: 0 <= k < |info.invites| ==> !IsPlaceholder(info.invites[k]) && info.invites[k] in listed
    ensures forall k :: 0 <= k < |listed| && !IsPlaceholder(listed[k]) ==> listed[k] in info.invites
  {
    var claimed := Any(listed, Claimed);
    var invites := Filter(listed, Invited);
    ReferralInfo(code, LinkPrefix + code, |invites|, accepted,
                 accepted >= RewardThreshold && !claimed, claimed, accepted >= RewardThreshold, invites)
  }

  /** `getReferralInfo`: creates the user's placeholder only when their listing has none; the code
    * shown is that of the newest placeholder. */
  method GetReferralInfo(db: Db, userId: Id, now: Time, roll: nat -> Draw) returns (r: Result<ReferralInfo>)
    requires db.WorkflowsValid()
    modifies db`referrals, db`nextReferralId
    ensures db.WorkflowsValid()
    ensures !UserExists(db.users, userId) ==> r == Err(UserNotFound)
    ensures UserExists(db.users, userId) ==>
      (r.Err? <==> !Any(ReferralsOf(old(db.referrals), userId), IsPlaceholder)
                   && UniqueCode(old(db.referrals), FindUser(db.users, userId).value.name, roll).Err?)
    ensures UserExists(db.users, userId) && r.Err? ==> r.msg == CodeFailure
    ensures r.Err? ==> db.referrals == old(db.referrals) && db.nextReferralId == old(db.nextReferralId)
    ensures r.Ok? ==> r.value.acceptedCount == AcceptedCount(old(db.referrals), userId)
    ensures r.Ok? && Any(ReferralsOf(old(db.referrals), userId), IsPlaceholder) ==>
      db.referrals == old(db.referrals) && db.nextReferralId == old(db.nextReferralId)
      && r.value == InfoOf(ReferralsOf(old(db.referrals), userId),
                           ReferralsOf(old(db.referrals), userId)[IndexWhere(ReferralsOf(old(db.referrals), userId), IsPlaceholder).value].code,
                           AcceptedCount(old(db.referrals), userId))
    ensures r.Ok? && !Any(ReferralsOf(old(db.referrals), userId), IsPlaceholder) ==>
      var base := BaseReferral(old(db.nextReferralId), userId, r.value.referralCode, now);
      !CodeTaken(old(db.referrals), r.value.referralCode)
      && r.value.referralCode == UniqueCode(old(db.referrals), FindUser(db.users, userId).value.name, roll).value
      && db.referrals == old(db.referrals) + [base] && db.nextReferralId == old(db.nextReferralId) + 1
      && r.value == InfoOf([base] + ReferralsOf(old(db.referrals), userId), base.code, AcceptedCount(old(db.referrals), userId))
  {
    var user := FindUser(db.users, userId);
    if user.None? {
      return Err(UserNotFound);
    }
    var listed := ReferralsOf(db.referrals, userId);
    var accepted := AcceptedCount(db.referrals, userId);
    var at := IndexWhere(listed, IsPlaceholder);
    var base: Referral;
    if at.Some? {
      base := listed[at.value];
    } else {
      var created := CreateBaseReferral(db, user.value, now, roll);
      if created.Err? {
        return Err(created.msg);
      }
      base := created.value;
      AppendNotAccepted(old(db.referrals), base, userId);
      listed := [base] + listed;
    }
    return Ok(InfoOf(listed, base.code, AcceptedCount(db.referrals, userId)));
  }


  // ---------------------------------------------------------------- sendInvite

  /** `existsByEmail`: some user has exactly this email. */
  predicate EmailRegistered(users: seq<User>, email: string)
  {
    exists i :: 0 <= i < |users| && users[i].email == email
  }

  /** `existsByReferrer_UserIdAndReferredEmail`. */
  predicate AlreadyInvited(refs: seq<Referral>, referrerId: Id, email: string)
  {
    exists i :: 0 <= i < |refs| && refs[i].referrerId == referrerId && refs[i].referredEmail == Some(email)
  }

  /** The first check of `sendInvite` that refuses the invite, with its message. */
  function InviteRefusal(users: seq<User>, refs: seq<Referral>, referrerId: Id, friendEmail: Option<string>): Option<string>
  {
    match FindUser(users, referrerId)
    case None => Some(UserNotFound)
    case Some(referrer) =>
      if AcceptedCount(refs, referrerId) >= RewardThreshold then
        Some(PerkUsed)
      else if friendEmail.None? || Trim(friendEmail.value) == [] then Some(EmailRequired)
      else if EqualsIgnoreCase(friendEmail.value, referrer.email) then Some(SelfInvite)
      else if EmailRegistered(users, friendEmail.value) then Some(AlreadyRegistered)
      else if AlreadyInvited(refs, referrerId, friendEmail.value) then Some(AlreadyInvitedEmail)
      else None
  }

  /** The invite row `sendInvite` saves. */
  function Invite(id: Id, referrerId: Id, code: string, email: string, now: Time): Referral
  {
    Referral(id, referrerId, None, code, Some(email), ReferralStatus.PENDING, now, None, false, None)
  }

  /** Saves an invite under the given code. */
  method SaveInvite(db: Db, referrerId: Id, code: string, email: string, now: Time) returns (invite: Referral)
    requires db.WorkflowsValid()
    modifies db`referrals, db`nextReferralId
    ensures db.WorkflowsValid()
    ensures invite == Invite(old(db.nextReferralId), referrerId, code, email, now)
    ensures db.referrals == old(db.referrals) + [invite] && db.nextReferralId == old(db.nextReferralId) + 1
  {
    invite := Invite(db.nextReferralId, referrerId, code, email, now);
    db.referrals := db.referrals + [invite];
    db.nextReferralId := db.nextReferralId + 1;
  }

  /** `sendInvite`: after the checks, one PENDING invite carrying the referrer's base code,
    * creating the placeholder first when the referrer has none. */
  method SendInvite(db: Db, referrerId: Id, friendEmail: Option<string>, now: Time, roll: nat -> Draw)
    returns (r: Result<Referral>)
    requires db.WorkflowsValid()
    modifies db`referrals, db`nextReferralId
    ensures db.WorkflowsValid()
    ensures r.Err? ==> db.referrals == old(db.referrals) && db.nextReferralId == old(db.nextReferralId)
    ensures InviteRefusal(db.users, old(db.referrals), referrerId, friendEmail).Some? ==>
      r == Err(InviteRefusal(db.users, old(db.referrals), referrerId, friendEmail).value)
    ensures r.Ok? ==> InviteRefusal(db.users, old(db.referrals), referrerId, friendEmail).None? && friendEmail.Some?
    ensures InviteRefusal(db.users, old(db.referrals), referrerId, friendEmail).None? ==>
      (r.Err? <==> PlaceholderIndex(old(db.referrals), referrerId).None?
                   && UniqueCode(old(db.referrals), FindUser(db.users, referrerId).value.name, roll).Err?)
      && (r.Err? ==> r.msg == CodeFailure)
    ensures r.Ok? && PlaceholderIndex(old(db.referrals), referrerId).Some? ==>
      var base := old(db.referrals)[PlaceholderIndex(old(db.referrals), referrerId).value];
      r.value == Invite(old(db.nextReferralId), referrerId, base.code, friendEmail.value, now)
      && db.referrals == old(db.referrals) + [r.value] && db.nextReferralId == old(db.nextReferralId) + 1
    ensures r.Ok? && PlaceholderIndex(old(db.referrals), referrerId).None? ==>
      var base := BaseReferral(old(db.nextReferralId), referrerId, r.value.code, now);
      !CodeTaken(old(db.referrals), r.value.code)
      && r.value.code == UniqueCode(old(db.referrals), FindUser(db.users, referrerId).value.name, roll).value
      && r.value == Invite(old(db.nextReferralId) + 1, referrerId, base.code, friendEmail.value, now)
      && db.referrals == old(db.referrals) + [base, r.value] && db.nextReferralId == old(db.nextReferralId) + 2
  {
    var refusal := InviteRefusal(db.users, db.referrals, referrerId, friendEmail);
    if refusal.Some? {
      return Err(refusal.value);
    }
    r := InviteWithBase(db, FindUser(db.users, referrerId).value, friendEmail.value, now, roll);
  }

  /** The saving half of `sendInvite`: the referrer's placeholder, created when missing, then the
    * invite under its code. */
  method InviteWithBase(db: Db, user: User, email: string, now: Time, roll: nat -> Draw) returns (r: Result<Referral>)
    requires db.WorkflowsValid()
    modifies db`referrals, db`nextReferralId
    ensures db.WorkflowsValid()
    ensures r.Err? <==> PlaceholderIndex(old(db.referrals), user.id).None? && UniqueCode(old(db.referrals), user.name, roll).Err?
    ensures r.Err? ==>
      r.msg == CodeFailure && db.referrals == old(db.referrals) && db.nextReferralId == old(db.nextReferralId)
    ensures PlaceholderIndex(old(db.referrals), user.id).Some? ==>
      var base := old(db.referrals)[PlaceholderIndex(old(db.referrals), user.id).value];
      r == Ok(Invite(old(db.nextReferralId), user.id, base.code, email, now))
      && db.referrals == old(db.referrals) + [r.value] && db.nextReferralId == old(db.nextReferralId) + 1
    ensures PlaceholderIndex(old(db.referrals), user.id).None? && r.Ok? ==>
      var base := BaseReferral(old(db.nextReferralId), user.id, UniqueCode(old(db.referrals), user.name, roll).value, now);
      !CodeTaken(old(db.referrals), base.code)
      && r.value == Invite(old(db.nextReferralId) + 1, user.id, base.code, email, now)
      && db.referrals == old(db.referrals) + [base, r.value] && db.nextReferralId == old(db.nextReferralId) + 2
  {
    if PlaceholderIndex(db.referrals, user.id).None? {
      r := InviteWithNewBase(db, user, email, now, roll);
      return;
    }
    var base := EnsureBaseReferral(db, user, now, roll);
    var invite := SaveInvite(db, user.id, base.value.code, email, now);
    r := Ok(invite);
  }

  /** The invite of a referrer without a placeholder yet: the placeholder is created first, and
    * when no free code is found nothing is saved. */
  method InviteWithNewBase(db: Db, user: User, email: string, now: Time, roll: nat -> Draw) returns (r: Result<Referral>)
    requires db.WorkflowsValid() && PlaceholderIndex(db.referrals, user.id).None?
    modifies db`referrals, db`nextReferralId
    ensures db.WorkflowsValid()
    ensures r.Err? <==> UniqueCode(old(db.referrals), user.name, roll).Err?
    ensures r.Err? ==>
      r.msg == CodeFailure && db.referrals == old(db.referrals) && db.nextReferralId == old(db.nextReferralId)
    ensures r.Ok? ==>
      var base := BaseReferral(old(db.nextReferralId), user.id, UniqueCode(old(db.referrals), user.name, roll).value, now);
      !CodeTaken(old(db.referrals), base.code)
      && r.value == Invite(old(db.nextReferralId) + 1, user.id, base.code, email, now)
      && db.referrals == old(db.referrals) + [base, r.value] && db.nextReferralId == old(db.nextReferralId) + 2
  {
    var base := EnsureBaseReferral(db, user, now, roll);
    if base.Err? {
      return Err(base.msg);
    }
    var invite := SaveInvite(db, user.id, base.value.code, email, now);
    r := Ok(invite);
  }

  /** Once an invite is saved, sending the same invite again is refused as a repeat. */
  lemma InviteNotRepeated(users: seq<User>, refs: seq<Referral>, referrerId: Id, email: string, invite: Referral)
    requires InviteRefusal(users, refs, referrerId, Some(email)).None?
    requires invite.referrerId == referrerId && invite.referredEmail == Some(email)
    requires invite.status == ReferralStatus.PENDING
    ensures InviteRefusal(users, refs + [invite], referrerId, Some(email)) == Some(AlreadyInvitedEmail)
  {
    var after := refs + [invite];
    AppendNotAccepted(refs, invite, referrerId);
    assert AlreadyInvited(after, referrerId, email) by {
      assert after[|refs|] == invite;
    }
    var referrer := FindUser(users, referrerId).value;
    assert AcceptedCount(after, referrerId) < RewardThreshold;
    assert !(Trim(email) == []) && !EqualsIgnoreCase(email, referrer.email) && !EmailRegistered(users, email);
  }

  // ---------------------------------------------------------------- processReferralSignup

  /** `findAllByReferralCode`. */
  function ByCode(refs: seq<Referral>, code: string): seq<Referral>
  {
    Filter(refs, (x: Referral) => x.code == code)
  }

  /** The first invite under the code whose email equals the new user's, ignoring case. */
  function EmailMatch(refs: seq<Referral>, code: string, email: string): (r: Option<nat>)
    ensures r.Some? ==> r.value < |refs| && refs[r.value].code == code
  {
    IndexWhere(refs, (x: Referral) => x.code == code && x.referredEmail.Some? && EqualsIgnoreCase(x.referredEmail.value, email))
  }

  /** The referral whose referrer is credited when no invite matches: the first placeholder under
    * the code, else the first row under it. */
  function Holder(byCode: seq<Referral>): (h: Referral)
    requires byCode != []
    ensures h in byCode
  {
    match IndexWhere(byCode, IsPlaceholder)
    case Some(i) => byCode[i]
    case None => byCode[0]
  }

  /** The invite row after its friend signed up. */
  function Accept(r: Referral, userId: Id, now: Time): Referral
  {
    r.(referredId := Some(userId), status := ReferralStatus.ACCEPTED, acceptedAt := Some(now))
  }

  /** The referral saved for a sign-up under a code with no matching invite. */
  function Joined(id: Id, referrerId: Id, code: string, user: User, now: Time): Referral
  {
    Referral(id, referrerId, Some(user.id), code, Some(user.email), ReferralStatus.ACCEPTED, now, Some(now), false, None)
  }

  /** The referrer credited by a sign-up under a known code. */
  function Credited(refs: seq<Referral>, code: string, user: User): Id
    requires ByCode(refs, code) != []
  {
    match EmailMatch(refs, code, user.email)
    case Some(i) => refs[i].referrerId
    case None => Holder(ByCode(refs, code)).referrerId
  }

  /** The referrals after a sign-up under a known code. */
  function Signed(refs: seq<Referral>, code: string, user: User, nextId: Id, now: Time): seq<Referral>
    requires ByCode(refs, code) != []
  {
    match EmailMatch(refs, code, user.email)
    case Some(i) => refs[i := Accept(refs[i], user.id, now)]
    case None => refs + [Joined(nextId, Credited(refs, code, user), code, user, now)]
  }

  /** How many rows a sign-up under a known code adds: none when an invite matches the new user's
    * email, since that invite is updated in place, and otherwise the one new row. */
  function SignedCount(refs: seq<Referral>, code: string, user: User): (n: nat)
    requires ByCode(refs, code) != []
    ensures n <= 1
    ensures n == 0 <==> EmailMatch(refs, code, user.email).Some?
  {
    if EmailMatch(refs, code, user.email).Some? then 0 else 1
  }

  /** The table grows by exactly `SignedCount` rows in a sign-up. */
  lemma SignedGrowsByCount(refs: seq<Referral>, code: string, user: User, nextId: Id, now: Time)
    requires ByCode(refs, code) != []
    ensures |Signed(refs, code, user, nextId, now)| == |refs| + SignedCount(refs, code, user)
  {
  }

  /** After a sign-up the new user is on an ACCEPTED referral under the code, and the credited
    * referrer is the referrer of some referral that already had the code. */
  lemma SignedRecordsUser(refs: seq<Referral>, code: string, user: User, nextId: Id, now: Time)
    requires ByCode(refs, code) != []
    ensures var after := Signed(refs, code, user, nextId, now);
      exists i :: 0 <= i < |after| && after[i].referredId == Some(user.id) && after[i].code == code
        && after[i].status == ReferralStatus.ACCEPTED && after[i].acceptedAt == Some(now)
        && after[i].referrerId == Credited(refs, code, user)
    ensures exists j :: 0 <= j < |refs| && refs[j].code == code && refs[j].referrerId == Credited(refs, code, user)
  {
    var after := Signed(refs, code, user, nextId, now);
    match EmailMatch(refs, code, user.email)
    case Some(i) =>
      assert after[i] == Accept(refs[i], user.id, now);
    case None =>
      assert after[|refs|] == Joined(nextId, Credited(refs, code, user), code, user, now);
      var h := Holder(ByCode(refs, code));
      assert h.code == code;
  }

  /** A sign-up changes at most one existing row, and then only that invite; otherwise it appends one. */
  lemma SignedKeepsOthers(refs: seq<Referral>, code: string, user: User, nextId: Id, now: Time)
    requires ByCode(refs, code) != []
    ensures var after := Signed(refs, code, user, nextId, now);
      match EmailMatch(refs, code, user.email)
      case Some(i) => |after| == |refs| && forall k :: 0 <= k < |refs| && k != i ==> after[k] == refs[k]
      case None => after[..|refs|] == refs && |after| == |refs| + 1
  {
  }

  function JoinedDraft(referrerId: Id, newUser: User): NotificationService.Draft
  {
    NotificationService.Draft(referrerId, SYSTEM, "Friend Joined! \U{1F389}",
      newUser.name + " just signed up using your referral link!", Some(newUser.id), Some("REFERRAL"))
  }

  function RewardDraft(referrerId: Id): NotificationService.Draft
  {
    NotificationService.Draft(referrerId, SYSTEM, "Claim Your Reward! \U{1F381}",
      "You've referred 3 friends! Claim your FREE month of Premium now!", Some(referrerId), Some("REWARD"))
  }

  /** The notifications of a sign-up: the referrer hears of the friend, and of a reward waiting. */
  function SignupDrafts(refs: seq<Referral>, referrerId: Id, newUser: User): (ds: seq<NotificationService.Draft>)
    ensures 1 <= |ds| <= 2 && forall k :: 0 <= k < |ds| ==> ds[k].userId == referrerId
    ensures |ds| == 2 <==> HasUnclaimedReward(refs, referrerId)
  {
    [JoinedDraft(referrerId, newUser)] + (if HasUnclaimedReward(refs, referrerId) then [RewardDraft(referrerId)] else [])
  }

  /** A code that is given, not blank once trimmed, and carried by some referral. */
  predicate KnownCode(refs: seq<Referral>, referralCode: Option<string>)
  {
    referralCode.Some? && Trim(referralCode.value) != [] && ByCode(refs, Trim(referralCode.value)) != []
  }

  /** The invariants of the tables a sign-up touches. */
  ghost predicate SignupTablesValid(db: Db)
    reads db
  {
    db.WorkflowsValid() && db.NotificationsValid()
  }

  /** `processReferralSignup`: a blank or unknown code does nothing; otherwise the new user is
    * recorded as ACCEPTED under the code and the credited referrer is notified. */
  method ProcessReferralSignup(db: Db, referralCode: Option<string>, newUserId: Id, now: Time) returns (r: Result<()>)
    requires SignupTablesValid(db)
    modifies db`referrals, db`nextReferralId, db`notifications, db`nextNotificationId, db`outbox
    ensures SignupTablesValid(db)
    ensures r.Err? ==> db.referrals == old(db.referrals) && db.nextReferralId == old(db.nextReferralId)
    ensures r.Err? ==>
      r.msg == UserNotFound && db.notifications == old(db.notifications)
      && db.nextNotificationId == old(db.nextNotificationId) && db.outbox == old(db.outbox)
    ensures !KnownCode(old(db.referrals), referralCode) ==>
      r.Ok? && db.referrals == old(db.referrals) && db.nextReferralId == old(db.nextReferralId)
      && db.notifications == old(db.notifications) && db.outbox == old(db.outbox)
      && db.nextNotificationId == old(db.nextNotificationId)
    ensures KnownCode(old(db.referrals), referralCode) && !UserExists(db.users, newUserId) ==> r == Err(UserNotFound)
    ensures KnownCode(old(db.referrals), referralCode) && UserExists(db.users, newUserId) ==>
      (r.Ok? <==> UserExists(db.users, Credited(old(db.referrals), Trim(referralCode.value), FindUser(db.users, newUserId).value)))
    ensures r.Ok? && KnownCode(old(db.referrals), referralCode) ==>
      var code := Trim(referralCode.value);
      var user := FindUser(db.users, newUserId).value;
      var ds := SignupDrafts(db.referrals, Credited(old(db.referrals), code, user), user);
      UserExists(db.users, newUserId)
      && db.referrals == Signed(old(db.referrals), code, user, old(db.nextReferralId), now)
      && db.nextReferralId == old(db.nextReferralId) + SignedCount(old(db.referrals), code, user)
      && db.notifications == old(db.notifications) + NotificationService.Saved(ds, |ds|, old(db.nextNotificationId), now)
      && db.nextNotificationId == old(db.nextNotificationId) + |ds|
      && db.outbox == old(db.outbox) + NotificationService.Pushed(db.brokerUp, ds, |ds|, old(db.nextNotificationId), now)
  {
    if !KnownCode(db.referrals, referralCode) {
      return Ok(());
    }
    var code := Trim(referralCode.value);
    var user := FindUser(db.users, newUserId);
    if user.None? {
      return Err(UserNotFound);
    }
    r := SignupUnderCode(db, code, user.value, now);
  }

  /** A sign-up under a known code, inside one transaction: record, notify, or roll back. */
  method SignupUnderCode(db: Db, code: string, user: User, now: Time) returns (r: Result<()>)
    requires SignupTablesValid(db) && ByCode(db.referrals, code) != []
    modifies db`referrals, db`nextReferralId, db`notifications, db`nextNotificationId, db`outbox
    ensures SignupTablesValid(db)
    ensures r.Ok? <==> UserExists(db.users, Credited(old(db.referrals), code, user))
    ensures r.Err? ==> r.msg == UserNotFound
    ensures r.Err? ==> db.referrals == old(db.referrals) && db.nextReferralId == old(db.nextReferralId)
    ensures r.Err? ==>
      db.notifications == old(db.notifications)
      && db.nextNotificationId == old(db.nextNotificationId) && db.outbox == old(db.outbox)
    ensures r.Ok? ==>
      var ds := SignupDrafts(db.referrals, Credited(old(db.referrals), code, user), user);
      db.referrals == Signed(old(db.referrals), code, user, old(db.nextReferralId), now)
      && db.nextReferralId == old(db.nextReferralId) + SignedCount(old(db.referrals), code, user)
      && db.notifications == old(db.notifications) + NotificationService.Saved(ds, |ds|, old(db.nextNotificationId), now)
      && db.nextNotificationId == old(db.nextNotificationId) + |ds|
      && db.outbox == old(db.outbox) + NotificationService.Pushed(db.brokerUp, ds, |ds|, old(db.nextNotificationId), now)
  {
    var savedRefs, savedNext := db.referrals, db.nextReferralId;
    var referrerId := Credited(db.referrals, code, user);
    RecordSignup(db, code, user, now);
    var sent := NotifySignup(db, referrerId, user, now);
    if sent.Err? {
      RestoreReferrals(db, savedRefs, savedNext);
      return Err(sent.msg);
    }
    return Ok(());
  }

  /** The rollback of a failed transaction on the referrals table. */
  method RestoreReferrals(db: Db, refs: seq<Referral>, next: Id)
    requires SignupTablesValid(db) && ReferralIdsBelow(refs, next)
    modifies db`referrals, db`nextReferralId
    ensures SignupTablesValid(db)
    ensures db.referrals == refs && db.nextReferralId == next
  {
    db.referrals, db.nextReferralId := refs, next;
  }

  /** Saves the referral side of a sign-up under a known code. */
  method RecordSignup(db: Db, code: string, user: User, now: Time)
    requires SignupTablesValid(db) && ByCode(db.referrals, code) != []
    modifies db`referrals, db`nextReferralId
    ensures SignupTablesValid(db)
    ensures db.referrals == Signed(old(db.referrals), code, user, old(db.nextReferralId), now)
    ensures db.nextReferralId == old(db.nextReferralId) + SignedCount(old(db.referrals), code, user)
  {
    var m := EmailMatch(db.referrals, code, user.email);
    if m.Some? {
      db.referrals := db.referrals[m.value := Accept(db.referrals[m.value], user.id, now)];
    } else {
      db.referrals := db.referrals + [Joined(db.nextReferralId, Credited(db.referrals, code, user), code, user, now)];
      db.nextReferralId := db.nextReferralId + 1;
    }
  }

  /** The notifications of a sign-up, sent inside its transaction. */
  method NotifySignup(db: Db, referrerId: Id, user: User, now: Time) returns (r: Result<()>)
    requires SignupTablesValid(db)
    modifies db`notifications, db`nextNotificationId, db`outbox
    ensures SignupTablesValid(db)
    ensures r.Ok? <==> UserExists(db.users, referrerId)
    ensures r.Err? ==>
      r.msg == UserNotFound && db.notifications == old(db.notifications)
      && db.nextNotificationId == old(db.nextNotificationId) && db.outbox == old(db.outbox)
    ensures r.Ok? ==>
      var ds := SignupDrafts(db.referrals, referrerId, user);
      db.notifications == old(db.notifications) + NotificationService.Saved(ds, |ds|, old(db.nextNotificationId), now)
      && db.nextNotificationId == old(db.nextNotificationId) + |ds|
      && db.outbox == old(db.outbox) + NotificationService.Pushed(db.brokerUp, ds, |ds|, old(db.nextNotificationId), now)
  {
    var ds := SignupDrafts(db.referrals, referrerId, user);
    var sent := NotificationService.NotifyEach(db, ds, now);
    SignupDraftsReachReferrer(db.users, db.referrals, referrerId, user);
    r := if sent.Ok? then Ok(()) else Err(sent.msg);
  }

  /** Every notice of a sign-up goes to the referrer, so the batch finds all its recipients exactly
    * when the referrer has a row. */
  lemma SignupDraftsReachReferrer(users: seq<User>, refs: seq<Referral>, referrerId: Id, user: User)
    ensures NotificationService.FirstMissing(users, SignupDrafts(refs, referrerId, user)).None?
        <==> UserExists(users, referrerId)
  {
    var ds := SignupDrafts(refs, referrerId, user);
    assert ds[0].userId == referrerId;
    if |ds| == 2 {
      assert ds[1..][0].userId == referrerId;
      assert ds[1..][1..] == [];
    } else {
      assert ds[1..] == [];
    }
  }

  // ---------------------------------------------------------------- claimReward

  /** The table after the rows with the picked ids are marked claimed at `now`. */
  function MarkClaimed(refs: seq<Referral>, ids: set<Id>, now: Time): (r: seq<Referral>)
    ensures |r| == |refs|
    ensures forall i :: 0 <= i < |refs| ==> r[i].id == refs[i].id
  {
    Map(refs, (x: Referral) => if x.id in ids then x.(rewardClaimed := true, rewardClaimedAt := Some(now)) else x)
  }

  function Unclaimed(x: Referral): bool { x.status == ReferralStatus.ACCEPTED && !x.rewardClaimed }

  /** The referrals `claimReward` marks: the user's accepted, unclaimed ones, newest first, at most three. */
  function RewardBatch(refs: seq<Referral>, userId: Id): (b: seq<Referral>)
    ensures |b| <= RewardThreshold
  {
    var pending := Filter(ReferralsOf(refs, userId), Unclaimed);
    if |pending| > RewardThreshold then pending[..RewardThreshold] else pending
  }

  /** Every referral of the batch is one of the user's accepted, unclaimed referrals. */
  lemma RewardBatchIsUnclaimed(refs: seq<Referral>, userId: Id)
    ensures forall k :: 0 <= k < |RewardBatch(refs, userId)| ==>
      UnclaimedBy(userId)(RewardBatch(refs, userId)[k]) && RewardBatch(refs, userId)[k] in refs
  {
    var mine := Filter(refs, (r: Referral) => r.referrerId == userId);
    SortByElements(mine, NewestFirst);
    var pending := Filter(ReferralsOf(refs, userId), Unclaimed);
    forall k | 0 <= k < |RewardBatch(refs, userId)|
      ensures UnclaimedBy(userId)(RewardBatch(refs, userId)[k]) && RewardBatch(refs, userId)[k] in refs
    {
      assert RewardBatch(refs, userId)[k] == pending[k];
    }
  }

  function IdsOf(b: seq<Referral>): set<Id>
  {
    set x | x in b :: x.id
  }

  /** Marking one more picked row extends the marked set. */
  lemma MarkOneMore(refs: seq<Referral>, b: seq<Referral>, k: nat, now: Time)
    requires k < |b|
    ensures MarkClaimed(MarkClaimed(refs, IdsOf(b[..k]), now), {b[k].id}, now) == MarkClaimed(refs, IdsOf(b[..k + 1]), now)
  {
    assert b[..k + 1] == b[..k] + [b[k]];
    assert IdsOf(b[..k + 1]) == IdsOf(b[..k]) + {b[k].id};
  }

  /** The `forEach` of `claimReward`: saves each picked referral as claimed. */
  method MarkBatch(db: Db, batch: seq<Referral>, now: Time)
    requires db.WorkflowsValid()
    modifies db`referrals
    ensures db.WorkflowsValid()
    ensures db.referrals == MarkClaimed(old(db.referrals), IdsOf(batch), now)
  {
    ghost var refs := db.referrals;
    assert MarkClaimed(refs, IdsOf(batch[..0]), now) == refs;
    var k := 0;
    while k < |batch|
      invariant 0 <= k <= |batch|
      invariant db.WorkflowsValid()
      invariant db.referrals == MarkClaimed(refs, IdsOf(batch[..k]), now)
    {
      MarkOneMore(refs, batch, k, now);
      db.referrals := MarkClaimed(db.referrals, {batch[k].id}, now);
      k := k + 1;
    }
    assert batch[..k] == batch;
  }

  /** Marking changes nothing but the claim fields of the picked rows. */
  lemma MarkClaimedOnlyPicked(refs: seq<Referral>, ids: set<Id>, now: Time, i: nat)
    requires i < |refs|
    ensures var after := MarkClaimed(refs, ids, now)[i];
      (refs[i].id in ids ==> after.rewardClaimed && after.rewardClaimedAt == Some(now)
                             && after.(rewardClaimed := refs[i].rewardClaimed, rewardClaimedAt := refs[i].rewardClaimedAt) == refs[i])
      && (refs[i].id !in ids ==> after == refs[i])
  {
  }

  /** The user row after `claimReward`: FREE becomes PREMIUM, any other tier stays. */
  function Upgraded(u: User): User
  {
    if u.tier == Some(FREE) then u.(tier := Some(PREMIUM)) else u
  }

  function PremiumDraft(userId: Id): NotificationService.Draft
  {
    NotificationService.Draft(userId, SYSTEM, "Premium Activated! \U{1F389}",
      "Your FREE month of Premium has been activated! Enjoy all premium features.", Some(userId), Some("REWARD"))
  }

  /** The first check of `claimReward` that refuses the claim. */
  function ClaimRefusal(users: seq<User>, refs: seq<Referral>, userId: Id): Option<string>
  {
    if !UserExists(users, userId) then Some(UserNotFound)
    else if AcceptedCount(refs, userId) < RewardThreshold then Some(RewardLocked)
    else if !HasUnclaimedReward(refs, userId) then Some(RewardClaimed)
    else None
  }

  /** A claim goes through exactly when the user has an unclaimed reward; the count check only
    * changes the message. */
  lemma ClaimAllowedIff(users: seq<User>, refs: seq<Referral>, userId: Id)
    ensures ClaimRefusal(users, refs, userId).None? <==> UserExists(users, userId) && HasUnclaimedReward(refs, userId)
  {
    UnclaimedNeedsAccepted(refs, userId);
  }

  /** The invariants of the tables `claimReward` touches. */
  ghost predicate ClaimTablesValid(db: Db)
    reads db
  {
    db.UsersValid() && db.WorkflowsValid() && db.NotificationsValid()
  }

  /** Saves the upgraded user row. */
  method SaveUpgraded(db: Db, i: nat, userId: Id)
    requires ClaimTablesValid(db) && i < |db.users|
    modifies db`users
    ensures ClaimTablesValid(db)
    ensures db.users == old(db.users)[i := Upgraded(old(db.users)[i])]
    ensures UserIndex(db.users, userId) == UserIndex(old(db.users), userId)
  {
    UserIndexAfterSave(db.users, i, Upgraded(db.users[i]), userId);
    db.users := db.users[i := Upgraded(db.users[i])];
  }

  /** Saves each referral of the batch as claimed. */
  method SaveClaims(db: Db, userId: Id, now: Time)
    requires ClaimTablesValid(db)
    modifies db`referrals
    ensures ClaimTablesValid(db)
    ensures db.referrals == MarkClaimed(old(db.referrals), IdsOf(RewardBatch(old(db.referrals), userId)), now)
  {
    MarkBatch(db, RewardBatch(db.referrals, userId), now);
  }

  /** Notifies the user of the upgrade. */
  method NotifyPremium(db: Db, userId: Id, now: Time)
    requires ClaimTablesValid(db) && UserExists(db.users, userId)
    modifies db`notifications, db`nextNotificationId, db`outbox
    ensures ClaimTablesValid(db)
    ensures db.notifications == old(db.notifications) + [NotificationService.Stored(PremiumDraft(userId), old(db.nextNotificationId), now)]
    ensures db.nextNotificationId == old(db.nextNotificationId) + 1
    ensures db.outbox == old(db.outbox) + NotificationService.Deliver(db.brokerUp, NotificationService.Stored(PremiumDraft(userId), old(db.nextNotificationId), now))
  {
    var sent := NotificationService.CreateNotification(db, PremiumDraft(userId), now);
  }

  /** `claimReward`. */
  method ClaimReward(db: Db, userId: Id, now: Time) returns (r: Result<()>)
    requires db.UsersValid() && db.WorkflowsValid() && db.NotificationsValid()
    modifies db`users, db`referrals, db`notifications, db`nextNotificationId, db`outbox
    ensures db.UsersValid() && db.WorkflowsValid() && db.NotificationsValid()
    ensures ClaimRefusal(old(db.users), old(db.referrals), userId).Some? ==>
      r == Err(ClaimRefusal(old(db.users), old(db.referrals), userId).value)
      && db.users == old(db.users) && db.referrals == old(db.referrals) && db.notifications == old(db.notifications)
      && db.nextNotificationId == old(db.nextNotificationId) && db.outbox == old(db.outbox)
    ensures r.Ok? <==> ClaimRefusal(old(db.users), old(db.referrals), userId).None?
    ensures r.Ok? ==>
      var i := UserIndex(old(db.users), userId).value;
      db.users == old(db.users)[i := Upgraded(old(db.users)[i])]
      && db.referrals == MarkClaimed(old(db.referrals), IdsOf(RewardBatch(old(db.referrals), userId)), now)
      && db.notifications == old(db.notifications) + [NotificationService.Stored(PremiumDraft(userId), old(db.nextNotificationId), now)]
      && db.nextNotificationId == old(db.nextNotificationId) + 1
      && db.outbox == old(db.outbox) + NotificationService.Deliver(db.brokerUp, NotificationService.Stored(PremiumDraft(userId), old(db.nextNotificationId), now))
  {
    var refusal := ClaimRefusal(db.users, db.referrals, userId);
    if refusal.Some? {
      return Err(refusal.value);
    }
    Grant(db, UserIndex(db.users, userId).value, userId, now);
    return Ok(());
  }

  /** The granting half of `claimReward`: upgrade, mark, notify. */
  method Grant(db: Db, i: nat, userId: Id, now: Time)
    requires ClaimTablesValid(db)
    requires UserIndex(db.users, userId) == Some(i)
    modifies db`users, db`referrals, db`notifications, db`nextNotificationId, db`outbox
    ensures ClaimTablesValid(db)
    ensures db.users == old(db.users)[i := Upgraded(old(db.users)[i])]
    ensures db.referrals == MarkClaimed(old(db.referrals), IdsOf(RewardBatch(old(db.referrals), userId)), now)
    ensures db.notifications == old(db.notifications) + [NotificationService.Stored(PremiumDraft(userId), old(db.nextNotificationId), now)]
    ensures db.nextNotificationId == old(db.nextNotificationId) + 1
    ensures db.outbox == old(db.outbox) + NotificationService.Deliver(db.brokerUp, NotificationService.Stored(PremiumDraft(userId), old(db.nextNotificationId), now))
  {
    SaveUpgraded(db, i, userId);
    SaveClaims(db, userId, now);
    NotifyPremium(db, userId, now);
  }
}
