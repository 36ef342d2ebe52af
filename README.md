# BuddyFinder backend core, modelled in Dafny

BuddyFinder is a Spring Boot service that pairs people for sport and fitness activities. Members
like or pass one another, match, and chat one to one. They also create activities that others
join, each activity with its own group chat room. Around this sit several workflows:

- notifications;
- refund, identity-verification, report and support requests, handled by admins;
- referrals that unlock a premium reward;
- ratings;
- an admin console guarded by a "last super admin" rule.

This project models the services of that core in Dafny and proves what they promise.

- **Repositories** are one in-memory store, the class `Store.Db`. It holds every table as a
  sequence in insertion order, plus one identity counter per table. A query in `findAll` order
  reads the sequence in order. An `ORDER BY` is a stable sort of it, so ties keep store order.
- **Entities** are datatypes (`Entities`). A null column is an `Option`, and an enum is a
  datatype of constants.
- **Service operations** that change tables are methods over `Db`. Their `modifies` clauses name
  the tables they touch. Each method states its result and its whole new state on every path,
  success and each error, including the notification counter and the pushes handed to the broker.
  Errors are `Result` values carrying the exception message the service throws.
- **Transactions.** A `@Transactional` operation that fails leaves every table and counter as it
  was. Operations that are not transactional keep whatever they saved before the failure.
- **Pure code is functions and lemmas:**
  - the sanitizer;
  - the premium check;
  - the photo list kept as JSON text;
  - the search predicates;
  - the Cloudinary URL parsing;
  - the referral code shape;
  - the Java string operations they rely on (`JavaText`).
- **Parameters instead of effects.** The clock, generated ids, random draws, the password check
  and the answers of foreign services are parameters.
- **Outbox.** A push to the notification broker is an entry appended to the `outbox` sequence.

Where the service's documentation and its code differ, the model follows the code. Examples:

- `joinActivity` returns every refusal as its message text instead of throwing;
- `processRefund` with REJECT does not check the current status;
- a like's reverse lookup ignores whether the reverse row was a PASS.

The one departure is the report read-back described under "## Findings". `submitReport` and `addMessage`
are modelled twice: as written (`SubmitReportAsWritten`, `AddMessageAsWritten`, which roll back a
message without an attachment) and corrected (`SubmitReport`, `AddMessage`, which keep it).
`GetReportById` and `UpdateStatus` also read reports through the corrected view `MapReport`. They agree
with the code on every report table the as-written operations can produce, since those never hold a
message without an attachment.

## Model

| member | source | states |
|---|---|---|
| SanitizeUtil.StripTags | src/main/java/com/example/buddyfinder_backend/util/SanitizeUtil.java:9 | the tag filter never lengthens the text, only keeps chars of the input, and leaves no `<...>` span behind |
| SanitizeUtil.DropSpaces | src/main/java/com/example/buddyfinder_backend/util/SanitizeUtil.java:10 | drops a leading run of `\s` chars: the rest is a suffix that does not start with one |
| SanitizeUtil.CollapseSpaces | src/main/java/com/example/buddyfinder_backend/util/SanitizeUtil.java:10 | folding `\s+` into one space never lengthens the text, is empty exactly when the input is, adds only plain spaces and leaves no two spaces in a row |
| SanitizeUtil.Sanitize | src/main/java/com/example/buddyfinder_backend/util/SanitizeUtil.java:7-11 | sanitizing never makes a string longer |
| SanitizeUtil.SanitizeIsClean | src/main/java/com/example/buddyfinder_backend/util/SanitizeUtil.java:7-11 | the sanitized text holds no tag span, has no surrounding blanks and only single plain spaces |
| SanitizeUtil.SanitizeOpt | src/main/java/com/example/buddyfinder_backend/util/SanitizeUtil.java:8 | `sanitize(null)` is null, and a present string is sanitized |
| SanitizeUtil.InfixKeeps | src/main/java/com/example/buddyfinder_backend/util/SanitizeUtil.java:9-10 | a piece of clean text is clean as well |
| SanitizeUtil.TrimKeepsShape | src/main/java/com/example/buddyfinder_backend/util/SanitizeUtil.java:10 | the final `trim` keeps text free of tags and of doubled or non-plain spaces |
| SanitizeUtil.CollapseKeepsNoTagSpan | src/main/java/com/example/buddyfinder_backend/util/SanitizeUtil.java:10 | folding whitespace cannot create a tag span |
| SanitizeUtil.StripTagsOfTagFree | src/main/java/com/example/buddyfinder_backend/util/SanitizeUtil.java:9 | the tag filter is the identity on text without a tag span |
| SanitizeUtil.CollapseOfCollapsed | src/main/java/com/example/buddyfinder_backend/util/SanitizeUtil.java:10 | the whitespace folding is the identity on text with only single plain spaces |
| SanitizeUtil.SanitizeOfClean | src/main/java/com/example/buddyfinder_backend/util/SanitizeUtil.java:7-11 | clean text (no tag span, trimmed, single plain spaces) is returned unchanged |
| SanitizeUtil.SanitizeIdempotent | src/main/java/com/example/buddyfinder_backend/util/SanitizeUtil.java:7-11 | sanitizing twice equals sanitizing once |
| PremiumAccess.HasAdvancedTraits | src/main/java/com/example/buddyfinder_backend/util/PremiumAccessUtil.java:11-16 | a user has the advanced traits exactly when present with a tier other than FREE; a missing user and an unset tier have none |
| PremiumAccess.ResponseBuilder.constructor | src/main/java/com/example/buddyfinder_backend/util/PremiumAccessUtil.java:18 | a fresh response builder has neither trait set |
| PremiumAccess.ApplyPremiumTraits | src/main/java/com/example/buddyfinder_backend/util/PremiumAccessUtil.java:18-30 | a null builder is untouched; an advanced user's zodiac sign and MBTI type are copied; everyone else gets both cleared |
| PremiumAccess.RewardUnlocksTraits | src/main/java/com/example/buddyfinder_backend/util/PremiumAccessUtil.java:11-16 | after the referral reward upgrade, a user has the advanced traits exactly when their tier was set |
| JavaText.Trim | src/main/java/com/example/buddyfinder_backend/util/SanitizeUtil.java:10 | `trim()` returns the infix that starts after the leading chars <= U+0020 and neither starts nor ends with such a char |
| JavaText.TrimOfTrimmed | src/main/java/com/example/buddyfinder_backend/service/SupportRequestService.java:29-30 | trimming an already trimmed string changes nothing (trim is idempotent) |
| JavaText.TrimEmptyIff | src/main/java/com/example/buddyfinder_backend/service/SearchService.java:191-193 | `trim().isEmpty()` holds exactly when every char is <= U+0020 |
| JavaText.IsBlank | src/main/java/com/example/buddyfinder_backend/service/SupportRequestService.java:21-26 | `isBlank()` holds on empty text, and a blank ASCII text is also empty after `trim()` |
| JavaText.BlankButNotTrimmed | src/main/java/com/example/buddyfinder_backend/service/SupportRequestService.java:21-26 | U+3000 is blank to `isBlank()` but not removed by `trim()` |
| JavaText.Utf16Length | src/main/java/com/example/buddyfinder_backend/service/UserService.java:53 | `String.length()` counts at least one and at most two UTF-16 units per char |
| JavaText.Utf16LengthAppend | src/main/java/com/example/buddyfinder_backend/service/AuthService.java:30-38 | the length of a concatenation is the sum of the lengths |
| JavaText.Utf16LengthIsSizeIff | src/main/java/com/example/buddyfinder_backend/service/UserService.java:79 | the UTF-16 length equals the char count exactly when no char lies beyond U+FFFF |
| JavaText.Utf16LengthOfAstral | src/main/java/com/example/buddyfinder_backend/service/AuthService.java:31 | a text of chars beyond U+FFFF has twice as many UTF-16 units as chars |
| JavaText.IndexOf | src/main/java/com/example/buddyfinder_backend/service/CloudinaryService.java:76-99 | the result is the first position where the searched text occurs: it occurs there and at no earlier position; there is one exactly when the text occurs at all |
| JavaText.NatToString | src/main/java/com/example/buddyfinder_backend/service/NotificationService.java:65-73 | the decimal rendering of an id is non-empty and all digits |
| JavaText.DecimalOfNatToString | src/main/java/com/example/buddyfinder_backend/service/NotificationService.java:65-73 | reading back the decimal rendering gives the number |
| JavaText.NatToStringInjective | src/main/java/com/example/buddyfinder_backend/service/NotificationService.java:65-73 | distinct ids render to distinct texts |
| JavaText.IntToString | src/main/java/com/example/buddyfinder_backend/service/ReportService.java:34 | `toString` of a number is non-empty and starts with '-' exactly when negative |
| JavaText.ParseLong | src/main/java/com/example/buddyfinder_backend/service/ReportService.java:34 | `Long.valueOf` succeeds only with a 64-bit value on text that starts with a sign or digit; otherwise it fails with the NumberFormatException message for that text |
| JavaText.LongTextRoundTrip | src/main/java/com/example/buddyfinder_backend/service/ReportService.java:34 | `Long.valueOf(n.toString())` gives `n` back for every 64-bit `n` |
| JavaText.NonDigitRefused | src/main/java/com/example/buddyfinder_backend/service/ReportService.java:34 | a text with a non-digit after its first char is refused |
| Entities.IntValue | src/main/java/com/example/buddyfinder_backend/service/UserService.java:62 | `intValue()` gives a 32-bit value congruent to the number modulo 2^32, and the number itself when it fits |
| Entities.CastText | src/main/java/com/example/buddyfinder_backend/service/UserService.java:70 | the `(String)` cast succeeds exactly on null and strings; it yields null for null and the text for a string |
| Store.Db.constructor | src/main/java/com/example/buddyfinder_backend/entity/User.java:22 | an empty database whose IDENTITY counters are all valid |
| Store.UserIndex | src/main/java/com/example/buddyfinder_backend/service/UserService.java:108-112 | a found position holds the user row with that id |
| Store.FindUser | src/main/java/com/example/buddyfinder_backend/service/UserService.java:108-112 | `findById` returns a row with the requested id |
| Store.UserIndexAfterSave | src/main/java/com/example/buddyfinder_backend/service/UserService.java:101 | saving a changed row under its own id leaves every lookup where it was |
| Store.UserIndexAppendFresh | src/main/java/com/example/buddyfinder_backend/service/AuthService.java:58 | appending a row under a fresh id makes it findable and keeps every other lookup |
| Store.UserIndexComplete | src/main/java/com/example/buddyfinder_backend/service/UserService.java:108-112 | the lookup fails exactly when no row has the id, and it finds the first such row |
| Store.AppendUser | src/main/java/com/example/buddyfinder_backend/service/AuthService.java:58 | saving a new user takes the next IDENTITY value; the row is appended and every other lookup stays |
| JavaText.TrimStart | src/main/java/com/example/buddyfinder_backend/util/SanitizeUtil.java:10 | the chars dropped from the front are all at most U+0020 and the first kept one is not |
| JavaText.TrimStartIsSuffix | src/main/java/com/example/buddyfinder_backend/util/SanitizeUtil.java:10 | what is kept at the front is a suffix of the input |
| JavaText.TrimEnd | src/main/java/com/example/buddyfinder_backend/util/SanitizeUtil.java:10 | the result is a prefix; the chars dropped from the end are all at most U+0020 and the last kept one is not |
| UserService.UpdateRefusal | src/main/java/com/example/buddyfinder_backend/service/UserService.java:44-99 | an update is refused exactly when the sanitized name exceeds 35 UTF-16 units (`String.length()`), the `intValue()` age lies outside 18..65, the sanitized location exceeds 40 UTF-16 units, or a `(String)` cast of gender, interests, bio, zodiacSign, mbtiType or fitnessLevel fails; the name is checked before the age, with the source's messages |
| UserService.Updated | src/main/java/com/example/buddyfinder_backend/service/UserService.java:48-99 | the saved row keeps its id, email, tier, flags and ban, and every field whose key is absent from the request |
| UserService.SanitizedIsClean | src/main/java/com/example/buddyfinder_backend/service/UserService.java:70-98 | every sanitized text the update stores is clean |
| UserService.TextAfterCases | src/main/java/com/example/buddyfinder_backend/service/UserService.java:69-98 | a present string is stored sanitized, a present null clears the field, an absent key keeps it |
| UserService.TextAfterIsClean | src/main/java/com/example/buddyfinder_backend/service/UserService.java:69-98 | a free-text field that was clean stays clean |
| UserService.NameAfterIsClean | src/main/java/com/example/buddyfinder_backend/service/UserService.java:49-58 | a name that passes the length check is stored clean and at most 35 UTF-16 units long; a non-string value leaves the name alone |
| UserService.LocationAfterIsClean | src/main/java/com/example/buddyfinder_backend/service/UserService.java:75-84 | a location that passes the length check is stored clean and at most 40 UTF-16 units long |
| UserService.UpdatePreservesWellFormed | src/main/java/com/example/buddyfinder_backend/service/UserService.java:44-103 | an accepted update keeps a well-formed user well-formed (age in 18..65, name and location within 35 and 40 UTF-16 units, every text clean) |
| UserService.EchoAgeKeeps | src/main/java/com/example/buddyfinder_backend/service/UserService.java:59-68 | sending back an in-range age passes the check and keeps it |
| UserService.EchoTextKeeps | src/main/java/com/example/buddyfinder_backend/service/UserService.java:69-98 | sending back a clean text passes the cast and keeps it |
| UserService.EchoIsAcceptedNoOp | src/main/java/com/example/buddyfinder_backend/service/UserService.java:44-103 | submitting a well-formed user's own values is accepted and changes nothing |
| UserService.AgeWrapsToThirtyTwoBits | src/main/java/com/example/buddyfinder_backend/service/UserService.java:59-68 | the age 2^32 + 18 passes the range check through `intValue()` and is stored as 18 |
| UserService.UpdateProfile | src/main/java/com/example/buddyfinder_backend/service/UserService.java:44-103 | an unknown user gives "User not found"; a refused update gives its message (the length limits count UTF-16 units); in both cases the row is untouched; otherwise exactly the user's row is replaced by its updated version, which is returned |
| UserService.DeleteMatches | src/main/java/com/example/buddyfinder_backend/service/UserService.java:150-157 | step 1 deletes exactly the matches on either side of which the user stands and touches no other table |
| UserService.DeleteMessages | src/main/java/com/example/buddyfinder_backend/service/UserService.java:159-166 | step 2 deletes exactly the direct messages the user sent |
| UserService.DeleteParticipations | src/main/java/com/example/buddyfinder_backend/service/UserService.java:168-175 | step 3 deletes exactly the user's activity participations |
| UserService.DeleteActivities | src/main/java/com/example/buddyfinder_backend/service/UserService.java:177-184 | step 4 deletes exactly the activities the user created |
| UserService.DeleteRatings | src/main/java/com/example/buddyfinder_backend/service/UserService.java:186-202 | steps 5 and 6 delete exactly the ratings the user gave or received |
| UserService.DeleteNotifications | src/main/java/com/example/buddyfinder_backend/service/UserService.java:204-211 | step 7 deletes exactly the user's notifications |
| UserService.DeleteVerifications | src/main/java/com/example/buddyfinder_backend/service/UserService.java:213-220 | step 8 deletes exactly the user's verification requests |
| UserService.DeleteRefunds | src/main/java/com/example/buddyfinder_backend/service/UserService.java:222-229 | step 9 deletes exactly the user's refund requests |
| UserService.DeleteReferrals | src/main/java/com/example/buddyfinder_backend/service/UserService.java:231-240 | step 10 deletes exactly the referrals made by the user or naming the user as referred |
| UserService.DeleteLikes | src/main/java/com/example/buddyfinder_backend/service/UserService.java:242-249 | step 11 deletes exactly the likes the user gave or received |
| UserService.DeleteProfile | src/main/java/com/example/buddyfinder_backend/service/UserService.java:251-258 | step 12 deletes exactly the user's profile |
| UserService.DeleteUserRow | src/main/java/com/example/buddyfinder_backend/service/UserService.java:260-263 | step 13 deletes the user row |
| UserService.DeleteActivityRows | src/main/java/com/example/buddyfinder_backend/service/UserService.java:150-202 | steps 1 to 6 together: exactly the matches, messages, participations, activities and ratings of the user go |
| UserService.DeleteAccountRows | src/main/java/com/example/buddyfinder_backend/service/UserService.java:204-263 | steps 7 to 13 together: exactly the notifications, verifications, refunds, referrals, likes, profile and user row go |
| UserService.DeleteUserAccount | src/main/java/com/example/buddyfinder_backend/service/UserService.java:137-279 | an unknown user fails with "Failed to delete account: User not found" and nothing changes; otherwise the tables become exactly the erasure of the user, with the store's invariants kept |
| AccountErasure.EraseUser | src/main/java/com/example/buddyfinder_backend/service/UserService.java:150-263 | after the erasure no row of any of the thirteen tables refers to the user |
| AccountErasure.MatchesErased | src/main/java/com/example/buddyfinder_backend/service/UserService.java:150-157 | the kept matches still have ids below the counter, unique pairs, and none involves the user |
| AccountErasure.MessagesErased | src/main/java/com/example/buddyfinder_backend/service/UserService.java:159-166 | the kept messages still have ids below the counter, and none was sent by the user |
| AccountErasure.ParticipantsErased | src/main/java/com/example/buddyfinder_backend/service/UserService.java:168-175 | the kept participations keep their ids, uniqueness per activity and user, and activity references, and none belongs to the user |
| AccountErasure.ActivitiesErased | src/main/java/com/example/buddyfinder_backend/service/UserService.java:177-184 | no kept activity was created by the user |
| AccountErasure.RatingsErased | src/main/java/com/example/buddyfinder_backend/service/UserService.java:186-202 | the two deletions of steps 5 and 6 equal one deletion of every rating given or received, and no kept rating involves the user |
| AccountErasure.NotificationsErased | src/main/java/com/example/buddyfinder_backend/service/UserService.java:204-211 | no kept notification belongs to the user |
| AccountErasure.VerificationsErased | src/main/java/com/example/buddyfinder_backend/service/UserService.java:213-220 | no kept verification belongs to the user |
| AccountErasure.RefundsErased | src/main/java/com/example/buddyfinder_backend/service/UserService.java:222-229 | no kept refund belongs to the user |
| AccountErasure.ReferralsErased | src/main/java/com/example/buddyfinder_backend/service/UserService.java:231-240 | the two referral deletions equal one deletion of every referral naming the user on either side, and none is kept |
| AccountErasure.LikesErased | src/main/java/com/example/buddyfinder_backend/service/UserService.java:242-249 | no kept like involves the user |
| AccountErasure.ProfilesErased | src/main/java/com/example/buddyfinder_backend/service/UserService.java:251-258 | the kept profiles stay one per user, and none is the user's |
| AccountErasure.UsersErased | src/main/java/com/example/buddyfinder_backend/service/UserService.java:260-263 | no kept user row has the id |
| AccountErasure.EraseUserIdempotent | src/main/java/com/example/buddyfinder_backend/service/UserService.java:137-279 | erasing the same user twice deletes nothing more than erasing once |
| AuthService.RegisterRefusal | src/main/java/com/example/buddyfinder_backend/service/AuthService.java:24-38 | a registration is refused exactly when the email as typed is already taken, or the sanitized name exceeds 35 UTF-16 units, or the sanitized location exceeds 40 UTF-16 units (`String.length()`), or the trimmed lower-case email that would be stored is already taken (the unique `users.email` column rejects the save) |
| AuthService.AstralNameRefused | src/main/java/com/example/buddyfinder_backend/service/AuthService.java:30-33 | a name of 18 emoji, 36 UTF-16 units, is refused as longer than 35 |
| AuthService.ToLowerKeepsTrimmed | src/main/java/com/example/buddyfinder_backend/service/AuthService.java:46 | lower-casing keeps a trimmed email trimmed and is idempotent |
| AuthService.AcceptedRequestIsFresh | src/main/java/com/example/buddyfinder_backend/service/AuthService.java:43-56 | every accepted request yields a FREE, active, unverified, non-admin account with a trimmed lower-case email and sanitized text fields, the name within 35 and the location within 40 UTF-16 units |
| AuthService.StoredEmailIsTaken | src/main/java/com/example/buddyfinder_backend/service/AuthService.java:26-28 | once an account is saved, registering again with the email as stored is refused with "Email already exists" |
| AuthService.SaveNewUser | src/main/java/com/example/buddyfinder_backend/service/AuthService.java:58 | the new row is appended under the next id and can be found |
| AuthService.RegisterKeepsEmailsUnique | src/main/java/com/example/buddyfinder_backend/service/AuthService.java:24-50 | an accepted registration keeps every stored email distinct |
| AuthService.Register | src/main/java/com/example/buddyfinder_backend/service/AuthService.java:24-71 | a refused registration (lengths counted in UTF-16 units) changes no table and no counter and returns its message; an accepted one appends exactly the new FREE account under the next id, raising the user counter by one; an absent, blank or unknown referral code changes neither referrals, their counter, notifications nor pushes; under a known code the call succeeds exactly when the credited referrer still exists, then the sign-up is recorded and notified as by `processReferralSignup`, the referral counter rising by `SignedCount`, and otherwise the referral side is rolled back and the answer is "User not found" with the account saved |
| AuthService.Enrol | src/main/java/com/example/buddyfinder_backend/service/AuthService.java:58-61 | the account is saved before the referral is tracked, so it stays saved when the referral step fails; with no known code nothing else changes, the referral counter included; under a known code the result, referrals and their counter, notifications, their counter and pushes are those of `processReferralSignup` |
| AuthService.TrackReferral | src/main/java/com/example/buddyfinder_backend/service/AuthService.java:60-61 | for an account already saved: with no known code the call succeeds and the referral tables, their counter, the notifications and the pushes stay as they were; under a known code the result, referrals and their counter, notifications, their counter and pushes are those of `processReferralSignup`, a failure becoming "User not found" |
| AuthService.UsersAfterLogin | src/main/java/com/example/buddyfinder_backend/service/AuthService.java:83-94 | login never adds or removes user rows |
| AuthService.LoginAdmitsOnlyActive | src/main/java/com/example/buddyfinder_backend/service/AuthService.java:73-104 | a successful login yields an active account (a lifted ban is cleared); it is refused as banned exactly when the account is inactive and its ban end is not in the past |
| AuthService.LoginIdempotent | src/main/java/com/example/buddyfinder_backend/service/AuthService.java:86-94 | a second login right after a login changes nothing and gives the same answer: an expired ban is lifted once |
| AuthService.SaveReactivated | src/main/java/com/example/buddyfinder_backend/service/AuthService.java:88-90 | only the found row is replaced, by its reactivated version |
| AuthService.Login | src/main/java/com/example/buddyfinder_backend/service/AuthService.java:73-104 | the result and the new users table are those of the login function: bad credentials, an unknown email, a live ban, or an account whose ban is lifted |
| SuperAdminInitializer.SuperAdminCountPositive | src/main/java/com/example/buddyfinder_backend/config/SuperAdminInitializer.java:21-24 | the count of super admins is positive exactly when some row is a super admin |
| SuperAdminInitializer.RunEnsuresSuperAdmin | src/main/java/com/example/buddyfinder_backend/config/SuperAdminInitializer.java:20-49 | the runner fails only when there is no super admin and several rows carry the default email; when it succeeds a super admin exists |
| SuperAdminInitializer.RunKeepsOtherRows | src/main/java/com/example/buddyfinder_backend/config/SuperAdminInitializer.java:28-47 | a successful run keeps every row except the default-email one, which only gains both admin flags, and adds at most one row: the default super admin under the next id |
| SuperAdminInitializer.RunOnce | src/main/java/com/example/buddyfinder_backend/config/SuperAdminInitializer.java:21-24 | a second run right after a successful one changes nothing |
| SuperAdminInitializer.SavePromoted | src/main/java/com/example/buddyfinder_backend/config/SuperAdminInitializer.java:44-47 | only the default-email row is replaced, by its promoted version |
| SuperAdminInitializer.Run | src/main/java/com/example/buddyfinder_backend/config/SuperAdminInitializer.java:20-49 | the users table becomes the run's outcome, or stays as it was with the exception's message; the id counter advances exactly when a row is added |
| AdminService.VerifyAdmin | src/main/java/com/example/buddyfinder_backend/service/AdminService.java:320-329 | passes exactly for an existing account with the admin or the super-admin flag, returning that row; an unknown id gives "Admin not found" |
| AdminService.VerifySuperAdmin | src/main/java/com/example/buddyfinder_backend/service/AdminService.java:331-337 | passes exactly for an existing account with the super-admin flag, which then also passes the admin check |
| AdminService.ManageNeedsRights | src/main/java/com/example/buddyfinder_backend/service/AdminService.java:59-65 | a ban, unban or delete goes ahead exactly when the actor is an admin, the target exists, and an admin target is acted on by a super admin only |
| AdminService.AnotherSuperAdminRefusal | src/main/java/com/example/buddyfinder_backend/service/AdminService.java:345-353 | passes exactly when there is more than one super admin and one of them is not the excluded account |
| AdminService.OtherImpliesTwo | src/main/java/com/example/buddyfinder_backend/service/AdminService.java:345-353 | when the excluded account is a super admin, another super admin means at least two, so the count test never refuses on its own |
| AdminService.BanEnd | src/main/java/com/example/buddyfinder_backend/service/AdminService.java:68-72 | a ban has an end exactly when the number of days is positive, and that end lies after the ban time |
| AdminService.BanNotice | src/main/java/com/example/buddyfinder_backend/service/AdminService.java:75-94 | the user gets a SYSTEM notice exactly when the ban is timed or a non-blank reason is given |
| AdminService.BanHoldsUntilItsEnd | src/main/java/com/example/buddyfinder_backend/service/AdminService.java:67-72 | a banned account is inactive, and its ban counts as expired exactly when it was timed and its end is in the past |
| AdminService.LoginAfterBan | src/main/java/com/example/buddyfinder_backend/service/AdminService.java:67-73 | login right after a ban is refused as banned until the ban end has passed, and then admits the account with the ban lifted |
| AdminService.LoginAfterUnban | src/main/java/com/example/buddyfinder_backend/service/AdminService.java:107-109 | login right after an unban admits the account |
| AdminService.SaveUserAt | src/main/java/com/example/buddyfinder_backend/service/AdminService.java:73 | only the target's row is replaced, under its own id |
| AdminService.BanUser | src/main/java/com/example/buddyfinder_backend/service/AdminService.java:59-97 | a refused ban changes nothing and returns the refusal; otherwise the target row becomes inactive with its ban end, exactly the ban notices are stored under the next ids, the notification counter moves past them, and the outbox gains exactly the pushes of those notices |
| AdminService.UnbanUser | src/main/java/com/example/buddyfinder_backend/service/AdminService.java:99-110 | a refused unban changes nothing; otherwise the target becomes active with no ban end, and nothing else changes |
| AdminService.DeleteUser | src/main/java/com/example/buddyfinder_backend/service/AdminService.java:112-119 | a refused deletion changes nothing; otherwise the tables become exactly the erasure of the target |
| AdminService.ReviewRefusal | src/main/java/com/example/buddyfinder_backend/service/AdminService.java:179-187 | approval or rejection goes ahead exactly when the actor is an admin and the refund exists and is PENDING |
| AdminService.ReviewedOnce | src/main/java/com/example/buddyfinder_backend/service/AdminService.java:185-187 | a refund once approved or rejected can never be approved or rejected again |
| AdminService.SaveRefundAt | src/main/java/com/example/buddyfinder_backend/service/AdminService.java:199 | only the reviewed refund row is replaced |
| AdminService.SaveAndNotify | src/main/java/com/example/buddyfinder_backend/service/AdminService.java:199-209 | the save and the notice happen together, exactly when the owner still exists, and its push goes to the owner's topic when the broker is up, and the notification counter advances by one; otherwise both are rolled back with "User not found" and nothing is pushed |
| AdminService.ApproveRefund | src/main/java/com/example/buddyfinder_backend/service/AdminService.java:179-210 | a refused approval changes nothing; a successful one turns a PENDING refund COMPLETED with the reviewing admin, notes, transaction id and times, and stores one notice to its owner; its push goes to the owner's topic when the broker is up, and the notification counter advances by one; any failure leaves refunds, notifications, the counter and the pushes as they were |
| AdminService.RejectRefund | src/main/java/com/example/buddyfinder_backend/service/AdminService.java:213-240 | a refused rejection changes nothing; a successful one turns a PENDING refund REJECTED with the reviewing admin and the notes or the default note, and stores one notice to its owner; its push goes to the owner's topic when the broker is up, and the notification counter advances by one |
| AdminService.AdminCreationRefusal | src/main/java/com/example/buddyfinder_backend/service/AdminService.java:247-251 | an admin is created exactly when the requester is a super admin, no row has the email as typed and no row has the trimmed lower-case email that would be stored (the unique `users.email` column) |
| AdminService.NewAdminIsAdmin | src/main/java/com/example/buddyfinder_backend/service/AdminService.java:253-265 | the new account passes the admin check at once, and the super-admin check exactly when created as a super admin |
| AdminService.AdminCreationKeepsEmailsUnique | src/main/java/com/example/buddyfinder_backend/service/AdminService.java:247-264 | an accepted admin creation keeps every stored email distinct |
| AdminService.CreateAdminAccount | src/main/java/com/example/buddyfinder_backend/service/AdminService.java:247-266 | a refusal changes nothing, the user counter included; otherwise exactly the new admin account is appended under the next id and the counter rises by one |
| AdminService.AsksSuperAdminKey | src/main/java/com/example/buddyfinder_backend/service/AdminService.java:273-277 | a role equal to "SUPER_ADMIN" ignoring case upper-cases to "SUPER_ADMIN" |
| AdminService.RoleChange | src/main/java/com/example/buddyfinder_backend/service/AdminService.java:268-299 | the change is refused exactly when the requester is not a super admin, the target is missing, a requester would lose their own super-admin role, or a super admin would be demoted while the other-super-admin check fails, each with its message; a success alters only the target's two flags: super admin exactly for "SUPER_ADMIN", admin exactly for "SUPER_ADMIN" or "ADMIN" (upper-cased) |
| AdminService.NoSelfDowngrade | src/main/java/com/example/buddyfinder_backend/service/AdminService.java:273-275 | a super admin's change of their own role always keeps their super-admin flag |
| AdminService.SaveKeepsSuperAdmin | src/main/java/com/example/buddyfinder_backend/service/AdminService.java:298 | saving a row keeps a super admin when the new row is one or another row is |
| AdminService.RoleChangeKeepsSuperAdmin | src/main/java/com/example/buddyfinder_backend/service/AdminService.java:277-298 | a role change that goes through always leaves at least one super admin |
| AdminService.UpdateAdminRole | src/main/java/com/example/buddyfinder_backend/service/AdminService.java:268-299 | the result is the role-change function's; a refusal changes nothing; a success replaces only the target row, and a super admin remains |
| AdminService.AdminDeletionRefusal | src/main/java/com/example/buddyfinder_backend/service/AdminService.java:302-315 | a deletion goes ahead only for a super-admin requester, an existing admin target, and a target other than the requester |
| AdminService.DeletionNeverLastSuperAdmin | src/main/java/com/example/buddyfinder_backend/service/AdminService.java:310-315 | since the requester is another super admin, the last-super-admin test never refuses a deletion that got that far |
| AdminService.DeletionKeepsSuperAdmin | src/main/java/com/example/buddyfinder_backend/service/AdminService.java:302-317 | erasing an admin that passed the checks leaves a super admin |
| AdminService.DeleteAdminAccount | src/main/java/com/example/buddyfinder_backend/service/AdminService.java:302-318 | a refusal changes nothing; otherwise the tables become exactly the erasure of the target, and a super admin remains |
| AdminService.MembersDeleted | src/main/java/com/example/buddyfinder_backend/service/AdminService.java:139 | the kept memberships keep their invariants, and none belongs to the room |
| AdminService.MessagesDeleted | src/main/java/com/example/buddyfinder_backend/service/AdminService.java:138 | the kept group messages keep their invariants, and none belongs to the room |
| AdminService.RoomsDeleted | src/main/java/com/example/buddyfinder_backend/service/AdminService.java:140 | the kept rooms keep their invariants |
| AdminService.DeleteRoomMessages | src/main/java/com/example/buddyfinder_backend/service/AdminService.java:138 | exactly the room's group messages are deleted |
| AdminService.DeleteRoomMembers | src/main/java/com/example/buddyfinder_backend/service/AdminService.java:139 | exactly the room's memberships are deleted |
| AdminService.DeleteRoom | src/main/java/com/example/buddyfinder_backend/service/AdminService.java:140 | exactly the room row is deleted |
| AdminService.NoRoomLeft | src/main/java/com/example/buddyfinder_backend/service/AdminService.java:136-141 | once the activity's one room is deleted, the activity has no room |
| AdminService.DeleteActivityRow | src/main/java/com/example/buddyfinder_backend/service/AdminService.java:133 | exactly the activity row is deleted, and it is no longer found |
| AdminService.DeleteActivityRoom | src/main/java/com/example/buddyfinder_backend/service/AdminService.java:136-142 | with no room nothing changes; with one room, that room, its messages and its memberships are deleted and nothing else; afterwards the activity has no room (unless the lookup failed as non-unique) |
| AdminService.DeleteActivity | src/main/java/com/example/buddyfinder_backend/service/AdminService.java:125-134 | a refusal changes nothing, and a missing activity gives `404 NOT_FOUND "Activity not found"`; otherwise the activity and its room, messages and memberships go, and its participants stay |
| AdminService.GetDashboardStats | src/main/java/com/example/buddyfinder_backend/service/AdminService.java:36-53 | the total user count is the table size and the active count never exceeds it |
| AdminService.AllActiveIff | src/main/java/com/example/buddyfinder_backend/service/AdminService.java:37-40 | every user counts as active exactly when no account is deactivated |
| RefundService.RequestRefusal | src/main/java/com/example/buddyfinder_backend/service/RefundService.java:32-55 | a request goes ahead exactly when the user exists, the same user has not already asked for that transaction, the method, type and reason are present names of their enums (a null one gives "Name is null"), and the amount is present (a null one violates the `nullable = false` column) |
| RefundService.EnumRefusal | src/main/java/com/example/buddyfinder_backend/service/RefundService.java:47-50 | `valueOf` accepts exactly a present name of the enum; a null name fails with "Name is null" |
| RefundService.RequestNoticesReachEveryone | src/main/java/com/example/buddyfinder_backend/service/RefundService.java:61-71 | a request sends one SYSTEM notice to the requester first, then one ADMIN notice per admin row, and every recipient exists |
| RefundService.RequestNoticesTellEveryAdmin | src/main/java/com/example/buddyfinder_backend/service/RefundService.java:255-270 | every admin is told of a new request |
| RefundService.SecondRequestRefused | src/main/java/com/example/buddyfinder_backend/service/RefundService.java:37-41 | once a request for a transaction is saved, the same user asking again for it is refused |
| RefundService.AppendRefund | src/main/java/com/example/buddyfinder_backend/service/RefundService.java:57 | the new refund is appended under the next id |
| RefundService.RequestRefund | src/main/java/com/example/buddyfinder_backend/service/RefundService.java:31-74 | a refused request, including one with a null amount, method, type or reason, changes nothing; otherwise exactly one PENDING refund is appended under the next id, and exactly the requester's and the admins' notices are stored; each stored notice is pushed to its owner's topic when the broker is up, and the notification counter advances by the number stored |
| RefundService.FileRefund | src/main/java/com/example/buddyfinder_backend/service/RefundService.java:44-71 | past the checks: one PENDING refund is appended under the next id, then the requester's and the admins' notices are stored and pushed in order, the counter advancing by their number |
| RefundService.PendingRefunds | src/main/java/com/example/buddyfinder_backend/service/RefundService.java:79-85 | the pending listing is ordered oldest request first |
| RefundService.UserRefunds | src/main/java/com/example/buddyfinder_backend/service/RefundService.java:100-106 | the user's listing is ordered newest request first |
| RefundService.ListingMembers | src/main/java/com/example/buddyfinder_backend/service/RefundService.java:79-106 | the pending listing holds exactly the stored open (PENDING or UNDER_REVIEW) refunds, and the user's listing exactly the user's own |
| RefundService.RefundById | src/main/java/com/example/buddyfinder_backend/service/RefundService.java:90-95 | the lookup succeeds exactly when a refund has the id, and otherwise fails with "Refund not found" |
| RefundService.ProcessRefusal | src/main/java/com/example/buddyfinder_backend/service/RefundService.java:112-164 | processing goes ahead exactly when the refund exists, the admin row exists with its admin flag, the action is APPROVE or REJECT, and the owner still exists |
| RefundService.ProcessedIsClosed | src/main/java/com/example/buddyfinder_backend/service/RefundService.java:124-164 | a processed refund keeps its owner and id, and is closed (out of the pending listing, not cancellable) unless the gateway failed, which leaves it UNDER_REVIEW |
| RefundService.ProcessIgnoresStatus | src/main/java/com/example/buddyfinder_backend/service/RefundService.java:112-121 | processing never looks at the status: an already closed refund is processed again on the same terms |
| RefundService.SaveRefundAt | src/main/java/com/example/buddyfinder_backend/service/RefundService.java:166 | only the processed refund row is replaced |
| RefundService.ProcessRefund | src/main/java/com/example/buddyfinder_backend/service/RefundService.java:111-208 | a refusal changes nothing; otherwise only that refund is replaced by its processed version and exactly the action's notices are stored; each stored notice is pushed to its owner's topic when the broker is up, and the notification counter advances by the number stored |
| RefundService.CancelRefusal | src/main/java/com/example/buddyfinder_backend/service/RefundService.java:229-242 | cancelling goes ahead exactly when the refund exists, belongs to the caller, and is PENDING or UNDER_REVIEW |
| RefundService.CancelledOnce | src/main/java/com/example/buddyfinder_backend/service/RefundService.java:238-244 | a cancelled refund leaves the pending listing and cannot be cancelled again |
| RefundService.CancelRefund | src/main/java/com/example/buddyfinder_backend/service/RefundService.java:228-250 | a refusal changes nothing; otherwise only the refund's status becomes CANCELLED |
| VerificationService.DocumentTypeOf | src/main/java/com/example/buddyfinder_backend/service/VerificationService.java:59 | `valueOf` succeeds exactly on the four document type names |
| VerificationService.VerifyAdmin | src/main/java/com/example/buddyfinder_backend/service/VerificationService.java:207-216 | passes exactly for an existing row with the admin flag; otherwise "Admin not found" or "Unauthorized: Not an admin" |
| VerificationService.LatestIsNewest | src/main/java/com/example/buddyfinder_backend/service/VerificationService.java:87-98 | the status answer is one of the user's requests, submitted no earlier than any other of theirs, and there is none exactly when the user never submitted |
| VerificationService.SubmitRefusal | src/main/java/com/example/buddyfinder_backend/service/VerificationService.java:33-59 | a submission goes ahead exactly when the user exists, has no approved request, has no pending latest request, the upload succeeds, and the document type is a valid name |
| VerificationService.SubmitNoticesGoThrough | src/main/java/com/example/buddyfinder_backend/service/VerificationService.java:67-78 | one SYSTEM notice goes to the user first, then one ADMIN notice per admin row, and every recipient exists |
| VerificationService.SubmitNoticesTellEveryAdmin | src/main/java/com/example/buddyfinder_backend/service/VerificationService.java:221-236 | every admin is told of a submission |
| VerificationService.SecondSubmissionRefused | src/main/java/com/example/buddyfinder_backend/service/VerificationService.java:44-50 | once a submission is saved, a second one by the same user is refused as pending (given the clock has moved on) |
| VerificationService.AppendVerification | src/main/java/com/example/buddyfinder_backend/service/VerificationService.java:64 | the new request is appended under the next id |
| VerificationService.SubmitVerification | src/main/java/com/example/buddyfinder_backend/service/VerificationService.java:32-81 | a refusal changes nothing; otherwise exactly one PENDING request with the uploaded URL is appended, and exactly the user's and admins' notices are stored; each stored notice is pushed to its owner's topic when the broker is up, and the notification counter advances by the number stored |
| VerificationService.SaveSubmission | src/main/java/com/example/buddyfinder_backend/service/VerificationService.java:64-78 | the row is appended, then exactly the submission notices are stored; each stored notice is pushed to its owner's topic when the broker is up, and the notification counter advances by the number stored |
| VerificationService.PendingVerifications | src/main/java/com/example/buddyfinder_backend/service/VerificationService.java:103-111 | the pending listing is given to admins only, oldest submission first |
| VerificationService.PendingListingMembers | src/main/java/com/example/buddyfinder_backend/service/VerificationService.java:103-111 | the listing holds exactly the stored PENDING requests |
| VerificationService.ReviewRefusal | src/main/java/com/example/buddyfinder_backend/service/VerificationService.java:130-138 | a review goes ahead exactly when the actor is an admin and the request exists and is PENDING |
| VerificationService.ReviewedOnce | src/main/java/com/example/buddyfinder_backend/service/VerificationService.java:140-185 | a reviewed request keeps its id, owner, document and submission time, records the reviewing admin and time, is APPROVED with the notes or REJECTED with a note, leaves the pending listing, and cannot be reviewed again |
| VerificationService.ApprovalClosesSubmission | src/main/java/com/example/buddyfinder_backend/service/VerificationService.java:146-149 | approval marks the owner verified, after which any new submission by the owner is refused as already verified |
| VerificationService.SaveVerificationAt | src/main/java/com/example/buddyfinder_backend/service/VerificationService.java:151 | only the reviewed request row is replaced |
| VerificationService.MarkVerified | src/main/java/com/example/buddyfinder_backend/service/VerificationService.java:146-149 | only the owner's verified flag is set |
| VerificationService.ApproveVerification | src/main/java/com/example/buddyfinder_backend/service/VerificationService.java:129-165 | a refusal, or an owner whose row is gone, changes nothing; otherwise the request is approved, only the owner's verified flag is set, and exactly one notice is stored; its push goes to the owner's topic when the broker is up, and the notification counter advances by one |
| VerificationService.ApproveAt | src/main/java/com/example/buddyfinder_backend/service/VerificationService.java:141-162 | the owner's flag, the approved request and the notice are saved, and nothing else; its push goes to the owner's topic when the broker is up, and the notification counter advances by one |
| VerificationService.SaveAndNotify | src/main/java/com/example/buddyfinder_backend/service/VerificationService.java:187-199 | the reviewed request is saved and exactly one notice to its owner is stored; its push goes to the owner's topic when the broker is up, and the notification counter advances by one |
| VerificationService.RejectVerification | src/main/java/com/example/buddyfinder_backend/service/VerificationService.java:170-202 | a refusal changes nothing; otherwise the request becomes REJECTED with the notes or the default note, the owner's row is untouched, and exactly one notice is stored (rolled back when the owner is gone); its push goes to the owner's topic when the broker is up, and the notification counter advances by one |
| ReportService.ValueText | src/main/java/com/example/buddyfinder_backend/service/ReportService.java:45-47 | `toString` of a request value is null exactly for null, and a string is its own text |
| ReportService.PayloadText | src/main/java/com/example/buddyfinder_backend/service/ReportService.java:45-47 | the text of a key is present exactly when the key is present and not null |
| ReportService.ReportedIdOf | src/main/java/com/example/buddyfinder_backend/service/ReportService.java:33-35 | a missing or null id gives "Reported user is required"; an unreadable one gives the NumberFormatException message; a read id is a 64-bit value |
| ReportService.ReportedIdReadBack | src/main/java/com/example/buddyfinder_backend/service/ReportService.java:33-35 | a 64-bit id sent as a number or as its decimal text is read back exactly |
| ReportService.MessagesOf | src/main/java/com/example/buddyfinder_backend/service/ReportService.java:167 | a report's messages are listed oldest first |
| ReportService.MessagesOfMembers | src/main/java/com/example/buddyfinder_backend/service/ReportService.java:167 | the listed messages are exactly the stored messages of that report |
| ReportService.MapReport | src/main/java/com/example/buddyfinder_backend/service/ReportService.java:146-177 | the view fails exactly when a party's user row is gone, with Hibernate's message for it; otherwise it shows the report, both parties and exactly its messages (corrected: a message without attachment is shown) |
| ReportService.MapReportAsWritten | src/main/java/com/example/buddyfinder_backend/service/ReportService.java:146-177 | as written, the view also fails whenever one of the report's messages has no attachment; otherwise it equals the corrected view |
| ReportService.TextOnlyMessageHidesReport | src/main/java/com/example/buddyfinder_backend/service/ReportService.java:167-175 | one message without an attachment makes the report unreadable as written, while the corrected view shows it |
| ReportService.GetReportById | src/main/java/com/example/buddyfinder_backend/service/ReportService.java:135-144 | an unknown id gives "Report not found", a requester who is neither party gives "You are not part of this report", and a success is the requested report, shown to one of its parties |
| ReportService.InternalMessage | src/main/java/com/example/buddyfinder_backend/service/ReportService.java:106-119 | no message is saved exactly when the text is blank and the attachment is null or blank |
| ReportService.InternalMessageClean | src/main/java/com/example/buddyfinder_backend/service/ReportService.java:115 | a saved message text is clean: sanitizing it again changes nothing |
| ReportService.AsSeq | src/main/java/com/example/buddyfinder_backend/service/ReportService.java:106-119 | a saved row or nothing appends one row or none |
| ReportService.AppendReportMessage | src/main/java/com/example/buddyfinder_backend/service/ReportService.java:118 | the message is appended under the next id |
| ReportService.AddMessageInternal | src/main/java/com/example/buddyfinder_backend/service/ReportService.java:106-119 | the messages table grows by exactly the message that should be saved, or not at all |
| ReportService.SubmitRefusal | src/main/java/com/example/buddyfinder_backend/service/ReportService.java:30-40 | a report is accepted exactly when the reporter exists, the reported id reads as a number other than the reporter's own, and that user exists; the checks run in this order, with the source's messages |
| ReportService.SelfReportRefused | src/main/java/com/example/buddyfinder_backend/service/ReportService.java:36-38 | naming oneself, by number or by decimal text, is refused with "You cannot report yourself" |
| ReportService.NewReportShape | src/main/java/com/example/buddyfinder_backend/service/ReportService.java:42-49 | a new report is OPEN and unresolved, its texts are clean, and the reason defaults to "Other" and the description to "" |
| ReportService.DefaultsClean | src/main/java/com/example/buddyfinder_backend/service/ReportService.java:45-46 | sanitizing the default reason or the empty description changes nothing |
| ReportService.InitialMessageShape | src/main/java/com/example/buddyfinder_backend/service/ReportService.java:53-57 | an initial message is saved exactly when a non-blank text was sent; it is the reporter's, belongs to the report, and carries the sanitized text and the attachment |
| ReportService.AppendReport | src/main/java/com/example/buddyfinder_backend/service/ReportService.java:51 | the report is appended under the next id |
| ReportService.SubmitReport | src/main/java/com/example/buddyfinder_backend/service/ReportService.java:29-60 | corrected behaviour: a refusal changes nothing; otherwise exactly the new report and its initial message (if any) are appended, and the result is the report's corrected view |
| ReportService.SubmitAccepted | src/main/java/com/example/buddyfinder_backend/service/ReportService.java:42-59 | corrected behaviour: with both parties present, the report and its initial message are saved and the corrected view succeeds |
| ReportService.SubmitReportAsWritten | src/main/java/com/example/buddyfinder_backend/service/ReportService.java:29-60 | as written: a refusal changes nothing; otherwise the result is the as-written view of the report with its initial message, and when that view throws the report and the message are rolled back |
| ReportService.ReadBackAsWritten | src/main/java/com/example/buddyfinder_backend/service/ReportService.java:59 | the read-back through the as-written view keeps the tables when it succeeds and restores the tables of the transaction's start when it throws |
| ReportService.SubmitTextOnlyThrows | src/main/java/com/example/buddyfinder_backend/service/ReportService.java:53-59 | as written, a report submitted with an initial message and no attachment always reads back as a `NullPointerException`, so `submitReport` rolls back |
| ReportService.SaveNewReport | src/main/java/com/example/buddyfinder_backend/service/ReportService.java:51-57 | the report is appended, then its initial message if there is one |
| ReportService.SubmittedReportReadable | src/main/java/com/example/buddyfinder_backend/service/ReportService.java:135-144 | once submitted, the report can be read by each of its two parties and by nobody else |
| ReportService.AddRefusal | src/main/java/com/example/buddyfinder_backend/service/ReportService.java:88-97 | a message is accepted exactly when the report exists, the sender exists, and the sender is one of its parties; the checks run in this order |
| ReportService.PostedShape | src/main/java/com/example/buddyfinder_backend/service/ReportService.java:99-101 | a posted message is skipped exactly when its sanitized text and its attachment are both blank; otherwise it carries the text, the attachment, and whether the reporter sent it |
| ReportService.PostedMessageListed | src/main/java/com/example/buddyfinder_backend/service/ReportService.java:103 | a posted message is listed with its report, along with the earlier messages |
| ReportService.AddMessage | src/main/java/com/example/buddyfinder_backend/service/ReportService.java:87-104 | corrected behaviour: a refusal changes nothing; otherwise the result is the report's corrected view, and the message is kept only when that view succeeds |
| ReportService.AddMessageAsWritten | src/main/java/com/example/buddyfinder_backend/service/ReportService.java:87-104 | as written: a refusal changes nothing; otherwise the result is the as-written view of the report with the message added, and when that view throws the message is rolled back |
| ReportService.AddToReportAsWritten | src/main/java/com/example/buddyfinder_backend/service/ReportService.java:99-103 | as written, after the checks: the result is the as-written view of the report with the message added; when it fails, the message table is as before |
| ReportService.PostAndShowAsWritten | src/main/java/com/example/buddyfinder_backend/service/ReportService.java:99-103 | as written, with both parties present: the message is saved unless empty, and rolled back exactly when the as-written view throws |
| ReportService.ShowOrRollBack | src/main/java/com/example/buddyfinder_backend/service/ReportService.java:103 | the as-written view of the saved message table; when it throws, the message table returns to its state at the start of the transaction |
| ReportService.AddTextOnlyThrows | src/main/java/com/example/buddyfinder_backend/service/ReportService.java:99-103 | as written, a message posted with text and no attachment always reads back as a `NullPointerException`, so `addMessage` rolls back |
| ReportService.AddToReport | src/main/java/com/example/buddyfinder_backend/service/ReportService.java:99-103 | corrected behaviour: after the checks the message is saved unless empty and the report read back through the corrected view; a failed read-back rolls the message back |
| ReportService.PostAndShow | src/main/java/com/example/buddyfinder_backend/service/ReportService.java:99-103 | corrected behaviour: with both parties present the message is saved unless empty, and the corrected view succeeds |
| ReportService.Updated | src/main/java/com/example/buddyfinder_backend/service/ReportService.java:125-131 | the report gets the new status; the resolution time changes only for RESOLVED; the notes change only when given; nothing else changes |
| ReportService.ReopenedKeepsResolvedAt | src/main/java/com/example/buddyfinder_backend/service/ReportService.java:126-128 | a report moved away from RESOLVED keeps its resolution time |
| ReportService.SaveReportAt | src/main/java/com/example/buddyfinder_backend/service/ReportService.java:132 | only the updated report row is replaced |
| ReportService.UpdateStatus | src/main/java/com/example/buddyfinder_backend/service/ReportService.java:121-133 | an unknown id changes nothing; otherwise the result is the view of the updated report, which is kept only when the view succeeds |
| ReportService.UpdatedStillFound | src/main/java/com/example/buddyfinder_backend/service/ReportService.java:121-133 | after the update the report is still found under its id, with the new status |
| SupportRequestService.CreateRefusal | src/main/java/com/example/buddyfinder_backend/service/SupportRequestService.java:20-26 | a request is refused exactly when the email or the message is null or blank, with the email checked first |
| SupportRequestService.NewRequestShape | src/main/java/com/example/buddyfinder_backend/service/SupportRequestService.java:27-33 | a new request is OPEN and unhandled, and its email and message are trimmed and clean |
| SupportRequestService.AppendRequest | src/main/java/com/example/buddyfinder_backend/service/SupportRequestService.java:33 | the request is appended under the next id |
| SupportRequestService.CreateRequest | src/main/java/com/example/buddyfinder_backend/service/SupportRequestService.java:20-34 | a refusal changes nothing; otherwise exactly the new request is appended under the next id and returned |
| SupportRequestService.CreatedRequestFound | src/main/java/com/example/buddyfinder_backend/service/SupportRequestService.java:33 | the stored request is found under its new id |
| SupportRequestService.AllRequests | src/main/java/com/example/buddyfinder_backend/service/SupportRequestService.java:37-39 | the listing holds exactly the stored requests, each as often as stored, newest first |
| SupportRequestService.Handled | src/main/java/com/example/buddyfinder_backend/service/SupportRequestService.java:45-51 | the request gets the new status; the handling time changes only for RESOLVED; the notes change, sanitized, only when given; nothing else changes |
| SupportRequestService.ReopenedKeepsHandledAt | src/main/java/com/example/buddyfinder_backend/service/SupportRequestService.java:46-51 | a request moved away from RESOLVED keeps its handling time, and its notes stay clean |
| SupportRequestService.SaveRequestAt | src/main/java/com/example/buddyfinder_backend/service/SupportRequestService.java:52 | only the handled request row is replaced |
| SupportRequestService.UpdateStatus | src/main/java/com/example/buddyfinder_backend/service/SupportRequestService.java:42-53 | an unknown id gives "Support request not found" and changes nothing; otherwise only that request is replaced by its handled version, which is returned |
| SupportRequestService.HandledStillFound | src/main/java/com/example/buddyfinder_backend/service/SupportRequestService.java:42-53 | after the update the request is still found under its id with the new status, and every other request is untouched |
| RatingService.Get | src/main/java/com/example/buddyfinder_backend/service/RatingService.java:40-47 | an absent key reads as null |
| Entities.CastInteger | src/main/java/com/example/buddyfinder_backend/service/RatingService.java:40 | the `(Integer)` cast succeeds exactly on null and on a 32-bit number, and keeps the number |
| RatingService.NewScoreRefusal | src/main/java/com/example/buddyfinder_backend/service/RatingService.java:42-47 | a new rating's score is accepted exactly when absent, null or a number |
| RatingService.ScoreUpdateRefusal | src/main/java/com/example/buddyfinder_backend/service/RatingService.java:115-123 | an updated score is accepted exactly when its key is absent or holds a number; a present null throws a NullPointerException |
| RatingService.FirstRefusal | src/main/java/com/example/buddyfinder_backend/service/RatingService.java:37-47 | the first failing step in builder order decides the error |
| RatingService.NewRating | src/main/java/com/example/buddyfinder_backend/service/RatingService.java:36-50 | a new rating is saved exactly when the rating casts to a non-null Integer, the review to a String, and each score is absent or numeric; it links the two users and carries the cast rating and review |
| RatingService.NewRatingNeedsRating | src/main/java/com/example/buddyfinder_backend/service/RatingService.java:40 | a request without a rating creates nothing, since the column is NOT NULL |
| RatingService.Reviewed | src/main/java/com/example/buddyfinder_backend/service/RatingService.java:30-34 | an update is saved exactly when every present key casts, and the rating is not left null; present keys replace their fields, absent keys keep theirs, and the pair, id and creation time stay (see Left out for the update time) |
| RatingService.EmptyUpdateKeepsRating | src/main/java/com/example/buddyfinder_backend/service/RatingService.java:108-124 | an update naming no key keeps the rating as it was, apart from the update time |
| RatingService.PairIndex | src/main/java/com/example/buddyfinder_backend/service/RatingService.java:28 | the lookup finds the first rating from the rater to the target, and fails exactly when there is none |
| RatingService.SaveRatingAt | src/main/java/com/example/buddyfinder_backend/service/RatingService.java:34 | only the pair's row is replaced |
| RatingService.AppendRating | src/main/java/com/example/buddyfinder_backend/service/RatingService.java:50 | the new rating is appended under the next id |
| RatingService.ReplaceKeepsConsistent | src/main/java/com/example/buddyfinder_backend/service/RatingService.java:30-34 | replacing a pair's row by a rating of the same pair keeps one non-null rating per pair |
| RatingService.AppendKeepsConsistent | src/main/java/com/example/buddyfinder_backend/service/RatingService.java:35-50 | appending the first rating of a new pair keeps one non-null rating per pair |
| RatingService.SubmitRating | src/main/java/com/example/buddyfinder_backend/service/RatingService.java:21-52 | a missing rater gives "User not found" and a missing target "Target user not found", changing nothing; an existing pair's row is replaced by its update, otherwise the new rating is appended; a refused cast or save stores nothing; one rating per pair is kept |
| RatingService.SubmittedRatingFound | src/main/java/com/example/buddyfinder_backend/service/RatingService.java:28-34 | after an update the pair's lookup finds the returned row |
| RatingService.AppendedRatingFound | src/main/java/com/example/buddyfinder_backend/service/RatingService.java:35-50 | after the first rating of a pair is appended, the lookup finds it at the end |
| RatingService.RatingsForUser | src/main/java/com/example/buddyfinder_backend/service/RatingService.java:54-56 | a rating is listed exactly when it is stored and was given to the user |
| ReferralService.UnclaimedNeedsAccepted | src/main/java/com/example/buddyfinder_backend/service/ReferralService.java:231-239 | a user's unclaimed accepted referrals never outnumber their accepted ones, so the "already claimed" check can only refuse once a reward was claimed |
| ReferralService.NamePart | src/main/java/com/example/buddyfinder_backend/service/ReferralService.java:294-297 | the name part of a code has at most eight chars, each an upper-case ASCII letter or digit |
| ReferralService.ThreeDigits | src/main/java/com/example/buddyfinder_backend/service/ReferralService.java:298 | `%03d` of a draw below 1000 is exactly three digits |
| ReferralService.ThreeDigitsValue | src/main/java/com/example/buddyfinder_backend/service/ReferralService.java:298 | the three digits read back as the draw |
| ReferralService.GenerateCode | src/main/java/com/example/buddyfinder_backend/service/ReferralService.java:293-300 | a code has 3 to 11 chars, each an upper-case ASCII letter or a digit |
| ReferralService.CodeShape | src/main/java/com/example/buddyfinder_backend/service/ReferralService.java:293-300 | a code is the name part followed by three digits that read back as the draw |
| ReferralService.CodeDrawInjective | src/main/java/com/example/buddyfinder_backend/service/ReferralService.java:293-300 | different draws give different codes for the same name |
| ReferralService.CodeFrom | src/main/java/com/example/buddyfinder_backend/service/ReferralService.java:276-288 | from a given draw on, the outcome is the failure exactly when every remaining draw of the ten gives a taken code; otherwise it is an untaken code |
| ReferralService.CodeFromIsFirstFree | src/main/java/com/example/buddyfinder_backend/service/ReferralService.java:276-288 | when every draw before a free one is taken, the outcome is the code of that first free draw |
| ReferralService.GenerateUniqueReferralCode | src/main/java/com/example/buddyfinder_backend/service/ReferralService.java:276-288 | the loop returns the draws' outcome `UniqueCode`: it fails with "Failed to generate unique referral code" exactly when the first ten draws all give taken codes, and otherwise returns an untaken code |
| ReferralService.BaseReferral | src/main/java/com/example/buddyfinder_backend/service/ReferralService.java:316-325 | the base referral is a PENDING placeholder (no referred user, no email) of the user |
| ReferralService.PlaceholderIndex | src/main/java/com/example/buddyfinder_backend/service/ReferralService.java:327-331 | the lookup finds a placeholder of the user, and fails exactly when the user has none |
| ReferralService.AppendNotAccepted | src/main/java/com/example/buddyfinder_backend/service/ReferralService.java:121-129 | appending a referral that is not ACCEPTED changes no accepted or unclaimed count |
| ReferralService.CreateBaseReferral | src/main/java/com/example/buddyfinder_backend/service/ReferralService.java:316-325 | fails exactly when the ten draws give no free code, and then nothing changes; on success exactly the base referral carrying the first free drawn code is appended under the next id |
| ReferralService.EnsureBaseReferral | src/main/java/com/example/buddyfinder_backend/service/ReferralService.java:327-331 | an existing placeholder is returned and nothing changes; otherwise it fails exactly when the ten draws give no free code, and succeeds by appending a new base referral carrying the first free drawn code |
| ReferralService.InfoOf | src/main/java/com/example/buddyfinder_backend/service/ReferralService.java:49-82 | the response carries the code and its link, the accepted count, locked and claimable exactly at three accepted (claimable only when nothing was claimed), and exactly the listed referrals that are not placeholders as invites |
| ReferralService.GetReferralInfo | src/main/java/com/example/buddyfinder_backend/service/ReferralService.java:31-83 | an unknown user gives "User not found" and nothing changes; for a known user it fails exactly when the listing has no placeholder and the ten draws give no free code; with a placeholder in the listing nothing changes, the referral counter included, and the newest placeholder's code is shown; otherwise exactly one base referral with the first free drawn code is created and shown first, and the counter rises by one |
| ReferralService.SaveInvite | src/main/java/com/example/buddyfinder_backend/service/ReferralService.java:121-129 | exactly the PENDING invite is appended under the next id |
| ReferralService.SendInvite | src/main/java/com/example/buddyfinder_backend/service/ReferralService.java:88-136 | a refusal changes nothing; past the checks it fails exactly when the referrer has no placeholder and the ten draws give no free code; otherwise exactly one PENDING invite with the referrer's base code is appended, after a new base referral carrying the first free drawn code when the referrer had none; the referral counter rises by one, or by two when a base referral was created |
| ReferralService.InviteWithBase | src/main/java/com/example/buddyfinder_backend/service/ReferralService.java:118-135 | with a placeholder, one invite carrying its code is appended and the referral counter rises by one; without one, it fails exactly when the ten draws give no free code, and otherwise appends the new base referral and then the invite, the counter rising by two |
| ReferralService.InviteWithNewBase | src/main/java/com/example/buddyfinder_backend/service/ReferralService.java:118-135 | for a referrer without a placeholder: fails with nothing saved exactly when the ten draws give no free code; otherwise appends the base referral with the first free code, then the invite carrying it, and the referral counter rises by two |
| ReferralService.InviteNotRepeated | src/main/java/com/example/buddyfinder_backend/service/ReferralService.java:113-116 | once an invite is saved, inviting the same email again is refused with "You have already invited this email" |
| ReferralService.EmailMatch | src/main/java/com/example/buddyfinder_backend/service/ReferralService.java:159-163 | a matching invite is one under the code |
| ReferralService.Holder | src/main/java/com/example/buddyfinder_backend/service/ReferralService.java:174-177 | the credited referral is one of those under the code |
| ReferralService.SignedRecordsUser | src/main/java/com/example/buddyfinder_backend/service/ReferralService.java:158-189 | after a sign-up the new user is on an ACCEPTED referral under the code, accepted now, crediting a referrer who already held the code |
| ReferralService.SignedKeepsOthers | src/main/java/com/example/buddyfinder_backend/service/ReferralService.java:167-189 | a sign-up changes only the matching invite when there is one, and otherwise only appends one row |
| ReferralService.SignupDrafts | src/main/java/com/example/buddyfinder_backend/service/ReferralService.java:193-219 | the credited referrer gets one or two notices, the second exactly when they have an unclaimed reward |
| ReferralService.ProcessReferralSignup | src/main/java/com/example/buddyfinder_backend/service/ReferralService.java:141-220 | an absent, blank or unknown code changes nothing, the referral counter included; a missing new user gives "User not found"; otherwise the sign-up succeeds exactly when the credited referrer still exists, and then the referrals become the sign-up's result, the referral counter rising by `SignedCount`, exactly its notices are stored, each is pushed to its owner's topic when the broker is up, and the notification counter advances by the number stored; a failure changes no table, counter or push |
| ReferralService.SignupUnderCode | src/main/java/com/example/buddyfinder_backend/service/ReferralService.java:155-219 | under a known code the sign-up succeeds exactly when the credited referrer still exists; it is then recorded and notified, the referral counter rising by `SignedCount`, each notice is pushed to its owner's topic when the broker is up, and the notification counter advances by the number stored; otherwise it is rolled back with "User not found" and nothing is pushed |
| ReferralService.RestoreReferrals | src/main/java/com/example/buddyfinder_backend/service/ReferralService.java:141 | a rollback restores the referrals table and its counter |
| ReferralService.RecordSignup | src/main/java/com/example/buddyfinder_backend/service/ReferralService.java:158-189 | the referrals become exactly the sign-up's result, and the referral counter rises by `SignedCount` |
| ReferralService.SignedCount | src/main/java/com/example/buddyfinder_backend/service/ReferralService.java:158-189 | a sign-up under a known code adds no row when an invite matches the new user's email, since that invite is updated in place, and exactly one new row otherwise |
| ReferralService.SignedGrowsByCount | src/main/java/com/example/buddyfinder_backend/service/ReferralService.java:158-189 | the referral table grows by exactly `SignedCount` rows in a sign-up |
| ReferralService.NotifySignup | src/main/java/com/example/buddyfinder_backend/service/ReferralService.java:193-219 | the notices are stored exactly when the referrer exists, and each stored notice is pushed to its owner's topic when the broker is up, and the notification counter advances by the number stored; otherwise nothing is stored or pushed and the call fails with "User not found" |
| ReferralService.MarkClaimed | src/main/java/com/example/buddyfinder_backend/service/ReferralService.java:251-258 | marking keeps the table's length and every row's id |
| ReferralService.RewardBatch | src/main/java/com/example/buddyfinder_backend/service/ReferralService.java:250-253 | at most three referrals are marked |
| ReferralService.RewardBatchIsUnclaimed | src/main/java/com/example/buddyfinder_backend/service/ReferralService.java:250-253 | every marked referral is one of the user's stored accepted, unclaimed referrals |
| ReferralService.MarkOneMore | src/main/java/com/example/buddyfinder_backend/service/ReferralService.java:254-258 | marking the next row of the batch extends the marked set by it |
| ReferralService.MarkBatch | src/main/java/com/example/buddyfinder_backend/service/ReferralService.java:254-258 | the loop marks exactly the rows of the batch |
| ReferralService.MarkClaimedOnlyPicked | src/main/java/com/example/buddyfinder_backend/service/ReferralService.java:254-258 | the picked rows get only the claim flag and time; every other row is untouched |
| ReferralService.ClaimAllowedIff | src/main/java/com/example/buddyfinder_backend/service/ReferralService.java:226-239 | a claim goes through exactly when the user exists and has an unclaimed reward |
| ReferralService.SaveUpgraded | src/main/java/com/example/buddyfinder_backend/service/ReferralService.java:241-247 | only the user's row is replaced, by its upgraded version |
| ReferralService.SaveClaims | src/main/java/com/example/buddyfinder_backend/service/ReferralService.java:249-258 | exactly the batch is marked claimed |
| ReferralService.NotifyPremium | src/main/java/com/example/buddyfinder_backend/service/ReferralService.java:262-270 | exactly one notice to the user is stored; its push goes to the owner's topic when the broker is up, and the notification counter advances by one |
| ReferralService.ClaimReward | src/main/java/com/example/buddyfinder_backend/service/ReferralService.java:225-271 | the claim succeeds exactly when no refusal applies; a refusal changes nothing; a success upgrades a FREE user to PREMIUM, marks at most three of their newest unclaimed accepted referrals, and stores one notice; its push goes to the owner's topic when the broker is up, and the notification counter advances by one |
| ReferralService.Grant | src/main/java/com/example/buddyfinder_backend/service/ReferralService.java:241-270 | the upgrade, the marking and the notice, and nothing else; its push goes to the owner's topic when the broker is up, and the notification counter advances by one |
| NotificationService.Topic | src/main/java/com/example/buddyfinder_backend/service/NotificationService.java:67 | a user's push destination starts with "/topic/notifications/" and carries more after it |
| NotificationService.TopicInjective | src/main/java/com/example/buddyfinder_backend/service/NotificationService.java:65-68 | different users have different destinations, so a push reaches only its owner |
| NotificationService.GroupMessageDraft | src/main/java/com/example/buddyfinder_backend/service/NotificationService.java:103-112 | a group-chat notice is a MESSAGE linked to the room as GROUP, naming the activity, or "a group chat" when it has no title |
| NotificationService.UserNotifications | src/main/java/com/example/buddyfinder_backend/service/NotificationService.java:145-153 | exactly the user's notices, each as often as stored, newest first |
| NotificationService.UnreadNotifications | src/main/java/com/example/buddyfinder_backend/service/NotificationService.java:158-166 | exactly the user's unread notices, each as often as stored, newest first; the length is the unread count |
| NotificationService.UnreadCount | src/main/java/com/example/buddyfinder_backend/service/NotificationService.java:171-174 | the count never exceeds the table and is 0 exactly when the user has no unread notice |
| NotificationService.UnreadCountPositive | src/main/java/com/example/buddyfinder_backend/service/NotificationService.java:171-174 | an unread notice of the user makes the count positive |
| NotificationService.MarkAllRead | src/main/java/com/example/buddyfinder_backend/service/NotificationService.java:199-203 | every notice of the user is marked read and every other notice is untouched |
| NotificationService.MarkAllReadClearsUnread | src/main/java/com/example/buddyfinder_backend/service/NotificationService.java:199-203 | afterwards the user has no unread notice |
| NotificationService.MarkAllReadKeepsOthers | src/main/java/com/example/buddyfinder_backend/service/NotificationService.java:199-203 | another user's unread count is unchanged |
| NotificationService.DropOlderThan | src/main/java/com/example/buddyfinder_backend/service/NotificationService.java:225-230 | exactly the notices created at or after the cutoff remain |
| NotificationService.CreatedIsFoundAndUnread | src/main/java/com/example/buddyfinder_backend/service/NotificationService.java:30-60 | a created notice is found by its id and adds one to its owner's unread count |
| NotificationService.Saved | src/main/java/com/example/buddyfinder_backend/service/NotificationService.java:30-60 | a batch of k calls saves k rows |
| NotificationService.SavedAt | src/main/java/com/example/buddyfinder_backend/service/NotificationService.java:42-52 | row i of a batch is draft i, unread, under id first + i |
| NotificationService.PushedTopics | src/main/java/com/example/buddyfinder_backend/service/NotificationService.java:55-73 | with the broker up each saved row is pushed to its owner's topic in order; with it down nothing is pushed and nothing fails |
| NotificationService.FirstMissing | src/main/java/com/example/buddyfinder_backend/service/NotificationService.java:39-40 | the position where a batch stops lies inside the batch |
| NotificationService.FirstMissingAt | src/main/java/com/example/buddyfinder_backend/service/NotificationService.java:39-40 | the batch stops at the first recipient without a user row |
| NotificationService.FirstMissingNone | src/main/java/com/example/buddyfinder_backend/service/NotificationService.java:39-40 | a batch whose recipients all exist never stops |
| NotificationService.NotifyEach | src/main/java/com/example/buddyfinder_backend/service/NotificationService.java:30-60 | a batch succeeds exactly when every recipient exists, appending the rows under consecutive ids; on "User not found" the rows are rolled back while the pushes already sent stay sent |
| NotificationService.CreateUntilMissing | src/main/java/com/example/buddyfinder_backend/service/NotificationService.java:30-60 | the loop saves one row per draft up to the first unknown recipient and reports how many it saved |
| NotificationService.AdminDrafts | src/main/java/com/example/buddyfinder_backend/service/RefundService.java:256-270 | one notice per admin row |
| NotificationService.AdminDraftsGoToAdmins | src/main/java/com/example/buddyfinder_backend/service/RefundService.java:256-270 | every such notice is an ADMIN notice with the given title, message and link, to an admin |
| NotificationService.AdminDraftsCoverAdmins | src/main/java/com/example/buddyfinder_backend/service/RefundService.java:256-270 | every admin gets a notice |
| NotificationService.AdminDraftsGoThrough | src/main/java/com/example/buddyfinder_backend/service/RefundService.java:256-270 | none of the admin notices fails |
| NotificationService.OwnerThenAdmins | src/main/java/com/example/buddyfinder_backend/service/RefundService.java:61-71 | the user is told first, only admins come after, and nothing fails |
| NotificationService.OwnerThenEveryAdmin | src/main/java/com/example/buddyfinder_backend/service/RefundService.java:61-71 | after the user's notice every admin is told |
| NotificationService.CreateNotification | src/main/java/com/example/buddyfinder_backend/service/NotificationService.java:30-60 | an unknown user gives "User not found" and nothing changes; otherwise one unread notice is saved under the next id and pushed when the broker is up |
| NotificationService.MarkAsRead | src/main/java/com/example/buddyfinder_backend/service/NotificationService.java:179-194 | an unknown id gives "Notification not found", someone else's notice "Unauthorized", and nothing changes; otherwise only that notice is marked read, and a notice already read stays as it was |
| NotificationService.MarkAllAsRead | src/main/java/com/example/buddyfinder_backend/service/NotificationService.java:199-203 | the table becomes MarkAllRead of the old one |
| NotificationService.DeleteNotification | src/main/java/com/example/buddyfinder_backend/service/NotificationService.java:208-220 | an unknown id or another owner refuses and nothing changes; otherwise exactly that notice is removed |
| NotificationService.DeleteOldNotifications | src/main/java/com/example/buddyfinder_backend/service/NotificationService.java:225-230 | exactly the notices older than daysOld days before now are deleted |
| ActivityService.CreationRefusal | src/main/java/com/example/buddyfinder_backend/service/ActivityService.java:26-42 | creation fails exactly when the creator is unknown ("Creator not found") or the `nullable = false` title or location is null (the not-null violation of the save) |
| ActivityService.CreateActivity | src/main/java/com/example/buddyfinder_backend/service/ActivityService.java:26-57 | an unknown creator or a null title or location returns its refusal and nothing changes; otherwise the activity is saved with count 1 and not cancelled, the creator becomes its participant and the OWNER of its new room, and capacity stays respected; exactly one activity, one participation, one room under the next room id, one OWNER member row and one "created" system message are appended, and each of the five counters moves by one |
| ActivityService.Publish | src/main/java/com/example/buddyfinder_backend/service/ActivityService.java:34-51 | the activity is saved under the next id with its creator as the one participant |
| ActivityService.NewActivityParticipant | src/main/java/com/example/buddyfinder_backend/service/ActivityService.java:45-51 | the creator's participation keeps one participation per user and activity |
| ActivityService.JoinRefusal | src/main/java/com/example/buddyfinder_backend/service/ActivityService.java:65-78 | a join is refused exactly when the activity or the user is missing, the user already takes part, the capacity is null (unboxing it throws a `NullPointerException`, whose message is returned; the model returns a placeholder text for it), or the count (null read as 0) has reached the capacity |
| ActivityService.JoinNotRepeated | src/main/java/com/example/buddyfinder_backend/service/ActivityService.java:71-73 | after a successful join the same request is refused with "You are already a participant of this activity." |
| ActivityService.JoinActivity | src/main/java/com/example/buddyfinder_backend/service/ActivityService.java:62-103 | every refusal is returned as its message with no change to any table or counter; a join adds one participation, raising its counter by one, raises the count by one, keeps capacity, and, when the activity has one room the user is not in yet, adds exactly one MEMBER row and the join message, each counter rising by one; with no room, several rooms or an existing membership the chat tables and their counters stay as they were, and that failure does not undo the join |
| ActivityService.JoinChecked | src/main/java/com/example/buddyfinder_backend/service/ActivityService.java:81-98 | past the checks: one participation appended and its counter raised by one, the count raised by one, capacity kept, and the room join as described for `JoinActivity` |
| ActivityService.JoinRoomQuietly | src/main/java/com/example/buddyfinder_backend/service/ActivityService.java:91-95 | with one room the known user is not in, exactly one MEMBER row and the join message are added, the member and message counters each rising by one; in every other case the chat tables and their counters stay as they were |
| ActivityService.Enrol | src/main/java/com/example/buddyfinder_backend/service/ActivityService.java:80-89 | exactly one participation is added, its counter rising by one, and only that activity's count rises by one, within capacity |
| ActivityService.JoinKeepsUniqueParticipation | src/main/java/com/example/buddyfinder_backend/service/ActivityService.java:71-86 | a new participation keeps one per user and activity and makes the user a participant |
| ActivityService.CountUpdateKeepsIds | src/main/java/com/example/buddyfinder_backend/service/ActivityService.java:88-89 | rewriting a count keeps every id and, for a count within capacity, the capacity bound |
| ActivityService.LeaveActivity | src/main/java/com/example/buddyfinder_backend/service/ActivityService.java:108-137 | "Activity not found" or "You are not a participant of this activity." change nothing; so do several rooms for the activity (the non-unique-result error) and a room that does not hold the user ("User is not in this room"), since the failing room leave rolls everything back; otherwise exactly the participation is deleted, the count drops by one but not below 0, and with a room exactly the user's membership is deleted and "<name> left the chat." is posted |
| ActivityService.Withdraw | src/main/java/com/example/buddyfinder_backend/service/ActivityService.java:119-129 | exactly that participation is deleted and the count drops, never below 0 |
| ActivityService.Max0 | src/main/java/com/example/buddyfinder_backend/service/ActivityService.java:128 | the result is 0 or the input, whichever is larger |
| ActivityService.LeaveKeepsParticipation | src/main/java/com/example/buddyfinder_backend/service/ActivityService.java:119-124 | deleting a participation keeps one per user and activity and leaves that user outside the activity |
| GroupChatService.ActivityTitle | src/main/java/com/example/buddyfinder_backend/service/GroupChatService.java:72 | a title is found exactly when the activity row exists |
| GroupChatService.SystemMessage | src/main/java/com/example/buddyfinder_backend/service/GroupChatService.java:53-59 | a system message has no sender and carries the system flag |
| GroupChatService.CreateRoomForActivity | src/main/java/com/example/buddyfinder_backend/service/GroupChatService.java:30-63 | "Activity not found" or "Owner user not found" change nothing; otherwise one room is saved with its owner as its only member (OWNER) and "<name> created this group." as its only message; an existing room of the activity is not checked for |
| GroupChatService.OpenRoom | src/main/java/com/example/buddyfinder_backend/service/GroupChatService.java:35-60 | the room, the OWNER membership and the system message are saved under the next ids |
| GroupChatService.NewRoomHasOnlyOwner | src/main/java/com/example/buddyfinder_backend/service/GroupChatService.java:44-50 | the new room's member list is exactly its owner |
| GroupChatService.NewRoomHasOnlySystemMessage | src/main/java/com/example/buddyfinder_backend/service/GroupChatService.java:53-60 | the new room's history is exactly the system message |
| GroupChatService.GetRoomInfoByActivity | src/main/java/com/example/buddyfinder_backend/service/GroupChatService.java:65-74 | no room gives "Chat room not found for activity", several rooms the non-unique-result error, and one room its id with the activity |
| GroupChatService.JoinRoomByActivity | src/main/java/com/example/buddyfinder_backend/service/GroupChatService.java:98-128 | a missing room refuses; a member joining again changes nothing; an unknown user gives "User not found"; otherwise the user becomes a MEMBER and "<name> has joined the chat." is posted |
| GroupChatService.RoomByActivityIsRoom | src/main/java/com/example/buddyfinder_backend/service/GroupChatService.java:100-101 | the room found for an activity is a stored room |
| GroupChatService.JoinKeepsUnique | src/main/java/com/example/buddyfinder_backend/service/GroupChatService.java:103-117 | a new membership keeps one membership per user and room and makes the user a member |
| GroupChatService.LeaveRoom | src/main/java/com/example/buddyfinder_backend/service/GroupChatService.java:130-149 | a non-member gets "User is not in this room" and nothing changes; a member of any role loses the membership and "<name> left the chat." is posted |
| GroupChatService.LeaveRemovesMembership | src/main/java/com/example/buddyfinder_backend/service/GroupChatService.java:132-136 | deleting the membership keeps one per user and room and leaves the user outside the room |
| GroupChatService.FanOutRecipients | src/main/java/com/example/buddyfinder_backend/service/GroupChatService.java:176-183 | exactly the other members of the room are notified, once per membership, each with a MESSAGE about the room |
| GroupChatService.SendRefusal | src/main/java/com/example/buddyfinder_backend/service/GroupChatService.java:155-163 | a send is refused exactly when the room is missing, the sender is not a member, or the sender's row is gone |
| GroupChatService.SendMessage | src/main/java/com/example/buddyfinder_backend/service/GroupChatService.java:153-194 | a refusal changes nothing; otherwise the message is stored and every other member is notified, with the title "Group chat" when the room has no activity; a failing notice rolls back the message and the notices, while pushes already sent stay sent |
| GroupChatService.StoreAndNotify | src/main/java/com/example/buddyfinder_backend/service/GroupChatService.java:165-193 | the message is saved under the next id and the notices follow in order |
| GroupChatService.GetMessages | src/main/java/com/example/buddyfinder_backend/service/GroupChatService.java:196-211 | as many entries as the room has stored messages, oldest first, with sender-less entries signed "System"; no membership check is made; that each stored message is listed exactly once is stated by `GetMessagesShowStored` |
| GroupChatService.GetMessagesShowStored | src/main/java/com/example/buddyfinder_backend/service/GroupChatService.java:196-211 | each entry shows a stored message of that room, and every stored message of the room is listed exactly as often as it is stored: the listed ids are the room's stored ids as a multiset |
| GroupChatService.GetMembers | src/main/java/com/example/buddyfinder_backend/service/GroupChatService.java:213-223 | one entry per membership of the room, with its stored user and role |
| GroupChatService.InfoOf | src/main/java/com/example/buddyfinder_backend/service/GroupChatService.java:80-88 | a room whose activity is gone shows no activity and the title "Group Chat"; otherwise it shows the activity's id and title |
| GroupChatService.GetRoomsForUser | src/main/java/com/example/buddyfinder_backend/service/GroupChatService.java:76-94 | one entry per membership of the user, highest room id first |
| GroupChatService.GetRoomsForUserMembers | src/main/java/com/example/buddyfinder_backend/service/GroupChatService.java:76-94 | every listed room is one the user belongs to |
| GroupChatService.GetRoomsForUserComplete | src/main/java/com/example/buddyfinder_backend/service/GroupChatService.java:76-94 | every room the user belongs to is listed |
| GroupChatService.MemberOfListed | src/main/java/com/example/buddyfinder_backend/service/GroupChatService.java:103 | a stored membership makes its user a member of its room |
| GroupChatService.MemberIndexFinds | src/main/java/com/example/buddyfinder_backend/service/GroupChatService.java:132-134 | a stored membership is found by the membership lookup |
| MatchService.AtMostOneKept | src/main/java/com/example/buddyfinder_backend/service/MatchService.java:135 | a filter keeps at most one row when no two rows both pass it |
| MatchService.PairMatchesAtMostOne | src/main/java/com/example/buddyfinder_backend/service/MatchService.java:135 | with one match per unordered pair, the lookup of a pair's match never meets two rows |
| MatchService.CreateMatch | src/main/java/com/example/buddyfinder_backend/service/MatchService.java:133-149 | the pair's existing match, in either order, is returned unchanged; otherwise a new ACTIVE match is saved; either way the pair has exactly one match |
| MatchService.NewPairKeepsUnique | src/main/java/com/example/buddyfinder_backend/service/MatchService.java:141-148 | a match for a pair that has none keeps one match per pair |
| MatchService.LikeUser | src/main/java/com/example/buddyfinder_backend/service/MatchService.java:29-69 | any earlier row from the liker to the target returns "Already liked this user" and a missing user an error, with no change to any table or counter; otherwise a LIKE is saved and the like counter rises by one, and a reverse row makes "It's a match!" with the pair's one match (the match counter rising by one only when the pair had none) and a MATCH notice to each, both pushed in order when the broker is up and the counter advanced by two; several reverse rows fail after the LIKE was saved, the match counter unchanged; no reverse row gives "Like sent!" |
| MatchService.Celebrate | src/main/java/com/example/buddyfinder_backend/service/MatchService.java:52-65 | the pair ends with one match, the existing one or a new ACTIVE one (only then does the match counter rise by one), and two MATCH notices are saved and pushed in order when the broker is up, the counter advancing by two |
| MatchService.NotifyPair | src/main/java/com/example/buddyfinder_backend/service/MatchService.java:55-62 | the two MATCH notices are both stored in order, the counter advances by two, and each is pushed to its owner's topic when the broker is up |
| MatchService.ReverseLookupAfterLike | src/main/java/com/example/buddyfinder_backend/service/MatchService.java:47-50 | the reverse lookup finds the LIKE just saved exactly when a user likes themselves |
| MatchService.PassUser | src/main/java/com/example/buddyfinder_backend/service/MatchService.java:71-85 | "User not found" or "Target user not found" change nothing; otherwise one PASS row is always added, with no duplicate check, and the like counter rises by one |
| MatchService.GetMatches | src/main/java/com/example/buddyfinder_backend/service/MatchService.java:87-101 | the loop returns the other user of each active match of the caller, in match order |
| MatchService.MatchedUsers | src/main/java/com/example/buddyfinder_backend/service/MatchService.java:87-101 | one entry per active match of the caller, in match order, each the other user of that match |
| MatchService.MatchedUsersExact | src/main/java/com/example/buddyfinder_backend/service/MatchService.java:87-101 | a user is listed exactly when an active match joins them to the caller |
| MatchService.MatchesWithDetails | src/main/java/com/example/buddyfinder_backend/service/MatchService.java:103-131 | one entry per active match of the caller, in match order, with that match's id and time, the other user of the match and that user's name |
| MatchService.DetailsAgreeWithMatches | src/main/java/com/example/buddyfinder_backend/service/MatchService.java:103-131 | the detailed list names the same users in the same order as the plain list |
| MessageService.MarkRead | src/main/java/com/example/buddyfinder_backend/service/MessageService.java:80-87 | reading keeps the number of messages |
| MessageService.GetUnreadCount | src/main/java/com/example/buddyfinder_backend/service/MessageService.java:94-96 | the count never exceeds the table and is 0 exactly when no message of the match from someone other than the user is unread; no participant check is made |
| MessageService.UnreadGrows | src/main/java/com/example/buddyfinder_backend/service/MessageService.java:94-96 | a new message raises the count by one exactly when it belongs to the match, is unread and comes from the other party; any other message leaves the count unchanged |
| MessageService.MarkReadClearsUnread | src/main/java/com/example/buddyfinder_backend/service/MessageService.java:80-96 | after reading, the reader's unread count for the match is 0 |
| MessageService.MarkReadChangesOnlyUnread | src/main/java/com/example/buddyfinder_backend/service/MessageService.java:80-87 | only the other party's unread messages of the match change, each becoming read at that time; every other message is untouched |
| MessageService.MarkReadIdempotent | src/main/java/com/example/buddyfinder_backend/service/MessageService.java:80-87 | reading twice is the same as reading once; a second read keeps the first read time |
| MessageService.HistoryExact | src/main/java/com/example/buddyfinder_backend/service/MessageService.java:76-91 | the history lists every message of the match exactly as often as it is stored (the listed ids are the match's stored ids as a multiset), oldest first, as stored |
| MessageService.HistoryAfterReadIsRead | src/main/java/com/example/buddyfinder_backend/service/MessageService.java:79-91 | the history returned after reading shows no unread message from the other party |
| MessageService.SendMessage | src/main/java/com/example/buddyfinder_backend/service/MessageService.java:27-64 | "Match not found", "User not found" or "Unauthorized to send message to this match" change nothing; when the match exists and the sender exists and is one of its users the call succeeds, storing one unread message and setting the match's last-message time |
| MessageService.SamePairsAfterUpdate | src/main/java/com/example/buddyfinder_backend/service/MessageService.java:55-57 | updating a match's last-message time keeps one match per pair and its lookup |
| MessageService.MatchIndexSameIds | src/main/java/com/example/buddyfinder_backend/service/MessageService.java:67-68 | tables with the same ids in the same order find a match at the same position |
| MessageService.GetMessagesByMatch | src/main/java/com/example/buddyfinder_backend/service/MessageService.java:66-92 | "Match not found" or "Unauthorized to view messages" change nothing; otherwise the other party's unread messages are marked read and the marked history is returned |
| MessageService.MarkAll | src/main/java/com/example/buddyfinder_backend/service/MessageService.java:80-87 | the marking loop leaves the table as MarkRead of the old one |
| ProfileService.DropMarks | src/main/java/com/example/buddyfinder_backend/service/ProfileService.java:150 | deleting the brackets and quotes leaves no such mark and only chars of the input |
| ProfileService.SplitOn | src/main/java/com/example/buddyfinder_backend/service/ProfileService.java:155 | the pieces hold no separator and only chars of the input, and there is at least one |
| ProfileService.ParsePhotos | src/main/java/com/example/buddyfinder_backend/service/ProfileService.java:145-159 | every parsed photo is non-empty, trimmed, and free of commas, brackets and quotes |
| ProfileService.PhotoPieces | src/main/java/com/example/buddyfinder_backend/service/ProfileService.java:155-158 | every piece kept is such a plain photo |
| ProfileService.PiecesArePlain | src/main/java/com/example/buddyfinder_backend/service/ProfileService.java:155-157 | each trimmed non-empty piece of the split is a plain photo |
| ProfileService.PieceIsPlain | src/main/java/com/example/buddyfinder_backend/service/ProfileService.java:156-157 | a trimmed non-empty comma-free piece of the mark-free text is a plain photo |
| ProfileService.ToJsonArray | src/main/java/com/example/buddyfinder_backend/service/ProfileService.java:162-167 | the text is bracketed, and it is "[]" exactly for the empty list |
| ProfileService.DropMarksAppend | src/main/java/com/example/buddyfinder_backend/service/ProfileService.java:150 | deleting marks distributes over concatenation |
| ProfileService.DropMarksOfPlain | src/main/java/com/example/buddyfinder_backend/service/ProfileService.java:150 | text without marks is left as it is |
| ProfileService.DropMarksOfJoin | src/main/java/com/example/buddyfinder_backend/service/ProfileService.java:150-166 | deleting the marks of the quoted list body leaves the photos joined by bare commas |
| ProfileService.JoinEnds | src/main/java/com/example/buddyfinder_backend/service/ProfileService.java:166 | the joined list starts with the first photo's first char and ends with the last photo's last char |
| ProfileService.SplitAfter | src/main/java/com/example/buddyfinder_backend/service/ProfileService.java:155 | splitting at a comma after a comma-free prefix peels that prefix off |
| ProfileService.SplitOfCommaFree | src/main/java/com/example/buddyfinder_backend/service/ProfileService.java:155 | comma-free text splits into itself |
| ProfileService.SplitOfJoin | src/main/java/com/example/buddyfinder_backend/service/ProfileService.java:155-166 | splitting photos joined by commas gives them back |
| ProfileService.CleanedJson | src/main/java/com/example/buddyfinder_backend/service/ProfileService.java:150-166 | deleting the marks of a written non-empty list and trimming leaves the photos joined by commas |
| ProfileService.DropMarksOfJson | src/main/java/com/example/buddyfinder_backend/service/ProfileService.java:150-166 | deleting the marks of a written non-empty list leaves the photos joined by commas |
| ProfileService.TrimEach | src/main/java/com/example/buddyfinder_backend/service/ProfileService.java:156 | trimming plain photos changes none |
| ProfileService.PhotosRoundTrip | src/main/java/com/example/buddyfinder_backend/service/ProfileService.java:145-167 | parsing what was written gives back every list of plain photos |
| ProfileService.ParseOfWrittenParse | src/main/java/com/example/buddyfinder_backend/service/ProfileService.java:145-167 | writing a parsed list back and parsing again changes nothing |
| ProfileService.AddPhoto | src/main/java/com/example/buddyfinder_backend/service/ProfileService.java:73-80 | the URL goes last; the list grows by one below six and otherwise keeps its length by dropping its first photo, so at most six stay at most six; the others keep their order |
| ProfileService.RemoveFirst | src/main/java/com/example/buddyfinder_backend/service/ProfileService.java:101 | a missing URL leaves the list as it is; otherwise the list loses exactly one copy of it |
| ProfileService.RemoveFirstKeepsPrefix | src/main/java/com/example/buddyfinder_backend/service/ProfileService.java:101 | the copy removed is the first, and everything else stays in place |
| ProfileService.GetProfileByUserId | src/main/java/com/example/buddyfinder_backend/service/ProfileService.java:26-29 | a stored profile is returned with no change; otherwise a default profile is created for an existing user, or "User not found" with no change |
| ProfileService.RewriteKeepsProfiles | src/main/java/com/example/buddyfinder_backend/service/ProfileService.java:59 | saving a profile over its row keeps one profile per user and keeps its position |
| ProfileService.Rewrite | src/main/java/com/example/buddyfinder_backend/service/ProfileService.java:59 | only the user's profile row is replaced |
| ProfileService.UpdateRefusal | src/main/java/com/example/buddyfinder_backend/service/ProfileService.java:34-57 | an update is refused with the `ClassCastException` exactly when a present text key holds something other than null or a string, or `workoutFrequency` holds something other than null or a 32-bit number |
| ProfileService.ApplyUpdate | src/main/java/com/example/buddyfinder_backend/service/ProfileService.java:31-60 | the update keeps the profile's id and user |
| ProfileService.ApplyUpdateFields | src/main/java/com/example/buddyfinder_backend/service/ProfileService.java:34-57 | a field whose key is absent keeps its value; `photos` and `workoutFrequency` take the value sent, null clearing them; a present text key of the others is stored sanitized, so sanitizing it again changes nothing |
| ProfileService.SanitizedKeyIsClean | src/main/java/com/example/buddyfinder_backend/service/ProfileService.java:38-56 | sanitizing a sent text key that passed its cast twice is the same as once |
| ProfileService.UpdateProfile | src/main/java/com/example/buddyfinder_backend/service/ProfileService.java:31-60 | "User not found" changes nothing; a failed `(String)` or `(Integer)` cast returns the `ClassCastException` and, the method not being transactional, leaves the default profile it created saved while storing none of the keys; otherwise the user's profile, created first when missing, is stored with the sent keys applied, and the new profiles table is the old one, with the default row appended when the user had none, with only the user's row replaced |
| ProfileService.UploadPhoto | src/main/java/com/example/buddyfinder_backend/service/ProfileService.java:62-90 | "User not found" changes nothing; otherwise the profile is fetched, created as the default when missing, and the call succeeds exactly when the upload does; a refused or failed upload returns its message and leaves the default profile saved; on success the uploaded URL is added to the parsed list and the list is written back as JSON, only the user's row being replaced |
| ProfileService.UploadedPhotosReadBack | src/main/java/com/example/buddyfinder_backend/service/ProfileService.java:70-86 | what is stored reads back as the edited list and holds at most six photos when the old column did |
| ProfileService.AddedPhotosPlain | src/main/java/com/example/buddyfinder_backend/service/ProfileService.java:73-80 | adding a plain URL to plain photos keeps every photo plain |
| ProfileService.DeletePhoto | src/main/java/com/example/buddyfinder_backend/service/ProfileService.java:92-110 | "No photos to delete" and "Photo not found" keep the profile; otherwise the first copy of the URL goes and an empty list is stored as null; a default profile created by the lookup stays even on failure; the new profiles table is the old one, with that default row appended when the user had none, and on success with only the user's row replaced |
| ProfileService.DeletedPhotoReadBack | src/main/java/com/example/buddyfinder_backend/service/ProfileService.java:101-107 | after a deletion the stored list reads back with one copy fewer of the URL |
| SearchService.IsBlankTextIff | src/main/java/com/example/buddyfinder_backend/service/SearchService.java:191-193 | a value is blank exactly when it is null or made only of chars up to U+0020 |
| SearchService.FirstNonBlank | src/main/java/com/example/buddyfinder_backend/service/SearchService.java:182-189 | the result is null exactly when every argument is blank; otherwise it is the first argument that is not blank |
| SearchService.FirstOfTwo | src/main/java/com/example/buddyfinder_backend/service/SearchService.java:129 | `firstNonBlank(activity, interests)` is the activity text when it is not blank, else the interests text when that is not blank, else null |
| SearchService.MatchesContains | src/main/java/com/example/buddyfinder_backend/service/SearchService.java:136-144 | a blank filter passes everyone; a blank field fails a non-blank filter; a field that contains the filter as written passes |
| SearchService.ContainedIgnoringCase | src/main/java/com/example/buddyfinder_backend/service/SearchService.java:136-144 | a field containing a non-blank filter is itself not blank and still contains it after both are lower-cased |
| SearchService.MatchesEquals | src/main/java/com/example/buddyfinder_backend/service/SearchService.java:146-154 | a blank filter passes everyone; a blank field fails a non-blank filter; a field equal to the trimmed filter passes |
| SearchService.MatchesTime | src/main/java/com/example/buddyfinder_backend/service/SearchService.java:156-171 | a blank time filter passes everyone and a blank availability fails a non-blank one |
| SearchService.MatchesFilters | src/main/java/com/example/buddyfinder_backend/service/SearchService.java:70-82 | no filter object, or one with every text blank and no radius, passes everyone; a radius search fails every user outside the radius |
| SearchService.Take | src/main/java/com/example/buddyfinder_backend/service/SearchService.java:61 | the result is the first n elements, or the whole list when it is shorter |
| SearchService.SearchInternal | src/main/java/com/example/buddyfinder_backend/service/SearchService.java:51-64 | at most limit users, each a candidate (not the caller, active, not an admin, not incognito, not liked by the caller) that passes the filters |
| SearchService.SearchKeepsOrder | src/main/java/com/example/buddyfinder_backend/service/SearchService.java:54-61 | the results are the first passing users in store order, and when fewer than limit are found every passing user is among them |
| SearchService.SearchBuddies | src/main/java/com/example/buddyfinder_backend/service/SearchService.java:28-35 | at most 20 users, each a candidate whose location contains the location text and whose interests contain the interests text, ignoring case |
| SearchService.SearchWithFilters | src/main/java/com/example/buddyfinder_backend/service/SearchService.java:37-39 | at most 20 users, each a candidate that passes the filters |
| SearchService.PotentialMatches | src/main/java/com/example/buddyfinder_backend/service/SearchService.java:41-47 | at most 10 users, the first ones of the filtered search with the same filters |
| SearchService.NoFiltersKeepsCandidates | src/main/java/com/example/buddyfinder_backend/service/SearchService.java:45-47 | without filters the result is the first candidates up to the limit |
| SearchService.UpperKeepsTrimmable | src/main/java/com/example/buddyfinder_backend/service/SearchService.java:191-193 | upper-casing keeps the length and which chars count as blank |
| SearchService.LowerOfUpper | src/main/java/com/example/buddyfinder_backend/service/SearchService.java:143 | lower-casing after upper-casing is lower-casing |
| SearchService.ContainsFilterCaseInsensitive | src/main/java/com/example/buddyfinder_backend/service/SearchService.java:136-144 | the case of a substring filter does not change the outcome |
| SearchService.EqualsImpliesContains | src/main/java/com/example/buddyfinder_backend/service/SearchService.java:136-154 | a user passing an exact filter also passes the substring filter with the trimmed text |
| SearchService.ContainsSelf | src/main/java/com/example/buddyfinder_backend/service/SearchService.java:136-144 | a non-blank field passes itself as a substring filter |
| SearchService.OtherTimeIsContains | src/main/java/com/example/buddyfinder_backend/service/SearchService.java:156-171 | a time filter naming no slot is an ordinary substring filter on the availability |
| SearchService.SlotMatchesItsKeyword | src/main/java/com/example/buddyfinder_backend/service/SearchService.java:163-168 | a named slot, in any case, matches an availability that mentions its first keyword |
| SearchService.MatchesActivity | src/main/java/com/example/buddyfinder_backend/service/SearchService.java:128-134 | the activity filter uses the activity text when it is not blank, otherwise the interests text, and passes everyone when both are blank |
| CloudinaryService.UploadImage | src/main/java/com/example/buddyfinder_backend/service/CloudinaryService.java:23-53 | the upload succeeds exactly when the file is not empty, its content type starts with "image/", and the client call succeeds; the result is then the client's URL |
| CloudinaryService.GuardsBeforeUpload | src/main/java/com/example/buddyfinder_backend/service/CloudinaryService.java:26-34 | a refused file gets "File is empty" or "File must be an image", in that order, whatever the client would answer |
| CloudinaryService.SplitAll | src/main/java/com/example/buddyfinder_backend/service/CloudinaryService.java:83 | a split yields at least one piece |
| CloudinaryService.DropTrailingEmpty | src/main/java/com/example/buddyfinder_backend/service/CloudinaryService.java:83 | dropping trailing empty pieces keeps a prefix of the pieces that ends in a non-empty one |
| CloudinaryService.DigitRunEnd | src/main/java/com/example/buddyfinder_backend/service/CloudinaryService.java:88 | the run of digits from a position ends at the first non-digit |
| CloudinaryService.FirstVersion | src/main/java/com/example/buddyfinder_backend/service/CloudinaryService.java:88 | the version found is the leftmost "v", digits and "/" in the text from the start position, and there is none exactly when no position from there matches (what `replaceFirst` removes) |
| CloudinaryService.RemoveFirstVersion | src/main/java/com/example/buddyfinder_backend/service/CloudinaryService.java:88 | removing the version never lengthens the text |
| CloudinaryService.LastIndexOf | src/main/java/com/example/buddyfinder_backend/service/CloudinaryService.java:90 | the position found holds the char and none after it does; none is found exactly when the char is absent |
| CloudinaryService.ExtractPublicId | src/main/java/com/example/buddyfinder_backend/service/CloudinaryService.java:76-99 | a public id is found only in a URL that contains "cloudinary.com" and "/upload/" |
| CloudinaryService.IndexOfPrefix | src/main/java/com/example/buddyfinder_backend/service/CloudinaryService.java:83 | a match in a prefix is the first match of the whole text |
| CloudinaryService.ExtractFromUploadUrl | src/main/java/com/example/buddyfinder_backend/service/CloudinaryService.java:76-99 | the public id of an uploaded image's URL, with its version and extension, is the id it was stored under |
| CloudinaryService.NothingAfterUpload | src/main/java/com/example/buddyfinder_backend/service/CloudinaryService.java:83-84 | a URL ending at its first "/upload/" has no public id |
| CloudinaryService.NoPublicIdWithoutSecondPiece | src/main/java/com/example/buddyfinder_backend/service/CloudinaryService.java:84 | fewer than two pieces give no public id |
| CloudinaryService.SplitOnce | src/main/java/com/example/buddyfinder_backend/service/CloudinaryService.java:83 | a split cuts at the first separator and carries on after it |
| CloudinaryService.SplitAtEnd | src/main/java/com/example/buddyfinder_backend/service/CloudinaryService.java:83 | a text ending at its first separator splits into fewer than two pieces |
| CloudinaryService.SplitAllAtEnd | src/main/java/com/example/buddyfinder_backend/service/CloudinaryService.java:83 | before trailing empties are dropped, such a text gives the part before the separator and an empty piece |
| CloudinaryService.FirstSeparatorKept | src/main/java/com/example/buddyfinder_backend/service/CloudinaryService.java:83 | a first separator stays first whatever follows it |
| CloudinaryService.SplitInTwo | src/main/java/com/example/buddyfinder_backend/service/CloudinaryService.java:83 | with no separator in what follows, the split is exactly the two sides |
| CloudinaryService.SplitAtFirst | src/main/java/com/example/buddyfinder_backend/service/CloudinaryService.java:83-86 | the second piece is exactly what follows the first "/upload/" when no other one follows |
| CloudinaryService.StripVersion | src/main/java/com/example/buddyfinder_backend/service/CloudinaryService.java:88 | a leading "v<digits>/" is removed |
| CloudinaryService.ContainsInPrefix | src/main/java/com/example/buddyfinder_backend/service/CloudinaryService.java:77 | a text contained in a prefix is contained in the whole |
| CloudinaryService.DigitRunEndAt | src/main/java/com/example/buddyfinder_backend/service/CloudinaryService.java:88 | a run of digits stopped by a non-digit ends there |
| CloudinaryService.LastDotAt | src/main/java/com/example/buddyfinder_backend/service/CloudinaryService.java:90-93 | the dot before an extension without dots is the last dot of the name |
| CloudinaryService.DotBeforeExtension | src/main/java/com/example/buddyfinder_backend/service/CloudinaryService.java:90-93 | in id + "." + extension the dot sits right after the id and no dot follows it |
| CloudinaryService.LastOccurrence | src/main/java/com/example/buddyfinder_backend/service/CloudinaryService.java:90 | an occurrence of a char with none after it is the one `lastIndexOf` finds |
| CloudinaryService.DeleteImage | src/main/java/com/example/buddyfinder_backend/service/CloudinaryService.java:59-71 | the client is called only for a URL containing "cloudinary.com", never for null, and the call never fails the caller |

## Left out

- The WebSocket/STOMP layer (the chat controllers, the connection listener, the typing events) is not modelled. A notification push is only an entry in `Db.outbox`, and a failed push leaves no entry.
- Concurrency is not modelled. Every operation is one atomic step, so the check-then-insert race of `joinRoomByActivity` cannot occur in the model.
- JWT, BCrypt, the authentication manager and the REST controllers are not modelled. Whether the password check passed is a boolean parameter of `AuthService.Login`, and the caller's id is a plain parameter.
- Floating point is not modelled:
  - the Haversine distance of a radius search is the parameter `nearby` (the ids within the radius);
  - `calculateCompatibility` and the stored compatibility score are left out;
  - the average rating and its rounding are left out (`getAverageRating`, `getUserRatingStats`, the rating fields of a search result).
- A rating's float score is not stored. It only decides whether the map's value casts. Non-integral JSON numbers in update maps are not modelled.
- RatingService.Reviewed: the update time is set on every accepted update. Hibernate would skip the update statement when no column changed.
- The Cloudinary client is not modelled. Its upload answer is a parameter of `UploadImage`, and `DeleteImage` only says which public id `destroy` would be called with. The simulated payment gateway of a refund (its sleep and its transaction id) is a parameter too.
- JavaText.ParseLong: accepts only the ASCII digits 0-9. `Long.valueOf` goes through `Character.digit`, which also accepts the other Unicode decimal digits (Arabic-Indic, full-width and so on), so such text parses in Java and is refused in the model.
- `ProfileService.uploadProfilePicture` is not modelled. It only stores the uploaded URL on the user and deletes the previous image.
- The clock, generated ids and random draws are parameters. Refused or rolled-back inserts consume no id in the model, while a database sequence would advance.
- The `mapTo*Response` DTO builders and logging are not modelled. Listing operations return the stored rows or the ids the builders start from. The photos and ratings of a search result are not modelled either.
- Exception texts that Java or Hibernate would produce are placeholders: the message of a `ClassCastException`, the non-unique-result error, the not-null and unique constraint violations, and `Entities.NullPointer`, a placeholder for the message of a `NullPointerException`. The `Map.of` NPE of the report view has no message. A JVM-thrown NPE does have one, naming the null expression.
- ActivityService.JoinRefusal: for an activity without a capacity, `joinActivity` returns the placeholder `Entities.NullPointer` text. The code returns the JVM's message for unboxing the null result of `getMaxParticipants()`.
- Column length limits (`@Column(length = n)`, `precision`/`scale`) are not modelled. Hibernate does not check them, and whether the database refuses or truncates an over-long value depends on the database and its mode, which are not part of the source. The members that let such a value through are listed below.
- ReportService.SubmitRefusal: a sanitized `reason` over the 100 chars of `Report.reason` is accepted.
- ReportService.SubmitReport: stores a `reason` of any length, although the column holds 100 chars.
- SupportRequestService.CreateRefusal: a trimmed, sanitized email over the 150 chars of `SupportRequest.email` is accepted.
- SupportRequestService.CreateRequest: stores an email of any length, although the column holds 150 chars.
- UserService.UpdateRefusal: a sanitized gender over the 20 chars of `User.gender` is accepted.
- UserService.UpdateProfile: stores a gender of any length, although the column holds 20 chars.
- ReferralService.SendInvite: stores an invited email of any length, although `Referral.referredEmail` holds 100 chars.
- RefundService.RequestRefusal: the amount's `precision = 10, scale = 2` is not checked. The model keeps the amount as the decimal text that was sent.
- RefundService.RequestRefund: stores the amount as sent, without the column's precision and scale.
- Report `createdAt`/`updatedAt` timestamps kept by Hibernate are not stored.
- `getReportsFiledBy`, `getReportsAgainst` and `getAllReports` of the report service are not modelled. They are plain filters with DTO mapping.
- The admin check in front of report and support-request status updates is not modelled. It is done by the controllers, not the services.
- `uploadVerification` stores an image with Cloudinary before the transaction commits. When the transaction is later rolled back, the uploaded image stays; the model does not track it.
- Two verifications with the same submission time are ordered by store order.
- `getAllVerifications` is not modelled.
- The refund columns `subId`, `refundMethod`, `refundType`, `reason`, `description`, `paymentGateway` and `updatedAt` are not stored. The request's method, type and reason are still checked against their enums. The amount (kept as its text), `originalTransId` and `refundTransId` are stored.
- The `availability` key of `UserService.updateProfile` is not modelled. The entity declares a Boolean column, while every other use treats availability as text.
- Database foreign keys are not modelled. `deleteUserAccount` keeps chat memberships and group messages, which the model shows as dangling rows.
- Spring's rollback-only marking is not modelled. When a nested `@Transactional` call fails inside a caller that catches the exception (`joinActivity` calling `joinRoomByActivity`), the model follows the catch block.
- The order of ties in `getAllRequests` is store order.
- These `AdminService` operations are not modelled; they are listings or single deletions with DTO mapping:
  - `getAllUsers`, `getAllActivities`, `getAllRatings`, `deleteRating`;
  - `getAllRefunds`, `getPendingRefunds`, `getAdminAccounts`;
  - `getAllReports`, `updateReportStatus`, `banUserFromReport`.
- ReportService.SubmitReport: states the corrected behaviour, where a text-only initial message is kept; the code as written rolls such a submission back, which `SubmitReportAsWritten` states.
- ReportService.SubmitAccepted: the view it promises is the corrected one; as written the read-back throws on a text-only initial message (`SubmitTextOnlyThrows`).
- ReportService.AddMessage: states the corrected behaviour, where a text-only message is kept; the code as written rolls it back, which `AddMessageAsWritten` states.
- ReportService.AddToReport: the read-back it promises is the corrected view; as written it throws on any text-only message of the report.
- ReportService.PostAndShow: the view it promises is the corrected one; as written a text-only message makes it throw (`AddTextOnlyThrows`).
- ReferralService.SendInvite: the `unique = true` declared on `Referral.referralCode` is not enforced. The invite row reuses the referrer's base code, as the service does, and the model lets that save succeed, whereas under the declared schema it would raise a constraint violation. The model never assumes codes are unique: lookups by code take every row carrying it.
- ReferralService.ProcessReferralSignup: the unique `referralCode` column is not enforced here either. The row saved when no invite matches the email carries the trimmed code, and the model lets that save succeed. `ReferralRepository` does not declare `findAllByReferralCode` or `findFirstByReferrer_UserIdAndReferredIsNullAndReferredEmailIsNull`, which the service calls. The model reads them by their names: every referral with the code, and the referrer's first placeholder.
- The e-mail the referral service marks as a future step is not sent, as in the code.
- Upper- and lower-casing (`toLowerCase`, `toUpperCase`, `equalsIgnoreCase`) is ASCII only.
- GroupChatService.GetMessages: its own contract gives the length, the order and the sender shown. That each stored message of the room is listed exactly once is a separate lemma, `GetMessagesShowStored`, rather than a clause of the function, to keep the function's proof small.
- The other user's profile fields and photos in `getMatches`/`getMatchesWithDetails` are not modelled. The model keeps the other user's id.

## Findings

| source | as written | input that shows it | evidently intended | confidence | as-written member | corrected member |
|---|---|---|---|---|---|---|
| src/main/java/com/example/buddyfinder_backend/service/ReportService.java:167-175 | each report message is mapped through `Map.of(...)`, which includes `msg.getAttachmentUrl()`, and `Map.of` rejects null values | `addMessage` by the reporter with a message text and no `attachmentUrl`, or `submitReport` with an `initialMessage` and no `attachmentUrl`: the message is saved, then `mapReport` throws `NullPointerException` and the transaction rolls back, so a message without an attachment can never be stored | a message without an attachment is stored and shown with no attachment | not executed | ReportService.MapReportAsWritten, ReportService.TextOnlyMessageHidesReport, ReportService.SubmitReportAsWritten, ReportService.SubmitTextOnlyThrows, ReportService.AddMessageAsWritten, ReportService.AddTextOnlyThrows | ReportService.MapReport, ReportService.SubmitReport, ReportService.AddMessage |
