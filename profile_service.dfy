/** `ProfileService`: the fitness profile of a user, created on first access, and its photo list,
  * kept in one text column as a JSON-looking array of URLs. */
module ProfileService {

  import opened Wrappers
  import opened Seqs
  import opened Entities
  import opened Store
  import opened JavaText
  import opened SanitizeUtil
  import CloudinaryService

  // ---------------------------------------------------------------- the photos column

  /** The chars `parsePhotos` deletes before splitting. */
  predicate IsJsonMark(c: char)
  {
    c == '[' || c == ']' || c == '"'
  }

  /** A URL the photos column can carry unchanged: not empty, already trimmed, and free of the
    * chars the parser deletes or splits on. */
  predicate PlainPhoto(x: string)
  {
    x != [] && IsTrimmed(x) && forall k :: 0 <= k < |x| ==> !IsJsonMark(x[k]) && x[k] != ','
  }

  /** `replaceAll("[\\[\\]\"]", "")`. */
  function DropMarks(s: string): (r: string)
    ensures |r| <= |s|
    ensures forall k :: 0 <= k < |r| ==> !IsJsonMark(r[k]) && r[k] in s
  {
    if s == [] then []
    else if IsJsonMark(s[0]) then DropMarks(s[1..])
    else [s[0]] + DropMarks(s[1..])
  }

  /** `split(",")`, keeping every piece. Java also drops the empty pieces at the end; the parser
    * drops every empty piece afterwards, so the two agree on what `parsePhotos` returns. */
  function SplitOn(s: string, sep: char): (r: seq<string>)
    ensures |r| >= 1
    ensures forall i :: 0 <= i < |r| ==> sep !in r[i]
    ensures forall i, k :: 0 <= i < |r| && 0 <= k < |r[i]| ==> r[i][k] in s
  {
    if s == [] then [[]]
    else
      var rest := SplitOn(s[1..], sep);
      if s[0] == sep then [[]] + rest
      else
        var head := [s[0]] + rest[0];
        assert forall k :: 0 < k < |head| ==> head[k] == rest[0][k - 1];
        [head] + rest[1..]
  }

  /** `parsePhotos`: null, "" and "null" are the empty list; otherwise the marks are deleted, the
    * rest is trimmed and split at commas, and the trimmed, non-empty pieces are the photos. */
  function ParsePhotos(json: Option<string>): (r: seq<string>)
    ensures forall i :: 0 <= i < |r| ==> PlainPhoto(r[i])
  {
    if json.None? || json.value == [] || json.value == "null" then []
    else
      var text := DropMarks(json.value);
      if Trim(text) == [] then [] else PhotoPieces(text)
  }

  /** The split of the mark-free text at commas, each piece trimmed, the empty pieces dropped. */
  function PhotoPieces(text: string): (r: seq<string>)
    requires forall k :: 0 <= k < |text| ==> !IsJsonMark(text[k])
    ensures forall i :: 0 <= i < |r| ==> PlainPhoto(r[i])
  {
    var cleaned := Trim(text);
    PiecesArePlain(text, cleaned, SplitOn(cleaned, ','));
    Filter(Map(SplitOn(cleaned, ','), Trim), (p: string) => p != [])
  }

  /** Each trimmed piece of the split keeps only chars of the mark-free text and no comma. */
  lemma PiecesArePlain(text: string, cleaned: string, pieces: seq<string>)
    requires forall k :: 0 <= k < |text| ==> !IsJsonMark(text[k])
    requires cleaned == Trim(text)
    requires forall i :: 0 <= i < |pieces| ==> ',' !in pieces[i]
    requires forall i, k :: 0 <= i < |pieces| && 0 <= k < |pieces[i]| ==> pieces[i][k] in cleaned
    ensures forall i :: 0 <= i < |pieces| && Trim(pieces[i]) != [] ==> PlainPhoto(Trim(pieces[i]))
  {
    assert forall c :: c in cleaned ==> !IsJsonMark(c) by {
      forall j | 0 <= j < |cleaned| ensures !IsJsonMark(cleaned[j]) {
        assert cleaned[j] == text[LeadCut(text) + j];
      }
    }
    forall i | 0 <= i < |pieces| && Trim(pieces[i]) != [] ensures PlainPhoto(Trim(pieces[i])) {
      PieceIsPlain(pieces[i], cleaned);
    }
  }

  lemma PieceIsPlain(x: string, cleaned: string)
    requires ',' !in x && Trim(x) != []
    requires forall k :: 0 <= k < |x| ==> x[k] in cleaned
    requires forall c :: c in cleaned ==> !IsJsonMark(c)
    ensures PlainPhoto(Trim(x))
  {
    var t := Trim(x);
    forall k | 0 <= k < |t| ensures !IsJsonMark(t[k]) && t[k] != ',' {
      assert t[k] == x[LeadCut(x) + k];
    }
  }

  /** `String.join(sep, list)`. */
  function Join(l: seq<string>, sep: string): string
  {
    if l == [] then [] else if |l| == 1 then l[0] else l[0] + sep + Join(l[1..], sep)
  }

  /** `toJsonArray`: `[]` for no photos, otherwise each URL quoted, separated by commas, in brackets. */
  function ToJsonArray(l: seq<string>): (r: string)
    ensures |r| >= 2 && r[0] == '[' && r[|r| - 1] == ']'
    ensures r == "[]" <==> l == []
  {
    if l == [] then "[]" else "[\"" + Join(l, "\",\"") + "\"]"
  }

  // ---------------------------------------------------------------- the round trip

  lemma {:induction false} DropMarksAppend(a: string, b: string)
    ensures DropMarks(a + b) == DropMarks(a) + DropMarks(b)
  {
    if a != [] {
      var t := a + b;
      assert t[0] == a[0] && t[1..] == a[1..] + b;
      DropMarksAppend(a[1..], b);
      if !IsJsonMark(a[0]) {
        assert DropMarks(t) == [a[0]] + DropMarks(a[1..] + b);
        assert DropMarks(a) == [a[0]] + DropMarks(a[1..]);
      }
    } else {
      assert a + b == b;
    }
  }

  lemma {:induction false} DropMarksOfPlain(x: string)
    requires forall k :: 0 <= k < |x| ==> !IsJsonMark(x[k])
    ensures DropMarks(x) == x
  {
    if x != [] {
      DropMarksOfPlain(x[1..]);
    }
  }

  /** Deleting the marks turns the quoted list body into the bare comma-separated list. */
  lemma {:induction false} DropMarksOfJoin(l: seq<string>)
    requires forall i :: 0 <= i < |l| ==> PlainPhoto(l[i])
    ensures DropMarks(Join(l, "\",\"")) == Join(l, ",")
  {
    if |l| == 1 {
      DropMarksOfPlain(l[0]);
    } else if |l| > 1 {
      DropMarksAppend(l[0] + "\",\"", Join(l[1..], "\",\""));
      DropMarksAppend(l[0], "\",\"");
      DropMarksOfPlain(l[0]);
      assert DropMarks("\",\"") == ",";
      DropMarksOfJoin(l[1..]);
    }
  }

  /** The joined list starts with the first photo's first char and ends with the last photo's last. */
  lemma {:induction false} JoinEnds(l: seq<string>, sep: string)
    requires l != [] && forall i :: 0 <= i < |l| ==> l[i] != []
    ensures var j := Join(l, sep); j != [] && j[0] == l[0][0] && j[|j| - 1] == l[|l| - 1][|l[|l| - 1]| - 1]
  {
    if |l| > 1 {
      JoinEnds(l[1..], sep);
    }
  }

  /** Splitting at a comma that follows a comma-free prefix peels that prefix off. */
  lemma {:induction false} SplitAfter(x: string, rest: string)
    requires ',' !in x
    ensures SplitOn(x + [','] + rest, ',') == [x] + SplitOn(rest, ',')
  {
    if x == [] {
      assert x + [','] + rest == [','] + rest;
      assert ([','] + rest)[1..] == rest;
    } else {
      var s := x + [','] + rest;
      assert s[0] == x[0] && s[1..] == x[1..] + [','] + rest;
      assert x[0] != ',' by {
        assert x[0] in x;
      }
      SplitAfter(x[1..], rest);
      assert ',' !in x[1..];
      assert [x[0]] + x[1..] == x;
    }
  }

  lemma {:induction false} SplitOfCommaFree(x: string)
    requires ',' !in x
    ensures SplitOn(x, ',') == [x]
  {
    if x != [] {
      assert x[0] != ',' by {
        assert x[0] in x;
      }
      assert ',' !in x[1..];
      SplitOfCommaFree(x[1..]);
      assert [x[0]] + x[1..] == x;
    }
  }

  lemma {:induction false} SplitOfJoin(l: seq<string>)
    requires l != [] && forall i :: 0 <= i < |l| ==> ',' !in l[i]
    ensures SplitOn(Join(l, ","), ',') == l
  {
    if |l| == 1 {
      SplitOfCommaFree(l[0]);
    } else {
      SplitAfter(l[0], Join(l[1..], ","));
      SplitOfJoin(l[1..]);
    }
  }

  /** Deleting the marks of a written non-empty list and trimming leaves the bare comma-separated list. */
  lemma CleanedJson(l: seq<string>)
    requires l != [] && forall i :: 0 <= i < |l| ==> PlainPhoto(l[i])
    ensures Trim(DropMarks(ToJsonArray(l))) == Join(l, ",") != []
  {
    DropMarksOfJson(l);
    var bare := Join(l, ",");
    JoinEnds(l, ",");
    assert PlainPhoto(l[0]) && PlainPhoto(l[|l| - 1]);
    assert IsTrimmed(bare);
    TrimOfTrimmed(bare);
  }

  /** Deleting the marks of a written list leaves the comma-separated list. */
  lemma DropMarksOfJson(l: seq<string>)
    requires l != [] && forall i :: 0 <= i < |l| ==> PlainPhoto(l[i])
    ensures DropMarks(ToJsonArray(l)) == Join(l, ",")
  {
    var body := Join(l, "\",\"");
    var json := ToJsonArray(l);
    assert json == ("[\"" + body) + "\"]";
    DropMarksAppend("[\"" + body, "\"]");
    DropMarksAppend("[\"", body);
    DropMarksOfJoin(l);
    assert DropMarks("[\"") == [] && DropMarks("\"]") == [];
  }

  /** Trimming each of a list of trimmed photos changes none. */
  lemma TrimEach(l: seq<string>)
    requires forall i :: 0 <= i < |l| ==> PlainPhoto(l[i])
    ensures Map(l, Trim) == l
  {
    forall i | 0 <= i < |l| ensures Trim(l[i]) == l[i] {
      TrimOfTrimmed(l[i]);
    }
  }

  /** Parsing what `toJsonArray` wrote gives the list back, for photos the column can carry. */
  lemma PhotosRoundTrip(l: seq<string>)
    requires forall i :: 0 <= i < |l| ==> PlainPhoto(l[i])
    ensures ParsePhotos(Some(ToJsonArray(l))) == l
  {
    var json := ToJsonArray(l);
    assert json != "null" by {
      assert json[0] == '[';
    }
    if l == [] {
      assert DropMarks("[]") == [];
    } else {
      CleanedJson(l);
      SplitOfJoin(l);
      TrimEach(l);
      FilterAll(l, (p: string) => p != []);
    }
  }

  /** Parsing is a normal form: writing the parsed list back and parsing again changes nothing. */
  lemma ParseOfWrittenParse(json: Option<string>)
    ensures ParsePhotos(Some(ToJsonArray(ParsePhotos(json)))) == ParsePhotos(json)
  {
    PhotosRoundTrip(ParsePhotos(json));
  }

  // ---------------------------------------------------------------- list edits

  /** Photos kept per profile. */
  const MaxPhotos := 6

  /** The list edit of `uploadPhoto`: the new URL goes last and, once the list is longer than six,
    * the first photo is dropped (only one, so a longer stored list stays as long). */
  function AddPhoto(photos: seq<string>, url: string): (r: seq<string>)
    ensures |r| == if |photos| < MaxPhotos then |photos| + 1 else |photos|
    ensures |photos| <= MaxPhotos ==> |r| <= MaxPhotos
    ensures r[|r| - 1] == url
    ensures forall i :: 0 <= i < |r| - 1 ==> r[i] == photos[i + |photos| + 1 - |r|]
  {
    var grown := photos + [url];
    if |grown| > MaxPhotos then grown[1..] else grown
  }

  /** `List.remove(Object)`: drops the first occurrence, if any. */
  function RemoveFirst(l: seq<string>, x: string): (r: seq<string>)
    ensures x !in l ==> r == l
    ensures x in l ==> |r| == |l| - 1 && multiset(r) == multiset(l) - multiset{x}
  {
    match IndexWhere(l, (y: string) => y == x)
    case None => l
    case Some(i) =>
      assert l == l[..i] + [x] + l[i + 1..];
      l[..i] + l[i + 1..]
  }

  /** The occurrence removed is the first one: everything before it is kept in place. */
  lemma RemoveFirstKeepsPrefix(l: seq<string>, x: string, i: nat)
    requires i < |l| && l[i] == x && x !in l[..i]
    ensures RemoveFirst(l, x) == l[..i] + l[i + 1..]
  {
    IndexWhereAt(l, (y: string) => y == x, i);
  }

  // ---------------------------------------------------------------- profile rows

  function ProfileIndex(profiles: seq<Profile>, userId: Id): Option<nat>
  {
    IndexWhere(profiles, (p: Profile) => p.userId == userId)
  }

  /** `Profile.builder().user(user).build()`: every other column null. */
  function DefaultProfile(id: Id, userId: Id): Profile
  {
    Profile(id, userId, None, None, None, None, None, None, None, None)
  }

  /** The row `getProfileByUserId` yields: the stored one, or else the default profile it saves. */
  function ProfileOf(profiles: seq<Profile>, nextProfileId: Id, userId: Id): Profile
  {
    match ProfileIndex(profiles, userId)
    case Some(i) => profiles[i]
    case None => DefaultProfile(nextProfileId, userId)
  }

  /** The profiles table once `getProfileByUserId` has found the user's row or saved a default one. */
  function WithProfile(profiles: seq<Profile>, nextProfileId: Id, userId: Id): seq<Profile>
  {
    if ProfileIndex(profiles, userId).Some? then profiles else profiles + [DefaultProfile(nextProfileId, userId)]
  }

  /** Where the user's row sits in `WithProfile`. */
  function ProfileSlot(profiles: seq<Profile>, userId: Id): nat
  {
    match ProfileIndex(profiles, userId)
    case Some(i) => i
    case None => |profiles|
  }

  /** `getProfileByUserId`: the stored profile, or a default one saved for an existing user. The
    * lookup is `Optional`; `profiles.user_id` is unique, so it meets at most one row. */
  method GetProfileByUserId(db: Db, userId: Id) returns (r: Result<Profile>)
    requires db.UsersValid()
    modifies db`profiles, db`nextProfileId
    ensures db.UsersValid()
    ensures ProfileIndex(old(db.profiles), userId).Some? ==>
      r == Ok(old(db.profiles)[ProfileIndex(old(db.profiles), userId).value]) && db.profiles == old(db.profiles)
      && db.nextProfileId == old(db.nextProfileId)
    ensures ProfileIndex(old(db.profiles), userId).None? && !UserExists(db.users, userId) ==>
      r == Err(UserNotFound) && db.profiles == old(db.profiles) && db.nextProfileId == old(db.nextProfileId)
    ensures ProfileIndex(old(db.profiles), userId).None? && UserExists(db.users, userId) ==>
      r == Ok(DefaultProfile(old(db.nextProfileId), userId))
      && db.profiles == old(db.profiles) + [r.value] && db.nextProfileId == old(db.nextProfileId) + 1
    ensures r.Ok? ==> r.value == ProfileOf(old(db.profiles), old(db.nextProfileId), userId)
    ensures r.Ok? ==> ProfileIndex(db.profiles, userId).Some? && db.profiles[ProfileIndex(db.profiles, userId).value] == r.value
  {
    var found := ProfileIndex(db.profiles, userId);
    if found.Some? {
      return Ok(db.profiles[found.value]);
    }
    if !UserExists(db.users, userId) {
      return Err(UserNotFound);
    }
    var p := DefaultProfile(db.nextProfileId, userId);
    IndexWhereAppendFresh(db.profiles, p, (x: Profile) => x.userId == userId);
    db.profiles := db.profiles + [p];
    db.nextProfileId := db.nextProfileId + 1;
    return Ok(p);
  }

  /** Rewriting a profile row in place, keeping its id and user, keeps the table valid and the row
    * where the lookup finds it. */
  lemma RewriteKeepsProfiles(profiles: seq<Profile>, next: Id, i: nat, p: Profile)
    requires ProfileIdsBelow(profiles, next) && UniqueProfiles(profiles)
    requires i < |profiles| && ProfileIndex(profiles, p.userId) == Some(i)
    requires p.id == profiles[i].id && p.userId == profiles[i].userId
    ensures ProfileIdsBelow(profiles[i := p], next) && UniqueProfiles(profiles[i := p])
    ensures ProfileIndex(profiles[i := p], p.userId) == Some(i)
  {
    var s := profiles[i := p];
    forall a, b | 0 <= a < b < |s| ensures s[a].userId != s[b].userId {
      assert profiles[a].userId != profiles[b].userId;
    }
    IndexWhereAt(s, (x: Profile) => x.userId == p.userId, i);
  }

  /** Saves a changed profile over the row of its user. */
  method Rewrite(db: Db, p: Profile)
    requires db.UsersValid()
    requires ProfileIndex(db.profiles, p.userId).Some?
    requires p.id == db.profiles[ProfileIndex(db.profiles, p.userId).value].id
    modifies db`profiles
    ensures db.UsersValid()
    ensures db.profiles == old(db.profiles)[ProfileIndex(old(db.profiles), p.userId).value := p]
    ensures ProfileIndex(db.profiles, p.userId) == ProfileIndex(old(db.profiles), p.userId)
  {
    var i := ProfileIndex(db.profiles, p.userId).value;
    RewriteKeepsProfiles(db.profiles, db.nextProfileId, i, p);
    db.profiles := db.profiles[i := p];
  }

  // ---------------------------------------------------------------- updateProfile

  /** The keys of an `updateProfile` request as Jackson read them; `None` is an absent key. */
  datatype ProfileUpdate = ProfileUpdate(
    photos: Option<JsonValue>,
    fitnessGoals: Option<JsonValue>,
    preferredActivities: Option<JsonValue>,
    workoutFrequency: Option<JsonValue>,
    experienceLevel: Option<JsonValue>,
    certifications: Option<JsonValue>,
    gymLocation: Option<JsonValue>,
    workoutTimePref: Option<JsonValue>)

  /** A present key whose `(String)` cast throws. */
  predicate BadText(key: Option<JsonValue>)
  {
    key.Some? && CastText(key.value).Err?
  }

  /** A present key whose `(Integer)` cast throws. */
  predicate BadInteger(key: Option<JsonValue>)
  {
    key.Some? && CastInteger(key.value).Err?
  }

  /** A key the `(String)` cast lets through: absent, null or a string. */
  predicate TextOrNull(key: Option<JsonValue>)
  {
    key.None? || key.value.JNull? || key.value.JText?
  }

  /** A key the `(Integer)` cast lets through: absent, null or a number Jackson read as an `Integer`. */
  predicate IntegerOrNull(key: Option<JsonValue>)
  {
    key.None? || key.value.JNull? || (key.value.JNumber? && IsJavaInt(key.value.number))
  }

  /** The cast of `updateProfile` that throws, if any. Every failing cast throws the same
    * `ClassCastException`, so the order in which the keys are read does not change the message. */
  function UpdateRefusal(u: ProfileUpdate): (r: Option<string>)
    ensures r.None? <==>
      TextOrNull(u.photos) && TextOrNull(u.fitnessGoals) && TextOrNull(u.preferredActivities)
      && IntegerOrNull(u.workoutFrequency) && TextOrNull(u.experienceLevel) && TextOrNull(u.certifications)
      && TextOrNull(u.gymLocation) && TextOrNull(u.workoutTimePref)
    ensures r.Some? ==> r.value == CastFailure
  {
    if BadText(u.photos) || BadText(u.fitnessGoals) || BadText(u.preferredActivities)
       || BadInteger(u.workoutFrequency) || BadText(u.experienceLevel) || BadText(u.certifications)
       || BadText(u.gymLocation) || BadText(u.workoutTimePref)
    then Some(CastFailure)
    else None
  }

  /** A text column after a sanitized key: unchanged when the key is absent. */
  function SanitizedKey(key: Option<JsonValue>, current: Option<string>): Option<string>
    requires !BadText(key)
  {
    if key.Some? then SanitizeOpt(CastText(key.value).value) else current
  }

  /** The field changes of `updateProfile` once every cast passed; `photos` is stored as sent, the
    * other text keys sanitized. */
  function ApplyUpdate(p: Profile, u: ProfileUpdate): (r: Profile)
    requires UpdateRefusal(u).None?
    ensures r.id == p.id && r.userId == p.userId
  {
    p.(photos := if u.photos.Some? then CastText(u.photos.value).value else p.photos,
       fitnessGoals := SanitizedKey(u.fitnessGoals, p.fitnessGoals),
       preferredActivities := SanitizedKey(u.preferredActivities, p.preferredActivities),
       workoutFrequency := if u.workoutFrequency.Some? then CastInteger(u.workoutFrequency.value).value else p.workoutFrequency,
       experienceLevel := SanitizedKey(u.experienceLevel, p.experienceLevel),
       certifications := SanitizedKey(u.certifications, p.certifications),
       gymLocation := SanitizedKey(u.gymLocation, p.gymLocation),
       workoutTimePref := SanitizedKey(u.workoutTimePref, p.workoutTimePref))
  }

  /** A column whose key is absent keeps its value; `photos` and `workoutFrequency` take the value
    * sent (null clears them); a present text key of the others is stored sanitized, so sanitizing
    * what is stored again changes nothing. */
  lemma ApplyUpdateFields(p: Profile, u: ProfileUpdate)
    requires UpdateRefusal(u).None?
    ensures var r := ApplyUpdate(p, u);
      (u.photos.None? ==> r.photos == p.photos)
      && (u.fitnessGoals.None? ==> r.fitnessGoals == p.fitnessGoals)
      && (u.preferredActivities.None? ==> r.preferredActivities == p.preferredActivities)
      && (u.workoutFrequency.None? ==> r.workoutFrequency == p.workoutFrequency)
      && (u.experienceLevel.None? ==> r.experienceLevel == p.experienceLevel)
      && (u.certifications.None? ==> r.certifications == p.certifications)
      && (u.gymLocation.None? ==> r.gymLocation == p.gymLocation)
      && (u.workoutTimePref.None? ==> r.workoutTimePref == p.workoutTimePref)
    ensures var r := ApplyUpdate(p, u);
      (u.photos.Some? ==> r.photos == if u.photos.value.JText? then Some(u.photos.value.text) else None)
      && (u.workoutFrequency.Some? ==>
            r.workoutFrequency == if u.workoutFrequency.value.JNumber? then Some(u.workoutFrequency.value.number) else None)
    ensures var r := ApplyUpdate(p, u);
      (u.fitnessGoals.Some? ==> SanitizeOpt(r.fitnessGoals) == r.fitnessGoals)
      && (u.preferredActivities.Some? ==> SanitizeOpt(r.preferredActivities) == r.preferredActivities)
      && (u.experienceLevel.Some? ==> SanitizeOpt(r.experienceLevel) == r.experienceLevel)
      && (u.certifications.Some? ==> SanitizeOpt(r.certifications) == r.certifications)
      && (u.gymLocation.Some? ==> SanitizeOpt(r.gymLocation) == r.gymLocation)
      && (u.workoutTimePref.Some? ==> SanitizeOpt(r.workoutTimePref) == r.workoutTimePref)
  {
    SanitizedKeyIsClean(u.fitnessGoals);
    SanitizedKeyIsClean(u.preferredActivities);
    SanitizedKeyIsClean(u.experienceLevel);
    SanitizedKeyIsClean(u.certifications);
    SanitizedKeyIsClean(u.gymLocation);
    SanitizedKeyIsClean(u.workoutTimePref);
  }

  lemma SanitizedKeyIsClean(key: Option<JsonValue>)
    requires !BadText(key)
    ensures key.Some? ==> SanitizeOpt(SanitizeOpt(CastText(key.value).value)) == SanitizeOpt(CastText(key.value).value)
  {
    if key.Some? && CastText(key.value).value.Some? {
      SanitizeIdempotent(CastText(key.value).value.value);
    }
  }

  /** `updateProfile`: the user's profile (created first when missing) with the sent keys applied.
    * The method runs outside a transaction, so when a cast then throws, the default profile saved
    * on the way stays saved while none of the sent keys is. */
  method UpdateProfile(db: Db, userId: Id, u: ProfileUpdate) returns (r: Result<Profile>)
    requires db.UsersValid()
    modifies db`profiles, db`nextProfileId
    ensures db.UsersValid()
    ensures r.Ok? <==>
      (ProfileIndex(old(db.profiles), userId).Some? || UserExists(db.users, userId)) && UpdateRefusal(u).None?
    ensures ProfileIndex(old(db.profiles), userId).None? && !UserExists(db.users, userId) ==>
      r == Err(UserNotFound) && db.profiles == old(db.profiles) && db.nextProfileId == old(db.nextProfileId)
    ensures (ProfileIndex(old(db.profiles), userId).Some? || UserExists(db.users, userId)) && UpdateRefusal(u).Some? ==>
      r == Err(CastFailure)
      && db.profiles == old(db.profiles)
        + (if ProfileIndex(old(db.profiles), userId).Some? then [] else [DefaultProfile(old(db.nextProfileId), userId)])
      && db.nextProfileId == old(db.nextProfileId) + (if ProfileIndex(old(db.profiles), userId).Some? then 0 else 1)
    ensures r.Ok? ==>
      UpdateRefusal(u).None?
      && r.value == ApplyUpdate(ProfileOf(old(db.profiles), old(db.nextProfileId), userId), u)
      && ProfileIndex(db.profiles, userId).Some? && db.profiles[ProfileIndex(db.profiles, userId).value] == r.value
      && db.profiles == WithProfile(old(db.profiles), old(db.nextProfileId), userId)[ProfileSlot(old(db.profiles), userId) := r.value]
      && db.nextProfileId == old(db.nextProfileId) + (if ProfileIndex(old(db.profiles), userId).Some? then 0 else 1)
  {
    var p := GetProfileByUserId(db, userId);
    if p.Err? {
      return p;
    }
    if UpdateRefusal(u).Some? {
      return Err(CastFailure);
    }
    var q := ApplyUpdate(p.value, u);
    Rewrite(db, q);
    return Ok(q);
  }

  // ---------------------------------------------------------------- photos

  /** `uploadPhoto`: the profile is fetched (a default one is created and saved when the user has
    * none), then the image is uploaded; `file` and `client` are what `uploadImage` sees and the
    * Cloudinary client would answer. A refused or failed upload throws after the default profile
    * was saved, and that profile stays. Otherwise the URL is added to the parsed list and the list
    * written back. The deletion of a dropped photo is a foreign call. */
  method UploadPhoto(db: Db, userId: Id, file: CloudinaryService.UploadFile, client: Result<string>)
    returns (r: Result<Profile>)
    requires db.UsersValid()
    modifies db`profiles, db`nextProfileId
    ensures db.UsersValid()
    ensures ProfileIndex(old(db.profiles), userId).None? && !UserExists(db.users, userId) ==>
      r == Err(UserNotFound) && db.profiles == old(db.profiles) && db.nextProfileId == old(db.nextProfileId)
    ensures ProfileIndex(old(db.profiles), userId).Some? || UserExists(db.users, userId) ==>
      db.nextProfileId == old(db.nextProfileId) + (if ProfileIndex(old(db.profiles), userId).Some? then 0 else 1)
    ensures (ProfileIndex(old(db.profiles), userId).Some? || UserExists(db.users, userId))
            && CloudinaryService.UploadImage(file, client).Err? ==>
      r == Err(CloudinaryService.UploadImage(file, client).msg)
      && db.profiles == WithProfile(old(db.profiles), old(db.nextProfileId), userId)
    ensures r.Ok? <==>
      (ProfileIndex(old(db.profiles), userId).Some? || UserExists(db.users, userId))
      && CloudinaryService.UploadImage(file, client).Ok?
    ensures r.Ok? ==>
      var before := ProfileOf(old(db.profiles), old(db.nextProfileId), userId);
      var url := CloudinaryService.UploadImage(file, client).value;
      r.value == before.(photos := Some(ToJsonArray(AddPhoto(ParsePhotos(before.photos), url))))
      && ProfileIndex(db.profiles, userId).Some? && db.profiles[ProfileIndex(db.profiles, userId).value] == r.value
      && db.profiles == WithProfile(old(db.profiles), old(db.nextProfileId), userId)[ProfileSlot(old(db.profiles), userId) := r.value]
  {
    var p := GetProfileByUserId(db, userId);
    if p.Err? {
      return p;
    }
    var url := CloudinaryService.UploadImage(file, client);
    if url.Err? {
      return Err(url.msg);
    }
    var photos := AddPhoto(ParsePhotos(p.value.photos), url.value);
    var q := p.value.(photos := Some(ToJsonArray(photos)));
    Rewrite(db, q);
    return Ok(q);
  }

  /** What `uploadPhoto` stores reads back as the edited list, for a URL the column can carry, and
    * holds at most six photos when the old column did. */
  lemma UploadedPhotosReadBack(before: Option<string>, url: string)
    requires PlainPhoto(url)
    ensures ParsePhotos(Some(ToJsonArray(AddPhoto(ParsePhotos(before), url)))) == AddPhoto(ParsePhotos(before), url)
    ensures |ParsePhotos(before)| <= MaxPhotos ==> |ParsePhotos(Some(ToJsonArray(AddPhoto(ParsePhotos(before), url))))| <= MaxPhotos
  {
    AddedPhotosPlain(ParsePhotos(before), url);
    PhotosRoundTrip(AddPhoto(ParsePhotos(before), url));
  }

  lemma AddedPhotosPlain(given: seq<string>, url: string)
    requires PlainPhoto(url) && forall i :: 0 <= i < |given| ==> PlainPhoto(given[i])
    ensures var l := AddPhoto(given, url); forall i :: 0 <= i < |l| ==> PlainPhoto(l[i])
  {
    var l := AddPhoto(given, url);
    forall i | 0 <= i < |l| - 1 ensures PlainPhoto(l[i]) {
      assert l[i] == given[i + |given| + 1 - |l|];
    }
  }

  /** Why `deletePhoto` fails once it has the profile. */
  function DeleteRefusal(photos: seq<string>, url: string): Option<string>
  {
    if photos == [] then Some("No photos to delete")
    else if url !in photos then Some("Photo not found")
    else None
  }

  /** `deletePhoto`. It is not transactional: a default profile created by the lookup stays even
    * when the deletion then fails. */
  method DeletePhoto(db: Db, userId: Id, url: string) returns (r: Result<Profile>)
    requires db.UsersValid()
    modifies db`profiles, db`nextProfileId
    ensures db.UsersValid()
    ensures ProfileIndex(old(db.profiles), userId).None? && !UserExists(db.users, userId) ==>
      r == Err(UserNotFound) && db.profiles == old(db.profiles) && db.nextProfileId == old(db.nextProfileId)
    ensures ProfileIndex(old(db.profiles), userId).Some? || UserExists(db.users, userId) ==>
      var before := ProfileOf(old(db.profiles), old(db.nextProfileId), userId);
      var photos := ParsePhotos(before.photos);
      ProfileIndex(db.profiles, userId).Some?
      && db.nextProfileId == old(db.nextProfileId) + (if ProfileIndex(old(db.profiles), userId).Some? then 0 else 1)
      && (DeleteRefusal(photos, url).Some? ==>
            r == Err(DeleteRefusal(photos, url).value) && db.profiles[ProfileIndex(db.profiles, userId).value] == before
            && db.profiles == WithProfile(old(db.profiles), old(db.nextProfileId), userId))
      && (DeleteRefusal(photos, url).None? ==>
            var rest := RemoveFirst(photos, url);
            r == Ok(before.(photos := if rest == [] then None else Some(ToJsonArray(rest))))
            && db.profiles[ProfileIndex(db.profiles, userId).value] == r.value
            && db.profiles == WithProfile(old(db.profiles), old(db.nextProfileId), userId)[ProfileSlot(old(db.profiles), userId) := r.value])
  {
    var p := GetProfileByUserId(db, userId);
    if p.Err? {
      return p;
    }
    var photos := ParsePhotos(p.value.photos);
    var refusal := DeleteRefusal(photos, url);
    if refusal.Some? {
      return Err(refusal.value);
    }
    var rest := RemoveFirst(photos, url);
    var q := p.value.(photos := if rest == [] then None else Some(ToJsonArray(rest)));
    Rewrite(db, q);
    return Ok(q);
  }

  /** After a deletion the URL occurs once less in what the column reads back. */
  lemma DeletedPhotoReadBack(photos: seq<string>, url: string)
    requires forall i :: 0 <= i < |photos| ==> PlainPhoto(photos[i])
    requires url in photos
    ensures var rest := RemoveFirst(photos, url);
      ParsePhotos(if rest == [] then None else Some(ToJsonArray(rest))) == rest
      && multiset(rest)[url] == multiset(photos)[url] - 1
  {
    var rest := RemoveFirst(photos, url);
    forall i | 0 <= i < |rest| ensures PlainPhoto(rest[i]) {
      assert rest[i] in multiset(rest);
      assert rest[i] in multiset(photos);
    }
    if rest != [] {
      PhotosRoundTrip(rest);
    }
  }
}
