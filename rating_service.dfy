/** `RatingService`: one user rates another after training together; a second rating of the same
  * person overwrites the first. The three float scores only decide whether a request fails. */
module RatingService {

  import opened Wrappers
  import opened Seqs
  import opened Entities
  import opened Store

  const TargetNotFound := "Target user not found"

  /** Hibernate's refusal to save a rating whose NOT NULL `rating` column is null. */
  const RatingColumnNull := "not-null property references a null or transient value : com.example.buddyfinder_backend.entity.Rating.rating"

  const RatingKey := "rating"
  const ReviewKey := "review"
  const ReliabilityKey := "reliabilityScore"
  const PunctualityKey := "punctualityScore"
  const FriendlinessKey := "friendlinessScore"

  // ---------------------------------------------------------------- request values

  /** `map.get(key)`: an absent key reads as null. */
  function Get(data: map<string, JsonValue>, key: string): (v: JsonValue)
    ensures key !in data ==> v.JNull?
  {
    if key in data then data[key] else JNull
  }

  /** A new rating's score: `value != null ? ((Number) value).floatValue() : null`. */
  function NewScoreRefusal(v: JsonValue): (r: Option<string>)
    ensures r.None? <==> v.JNull? || v.JNumber?
  {
    if v.JNull? || v.JNumber? then None else Some(CastFailure)
  }

  /** An updated score: `((Number) updates.get(key)).floatValue()` once the key is present, so a
    * present null throws too. */
  function ScoreUpdateRefusal(data: map<string, JsonValue>, key: string): (r: Option<string>)
    ensures r.None? <==> key !in data || data[key].JNumber?
    ensures key in data && data[key].JNull? ==> r == Some(NullPointer)
  {
    if key !in data then None
    else match data[key]
      case JNull => Some(NullPointer)
      case JNumber(_) => None
      case _ => Some(CastFailure)
  }

  function FirstRefusal(a: Option<string>, b: Option<string>, c: Option<string>): (r: Option<string>)
    ensures r.None? <==> a.None? && b.None? && c.None?
    ensures r.Some? ==> r == a || (a.None? && r == b) || (a.None? && b.None? && r == c)
  {
    if a.Some? then a else if b.Some? then b else c
  }

  // ---------------------------------------------------------------- a new rating

  /** The rating `submitRating` builds when the pair has none: the casts in builder order (rating,
    * review, the three scores), then the save, which refuses a null rating. */
  function NewRating(id: Id, fromId: Id, toId: Id, data: map<string, JsonValue>, now: Time): (r: Result<Rating>)
    ensures r.Ok? <==>
      CastInteger(Get(data, RatingKey)).Ok? && CastInteger(Get(data, RatingKey)).value.Some?
      && CastText(Get(data, ReviewKey)).Ok?
      && NewScoreRefusal(Get(data, ReliabilityKey)).None? && NewScoreRefusal(Get(data, PunctualityKey)).None?
      && NewScoreRefusal(Get(data, FriendlinessKey)).None?
    ensures CastInteger(Get(data, RatingKey)).Err? ==> r == Err(CastFailure)
    ensures r.Ok? ==>
      r.value.id == id && r.value.fromUser == fromId && r.value.toUser == toId
      && r.value.rating == CastInteger(Get(data, RatingKey)).value
      && r.value.review == CastText(Get(data, ReviewKey)).value
      && r.value.createdAt == now && r.value.updatedAt == now
  {
    match CastInteger(Get(data, RatingKey))
    case Err(e) => Err(e)
    case Ok(rating) =>
      match CastText(Get(data, ReviewKey))
      case Err(e) => Err(e)
      case Ok(review) =>
        var scores := FirstRefusal(NewScoreRefusal(Get(data, ReliabilityKey)),
                                   NewScoreRefusal(Get(data, PunctualityKey)),
                                   NewScoreRefusal(Get(data, FriendlinessKey)));
        if scores.Some? then Err(scores.value)
        else if rating.None? then Err(RatingColumnNull)
        else Ok(Rating(id, fromId, toId, rating, review, now, now))
  }

  /** A request without a `rating` creates nothing: the column is NOT NULL. */
  lemma NewRatingNeedsRating(id: Id, fromId: Id, toId: Id, data: map<string, JsonValue>, now: Time)
    requires RatingKey !in data
    ensures NewRating(id, fromId, toId, data, now).Err?
  {
  }

  // ---------------------------------------------------------------- updateRatingFields

  /** `updateRatingFields` followed by the save: each present key is cast and set in the order
    * rating, review, the three scores; absent keys leave their column alone; the save refuses a
    * rating set to null. */
  function Reviewed(current: Rating, data: map<string, JsonValue>, now: Time): (r: Result<Rating>)
    ensures r.Ok? <==>
      (RatingKey in data ==> CastInteger(data[RatingKey]).Ok? && CastInteger(data[RatingKey]).value.Some?)
      && (RatingKey !in data ==> current.rating.Some?)
      && (ReviewKey in data ==> CastText(data[ReviewKey]).Ok?)
      && ScoreUpdateRefusal(data, ReliabilityKey).None? && ScoreUpdateRefusal(data, PunctualityKey).None?
      && ScoreUpdateRefusal(data, FriendlinessKey).None?
    ensures r.Ok? ==>
      r.value.id == current.id && r.value.fromUser == current.fromUser && r.value.toUser == current.toUser
      && r.value.createdAt == current.createdAt && r.value.updatedAt == now
      && r.value.rating == (if RatingKey in data then CastInteger(data[RatingKey]).value else current.rating)
      && r.value.review == (if ReviewKey in data then CastText(data[ReviewKey]).value else current.review)
  {
    var rating := if RatingKey in data then CastInteger(data[RatingKey]) else Ok(current.rating);
    if rating.Err? then Err(rating.msg)
    else
      var review := if ReviewKey in data then CastText(data[ReviewKey]) else Ok(current.review);
      if review.Err? then Err(review.msg)
      else
        var scores := FirstRefusal(ScoreUpdateRefusal(data, ReliabilityKey),
                                   ScoreUpdateRefusal(data, PunctualityKey),
                                   ScoreUpdateRefusal(data, FriendlinessKey));
        if scores.Some? then Err(scores.value)
        else if rating.value.None? then Err(RatingColumnNull)
        else Ok(current.(rating := rating.value, review := review.value, updatedAt := now))
  }

  /** An update that names no key keeps the rating as it was, apart from the update time. */
  lemma EmptyUpdateKeepsRating(r: Rating, now: Time)
    requires r.rating.Some?
    ensures Reviewed(r, map[], now) == Ok(r.(updatedAt := now))
  {
  }

  // ---------------------------------------------------------------- the ratings table

  /** The first rating from `fromId` to `toId` (`findByFromUser_UserIdAndToUser_UserId`). The
    * Optional finder would throw on a pair stored twice; `RatingsConsistent` keeps one rating per
    * pair, so in every reachable table the first rating is the only one. */
  function PairIndex(ratings: seq<Rating>, fromId: Id, toId: Id): (r: Option<nat>)
    ensures r.Some? ==> r.value < |ratings| && ratings[r.value].fromUser == fromId && ratings[r.value].toUser == toId
    ensures r.Some? ==> forall k :: 0 <= k < r.value ==> !(ratings[k].fromUser == fromId && ratings[k].toUser == toId)
    ensures r.None? ==> forall i :: 0 <= i < |ratings| ==> !(ratings[i].fromUser == fromId && ratings[i].toUser == toId)
  {
    IndexWhere(ratings, (x: Rating) => x.fromUser == fromId && x.toUser == toId)
  }

  /** What `submitRating` keeps true of the table: every row has its rating, and no ordered pair
    * of users has two rows. */
  predicate RatingsConsistent(ratings: seq<Rating>)
  {
    (forall i :: 0 <= i < |ratings| ==> ratings[i].rating.Some?)
    && forall i, j :: 0 <= i < j < |ratings| ==>
         !(ratings[i].fromUser == ratings[j].fromUser && ratings[i].toUser == ratings[j].toUser)
  }

  method SaveRatingAt(db: Db, i: nat, r: Rating)
    requires db.WorkflowsValid() && i < |db.ratings| && r.id == db.ratings[i].id
    modifies db`ratings
    ensures db.WorkflowsValid()
    ensures db.ratings == old(db.ratings)[i := r]
  {
    db.ratings := db.ratings[i := r];
  }

  method AppendRating(db: Db, r: Rating)
    requires db.WorkflowsValid() && r.id == db.nextRatingId
    modifies db`ratings, db`nextRatingId
    ensures db.WorkflowsValid()
    ensures db.ratings == old(db.ratings) + [r] && db.nextRatingId == old(db.nextRatingId) + 1
  {
    db.ratings := db.ratings + [r];
    db.nextRatingId := db.nextRatingId + 1;
  }

  /** Overwriting a pair's row with a rating of the same pair keeps the table consistent. */
  lemma ReplaceKeepsConsistent(ratings: seq<Rating>, i: nat, r: Rating)
    requires RatingsConsistent(ratings) && i < |ratings| && r.rating.Some?
    requires r.fromUser == ratings[i].fromUser && r.toUser == ratings[i].toUser
    ensures RatingsConsistent(ratings[i := r])
  {
  }

  /** Appending the first row of a new pair keeps the table consistent. */
  lemma AppendKeepsConsistent(ratings: seq<Rating>, r: Rating)
    requires RatingsConsistent(ratings) && r.rating.Some?
    requires PairIndex(ratings, r.fromUser, r.toUser).None?
    ensures RatingsConsistent(ratings + [r])
  {
    var after := ratings + [r];
    forall i, j | 0 <= i < j < |after|
      ensures !(after[i].fromUser == after[j].fromUser && after[i].toUser == after[j].toUser)
    {
      if j == |ratings| {
        assert after[i] == ratings[i];
      }
    }
  }

  // ---------------------------------------------------------------- submitRating

  /** `submitRating`: both users must exist (the rater first); an existing rating of the pair is
    * updated in place, otherwise a new one is appended. A refused cast or save stores nothing.
    * The table stays consistent. */
  method SubmitRating(db: Db, fromId: Id, toId: Id, data: map<string, JsonValue>, now: Time)
    returns (r: Result<Rating>)
    requires db.WorkflowsValid()
    modifies db`ratings, db`nextRatingId
    ensures db.WorkflowsValid()
    ensures RatingsConsistent(old(db.ratings)) ==> RatingsConsistent(db.ratings)
    ensures !UserExists(db.users, fromId) ==>
      r == Err(UserNotFound) && db.ratings == old(db.ratings) && db.nextRatingId == old(db.nextRatingId)
    ensures UserExists(db.users, fromId) && !UserExists(db.users, toId) ==>
      r == Err(TargetNotFound) && db.ratings == old(db.ratings) && db.nextRatingId == old(db.nextRatingId)
    ensures UserExists(db.users, fromId) && UserExists(db.users, toId) && PairIndex(old(db.ratings), fromId, toId).Some? ==>
      var i := PairIndex(old(db.ratings), fromId, toId).value;
      r == Reviewed(old(db.ratings)[i], data, now)
      && db.ratings == (if r.Ok? then old(db.ratings)[i := r.value] else old(db.ratings))
      && db.nextRatingId == old(db.nextRatingId)
    ensures UserExists(db.users, fromId) && UserExists(db.users, toId) && PairIndex(old(db.ratings), fromId, toId).None? ==>
      r == NewRating(old(db.nextRatingId), fromId, toId, data, now)
      && db.ratings == (if r.Ok? then old(db.ratings) + [r.value] else old(db.ratings))
      && db.nextRatingId == old(db.nextRatingId) + (if r.Ok? then 1 else 0)
  {
    if !UserExists(db.users, fromId) {
      return Err(UserNotFound);
    }
    if !UserExists(db.users, toId) {
      return Err(TargetNotFound);
    }
    var i := PairIndex(db.ratings, fromId, toId);
    if i.Some? {
      r := Reviewed(db.ratings[i.value], data, now);
      if r.Ok? {
        if RatingsConsistent(db.ratings) {
          ReplaceKeepsConsistent(db.ratings, i.value, r.value);
        }
        SaveRatingAt(db, i.value, r.value);
      }
    } else {
      r := NewRating(db.nextRatingId, fromId, toId, data, now);
      if r.Ok? {
        if RatingsConsistent(db.ratings) {
          AppendKeepsConsistent(db.ratings, r.value);
        }
        AppendRating(db, r.value);
      }
    }
  }

  /** After a rating is accepted, the pair's row is the one `submitRating` returned. */
  lemma SubmittedRatingFound(ratings: seq<Rating>, i: nat, r: Rating)
    requires RatingsConsistent(ratings) && i < |ratings|
    requires r.fromUser == ratings[i].fromUser && r.toUser == ratings[i].toUser
    ensures PairIndex(ratings[i := r], r.fromUser, r.toUser) == Some(i)
  {
    var after := ratings[i := r];
    var found := PairIndex(after, r.fromUser, r.toUser);
    assert after[i] == r;
  }

  /** The first rating of a pair is found at the end of the table once appended. */
  lemma AppendedRatingFound(ratings: seq<Rating>, r: Rating)
    requires PairIndex(ratings, r.fromUser, r.toUser).None?
    ensures PairIndex(ratings + [r], r.fromUser, r.toUser) == Some(|ratings|)
  {
    var after := ratings + [r];
    assert after[|ratings|] == r;
    assert forall k :: 0 <= k < |ratings| ==> after[k] == ratings[k];
  }

  // ---------------------------------------------------------------- getRatingsForUser

  /** `getRatingsForUser`: the ratings a user received, in store order. A rating is listed exactly
    * when it is stored and was given to the user. */
  function RatingsForUser(ratings: seq<Rating>, userId: Id): (r: seq<Rating>)
    ensures forall i :: 0 <= i < |r| ==> r[i] in ratings && r[i].toUser == userId
    ensures forall i :: 0 <= i < |ratings| && ratings[i].toUser == userId ==> ratings[i] in r
  {
    Filter(ratings, (x: Rating) => x.toUser == userId)
  }
}
