/** `SearchService`: the candidate list of the buddy search. Every step is a filter over the user
  * table in store order, cut to a limit; the filter predicates compare text ignoring (ASCII) case. */
module SearchService {

  import opened Wrappers
  import opened Seqs
  import opened Entities
  import opened JavaText
  import MatchService

  // ---------------------------------------------------------------- blank text

  /** The service's own `isBlank`: null, or nothing left after `trim()`. */
  predicate IsBlankText(value: Option<string>)
  {
    value.None? || Trim(value.value) == []
  }

  /** Blank means null or made only of chars up to U+0020. */
  lemma IsBlankTextIff(value: Option<string>)
    ensures IsBlankText(value) <==> value.None? || forall k :: 0 <= k < |value.value| ==> IsTrimmable(value.value[k])
  {
    if value.Some? {
      TrimEmptyIff(value.value);
    }
  }

  /** `firstNonBlank`: the first argument that is not blank, or null. */
  function FirstNonBlank(values: seq<Option<string>>): (r: Option<string>)
    ensures r.None? <==> forall i :: 0 <= i < |values| ==> IsBlankText(values[i])
    ensures r.Some? ==>
      exists i :: 0 <= i < |values| && values[i] == r && !IsBlankText(r)
        && forall k :: 0 <= k < i ==> IsBlankText(values[k])
  {
    match IndexWhere(values, (v: Option<string>) => !IsBlankText(v))
    case None => None
    case Some(i) => values[i]
  }

  // ---------------------------------------------------------------- field predicates

  /** `matchesContains`: a blank filter lets everyone through, a blank field no one; otherwise the
    * lower-cased field must contain the lower-cased filter. */
  function MatchesContains(source: Option<string>, filter: Option<string>): (b: bool)
    ensures IsBlankText(filter) ==> b
    ensures !IsBlankText(filter) && IsBlankText(source) ==> !b
    ensures !IsBlankText(filter) && source.Some? && Contains(source.value, filter.value) ==> b
  {
    ContainedIgnoringCase(source, filter);
    IsBlankText(filter)
    || (!IsBlankText(source) && Contains(ToLower(source.value), ToLower(filter.value)))
  }

  /** `matchesEquals`: like `matchesContains`, but the field must equal the trimmed filter, ignoring
    * case; the field itself is not trimmed. */
  function MatchesEquals(source: Option<string>, filter: Option<string>): (b: bool)
    ensures IsBlankText(filter) ==> b
    ensures !IsBlankText(filter) && IsBlankText(source) ==> !b
    ensures !IsBlankText(filter) && source == Some(Trim(filter.value)) ==> b
  {
    TrimmedFilterIsNotBlank(filter);
    IsBlankText(filter)
    || (!IsBlankText(source) && EqualsIgnoreCase(source.value, Trim(filter.value)))
  }

  /** `containsAny`. */
  predicate ContainsAny(source: string, terms: seq<string>)
  {
    exists i :: 0 <= i < |terms| && Contains(source, terms[i])
  }

  /** The keyword list a named time slot stands for, if the lower-cased filter names one. */
  function TimeKeywords(slot: string): Option<seq<string>>
  {
    if slot == "morning" then Some(["morning", "6am", "before noon"])
    else if slot == "afternoon" then Some(["afternoon", "midday", "after lunch"])
    else if slot == "evening" then Some(["evening", "night", "pm", "after work"])
    else if slot == "weekends" then Some(["weekend", "saturday", "sunday"])
    else None
  }

  /** `matchesTime`: a named slot matches any of its keywords in the lower-cased availability; any
    * other filter is looked for as it is. */
  function MatchesTime(availability: Option<string>, timeFilter: Option<string>): (b: bool)
    ensures IsBlankText(timeFilter) ==> b
    ensures !IsBlankText(timeFilter) && IsBlankText(availability) ==> !b
  {
    IsBlankText(timeFilter)
    || (!IsBlankText(availability)
        && match TimeKeywords(ToLower(timeFilter.value))
           case Some(terms) => ContainsAny(ToLower(availability.value), terms)
           case None => Contains(ToLower(availability.value), ToLower(timeFilter.value)))
  }

  // ---------------------------------------------------------------- the filter object

  /** `SearchFilters`. The coordinates and radius are reduced to whether they make a radius search
    * (all three present and the radius positive); the distance test itself is a parameter. */
  datatype SearchFilters = SearchFilters(
    location: Option<string>,
    interests: Option<string>,
    activity: Option<string>,
    time: Option<string>,
    mbtiType: Option<string>,
    zodiacSign: Option<string>,
    fitnessLevel: Option<string>,
    gender: Option<string>,
    radiusSearch: bool)

  /** `matchesLocation`; `nearby` holds the users that have coordinates within the radius. */
  predicate MatchesLocation(u: User, f: SearchFilters, nearby: set<Id>)
  {
    (!f.radiusSearch || u.id in nearby) && MatchesContains(u.location, f.location)
  }

  /** `matchesActivity`: the activity filter, or else the interests filter, against the interests.
    * The activity text wins when it is not blank; otherwise the interests text is used, and with
    * both blank everyone passes. */
  function MatchesActivity(u: User, f: SearchFilters): (b: bool)
    ensures !IsBlankText(f.activity) ==> (b <==> MatchesContains(u.interests, f.activity))
    ensures IsBlankText(f.activity) ==> (b <==> MatchesContains(u.interests, f.interests))
  {
    FirstOfTwo(f.activity, f.interests);
    var wanted := FirstNonBlank([f.activity, f.interests]);
    IsBlankText(wanted) || MatchesContains(u.interests, wanted)
  }

  /** `firstNonBlank` of two values. */
  lemma FirstOfTwo(a: Option<string>, b: Option<string>)
    ensures FirstNonBlank([a, b]) == if !IsBlankText(a) then a else if !IsBlankText(b) then b else None
  {
    var values := [a, b];
    assert values[0] == a && values[1] == b;
    var r := FirstNonBlank(values);
    if r.Some? {
      var i :| 0 <= i < |values| && values[i] == r && !IsBlankText(r)
        && forall k :: 0 <= k < i ==> IsBlankText(values[k]);
    }
  }

  /** `matchesFilters`: no filter object lets everyone through. */
  function MatchesFilters(u: User, filters: Option<SearchFilters>, nearby: set<Id>): (b: bool)
    ensures filters.None? ==> b
    ensures filters.Some? && filters.value.radiusSearch && u.id !in nearby ==> !b
    ensures filters.Some? && EmptyFilters(filters.value) ==> b
  {
    match filters
    case None => true
    case Some(f) =>
      MatchesLocation(u, f, nearby) && MatchesActivity(u, f)
      && MatchesEquals(u.mbtiType, f.mbtiType) && MatchesEquals(u.zodiacSign, f.zodiacSign)
      && MatchesEquals(u.fitnessLevel, f.fitnessLevel) && MatchesEquals(u.gender, f.gender)
      && MatchesTime(u.availability, f.time)
  }

  /** A filter object with every text blank and no radius search. */
  predicate EmptyFilters(f: SearchFilters)
  {
    !f.radiusSearch && IsBlankText(f.location) && IsBlankText(f.interests) && IsBlankText(f.activity)
    && IsBlankText(f.time) && IsBlankText(f.mbtiType) && IsBlankText(f.zodiacSign)
    && IsBlankText(f.fitnessLevel) && IsBlankText(f.gender)
  }

  // ---------------------------------------------------------------- searchInternal

  /** The fixed part of the pipeline: not the searcher, active, not an admin, not incognito, and
    * not already sent a Likes row by the searcher. */
  predicate Candidate(u: User, likes: seq<Like>, currentUserId: Id)
  {
    u.id != currentUserId && u.isActive && !u.isAdmin && !u.incognito
    && !MatchService.HasLiked(likes, currentUserId, u.id)
  }

  /** `limit(n)`. */
  function Take<T>(s: seq<T>, n: nat): (r: seq<T>)
    ensures |r| <= n && |r| <= |s| && r == s[..|r|]
    ensures |s| <= n ==> r == s
  {
    if |s| <= n then s else s[..n]
  }

  /** `searchInternal` up to the mapping of each user to a response. */
  function SearchInternal(users: seq<User>, likes: seq<Like>, currentUserId: Id,
                          filters: Option<SearchFilters>, limit: nat, nearby: set<Id>): (r: seq<User>)
    ensures |r| <= limit
    ensures forall i :: 0 <= i < |r| ==>
      r[i] in users && Candidate(r[i], likes, currentUserId) && MatchesFilters(r[i], filters, nearby)
  {
    Take(Filter(users, (u: User) => Candidate(u, likes, currentUserId) && MatchesFilters(u, filters, nearby)), limit)
  }

  /** The results are the first passing users in store order: a user left out while fewer than
    * `limit` were found did not pass. */
  lemma SearchKeepsOrder(users: seq<User>, likes: seq<Like>, currentUserId: Id,
                         filters: Option<SearchFilters>, limit: nat, nearby: set<Id>)
    ensures var passing := Filter(users, (u: User) => Candidate(u, likes, currentUserId) && MatchesFilters(u, filters, nearby));
      SearchInternal(users, likes, currentUserId, filters, limit, nearby) == passing[..|SearchInternal(users, likes, currentUserId, filters, limit, nearby)|]
      && (|SearchInternal(users, likes, currentUserId, filters, limit, nearby)| < limit ==>
            forall i :: 0 <= i < |users| && Candidate(users[i], likes, currentUserId) && MatchesFilters(users[i], filters, nearby) ==>
              users[i] in SearchInternal(users, likes, currentUserId, filters, limit, nearby))
  {
  }

  /** `searchBuddies`: the interests text is both the interests and the activity filter. At most
    * 20 candidates, each matching the location text and the interests text. */
  function SearchBuddies(users: seq<User>, likes: seq<Like>, currentUserId: Id,
                         location: Option<string>, interests: Option<string>): (r: seq<User>)
    ensures |r| <= 20
    ensures forall i :: 0 <= i < |r| ==>
      r[i] in users && Candidate(r[i], likes, currentUserId)
      && MatchesContains(r[i].location, location) && MatchesContains(r[i].interests, interests)
  {
    SearchInternal(users, likes, currentUserId,
                   Some(SearchFilters(location, interests, interests, None, None, None, None, None, false)), 20, {})
  }

  /** `searchWithFilters`: at most 20 candidates, each passing the filters. */
  function SearchWithFilters(users: seq<User>, likes: seq<Like>, currentUserId: Id,
                             filters: Option<SearchFilters>, nearby: set<Id>): (r: seq<User>)
    ensures |r| <= 20
    ensures forall i :: 0 <= i < |r| ==>
      r[i] in users && Candidate(r[i], likes, currentUserId) && MatchesFilters(r[i], filters, nearby)
  {
    SearchInternal(users, likes, currentUserId, filters, 20, nearby)
  }

  /** `getPotentialMatches`, with or without filters: the first ten results of the same search. */
  function PotentialMatches(users: seq<User>, likes: seq<Like>, currentUserId: Id,
                            filters: Option<SearchFilters>, nearby: set<Id>): (r: seq<User>)
    ensures |r| <= 10
    ensures var all := SearchWithFilters(users, likes, currentUserId, filters, nearby);
      |r| <= |all| && r == all[..|r|] && (|all| <= 10 ==> r == all)
  {
    SearchInternal(users, likes, currentUserId, filters, 10, nearby)
  }

  /** Without a filter object the search is the first `limit` candidates. */
  lemma NoFiltersKeepsCandidates(users: seq<User>, likes: seq<Like>, currentUserId: Id, limit: nat, nearby: set<Id>)
    ensures SearchInternal(users, likes, currentUserId, None, limit, nearby)
      == Take(Filter(users, (u: User) => Candidate(u, likes, currentUserId)), limit)
  {
    FilterSamePredicate(users, (u: User) => Candidate(u, likes, currentUserId) && MatchesFilters(u, None, nearby),
                        (u: User) => Candidate(u, likes, currentUserId));
  }

  // ---------------------------------------------------------------- properties of the predicates

  /** A field that contains a non-blank filter as written is not blank, and contains it also after
    * both are lower-cased. */
  lemma ContainedIgnoringCase(source: Option<string>, filter: Option<string>)
    ensures !IsBlankText(filter) && source.Some? && Contains(source.value, filter.value) ==>
      !IsBlankText(source) && Contains(ToLower(source.value), ToLower(filter.value))
  {
    if !IsBlankText(filter) && source.Some? && Contains(source.value, filter.value) {
      ContainsToLower(source.value, filter.value);
      ContainedKeepsNonBlank(source.value, filter.value);
    }
  }

  /** The trimmed text of a non-blank filter is itself not blank. */
  lemma TrimmedFilterIsNotBlank(filter: Option<string>)
    ensures !IsBlankText(filter) ==> !IsBlankText(Some(Trim(filter.value)))
  {
    if !IsBlankText(filter) {
      TrimOfTrimmed(Trim(filter.value));
    }
  }

  lemma {:induction false} ContainsToLower(s: string, t: string)
    requires Contains(s, t)
    ensures Contains(ToLower(s), ToLower(t))
  {
    if StartsWith(s, t) {
      assert ToLower(s)[..|t|] == ToLower(t);
    } else {
      ContainsToLower(s[1..], t);
      assert ToLower(s)[1..] == ToLower(s[1..]);
    }
  }

  lemma ContainedKeepsNonBlank(s: string, t: string)
    requires Contains(s, t) && Trim(t) != []
    ensures Trim(s) != []
  {
    TrimEmptyIff(t);
    var k :| 0 <= k < |t| && !IsTrimmable(t[k]);
    var j := IndexOf(s, t).value;
    assert s[j..j + |t|][k] == s[j + k];
    NonTrimmableSurvives(s, j + k);
  }

  /** Upper-casing leaves the chars up to U+0020 alone and moves no other char below them. */
  lemma UpperKeepsTrimmable(s: string)
    ensures |ToUpper(s)| == |s|
    ensures forall k :: 0 <= k < |s| ==> (IsTrimmable(ToUpper(s)[k]) <==> IsTrimmable(s[k]))
  {
  }

  /** Lower-casing after upper-casing is lower-casing. */
  lemma LowerOfUpper(s: string)
    ensures ToLower(ToUpper(s)) == ToLower(s)
  {
    assert forall k :: 0 <= k < |s| ==> LowerChar(UpperChar(s[k])) == LowerChar(s[k]);
  }

  /** The case of a filter does not matter to `matchesContains`. */
  lemma ContainsFilterCaseInsensitive(source: Option<string>, filter: string)
    ensures MatchesContains(source, Some(ToUpper(filter))) == MatchesContains(source, Some(filter))
  {
    UpperKeepsTrimmable(filter);
    TrimEmptyIff(filter);
    TrimEmptyIff(ToUpper(filter));
    LowerOfUpper(filter);
  }

  /** An exact match is also a substring match with the trimmed filter. */
  lemma EqualsImpliesContains(source: Option<string>, filter: string)
    requires !IsBlankText(Some(filter)) && MatchesEquals(source, Some(filter))
    ensures MatchesContains(source, Some(Trim(filter)))
  {
    var t := Trim(filter);
    TrimOfTrimmed(t);
    var lowered := ToLower(source.value);
    assert ToLower(t) == lowered;
    assert lowered[..|lowered|] == lowered;
    assert StartsWith(lowered, ToLower(t));
    assert Contains(lowered, ToLower(t));
    assert !IsBlankText(Some(t));
  }

  /** A non-blank field always matches itself as a `matchesContains` filter. */
  lemma ContainsSelf(source: string)
    requires !IsBlankText(Some(source))
    ensures MatchesContains(Some(source), Some(source))
  {
    var lowered := ToLower(source);
    assert lowered[..|lowered|] == lowered;
  }

  /** A time filter that names no slot is an ordinary substring filter on the availability. */
  lemma OtherTimeIsContains(availability: Option<string>, timeFilter: string)
    requires TimeKeywords(ToLower(timeFilter)).None?
    ensures MatchesTime(availability, Some(timeFilter)) == MatchesContains(availability, Some(timeFilter))
  {
  }

  /** A named slot, in any case, matches an availability that mentions its first keyword. */
  lemma SlotMatchesItsKeyword(availability: string, timeFilter: string)
    requires !IsBlankText(Some(availability)) && !IsBlankText(Some(timeFilter))
    requires TimeKeywords(ToLower(timeFilter)).Some?
    requires Contains(ToLower(availability), TimeKeywords(ToLower(timeFilter)).value[0])
    ensures MatchesTime(Some(availability), Some(timeFilter))
  {
  }
}
