/** `MessageService`: the direct chat between the two users of a match. Reading the history marks
  * the other party's messages as read, which is what the unread count counts. */
module MessageService {

  import opened Wrappers
  import opened Seqs
  import opened Entities
  import opened Store

  /** `ChatMessage` (the media fields, never set by this service, are left out). */
  datatype ChatView = ChatView(
    messageId: Id,
    matchId: Id,
    senderId: Id,
    senderName: string,
    content: string,
    timestamp: Time,
    isRead: bool)

  /** One of the two users of the match. */
  predicate InMatch(m: Match, userId: Id)
  {
    m.user1 == userId || m.user2 == userId
  }

  /** A message of the match, from the other party, not read yet. */
  predicate UnreadFor(msg: Message, matchId: Id, userId: Id)
  {
    msg.matchId == matchId && !msg.isRead && msg.senderId != userId
  }

  /** `countByMatch_MatchIdAndIsReadFalseAndSender_UserIdNot`. No participant check is made. */
  function GetUnreadCount(messages: seq<Message>, matchId: Id, userId: Id): (n: nat)
    ensures n <= |messages|
    ensures n == 0 <==> forall i :: 0 <= i < |messages| ==> !UnreadFor(messages[i], matchId, userId)
  {
    var p := (msg: Message) => UnreadFor(msg, matchId, userId);
    if forall i :: 0 <= i < |messages| ==> !p(messages[i]) then
      FilterNone(messages, p);
      Count(messages, p)
    else
      Count(messages, p)
  }

  /** A new message adds one to the count exactly when it is unread, of the match and from the other
    * party; any other message leaves the count as it was. */
  lemma {:induction false} UnreadGrows(messages: seq<Message>, m: Message, matchId: Id, userId: Id)
    ensures UnreadFor(m, matchId, userId) ==>
      GetUnreadCount(messages + [m], matchId, userId) == GetUnreadCount(messages, matchId, userId) + 1
    ensures !UnreadFor(m, matchId, userId) ==>
      GetUnreadCount(messages + [m], matchId, userId) == GetUnreadCount(messages, matchId, userId)
  {
    var p := (msg: Message) => UnreadFor(msg, matchId, userId);
    FilterAppend(messages, [m], p);
    assert Filter([m], p) == (if p(m) then [m] else []) + Filter([m][1..], p);
  }

  /** What reading the history does to one message. */
  function ReadBy(msg: Message, matchId: Id, userId: Id, now: Time): Message
  {
    if UnreadFor(msg, matchId, userId) then msg.(isRead := true, readAt := Some(now)) else msg
  }

  /** The table after `userId` read the history of `matchId` at `now`. */
  function MarkRead(messages: seq<Message>, matchId: Id, userId: Id, now: Time): (r: seq<Message>)
    ensures |r| == |messages|
  {
    Map(messages, (msg: Message) => ReadBy(msg, matchId, userId, now))
  }

  /** After reading, no message of the match from the other party is unread: the count is 0. */
  lemma MarkReadClearsUnread(messages: seq<Message>, matchId: Id, userId: Id, now: Time)
    ensures GetUnreadCount(MarkRead(messages, matchId, userId, now), matchId, userId) == 0
  {
    var r := MarkRead(messages, matchId, userId, now);
    FilterNone(r, (msg: Message) => UnreadFor(msg, matchId, userId));
  }

  /** Reading changes only unread messages of the match from the other party: each becomes read at
    * `now`; messages of other matches and the reader's own messages are untouched. */
  lemma MarkReadChangesOnlyUnread(messages: seq<Message>, matchId: Id, userId: Id, now: Time, i: nat)
    requires i < |messages|
    ensures var r := MarkRead(messages, matchId, userId, now);
      (UnreadFor(messages[i], matchId, userId) ==>
         r[i] == messages[i].(isRead := true, readAt := Some(now)))
      && (!UnreadFor(messages[i], matchId, userId) ==> r[i] == messages[i])
      && (messages[i].matchId == matchId && messages[i].senderId != userId ==> r[i].isRead)
  {
  }

  /** Reading twice is the same as reading once. */
  lemma MarkReadIdempotent(messages: seq<Message>, matchId: Id, userId: Id, now: Time, later: Time)
    ensures MarkRead(MarkRead(messages, matchId, userId, now), matchId, userId, later)
         == MarkRead(messages, matchId, userId, now)
  {
  }

  // ---------------------------------------------------------------- views

  function Timestamp(msg: Message): int { msg.timestamp }

  function ViewOf(users: seq<User>, msg: Message): ChatView
  {
    ChatView(msg.id, msg.matchId, msg.senderId, NameOf(users, msg.senderId).UnwrapOr(""), msg.content,
             msg.timestamp, msg.isRead)
  }

  /** The view `v` shows the stored message `msg`. */
  predicate StoredAs(msg: Message, v: ChatView)
  {
    msg.id == v.messageId && msg.senderId == v.senderId && msg.content == v.content
    && msg.timestamp == v.timestamp && msg.isRead == v.isRead
  }

  function MessageId(msg: Message): Id { msg.id }

  function ShownId(v: ChatView): Id { v.messageId }

  /** `findByMatch_MatchIdOrderByTimestampAsc`, mapped to views. */
  function History(messages: seq<Message>, users: seq<User>, matchId: Id): seq<ChatView>
  {
    Map(SortBy(Filter(messages, (msg: Message) => msg.matchId == matchId), Timestamp),
        (msg: Message) => ViewOf(users, msg))
  }

  /** The history lists each message of the match once, oldest first: its message ids are those
    * of the match's stored messages, each as often as it is stored. */
  lemma HistoryExact(messages: seq<Message>, users: seq<User>, matchId: Id)
    ensures var h := History(messages, users, matchId);
      |h| == |Filter(messages, (msg: Message) => msg.matchId == matchId)|
      && (forall i, j :: 0 <= i < j < |h| ==> h[i].timestamp <= h[j].timestamp)
      && (forall i :: 0 <= i < |h| ==>
            h[i].matchId == matchId && exists k :: 0 <= k < |messages| && StoredAs(messages[k], h[i]))
      && multiset(Map(h, ShownId)) == multiset(Map(Filter(messages, (msg: Message) => msg.matchId == matchId), MessageId))
  {
    var own := Filter(messages, (msg: Message) => msg.matchId == matchId);
    var sorted := SortBy(own, Timestamp);
    SortByElements(own, Timestamp);
    var h := History(messages, users, matchId);
    assert Map(h, ShownId) == Map(sorted, MessageId);
    MapPermutation(sorted, own, MessageId);
    forall i | 0 <= i < |h|
      ensures h[i].matchId == matchId && exists k :: 0 <= k < |messages| && StoredAs(messages[k], h[i])
    {
      assert sorted[i] in own;
      assert sorted[i] in messages;
    }
  }

  /** The history shown right after reading holds no unread message from the other party. */
  lemma HistoryAfterReadIsRead(messages: seq<Message>, users: seq<User>, matchId: Id, userId: Id, now: Time)
    ensures var h := History(MarkRead(messages, matchId, userId, now), users, matchId);
      forall i :: 0 <= i < |h| && h[i].senderId != userId ==> h[i].isRead
  {
    var r := MarkRead(messages, matchId, userId, now);
    var own := Filter(r, (msg: Message) => msg.matchId == matchId);
    SortByElements(own, Timestamp);
    var sorted := SortBy(own, Timestamp);
    forall i | 0 <= i < |sorted|
      ensures sorted[i].senderId != userId ==> sorted[i].isRead
    {
      assert sorted[i] in own;
      assert sorted[i] in r;
    }
  }

  // ---------------------------------------------------------------- sendMessage

  /** `sendMessage`: the match and the sender must exist and the sender must be one of its two
    * users; the message is stored unread and the match's last-message time set. No notification
    * is sent. */
  method SendMessage(db: Db, matchId: Id, senderId: Id, content: string, now: Time) returns (r: Result<ChatView>)
    requires db.MatchingValid()
    modifies db`messages, db`nextMessageId, db`matches
    ensures db.MatchingValid()
    ensures MatchIndex(db.matches, matchId).None? <==> old(MatchIndex(db.matches, matchId)).None?
    ensures old(MatchIndex(db.matches, matchId)).None? ==> r == Err("Match not found")
    ensures old(MatchIndex(db.matches, matchId)).Some? && !UserExists(db.users, senderId) ==> r == Err(UserNotFound)
    ensures (old(MatchIndex(db.matches, matchId)).Some? && UserExists(db.users, senderId)
             && !InMatch(old(db.matches)[old(MatchIndex(db.matches, matchId)).value], senderId)) ==>
      r == Err("Unauthorized to send message to this match")
    ensures (old(MatchIndex(db.matches, matchId)).Some? && UserExists(db.users, senderId)
             && InMatch(old(db.matches)[old(MatchIndex(db.matches, matchId)).value], senderId)) ==> r.Ok?
    ensures r.Err? ==>
      db.messages == old(db.messages) && db.nextMessageId == old(db.nextMessageId) && db.matches == old(db.matches)
    ensures r.Ok? ==>
      var i := old(MatchIndex(db.matches, matchId)).value;
      InMatch(old(db.matches)[i], senderId) && UserExists(db.users, senderId)
      && db.messages == old(db.messages) + [Message(old(db.nextMessageId), matchId, senderId, content, now, false, None, false)]
      && db.nextMessageId == old(db.nextMessageId) + 1
      && db.matches == old(db.matches)[i := old(db.matches)[i].(lastMessageAt := Some(now))]
      && r.value == ViewOf(db.users, db.messages[|db.messages| - 1])
  {
    var mi := MatchIndex(db.matches, matchId);
    if mi.None? {
      return Err("Match not found");
    }
    if !UserExists(db.users, senderId) {
      return Err(UserNotFound);
    }
    var i := mi.value;
    if !InMatch(db.matches[i], senderId) {
      return Err("Unauthorized to send message to this match");
    }
    var msg := Message(db.nextMessageId, matchId, senderId, content, now, false, None, false);
    db.messages := db.messages + [msg];
    db.nextMessageId := db.nextMessageId + 1;
    SamePairsAfterUpdate(db.matches, i, db.matches[i].(lastMessageAt := Some(now)));
    db.matches := db.matches[i := db.matches[i].(lastMessageAt := Some(now))];
    return Ok(ViewOf(db.users, msg));
  }

  /** Replacing a match by one with the same two users keeps one match per pair and its lookups. */
  lemma SamePairsAfterUpdate(matches: seq<Match>, i: nat, m: Match)
    requires i < |matches| && UniquePairs(matches)
    requires m.id == matches[i].id && m.user1 == matches[i].user1 && m.user2 == matches[i].user2
    ensures UniquePairs(matches[i := m])
    ensures MatchIndex(matches[i := m], m.id) == MatchIndex(matches, m.id)
  {
    var s := matches[i := m];
    forall a, b | 0 <= a < b < |s|
      ensures !SamePair(s[b], s[a].user1, s[a].user2)
    {
      assert !SamePair(matches[b], matches[a].user1, matches[a].user2);
    }
    MatchIndexSameIds(matches, s, m.id);
  }

  lemma MatchIndexSameIds(a: seq<Match>, b: seq<Match>, id: Id)
    requires |a| == |b| && forall k :: 0 <= k < |a| ==> a[k].id == b[k].id
    ensures MatchIndex(a, id) == MatchIndex(b, id)
  {
    var p := (m: Match) => m.id == id;
    match MatchIndex(a, id)
    case None =>
      assert forall k :: 0 <= k < |b| ==> !p(b[k]) by {
        forall k | 0 <= k < |b| ensures !p(b[k]) { assert !p(a[k]); }
      }
    case Some(x) =>
      assert p(b[x]);
      assert forall k :: 0 <= k < x ==> !p(b[k]) by {
        forall k | 0 <= k < x ensures !p(b[k]) { assert !p(a[k]); }
      }

  }

  // ---------------------------------------------------------------- getMessagesByMatch

  /** `getMessagesByMatch`: only a user of the match may read; reading marks every unread message
    * of the match from the other party as read at `now` and returns the history so marked. */
  method GetMessagesByMatch(db: Db, matchId: Id, userId: Id, now: Time) returns (r: Result<seq<ChatView>>)
    requires db.MatchingValid()
    modifies db`messages
    ensures db.MatchingValid()
    ensures MatchIndex(db.matches, matchId).None? ==> r == Err("Match not found")
    ensures MatchIndex(db.matches, matchId).Some? ==>
      (r.Ok? <==> InMatch(db.matches[MatchIndex(db.matches, matchId).value], userId))
    ensures r.Err? ==> db.messages == old(db.messages)
    ensures MatchIndex(db.matches, matchId).Some? && r.Err? ==> r == Err("Unauthorized to view messages")
    ensures r.Ok? ==>
      db.messages == MarkRead(old(db.messages), matchId, userId, now)
      && r.value == History(db.messages, db.users, matchId)
  {
    var mi := MatchIndex(db.matches, matchId);
    if mi.None? {
      return Err("Match not found");
    }
    if !InMatch(db.matches[mi.value], userId) {
      return Err("Unauthorized to view messages");
    }
    MarkAll(db, matchId, userId, now);
    return Ok(History(db.messages, db.users, matchId));
  }

  /** The marking loop of `getMessagesByMatch`, one message at a time. */
  method MarkAll(db: Db, matchId: Id, userId: Id, now: Time)
    requires db.MatchingValid()
    modifies db`messages
    ensures db.MatchingValid()
    ensures db.messages == MarkRead(old(db.messages), matchId, userId, now)
  {
    ghost var saved := db.messages;
    var k := 0;
    while k < |db.messages|
      invariant 0 <= k <= |db.messages| == |saved|
      invariant forall j :: 0 <= j < k ==> db.messages[j] == ReadBy(saved[j], matchId, userId, now)
      invariant forall j :: k <= j < |saved| ==> db.messages[j] == saved[j]
    {
      var msg := db.messages[k];
      if UnreadFor(msg, matchId, userId) {
        db.messages := db.messages[k := msg.(isRead := true, readAt := Some(now))];
      }
      k := k + 1;
    }
    assert forall j :: 0 <= j < |saved| ==> db.messages[j].id == saved[j].id;
  }
}
