/** `GroupChatService`: one chat room per activity, memberships with a role, and the room's
  * messages (user messages and sender-less system messages). */
module GroupChatService {

  import opened Wrappers
  import opened Seqs
  import opened Entities
  import opened Store
  import opened NotificationService

  // ---------------------------------------------------------------- views returned to callers

  /** `ChatRoomInfoDto`. */
  datatype RoomInfo = RoomInfo(roomId: Id, activityId: Option<Id>, activityTitle: string)

  /** `GroupChatMessageResponse`. */
  datatype MessageView = MessageView(
    id: Id,
    roomId: Id,
    senderId: Option<Id>,
    senderName: string,
    content: string,
    systemMessage: bool,
    timestamp: Time)

  /** `ChatRoomMemberDto`. */
  datatype MemberView = MemberView(userId: Id, name: string, role: Role)

  // ---------------------------------------------------------------- queries on the tables

  /** The name printed for a user; a reference to a user row that is gone reads as "". */
  function UserName(users: seq<User>, id: Id): string
  {
    NameOf(users, id).UnwrapOr("")
  }

  /** The title of an activity that still exists. */
  function ActivityTitle(activities: seq<Activity>, id: Id): (r: Option<string>)
    ensures r.Some? <==> ActivityIndex(activities, id).Some?
  {
    match ActivityIndex(activities, id)
    case None => None
    case Some(i) => Some(activities[i].title)
  }

  /** `chatRoomRepository.findByActivity_ActivityId`: nothing prevents two rooms for one activity,
    * so the lookup can meet several rows. */
  function RoomByActivity(rooms: seq<ChatRoom>, activityId: Id): Lookup<ChatRoom>
  {
    Single(Filter(rooms, (c: ChatRoom) => c.activityId == activityId))
  }

  /** Position of the membership of `userId` in `roomId`. */
  function MemberIndex(members: seq<RoomMember>, roomId: Id, userId: Id): Option<nat>
  {
    IndexWhere(members, (m: RoomMember) => m.roomId == roomId && m.userId == userId)
  }

  /** `existsByChatRoom_IdAndUser_UserId`. */
  predicate IsMember(members: seq<RoomMember>, roomId: Id, userId: Id)
  {
    MemberIndex(members, roomId, userId).Some?
  }

  /** `findByChatRoom_Id`. */
  function RoomMembers(members: seq<RoomMember>, roomId: Id): seq<RoomMember>
  {
    Filter(members, (m: RoomMember) => m.roomId == roomId)
  }

  /** `findByUser_UserId`. */
  function Memberships(members: seq<RoomMember>, userId: Id): seq<RoomMember>
  {
    Filter(members, (m: RoomMember) => m.userId == userId)
  }

  /** The messages of a room in store order. */
  function MessageId(g: GroupMessage): Id { g.id }

  function ShownId(v: MessageView): Id { v.id }

  function RoomMessages(messages: seq<GroupMessage>, roomId: Id): seq<GroupMessage>
  {
    Filter(messages, (g: GroupMessage) => g.roomId == roomId)
  }

  // ---------------------------------------------------------------- system messages

  function CreatedText(name: string): string { name + " created this group." }
  function JoinedText(name: string): string { name + " has joined the chat." }
  function LeftText(name: string): string { name + " left the chat." }

  function SystemMessage(id: Id, roomId: Id, text: string, now: Time): (g: GroupMessage)
    ensures g.sender.None? && g.systemMessage
  {
    GroupMessage(id, roomId, None, text, true, now)
  }

  // ---------------------------------------------------------------- createRoomForActivity

  /** `createRoomForActivity`: saves a room for an existing activity with its owner as the only
    * member and a system message. No check is made for a room the activity already has. */
  method CreateRoomForActivity(db: Db, activityId: Id, ownerId: Id, now: Time) returns (r: Result<ChatRoom>)
    requires db.ChatValid() && db.ActivitiesValid()
    modifies db`rooms, db`nextRoomId, db`members, db`nextMemberId, db`groupMessages, db`nextGroupMessageId
    ensures db.ChatValid()
    ensures ActivityIndex(db.activities, activityId).None? ==> r == Err("Activity not found")
    ensures ActivityIndex(db.activities, activityId).Some? && !UserExists(db.users, ownerId) ==>
      r == Err("Owner user not found")
    ensures r.Ok? <==> ActivityIndex(db.activities, activityId).Some? && UserExists(db.users, ownerId)
    ensures r.Err? ==>
      db.rooms == old(db.rooms) && db.members == old(db.members)
      && db.groupMessages == old(db.groupMessages) && db.nextRoomId == old(db.nextRoomId)
      && db.nextMemberId == old(db.nextMemberId) && db.nextGroupMessageId == old(db.nextGroupMessageId)
    ensures r.Ok? ==>
      r.value == ChatRoom(old(db.nextRoomId), activityId, now)
      && db.rooms == old(db.rooms) + [r.value] && db.nextRoomId == old(db.nextRoomId) + 1
    ensures r.Ok? ==>
      db.members == old(db.members) + [RoomMember(old(db.nextMemberId), r.value.id, ownerId, OWNER, now)]
      && db.nextMemberId == old(db.nextMemberId) + 1
    ensures r.Ok? ==>
      db.groupMessages == old(db.groupMessages)
        + [SystemMessage(old(db.nextGroupMessageId), r.value.id, CreatedText(UserName(db.users, ownerId)), now)]
      && db.nextGroupMessageId == old(db.nextGroupMessageId) + 1
    ensures r.Ok? ==>
      RoomMembers(db.members, r.value.id) == [RoomMember(old(db.nextMemberId), r.value.id, ownerId, OWNER, now)]
      && |RoomMessages(db.groupMessages, r.value.id)| == 1
  {
    var ai := ActivityIndex(db.activities, activityId);
    if ai.None? {
      return Err("Activity not found");
    }
    // the room is saved before the owner is looked up; the rollback undoes it, so the model
    // looks the owner up first
    if !UserExists(db.users, ownerId) {
      return Err("Owner user not found");
    }
    assert db.activities[ai.value].id == activityId;
    var room := OpenRoom(db, activityId, ownerId, now);
    NewRoomHasOnlyOwner(old(db.members), RoomMember(old(db.nextMemberId), room.id, ownerId, OWNER, now));
    NewRoomHasOnlySystemMessage(old(db.groupMessages),
      SystemMessage(old(db.nextGroupMessageId), room.id, CreatedText(UserName(db.users, ownerId)), now));
    return Ok(room);
  }

  /** The saves of `createRoomForActivity` once its lookups succeeded. */
  method OpenRoom(db: Db, activityId: Id, ownerId: Id, now: Time) returns (room: ChatRoom)
    requires db.ChatValid() && activityId < db.nextActivityId
    modifies db`rooms, db`nextRoomId, db`members, db`nextMemberId, db`groupMessages, db`nextGroupMessageId
    ensures db.ChatValid()
    ensures room == ChatRoom(old(db.nextRoomId), activityId, now)
      && db.rooms == old(db.rooms) + [room] && db.nextRoomId == old(db.nextRoomId) + 1
    ensures db.members == old(db.members) + [RoomMember(old(db.nextMemberId), room.id, ownerId, OWNER, now)]
      && db.nextMemberId == old(db.nextMemberId) + 1
    ensures db.groupMessages == old(db.groupMessages)
        + [SystemMessage(old(db.nextGroupMessageId), room.id, CreatedText(UserName(db.users, ownerId)), now)]
      && db.nextGroupMessageId == old(db.nextGroupMessageId) + 1
  {
    room := ChatRoom(db.nextRoomId, activityId, now);
    var owner := RoomMember(db.nextMemberId, room.id, ownerId, OWNER, now);
    var created := SystemMessage(db.nextGroupMessageId, room.id, CreatedText(UserName(db.users, ownerId)), now);
    db.rooms := db.rooms + [room];
    db.nextRoomId := db.nextRoomId + 1;
    db.members := db.members + [owner];
    db.nextMemberId := db.nextMemberId + 1;
    db.groupMessages := db.groupMessages + [created];
    db.nextGroupMessageId := db.nextGroupMessageId + 1;
  }

  /** A room created over a table whose memberships all refer to older rooms has exactly one
    * member: its owner. */
  lemma NewRoomHasOnlyOwner(members: seq<RoomMember>, owner: RoomMember)
    requires forall i :: 0 <= i < |members| ==> members[i].roomId < owner.roomId
    ensures RoomMembers(members + [owner], owner.roomId) == [owner]
    ensures IsMember(members + [owner], owner.roomId, owner.userId)
  {
    var p := (m: RoomMember) => m.roomId == owner.roomId;
    FilterAppend(members, [owner], p);
    FilterNone(members, p);
    IndexWhereAppendFresh(members, owner, (m: RoomMember) => m.roomId == owner.roomId && m.userId == owner.userId);
  }

  /** Likewise the new room holds exactly one message, the system message. */
  lemma NewRoomHasOnlySystemMessage(messages: seq<GroupMessage>, g: GroupMessage)
    requires forall i :: 0 <= i < |messages| ==> messages[i].roomId < g.roomId
    ensures RoomMessages(messages + [g], g.roomId) == [g]
  {
    var p := (m: GroupMessage) => m.roomId == g.roomId;
    FilterAppend(messages, [g], p);
    FilterNone(messages, p);
  }

  // ---------------------------------------------------------------- getRoomInfoByActivity

  /** `getRoomInfoByActivity`. */
  function GetRoomInfoByActivity(rooms: seq<ChatRoom>, activities: seq<Activity>, activityId: Id): (r: Result<RoomInfo>)
    ensures RoomByActivity(rooms, activityId).NotFound? <==> r == Err("Chat room not found for activity")
    ensures RoomByActivity(rooms, activityId).NotUnique? <==> r == Err(NotUniqueMessage)
    ensures r.Ok? ==>
      RoomByActivity(rooms, activityId).Found?
      && r.value.roomId == RoomByActivity(rooms, activityId).value.id
      && r.value.activityId == Some(activityId)
  {
    match RoomByActivity(rooms, activityId)
    case NotFound => Err("Chat room not found for activity")
    case NotUnique => Err(NotUniqueMessage)
    case Found(room) => Ok(RoomInfo(room.id, Some(activityId), ActivityTitle(activities, activityId).UnwrapOr("")))
  }

  // ---------------------------------------------------------------- joinRoomByActivity / leaveRoom

  /** `joinRoomByActivity`: a member joining again changes nothing; otherwise the user becomes a
    * MEMBER and a system message says so. */
  method JoinRoomByActivity(db: Db, activityId: Id, userId: Id, now: Time) returns (r: Result<()>)
    requires db.ChatValid()
    modifies db`members, db`nextMemberId, db`groupMessages, db`nextGroupMessageId
    ensures db.ChatValid()
    ensures RoomByActivity(db.rooms, activityId).NotFound? ==> r == Err("Chat room not found")
    ensures RoomByActivity(db.rooms, activityId).NotUnique? ==> r == Err(NotUniqueMessage)
    ensures r.Err? || (RoomByActivity(db.rooms, activityId).Found? && old(IsMember(db.members, RoomByActivity(db.rooms, activityId).value.id, userId))) ==>
      db.members == old(db.members) && db.groupMessages == old(db.groupMessages)
      && db.nextMemberId == old(db.nextMemberId) && db.nextGroupMessageId == old(db.nextGroupMessageId)
    ensures RoomByActivity(db.rooms, activityId).Found? ==>
      var room := RoomByActivity(db.rooms, activityId).value;
      (r.Ok? <==> old(IsMember(db.members, room.id, userId)) || UserExists(db.users, userId))
      && (r.Err? ==> r.msg == UserNotFound)
      && (r.Ok? ==> IsMember(db.members, room.id, userId))
      && (r.Ok? && !old(IsMember(db.members, room.id, userId)) ==>
            db.members == old(db.members) + [RoomMember(old(db.nextMemberId), room.id, userId, MEMBER, now)]
            && db.groupMessages == old(db.groupMessages)
              + [SystemMessage(old(db.nextGroupMessageId), room.id, JoinedText(UserName(db.users, userId)), now)]
            && db.nextMemberId == old(db.nextMemberId) + 1
            && db.nextGroupMessageId == old(db.nextGroupMessageId) + 1)
  {
    var lookup := RoomByActivity(db.rooms, activityId);
    if lookup.NotFound? {
      return Err("Chat room not found");
    }
    if lookup.NotUnique? {
      return Err(NotUniqueMessage);
    }
    var room := lookup.value;
    if IsMember(db.members, room.id, userId) {
      return Ok(());
    }
    if !UserExists(db.users, userId) {
      return Err(UserNotFound);
    }
    RoomByActivityIsRoom(db.rooms, activityId);
    var m := RoomMember(db.nextMemberId, room.id, userId, MEMBER, now);
    JoinKeepsUnique(db.members, m);
    db.members := db.members + [m];
    db.nextMemberId := db.nextMemberId + 1;
    db.groupMessages := db.groupMessages
      + [SystemMessage(db.nextGroupMessageId, room.id, JoinedText(UserName(db.users, userId)), now)];
    db.nextGroupMessageId := db.nextGroupMessageId + 1;
    return Ok(());
  }

  /** The room an activity lookup finds is a row of the table. */
  lemma RoomByActivityIsRoom(rooms: seq<ChatRoom>, activityId: Id)
    requires RoomByActivity(rooms, activityId).Found?
    ensures RoomByActivity(rooms, activityId).value in rooms
  {
    var f := Filter(rooms, (c: ChatRoom) => c.activityId == activityId);
    assert f[0] in rooms;
  }

  /** Adding a membership of a user who is not yet in the room keeps one membership per pair,
    * and makes the user a member. */
  lemma JoinKeepsUnique(members: seq<RoomMember>, m: RoomMember)
    requires UniqueMemberships(members) && !IsMember(members, m.roomId, m.userId)
    ensures UniqueMemberships(members + [m])
    ensures IsMember(members + [m], m.roomId, m.userId)
  {
    var p := (x: RoomMember) => x.roomId == m.roomId && x.userId == m.userId;
    IndexWhereAppendFresh(members, m, p);
  }

  /** `leaveRoom`: a non-member is refused; a member's membership, whatever its role, is deleted
    * and a system message says so. */
  method LeaveRoom(db: Db, roomId: Id, userId: Id, now: Time) returns (r: Result<()>)
    requires db.ChatValid()
    modifies db`members, db`groupMessages, db`nextGroupMessageId
    ensures db.ChatValid()
    ensures r.Ok? <==> old(IsMember(db.members, roomId, userId))
    ensures r.Err? ==>
      r.msg == "User is not in this room"
      && db.members == old(db.members) && db.groupMessages == old(db.groupMessages)
      && db.nextGroupMessageId == old(db.nextGroupMessageId)
    ensures r.Ok? ==>
      var i := old(MemberIndex(db.members, roomId, userId)).value;
      db.members == old(db.members)[..i] + old(db.members)[i + 1..]
      && !IsMember(db.members, roomId, userId)
      && db.groupMessages == old(db.groupMessages)
        + [SystemMessage(old(db.nextGroupMessageId), roomId, LeftText(UserName(db.users, userId)), now)]
      && db.nextGroupMessageId == old(db.nextGroupMessageId) + 1
  {
    var mi := MemberIndex(db.members, roomId, userId);
    if mi.None? {
      return Err("User is not in this room");
    }
    var i := mi.value;
    LeaveRemovesMembership(db.members, i);
    db.members := db.members[..i] + db.members[i + 1..];
    db.groupMessages := db.groupMessages
      + [SystemMessage(db.nextGroupMessageId, roomId, LeftText(UserName(db.users, userId)), now)];
    db.nextGroupMessageId := db.nextGroupMessageId + 1;
    return Ok(());
  }

  /** Deleting membership `i` keeps the table's invariant and, since a user holds one membership
    * per room, leaves that user outside the room. */
  lemma LeaveRemovesMembership(members: seq<RoomMember>, i: nat)
    requires i < |members| && UniqueMemberships(members)
    ensures UniqueMemberships(members[..i] + members[i + 1..])
    ensures !IsMember(members[..i] + members[i + 1..], members[i].roomId, members[i].userId)
  {
    var rest := members[..i] + members[i + 1..];
    assert forall k :: 0 <= k < |rest| ==> rest[k] == members[if k < i then k else k + 1];
    var p := (x: RoomMember) => x.roomId == members[i].roomId && x.userId == members[i].userId;
    assert forall k :: 0 <= k < |rest| ==> !p(rest[k]);
  }

  // ---------------------------------------------------------------- sendMessage

  /** The notifications `sendMessage` sends: one per member of the room other than the sender. */
  function FanOut(roomMembers: seq<RoomMember>, senderId: Id, roomId: Id, senderName: string, title: string): (ds: seq<Draft>)
  {
    Map(Filter(roomMembers, (m: RoomMember) => m.userId != senderId),
        (m: RoomMember) => GroupMessageDraft(m.userId, roomId, senderName, Some(title)))
  }

  /** The recipients of the fan-out are exactly the other members of the room, once per membership,
    * and each draft is a MESSAGE about that room. */
  lemma FanOutRecipients(roomMembers: seq<RoomMember>, senderId: Id, roomId: Id, senderName: string, title: string)
    ensures var ds := FanOut(roomMembers, senderId, roomId, senderName, title);
      |ds| == Count(roomMembers, (m: RoomMember) => m.userId != senderId)
      && (forall i :: 0 <= i < |ds| ==> ds[i].userId != senderId && ds[i].kind == MESSAGE && ds[i].relatedId == Some(roomId))
      && (forall i :: 0 <= i < |ds| ==> exists j :: 0 <= j < |roomMembers| && roomMembers[j].userId == ds[i].userId)
      && (forall j :: 0 <= j < |roomMembers| && roomMembers[j].userId != senderId ==>
            exists i :: 0 <= i < |ds| && ds[i].userId == roomMembers[j].userId)
  {
    var others := Filter(roomMembers, (m: RoomMember) => m.userId != senderId);
    var ds := FanOut(roomMembers, senderId, roomId, senderName, title);
    forall i | 0 <= i < |ds|
      ensures exists j :: 0 <= j < |roomMembers| && roomMembers[j].userId == ds[i].userId
    {
      assert others[i] in roomMembers;
    }
    forall j | 0 <= j < |roomMembers| && roomMembers[j].userId != senderId
      ensures exists i :: 0 <= i < |ds| && ds[i].userId == roomMembers[j].userId
    {
      assert roomMembers[j] in others;
      var i :| 0 <= i < |others| && others[i] == roomMembers[j];
      assert ds[i].userId == roomMembers[j].userId;
    }
  }

  /** The title the notifications carry: the activity's, or "Group chat" without one. */
  function RoomTitle(rooms: seq<ChatRoom>, activities: seq<Activity>, roomId: Id): string
  {
    match RoomIndex(rooms, roomId)
    case None => "Group chat"
    case Some(i) => ActivityTitle(activities, rooms[i].activityId).UnwrapOr("Group chat")
  }

  /** Why `sendMessage` refuses before storing anything, in the order of the checks. */
  function SendRefusal(rooms: seq<ChatRoom>, members: seq<RoomMember>, users: seq<User>, roomId: Id, senderId: Id): (r: Option<string>)
    ensures r.None? <==> RoomIndex(rooms, roomId).Some? && IsMember(members, roomId, senderId) && UserExists(users, senderId)
  {
    if RoomIndex(rooms, roomId).None? then Some("Chat room not found")
    else if !IsMember(members, roomId, senderId) then Some("User is not a member of this room")
    else if !UserExists(users, senderId) then Some("Sender not found")
    else None
  }

  /** `sendMessage`: only a member of an existing room may send; the message is stored and every
    * other member is notified. A notification that cannot be created rolls the whole call back. */
  method SendMessage(db: Db, roomId: Id, senderId: Id, content: string, now: Time) returns (r: Result<MessageView>)
    requires db.ChatValid() && db.NotificationsValid()
    modifies db`groupMessages, db`nextGroupMessageId, db`notifications, db`nextNotificationId, db`outbox
    ensures db.ChatValid() && db.NotificationsValid()
    ensures SendRefusal(db.rooms, db.members, db.users, roomId, senderId).Some? ==>
      r == Err(SendRefusal(db.rooms, db.members, db.users, roomId, senderId).value)
      && db.outbox == old(db.outbox)
    ensures r.Err? ==>
      db.groupMessages == old(db.groupMessages) && db.nextGroupMessageId == old(db.nextGroupMessageId)
      && db.notifications == old(db.notifications) && db.nextNotificationId == old(db.nextNotificationId)
    ensures SendRefusal(db.rooms, db.members, db.users, roomId, senderId).None? ==>
      var ds := FanOut(RoomMembers(db.members, roomId), senderId, roomId, UserName(db.users, senderId),
                       RoomTitle(db.rooms, db.activities, roomId));
      (r.Ok? <==> FirstMissing(db.users, ds).None?)
      && (r.Err? ==>
            r.msg == UserNotFound
            && db.outbox == old(db.outbox)
              + Pushed(db.brokerUp, ds, FirstMissing(db.users, ds).value, old(db.nextNotificationId), now))
      && (r.Ok? ==>
            r.value == MessageView(old(db.nextGroupMessageId), roomId, Some(senderId), UserName(db.users, senderId),
                                   content, false, now)
            && db.groupMessages == old(db.groupMessages)
              + [GroupMessage(old(db.nextGroupMessageId), roomId, Some(senderId), content, false, now)]
            && db.nextGroupMessageId == old(db.nextGroupMessageId) + 1
            && db.notifications == old(db.notifications) + Saved(ds, |ds|, old(db.nextNotificationId), now)
            && db.outbox == old(db.outbox) + Pushed(db.brokerUp, ds, |ds|, old(db.nextNotificationId), now))
  {
    var refusal := SendRefusal(db.rooms, db.members, db.users, roomId, senderId);
    if refusal.Some? {
      return Err(refusal.value);
    }
    var ri := RoomIndex(db.rooms, roomId).value;
    assert db.rooms[ri].id == roomId;
    var ds := FanOut(RoomMembers(db.members, roomId), senderId, roomId, UserName(db.users, senderId),
                     RoomTitle(db.rooms, db.activities, roomId));
    r := StoreAndNotify(db, roomId, senderId, content, ds, now);
  }

  /** The part of `sendMessage` after its checks: save the message, then notify. */
  method StoreAndNotify(db: Db, roomId: Id, senderId: Id, content: string, ds: seq<Draft>, now: Time)
    returns (r: Result<MessageView>)
    requires db.ChatValid() && db.NotificationsValid() && roomId < db.nextRoomId
    modifies db`groupMessages, db`nextGroupMessageId, db`notifications, db`nextNotificationId, db`outbox
    ensures db.ChatValid() && db.NotificationsValid()
    ensures r.Ok? <==> FirstMissing(db.users, ds).None?
    ensures r.Err? ==>
      r.msg == UserNotFound
      && db.groupMessages == old(db.groupMessages) && db.nextGroupMessageId == old(db.nextGroupMessageId)
      && db.notifications == old(db.notifications) && db.nextNotificationId == old(db.nextNotificationId)
      && db.outbox == old(db.outbox) + Pushed(db.brokerUp, ds, FirstMissing(db.users, ds).value, old(db.nextNotificationId), now)
    ensures r.Ok? ==>
      r.value == MessageView(old(db.nextGroupMessageId), roomId, Some(senderId), UserName(db.users, senderId),
                             content, false, now)
      && db.groupMessages == old(db.groupMessages)
        + [GroupMessage(old(db.nextGroupMessageId), roomId, Some(senderId), content, false, now)]
      && db.nextGroupMessageId == old(db.nextGroupMessageId) + 1
      && db.notifications == old(db.notifications) + Saved(ds, |ds|, old(db.nextNotificationId), now)
      && db.outbox == old(db.outbox) + Pushed(db.brokerUp, ds, |ds|, old(db.nextNotificationId), now)
  {
    var savedMessages := db.groupMessages;
    var savedNext := db.nextGroupMessageId;
    var msg := GroupMessage(db.nextGroupMessageId, roomId, Some(senderId), content, false, now);
    db.groupMessages := db.groupMessages + [msg];
    db.nextGroupMessageId := db.nextGroupMessageId + 1;
    var sent := NotifyEach(db, ds, now);
    if sent.Err? {
      db.groupMessages := savedMessages;
      db.nextGroupMessageId := savedNext;
      return Err(sent.msg);
    }
    return Ok(MessageView(msg.id, roomId, Some(senderId), UserName(db.users, senderId), content, false, now));
  }

  // ---------------------------------------------------------------- read side

  function Timestamp(g: GroupMessage): int { g.timestamp }

  /** One stored message as the API shows it; a system message is signed "System". */
  function ViewOf(users: seq<User>, roomId: Id, g: GroupMessage): MessageView
  {
    match g.sender
    case None => MessageView(g.id, roomId, None, "System", g.content, g.systemMessage, g.timestamp)
    case Some(u) => MessageView(g.id, roomId, Some(u), UserName(users, u), g.content, g.systemMessage, g.timestamp)
  }

  /** `v` shows the stored message `g` of room `roomId`. */
  predicate ShownAs(g: GroupMessage, roomId: Id, v: MessageView)
  {
    g.roomId == roomId && v.id == g.id && v.content == g.content && v.timestamp == g.timestamp
    && v.senderId == g.sender && v.systemMessage == g.systemMessage
  }

  /** `getMessages`: the room's messages, oldest first. No membership check is made. The history
    * holds one entry per message of the room, in ascending timestamp order, and sender-less
    * entries are signed "System". */
  function GetMessages(messages: seq<GroupMessage>, users: seq<User>, roomId: Id): (r: seq<MessageView>)
    ensures |r| == |RoomMessages(messages, roomId)|
    ensures forall i, j :: 0 <= i < j < |r| ==> r[i].timestamp <= r[j].timestamp
    ensures forall i :: 0 <= i < |r| ==> r[i].roomId == roomId && (r[i].senderId.None? ==> r[i].senderName == "System")
  {
    SortByElements(RoomMessages(messages, roomId), Timestamp);
    Map(SortBy(RoomMessages(messages, roomId), Timestamp), (g: GroupMessage) => ViewOf(users, roomId, g))
  }

  /** Each entry of the history shows a stored message of that room, and every stored message of
    * the room is listed, once per stored copy: the listed ids are the ids of the room's messages. */
  lemma GetMessagesShowStored(messages: seq<GroupMessage>, users: seq<User>, roomId: Id)
    ensures var r := GetMessages(messages, users, roomId);
      forall i :: 0 <= i < |r| ==> exists g :: g in messages && ShownAs(g, roomId, r[i])
    ensures multiset(Map(GetMessages(messages, users, roomId), ShownId)) == multiset(Map(RoomMessages(messages, roomId), MessageId))
  {
    ListedAreStored(messages, users, roomId);
    ListedIdsAreStoredIds(messages, users, roomId);
  }

  /** Each entry of the listing shows a stored message of the room. */
  lemma ListedAreStored(messages: seq<GroupMessage>, users: seq<User>, roomId: Id)
    ensures var r := GetMessages(messages, users, roomId);
      forall i :: 0 <= i < |r| ==> exists g :: g in messages && ShownAs(g, roomId, r[i])
  {
    var own := RoomMessages(messages, roomId);
    var sorted := SortBy(own, Timestamp);
    var r := GetMessages(messages, users, roomId);
    SortByElements(own, Timestamp);
    forall i | 0 <= i < |r|
      ensures exists g :: g in messages && ShownAs(g, roomId, r[i])
    {
      assert sorted[i] in own;
      var g := sorted[i];
      assert g in messages && g.roomId == roomId;
      assert r[i] == ViewOf(users, roomId, g);
    }
  }

  /** The listed ids are the room's stored ids, as a multiset. */
  lemma ListedIdsAreStoredIds(messages: seq<GroupMessage>, users: seq<User>, roomId: Id)
    ensures multiset(Map(GetMessages(messages, users, roomId), ShownId)) == multiset(Map(RoomMessages(messages, roomId), MessageId))
  {
    var own := RoomMessages(messages, roomId);
    var sorted := SortBy(own, Timestamp);
    assert Map(GetMessages(messages, users, roomId), ShownId) == Map(sorted, MessageId);
    MapPermutation(sorted, own, MessageId);
  }

  /** `getMembers`: the room's memberships with each user's name and role. Members are listed once
    * per membership of the room, each with the role stored for it. */
  function GetMembers(members: seq<RoomMember>, users: seq<User>, roomId: Id): (r: seq<MemberView>)
    ensures |r| == |RoomMembers(members, roomId)|
    ensures forall i :: 0 <= i < |r| ==> RoomMember(RoomMembers(members, roomId)[i].id, roomId, r[i].userId, r[i].role,
                                                    RoomMembers(members, roomId)[i].joinedAt) in members
  {
    Map(RoomMembers(members, roomId), (m: RoomMember) => MemberView(m.userId, UserName(users, m.userId), m.role))
  }

  /** The room info of one membership. A room whose activity row is gone reports no activity and
    * the title "Group Chat". */
  function InfoOf(rooms: seq<ChatRoom>, activities: seq<Activity>, roomId: Id): (info: RoomInfo)
    ensures info.roomId == roomId
    ensures info.activityId.None? ==> info.activityTitle == "Group Chat"
    ensures info.activityId.Some? ==>
      RoomIndex(rooms, roomId).Some? && rooms[RoomIndex(rooms, roomId).value].activityId == info.activityId.value
      && ActivityTitle(activities, info.activityId.value) == Some(info.activityTitle)
    ensures RoomIndex(rooms, roomId).Some? && ActivityTitle(activities, rooms[RoomIndex(rooms, roomId).value].activityId).Some?
      ==> info.activityId.Some?
  {
    match RoomIndex(rooms, roomId)
    case None => RoomInfo(roomId, None, "Group Chat")
    case Some(i) =>
      match ActivityTitle(activities, rooms[i].activityId)
      case None => RoomInfo(roomId, None, "Group Chat")
      case Some(t) => RoomInfo(roomId, Some(rooms[i].activityId), t)
  }

  function NewestRoomFirst(info: RoomInfo): int { -(info.roomId as int) }

  /** `getRoomsForUser`: one entry per membership of the user, highest room id first. */
  function GetRoomsForUser(members: seq<RoomMember>, rooms: seq<ChatRoom>, activities: seq<Activity>, userId: Id): (r: seq<RoomInfo>)
    ensures |r| == |Memberships(members, userId)|
    ensures forall i, j :: 0 <= i < j < |r| ==> r[i].roomId >= r[j].roomId
  {
    var sorted := SortBy(RoomInfos(members, rooms, activities, userId), NewestRoomFirst);
    assert forall i, j :: 0 <= i < j < |sorted| ==> NewestRoomFirst(sorted[i]) <= NewestRoomFirst(sorted[j]);
    sorted
  }

  /** The room info of each of the user's memberships, in store order. */
  function RoomInfos(members: seq<RoomMember>, rooms: seq<ChatRoom>, activities: seq<Activity>, userId: Id): seq<RoomInfo>
  {
    Map(Memberships(members, userId), (m: RoomMember) => InfoOf(rooms, activities, m.roomId))
  }

  /** Every listed room is one the user belongs to. */
  lemma GetRoomsForUserMembers(members: seq<RoomMember>, rooms: seq<ChatRoom>, activities: seq<Activity>, userId: Id)
    ensures var r := GetRoomsForUser(members, rooms, activities, userId);
      forall i :: 0 <= i < |r| ==> IsMember(members, r[i].roomId, userId)
  {
    var own := Memberships(members, userId);
    var infos := RoomInfos(members, rooms, activities, userId);
    SortByElements(infos, NewestRoomFirst);
    var r := SortBy(infos, NewestRoomFirst);
    forall i | 0 <= i < |r|
      ensures IsMember(members, r[i].roomId, userId)
    {
      var k :| 0 <= k < |infos| && infos[k] == r[i];
      MemberOfListed(members, own[k]);
    }
  }

  /** Every room the user belongs to is listed. */
  lemma GetRoomsForUserComplete(members: seq<RoomMember>, rooms: seq<ChatRoom>, activities: seq<Activity>, userId: Id)
    ensures var r := GetRoomsForUser(members, rooms, activities, userId);
      forall k :: 0 <= k < |members| && members[k].userId == userId ==>
        exists i :: 0 <= i < |r| && r[i].roomId == members[k].roomId
  {
    var own := Memberships(members, userId);
    var infos := RoomInfos(members, rooms, activities, userId);
    SortByElements(infos, NewestRoomFirst);
    var r := SortBy(infos, NewestRoomFirst);
    forall k | 0 <= k < |members| && members[k].userId == userId
      ensures exists i :: 0 <= i < |r| && r[i].roomId == members[k].roomId
    {
      assert members[k] in own;
      var t :| 0 <= t < |own| && own[t] == members[k];
      assert infos[t] in r && infos[t].roomId == members[k].roomId;
      var i :| 0 <= i < |r| && r[i] == infos[t];
    }
    assert r == GetRoomsForUser(members, rooms, activities, userId);
  }

  /** A stored membership makes its user a member of its room. */
  lemma MemberOfListed(members: seq<RoomMember>, m: RoomMember)
    requires m in members
    ensures IsMember(members, m.roomId, m.userId)
  {
    var w :| 0 <= w < |members| && members[w] == m;
    MemberIndexFinds(members, w);
  }

  /** A stored membership is found by the membership lookup. */
  lemma MemberIndexFinds(members: seq<RoomMember>, w: nat)
    requires w < |members|
    ensures IsMember(members, members[w].roomId, members[w].userId)
  {
  }
}
