/** `ActivityService`: an activity keeps a participant counter bounded by its capacity, and its
  * group chat room follows the participants in and out. */
module ActivityService {

  import opened Wrappers
  import opened Seqs
  import opened Entities
  import opened Store
  import GroupChatService

  /** The counter as `joinActivity` and `leaveActivity` read it: null counts as 0. */
  function CountOf(a: Activity): int
  {
    a.currentCount.UnwrapOr(0)
  }

  /** Every activity's counter is between 0 and its capacity. */
  predicate WithinCapacity(activities: seq<Activity>)
  {
    forall i :: 0 <= i < |activities| ==> Fits(activities[i])
  }

  /** The counter is not negative and, when a capacity is set, does not exceed it. */
  predicate Fits(a: Activity)
  {
    0 <= CountOf(a) && (a.maxParticipants.Some? ==> CountOf(a) <= a.maxParticipants.value)
  }

  /** Position of the participation of `userId` in `activityId`. */
  function ParticipantIndex(participants: seq<Participant>, activityId: Id, userId: Id): Option<nat>
  {
    IndexWhere(participants, (p: Participant) => p.activityId == activityId && p.userId == userId)
  }

  /** `existsByActivity_ActivityIdAndUser_UserId`. */
  predicate IsParticipant(participants: seq<Participant>, activityId: Id, userId: Id)
  {
    ParticipantIndex(participants, activityId, userId).Some?
  }

  // ---------------------------------------------------------------- createActivity

  /** Why `createActivity` fails: an unknown creator, or a null `title` or `location`, which are
    * `nullable = false` columns, so the save throws and the transaction rolls back. */
  function CreationRefusal(users: seq<User>, creatorId: Id, title: Option<string>, location: Option<string>)
    : (r: Option<string>)
    ensures r.None? <==> UserExists(users, creatorId) && title.Some? && location.Some?
    ensures !UserExists(users, creatorId) ==> r == Some("Creator not found")
    ensures UserExists(users, creatorId) && (title.None? || location.None?) ==> r == Some(NotNullViolation)
  {
    if !UserExists(users, creatorId) then Some("Creator not found")
    else if title.None? || location.None? then Some(NotNullViolation)
    else None
  }

  /** `createActivity`: an unknown creator or a null required column is refused and nothing is
    * saved; otherwise the activity is saved with count 1, not cancelled, the creator is its only
    * participant and the owner of its new room. */
  method CreateActivity(db: Db, creatorId: Id, title: Option<string>, location: Option<string>,
                        maxParticipants: Option<int>, now: Time)
    returns (r: Result<Activity>)
    requires db.ActivitiesValid() && db.ChatValid()
    modifies db`activities, db`nextActivityId, db`participants, db`nextParticipantId
    modifies db`rooms, db`nextRoomId, db`members, db`nextMemberId, db`groupMessages, db`nextGroupMessageId
    ensures db.ActivitiesValid() && db.ChatValid()
    ensures r.Ok? <==> CreationRefusal(db.users, creatorId, title, location).None?
    ensures r.Err? ==>
      r.msg == CreationRefusal(db.users, creatorId, title, location).value
      && db.activities == old(db.activities) && db.participants == old(db.participants)
      && db.rooms == old(db.rooms) && db.members == old(db.members) && db.groupMessages == old(db.groupMessages)
      && db.nextActivityId == old(db.nextActivityId) && db.nextParticipantId == old(db.nextParticipantId)
      && db.nextRoomId == old(db.nextRoomId) && db.nextMemberId == old(db.nextMemberId)
      && db.nextGroupMessageId == old(db.nextGroupMessageId)
    ensures r.Ok? ==>
      r.value == Activity(old(db.nextActivityId), creatorId, title.value, location.value, maxParticipants, Some(1), false, now)
      && db.activities == old(db.activities) + [r.value] && db.nextActivityId == old(db.nextActivityId) + 1
      && db.participants == old(db.participants) + [Participant(old(db.nextParticipantId), r.value.id, creatorId, now)]
      && db.nextParticipantId == old(db.nextParticipantId) + 1
      && db.rooms == old(db.rooms) + [ChatRoom(old(db.nextRoomId), r.value.id, now)]
      && db.nextRoomId == old(db.nextRoomId) + 1
      && db.members == old(db.members) + [RoomMember(old(db.nextMemberId), old(db.nextRoomId), creatorId, OWNER, now)]
      && db.nextMemberId == old(db.nextMemberId) + 1
      && db.groupMessages == old(db.groupMessages)
        + [GroupChatService.SystemMessage(old(db.nextGroupMessageId), old(db.nextRoomId),
                                          GroupChatService.CreatedText(GroupChatService.UserName(db.users, creatorId)), now)]
      && db.nextGroupMessageId == old(db.nextGroupMessageId) + 1
    ensures (r.Ok? && (maxParticipants.None? || maxParticipants.value >= 1) && WithinCapacity(old(db.activities)))
      ==> WithinCapacity(db.activities)
  {
    var refusal := CreationRefusal(db.users, creatorId, title, location);
    if refusal.Some? {
      return Err(refusal.value);
    }
    var a := Publish(db, creatorId, title.value, location.value, maxParticipants, now);
    var room := GroupChatService.CreateRoomForActivity(db, a.id, creatorId, now);
    assert room.Ok?;
    return Ok(a);
  }

  /** The two saves of `createActivity` before its room: the activity, counting its creator, and the
    * creator's participation. */
  method Publish(db: Db, creatorId: Id, title: string, location: string, maxParticipants: Option<int>, now: Time)
    returns (a: Activity)
    requires db.ActivitiesValid() && UserExists(db.users, creatorId)
    modifies db`activities, db`nextActivityId, db`participants, db`nextParticipantId
    ensures db.ActivitiesValid()
    ensures a == Activity(old(db.nextActivityId), creatorId, title, location, maxParticipants, Some(1), false, now)
    ensures ActivityIndex(db.activities, a.id) == Some(|old(db.activities)|)
    ensures db.activities == old(db.activities) + [a]
    ensures db.participants == old(db.participants) + [Participant(old(db.nextParticipantId), a.id, creatorId, now)]
    ensures db.nextActivityId == old(db.nextActivityId) + 1 && db.nextParticipantId == old(db.nextParticipantId) + 1
  {
    a := Activity(db.nextActivityId, creatorId, title, location, maxParticipants, Some(1), false, now);
    IndexWhereAppendFresh(db.activities, a, (x: Activity) => x.id == a.id);
    var p := Participant(db.nextParticipantId, a.id, creatorId, now);
    NewActivityParticipant(db.participants, p);
    db.activities := db.activities + [a];
    db.nextActivityId := db.nextActivityId + 1;
    db.participants := db.participants + [p];
    db.nextParticipantId := db.nextParticipantId + 1;
  }

  /** The first participation of an activity created just now keeps one participation per pair. */
  lemma NewActivityParticipant(participants: seq<Participant>, p: Participant)
    requires UniqueParticipation(participants)
    requires forall i :: 0 <= i < |participants| ==> participants[i].activityId < p.activityId
    ensures UniqueParticipation(participants + [p])
  {
  }

  // ---------------------------------------------------------------- joinActivity

  /** Why `joinActivity` turns a user away, in the order of its checks. */
  function JoinRefusal(activities: seq<Activity>, users: seq<User>, participants: seq<Participant>, activityId: Id, userId: Id)
    : (r: Option<string>)
    ensures r.None? <==>
      ActivityIndex(activities, activityId).Some? && UserExists(users, userId)
      && !IsParticipant(participants, activityId, userId)
      && HasRoom(activities[ActivityIndex(activities, activityId).value])
    ensures (ActivityIndex(activities, activityId).Some? && UserExists(users, userId)
             && !IsParticipant(participants, activityId, userId)
             && activities[ActivityIndex(activities, activityId).value].maxParticipants.None?)
      ==> r == Some(NullPointer)
  {
    match ActivityIndex(activities, activityId)
    case None => Some("Activity not found")
    case Some(i) =>
      if !UserExists(users, userId) then Some(UserNotFound)
      else if IsParticipant(participants, activityId, userId) then Some("You are already a participant of this activity.")
      else if activities[i].maxParticipants.None? then Some(NullPointer)
      else if CountOf(activities[i]) >= activities[i].maxParticipants.value then Some("Activity is full.")
      else None
  }

  /** A capacity is set and the counter is below it; comparing with a null capacity unboxes null. */
  predicate HasRoom(a: Activity)
  {
    a.maxParticipants.Some? && CountOf(a) < a.maxParticipants.value
  }

  /** A join that went through cannot be repeated: the same user asking again is told they are
    * already a participant. */
  lemma JoinNotRepeated(activities: seq<Activity>, users: seq<User>, participants: seq<Participant>,
                        activityId: Id, userId: Id, pid: Id, now: Time)
    requires JoinRefusal(activities, users, participants, activityId, userId).None?
    ensures var i := ActivityIndex(activities, activityId).value;
            var after := activities[i := activities[i].(currentCount := Some(CountOf(activities[i]) + 1))];
            JoinRefusal(after, users, participants + [Participant(pid, activityId, userId, now)], activityId, userId)
              == Some("You are already a participant of this activity.")
  {
    var i := ActivityIndex(activities, activityId).value;
    var after := activities[i := activities[i].(currentCount := Some(CountOf(activities[i]) + 1))];
    IndexWhereAfterSave(activities, i, after[i], (a: Activity) => a.id == activityId);
    var ps := participants + [Participant(pid, activityId, userId, now)];
    var hit := (q: Participant) => q.activityId == activityId && q.userId == userId;
    assert forall k :: 0 <= k < |participants| ==> ps[k] == participants[k];
    IndexWhereAt(ps, hit, |participants|);
  }

  /** `joinActivity`: never throws; every refusal comes back as the message, with no change. A
    * successful join adds one participant, raises the counter by exactly one and then tries to join
    * the activity's chat room, whose failure does not undo the join. */
  method JoinActivity(db: Db, activityId: Id, userId: Id, now: Time) returns (msg: string)
    requires db.ActivitiesValid() && db.ChatValid()
    modifies db`activities, db`participants, db`nextParticipantId
    modifies db`members, db`nextMemberId, db`groupMessages, db`nextGroupMessageId
    ensures db.ActivitiesValid() && db.ChatValid()
    ensures old(JoinRefusal(db.activities, db.users, db.participants, activityId, userId)).Some? ==>
      msg == old(JoinRefusal(db.activities, db.users, db.participants, activityId, userId)).value
      && db.activities == old(db.activities) && db.participants == old(db.participants)
      && db.members == old(db.members) && db.groupMessages == old(db.groupMessages)
      && db.nextParticipantId == old(db.nextParticipantId) && db.nextMemberId == old(db.nextMemberId)
      && db.nextGroupMessageId == old(db.nextGroupMessageId)
    ensures old(JoinRefusal(db.activities, db.users, db.participants, activityId, userId)).None? ==>
      var i := old(ActivityIndex(db.activities, activityId)).value;
      msg == "Joined activity successfully."
      && db.activities == old(db.activities)[i := old(db.activities)[i].(currentCount := Some(CountOf(old(db.activities)[i]) + 1))]
      && db.participants == old(db.participants) + [Participant(old(db.nextParticipantId), activityId, userId, now)]
      && db.nextParticipantId == old(db.nextParticipantId) + 1
      && IsParticipant(db.participants, activityId, userId)
      && RoomJoined(old(db.members), db.members, old(db.groupMessages), db.groupMessages,
                    old(db.nextMemberId), db.nextMemberId, old(db.nextGroupMessageId), db.nextGroupMessageId,
                    db.rooms, db.users, activityId, userId, now)
    ensures WithinCapacity(old(db.activities)) ==> WithinCapacity(db.activities)
  {
    var refusal := JoinRefusal(db.activities, db.users, db.participants, activityId, userId);
    if refusal.Some? {
      return refusal.value;
    }
    JoinChecked(db, activityId, userId, now);
    return "Joined activity successfully.";
  }

  /** `joinActivity` once the checks passed: the user is enrolled, then joins the activity's room. */
  method JoinChecked(db: Db, activityId: Id, userId: Id, now: Time)
    requires db.ActivitiesValid() && db.ChatValid()
    requires JoinRefusal(db.activities, db.users, db.participants, activityId, userId).None?
    modifies db`activities, db`participants, db`nextParticipantId
    modifies db`members, db`nextMemberId, db`groupMessages, db`nextGroupMessageId
    ensures db.ActivitiesValid() && db.ChatValid()
    ensures var i := old(ActivityIndex(db.activities, activityId)).value;
      db.activities == old(db.activities)[i := old(db.activities)[i].(currentCount := Some(CountOf(old(db.activities)[i]) + 1))]
      && db.participants == old(db.participants) + [Participant(old(db.nextParticipantId), activityId, userId, now)]
      && db.nextParticipantId == old(db.nextParticipantId) + 1
      && IsParticipant(db.participants, activityId, userId)
      && RoomJoined(old(db.members), db.members, old(db.groupMessages), db.groupMessages,
                    old(db.nextMemberId), db.nextMemberId, old(db.nextGroupMessageId), db.nextGroupMessageId,
                    db.rooms, db.users, activityId, userId, now)
    ensures WithinCapacity(old(db.activities)) ==> WithinCapacity(db.activities)
  {
    var i := ActivityIndex(db.activities, activityId).value;
    Enrol(db, i, userId, now);
    JoinRoomQuietly(db, activityId, userId, now);
  }

  /** What the chat-room step of `joinActivity` leaves behind: when the activity has one room that
    * the known user is not yet in, one MEMBER row and the join message are added under the next
    * ids, each counter rising by one; in every other case (no room, several rooms, already a
    * member, no user row) both tables and both counters stay as they were. */
  ghost predicate RoomJoined(members: seq<RoomMember>, members': seq<RoomMember>,
                             messages: seq<GroupMessage>, messages': seq<GroupMessage>,
                             nextMemberId: Id, nextMemberId': Id, nextMessageId: Id, nextMessageId': Id,
                             rooms: seq<ChatRoom>, users: seq<User>, activityId: Id, userId: Id, now: Time)
  {
    var lookup := GroupChatService.RoomByActivity(rooms, activityId);
    if lookup.Found? && !GroupChatService.IsMember(members, lookup.value.id, userId) && UserExists(users, userId) then
      members' == members + [RoomMember(nextMemberId, lookup.value.id, userId, MEMBER, now)]
      && messages' == messages
        + [GroupChatService.SystemMessage(nextMessageId, lookup.value.id,
                                          GroupChatService.JoinedText(GroupChatService.UserName(users, userId)), now)]
      && nextMemberId' == nextMemberId + 1 && nextMessageId' == nextMessageId + 1
    else
      members' == members && messages' == messages && nextMemberId' == nextMemberId && nextMessageId' == nextMessageId
  }

  /** The chat-room join inside `joinActivity`: a failure is caught and only logged. */
  method JoinRoomQuietly(db: Db, activityId: Id, userId: Id, now: Time)
    requires db.ChatValid()
    modifies db`members, db`nextMemberId, db`groupMessages, db`nextGroupMessageId
    ensures db.ChatValid()
    ensures RoomJoined(old(db.members), db.members, old(db.groupMessages), db.groupMessages,
                       old(db.nextMemberId), db.nextMemberId, old(db.nextGroupMessageId), db.nextGroupMessageId,
                       db.rooms, db.users, activityId, userId, now)
    ensures GroupChatService.RoomByActivity(db.rooms, activityId).Found? && UserExists(db.users, userId) ==>
      GroupChatService.IsMember(db.members, GroupChatService.RoomByActivity(db.rooms, activityId).value.id, userId)
  {
    var _ := GroupChatService.JoinRoomByActivity(db, activityId, userId, now);
  }

  /** The saves of a successful `joinActivity`: one participation, and the counter up by one. */
  method Enrol(db: Db, i: nat, userId: Id, now: Time)
    requires db.ActivitiesValid() && i < |db.activities|
    requires !IsParticipant(db.participants, db.activities[i].id, userId)
    requires HasRoom(db.activities[i])
    modifies db`activities, db`participants, db`nextParticipantId
    ensures db.ActivitiesValid()
    ensures db.activities == old(db.activities)[i := old(db.activities)[i].(currentCount := Some(CountOf(old(db.activities)[i]) + 1))]
    ensures db.participants == old(db.participants) + [Participant(old(db.nextParticipantId), db.activities[i].id, userId, now)]
    ensures db.nextParticipantId == old(db.nextParticipantId) + 1
    ensures IsParticipant(db.participants, db.activities[i].id, userId)
    ensures WithinCapacity(old(db.activities)) ==> WithinCapacity(db.activities)
  {
    var a := db.activities[i];
    var p := Participant(db.nextParticipantId, a.id, userId, now);
    JoinKeepsUniqueParticipation(db.participants, p);
    db.participants := db.participants + [p];
    db.nextParticipantId := db.nextParticipantId + 1;
    CountUpdateKeepsIds(db.activities, i, a.(currentCount := Some(CountOf(a) + 1)));
    db.activities := db.activities[i := a.(currentCount := Some(CountOf(a) + 1))];
  }

  /** Adding the participation of a user not yet in the activity keeps one per pair and makes the
    * user a participant. */
  lemma JoinKeepsUniqueParticipation(participants: seq<Participant>, p: Participant)
    requires UniqueParticipation(participants) && !IsParticipant(participants, p.activityId, p.userId)
    ensures UniqueParticipation(participants + [p])
    ensures IsParticipant(participants + [p], p.activityId, p.userId)
  {
    IndexWhereAppendFresh(participants, p, (x: Participant) => x.activityId == p.activityId && x.userId == p.userId);
  }

  /** Rewriting the counter of activity `i` keeps the ids, the capacity bound of the others, and
    * the activity lookups. */
  lemma CountUpdateKeepsIds(activities: seq<Activity>, i: nat, a: Activity)
    requires i < |activities| && a.id == activities[i].id && a.maxParticipants == activities[i].maxParticipants
    ensures forall k :: 0 <= k < |activities| ==> activities[i := a][k].id == activities[k].id
    ensures WithinCapacity(activities) && Fits(a) ==> WithinCapacity(activities[i := a])
  {
  }

  // ---------------------------------------------------------------- leaveActivity

  /** `leaveActivity`: only a participant may leave; the participation is deleted, the counter
    * drops by one (not below 0), and when the activity has a room the user leaves it too. The
    * room leave can fail, and then the whole call is rolled back. */
  method LeaveActivity(db: Db, activityId: Id, userId: Id, now: Time) returns (r: Result<string>)
    requires db.ActivitiesValid() && db.ChatValid()
    modifies db`activities, db`participants, db`members, db`groupMessages, db`nextGroupMessageId
    ensures db.ActivitiesValid() && db.ChatValid()
    ensures ActivityIndex(old(db.activities), activityId).None? ==> r == Err("Activity not found")
    ensures ActivityIndex(old(db.activities), activityId).Some? && !old(IsParticipant(db.participants, activityId, userId)) ==>
      r == Err("You are not a participant of this activity.")
    ensures (ActivityIndex(old(db.activities), activityId).Some? && old(IsParticipant(db.participants, activityId, userId))
             && GroupChatService.RoomByActivity(db.rooms, activityId).NotUnique?) ==>
      r == Err(NotUniqueMessage)
    ensures (ActivityIndex(old(db.activities), activityId).Some? && old(IsParticipant(db.participants, activityId, userId))
             && GroupChatService.RoomByActivity(db.rooms, activityId).Found?
             && !old(GroupChatService.IsMember(db.members, GroupChatService.RoomByActivity(db.rooms, activityId).value.id, userId))) ==>
      r == Err("User is not in this room")
    ensures r.Ok? <==>
      ActivityIndex(old(db.activities), activityId).Some? && old(IsParticipant(db.participants, activityId, userId))
      && !GroupChatService.RoomByActivity(db.rooms, activityId).NotUnique?
      && (GroupChatService.RoomByActivity(db.rooms, activityId).Found? ==>
            old(GroupChatService.IsMember(db.members, GroupChatService.RoomByActivity(db.rooms, activityId).value.id, userId)))
    ensures r.Err? ==>
      db.activities == old(db.activities) && db.participants == old(db.participants)
      && db.members == old(db.members) && db.groupMessages == old(db.groupMessages)
      && db.nextGroupMessageId == old(db.nextGroupMessageId)
    ensures r.Ok? ==>
      var i := ActivityIndex(old(db.activities), activityId).value;
      var k := old(ParticipantIndex(db.participants, activityId, userId)).value;
      r.value == "You have left the activity."
      && db.activities == old(db.activities)[i := old(db.activities)[i].(currentCount := Some(Max0(CountOf(old(db.activities)[i]) - 1)))]
      && db.participants == old(db.participants)[..k] + old(db.participants)[k + 1..]
      && !IsParticipant(db.participants, activityId, userId)
    ensures r.Ok? && GroupChatService.RoomByActivity(db.rooms, activityId).NotFound? ==>
      db.members == old(db.members) && db.groupMessages == old(db.groupMessages)
      && db.nextGroupMessageId == old(db.nextGroupMessageId)
    ensures r.Ok? && GroupChatService.RoomByActivity(db.rooms, activityId).Found? ==>
      var room := GroupChatService.RoomByActivity(db.rooms, activityId).value;
      var j := old(GroupChatService.MemberIndex(db.members, room.id, userId)).value;
      db.members == old(db.members)[..j] + old(db.members)[j + 1..]
      && !GroupChatService.IsMember(db.members, room.id, userId)
      && db.groupMessages == old(db.groupMessages)
        + [GroupChatService.SystemMessage(old(db.nextGroupMessageId), room.id,
                                          GroupChatService.LeftText(GroupChatService.UserName(db.users, userId)), now)]
      && db.nextGroupMessageId == old(db.nextGroupMessageId) + 1
    ensures WithinCapacity(old(db.activities)) ==> WithinCapacity(db.activities)
  {
    var ai := ActivityIndex(db.activities, activityId);
    if ai.None? {
      return Err("Activity not found");
    }
    var pi := ParticipantIndex(db.participants, activityId, userId);
    if pi.None? {
      return Err("You are not a participant of this activity.");
    }
    var lookup := GroupChatService.RoomByActivity(db.rooms, activityId);
    if lookup.NotUnique? {
      return Err(NotUniqueMessage);
    }
    if lookup.Found? && !GroupChatService.IsMember(db.members, lookup.value.id, userId) {
      return Err("User is not in this room");
    }
    Withdraw(db, ai.value, pi.value);
    if lookup.Found? {
      var left := GroupChatService.LeaveRoom(db, lookup.value.id, userId, now);
      assert left.Ok?;
    }
    return Ok("You have left the activity.");
  }

  /** The saves of a successful `leaveActivity` before the room is left. */
  method Withdraw(db: Db, i: nat, k: nat)
    requires db.ActivitiesValid() && i < |db.activities| && k < |db.participants|
    modifies db`activities, db`participants
    ensures db.ActivitiesValid()
    ensures db.activities == old(db.activities)[i := old(db.activities)[i].(currentCount := Some(Max0(CountOf(old(db.activities)[i]) - 1)))]
    ensures db.participants == old(db.participants)[..k] + old(db.participants)[k + 1..]
    ensures !IsParticipant(db.participants, old(db.participants)[k].activityId, old(db.participants)[k].userId)
    ensures WithinCapacity(old(db.activities)) ==> WithinCapacity(db.activities)
  {
    LeaveKeepsParticipation(db.participants, k, db.nextActivityId, db.nextParticipantId);
    db.participants := db.participants[..k] + db.participants[k + 1..];
    var a := db.activities[i];
    CountUpdateKeepsIds(db.activities, i, a.(currentCount := Some(Max0(CountOf(a) - 1))));
    db.activities := db.activities[i := a.(currentCount := Some(Max0(CountOf(a) - 1)))];
  }

  function Max0(x: int): (r: int)
    ensures r >= 0 && r >= x && (r == 0 || r == x)
  {
    if x < 0 then 0 else x
  }

  /** Deleting participation `k` keeps the participation invariant and leaves that user outside
    * the activity. */
  lemma LeaveKeepsParticipation(participants: seq<Participant>, k: nat, nextActivityId: Id, nextId: Id)
    requires k < |participants| && UniqueParticipation(participants) && ParticipantIdsBelow(participants, nextId)
    requires forall i :: 0 <= i < |participants| ==> participants[i].activityId < nextActivityId
    ensures var rest := participants[..k] + participants[k + 1..];
      UniqueParticipation(rest) && ParticipantIdsBelow(rest, nextId)
      && (forall i :: 0 <= i < |rest| ==> rest[i].activityId < nextActivityId)
      && !IsParticipant(rest, participants[k].activityId, participants[k].userId)
  {
    var rest := participants[..k] + participants[k + 1..];
    assert forall j :: 0 <= j < |rest| ==> rest[j] == participants[if j < k then j else j + 1];
    var p := (x: Participant) => x.activityId == participants[k].activityId && x.userId == participants[k].userId;
    assert forall j :: 0 <= j < |rest| ==> !p(rest[j]);
  }
}
