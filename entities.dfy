/** The JPA entities as values. A `@ManyToOne` reference becomes the referenced row's id; a nullable
  * column becomes an `Option`; `LocalDateTime` becomes an integer instant. */
module Entities {

  import opened Wrappers

  type Id = nat
  type Time = int

  /** Instants count seconds; `minusDays(n)` subtracts `n * Day`. */
  const Day: int := 86400

  // ---------------------------------------------------------------- request bodies

  /** A value of a JSON request body once Jackson has read it into a `Map<String, Object>`: null, a
    * `String`, an integral `Number` (an `Integer` when it fits in 32 bits, else a `Long` or
    * `BigInteger`) or a `Boolean`. */
  datatype JsonValue = JNull | JText(text: string) | JNumber(number: int) | JBool(flag: bool)

  /** Jackson reads an integral JSON number that fits in 32 bits as an `Integer`. */
  predicate IsJavaInt(n: int) { -0x8000_0000 <= n < 0x8000_0000 }

  /** `Number.intValue()` on an integral number: its low 32 bits, two's complement. */
  function IntValue(n: int): (r: int)
    ensures IsJavaInt(r) && (r - n) % 0x1_0000_0000 == 0
    ensures IsJavaInt(n) ==> r == n
  {
    var low := n % 0x1_0000_0000;
    if low < 0x8000_0000 then low else low - 0x1_0000_0000
  }

  /** The message of the `ClassCastException` a cast of a request value to the wrong type throws. */
  const CastFailure := "ClassCastException"

  /** A placeholder for the message of a `NullPointerException`. An NPE thrown by `Map.of` carries
    * none; one the JVM throws while unboxing a null carries a text naming the null expression. */
  const NullPointer := "NullPointerException"

  /** The error a save raises for a null value in a `nullable = false` column. */
  const NotNullViolation := "not-null property references a null value"

  /** `(String) value`: null and strings pass, anything else throws. */
  function CastText(v: JsonValue): (r: Result<Option<string>>)
    ensures r.Ok? <==> v.JNull? || v.JText?
    ensures r.Ok? ==> (r.value.Some? <==> v.JText?)
    ensures r.Ok? && v.JText? ==> r.value.value == v.text
  {
    match v
    case JNull => Ok(None)
    case JText(s) => Ok(Some(s))
    case _ => Err(CastFailure)
  }

  /** `(Integer) value`: null passes, a number that Jackson read as an `Integer` passes, anything
    * else (a `Long`, a string, a boolean) throws. */
  function CastInteger(v: JsonValue): (r: Result<Option<int>>)
    ensures r.Ok? <==> v.JNull? || (v.JNumber? && IsJavaInt(v.number))
    ensures r.Ok? ==> (r.value.Some? <==> v.JNumber?)
    ensures r.Ok? && v.JNumber? ==> r.value.value == v.number
  {
    match v
    case JNull => Ok(None)
    case JNumber(n) => if IsJavaInt(n) then Ok(Some(n)) else Err(CastFailure)
    case _ => Err(CastFailure)
  }

  // ---------------------------------------------------------------- users and profiles

  datatype Tier = FREE | PREMIUM | ELITE

  /** `User`. `isSuperAdmin` and `incognitoMode` are read only through `Boolean.TRUE.equals`, so
    * null and false are the same value here. `availability` is handled as text by every service
    * that reads or writes it except one (see README). */
  datatype User = User(
    id: Id,
    email: string,
    name: string,
    age: Option<int>,
    gender: Option<string>,
    interests: Option<string>,
    location: Option<string>,
    availability: Option<string>,
    bio: Option<string>,
    zodiacSign: Option<string>,
    mbtiType: Option<string>,
    fitnessLevel: Option<string>,
    tier: Option<Tier>,
    isActive: bool,
    banUntil: Option<Time>,
    isVerified: bool,
    isAdmin: bool,
    isSuperAdmin: bool,
    incognito: bool)

  datatype Profile = Profile(
    id: Id,
    userId: Id,
    photos: Option<string>,
    fitnessGoals: Option<string>,
    preferredActivities: Option<string>,
    workoutFrequency: Option<int>,
    experienceLevel: Option<string>,
    certifications: Option<string>,
    gymLocation: Option<string>,
    workoutTimePref: Option<string>)

  // ---------------------------------------------------------------- activities and group chat

  datatype Activity = Activity(
    id: Id,
    creatorId: Id,
    title: string,
    location: string,
    maxParticipants: Option<int>,
    currentCount: Option<int>,
    isCancelled: bool,
    createdAt: Time)

  datatype Participant = Participant(id: Id, activityId: Id, userId: Id, joinedAt: Time)

  datatype ChatRoom = ChatRoom(id: Id, activityId: Id, createdAt: Time)

  datatype Role = OWNER | MEMBER

  datatype RoomMember = RoomMember(id: Id, roomId: Id, userId: Id, role: Role, joinedAt: Time)

  /** A group message; `sender == None` marks a system message. */
  datatype GroupMessage = GroupMessage(
    id: Id,
    roomId: Id,
    sender: Option<Id>,
    content: string,
    systemMessage: bool,
    timestamp: Time)

  // ---------------------------------------------------------------- matching and direct chat

  datatype LikeType = LIKE | SUPER_LIKE | PASS

  datatype Like = Like(id: Id, fromUser: Id, toUser: Id, likeType: LikeType)

  datatype MatchStatus = ACTIVE | INACTIVE | BLOCKED

  datatype Match = Match(
    id: Id,
    user1: Id,
    user2: Id,
    status: MatchStatus,
    matchedAt: Time,
    lastMessageAt: Option<Time>)

  datatype Message = Message(
    id: Id,
    matchId: Id,
    senderId: Id,
    content: string,
    timestamp: Time,
    isRead: bool,
    readAt: Option<Time>,
    isDeleted: bool)

  // ---------------------------------------------------------------- notifications

  datatype NotificationType =
    | MATCH | MESSAGE | ACTIVITY_INVITE | ACTIVITY_JOINED | ACTIVITY_CANCELLED
    | ACTIVITY_REMINDER | RATING_RECEIVED | SYSTEM | ADMIN

  datatype Notification = Notification(
    id: Id,
    userId: Id,
    kind: NotificationType,
    title: string,
    message: string,
    relatedId: Option<Id>,
    relatedType: Option<string>,
    isRead: bool,
    createdAt: Time)

  /** One message handed to the WebSocket broker. */
  datatype Push = Push(destination: string, notification: Notification)

  // ---------------------------------------------------------------- workflows

  datatype RefundStatus = PENDING | UNDER_REVIEW | APPROVED | PROCESSING | COMPLETED | REJECTED | CANCELLED

  /** `Refund`; the amount is kept as the decimal text the notifications print. */
  datatype Refund = Refund(
    id: Id,
    userId: Id,
    amount: string,
    originalTransId: Option<string>,
    status: RefundStatus,
    refundTransId: Option<string>,
    processedBy: Option<Id>,
    adminNotes: Option<string>,
    requestedAt: Time,
    processedAt: Option<Time>,
    completedAt: Option<Time>)

  datatype VerificationStatus = PENDING | APPROVED | REJECTED | CANCELLED

  datatype DocumentType = POLICE_REPORT | PERSONAL_ID | DRIVERS_LICENSE | OTHER

  datatype Verification = Verification(
    id: Id,
    userId: Id,
    documentType: DocumentType,
    documentUrl: string,
    status: VerificationStatus,
    reviewedBy: Option<Id>,
    adminNotes: Option<string>,
    submittedAt: Time,
    reviewedAt: Option<Time>)

  datatype ReferralStatus = PENDING | ACCEPTED | EXPIRED | CANCELLED

  datatype Referral = Referral(
    id: Id,
    referrerId: Id,
    referredId: Option<Id>,
    code: string,
    referredEmail: Option<string>,
    status: ReferralStatus,
    createdAt: Time,
    acceptedAt: Option<Time>,
    rewardClaimed: bool,
    rewardClaimedAt: Option<Time>)

  datatype ReportStatus = OPEN | UNDER_REVIEW | ACTION_TAKEN | RESOLVED

  datatype Report = Report(
    id: Id,
    reporterId: Id,
    reportedId: Id,
    reason: string,
    description: string,
    attachmentUrl: Option<string>,
    status: ReportStatus,
    resolvedAt: Option<Time>,
    adminNotes: Option<string>)

  datatype ReportMessage = ReportMessage(
    id: Id,
    reportId: Id,
    senderId: Id,
    fromReporter: bool,
    message: string,
    attachmentUrl: Option<string>,
    createdAt: Time)

  datatype SupportStatus = OPEN | IN_REVIEW | RESOLVED

  datatype SupportRequest = SupportRequest(
    id: Id,
    email: string,
    message: string,
    status: SupportStatus,
    createdAt: Time,
    handledAt: Option<Time>,
    adminNotes: Option<string>)

  datatype Rating = Rating(
    id: Id,
    fromUser: Id,
    toUser: Id,
    rating: Option<int>,
    review: Option<string>,
    createdAt: Time,
    updatedAt: Time)
}
