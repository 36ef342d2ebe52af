/** `ReportService`: a user files a report against another user, the two parties exchange
  * messages on it, and the status of the report is moved along by an admin. */
module ReportService {

  import opened Wrappers
  import opened Seqs
  import opened Entities
  import opened Store
  import opened JavaText
  import opened SanitizeUtil

  const ReporterNotFound := "Reporter not found"
  const ReportedRequired := "Reported user is required"
  const SelfReport := "You cannot report yourself"
  const ReportedNotFound := "Reported user not found"
  const ReportNotFound := "Report not found"
  const NotAParty := "You are not part of this report"
  const DefaultReason := "Other"

  // The keys of the request bodies.
  const ReportedUserKey := "reportedUserId"
  const ReasonKey := "reason"
  const DescriptionKey := "description"
  const AttachmentKey := "attachmentUrl"
  const InitialMessageKey := "initialMessage"
  const MessageKey := "message"

  // ---------------------------------------------------------------- request values

  /** `Object.toString` of a value of the request body; null stays null. */
  function ValueText(v: JsonValue): (r: Option<string>)
    ensures r.None? <==> v.JNull?
    ensures v.JText? ==> r == Some(v.text)
  {
    match v
    case JNull => None
    case JText(t) => Some(t)
    case JNumber(n) => Some(IntToString(n))
    case JBool(b) => Some(if b then "true" else "false")
  }

  /** `Optional.ofNullable(payload.get(key)).map(Object::toString)`: a missing key and a JSON null
    * both give null. */
  function PayloadText(payload: map<string, JsonValue>, key: string): (r: Option<string>)
    ensures r.Some? <==> key in payload && !payload[key].JNull?
  {
    if key in payload then ValueText(payload[key]) else None
  }

  /** `reportedUserId` read with `Long.valueOf`. */
  function ReportedIdOf(payload: map<string, JsonValue>): (r: Result<int>)
    ensures PayloadText(payload, ReportedUserKey).None? ==> r == Err(ReportedRequired)
    ensures PayloadText(payload, ReportedUserKey).Some? && r.Err? ==>
      r.msg == NotANumber(PayloadText(payload, ReportedUserKey).value)
    ensures r.Ok? ==> LongMin <= r.value <= LongMax
  {
    match PayloadText(payload, ReportedUserKey)
    case None => Err(ReportedRequired)
    case Some(t) => ParseLong(t)
  }

  /** A 64-bit `reportedUserId`, sent as a JSON number or as its decimal text, is read back exactly. */
  lemma ReportedIdReadBack(payload: map<string, JsonValue>, n: int)
    requires LongMin <= n <= LongMax && ReportedUserKey in payload
    requires payload[ReportedUserKey] == JNumber(n) || payload[ReportedUserKey] == JText(IntToString(n))
    ensures ReportedIdOf(payload) == Ok(n)
  {
    LongTextRoundTrip(n);
  }

  // ---------------------------------------------------------------- mapReport

  /** The `reporter` and `reported` entries: id, name and email of the user. */
  datatype Party = Party(userId: Id, name: string, email: string)

  /** What `mapReport` returns: the report's own columns, its two parties and its messages. */
  datatype ReportView = ReportView(report: Report, reporter: Party, reported: Party, messages: seq<ReportMessage>)

  function MessageTime(m: ReportMessage): int { m.createdAt }

  /** `findByReportOrderByCreatedAtAsc`; messages with the same time keep their store order. */
  function MessagesOf(msgs: seq<ReportMessage>, reportId: Id): (r: seq<ReportMessage>)
    ensures SortedBy(r, MessageTime)
  {
    SortBy(Filter(msgs, (m: ReportMessage) => m.reportId == reportId), MessageTime)
  }

  /** The listed messages are exactly the stored messages of that report. */
  lemma MessagesOfMembers(msgs: seq<ReportMessage>, reportId: Id, m: ReportMessage)
    ensures m in MessagesOf(msgs, reportId) <==> m in msgs && m.reportId == reportId
  {
    SortedFilterMembers(msgs, (x: ReportMessage) => x.reportId == reportId, MessageTime, m);
  }

  function PartyOf(u: User): Party { Party(u.id, u.name, u.email) }

  /** `mapReport` with message entries that admit a missing attachment. Reading the name of a
    * party whose user row is gone fails the way Hibernate fails on a dangling reference. */
  function MapReport(users: seq<User>, msgs: seq<ReportMessage>, r: Report): (v: Result<ReportView>)
    ensures v.Ok? <==> UserExists(users, r.reporterId) && UserExists(users, r.reportedId)
    ensures v.Err? ==> v.msg == UserRowGone(if UserExists(users, r.reporterId) then r.reportedId else r.reporterId)
    ensures v.Ok? ==>
      v.value.report == r && v.value.reporter.userId == r.reporterId && v.value.reported.userId == r.reportedId
      && v.value.messages == MessagesOf(msgs, r.id)
  {
    match FindUser(users, r.reporterId)
    case None => Err(UserRowGone(r.reporterId))
    case Some(reporter) =>
      match FindUser(users, r.reportedId)
      case None => Err(UserRowGone(r.reportedId))
      case Some(reported) => Ok(ReportView(r, PartyOf(reporter), PartyOf(reported), MessagesOf(msgs, r.id)))
  }

  /** `mapReport` as written: every message entry is built with `Map.of`, which throws on the null
    * `attachmentUrl` of a message sent without an attachment. */
  function MapReportAsWritten(users: seq<User>, msgs: seq<ReportMessage>, r: Report): (v: Result<ReportView>)
    ensures v.Ok? <==>
      MapReport(users, msgs, r).Ok? && forall m :: m in MessagesOf(msgs, r.id) ==> m.attachmentUrl.Some?
    ensures v.Ok? ==> v == MapReport(users, msgs, r)
  {
    match MapReport(users, msgs, r)
    case Err(e) => Err(e)
    case Ok(view) => if forall m :: m in view.messages ==> m.attachmentUrl.Some? then Ok(view) else Err(NullPointer)
  }

  /** One stored message without an attachment is enough to make the report unreadable as written,
    * while the corrected projection shows it. */
  lemma TextOnlyMessageHidesReport(users: seq<User>, msgs: seq<ReportMessage>, r: Report, m: ReportMessage)
    requires UserExists(users, r.reporterId) && UserExists(users, r.reportedId)
    requires m in msgs && m.reportId == r.id && m.attachmentUrl.None?
    ensures MapReportAsWritten(users, msgs, r) == Err(NullPointer)
    ensures MapReport(users, msgs, r).Ok? && m in MapReport(users, msgs, r).value.messages
  {
    MessagesOfMembers(msgs, r.id, m);
  }

  // ---------------------------------------------------------------- getReportById

  /** Only the reporter and the reported user take part in a report. */
  predicate IsParty(r: Report, userId: Id)
  {
    userId == r.reporterId || userId == r.reportedId
  }

  /** `getReportById`: the report, shown only to one of its two parties. */
  function GetReportById(users: seq<User>, reports: seq<Report>, msgs: seq<ReportMessage>, reportId: Id,
                         requesterId: Id): (v: Result<ReportView>)
    ensures ReportIndex(reports, reportId).None? ==> v == Err(ReportNotFound)
    ensures ReportIndex(reports, reportId).Some? && !IsParty(reports[ReportIndex(reports, reportId).value], requesterId)
      ==> v == Err(NotAParty)
    ensures v.Ok? ==> v.value.report.id == reportId && IsParty(v.value.report, requesterId)
    ensures v.Ok? <==>
      ReportIndex(reports, reportId).Some? && IsParty(reports[ReportIndex(reports, reportId).value], requesterId)
      && MapReport(users, msgs, reports[ReportIndex(reports, reportId).value]).Ok?
  {
    match ReportIndex(reports, reportId)
    case None => Err(ReportNotFound)
    case Some(i) => if !IsParty(reports[i], requesterId) then Err(NotAParty) else MapReport(users, msgs, reports[i])
  }

  // ---------------------------------------------------------------- addMessageInternal

  /** The row `addMessageInternal` saves: none when both the text and the attachment are null or
    * blank; otherwise the text is sanitized. */
  function InternalMessage(reportId: Id, senderId: Id, fromReporter: bool, message: string,
                           attachmentUrl: Option<string>, id: Id, now: Time): (r: Option<ReportMessage>)
    ensures r.None? <==> IsBlank(message) && IsNullOrBlank(attachmentUrl)
  {
    if IsBlank(message) && IsNullOrBlank(attachmentUrl) then None
    else Some(ReportMessage(id, reportId, senderId, fromReporter, Sanitize(message), attachmentUrl, now))
  }

  /** A saved report message is already clean: sanitizing its text again changes nothing. */
  lemma InternalMessageClean(reportId: Id, senderId: Id, fromReporter: bool, message: string,
                             attachmentUrl: Option<string>, id: Id, now: Time)
    ensures var r := InternalMessage(reportId, senderId, fromReporter, message, attachmentUrl, id, now);
      r.Some? ==> Sanitize(r.value.message) == r.value.message
  {
    SanitizeIdempotent(message);
  }

  /** A saved row or nothing, as a sequence to append. */
  function AsSeq(m: Option<ReportMessage>): (s: seq<ReportMessage>)
    ensures |s| == if m.Some? then 1 else 0
  {
    if m.Some? then [m.value] else []
  }

  method AppendReportMessage(db: Db, m: ReportMessage)
    requires db.WorkflowsValid() && m.id == db.nextReportMessageId
    modifies db`reportMessages, db`nextReportMessageId
    ensures db.WorkflowsValid()
    ensures db.reportMessages == old(db.reportMessages) + [m]
    ensures db.nextReportMessageId == old(db.nextReportMessageId) + 1
  {
    db.reportMessages := db.reportMessages + [m];
    db.nextReportMessageId := db.nextReportMessageId + 1;
  }

  /** `addMessageInternal`: saves the message unless it is empty. */
  method AddMessageInternal(db: Db, reportId: Id, senderId: Id, fromReporter: bool, message: string,
                            attachmentUrl: Option<string>, now: Time)
    requires db.WorkflowsValid()
    modifies db`reportMessages, db`nextReportMessageId
    ensures db.WorkflowsValid()
    ensures var m := InternalMessage(reportId, senderId, fromReporter, message, attachmentUrl,
                                     old(db.nextReportMessageId), now);
      db.reportMessages == old(db.reportMessages) + AsSeq(m)
      && db.nextReportMessageId == old(db.nextReportMessageId) + |AsSeq(m)|
  {
    var m := InternalMessage(reportId, senderId, fromReporter, message, attachmentUrl, db.nextReportMessageId, now);
    if m.Some? {
      AppendReportMessage(db, m.value);
    }
  }

  // ---------------------------------------------------------------- submitReport

  /** The checks of `submitReport`, in order: the reporter, the reported id, not oneself, the
    * reported user. */
  function SubmitRefusal(users: seq<User>, reporterId: Id, payload: map<string, JsonValue>): (r: Option<string>)
    ensures r.None? <==>
      UserExists(users, reporterId) && ReportedIdOf(payload).Ok? && ReportedIdOf(payload).value != reporterId
      && ReportedIdOf(payload).value >= 0 && UserExists(users, ReportedIdOf(payload).value)
    ensures !UserExists(users, reporterId) ==> r == Some(ReporterNotFound)
    ensures UserExists(users, reporterId) && ReportedIdOf(payload).Err? ==> r == Some(ReportedIdOf(payload).msg)
    ensures UserExists(users, reporterId) && ReportedIdOf(payload) == Ok(reporterId) ==> r == Some(SelfReport)
  {
    if !UserExists(users, reporterId) then Some(ReporterNotFound)
    else match ReportedIdOf(payload)
      case Err(e) => Some(e)
      case Ok(id) =>
        if id == reporterId then Some(SelfReport)
        else if id < 0 || !UserExists(users, id) then Some(ReportedNotFound)
        else None
  }

  /** A user who names themself, by number or by decimal text, is refused. */
  lemma SelfReportRefused(users: seq<User>, reporterId: Id, payload: map<string, JsonValue>)
    requires UserExists(users, reporterId) && reporterId <= LongMax && ReportedUserKey in payload
    requires payload[ReportedUserKey] == JNumber(reporterId) || payload[ReportedUserKey] == JText(NatToString(reporterId))
    ensures SubmitRefusal(users, reporterId, payload) == Some(SelfReport)
  {
    ReportedIdReadBack(payload, reporterId);
  }

  /** The report `submitReport` builds: OPEN, reason "Other" unless given, empty description unless
    * given, both sanitized; the attachment URL is kept as sent. */
  function NewReport(id: Id, reporterId: Id, reportedId: Id, payload: map<string, JsonValue>): Report
  {
    Report(id, reporterId, reportedId,
           Sanitize(PayloadText(payload, ReasonKey).UnwrapOr(DefaultReason)),
           Sanitize(PayloadText(payload, DescriptionKey).UnwrapOr("")),
           PayloadText(payload, AttachmentKey), ReportStatus.OPEN, None, None)
  }

  /** A new report is open and unreviewed, its texts are clean, and the defaults fill what is missing. */
  lemma NewReportShape(id: Id, reporterId: Id, reportedId: Id, payload: map<string, JsonValue>)
    ensures var r := NewReport(id, reporterId, reportedId, payload);
      r.status == ReportStatus.OPEN && r.resolvedAt.None? && r.adminNotes.None?
      && Sanitize(r.reason) == r.reason && Sanitize(r.description) == r.description
      && (PayloadText(payload, ReasonKey).None? ==> r.reason == DefaultReason)
      && (PayloadText(payload, DescriptionKey).None? ==> r.description == "")
  {
    SanitizeIdempotent(PayloadText(payload, ReasonKey).UnwrapOr(DefaultReason));
    SanitizeIdempotent(PayloadText(payload, DescriptionKey).UnwrapOr(""));
    DefaultsClean();
  }

  /** The default reason and the empty description are left as they are by `sanitize`. */
  lemma DefaultsClean()
    ensures Sanitize(DefaultReason) == DefaultReason && Sanitize("") == ""
  {
    var s := DefaultReason;
    assert forall k :: 0 <= k < |s| ==> s[k] != '<' && !IsRegexSpace(s[k]) by {
      assert s == ['O', 't', 'h', 'e', 'r'];
    }
    assert NoTagSpan(s) && NoDoubleSpace(s) && OnlyPlainSpaces(s);
    SanitizeOfClean(s);
    SanitizeOfClean("");
  }

  /** The optional `initialMessage`: saved from the reporter when its text is not blank, together
    * with the report's attachment URL. */
  function InitialMessage(report: Report, payload: map<string, JsonValue>, id: Id, now: Time): Option<ReportMessage>
  {
    match PayloadText(payload, InitialMessageKey)
    case None => None
    case Some(t) =>
      if IsBlank(t) then None
      else InternalMessage(report.id, report.reporterId, true, t, PayloadText(payload, AttachmentKey), id, now)
  }

  /** The initial message exists exactly when a non-blank text was sent; it is the reporter's,
    * belongs to the report and carries the sanitized text. */
  lemma InitialMessageShape(report: Report, payload: map<string, JsonValue>, id: Id, now: Time)
    ensures var m := InitialMessage(report, payload, id, now);
      (m.Some? <==> PayloadText(payload, InitialMessageKey).Some? && !IsBlank(PayloadText(payload, InitialMessageKey).value))
      && (m.Some? ==>
            m.value.reportId == report.id && m.value.senderId == report.reporterId && m.value.fromReporter
            && m.value.message == Sanitize(PayloadText(payload, InitialMessageKey).value)
            && m.value.attachmentUrl == PayloadText(payload, AttachmentKey))
  {
  }

  method AppendReport(db: Db, r: Report)
    requires db.WorkflowsValid() && r.id == db.nextReportId
    modifies db`reports, db`nextReportId
    ensures db.WorkflowsValid()
    ensures db.reports == old(db.reports) + [r] && db.nextReportId == old(db.nextReportId) + 1
  {
    db.reports := db.reports + [r];
    db.nextReportId := db.nextReportId + 1;
  }

  /** `submitReport`, one transaction: the report is saved, then its initial message if any, and
    * the saved report is returned. */
  method SubmitReport(db: Db, reporterId: Id, payload: map<string, JsonValue>, now: Time) returns (r: Result<ReportView>)
    requires db.WorkflowsValid()
    modifies db`reports, db`nextReportId, db`reportMessages, db`nextReportMessageId
    ensures db.WorkflowsValid()
    ensures var refusal := SubmitRefusal(db.users, reporterId, payload);
      refusal.Some? ==>
        r == Err(refusal.value) && db.reports == old(db.reports) && db.nextReportId == old(db.nextReportId)
        && db.reportMessages == old(db.reportMessages) && db.nextReportMessageId == old(db.nextReportMessageId)
    ensures var refusal := SubmitRefusal(db.users, reporterId, payload);
      refusal.None? ==>
        var report := NewReport(old(db.nextReportId), reporterId, ReportedIdOf(payload).value as nat, payload);
        var first := AsSeq(InitialMessage(report, payload, old(db.nextReportMessageId), now));
        r == MapReport(db.users, db.reportMessages, report) && r.Ok?
        && db.reports == old(db.reports) + [report] && db.nextReportId == old(db.nextReportId) + 1
        && db.reportMessages == old(db.reportMessages) + first
        && db.nextReportMessageId == old(db.nextReportMessageId) + |first|
  {
    var refusal := SubmitRefusal(db.users, reporterId, payload);
    if refusal.Some? {
      return Err(refusal.value);
    }
    r := SubmitAccepted(db, NewReport(db.nextReportId, reporterId, ReportedIdOf(payload).value as nat, payload), payload, now);
  }

  /** `submitReport` once both parties are known to exist: the new report is saved with its
    * initial message, and shown. */
  method SubmitAccepted(db: Db, report: Report, payload: map<string, JsonValue>, now: Time)
    returns (r: Result<ReportView>)
    requires db.WorkflowsValid() && report.id == db.nextReportId
    requires UserExists(db.users, report.reporterId) && UserExists(db.users, report.reportedId)
    modifies db`reports, db`nextReportId, db`reportMessages, db`nextReportMessageId
    ensures db.WorkflowsValid()
    ensures var first := AsSeq(InitialMessage(report, payload, old(db.nextReportMessageId), now));
      r == MapReport(db.users, db.reportMessages, report) && r.Ok?
      && db.reports == old(db.reports) + [report] && db.nextReportId == old(db.nextReportId) + 1
      && db.reportMessages == old(db.reportMessages) + first
      && db.nextReportMessageId == old(db.nextReportMessageId) + |first|
  {
    SaveNewReport(db, report, payload, now);
    r := MapReport(db.users, db.reportMessages, report);
  }

  /** The saving half of `submitReport`: the report, then its initial message if there is one. */
  method SaveNewReport(db: Db, report: Report, payload: map<string, JsonValue>, now: Time)
    requires db.WorkflowsValid() && report.id == db.nextReportId
    modifies db`reports, db`nextReportId, db`reportMessages, db`nextReportMessageId
    ensures db.WorkflowsValid()
    ensures var first := AsSeq(InitialMessage(report, payload, old(db.nextReportMessageId), now));
      db.reports == old(db.reports) + [report] && db.nextReportId == old(db.nextReportId) + 1
      && db.reportMessages == old(db.reportMessages) + first
      && db.nextReportMessageId == old(db.nextReportMessageId) + |first|
  {
    AppendReport(db, report);
    var init := PayloadText(payload, InitialMessageKey);
    if init.Some? && !IsBlank(init.value) {
      AddMessageInternal(db, report.id, report.reporterId, true, init.value, PayloadText(payload, AttachmentKey), now);
    }
  }

  /** Once submitted, the report can be read by each of its two parties and by nobody else. */
  lemma SubmittedReportReadable(users: seq<User>, reports: seq<Report>, msgs: seq<ReportMessage>, nextId: Id,
                                reporterId: Id, payload: map<string, JsonValue>, requesterId: Id)
    requires ReportIdsBelow(reports, nextId) && SubmitRefusal(users, reporterId, payload).None?
    ensures var report := NewReport(nextId, reporterId, ReportedIdOf(payload).value as nat, payload);
      var shown := GetReportById(users, reports + [report], msgs, nextId, requesterId);
      (shown.Ok? <==> IsParty(report, requesterId))
      && (shown.Ok? ==> shown.value.report == report)
      && (!IsParty(report, requesterId) ==> shown == Err(NotAParty))
  {
    var report := NewReport(nextId, reporterId, ReportedIdOf(payload).value as nat, payload);
    IndexWhereAppendFresh(reports, report, (x: Report) => x.id == nextId);
  }

  /** `submitReport` as written: the saved report is read back through `mapReport` as written, so
    * an initial message sent without an attachment makes the read-back throw, and the transaction
    * rolls the report and its message back. */
  method SubmitReportAsWritten(db: Db, reporterId: Id, payload: map<string, JsonValue>, now: Time)
    returns (r: Result<ReportView>)
    requires db.WorkflowsValid()
    modifies db`reports, db`nextReportId, db`reportMessages, db`nextReportMessageId
    ensures db.WorkflowsValid()
    ensures var refusal := SubmitRefusal(db.users, reporterId, payload);
      refusal.Some? ==>
        r == Err(refusal.value) && db.reports == old(db.reports) && db.nextReportId == old(db.nextReportId)
        && db.reportMessages == old(db.reportMessages) && db.nextReportMessageId == old(db.nextReportMessageId)
    ensures var refusal := SubmitRefusal(db.users, reporterId, payload);
      refusal.None? ==>
        var report := NewReport(old(db.nextReportId), reporterId, ReportedIdOf(payload).value as nat, payload);
        var first := AsSeq(InitialMessage(report, payload, old(db.nextReportMessageId), now));
        r == MapReportAsWritten(db.users, old(db.reportMessages) + first, report)
        && (r.Ok? ==> db.reports == old(db.reports) + [report] && db.nextReportId == old(db.nextReportId) + 1
                      && db.reportMessages == old(db.reportMessages) + first
                      && db.nextReportMessageId == old(db.nextReportMessageId) + |first|)
        && (r.Err? ==> db.reports == old(db.reports) && db.nextReportId == old(db.nextReportId)
                       && db.reportMessages == old(db.reportMessages)
                       && db.nextReportMessageId == old(db.nextReportMessageId))
  {
    var reports, nextReportId, msgs, nextMessageId := db.reports, db.nextReportId, db.reportMessages, db.nextReportMessageId;
    r := SubmitReport(db, reporterId, payload, now);
    if r.Ok? {
      r := ReadBackAsWritten(db, r.value.report, reports, nextReportId, msgs, nextMessageId);
    }
  }

  /** The read-back through `mapReport` as written, at the end of a transaction that began with
    * the given tables: when it throws, the tables are rolled back to them. */
  method ReadBackAsWritten(db: Db, report: Report, reports: seq<Report>, nextReportId: Id,
                           msgs: seq<ReportMessage>, nextMessageId: Id)
    returns (r: Result<ReportView>)
    requires db.WorkflowsValid()
    requires ReportIdsBelow(reports, nextReportId) && ReportMessageIdsBelow(msgs, nextMessageId)
    modifies db`reports, db`nextReportId, db`reportMessages, db`nextReportMessageId
    ensures db.WorkflowsValid()
    ensures r == MapReportAsWritten(db.users, old(db.reportMessages), report)
    ensures r.Ok? ==>
      db.reports == old(db.reports) && db.nextReportId == old(db.nextReportId)
      && db.reportMessages == old(db.reportMessages) && db.nextReportMessageId == old(db.nextReportMessageId)
    ensures r.Err? ==>
      db.reports == reports && db.nextReportId == nextReportId
      && db.reportMessages == msgs && db.nextReportMessageId == nextMessageId
  {
    r := MapReportAsWritten(db.users, db.reportMessages, report);
    if r.Err? {
      db.reports, db.nextReportId, db.reportMessages, db.nextReportMessageId := reports, nextReportId, msgs, nextMessageId;
    }
  }

  /** As written, a report submitted with an initial message but no attachment cannot be read back:
    * `submitReport` then always throws, and rolls back. */
  lemma SubmitTextOnlyThrows(users: seq<User>, msgs: seq<ReportMessage>, report: Report,
                             payload: map<string, JsonValue>, id: Id, now: Time)
    requires UserExists(users, report.reporterId) && UserExists(users, report.reportedId)
    requires PayloadText(payload, InitialMessageKey).Some? && !IsBlank(PayloadText(payload, InitialMessageKey).value)
    requires PayloadText(payload, AttachmentKey).None?
    ensures MapReportAsWritten(users, msgs + AsSeq(InitialMessage(report, payload, id, now)), report) == Err(NullPointer)
  {
    InitialMessageShape(report, payload, id, now);
    var m := InitialMessage(report, payload, id, now).value;
    TextOnlyMessageHidesReport(users, msgs + [m], report, m);
  }

  // ---------------------------------------------------------------- addMessage

  /** The checks of `addMessage`, in order: the report, the sender, the sender's part in it. */
  function AddRefusal(users: seq<User>, reports: seq<Report>, reportId: Id, senderId: Id): (r: Option<string>)
    ensures r.None? <==>
      ReportIndex(reports, reportId).Some? && UserExists(users, senderId)
      && IsParty(reports[ReportIndex(reports, reportId).value], senderId)
    ensures ReportIndex(reports, reportId).None? ==> r == Some(ReportNotFound)
    ensures ReportIndex(reports, reportId).Some? && !UserExists(users, senderId) ==> r == Some(UserNotFound)
  {
    match ReportIndex(reports, reportId)
    case None => Some(ReportNotFound)
    case Some(i) =>
      if !UserExists(users, senderId) then Some(UserNotFound)
      else if !IsParty(reports[i], senderId) then Some(NotAParty)
      else None
  }

  /** The row `addMessage` saves: the sanitized text (sanitized once more inside
    * `addMessageInternal`), the attachment as sent, and whether the sender is the reporter. */
  function Posted(report: Report, senderId: Id, payload: map<string, JsonValue>, id: Id, now: Time): Option<ReportMessage>
  {
    InternalMessage(report.id, senderId, senderId == report.reporterId,
                    Sanitize(PayloadText(payload, MessageKey).UnwrapOr("")), PayloadText(payload, AttachmentKey), id, now)
  }

  /** A posted message is skipped exactly when its sanitized text and its attachment are both
    * blank; otherwise it carries the text sanitized once, and `fromReporter` tells the two
    * parties apart. */
  lemma PostedShape(report: Report, senderId: Id, payload: map<string, JsonValue>, id: Id, now: Time)
    requires IsParty(report, senderId)
    ensures var text := Sanitize(PayloadText(payload, MessageKey).UnwrapOr(""));
      var m := Posted(report, senderId, payload, id, now);
      (m.None? <==> IsBlank(text) && IsNullOrBlank(PayloadText(payload, AttachmentKey)))
      && (m.Some? ==>
            m.value.reportId == report.id && m.value.senderId == senderId && m.value.message == text
            && m.value.attachmentUrl == PayloadText(payload, AttachmentKey)
            && (m.value.fromReporter <==> senderId == report.reporterId)
            && (m.value.fromReporter || senderId == report.reportedId))
  {
    SanitizeIdempotent(PayloadText(payload, MessageKey).UnwrapOr(""));
  }

  /** A message added to a report is listed with it, and every message listed before stays listed;
    * where it falls in the time order is given by `MessagesOf`'s sort, not by this lemma. */
  lemma PostedMessageListed(msgs: seq<ReportMessage>, m: ReportMessage, old_m: ReportMessage)
    requires old_m in MessagesOf(msgs, m.reportId)
    ensures m in MessagesOf(msgs + [m], m.reportId) && old_m in MessagesOf(msgs + [m], m.reportId)
  {
    MessagesOfMembers(msgs, m.reportId, old_m);
    MessagesOfMembers(msgs + [m], m.reportId, old_m);
    MessagesOfMembers(msgs + [m], m.reportId, m);
  }

  /** `addMessage`, one transaction: the message is saved unless empty and the report is returned;
    * a failure while reading the report back rolls the message back. */
  method AddMessage(db: Db, reportId: Id, senderId: Id, payload: map<string, JsonValue>, now: Time)
    returns (r: Result<ReportView>)
    requires db.WorkflowsValid()
    modifies db`reportMessages, db`nextReportMessageId
    ensures db.WorkflowsValid()
    ensures var refusal := AddRefusal(db.users, db.reports, reportId, senderId);
      refusal.Some? ==>
        r == Err(refusal.value) && db.reportMessages == old(db.reportMessages)
        && db.nextReportMessageId == old(db.nextReportMessageId)
    ensures var refusal := AddRefusal(db.users, db.reports, reportId, senderId);
      refusal.None? ==>
        var report := db.reports[ReportIndex(db.reports, reportId).value];
        var saved := AsSeq(Posted(report, senderId, payload, old(db.nextReportMessageId), now));
        r == MapReport(db.users, db.reportMessages, report)
        && (r.Err? ==> db.reportMessages == old(db.reportMessages)
                       && db.nextReportMessageId == old(db.nextReportMessageId))
        && (r.Ok? ==> db.reportMessages == old(db.reportMessages) + saved
                      && db.nextReportMessageId == old(db.nextReportMessageId) + |saved|)
  {
    var refusal := AddRefusal(db.users, db.reports, reportId, senderId);
    if refusal.Some? {
      return Err(refusal.value);
    }
    r := AddToReport(db, db.reports[ReportIndex(db.reports, reportId).value], senderId,
                     Sanitize(PayloadText(payload, MessageKey).UnwrapOr("")), PayloadText(payload, AttachmentKey), now);
  }

  /** `addMessage` once the report and its sender have been checked. */
  method AddToReport(db: Db, report: Report, senderId: Id, message: string, attachmentUrl: Option<string>, now: Time)
    returns (r: Result<ReportView>)
    requires db.WorkflowsValid()
    modifies db`reportMessages, db`nextReportMessageId
    ensures db.WorkflowsValid()
    ensures var saved := AsSeq(InternalMessage(report.id, senderId, senderId == report.reporterId, message, attachmentUrl,
                                               old(db.nextReportMessageId), now));
      r == MapReport(db.users, db.reportMessages, report)
      && (r.Err? ==> db.reportMessages == old(db.reportMessages)
                     && db.nextReportMessageId == old(db.nextReportMessageId))
      && (r.Ok? ==> db.reportMessages == old(db.reportMessages) + saved
                    && db.nextReportMessageId == old(db.nextReportMessageId) + |saved|)
  {
    r := MapReport(db.users, db.reportMessages, report);
    if r.Err? {
      return;
    }
    r := PostAndShow(db, report, senderId, message, attachmentUrl, now);
  }

  /** The saving half of `addMessage`: the message through `addMessageInternal`, then the report
    * read back, which cannot fail once its parties are known to exist. */
  method PostAndShow(db: Db, report: Report, senderId: Id, message: string, attachmentUrl: Option<string>, now: Time)
    returns (r: Result<ReportView>)
    requires db.WorkflowsValid() && MapReport(db.users, db.reportMessages, report).Ok?
    modifies db`reportMessages, db`nextReportMessageId
    ensures db.WorkflowsValid()
    ensures var saved := AsSeq(InternalMessage(report.id, senderId, senderId == report.reporterId, message, attachmentUrl,
                                               old(db.nextReportMessageId), now));
      r == MapReport(db.users, db.reportMessages, report) && r.Ok?
      && db.reportMessages == old(db.reportMessages) + saved
      && db.nextReportMessageId == old(db.nextReportMessageId) + |saved|
  {
    AddMessageInternal(db, report.id, senderId, senderId == report.reporterId, message, attachmentUrl, now);
    r := MapReport(db.users, db.reportMessages, report);
  }

  /** `addMessage` as written: the report is read back through `mapReport` as written, so a message
    * sent without an attachment (or any earlier one of the report) makes the read-back throw, and
    * the transaction rolls the message back. */
  method AddMessageAsWritten(db: Db, reportId: Id, senderId: Id, payload: map<string, JsonValue>, now: Time)
    returns (r: Result<ReportView>)
    requires db.WorkflowsValid()
    modifies db`reportMessages, db`nextReportMessageId
    ensures db.WorkflowsValid()
    ensures var refusal := AddRefusal(db.users, db.reports, reportId, senderId);
      refusal.Some? ==>
        r == Err(refusal.value) && db.reportMessages == old(db.reportMessages)
        && db.nextReportMessageId == old(db.nextReportMessageId)
    ensures var refusal := AddRefusal(db.users, db.reports, reportId, senderId);
      refusal.None? ==>
        var report := db.reports[ReportIndex(db.reports, reportId).value];
        var saved := AsSeq(Posted(report, senderId, payload, old(db.nextReportMessageId), now));
        r == MapReportAsWritten(db.users, old(db.reportMessages) + saved, report)
        && (r.Err? ==> db.reportMessages == old(db.reportMessages)
                       && db.nextReportMessageId == old(db.nextReportMessageId))
        && (r.Ok? ==> db.reportMessages == old(db.reportMessages) + saved
                      && db.nextReportMessageId == old(db.nextReportMessageId) + |saved|)
  {
    var refusal := AddRefusal(db.users, db.reports, reportId, senderId);
    if refusal.Some? {
      return Err(refusal.value);
    }
    r := AddToReportAsWritten(db, db.reports[ReportIndex(db.reports, reportId).value], senderId,
                              Sanitize(PayloadText(payload, MessageKey).UnwrapOr("")), PayloadText(payload, AttachmentKey), now);
  }

  /** `addMessage` as written, once the report and its sender have been checked. */
  method AddToReportAsWritten(db: Db, report: Report, senderId: Id, message: string, attachmentUrl: Option<string>,
                              now: Time)
    returns (r: Result<ReportView>)
    requires db.WorkflowsValid()
    modifies db`reportMessages, db`nextReportMessageId
    ensures db.WorkflowsValid()
    ensures var saved := AsSeq(InternalMessage(report.id, senderId, senderId == report.reporterId, message, attachmentUrl,
                                               old(db.nextReportMessageId), now));
      r == MapReportAsWritten(db.users, old(db.reportMessages) + saved, report)
      && (r.Err? ==> db.reportMessages == old(db.reportMessages)
                     && db.nextReportMessageId == old(db.nextReportMessageId))
      && (r.Ok? ==> db.reportMessages == old(db.reportMessages) + saved
                    && db.nextReportMessageId == old(db.nextReportMessageId) + |saved|)
  {
    r := MapReport(db.users, db.reportMessages, report);
    if r.Err? {
      // the view fails on a missing party, whatever the messages
      return;
    }
    r := PostAndShowAsWritten(db, report, senderId, message, attachmentUrl, now);
  }

  /** The saving half of `addMessage` as written: the message is saved, then the report read back
    * through `mapReport` as written; when that throws, the message is rolled back. */
  method PostAndShowAsWritten(db: Db, report: Report, senderId: Id, message: string, attachmentUrl: Option<string>,
                              now: Time)
    returns (r: Result<ReportView>)
    requires db.WorkflowsValid() && MapReport(db.users, db.reportMessages, report).Ok?
    modifies db`reportMessages, db`nextReportMessageId
    ensures db.WorkflowsValid()
    ensures var saved := AsSeq(InternalMessage(report.id, senderId, senderId == report.reporterId, message, attachmentUrl,
                                               old(db.nextReportMessageId), now));
      r == MapReportAsWritten(db.users, old(db.reportMessages) + saved, report)
      && (r.Err? ==> db.reportMessages == old(db.reportMessages)
                     && db.nextReportMessageId == old(db.nextReportMessageId))
      && (r.Ok? ==> db.reportMessages == old(db.reportMessages) + saved
                    && db.nextReportMessageId == old(db.nextReportMessageId) + |saved|)
  {
    var msgs, nextMessageId := db.reportMessages, db.nextReportMessageId;
    r := PostAndShow(db, report, senderId, message, attachmentUrl, now);
    r := ShowOrRollBack(db, report, msgs, nextMessageId);
  }

  /** The read-back through `mapReport` as written after a message was saved: when it throws, the
    * message table is rolled back to the given one. */
  method ShowOrRollBack(db: Db, report: Report, msgs: seq<ReportMessage>, nextMessageId: Id)
    returns (r: Result<ReportView>)
    requires db.WorkflowsValid() && ReportMessageIdsBelow(msgs, nextMessageId)
    modifies db`reportMessages, db`nextReportMessageId
    ensures db.WorkflowsValid()
    ensures r == MapReportAsWritten(db.users, old(db.reportMessages), report)
    ensures r.Ok? ==> db.reportMessages == old(db.reportMessages) && db.nextReportMessageId == old(db.nextReportMessageId)
    ensures r.Err? ==> db.reportMessages == msgs && db.nextReportMessageId == nextMessageId
  {
    r := MapReportAsWritten(db.users, db.reportMessages, report);
    if r.Err? {
      db.reportMessages, db.nextReportMessageId := msgs, nextMessageId;
    }
  }

  /** As written, a message posted with text but no attachment cannot be read back with its
    * report: `addMessage` then always throws, and rolls back. */
  lemma AddTextOnlyThrows(users: seq<User>, msgs: seq<ReportMessage>, report: Report, senderId: Id,
                          payload: map<string, JsonValue>, id: Id, now: Time)
    requires UserExists(users, report.reporterId) && UserExists(users, report.reportedId) && IsParty(report, senderId)
    requires PayloadText(payload, AttachmentKey).None? && Posted(report, senderId, payload, id, now).Some?
    ensures MapReportAsWritten(users, msgs + AsSeq(Posted(report, senderId, payload, id, now)), report) == Err(NullPointer)
  {
    PostedShape(report, senderId, payload, id, now);
    var m := Posted(report, senderId, payload, id, now).value;
    TextOnlyMessageHidesReport(users, msgs + [m], report, m);
  }

  // ---------------------------------------------------------------- updateStatus

  /** The report after `updateStatus`: the new status; the resolution time only when ReportStatus.RESOLVED; the
    * admin notes only when given. */
  function Updated(r: Report, status: ReportStatus, adminNotes: Option<string>, now: Time): (u: Report)
    ensures u.status == status
    ensures status == ReportStatus.RESOLVED ==> u.resolvedAt == Some(now)
    ensures status != ReportStatus.RESOLVED ==> u.resolvedAt == r.resolvedAt
    ensures adminNotes.Some? ==> u.adminNotes == adminNotes
    ensures adminNotes.None? ==> u.adminNotes == r.adminNotes
    ensures u.(status := r.status, resolvedAt := r.resolvedAt, adminNotes := r.adminNotes) == r
  {
    r.(status := status,
       resolvedAt := if status == ReportStatus.RESOLVED then Some(now) else r.resolvedAt,
       adminNotes := if adminNotes.Some? then adminNotes else r.adminNotes)
  }

  /** A report moved away from ReportStatus.RESOLVED keeps the time it was resolved at. */
  lemma ReopenedKeepsResolvedAt(r: Report, now: Time, later: Time, status: ReportStatus, adminNotes: Option<string>)
    requires status != ReportStatus.RESOLVED
    ensures Updated(Updated(r, ReportStatus.RESOLVED, None, now), status, adminNotes, later).resolvedAt == Some(now)
  {
  }

  method SaveReportAt(db: Db, i: nat, r: Report)
    requires db.WorkflowsValid() && i < |db.reports| && r.id == db.reports[i].id
    modifies db`reports
    ensures db.WorkflowsValid()
    ensures db.reports == old(db.reports)[i := r]
  {
    db.reports := db.reports[i := r];
  }

  /** `updateStatus`, one transaction; a failure while reading the saved report back rolls the
    * change back. Who may call it is decided by the controller. */
  method UpdateStatus(db: Db, reportId: Id, status: ReportStatus, adminNotes: Option<string>, now: Time)
    returns (r: Result<ReportView>)
    requires db.WorkflowsValid()
    modifies db`reports
    ensures db.WorkflowsValid()
    ensures ReportIndex(old(db.reports), reportId).None? ==> r == Err(ReportNotFound) && db.reports == old(db.reports)
    ensures ReportIndex(old(db.reports), reportId).Some? ==>
      var i := ReportIndex(old(db.reports), reportId).value;
      var u := Updated(old(db.reports)[i], status, adminNotes, now);
      r == MapReport(db.users, db.reportMessages, u)
      && db.reports == (if r.Ok? then old(db.reports)[i := u] else old(db.reports))
  {
    var i := ReportIndex(db.reports, reportId);
    if i.None? {
      return Err(ReportNotFound);
    }
    var u := Updated(db.reports[i.value], status, adminNotes, now);
    r := MapReport(db.users, db.reportMessages, u);
    if r.Ok? {
      SaveReportAt(db, i.value, u);
    }
  }

  /** After `updateStatus`, the report is still found under its id, with the new status. */
  lemma UpdatedStillFound(reports: seq<Report>, reportId: Id, status: ReportStatus, adminNotes: Option<string>, now: Time)
    requires ReportIndex(reports, reportId).Some?
    ensures var i := ReportIndex(reports, reportId).value;
      var after := reports[i := Updated(reports[i], status, adminNotes, now)];
      ReportIndex(after, reportId) == Some(i) && after[i].status == status
  {
    var i := ReportIndex(reports, reportId).value;
    IndexWhereAfterSave(reports, i, Updated(reports[i], status, adminNotes, now), (x: Report) => x.id == reportId);
  }
}
