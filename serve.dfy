/**
 * FileAccessViewSet.serve (apps/files/views.py): the endpoint that streams
 * the bytes, and the only place current_views is incremented.
 *
 * The storage backends are reduced to what their fetch returned (BlobFetch),
 * and has_active_session, which the code calls but which is not part of this
 * model, is a parameter (SessionCheck).
 *
 * ServePlan is serve as written. ServePlanIntended is the same endpoint with
 * the screenshot row made storable, which is what the code evidently means
 * to do (see AutomatedAgentGets500).
 */
module Serving {
  import opened Core
  import opened Users
  import opened Files
  import opened Access

  /** What fetching the file's key from its storage gave back. */
  datatype BlobFetch = Fetched(length: nat) | Missing | FetchFailed

  /**
   * file_upload.has_active_session(consumer_id, ip_address), left
   * uninterpreted: a predicate over the row as it stands (its columns and its
   * ledger), the key and the clock.
   */
  type SessionCheck = (FileRecord, Option<UserId>, Option<string>, Time) -> bool

  /** Whether the storage branch can hand the bytes out, or what it answers instead. */
  datatype StorageAnswer = Deliverable | Refused(resp: Response)

  /**
   * The storage branches: local storage (always under DEBUG), Firebase (whose
   * fetch yields None on any error, and where empty content counts as missing),
   * R2 (not-found and other errors kept apart), and an unknown bucket.
   */
  function StorageBranch(bucket: string, debug: bool, blob: BlobFetch): (a: StorageAnswer)
    ensures a.Refused? ==> a.resp.Failure? && a.resp.status in {404, 500}
    ensures a.Deliverable? ==> blob.Fetched?
    ensures blob.Missing? ==> a == Refused(Failure(404, FileNotFound)) || (!debug && bucket !in {"local", "firebase", "r2"})
  {
    if debug || bucket == "local" then
      match blob
      case Fetched(_) => Deliverable
      case Missing => Refused(Failure(404, FileNotFound))
      case FetchFailed => Refused(Failure(500, StorageFailure))
    else if bucket == "firebase" then
      if blob.Fetched? && blob.length > 0 then Deliverable else Refused(Failure(404, FileNotFound))
    else if bucket == "r2" then
      match blob
      case Fetched(_) => Deliverable
      case Missing => Refused(Failure(404, FileNotFound))
      case FetchFailed => Refused(Failure(500, StorageFailure))
    else Refused(Failure(500, StorageMisconfigured))
  }

  /** `request.GET.get('download', '').lower() == 'true'`. */
  predicate IsDownloadRequest(req: Request) {
    Lower(req.downloadParam.GetOr("")) == "true"
  }

  /** The user-agent test for a likely screenshot tool. */
  predicate LooksAutomated(userAgent: string) {
    var ua := Lower(userAgent);
    Contains(ua, "headless") || Contains(ua, "phantom") || Contains(ua, "selenium")
  }

  /** The key serve hands to has_active_session: the user id when signed in, otherwise the client address. */
  function SessionKey(req: Request): (key: (Option<UserId>, Option<string>))
    ensures key.0 == req.user
    ensures key.1 == if req.user.Some? then None else ClientIp(req)
  {
    if req.user.Some? then (req.user, None) else (None, ClientIp(req))
  }

  /** What one serve call answers, whether it counts a view, and the ledger rows it writes, in order. */
  datatype ServeOutcome = ServeOutcome(resp: Response, counted: bool, entries: seq<LogEntry>)

  /** The four gates at the top of serve: the outcome when one of them stops the request, None when all pass. */
  function ServeGates(r: FileRecord, req: Request, now: Time): (g: Option<ServeOutcome>)
    ensures g.None? <==>
              && !r.IsExpired(now)
              && r.currentViews < r.maxViews
              && !(r.requireSignin && req.user.None?)
              && !(r.requireSignin && r.HasConsumerExceededLimit(req.user, None))
    ensures g.Some? ==> g.value.resp.Failure? && !g.value.counted && |g.value.entries| <= 1
    ensures g.Some? ==> forall i :: 0 <= i < |g.value.entries| ==>
                          !g.value.entries[i].granted && Insertable(g.value.entries[i])
  {
    if r.IsExpired(now) then Some(ServeOutcome(Failure(410, FileExpired), false, []))
    else if r.currentViews >= r.maxViews then Some(ServeOutcome(Failure(403, ViewLimitReached), false, []))
    else if r.requireSignin && req.user.None? then
      Some(ServeOutcome(Failure(401, MustSignIn), false,
                        [AccessLogEntry(req, false, View, Some("signin_required"), req.user, now)]))
    else if r.requireSignin && r.HasConsumerExceededLimit(req.user, None) then
      Some(ServeOutcome(Failure(403, ConsumerLimitExceeded), false,
                        [AccessLogEntry(req, false, View, Some("consumer_limit_exceeded"), req.user, now)]))
    else None
  }

  /** The granted row serve writes for a delivery. */
  function DeliveryEntry(req: Request, now: Time): LogEntry {
    AccessLogEntry(req, true, if IsDownloadRequest(req) then Download else View, None, req.user, now)
  }

  /** serve as written, as a function of the record it found. */
  function ServePlan(r: FileRecord, req: Request, now: Time, debug: bool, blob: BlobFetch,
                     session: SessionCheck): ServeOutcome
  {
    match ServeGates(r, req, now)
    case Some(o) => o
    case None => ServeStream(r, req, now, debug, blob, session)
  }

  /**
   * The part of serve past its gates, as written. For an automated-looking
   * agent serve logs a refused 'screenshot_attempt' row without a reason; its
   * failure_reason NULL violates the column's NOT NULL, the insert raises,
   * and since serve catches only DoesNotExist the request ends in a 500 with
   * nothing written. Otherwise the storage branch, and on delivery the count
   * and the granted row.
   */
  function ServeStream(r: FileRecord, req: Request, now: Time, debug: bool, blob: BlobFetch,
                       session: SessionCheck): ServeOutcome
  {
    if LooksAutomated(req.userAgent.GetOr("")) then ServeOutcome(Failure(500, UnhandledError), false, [])
    else
      match StorageBranch(r.storageBucket, debug, blob)
      case Refused(resp) => ServeOutcome(resp, false, [])
      case Deliverable =>
        var key := SessionKey(req);
        ServeOutcome(Delivered(IsDownloadRequest(req)), !session(r, key.0, key.1, now), [DeliveryEntry(req, now)])
  }

  /** What serve promises about one call. */
  lemma ServePlanShape(r: FileRecord, req: Request, now: Time, debug: bool, blob: BlobFetch, session: SessionCheck,
                       o: ServeOutcome)
    requires o == ServePlan(r, req, now, debug, blob, session)
    // a view is counted only for a delivered file that was neither expired nor at its limit
    ensures o.counted ==> o.resp.Delivered? && !r.IsExpired(now) && r.currentViews < r.maxViews
    // ... and, on a delivery, exactly when the session check finds no active session for the key
    ensures o.resp.Delivered? ==> (o.counted <==> !session(r, SessionKey(req).0, SessionKey(req).1, now))
    // a delivery is logged by exactly one row, granted, whose method follows ?download
    ensures o.resp.Delivered? ==>
              && o.resp.attachment == IsDownloadRequest(req)
              && |o.entries| == 1
              && o.entries[0].granted
              && o.entries[0].accessMethod == (if IsDownloadRequest(req) then Download else View)
              && o.entries[0].consumer == req.user
    // everything else grants nothing, and every row written can be stored
    ensures !o.resp.Delivered? ==> forall i :: 0 <= i < |o.entries| ==> !o.entries[i].granted
    ensures |o.entries| <= 1 && forall i :: 0 <= i < |o.entries| ==> Insertable(o.entries[i])
    // delivery happens exactly when the gates pass, the agent does not look automated and the storage has the bytes
    ensures o.resp.Delivered? <==>
              && ServeGates(r, req, now).None?
              && !LooksAutomated(req.userAgent.GetOr(""))
              && StorageBranch(r.storageBucket, debug, blob).Deliverable?
    // past the gates, an automated-looking agent gets a 500 and nothing is written or counted
    ensures ServeGates(r, req, now).None? && LooksAutomated(req.userAgent.GetOr("")) ==>
              o == ServeOutcome(Failure(500, UnhandledError), false, [])
  {
  }

  /** The record after serve: at most one more view, and the new ledger rows. */
  function AfterServe(r: FileRecord, o: ServeOutcome, now: Time): FileRecord {
    r.(currentViews := r.currentViews + (if o.counted then 1 else 0),
       updatedAt := if o.counted then now else r.updatedAt,
       logs := r.logs + o.entries)
  }

  /** Sequentially, serve never lets current_views pass max_views. */
  lemma ServeKeepsViewsWithinLimit(r: FileRecord, req: Request, now: Time, debug: bool, blob: BlobFetch, session: SessionCheck)
    requires r.currentViews <= r.maxViews
    ensures var r' := AfterServe(r, ServePlan(r, req, now, debug, blob, session), now);
            r.currentViews <= r'.currentViews <= r.currentViews + 1 && r'.currentViews <= r'.maxViews
  {
    ServePlanShape(r, req, now, debug, blob, session, ServePlan(r, req, now, debug, blob, session));
  }

  /**
   * serve does not look at is_deleted, deleted_at, is_active or the password:
   * its answer and its rows are the same whatever those columns hold, and so
   * is the whole outcome when has_active_session does not read them either.
   */
  lemma ServeIgnoresDeletionActivityAndPassword(r: FileRecord, req: Request, now: Time, debug: bool, blob: BlobFetch,
                                                session: SessionCheck, deleted: bool, deletedAt: Option<Time>,
                                                active: bool, passwordHash: Option<string>)
    ensures var r2 := r.(isDeleted := deleted, deletedAt := deletedAt, isActive := active, passwordHash := passwordHash);
            && ServePlan(r2, req, now, debug, blob, session).resp == ServePlan(r, req, now, debug, blob, session).resp
            && ServePlan(r2, req, now, debug, blob, session).entries == ServePlan(r, req, now, debug, blob, session).entries
    ensures var r2 := r.(isDeleted := deleted, deletedAt := deletedAt, isActive := active, passwordHash := passwordHash);
            session(r2, SessionKey(req).0, SessionKey(req).1, now) == session(r, SessionKey(req).0, SessionKey(req).1, now) ==>
              ServePlan(r2, req, now, debug, blob, session) == ServePlan(r, req, now, debug, blob, session)
  {
  }

  /**
   * serve: implements ServePlan on the row found by token. The row's
   * current_views rises by one exactly when the plan counts a view, and the
   * ledger gains the plan's rows; nothing else changes.
   */
  method Serve(f: FileUpload?, req: Request, now: Time, debug: bool, blob: BlobFetch, session: SessionCheck)
    returns (resp: Response)
    modifies f
    ensures f == null ==> resp == Failure(404, InvalidToken)
    ensures f != null ==>
              var o := ServePlan(old(f.Record()), req, now, debug, blob, session);
              resp == o.resp && f.Record() == AfterServe(old(f.Record()), o, now)
  {
    if f == null {
      return Failure(404, InvalidToken);
    }
    if now > f.expiresAt {
      assert f.accessLogs + [] == f.accessLogs;
      return Failure(410, FileExpired);
    }
    if f.currentViews >= f.maxViews {
      assert f.accessLogs + [] == f.accessLogs;
      return Failure(403, ViewLimitReached);
    }
    if f.requireSignin {
      if req.user.None? {
        var logged := CreateAccessLog(f, req, false, View, Some("signin_required"), req.user, now);
        return Failure(401, MustSignIn);
      }
      if f.Record().HasConsumerExceededLimit(req.user, None) {
        var logged := CreateAccessLog(f, req, false, View, Some("consumer_limit_exceeded"), req.user, now);
        return Failure(403, ConsumerLimitExceeded);
      }
    }
    resp := Stream(f, req, now, debug, blob, session);
  }

  /** The tail of serve, once the gates have passed: implements ServeStream. */
  method Stream(f: FileUpload, req: Request, now: Time, debug: bool, blob: BlobFetch, session: SessionCheck)
    returns (resp: Response)
    modifies f
    ensures var o := ServeStream(old(f.Record()), req, now, debug, blob, session);
            resp == o.resp && f.Record() == AfterServe(old(f.Record()), o, now)
  {
    if LooksAutomated(req.userAgent.GetOr("")) {
      var logged := CreateAccessLog(f, req, false, ScreenshotAttempt, None, req.user, now);
      // the row carries failure_reason NULL: the insert raises, and nothing in serve catches it
      assert !logged && f.accessLogs + [] == f.accessLogs;
      return Failure(500, UnhandledError);
    }
    var answer := StorageBranch(f.storageBucket, debug, blob);
    if answer.Refused? {
      assert f.accessLogs + [] == f.accessLogs;
      return answer.resp;
    }
    var counted := CountAndLog(f, req, now, session);
    resp := Delivered(IsDownloadRequest(req));
  }

  /**
   * The delivery step of serve: asks has_active_session for the requester's
   * key, increments the counter when there is no session, and logs the grant.
   */
  method CountAndLog(f: FileUpload, req: Request, now: Time, session: SessionCheck) returns (counted: bool)
    modifies f
    ensures counted == !session(old(f.Record()), SessionKey(req).0, SessionKey(req).1, now)
    ensures f.Record() == old(f.Record()).(currentViews := old(f.currentViews) + (if counted then 1 else 0),
                                           updatedAt := if counted then now else old(f.updatedAt),
                                           logs := old(f.accessLogs) + [DeliveryEntry(req, now)])
  {
    var isDownload := IsDownloadRequest(req);
    var consumerId := req.user;
    var ipAddress := if consumerId.None? then ClientIp(req) else None;
    counted := !session(f.Record(), consumerId, ipAddress, now);
    if counted {
      f.IncrementViews(now);
    }
    var logged := CreateAccessLog(f, req, true, if isDownload then Download else View, None, req.user, now);
  }

  // ------------------------------------------------------ screenshot rows

  /** Any user agent that starts with "Headless", such as headless Chrome's, is recognised as automated. */
  lemma HeadlessPrefixLooksAutomated(s: string)
    requires |s| >= 8 && s[..8] == "Headless"
    ensures LooksAutomated(s)
  {
    var ua := Lower(s);
    assert ua[0] == LowerChar(s[0]) == 'h';
    assert ua[4] == LowerChar(s[4]) == 'l';
    assert ua[..8] == "headless";
    assert Contains(ua, "headless");
  }

  /**
   * As written, serve refuses every automated-looking agent with a 500: on a
   * file that passes the gates, "HeadlessChrome" gets no bytes, no count and
   * no ledger row, because the screenshot row it tries to store is not insertable.
   */
  lemma AutomatedAgentGets500(r: FileRecord, req: Request, now: Time, debug: bool, blob: BlobFetch, session: SessionCheck)
    requires !r.IsExpired(now) && r.currentViews < r.maxViews && !r.requireSignin
    requires req.userAgent == Some("HeadlessChrome")
    ensures !Insertable(AccessLogEntry(req, false, ScreenshotAttempt, None, req.user, now))
    ensures ServePlan(r, req, now, debug, blob, session) == ServeOutcome(Failure(500, UnhandledError), false, [])
  {
    HeadlessPrefixLooksAutomated("HeadlessChrome");
  }

  /**
   * The screenshot row as evidently intended: a refused 'screenshot_attempt'
   * row with an empty failure_reason, which the column accepts, for exactly
   * the automated-looking agents.
   */
  function ScreenshotEntries(req: Request, now: Time): (es: seq<LogEntry>)
    ensures |es| <= 1
    ensures |es| == 1 <==> LooksAutomated(req.userAgent.GetOr(""))
    ensures forall i :: 0 <= i < |es| ==>
              && !es[i].granted && es[i].accessMethod == ScreenshotAttempt && Insertable(es[i])
              && es[i].consumer == req.user && es[i].createdAt == now
  {
    if LooksAutomated(req.userAgent.GetOr("")) then [AccessLogEntry(req, false, ScreenshotAttempt, Some(""), req.user, now)]
    else []
  }

  /** serve as evidently intended: the screenshot row is logged and delivery goes ahead. */
  function ServePlanIntended(r: FileRecord, req: Request, now: Time, debug: bool, blob: BlobFetch,
                             session: SessionCheck): ServeOutcome
  {
    match ServeGates(r, req, now)
    case Some(o) => o
    case None => ServeStreamIntended(r, req, now, debug, blob, session)
  }

  function ServeStreamIntended(r: FileRecord, req: Request, now: Time, debug: bool, blob: BlobFetch,
                               session: SessionCheck): ServeOutcome
  {
    var shot := ScreenshotEntries(req, now);
    match StorageBranch(r.storageBucket, debug, blob)
    case Refused(resp) => ServeOutcome(resp, false, shot)
    case Deliverable =>
      var key := SessionKey(req);
      ServeOutcome(Delivered(IsDownloadRequest(req)), !session(r.(logs := r.logs + shot), key.0, key.1, now),
                   shot + [DeliveryEntry(req, now)])
  }

  /**
   * With the corrected row, a screenshot attempt is recorded but blocks
   * nothing: delivery happens exactly when the gates pass and the storage has
   * the bytes, the delivery row is the last and only granted one, and every
   * row can be stored.
   */
  lemma IntendedScreenshotDoesNotBlock(r: FileRecord, req: Request, now: Time, debug: bool, blob: BlobFetch,
                                       session: SessionCheck)
    ensures var o := ServePlanIntended(r, req, now, debug, blob, session);
            o.resp.Delivered? <==> ServeGates(r, req, now).None? && StorageBranch(r.storageBucket, debug, blob).Deliverable?
    ensures var o := ServePlanIntended(r, req, now, debug, blob, session);
            && (forall i :: 0 <= i < |o.entries| ==> Insertable(o.entries[i]))
            && (o.counted ==> o.resp.Delivered?)
            && (!o.resp.Delivered? ==> forall i :: 0 <= i < |o.entries| ==> !o.entries[i].granted)
    ensures var o := ServePlanIntended(r, req, now, debug, blob, session);
            o.resp.Delivered? ==>
              && |o.entries| >= 1
              && o.entries[|o.entries| - 1] == DeliveryEntry(req, now)
              && (forall i :: 0 <= i < |o.entries| - 1 ==> !o.entries[i].granted)
              && (LooksAutomated(req.userAgent.GetOr("")) ==> o.entries[0].accessMethod == ScreenshotAttempt)
  {
  }

  /** For every agent that does not look automated, the corrected serve is serve as written. */
  lemma IntendedAgreesWhenNotAutomated(r: FileRecord, req: Request, now: Time, debug: bool, blob: BlobFetch,
                                       session: SessionCheck)
    requires !LooksAutomated(req.userAgent.GetOr(""))
    ensures ServePlanIntended(r, req, now, debug, blob, session) == ServePlan(r, req, now, debug, blob, session)
  {
    assert r.(logs := r.logs + []) == r;
  }

  // ------------------------------------------------- the per-consumer limit

  /**
   * As written, one signed-in view through the two endpoints (view, whose
   * validation logs a granted 'view' row, then serve) writes two granted 'view'
   * rows, so a per-consumer limit of 2 is used up by a single viewing: the next
   * validate is refused.
   */
  lemma {:induction false} OneViewingUsesTwoConsumerViews(r: FileRecord, req: Request, now: Time, verify: PasswordCheck,
                                                          debug: bool, blob: BlobFetch, session: SessionCheck)
    requires req.user.Some? && r.requireSignin && r.maxViewsPerConsumer == 2
    requires r.ConsumerViewCount(req.user, None) == 0
    requires ValidateDecision(r, req, now, verify) == Granted
    requires !IsDownloadRequest(req)
    requires ServePlan(r.(logs := r.logs + ValidateEntries(Granted, req, now)), req, now, debug, blob, session).resp.Delivered?
    ensures var r1 := r.(logs := r.logs + ValidateEntries(Granted, req, now));
            var r2 := AfterServe(r1, ServePlan(r1, req, now, debug, blob, session), now);
            && r2.ConsumerViewCount(req.user, None) == 2
            && ValidateDecision(r2, req, now, verify) != Granted
            && (r2.currentViews < r2.maxViews ==> ValidateDecision(r2, req, now, verify) == Denied(ConsumerLimit))
  {
    var r1 := r.(logs := r.logs + ValidateEntries(Granted, req, now));
    ValidateGrantCountsTowardConsumer(r, req, now, verify);
    DeliveryCountsTowardConsumer(r1, req, now, debug, blob, session);
    var r2 := AfterServe(r1, ServePlan(r1, req, now, debug, blob, session), now);
    assert r2.HasConsumerExceededLimit(req.user, None);
  }

  /**
   * With a per-consumer limit of 1 a signed-in consumer never gets the bytes:
   * whatever validate grants, the serve that follows is refused with 403
   * consumer_limit_exceeded, because the grant's own row used up the limit.
   */
  lemma {:induction false} SingleViewLimitRefusesServe(r: FileRecord, req: Request, t1: Time, t2: Time,
                                                       verify: PasswordCheck, debug: bool, blob: BlobFetch,
                                                       session: SessionCheck)
    requires req.user.Some? && r.requireSignin && r.maxViewsPerConsumer == 1
    requires ValidateDecision(r, req, t1, verify) == Granted
    requires !r.IsExpired(t2) && r.currentViews < r.maxViews
    ensures ServePlan(r.(logs := r.logs + ValidateEntries(Granted, req, t1)), req, t2, debug, blob, session)
            == ServeOutcome(Failure(403, ConsumerLimitExceeded), false,
                            [AccessLogEntry(req, false, View, Some("consumer_limit_exceeded"), req.user, t2)])
  {
    ValidateGrantCountsTowardConsumer(r, req, t1, verify);
  }

  /** A signed-in view that serve delivers adds exactly one to the consumer's view count. */
  lemma DeliveryCountsTowardConsumer(r: FileRecord, req: Request, now: Time, debug: bool, blob: BlobFetch,
                                     session: SessionCheck)
    requires req.user.Some? && !IsDownloadRequest(req)
    requires ServePlan(r, req, now, debug, blob, session).resp.Delivered?
    ensures AfterServe(r, ServePlan(r, req, now, debug, blob, session), now).ConsumerViewCount(req.user, None)
            == r.ConsumerViewCount(req.user, None) + 1
  {
    var o := ServePlan(r, req, now, debug, blob, session);
    assert o == ServeStream(r, req, now, debug, blob, session);
    GrantedViewCountsOnce(r, DeliveryEntry(req, now), req.user.value);
  }

  // ----------------------------------------------- a candidate session rule

  /**
   * One candidate definition of has_active_session, following the help text
   * of session_duration (refreshes within that many minutes are not new views): a
   * granted 'view' or 'download' row for the same key within session_duration
   * minutes of now.
   */
  predicate LedgerSession(r: FileRecord, consumerId: Option<UserId>, ipAddress: Option<string>, now: Time) {
    exists i :: 0 <= i < |r.logs| && SessionRow(r.logs[i], r.sessionDuration, consumerId, ipAddress, now)
  }

  predicate SessionRow(e: LogEntry, sessionMinutes: int, consumerId: Option<UserId>, ipAddress: Option<string>, now: Time) {
    && e.granted
    && e.accessMethod in {View, Download}
    && (if consumerId.Some? then e.consumer == consumerId else e.consumer.None? && e.ipAddress == ipAddress)
    && e.createdAt >= now - sessionMinutes * SecondsPerMinute
  }

  /**
   * Under that candidate rule, the granted 'view' row that validate writes
   * opens a session by itself: a serve by the same requester within the
   * window after a granted validate never counts a view.
   */
  lemma ValidateOpensLedgerSession(r: FileRecord, req: Request, t1: Time, t2: Time, verify: PasswordCheck,
                                   debug: bool, blob: BlobFetch)
    requires ValidateDecision(r, req, t1, verify) == Granted
    requires t1 <= t2 <= t1 + r.sessionDuration * SecondsPerMinute
    ensures var r1 := r.(logs := r.logs + ValidateEntries(Granted, req, t1));
            !ServePlan(r1, req, t2, debug, blob, LedgerSession).counted
  {
    var r1 := r.(logs := r.logs + ValidateEntries(Granted, req, t1));
    var o := ServePlan(r1, req, t2, debug, blob, LedgerSession);
    ServePlanShape(r1, req, t2, debug, blob, LedgerSession, o);
    if o.resp.Delivered? {
      var key := SessionKey(req);
      var k := |r.logs|;
      assert r1.logs[k] == ValidateEntries(Granted, req, t1)[0];
      assert SessionRow(r1.logs[k], r1.sessionDuration, key.0, key.1, t2);
    }
  }
}
