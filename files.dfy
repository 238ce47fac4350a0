/**
 * The shared-file record and its access ledger (apps/files/models.py, with
 * the timestamp and soft-delete columns it inherits from core/models.py).
 *
 * A FileUpload object is one row of file_uploads; its accessLogs field holds
 * the AccessLog rows that point at it (the `access_logs` relation), oldest
 * first. Record() reads the whole row as a FileRecord value, and the access
 * policy (expiry, view limit, per-consumer limit) is stated on that value.
 */
module Files {
  import opened Core
  import opened Users

  /** access_method of a log row. ScreenshotAttempt is written by serve, outside the declared choices. */
  datatype AccessMethod = View | Download | ScreenshotAttempt

  /** One AccessLog row. failureReason is '' on granted rows and the denial reason on the others; None stands for SQL NULL. */
  datatype LogEntry = LogEntry(
    consumer: Option<UserId>,
    ipAddress: Option<string>,
    userAgent: string,
    granted: bool,
    accessMethod: AccessMethod,
    failureReason: Option<string>,
    createdAt: Time)

  /**
   * Whether the database accepts the row: failure_reason is a CharField
   * without null=True, so a row whose reason is None violates NOT NULL.
   */
  predicate Insertable(e: LogEntry) {
    e.failureReason.Some?
  }

  /** Whose views get_consumer_view_count counts: a signed-in consumer, or an anonymous address. */
  datatype Viewer = SignedIn(id: UserId) | AnonymousAt(ip: string)

  /** The filter of get_consumer_view_count: granted 'view' rows of that consumer, or anonymous rows from that address. */
  predicate CountsAsView(e: LogEntry, v: Viewer) {
    && e.granted
    && e.accessMethod == View
    && match v
       case SignedIn(id) => e.consumer == Some(id)
       case AnonymousAt(ip) => e.ipAddress == Some(ip) && e.consumer.None?
  }

  /** `.filter(...).count()` over the ledger. */
  function ViewCount(logs: seq<LogEntry>, v: Viewer): (n: nat)
    ensures n <= |logs|
  {
    if logs == [] then 0
    else (if CountsAsView(logs[0], v) then 1 else 0) + ViewCount(logs[1..], v)
  }

  /** The count over a ledger is the sum of the counts over its two parts. */
  lemma {:induction false} ViewCountAppend(a: seq<LogEntry>, b: seq<LogEntry>, v: Viewer)
    ensures ViewCount(a + b, v) == ViewCount(a, v) + ViewCount(b, v)
  {
    if a == [] {
      assert a + b == b;
    } else {
      assert (a + b)[1..] == a[1..] + b;
      ViewCountAppend(a[1..], b, v);
    }
  }

  /** Rows that do not pass the filter contribute nothing to the count. */
  lemma {:induction false} ViewCountOfNonMatching(es: seq<LogEntry>, v: Viewer)
    requires forall i :: 0 <= i < |es| ==> !CountsAsView(es[i], v)
    ensures ViewCount(es, v) == 0
  {
    if es != [] {
      ViewCountOfNonMatching(es[1..], v);
    }
  }

  /** The save() defaulting rule: expires_at becomes now + expiry_hours only when it is unset. */
  function ExpiresAtOnSave(expiresAt: Option<Time>, expiryHours: int, now: Time): Time {
    if expiresAt.Some? then expiresAt.value else now + expiryHours * SecondsPerHour
  }

  /** Once a record has an expiry, later saves keep it, whatever expiry_hours and the clock say then. */
  lemma SaveKeepsExpiry(expiresAt: Option<Time>, expiryHours: int, now: Time, laterHours: int, later: Time)
    ensures ExpiresAtOnSave(Some(ExpiresAtOnSave(expiresAt, expiryHours, now)), laterHours, later)
            == ExpiresAtOnSave(expiresAt, expiryHours, now)
    ensures expiresAt.None? ==> ExpiresAtOnSave(expiresAt, expiryHours, now) == now + expiryHours * SecondsPerHour
  {
  }

  /** The creator-chosen policy columns of a new record. */
  datatype FileSettings = FileSettings(
    passwordHash: Option<string>,
    expiryHours: int,
    maxViews: int,
    sessionDuration: int,
    requireSignin: bool,
    maxViewsPerConsumer: int,
    disableDownload: bool)

  /** A file_uploads row as a value, together with its ledger. */
  datatype FileRecord = FileRecord(
    fileSize: int,
    storageBucket: string,
    createdAt: Time,
    updatedAt: Time,
    passwordHash: Option<string>,
    expiryHours: int,
    expiresAt: Time,
    maxViews: int,
    currentViews: int,
    sessionDuration: int,
    requireSignin: bool,
    maxViewsPerConsumer: int,
    disableDownload: bool,
    isActive: bool,
    isDeleted: bool,
    deletedAt: Option<Time>,
    logs: seq<LogEntry>)
  {
    /** is_expired: strictly after expires_at. */
    predicate IsExpired(now: Time) {
      now > expiresAt
    }

    /** is_view_limit_reached. */
    predicate IsViewLimitReached() {
      currentViews >= maxViews
    }

    /** can_access. */
    predicate CanAccess(now: Time) {
      isActive && !isDeleted && !IsExpired(now) && !IsViewLimitReached()
    }

    /** get_consumer_view_count: a consumer id wins over an address; with neither the count is 0. */
    function ConsumerViewCount(consumerId: Option<UserId>, ipAddress: Option<string>): nat {
      if consumerId.Some? then ViewCount(logs, SignedIn(consumerId.value))
      else if Truthy(ipAddress) then ViewCount(logs, AnonymousAt(ipAddress.value))
      else 0
    }

    /** has_consumer_exceeded_limit: never when the limit is 0 (unlimited). */
    predicate HasConsumerExceededLimit(consumerId: Option<UserId>, ipAddress: Option<string>) {
      maxViewsPerConsumer != 0 && ConsumerViewCount(consumerId, ipAddress) >= maxViewsPerConsumer
    }
  }

  /** At expires_at itself a file is not yet expired; one second later it is. */
  lemma ExpiryIsStrict(r: FileRecord)
    ensures !r.IsExpired(r.expiresAt)
    ensures r.IsExpired(r.expiresAt + 1)
  {
  }

  /** can_access is the conjunction of its four conditions, and fails exactly when one of them fails. */
  lemma CanAccessCharacterized(r: FileRecord, now: Time)
    ensures r.CanAccess(now) <==> r.isActive && !r.isDeleted && now <= r.expiresAt && r.currentViews < r.maxViews
  {
  }

  /**
   * The keying of the per-consumer count: a consumer id makes the address
   * irrelevant, with neither the count is 0, and a limit of 0 is never exceeded.
   */
  lemma ConsumerCountKeying(r: FileRecord, id: UserId, ipAddress: Option<string>, otherAddress: Option<string>)
    ensures r.ConsumerViewCount(Some(id), ipAddress) == r.ConsumerViewCount(Some(id), otherAddress)
    ensures !Truthy(ipAddress) ==> r.ConsumerViewCount(None, ipAddress) == 0
    ensures r.maxViewsPerConsumer == 0 ==> !r.HasConsumerExceededLimit(Some(id), ipAddress)
    ensures r.maxViewsPerConsumer == 0 ==> !r.HasConsumerExceededLimit(None, ipAddress)
    ensures r.maxViewsPerConsumer != 0 ==>
              (r.HasConsumerExceededLimit(Some(id), ipAddress) <==> r.ConsumerViewCount(Some(id), None) >= r.maxViewsPerConsumer)
  {
  }

  /** Appending rows none of which passes the filter leaves every consumer's count unchanged. */
  lemma {:induction false} ConsumerCountIgnores(r: FileRecord, es: seq<LogEntry>, consumerId: Option<UserId>, ipAddress: Option<string>)
    requires forall i :: 0 <= i < |es| ==> !es[i].granted || es[i].accessMethod != View
    ensures r.(logs := r.logs + es).ConsumerViewCount(consumerId, ipAddress) == r.ConsumerViewCount(consumerId, ipAddress)
  {
    if consumerId.Some? {
      ViewCountAppend(r.logs, es, SignedIn(consumerId.value));
      ViewCountOfNonMatching(es, SignedIn(consumerId.value));
    } else if Truthy(ipAddress) {
      ViewCountAppend(r.logs, es, AnonymousAt(ipAddress.value));
      ViewCountOfNonMatching(es, AnonymousAt(ipAddress.value));
    }
  }

  /** Rows of signed-in consumers never count towards an address's anonymous views. */
  lemma {:induction false} AddressCountIgnoresSignedIn(r: FileRecord, es: seq<LogEntry>, ipAddress: Option<string>)
    requires forall i :: 0 <= i < |es| ==> es[i].consumer.Some?
    ensures r.(logs := r.logs + es).ConsumerViewCount(None, ipAddress) == r.ConsumerViewCount(None, ipAddress)
  {
    if Truthy(ipAddress) {
      ViewCountAppend(r.logs, es, AnonymousAt(ipAddress.value));
      ViewCountOfNonMatching(es, AnonymousAt(ipAddress.value));
    }
  }

  /** One more granted 'view' row of a consumer raises that consumer's count by exactly one. */
  lemma {:induction false} GrantedViewCountsOnce(r: FileRecord, e: LogEntry, id: UserId)
    requires e.granted && e.accessMethod == View && e.consumer == Some(id)
    ensures r.(logs := r.logs + [e]).ConsumerViewCount(Some(id), None) == r.ConsumerViewCount(Some(id), None) + 1
  {
    ViewCountAppend(r.logs, [e], SignedIn(id));
    assert [e][1..] == [];
  }

  /** Once a consumer has exceeded the limit, no later ledger rows lift it. */
  lemma {:induction false} ExceededLimitPersists(r: FileRecord, es: seq<LogEntry>, consumerId: Option<UserId>, ipAddress: Option<string>)
    requires r.HasConsumerExceededLimit(consumerId, ipAddress)
    ensures r.(logs := r.logs + es).HasConsumerExceededLimit(consumerId, ipAddress)
  {
    if consumerId.Some? {
      ViewCountAppend(r.logs, es, SignedIn(consumerId.value));
    } else if Truthy(ipAddress) {
      ViewCountAppend(r.logs, es, AnonymousAt(ipAddress.value));
    }
  }

  /** One file_uploads row. Identity columns that no core code changes are constants. */
  class FileUpload {
    const owner: User
    const accessToken: string
    const fileSize: int
    /** s3_bucket: 'local', 'firebase', 'r2', or a bucket name. */
    const storageBucket: string
    const createdAt: Time
    var updatedAt: Time
    var passwordHash: Option<string>
    var expiryHours: int
    var expiresAt: Time
    var maxViews: int
    var currentViews: int
    /** session_duration, in minutes. */
    var sessionDuration: int
    var requireSignin: bool
    var maxViewsPerConsumer: int
    var disableDownload: bool
    var isActive: bool
    var isDeleted: bool
    var deletedAt: Option<Time>
    var accessLogs: seq<LogEntry>

    function Record(): FileRecord
      reads this
    {
      FileRecord(fileSize, storageBucket, createdAt, updatedAt, passwordHash, expiryHours,
                 expiresAt, maxViews, currentViews, sessionDuration, requireSignin,
                 maxViewsPerConsumer, disableDownload, isActive, isDeleted, deletedAt, accessLogs)
    }

    /**
     * objects.create(...): the first save. created_at and updated_at are both `now`,
     * expires_at is defaulted by ExpiresAtOnSave, and the record starts active,
     * not deleted, unviewed and with an empty ledger.
     */
    constructor (owner: User, accessToken: string, fileSize: int, storageBucket: string,
                 settings: FileSettings, expiresAt: Option<Time>, now: Time)
      ensures this.owner == owner && this.accessToken == accessToken
      ensures Record() == FileRecord(fileSize, storageBucket, now, now, settings.passwordHash,
                                     settings.expiryHours,
                                     ExpiresAtOnSave(expiresAt, settings.expiryHours, now),
                                     settings.maxViews, 0, settings.sessionDuration,
                                     settings.requireSignin, settings.maxViewsPerConsumer,
                                     settings.disableDownload, true, false, None, [])
    {
      this.owner := owner;
      this.accessToken := accessToken;
      this.fileSize := fileSize;
      this.storageBucket := storageBucket;
      createdAt := now;
      updatedAt := now;
      passwordHash := settings.passwordHash;
      expiryHours := settings.expiryHours;
      this.expiresAt := ExpiresAtOnSave(expiresAt, settings.expiryHours, now);
      maxViews := settings.maxViews;
      currentViews := 0;
      sessionDuration := settings.sessionDuration;
      requireSignin := settings.requireSignin;
      maxViewsPerConsumer := settings.maxViewsPerConsumer;
      disableDownload := settings.disableDownload;
      isActive := true;
      isDeleted := false;
      deletedAt := None;
      accessLogs := [];
    }

    /** increment_views: one more view, saving only current_views and updated_at. */
    method IncrementViews(now: Time)
      modifies this
      ensures Record() == old(Record()).(currentViews := old(currentViews) + 1, updatedAt := now)
    {
      currentViews := currentViews + 1;
      updatedAt := now;
    }

    /** SoftDeleteModel.soft_delete. */
    method SoftDelete(now: Time)
      modifies this
      ensures Record() == old(Record()).(isDeleted := true, deletedAt := Some(now), updatedAt := now)
    {
      isDeleted := true;
      deletedAt := Some(now);
      updatedAt := now;
    }

    /** SoftDeleteModel.restore. */
    method Restore(now: Time)
      modifies this
      ensures Record() == old(Record()).(isDeleted := false, deletedAt := None, updatedAt := now)
    {
      isDeleted := false;
      deletedAt := None;
      updatedAt := now;
    }

    /** AccessLog.objects.create(file=this, ...): a new ledger row; the file row itself is not saved. */
    method AppendLog(e: LogEntry)
      modifies this
      ensures Record() == old(Record()).(logs := old(accessLogs) + [e])
    {
      accessLogs := accessLogs + [e];
    }
  }

  /** restore() after soft_delete() gives back the non-deleted state; only updated_at remembers it. */
  method SoftDeleteThenRestore(f: FileUpload, t1: Time, t2: Time)
    modifies f
    ensures f.Record() == old(f.Record()).(isDeleted := false, deletedAt := None, updatedAt := t2)
    ensures old(!f.isDeleted && f.deletedAt.None?) ==> f.Record() == old(f.Record()).(updatedAt := t2)
  {
    f.SoftDelete(t1);
    f.Restore(t2);
  }
}
