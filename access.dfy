/**
 * The public access endpoints of FileAccessViewSet (apps/files/views.py):
 * the client address, the ledger writer, and validate / download / view.
 *
 * An endpoint receives the FileUpload found by access token (null when no
 * row has that token) and the request; the clock and the password checker
 * (check_password) are parameters.
 */
module Access {
  import opened Core
  import opened Users
  import opened Files

  /** What the access endpoints read from an HTTP request. */
  datatype Request = Request(
    user: Option<UserId>,           // request.user.id when authenticated
    forwardedFor: Option<string>,   // META['HTTP_X_FORWARDED_FOR']
    remoteAddr: Option<string>,     // META['REMOTE_ADDR']
    userAgent: Option<string>,      // META['HTTP_USER_AGENT']
    password: string,               // validated_data.get('password', '')
    downloadParam: Option<string>)  // GET['download']

  /** check_password(plain, hash), left uninterpreted. */
  type PasswordCheck = (string, string) -> bool

  // ---------------------------------------------------------------- responses

  datatype ErrorKind =
    | InvalidToken | FileDeleted | FileNotActive | FileExpired | ViewLimitReached
    | PasswordRequired | InvalidPassword | MustSignIn | ConsumerLimitExceeded
    | DownloadDisabled | FileNotFound | StorageFailure | StorageMisconfigured
    | UnhandledError  // an exception the view does not catch: the project's exception handler answers 500

  datatype LinkKind = DownloadLink | ViewLink

  datatype Response =
    | Failure(status: int, error: ErrorKind)
    | Validated(passwordRequired: bool)          // 200 with the file details
    | LinkIssued(link: LinkKind, expiresIn: int) // 200 with a serve URL
    | Delivered(attachment: bool)                // the file's bytes
  {
    function StatusCode(): int {
      if Failure? then status else 200
    }
  }

  /** Lifetime, in seconds, that download and view announce for the URL they return. */
  const LinkLifetime: int := 3600

  // ------------------------------------------------------------ get_client_ip

  /** `s.split(',')[0]`: everything before the first comma (no whitespace is stripped). */
  function FirstField(s: string): (r: string)
    ensures |r| <= |s| && r == s[..|r|]
    ensures ',' !in r
    ensures |r| < |s| ==> s[|r|] == ','
  {
    if s == [] || s[0] == ',' then [] else [s[0]] + FirstField(s[1..])
  }

  /** The address a proxy chain puts first is the one recovered. */
  lemma {:induction false} FirstFieldOfChain(client: string, rest: string)
    requires ',' !in client
    ensures FirstField(client + "," + rest) == client
  {
    if client != [] {
      assert (client + "," + rest)[1..] == client[1..] + "," + rest;
      FirstFieldOfChain(client[1..], rest);
    } else {
      assert (client + "," + rest)[0] == ',';
    }
  }

  /** get_client_ip: the first field of X-Forwarded-For when that header is non-empty, else REMOTE_ADDR. */
  function ClientIp(req: Request): (ip: Option<string>)
    ensures Truthy(req.forwardedFor) ==> ip == Some(FirstField(req.forwardedFor.value))
    ensures Truthy(req.forwardedFor) ==>
              ip.Some? && ',' !in ip.value && StartsWith(req.forwardedFor.value, ip.value)
    ensures Truthy(req.forwardedFor) && ',' !in req.forwardedFor.value ==> ip == req.forwardedFor
    ensures !Truthy(req.forwardedFor) ==> ip == req.remoteAddr
  {
    if Truthy(req.forwardedFor) then
      var header := req.forwardedFor.value;
      var first := FirstField(header);
      assert |first| < |header| ==> header[|first|] in header;
      assert ',' !in header ==> first == header[..|header|] == header;
      Some(first)
    else req.remoteAddr
  }

  // -------------------------------------------------------- create_access_log

  /** The AccessLog row create_access_log writes; failure_reason is '' whenever access was granted. */
  function AccessLogEntry(req: Request, granted: bool, accessMethod: AccessMethod,
                          reason: Option<string>, consumer: Option<UserId>, now: Time): (e: LogEntry)
    ensures e.granted == granted && e.accessMethod == accessMethod && e.consumer == consumer
    ensures e.ipAddress == ClientIp(req) && e.createdAt == now
    ensures e.failureReason == if granted then Some("") else reason
  {
    LogEntry(consumer, ClientIp(req), req.userAgent.GetOr(""), granted, accessMethod,
             if !granted then reason else Some(""), now)
  }

  /**
   * create_access_log: inserts that row into the file's ledger and changes
   * nothing else. When the row is not insertable (a refusal without a
   * reason) the insert raises instead, `inserted` is false and nothing is written.
   */
  method CreateAccessLog(f: FileUpload, req: Request, granted: bool, accessMethod: AccessMethod,
                         reason: Option<string>, consumer: Option<UserId>, now: Time) returns (inserted: bool)
    modifies f
    ensures inserted <==> granted || reason.Some?
    ensures inserted ==>
              f.Record() == old(f.Record()).(logs := old(f.accessLogs) + [AccessLogEntry(req, granted, accessMethod, reason, consumer, now)])
    ensures !inserted ==> f.Record() == old(f.Record())
  {
    var e := AccessLogEntry(req, granted, accessMethod, reason, consumer, now);
    inserted := Insertable(e);
    if inserted {
      f.AppendLog(e);
    }
  }

  // ----------------------------------------------------------------- validate

  /** The refusals of validate, named after the check that produces them. */
  datatype Denial =
    | Deleted | Inactive | Expired | ViewLimit
    | PasswordMissing | WrongPassword | SigninRequired | ConsumerLimit

  datatype Decision = Granted | Denied(denial: Denial)

  /** The order in which validate runs its checks. */
  const CheckOrder: seq<Denial> :=
    [Deleted, Inactive, Expired, ViewLimit, PasswordMissing, WrongPassword, SigninRequired, ConsumerLimit]

  /** Whether check `k`, looked at on its own, refuses the request. */
  predicate Fails(k: Denial, r: FileRecord, req: Request, now: Time, verify: PasswordCheck) {
    match k
    case Deleted => r.isDeleted
    case Inactive => !r.isActive
    case Expired => r.IsExpired(now)
    case ViewLimit => r.IsViewLimitReached()
    case PasswordMissing => Truthy(r.passwordHash) && req.password == ""
    case WrongPassword => Truthy(r.passwordHash) && req.password != "" && !verify(req.password, r.passwordHash.value)
    case SigninRequired => r.requireSignin && req.user.None?
    case ConsumerLimit => r.requireSignin && req.user.Some? && r.HasConsumerExceededLimit(req.user, None)
  }

  /** The check chain of validate, in source order. */
  function ValidateDecision(r: FileRecord, req: Request, now: Time, verify: PasswordCheck): Decision {
    if r.isDeleted then Denied(Deleted)
    else if !r.isActive then Denied(Inactive)
    else if r.IsExpired(now) then Denied(Expired)
    else if r.IsViewLimitReached() then Denied(ViewLimit)
    else if Truthy(r.passwordHash) && req.password == "" then Denied(PasswordMissing)
    else if Truthy(r.passwordHash) && !verify(req.password, r.passwordHash.value) then Denied(WrongPassword)
    else if r.requireSignin && req.user.None? then Denied(SigninRequired)
    else if r.requireSignin && r.HasConsumerExceededLimit(req.user, None) then Denied(ConsumerLimit)
    else Granted
  }

  /**
   * First failure wins: validate refuses with the first check of CheckOrder
   * that fails (no later check matters), and grants exactly when none fails.
   */
  lemma ValidateIsFirstFailure(r: FileRecord, req: Request, now: Time, verify: PasswordCheck)
    ensures var d := ValidateDecision(r, req, now, verify);
            d == Granted <==> forall i :: 0 <= i < |CheckOrder| ==> !Fails(CheckOrder[i], r, req, now, verify)
    ensures var d := ValidateDecision(r, req, now, verify);
            forall i :: 0 <= i < |CheckOrder| ==>
              (d == Denied(CheckOrder[i]) <==>
                 Fails(CheckOrder[i], r, req, now, verify) &&
                 forall j :: 0 <= j < i ==> !Fails(CheckOrder[j], r, req, now, verify))
  {
    assert CheckOrder[0] == Deleted && CheckOrder[1] == Inactive && CheckOrder[2] == Expired;
    assert CheckOrder[3] == ViewLimit && CheckOrder[4] == PasswordMissing && CheckOrder[5] == WrongPassword;
    assert CheckOrder[6] == SigninRequired && CheckOrder[7] == ConsumerLimit;
  }

  /** failure_reason written for each logged refusal. */
  function ReasonCode(k: Denial): string
    requires k != PasswordMissing
  {
    match k
    case Deleted => "deleted"
    case Inactive => "inactive"
    case Expired => "expired"
    case ViewLimit => "view_limit"
    case WrongPassword => "wrong_password"
    case SigninRequired => "signin_required"
    case ConsumerLimit => "consumer_limit_exceeded"
  }

  /**
   * The ledger rows one validate call writes: one granted 'view' row on success,
   * nothing when the password is missing, one refused row otherwise.
   */
  function ValidateEntries(d: Decision, req: Request, now: Time): (es: seq<LogEntry>)
    ensures |es| <= 1
    ensures es == [] <==> d == Denied(PasswordMissing)
    ensures forall i :: 0 <= i < |es| ==>
              es[i].consumer == req.user && es[i].ipAddress == ClientIp(req) && es[i].createdAt == now &&
              es[i].granted == d.Granted? && es[i].accessMethod == View
    ensures forall i :: 0 <= i < |es| ==> Insertable(es[i])
    ensures d == Granted ==> es[0].failureReason == Some("")
    ensures d.Denied? && d.denial != PasswordMissing ==> es[0].failureReason == Some(ReasonCode(d.denial))
  {
    match d
    case Granted => [AccessLogEntry(req, true, View, None, req.user, now)]
    case Denied(k) =>
      if k == PasswordMissing then []
      else [AccessLogEntry(req, false, View, Some(ReasonCode(k)), req.user, now)]
  }

  /** The HTTP answer of validate for each decision. */
  function ValidateResponse(r: FileRecord, d: Decision): (resp: Response)
    ensures resp.StatusCode() == 200 <==> d == Granted
    ensures d == Granted ==> resp == Validated(Truthy(r.passwordHash))
    ensures d == Denied(PasswordMissing) ==> resp == Failure(401, PasswordRequired)
    ensures d.Denied? ==> resp.Failure? && resp.status in {401, 403, 410}
  {
    match d
    case Granted => Validated(Truthy(r.passwordHash))
    case Denied(Deleted) => Failure(410, FileDeleted)
    case Denied(Inactive) => Failure(403, FileNotActive)
    case Denied(Expired) => Failure(410, FileExpired)
    case Denied(ViewLimit) => Failure(403, ViewLimitReached)
    case Denied(PasswordMissing) => Failure(401, PasswordRequired)
    case Denied(WrongPassword) => Failure(401, InvalidPassword)
    case Denied(SigninRequired) => Failure(401, MustSignIn)
    case Denied(ConsumerLimit) => Failure(403, ConsumerLimitExceeded)
  }

  /** A granted validation implies can_access. */
  lemma GrantImpliesCanAccess(r: FileRecord, req: Request, now: Time, verify: PasswordCheck)
    requires ValidateDecision(r, req, now, verify) == Granted
    ensures r.CanAccess(now)
  {
  }

  /**
   * Without require_signin the per-consumer limit is never consulted: a file
   * that is accessible and whose password passes is granted whatever the
   * consumer's count.
   */
  lemma ConsumerLimitNeedsSignin(r: FileRecord, req: Request, now: Time, verify: PasswordCheck)
    requires !r.requireSignin
    ensures ValidateDecision(r, req, now, verify) == Granted <==>
              r.CanAccess(now) && !Fails(PasswordMissing, r, req, now, verify) && !Fails(WrongPassword, r, req, now, verify)
  {
  }

  /**
   * A granted validation by a signed-in consumer is itself a granted 'view'
   * row, so it raises that consumer's per-consumer count by one.
   */
  lemma {:induction false} ValidateGrantCountsTowardConsumer(r: FileRecord, req: Request, now: Time, verify: PasswordCheck)
    requires req.user.Some?
    requires ValidateDecision(r, req, now, verify) == Granted
    ensures r.(logs := r.logs + ValidateEntries(Granted, req, now)).ConsumerViewCount(req.user, None)
            == r.ConsumerViewCount(req.user, None) + 1
  {
    var es := ValidateEntries(Granted, req, now);
    GrantedViewCountsOnce(r, es[0], req.user.value);
    assert es == [es[0]];
  }

  /** A refused validation never changes anyone's per-consumer count. */
  lemma {:induction false} ValidateDenialCountsNothing(r: FileRecord, req: Request, now: Time, verify: PasswordCheck,
                                                       consumerId: Option<UserId>, ipAddress: Option<string>)
    requires ValidateDecision(r, req, now, verify).Denied?
    ensures var es := ValidateEntries(ValidateDecision(r, req, now, verify), req, now);
            r.(logs := r.logs + es).ConsumerViewCount(consumerId, ipAddress) == r.ConsumerViewCount(consumerId, ipAddress)
  {
    var es := ValidateEntries(ValidateDecision(r, req, now, verify), req, now);
    ConsumerCountIgnores(r, es, consumerId, ipAddress);
  }

  /**
   * validate: runs the check chain against the row as it was, appends the
   * rows ValidateEntries names, and answers with ValidateResponse. Nothing
   * but the ledger changes; in particular current_views does not.
   */
  method Validate(f: FileUpload?, req: Request, now: Time, verify: PasswordCheck) returns (resp: Response)
    modifies f
    ensures f == null ==> resp == Failure(404, InvalidToken)
    ensures f != null ==>
              var d := ValidateDecision(old(f.Record()), req, now, verify);
              resp == ValidateResponse(old(f.Record()), d) &&
              f.Record() == old(f.Record()).(logs := old(f.accessLogs) + ValidateEntries(d, req, now))
  {
    if f == null {
      return Failure(404, InvalidToken);
    }
    if f.isDeleted {
      var logged := CreateAccessLog(f, req, false, View, Some("deleted"), req.user, now);
      return Failure(410, FileDeleted);
    }
    if !f.isActive {
      var logged := CreateAccessLog(f, req, false, View, Some("inactive"), req.user, now);
      return Failure(403, FileNotActive);
    }
    if now > f.expiresAt {
      var logged := CreateAccessLog(f, req, false, View, Some("expired"), req.user, now);
      return Failure(410, FileExpired);
    }
    if f.currentViews >= f.maxViews {
      var logged := CreateAccessLog(f, req, false, View, Some("view_limit"), req.user, now);
      return Failure(403, ViewLimitReached);
    }
    resp := ValidateCredentials(f, req, now, verify);
  }

  /** The second half of validate, once the file itself is servable: the password and the sign-in checks. */
  method ValidateCredentials(f: FileUpload, req: Request, now: Time, verify: PasswordCheck) returns (resp: Response)
    requires !f.isDeleted && f.isActive && !f.Record().IsExpired(now) && !f.Record().IsViewLimitReached()
    modifies f
    ensures var d := ValidateDecision(old(f.Record()), req, now, verify);
            resp == ValidateResponse(old(f.Record()), d) &&
            f.Record() == old(f.Record()).(logs := old(f.accessLogs) + ValidateEntries(d, req, now))
  {
    if Truthy(f.passwordHash) {
      if req.password == "" {
        return Failure(401, PasswordRequired);
      }
      if !verify(req.password, f.passwordHash.value) {
        var logged := CreateAccessLog(f, req, false, View, Some("wrong_password"), req.user, now);
        return Failure(401, InvalidPassword);
      }
    }
    if f.requireSignin {
      if req.user.None? {
        var logged := CreateAccessLog(f, req, false, View, Some("signin_required"), req.user, now);
        return Failure(401, MustSignIn);
      }
      if f.Record().HasConsumerExceededLimit(req.user, None) {
        var logged := CreateAccessLog(f, req, false, View, Some("consumer_limit_exceeded"), req.user, now);
        return Failure(403, ConsumerLimitExceeded);
      }
    }
    var logged := CreateAccessLog(f, req, true, View, None, req.user, now);
    resp := Validated(Truthy(f.passwordHash));
  }

  /**
   * download: any refusal of validate is returned as it is; after a granted
   * validation, disable_download answers 403, otherwise a serve URL with
   * expires_in 3600 is issued. The ledger gains validate's rows either way.
   */
  method DownloadFile(f: FileUpload?, req: Request, now: Time, verify: PasswordCheck) returns (resp: Response)
    modifies f
    ensures f == null ==> resp == Failure(404, InvalidToken)
    ensures f != null ==>
              var d := ValidateDecision(old(f.Record()), req, now, verify);
              && f.Record() == old(f.Record()).(logs := old(f.accessLogs) + ValidateEntries(d, req, now))
              && (d.Denied? ==> resp == ValidateResponse(old(f.Record()), d))
              && (d == Granted && old(f.disableDownload) ==> resp == Failure(403, DownloadDisabled))
              && (d == Granted && !old(f.disableDownload) ==> resp == LinkIssued(DownloadLink, LinkLifetime))
  {
    var validation := Validate(f, req, now, verify);
    if validation.StatusCode() != 200 {
      return validation;
    }
    if f.disableDownload {
      return Failure(403, DownloadDisabled);
    }
    resp := LinkIssued(DownloadLink, LinkLifetime);
  }

  /** view: like download, without the disable_download check. */
  method ViewFile(f: FileUpload?, req: Request, now: Time, verify: PasswordCheck) returns (resp: Response)
    modifies f
    ensures f == null ==> resp == Failure(404, InvalidToken)
    ensures f != null ==>
              var d := ValidateDecision(old(f.Record()), req, now, verify);
              && f.Record() == old(f.Record()).(logs := old(f.accessLogs) + ValidateEntries(d, req, now))
              && (d.Denied? ==> resp == ValidateResponse(old(f.Record()), d))
              && (d == Granted ==> resp == LinkIssued(ViewLink, LinkLifetime))
  {
    var validation := Validate(f, req, now, verify);
    if validation.StatusCode() != 200 {
      return validation;
    }
    resp := LinkIssued(ViewLink, LinkLifetime);
  }
}
