# vaultshare: a verified model of the share-link access engine

vaultshare is a Django backend for sharing files through secret links. An
owner uploads a file and sets a policy on it:
- an expiry window;
- a total view limit;
- an optional password;
- optionally, sign-in and a limit on views per consumer;
- optionally, no downloads.

Anyone with the link's access token goes through a check chain:
- `validate` runs the checks;
- `download` and `view` hand out a serve URL;
- `serve` streams the bytes.

Grants and most refusals are written to an access ledger (`AccessLog`).
Some answers write no row: an unknown token, a missing password, and
`serve`'s expiry and view-limit refusals. The view counter moves only in
`serve`. Uploads are charged to the owner's storage
quota, and deleting a file gives the bytes back. A periodic cleanup service
soft-deletes expired, used-up and old files in batches, credits their
owners and keeps statistics. A second pass notifies owners of files about
to expire.

The model is split into modules that follow the program:

| module | file | models |
|---|---|---|
| `Core` | core.dfy | time in seconds, `Option`/`Result`, Python truthiness, ASCII `lower()`, `in` on strings |
| `Settings` | settings.dfy | the VAULTSHARE constants the core reads, and the cleanup's default for `MAX_FILE_AGE_DAYS` |
| `Users` | users.dfy | the `User` row: storage quota and usage |
| `Files` | files.dfy | the `FileUpload` row as a class, its value `FileRecord`, the `AccessLog` ledger and the access policy predicates |
| `Access` | access.dfy | `get_client_ip`, `create_access_log`, `validate`, `download`, `view` |
| `Serving` | serve.dfy | `serve` |
| `Uploads` | uploads.dfy | `FileUploadViewSet.create` and `soft_delete` |
| `FileSerializers` | file_serializers.dfy | the file validators, the password handling of `create`, read-only fields, `views_remaining`, the recipient-email rule |
| `UserSerializers` | user_serializers.dfy | the registration and password-change rules, `storage_percentage` |
| `Cleanup` | cleanup.dfy | `FileCleanupService.cleanup_expired_files` and `notify_expiring_files` |

## How the model is built

Rows the code changes in place are classes:
- `FileUpload` (with its ledger as a `seq<LogEntry>` field);
- `User`.

Each state-changing operation is a method. Its `ensures` gives the new
state as a pure function of the old one. For a `FileUpload` that is the
row's value `Record()`. Examples:
- `IncrementViews` ensures `Record() == old(Record()).(currentViews := …, updatedAt := now)`.
- `Validate` appends exactly the rows `ValidateEntries(ValidateDecision(old record …))` and answers `ValidateResponse(…)`.
- `Serve` leaves the row as `AfterServe(old record, ServePlan(…))`.
- `CleanupExpiredFiles` leaves each row as `AfterCleanup(…)`, returns `StatsOf(…)`, and lowers each owner's `storage_used` by `Credit(…)`.

What the source promises is then proved as lemmas about those functions:
- first-failure-wins;
- the view bound;
- the consumer counts;
- the stats conservation laws.

The environment is a set of parameters:
- the clock (`now`);
- `check_password` and `make_password` (function parameters);
- DEBUG and STORAGE_BACKEND;
- what a storage fetch returned (`BlobFetch`);
- whether a storage upload succeeded;
- `has_active_session` (`SessionCheck`, a parameter, because it is not part of this model). It is given the whole row, the key and the clock.

In the cleanup, two things are an oracle indexed by table row:
- what the S3 delete returned;
- the point where a file's processing raises.

Whether a notification send raises is a predicate on the row index.

### Behaviour worth knowing

The model follows the code in each case:
- `validate` writes a granted `'view'` ledger row (views.py:315-321). `get_consumer_view_count` counts that row. So one viewing through `view` and then `serve` writes two granted `'view'` rows, and uses two of a consumer's views (`Serving.OneViewingUsesTwoConsumerViews`).
- The per-consumer limit is consulted only when `require_signin` is set (views.py:297-312, `Access.ConsumerLimitNeedsSignin`).
- `serve` does not re-check `is_deleted`, `is_active` or the password (`Serving.ServeIgnoresDeletionActivityAndPassword`). A soft-deleted, unexpired file is still served by a direct request with its token.
- `create_access_log` stores `failure_reason = ''` on granted rows and the given reason on refused ones (views.py:214-224).
- The screenshot row of `serve` is refused with no reason, so its `failure_reason` is NULL. The column is a `CharField` without `null=True` (models.py:177-188), so the insert raises. `serve` catches only `DoesNotExist`, so every automated-looking user agent that passes the gates gets a 500. Nothing is logged, counted or delivered (`Serving.AutomatedAgentGets500`; see Findings).
- The cleanup refunds the owner before it soft-deletes the file. When the soft delete raises, the file stays selectable and the next run refunds it again (`Cleanup.SoftDeleteFaultRefundsTwice`; see Findings).
- With `max_views_per_consumer` 1, a signed-in consumer never gets the bytes. The granted row that `validate` writes already uses up the limit, so the `serve` that follows is refused with 403 (`Serving.SingleViewLimitRefusesServe`).
- The code calls `has_active_session` but does not define it in the files modelled here. The help text of `session_duration` says refreshes within that many minutes do not count as new views. `Serving.LedgerSession` is one candidate definition of `has_active_session` along those lines. `Serving.ValidateOpensLedgerSession` shows what it would mean: under it, the row that `validate` writes already opens a session, so `serve` would never count a view after `view`.

## Model

| member | source | states |
|---|---|---|
| Users.User.constructor | backend/apps/users/models.py:18-22 | a new account uses 0 bytes and has the 5 GiB default quota; created_at and updated_at are the creation instant |
| Users.User.UpdateStorageUsed | backend/apps/users/models.py:43-46 | storage_used changes by exactly the (possibly negative) delta, the quota is untouched, updated_at is refreshed |
| Users.ChargeThenRefund | backend/apps/users/models.py:43-46 | charging a size and then refunding it restores storage_used and the quota |
| Files.ViewCountAppend | backend/apps/files/models.py:110-125 | the filtered count over a ledger is additive over concatenation |
| Files.ViewCountOfNonMatching | backend/apps/files/models.py:110-125 | rows that fail the filter (not granted, not 'view', other consumer) contribute nothing |
| Files.SaveKeepsExpiry | backend/apps/files/models.py:82-86 | save sets expires_at to now + expiry_hours only when it is unset, and a later save never overwrites it |
| Files.ExpiryIsStrict | backend/apps/files/models.py:88-90 | at expires_at itself the file is not expired; one second later it is |
| Files.CanAccessCharacterized | backend/apps/files/models.py:92-103 | can_access holds iff active, not deleted, now <= expires_at and current_views < max_views |
| Files.ConsumerCountKeying | backend/apps/files/models.py:110-133 | a consumer id takes precedence over the address; with neither the count is 0; a per-consumer limit of 0 is never exceeded, otherwise exceeded iff count >= limit |
| Files.ConsumerCountIgnores | backend/apps/files/models.py:110-125 | appending denied rows or 'download'/screenshot rows leaves every consumer's and address's count unchanged |
| Files.AddressCountIgnoresSignedIn | backend/apps/files/models.py:119-123 | rows of signed-in consumers never count towards an address's anonymous count |
| Files.GrantedViewCountsOnce | backend/apps/files/models.py:113-117 | one granted 'view' row of a consumer raises that consumer's count by exactly one |
| Files.ExceededLimitPersists | backend/apps/files/models.py:127-133 | once a consumer has exceeded the limit, no later ledger rows lift it |
| Files.FileUpload.constructor | backend/apps/files/models.py:13-86 | a new row has the given owner, token, size, bucket and policy, 0 views, active, not deleted, an empty ledger, and expires_at defaulted by save when not given |
| Files.FileUpload.IncrementViews | backend/apps/files/models.py:105-108 | current_views rises by exactly one and only updated_at changes with it |
| Files.FileUpload.SoftDelete | backend/core/models.py:31-35 | is_deleted becomes true and deleted_at the current instant; no other column changes except updated_at |
| Files.FileUpload.Restore | backend/core/models.py:37-41 | is_deleted becomes false and deleted_at None; no other column changes except updated_at |
| Files.FileUpload.AppendLog | backend/apps/files/models.py:142-188 | the ledger gains exactly the one row at its end; the file's columns are unchanged |
| Files.SoftDeleteThenRestore | backend/core/models.py:31-41 | soft_delete then restore returns the row to the non-deleted state; for a row that was not deleted only updated_at differs |
| Access.FirstField | backend/apps/files/views.py:205-212 | `split(',')[0]`: a prefix of the header with no comma, followed by a comma or the end |
| Access.FirstFieldOfChain | backend/apps/files/views.py:205-212 | for an X-Forwarded-For chain the first hop is what get_client_ip recovers |
| Access.ClientIp | backend/apps/files/views.py:205-212 | a non-empty X-Forwarded-For gives exactly its first comma-separated field (the whole header when it has no comma), otherwise REMOTE_ADDR |
| Access.AccessLogEntry | backend/apps/files/views.py:214-224 | the row records the consumer, the client address, the grant and the method; failure_reason is '' when granted and the given reason otherwise |
| Access.CreateAccessLog | backend/apps/files/views.py:214-224 | the row is stored iff it is granted or has a reason (failure_reason is NOT NULL); a stored row is appended to the ledger and nothing else changes; a refused insert changes nothing |
| Access.ValidateIsFirstFailure | backend/apps/files/views.py:244-312 | validate refuses with the first failing check in the order deleted, inactive, expired, view limit, password missing, wrong password, sign-in, consumer limit; no later check matters; it grants iff none fails |
| Access.ValidateEntries | backend/apps/files/views.py:244-322 | validate writes at most one row: none for a missing password, one denied row with the check's reason code otherwise, and on success one granted 'view' row with empty failure_reason; every row it writes can be stored |
| Access.ValidateResponse | backend/apps/files/views.py:236-322 | the status is 200 iff granted; a missing password is 401 password_required; every refusal is 401, 403 or 410 |
| Access.GrantImpliesCanAccess | backend/apps/files/views.py:244-278 | a granted validation implies can_access |
| Access.ConsumerLimitNeedsSignin | backend/apps/files/views.py:297-312 | without require_signin the per-consumer count is never consulted: grant iff can_access and the password passes |
| Access.ValidateGrantCountsTowardConsumer | backend/apps/files/views.py:314-322 | a granted validation of a signed-in consumer raises that consumer's view count by one |
| Access.ValidateDenialCountsNothing | backend/apps/files/views.py:244-312 | a refused validation changes no consumer's or address's count |
| Access.Validate | backend/apps/files/views.py:227-322 | an unknown token is 404; otherwise the answer and the ledger rows are those of the check chain on the row as found, and nothing else changes |
| Access.ValidateCredentials | backend/apps/files/views.py:280-322 | the password and sign-in half of validate, on a file that passed the first four checks: the same answer and rows as the whole chain |
| Access.DownloadFile | backend/apps/files/views.py:325-361 | a refusal of validate is returned unchanged; after a grant, disable_download is 403, otherwise a download link with expires_in 3600; the ledger gains validate's rows |
| Access.ViewFile | backend/apps/files/views.py:364-391 | a refusal of validate is returned unchanged; after a grant, a view link with expires_in 3600 |
| Serving.StorageBranch | backend/apps/files/views.py:440-595 | a storage answer that refuses is a 404 or a 500; only fetched bytes are delivered; a missing blob is 404 on every known backend |
| Serving.SessionKey | backend/apps/files/views.py:466-471 | the session key is the user id when signed in, otherwise the client address |
| Serving.ServeGates | backend/apps/files/views.py:410-427 | all four gates pass iff the file is unexpired, below max_views, and (with require_signin) the caller is signed in and under the per-consumer limit; a stopping gate is a failure that counts nothing and writes at most one refused row |
| Serving.ServePlanShape | backend/apps/files/views.py:394-598 | a view is counted only on a delivery of an unexpired file below its limit, and then iff has_active_session is false for the key; a delivery writes exactly one granted row, whose method follows ?download; nothing else is granted; every row is storable; delivery happens iff the gates pass, the agent does not look automated and the storage has the bytes; past the gates an automated agent gets a 500 with no row and no count |
| Serving.ServeKeepsViewsWithinLimit | backend/apps/files/views.py:411-471 | one serve raises current_views by at most one, and keeps current_views <= max_views when it held before |
| Serving.ServeIgnoresDeletionActivityAndPassword | backend/apps/files/views.py:394-428 | serve's answer and ledger rows do not depend on is_deleted, deleted_at, is_active or the password hash; neither does the count when has_active_session agrees on both rows |
| Serving.Serve | backend/apps/files/views.py:394-598 | an unknown token is 404; otherwise the answer, the counter and the ledger are those ServePlan gives for the row as found |
| Serving.Stream | backend/apps/files/views.py:431-595 | past the gates: an automated agent's unstorable screenshot row ends in a 500 with no change; otherwise the storage answer, then on delivery the count and the granted row |
| Serving.CountAndLog | backend/apps/files/views.py:464-476 | the counter rises by one iff has_active_session is false for the key, and exactly one granted row is appended, even on a session hit |
| Serving.HeadlessPrefixLooksAutomated | backend/apps/files/views.py:434-435 | any user agent starting with "Headless" passes the lower-cased 'headless' test |
| Serving.AutomatedAgentGets500 | backend/apps/files/views.py:434-438 | as written, the screenshot row of the user agent "HeadlessChrome" is not storable, and a file that passes the gates answers it with a 500, no row and no count |
| Serving.ScreenshotEntries | backend/apps/files/views.py:434-438 | corrected: an automated-looking user agent adds exactly one refused 'screenshot_attempt' row, with an empty reason so it can be stored; any other agent adds none |
| Serving.IntendedScreenshotDoesNotBlock | backend/apps/files/views.py:394-598 | corrected: delivery happens iff the gates pass and the storage has the bytes; every row is storable; the delivery row is the last and the only granted one; an automated agent's screenshot row comes first |
| Serving.IntendedAgreesWhenNotAutomated | backend/apps/files/views.py:394-598 | for any agent that does not look automated the corrected serve and serve as written give the same outcome |
| Serving.OneViewingUsesTwoConsumerViews | backend/apps/files/views.py:314-476 | as written, validate followed by a delivered serve uses two of a signed-in consumer's views, so with a per-consumer limit of 2 the next validate is refused |
| Serving.DeliveryCountsTowardConsumer | backend/apps/files/views.py:466-476 | a delivered, non-download serve to a signed-in consumer raises their view count by exactly one |
| Serving.SingleViewLimitRefusesServe | backend/apps/files/views.py:297-427 | with require_signin and max_views_per_consumer 1, after any granted validate of a signed-in consumer the next serve of an unexpired file below its limit is 403 consumer_limit_exceeded with one refused row |
| Serving.ValidateOpensLedgerSession | backend/apps/files/views.py:466-471 | under the candidate ledger-based session rule, serve within the window after a granted validate never counts a view |
| Uploads.UploadFieldErrors | backend/apps/files/serializers.py:12-61 | no field error iff a file of at least one byte was given, it fits MAX_FILE_SIZE and 1 <= expiry_hours <= 168; a missing file and an empty file are each reported as such |
| Uploads.UploadAcceptedIffValidFitsAndStored | backend/apps/files/views.py:43-170 | an upload is accepted iff the fields validate (a non-empty file within MAX_FILE_SIZE, expiry_hours in range), it fits the remaining quota (exactly full allowed) and the backend stored it; accepted uploads keep the account within its quota; status 400 is for invalid fields or quota |
| Uploads.QuotaOnlyCheckedOnValidInput | backend/apps/files/views.py:43-62 | field errors are reported before the quota or the backend is looked at |
| Uploads.CreateUpload | backend/apps/files/views.py:43-170 | on acceptance: 201, a fresh row owned by the caller with the hashed password and defaulted expiry, and storage_used charged with the size and still within quota; on refusal: that status and no change |
| Uploads.SoftDeleteFile | backend/apps/files/views.py:173-181 | the caller's own undeleted file is soft-deleted and its size given back; any other file is 404 with no change |
| Uploads.UploadThenDelete | backend/apps/files/views.py:163-179 | uploading a file and then deleting it leaves storage_used where it was |
| FileSerializers.ValidateFile | backend/apps/files/serializers.py:37-46 | rejects iff size > MAX_FILE_SIZE; an accepted file is returned unchanged |
| FileSerializers.ValidateExpiryHours | backend/apps/files/serializers.py:48-61 | accepts iff 1 <= hours <= 168 and returns it unchanged; the upper bound is reported first |
| FileSerializers.BoundariesAccepted | backend/apps/files/serializers.py:37-61 | exactly MAX_FILE_SIZE, 1 hour and 168 hours are accepted; one past each bound is not |
| FileSerializers.StoredPasswordHash | backend/apps/files/serializers.py:63-72 | a hash is stored iff a non-empty password is given, and it is the hash of that password |
| FileSerializers.CreateFields | backend/apps/files/serializers.py:63-72 | 'file' and 'password' never reach the row; password_hash is added iff a non-empty password was given; every other field passes through; a missing 'file' is the pop's KeyError |
| FileSerializers.WritableFieldsAreTheRest | backend/apps/files/serializers.py:12-29 | the writable fields are the declared fields less the read-only and method fields, and share none with them |
| FileSerializers.WritableInput | backend/apps/files/serializers.py:12-29 | a submitted field is kept, with its value, iff it is a declared writable field; read-only and undeclared names are dropped |
| FileSerializers.ClientCannotSetCounterTokenOrExpiry | backend/apps/files/serializers.py:12-29 | no read-only field, nor password_hash, is_active, is_deleted, user or s3_bucket, can ever be set by a client |
| FileSerializers.ViewsRemaining | backend/apps/files/serializers.py:109-110 | views_remaining is a natural number, 0 iff the view limit is reached, otherwise max_views - current_views |
| FileSerializers.ViewsRemainingAfterIncrement | backend/apps/files/serializers.py:109-110 | one more counted view takes exactly one off views_remaining while any remain |
| FileSerializers.ValidateRecipientEmail | backend/apps/files/serializers.py:138-144 | refuses iff share_method is 'email' and an empty address was submitted; an absent address is accepted whatever share_method is, because the optional field's validator does not run; otherwise the value is returned unchanged |
| UserSerializers.ValidateRegistration | backend/apps/users/serializers.py:22-27 | refuses iff password != password_confirm, otherwise returns attrs unchanged |
| UserSerializers.CreateRegistration | backend/apps/users/serializers.py:29-36 | drops password_confirm, keeps every other field, and passes email, username and password to account creation |
| UserSerializers.RegisteredPasswordIsConfirmed | backend/apps/users/serializers.py:22-36 | the password an account is created with is the one typed twice |
| UserSerializers.ValidatePasswordChange | backend/apps/users/serializers.py:80-85 | refuses iff new_password != new_password_confirm, otherwise returns attrs unchanged |
| UserSerializers.StoragePercentageOf | backend/apps/users/serializers.py:65-68 | the percentage is the integer 0 iff the quota is 0, otherwise the ratio of used to a non-zero quota |
| Cleanup.Selected | backend/apps/tasks/cleanup.py:38-42 | the selection is exactly the selectable rows (not deleted, and expired, used up or older than the age threshold), each once, in table order |
| Cleanup.Take | backend/apps/tasks/cleanup.py:43 | the `[:batch_size]` slice is a prefix of at most batch_size elements, all of them when fewer |
| Cleanup.BatchIsBoundedSelection | backend/apps/tasks/cleanup.py:38-43 | a batch holds at most batch_size selectable rows, each once and in order, and every selectable row when it is smaller than batch_size |
| Cleanup.SelectedRowsAreClassified | backend/apps/tasks/cleanup.py:56-66 | a non-deleted row is selectable iff it gets a reason; reasons follow the priority expiry > views > age |
| Cleanup.StepCounts | backend/apps/tasks/cleanup.py:56-85 | one file adds 1 to total_processed and to exactly one of deleted_from_db and failed; the S3 counters and storage_freed move only when the S3 delete succeeded, by that file's size; at most one reason counter moves |
| Cleanup.StatsConservation | backend/apps/tasks/cleanup.py:45-88 | after the loop total_processed is the batch size and equals deleted_from_db + failed, deleted_from_s3 <= total_processed, storage_freed is the size of the files S3 deleted, and the three reason counters add up to total_processed |
| Cleanup.FaultlessRunDeletesAll | backend/apps/tasks/cleanup.py:56-85 | when nothing raises every file of the batch is deleted and failed is 0 |
| Cleanup.ProcessedAt | backend/apps/tasks/cleanup.py:74-79 | a row ends soft-deleted iff it was processed without a fault; every other row is unchanged |
| Cleanup.ExpectedIsCredit | backend/apps/tasks/cleanup.py:74-75 | each owner's storage_used drops by the sizes of their credited files, their quota is unchanged, and updated_at is set iff one of them was credited |
| Cleanup.CountReason | backend/apps/tasks/cleanup.py:58-66 | the reason branches count the file once and under ReasonFor |
| Cleanup.DeleteOne | backend/apps/tasks/cleanup.py:68-85 | the try block: the S3 counters, the owner's credit and the soft delete happen up to the point where processing raises, and failed counts a raise |
| Cleanup.ProcessOne | backend/apps/tasks/cleanup.py:56-85 | one loop pass moves the stats by Step, soft-deletes a faultless file and credits its owner when the storage update ran |
| Cleanup.ProcessBatch | backend/apps/tasks/cleanup.py:56-85 | the loop leaves the stats, the rows and the owners' columns as the specification functions give them for the whole batch |
| Cleanup.CleanupExpiredFiles | backend/apps/tasks/cleanup.py:22-88 | processes the first batch_size selectable rows in order; the stats are StatsOf the batch, faultlessly processed rows are soft-deleted, every other row is unchanged, and each owner loses exactly the sizes of their credited files |
| Cleanup.SoftDeleteFaultRefundsTwice | backend/apps/tasks/cleanup.py:73-85 | as written, a selectable file whose soft_delete raises stays as it was and is refunded; the next faultless run deletes it and refunds it again, so storage_used drops by twice its size |
| Cleanup.IntendedRefundsOnce | backend/apps/tasks/cleanup.py:56-85 | corrected, with the refund and the soft delete taking effect together: over any number of runs, whatever their faults, the owner gets the size back exactly once if the row ends soft-deleted and never otherwise; a deleted row is left alone |
| Cleanup.SentAtMostSelected | backend/apps/tasks/cleanup.py:111-133 | never more notifications than selected files, and one per selected file when no send raises |
| Cleanup.NotifyExpiringFiles | backend/apps/tasks/cleanup.py:99-133 | the count is the number of active, undeleted files with now < expires_at <= now + hours whose send did not raise |

## Findings

| source | as written | input that shows it | evidently intended | confidence | as-written member | corrected member |
|---|---|---|---|---|---|---|
| backend/apps/files/views.py:434-438 | the screenshot row is logged with `reason=None`, so failure_reason is NULL; the column is NOT NULL, the insert raises, and serve (which catches only DoesNotExist) answers 500 | an unexpired file below its view limit, without require_signin, requested with User-Agent "HeadlessChrome" | log a refused 'screenshot_attempt' row and carry on serving the file | not executed | Serving.AutomatedAgentGets500 | Serving.IntendedScreenshotDoesNotBlock |
| backend/apps/tasks/cleanup.py:73-79 | `update_storage_used(-file_size)` saves the owner before `soft_delete()` runs, in the same try block and outside any transaction; when `soft_delete` raises, the refund stays and the row stays selectable | a selectable file whose soft_delete save raises in one run and succeeds in the next | refund a file's size once, when the file is actually soft-deleted | not executed | Cleanup.SoftDeleteFaultRefundsTwice | Cleanup.IntendedRefundsOnce |

`Serving.Serve` and `Serving.ServePlan` follow the code as written. `Serving.ServePlanIntended`, with `Serving.ScreenshotEntries`, is the corrected serve; `Serving.IntendedAgreesWhenNotAutomated` shows the two differ only for automated-looking agents. Likewise `Cleanup.CleanupExpiredFiles` follows the code as written, and `Cleanup.RunsAtomic` is the corrected refund over the runs that see one row.

## Left out

- Storage I/O. The Firebase, R2 and local-disk reads and writes, the S3 delete and the path generators are not modelled. They enter only as parameters: `BlobFetch`, the `stored` flag and the cleanup oracle.
- serve's HTTP response construction: Content-Disposition, the anti-screenshot and CSP headers, and streaming the bytes. None of it affects the counter or the ledger.
- Email: `send_file_expiring_notification` is reduced to "raises or not", and `hours_remaining` (a float) is not computed. The `send_access_notification` call after each delivery of `serve` (views.py:529-531, 580-582) is left out: its task catches every exception (notifications/tasks.py:19-25), so it changes neither the answer nor the row.
- Password hashing: `check_password` and `make_password` are uninterpreted function parameters.
- `has_active_session` and `get_session_grouped_logs` are called by the code but are not part of this model. `has_active_session` is a parameter over the whole row, the key and the clock, and `LedgerSession` is one candidate for it. The `access_logs` endpoint that uses `get_session_grouped_logs` is not modelled.
- `get_queryset` (the owner's non-deleted files) is not a separate member. `SoftDeleteFile` states its effect: another user's file, or a deleted one, is a 404.
- Concurrency: `increment_views` and `update_storage_used` are unlocked read-modify-writes. The model is sequential and claims nothing about races.
- Database ordering: the cleanup table is taken in query order, which is `-created_at` in the code. The order is not derived from timestamps.
- Float arithmetic: `get_time_remaining`, the non-zero case of `get_storage_percentage`, and `format_file_size`.
- Unicode: `lower()` is modelled on ASCII letters only.
- File hashing and DRF parsing:
  - `file_hash` (SHA-256) and the content type are not modelled.
  - DRF's request parsing and field-level type coercion are not modelled.
  - Required fields are not modelled, except the file field, which shows up as `FileRequired`.
- The unreachable `if not uploaded_file` branch of `create` (views.py:49-54) is covered by `FileRequired` in the serializer's errors.
- Local-storage file naming and directory creation in `create` are not modelled.
- Exceptions that the code does not catch, other than the screenshot row's NOT NULL violation: for example a storage error in the local backend of `create`, or a `check_password` failure.
- The `ip_address` column is a NOT NULL `GenericIPAddressField`. The model assumes the client address is present and well formed, so a row's insert fails only for a NULL `failure_reason`. A request with neither X-Forwarded-For nor REMOTE_ADDR, or with a malformed first hop, would make the insert raise as well.
- `cleanup_orphaned_s3_files` is an empty placeholder.
- `FileShareSerializer` field checks other than `validate_recipient_email` are not modelled: the EmailField's address format, and DRF's refusal of a JSON null for `recipient_email` ("may not be null"). In the model `None` means the field was not submitted.
- `run_cleanup` only constructs the service and calls the two passes.
- Three VAULTSHARE settings are left out because the modelled code never reads them: MAX_UPLOAD_SIZE, DEFAULT_EXPIRY_HOURS and DEFAULT_MAX_VIEWS.
- Users.User.UpdateStorageUsed: does not model the BigIntegerField's 64-bit bound, because quotas of a few GiB are far from it.
- Cleanup.NotifyExpiringFiles: counts the sends and leaves out making them, because sending is email I/O.
