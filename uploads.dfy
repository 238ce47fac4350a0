/**
 * FileUploadViewSet (apps/files/views.py): the upload endpoint, with its
 * serializer validation, quota gate and storage-backend choice, and the
 * soft_delete action that hands the bytes back to the owner's quota.
 *
 * Storing the bytes is reduced to whether the Firebase or R2 upload succeeded.
 */
module Uploads {
  import opened Core
  import opened Settings
  import opened Users
  import opened Files
  import opened FileSerializers

  /** The errors of serializer.is_valid for the upload's file and expiry_hours fields. */
  function UploadFieldErrors(fileSize: Option<nat>, expiryHours: int): (errs: set<FieldError>)
    ensures errs == {} <==> fileSize.Some? && 0 < fileSize.value <= MaxFileSize && 1 <= expiryHours <= MaxExpiryHours
    ensures FileRequired in errs <==> fileSize.None?
    ensures EmptyFile in errs <==> fileSize == Some(0)
  {
    (if fileSize.None? then {FileRequired}
     else if fileSize.value == 0 then {EmptyFile}
     else if ValidateFile(fileSize.value).Err? then {ValidateFile(fileSize.value).error} else {})
    + (if ValidateExpiryHours(expiryHours).Err? then {ValidateExpiryHours(expiryHours).error} else {})
  }

  datatype UploadProblem = InvalidFields(errors: set<FieldError>) | InsufficientQuota | StoreFailed | UnknownBackend

  /** Where the upload goes (by s3_bucket name), or why it is refused, with the status. */
  datatype UploadAnswer = Accepted(bucket: string) | Refused(status: int, problem: UploadProblem)

  /**
   * create's decision: serializer validation, then the quota, then the
   * backend (local under DEBUG or STORAGE_BACKEND 'local', Firebase and R2
   * by whether their upload succeeded, and any other name refused).
   */
  function UploadDecision(fileSize: Option<nat>, expiryHours: int, storageUsed: int, storageQuota: int,
                          debug: bool, storageBackend: string, stored: bool): UploadAnswer
  {
    var errs := UploadFieldErrors(fileSize, expiryHours);
    if errs != {} then Refused(400, InvalidFields(errs))
    else if storageUsed + fileSize.value > storageQuota then Refused(400, InsufficientQuota)
    else if debug || storageBackend == "local" then Accepted("local")
    else if storageBackend in {"firebase", "r2"} then
      (if stored then Accepted(storageBackend) else Refused(500, StoreFailed))
    else Refused(500, UnknownBackend)
  }

  /**
   * An upload is accepted exactly when both fields validate, the file fits the
   * remaining quota (filling it exactly is allowed) and the backend stored it;
   * so after the charge the account is still within its quota.
   */
  lemma UploadAcceptedIffValidFitsAndStored(fileSize: Option<nat>, expiryHours: int, storageUsed: int, storageQuota: int,
                                            debug: bool, storageBackend: string, stored: bool)
    ensures var d := UploadDecision(fileSize, expiryHours, storageUsed, storageQuota, debug, storageBackend, stored);
            d.Accepted? <==>
              && fileSize.Some? && 0 < fileSize.value <= MaxFileSize
              && 1 <= expiryHours <= MaxExpiryHours
              && storageUsed + fileSize.value <= storageQuota
              && (debug || storageBackend == "local" || (storageBackend in {"firebase", "r2"} && stored))
    ensures var d := UploadDecision(fileSize, expiryHours, storageUsed, storageQuota, debug, storageBackend, stored);
            d.Accepted? ==> storageUsed + fileSize.value <= storageQuota
                            && d.bucket == (if debug || storageBackend == "local" then "local" else storageBackend)
    ensures var d := UploadDecision(fileSize, expiryHours, storageUsed, storageQuota, debug, storageBackend, stored);
            d.Refused? ==> (d.status == 400 <==> d.problem.InvalidFields? || d.problem.InsufficientQuota?)
  {
  }

  /** Invalid fields are reported before the quota or the backend is looked at. */
  lemma QuotaOnlyCheckedOnValidInput(fileSize: Option<nat>, expiryHours: int, storageUsed: int, storageQuota: int,
                                     debug: bool, storageBackend: string, stored: bool)
    requires UploadFieldErrors(fileSize, expiryHours) != {}
    ensures UploadDecision(fileSize, expiryHours, storageUsed, storageQuota, debug, storageBackend, stored)
            == Refused(400, InvalidFields(UploadFieldErrors(fileSize, expiryHours)))
  {
  }

  /**
   * FileUploadViewSet.create: on acceptance a fresh record owned by the
   * caller, with the password hashed by the serializer and expires_at
   * defaulted, and the caller's storage_used charged with the file's size;
   * on refusal nothing changes.
   */
  method CreateUpload(user: User, fileSize: Option<nat>, settings: FileSettings, password: Option<string>,
                      hasher: PasswordHasher, accessToken: string, debug: bool, storageBackend: string,
                      stored: bool, now: Time)
    returns (status: int, upload: FileUpload?)
    modifies user
    ensures var d := UploadDecision(fileSize, settings.expiryHours, old(user.storageUsed), old(user.storageQuota),
                                    debug, storageBackend, stored);
            && (d.Refused? ==> status == d.status && upload == null
                               && user.storageUsed == old(user.storageUsed) && user.updatedAt == old(user.updatedAt))
            && (d.Accepted? ==>
                  && status == 201 && upload != null && fresh(upload) && upload.owner == user
                  && upload.accessToken == accessToken
                  && upload.Record() == FileRecord(fileSize.value, d.bucket, now, now,
                                                   StoredPasswordHash(password, hasher), settings.expiryHours,
                                                   now + settings.expiryHours * SecondsPerHour,
                                                   settings.maxViews, 0, settings.sessionDuration,
                                                   settings.requireSignin, settings.maxViewsPerConsumer,
                                                   settings.disableDownload, true, false, None, [])
                  && user.storageUsed == old(user.storageUsed) + fileSize.value
                  && user.storageUsed <= user.storageQuota
                  && user.updatedAt == now)
    ensures user.storageQuota == old(user.storageQuota)
  {
    var errs := UploadFieldErrors(fileSize, settings.expiryHours);
    if errs != {} {
      return 400, null;
    }
    var size := fileSize.value;
    if !user.HasStorageAvailable(size) {
      return 400, null;
    }
    var bucket: string;
    if debug || storageBackend == "local" {
      bucket := "local";
    } else if storageBackend == "firebase" || storageBackend == "r2" {
      if !stored {
        return 500, null;
      }
      bucket := storageBackend;
    } else {
      return 500, null;
    }
    upload := new FileUpload(user, accessToken, size, bucket,
                             settings.(passwordHash := StoredPasswordHash(password, hasher)), None, now);
    user.UpdateStorageUsed(size, now);
    status := 201;
  }

  /**
   * FileUploadViewSet.soft_delete: the caller's own, not yet deleted file is
   * soft-deleted and its size given back to the caller's storage_used; any
   * other file is a 404 and nothing changes.
   */
  method SoftDeleteFile(f: FileUpload, requester: User, now: Time) returns (status: int)
    modifies f, requester
    ensures var visible := f.owner == requester && !old(f.isDeleted);
            && (!visible ==> status == 404 && f.Record() == old(f.Record())
                             && requester.storageUsed == old(requester.storageUsed)
                             && requester.updatedAt == old(requester.updatedAt))
            && (visible ==> status == 200
                            && f.Record() == old(f.Record()).(isDeleted := true, deletedAt := Some(now), updatedAt := now)
                            && requester.storageUsed == old(requester.storageUsed) - f.fileSize
                            && requester.updatedAt == now)
    ensures requester.storageQuota == old(requester.storageQuota)
  {
    if f.owner != requester || f.isDeleted {
      return 404;
    }
    f.SoftDelete(now);
    requester.UpdateStorageUsed(-f.fileSize, now);
    status := 200;
  }

  /** Uploading a file and then deleting it leaves the account's storage_used where it was. */
  method UploadThenDelete(user: User, fileSize: Option<nat>, settings: FileSettings, password: Option<string>,
                          hasher: PasswordHasher, accessToken: string, debug: bool, storageBackend: string,
                          stored: bool, t1: Time, t2: Time)
    returns (uploaded: int, deleted: int)
    modifies user
    ensures uploaded == 201 ==> deleted == 200
    ensures user.storageUsed == old(user.storageUsed) && user.storageQuota == old(user.storageQuota)
  {
    var upload: FileUpload?;
    uploaded, upload := CreateUpload(user, fileSize, settings, password, hasher, accessToken, debug,
                                     storageBackend, stored, t1);
    deleted := 404;
    if upload != null {
      deleted := SoftDeleteFile(upload, user, t2);
    }
  }
}
