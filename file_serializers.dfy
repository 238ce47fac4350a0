/**
 * The field rules of the file serializers (apps/files/serializers.py):
 * the size and expiry validators, the password handling of
 * FileUploadSerializer.create, the read-only fields, views_remaining and the
 * recipient-email rule of FileShareSerializer.
 */
module FileSerializers {
  import opened Core
  import opened Settings
  import opened Files

  /**
   * A validation error, named after the rule that raised it. FileRequired and
   * EmptyFile come from the declared file field itself: it is required, and a
   * FileField refuses a file of no bytes unless allow_empty_file is set, which
   * it is not here.
   */
  datatype FieldError = FileRequired | EmptyFile | FileTooLarge | ExpiryTooLong | ExpiryTooShort | RecipientEmailRequired

  /** validate_file: a file may be as large as MAX_FILE_SIZE and no larger; the file is returned as given. */
  function ValidateFile(size: int): (r: Result<int, FieldError>)
    ensures r.Ok? <==> size <= MaxFileSize
    ensures r.Ok? ==> r.value == size
    ensures r.Err? ==> r.error == FileTooLarge
  {
    if size > MaxFileSize then Err(FileTooLarge) else Ok(size)
  }

  /**
   * validate_expiry_hours: the upper bound is tested first, then the lower
   * one; an accepted value comes back unchanged.
   */
  function ValidateExpiryHours(hours: int): (r: Result<int, FieldError>)
    ensures r.Ok? <==> 1 <= hours <= MaxExpiryHours
    ensures r.Ok? ==> r.value == hours
    ensures r.Err? ==> r.error == (if hours > MaxExpiryHours then ExpiryTooLong else ExpiryTooShort)
  {
    if hours > MaxExpiryHours then Err(ExpiryTooLong)
    else if hours < 1 then Err(ExpiryTooShort)
    else Ok(hours)
  }

  /** Both upload validators accept the boundary values themselves. */
  lemma BoundariesAccepted()
    ensures ValidateFile(MaxFileSize) == Ok(MaxFileSize) && ValidateFile(MaxFileSize + 1).Err?
    ensures ValidateExpiryHours(1) == Ok(1) && ValidateExpiryHours(MaxExpiryHours) == Ok(MaxExpiryHours)
    ensures ValidateExpiryHours(0).Err? && ValidateExpiryHours(MaxExpiryHours + 1).Err?
  {
  }

  /** make_password, left uninterpreted. */
  type PasswordHasher = string -> string

  /** A value of validated_data: a text field, the uploaded file (by its size), a number or a flag. */
  datatype FieldValue = Text(text: string) | UploadedFile(size: nat) | Number(n: int) | Flag(b: bool)

  /** What create stores as password_hash for the submitted password: a hash of a non-empty one, else nothing. */
  function StoredPasswordHash(password: Option<string>, hasher: PasswordHasher): (h: Option<string>)
    ensures h.Some? <==> Truthy(password)
    ensures h.Some? ==> h.value == hasher(password.value)
  {
    if Truthy(password) then Some(hasher(password.value)) else None
  }

  /**
   * FileUploadSerializer.create, on the validated_data dict: pops 'password',
   * stores 'password_hash' for a non-empty one, pops 'file' (a KeyError when
   * it is absent) and returns the fields the row is created from.
   */
  method CreateFields(validatedData: map<string, FieldValue>, hasher: PasswordHasher)
    returns (r: Result<map<string, FieldValue>, string>)
    // the KeyError of `pop('file')`
    ensures r.Err? <==> "file" !in validatedData
    ensures r.Ok? ==> "file" !in r.value && "password" !in r.value
    // a hash is stored exactly when a non-empty text password was submitted
    ensures r.Ok? && "password_hash" !in validatedData ==>
              ("password_hash" in r.value <==>
                 "password" in validatedData && validatedData["password"].Text? && validatedData["password"].text != "")
    ensures r.Ok? && "password" in validatedData && validatedData["password"].Text? && validatedData["password"].text != "" ==>
              "password_hash" in r.value && r.value["password_hash"] == Text(hasher(validatedData["password"].text))
    // every other field passes through untouched
    ensures r.Ok? ==> forall k :: k in validatedData && k !in {"file", "password", "password_hash"} ==>
                                    k in r.value && r.value[k] == validatedData[k]
    ensures r.Ok? ==> forall k :: k in r.value ==> k in validatedData || k == "password_hash"
  {
    var data := validatedData;
    var password: Option<FieldValue> := None;
    if "password" in data {
      password := Some(data["password"]);
      data := data - {"password"};
    }
    if password.Some? && password.value.Text? && password.value.text != "" {
      data := data["password_hash" := Text(hasher(password.value.text))];
    }
    if "file" !in data {
      return Err("file");
    }
    data := data - {"file"};
    r := Ok(data);
  }

  /** Meta.fields of FileUploadSerializer: every field it declares. */
  const DeclaredFields: set<string> :=
    {"id", "file", "filename", "original_filename", "file_size", "file_size_formatted", "content_type",
     "access_token", "expiry_hours", "expires_at", "max_views", "current_views", "session_duration",
     "disable_download", "require_signin", "max_views_per_consumer", "password", "access_url", "created_at"}

  /** Meta.read_only_fields: the model fields a client may not set. */
  const ReadOnlyFields: set<string> :=
    {"id", "filename", "original_filename", "file_size", "content_type", "access_token",
     "expires_at", "current_views", "created_at"}

  /** The two SerializerMethodFields, which are read-only too. */
  const MethodFields: set<string> := {"file_size_formatted", "access_url"}

  /** The fields input can set: the file, the password (both write-only) and the share settings. */
  const WritableFields: set<string> :=
    {"file", "expiry_hours", "max_views", "session_duration", "disable_download", "require_signin",
     "max_views_per_consumer", "password"}

  /** The writable fields are exactly the declared ones that are neither read-only nor method fields. */
  lemma WritableFieldsAreTheRest()
    ensures WritableFields == DeclaredFields - ReadOnlyFields - MethodFields
    ensures WritableFields !! ReadOnlyFields && WritableFields !! MethodFields
    ensures WritableFields <= DeclaredFields
  {
  }

  /**
   * What survives of submitted data: only declared writable fields are kept,
   * with the submitted values; read-only fields and names the serializer
   * does not declare are dropped.
   */
  function WritableInput(submitted: map<string, FieldValue>): (w: map<string, FieldValue>)
    ensures forall k :: k in w <==> k in submitted && k in WritableFields
    ensures forall k :: k in w ==> w[k] == submitted[k]
  {
    map k | k in submitted && k in WritableFields :: submitted[k]
  }

  /**
   * In particular a client cannot set the counter, the token, the expiry
   * instant, the stored hash, the row's flags, its owner or its bucket.
   */
  lemma ClientCannotSetCounterTokenOrExpiry(submitted: map<string, FieldValue>)
    ensures forall k :: k in ReadOnlyFields ==> k !in WritableInput(submitted)
    ensures "current_views" !in WritableInput(submitted)
    ensures "access_token" !in WritableInput(submitted)
    ensures "expires_at" !in WritableInput(submitted)
    ensures "password_hash" !in WritableInput(submitted)
    ensures "is_active" !in WritableInput(submitted) && "is_deleted" !in WritableInput(submitted)
    ensures "user" !in WritableInput(submitted) && "s3_bucket" !in WritableInput(submitted)
  {
    WritableFieldsAreTheRest();
  }

  /** FileDetailSerializer.get_views_remaining. */
  function ViewsRemaining(r: FileRecord): (n: nat)
    ensures n == 0 <==> r.IsViewLimitReached()
    ensures n > 0 ==> r.currentViews + n == r.maxViews
  {
    if r.maxViews - r.currentViews > 0 then r.maxViews - r.currentViews else 0
  }

  /** One more counted view takes exactly one off views_remaining while any remain. */
  lemma ViewsRemainingAfterIncrement(r: FileRecord, now: Time)
    requires !r.IsViewLimitReached()
    ensures ViewsRemaining(r.(currentViews := r.currentViews + 1, updatedAt := now)) == ViewsRemaining(r) - 1
  {
  }

  /**
   * FileShareSerializer.validate_recipient_email. recipient_email is an
   * optional field (blank=True), so the validator runs only when the field is
   * submitted (`email` is None when it is absent); then, with share_method
   * 'email', an empty address is refused. Otherwise the value is returned as given.
   */
  function ValidateRecipientEmail(shareMethod: Option<string>, email: Option<string>): (r: Result<Option<string>, FieldError>)
    ensures r.Err? <==> shareMethod == Some("email") && email == Some("")
    ensures email.None? ==> r == Ok(None)
    ensures r.Ok? ==> r.value == email
    ensures r.Err? ==> r.error == RecipientEmailRequired
  {
    if email.None? then Ok(None)
    else if shareMethod == Some("email") && !Truthy(email) then Err(RecipientEmailRequired)
    else Ok(email)
  }
}
