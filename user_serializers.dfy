/**
 * The account serializers (apps/users/serializers.py): the password
 * confirmation rules of registration and password change, the fields
 * registration hands to create_user, and the zero-quota case of
 * storage_percentage.
 */
module UserSerializers {
  import opened Core
  import opened Users

  /** The submitted fields, after the field-level validators. */
  type Attrs = map<string, string>

  datatype ValidationError = PasswordsDiffer(field: string)

  /**
   * UserRegistrationSerializer.validate: refuses exactly when the two
   * password fields differ, and otherwise returns the attributes unchanged.
   * Both fields are declared required, so they are present by now.
   */
  function ValidateRegistration(attrs: Attrs): (r: Result<Attrs, ValidationError>)
    requires "password" in attrs && "password_confirm" in attrs
    ensures r.Err? <==> attrs["password"] != attrs["password_confirm"]
    ensures r.Ok? ==> r.value == attrs
    ensures r.Err? ==> r.error == PasswordsDiffer("password")
  {
    if attrs["password"] != attrs["password_confirm"] then Err(PasswordsDiffer("password")) else Ok(attrs)
  }

  /** The arguments of User.objects.create_user. */
  datatype NewAccount = NewAccount(email: string, username: string, password: string)

  /**
   * UserRegistrationSerializer.create: pops password_confirm and passes
   * email, username and password through to create_user.
   */
  function CreateRegistration(validatedData: Attrs): (c: (Attrs, NewAccount))
    requires "password_confirm" in validatedData
    requires "email" in validatedData && "username" in validatedData && "password" in validatedData
    ensures "password_confirm" !in c.0
    ensures forall k :: k in c.0 <==> k in validatedData && k != "password_confirm"
    ensures forall k :: k in c.0 ==> c.0[k] == validatedData[k]
    ensures c.1.email == validatedData["email"] && c.1.username == validatedData["username"]
    ensures c.1.password == validatedData["password"]
  {
    var rest := validatedData - {"password_confirm"};
    (rest, NewAccount(rest["email"], rest["username"], rest["password"]))
  }

  /** The password an account is created with is the one the user typed twice. */
  lemma RegisteredPasswordIsConfirmed(attrs: Attrs)
    requires "email" in attrs && "username" in attrs && "password" in attrs && "password_confirm" in attrs
    requires ValidateRegistration(attrs).Ok?
    ensures CreateRegistration(ValidateRegistration(attrs).value).1.password == attrs["password_confirm"]
  {
  }

  /** ChangePasswordSerializer.validate: refuses exactly when the new password and its confirmation differ. */
  function ValidatePasswordChange(attrs: Attrs): (r: Result<Attrs, ValidationError>)
    requires "old_password" in attrs && "new_password" in attrs && "new_password_confirm" in attrs
    ensures r.Err? <==> attrs["new_password"] != attrs["new_password_confirm"]
    ensures r.Ok? ==> r.value == attrs
    ensures r.Err? ==> r.error == PasswordsDiffer("new_password")
  {
    if attrs["new_password"] != attrs["new_password_confirm"] then Err(PasswordsDiffer("new_password")) else Ok(attrs)
  }

  /** storage_percentage: the integer 0 for a zero quota, otherwise a rounded float ratio left unevaluated. */
  datatype StoragePercentage = NoQuota | RoundedRatio(used: int, quota: int)

  function StoragePercentageOf(u: User): (p: StoragePercentage)
    reads u
    ensures p == NoQuota <==> u.storageQuota == 0
    ensures p.RoundedRatio? ==> p.used == u.storageUsed && p.quota == u.storageQuota && p.quota != 0
  {
    if u.storageQuota == 0 then NoQuota else RoundedRatio(u.storageUsed, u.storageQuota)
  }
}
