/** The six request schemas of the user routes (signup, login, change
    password, profile update, reset-password request, reset password) and
    what each accepts and reports. */
module UserValidation {
  import opened Basics
  import opened JsString
  import opened Zod

  const FullNameField := Field("fullName", "Full Name is required.", "Full Name must be a string.",
    [TrimStep,
     MinLength(4, "Full Name must be 4 or more characters long."),
     MaxLength(255, "Full Name must be 255 or fewer characters long.")])

  const UsernameField := Field("username", "Username is required.", "Username must be a string.",
    [TrimStep,
     MinLength(4, "Username must be 4 or more characters long."),
     MaxLength(255, "Username must be 255 or fewer characters long.")])

  /** The format test comes before `.trim()`, so it sees the raw string. */
  const EmailField := Field("email", "Email is required.", "Email must be a string.",
    [EmailFormat("Invalid email address."),
     TrimStep,
     MaxLength(255, "Email must be 255 or fewer characters long.")])

  const PhoneField := Field("phone", "Phone number is required.", "Phone number must be a string.",
    [TrimStep,
     MinLength(10, "Phone number must be 10 or more characters long."),
     MaxLength(10, "Phone number must be 10 or fewer characters long.")])

  const PasswordField := Field("password", "Password is required.", "Password must be a string.",
    [TrimStep,
     MinLength(6, "Password must be 6 or more characters long."),
     MaxLength(255, "Password must be 255 or fewer characters long.")])

  const CurrentPasswordField := Field("currentPassword", "Current Password is required.", "Current Password must be a string.",
    [TrimStep,
     MinLength(6, "Current Password must be 6 or more characters long."),
     MaxLength(255, "Current Password must be 255 or fewer characters long.")])

  const NewPasswordField := Field("newPassword", "New Password is required.", "New Password must be a string.",
    [TrimStep,
     MinLength(6, "New Password must be 6 or more characters long."),
     MaxLength(255, "New Password must be 255 or fewer characters long.")])

  const SignupSchema: Schema := [FullNameField, UsernameField, EmailField, PhoneField, PasswordField]
  const LoginSchema: Schema := [EmailField, PasswordField]
  const ChangePasswordSchema: Schema := [CurrentPasswordField, NewPasswordField]
  const UpdateProfileSchema: Schema := [FullNameField, UsernameField, EmailField, PhoneField]
  const ResetPasswordRequestSchema: Schema := [EmailField]
  const ResetPasswordSchema: Schema := [NewPasswordField]

  /** Reference rule for a trimmed, bounded field: a string whose trimmed
      length, in UTF-16 code units, lies in `[lo, hi]`. */
  predicate BoundedAfterTrim(v: Option<JsValue>, lo: nat, hi: nat) {
    v.Some? && v.value.Str? && lo <= Utf16Length(Trim(v.value.text)) <= hi
  }

  /** Reference rule for an email field: the raw string passes the format
      test and its trimmed length is at most 255. There is no lower bound. */
  predicate EmailAcceptable(v: Option<JsValue>, emailOk: string -> bool) {
    v.Some? && v.value.Str? && emailOk(v.value.text) && Utf16Length(Trim(v.value.text)) <= 255
  }

  /** What a trimmed, bounded field reports: the required message for an
      absent key, the type message for a non-string and nothing else, the
      lower-bound message for a short trimmed string, the upper-bound
      message for a long one, and nothing for one in bounds, whose value is
      the trimmed string. */
  predicate BoundedVerdict(f: Field, lo: nat, hi: nat, tooShort: string, tooLong: string, v: Option<JsValue>, emailOk: string -> bool) {
    var p := ParseField(f, v, emailOk);
    && (p.issues == [] <==> BoundedAfterTrim(v, lo, hi))
    && (v.None? ==> p.issues == [f.requiredError])
    && (v == Some(NonString) ==> p.issues == [f.invalidTypeError])
    && (v.Some? && v.value.Str? && Utf16Length(Trim(v.value.text)) < lo ==> p.issues == [tooShort])
    && (v.Some? && v.value.Str? && Utf16Length(Trim(v.value.text)) > hi ==> p.issues == [tooLong])
    && (BoundedAfterTrim(v, lo, hi) ==> p.value == Trim(v.value.text))
  }

  lemma BoundedFieldVerdict(f: Field, lo: nat, hi: nat, tooShort: string, tooLong: string, v: Option<JsValue>, emailOk: string -> bool)
    requires TrimmedBounded(f, lo, hi, tooShort, tooLong) && lo <= hi
    ensures BoundedVerdict(f, lo, hi, tooShort, tooLong, v, emailOk)
  {
    if v.Some? && v.value.Str? {
      TrimmedBoundedIssues(f, lo, hi, tooShort, tooLong, v.value.text, emailOk);
    }
  }

  /** `fullName` and `username`: accepted exactly when the trimmed length is
      in [4, 255], with the field's own messages otherwise. */
  lemma NameFieldsRule(v: Option<JsValue>, emailOk: string -> bool)
    ensures BoundedVerdict(FullNameField, 4, 255,
      "Full Name must be 4 or more characters long.", "Full Name must be 255 or fewer characters long.", v, emailOk)
    ensures BoundedVerdict(UsernameField, 4, 255,
      "Username must be 4 or more characters long.", "Username must be 255 or fewer characters long.", v, emailOk)
    ensures v.None? ==> ParseField(FullNameField, v, emailOk).issues == ["Full Name is required."]
    ensures v == Some(NonString) ==> ParseField(UsernameField, v, emailOk).issues == ["Username must be a string."]
  {
    BoundedFieldVerdict(FullNameField, 4, 255,
      "Full Name must be 4 or more characters long.", "Full Name must be 255 or fewer characters long.", v, emailOk);
    BoundedFieldVerdict(UsernameField, 4, 255,
      "Username must be 4 or more characters long.", "Username must be 255 or fewer characters long.", v, emailOk);
  }

  /** `phone`: both bounds are 10, so exactly ten code units after trimming. */
  lemma PhoneFieldRule(v: Option<JsValue>, emailOk: string -> bool)
    ensures ParseField(PhoneField, v, emailOk).issues == [] <==>
      v.Some? && v.value.Str? && Utf16Length(Trim(v.value.text)) == 10
    ensures BoundedVerdict(PhoneField, 10, 10,
      "Phone number must be 10 or more characters long.", "Phone number must be 10 or fewer characters long.", v, emailOk)
  {
    BoundedFieldVerdict(PhoneField, 10, 10,
      "Phone number must be 10 or more characters long.", "Phone number must be 10 or fewer characters long.", v, emailOk);
  }

  /** Every password field, in every schema: trimmed length in [6, 255]. */
  lemma PasswordFieldsRule(v: Option<JsValue>, emailOk: string -> bool)
    ensures BoundedVerdict(PasswordField, 6, 255,
      "Password must be 6 or more characters long.", "Password must be 255 or fewer characters long.", v, emailOk)
    ensures BoundedVerdict(CurrentPasswordField, 6, 255,
      "Current Password must be 6 or more characters long.", "Current Password must be 255 or fewer characters long.", v, emailOk)
    ensures BoundedVerdict(NewPasswordField, 6, 255,
      "New Password must be 6 or more characters long.", "New Password must be 255 or fewer characters long.", v, emailOk)
  {
    BoundedFieldVerdict(PasswordField, 6, 255,
      "Password must be 6 or more characters long.", "Password must be 255 or fewer characters long.", v, emailOk);
    BoundedFieldVerdict(CurrentPasswordField, 6, 255,
      "Current Password must be 6 or more characters long.", "Current Password must be 255 or fewer characters long.", v, emailOk);
    BoundedFieldVerdict(NewPasswordField, 6, 255,
      "New Password must be 6 or more characters long.", "New Password must be 255 or fewer characters long.", v, emailOk);
  }

  /** `email`: the format test sees the raw string, the length bound the
      trimmed one, and a bad format is reported before an excess length. */
  lemma EmailFieldRule(v: Option<JsValue>, emailOk: string -> bool)
    ensures ParseField(EmailField, v, emailOk).issues == [] <==> EmailAcceptable(v, emailOk)
    ensures v.None? ==> ParseField(EmailField, v, emailOk).issues == ["Email is required."]
    ensures v == Some(NonString) ==> ParseField(EmailField, v, emailOk).issues == ["Email must be a string."]
    ensures v.Some? && v.value.Str? && !emailOk(v.value.text) ==>
      ParseField(EmailField, v, emailOk).issues[0] == "Invalid email address."
    ensures v.Some? && v.value.Str? && emailOk(v.value.text) && Utf16Length(Trim(v.value.text)) > 255 ==>
      ParseField(EmailField, v, emailOk).issues == ["Email must be 255 or fewer characters long."]
    ensures EmailAcceptable(v, emailOk) ==> ParseField(EmailField, v, emailOk).value == Trim(v.value.text)
  {
    if v.Some? && v.value.Str? {
      EmailShapedIssues(EmailField, "Invalid email address.", 255,
        "Email must be 255 or fewer characters long.", v.value.text, emailOk);
    }
  }

  /** The acceptance half of `BoundedVerdict`, on its own. */
  lemma BoundedAccepts(f: Field, lo: nat, hi: nat, tooShort: string, tooLong: string, body: Body, emailOk: string -> bool)
    requires TrimmedBounded(f, lo, hi, tooShort, tooLong)
    ensures FieldIssues(f, body, emailOk) == [] <==> BoundedAfterTrim(Lookup(body, f.key), lo, hi)
  {
    var v := Lookup(body, f.key);
    if v.Some? && v.value.Str? {
      TrimmedBoundedIssues(f, lo, hi, tooShort, tooLong, v.value.text, emailOk);
    }
  }

  lemma EmailAccepts(body: Body, emailOk: string -> bool)
    ensures FieldIssues(EmailField, body, emailOk) == [] <==> EmailAcceptable(Lookup(body, "email"), emailOk)
  {
    var v := Lookup(body, "email");
    if v.Some? && v.value.Str? {
      EmailShapedIssues(EmailField, "Invalid email address.", 255,
        "Email must be 255 or fewer characters long.", v.value.text, emailOk);
    }
  }

  /** Reference rule for a signup body: each of the five fields meets its
      own rule. */
  predicate SignupAcceptable(body: Body, emailOk: string -> bool) {
    && BoundedAfterTrim(Lookup(body, "fullName"), 4, 255)
    && BoundedAfterTrim(Lookup(body, "username"), 4, 255)
    && EmailAcceptable(Lookup(body, "email"), emailOk)
    && BoundedAfterTrim(Lookup(body, "phone"), 10, 10)
    && BoundedAfterTrim(Lookup(body, "password"), 6, 255)
  }

  /** The signup schema accepts a body exactly when all five fields meet
      their rules. */
  lemma SignupAccepts(body: Body, emailOk: string -> bool)
    ensures Parse(SignupSchema, body, emailOk).Success? <==> SignupAcceptable(body, emailOk)
  {
    var s := SignupSchema;
    BoundedAccepts(FullNameField, 4, 255,
      "Full Name must be 4 or more characters long.", "Full Name must be 255 or fewer characters long.", body, emailOk);
    BoundedAccepts(UsernameField, 4, 255,
      "Username must be 4 or more characters long.", "Username must be 255 or fewer characters long.", body, emailOk);
    EmailAccepts(body, emailOk);
    BoundedAccepts(PhoneField, 10, 10,
      "Phone number must be 10 or more characters long.", "Phone number must be 10 or fewer characters long.", body, emailOk);
    BoundedAccepts(PasswordField, 6, 255,
      "Password must be 6 or more characters long.", "Password must be 255 or fewer characters long.", body, emailOk);
    assert s[0] == FullNameField && s[1] == UsernameField && s[2] == EmailField && s[3] == PhoneField && s[4] == PasswordField;
    if !Parse(s, body, emailOk).Success? {
      var i :| 0 <= i < |s| && FieldIssues(s[i], body, emailOk) != [];
      assert i == 0 || i == 1 || i == 2 || i == 3 || i == 4;
    }
  }

  /** Signup declares each of its five keys once and trims every field;
      every field but the email starts with the trim, while the email's
      format test runs before it. */
  lemma SignupShape()
    ensures DistinctKeys(SignupSchema)
    ensures forall i :: 0 <= i < |SignupSchema| ==> TrimStep in SignupSchema[i].checks
    ensures forall i :: 0 <= i < |SignupSchema| && SignupSchema[i].key != "email" ==> TrimsFirst(SignupSchema[i])
    ensures forall i :: 0 <= i < |SignupSchema| && SignupSchema[i].key == "email" ==> SignupSchema[i].checks[0].EmailFormat?
    ensures "fullName" in Keys(SignupSchema) && "username" in Keys(SignupSchema) && "email" in Keys(SignupSchema)
    ensures "phone" in Keys(SignupSchema) && "password" in Keys(SignupSchema)
  {
    var s := SignupSchema;
    assert s[0].key == "fullName" && s[1].key == "username" && s[2].key == "email";
    assert s[3].key == "phone" && s[4].key == "password";
  }

  /** An accepted signup body yields exactly the five declared keys, each
      holding the trimmed string the body held. */
  lemma SignupOutput(body: Body, emailOk: string -> bool)
    requires Parse(SignupSchema, body, emailOk).Success?
    ensures Parse(SignupSchema, body, emailOk).value.Keys == Keys(SignupSchema)
    ensures "fullName" in Parse(SignupSchema, body, emailOk).value && "username" in Parse(SignupSchema, body, emailOk).value
    ensures "email" in Parse(SignupSchema, body, emailOk).value && "phone" in Parse(SignupSchema, body, emailOk).value
    ensures "password" in Parse(SignupSchema, body, emailOk).value
    ensures forall k :: k in Parse(SignupSchema, body, emailOk).value ==>
      Parse(SignupSchema, body, emailOk).value[k] == Str(Trim(Text(body, k)))
  {
    SignupShape();
    TrimmedOutput(SignupSchema, body, emailOk);
  }

  predicate UpdateProfileAcceptable(body: Body, emailOk: string -> bool) {
    && BoundedAfterTrim(Lookup(body, "fullName"), 4, 255)
    && BoundedAfterTrim(Lookup(body, "username"), 4, 255)
    && EmailAcceptable(Lookup(body, "email"), emailOk)
    && BoundedAfterTrim(Lookup(body, "phone"), 10, 10)
  }

  /** The profile-update schema is the signup schema without its password
      field: it checks `fullName`, `username`, `email` and `phone` under the
      signup rules and nothing else. */
  lemma UpdateProfileAccepts(body: Body, emailOk: string -> bool)
    ensures UpdateProfileSchema == SignupSchema[..4]
    ensures Parse(UpdateProfileSchema, body, emailOk).Success? <==> UpdateProfileAcceptable(body, emailOk)
  {
    var s := UpdateProfileSchema;
    BoundedAccepts(FullNameField, 4, 255,
      "Full Name must be 4 or more characters long.", "Full Name must be 255 or fewer characters long.", body, emailOk);
    BoundedAccepts(UsernameField, 4, 255,
      "Username must be 4 or more characters long.", "Username must be 255 or fewer characters long.", body, emailOk);
    EmailAccepts(body, emailOk);
    BoundedAccepts(PhoneField, 10, 10,
      "Phone number must be 10 or more characters long.", "Phone number must be 10 or fewer characters long.", body, emailOk);
    assert s[0] == FullNameField && s[1] == UsernameField && s[2] == EmailField && s[3] == PhoneField;
    if !Parse(s, body, emailOk).Success? {
      var i :| 0 <= i < |s| && FieldIssues(s[i], body, emailOk) != [];
      assert i == 0 || i == 1 || i == 2 || i == 3;
    }
  }

  /** The login schema accepts exactly a well-formed email of at most 255
      trimmed code units together with a password of 6 to 255 trimmed code
      units. */
  lemma LoginAccepts(body: Body, emailOk: string -> bool)
    ensures Parse(LoginSchema, body, emailOk).Success?
        <==> EmailAcceptable(Lookup(body, "email"), emailOk) && BoundedAfterTrim(Lookup(body, "password"), 6, 255)
  {
    var s := LoginSchema;
    EmailAccepts(body, emailOk);
    BoundedAccepts(PasswordField, 6, 255,
      "Password must be 6 or more characters long.", "Password must be 255 or fewer characters long.", body, emailOk);
    assert s[0] == EmailField && s[1] == PasswordField;
    if !Parse(s, body, emailOk).Success? {
      var i :| 0 <= i < |s| && FieldIssues(s[i], body, emailOk) != [];
      assert i == 0 || i == 1;
    }
  }

  /** A password-reset request is accepted exactly when its email would be
      accepted at signup. */
  lemma ResetPasswordRequestAccepts(body: Body, emailOk: string -> bool)
    ensures Parse(ResetPasswordRequestSchema, body, emailOk).Success? <==> EmailAcceptable(Lookup(body, "email"), emailOk)
  {
    var s := ResetPasswordRequestSchema;
    EmailAccepts(body, emailOk);
    assert s[0] == EmailField;
    if !Parse(s, body, emailOk).Success? {
      var i :| 0 <= i < |s| && FieldIssues(s[i], body, emailOk) != [];
      assert i == 0;
    }
  }

  /** The profile update declares each of its four keys once, trims every
      field, and has no password field. */
  lemma UpdateProfileShape()
    ensures DistinctKeys(UpdateProfileSchema)
    ensures forall i :: 0 <= i < |UpdateProfileSchema| ==> TrimStep in UpdateProfileSchema[i].checks
    ensures "fullName" in Keys(UpdateProfileSchema) && "username" in Keys(UpdateProfileSchema)
    ensures "email" in Keys(UpdateProfileSchema) && "phone" in Keys(UpdateProfileSchema)
    ensures "password" !in Keys(UpdateProfileSchema)
  {
    var s := UpdateProfileSchema;
    assert s[0].key == "fullName" && s[1].key == "username" && s[2].key == "email" && s[3].key == "phone";
  }

  /** An accepted profile update yields exactly four keys, each holding the
      trimmed string; a password sent along is dropped. */
  lemma UpdateProfileOutput(body: Body, emailOk: string -> bool)
    requires Parse(UpdateProfileSchema, body, emailOk).Success?
    ensures Parse(UpdateProfileSchema, body, emailOk).value.Keys == Keys(UpdateProfileSchema)
    ensures "fullName" in Parse(UpdateProfileSchema, body, emailOk).value && "username" in Parse(UpdateProfileSchema, body, emailOk).value
    ensures "email" in Parse(UpdateProfileSchema, body, emailOk).value && "phone" in Parse(UpdateProfileSchema, body, emailOk).value
    ensures "password" !in Parse(UpdateProfileSchema, body, emailOk).value
    ensures forall k :: k in Parse(UpdateProfileSchema, body, emailOk).value ==>
      Parse(UpdateProfileSchema, body, emailOk).value[k] == Str(Trim(Text(body, k)))
  {
    UpdateProfileShape();
    TrimmedOutput(UpdateProfileSchema, body, emailOk);
  }

  /** Only the earliest failing field speaks: whenever the full name is
      refused, for whatever reason, the signup reply is the full name's
      first message, whatever else the body holds. */
  lemma SignupFullNameFirst(body: Body, emailOk: string -> bool)
    ensures FieldIssues(FullNameField, body, emailOk) != [] ==>
      && Parse(SignupSchema, body, emailOk).Failure?
      && Parse(SignupSchema, body, emailOk).error[0] == FieldIssues(FullNameField, body, emailOk)[0]
  {
    var s := SignupSchema;
    assert s[0] == FullNameField;
    assert AllIssues(s, body, emailOk) == FieldIssues(s[0], body, emailOk) + AllIssues(s[1..], body, emailOk);
  }

  /** The messages that follow: a body without `fullName` is answered "Full
      Name is required.", a non-string one "Full Name must be a string.", a
      short one the lower-bound message; and a body whose full name is fine
      but whose username is too short is answered with the username's
      lower-bound message. */
  lemma SignupFirstMessage(body: Body, emailOk: string -> bool)
    ensures "fullName" !in body ==>
      && Parse(SignupSchema, body, emailOk).Failure?
      && Parse(SignupSchema, body, emailOk).error[0] == "Full Name is required."
    ensures "fullName" in body && body["fullName"].NonString? ==>
      && Parse(SignupSchema, body, emailOk).Failure?
      && Parse(SignupSchema, body, emailOk).error[0] == "Full Name must be a string."
    ensures "fullName" in body && body["fullName"].Str? && Utf16Length(Trim(body["fullName"].text)) < 4 ==>
      && Parse(SignupSchema, body, emailOk).Failure?
      && Parse(SignupSchema, body, emailOk).error[0] == "Full Name must be 4 or more characters long."
    ensures (BoundedAfterTrim(Lookup(body, "fullName"), 4, 255)
             && "username" in body && body["username"].Str? && Utf16Length(Trim(body["username"].text)) < 4) ==>
      && Parse(SignupSchema, body, emailOk).Failure?
      && Parse(SignupSchema, body, emailOk).error[0] == "Username must be 4 or more characters long."
  {
    var s := SignupSchema;
    SignupFullNameFirst(body, emailOk);
    assert s[0] == FullNameField && s[1] == UsernameField;
    assert AllIssues(s, body, emailOk) == FieldIssues(s[0], body, emailOk) + AllIssues(s[1..], body, emailOk);
    if "fullName" in body && body["fullName"].Str? {
      TrimmedBoundedIssues(FullNameField, 4, 255,
        "Full Name must be 4 or more characters long.", "Full Name must be 255 or fewer characters long.", body["fullName"].text, emailOk);
    }
    if BoundedAfterTrim(Lookup(body, "fullName"), 4, 255) && "username" in body && body["username"].Str? {
      assert s[1..][0] == UsernameField;
      assert AllIssues(s[1..], body, emailOk) == FieldIssues(s[1], body, emailOk) + AllIssues(s[1..][1..], body, emailOk);
      BoundedAccepts(FullNameField, 4, 255,
        "Full Name must be 4 or more characters long.", "Full Name must be 255 or fewer characters long.", body, emailOk);
      TrimmedBoundedIssues(UsernameField, 4, 255,
        "Username must be 4 or more characters long.", "Username must be 255 or fewer characters long.", body["username"].text, emailOk);
    }
  }

  /** The change-password and reset-password schemas declare distinct keys
      and start every chain with a trim. */
  lemma PasswordSchemasTrimFirst()
    ensures DistinctKeys(ChangePasswordSchema)
    ensures forall i :: 0 <= i < |ChangePasswordSchema| ==> TrimsFirst(ChangePasswordSchema[i])
    ensures DistinctKeys(ResetPasswordSchema)
    ensures forall i :: 0 <= i < |ResetPasswordSchema| ==> TrimsFirst(ResetPasswordSchema[i])
  {
    var c := ChangePasswordSchema;
    assert c[0] == CurrentPasswordField && c[1] == NewPasswordField;
  }

  /** Schemas without an email field give their own output back unchanged
      when it is validated again. */
  lemma PasswordSchemasReparse(body: Body, emailOk: string -> bool)
    ensures Parse(ChangePasswordSchema, body, emailOk).Success? ==>
      Parse(ChangePasswordSchema, Parse(ChangePasswordSchema, body, emailOk).value, emailOk)
        == Parse(ChangePasswordSchema, body, emailOk)
    ensures Parse(ResetPasswordSchema, body, emailOk).Success? ==>
      Parse(ResetPasswordSchema, Parse(ResetPasswordSchema, body, emailOk).value, emailOk)
        == Parse(ResetPasswordSchema, body, emailOk)
  {
    PasswordSchemasTrimFirst();
    if Parse(ChangePasswordSchema, body, emailOk).Success? {
      ReparseIsIdentity(ChangePasswordSchema, body, emailOk);
    }
    if Parse(ResetPasswordSchema, body, emailOk).Success? {
      ReparseIsIdentity(ResetPasswordSchema, body, emailOk);
    }
  }

  /** A non-email field of the signup and update schemas gives its own
      output the same verdict and value. */
  lemma NonEmailFieldsReparse(s: string, emailOk: string -> bool)
    ensures forall f :: f in [FullNameField, UsernameField, PhoneField, PasswordField] ==>
      ParseField(f, Some(Str(ParseField(f, Some(Str(s)), emailOk).value)), emailOk) == ParseField(f, Some(Str(s)), emailOk)
  {
    forall f | f in [FullNameField, UsernameField, PhoneField, PasswordField]
      ensures ParseField(f, Some(Str(ParseField(f, Some(Str(s)), emailOk).value)), emailOk) == ParseField(f, Some(Str(s)), emailOk)
    {
      ReparseTrimFirstField(f, s, emailOk);
    }
  }
}
