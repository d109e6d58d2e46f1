/**
 * The request validation of api/serializers.py as Django REST framework
 * runs it. Every field involved is a DRF `CharField` (or `EmailField`):
 * an absent required field fails with "This field is required.", a value
 * that is empty after trimming whitespace fails with "This field may not
 * be blank." unless blanks are allowed (and then is "" with no further
 * checks), and any other value is trimmed and checked by every validator
 * of the field, all failures reported in the validators' order.
 */
module Serializers {
  import opened Wrappers
  import opened PyText
  import opened Accounts

  const Required := "This field is required."
  const Blank := "This field may not be blank."
  const NullCharacters := "Null characters are not allowed."
  const TooLong150 := "Ensure this field has no more than 150 characters."
  const TooLong254 := "Ensure this field has no more than 254 characters."
  const TooShort8 := "Ensure this field has at least 8 characters."
  const BadUsername := "Enter a valid username. This value may contain only letters, numbers, and @/./+/-/_ characters."
  const UsernameTaken := "A user with that username already exists."
  const BadEmail := "Enter a valid email address."
  const Mismatch := "Passwords do not match."

  /** The validators a field carries. */
  datatype FieldKind =
    | UsernameField   // User.username: username characters, unique, at most 150
    | EmailField      // User.email: at most 254, EmailValidator
    | PasswordField   // min_length=8
    | NameField       // first_name, last_name: at most 150
    | PlainField      // a bare CharField

  /**
   * A character `\w` matches (a Python letter, digit or `_`): exact on
   * ASCII and Latin-1; every character beyond Latin-1 is taken as a letter.
   */
  predicate WordChar(c: char) {
    || ('a' <= c <= 'z') || ('A' <= c <= 'Z') || ('0' <= c <= '9') || c == '_'
    || c == '\U{AA}' || c == '\U{B2}' || c == '\U{B3}' || c == '\U{B5}' || c == '\U{B9}' || c == '\U{BA}'
    || ('\U{BC}' <= c <= '\U{BE}') || ('\U{C0}' <= c <= '\U{D6}') || ('\U{D8}' <= c <= '\U{F6}')
    || ('\U{F8}' <= c <= '\U{FF}') || c as int >= 0x100
  }

  /** `UnicodeUsernameValidator`: `^[\w.@+-]+\Z` */
  predicate UsernameShape(t: string) {
    t != [] && forall i :: 0 <= i < |t| ==> WordChar(t[i]) || t[i] in ".@+-"
  }

  predicate NoNull(t: string) {
    forall i :: 0 <= i < |t| ==> t[i] != '\0'
  }

  function Check(ok: bool, message: string): seq<string> {
    if ok then [] else [message]
  }

  /**
   * The messages of every validator of the field that rejects the trimmed
   * text `t`, in the order DRF runs them.
   */
  function Checks(kind: FieldKind, env: Env, users: seq<User>, t: string): seq<string> {
    match kind
    case UsernameField =>
      Check(UsernameShape(t), BadUsername) + Check(ByUsername(users, t).NotFound?, UsernameTaken)
      + Check(|t| <= 150, TooLong150) + Check(NoNull(t), NullCharacters)
    case EmailField => Check(|t| <= 254, TooLong254) + Check(NoNull(t), NullCharacters) + Check(env.validEmail(t), BadEmail)
    case PasswordField => Check(|t| >= 8, TooShort8) + Check(NoNull(t), NullCharacters)
    case NameField => Check(|t| <= 150, TooLong150) + Check(NoNull(t), NullCharacters)
    case PlainField => Check(NoNull(t), NullCharacters)
  }

  /** One field after validation: left out of the input, accepted with this text, or rejected. */
  datatype Cleaned = Absent | Value(text: string) | Invalid(messages: seq<string>)

  /** `CharField.run_validation` for a field that may be missing from the request. */
  function Clean(given: Option<string>, required: bool, allowBlank: bool, kind: FieldKind, env: Env, users: seq<User>): (r: Cleaned)
    ensures required ==> !r.Absent?
  {
    match given
    case None => if required then Invalid([Required]) else Absent
    case Some(v) =>
      var t := Strip(v);
      if t == "" then (if allowBlank then Value("") else Invalid([Blank]))
      else
        var ms := Checks(kind, env, users, t);
        if ms == [] then Value(t) else Invalid(ms)
  }

  /**
   * A field is accepted exactly when it is given and either trims to a
   * blank that is allowed or passes every validator, and what is accepted
   * is the trimmed text; a required field is never silently absent.
   */
  lemma CleanMeaning(given: Option<string>, required: bool, allowBlank: bool, kind: FieldKind, env: Env, users: seq<User>)
    ensures var r := Clean(given, required, allowBlank, kind, env, users);
      && (r.Value? <==> given.Some? && (if Strip(given.value) == "" then allowBlank else Checks(kind, env, users, Strip(given.value)) == []))
      && (r.Value? ==> r.text == Strip(given.value))
      && (r.Absent? <==> given.None? && !required)
      && (r.Invalid? ==> r.messages != [])
  {
  }

  function ValueOf(c: Cleaned): Option<string> {
    if c.Value? then Some(c.text) else None
  }

  /** A field's error list in the response, under the field's name. */
  datatype FieldError = FieldError(field: string, messages: seq<string>)

  /** `serializer.errors`: the rejected fields, in the serializer's field order. */
  function Errors(fields: seq<(string, Cleaned)>): (r: seq<FieldError>)
    ensures r == [] <==> forall k :: 0 <= k < |fields| ==> !fields[k].1.Invalid?
    ensures |r| <= |fields|
  {
    if fields == [] then []
    else
      var rest := Errors(fields[1..]);
      assert forall k :: 1 <= k < |fields| ==> fields[k] == fields[1..][k - 1];
      if fields[0].1.Invalid? then [FieldError(fields[0].0, fields[0].1.messages)] + rest else rest
  }

  // ---------------------------------------------------------------------
  // RegisterSerializer
  // ---------------------------------------------------------------------

  /** The registration request: each key may be missing. */
  datatype RegisterData = RegisterData(
    username: Option<string>,
    email: Option<string>,
    password: Option<string>,
    passwordConfirm: Option<string>,
    firstName: Option<string>,
    lastName: Option<string>)

  /** `validated_data` of a registration that passed. */
  datatype Account = Account(
    username: string,
    email: Option<string>,
    password: string,
    passwordConfirm: string,
    firstName: Option<string>,
    lastName: Option<string>)

  /** `Meta.fields` with the field each one becomes. */
  function RegisterFields(env: Env, users: seq<User>, d: RegisterData): seq<(string, Cleaned)> {
    [("username", Clean(d.username, true, false, UsernameField, env, users)),
     ("email", Clean(d.email, false, true, EmailField, env, users)),
     ("password", Clean(d.password, true, false, PasswordField, env, users)),
     ("password_confirm", Clean(d.passwordConfirm, true, false, PasswordField, env, users)),
     ("first_name", Clean(d.firstName, false, true, NameField, env, users)),
     ("last_name", Clean(d.lastName, false, true, NameField, env, users))]
  }

  /**
   * `is_valid()`: the field errors when there are any; otherwise
   * `validate`, which rejects differing passwords and lower-cases the email.
   */
  function RegisterValidate(env: Env, users: seq<User>, d: RegisterData): Result<Account, seq<FieldError>> {
    var fs := RegisterFields(env, users, d);
    var errors := Errors(fs);
    if errors != [] then Err(errors)
    else
      var username, password, confirm := fs[0].1, fs[2].1, fs[3].1;
      assert username.Value? && password.Value? && confirm.Value? by {
        assert !fs[0].1.Invalid? && !fs[2].1.Invalid? && !fs[3].1.Invalid?;
      }
      if password.text != confirm.text then Err([FieldError("non_field_errors", [Mismatch])])
      else
        var email := ValueOf(fs[1].1);
        Ok(Account(username.text, if email.Some? then Some(Lower(email.value)) else None, password.text, confirm.text,
                   ValueOf(fs[4].1), ValueOf(fs[5].1)))
  }

  /**
   * Registration data is accepted exactly when every field passes and the
   * two passwords agree, compared exactly after trimming; the accepted
   * account holds the trimmed fields, with the email in lower case.
   */
  lemma RegisterValidateMeaning(env: Env, users: seq<User>, d: RegisterData)
    ensures var fs := RegisterFields(env, users, d);
      var r := RegisterValidate(env, users, d);
      && (r.Ok? <==> Errors(fs) == [] && Strip(d.password.value) == Strip(d.passwordConfirm.value))
      && (r.Ok? ==> && d.username.Some? && r.value.username == Strip(d.username.value)
                    && r.value.password == Strip(d.password.value)
                    && r.value.passwordConfirm == r.value.password
                    && (d.email.Some? <==> r.value.email.Some?)
                    && (d.email.Some? ==> r.value.email.value == Lower(Strip(d.email.value)))
                    && r.value.firstName == ValueOf(fs[4].1) && r.value.lastName == ValueOf(fs[5].1))
  {
    var fs := RegisterFields(env, users, d);
    CleanMeaning(d.username, true, false, UsernameField, env, users);
    CleanMeaning(d.email, false, true, EmailField, env, users);
    CleanMeaning(d.password, true, false, PasswordField, env, users);
    CleanMeaning(d.passwordConfirm, true, false, PasswordField, env, users);
    if Errors(fs) == [] {
      assert !fs[0].1.Invalid? && !fs[1].1.Invalid? && !fs[2].1.Invalid? && !fs[3].1.Invalid?;
    }
  }

  /** Valid fields with passwords that differ, even only in case, give exactly the one non-field error. */
  lemma PasswordsMustMatch(env: Env, users: seq<User>, d: RegisterData)
    requires d.password.Some? && d.passwordConfirm.Some?
    requires Errors(RegisterFields(env, users, d)) == []
    requires Strip(d.password.value) != Strip(d.passwordConfirm.value)
    ensures RegisterValidate(env, users, d) == Err([FieldError("non_field_errors", ["Passwords do not match."])])
  {
    var fs := RegisterFields(env, users, d);
    CleanMeaning(d.username, true, false, UsernameField, env, users);
    CleanMeaning(d.password, true, false, PasswordField, env, users);
    CleanMeaning(d.passwordConfirm, true, false, PasswordField, env, users);
    assert !fs[0].1.Invalid? && !fs[2].1.Invalid? && !fs[3].1.Invalid?;
    assert fs[0].1.Value? && fs[2].1 == Value(Strip(d.password.value)) && fs[3].1 == Value(Strip(d.passwordConfirm.value));
  }

  /** A password shorter than eight characters after trimming is reported under "password". */
  lemma ShortPasswordRejected(env: Env, users: seq<User>, d: RegisterData)
    requires d.password.Some? && Strip(d.password.value) != "" && |Strip(d.password.value)| < 8
    ensures RegisterValidate(env, users, d).Err?
    ensures exists e :: e in RegisterValidate(env, users, d).error && e.field == "password" && TooShort8 in e.messages
  {
    var fs := RegisterFields(env, users, d);
    assert fs[2].1 == Invalid(Checks(PasswordField, env, users, Strip(d.password.value)));
    ErrorsListed(fs, 2);
  }

  /** Every rejected field appears in `serializer.errors` with its messages. */
  lemma {:induction false} ErrorsListed(fields: seq<(string, Cleaned)>, k: nat)
    requires k < |fields| && fields[k].1.Invalid?
    ensures FieldError(fields[k].0, fields[k].1.messages) in Errors(fields)
    decreases |fields|
  {
    if k > 0 {
      assert fields[k] == fields[1..][k - 1];
      ErrorsListed(fields[1..], k - 1);
    }
  }

  /** A username some user already has is rejected under "username". */
  lemma TakenUsernameRejected(env: Env, users: seq<User>, d: RegisterData, i: nat)
    requires i < |users| && d.username.Some? && Strip(d.username.value) == users[i].username
    requires users[i].username != ""
    ensures RegisterValidate(env, users, d).Err?
    ensures exists e :: e in RegisterValidate(env, users, d).error && e.field == "username" && UsernameTaken in e.messages
  {
    var t := Strip(d.username.value);
    var matches := Seqs.Filter(users, (u: User) => u.username == t);
    assert users[i] in matches;
    var fs := RegisterFields(env, users, d);
    assert UsernameTaken in Checks(UsernameField, env, users, t);
    ErrorsListed(fs, 0);
  }

  // ---------------------------------------------------------------------
  // LoginSerializer and the partial UserSerializer of a PATCH
  // ---------------------------------------------------------------------

  /** The login request. */
  datatype LoginData = LoginData(username: Option<string>, password: Option<string>)

  function LoginFields(env: Env, d: LoginData): seq<(string, Cleaned)> {
    [("username", Clean(d.username, true, false, PlainField, env, [])),
     ("password", Clean(d.password, true, false, PlainField, env, []))]
  }

  /** `LoginSerializer.is_valid()`: both fields present, non-blank and trimmed. */
  function LoginValidate(env: Env, d: LoginData): (r: Result<(string, string), seq<FieldError>>)
    ensures r.Ok? ==> d.username.Some? && d.password.Some?
    ensures r.Ok? ==> r.value == (Strip(d.username.value), Strip(d.password.value))
    ensures r.Ok? ==> r.value.0 != "" && r.value.1 != ""
    ensures r.Err? ==> r.error != []
  {
    var fs := LoginFields(env, d);
    var errors := Errors(fs);
    if errors != [] then Err(errors)
    else
      assert !fs[0].1.Invalid? && !fs[1].1.Invalid?;
      match (fs[0].1, fs[1].1)
      case (Value(name), Value(password)) => Ok((name, password))
  }

  /** The writable fields of a PATCH to the current user; `id` and `username` are read-only and ignored. */
  datatype Changes = Changes(email: Option<string>, firstName: Option<string>, lastName: Option<string>, phone: Option<string>)

  function PatchFields(env: Env, d: Changes): seq<(string, Cleaned)> {
    [("email", Clean(d.email, false, true, EmailField, env, [])),
     ("first_name", Clean(d.firstName, false, true, NameField, env, [])),
     ("last_name", Clean(d.lastName, false, true, NameField, env, [])),
     ("phone_number", Clean(d.phone, false, true, PlainField, env, []))]
  }

  /** `UserSerializer(user, data, partial=True).is_valid()`: the given fields, trimmed. */
  function PatchValidate(env: Env, d: Changes): Result<Changes, seq<FieldError>> {
    var fs := PatchFields(env, d);
    var errors := Errors(fs);
    if errors != [] then Err(errors)
    else Ok(Changes(ValueOf(fs[0].1), ValueOf(fs[1].1), ValueOf(fs[2].1), ValueOf(fs[3].1)))
  }

  /**
   * A PATCH changes exactly the fields it names, each to its trimmed text,
   * and is refused with at least one error otherwise.
   */
  lemma PatchValidateMeaning(env: Env, d: Changes)
    ensures var r := PatchValidate(env, d);
      && (r.Ok? ==> && (r.value.email.Some? <==> d.email.Some?)
                    && (r.value.firstName.Some? <==> d.firstName.Some?)
                    && (r.value.lastName.Some? <==> d.lastName.Some?)
                    && (r.value.phone.Some? <==> d.phone.Some?)
                    && (d.email.Some? ==> r.value.email.value == Strip(d.email.value))
                    && (d.firstName.Some? ==> r.value.firstName.value == Strip(d.firstName.value))
                    && (d.lastName.Some? ==> r.value.lastName.value == Strip(d.lastName.value))
                    && (d.phone.Some? ==> r.value.phone.value == Strip(d.phone.value)))
      && (r.Err? ==> r.error != [])
  {
    var fs := PatchFields(env, d);
    CleanMeaning(d.email, false, true, EmailField, env, []);
    CleanMeaning(d.firstName, false, true, NameField, env, []);
    CleanMeaning(d.lastName, false, true, NameField, env, []);
    CleanMeaning(d.phone, false, true, PlainField, env, []);
    if Errors(fs) == [] {
      assert forall k :: 0 <= k < 4 ==> !fs[k].1.Invalid?;
    }
  }
}
