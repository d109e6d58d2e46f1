/**
 * The auth views of api/views.py as functions from the database, the
 * session and the request to the response, the new database, the new
 * session and the reset mail sent (if any).
 *
 * Every DRF view first resolves `request.user` from the session
 * (`Accounts.Resolve`), which flushes a session whose password has
 * changed. An exception a view does not catch becomes Django's 500 page
 * (`Crash`) and leaves the database as it was.
 */
module AuthViews {
  import opened Wrappers
  import opened PyText
  import opened Accounts
  import opened Serializers
  import opened Base64Url

  /** The JSON body of a response. */
  datatype Body =
    | Message(message: string)                  // {'message': ...}
    | WithUser(message: string, user: UserView) // {'message': ..., 'user': ...}
    | Shown(user: UserView)                     // the user's representation itself
    | ErrorText(error: string)                  // {'error': ...}
    | Detail(detail: string)                    // {'detail': ...}
    | Rejected(errors: seq<FieldError>)         // serializer.errors
    | Crash                                     // an uncaught exception

  datatype Response = Response(status: int, body: Body)

  /** The reset mail: the address it went to and the two parts of the link. */
  datatype Mail = Mail(to: string, uid: string, token: string)

  datatype Outcome = Outcome(response: Response, db: Db, session: Option<SessionData>, mail: Option<Mail>)

  const InvalidLogin := "Invalid email or password"
  const NoCredentials := "Authentication credentials were not provided."
  const ResetSent := "If an account exists with this email, a reset link has been sent."
  const MailFailed := "Failed to send email. Please ensure your SMTP settings are correct."
  const MissingFields := "All fields are required"
  const InvalidLink := "Invalid reset link"
  const InvalidToken := "Invalid or expired token"
  const ResetDone := "Password has been reset successfully"

  /**
   * `login(request, user)`: the session now names the user and the
   * password it is opened with; the `user_logged_in` signal stamps
   * `last_login` and saves the user.
   */
  function LogIn(db: Db, u: User, now: int): (Db, Option<SessionData>, User) {
    var stamped := u.(lastLogin := Some(now));
    (Save(db, stamped), Some(SessionData(u.pk, u.password)), stamped)
  }

  /** The row `create_user` writes for an accepted registration. */
  function NewUser(db: Db, a: Account): User {
    User(db.nextPk, a.username, a.email.GetOr(""), a.firstName.GetOr(""), a.lastName.GetOr(""),
         PasswordHash(db.nextSalt, a.password), None)
  }

  /**
   * `User.objects.create_user(...)`: the row is inserted with the next key
   * and a fresh salt, and `create_user_profile` gives it a profile.
   */
  function Create(db: Db, a: Account): Db {
    var u := NewUser(db, a);
    Db(db.users + [u], EnsureProfile(db.profiles, u.pk), db.nextPk + 1, db.nextSalt + 1)
  }

  /** `RegisterView.post` */
  function Register(env: Env, db: Db, session: Option<SessionData>, d: RegisterData, now: int): Outcome {
    var (_, s) := Resolve(db, session);
    match RegisterValidate(env, db.users, d)
    case Err(errors) => Outcome(Response(400, Rejected(errors)), db, s, None)
    case Ok(a) =>
      var (db', s', u) := LogIn(Create(db, a), NewUser(db, a), now);
      Outcome(Response(201, WithUser("User registered successfully", Represent(u, db'.profiles))), db', s', None)
  }

  /** What `authenticate` ends in: a user, `None`, or an exception it lets through. */
  datatype Auth = Authenticated(user: User) | Refused | Raised

  /** `authenticate(username=name, password=password)` with the model backend. */
  function Authenticate(users: seq<User>, name: string, password: string): Auth {
    match ByUsername(users, name)
    case Found(u) => if CheckPassword(u, password) then Authenticated(u) else Refused
    case NotFound => Refused
    case Multiple => Raised
  }

  /**
   * The two phases of `LoginView.post`: the identifier as a username, and
   * when that yields no user, the username of the one user whose email
   * matches it ignoring case.
   */
  function LoginUser(users: seq<User>, name: string, password: string): Auth {
    match Authenticate(users, name, password)
    case Refused =>
      (match ByEmail(users, name)
       case NotFound => Refused
       case Multiple => Raised
       case Found(v) => Authenticate(users, v.username, password))
    case other => other
  }

  /** `LoginView.post` at time `now`. */
  function Login(env: Env, db: Db, session: Option<SessionData>, d: LoginData, now: int): Outcome {
    var (_, s) := Resolve(db, session);
    match LoginValidate(env, d)
    case Err(errors) => Outcome(Response(400, Rejected(errors)), db, s, None)
    case Ok((name, password)) =>
      match LoginUser(db.users, name, password)
      case Authenticated(u) =>
        var (db', s', u') := LogIn(db, u, now);
        Outcome(Response(200, WithUser("Login successful", Represent(u', db'.profiles))), db', s', None)
      case Refused => Outcome(Response(401, ErrorText(InvalidLogin)), db, s, None)
      case Raised => Outcome(Response(500, Crash), db, s, None)
  }

  /** `CurrentUserView.get` */
  function CurrentUser(db: Db, session: Option<SessionData>): Outcome {
    var (me, s) := Resolve(db, session);
    if me.None? then Outcome(Response(401, Detail("Not authenticated")), db, s, None)
    else Outcome(Response(200, Shown(Represent(me.value, db.profiles))), db, s, None)
  }

  /** The user row after `super().update`: each given field replaced. */
  function Apply(u: User, c: Changes): User {
    u.(email := c.email.GetOr(u.email), firstName := c.firstName.GetOr(u.firstName), lastName := c.lastName.GetOr(u.lastName))
  }

  /**
   * The tables after `UserSerializer.update`: the user is saved (its
   * `post_save` handler loads or creates the profile), then a second
   * `get_or_create` fetches the profile and stores the phone if one was
   * given.
   */
  function Update(db: Db, u: User, c: Changes): Db {
    var saved := Save(db, Apply(u, c));
    if c.phone.Some? then saved.(profiles := SetPhone(saved.profiles, u.pk, c.phone.value)) else saved
  }

  /**
   * `CurrentUserView.patch` as written: the response is rendered from the
   * profile the save handler cached on the user, before the phone was set.
   */
  function PatchCurrentUserAsWritten(env: Env, db: Db, session: Option<SessionData>, d: Changes): Outcome {
    var (me, s) := Resolve(db, session);
    if me.None? then Outcome(Response(401, Detail(NoCredentials)), db, s, None)
    else
      match PatchValidate(env, d)
      case Err(errors) => Outcome(Response(400, Rejected(errors)), db, s, None)
      case Ok(c) =>
        var cached := Save(db, Apply(me.value, c)).profiles;
        Outcome(Response(200, Shown(Represent(Apply(me.value, c), cached))), Update(db, me.value, c), s, None)
  }

  /** `CurrentUserView.patch` with the response rendered from the stored profile. */
  function PatchCurrentUser(env: Env, db: Db, session: Option<SessionData>, d: Changes): Outcome {
    var (me, s) := Resolve(db, session);
    if me.None? then Outcome(Response(401, Detail(NoCredentials)), db, s, None)
    else
      match PatchValidate(env, d)
      case Err(errors) => Outcome(Response(400, Rejected(errors)), db, s, None)
      case Ok(c) =>
        var db' := Update(db, me.value, c);
        Outcome(Response(200, Shown(Represent(Apply(me.value, c), db'.profiles))), db', s, None)
  }

  /**
   * `LogoutView.post`: only session authentication, and `IsAuthenticated`,
   * whose refusal DRF answers with 403 as the session scheme sends no
   * challenge header.
   */
  function Logout(db: Db, session: Option<SessionData>): Outcome {
    var (me, s) := Resolve(db, session);
    if me.None? then Outcome(Response(403, Detail(NoCredentials)), db, s, None)
    else Outcome(Response(200, Message("Logout successful")), db, None, None)
  }

  /**
   * `PasswordResetRequestView.post`; `mailOk` is whether `send_mail`
   * returns or raises. The link goes to the address as typed.
   */
  function ResetRequest(env: Env, db: Db, session: Option<SessionData>, email: Option<string>, mailOk: bool): Outcome {
    var (_, s) := Resolve(db, session);
    if email.None? || email.value == "" then Outcome(Response(400, ErrorText("Email is required")), db, s, None)
    else
      match ByEmail(db.users, email.value)
      case NotFound => Outcome(Response(200, Message(ResetSent)), db, s, None)
      case Multiple => Outcome(Response(500, Crash), db, s, None)
      case Found(u) =>
        if mailOk then
          Outcome(Response(200, Message(ResetSent)), db, s, Some(Mail(email.value, EncodeUid(u.pk), env.mint(KeyOf(u)))))
        else Outcome(Response(500, ErrorText(MailFailed)), db, s, None)
  }

  /** The reset confirmation request: each key may be missing. */
  datatype ResetData = ResetData(uid: Option<string>, token: Option<string>, newPassword: Option<string>)

  /**
   * `PasswordResetConfirmView.post`, the new password stored as received
   * (`trim` false) or trimmed like every other password field (`trim` true).
   */
  function Confirm(env: Env, db: Db, session: Option<SessionData>, d: ResetData, trim: bool): Outcome {
    var (_, s) := Resolve(db, session);
    var token := Strip(d.token.GetOr(""));
    var password := if trim then Strip(d.newPassword.GetOr("")) else d.newPassword.GetOr("");
    if d.uid.None? || d.uid.value == "" || token == "" || d.newPassword.None? || password == "" then
      Outcome(Response(400, ErrorText(MissingFields)), db, s, None)
    else ConfirmLink(env, db, s, DecodeUid(d.uid.value), token, password)
  }

  /** The rest of the confirmation once every field is there: `key` is the decoded uid, if it decodes. */
  function ConfirmLink(env: Env, db: Db, s: Option<SessionData>, key: Option<int>, token: string, password: string): Outcome {
    match key
    case None => Outcome(Response(400, ErrorText(InvalidLink)), db, s, None)
    case Some(k) =>
      match ByPk(db.users, k)
      case NotFound => Outcome(Response(400, ErrorText(InvalidLink)), db, s, None)
      case Multiple => Outcome(Response(500, Crash), db, s, None)
      case Found(u) =>
        if !CheckToken(env.mint, u, token) then Outcome(Response(400, ErrorText(InvalidToken)), db, s, None)
        else Outcome(Response(200, Message(ResetDone)), SetPassword(db, u, password), s, None)
  }

  /** `user.set_password(password); user.save()`, with a salt not used before. */
  function SetPassword(db: Db, u: User, password: string): Db {
    Save(db.(nextSalt := db.nextSalt + 1), u.(password := PasswordHash(db.nextSalt, password)))
  }

  /** The view as written: `new_password` is stored untrimmed. */
  function ResetConfirmAsWritten(env: Env, db: Db, session: Option<SessionData>, d: ResetData): Outcome {
    Confirm(env, db, session, d, false)
  }

  /** The view with `new_password` trimmed, as the login form will trim it. */
  function ResetConfirm(env: Env, db: Db, session: Option<SessionData>, d: ResetData): Outcome {
    Confirm(env, db, session, d, true)
  }
}
