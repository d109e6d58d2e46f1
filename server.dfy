/**
 * The auth views as they run: one object holding the user and profile
 * tables, the key and salt counters and the request's session, changed
 * step by step as the views change them (`login`, `logout`,
 * `create_user`, `set_password`, `save` and the profile signal
 * handlers). Each method is proved to end in the state and response the
 * view's function in `AuthViews` gives, and to keep the tables valid.
 */
module Server {
  import opened Wrappers
  import opened PyText
  import opened Accounts
  import opened Serializers
  import opened AuthViews
  import opened AuthInvariants
  import opened Base64Url

  class Site {
    var users: seq<User>
    var profiles: seq<Profile>
    var nextPk: nat
    var nextSalt: nat
    var session: Option<SessionData>
    const env: Env

    /** The tables as one value. */
    function State(): Db
      reads this
    {
      Db(users, profiles, nextPk, nextSalt)
    }

    predicate Consistent()
      reads this
    {
      Valid(State())
    }

    /** An empty site with no session; keys start at 1 as the database's auto-increment does. */
    constructor(env: Env)
      ensures State() == Db([], [], 1, 0) && session == None && this.env == env
      ensures Consistent()
    {
      users := [];
      profiles := [];
      nextPk := 1;
      nextSalt := 0;
      session := None;
      this.env := env;
    }

    /** Resolving `request.user`: a session whose password changed is flushed. */
    method ResolveUser() returns (me: Option<User>)
      modifies this
      ensures me == Resolve(old(State()), old(session)).0
      ensures session == Resolve(old(State()), old(session)).1
      ensures State() == old(State())
    {
      var (u, s) := Resolve(State(), session);
      me := u;
      session := s;
    }

    /** `user.save()`: the row is rewritten and the signal handlers get or create its profile. */
    method SaveUser(u: User)
      modifies this
      ensures State() == Save(old(State()), u)
      ensures session == old(session)
    {
      users := Replace(users, u);
      profiles := EnsureProfile(profiles, u.pk);
    }

    /** `login(request, user)`: the session names the user; `last_login` is stamped and saved. */
    method LogInUser(u: User, now: int) returns (stamped: User)
      modifies this
      ensures (State(), session, stamped) == LogIn(old(State()), u, now)
    {
      session := Some(SessionData(u.pk, u.password));
      stamped := u.(lastLogin := Some(now));
      SaveUser(stamped);
    }

    /** `User.objects.create_user`, with the profile from `create_user_profile`. */
    method CreateUser(a: Account) returns (u: User)
      modifies this
      ensures u == NewUser(old(State()), a) && State() == Create(old(State()), a)
      ensures session == old(session)
    {
      u := NewUser(State(), a);
      users := users + [u];
      profiles := EnsureProfile(profiles, u.pk);
      nextPk := nextPk + 1;
      nextSalt := nextSalt + 1;
    }

    /** `user.set_password(password)` with a fresh salt, then `user.save()`. */
    method SetUserPassword(u: User, password: string)
      modifies this
      ensures State() == SetPassword(old(State()), u, password)
      ensures session == old(session)
    {
      var salt := nextSalt;
      nextSalt := nextSalt + 1;
      SaveUser(u.(password := PasswordHash(salt, password)));
    }

    /** `RegisterView.post` */
    method Register(d: RegisterData, now: int) returns (r: Response)
      requires Consistent()
      modifies this
      ensures var o := AuthViews.Register(env, old(State()), old(session), d, now);
        r == o.response && State() == o.db && session == o.session
      ensures Consistent()
    {
      ghost var db0 := State();
      ghost var s0 := session;
      RegisterKeepsValid(env, db0, s0, d, now);
      var _ := ResolveUser();
      var v := RegisterValidate(env, users, d);
      if v.Err? {
        r := Response(400, Rejected(v.error));
        return;
      }
      var u := CreateUser(v.value);
      var stamped := LogInUser(u, now);
      r := Response(201, WithUser("User registered successfully", Represent(stamped, profiles)));
    }

    /**
     * The two lookups of `LoginView.post`: `authenticate` with the
     * identifier as the username, and when that gives no user, with the
     * username of the account whose email matches it ignoring case.
     */
    method FindUser(name: string, password: string) returns (a: Auth)
      ensures a == LoginUser(users, name, password)
    {
      a := Authenticate(users, name, password);
      if a.Refused? {
        match ByEmail(users, name)
        case NotFound =>
        case Multiple =>
          a := Raised;
        case Found(w) =>
          a := Authenticate(users, w.username, password);
      }
    }

    /** `LoginView.post` at time `now`. */
    method Login(d: LoginData, now: int) returns (r: Response)
      requires Consistent()
      modifies this
      ensures var o := AuthViews.Login(env, old(State()), old(session), d, now);
        r == o.response && State() == o.db && session == o.session
      ensures Consistent()
    {
      ghost var db0 := State();
      ghost var s0 := session;
      LoginKeepsValid(env, db0, s0, d, now);
      var _ := ResolveUser();
      var v := LoginValidate(env, d);
      if v.Err? {
        r := Response(400, Rejected(v.error));
        return;
      }
      var (name, password) := v.value;
      var a := FindUser(name, password);
      match a
      case Authenticated(u) =>
        var stamped := LogInUser(u, now);
        r := Response(200, WithUser("Login successful", Represent(stamped, profiles)));
      case Refused =>
        r := Response(401, ErrorText(InvalidLogin));
      case Raised =>
        r := Response(500, Crash);
    }

    /** `CurrentUserView.get` */
    method CurrentUser() returns (r: Response)
      requires Consistent()
      modifies this
      ensures var o := AuthViews.CurrentUser(old(State()), old(session));
        r == o.response && State() == o.db && session == o.session
      ensures State() == old(State())
      ensures Consistent()
    {
      var me := ResolveUser();
      if me.None? {
        r := Response(401, Detail("Not authenticated"));
      } else {
        r := Response(200, Shown(Represent(me.value, profiles)));
      }
    }

    /**
     * `CurrentUserView.patch`: the user's fields are set and saved, then
     * the profile is fetched again and its phone stored when one was sent;
     * the response shows the stored profile.
     */
    method PatchCurrentUser(d: Changes) returns (r: Response)
      requires Consistent()
      modifies this
      ensures var o := AuthViews.PatchCurrentUser(env, old(State()), old(session), d);
        r == o.response && State() == o.db && session == o.session
      ensures Consistent()
    {
      ghost var db0 := State();
      ghost var s0 := session;
      PatchKeepsValid(env, db0, s0, d);
      var me := ResolveUser();
      if me.None? {
        r := Response(401, Detail(NoCredentials));
        return;
      }
      var v := PatchValidate(env, d);
      if v.Err? {
        r := Response(400, Rejected(v.error));
        return;
      }
      var c := v.value;
      var u := Apply(me.value, c);
      SaveUser(u);
      if c.phone.Some? {
        profiles := SetPhone(profiles, u.pk, c.phone.value);
      }
      assert State() == Update(db0, me.value, c);
      r := Response(200, Shown(Represent(u, profiles)));
    }

    /** `LogoutView.post` */
    method Logout() returns (r: Response)
      requires Consistent()
      modifies this
      ensures var o := AuthViews.Logout(old(State()), old(session));
        r == o.response && State() == o.db && session == o.session
      ensures State() == old(State())
      ensures Consistent()
    {
      var me := ResolveUser();
      if me.None? {
        r := Response(403, Detail(NoCredentials));
      } else {
        session := None;
        r := Response(200, Message("Logout successful"));
      }
    }

    /** `PasswordResetRequestView.post`; `mailOk` is whether sending the mail succeeds. */
    method ResetRequest(email: Option<string>, mailOk: bool) returns (r: Response, mail: Option<Mail>)
      requires Consistent()
      modifies this
      ensures var o := AuthViews.ResetRequest(env, old(State()), old(session), email, mailOk);
        r == o.response && mail == o.mail && State() == o.db && session == o.session
      ensures State() == old(State())
      ensures Consistent()
    {
      var _ := ResolveUser();
      mail := None;
      if email.None? || email.value == "" {
        r := Response(400, ErrorText("Email is required"));
        return;
      }
      match ByEmail(users, email.value)
      case NotFound =>
        r := Response(200, Message(ResetSent));
      case Multiple =>
        r := Response(500, Crash);
      case Found(u) =>
        if mailOk {
          mail := Some(Mail(email.value, EncodeUid(u.pk), env.mint(KeyOf(u))));
          r := Response(200, Message(ResetSent));
        } else {
          r := Response(500, ErrorText(MailFailed));
        }
    }

    /**
     * `PasswordResetConfirmView.post`, with the new password trimmed as
     * the login form trims it: `set_password` draws a fresh salt and
     * `save` rewrites the row.
     */
    method ResetConfirm(d: ResetData) returns (r: Response)
      requires Consistent()
      modifies this
      ensures var o := AuthViews.ResetConfirm(env, old(State()), old(session), d);
        r == o.response && State() == o.db && session == o.session
      ensures Consistent()
    {
      ghost var db0 := State();
      ghost var s0 := session;
      ConfirmKeepsValid(env, db0, s0, d, true);
      var _ := ResolveUser();
      var token := Strip(d.token.GetOr(""));
      var password := Strip(d.newPassword.GetOr(""));
      if d.uid.None? || d.uid.value == "" || token == "" || d.newPassword.None? || password == "" {
        r := Response(400, ErrorText(MissingFields));
        return;
      }
      assert AuthViews.ResetConfirm(env, db0, s0, d) == ConfirmLink(env, db0, session, DecodeUid(d.uid.value), token, password);
      var key := DecodeUid(d.uid.value);
      if key.None? {
        r := Response(400, ErrorText(InvalidLink));
        return;
      }
      match ByPk(users, key.value)
      case NotFound =>
        r := Response(400, ErrorText(InvalidLink));
      case Multiple =>
        r := Response(500, Crash);
      case Found(u) =>
        if !CheckToken(env.mint, u, token) {
          r := Response(400, ErrorText(InvalidToken));
        } else {
          SetUserPassword(u, password);
          r := Response(200, Message(ResetDone));
        }
    }
  }
}
