/**
 * What the registration, login, current-user and logout views promise:
 * who ends up signed in, which failures look alike, and what a PATCH
 * stores and shows.
 */
module AuthProperties {
  import opened Wrappers
  import opened PyText
  import opened SqlText
  import opened Seqs
  import opened Accounts
  import opened Serializers
  import opened AuthViews
  import opened AuthInvariants

  /**
   * The session names a user whose password is still the one the session
   * was opened with: exactly the sessions Django accepts.
   */
  predicate SignedIn(db: Db, session: Option<SessionData>) {
    && session.Some?
    && ByPk(db.users, session.value.user).Found?
    && ByPk(db.users, session.value.user).user.password == session.value.authHash
  }

  /** `request.user` is the row the session names exactly when the session is signed in. */
  lemma ResolveMeaning(db: Db, session: Option<SessionData>)
    ensures Resolve(db, session).0.Some? <==> SignedIn(db, session)
    ensures SignedIn(db, session) ==> Resolve(db, session).0.value == ByPk(db.users, session.value.user).user
  {
  }

  /** With distinct usernames a username lookup never raises. */
  lemma UsernameLookupNeverMultiple(db: Db, name: string)
    requires Valid(db)
    ensures !ByUsername(db.users, name).Multiple?
  {
    if i :| 0 <= i < |db.users| && db.users[i].username == name {
      FindOwnRow(db, i);
    } else {
      NotFoundMeansNone(db.users, (u: User) => u.username == name);
    }
  }

  /** A user found by key is the row with that key. */
  lemma FoundByPk(db: Db, i: nat, k: int)
    requires Valid(db) && i < |db.users| && db.users[i].pk == k
    ensures ByPk(db.users, k) == Found(db.users[i])
  {
    FindOwnRow(db, i);
  }

  /** A profile already found stays the one found when rows are added after it. */
  lemma {:induction false} ProfileOfPrefix(profiles: seq<Profile>, more: seq<Profile>, pk: nat)
    requires ProfileOf(profiles, pk).Some?
    ensures ProfileOf(profiles + more, pk) == ProfileOf(profiles, pk)
  {
    if profiles[0].user != pk {
      assert (profiles + more)[1..] == profiles[1..] + more;
      ProfileOfPrefix(profiles[1..], more, pk);
    }
  }

  /** `get_or_create` for one user leaves every other user's profile as it was. */
  lemma EnsureProfileOthers(profiles: seq<Profile>, pk: nat, other: nat)
    requires other != pk
    ensures ProfileOf(EnsureProfile(profiles, pk), other) == ProfileOf(profiles, other)
  {
    if ProfileOf(profiles, pk).None? {
      if ProfileOf(profiles, other).Some? {
        ProfileOfPrefix(profiles, [Profile(pk, None)], other);
      } else {
        ProfileOfAppend(profiles, Profile(pk, None), other);
      }
    }
  }

  // ---------------------------------------------------------------------
  // Registration
  // ---------------------------------------------------------------------

  /**
   * A registration succeeds exactly when the data validates. Then the new
   * user is appended with the next key, the trimmed username, the
   * lower-cased email and the trimmed password, is stamped as logged in
   * now, holds a profile without a phone, and the new session signs them
   * in; the response shows that user with a null phone. A rejected
   * registration changes nothing.
   */
  lemma RegisterOutcome(env: Env, db: Db, session: Option<SessionData>, d: RegisterData, now: int)
    requires Valid(db)
    ensures var o := Register(env, db, session, d, now);
      var r := RegisterValidate(env, db.users, d);
      && (o.response.status == 201 <==> r.Ok?)
      && (r.Err? ==> o.db == db && o.response == Response(400, Rejected(r.error)))
      && (r.Ok? ==>
            && |o.db.users| == |db.users| + 1 && o.db.users[..|db.users|] == db.users
            && o.db.users[|db.users|].pk == db.nextPk
            && o.db.users[|db.users|].username == Strip(d.username.value)
            && o.db.users[|db.users|].email == (if d.email.Some? then Lower(Strip(d.email.value)) else "")
            && CheckPassword(o.db.users[|db.users|], Strip(d.password.value))
            && o.db.users[|db.users|].lastLogin == Some(now)
            && Resolve(o.db, o.session).0 == Some(o.db.users[|db.users|])
            && ProfileOf(o.db.profiles, db.nextPk) == Some(Profile(db.nextPk, None))
            && o.response.body.user.id == db.nextPk && o.response.body.user.phone == None)
  {
    var r := RegisterValidate(env, db.users, d);
    if r.Ok? {
      RegisterValidateMeaning(env, db.users, d);
      RegisterAccepted(env, db, session, d, now);
    }
  }

  /** The accepted half of `RegisterOutcome`, in terms of the validated account. */
  lemma RegisterAccepted(env: Env, db: Db, session: Option<SessionData>, d: RegisterData, now: int)
    requires Valid(db)
    requires RegisterValidate(env, db.users, d).Ok?
    ensures var o := Register(env, db, session, d, now);
      var a := RegisterValidate(env, db.users, d).value;
      && o.response.status == 201
      && |o.db.users| == |db.users| + 1 && o.db.users[..|db.users|] == db.users
      && o.db.users[|db.users|] == NewUser(db, a).(lastLogin := Some(now))
      && Resolve(o.db, o.session).0 == Some(o.db.users[|db.users|])
      && ProfileOf(o.db.profiles, db.nextPk) == Some(Profile(db.nextPk, None))
      && o.response.body.user.id == db.nextPk && o.response.body.user.phone == None
  {
    var a := RegisterValidate(env, db.users, d).value;
    var u := NewUser(db, a);
    var (db', s', u') := LogIn(Create(db, a), u, now);
    var o := Register(env, db, session, d, now);
    assert o == Outcome(Response(201, WithUser("User registered successfully", Represent(u', db'.profiles))), db', s', None);
    AcceptedUsernameFree(env, db.users, d);
    SignUp(db, a, now);
  }

  /** Creating the account and logging it in, whatever request led there. */
  lemma SignUp(db: Db, a: Account, now: int)
    requires Valid(db)
    requires forall i :: 0 <= i < |db.users| ==> db.users[i].username != a.username
    ensures var (db', s', u') := LogIn(Create(db, a), NewUser(db, a), now);
      && |db'.users| == |db.users| + 1 && db'.users[..|db.users|] == db.users
      && db'.users[|db.users|] == u' == NewUser(db, a).(lastLogin := Some(now))
      && Resolve(db', s').0 == Some(u')
      && ProfileOf(db'.profiles, db.nextPk) == Some(Profile(db.nextPk, None))
      && Represent(u', db'.profiles).id == db.nextPk && Represent(u', db'.profiles).phone == None
  {
    var n := |db.users|;
    var (db', s', u') := LogIn(Create(db, a), NewUser(db, a), now);
    CreatedRow(db, a, now);
    CreatedProfile(db, a, now);
    ResolveOwnSession(db', n);
  }

  /** After `create_user` and `login`, the new row follows the old ones and the tables stay valid. */
  lemma CreatedRow(db: Db, a: Account, now: int)
    requires Valid(db)
    requires forall i :: 0 <= i < |db.users| ==> db.users[i].username != a.username
    ensures var db' := LogIn(Create(db, a), NewUser(db, a), now).0;
      && Valid(db')
      && |db'.users| == |db.users| + 1 && db'.users[..|db.users|] == db.users
      && db'.users[|db.users|] == NewUser(db, a).(lastLogin := Some(now))
  {
    var n := |db.users|;
    var c := Create(db, a);
    var stamped := NewUser(db, a).(lastLogin := Some(now));
    CreateKeepsValid(db, a);
    SaveKeepsValid(c, n, stamped);
    var db' := Save(c, stamped);
    assert db'.users[..n] == db.users by {
      forall j | 0 <= j < n ensures db'.users[j] == db.users[j] {
        assert c.users[j] == db.users[j];
      }
    }
  }

  /** After `create_user` and `login`, the new user's profile has no phone. */
  lemma CreatedProfile(db: Db, a: Account, now: int)
    requires Valid(db)
    ensures LogIn(Create(db, a), NewUser(db, a), now).0.profiles == EnsureProfile(db.profiles, db.nextPk)
    ensures ProfileOf(EnsureProfile(db.profiles, db.nextPk), db.nextPk) == Some(Profile(db.nextPk, None))
  {
    var c := Create(db, a);
    NextKeyHasNoProfile(db);
    EnsureProfileOnce(db.profiles, db.nextPk);
    EnsureProfileOnce(c.profiles, db.nextPk);
  }

  // ---------------------------------------------------------------------
  // Login
  // ---------------------------------------------------------------------

  /**
   * A login answers 200 exactly when the credentials name a user; it then
   * signs in a row whose password is the one given. Every other answer
   * leaves the database as it was, and every 401 is the same response.
   */
  lemma LoginOutcome(env: Env, db: Db, session: Option<SessionData>, d: LoginData, now: int)
    requires Valid(db)
    ensures var o := Login(env, db, session, d, now);
      var v := LoginValidate(env, d);
      && (o.response.status == 200 <==> v.Ok? && LoginUser(db.users, v.value.0, v.value.1).Authenticated?)
      && (o.response.status != 200 ==> o.db == db)
      && (o.response.status == 401 ==> o.response == Response(401, ErrorText(InvalidLogin)))
      && (o.response.status == 200 ==>
            var u := LoginUser(db.users, v.value.0, v.value.1).user;
            && u in db.users && CheckPassword(u, v.value.1)
            && o.session == Some(SessionData(u.pk, u.password))
            && Resolve(o.db, o.session).0.Some?
            && Resolve(o.db, o.session).0.value.pk == u.pk
            && Resolve(o.db, o.session).0.value.lastLogin == Some(now))
  {
    var v := LoginValidate(env, d);
    var o := Login(env, db, session, d, now);
    if v.Ok? && LoginUser(db.users, v.value.0, v.value.1).Authenticated? {
      var u := LoginUser(db.users, v.value.0, v.value.1).user;
      LoginUserIsRow(db.users, v.value.0, v.value.1);
      var i :| 0 <= i < |db.users| && db.users[i] == u;
      var stamped := u.(lastLogin := Some(now));
      SaveKeepsValid(db, i, stamped);
      assert o.db == Save(db, stamped);
      ResolveOwnSession(o.db, i);
    }
  }

  /** What the view answers once the form is valid, for each way the two-phase lookup ends. */
  lemma LoginOfAuth(env: Env, db: Db, session: Option<SessionData>, d: LoginData, now: int, name: string, password: string)
    requires LoginValidate(env, d) == Ok((name, password))
    ensures var o := Login(env, db, session, d, now);
      var a := LoginUser(db.users, name, password);
      && (a.Raised? ==> o.response == Response(500, Crash) && o.db == db)
      && (a.Refused? ==> o.response == Response(401, ErrorText(InvalidLogin)) && o.db == db)
      && (a.Authenticated? ==> o.response.status == 200 && o.session == Some(SessionData(a.user.pk, a.user.password)))
  {
  }

  /** The identifier as a username, with the right password, signs that user in. */
  lemma LoginByUsername(env: Env, db: Db, session: Option<SessionData>, d: LoginData, now: int, i: nat)
    requires Valid(db) && i < |db.users|
    requires LoginValidate(env, d).Ok?
    requires LoginValidate(env, d).value.0 == db.users[i].username
    requires CheckPassword(db.users[i], LoginValidate(env, d).value.1)
    ensures Login(env, db, session, d, now).response.status == 200
    ensures Login(env, db, session, d, now).session == Some(SessionData(db.users[i].pk, db.users[i].password))
  {
    var (name, password) := LoginValidate(env, d).value;
    FindOwnRow(db, i);
    assert LoginUser(db.users, name, password) == Authenticated(db.users[i]);
    LoginOfAuth(env, db, session, d, now, name, password);
  }

  /**
   * The identifier as an email: when no username equals it and exactly one
   * user's email matches it ignoring case, the right password signs that
   * user in.
   */
  lemma LoginByEmail(env: Env, db: Db, session: Option<SessionData>, d: LoginData, now: int, i: nat)
    requires Valid(db) && i < |db.users|
    requires LoginValidate(env, d).Ok?
    requires forall j :: 0 <= j < |db.users| ==> db.users[j].username != LoginValidate(env, d).value.0
    requires LikeEquals(db.users[i].email, LoginValidate(env, d).value.0)
    requires forall j :: 0 <= j < |db.users| && j != i ==> !LikeEquals(db.users[j].email, LoginValidate(env, d).value.0)
    requires CheckPassword(db.users[i], LoginValidate(env, d).value.1)
    ensures Login(env, db, session, d, now).response.status == 200
    ensures Login(env, db, session, d, now).session == Some(SessionData(db.users[i].pk, db.users[i].password))
  {
    var (name, password) := LoginValidate(env, d).value;
    EmailLoginFinds(db, name, password, i);
    LoginOfAuth(env, db, session, d, now, name, password);
  }

  /** The email phase finds the one row whose email matches when no username does. */
  lemma EmailLoginFinds(db: Db, name: string, password: string, i: nat)
    requires Valid(db) && i < |db.users|
    requires forall j :: 0 <= j < |db.users| ==> db.users[j].username != name
    requires LikeEquals(db.users[i].email, name)
    requires forall j :: 0 <= j < |db.users| && j != i ==> !LikeEquals(db.users[j].email, name)
    requires CheckPassword(db.users[i], password)
    ensures LoginUser(db.users, name, password) == Authenticated(db.users[i])
  {
    NotFoundMeansNone(db.users, (u: User) => u.username == name);
    GetUnique(db.users, (u: User) => LikeEquals(u.email, name), i);
    FindOwnRow(db, i);
  }

  /** An identifier that is nobody's username or email gets the generic 401. */
  lemma UnknownUserRefused(env: Env, db: Db, session: Option<SessionData>, d: LoginData, now: int)
    requires LoginValidate(env, d).Ok?
    requires forall j :: 0 <= j < |db.users| ==>
      db.users[j].username != LoginValidate(env, d).value.0 && !LikeEquals(db.users[j].email, LoginValidate(env, d).value.0)
    ensures Login(env, db, session, d, now).response == Response(401, ErrorText(InvalidLogin))
    ensures Login(env, db, session, d, now).db == db
  {
    var name := LoginValidate(env, d).value.0;
    NotFoundMeansNone(db.users, (u: User) => u.username == name);
    NotFoundMeansNone(db.users, (u: User) => LikeEquals(u.email, name));
  }

  /**
   * A password no user has gets the very same 401 as an unknown user,
   * unless the identifier matches several emails.
   */
  lemma WrongPasswordRefused(env: Env, db: Db, session: Option<SessionData>, d: LoginData, now: int)
    requires Valid(db)
    requires LoginValidate(env, d).Ok?
    requires forall j :: 0 <= j < |db.users| ==> !CheckPassword(db.users[j], LoginValidate(env, d).value.1)
    requires !ByEmail(db.users, LoginValidate(env, d).value.0).Multiple?
    ensures Login(env, db, session, d, now).response == Response(401, ErrorText(InvalidLogin))
    ensures Login(env, db, session, d, now).db == db
  {
    var (name, password) := LoginValidate(env, d).value;
    NoUserWithPassword(db, name, password);
  }

  /** Neither phase of the login signs in a user when no row has the password. */
  lemma NoUserWithPassword(db: Db, name: string, password: string)
    requires Valid(db)
    requires forall j :: 0 <= j < |db.users| ==> !CheckPassword(db.users[j], password)
    requires !ByEmail(db.users, name).Multiple?
    ensures LoginUser(db.users, name, password) == Refused
  {
    UsernameLookupNeverMultiple(db, name);
    if ByUsername(db.users, name).Found? {
      FoundIsRow(db.users, (u: User) => u.username == name);
    }
    assert Authenticate(db.users, name, password).Refused?;
    if ByEmail(db.users, name).Found? {
      var w := ByEmail(db.users, name).user;
      FoundIsRow(db.users, (u: User) => LikeEquals(u.email, name));
      var k :| 0 <= k < |db.users| && db.users[k] == w;
      FindOwnRow(db, k);
    }
  }

  /**
   * Two accounts may share an email address, since registration does not
   * check it; then a login by that address, when it is nobody's username,
   * ends in an uncaught `MultipleObjectsReturned`.
   */
  lemma SharedEmailLoginCrashes(env: Env, db: Db, session: Option<SessionData>, d: LoginData, now: int, i: nat, j: nat)
    requires i < j < |db.users|
    requires LoginValidate(env, d).Ok?
    requires forall k :: 0 <= k < |db.users| ==> db.users[k].username != LoginValidate(env, d).value.0
    requires LikeEquals(db.users[i].email, LoginValidate(env, d).value.0)
    requires LikeEquals(db.users[j].email, LoginValidate(env, d).value.0)
    ensures Login(env, db, session, d, now).response == Response(500, Crash)
    ensures Login(env, db, session, d, now).db == db
  {
    var (name, password) := LoginValidate(env, d).value;
    SharedEmailRaises(db.users, name, password, i, j);
    LoginOfAuth(env, db, session, d, now, name, password);
  }

  /** The email phase of the login raises when two rows match and no username does. */
  lemma SharedEmailRaises(users: seq<User>, name: string, password: string, i: nat, j: nat)
    requires i < j < |users|
    requires forall k :: 0 <= k < |users| ==> users[k].username != name
    requires LikeEquals(users[i].email, name) && LikeEquals(users[j].email, name)
    ensures LoginUser(users, name, password) == Raised
  {
    NotFoundMeansNone(users, (u: User) => u.username == name);
    GetTwo(users, (u: User) => LikeEquals(u.email, name), i, j);
  }

  /** A reset request for an address two accounts share also ends in `MultipleObjectsReturned`. */
  lemma SharedEmailResetCrashes(env: Env, db: Db, session: Option<SessionData>, email: string, mailOk: bool, i: nat, j: nat)
    requires i < j < |db.users| && email != ""
    requires LikeEquals(db.users[i].email, email) && LikeEquals(db.users[j].email, email)
    ensures ResetRequest(env, db, session, Some(email), mailOk).response == Response(500, Crash)
    ensures ResetRequest(env, db, session, Some(email), mailOk).mail == None
  {
    GetTwo(db.users, (u: User) => LikeEquals(u.email, email), i, j);
  }

  // ---------------------------------------------------------------------
  // The current user and logout
  // ---------------------------------------------------------------------

  /**
   * GET of the current user: 200 with the signed-in user's row and profile
   * exactly when the session is signed in, 401 otherwise; nothing is
   * stored.
   */
  lemma CurrentUserOutcome(db: Db, session: Option<SessionData>)
    ensures var o := CurrentUser(db, session);
      && o.db == db
      && (o.response.status == 200 <==> SignedIn(db, session))
      && (SignedIn(db, session) ==>
            o.response.body == Shown(Represent(ByPk(db.users, session.value.user).user, db.profiles))
            && o.response.body.user.id == session.value.user)
      && (!SignedIn(db, session) ==> o.response == Response(401, Detail("Not authenticated")))
  {
    ResolveMeaning(db, session);
  }

  /**
   * Logout ends a signed-in session with 200 and otherwise answers 403
   * with DRF's missing-credentials detail; the tables never change.
   */
  lemma LogoutOutcome(db: Db, session: Option<SessionData>)
    ensures var o := Logout(db, session);
      && o.db == db
      && (o.response.status == 200 <==> SignedIn(db, session))
      && (SignedIn(db, session) ==> o.session == None && Resolve(o.db, o.session).0 == None)
      && (!SignedIn(db, session) ==> o.response == Response(403, Detail(NoCredentials)))
  {
    ResolveMeaning(db, session);
  }

  /** A PATCH from a session that is not signed in is refused before the body is read. */
  lemma PatchNeedsSession(env: Env, db: Db, session: Option<SessionData>, d: Changes)
    requires !SignedIn(db, session)
    ensures PatchCurrentUser(env, db, session, d).response == Response(401, Detail(NoCredentials))
    ensures PatchCurrentUser(env, db, session, d).db == db
    ensures PatchCurrentUserAsWritten(env, db, session, d) == PatchCurrentUser(env, db, session, d)
  {
    ResolveMeaning(db, session);
  }

  /** The phone the user's profile held before the PATCH, `None` when there was no profile. */
  function PhoneBefore(profiles: seq<Profile>, pk: nat): Option<string> {
    if ProfileOf(profiles, pk).Some? then ProfileOf(profiles, pk).value.phone else None
  }

  /**
   * A valid PATCH by the signed-in user `i` changes exactly the fields it
   * names: the username, key and password stay (so the session stays
   * signed in), the email and names are replaced when given, the profile
   * exists afterwards with the given phone or the one it had, every other
   * user and profile is untouched, and the response shows what is stored.
   */
  lemma PatchApplied(env: Env, db: Db, session: Option<SessionData>, d: Changes, i: nat)
    requires Valid(db) && i < |db.users|
    requires Resolve(db, session).0 == Some(db.users[i])
    requires PatchValidate(env, d).Ok?
    ensures var o := PatchCurrentUser(env, db, session, d);
      var u := o.db.users[i];
      var pk := db.users[i].pk;
      && o.response.status == 200
      && |o.db.users| == |db.users|
      && (forall j :: 0 <= j < |db.users| && j != i ==> o.db.users[j] == db.users[j])
      && u.pk == pk && u.username == db.users[i].username && u.password == db.users[i].password
      && u.email == (if d.email.Some? then Strip(d.email.value) else db.users[i].email)
      && u.firstName == (if d.firstName.Some? then Strip(d.firstName.value) else db.users[i].firstName)
      && u.lastName == (if d.lastName.Some? then Strip(d.lastName.value) else db.users[i].lastName)
      && ProfileOf(o.db.profiles, pk).Some?
      && ProfileOf(o.db.profiles, pk).value.phone == (if d.phone.Some? then Some(Strip(d.phone.value)) else PhoneBefore(db.profiles, pk))
      && (forall q: nat :: q != pk ==> ProfileOf(o.db.profiles, q) == ProfileOf(db.profiles, q))
      && Resolve(o.db, session).0 == Some(u)
      && o.response.body == Shown(Represent(u, o.db.profiles))
  {
    var c := PatchValidate(env, d).value;
    var me := db.users[i];
    var pk := me.pk;
    var o := PatchCurrentUser(env, db, session, d);
    PatchValidateMeaning(env, d);
    var saved := Save(db, Apply(me, c));
    SaveKeepsValid(db, i, Apply(me, c));
    EnsureProfileOnce(db.profiles, pk);
    assert o.db == Update(db, me, c);
    forall q: nat | q != pk ensures ProfileOf(o.db.profiles, q) == ProfileOf(db.profiles, q) {
      EnsureProfileOthers(db.profiles, pk, q);
      if c.phone.Some? {
        SetPhoneOthers(saved.profiles, pk, c.phone.value, q);
      }
    }
    if c.phone.Some? {
      SetPhoneReads(saved.profiles, pk, c.phone.value);
    }
    UpdateKeepsValid(db, i, c);
    ResolveOwnSession(o.db, i);
  }

  /**
   * The PATCH as written answers with the phone the profile had before
   * the request: when a new phone is sent, the stored phone and the one
   * shown differ.
   */
  lemma StalePhone(env: Env, db: Db, session: Option<SessionData>, d: Changes, i: nat)
    requires Valid(db) && i < |db.users|
    requires Resolve(db, session).0 == Some(db.users[i])
    requires PatchValidate(env, d).Ok?
    requires d.phone.Some? && PhoneBefore(db.profiles, db.users[i].pk) != Some(Strip(d.phone.value))
    ensures var o := PatchCurrentUserAsWritten(env, db, session, d);
      && o.db == PatchCurrentUser(env, db, session, d).db
      && o.response.status == 200
      && o.response.body.user.phone == PhoneBefore(db.profiles, db.users[i].pk)
      && ProfileOf(o.db.profiles, db.users[i].pk).Some?
      && o.response.body.user.phone != ProfileOf(o.db.profiles, db.users[i].pk).value.phone
  {
    var c := PatchValidate(env, d).value;
    var me := db.users[i];
    PatchValidateMeaning(env, d);
    EnsureProfileOnce(db.profiles, me.pk);
    PatchApplied(env, db, session, d, i);
  }
}
