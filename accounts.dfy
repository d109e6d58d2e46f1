/**
 * The account tables behind the auth views: Django's `User`, the
 * one-to-one `Profile` of api/models.py with its two `post_save` signal
 * handlers, the lookups the views run (`get` by username, by primary key
 * and by `email__iexact`), the session that `login` writes and every
 * request reads back, and the password-reset token.
 *
 * Password hashing and the token generator's HMAC are library code: a
 * stored password is the pair (salt, password) and a token is `mint` of
 * the values Django's generator hashes. Only the properties the views rely
 * on are assumed about `mint` (see `MintInjective` and `MintText`).
 */
module Accounts {
  import opened Wrappers
  import opened PyText
  import opened SqlText
  import opened Seqs

  /** A stored password: the hasher's salt and the text it was made from. */
  datatype PasswordHash = PasswordHash(salt: nat, password: string)

  /** `django.contrib.auth.models.User`, the columns the core reads and writes. */
  datatype User = User(
    pk: nat,
    username: string,
    email: string,
    firstName: string,
    lastName: string,
    password: PasswordHash,
    lastLogin: Option<int>)

  /** `last_login` and the clock count microseconds, the resolution of `timezone.now()`. */
  const MicrosPerSecond: nat := 1000000

  /** `Profile`: `user` is the one-to-one key, `phone` the nullable `phone_number`. */
  datatype Profile = Profile(user: nat, phone: Option<string>)

  /**
   * The database: users in primary-key order, profiles, the next key the
   * auto-increment column hands out and the next hasher salt (salts are
   * random in Django; here they are never reused).
   */
  datatype Db = Db(users: seq<User>, profiles: seq<Profile>, nextPk: nat, nextSalt: nat)

  /** What `login` stores in the session: the user's key and the password the session was opened with. */
  datatype SessionData = SessionData(user: nat, authHash: PasswordHash)

  /**
   * The values `PasswordResetTokenGenerator._make_hash_value` hashes (the
   * timestamp aside); `lastLogin` is in whole seconds.
   */
  datatype TokenKey = TokenKey(pk: nat, password: PasswordHash, lastLogin: Option<int>, email: string)

  /**
   * What the views take from outside: the token generator and Django's
   * `EmailValidator`.
   */
  datatype Env = Env(mint: TokenKey -> string, validEmail: string -> bool)

  /** The result of a `get()`: no row, one row, or `MultipleObjectsReturned`. */
  datatype Lookup = NotFound | Found(user: User) | Multiple

  /** Rows in primary-key order with distinct keys and usernames; at most one profile per user, and only for existing users. */
  predicate Valid(db: Db) {
    RowsOk(db) && ProfilesOk(db)
  }

  /** Keys ascend and stay below the counter, salts were handed out, usernames are distinct. */
  predicate RowsOk(db: Db) {
    && (forall i, j :: 0 <= i < j < |db.users| ==> db.users[i].pk < db.users[j].pk)
    && (forall i :: 0 <= i < |db.users| ==> db.users[i].pk < db.nextPk && db.users[i].password.salt < db.nextSalt)
    && (forall i, j :: 0 <= i < j < |db.users| ==> db.users[i].username != db.users[j].username)
  }

  /** At most one profile per user, and only for existing users. */
  predicate ProfilesOk(db: Db) {
    && (forall i, j :: 0 <= i < j < |db.profiles| ==> db.profiles[i].user != db.profiles[j].user)
    && (forall p :: p in db.profiles ==> exists u :: u in db.users && u.pk == p.user)
  }

  /** `Model.objects.get(...)` over the rows a filter selected. */
  function Get(rows: seq<User>): (r: Lookup)
    ensures r.Found? <==> |rows| == 1
    ensures r.NotFound? <==> rows == []
    ensures r.Found? ==> r.user == rows[0]
  {
    if |rows| == 0 then NotFound else if |rows| == 1 then Found(rows[0]) else Multiple
  }

  /** `User.objects.get(username=name)`: an exact, case-sensitive match. */
  function ByUsername(users: seq<User>, name: string): Lookup {
    Get(Filter(users, (u: User) => u.username == name))
  }

  /** `User.objects.get(email__iexact=email)` on SQLite. */
  function ByEmail(users: seq<User>, email: string): Lookup {
    Get(Filter(users, (u: User) => LikeEquals(u.email, email)))
  }

  /** `User.objects.get(pk=key)` */
  function ByPk(users: seq<User>, key: int): Lookup {
    Get(Filter(users, (u: User) => u.pk == key))
  }

  /** A lookup finds a row exactly when one row matches, and then it is that row. */
  lemma GetUnique(users: seq<User>, f: User -> bool, i: nat)
    requires i < |users| && f(users[i])
    requires forall j :: 0 <= j < |users| && j != i ==> !f(users[j])
    ensures Get(Filter(users, f)) == Found(users[i])
  {
    FilterSingle(users, f, i);
  }

  /** A lookup finds nothing exactly when no row matches. */
  lemma NotFoundMeansNone(users: seq<User>, f: User -> bool)
    ensures Get(Filter(users, f)).NotFound? <==> forall i :: 0 <= i < |users| ==> !f(users[i])
  {
    if Get(Filter(users, f)).NotFound? {
      forall i | 0 <= i < |users| ensures !f(users[i]) {
        assert users[i] in users;
      }
    } else {
      assert Filter(users, f)[0] in Filter(users, f);
    }
  }

  /** Two matching rows make `get()` raise. */
  lemma GetTwo(users: seq<User>, f: User -> bool, i: nat, j: nat)
    requires i < j < |users| && f(users[i]) && f(users[j])
    ensures Get(Filter(users, f)) == Multiple
  {
    FilterTwo(users, f, i, j);
  }

  /** In a valid table every user is found by its own key and its own username. */
  lemma FindOwnRow(db: Db, i: nat)
    requires Valid(db) && i < |db.users|
    ensures ByPk(db.users, db.users[i].pk) == Found(db.users[i])
    ensures ByUsername(db.users, db.users[i].username) == Found(db.users[i])
  {
    var u := db.users[i];
    forall j | 0 <= j < |db.users| && j != i
      ensures db.users[j].pk != u.pk && db.users[j].username != u.username
    {
      if j < i {
      } else {
      }
    }
    GetUnique(db.users, (v: User) => v.pk == u.pk, i);
    GetUnique(db.users, (v: User) => v.username == u.username, i);
  }

  /** A lookup that finds a row finds one of the table's rows, matching the condition. */
  lemma FoundIsRow(users: seq<User>, f: User -> bool)
    requires Get(Filter(users, f)).Found?
    ensures Get(Filter(users, f)).user in users && f(Get(Filter(users, f)).user)
  {
    assert Filter(users, f)[0] in Filter(users, f);
  }

  /** `check_password`: the raw text is the one the stored password was made from. */
  predicate CheckPassword(u: User, raw: string) {
    u.password.password == raw
  }

  /** The profile of user `pk`, if there is one. */
  function ProfileOf(profiles: seq<Profile>, pk: nat): (r: Option<Profile>)
    ensures r.Some? ==> r.value in profiles && r.value.user == pk
    ensures r.None? <==> forall p :: p in profiles ==> p.user != pk
  {
    if profiles == [] then None
    else if profiles[0].user == pk then Some(profiles[0])
    else ProfileOf(profiles[1..], pk)
  }

  /** `Profile.objects.get_or_create(user=instance)`: a new profile has no phone. */
  function EnsureProfile(profiles: seq<Profile>, pk: nat): seq<Profile> {
    if ProfileOf(profiles, pk).Some? then profiles else profiles + [Profile(pk, None)]
  }

  /**
   * `get_or_create` never makes a second profile: after it the user has
   * one, an existing one is left as it was, and running it again changes
   * nothing.
   */
  lemma EnsureProfileOnce(profiles: seq<Profile>, pk: nat)
    ensures ProfileOf(EnsureProfile(profiles, pk), pk).Some?
    ensures ProfileOf(profiles, pk).Some? ==> EnsureProfile(profiles, pk) == profiles
    ensures ProfileOf(profiles, pk).None? ==> ProfileOf(EnsureProfile(profiles, pk), pk) == Some(Profile(pk, None))
    ensures EnsureProfile(EnsureProfile(profiles, pk), pk) == EnsureProfile(profiles, pk)
  {
    if ProfileOf(profiles, pk).None? {
      ProfileOfAppend(profiles, Profile(pk, None), pk);
    }
  }

  lemma {:induction false} ProfileOfAppend(profiles: seq<Profile>, p: Profile, pk: nat)
    requires ProfileOf(profiles, pk).None?
    ensures ProfileOf(profiles + [p], pk) == if p.user == pk then Some(p) else None
    decreases |profiles|
  {
    if profiles != [] {
      assert (profiles + [p])[1..] == profiles[1..] + [p];
      ProfileOfAppend(profiles[1..], p, pk);
    }
  }

  /** The profile rows after `profile.phone_number = phone; profile.save()`. */
  function SetPhone(profiles: seq<Profile>, pk: nat, phone: string): (r: seq<Profile>)
    ensures |r| == |profiles|
    ensures forall i :: 0 <= i < |r| ==> r[i].user == profiles[i].user
  {
    seq(|profiles|, i requires 0 <= i < |profiles| =>
      if profiles[i].user == pk then profiles[i].(phone := Some(phone)) else profiles[i])
  }

  /** Setting a phone reaches the user's profile. */
  lemma {:induction false} SetPhoneReads(profiles: seq<Profile>, pk: nat, phone: string)
    requires ProfileOf(profiles, pk).Some?
    ensures ProfileOf(SetPhone(profiles, pk, phone), pk) == Some(Profile(pk, Some(phone)))
    decreases |profiles|
  {
    if profiles[0].user != pk {
      assert SetPhone(profiles, pk, phone)[1..] == SetPhone(profiles[1..], pk, phone);
      SetPhoneReads(profiles[1..], pk, phone);
    }
  }

  /** Setting a phone leaves every other user's profile as it was. */
  lemma {:induction false} SetPhoneOthers(profiles: seq<Profile>, pk: nat, phone: string, other: nat)
    requires other != pk
    ensures ProfileOf(SetPhone(profiles, pk, phone), other) == ProfileOf(profiles, other)
    decreases |profiles|
  {
    if profiles != [] {
      assert SetPhone(profiles, pk, phone)[1..] == SetPhone(profiles[1..], pk, phone);
      SetPhoneOthers(profiles[1..], pk, phone, other);
    }
  }

  /** `user.save()` on an existing row: the row with the same key is replaced. */
  function Replace(users: seq<User>, u: User): (r: seq<User>)
    ensures |r| == |users|
    ensures forall i :: 0 <= i < |users| ==> r[i] == if users[i].pk == u.pk then u else users[i]
  {
    seq(|users|, i requires 0 <= i < |users| => if users[i].pk == u.pk then u else users[i])
  }

  /**
   * Saving a user: the row is written, then the `post_save` handlers run.
   * `create_user_profile` (on creation) and `save_user_profile` both come
   * down to a `get_or_create` of the profile; the handler's
   * `instance.profile.save()` rewrites the row unchanged.
   */
  function Save(db: Db, u: User): Db {
    db.(users := Replace(db.users, u), profiles := EnsureProfile(db.profiles, u.pk))
  }

  /**
   * Saving an existing user, with its key and username kept and a salt
   * already drawn, rewrites only its row, leaves it with a profile and
   * keeps the tables valid.
   */
  lemma SaveKeepsValid(db: Db, i: nat, u: User)
    requires Valid(db) && i < |db.users|
    requires u.pk == db.users[i].pk && u.username == db.users[i].username && u.password.salt < db.nextSalt
    ensures Valid(Save(db, u))
    ensures Save(db, u).users[i] == u
    ensures forall j :: 0 <= j < |db.users| && j != i ==> Save(db, u).users[j] == db.users[j]
    ensures ProfileOf(Save(db, u).profiles, u.pk).Some?
  {
    SaveKeepsRows(db, i, u);
    EnsureProfileOnce(db.profiles, u.pk);
  }

  lemma SaveKeepsRows(db: Db, i: nat, u: User)
    requires Valid(db) && i < |db.users|
    requires u.pk == db.users[i].pk && u.username == db.users[i].username && u.password.salt < db.nextSalt
    ensures Valid(Save(db, u))
    ensures Save(db, u).users[i] == u
    ensures forall j :: 0 <= j < |db.users| && j != i ==> Save(db, u).users[j] == db.users[j]
  {
    var db' := Save(db, u);
    forall j | 0 <= j < |db.users| && j != i ensures db.users[j].pk != u.pk {
      if j < i {
      } else {
      }
    }
    forall p | p in db'.profiles ensures exists v :: v in db'.users && v.pk == p.user {
      if p in db.profiles {
        var v :| v in db.users && v.pk == p.user;
        var k :| 0 <= k < |db.users| && db.users[k] == v;
        assert db'.users[k] in db'.users;
      } else {
        assert db'.users[i] in db'.users;
      }
    }
    forall a, b | 0 <= a < b < |db'.profiles| ensures db'.profiles[a].user != db'.profiles[b].user {
      if b >= |db.profiles| {
        assert db'.profiles[a] in db.profiles;
      }
    }
  }

  /** What `UserSerializer` shows of a user: `phone` is `None` for a JSON null. */
  datatype UserView = UserView(id: nat, username: string, email: string, firstName: string, lastName: string, phone: Option<string>)

  /**
   * `UserSerializer.to_representation`: the model fields, then
   * `phone_number` from the profile, or "" when the user has none.
   */
  function Represent(u: User, profiles: seq<Profile>): (r: UserView)
    ensures r.id == u.pk && r.username == u.username && r.email == u.email
    ensures r.firstName == u.firstName && r.lastName == u.lastName
    ensures ProfileOf(profiles, u.pk).Some? ==> r.phone == ProfileOf(profiles, u.pk).value.phone
    ensures ProfileOf(profiles, u.pk).None? ==> r.phone == Some("")
  {
    var phone := match ProfileOf(profiles, u.pk)
      case Some(p) => p.phone
      case None => Some("");
    UserView(u.pk, u.username, u.email, u.firstName, u.lastName, phone)
  }

  /** `last_login.replace(microsecond=0)`: the whole second an instant falls in. */
  function WholeSecond(t: int): int {
    t / MicrosPerSecond
  }

  /** The key of a user's reset token: the last login counts only to the second. */
  function KeyOf(u: User): TokenKey {
    var login := match u.lastLogin
      case Some(t) => Some(WholeSecond(t))
      case None => None;
    TokenKey(u.pk, u.password, login, u.email)
  }

  /**
   * Stamping a new last-login time changes the token key exactly when the
   * user had not logged in yet or the new time falls in another second.
   */
  lemma StampChangesKey(u: User, now: int)
    ensures KeyOf(u.(lastLogin := Some(now))) != KeyOf(u)
      <==> u.lastLogin.None? || WholeSecond(u.lastLogin.value) != WholeSecond(now)
  {
  }

  /** `default_token_generator.check_token(user, token)` */
  predicate CheckToken(mint: TokenKey -> string, u: User, token: string) {
    token != "" && token == mint(KeyOf(u))
  }

  /**
   * What the reset flow relies on of the generator, first: distinct keys
   * give distinct tokens (an HMAC collision aside).
   */
  ghost predicate MintInjective(mint: TokenKey -> string) {
    forall a, b :: mint(a) == mint(b) ==> a == b
  }

  /** Second: a token is non-empty text without surrounding whitespace. */
  ghost predicate MintText(mint: TokenKey -> string) {
    forall k :: mint(k) != "" && Strip(mint(k)) == mint(k)
  }

  /**
   * How every request resolves `request.user` from the session: the user
   * with the stored key, provided the password the session was opened with
   * is still the user's password; otherwise Django flushes the session.
   * A key that no longer names a user resolves to no one.
   */
  function Resolve(db: Db, session: Option<SessionData>): (r: (Option<User>, Option<SessionData>))
    ensures r.0.Some? ==> session.Some? && r.0.value in db.users && r.0.value.pk == session.value.user
                          && r.0.value.password == session.value.authHash && r.1 == session
    ensures r.0.None? ==> r.1 == None || r.1 == session
  {
    match session
    case None => (None, None)
    case Some(s) =>
      match ByPk(db.users, s.user)
      case Found(u) =>
        FoundIsRow(db.users, (v: User) => v.pk == s.user);
        if u.password == s.authHash then (Some(u), session) else (None, None)
      case _ => (None, session)
  }

  /** A session opened for a user resolves to that user while the password stays the same. */
  lemma ResolveOwnSession(db: Db, i: nat)
    requires Valid(db) && i < |db.users|
    ensures Resolve(db, Some(SessionData(db.users[i].pk, db.users[i].password))).0 == Some(db.users[i])
  {
    FindOwnRow(db, i);
  }
}
