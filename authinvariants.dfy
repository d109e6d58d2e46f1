/**
 * Every auth view keeps the account tables valid: keys increasing and
 * below the next key, usernames distinct, salts never reused, and every
 * profile belonging to an existing user, at most one per user.
 */
module AuthInvariants {
  import opened Wrappers
  import opened PyText
  import opened Seqs
  import opened Accounts
  import opened Serializers
  import opened AuthViews
  import opened Base64Url

  /** The user `authenticate` returns is a row whose password is the one given. */
  lemma AuthenticatedIsRow(users: seq<User>, name: string, password: string)
    requires Authenticate(users, name, password).Authenticated?
    ensures Authenticate(users, name, password).user in users
    ensures CheckPassword(Authenticate(users, name, password).user, password)
    ensures Authenticate(users, name, password).user.username == name
  {
    FoundIsRow(users, (u: User) => u.username == name);
  }

  /** Either phase of the login ends, when it ends in a user, in a row whose password is the one given. */
  lemma LoginUserIsRow(users: seq<User>, name: string, password: string)
    requires LoginUser(users, name, password).Authenticated?
    ensures LoginUser(users, name, password).user in users
    ensures CheckPassword(LoginUser(users, name, password).user, password)
  {
    if Authenticate(users, name, password).Authenticated? {
      AuthenticatedIsRow(users, name, password);
    } else {
      var v := ByEmail(users, name).user;
      AuthenticatedIsRow(users, v.username, password);
    }
  }

  /** A username the registration accepts belongs to no user yet. */
  lemma AcceptedUsernameFree(env: Env, users: seq<User>, d: RegisterData)
    requires RegisterValidate(env, users, d).Ok?
    ensures forall i :: 0 <= i < |users| ==> users[i].username != RegisterValidate(env, users, d).value.username
  {
    var fs := RegisterFields(env, users, d);
    RegisterValidateMeaning(env, users, d);
    CleanMeaning(d.username, true, false, UsernameField, env, users);
    assert !fs[0].1.Invalid?;
    var t := Strip(d.username.value);
    assert t != "";
    assert Checks(UsernameField, env, users, t) == [];
    assert ByUsername(users, t).NotFound?;
    NotFoundMeansNone(users, (u: User) => u.username == t);
  }

  /** No profile belongs to the key the next user will get. */
  lemma NextKeyHasNoProfile(db: Db)
    requires Valid(db)
    ensures ProfileOf(db.profiles, db.nextPk).None?
  {
    forall p | p in db.profiles ensures p.user != db.nextPk {
      var v :| v in db.users && v.pk == p.user;
      var k :| 0 <= k < |db.users| && db.users[k] == v;
    }
  }

  /** Inserting the new user keeps the tables valid and puts the row last. */
  lemma CreateKeepsValid(db: Db, a: Account)
    requires Valid(db)
    requires forall i :: 0 <= i < |db.users| ==> db.users[i].username != a.username
    ensures Valid(Create(db, a))
    ensures Create(db, a).users == db.users + [NewUser(db, a)]
  {
    CreateKeepsRows(db, a);
    NextKeyHasNoProfile(db);
    CreateKeepsProfiles(db, a);
  }

  /** The new row takes the next key and a fresh salt, and its username is free. */
  lemma CreateKeepsRows(db: Db, a: Account)
    requires RowsOk(db)
    requires forall i :: 0 <= i < |db.users| ==> db.users[i].username != a.username
    ensures RowsOk(Create(db, a))
  {
  }

  /** The new user's profile is the only one for its key. */
  lemma CreateKeepsProfiles(db: Db, a: Account)
    requires ProfilesOk(db) && ProfileOf(db.profiles, db.nextPk).None?
    ensures ProfilesOk(Create(db, a))
  {
    var u := NewUser(db, a);
    var c := Create(db, a);
    ProfileOfAppend(db.profiles, Profile(u.pk, None), u.pk);
    forall p | p in c.profiles ensures exists v :: v in c.users && v.pk == p.user {
      if p in db.profiles {
        var v :| v in db.users && v.pk == p.user;
        assert v in c.users;
      } else {
        assert u in c.users;
      }
    }
    forall x, y | 0 <= x < y < |c.profiles| ensures c.profiles[x].user != c.profiles[y].user {
      if y == |db.profiles| {
        assert c.profiles[x] in db.profiles;
      }
    }
  }

  lemma RegisterKeepsValid(env: Env, db: Db, session: Option<SessionData>, d: RegisterData, now: int)
    requires Valid(db)
    ensures Valid(Register(env, db, session, d, now).db)
  {
    var r := RegisterValidate(env, db.users, d);
    if r.Ok? {
      AcceptedUsernameFree(env, db.users, d);
      CreateKeepsValid(db, r.value);
      var c := Create(db, r.value);
      SaveKeepsValid(c, |db.users|, NewUser(db, r.value).(lastLogin := Some(now)));
    }
  }

  lemma LoginKeepsValid(env: Env, db: Db, session: Option<SessionData>, d: LoginData, now: int)
    requires Valid(db)
    ensures Valid(Login(env, db, session, d, now).db)
  {
    LoginDb(env, db, session, d, now);
    var v := LoginValidate(env, d);
    if v.Ok? && LoginUser(db.users, v.value.0, v.value.1).Authenticated? {
      var u := LoginUser(db.users, v.value.0, v.value.1).user;
      LoginUserIsRow(db.users, v.value.0, v.value.1);
      var i :| 0 <= i < |db.users| && db.users[i] == u;
      SaveKeepsValid(db, i, u.(lastLogin := Some(now)));
    }
  }

  /** The login writes only the signed-in user's row, with its new `last_login`. */
  lemma LoginDb(env: Env, db: Db, session: Option<SessionData>, d: LoginData, now: int)
    ensures var v := LoginValidate(env, d);
      Login(env, db, session, d, now).db ==
        if v.Ok? && LoginUser(db.users, v.value.0, v.value.1).Authenticated? then
          Save(db, LoginUser(db.users, v.value.0, v.value.1).user.(lastLogin := Some(now)))
        else db
  {
  }

  /** Storing a phone keeps every profile on its user. */
  lemma SetPhoneKeepsValid(db: Db, pk: nat, phone: string)
    requires Valid(db)
    ensures Valid(db.(profiles := SetPhone(db.profiles, pk, phone)))
  {
    var ps := SetPhone(db.profiles, pk, phone);
    forall p | p in ps ensures exists v :: v in db.users && v.pk == p.user {
      var k :| 0 <= k < |ps| && ps[k] == p;
      assert db.profiles[k] in db.profiles;
    }
  }

  lemma UpdateKeepsValid(db: Db, i: nat, c: Changes)
    requires Valid(db) && i < |db.users|
    ensures Valid(Update(db, db.users[i], c))
  {
    var u := db.users[i];
    SaveKeepsValid(db, i, Apply(u, c));
    if c.phone.Some? {
      SetPhoneKeepsValid(Save(db, Apply(u, c)), u.pk, c.phone.value);
    }
  }

  /** The user a session resolves to is one of the rows. */
  lemma ResolvedIsRow(db: Db, session: Option<SessionData>) returns (i: nat)
    requires Resolve(db, session).0.Some?
    ensures i < |db.users| && db.users[i] == Resolve(db, session).0.value
  {
    i :| 0 <= i < |db.users| && db.users[i] == Resolve(db, session).0.value;
  }

  lemma PatchKeepsValid(env: Env, db: Db, session: Option<SessionData>, d: Changes)
    requires Valid(db)
    ensures Valid(PatchCurrentUser(env, db, session, d).db)
    ensures Valid(PatchCurrentUserAsWritten(env, db, session, d).db)
  {
    var me := Resolve(db, session).0;
    if me.Some? && PatchValidate(env, d).Ok? {
      var i := ResolvedIsRow(db, session);
      UpdateKeepsValid(db, i, PatchValidate(env, d).value);
    }
  }

  /** Storing a new password for row `i` keeps the tables valid. */
  lemma SetPasswordKeepsValid(db: Db, i: nat, password: string)
    requires Valid(db) && i < |db.users|
    ensures Valid(SetPassword(db, db.users[i], password))
  {
    var bumped := db.(nextSalt := db.nextSalt + 1);
    SaveKeepsValid(bumped, i, db.users[i].(password := PasswordHash(db.nextSalt, password)));
  }

  lemma ConfirmLinkKeepsValid(env: Env, db: Db, s: Option<SessionData>, key: Option<int>, token: string, password: string)
    requires Valid(db)
    ensures Valid(ConfirmLink(env, db, s, key, token, password).db)
  {
    var o := ConfirmLink(env, db, s, key, token, password);
    if key.Some? && ByPk(db.users, key.value).Found? {
      var u := ByPk(db.users, key.value).user;
      if CheckToken(env.mint, u, token) {
        assert o.db == SetPassword(db, u, password);
        FoundIsRow(db.users, (v: User) => v.pk == key.value);
        var i :| 0 <= i < |db.users| && db.users[i] == u;
        SetPasswordKeepsValid(db, i, password);
      } else {
        assert o.db == db;
      }
    } else {
      assert o.db == db;
    }
  }

  lemma ConfirmKeepsValid(env: Env, db: Db, session: Option<SessionData>, d: ResetData, trim: bool)
    requires Valid(db)
    ensures Valid(Confirm(env, db, session, d, trim).db)
  {
    var s := Resolve(db, session).1;
    var token := Strip(d.token.GetOr(""));
    var password := if trim then Strip(d.newPassword.GetOr("")) else d.newPassword.GetOr("");
    var o := Confirm(env, db, session, d, trim);
    if d.uid.None? || d.uid.value == "" || token == "" || d.newPassword.None? || password == "" {
      assert o.db == db;
    } else {
      assert o == ConfirmLink(env, db, s, DecodeUid(d.uid.value), token, password);
      ConfirmLinkKeepsValid(env, db, s, DecodeUid(d.uid.value), token, password);
    }
  }
}
