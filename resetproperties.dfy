/**
 * What the password-reset views promise: the request answers the same
 * whether or not the address has an account, the mailed link resets that
 * account's password once, a login or a reset retires older tokens, and
 * a reset signs out the sessions opened with the old password.
 */
module ResetProperties {
  import opened Wrappers
  import opened PyText
  import opened SqlText
  import opened Seqs
  import opened Accounts
  import opened Serializers
  import opened AuthViews
  import opened AuthInvariants
  import opened AuthProperties
  import opened Base64Url
  import opened PyInt

  /** An empty uid names no user. */
  lemma EmptyUidInvalid()
    ensures DecodeUid("") == None
  {
    assert Pads(Utf8Size("") % 4) == "";
    assert UrlsafeDecode("") == Some([]);
    assert AsciiText([]) == Some("");
  }

  /** The uid of a reset link is never empty, so the view never takes it for a missing field. */
  lemma UidNonEmpty(pk: nat)
    ensures EncodeUid(pk) != ""
  {
    DecodeUidText(pk);
    assert UrlsafeDecode("") == Some([]) by {
      assert Pads(Utf8Size("") % 4) == "";
    }
    assert |AsciiBytes(Decimal(pk))| > 0;
  }

  /** Keys are distinct: two rows with the same key are the same row. */
  lemma SamePk(db: Db, i: nat, j: nat)
    requires Valid(db) && i < |db.users| && j < |db.users|
    requires db.users[i].pk == db.users[j].pk
    ensures i == j
  {
  }

  /** Distinct rows have distinct keys. */
  lemma DistinctRows(db: Db, i: nat, j: nat)
    requires Valid(db) && i < |db.users| && j < |db.users| && i != j
    ensures db.users[i].pk != db.users[j].pk
  {
    if i < j {
      assert db.users[i].pk < db.users[j].pk;
    } else {
      assert db.users[j].pk < db.users[i].pk;
    }
  }

  // ---------------------------------------------------------------------
  // The reset request
  // ---------------------------------------------------------------------

  /**
   * A reset request never changes the tables. A missing or empty address
   * is refused; an address with no account gets the same 200 as one whose
   * mail went out, and no mail; a mail goes out exactly when one account
   * matches the address and sending works.
   */
  lemma ResetRequestOutcome(env: Env, db: Db, session: Option<SessionData>, email: Option<string>, mailOk: bool)
    ensures var o := ResetRequest(env, db, session, email, mailOk);
      && o.db == db
      && (email.None? || email.value == "" ==> o.response == Response(400, ErrorText("Email is required")))
      && (o.mail.Some? <==> email.Some? && email.value != "" && ByEmail(db.users, email.value).Found? && mailOk)
      && (email.Some? && email.value != "" && ByEmail(db.users, email.value).NotFound? ==> o.response == Response(200, Message(ResetSent)))
      && (o.mail.Some? ==> o.response == Response(200, Message(ResetSent)))
      && (email.Some? && email.value != "" && ByEmail(db.users, email.value).Found? && !mailOk ==>
            o.response == Response(500, ErrorText(MailFailed)))
  {
  }

  /** Whether an address has an account cannot be read off the answer to a request that succeeds. */
  lemma NoAccountEnumeration(env: Env, db: Db, s1: Option<SessionData>, s2: Option<SessionData>, unknown: string, known: string, mailOk: bool)
    requires unknown != "" && known != ""
    requires ByEmail(db.users, unknown).NotFound? && ByEmail(db.users, known).Found?
    ensures ResetRequest(env, db, s1, Some(unknown), mailOk).response == ResetRequest(env, db, s2, Some(known), true).response
    ensures ResetRequest(env, db, s1, Some(unknown), mailOk).mail == None
  {
  }

  /**
   * The mailed link goes to the address as typed and carries a non-empty
   * uid that decodes to the matched user's key and a token that user's
   * current state accepts.
   */
  lemma ResetMailLink(env: Env, db: Db, session: Option<SessionData>, email: string, i: nat)
    requires MintText(env.mint)
    requires email != "" && i < |db.users|
    requires ByEmail(db.users, email) == Found(db.users[i])
    requires |Decimal(db.users[i].pk)| <= MaxDigits
    ensures var m := ResetRequest(env, db, session, Some(email), true).mail;
      && m.Some? && m.value.to == email
      && m.value.uid != "" && DecodeUid(m.value.uid) == Some(db.users[i].pk)
      && CheckToken(env.mint, db.users[i], m.value.token)
      && Strip(m.value.token) == m.value.token
  {
    DecodeEncodeUid(db.users[i].pk);
    UidNonEmpty(db.users[i].pk);
  }

  // ---------------------------------------------------------------------
  // The reset confirmation
  // ---------------------------------------------------------------------

  /** Every field of the confirmation is there, after trimming. */
  predicate Complete(d: ResetData, trim: bool) {
    && d.uid.Some? && d.uid.value != ""
    && Strip(d.token.GetOr("")) != ""
    && d.newPassword.Some?
    && NewPassword(d, trim) != ""
  }

  /** The password the confirmation stores. */
  function NewPassword(d: ResetData, trim: bool): string {
    if trim then Strip(d.newPassword.GetOr("")) else d.newPassword.GetOr("")
  }

  /**
   * The checks of the confirmation in their order: missing fields, a uid
   * that does not decode or names no user, a token the user's state does
   * not accept. The password changes, to the one sent, exactly when every
   * check passes; otherwise nothing is stored. No mail is sent.
   */
  lemma ConfirmOutcome(env: Env, db: Db, session: Option<SessionData>, d: ResetData, trim: bool)
    ensures var o := Confirm(env, db, session, d, trim);
      && o.mail == None
      && (o.response.status != 200 ==> o.db == db)
      && (!Complete(d, trim) ==> o.response == Response(400, ErrorText(MissingFields)))
      && (Complete(d, trim) && DecodeUid(d.uid.value).None? ==> o.response == Response(400, ErrorText(InvalidLink)))
      && (Complete(d, trim) && DecodeUid(d.uid.value).Some? && ByPk(db.users, DecodeUid(d.uid.value).value).NotFound? ==>
            o.response == Response(400, ErrorText(InvalidLink)))
      && (Complete(d, trim) && DecodeUid(d.uid.value).Some? && ByPk(db.users, DecodeUid(d.uid.value).value).Found? ==>
            var u := ByPk(db.users, DecodeUid(d.uid.value).value).user;
            && (CheckToken(env.mint, u, Strip(d.token.value)) ==>
                  o.response == Response(200, Message(ResetDone)) && o.db == SetPassword(db, u, NewPassword(d, trim)))
            && (!CheckToken(env.mint, u, Strip(d.token.value)) ==> o.response == Response(400, ErrorText(InvalidToken))))
      && (o.response.status == 200 <==>
            && Complete(d, trim) && DecodeUid(d.uid.value).Some?
            && ByPk(db.users, DecodeUid(d.uid.value).value).Found?
            && CheckToken(env.mint, ByPk(db.users, DecodeUid(d.uid.value).value).user, Strip(d.token.value)))
  {
    var s := Resolve(db, session).1;
    var o := Confirm(env, db, session, d, trim);
    if Complete(d, trim) {
      assert o == ConfirmLink(env, db, s, DecodeUid(d.uid.value), Strip(d.token.value), NewPassword(d, trim));
    } else {
      assert o == Outcome(Response(400, ErrorText(MissingFields)), db, s, None);
    }
  }

  /**
   * After a successful confirmation: the row `i` the uid names had a token
   * that matched, and now holds the new password under a fresh salt;
   * every other row is as it was and the tables stay valid.
   */
  lemma ConfirmedRow(env: Env, db: Db, session: Option<SessionData>, d: ResetData, trim: bool) returns (i: nat)
    requires Valid(db)
    requires Confirm(env, db, session, d, trim).response.status == 200
    ensures var o := Confirm(env, db, session, d, trim);
      && Complete(d, trim)
      && i < |db.users| && DecodeUid(d.uid.value) == Some(db.users[i].pk)
      && CheckToken(env.mint, db.users[i], Strip(d.token.value))
      && Valid(o.db) && |o.db.users| == |db.users|
      && o.db.users[i] == db.users[i].(password := PasswordHash(db.nextSalt, NewPassword(d, trim)))
      && (forall j :: 0 <= j < |db.users| && j != i ==> o.db.users[j] == db.users[j])
      && o.db.nextSalt == db.nextSalt + 1
  {
    ConfirmOutcome(env, db, session, d, trim);
    var k := DecodeUid(d.uid.value).value;
    var u := ByPk(db.users, k).user;
    FoundIsRow(db.users, (v: User) => v.pk == k);
    i :| 0 <= i < |db.users| && db.users[i] == u;
    SetPasswordKeepsValid(db, i, NewPassword(d, trim));
    var bumped := db.(nextSalt := db.nextSalt + 1);
    SaveKeepsValid(bumped, i, u.(password := PasswordHash(db.nextSalt, NewPassword(d, trim))));
  }

  /** The two versions of the view agree whenever the new password has no surrounding whitespace. */
  lemma TrimmedPasswordsAgree(env: Env, db: Db, session: Option<SessionData>, d: ResetData)
    requires d.newPassword.Some? ==> Strip(d.newPassword.value) == d.newPassword.value
    ensures ResetConfirmAsWritten(env, db, session, d) == ResetConfirm(env, db, session, d)
  {
    assert NewPassword(d, false) == NewPassword(d, true);
  }

  /**
   * The link a reset request mails resets the password of the account the
   * address matched, to the new password as the login form will read it.
   */
  lemma ResetLinkWorks(env: Env, db: Db, s1: Option<SessionData>, s2: Option<SessionData>, email: string, i: nat, password: string)
    requires Valid(db) && MintText(env.mint)
    requires email != "" && i < |db.users|
    requires ByEmail(db.users, email) == Found(db.users[i])
    requires Strip(password) != ""
    requires |Decimal(db.users[i].pk)| <= MaxDigits
    ensures var m := ResetRequest(env, db, s1, Some(email), true).mail;
      && m.Some?
      && var o := ResetConfirm(env, db, s2, ResetData(Some(m.value.uid), Some(m.value.token), Some(password)));
      && o.response == Response(200, Message(ResetDone))
      && i < |o.db.users| && CheckPassword(o.db.users[i], Strip(password))
  {
    var u := db.users[i];
    var token := env.mint(KeyOf(u));
    assert token != "" && Strip(token) == token;
    assert ResetRequest(env, db, s1, Some(email), true).mail == Some(Mail(email, EncodeUid(u.pk), token));
    DecodeEncodeUid(u.pk);
    UidNonEmpty(u.pk);
    MailedLinkConfirms(env, db, s2, i, EncodeUid(u.pk), token, password);
  }

  /** A link whose uid decodes to row `i`'s key, with that row's current token, confirms a new password for it. */
  lemma MailedLinkConfirms(env: Env, db: Db, session: Option<SessionData>, i: nat, uid: string, token: string, password: string)
    requires Valid(db) && i < |db.users|
    requires uid != "" && DecodeUid(uid) == Some(db.users[i].pk)
    requires token == env.mint(KeyOf(db.users[i])) && token != "" && Strip(token) == token
    requires Strip(password) != ""
    ensures var o := ResetConfirm(env, db, session, ResetData(Some(uid), Some(token), Some(password)));
      && o.response == Response(200, Message(ResetDone))
      && i < |o.db.users| && CheckPassword(o.db.users[i], Strip(password))
  {
    var d := ResetData(Some(uid), Some(token), Some(password));
    assert Strip(d.token.GetOr("")) == token;
    assert NewPassword(d, true) == Strip(password);
    assert Complete(d, true);
    ConfirmAccepts(env, db, session, d, true, i);
    var o := Confirm(env, db, session, d, true);
    assert o.response == Response(200, Message(ResetDone));
    assert o.db.users[i].password == PasswordHash(db.nextSalt, Strip(password));
    assert ResetConfirm(env, db, session, d) == o;
  }

  /** A complete confirmation whose uid names row `i` and whose token that row accepts stores the new password there. */
  lemma ConfirmAccepts(env: Env, db: Db, session: Option<SessionData>, d: ResetData, trim: bool, i: nat)
    requires Valid(db) && i < |db.users|
    requires Complete(d, trim) && DecodeUid(d.uid.value) == Some(db.users[i].pk)
    requires CheckToken(env.mint, db.users[i], Strip(d.token.value))
    ensures var o := Confirm(env, db, session, d, trim);
      && o.response == Response(200, Message(ResetDone))
      && i < |o.db.users| && o.db.users[i].password == PasswordHash(db.nextSalt, NewPassword(d, trim))
  {
    FindOwnRow(db, i);
    var u := db.users[i];
    var o := Confirm(env, db, session, d, trim);
    var s := Resolve(db, session).1;
    var token, password := Strip(d.token.GetOr("")), NewPassword(d, trim);
    assert token == Strip(d.token.value);
    assert o == ConfirmLink(env, db, s, DecodeUid(d.uid.value), token, password);
    assert ConfirmLink(env, db, s, Some(u.pk), token, password)
        == Outcome(Response(200, Message(ResetDone)), SetPassword(db, u, password), s, None);
  }

  /** A token that reset a password is refused when it comes again. */
  lemma TokenSingleUse(env: Env, db: Db, s1: Option<SessionData>, s2: Option<SessionData>, d: ResetData, trim: bool)
    requires Valid(db) && MintInjective(env.mint)
    requires Confirm(env, db, s1, d, trim).response.status == 200
    ensures var o := Confirm(env, db, s1, d, trim);
      && Confirm(env, o.db, s2, d, trim).response == Response(400, ErrorText(InvalidToken))
      && Confirm(env, o.db, s2, d, trim).db == o.db
  {
    var o := Confirm(env, db, s1, d, trim);
    var i := ConfirmedRow(env, db, s1, d, trim);
    FoundByPk(o.db, i, db.users[i].pk);
    assert KeyOf(o.db.users[i]) != KeyOf(db.users[i]);
    ConfirmOutcome(env, o.db, s2, d, trim);
  }

  /**
   * A reset signs out every session opened with the user's old password,
   * the requester's own included, and leaves the sessions of every other
   * user signed in.
   */
  lemma ResetEndsSessions(env: Env, db: Db, session: Option<SessionData>, d: ResetData, trim: bool, other: Option<SessionData>)
    requires Valid(db)
    requires Confirm(env, db, session, d, trim).response.status == 200
    requires SignedIn(db, other)
    ensures SignedIn(Confirm(env, db, session, d, trim).db, other) <==> other.value.user != DecodeUid(d.uid.value).value
  {
    var o := Confirm(env, db, session, d, trim);
    var i := ConfirmedRow(env, db, session, d, trim);
    var k := other.value.user;
    var u := ByPk(db.users, k).user;
    FoundIsRow(db.users, (v: User) => v.pk == k);
    var j :| 0 <= j < |db.users| && db.users[j] == u;
    FoundByPk(o.db, j, k);
  }

  /**
   * A login retires the reset tokens minted before it, as the token
   * covers the last-login time to the second: the link mailed earlier is
   * refused unless the user last logged in during the same second.
   */
  lemma LoginInvalidatesToken(env: Env, db: Db, session: Option<SessionData>, ld: LoginData, now: int, i: nat,
                              s2: Option<SessionData>, d: ResetData, trim: bool)
    requires Valid(db) && MintInjective(env.mint) && i < |db.users|
    requires Login(env, db, session, ld, now).response.status == 200
    requires Login(env, db, session, ld, now).session.Some?
    requires Login(env, db, session, ld, now).session.value.user == db.users[i].pk
    requires db.users[i].lastLogin.None? || WholeSecond(db.users[i].lastLogin.value) != WholeSecond(now)
    requires d.uid.Some? && d.token.Some?
    requires Complete(d, trim) && DecodeUid(d.uid.value) == Some(db.users[i].pk)
    requires Strip(d.token.value) == env.mint(KeyOf(db.users[i]))
    ensures Confirm(env, Login(env, db, session, ld, now).db, s2, d, trim).response == Response(400, ErrorText(InvalidToken))
  {
    var o := Login(env, db, session, ld, now);
    var m := LoggedInRow(env, db, session, ld, now);
    SamePk(db, i, m);
    FoundByPk(o.db, i, db.users[i].pk);
    StampChangesKey(db.users[i], now);
    assert KeyOf(o.db.users[i]) != KeyOf(db.users[i]);
    ConfirmOutcome(env, o.db, s2, d, trim);
  }

  /**
   * The converse: a login in the same second as the user's last one leaves
   * every reset token the user had valid.
   */
  lemma SameSecondLoginKeepsToken(env: Env, db: Db, session: Option<SessionData>, ld: LoginData, now: int, i: nat, token: string)
    requires Valid(db) && i < |db.users|
    requires Login(env, db, session, ld, now).response.status == 200
    requires db.users[i].lastLogin.Some? && WholeSecond(db.users[i].lastLogin.value) == WholeSecond(now)
    requires CheckToken(env.mint, db.users[i], token)
    ensures var o := Login(env, db, session, ld, now);
      i < |o.db.users| && CheckToken(env.mint, o.db.users[i], token)
  {
    var m := LoggedInRow(env, db, session, ld, now);
    if m == i {
      StampChangesKey(db.users[i], now);
    }
  }

  /** The row a successful login stamped, with every other row as it was. */
  lemma LoggedInRow(env: Env, db: Db, session: Option<SessionData>, ld: LoginData, now: int) returns (i: nat)
    requires Valid(db)
    requires Login(env, db, session, ld, now).response.status == 200
    ensures var o := Login(env, db, session, ld, now);
      && i < |db.users|
      && o.session == Some(SessionData(db.users[i].pk, db.users[i].password))
      && CheckPassword(db.users[i], LoginValidate(env, ld).value.1)
      && Valid(o.db) && |o.db.users| == |db.users|
      && o.db.users[i] == db.users[i].(lastLogin := Some(now))
      && (forall j :: 0 <= j < |db.users| && j != i ==> o.db.users[j] == db.users[j])
  {
    var v := LoginValidate(env, ld);
    LoginOutcome(env, db, session, ld, now);
    var u := LoginUser(db.users, v.value.0, v.value.1).user;
    i :| 0 <= i < |db.users| && db.users[i] == u;
    var o := Login(env, db, session, ld, now);
    assert o.db == Save(db, u.(lastLogin := Some(now)));
    SaveKeepsValid(db, i, u.(lastLogin := Some(now)));
  }

  // ---------------------------------------------------------------------
  // Logging in with the new password
  // ---------------------------------------------------------------------

  /** The login form accepts a trimmed, non-blank identifier and password without NUL characters. */
  lemma LoginAccepts(env: Env, name: string, password: string)
    requires Strip(name) != "" && NoNull(Strip(name))
    requires Strip(password) != "" && NoNull(Strip(password))
    ensures LoginValidate(env, LoginData(Some(name), Some(password))) == Ok((Strip(name), Strip(password)))
  {
    var d := LoginData(Some(name), Some(password));
    CleanMeaning(d.username, true, false, PlainField, env, []);
    CleanMeaning(d.password, true, false, PlainField, env, []);
  }

  /**
   * With the password trimmed as the login form trims it, the new password
   * signs the user in by username, however it was padded.
   */
  lemma ResetThenLogin(env: Env, db: Db, s1: Option<SessionData>, s2: Option<SessionData>, d: ResetData, now: int, i: nat)
    requires Valid(db) && i < |db.users|
    requires ResetConfirm(env, db, s1, d).response.status == 200
    requires d.uid.Some? && d.newPassword.Some?
    requires DecodeUid(d.uid.value) == Some(db.users[i].pk)
    requires Strip(db.users[i].username) == db.users[i].username && db.users[i].username != "" && NoNull(db.users[i].username)
    requires NoNull(Strip(d.newPassword.value))
    ensures var o := ResetConfirm(env, db, s1, d);
      var l := Login(env, o.db, s2, LoginData(Some(db.users[i].username), d.newPassword), now);
      && l.response.status == 200
      && l.session.Some? && l.session.value.user == db.users[i].pk
  {
    var o := ResetConfirm(env, db, s1, d);
    var j := ConfirmedRow(env, db, s1, d, true);
    SamePk(db, i, j);
    var ld := LoginData(Some(db.users[i].username), d.newPassword);
    LoginAccepts(env, db.users[i].username, d.newPassword.value);
    LoginByUsername(env, o.db, s2, ld, now, i);
  }

  /**
   * As written, a new password with surrounding whitespace is stored as
   * sent, while every login trims the password it is given: no login can
   * ever sign that user in again.
   */
  lemma AsWrittenLockout(env: Env, db: Db, s1: Option<SessionData>, d: ResetData, s2: Option<SessionData>, ld: LoginData, now: int)
    requires Valid(db)
    requires ResetConfirmAsWritten(env, db, s1, d).response.status == 200
    requires d.uid.Some? && DecodeUid(d.uid.value).Some?
    requires d.newPassword.Some? && Strip(d.newPassword.value) != d.newPassword.value
    ensures var o := ResetConfirmAsWritten(env, db, s1, d);
      var l := Login(env, o.db, s2, ld, now);
      l.response.status == 200 ==> l.session.Some? && l.session.value.user != DecodeUid(d.uid.value).value
  {
    var o := ResetConfirmAsWritten(env, db, s1, d);
    var i := ConfirmedRow(env, db, s1, d, false);
    var l := Login(env, o.db, s2, ld, now);
    if l.response.status == 200 {
      var m := LoggedInRow(env, o.db, s2, ld, now);
      assert o.db.users[i].password.password == d.newPassword.value;
      TrimmedNeverMatches(o.db, i, m, ld.password.value);
    }
  }

  /** A login password is trimmed, so it never matches a stored password that is not. */
  lemma TrimmedNeverMatches(db: Db, i: nat, m: nat, typed: string)
    requires Valid(db) && i < |db.users| && m < |db.users|
    requires Strip(db.users[i].password.password) != db.users[i].password.password
    requires CheckPassword(db.users[m], Strip(typed))
    ensures db.users[m].pk != db.users[i].pk
  {
    StripNoop(Strip(typed));
    assert m != i;
    DistinctRows(db, m, i);
  }
}
