/** `POST /api/auth/reset-password/confirm`: setting a new password with a
    reset token. A used token and every other token for its email are
    deleted; an expired one is deleted on sight. */
module ResetConfirm {
  import opened Base
  import opened Seqs
  import opened Store
  import ResetRequest

  const MinPasswordLength: int := 8

  datatype Reply = FieldsRequired | PasswordTooShort | InvalidLink | LinkExpired | UserNotFound | PasswordReset

  function Status(r: Reply): int {
    match r
    case UserNotFound => 404
    case PasswordReset => 200
    case _ => 400
  }

  /** The reply and the user and token tables afterwards. */
  datatype Outcome = Outcome(reply: Reply, users: seq<User>, tokens: seq<ResetToken>)

  /** The route, given the tables, the body's `token` and `password` (""
      when absent), the time and the hash bcrypt computes for the password. */
  function Decide(users: seq<User>, tokens: seq<ResetToken>, token: string, password: string,
                  now: int, passwordHash: string): (o: Outcome)
    ensures o.reply != PasswordReset ==> o.users == users
    ensures o.reply != PasswordReset && o.reply != LinkExpired ==> o.tokens == tokens
  {
    if !Present(token) || !Present(password) then Outcome(FieldsRequired, users, tokens)
    else if |password| < MinPasswordLength then Outcome(PasswordTooShort, users, tokens)
    else match FindToken(tokens, token)
      case None => Outcome(InvalidLink, users, tokens)
      case Some(i) =>
        var record := tokens[i];
        if record.expires < now then Outcome(LinkExpired, users, RemoveAt(tokens, i))
        else match FindUserByEmail(users, record.email)
          case None => Outcome(UserNotFound, users, tokens)
          case Some(user) =>
            Outcome(PasswordReset, SetPasswordById(users, user.id, passwordHash), WithoutEmail(tokens, record.email))
  }

  method Post(db: Db, token: string, password: string, now: int, passwordHash: string) returns (reply: Reply)
    modifies db`users, db`tokens
    ensures var o := Decide(old(db.users), old(db.tokens), token, password, now, passwordHash);
            reply == o.reply && db.users == o.users && db.tokens == o.tokens
  {
    if !Present(token) || !Present(password) {
      return FieldsRequired;
    }
    if |password| < MinPasswordLength {
      return PasswordTooShort;
    }
    var resetToken := FindToken(db.tokens, token);
    if resetToken.None? {
      return InvalidLink;
    }
    var record := db.tokens[resetToken.value];
    if record.expires < now {
      db.DeleteTokenAt(resetToken.value);
      return LinkExpired;
    }
    var user := FindUserByEmail(db.users, record.email);
    if user.None? {
      return UserNotFound;
    }
    db.SetPassword(user.value.id, passwordHash);
    db.DeleteTokensFor(record.email);
    return PasswordReset;
  }

  // ---- properties of the route ----

  /** A reset needs a known, unexpired token (a token expiring at this very
      instant still works) and a password of at least eight characters; it
      sets the hash of the token's user, leaves every other user as it was,
      and no token for that email survives. */
  lemma ResetEffect(users: seq<User>, tokens: seq<ResetToken>, token: string, password: string, now: int, passwordHash: string)
    requires Decide(users, tokens, token, password, now, passwordHash).reply == PasswordReset
    ensures var o := Decide(users, tokens, token, password, now, passwordHash);
            && |password| >= MinPasswordLength
            && FindToken(tokens, token).Some?
            && var record := tokens[FindToken(tokens, token).value];
            && now <= record.expires
            && FindUserByEmail(users, record.email).Some?
            && var id := FindUserByEmail(users, record.email).value.id;
            && |o.users| == |users|
            && (forall k :: 0 <= k < |users| ==>
                  o.users[k] == if users[k].id == id then users[k].(passwordHash := passwordHash) else users[k])
            && ResetRequest.TokensFor(o.tokens, record.email) == []
  {
    var i := FindToken(tokens, token).value;
    FilterExcluded(tokens, (t: ResetToken) => t.email != tokens[i].email, ResetRequest.IssuedFor(tokens[i].email));
  }

  /** A token works once: after a reset, and after it is found expired, no
      record with it remains (token strings being unique). */
  lemma TokenSingleUse(users: seq<User>, tokens: seq<ResetToken>, token: string, password: string, now: int, passwordHash: string)
    requires UniqueTokens(tokens)
    requires Decide(users, tokens, token, password, now, passwordHash).reply in {PasswordReset, LinkExpired}
    ensures FindToken(Decide(users, tokens, token, password, now, passwordHash).tokens, token).None?
  {
    var o := Decide(users, tokens, token, password, now, passwordHash);
    var i := FindToken(tokens, token).value;
    forall t | t in o.tokens
      ensures t.token != token
    {
      var k :| 0 <= k < |tokens| && tokens[k] == t;
      if o.reply == PasswordReset {
        assert t.email != tokens[i].email;
        assert k != i;
      } else {
        var m :| 0 <= m < |o.tokens| && o.tokens[m] == t;
        assert t == tokens[if m < i then m else m + 1];
      }
    }
  }

  /** When the token's email has no account the reply is 404 and the token is
      kept. */
  lemma OrphanTokenKept(users: seq<User>, tokens: seq<ResetToken>, token: string, password: string, now: int, passwordHash: string)
    requires Decide(users, tokens, token, password, now, passwordHash).reply == UserNotFound
    ensures Decide(users, tokens, token, password, now, passwordHash).tokens == tokens
    ensures FindToken(tokens, token).Some?
  {
  }

  /** End to end: a request for a registered email followed, within the
      hour, by a confirmation with the issued token and an acceptable
      password resets that user's password. */
  lemma RequestThenConfirm(users: seq<User>, tokens: seq<ResetToken>, email: string, token: string, now: int,
                           password: string, later: int, passwordHash: string)
    requires Present(email) && FindUserByEmail(users, email).Some?
    requires Present(token) && forall i :: 0 <= i < |tokens| ==> tokens[i].token != token
    requires |password| >= MinPasswordLength
    requires later <= now + ResetRequest.TokenLifetimeMs
    ensures var issued := ResetRequest.Decide(users, tokens, email, token, now).tokens;
            Decide(users, issued, token, password, later, passwordHash).reply == PasswordReset
  {
    var rest := WithoutEmail(tokens, email);
    var issued := ResetRequest.Decide(users, tokens, email, token, now).tokens;
    forall j | 0 <= j < |rest|
      ensures rest[j].token != token
    {
      assert rest[j] in rest;
    }
    assert issued == rest + [ResetToken(email, token, now + ResetRequest.TokenLifetimeMs)];
    var r := FindToken(issued, token);
    assert issued[|rest|].token == token;
    assert r.Some?;
    assert r.value == |rest|;
  }
}
