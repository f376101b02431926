/** `POST /api/auth/reset-password`: issuing a password-reset token. The
    reply never reveals whether the email belongs to an account. */
module ResetRequest {
  import opened Base
  import opened Seqs
  import opened Store

  /** One hour, in milliseconds. */
  const TokenLifetimeMs: int := 60 * 60 * 1000

  datatype Reply = EmailRequired | Accepted | ServerError

  function Status(r: Reply): int {
    match r
    case EmailRequired => 400
    case Accepted => 200
    case ServerError => 500
  }

  /** The reply and the token table afterwards. */
  datatype Outcome = Outcome(reply: Reply, tokens: seq<ResetToken>)

  function IssuedFor(email: string): ResetToken -> bool {
    (t: ResetToken) => t.email == email
  }

  /** The tokens issued for `email`, in table order. */
  function TokensFor(tokens: seq<ResetToken>, email: string): seq<ResetToken> {
    Filter(tokens, IssuedFor(email))
  }

  /** The route, given the users, the token table, the body's `email` (""
      when absent), the random token and the time. The old tokens of the
      email are deleted before the new one is created; a token string that
      another email already holds makes the create fail, and the route
      answers 500 with the deletion already done. */
  function Decide(users: seq<User>, tokens: seq<ResetToken>, email: string, token: string, now: int): (o: Outcome)
    ensures o.reply == EmailRequired <==> !Present(email)
    ensures o.reply == ServerError <==>
              Present(email) && FindUserByEmail(users, email).Some? && HasToken(WithoutEmail(tokens, email), token)
  {
    if !Present(email) then Outcome(EmailRequired, tokens)
    else if FindUserByEmail(users, email).None? then Outcome(Accepted, tokens)
    else
      var rest := WithoutEmail(tokens, email);
      if HasToken(rest, token) then Outcome(ServerError, rest)
      else Outcome(Accepted, rest + [ResetToken(email, token, now + TokenLifetimeMs)])
  }

  method Post(db: Db, email: string, token: string, now: int) returns (reply: Reply)
    modifies db`tokens
    ensures var o := Decide(db.users, old(db.tokens), email, token, now);
            reply == o.reply && db.tokens == o.tokens
  {
    if !Present(email) {
      return EmailRequired;
    }
    var user := FindUserByEmail(db.users, email);
    if user.Some? {
      db.DeleteTokensFor(email);
      var ok := db.CreateToken(ResetToken(email, token, now + TokenLifetimeMs));
      if !ok {
        return ServerError;
      }
    }
    return Accepted;
  }

  // ---- properties of the route ----

  /** No account enumeration: with a token not already stored, the reply is
      the same whatever the user table holds. */
  lemma ReplyIndependentOfAccounts(users1: seq<User>, users2: seq<User>, tokens: seq<ResetToken>,
                                   email: string, token: string, now: int)
    requires !HasToken(tokens, token)
    ensures Decide(users1, tokens, email, token, now).reply == Decide(users2, tokens, email, token, now).reply
  {
  }

  /** A token string already held by another email: the email's old tokens
      are gone, no new one is stored, and the reply is 500. */
  lemma CollidingTokenFails(users: seq<User>, tokens: seq<ResetToken>, email: string, token: string, now: int)
    requires Present(email) && FindUserByEmail(users, email).Some?
    requires HasToken(WithoutEmail(tokens, email), token)
    ensures var o := Decide(users, tokens, email, token, now);
            Status(o.reply) == 500 && o.tokens == WithoutEmail(tokens, email) && TokensFor(o.tokens, email) == []
  {
    FilterExcluded(tokens, (t: ResetToken) => t.email != email, IssuedFor(email));
  }

  /** After an accepted request for a registered email exactly one token is
      live for it, the new one, valid for one hour (none after a failed
      create); an unknown email changes nothing. */
  lemma OneTokenPerEmail(users: seq<User>, tokens: seq<ResetToken>, email: string, token: string, now: int)
    requires Present(email)
    ensures var o := Decide(users, tokens, email, token, now);
            FindUserByEmail(users, email).Some? ==>
              TokensFor(o.tokens, email) == if o.reply == Accepted then [ResetToken(email, token, now + TokenLifetimeMs)] else []
    ensures FindUserByEmail(users, email).None? ==> Decide(users, tokens, email, token, now).tokens == tokens
  {
    var o := Decide(users, tokens, email, token, now);
    if FindUserByEmail(users, email).Some? {
      var rest := WithoutEmail(tokens, email);
      var issued := ResetToken(email, token, now + TokenLifetimeMs);
      FilterAppend(rest, [issued], IssuedFor(email));
      FilterExcluded(tokens, (t: ResetToken) => t.email != email, IssuedFor(email));
      assert Filter([issued], IssuedFor(email)) == [issued] + Filter([], IssuedFor(email));
    }
  }

  /** Tokens issued for other emails are not touched. */
  lemma OtherEmailsUntouched(users: seq<User>, tokens: seq<ResetToken>, email: string, token: string, now: int, other: string)
    requires other != email
    ensures TokensFor(Decide(users, tokens, email, token, now).tokens, other) == TokensFor(tokens, other)
  {
    if Present(email) && FindUserByEmail(users, email).Some? {
      var issued := ResetToken(email, token, now + TokenLifetimeMs);
      var p := (t: ResetToken) => t.email != email;
      FilterAppend(WithoutEmail(tokens, email), [issued], IssuedFor(other));
      FilterFilter(tokens, p, IssuedFor(other));
      assert Filter([issued], IssuedFor(other)) == Filter([], IssuedFor(other));
    }
  }

  /** The route keeps token strings unique: a colliding token is never
      stored. */
  lemma KeepsTokensUnique(users: seq<User>, tokens: seq<ResetToken>, email: string, token: string, now: int)
    requires UniqueTokens(tokens)
    ensures UniqueTokens(Decide(users, tokens, email, token, now).tokens)
  {
    var o := Decide(users, tokens, email, token, now);
    if o.tokens != tokens {
      var rest := WithoutEmail(tokens, email);
      forall i, j | 0 <= i < j < |o.tokens|
        ensures o.tokens[i].token != o.tokens[j].token
      {
        assert o.tokens[i] in tokens;
        if j < |rest| {
          assert o.tokens[j] in tokens;
          var a :| 0 <= a < |tokens| && tokens[a] == o.tokens[i];
          var b :| 0 <= b < |tokens| && tokens[b] == o.tokens[j];
          if a == b {
            FilterDistinct(tokens, email, i, j);
          }
        } else {
          assert o.tokens[i] in rest;
        }
      }
    }
  }

  /** Two positions of a filtered table with unique tokens hold different
      records. */
  lemma FilterDistinct(tokens: seq<ResetToken>, email: string, i: nat, j: nat)
    requires UniqueTokens(tokens)
    requires i < j < |WithoutEmail(tokens, email)|
    ensures WithoutEmail(tokens, email)[i] != WithoutEmail(tokens, email)[j]
    decreases |tokens|
  {
    var p := (t: ResetToken) => t.email != email;
    var head := if p(tokens[0]) then [tokens[0]] else [];
    assert WithoutEmail(tokens, email) == head + WithoutEmail(tokens[1..], email);
    if p(tokens[0]) {
      if i == 0 {
        assert WithoutEmail(tokens, email)[j] in tokens[1..];
      } else {
        FilterDistinct(tokens[1..], email, i - 1, j - 1);
      }
    } else {
      FilterDistinct(tokens[1..], email, i, j);
    }
  }
}
