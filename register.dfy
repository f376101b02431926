/** `POST /api/register`: account creation with server-side checks on the
    fields, the email's form and the password's length. */
module Register {
  import opened Base
  import opened Text
  import opened Store

  const MinPasswordLength: int := 8

  /** No white space and no `@`: the class `[^\s@]`. */
  predicate Plain(t: string) {
    forall k :: 0 <= k < |t| ==> !IsSpace(t[k]) && t[k] != '@'
  }

  /** The regular expression `^[^\s@]+@[^\s@]+\.[^\s@]+$` matches with its
      `@` at `i` and its `\.` at `j`. */
  predicate MatchesAt(s: string, i: int, j: int) {
    && 0 < i && i + 1 < j && j + 1 < |s|
    && s[i] == '@' && s[j] == '.'
    && Plain(s[..i]) && Plain(s[i + 1..j]) && Plain(s[j + 1..])
  }

  predicate EmailMatches(s: string) {
    exists i, j | 0 <= i < |s| && 0 <= j < |s| :: MatchesAt(s, i, j)
  }

  /** The same language described directly: no white space, exactly one `@`
      and not first, and a `.` after it that is neither right after the `@`
      nor last. */
  predicate EmailShaped(s: string) {
    && (forall k :: 0 <= k < |s| ==> !IsSpace(s[k]))
    && '@' in s && 0 < IndexOf(s, '@') && '@' !in s[IndexOf(s, '@') + 1..]
    && exists j :: IndexOf(s, '@') + 1 < j < |s| - 1 && s[j] == '.'
  }

  lemma EmailShape(s: string)
    ensures EmailMatches(s) <==> EmailShaped(s)
  {
    if EmailMatches(s) {
      MatchedIsShaped(s);
    }
    if EmailShaped(s) {
      ShapedIsMatched(s);
    }
  }

  lemma MatchedIsShaped(s: string)
    requires EmailMatches(s)
    ensures EmailShaped(s)
  {
    var i, j :| 0 <= i < |s| && 0 <= j < |s| && MatchesAt(s, i, j);
    forall k | 0 <= k < |s|
      ensures !IsSpace(s[k]) && (k != i ==> s[k] != '@')
    {
      if k < i {
        assert s[k] == s[..i][k];
      } else if i < k < j {
        assert s[k] == s[i + 1..j][k - i - 1];
      } else if j < k {
        assert s[k] == s[j + 1..][k - j - 1];
      }
    }
    assert IndexOf(s, '@') == i;
    assert s[i + 1..][j - i - 1] == '.';
  }

  lemma ShapedIsMatched(s: string)
    requires EmailShaped(s)
    ensures EmailMatches(s)
  {
    var i := IndexOf(s, '@');
    var j :| i + 1 < j < |s| - 1 && s[j] == '.';
    assert forall k :: i + 1 <= k < |s| ==> s[k] == s[i + 1..][k - i - 1];
    assert forall k :: 0 <= k < i ==> s[k] == s[..i][k];
    assert MatchesAt(s, i, j);
  }

  datatype Reply = MissingFields | InvalidEmail | PasswordTooShort | UserExists | Registered(user: User) | ServerError

  function Status(r: Reply): int {
    match r
    case Registered(_) => 200
    case ServerError => 500
    case _ => 400
  }

  datatype Outcome = Outcome(reply: Reply, added: Option<User>)

  /** The route, given the users, the body's fields ("" when absent), the id
      the database assigns and the hash bcrypt computes for the password. */
  function Decide(users: seq<User>, name: string, email: string, password: string,
                  newId: string, passwordHash: string): (o: Outcome)
    ensures o.added.Some? ==> FindUserByEmail(users, o.added.value.email).None?
  {
    if !Present(email) || !Present(password) || !Present(name) then Outcome(MissingFields, None)
    else if !EmailMatches(email) then Outcome(InvalidEmail, None)
    else if |password| < MinPasswordLength then Outcome(PasswordTooShort, None)
    else if FindUserByEmail(users, email).Some? then Outcome(UserExists, None)
    else
      var u := User(newId, name, email, passwordHash);
      Outcome(Registered(u), Some(u))
  }

  method Post(db: Db, name: string, email: string, password: string, newId: string, passwordHash: string)
    returns (reply: Reply)
    modifies db`users
    ensures var o := Decide(old(db.users), name, email, password, newId, passwordHash);
            reply == o.reply && db.users == (if o.added.Some? then old(db.users) + [o.added.value] else old(db.users))
  {
    if !Present(email) || !Present(password) || !Present(name) {
      return MissingFields;
    }
    if !EmailMatches(email) {
      return InvalidEmail;
    }
    if |password| < MinPasswordLength {
      return PasswordTooShort;
    }
    var existing := FindUserByEmail(db.users, email);
    if existing.Some? {
      return UserExists;
    }
    var user := User(newId, name, email, passwordHash);
    var ok := db.CreateUser(user);
    if !ok {
      return ServerError;
    }
    return Registered(user);
  }

  // ---- properties of the route ----

  /** A created account has a well-formed, new email, a password of at least
      eight characters, and stores the hash, never the password; the reply
      returns the whole record. */
  lemma RegisteredAccount(users: seq<User>, name: string, email: string, password: string, newId: string, passwordHash: string)
    requires Decide(users, name, email, password, newId, passwordHash).added.Some?
    ensures var o := Decide(users, name, email, password, newId, passwordHash);
            && EmailMatches(email) && |password| >= MinPasswordLength && Present(name)
            && FindUserByEmail(users, email).None?
            && o.added == Some(User(newId, name, email, passwordHash))
            && o.reply == Registered(o.added.value)
  {
  }

  /** Conversely, a name, an email matching the pattern, a password of at
      least eight characters and an email no user has create exactly that
      user, storing the hash. */
  lemma ValidRegistrationCreates(users: seq<User>, name: string, email: string, password: string, newId: string, passwordHash: string)
    requires Present(name) && EmailMatches(email) && |password| >= MinPasswordLength
    requires FindUserByEmail(users, email).None?
    ensures Decide(users, name, email, password, newId, passwordHash)
            == Outcome(Registered(User(newId, name, email, passwordHash)), Some(User(newId, name, email, passwordHash)))
  {
  }

  /** Registering keeps emails unique, and a second registration with the
      same email is refused. */
  lemma RegisterKeepsEmailsUnique(users: seq<User>, name: string, email: string, password: string, newId: string, passwordHash: string,
                                  name': string, password': string, newId': string, passwordHash': string)
    requires UniqueEmails(users)
    ensures var o := Decide(users, name, email, password, newId, passwordHash);
            var users' := if o.added.Some? then users + [o.added.value] else users;
            UniqueEmails(users')
            && (o.added.Some? ==> Decide(users', name', email, password', newId', passwordHash').reply == UserExists
                                  || !Present(password') || !Present(name') || |password'| < MinPasswordLength)
  {
    var o := Decide(users, name, email, password, newId, passwordHash);
    if o.added.Some? {
      var users' := users + [o.added.value];
      forall i, j | 0 <= i < j < |users'|
        ensures users'[i].email != users'[j].email
      {
        if j == |users| {
          assert users'[i] in users;
        }
      }
      assert users'[|users|].email == email;
    }
  }

  /** The email check on small witnesses: a usual address passes, one without
      a dot after the `@`, or with a space, does not. */
  lemma EmailExamples()
    ensures EmailMatches("a@b.c")
    ensures !EmailMatches("a@bc")
    ensures !EmailMatches("a b@c.d")
  {
    assert MatchesAt("a@b.c", 1, 3);
    EmailShape("a@bc");
    EmailShape("a b@c.d");
    assert IsSpace("a b@c.d"[1]);
  }
}
