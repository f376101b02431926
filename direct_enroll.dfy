/** `POST /api/payment`: enrollment of the session's user without any
    payment check. It relies on the database's pair constraint to refuse a
    second enrollment, which surfaces as a 500. */
module DirectEnroll {
  import opened Base
  import opened Store

  datatype Reply = Unauthorized | UserNotFound | EnrollmentFailed | Enrolled(emailSent: bool)

  function Status(r: Reply): int {
    match r
    case Unauthorized => 401
    case UserNotFound => 404
    case EnrollmentFailed => 500
    case Enrolled(_) => 200
  }

  datatype Outcome = Outcome(reply: Reply, added: Option<Enrollment>)

  /** What the route does, given the tables, the session email and the body's
      `bootcampId` ("" when absent; the ORM refuses a create without it). */
  function Decide(users: seq<User>, bootcamps: seq<Bootcamp>, es: seq<Enrollment>,
                  sessionEmail: string, bootcampId: string): (o: Outcome)
    ensures o.added.Some? ==> Admissible(es, o.added.value)
  {
    if !Present(sessionEmail) then Outcome(Unauthorized, None)
    else match FindUserByEmail(users, sessionEmail)
      case None => Outcome(UserNotFound, None)
      case Some(user) =>
        var e := Enrollment(user.id, bootcampId, None, None);
        if !Present(bootcampId) || !Admissible(es, e) then Outcome(EnrollmentFailed, None)
        else Outcome(Enrolled(FindBootcamp(bootcamps, bootcampId).Some?), Some(e))
  }

  method Post(db: Db, sessionEmail: string, bootcampId: string) returns (reply: Reply)
    modifies db`enrollments
    ensures var o := Decide(db.users, db.bootcamps, old(db.enrollments), sessionEmail, bootcampId);
            reply == o.reply && db.enrollments == Commit(old(db.enrollments), o.added)
  {
    if !Present(sessionEmail) {
      return Unauthorized;
    }
    var user := FindUserByEmail(db.users, sessionEmail);
    if user.None? {
      return UserNotFound;
    }
    if !Present(bootcampId) {
      return EnrollmentFailed;
    }
    var ok := db.CreateEnrollment(Enrollment(user.value.id, bootcampId, None, None));
    if !ok {
      return EnrollmentFailed;
    }
    // The confirmation email is sent only when the bootcamp exists.
    var bootcamp := FindBootcamp(db.bootcamps, bootcampId);
    return Enrolled(bootcamp.Some?);
  }

  // ---- properties of the route ----

  /** Any signed-in user is enrolled in any bootcamp id not yet enrolled,
      with no payment and no transaction recorded. */
  lemma EnrollsWithoutPayment(
    users: seq<User>, bootcamps: seq<Bootcamp>, es: seq<Enrollment>, sessionEmail: string, bootcampId: string, user: User)
    requires Present(sessionEmail) && Present(bootcampId)
    requires FindUserByEmail(users, sessionEmail) == Some(user)
    requires !HasPair(es, user.id, bootcampId)
    ensures var o := Decide(users, bootcamps, es, sessionEmail, bootcampId);
            o.reply.Enrolled? && o.added == Some(Enrollment(user.id, bootcampId, None, None))
  {
  }

  /** A second enrollment in the same bootcamp is refused by the pair
      constraint and reported as a server error. */
  lemma DuplicateIsServerError(
    users: seq<User>, bootcamps: seq<Bootcamp>, es: seq<Enrollment>, sessionEmail: string, bootcampId: string, user: User)
    requires Present(sessionEmail)
    requires FindUserByEmail(users, sessionEmail) == Some(user)
    requires HasPair(es, user.id, bootcampId)
    ensures Decide(users, bootcamps, es, sessionEmail, bootcampId) == Outcome(EnrollmentFailed, None)
    ensures Status(EnrollmentFailed) == 500
  {
  }

  /** A success always inserts, and the email is sent exactly when the
      bootcamp exists. */
  lemma SuccessInserts(
    users: seq<User>, bootcamps: seq<Bootcamp>, es: seq<Enrollment>, sessionEmail: string, bootcampId: string)
    ensures var o := Decide(users, bootcamps, es, sessionEmail, bootcampId);
            o.reply.Enrolled? <==> o.added.Some?
    ensures var o := Decide(users, bootcamps, es, sessionEmail, bootcampId);
            o.reply.Enrolled? ==> (o.reply.emailSent <==> FindBootcamp(bootcamps, bootcampId).Some?)
  {
  }
}
