/** `POST /api/payment/verify/stripe`: the client-initiated check of a Stripe
    PaymentIntent after the card form has confirmed it. The user is the
    session's, or failing that the one named in the intent's metadata;
    amounts are dollar cents and no discount applies. */
module StripeVerify {
  import opened Base
  import opened Store
  import opened Pricing

  datatype Request = Request(paymentIntent: string, bootcampId: string)

  /** The retrieved PaymentIntent: `status`, `amount` (cents) and
      `metadata.email` ("" when absent). */
  datatype Intent = Intent(status: string, amount: int, metadataEmail: string)

  datatype Reply =
    | MissingParameters | PaymentNotSuccessful | UserNotFound | BootcampNotFound
    | AmountMismatch | AlreadyEnrolled | Enrolled | InternalError

  function Status(r: Reply): int {
    match r
    case MissingParameters => 400
    case PaymentNotSuccessful => 400
    case UserNotFound => 404
    case BootcampNotFound => 404
    case AmountMismatch => 400
    case AlreadyEnrolled => 200
    case Enrolled => 200
    case InternalError => 500
  }

  datatype Outcome = Outcome(reply: Reply, added: Option<Enrollment>)

  /** The user the payment is credited to: the session's user if the session
      has an email that names one, otherwise the user named by the intent's
      metadata email. */
  function ResolveUser(users: seq<User>, sessionEmail: string, metadataEmail: string): (r: Option<User>)
    ensures r.Some? ==> r.value in users
    ensures Present(sessionEmail) && FindUserByEmail(users, sessionEmail).Some? ==>
              r == FindUserByEmail(users, sessionEmail)
    ensures r.Some? && r != FindUserByEmail(users, sessionEmail) ==>
              Present(metadataEmail) && r.value.email == metadataEmail
    ensures r.None? <==>
              (!Present(sessionEmail) || FindUserByEmail(users, sessionEmail).None?)
              && (!Present(metadataEmail) || FindUserByEmail(users, metadataEmail).None?)
  {
    var fromSession := if Present(sessionEmail) then FindUserByEmail(users, sessionEmail) else None;
    if fromSession.None? && Present(metadataEmail) then FindUserByEmail(users, metadataEmail) else fromSession
  }

  /** What the route does, given the tables, the request, the session email
      and the retrieved intent (`None` when retrieval fails). */
  function Decide(users: seq<User>, bootcamps: seq<Bootcamp>, es: seq<Enrollment>,
                  req: Request, sessionEmail: string, intent: Option<Intent>): (o: Outcome)
    ensures o.added.Some? ==> Admissible(es, o.added.value)
  {
    if !Present(req.paymentIntent) || !Present(req.bootcampId) then Outcome(MissingParameters, None)
    else match intent
      case None => Outcome(InternalError, None)
      case Some(pi) =>
        if pi.status != "succeeded" then Outcome(PaymentNotSuccessful, None)
        else match ResolveUser(users, sessionEmail, pi.metadataEmail)
          case None => Outcome(UserNotFound, None)
          case Some(user) =>
            match FindBootcamp(bootcamps, req.bootcampId)
            case None => Outcome(BootcampNotFound, None)
            case Some(bootcamp) =>
              if pi.amount < UsdCents(bootcamp) then Outcome(AmountMismatch, None)
              else if HasPair(es, user.id, req.bootcampId) || HasTransaction(es, req.paymentIntent) then
                Outcome(AlreadyEnrolled, None)
              else
                var e := Enrollment(user.id, req.bootcampId, Some(req.paymentIntent), None);
                if Admissible(es, e) then Outcome(Enrolled, Some(e)) else Outcome(InternalError, None)
  }

  method Post(db: Db, req: Request, sessionEmail: string, intent: Option<Intent>) returns (reply: Reply)
    modifies db`enrollments
    ensures var o := Decide(db.users, db.bootcamps, old(db.enrollments), req, sessionEmail, intent);
            reply == o.reply && db.enrollments == Commit(old(db.enrollments), o.added)
  {
    if !Present(req.paymentIntent) || !Present(req.bootcampId) {
      return MissingParameters;
    }
    if intent.None? {
      return InternalError;
    }
    var pi := intent.value;
    if pi.status != "succeeded" {
      return PaymentNotSuccessful;
    }
    var user: Option<User> := None;
    if Present(sessionEmail) {
      user := FindUserByEmail(db.users, sessionEmail);
    }
    if user.None? && Present(pi.metadataEmail) {
      user := FindUserByEmail(db.users, pi.metadataEmail);
    }
    if user.None? {
      return UserNotFound;
    }
    var bootcamp := FindBootcamp(db.bootcamps, req.bootcampId);
    if bootcamp.None? {
      return BootcampNotFound;
    }
    var expectedAmountCents := bootcamp.value.priceUSD * 100;
    if pi.amount < expectedAmountCents {
      return AmountMismatch;
    }
    if HasPair(db.enrollments, user.value.id, req.bootcampId) || HasTransaction(db.enrollments, req.paymentIntent) {
      return AlreadyEnrolled;
    }
    var ok := db.CreateEnrollment(Enrollment(user.value.id, req.bootcampId, Some(req.paymentIntent), None));
    if !ok {
      return InternalError;
    }
    return Enrolled;
  }

  // ---- properties of the route ----

  /** An enrollment is added only for a succeeded intent paying at least the
      dollar price in cents; it records the intent id as its transaction. */
  lemma AddedOnlyForSucceededIntent(
    users: seq<User>, bootcamps: seq<Bootcamp>, es: seq<Enrollment>,
    req: Request, sessionEmail: string, intent: Option<Intent>)
    requires Decide(users, bootcamps, es, req, sessionEmail, intent).added.Some?
    ensures var o := Decide(users, bootcamps, es, req, sessionEmail, intent);
            && intent.Some? && intent.value.status == "succeeded"
            && FindBootcamp(bootcamps, req.bootcampId).Some?
            && intent.value.amount >= FindBootcamp(bootcamps, req.bootcampId).value.priceUSD * 100
            && ResolveUser(users, sessionEmail, intent.value.metadataEmail).Some?
            && o.reply == Enrolled
            && o.added == Some(Enrollment(ResolveUser(users, sessionEmail, intent.value.metadataEmail).value.id,
                                          req.bootcampId, Some(req.paymentIntent), None))
  {
  }

  /** Conversely, a succeeded intent covering the dollar price, for a user
      the route resolves and a known bootcamp, with neither the pair nor the
      intent enrolled, inserts exactly its enrollment. */
  lemma SucceededIntentEnrolls(
    users: seq<User>, bootcamps: seq<Bootcamp>, es: seq<Enrollment>,
    req: Request, sessionEmail: string, pi: Intent, u: User, b: Bootcamp)
    requires Present(req.paymentIntent) && Present(req.bootcampId) && pi.status == "succeeded"
    requires ResolveUser(users, sessionEmail, pi.metadataEmail) == Some(u)
    requires FindBootcamp(bootcamps, req.bootcampId) == Some(b) && pi.amount >= UsdCents(b)
    requires !HasPair(es, u.id, req.bootcampId) && !HasTransaction(es, req.paymentIntent)
    ensures Decide(users, bootcamps, es, req, sessionEmail, Some(pi))
            == Outcome(Enrolled, Some(Enrollment(u.id, req.bootcampId, Some(req.paymentIntent), None)))
  {
  }

  /** An intent that has not succeeded is refused whoever asks, and nothing
      is written. */
  lemma UnsucceededIntentRefused(
    users: seq<User>, bootcamps: seq<Bootcamp>, es: seq<Enrollment>,
    req: Request, sessionEmail: string, pi: Intent)
    requires Present(req.paymentIntent) && Present(req.bootcampId)
    requires pi.status != "succeeded"
    ensures Decide(users, bootcamps, es, req, sessionEmail, Some(pi)) == Outcome(PaymentNotSuccessful, None)
  {
  }

  /** A PaymentIntent enrolls at most once: once recorded, a second request
      with it, by anyone and for any bootcamp, adds nothing. */
  lemma IntentUsedOnce(
    users: seq<User>, bootcamps: seq<Bootcamp>, es: seq<Enrollment>,
    req: Request, sessionEmail: string, intent: Option<Intent>,
    bootcampId': string, sessionEmail': string)
    requires Decide(users, bootcamps, es, req, sessionEmail, intent).reply == Enrolled
    ensures var es' := Commit(es, Decide(users, bootcamps, es, req, sessionEmail, intent).added);
            Decide(users, bootcamps, es', Request(req.paymentIntent, bootcampId'), sessionEmail', intent).added.None?
  {
    var o := Decide(users, bootcamps, es, req, sessionEmail, intent);
    var es' := Commit(es, o.added);
    assert o.added.value in es';
    assert HasTransaction(es', req.paymentIntent);
  }

  /** The route's own idempotency check excludes both duplicates, so a 500
      comes only from a failed retrieval. */
  lemma NeverRefusedByConstraints(
    users: seq<User>, bootcamps: seq<Bootcamp>, es: seq<Enrollment>,
    req: Request, sessionEmail: string, intent: Option<Intent>)
    ensures Decide(users, bootcamps, es, req, sessionEmail, intent).reply == InternalError ==> intent.None?
  {
  }
}
