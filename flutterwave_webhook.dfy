/** `POST /api/webhooks/flutterwave`: the provider's server-to-server
    notification of a completed charge. It authenticates the sender by a
    shared secret, takes the user from the charge's customer email and the
    bootcamp from the charge's metadata, and never applies a discount. */
module FlutterwaveWebhook {
  import opened Base
  import opened Store
  import opened Pricing

  /** The fields of the charge (`payload.data`) the route reads.
      `customerEmail` is `None` when `customer` or its `email` is absent. */
  datatype Charge = Charge(
    status: string, id: string, amount: int, currency: string,
    customerEmail: Option<string>, metaBootcampId: string)

  /** The fields of the notification body the route reads; `data` is `None`
      when the body has no `data` object. */
  datatype Payload = Payload(event: string, data: Option<Charge>)

  datatype Reply =
    | Unauthorized | Ignored | InvalidCurrency | AlreadyProcessed | UserNotFound
    | MissingBootcampId | BootcampNotFound | InsufficientAmount | AlreadyEnrolled
    | Success | ServerError

  function Status(r: Reply): int {
    match r
    case Unauthorized => 401
    case InvalidCurrency => 400
    case UserNotFound => 404
    case MissingBootcampId => 400
    case BootcampNotFound => 404
    case InsufficientAmount => 400
    case ServerError => 500
    case _ => 200
  }

  datatype Outcome = Outcome(reply: Reply, added: Option<Enrollment>)

  /** The `verif-hash` header must equal the configured secret, and a secret
      must be configured. */
  predicate Authentic(secret: string, signature: Option<string>)
    ensures Authentic(secret, signature) ==> signature.Some? && Present(signature.value)
    ensures !Present(secret) ==> !Authentic(secret, signature)
  {
    Present(secret) && signature == Some(secret)
  }

  /** What the route does, given the tables, the configured secret, the
      `verif-hash` header (`None` when absent) and the parsed body (`None`
      when it is not JSON). */
  function Decide(users: seq<User>, bootcamps: seq<Bootcamp>, es: seq<Enrollment>,
                  secret: string, signature: Option<string>, payload: Option<Payload>): (o: Outcome)
    ensures o.added.Some? ==> Admissible(es, o.added.value)
  {
    if !Authentic(secret, signature) then Outcome(Unauthorized, None)
    else match payload
      case None => Outcome(ServerError, None)
      case Some(p) =>
        if p.event != "charge.completed" then Outcome(Ignored, None)
        else match p.data
          // reading `payload.data.status` throws
          case None => Outcome(ServerError, None)
          case Some(c) =>
            if c.status != "successful" then Outcome(Ignored, None)
            else if !ValidCurrency(c.currency) then Outcome(InvalidCurrency, None)
            else if HasTransaction(es, c.id) then Outcome(AlreadyProcessed, None)
            else match c.customerEmail
              // `customer.email` throws, or `findUnique` refuses an undefined email
              case None => Outcome(ServerError, None)
              case Some(email) =>
                match FindUserByEmail(users, email)
                case None => Outcome(UserNotFound, None)
                case Some(user) =>
                  if !Present(c.metaBootcampId) then Outcome(MissingBootcampId, None)
                  else match FindBootcamp(bootcamps, c.metaBootcampId)
                    case None => Outcome(BootcampNotFound, None)
                    case Some(bootcamp) =>
                      if c.amount < BasePrice(bootcamp, c.currency) then Outcome(InsufficientAmount, None)
                      else if HasPair(es, user.id, c.metaBootcampId) then Outcome(AlreadyEnrolled, None)
                      else
                        var e := Enrollment(user.id, c.metaBootcampId, Some(c.id), None);
                        if Admissible(es, e) then Outcome(Success, Some(e)) else Outcome(ServerError, None)
  }

  method Post(db: Db, secret: string, signature: Option<string>, payload: Option<Payload>)
    returns (reply: Reply)
    modifies db`enrollments
    ensures var o := Decide(db.users, db.bootcamps, old(db.enrollments), secret, signature, payload);
            reply == o.reply && db.enrollments == Commit(old(db.enrollments), o.added)
  {
    if !Present(secret) || signature != Some(secret) {
      return Unauthorized;
    }
    if payload.None? {
      return ServerError;
    }
    var p := payload.value;
    if p.event != "charge.completed" {
      return Ignored;
    }
    if p.data.None? {
      return ServerError;
    }
    var c := p.data.value;
    if c.status != "successful" {
      return Ignored;
    }
    if !ValidCurrency(c.currency) {
      return InvalidCurrency;
    }
    if HasTransaction(db.enrollments, c.id) {
      return AlreadyProcessed;
    }
    if c.customerEmail.None? {
      return ServerError;
    }
    var user := FindUserByEmail(db.users, c.customerEmail.value);
    if user.None? {
      return UserNotFound;
    }
    if !Present(c.metaBootcampId) {
      return MissingBootcampId;
    }
    var bootcamp := FindBootcamp(db.bootcamps, c.metaBootcampId);
    if bootcamp.None? {
      return BootcampNotFound;
    }
    var expectedPrice := BasePrice(bootcamp.value, c.currency);
    if c.amount < expectedPrice {
      return InsufficientAmount;
    }
    if HasPair(db.enrollments, user.value.id, c.metaBootcampId) {
      return AlreadyEnrolled;
    }
    var ok := db.CreateEnrollment(Enrollment(user.value.id, c.metaBootcampId, Some(c.id), None));
    if !ok {
      return ServerError;
    }
    return Success;
  }

  // ---- properties of the route ----

  /** The request is refused with 401 exactly when no secret is configured or
      the header does not carry it; the body is not read then. */
  lemma UnauthorizedIffNotAuthentic(
    users: seq<User>, bootcamps: seq<Bootcamp>, es: seq<Enrollment>,
    secret: string, signature: Option<string>, payload: Option<Payload>)
    ensures var o := Decide(users, bootcamps, es, secret, signature, payload);
            (o.reply == Unauthorized <==> !Present(secret) || signature != Some(secret))
            && (o.reply == Unauthorized ==> o.added.None?)
  {
  }

  /** An enrollment is added only for an authentic `charge.completed` event of
      a successful charge in NGN or USD, not seen before, paying at least the
      undiscounted price; it records the charge id and no discount code. */
  lemma AddedOnlyForFullPayment(
    users: seq<User>, bootcamps: seq<Bootcamp>, es: seq<Enrollment>,
    secret: string, signature: Option<string>, payload: Option<Payload>)
    requires Decide(users, bootcamps, es, secret, signature, payload).added.Some?
    ensures var o := Decide(users, bootcamps, es, secret, signature, payload);
            && Authentic(secret, signature) && payload.Some?
            && payload.value.event == "charge.completed" && payload.value.data.Some?
            && var c := payload.value.data.value;
            && c.status == "successful" && ValidCurrency(c.currency)
            && c.customerEmail.Some? && FindUserByEmail(users, c.customerEmail.value).Some?
            && FindBootcamp(bootcamps, c.metaBootcampId).Some?
            && c.amount >= BasePrice(FindBootcamp(bootcamps, c.metaBootcampId).value, c.currency)
            && o.reply == Success
            && o.added == Some(Enrollment(FindUserByEmail(users, c.customerEmail.value).value.id, c.metaBootcampId, Some(c.id), None))
  {
  }

  /** Conversely, an authentic notification of a successful charge in NGN or
      USD, not seen before, from a known customer for a known bootcamp they
      are not enrolled in, paying at least the undiscounted price, inserts
      exactly its enrollment. */
  lemma FullPaymentEnrolls(
    users: seq<User>, bootcamps: seq<Bootcamp>, es: seq<Enrollment>, secret: string,
    c: Charge, u: User, b: Bootcamp)
    requires Present(secret)
    requires c.status == "successful" && ValidCurrency(c.currency) && !HasTransaction(es, c.id)
    requires c.customerEmail.Some? && FindUserByEmail(users, c.customerEmail.value) == Some(u)
    requires Present(c.metaBootcampId) && FindBootcamp(bootcamps, c.metaBootcampId) == Some(b)
    requires c.amount >= BasePrice(b, c.currency) && !HasPair(es, u.id, c.metaBootcampId)
    ensures Decide(users, bootcamps, es, secret, Some(secret), Some(Payload("charge.completed", Some(c))))
            == Outcome(Success, Some(Enrollment(u.id, c.metaBootcampId, Some(c.id), None)))
  {
  }

  /** A `charge.completed` body without `data`, or whose charge names no
      customer email, makes the handler throw: 500, and nothing is written. */
  lemma MissingChargeFieldsFail(
    users: seq<User>, bootcamps: seq<Bootcamp>, es: seq<Enrollment>, secret: string, c: Charge)
    requires Present(secret)
    ensures Decide(users, bootcamps, es, secret, Some(secret), Some(Payload("charge.completed", None)))
            == Outcome(ServerError, None)
    ensures c.status == "successful" && ValidCurrency(c.currency) && !HasTransaction(es, c.id) && c.customerEmail.None?
            ==> Decide(users, bootcamps, es, secret, Some(secret), Some(Payload("charge.completed", Some(c))))
                == Outcome(ServerError, None)
  {
  }

  /** Any other event, or a charge that is not successful, is acknowledged
      with 200 and changes nothing; another event's `data` is never read. */
  lemma OtherEventsIgnored(
    users: seq<User>, bootcamps: seq<Bootcamp>, es: seq<Enrollment>, secret: string, p: Payload)
    requires Present(secret)
    requires p.event != "charge.completed" || (p.data.Some? && p.data.value.status != "successful")
    ensures Decide(users, bootcamps, es, secret, Some(secret), Some(p)) == Outcome(Ignored, None)
  {
  }

  /** A redelivered notification is answered `already_processed` and changes
      nothing. */
  lemma RedeliveryIsIdempotent(
    users: seq<User>, bootcamps: seq<Bootcamp>, es: seq<Enrollment>,
    secret: string, signature: Option<string>, payload: Option<Payload>)
    requires Decide(users, bootcamps, es, secret, signature, payload).reply == Success
    ensures var es' := Commit(es, Decide(users, bootcamps, es, secret, signature, payload).added);
            Decide(users, bootcamps, es', secret, signature, payload) == Outcome(AlreadyProcessed, None)
  {
    var o := Decide(users, bootcamps, es, secret, signature, payload);
    var es' := Commit(es, o.added);
    assert o.added.value in es';
  }

  /** The route's own checks exclude both duplicates, so a 500 comes only from
      a body that is not JSON, a `charge.completed` body without `data`, or a
      charge without a customer email. */
  lemma NeverRefusedByConstraints(
    users: seq<User>, bootcamps: seq<Bootcamp>, es: seq<Enrollment>,
    secret: string, signature: Option<string>, payload: Option<Payload>)
    ensures Decide(users, bootcamps, es, secret, signature, payload).reply == ServerError ==>
              payload.None? || payload.value.data.None? || payload.value.data.value.customerEmail.None?
  {
  }
}
