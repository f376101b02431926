/** `POST /api/webhooks/stripe`: Stripe's signed event notification. Only
    `payment_intent.succeeded` is acted on; the user and bootcamp come from
    the intent's metadata. Every failure of the handler becomes a 500, so
    that Stripe retries the delivery. */
module StripeWebhook {
  import opened Base
  import opened Store
  import opened Pricing

  /** The fields of the event's PaymentIntent the handler reads. */
  datatype PaymentIntent = PaymentIntent(id: string, amount: int, metaUserId: string, metaBootcampId: string)

  datatype Event = Event(eventType: string, intent: PaymentIntent)

  /** Why the handler threw. */
  datatype Failure = MissingMetadata | UnknownUser | UnknownBootcamp | AmountTooLow | CreateRefused

  /** What the handler did: nothing (already enrolled), an insert, or a throw. */
  datatype Handled = Skipped | Created(enrollment: Enrollment) | Failed(reason: Failure)

  datatype Reply = ConfigurationError | SignatureError | Received | HandlingFailed(reason: Failure)

  function Status(r: Reply): int {
    match r
    case ConfigurationError => 500
    case SignatureError => 400
    case Received => 200
    case HandlingFailed(_) => 500
  }

  /** `handlePaymentIntentSucceeded`. Unlike the other routes it checks for an
      existing enrollment before looking the user and bootcamp up. */
  function Handle(users: seq<User>, bootcamps: seq<Bootcamp>, es: seq<Enrollment>, pi: PaymentIntent): (h: Handled)
    ensures h.Created? ==> Admissible(es, h.enrollment)
  {
    if !Present(pi.metaUserId) || !Present(pi.metaBootcampId) then Failed(MissingMetadata)
    else if HasPair(es, pi.metaUserId, pi.metaBootcampId) || HasTransaction(es, pi.id) then Skipped
    else if FindUserById(users, pi.metaUserId).None? then Failed(UnknownUser)
    else match FindBootcamp(bootcamps, pi.metaBootcampId)
      case None => Failed(UnknownBootcamp)
      case Some(bootcamp) =>
        if pi.amount < UsdCents(bootcamp) then Failed(AmountTooLow)
        else
          var e := Enrollment(pi.metaUserId, pi.metaBootcampId, Some(pi.id), None);
          if Admissible(es, e) then Created(e) else Failed(CreateRefused)
  }

  function Added(h: Handled): Option<Enrollment> {
    if h.Created? then Some(h.enrollment) else None
  }

  /** The reply, given the configured secret, the `stripe-signature` header
      and the event `constructEvent` returns (`None` when it throws: a body
      whose signature does not verify). */
  function Decide(users: seq<User>, bootcamps: seq<Bootcamp>, es: seq<Enrollment>,
                  secret: string, signature: string, event: Option<Event>): (r: Reply)
    ensures r == ConfigurationError <==> !Present(secret)
    ensures r == SignatureError <==> Present(secret) && (!Present(signature) || event.None?)
    ensures r.HandlingFailed? ==> event.Some? && event.value.eventType == "payment_intent.succeeded"
  {
    if !Present(secret) then ConfigurationError
    else if !Present(signature) || event.None? then SignatureError
    else if event.value.eventType != "payment_intent.succeeded" then Received
    else match Handle(users, bootcamps, es, event.value.intent)
      case Failed(reason) => HandlingFailed(reason)
      case _ => Received
  }

  /** The enrollment the route inserted, if any. */
  function DecideAdded(users: seq<User>, bootcamps: seq<Bootcamp>, es: seq<Enrollment>,
                       secret: string, signature: string, event: Option<Event>): (a: Option<Enrollment>)
    ensures a.Some? ==> Admissible(es, a.value)
  {
    if Decide(users, bootcamps, es, secret, signature, event) == Received && event.value.eventType == "payment_intent.succeeded"
    then Added(Handle(users, bootcamps, es, event.value.intent))
    else None
  }

  method HandlePaymentIntentSucceeded(db: Db, pi: PaymentIntent) returns (h: Handled)
    modifies db`enrollments
    ensures h == Handle(db.users, db.bootcamps, old(db.enrollments), pi)
    ensures db.enrollments == Commit(old(db.enrollments), Added(h))
  {
    if !Present(pi.metaUserId) || !Present(pi.metaBootcampId) {
      return Failed(MissingMetadata);
    }
    if HasPair(db.enrollments, pi.metaUserId, pi.metaBootcampId) || HasTransaction(db.enrollments, pi.id) {
      return Skipped;
    }
    var user := FindUserById(db.users, pi.metaUserId);
    if user.None? {
      return Failed(UnknownUser);
    }
    var bootcamp := FindBootcamp(db.bootcamps, pi.metaBootcampId);
    if bootcamp.None? {
      return Failed(UnknownBootcamp);
    }
    var expectedAmount := bootcamp.value.priceUSD * 100;
    if pi.amount < expectedAmount {
      return Failed(AmountTooLow);
    }
    var e := Enrollment(pi.metaUserId, pi.metaBootcampId, Some(pi.id), None);
    var ok := db.CreateEnrollment(e);
    if !ok {
      return Failed(CreateRefused);
    }
    return Created(e);
  }

  method Post(db: Db, secret: string, signature: string, event: Option<Event>) returns (reply: Reply)
    modifies db`enrollments
    ensures reply == Decide(db.users, db.bootcamps, old(db.enrollments), secret, signature, event)
    ensures db.enrollments == Commit(old(db.enrollments), DecideAdded(db.users, db.bootcamps, old(db.enrollments), secret, signature, event))
  {
    if !Present(secret) {
      return ConfigurationError;
    }
    if !Present(signature) || event.None? {
      return SignatureError;
    }
    if event.value.eventType == "payment_intent.succeeded" {
      var h := HandlePaymentIntentSucceeded(db, event.value.intent);
      if h.Failed? {
        return HandlingFailed(h.reason);
      }
    }
    return Received;
  }

  // ---- properties of the route ----

  /** An enrollment is added only for a signed `payment_intent.succeeded`
      event whose metadata names an existing user and bootcamp and whose
      amount covers the dollar price in cents; it records the intent id. */
  lemma AddedOnlyForSignedPayment(
    users: seq<User>, bootcamps: seq<Bootcamp>, es: seq<Enrollment>,
    secret: string, signature: string, event: Option<Event>)
    requires DecideAdded(users, bootcamps, es, secret, signature, event).Some?
    ensures var pi := event.value.intent;
            && Present(secret) && Present(signature) && event.Some?
            && event.value.eventType == "payment_intent.succeeded"
            && FindUserById(users, pi.metaUserId).Some?
            && FindBootcamp(bootcamps, pi.metaBootcampId).Some?
            && pi.amount >= UsdCents(FindBootcamp(bootcamps, pi.metaBootcampId).value)
            && DecideAdded(users, bootcamps, es, secret, signature, event)
               == Some(Enrollment(pi.metaUserId, pi.metaBootcampId, Some(pi.id), None))
  {
  }

  /** Conversely, a signed `payment_intent.succeeded` event whose metadata
      names a known user and a known bootcamp, covering the dollar price, with
      neither the pair nor the intent enrolled, is acknowledged and inserts
      exactly its enrollment. */
  lemma SignedPaymentEnrolls(
    users: seq<User>, bootcamps: seq<Bootcamp>, es: seq<Enrollment>,
    secret: string, signature: string, pi: PaymentIntent, b: Bootcamp)
    requires Present(secret) && Present(signature)
    requires Present(pi.metaUserId) && FindUserById(users, pi.metaUserId).Some?
    requires Present(pi.metaBootcampId) && FindBootcamp(bootcamps, pi.metaBootcampId) == Some(b)
    requires pi.amount >= UsdCents(b)
    requires !HasPair(es, pi.metaUserId, pi.metaBootcampId) && !HasTransaction(es, pi.id)
    ensures var event := Some(Event("payment_intent.succeeded", pi));
            && Decide(users, bootcamps, es, secret, signature, event) == Received
            && DecideAdded(users, bootcamps, es, secret, signature, event)
               == Some(Enrollment(pi.metaUserId, pi.metaBootcampId, Some(pi.id), None))
  {
  }

  /** Events of any other type are acknowledged and change nothing. */
  lemma OtherEventsAcknowledged(
    users: seq<User>, bootcamps: seq<Bootcamp>, es: seq<Enrollment>,
    secret: string, signature: string, ev: Event)
    requires Present(secret) && Present(signature)
    requires ev.eventType != "payment_intent.succeeded"
    ensures Decide(users, bootcamps, es, secret, signature, Some(ev)) == Received
    ensures DecideAdded(users, bootcamps, es, secret, signature, Some(ev)).None?
  {
  }

  /** A redelivered event is acknowledged with 200 and adds nothing, even if
      the user or bootcamp has since been deleted: the existing-enrollment
      check comes before those lookups. */
  lemma RedeliveryAcknowledged(
    users: seq<User>, bootcamps: seq<Bootcamp>, es: seq<Enrollment>,
    secret: string, signature: string, event: Option<Event>,
    users': seq<User>, bootcamps': seq<Bootcamp>)
    requires DecideAdded(users, bootcamps, es, secret, signature, event).Some?
    ensures var es' := Commit(es, DecideAdded(users, bootcamps, es, secret, signature, event));
            Decide(users', bootcamps', es', secret, signature, event) == Received
            && DecideAdded(users', bootcamps', es', secret, signature, event).None?
  {
    var a := DecideAdded(users, bootcamps, es, secret, signature, event);
    var es' := Commit(es, a);
    assert a.value in es';
    assert HasTransaction(es', event.value.intent.id);
  }

  /** A failed handler always answers 500 so the provider retries, and it
      never writes. */
  lemma FailureWritesNothing(
    users: seq<User>, bootcamps: seq<Bootcamp>, es: seq<Enrollment>,
    secret: string, signature: string, event: Option<Event>)
    ensures Decide(users, bootcamps, es, secret, signature, event).HandlingFailed? ==>
              Status(Decide(users, bootcamps, es, secret, signature, event)) == 500
              && DecideAdded(users, bootcamps, es, secret, signature, event).None?
              && Decide(users, bootcamps, es, secret, signature, event).reason != CreateRefused
  {
  }
}
