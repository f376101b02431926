/** `POST /api/payment/verify/flutterwave`: the client-initiated check of a
    Flutterwave transaction. It is the only route that applies a discount
    code and the only one that counts its use, together with the enrollment
    insert, in one transaction. */
module FlutterwaveVerify {
  import opened Base
  import opened Store
  import opened Pricing
  import opened Text

  datatype Request = Request(transactionId: string, bootcampId: string, discountCode: string)

  /** The answer of Flutterwave's transaction lookup: `data.status`, then
      `data.data.status`, `currency` and `amount` (whole currency units). */
  datatype Lookup = Lookup(apiStatus: string, status: string, currency: string, amount: int)

  datatype Reply =
    | MissingParameters | AuthenticationRequired | UserNotFound | ConfigurationError
    | VerificationFailed | Pending | InvalidStatusOrCurrency | BootcampNotFound
    | AmountMismatch | AlreadyEnrolled | Enrolled | InternalError

  function Status(r: Reply): int {
    match r
    case MissingParameters => 400
    case AuthenticationRequired => 401
    case UserNotFound => 401
    case ConfigurationError => 500
    case VerificationFailed => 400
    case Pending => 202
    case InvalidStatusOrCurrency => 400
    case BootcampNotFound => 404
    case AmountMismatch => 400
    case AlreadyEnrolled => 200
    case Enrolled => 200
    case InternalError => 500
  }

  /** The reply, and the enrollment the route inserted, if any. */
  datatype Outcome = Outcome(reply: Reply, added: Option<Enrollment>)

  /** A found, active code is applied when `now` lies in its (inclusive)
      validity window and it is below its usage cap. */
  predicate Usable(d: DiscountCode, now: int) {
    && d.isActive
    && (d.validFrom.None? || now >= d.validFrom.value)
    && (d.validUntil.None? || now <= d.validUntil.value)
    && (d.maxUses.None? || d.currentUses < d.maxUses.value)
  }

  /** The discount the route applies for the request's code, if any; any
      other code is silently ignored. */
  function ApplicableDiscount(codes: seq<DiscountCode>, discountCode: string, now: int): (r: Option<DiscountCode>)
    ensures r.Some? <==> Present(discountCode) && FindCode(codes, NormalizeCode(discountCode)).Some?
                          && Usable(FindCode(codes, NormalizeCode(discountCode)).value, now)
    ensures r.Some? ==> r.value in codes && r.value.code == NormalizeCode(discountCode)
  {
    if !Present(discountCode) then None
    else match FindCode(codes, NormalizeCode(discountCode))
      case None => None
      case Some(d) => if Usable(d, now) then Some(d) else None
  }

  /** The price the payment must cover: the base price for the currency,
      discounted when a discount applies. */
  function ExpectedPrice(b: Bootcamp, currency: string, applied: Option<DiscountCode>): (price: int)
    ensures applied.None? ==> price == BasePrice(b, currency)
    ensures applied.Some? && 0 <= BasePrice(b, currency) && 0 <= applied.value.discountPercent <= 100
            ==> 0 <= price <= BasePrice(b, currency)
  {
    if applied.Some? then
      DiscountedPriceRounds(BasePrice(b, currency), applied.value.discountPercent);
      DiscountedPrice(BasePrice(b, currency), applied.value.discountPercent)
    else BasePrice(b, currency)
  }

  function AppliedId(applied: Option<DiscountCode>): Option<string> {
    if applied.Some? then Some(applied.value.id) else None
  }

  /** What the route does, given the tables it reads, the request, the
      session email, whether the secret key is configured, the lookup's
      answer (`None` when the call or its JSON fails) and the time. */
  function Decide(users: seq<User>, bootcamps: seq<Bootcamp>, codes: seq<DiscountCode>, es: seq<Enrollment>,
                  req: Request, sessionEmail: string, secretKeySet: bool, lookup: Option<Lookup>, now: int): (o: Outcome)
    ensures o.added.Some? ==> Admissible(es, o.added.value)
  {
    if !Present(req.transactionId) || !Present(req.bootcampId) then Outcome(MissingParameters, None)
    else if !Present(sessionEmail) then Outcome(AuthenticationRequired, None)
    else match FindUserByEmail(users, sessionEmail)
      case None => Outcome(UserNotFound, None)
      case Some(user) =>
        if !secretKeySet then Outcome(ConfigurationError, None)
        else match lookup
          case None => Outcome(InternalError, None)
          case Some(data) =>
            if data.apiStatus != "success" then Outcome(VerificationFailed, None)
            else if data.status == "pending" then Outcome(Pending, None)
            else if data.status != "successful" || !ValidCurrency(data.currency) then Outcome(InvalidStatusOrCurrency, None)
            else Settle(bootcamps, codes, es, req, user, data, now)
  }

  /** The second half of the route, once the payment is known to be settled
      in a valid currency: price check, idempotency check and insert. */
  function Settle(bootcamps: seq<Bootcamp>, codes: seq<DiscountCode>, es: seq<Enrollment>,
                  req: Request, user: User, data: Lookup, now: int): (o: Outcome)
    ensures o.added.Some? ==> Admissible(es, o.added.value)
    ensures o.added.Some? ==> o.added.value.discountCodeId == AppliedId(ApplicableDiscount(codes, req.discountCode, now))
  {
    match FindBootcamp(bootcamps, req.bootcampId)
    case None => Outcome(BootcampNotFound, None)
    case Some(bootcamp) =>
      var applied := ApplicableDiscount(codes, req.discountCode, now);
      if data.amount < ExpectedPrice(bootcamp, data.currency, applied) then Outcome(AmountMismatch, None)
      else if HasPair(es, user.id, req.bootcampId) || HasTransaction(es, req.transactionId) then
        Outcome(AlreadyEnrolled, None)
      else
        var e := Enrollment(user.id, req.bootcampId, Some(req.transactionId), AppliedId(applied));
        if Admissible(es, e) then Outcome(Enrolled, Some(e)) else Outcome(InternalError, None)
  }

  /** The expected price, and the id of the code whose use the enrollment
      will count: the code is validated here, its use not yet counted. */
  method PriceWithDiscount(bootcamp: Bootcamp, currency: string, codes: seq<DiscountCode>, discountCode: string, now: int)
    returns (expectedPrice: int, validatedDiscountCodeId: Option<string>)
    ensures expectedPrice == ExpectedPrice(bootcamp, currency, ApplicableDiscount(codes, discountCode, now))
    ensures validatedDiscountCodeId == AppliedId(ApplicableDiscount(codes, discountCode, now))
  {
    expectedPrice := BasePrice(bootcamp, currency);
    validatedDiscountCodeId := None;
    if Present(discountCode) {
      var discount := FindCode(codes, NormalizeCode(discountCode));
      if discount.Some? && discount.value.isActive {
        var d := discount.value;
        var isValidDate := (d.validFrom.None? || now >= d.validFrom.value) && (d.validUntil.None? || now <= d.validUntil.value);
        var isWithinUsageLimit := d.maxUses.None? || d.currentUses < d.maxUses.value;
        if isValidDate && isWithinUsageLimit {
          expectedPrice := DiscountedPrice(expectedPrice, d.discountPercent);
          validatedDiscountCodeId := Some(d.id);
        }
      }
    }
  }

  method Post(db: Db, req: Request, sessionEmail: string, secretKeySet: bool, lookup: Option<Lookup>, now: int)
    returns (reply: Reply)
    modifies db`enrollments, db`codes
    ensures var o := Decide(db.users, db.bootcamps, old(db.codes), old(db.enrollments), req, sessionEmail, secretKeySet, lookup, now);
            reply == o.reply && db.enrollments == Commit(old(db.enrollments), o.added)
            && db.codes == CountUse(old(db.codes), o.added)
  {
    if !Present(req.transactionId) || !Present(req.bootcampId) {
      return MissingParameters;
    }
    if !Present(sessionEmail) {
      return AuthenticationRequired;
    }
    var user := FindUserByEmail(db.users, sessionEmail);
    if user.None? {
      return UserNotFound;
    }
    if !secretKeySet {
      return ConfigurationError;
    }
    if lookup.None? {
      return InternalError;
    }
    var data := lookup.value;
    if data.apiStatus != "success" {
      return VerificationFailed;
    }
    if data.status == "pending" {
      return Pending;
    }
    if data.status != "successful" || !ValidCurrency(data.currency) {
      return InvalidStatusOrCurrency;
    }
    var bootcamp := FindBootcamp(db.bootcamps, req.bootcampId);
    if bootcamp.None? {
      return BootcampNotFound;
    }
    var expectedPrice, validatedDiscountCodeId := PriceWithDiscount(bootcamp.value, data.currency, db.codes, req.discountCode, now);
    if data.amount < expectedPrice {
      return AmountMismatch;
    }
    if HasPair(db.enrollments, user.value.id, req.bootcampId) || HasTransaction(db.enrollments, req.transactionId) {
      return AlreadyEnrolled;
    }
    // One transaction: the insert and the counted use commit together, or
    // neither does.
    var ok := db.CreateEnrollment(Enrollment(user.value.id, req.bootcampId, Some(req.transactionId), validatedDiscountCodeId));
    if !ok {
      return InternalError;
    }
    if validatedDiscountCodeId.Some? {
      db.IncrementDiscountUses(validatedDiscountCodeId.value);
    }
    return Enrolled;
  }

  // ---- properties of the route ----

  /** A request without transaction id or bootcamp id is refused before the
      session, the provider or any table is consulted. */
  lemma MissingParametersFirst(
    users: seq<User>, bootcamps: seq<Bootcamp>, codes: seq<DiscountCode>, es: seq<Enrollment>,
    req: Request, sessionEmail: string, secretKeySet: bool, lookup: Option<Lookup>, now: int)
    requires !Present(req.transactionId) || !Present(req.bootcampId)
    ensures Decide(users, bootcamps, codes, es, req, sessionEmail, secretKeySet, lookup, now) == Outcome(MissingParameters, None)
  {
  }

  /** Identity comes from the session only: with no session email, or no
      user with it, the reply is 401 whatever the provider reports. */
  lemma IdentityFromSessionOnly(
    users: seq<User>, bootcamps: seq<Bootcamp>, codes: seq<DiscountCode>, es: seq<Enrollment>,
    req: Request, sessionEmail: string, secretKeySet: bool, lookup: Option<Lookup>, now: int)
    requires Present(req.transactionId) && Present(req.bootcampId)
    requires !Present(sessionEmail) || FindUserByEmail(users, sessionEmail).None?
    ensures var o := Decide(users, bootcamps, codes, es, req, sessionEmail, secretKeySet, lookup, now);
            Status(o.reply) == 401 && o.added.None?
  {
  }

  /** An enrollment is added only for a successful lookup in NGN or USD whose
      amount covers the expected price, for the session's user and an existing
      bootcamp, and it records this transaction and the applied code. */
  lemma EnrolledOnlyWhenPaid(
    users: seq<User>, bootcamps: seq<Bootcamp>, codes: seq<DiscountCode>, es: seq<Enrollment>,
    req: Request, sessionEmail: string, secretKeySet: bool, lookup: Option<Lookup>, now: int)
    requires Decide(users, bootcamps, codes, es, req, sessionEmail, secretKeySet, lookup, now).added.Some?
    ensures var o := Decide(users, bootcamps, codes, es, req, sessionEmail, secretKeySet, lookup, now);
            var user := FindUserByEmail(users, sessionEmail);
            var b := FindBootcamp(bootcamps, req.bootcampId);
            var applied := ApplicableDiscount(codes, req.discountCode, now);
            && o.reply == Enrolled
            && lookup.Some? && lookup.value.apiStatus == "success" && lookup.value.status == "successful"
            && ValidCurrency(lookup.value.currency)
            && user.Some? && b.Some?
            && lookup.value.amount >= ExpectedPrice(b.value, lookup.value.currency, applied)
            && o.added == Some(Enrollment(user.value.id, req.bootcampId, Some(req.transactionId), AppliedId(applied)))
  {
  }

  /** A pending lookup gives 202; any other status but `successful`, or a
      currency outside NGN and USD, gives 400; nothing is written. */
  lemma UnsettledPaymentChangesNothing(
    users: seq<User>, bootcamps: seq<Bootcamp>, codes: seq<DiscountCode>, es: seq<Enrollment>,
    req: Request, sessionEmail: string, data: Lookup, now: int)
    requires Present(req.transactionId) && Present(req.bootcampId) && Present(sessionEmail)
    requires FindUserByEmail(users, sessionEmail).Some?
    requires data.apiStatus == "success"
    requires data.status != "successful" || !ValidCurrency(data.currency)
    ensures var o := Decide(users, bootcamps, codes, es, req, sessionEmail, true, Some(data), now);
            o.added.None? && o.reply == (if data.status == "pending" then Pending else InvalidStatusOrCurrency)
  {
  }

  /** The route never reaches the database's uniqueness constraints: its own
      idempotency check already excludes both kinds of duplicate, so a 500
      comes only from a failed provider call. */
  lemma NeverRefusedByConstraints(
    users: seq<User>, bootcamps: seq<Bootcamp>, codes: seq<DiscountCode>, es: seq<Enrollment>,
    req: Request, sessionEmail: string, secretKeySet: bool, lookup: Option<Lookup>, now: int)
    ensures Decide(users, bootcamps, codes, es, req, sessionEmail, secretKeySet, lookup, now).reply == InternalError
            ==> lookup.None?
  {
  }

  /** A replay of a request that enrolled inserts nothing. It is answered
      "already enrolled" when no code applied, or when the code still applies
      once its use is counted; the amount check comes first, so a replay that
      finds the code used up is held to the base price. */
  lemma ReplayIsIdempotent(
    users: seq<User>, bootcamps: seq<Bootcamp>, codes: seq<DiscountCode>, es: seq<Enrollment>,
    req: Request, sessionEmail: string, secretKeySet: bool, lookup: Option<Lookup>, now: int)
    requires var o := Decide(users, bootcamps, codes, es, req, sessionEmail, secretKeySet, lookup, now); o.reply == Enrolled
    ensures var o := Decide(users, bootcamps, codes, es, req, sessionEmail, secretKeySet, lookup, now);
            var es' := Commit(es, o.added);
            var codes' := CountUse(codes, o.added);
            Decide(users, bootcamps, codes', es', req, sessionEmail, secretKeySet, lookup, now).added.None?
    ensures var o := Decide(users, bootcamps, codes, es, req, sessionEmail, secretKeySet, lookup, now);
            var es' := Commit(es, o.added);
            var codes' := CountUse(codes, o.added);
            ApplicableDiscount(codes, req.discountCode, now).None? || ApplicableDiscount(codes', req.discountCode, now).Some?
            ==> Decide(users, bootcamps, codes', es', req, sessionEmail, secretKeySet, lookup, now).reply == AlreadyEnrolled
  {
    var o := Decide(users, bootcamps, codes, es, req, sessionEmail, secretKeySet, lookup, now);
    var es' := Commit(es, o.added);
    EnrolledOnlyWhenPaid(users, bootcamps, codes, es, req, sessionEmail, secretKeySet, lookup, now);
    assert HasTransaction(es', req.transactionId) by {
      assert o.added.value in es';
    }
    ReplayReply(users, bootcamps, codes, es', req, sessionEmail, lookup.value, now,
                FindUserByEmail(users, sessionEmail).value, FindBootcamp(bootcamps, req.bootcampId).value, o.added.value);
  }

  /** The replay's reply, with the enrollment `e` the first request made
      already in `es'`. */
  lemma ReplayReply(
    users: seq<User>, bootcamps: seq<Bootcamp>, codes: seq<DiscountCode>, es': seq<Enrollment>,
    req: Request, sessionEmail: string, data: Lookup, now: int, user: User, b: Bootcamp, e: Enrollment)
    requires Present(req.transactionId) && Present(req.bootcampId) && Present(sessionEmail)
    requires FindUserByEmail(users, sessionEmail) == Some(user) && FindBootcamp(bootcamps, req.bootcampId) == Some(b)
    requires data.apiStatus == "success" && data.status == "successful" && ValidCurrency(data.currency)
    requires data.amount >= ExpectedPrice(b, data.currency, ApplicableDiscount(codes, req.discountCode, now))
    requires e.discountCodeId == AppliedId(ApplicableDiscount(codes, req.discountCode, now))
    requires HasTransaction(es', req.transactionId)
    ensures Decide(users, bootcamps, CountUse(codes, Some(e)), es', req, sessionEmail, true, Some(data), now).added.None?
    ensures ApplicableDiscount(codes, req.discountCode, now).None?
            || ApplicableDiscount(CountUse(codes, Some(e)), req.discountCode, now).Some?
            ==> Decide(users, bootcamps, CountUse(codes, Some(e)), es', req, sessionEmail, true, Some(data), now).reply
                == AlreadyEnrolled
  {
    var codes' := CountUse(codes, Some(e));
    var applied := ApplicableDiscount(codes, req.discountCode, now);
    var applied' := ApplicableDiscount(codes', req.discountCode, now);
    DecideSettles(users, bootcamps, codes', es', req, sessionEmail, data, now, user);
    if applied.None? || applied'.Some? {
      assert ExpectedPrice(b, data.currency, applied') == ExpectedPrice(b, data.currency, applied) by {
        if applied.Some? {
          FindCodeAfterIncrement(codes, applied.value.id, NormalizeCode(req.discountCode));
        }
      }
      SettleAlreadyEnrolled(bootcamps, codes', es', req, user, data, now, b);
    }
  }

  /** Once the parameters, the session and a settled lookup pass, the route
      goes on to the price, idempotency and insert steps. */
  lemma DecideSettles(
    users: seq<User>, bootcamps: seq<Bootcamp>, codes: seq<DiscountCode>, es: seq<Enrollment>,
    req: Request, sessionEmail: string, data: Lookup, now: int, user: User)
    requires Present(req.transactionId) && Present(req.bootcampId) && Present(sessionEmail)
    requires FindUserByEmail(users, sessionEmail) == Some(user)
    requires data.apiStatus == "success" && data.status == "successful" && ValidCurrency(data.currency)
    ensures Decide(users, bootcamps, codes, es, req, sessionEmail, true, Some(data), now)
            == Settle(bootcamps, codes, es, req, user, data, now)
  {
  }

  /** A payment covering the price, for a transaction already recorded, is
      answered "already enrolled". */
  lemma SettleAlreadyEnrolled(
    bootcamps: seq<Bootcamp>, codes: seq<DiscountCode>, es: seq<Enrollment>,
    req: Request, user: User, data: Lookup, now: int, b: Bootcamp)
    requires FindBootcamp(bootcamps, req.bootcampId) == Some(b)
    requires data.amount >= ExpectedPrice(b, data.currency, ApplicableDiscount(codes, req.discountCode, now))
    requires HasTransaction(es, req.transactionId)
    ensures Settle(bootcamps, codes, es, req, user, data, now) == Outcome(AlreadyEnrolled, None)
  {
  }

  /** The replay of a payment that used a code's last use is refused as an
      amount mismatch (400), although the enrollment exists: here a 20% code
      capped at one use, a 1000 NGN bootcamp and a payment of 800 NGN. */
  lemma LastUseReplayRefused()
    ensures var users := [User("u", "Ada", "ada@example.com", "h")];
            var bootcamps := [Bootcamp("b", "Design", 1000, 10, true)];
            var codes := [DiscountCode("d", "X", "", 20, true, None, None, Some(1), 0)];
            var req := Request("tx", "b", "X");
            var lookup := Some(Lookup("success", "successful", "NGN", 800));
            var o := Decide(users, bootcamps, codes, [], req, "ada@example.com", true, lookup, 0);
            o.reply == Enrolled
            && Decide(users, bootcamps, CountUse(codes, o.added), Commit([], o.added), req, "ada@example.com", true, lookup, 0).reply
               == AmountMismatch
  {
    var users := [User("u", "Ada", "ada@example.com", "h")];
    var b := Bootcamp("b", "Design", 1000, 10, true);
    var d := DiscountCode("d", "X", "", 20, true, None, None, Some(1), 0);
    var req := Request("tx", "b", "X");
    var data := Lookup("success", "successful", "NGN", 800);
    var e := Enrollment("u", "b", Some("tx"), Some("d"));
    LastUseFirstRequest();
    DecideSettles(users, [b], [d], [], req, "ada@example.com", data, 0, users[0]);
    assert CountUse([d], Some(e)) == [d.(currentUses := 1)];
    assert Commit([], Some(e)) == [e];
    LastUseReplay();
    DecideSettles(users, [b], [d.(currentUses := 1)], [e], req, "ada@example.com", data, 0, users[0]);
  }

  /** The first request of `LastUseReplayRefused`: the code applies and the
      800 NGN payment covers the discounted price. */
  lemma LastUseFirstRequest()
    ensures var d := DiscountCode("d", "X", "", 20, true, None, None, Some(1), 0);
            Settle([Bootcamp("b", "Design", 1000, 10, true)], [d], [], Request("tx", "b", "X"),
                   User("u", "Ada", "ada@example.com", "h"), Lookup("success", "successful", "NGN", 800), 0)
            == Outcome(Enrolled, Some(Enrollment("u", "b", Some("tx"), Some("d"))))
  {
    var d := DiscountCode("d", "X", "", 20, true, None, None, Some(1), 0);
    var b := Bootcamp("b", "Design", 1000, 10, true);
    LastUseCode();
    SoleCodeApplies(d, "X", 0);
    LastUsePrice(b, d);
    SettleEnrolls([b], [d], [], Request("tx", "b", "X"), User("u", "Ada", "ada@example.com", "h"),
                  Lookup("success", "successful", "NGN", 800), 0, b);
  }

  /** A payment covering the price, for a new pair and a new transaction,
      is enrolled with the applied code's id. */
  lemma SettleEnrolls(
    bootcamps: seq<Bootcamp>, codes: seq<DiscountCode>, es: seq<Enrollment>,
    req: Request, user: User, data: Lookup, now: int, b: Bootcamp)
    requires FindBootcamp(bootcamps, req.bootcampId) == Some(b)
    requires data.amount >= ExpectedPrice(b, data.currency, ApplicableDiscount(codes, req.discountCode, now))
    requires !HasPair(es, user.id, req.bootcampId) && !HasTransaction(es, req.transactionId)
    ensures Settle(bootcamps, codes, es, req, user, data, now)
            == Outcome(Enrolled, Some(Enrollment(user.id, req.bootcampId, Some(req.transactionId),
                                                 AppliedId(ApplicableDiscount(codes, req.discountCode, now)))))
  {
  }

  /** A payment below the expected price is refused before anything else
      is looked at. */
  lemma SettleUnderpaid(
    bootcamps: seq<Bootcamp>, codes: seq<DiscountCode>, es: seq<Enrollment>,
    req: Request, user: User, data: Lookup, now: int, b: Bootcamp)
    requires FindBootcamp(bootcamps, req.bootcampId) == Some(b)
    requires data.amount < ExpectedPrice(b, data.currency, ApplicableDiscount(codes, req.discountCode, now))
    ensures Settle(bootcamps, codes, es, req, user, data, now) == Outcome(AmountMismatch, None)
  {
  }

  /** The replay of `LastUseReplayRefused`: the exhausted code no longer
      applies, so the full 1000 NGN is expected. */
  lemma LastUseReplay()
    ensures var d := DiscountCode("d", "X", "", 20, true, None, None, Some(1), 1);
            Settle([Bootcamp("b", "Design", 1000, 10, true)], [d], [Enrollment("u", "b", Some("tx"), Some("d"))],
                   Request("tx", "b", "X"), User("u", "Ada", "ada@example.com", "h"),
                   Lookup("success", "successful", "NGN", 800), 0).reply
            == AmountMismatch
  {
    var d := DiscountCode("d", "X", "", 20, true, None, None, Some(1), 1);
    var b := Bootcamp("b", "Design", 1000, 10, true);
    LastUseCode();
    SoleCodeApplies(d, "X", 0);
    SettleUnderpaid([b], [d], [Enrollment("u", "b", Some("tx"), Some("d"))], Request("tx", "b", "X"),
                    User("u", "Ada", "ada@example.com", "h"), Lookup("success", "successful", "NGN", 800), 0, b);
  }

  /** With one code in the table, a typed code that normalises to it is
      applied exactly when the code is usable. */
  lemma SoleCodeApplies(d: DiscountCode, code: string, now: int)
    requires Present(code) && NormalizeCode(code) == d.code
    ensures ApplicableDiscount([d], code, now) == if Usable(d, now) then Some(d) else None
  {
    assert FindCode([d], d.code) == Some(d) by {
      assert CodeIndex([d], d.code) == Some(0);
    }
  }

  /** 20% off 1000 NGN is 800 NGN. */
  lemma LastUsePrice(b: Bootcamp, d: DiscountCode)
    requires b.priceNGN == 1000 && d.discountPercent == 20
    ensures ExpectedPrice(b, "NGN", Some(d)) == 800
  {
    DiscountedPriceRounds(1000, 20);
  }

  /** The code "X" is found as typed. */
  lemma LastUseCode()
    ensures NormalizeCode("X") == "X"
  {
    assert ToUpper("X") == "X";
    TrimOfNoSpace("X");
  }

  /** No code, or an ineligible or unknown one, never blocks the payment: it is ignored,
      the base price stands and the enrollment names no code. */
  lemma DiscountFallback(
    users: seq<User>, bootcamps: seq<Bootcamp>, codes: seq<DiscountCode>, es: seq<Enrollment>,
    req: Request, sessionEmail: string, data: Lookup, now: int, user: User, b: Bootcamp)
    requires Present(req.transactionId) && Present(req.bootcampId) && Present(sessionEmail)
    requires FindUserByEmail(users, sessionEmail) == Some(user) && FindBootcamp(bootcamps, req.bootcampId) == Some(b)
    requires data.apiStatus == "success" && data.status == "successful" && ValidCurrency(data.currency)
    requires !Present(req.discountCode) ||
             var d := FindCode(codes, NormalizeCode(req.discountCode)); (d.None? || !Usable(d.value, now))
    requires data.amount >= BasePrice(b, data.currency)
    requires !HasPair(es, user.id, req.bootcampId) && !HasTransaction(es, req.transactionId)
    ensures Decide(users, bootcamps, codes, es, req, sessionEmail, true, Some(data), now)
            == Outcome(Enrolled, Some(Enrollment(user.id, req.bootcampId, Some(req.transactionId), None)))
  {
  }

  /** Underpayment is always refused and writes nothing; paying the expected
      price exactly, or more, passes the amount check. */
  lemma UnderpaymentRefused(
    users: seq<User>, bootcamps: seq<Bootcamp>, codes: seq<DiscountCode>, es: seq<Enrollment>,
    req: Request, sessionEmail: string, data: Lookup, now: int, b: Bootcamp)
    requires Present(req.transactionId) && Present(req.bootcampId) && Present(sessionEmail)
    requires FindUserByEmail(users, sessionEmail).Some? && FindBootcamp(bootcamps, req.bootcampId) == Some(b)
    requires data.apiStatus == "success" && data.status == "successful" && ValidCurrency(data.currency)
    ensures var o := Decide(users, bootcamps, codes, es, req, sessionEmail, true, Some(data), now);
            (data.amount < ExpectedPrice(b, data.currency, ApplicableDiscount(codes, req.discountCode, now))
             <==> o.reply == AmountMismatch)
            && (o.reply == AmountMismatch ==> o.added.None?)
  {
  }

  /** A counted use keeps every code within its cap: the increment happens
      only for a code below its cap, and only that code changes. */
  lemma KeepsUsesWithinCap(
    users: seq<User>, bootcamps: seq<Bootcamp>, codes: seq<DiscountCode>, es: seq<Enrollment>,
    req: Request, sessionEmail: string, secretKeySet: bool, lookup: Option<Lookup>, now: int)
    requires UsesWithinCap(codes) && UniqueCodeIds(codes)
    ensures var o := Decide(users, bootcamps, codes, es, req, sessionEmail, secretKeySet, lookup, now);
            UsesWithinCap(CountUse(codes, o.added))
  {
    var o := Decide(users, bootcamps, codes, es, req, sessionEmail, secretKeySet, lookup, now);
    var applied := ApplicableDiscount(codes, req.discountCode, now);
    if o.added.Some? {
      EnrolledOnlyWhenPaid(users, bootcamps, codes, es, req, sessionEmail, secretKeySet, lookup, now);
      if applied.Some? {
        CountUseWithinCap(codes, o.added, applied.value);
      }
    }
  }
}
