/** Payment reconciliation across the five routes that insert enrollments:
    the client-side verifications and the provider webhooks of Flutterwave
    and Stripe, and the direct enrollment. Whatever order the routes run in,
    the enrollment table keeps at most one row per (user, bootcamp) pair and
    per transaction, and every code's usage counter equals the number of
    enrollments that name it and stays within its cap. */
module Reconciliation {
  import opened Base
  import opened Seqs
  import opened Store
  import opened Pricing
  import FlutterwaveVerify
  import FlutterwaveWebhook
  import StripeVerify
  import StripeWebhook
  import DirectEnroll

  /** The tables the enrollment routes read and write. */
  datatype State = State(users: seq<User>, bootcamps: seq<Bootcamp>, codes: seq<DiscountCode>, es: seq<Enrollment>)

  /** One request to one of the enrollment routes, with everything that route
      takes from outside the tables. */
  datatype Step =
    | ByFlutterwaveVerify(req: FlutterwaveVerify.Request, sessionEmail: string, secretKeySet: bool,
                          lookup: Option<FlutterwaveVerify.Lookup>, now: int)
    | ByFlutterwaveWebhook(secret: string, signature: Option<string>, payload: Option<FlutterwaveWebhook.Payload>)
    | ByStripeVerify(sreq: StripeVerify.Request, sessionEmail: string, intent: Option<StripeVerify.Intent>)
    | ByStripeWebhook(secret: string, stripeSignature: string, event: Option<StripeWebhook.Event>)
    | ByDirectEnroll(sessionEmail: string, bootcampId: string)

  /** The enrollment the step inserts, if any. */
  function Added(s: State, step: Step): Option<Enrollment> {
    match step
    case ByFlutterwaveVerify(req, sessionEmail, secretKeySet, lookup, now) =>
      FlutterwaveVerify.Decide(s.users, s.bootcamps, s.codes, s.es, req, sessionEmail, secretKeySet, lookup, now).added
    case ByFlutterwaveWebhook(secret, signature, payload) =>
      FlutterwaveWebhook.Decide(s.users, s.bootcamps, s.es, secret, signature, payload).added
    case ByStripeVerify(req, sessionEmail, intent) =>
      StripeVerify.Decide(s.users, s.bootcamps, s.es, req, sessionEmail, intent).added
    case ByStripeWebhook(secret, signature, event) =>
      StripeWebhook.DecideAdded(s.users, s.bootcamps, s.es, secret, signature, event)
    case ByDirectEnroll(sessionEmail, bootcampId) =>
      DirectEnroll.Decide(s.users, s.bootcamps, s.es, sessionEmail, bootcampId).added
  }

  /** The tables after the step: the insert, and the counted use of the code
      the new enrollment names, committed together. */
  function Apply(s: State, step: Step): State {
    var a := Added(s, step);
    s.(codes := CountUse(s.codes, a), es := Commit(s.es, a))
  }

  /** The tables after the steps, in order. */
  function Run(s: State, steps: seq<Step>): State
    decreases |steps|
  {
    if steps == [] then s else Run(Apply(s, steps[0]), steps[1..])
  }

  /** Every code's `currentUses` equals the number of enrollments naming it. */
  ghost predicate UsesCounted(codes: seq<DiscountCode>, es: seq<Enrollment>) {
    forall i :: 0 <= i < |codes| ==> codes[i].currentUses == Refs(es, codes[i].id)
  }

  ghost predicate Consistent(s: State) {
    && EnrollmentsOk(s.es)
    && UniqueCodeIds(s.codes)
    && UsesWithinCap(s.codes)
    && UsesCounted(s.codes, s.es)
  }

  // ---- the invariant, route by route ----

  /** Only the Flutterwave verification names a discount code, so no other
      route changes the discount table. */
  lemma OnlyFlutterwaveVerifyCountsUses(s: State, step: Step)
    requires !step.ByFlutterwaveVerify?
    ensures Added(s, step).Some? ==> Added(s, step).value.discountCodeId.None?
    ensures Apply(s, step).codes == s.codes
  {
    if step.ByStripeWebhook? {
      var a := Added(s, step);
      if a.Some? {
        var e := step.event.value;
        assert a == StripeWebhook.Added(StripeWebhook.Handle(s.users, s.bootcamps, s.es, e.intent));
      }
    }
  }

  /** Every route inserts only what the table's uniqueness constraints
      admit. */
  lemma StepAdmissible(s: State, step: Step)
    ensures Added(s, step).Some? ==> Admissible(s.es, Added(s, step).value)
  {
  }

  /** Each step keeps the tables consistent. */
  lemma StepKeepsConsistent(s: State, step: Step)
    requires Consistent(s)
    ensures Consistent(Apply(s, step))
  {
    var a := Added(s, step);
    var s' := Apply(s, step);
    StepAdmissible(s, step);
    CommitKeepsEnrollmentsOk(s.es, a);
    forall i | 0 <= i < |s'.codes|
      ensures s'.codes[i].currentUses == Refs(s'.es, s'.codes[i].id)
    {
      CommitBalancesUses(s.codes, s.es, a, i);
      if a.Some? && a.value.discountCodeId.Some? {
        assert s'.codes[i].id == s.codes[i].id;
      }
    }
    if step.ByFlutterwaveVerify? {
      FlutterwaveVerify.KeepsUsesWithinCap(s.users, s.bootcamps, s.codes, s.es,
        step.req, step.sessionEmail, step.secretKeySet, step.lookup, step.now);
    } else {
      OnlyFlutterwaveVerifyCountsUses(s, step);
    }
    assert forall i :: 0 <= i < |s'.codes| ==> s'.codes[i].id == s.codes[i].id;
  }

  /** Any sequence of requests, to any of the routes, keeps the tables
      consistent. */
  lemma {:induction false} RunKeepsConsistent(s: State, steps: seq<Step>)
    requires Consistent(s)
    ensures Consistent(Run(s, steps))
    decreases |steps|
  {
    if steps != [] {
      StepKeepsConsistent(s, steps[0]);
      RunKeepsConsistent(Apply(s, steps[0]), steps[1..]);
    }
  }

  /** The tables as seeded: no enrollments, distinct code ids, no use counted
      and no negative cap. */
  lemma SeededIsConsistent(users: seq<User>, bootcamps: seq<Bootcamp>, codes: seq<DiscountCode>)
    requires UniqueCodeIds(codes)
    requires forall i :: 0 <= i < |codes| ==> codes[i].currentUses == 0
    requires forall i :: 0 <= i < |codes| && codes[i].maxUses.Some? ==> codes[i].maxUses.value >= 0
    ensures Consistent(State(users, bootcamps, codes, []))
  {
  }

  // ---- the two channels of one payment ----

  /** A Flutterwave payment the client verified is answered
      `already_processed` when its notification arrives, and is not inserted
      again. */
  lemma FlutterwaveVerifyThenWebhook(
    s: State, req: FlutterwaveVerify.Request, sessionEmail: string, lookup: Option<FlutterwaveVerify.Lookup>, now: int,
    secret: string, c: FlutterwaveWebhook.Charge)
    requires FlutterwaveVerify.Decide(s.users, s.bootcamps, s.codes, s.es, req, sessionEmail, true, lookup, now).reply
             == FlutterwaveVerify.Enrolled
    requires Present(secret) && c.id == req.transactionId
    requires c.status == "successful" && ValidCurrency(c.currency)
    ensures var s' := Apply(s, ByFlutterwaveVerify(req, sessionEmail, true, lookup, now));
            var p := FlutterwaveWebhook.Payload("charge.completed", Some(c));
            FlutterwaveWebhook.Decide(s'.users, s'.bootcamps, s'.es, secret, Some(secret), Some(p))
            == FlutterwaveWebhook.Outcome(FlutterwaveWebhook.AlreadyProcessed, None)
  {
    var s' := Apply(s, ByFlutterwaveVerify(req, sessionEmail, true, lookup, now));
    var e := Added(s, ByFlutterwaveVerify(req, sessionEmail, true, lookup, now)).value;
    FlutterwaveVerify.EnrolledOnlyWhenPaid(s.users, s.bootcamps, s.codes, s.es, req, sessionEmail, true, lookup, now);
    assert e in s'.es && e.transactionId == Some(c.id);
    assert HasTransaction(s'.es, c.id);
  }

  /** A Flutterwave payment first recorded by its notification is not
      inserted again when the client verifies it. */
  lemma FlutterwaveWebhookThenVerify(
    s: State, secret: string, signature: Option<string>, p: FlutterwaveWebhook.Payload,
    req: FlutterwaveVerify.Request, sessionEmail: string, secretKeySet: bool, lookup: Option<FlutterwaveVerify.Lookup>, now: int)
    requires FlutterwaveWebhook.Decide(s.users, s.bootcamps, s.es, secret, signature, Some(p)).reply
             == FlutterwaveWebhook.Success
    requires p.data.Some? && req.transactionId == p.data.value.id
    ensures var s' := Apply(s, ByFlutterwaveWebhook(secret, signature, Some(p)));
            var o := FlutterwaveVerify.Decide(s'.users, s'.bootcamps, s'.codes, s'.es, req, sessionEmail, secretKeySet, lookup, now);
            o.added.None? && o.reply != FlutterwaveVerify.Enrolled
  {
    var s' := Apply(s, ByFlutterwaveWebhook(secret, signature, Some(p)));
    var e := Added(s, ByFlutterwaveWebhook(secret, signature, Some(p))).value;
    assert e in s'.es;
    assert HasTransaction(s'.es, p.data.value.id);
  }

  /** A Stripe payment the client verified is acknowledged when its event
      arrives, and is not inserted again. */
  lemma StripeVerifyThenWebhook(
    s: State, req: StripeVerify.Request, sessionEmail: string, intent: Option<StripeVerify.Intent>,
    secret: string, signature: string, pi: StripeWebhook.PaymentIntent)
    requires StripeVerify.Decide(s.users, s.bootcamps, s.es, req, sessionEmail, intent).reply == StripeVerify.Enrolled
    requires Present(secret) && Present(signature)
    requires pi.id == req.paymentIntent && Present(pi.metaUserId) && Present(pi.metaBootcampId)
    ensures var s' := Apply(s, ByStripeVerify(req, sessionEmail, intent));
            var event := Some(StripeWebhook.Event("payment_intent.succeeded", pi));
            StripeWebhook.Decide(s'.users, s'.bootcamps, s'.es, secret, signature, event) == StripeWebhook.Received
            && StripeWebhook.DecideAdded(s'.users, s'.bootcamps, s'.es, secret, signature, event).None?
  {
    var s' := Apply(s, ByStripeVerify(req, sessionEmail, intent));
    var e := Added(s, ByStripeVerify(req, sessionEmail, intent)).value;
    assert e in s'.es;
    assert HasTransaction(s'.es, pi.id);
  }

  /** A Stripe payment first recorded by its event is not inserted again when
      the client verifies it. */
  lemma StripeWebhookThenVerify(
    s: State, secret: string, signature: string, event: StripeWebhook.Event,
    req: StripeVerify.Request, sessionEmail: string, intent: Option<StripeVerify.Intent>)
    requires StripeWebhook.DecideAdded(s.users, s.bootcamps, s.es, secret, signature, Some(event)).Some?
    requires req.paymentIntent == event.intent.id
    ensures var s' := Apply(s, ByStripeWebhook(secret, signature, Some(event)));
            var o := StripeVerify.Decide(s'.users, s'.bootcamps, s'.es, req, sessionEmail, intent);
            o.added.None? && o.reply != StripeVerify.Enrolled
  {
    var s' := Apply(s, ByStripeWebhook(secret, signature, Some(event)));
    var e := Added(s, ByStripeWebhook(secret, signature, Some(event))).value;
    assert e in s'.es;
    assert HasTransaction(s'.es, event.intent.id);
  }

  /** The notification of a discounted Flutterwave payment is refused for
      its amount whenever the discount takes at least one unit off the price
      (`base * percent > 50`): the webhook compares against the undiscounted
      price, so such a payment is enrolled only by the client's
      verification. */
  lemma DiscountedPaymentRefusedByWebhook(
    s: State, secret: string, c: FlutterwaveWebhook.Charge, b: Bootcamp, d: DiscountCode)
    requires Present(secret) && c.status == "successful" && ValidCurrency(c.currency)
    requires !HasTransaction(s.es, c.id)
    requires c.customerEmail.Some? && FindUserByEmail(s.users, c.customerEmail.value).Some?
    requires Present(c.metaBootcampId) && FindBootcamp(s.bootcamps, c.metaBootcampId) == Some(b)
    requires BasePrice(b, c.currency) * d.discountPercent > 50
    requires c.amount == DiscountedPrice(BasePrice(b, c.currency), d.discountPercent)
    ensures FlutterwaveWebhook.Decide(s.users, s.bootcamps, s.es, secret, Some(secret),
                                      Some(FlutterwaveWebhook.Payload("charge.completed", Some(c))))
            == FlutterwaveWebhook.Outcome(FlutterwaveWebhook.InsufficientAmount, None)
  {
    var base := BasePrice(b, c.currency);
    DiscountedPriceRounds(base, d.discountPercent);
    assert base * (100 - d.discountPercent) == 100 * base - base * d.discountPercent;
  }
}
