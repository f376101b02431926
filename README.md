# Enrollment store and payment reconciliation, in Dafny

This project models the server side of a course-enrollment web application.
Students pay for a bootcamp through Flutterwave or Stripe, and the payment
becomes an `Enrollment`. Four channels can turn a payment into an enrollment:

- the client's Flutterwave verification call;
- Flutterwave's webhook;
- the client's Stripe verification call;
- Stripe's webhook.

A fifth route enrolls directly, without any payment. The model covers each of
those route handlers. It also covers the validators and small state machines
around them:

- the discount-code preview;
- the in-memory sliding-window rate limiter and the client-address key;
- the waitlist;
- registration;
- password-reset token issue and use;
- the sign-up form's password rules;
- the dashboard's list of available bootcamps;
- the `.env` parser of the email test script.

How the model is built:

- **The tables** (`Store`) are the entities as datatypes, held in sequences by a
  `Db` class whose fields the route handlers update in place.
  - Each insert enforces the uniqueness constraints the handlers rely on:
    - one enrollment per (user, bootcamp) pair;
    - one enrollment per non-null transaction id;
    - one user per email;
    - one waitlist entry per pair.
- **Each route** is modelled twice:
  - a pure function (`Decide`, `Join`, `Check`, `Handle`) states what the route
    answers and which rows it writes;
  - a `method` (`Post`) follows the handler's guard chain step by step against a
    `Db`. Its postcondition ties the reply and the new tables to that function,
    evaluated on the old state.
- **External inputs are parameters.** Provider answers, the session's email or
  id, the configured secrets, signature validity, the current time in
  milliseconds, new ids, password hashes and random tokens all come in as
  arguments. A body field that is absent or falsy is the empty string. The
  exceptions are fields whose absence makes a handler throw, such as the
  Flutterwave notification's `data` and customer email: those are `Option`s.
- **`Reconciliation`** runs any sequence of requests to the five enrollment
  routes. It proves that the database-level invariants hold throughout:
  - at most one enrollment per pair;
  - at most one enrollment per transaction;
  - every code's `currentUses` equals the number of enrollments that name it;
  - `currentUses <= maxUses` whenever `maxUses` is set.
- **Where the channels differ, the model follows the code.** The two providers'
  routes do not converge on the same outcome for the same payment:
  - the Flutterwave webhook prices without the discount;
  - the Stripe routes never look at the currency, so the model's intents
    carry no currency field;
  - Stripe verification falls back to the intent's metadata email;
  - Flutterwave verification requires a session.

  The lemmas state the other three differences.
- **A Flutterwave verification replay is not always "already enrolled".**
  The handler checks the amount before it checks the transaction. So a
  replay of a payment that used a code's last use is priced without the
  code, and it is refused with 400 (`FlutterwaveVerify.LastUseReplayRefused`).
- **Rate limiting follows the code.** Only the discount preview is rate
  limited; registration and password reset are not.

## Model

| member | source | states |
|---|---|---|
| Store.FindUserByEmail | app/api/payment/verify/flutterwave/route.ts:24-26 | `findUnique` by email: a found user is in the table with that email; `None` means no user has it |
| Store.FindUserById | app/api/webhooks/stripe/route.ts:79 | lookup by id: found means in the table with that id, `None` means no user has it |
| Store.FindBootcamp | app/api/payment/verify/flutterwave/route.ts:66-68 | lookup by id: found means in the table with that id, `None` means no bootcamp has it |
| Store.FindCode | app/api/payment/verify/flutterwave/route.ts:79-81 | lookup by code string: found means in the table with that code, `None` means no code matches |
| Store.CodeIndex | app/api/payment/verify/flutterwave/route.ts:79-81 | the position found holds the code and no earlier row does; `None` means no row holds it |
| Store.FindCodeAfterIncrement | app/api/payment/verify/flutterwave/route.ts:129-134 | counting a use keeps the same codes findable, and a found code differs only by one more use when it is the counted one |
| Store.FindToken | app/api/auth/reset-password/confirm/route.ts:18-20 | lookup by token: the position of a record with that token, or `None` when no record has it |
| Store.IncrementUses | app/api/payment/verify/flutterwave/route.ts:130-133 | the counter of the code with that id rises by exactly one; every other code is unchanged |
| Store.SetPasswordById | app/api/auth/reset-password/confirm/route.ts:45-48 | the user with that id gets the new hash; every other user is unchanged |
| Store.CommitKeepsEnrollmentsOk | app/api/payment/verify/flutterwave/route.ts:101-127 | inserting an admissible enrollment keeps pairs and transaction ids unique |
| Store.CommitBalancesUses | app/api/payment/verify/flutterwave/route.ts:118-135 | insert and counted use together leave, for every code, `currentUses` minus the enrollments naming it unchanged |
| Store.CountUseWithinCap | app/api/payment/verify/flutterwave/route.ts:129-134 | counting a use of a code that was below its cap keeps every code within its cap |
| Store.Db.CreateEnrollment | app/api/payment/verify/flutterwave/route.ts:119-127 | `enrollment.create`: appends exactly when the pair and the transaction id are new; otherwise refuses and changes nothing |
| Store.Db.IncrementDiscountUses | app/api/payment/verify/flutterwave/route.ts:130-133 | `discountCode.update` with `increment: 1` on the code table |
| Store.Db.CreateUser | app/api/register/route.ts:46-52 | `user.create`: appends exactly when the email is new |
| Store.Db.SetPassword | app/api/auth/reset-password/confirm/route.ts:45-48 | `user.update` of the password hash by id |
| Store.Db.CreateWaitlistEntry | app/api/waitlist/route.ts:64-69 | `waitlistEntry.create`: appends exactly when the pair is new |
| Store.Db.DeleteTokensFor | app/api/auth/reset-password/confirm/route.ts:51-53 | `deleteMany` by email: exactly the tokens of other emails remain, in order |
| Store.Db.DeleteTokenAt | app/api/auth/reset-password/confirm/route.ts:29 | `delete` of one record: the table without that position |
| Store.Db.CreateToken | app/api/auth/reset-password/route.ts:25-31 | `passwordResetToken.create` on the unique token column: appends the record exactly when no stored record has its token, and otherwise refuses it and leaves the table as it was |
| Seqs.Filter | app/dashboard/page.tsx:34 | `filter`: never longer; every kept element is in the input and passes, and every passing element of the input is kept |
| Seqs.FilterNone | lib/rate-limit.ts:39 | a filter that no element passes keeps nothing |
| Seqs.FilterIsSubsequence | app/dashboard/page.tsx:34 | `filter` keeps the order of the elements |
| Seqs.FilterAppend | app/api/auth/reset-password/route.ts:19-31 | filtering distributes over concatenation |
| Seqs.FilterFilter | lib/rate-limit.ts:20 | a stronger filter after a weaker one equals the stronger one alone |
| Seqs.FilterExcluded | app/api/auth/reset-password/route.ts:19 | a filter that excludes everything the first one kept leaves nothing |
| Seqs.FirstIndex | app/api/auth/reset-password/confirm/route.ts:18-20 | the first position satisfying the test, or `None` when no position does |
| Text.Trim | lib/rate-limit.ts:57 | `trim()`: the result begins and ends with a non-space (that it is the input minus its outer white space is `Text.TrimIsInfix`) |
| Text.TrimIsInfix | lib/rate-limit.ts:57 | the trimmed text is a contiguous part of the input, and everything removed before and after it is white space |
| Text.TrimStart | lib/rate-limit.ts:57 | dropping leading white space leaves a suffix of the input that is empty or starts with a non-space |
| Text.TrimStartSpaces | lib/rate-limit.ts:57 | every character dropped from the front is white space |
| Text.TrimEnd | lib/rate-limit.ts:57 | dropping trailing white space leaves a prefix of the input that is empty or ends with a non-space |
| Text.TrimEndSpaces | lib/rate-limit.ts:57 | every character dropped from the back is white space |
| Text.TrimIdempotent | app/api/payment/verify/flutterwave/route.ts:80 | trimming twice equals trimming once |
| Text.TrimChars | lib/rate-limit.ts:57 | every character of the trimmed text occurs in the original |
| Text.ToUpper | app/api/payment/verify/flutterwave/route.ts:80 | `toUpperCase()`: same length, each character mapped by the ASCII upper-case map |
| Text.Split | scripts/test-email.ts:8-9 | `split(sep)`: at least one part, and no part contains the separator |
| Text.JoinSplit | scripts/test-email.ts:9-12 | joining the parts of a split with the separator gives back the text |
| Text.Join | scripts/test-email.ts:12 | `join(sep)`: the first part is a prefix of the result, followed by the separator when there is a second part |
| Text.SplitTailJoin | scripts/test-email.ts:12 | joining every part after the first gives back the text after the first separator |
| Text.SplitHead | lib/rate-limit.ts:57 | the first part is the text before the first separator; there are two or more parts exactly when the separator occurs |
| Pricing.DiscountedPriceRounds | app/api/payment/verify/flutterwave/route.ts:90 | the discounted price is `base * (100 - p) / 100` rounded to nearest with a half rounding up; for 0..100 percent it lies between 0 and the base price |
| Pricing.NormalizeIdempotent | app/api/payment/verify/flutterwave/route.ts:80 | upper-casing and trimming an already normalised code changes nothing |
| Pricing.TrimmedUpperIsUpper | app/api/payment/verify/flutterwave/route.ts:80 | trimming upper-case text keeps it upper-case |
| Pricing.NormalizedIsUpper | app/api/payment/verify/flutterwave/route.ts:80 | a normalised code is no longer than the typed one and holds upper-case characters only |
| Pricing.UpperIsUpper | app/api/payment/verify/flutterwave/route.ts:80 | every character of an upper-cased text is its own upper case |
| FlutterwaveVerify.ApplicableDiscount | app/api/payment/verify/flutterwave/route.ts:76-94 | a code applies exactly when it was sent, its normalised form is found, and it is usable now; any other code is ignored |
| FlutterwaveVerify.Decide | app/api/payment/verify/flutterwave/route.ts:13-146 | the route's guard chain; whatever it inserts satisfies both uniqueness constraints |
| FlutterwaveVerify.Settle | app/api/payment/verify/flutterwave/route.ts:65-135 | after the payment is settled: an insert is admissible and names exactly the applied code |
| FlutterwaveVerify.PriceWithDiscount | app/api/payment/verify/flutterwave/route.ts:74-94 | the loop-free reassignment of `expectedPrice` and `validatedDiscountCodeId` yields the expected price and the applied code's id |
| FlutterwaveVerify.Post | app/api/payment/verify/flutterwave/route.ts:9-147 | the handler's reply, and its insert plus counted use, equal the route's function on the old tables |
| FlutterwaveVerify.MissingParametersFirst | app/api/payment/verify/flutterwave/route.ts:13-15 | a missing transaction id or bootcamp id gives 400 whatever the session, provider or tables |
| FlutterwaveVerify.IdentityFromSessionOnly | app/api/payment/verify/flutterwave/route.ts:18-30 | without a session email, or with no user for it, the reply is 401 and nothing is written, whatever the provider says |
| FlutterwaveVerify.EnrolledOnlyWhenPaid | app/api/payment/verify/flutterwave/route.ts:50-127 | an insert happens only for a successful lookup in NGN or USD covering the expected price, for the session's user and an existing bootcamp; it records the transaction and the applied code |
| FlutterwaveVerify.UnsettledPaymentChangesNothing | app/api/payment/verify/flutterwave/route.ts:57-63 | a pending status gives 202; any other status but `successful`, or another currency, gives 400; neither writes |
| FlutterwaveVerify.NeverRefusedByConstraints | app/api/payment/verify/flutterwave/route.ts:101-146 | the catch block's internal error is reached only when the provider lookup failed, never through a uniqueness violation on insert |
| FlutterwaveVerify.ReplayIsIdempotent | app/api/payment/verify/flutterwave/route.ts:96-113 | repeating a request that enrolled, on the tables it produced, inserts nothing; it is answered already enrolled when no code applied or the code still applies once its use is counted |
| FlutterwaveVerify.DiscountFallback | app/api/payment/verify/flutterwave/route.ts:76-94 | no code, or an unknown or unusable one, never blocks a payment of the base price; the enrollment names no code |
| FlutterwaveVerify.UnderpaymentRefused | app/api/payment/verify/flutterwave/route.ts:96-99 | the reply is 400 "amount mismatch" exactly when the amount is below the expected price, and then nothing is written |
| FlutterwaveVerify.KeepsUsesWithinCap | app/api/payment/verify/flutterwave/route.ts:87-134 | the counted use keeps every code's `currentUses` within its `maxUses` |
| FlutterwaveVerify.ExpectedPrice | app/api/payment/verify/flutterwave/route.ts:74-94 | without an applicable code the price is the base price in the paid currency; with one it lies between zero and the base price |
| FlutterwaveVerify.DecideSettles | app/api/payment/verify/flutterwave/route.ts:13-65 | with all parameters present, a known session user and a successful lookup in a supported currency, the route's reply is the settlement's |
| FlutterwaveVerify.SettleEnrolls | app/api/payment/verify/flutterwave/route.ts:96-127 | a sufficient payment for a known bootcamp, with neither the pair nor the transaction enrolled, inserts exactly the enrollment naming the applied code |
| FlutterwaveVerify.SettleUnderpaid | app/api/payment/verify/flutterwave/route.ts:96-99 | a payment below the expected price is refused with the amount mismatch and inserts nothing |
| FlutterwaveVerify.SettleAlreadyEnrolled | app/api/payment/verify/flutterwave/route.ts:101-113 | a sufficient payment whose transaction is already enrolled is answered already enrolled and inserts nothing |
| FlutterwaveVerify.ReplayReply | app/api/payment/verify/flutterwave/route.ts:96-113 | a replay on the tables a request produced inserts nothing, and its reply is already enrolled when the amount check still passes |
| FlutterwaveVerify.SoleCodeApplies | app/api/payment/verify/flutterwave/route.ts:78-93 | with one code in the table, a typed code normalising to it applies exactly when the code is usable |
| FlutterwaveVerify.LastUsePrice | app/api/payment/verify/flutterwave/route.ts:90 | a 20% code on a 1000 NGN bootcamp gives the price 800 |
| FlutterwaveVerify.LastUseCode | app/api/payment/verify/flutterwave/route.ts:80 | `X` normalises to itself |
| FlutterwaveVerify.LastUseFirstRequest | app/api/payment/verify/flutterwave/route.ts:76-127 | paying 800 NGN with the last use of a 20% code on a 1000 NGN bootcamp enrolls, naming the code |
| FlutterwaveVerify.LastUseReplay | app/api/payment/verify/flutterwave/route.ts:76-99 | replaying that payment after the use is counted, with the enrollment in place, is refused with the amount mismatch: the used-up code no longer applies |
| FlutterwaveVerify.LastUseReplayRefused | app/api/payment/verify/flutterwave/route.ts:96-113 | through the whole route: the first request enrolls, and its replay on the tables it produced answers 400 amount mismatch rather than already enrolled |
| FlutterwaveWebhook.Decide | app/api/webhooks/flutterwave/route.ts:9-100 | the route's guard chain, with a missing `data` or customer email answered 500 as the handler's throw is; whatever it inserts satisfies both uniqueness constraints (which payments insert: `FlutterwaveWebhook.AddedOnlyForFullPayment` and `FlutterwaveWebhook.FullPaymentEnrolls`) |
| FlutterwaveWebhook.Post | app/api/webhooks/flutterwave/route.ts:7-101 | the handler's reply and insert equal the route's function on the old table |
| FlutterwaveWebhook.Authentic | app/api/webhooks/flutterwave/route.ts:9-14 | no request is authentic while no secret is configured, and an authentic one carries a non-empty `verif-hash` header |
| FlutterwaveWebhook.UnauthorizedIffNotAuthentic | app/api/webhooks/flutterwave/route.ts:9-14 | 401 exactly when no secret is configured or the `verif-hash` header differs from it; nothing is written then |
| FlutterwaveWebhook.AddedOnlyForFullPayment | app/api/webhooks/flutterwave/route.ts:19-89 | an insert needs an authentic successful `charge.completed` in NGN or USD, a known customer email and bootcamp, and at least the undiscounted price; it records the charge id and no code |
| FlutterwaveWebhook.FullPaymentEnrolls | app/api/webhooks/flutterwave/route.ts:9-89 | an authentic successful `charge.completed` in NGN or USD, not seen before, from a known customer for a known bootcamp they are not enrolled in, paying at least the undiscounted price, is answered success and inserts exactly its enrollment, with the charge id and no code |
| FlutterwaveWebhook.MissingChargeFieldsFail | app/api/webhooks/flutterwave/route.ts:16-47 | a `charge.completed` body without `data`, or a successful new charge without a customer email, is answered 500 and writes nothing |
| FlutterwaveWebhook.OtherEventsIgnored | app/api/webhooks/flutterwave/route.ts:19-21 | any other event, or a charge that did not succeed, is answered "ignored" and writes nothing; another event's `data` is never read |
| FlutterwaveWebhook.RedeliveryIsIdempotent | app/api/webhooks/flutterwave/route.ts:31-37 | a redelivered notification is answered `already_processed` and writes nothing |
| FlutterwaveWebhook.NeverRefusedByConstraints | app/api/webhooks/flutterwave/route.ts:16-100 | the 500 reply comes only from a body that is not JSON, a charge body without `data`, or a charge without a customer email; never from a uniqueness violation on insert |
| StripeVerify.ResolveUser | app/api/payment/verify/stripe/route.ts:27-47 | the session's user when the session email names one, else the user of the metadata email; `None` exactly when neither names a user |
| StripeVerify.Decide | app/api/payment/verify/stripe/route.ts:13-94 | the route's guard chain; whatever it inserts satisfies both uniqueness constraints (which intents insert: `StripeVerify.AddedOnlyForSucceededIntent` and `StripeVerify.SucceededIntentEnrolls`) |
| StripeVerify.Post | app/api/payment/verify/stripe/route.ts:11-95 | the handler's reply and insert equal the route's function on the old table |
| StripeVerify.AddedOnlyForSucceededIntent | app/api/payment/verify/stripe/route.ts:20-87 | an insert needs a succeeded intent paying at least the dollar price in cents, a resolved user and a known bootcamp; it records the intent id |
| StripeVerify.SucceededIntentEnrolls | app/api/payment/verify/stripe/route.ts:20-89 | a succeeded intent paying at least the dollar price in cents, for a resolved user and a known bootcamp, with neither the pair nor the intent enrolled, is answered enrolled and inserts exactly its enrollment |
| StripeVerify.UnsucceededIntentRefused | app/api/payment/verify/stripe/route.ts:20-24 | an intent that has not succeeded gives 400 and writes nothing, whoever asks |
| StripeVerify.IntentUsedOnce | app/api/payment/verify/stripe/route.ts:67-78 | once an intent enrolled, no later request with it, for any bootcamp or session, inserts |
| StripeVerify.NeverRefusedByConstraints | app/api/payment/verify/stripe/route.ts:65-94 | the catch block's internal error is reached only when the intent retrieval failed, never through a uniqueness violation on insert |
| StripeWebhook.Handle | app/api/webhooks/stripe/route.ts:53-111 | `handlePaymentIntentSucceeded`: a created enrollment satisfies both uniqueness constraints |
| StripeWebhook.DecideAdded | app/api/webhooks/stripe/route.ts:35-46 | the route inserts only an admissible enrollment (which events insert, in both directions: `StripeWebhook.AddedOnlyForSignedPayment` and `StripeWebhook.SignedPaymentEnrolls`) |
| StripeWebhook.HandlePaymentIntentSucceeded | app/api/webhooks/stripe/route.ts:53-114 | the handler's outcome and insert equal `Handle` on the old table |
| StripeWebhook.Post | app/api/webhooks/stripe/route.ts:15-51 | the reply and insert equal the route's functions on the old table |
| StripeWebhook.Decide | app/api/webhooks/stripe/route.ts:15-51 | 500 for the configuration exactly when no secret is configured; 400 for the signature exactly when the header is missing or the event does not verify; a handling failure only for a signed `payment_intent.succeeded` |
| StripeWebhook.AddedOnlyForSignedPayment | app/api/webhooks/stripe/route.ts:16-111 | an insert needs a configured secret, a signed `payment_intent.succeeded` event, a known user id and bootcamp, and the dollar price in cents; it records the intent id |
| StripeWebhook.SignedPaymentEnrolls | app/api/webhooks/stripe/route.ts:35-111 | a signed `payment_intent.succeeded` event naming a known user and a known bootcamp, paying at least the dollar price in cents, with neither the pair nor the intent enrolled, is acknowledged and inserts exactly its enrollment |
| StripeWebhook.OtherEventsAcknowledged | app/api/webhooks/stripe/route.ts:36-46 | a signed event of any other type gets `received: true` and writes nothing |
| StripeWebhook.RedeliveryAcknowledged | app/api/webhooks/stripe/route.ts:64-76 | a redelivered event is acknowledged and inserts nothing, even once its user or bootcamp is gone |
| StripeWebhook.FailureWritesNothing | app/api/webhooks/stripe/route.ts:47-50 | a failed handler gives 500 and writes nothing; the insert itself is never refused |
| DirectEnroll.Decide | app/api/payment/route.ts:7-44 | the route; whatever it inserts satisfies both uniqueness constraints |
| DirectEnroll.Post | app/api/payment/route.ts:6-45 | the handler's reply and insert equal the route's function on the old table |
| DirectEnroll.EnrollsWithoutPayment | app/api/payment/route.ts:21-31 | any signed-in user is enrolled in any bootcamp id they are not yet enrolled in, with no transaction and no payment check |
| DirectEnroll.DuplicateIsServerError | app/api/payment/route.ts:40-44 | a second enrollment in the same bootcamp is refused by the pair constraint and answered 500 |
| DirectEnroll.SuccessInserts | app/api/payment/route.ts:33-39 | the reply is success exactly when a row is inserted, and the confirmation email is sent exactly when the bootcamp exists |
| RateLimit.Recent | lib/rate-limit.ts:39 | the kept timestamps are at most as many as before, and all lie inside the window (completeness and order are `RateLimit.RecentKeepsOrder`) |
| RateLimit.RecentKeepsOrder | lib/rate-limit.ts:39 | every timestamp of the input inside the window is kept, and the kept ones are in their original order |
| RateLimit.Recorded | lib/rate-limit.ts:36-48 | after a check the key has an entry; every other key is unchanged and no key is added |
| RateLimit.Blocked | lib/rate-limit.ts:41 | a blocked key already holds at least `maxRequests` timestamps |
| RateLimit.QuietWindowResets | lib/rate-limit.ts:36-48 | once every stored timestamp of a key is a window old, a check is allowed and leaves exactly the new timestamp |
| RateLimit.Swept | lib/rate-limit.ts:17-25 | after a sweep each remaining key holds exactly its timestamps younger than ten minutes, none empty; every key with such a timestamp remains |
| RateLimit.SweepStep | lib/rate-limit.ts:19-24 | one loop iteration deletes the key when it has no recent timestamp and otherwise keeps the recent ones |
| RateLimit.RateLimiter.constructor | lib/rate-limit.ts:14 | the limiter starts with an empty map |
| RateLimit.RateLimiter.IsRateLimited | lib/rate-limit.ts:34-49 | blocked exactly when the window already holds `maxRequests`; the key's timestamps become the in-window ones plus `now` when allowed |
| RateLimit.RateLimiter.Sweep | lib/rate-limit.ts:17-25 | the clean-up loop leaves the swept map |
| RateLimit.RecordedStaysBounded | lib/rate-limit.ts:39-48 | a key holding at most `maxRequests` timestamps still does after a check, and an allowed request's time is recorded |
| RateLimit.AllowedWithinWindow | lib/rate-limit.ts:34-49 | the strengthened invariant: recent timestamps plus later allowed requests within one window never exceed `maxRequests` |
| RateLimit.AtMostMaxPerWindow | lib/rate-limit.ts:34-49 | among checks on one key spanning less than the window, at most `maxRequests` are allowed, whatever the prior state |
| RateLimit.SpacedRequestsAllowed | lib/rate-limit.ts:39-48 | two checks a window or more apart are both allowed |
| RateLimit.SweepInvisible | lib/rate-limit.ts:17-25 | for windows up to ten minutes and any request limit, a later check sees the same in-window timestamps after a sweep as without it, and so decides alike |
| RateLimit.ClientIp | lib/rate-limit.ts:55-62 | `getClientIp` never returns an empty key; without a usable first hop of `x-forwarded-for` it falls back to `x-real-ip`, then `cf-connecting-ip`, then `"unknown"` |
| RateLimit.ClientIpIsFirstHop | lib/rate-limit.ts:57 | with a usable `x-forwarded-for`, the address is its text before the first comma, trimmed, and holds no comma |
| RateLimit.ClientChoosesAddress | lib/rate-limit.ts:55-62 | any trimmed, comma-free value a client sends in `x-forwarded-for` becomes the key |
| DiscountValidate.Check | app/api/discount/validate/route.ts:21-57 | 400 exactly when no non-empty string code was sent; 404 exactly when one was sent and its normalised form is not found; a code is reported valid only when it was sent and found |
| DiscountValidate.Post | app/api/discount/validate/route.ts:7-58 | the reply equals the route's function on the old limiter state; the limiter records the attempt; the code table is only read |
| DiscountValidate.Decide | app/api/discount/validate/route.ts:7-21 | 429 exactly when the address is blocked; 401 exactly when it is not and there is no session; a valid reply only with a session, equal to the code check |
| DiscountValidate.Verdict | app/api/discount/validate/route.ts:35-57 | a found code is valid exactly when it is usable, reporting its own percentage, and otherwise refused for one of the four conditions |
| DiscountValidate.ValidIffApplied | app/api/discount/validate/route.ts:35-57 | a code is previewed as valid exactly when the Flutterwave verification would apply it at the same instant, with the same percentage |
| DiscountValidate.RefusalReasons | app/api/discount/validate/route.ts:35-51 | each refusal holds exactly when its condition fails and every earlier one passes: inactive, not yet valid, expired, usage limit (the verdict itself is `DiscountValidate.Verdict`) |
| DiscountValidate.WindowInclusive | app/api/discount/validate/route.ts:41-47 | both ends of the validity window are accepted; one millisecond after its end is "expired" |
| DiscountValidate.AttemptsBounded | app/api/discount/validate/route.ts:10-13 | among requests from one address within one minute, at most five get past the limiter |
| DiscountValidate.AnonymousAttemptsCount | app/api/discount/validate/route.ts:10-19 | a request without a session is answered 401 but still uses up an attempt |
| Waitlist.Join | app/api/waitlist/route.ts:9-69 | POST: the entry it adds is not yet on the waitlist (which joins add an entry, in both directions: `Waitlist.JoinOnlyInactive` and `Waitlist.InactiveBootcampJoined`) |
| Waitlist.PostJoin | app/api/waitlist/route.ts:7-91 | the handler's reply and insert equal `Join` on the old waitlist |
| Waitlist.Check | app/api/waitlist/route.ts:93-122 | GET: an answer exactly when the user and bootcamp id are present, and `onWaitlist` exactly when the pair is listed |
| Waitlist.JoinThenCheck | app/api/waitlist/route.ts:64-122 | after a successful join, the check answers `onWaitlist: true` |
| Waitlist.JoinOnlyInactive | app/api/waitlist/route.ts:28-61 | only an existing inactive bootcamp's waitlist grows, by this pair; joining again gives 409 |
| Waitlist.InactiveBootcampJoined | app/api/waitlist/route.ts:9-69 | a signed-in user's join of an existing inactive bootcamp whose waitlist does not list them is answered joined and adds exactly that entry |
| Waitlist.JoinKeepsUnique | app/api/waitlist/route.ts:47-69 | joining keeps the pairs unique, and the insert is never refused |
| Register.EmailShape | app/api/register/route.ts:18 | the email regex matches exactly: no white space, one `@` not first, and a `.` after it that is neither next to the `@` nor last |
| Register.MatchedIsShaped | app/api/register/route.ts:18 | a matched email has that shape |
| Register.ShapedIsMatched | app/api/register/route.ts:18 | an email of that shape is matched |
| Register.Decide | app/api/register/route.ts:8-59 | a created user's email was not registered (which requests create a user, in both directions: `Register.RegisteredAccount` and `Register.ValidRegistrationCreates`) |
| Register.Post | app/api/register/route.ts:6-66 | the handler's reply and insert equal `Decide` on the old users |
| Register.RegisteredAccount | app/api/register/route.ts:10-59 | an account is created only with all fields, a matching email, a password of eight or more characters and a new email; it stores the hash and is returned whole |
| Register.ValidRegistrationCreates | app/api/register/route.ts:10-52 | a name, an email matching the pattern, a password of eight or more characters and an email no user has create exactly that user, storing the hash |
| Register.RegisterKeepsEmailsUnique | app/api/register/route.ts:33-52 | registering keeps emails unique; registering the same email again is refused as an existing user unless an earlier field check already refuses it |
| Register.EmailExamples | app/api/register/route.ts:18-24 | `a@b.c` passes; `a@bc` and `a b@c.d` are refused |
| ResetRequest.Decide | app/api/auth/reset-password/route.ts:8-42 | the reply is 400 exactly when the body carries no email; it is 500 exactly when the email has an account and the new token is held by another email's record, because `create` throws after `deleteMany`; otherwise it is success |
| ResetRequest.Post | app/api/auth/reset-password/route.ts:6-44 | the handler's reply and token table equal `Decide` on the old table, the failed create included |
| ResetRequest.ReplyIndependentOfAccounts | app/api/auth/reset-password/route.ts:14-38 | with a token no stored record holds, the reply is the same whatever the user table holds |
| ResetRequest.CollidingTokenFails | app/api/auth/reset-password/route.ts:17-42 | a token held by another email's record gives 500; the email's old tokens are already deleted and it is left with none |
| ResetRequest.OneTokenPerEmail | app/api/auth/reset-password/route.ts:17-31 | after an accepted request a known email has exactly one token, the new one, expiring an hour later; after a failed create it has none; an unknown email changes nothing |
| ResetRequest.OtherEmailsUntouched | app/api/auth/reset-password/route.ts:19 | other emails' tokens are unchanged, in order |
| ResetRequest.KeepsTokensUnique | app/api/auth/reset-password/route.ts:19-31 | the route keeps token strings unique, since a colliding token is never stored |
| ResetConfirm.Decide | app/api/auth/reset-password/confirm/route.ts:7-55 | users change only on success; tokens change only on success or expiry |
| ResetConfirm.Post | app/api/auth/reset-password/confirm/route.ts:5-61 | the handler's reply, users and tokens equal `Decide` on the old tables |
| ResetConfirm.ResetEffect | app/api/auth/reset-password/confirm/route.ts:13-53 | a reset needs a known unexpired token (expiring now is accepted) and eight characters; only that user's hash changes, and no token for the email survives |
| ResetConfirm.TokenSingleUse | app/api/auth/reset-password/confirm/route.ts:26-53 | after a reset or an expiry no record with that token remains |
| ResetConfirm.OrphanTokenKept | app/api/auth/reset-password/confirm/route.ts:34-40 | when the token's email has no user the reply is 404 and the token is kept |
| ResetConfirm.RequestThenConfirm | app/api/auth/reset-password/confirm/route.ts:18-55 | a request for a known email with a token no stored record holds, then a confirmation within the hour with that token, resets the password |
| Signup.ValidIffAllMet | app/auth/signup/page.tsx:27-36 | the password is valid exactly when it meets all five requirements |
| Signup.UnmetInOrder | app/auth/signup/page.tsx:35 | the unmet requirements keep the form's order |
| Signup.EveryRequirementListed | app/auth/signup/page.tsx:27-33 | each requirement kind is in the form's list |
| Signup.ValidPassesServer | app/auth/signup/page.tsx:28 | a password the form accepts passes the server's eight-character check |
| Signup.ServerLaxerThanForm | app/auth/signup/page.tsx:27-36 | `abcdefgh` passes the server's length check but not the form |
| Signup.Meets | app/auth/signup/page.tsx:27-33 | each requirement's regular expression; meeting the length requirement implies at least eight characters |
| Signup.Unmet | app/auth/signup/page.tsx:35 | a requirement is listed as unmet exactly when the password does not meet it |
| Signup.FilterRequirements | app/auth/signup/page.tsx:35 | filtering the form's requirement list keeps exactly the requirements that pass |
| Signup.IsPasswordValid | app/auth/signup/page.tsx:36 | a valid password has at least eight characters |
| Signup.LineBreakBreaksLength | app/auth/signup/page.tsx:28 | eight characters with a line break meet the other rules but not the length rule |
| Signup.ValidFormSubmits | app/auth/signup/page.tsx:41-46 | filled-in fields with a password meeting every rule are submitted and leave the button enabled |
| Dashboard.View | app/dashboard/page.tsx:13-34 | the page redirects to login exactly when there is no session |
| Dashboard.ListsPartitionCatalogue | app/dashboard/page.tsx:20-34 | a bootcamp is offered exactly when the user has no enrollment in it; the enrolled list is exactly the user's enrollments |
| Dashboard.AvailableInOrder | app/dashboard/page.tsx:34 | the offered bootcamps keep the catalogue's order |
| Dashboard.EnrollmentMovesBootcamp | app/dashboard/page.tsx:33-34 | after an enrollment its bootcamp leaves the offered list and joins the enrolled one |
| DotEnv.StripQuotes | scripts/test-email.ts:14-16 | the value never grows; a value without matching outer quotes is returned unchanged; with them, the result is exactly the text between them |
| DotEnv.ParseLine | scripts/test-email.ts:9-19 | a line yields a setting only when it holds `=`, and then a non-empty key free of `=` and a non-empty value |
| DotEnv.ApplyLines | scripts/test-email.ts:8-21 | no key is removed, and every key present afterwards was present before or set by some line |
| DotEnv.Environment.Load | scripts/test-email.ts:5-24 | the loop leaves the environment with every line applied in order; an unreadable file changes nothing |
| DotEnv.LineSplitsAtFirstEquals | scripts/test-email.ts:9-19 | the key is the trimmed text before the first `=`; the value is the trimmed rest with one pair of quotes stripped; both must be non-empty |
| DotEnv.NoEqualsIgnored | scripts/test-email.ts:9-10 | a line without `=` changes nothing |
| DotEnv.QuotesStrippedOnce | scripts/test-email.ts:14-16 | exactly one pair of matching outer quotes is removed |
| DotEnv.ApplyOtherLine | scripts/test-email.ts:17-19 | a line that sets another key leaves this key as it was |
| DotEnv.UnsetKeyKept | scripts/test-email.ts:8-21 | a key no line sets keeps its value, or stays unset |
| DotEnv.LastLineWins | scripts/test-email.ts:8-21 | of several lines setting a key, the last one decides its value |
| Reconciliation.OnlyFlutterwaveVerifyCountsUses | app/api/payment/verify/flutterwave/route.ts:115-134 | no other enrollment route names a discount code, so none changes the code table |
| Reconciliation.StepAdmissible | app/api/payment/verify/flutterwave/route.ts:101-127 | every enrollment route inserts only what the uniqueness constraints admit |
| Reconciliation.StepKeepsConsistent | app/api/payment/verify/flutterwave/route.ts:115-135 | one request to any route keeps pairs and transactions unique, counters equal to their enrollments, and counters within caps |
| Reconciliation.RunKeepsConsistent | app/api/payment/verify/flutterwave/route.ts:115-135 | any sequence of requests to the five routes keeps the tables consistent |
| Reconciliation.SeededIsConsistent | prisma/seed-discount.ts:13-19 | seeded tables (no enrollments, unused codes with distinct ids) are consistent |
| Reconciliation.FlutterwaveVerifyThenWebhook | app/api/webhooks/flutterwave/route.ts:31-37 | a payment the client verified is answered `already_processed` by its notification, with no second insert |
| Reconciliation.FlutterwaveWebhookThenVerify | app/api/payment/verify/flutterwave/route.ts:102-113 | a payment recorded by the notification is not inserted again by the client's verification |
| Reconciliation.StripeVerifyThenWebhook | app/api/webhooks/stripe/route.ts:64-76 | a payment the client verified is acknowledged by its event, with no second insert |
| Reconciliation.StripeWebhookThenVerify | app/api/payment/verify/stripe/route.ts:67-78 | a payment recorded by the event is not inserted again by the client's verification |
| Reconciliation.DiscountedPaymentRefusedByWebhook | app/api/webhooks/flutterwave/route.ts:65-70 | a payment of exactly the discounted price (a discount worth more than half a currency unit) is refused by the webhook as insufficient, so only the client's verification can enroll it |

## Left out

- Network calls to Flutterwave and Stripe are left out: the transaction lookup, the intent retrieval and `constructEvent`'s signature check. Their answers are inputs: `None` stands for a failed call or a signature that does not verify.
- Email sending (`lib/email.ts`) is left out, because it is SMTP I/O outside the tables. `DirectEnroll` reports only whether the email would be sent.
- Sessions, bcrypt hashing and `randomBytes` are left out. The session's email or id, the password hash and the token are parameters.
- ResetRequest.ReplyIndependentOfAccounts: requires a token that no stored record holds. On a collision the route answers 500 for a known email and success for an unknown one, so the reply can reveal an account. The token is 32 random bytes, so a collision is practically impossible. `CollidingTokenFails` states that case.
- The ORM's transactions and concurrent requests are left out. Requests run one at a time. The Flutterwave verification's insert and counted use are one atomic step.
- Foreign keys and the schema are not part of this model. The direct route can therefore enroll into an unknown bootcamp id.
- The `status` and `enrolledAt` columns are left out.
- The dashboard's `createdAt` ordering is left out: the catalogue is given already in the order shown.
- A request body that is not JSON is left out of most routes. Most routes answer it with 500 from their catch block, and the direct route throws. The Flutterwave webhook models it as `None`. A body field of the wrong type is also left out. The one exception is the discount preview's non-string `code`.
- DiscountValidate.Post: does not model a body that is not JSON, which the route answers with 500.
- Text.ToUpper: maps ASCII letters only. Full Unicode case mapping is left out.
- Text.Trim: white space is the JavaScript set of code points. Strings are sequences of code points, not UTF-16 code units, so `password.length` counts a character outside the Basic Multilingual Plane once.
- Pricing.DiscountedPriceRounds: the price uses exact integer arithmetic with a half rounding up in place of the floating-point `Math.round(price * (1 - p / 100))`. Amounts and prices are whole numbers.
- RateLimit.RateLimiter.Sweep: the `setInterval` schedule is left out. Only the clean-up body is modelled, with `now` as a parameter. The keys are visited in an arbitrary order, since the result does not depend on it.
- FlutterwaveWebhook.Decide: a charge without `amount` or `id` is left out; the model's charge always carries both. In the handler a missing amount passes the price check, because `undefined < price` is false, and a missing id is recorded as the text `"undefined"`.
- The email test script's `testEmail` function is left out, because it only sends a message.
