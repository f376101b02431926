/** `POST /api/discount/validate`: the checkout's preview of a discount code.
    It is rate limited per client address before anything else, requires a
    session, and reports why a code is refused. */
module DiscountValidate {
  import opened Base
  import opened Store
  import opened Pricing
  import opened RateLimit
  import FlutterwaveVerify

  /** Five attempts per address per minute. */
  const MaxAttempts: int := 5
  const WindowMs: int := 60_000

  function LimiterKey(ip: string): string {
    "discount:" + ip
  }

  datatype Reply =
    | TooManyAttempts | LoginRequired | CodeRequired | InvalidCode | Inactive
    | NotYetValid | Expired | UsageLimitReached | Valid(discountPercent: int, description: string)

  function Status(r: Reply): int {
    match r
    case TooManyAttempts => 429
    case LoginRequired => 401
    case CodeRequired => 400
    case InvalidCode => 404
    case Valid(_, _) => 200
    case _ => 400
  }

  /** The checks on the code itself: `code` is `None` when the body has no
      string `code`. */
  function Check(codes: seq<DiscountCode>, code: Option<string>, now: int): (r: Reply)
    ensures r == CodeRequired <==> code.None? || !Present(code.value)
    ensures r == InvalidCode <==> code.Some? && Present(code.value) && FindCode(codes, NormalizeCode(code.value)).None?
    ensures r.Valid? ==> code.Some? && FindCode(codes, NormalizeCode(code.value)).Some?
    ensures !r.TooManyAttempts? && !r.LoginRequired?
  {
    if code.None? || !Present(code.value) then CodeRequired
    else match FindCode(codes, NormalizeCode(code.value))
      case None => InvalidCode
      case Some(d) => Verdict(d, now)
  }

  /** The verdict on a found code: the first failing condition, in the order
      active, not yet valid, expired, exhausted. */
  function Verdict(d: DiscountCode, now: int): (r: Reply)
    ensures r.Valid? <==> FlutterwaveVerify.Usable(d, now)
    ensures r.Valid? ==> r.discountPercent == d.discountPercent
    ensures !r.TooManyAttempts? && !r.LoginRequired? && !r.CodeRequired? && !r.InvalidCode?
  {
    if !d.isActive then Inactive
    else if d.validFrom.Some? && now < d.validFrom.value then NotYetValid
    else if d.validUntil.Some? && now > d.validUntil.value then Expired
    else if d.maxUses.Some? && d.currentUses >= d.maxUses.value then UsageLimitReached
    else Valid(d.discountPercent, d.description)
  }

  /** The reply, given the limiter's store before the request, the codes, the
      client address, the session email, the code and the time. */
  function Decide(store: map<string, seq<int>>, codes: seq<DiscountCode>, ip: string,
                  sessionEmail: string, code: Option<string>, now: int): (r: Reply)
    ensures r == TooManyAttempts <==> Blocked(store, LimiterKey(ip), MaxAttempts, WindowMs, now)
    ensures r == LoginRequired <==> !Blocked(store, LimiterKey(ip), MaxAttempts, WindowMs, now) && !Present(sessionEmail)
    ensures r.Valid? ==> Present(sessionEmail) && Check(codes, code, now) == r
  {
    if Blocked(store, LimiterKey(ip), MaxAttempts, WindowMs, now) then TooManyAttempts
    else if !Present(sessionEmail) then LoginRequired
    else Check(codes, code, now)
  }

  /** The route. Every request, refused or not, passes the limiter first. */
  method Post(db: Db, limiter: RateLimiter, forwardedFor: string, realIp: string, connectingIp: string,
              sessionEmail: string, code: Option<string>, now: int) returns (reply: Reply)
    modifies limiter
    ensures var ip := ClientIp(forwardedFor, realIp, connectingIp);
            reply == Decide(old(limiter.store), db.codes, ip, sessionEmail, code, now)
            && limiter.store == Recorded(old(limiter.store), LimiterKey(ip), MaxAttempts, WindowMs, now)
  {
    var ip := ClientIp(forwardedFor, realIp, connectingIp);
    var limited := limiter.IsRateLimited(LimiterKey(ip), MaxAttempts, WindowMs, now);
    if limited {
      return TooManyAttempts;
    }
    if !Present(sessionEmail) {
      return LoginRequired;
    }
    if code.None? || !Present(code.value) {
      return CodeRequired;
    }
    var discountCode := FindCode(db.codes, NormalizeCode(code.value));
    if discountCode.None? {
      return InvalidCode;
    }
    var d := discountCode.value;
    if !d.isActive {
      return Inactive;
    }
    if d.validFrom.Some? && now < d.validFrom.value {
      return NotYetValid;
    }
    if d.validUntil.Some? && now > d.validUntil.value {
      return Expired;
    }
    if d.maxUses.Some? && d.currentUses >= d.maxUses.value {
      return UsageLimitReached;
    }
    return Valid(d.discountPercent, d.description);
  }

  // ---- properties of the route ----

  /** The preview agrees with the payment: a code is reported valid exactly
      when the Flutterwave verification would apply it at the same instant,
      and with the same percentage. */
  lemma ValidIffApplied(codes: seq<DiscountCode>, code: string, now: int)
    ensures Check(codes, Some(code), now).Valid? <==> FlutterwaveVerify.ApplicableDiscount(codes, code, now).Some?
    ensures Check(codes, Some(code), now).Valid? ==>
              Check(codes, Some(code), now).discountPercent
              == FlutterwaveVerify.ApplicableDiscount(codes, code, now).value.discountPercent
  {
    if Present(code) {
      var found := FindCode(codes, NormalizeCode(code));
      assert Check(codes, Some(code), now) == if found.None? then InvalidCode else Verdict(found.value, now);
    }
  }

  /** A refused code names the first failing condition, in the order active,
      not yet valid, expired, exhausted. */
  lemma RefusalReasons(codes: seq<DiscountCode>, code: string, now: int, d: DiscountCode)
    requires Present(code) && FindCode(codes, NormalizeCode(code)) == Some(d)
    ensures Check(codes, Some(code), now) == Inactive <==> !d.isActive
    ensures Check(codes, Some(code), now) == NotYetValid <==>
              d.isActive && d.validFrom.Some? && now < d.validFrom.value
    ensures Check(codes, Some(code), now) == Expired <==>
              d.isActive && !(d.validFrom.Some? && now < d.validFrom.value)
              && d.validUntil.Some? && now > d.validUntil.value
    ensures Check(codes, Some(code), now) == UsageLimitReached <==>
              FlutterwaveVerify.Usable(d.(maxUses := None), now) && !FlutterwaveVerify.Usable(d, now)
  {
  }

  /** The validity window is inclusive at both ends. */
  lemma WindowInclusive(codes: seq<DiscountCode>, code: string, d: DiscountCode)
    requires Present(code) && FindCode(codes, NormalizeCode(code)) == Some(d)
    requires d.isActive && d.maxUses.None?
    requires d.validFrom.Some? && d.validUntil.Some? && d.validFrom.value <= d.validUntil.value
    ensures Check(codes, Some(code), d.validFrom.value).Valid?
    ensures Check(codes, Some(code), d.validUntil.value).Valid?
    ensures Check(codes, Some(code), d.validUntil.value + 1) == Expired
  {
  }

  /** However the limiter stands, among requests from one address within one
      minute at most five get past the limiter. */
  lemma AttemptsBounded(store: map<string, seq<int>>, ip: string, times: seq<int>, lo: int)
    requires forall i :: 0 <= i < |times| ==> lo <= times[i] < lo + WindowMs
    ensures |Allowed(store, LimiterKey(ip), MaxAttempts, WindowMs, times)| <= MaxAttempts
  {
    AtMostMaxPerWindow(store, LimiterKey(ip), MaxAttempts, WindowMs, times, lo, lo + WindowMs - 1);
  }

  /** Requests without a session still use up the address's attempts. */
  lemma AnonymousAttemptsCount(store: map<string, seq<int>>, codes: seq<DiscountCode>, ip: string, code: Option<string>, now: int)
    requires !Blocked(store, LimiterKey(ip), MaxAttempts, WindowMs, now)
    ensures Decide(store, codes, ip, "", code, now) == LoginRequired
    ensures now in Timestamps(Recorded(store, LimiterKey(ip), MaxAttempts, WindowMs, now), LimiterKey(ip))
  {
  }
}
