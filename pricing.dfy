/** Prices, currencies and discount-code normalisation shared by the
    payment routes. */
module Pricing {
  import opened Text
  import opened Store

  /** `VALID_CURRENCIES = ["NGN", "USD"]`. */
  predicate ValidCurrency(currency: string) {
    currency == "NGN" || currency == "USD"
  }

  /** `currency === "NGN" ? bootcamp.priceNGN : bootcamp.priceUSD`: any
      currency other than NGN is priced in dollars. */
  function BasePrice(b: Bootcamp, currency: string): int {
    if currency == "NGN" then b.priceNGN else b.priceUSD
  }

  /** The dollar price in cents, as Stripe reports amounts. */
  function UsdCents(b: Bootcamp): int {
    b.priceUSD * 100
  }

  /** `Math.round(base * (1 - percent / 100))` on exact rationals, rounding a
      half upwards. */
  function DiscountedPrice(base: int, percent: int): int {
    (base * (100 - percent) + 50) / 100
  }

  /** The discounted price is the integer nearest to `base * (100 - percent) / 100`,
      a half rounding up, and lies between 0 and `base` for a percentage in 0..100. */
  lemma DiscountedPriceRounds(base: int, percent: int)
    ensures -50 < 100 * DiscountedPrice(base, percent) - base * (100 - percent) <= 50
    ensures 0 <= base && 0 <= percent <= 100 ==> 0 <= DiscountedPrice(base, percent) <= base
    ensures percent == 0 ==> DiscountedPrice(base, percent) == base
    ensures percent == 100 ==> DiscountedPrice(base, percent) == 0
  {
    var x := base * (100 - percent);
    var r := DiscountedPrice(base, percent);
    assert x + 50 == 100 * r + (x + 50) % 100;
    if 0 <= base && 0 <= percent <= 100 {
      assert 0 <= x <= 100 * base by {
        assert base * percent >= 0;
        assert x == 100 * base - base * percent;
      }
    }
  }

  /** `String(code).toUpperCase().trim()`: the form codes are stored in. */
  function NormalizeCode(code: string): string {
    Trim(ToUpper(code))
  }

  /** A normalised code is no longer than the code typed and holds no
      lower-case ASCII letter. */
  lemma NormalizedIsUpper(code: string)
    ensures |NormalizeCode(code)| <= |code|
    ensures forall i :: 0 <= i < |NormalizeCode(code)| ==> UpperChar(NormalizeCode(code)[i]) == NormalizeCode(code)[i]
  {
    var u := ToUpper(code);
    var r := Trim(u);
    TrimIsInfix(u);
    var a :| OuterSpaceRemoved(u, a, r);
    forall i | 0 <= i < |r|
      ensures UpperChar(r[i]) == r[i]
    {
      assert r[i] == u[a + i];
      UpperCharIdempotent(code[a + i]);
    }
  }

  /** A normalised code normalises to itself, so a code typed in any letter
      case and with surrounding white space finds the stored code. */
  lemma NormalizeIdempotent(code: string)
    ensures NormalizeCode(NormalizeCode(code)) == NormalizeCode(code)
  {
    var u := ToUpper(code);
    var n := Trim(u);
    assert NormalizeCode(code) == n;
    UpperIsUpper(code);
    TrimmedUpperIsUpper(u);
    TrimIdempotent(u);
    assert NormalizeCode(n) == Trim(ToUpper(n));
  }

  /** Every character of an upper-cased text is its own upper case. */
  lemma UpperIsUpper(code: string)
    ensures forall i :: 0 <= i < |ToUpper(code)| ==> UpperChar(ToUpper(code)[i]) == ToUpper(code)[i]
  {
    forall i | 0 <= i < |ToUpper(code)|
      ensures UpperChar(ToUpper(code)[i]) == ToUpper(code)[i]
    {
      UpperCharIdempotent(code[i]);
    }
  }

  lemma TrimmedUpperIsUpper(u: string)
    requires forall i :: 0 <= i < |u| ==> UpperChar(u[i]) == u[i]
    ensures ToUpper(Trim(u)) == Trim(u)
  {
    var t := TrimStart(u);
    var n := TrimEnd(t);
    forall i | 0 <= i < |n|
      ensures UpperChar(n[i]) == n[i]
    {
      assert n[i] == t[i] == u[|u| - |t| + i];
    }
  }
}
