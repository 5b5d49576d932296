/**
  `_count_annual_profitability` of core/TableExporter.py: what buying one bond
  now costs, what holding it to maturity brings back after tax, and the
  annualised ratio of the two.

  Money is modelled with `real`, so the 0.87 and 0.13 factors are exact here
  where the source uses binary floating point. The final `round(100 * x ** e - 100, 2)`
  is a floating-point power; it is the parameter `annualise(ratio, exponent)`.
 */
module Profitability {
  import opened TermFormat
  import opened Sequences

  /** Share of a coupon kept after the 13% tax on coupon income. */
  const CouponAfterTax: real := 0.87
  /** Tax rate on the gain between purchase price and nominal. */
  const GainTaxRate: real := 0.13

  /** One coupon payment: its date as a day ordinal and its value per bond. */
  datatype Coupon = Coupon(date: int, value: real)

  /** The source skips a coupon only when today is strictly after its date. */
  predicate IsUpcoming(c: Coupon, today: int) {
    !(today > c.date)
  }

  /**
    The coupons still to be paid on or after `today`, in their original order.
    `UpcomingCounts` states that each keeps its multiplicity.
   */
  function Upcoming(coupons: seq<Coupon>, today: int): (r: seq<Coupon>)
    ensures |r| <= |coupons|
    ensures forall c {:trigger c in r} :: c in r <==> c in coupons && IsUpcoming(c, today)
  {
    if coupons == [] then []
    else (if IsUpcoming(coupons[0], today) then [coupons[0]] else []) + Upcoming(coupons[1..], today)
  }

  function SumValues(coupons: seq<Coupon>): real {
    if coupons == [] then 0.0 else coupons[0].value + SumValues(coupons[1..])
  }

  /**
    The loop at lines 46-49: every coupon not yet past adds its after-tax value.
    The total is 0.87 times the plain sum over the upcoming coupons.
   */
  function CouponIncome(coupons: seq<Coupon>, today: int): (total: real)
    ensures total == CouponAfterTax * SumValues(Upcoming(coupons, today))
  {
    if coupons == [] then 0.0
    else
      var head := if IsUpcoming(coupons[0], today) then [coupons[0]] else [];
      SumValuesAppend(head, Upcoming(coupons[1..], today));
      assert head != [] ==> head[1..] == [];
      (if today > coupons[0].date then 0.0 else coupons[0].value * CouponAfterTax)
      + CouponIncome(coupons[1..], today)
  }

  /** Purchase cost: price plus the broker's commission on it, plus accrued interest. */
  function Expenses(realPrice: real, aci: real, commission: real): (r: real)
    ensures r - aci == realPrice * (1.0 + commission)
    ensures realPrice >= 0.0 && commission >= 0.0 && aci >= 0.0 ==> r >= realPrice
  {
    realPrice + realPrice * commission + aci
  }

  /**
    Redemption after the tax on the gain: the full nominal when the bond was not
    bought below it, otherwise the price plus 87% of the gain, which lies
    strictly between price and nominal.
   */
  function Repayment(nominal: real, realPrice: real): (r: real)
    ensures nominal <= realPrice ==> r == nominal
    ensures nominal > realPrice ==> r - realPrice == (1.0 - GainTaxRate) * (nominal - realPrice)
    ensures nominal > realPrice ==> realPrice < r < nominal
    ensures r <= nominal
  {
    var repayment := nominal;
    if nominal > realPrice then repayment - (nominal - realPrice) * GainTaxRate else repayment
  }

  /** What holding the bond to maturity returns: redemption plus coupon income. */
  function Proceeds(coupons: seq<Coupon>, nominal: real, realPrice: real, today: int): (r: real)
    ensures r - Repayment(nominal, realPrice) == CouponAfterTax * SumValues(Upcoming(coupons, today))
  {
    Repayment(nominal, realPrice) + CouponIncome(coupons, today)
  }

  /**
    What the source needs to avoid a division by zero: on the "rub" path,
    non-zero expenses (line 56) and a non-zero month count (line 57).
   */
  predicate Computable(term: Term, realPrice: real, aci: real, currency: string, commission: real) {
    currency == "rub" ==> Expenses(realPrice, aci, commission) != 0.0 && TermMonths(term) != 0
  }

  /** The exponent `12 / (years * 12 + months)` of line 57. */
  function AnnualExponent(term: Term): (e: real)
    requires TermMonths(term) != 0
    ensures e * (TermMonths(term) as real) == 12.0
  {
    12.0 / (TermMonths(term) as real)
  }

  /** The quotient `proceeds / expenses` of line 56. */
  function Ratio(numerator: real, denominator: real): (q: real)
    requires denominator != 0.0
  {
    numerator / denominator
  }

  /**
    `_count_annual_profitability`. Anything not in roubles yields 0 before any
    arithmetic; otherwise the ratio of proceeds to expenses is annualised over
    the term.
   */
  function AnnualProfitability(
    term: Term, coupons: seq<Coupon>, nominal: real, realPrice: real, aci: real,
    currency: string, today: int, commission: real, annualise: (real, real) -> real): (r: real)
    requires Computable(term, realPrice, aci, currency, commission)
    ensures currency != "rub" ==> r == 0.0
  {
    if currency != "rub" then 0.0
    else
      var expenses := Expenses(realPrice, aci, commission);
      var proceeds := Proceeds(coupons, nominal, realPrice, today);
      annualise(Ratio(proceeds, expenses), AnnualExponent(term))
  }

  // ---------------------------------------------------------------------
  // Properties of the model.

  lemma {:induction false} UpcomingAppend(a: seq<Coupon>, b: seq<Coupon>, today: int)
    ensures Upcoming(a + b, today) == Upcoming(a, today) + Upcoming(b, today)
  {
    if a != [] {
      var head := if IsUpcoming(a[0], today) then [a[0]] else [];
      assert (a + b)[0] == a[0];
      assert (a + b)[1..] == a[1..] + b;
      assert Upcoming(a + b, today) == head + Upcoming(a[1..] + b, today);
      assert Upcoming(a, today) == head + Upcoming(a[1..], today);
      UpcomingAppend(a[1..], b, today);
      AppendAssociative(head, Upcoming(a[1..], today), Upcoming(b, today));
    } else {
      assert a + b == b;
    }
  }

  /**
    The filter keeps each upcoming coupon as often as the list holds it and
    drops every past one, so duplicate coupons are all paid.
   */
  lemma {:induction false} UpcomingCounts(coupons: seq<Coupon>, today: int)
    ensures forall c :: multiset(Upcoming(coupons, today))[c]
                     == if IsUpcoming(c, today) then multiset(coupons)[c] else 0
  {
    if coupons != [] {
      var head := if IsUpcoming(coupons[0], today) then [coupons[0]] else [];
      assert coupons == [coupons[0]] + coupons[1..];
      assert Upcoming(coupons, today) == head + Upcoming(coupons[1..], today);
      UpcomingCounts(coupons[1..], today);
    }
  }

  lemma {:induction false} SumValuesAppend(a: seq<Coupon>, b: seq<Coupon>)
    ensures SumValues(a + b) == SumValues(a) + SumValues(b)
  {
    if a != [] {
      assert (a + b)[0] == a[0];
      assert (a + b)[1..] == a[1..] + b;
      SumValuesAppend(a[1..], b);
    } else {
      assert a + b == b;
    }
  }

  /** Coupon income is additive over the coupon list, so its order does not matter. */
  lemma CouponIncomeAppend(a: seq<Coupon>, b: seq<Coupon>, today: int)
    ensures CouponIncome(a + b, today) == CouponIncome(a, today) + CouponIncome(b, today)
    ensures CouponIncome(a + b, today) == CouponIncome(b + a, today)
  {
    UpcomingAppend(a, b, today);
    UpcomingAppend(b, a, today);
    SumValuesAppend(Upcoming(a, today), Upcoming(b, today));
    SumValuesAppend(Upcoming(b, today), Upcoming(a, today));
  }

  /** Coupon income does not depend on the order of the coupons at all. */
  lemma {:induction false} CouponIncomePermutation(a: seq<Coupon>, b: seq<Coupon>, today: int)
    requires multiset(a) == multiset(b)
    ensures CouponIncome(a, today) == CouponIncome(b, today)
    decreases |a|
  {
    if a == [] {
      assert |b| == |multiset(b)| == 0;
    } else {
      var x := a[0];
      assert x in multiset(b);
      var j :| 0 <= j < |b| && b[j] == x;
      var rest := b[..j] + b[j + 1..];
      assert b == b[..j] + [x] + b[j + 1..];
      assert a == [x] + a[1..];
      assert multiset(b) == multiset(b[..j]) + multiset{x} + multiset(b[j + 1..]);
      assert multiset(a) == multiset{x} + multiset(a[1..]);
      assert multiset(rest) == multiset(b) - multiset{x};
      assert multiset(a[1..]) == multiset(a) - multiset{x};
      CouponIncomePermutation(a[1..], rest, today);
      CouponIncomeAppend([x], a[1..], today);
      CouponIncomeAppend(b[..j] + [x], b[j + 1..], today);
      CouponIncomeAppend(b[..j], [x], today);
      CouponIncomeAppend(b[..j], b[j + 1..], today);
    }
  }

  /** When every coupon is already past, there is no coupon income. */
  lemma {:induction false} AllPastCouponsEarnNothing(coupons: seq<Coupon>, today: int)
    requires forall i :: 0 <= i < |coupons| ==> coupons[i].date < today
    ensures Upcoming(coupons, today) == []
    ensures CouponIncome(coupons, today) == 0.0
  {
    if coupons != [] {
      assert coupons[0].date < today;
      AllPastCouponsEarnNothing(coupons[1..], today);
    }
  }

  /** A coupon paid on the very day of valuation is still counted in full. */
  lemma CouponDueTodayCounts(c: Coupon, today: int)
    requires c.date == today
    ensures CouponIncome([c], today) == CouponAfterTax * c.value
  {
    assert [c][1..] == [];
  }

  /**
    The rouble result in full: the after-tax repayment plus the coupon income
    (0.87 times the sum of the upcoming coupons, by `CouponIncome`'s contract),
    over the price with commission plus accrued interest, annualised with the
    exponent 12 over the term's month count.
   */
  lemma RubProfitability(
    term: Term, coupons: seq<Coupon>, nominal: real, realPrice: real, aci: real,
    today: int, commission: real, annualise: (real, real) -> real)
    requires Computable(term, realPrice, aci, "rub", commission)
    ensures realPrice * (1.0 + commission) + aci != 0.0
    ensures AnnualProfitability(term, coupons, nominal, realPrice, aci, "rub", today, commission, annualise)
         == annualise(
              Ratio(Repayment(nominal, realPrice) + CouponIncome(coupons, today),
                    realPrice * (1.0 + commission) + aci),
              12.0 / (TermMonths(term) as real))
  {
    var expenses := Expenses(realPrice, aci, commission);
    var proceeds := Proceeds(coupons, nominal, realPrice, today);
    assert AnnualProfitability(term, coupons, nominal, realPrice, aci, "rub", today, commission, annualise)
        == annualise(Ratio(proceeds, expenses), AnnualExponent(term));
    SameRatio(proceeds, expenses, Repayment(nominal, realPrice) + CouponIncome(coupons, today), realPrice * (1.0 + commission) + aci);
    assert AnnualExponent(term) == 12.0 / (TermMonths(term) as real);
  }

  /** Equal numerators over equal denominators give equal quotients. */
  lemma SameRatio(n1: real, d1: real, n2: real, d2: real)
    requires d1 != 0.0 && n1 == n2 && d1 == d2
    ensures Ratio(n1, d1) == Ratio(n2, d2)
  {
  }

  /** Past coupons never influence the result: only the upcoming ones matter. */
  lemma ProfitabilityIgnoresPastCoupons(
    term: Term, coupons: seq<Coupon>, nominal: real, realPrice: real, aci: real,
    currency: string, today: int, commission: real, annualise: (real, real) -> real)
    requires Computable(term, realPrice, aci, currency, commission)
    ensures AnnualProfitability(term, coupons, nominal, realPrice, aci, currency, today, commission, annualise)
         == AnnualProfitability(term, Upcoming(coupons, today), nominal, realPrice, aci, currency, today, commission, annualise)
  {
    UpcomingIdempotent(coupons, today);
    assert CouponIncome(coupons, today) == CouponIncome(Upcoming(coupons, today), today);
    assert Proceeds(coupons, nominal, realPrice, today) == Proceeds(Upcoming(coupons, today), nominal, realPrice, today);
  }

  lemma {:induction false} UpcomingIdempotent(coupons: seq<Coupon>, today: int)
    ensures Upcoming(Upcoming(coupons, today), today) == Upcoming(coupons, today)
  {
    if coupons != [] {
      var head := if IsUpcoming(coupons[0], today) then [coupons[0]] else [];
      UpcomingAppend(head, Upcoming(coupons[1..], today), today);
      UpcomingIdempotent(coupons[1..], today);
      assert Upcoming(head, today) == head by {
        if head != [] {
          assert head[1..] == [];
        }
      }
    }
  }

  /**
    The term enters only through its month count: one year and twelve months
    annualise identically.
   */
  lemma ProfitabilityDependsOnTermMonths(
    t1: Term, t2: Term, coupons: seq<Coupon>, nominal: real, realPrice: real, aci: real,
    currency: string, today: int, commission: real, annualise: (real, real) -> real)
    requires Computable(t1, realPrice, aci, currency, commission)
    requires TermMonths(t1) == TermMonths(t2)
    ensures AnnualProfitability(t1, coupons, nominal, realPrice, aci, currency, today, commission, annualise)
         == AnnualProfitability(t2, coupons, nominal, realPrice, aci, currency, today, commission, annualise)
  {
  }

  /**
    A bond bought at nominal 1000 with one upcoming coupon of 40: proceeds are
    1000 + 40 * 0.87.
   */
  lemma ParBondWithOneCoupon(today: int)
    ensures Proceeds([Coupon(today + 180, 40.0)], 1000.0, 1000.0, today) == 1034.8
  {
    assert [Coupon(today + 180, 40.0)][1..] == [];
  }
}
