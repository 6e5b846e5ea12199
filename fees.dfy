/**
 * The tiered fee schedule of a weekly disbursement.
 *
 * Every order of the week contributes its amount plus a fee that depends on
 * the amount's tier; the contributions are summed without intermediate
 * rounding and only the total is quantized to cents, rounding half up
 * (ties away from zero).  The fee rates are `Decimal(<float literal>)`, so
 * they are the exact binary doubles nearest to 1%, 0.95% and 0.85%, not the
 * decimal fractions themselves.
 */
module Fees {
  import opened Decimals

  /** 2^59: the three rate doubles share this exponent. */
  const Scale: real := 576460752303423488.0

  /** `Decimal(0.01)`, a little above 1%, charged on orders under 50. */
  const SmallOrderRate: real := 5764607523034235.0 / Scale

  /** `Decimal(0.0095)`, a little below 0.95%, charged on orders from 50 up to (not including) 300. */
  const MediumOrderRate: real := 5476377146882523.0 / Scale

  /** `Decimal(0.0085)`, a little above 0.85%, charged on orders of 300 and more. */
  const LargeOrderRate: real := 4899916394579100.0 / Scale

  /** The rate an order amount is charged; the tiers are closed at their lower end. */
  function FeeRate(amount: real): (rate: real)
    ensures LargeOrderRate <= rate <= SmallOrderRate
    ensures rate == SmallOrderRate <==> amount < 50.0
    ensures rate == LargeOrderRate <==> 300.0 <= amount
    ensures rate == MediumOrderRate <==> 50.0 <= amount < 300.0
  {
    if amount < 50.0 then SmallOrderRate
    else if amount < 300.0 then MediumOrderRate
    else LargeOrderRate
  }

  /** What one order adds to the running total: its amount and its fee. */
  function Contribution(amount: real): real
  {
    amount + amount * FeeRate(amount)
  }

  /** The unrounded running total after the given orders, accumulated left to right. */
  function RawTotal(amounts: seq<Dec>): real
  {
    if amounts == [] then 0.0
    else RawTotal(amounts[..|amounts| - 1]) + Contribution(Value(amounts[|amounts| - 1]))
  }

  /** The plain sum of the order amounts, without fees. */
  function Gross(amounts: seq<Dec>): real
  {
    if amounts == [] then 0.0
    else Gross(amounts[..|amounts| - 1]) + Value(amounts[|amounts| - 1])
  }

  function Magnitude(x: real): real
  {
    if x < 0.0 then -x else x
  }

  /**
   * `x.quantize(Decimal('.01'), rounding=ROUND_HALF_UP)`: the sign of `x`, the
   * magnitude rounded to the nearest cent with ties away from zero, exponent -2.
   */
  function Quantize(x: real): (q: Dec)
    ensures q.exponent == -2
    ensures q.negative <==> x < 0.0
  {
    Dec(x < 0.0, (Magnitude(x) * 100.0 + 0.5).Floor as nat, -2)
  }

  /** `Disbursement.calculate_amount` applied to the amounts the period selector returned. */
  function DisbursedAmount(amounts: seq<Dec>): (d: Dec)
    ensures d.exponent == -2
    ensures d.negative <==> RawTotal(amounts) < 0.0
    ensures var m := Magnitude(RawTotal(amounts));
      m - 0.005 < d.coefficient as real / 100.0 <= m + 0.005
  {
    QuantizeIsNearestCent(RawTotal(amounts), Quantize(RawTotal(amounts)).coefficient);
    Quantize(RawTotal(amounts))
  }

  // ---------------------------------------------------------------------------
  // Rounding

  /**
   * The quantized coefficient is the one whole number of cents within half a
   * cent of the magnitude, a tie going to the larger one: an independent
   * characterization of ROUND_HALF_UP to two decimals.
   */
  lemma {:induction false} QuantizeIsNearestCent(x: real, cents: int)
    ensures var m := Magnitude(x);
      m - 0.005 < cents as real / 100.0 <= m + 0.005 <==> cents == Quantize(x).coefficient
  {
    var m := Magnitude(x);
    var f := (m * 100.0 + 0.5).Floor;
    assert f as real <= m * 100.0 + 0.5 < f as real + 1.0;
    if m - 0.005 < cents as real / 100.0 <= m + 0.005 {
      assert m * 100.0 - 0.5 < cents as real <= m * 100.0 + 0.5;
      assert cents <= f;
      assert f < cents + 1;
    }
  }

  /** The quantized amount stands for its coefficient in cents, with the sign of the total. */
  lemma {:induction false} QuantizeValue(x: real)
    ensures var q := Quantize(x);
      Value(q) == (if x < 0.0 then -(q.coefficient as real / 100.0) else q.coefficient as real / 100.0)
  {
    assert Pow10(2) == 100;
  }

  // ---------------------------------------------------------------------------
  // The running total

  /** Summing in two runs is summing once: the total is a fold of independent terms. */
  lemma {:induction false} RawTotalAppend(a: seq<Dec>, b: seq<Dec>)
    ensures RawTotal(a + b) == RawTotal(a) + RawTotal(b)
    decreases |b|
  {
    if b == [] {
      assert a + b == a;
    } else {
      var b' := b[..|b| - 1];
      assert (a + b)[..|a + b| - 1] == a + b';
      assert (a + b)[|a + b| - 1] == b[|b| - 1];
      RawTotalAppend(a, b');
    }
  }

  /** The contribution of an order, tier by tier, added to a running total. */
  lemma {:induction false} ContributionByTier(total: real, a: real)
    ensures a < 50.0 ==> total + a + a * SmallOrderRate == total + Contribution(a)
    ensures 50.0 <= a < 300.0 ==> total + a + a * MediumOrderRate == total + Contribution(a)
    ensures 300.0 <= a ==> total + a + a * LargeOrderRate == total + Contribution(a)
  {
  }

  /** One more order on the running total. */
  lemma {:induction false} RawTotalStep(s: seq<Dec>, i: int)
    requires 0 <= i < |s|
    ensures RawTotal(s[..i + 1]) == RawTotal(s[..i]) + Contribution(Value(s[i]))
  {
    assert s[..i + 1][..i] == s[..i];
  }

  lemma {:induction false} RawTotalRemove(s: seq<Dec>, j: int)
    requires 0 <= j < |s|
    ensures RawTotal(s) == RawTotal(s[..j] + s[j + 1..]) + Contribution(Value(s[j]))
  {
    assert s == s[..j] + [s[j]] + s[j + 1..];
    RawTotalAppend(s[..j] + [s[j]], s[j + 1..]);
    RawTotalAppend(s[..j], [s[j]]);
    RawTotalAppend(s[..j], s[j + 1..]);
    assert [s[j]][..0] == [];
  }

  /**
   * The total depends only on which amounts were selected, not on the order
   * the store returned them in (the selection query has no ORDER BY).
   */
  lemma {:induction false} RawTotalPermutation(s: seq<Dec>, t: seq<Dec>)
    requires multiset(s) == multiset(t)
    ensures RawTotal(s) == RawTotal(t)
    ensures DisbursedAmount(s) == DisbursedAmount(t)
    decreases |s|
  {
    if s != [] {
      var j := MatchLast(s, t);
      RawTotalPermutation(s[..|s| - 1], t[..j] + t[j + 1..]);
      RawTotalRemove(t, j);
    } else {
      assert |t| == |multiset(t)| == 0;
    }
  }

  /** The last element of `s` sits at some index `j` of its permutation `t`; the rests are permutations too. */
  lemma {:induction false} MatchLast(s: seq<Dec>, t: seq<Dec>) returns (j: int)
    requires s != [] && multiset(s) == multiset(t)
    ensures 0 <= j < |t| && t[j] == s[|s| - 1]
    ensures multiset(s[..|s| - 1]) == multiset(t[..j] + t[j + 1..])
  {
    var last := s[|s| - 1];
    assert s == s[..|s| - 1] + [last];
    assert last in multiset(t);
    j :| 0 <= j < |t| && t[j] == last;
    var rest := t[..j] + t[j + 1..];
    assert t == t[..j] + [t[j]] + t[j + 1..];
    assert multiset(t) == multiset(rest) + multiset{last};
    assert multiset(rest) == multiset(t) - multiset{last};
    assert multiset(s[..|s| - 1]) == multiset(s) - multiset{last};
  }

  predicate NonNegative(amounts: seq<Dec>)
  {
    forall i :: 0 <= i < |amounts| ==> Value(amounts[i]) >= 0.0
  }

  /**
   * For non-negative orders the fees come to at least 0.85% and at most
   * 1.01% of the gross amount, so the total is never below the orders
   * themselves.
   */
  lemma {:induction false} FeeBounds(amounts: seq<Dec>)
    requires NonNegative(amounts)
    ensures 0.0 <= Gross(amounts)
    ensures Gross(amounts) * 1.0085 <= RawTotal(amounts) <= Gross(amounts) * 1.0101
    decreases |amounts|
  {
    if amounts != [] {
      var init := amounts[..|amounts| - 1];
      var v := Value(amounts[|amounts| - 1]);
      assert NonNegative(init) by {
        forall i | 0 <= i < |init| ensures Value(init[i]) >= 0.0 {
          assert init[i] == amounts[i];
        }
      }
      FeeBounds(init);
      ContributionBounds(v);
    }
  }

  lemma {:induction false} ContributionBounds(v: real)
    requires v >= 0.0
    ensures v * 1.0085 <= Contribution(v) <= v * 1.0101
  {
    if v < 50.0 {
      assert Contribution(v) == v + v * SmallOrderRate;
    } else if v < 300.0 {
      assert Contribution(v) == v + v * MediumOrderRate;
    } else {
      assert Contribution(v) == v + v * LargeOrderRate;
    }
  }

  /** Non-negative orders are disbursed a non-negative amount, a whole number of cents. */
  lemma {:induction false} NonNegativeDisbursement(amounts: seq<Dec>)
    requires NonNegative(amounts)
    ensures var d := DisbursedAmount(amounts);
      !d.negative && d.exponent == -2 && Value(d) == d.coefficient as real / 100.0
  {
    FeeBounds(amounts);
    QuantizeValue(RawTotal(amounts));
  }

  // ---------------------------------------------------------------------------
  // Values the unit tests fix

  /** No orders, nothing to disburse: `Decimal(0.00)` quantizes to 0.00. */
  lemma EmptyWeek()
    ensures DisbursedAmount([]) == Dec(false, 0, -2)
  {
  }

  lemma OneUnit()
    ensures DisbursedAmount([Dec(false, 1, 0)]) == Dec(false, 101, -2)
  {
    assert [Dec(false, 1, 0)][..0] == [];
  }

  /** The order of the integration scenario: 1.00 is disbursed 1.01. */
  lemma OneUnitInCents()
    ensures DisbursedAmount([Dec(false, 100, -2)]) == Dec(false, 101, -2)
  {
    assert [Dec(false, 100, -2)][..0] == [];
    assert Pow10(2) == 100;
  }

  lemma NinetyNineCents()
    ensures DisbursedAmount([Dec(false, 99, -2)]) == Dec(false, 100, -2)
  {
    assert [Dec(false, 99, -2)][..0] == [];
    assert Pow10(2) == 100;
  }

  lemma OneCent()
    ensures DisbursedAmount([Dec(false, 1, -2)]) == Dec(false, 1, -2)
  {
    assert [Dec(false, 1, -2)][..0] == [];
    assert Pow10(2) == 100;
  }

  /** 50.00 is in the middle tier, and `Decimal(0.0095)` is below 0.95%, so the fee 0.475 rounds down. */
  lemma FiftyAtLowerBoundOfMiddleTier()
    ensures FeeRate(50.0) == MediumOrderRate < 0.0095
    ensures DisbursedAmount([Dec(false, 5000, -2)]) == Dec(false, 5047, -2)
  {
    assert [Dec(false, 5000, -2)][..0] == [];
    assert Pow10(2) == 100;
  }

  lemma FiftyAndOneCent()
    ensures DisbursedAmount([Dec(false, 5001, -2)]) == Dec(false, 5049, -2)
  {
    assert [Dec(false, 5001, -2)][..0] == [];
    assert Pow10(2) == 100;
  }

  /** 300 is in the top tier. */
  lemma ThreeHundredAtLowerBoundOfTopTier()
    ensures FeeRate(300.0) == LargeOrderRate && FeeRate(299.99) == MediumOrderRate
    ensures DisbursedAmount([Dec(false, 300, 0)]) == Dec(false, 30255, -2)
  {
    assert [Dec(false, 300, 0)][..0] == [];
  }

  lemma OneThousand()
    ensures DisbursedAmount([Dec(false, 1000, 0)]) == Dec(false, 100850, -2)
  {
    assert [Dec(false, 1000, 0)][..0] == [];
    assert Pow10(0) == 1;
  }

  lemma TwoCents()
    ensures DisbursedAmount([Dec(false, 1, -2), Dec(false, 1, -2)]) == Dec(false, 2, -2)
  {
    var s := [Dec(false, 1, -2), Dec(false, 1, -2)];
    assert s[..1] == [Dec(false, 1, -2)];
    assert s[..1][..0] == [];
    assert Pow10(2) == 100;
    assert Value(Dec(false, 1, -2)) == 0.01;
    assert RawTotal(s) == 2.0 * Contribution(0.01);
  }

  lemma OneHundred()
    ensures DisbursedAmount([Dec(false, 10000, -2)]) == Dec(false, 10095, -2)
  {
    assert [Dec(false, 10000, -2)][..0] == [];
    assert Pow10(2) == 100;
  }

  /**
   * Only the total is rounded: one order of 0.004 is disbursed 0.00, yet two
   * of them are disbursed 0.01, which no sum of per-order roundings gives.
   */
  lemma RoundedOnceAtTheEnd()
    ensures DisbursedAmount([Dec(false, 4, -3)]) == Dec(false, 0, -2)
    ensures DisbursedAmount([Dec(false, 4, -3), Dec(false, 4, -3)]) == Dec(false, 1, -2)
  {
    var s := [Dec(false, 4, -3), Dec(false, 4, -3)];
    assert s[..1] == [Dec(false, 4, -3)];
    assert s[..1][..0] == [];
    assert Pow10(3) == 1000;
  }
}
