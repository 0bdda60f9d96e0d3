// Interest of a child's savings plan, over exact reals before the final rounding down.
module SavingsInterest {

  datatype InterestType = SIMPLE | COMPOUND

  datatype TermsRow = TermsRow(monthlyAmount: nat, interestRate: real, interestType: InterestType, months: nat)

  // The form refuses a negative rate.
  type Terms = t: TermsRow | t.interestRate >= 0.0 witness TermsRow(0, 0.0, SIMPLE, 0)

  lemma MulIncreases(x: real, y: real, r: real)
    requires r > 0.0 && x < y
    ensures x * r < y * r
  {
    assert (y - x) * r > 0.0;
  }

  function Power(x: real, n: nat): real {
    if n == 0 then 1.0 else x * Power(x, n - 1)
  }

  lemma PowerStep(r: real, m: real, p: real)
    requires r >= 0.0 && m >= 0.0 && p >= 1.0 + m * r
    ensures (1.0 + r) * p >= 1.0 + (m + 1.0) * r
  {
    assert (1.0 + r) * p == p + r * p;
    assert (m + 1.0) * r == m * r + r;
    assert p >= 1.0 by { assert m * r >= 0.0; }
    assert r * p >= r by { assert r * (p - 1.0) >= 0.0; }
  }

  // Growth at least keeps pace with simple growth.
  lemma {:induction false} PowerAtLeastLinear(r: real, n: nat)
    requires r >= 0.0
    ensures Power(1.0 + r, n) >= 1.0 + n as real * r
  {
    if n > 0 {
      PowerAtLeastLinear(r, n - 1);
      PowerStep(r, (n - 1) as real, Power(1.0 + r, n - 1));
      assert n as real == (n - 1) as real + 1.0;
    }
  }

  function Growth(r: real, power: real): real
    requires r > 0.0
  {
    (power - 1.0) / r
  }

  // Instalments of one currency unit, compounded monthly at rate r.
  function FutureValueOfOne(r: real, n: nat): (value: real)
    requires r > 0.0
    ensures value >= n as real
  {
    PowerAtLeastLinear(r, n);
    var grown := Growth(r, Power(1.0 + r, n));
    assert grown >= n as real by {
      assert grown * r == Power(1.0 + r, n) - 1.0;
      if grown < n as real { MulIncreases(grown, n as real, r); }
    }
    assert grown * (1.0 + r) == grown + grown * r;
    grown * (1.0 + r)
  }

  function ExpectedInterest(p: Terms): (interest: int)
    ensures interest >= 0
  {
    var rate := p.interestRate / 100.0;
    if p.interestType == SIMPLE then
      var weight := p.monthlyAmount * (p.months * (p.months + 1));
      assert weight as real * rate >= 0.0;
      (weight as real * rate / 24.0).Floor
    else
      var total := p.monthlyAmount * p.months;
      var monthlyRate := rate / 12.0;
      if monthlyRate == 0.0 then 0
      else
        var value := FutureValueOfOne(monthlyRate, p.months);
        assert p.monthlyAmount as real * value >= p.monthlyAmount as real * p.months as real by {
          assert p.monthlyAmount as real * (value - p.months as real) >= 0.0;
        }
        assert p.monthlyAmount as real * p.months as real == total as real;
        (p.monthlyAmount as real * value - total as real).Floor
  }

  // ---- Instalment by instalment -----------------------------------------------------------------

  // Simple interest: each of n monthly instalments earns for the months it is held, the last for one month.
  function SimpleInterest(amount: real, monthlyRate: real, n: nat): real {
    if n == 0 then 0.0 else SimpleInterest(amount, monthlyRate, n - 1) + amount * monthlyRate * n as real
  }

  // Compound interest: every month takes in an instalment and then grows.
  function Grown(amount: real, monthlyRate: real, n: nat): real {
    if n == 0 then 0.0 else (Grown(amount, monthlyRate, n - 1) + amount) * (1.0 + monthlyRate)
  }

  lemma {:induction false} SimpleInterestClosed(amount: real, monthlyRate: real, n: nat)
    ensures 2.0 * SimpleInterest(amount, monthlyRate, n) == amount * monthlyRate * (n * (n + 1)) as real
  {
    if n > 0 {
      SimpleInterestClosed(amount, monthlyRate, n - 1);
      var x := amount * monthlyRate;
      assert ((n - 1) * n) as real + 2.0 * n as real == (n * (n + 1)) as real by {
        assert (n - 1) * n + 2 * n == n * (n + 1);
      }
      assert x * ((n - 1) * n) as real + 2.0 * (x * n as real) == x * (((n - 1) * n) as real + 2.0 * n as real);
    }
  }

  lemma Rearrange(x: real, q: real, r: real)
    ensures (x * q + 1.0) * r == x * r * q + r
  {
  }

  lemma Substitute(x: real, y: real, q: real)
    requires x == y
    ensures x * q == y * q
  {
  }

  lemma OneLess(power: real, q: real)
    ensures (power - 1.0) * q == q * power - q
  {
  }

  lemma GrowthAlgebra(before: real, q: real, r: real, power: real)
    requires before * r == power - 1.0 && q - r == 1.0
    ensures (before * q + 1.0) * r == q * power - 1.0
  {
    calc {
      (before * q + 1.0) * r;
    ==  { Rearrange(before, q, r); }
      before * r * q + r;
    ==  { Substitute(before * r, power - 1.0, q); }
      (power - 1.0) * q + r;
    ==  { OneLess(power, q); }
      q * power - q + r;
    ==
      q * power - 1.0;
    }
  }

  lemma GrowthStep(r: real, q: real, power: real, next: real)
    requires r > 0.0 && q - r == 1.0 && next == q * power
    ensures Growth(r, next) == Growth(r, power) * q + 1.0
  {
    var before, after := Growth(r, power), Growth(r, next);
    GrowthAlgebra(before, q, r, power);
    assert after * r == next - 1.0;
    SameProduct(after, before * q + 1.0, r, next - 1.0);
  }

  lemma GrownStep(r: real, q: real, power: real, next: real)
    requires r > 0.0 && q - r == 1.0 && next == q * power
    ensures Growth(r, next) * q == (Growth(r, power) * q + 1.0) * q
  {
    GrowthStep(r, q, power, next);
    Substitute(Growth(r, next), Growth(r, power) * q + 1.0, q);
  }

  lemma FutureValueStep(r: real, n: nat)
    requires r > 0.0 && n > 0
    ensures FutureValueOfOne(r, n) == (FutureValueOfOne(r, n - 1) + 1.0) * (1.0 + r)
  {
    GrownStep(r, 1.0 + r, Power(1.0 + r, n - 1), Power(1.0 + r, n));
  }

  lemma ScaledStep(amount: real, value: real, grown: real, q: real)
    requires grown == amount * value
    ensures (grown + amount) * q == amount * ((value + 1.0) * q)
  {
    assert grown + amount == amount * (value + 1.0);
  }

  lemma {:induction false} FutureValueIsGrown(amount: real, r: real, n: nat)
    requires r > 0.0
    ensures Grown(amount, r, n) == amount * FutureValueOfOne(r, n)
  {
    if n > 0 {
      FutureValueIsGrown(amount, r, n - 1);
      FutureValueStep(r, n);
      ScaledStep(amount, FutureValueOfOne(r, n - 1), Grown(amount, r, n - 1), 1.0 + r);
    }
  }

  // The formulas of both modes are what the instalments earn month by month, rounded down.
  lemma ExpectedInterestIsEarned(p: Terms)
    ensures var amount, monthlyRate := p.monthlyAmount as real, p.interestRate / 1200.0;
      ExpectedInterest(p) ==
      if p.interestType == SIMPLE then SimpleInterest(amount, monthlyRate, p.months).Floor
      else (Grown(amount, monthlyRate, p.months) - amount * p.months as real).Floor
  {
    if p.interestType == SIMPLE {
      SimpleIsEarned(p);
    } else if p.interestRate == 0.0 {
      NothingGrows(p.monthlyAmount as real, p.months);
    } else {
      CompoundIsEarned(p);
    }
  }

  lemma SimpleIsEarned(p: Terms)
    requires p.interestType == SIMPLE
    ensures ExpectedInterest(p) == SimpleInterest(p.monthlyAmount as real, p.interestRate / 1200.0, p.months).Floor
  {
    var amount, count, rate := p.monthlyAmount as real, (p.months * (p.months + 1)) as real, p.interestRate / 100.0;
    SimpleInterestClosed(amount, p.interestRate / 1200.0, p.months);
    assert (p.monthlyAmount * (p.months * (p.months + 1))) as real == amount * count;
    assert amount * count * rate / 24.0 == amount * (p.interestRate / 1200.0) * count / 2.0;
  }

  lemma {:induction false} NothingGrows(amount: real, n: nat)
    ensures Grown(amount, 0.0, n) == amount * n as real
  {
    if n > 0 {
      NothingGrows(amount, n - 1);
      assert amount * (n - 1) as real + amount == amount * n as real;
    }
  }

  lemma CompoundIsEarned(p: Terms)
    requires p.interestType == COMPOUND && p.interestRate != 0.0
    ensures var amount := p.monthlyAmount as real;
      ExpectedInterest(p) == (Grown(amount, p.interestRate / 1200.0, p.months) - amount * p.months as real).Floor
  {
    var r := p.interestRate / 1200.0;
    assert p.interestRate / 100.0 / 12.0 == r && r > 0.0;
    FutureValueIsGrown(p.monthlyAmount as real, r, p.months);
    assert (p.monthlyAmount * p.months) as real == p.monthlyAmount as real * p.months as real;
  }

  lemma SameProduct(x: real, y: real, r: real, product: real)
    requires r > 0.0 && x * r == product && y * r == product
    ensures x == y
  {
    if x < y {
      MulIncreases(x, y, r);
    } else if y < x {
      MulIncreases(y, x, r);
    }
  }
}
