/** Amounts with a value and a fraction, in fixed-width integers, and what they mean in smallest units. */
module Amounts {
  const FRAC_BASE: nat := 100_000_000
  const MAX_VALUE: nat := 0x10_0000_0000_0000
  const LIMIT: nat := (MAX_VALUE + 1) * FRAC_BASE

  type U64 = x: nat | x < 0x1_0000_0000_0000_0000
  type U32 = x: nat | x < 0x1_0000_0000

  datatype Amount = Amount(value: U64, fraction: U32)

  datatype Result =
    | Done(amount: Amount)
    | Negative
    | NormalizationFailed
    | Overflow

  /** The meaning of an amount. */
  function Units(a: Amount): nat { a.value * FRAC_BASE + a.fraction }

  predicate Normal(a: Amount) { a.fraction < FRAC_BASE }

  function Wrap64(x: nat): U64 { x % 0x1_0000_0000_0000_0000 }

  /** Carry the fraction into the value; only an actual carry is checked against the maximum. */
  function Normalize(a: Amount): (r: Result) {
    if a.fraction < FRAC_BASE then Done(a)
    else
      var carry := a.fraction / FRAC_BASE;
      var value := Wrap64(a.value + carry);
      if value < carry || value > MAX_VALUE then NormalizationFailed
      else Done(Amount(value, a.fraction % FRAC_BASE))
  }

  function AddValues(m: Amount, n: Amount): Result
    requires Normal(m) && Normal(n)
  {
    var value := Wrap64(m.value + n.value);
    if value < m.value || value > MAX_VALUE then Overflow
    else
      var sum := Normalize(Amount(value, m.fraction + n.fraction));
      if sum.Done? then sum else Overflow
  }

  function Add(a: Amount, b: Amount): Result {
    var m, n := Normalize(a), Normalize(b);
    if !m.Done? || !n.Done? then NormalizationFailed
    else AddValues(m.amount, n.amount)
  }

  function Subtract(a: Amount, b: Amount): Result {
    var m, n := Normalize(a), Normalize(b);
    if !m.Done? || !n.Done? then NormalizationFailed
    else
      var borrow := m.amount.fraction < n.amount.fraction;
      if borrow && m.amount.value == 0 then Negative
      else
        var value := if borrow then m.amount.value - 1 else m.amount.value;
        var fraction := if borrow then m.amount.fraction + FRAC_BASE else m.amount.fraction;
        if value < n.amount.value then Negative
        else Done(Amount(value - n.amount.value, fraction - n.amount.fraction))
  }

  /** Comparison of two amounts that normalize: -1, 0 or 1. */
  function Compare(a: Amount, b: Amount): int
    requires Normalize(a).Done? && Normalize(b).Done?
  {
    var m, n := Normalize(a).amount, Normalize(b).amount;
    if m.value == n.value then
      if m.fraction < n.fraction then -1 else if m.fraction > n.fraction then 1 else 0
    else if m.value < n.value then -1 else 1
  }

  /** Normalizing keeps the meaning, and fails only on amounts above the limit that need a carry. */
  lemma {:induction false} NormalizeMeaning(a: Amount)
    ensures Normalize(a).Done? <==> Normal(a) || Units(a) < LIMIT
    ensures Normalize(a).Done? ==> Normal(Normalize(a).amount) && Units(Normalize(a).amount) == Units(a)
  {
  }

  /** Addition is exact whenever the sum is below the limit, and reports failure otherwise. */
  lemma {:induction false} AddExact(a: Amount, b: Amount)
    ensures Add(a, b).Done? <==> Units(a) + Units(b) < LIMIT
    ensures Add(a, b).Done? ==> Normal(Add(a, b).amount) && Units(Add(a, b).amount) == Units(a) + Units(b)
    ensures Add(a, b).Done? <==>
      (a.value + b.value) * 100_000_000 + a.fraction + b.fraction < 4503599627370497 * 100_000_000
    ensures Add(a, b).Done? ==> Add(a, b).amount.fraction < 100_000_000
  {
    NormalizeMeaning(a);
    NormalizeMeaning(b);
    if Normalize(a).Done? && Normalize(b).Done? {
      AddNormal(Normalize(a).amount, Normalize(b).amount);
    }
  }

  lemma {:induction false} AddNormal(m: Amount, n: Amount)
    requires Normal(m) && Normal(n)
    ensures AddValues(m, n).Done? <==> Units(m) + Units(n) < LIMIT
    ensures AddValues(m, n).Done? ==>
      Normal(AddValues(m, n).amount) && Units(AddValues(m, n).amount) == Units(m) + Units(n)
  {
    var value := Wrap64(m.value + n.value);
    if m.value <= value <= MAX_VALUE {
      assert value == m.value + n.value;
      NormalizeMeaning(Amount(value, m.fraction + n.fraction));
    } else {
      assert m.value + n.value > MAX_VALUE;
    }
  }

  /** Subtraction is exact whenever it can be, and reports a negative result exactly when there is one. */
  lemma {:induction false} SubtractExact(a: Amount, b: Amount)
    requires Normalize(a).Done? && Normalize(b).Done?
    ensures Subtract(a, b).Done? <==> Units(a) >= Units(b)
    ensures Subtract(a, b).Negative? <==> Units(a) < Units(b)
    ensures Subtract(a, b).Done? ==> Units(Subtract(a, b).amount) == Units(a) - Units(b)
  {
    NormalizeMeaning(a);
    NormalizeMeaning(b);
  }

  lemma {:induction false} CompareExact(a: Amount, b: Amount)
    requires Normalize(a).Done? && Normalize(b).Done?
    ensures Compare(a, b) == if Units(a) < Units(b) then -1 else if Units(a) == Units(b) then 0 else 1
  {
    NormalizeMeaning(a);
    NormalizeMeaning(b);
  }

  /** What is added can be taken away again. */
  lemma {:induction false} AddThenSubtract(a: Amount, b: Amount)
    requires Units(a) + Units(b) < LIMIT
    ensures Add(a, b).Done? && Subtract(Add(a, b).amount, b).Done?
    ensures Units(Subtract(Add(a, b).amount, b).amount) == Units(a)
  {
    AddExact(a, b);
    NormalizeMeaning(b);
    SubtractExact(Add(a, b).amount, b);
  }

  // ----- rounding -----

  function Rest(x: nat, unit: nat): (r: nat)
    requires unit > 0
    ensures r < unit && r <= x
  {
    x % unit
  }

  /** Rounding for the wire; a unit with both a value and a fraction is refused and changes nothing. */
  function RoundDown(a: Amount, unit: Amount): Amount {
    if unit.fraction != 0 && unit.value != 0 then a
    else if unit.fraction != 0 then a.(fraction := a.fraction - Rest(a.fraction, unit.fraction))
    else if unit.value != 0 && Rest(a.value, unit.value) != 0 then
      Amount(a.value - Rest(a.value, unit.value), 0)
    else a
  }

  predicate IsUnit(unit: Amount) { (unit.value == 0) != (unit.fraction == 0) && Normal(unit) }

  /** The greatest multiple of a positive unit that is not above a number. */
  predicate GreatestMultiple(r: nat, x: nat, unit: nat)
    requires unit > 0
  {
    r <= x && IsMultiple(r, unit) && forall y | r < y <= x :: !IsMultiple(y, unit)
  }

  predicate IsMultiple(x: nat, unit: nat)
    requires unit > 0
  {
    x % unit == 0
  }

  /** When rounding does what it is for. */
  predicate RoundsProperly(a: Amount, unit: Amount) {
    && (unit.fraction != 0 ==> IsMultiple(a.value * FRAC_BASE, unit.fraction))
    && (unit.value != 0 && IsMultiple(a.value, unit.value) ==> a.fraction == 0)
  }

  /** Rounding never adds, and takes less than one unit. */
  lemma {:induction false} RoundDownDust(a: Amount, unit: Amount)
    requires Normal(a)
    ensures Normal(RoundDown(a, unit)) && Units(RoundDown(a, unit)) <= Units(a)
    ensures Units(a) - Units(RoundDown(a, unit)) < Units(unit) || RoundDown(a, unit) == a
    ensures (unit.value == 0 <==> unit.fraction == 0) ==> RoundDown(a, unit) == a
  {
    if unit.fraction == 0 && unit.value != 0 && a.value % unit.value != 0 {
      var rest := a.value % unit.value;
      assert Units(a) - Units(RoundDown(a, unit)) == rest * FRAC_BASE + a.fraction;
      assert rest * FRAC_BASE + FRAC_BASE <= unit.value * FRAC_BASE;
    }
  }

  /** A multiple of the unit less than one unit away is the greatest one. */
  lemma {:induction false} CloseMultipleIsGreatest(r: nat, x: nat, unit: nat)
    requires unit > 0 && r <= x < r + unit
    ensures GreatestMultiple(r, x, unit) <==> IsMultiple(r, unit)
  {
    if IsMultiple(r, unit) {
      var q := r / unit;
      forall y | r < y <= x ensures !IsMultiple(y, unit) {
        assert y == q * unit + (y - r);
        Remainder(q, y - r, unit);
      }
    }
  }

  lemma {:induction false} SumDivisible(x: nat, y: nat, unit: nat)
    requires unit > 0 && IsMultiple(y, unit)
    ensures IsMultiple(x + y, unit) <==> IsMultiple(x, unit)
  {
    var q, p, r := y / unit, x / unit, x % unit;
    Distributes(p, q, unit);
    assert x == p * unit + r && y == q * unit;
    Remainder(p + q, r, unit);
  }

  lemma {:induction false} Distributes(p: int, q: int, unit: int)
    ensures (p + q) * unit == p * unit + q * unit
  {
  }

  lemma {:induction false} Remainder(q: nat, r: nat, unit: nat)
    requires r < unit
    ensures (q * unit + r) % unit == r
  {
    var x := q * unit + r;
    OneQuotient(x / unit, x % unit, q, r, unit);
  }

  lemma {:induction false} OneQuotient(p: int, s: nat, q: int, r: nat, unit: nat)
    requires r < unit && s < unit && p * unit + s == q * unit + r
    ensures p == q && s == r
  {
    assert (p - q) * unit == r - s;
    AtLeastOne(p - q, unit);
  }

  lemma {:induction false} AtLeastOne(k: int, unit: nat)
    ensures k >= 1 ==> k * unit >= unit
    ensures k <= -1 ==> k * unit + unit <= 0
  {
  }

  /**
   * Rounding yields the greatest multiple of the unit exactly for these amounts.  It does not
   * when a fractional unit does not divide the value part, nor when a whole unit divides the
   * value part and a fraction is left over: that fraction is then kept.
   */
  lemma {:induction false} RoundDownExactly(a: Amount, unit: Amount)
    requires Normal(a) && IsUnit(unit)
    ensures GreatestMultiple(Units(RoundDown(a, unit)), Units(a), Units(unit)) <==> RoundsProperly(a, unit)
  {
    RoundDownDust(a, unit);
    CloseMultipleIsGreatest(Units(RoundDown(a, unit)), Units(a), Units(unit));
    if unit.fraction != 0 {
      FractionUnit(a.value * FRAC_BASE, a.fraction, unit.fraction);
    } else {
      WholeUnit(a.value, a.fraction, unit.value);
    }
  }

  lemma {:induction false} FractionUnit(x: nat, f: nat, u: nat)
    requires u > 0
    ensures IsMultiple(x + (f - Rest(f, u)), u) <==> IsMultiple(x, u)
  {
    KeptIsMultiple(f, u);
    SumDivisible(x, f - Rest(f, u), u);
  }

  lemma {:induction false} KeptIsMultiple(f: nat, u: nat)
    requires u > 0
    ensures IsMultiple(f - Rest(f, u), u)
  {
    assert f - Rest(f, u) == (f / u) * u + 0;
    Remainder(f / u, 0, u);
  }

  lemma {:induction false} WholeUnit(v: nat, f: nat, u: nat)
    requires u > 0 && f < FRAC_BASE
    ensures IsMultiple((v - Rest(v, u)) * FRAC_BASE, u * FRAC_BASE)
    ensures IsMultiple(v, u) ==> (IsMultiple(v * FRAC_BASE + f, u * FRAC_BASE) <==> f == 0)
  {
    var q := v / u;
    assert v - Rest(v, u) == q * u;
    assert q * u * FRAC_BASE == q * (u * FRAC_BASE);
    Remainder(q, 0, u * FRAC_BASE);
    if IsMultiple(v, u) {
      Remainder(q, f, u * FRAC_BASE);
    }
  }

  /** A unit that divides one whole coin, such as a cent, always rounds properly. */
  lemma {:induction false} CentsRoundProperly(a: Amount, unit: Amount)
    requires IsUnit(unit) && unit.value == 0 && FRAC_BASE % unit.fraction == 0
    ensures RoundsProperly(a, unit)
  {
    var q := FRAC_BASE / unit.fraction;
    assert a.value * FRAC_BASE == (a.value * q) * unit.fraction;
    Remainder(a.value * q, 0, unit.fraction);
  }

  /** With a unit of two, three and a half rounds to two, but two and a half is left alone. */
  lemma {:induction false} FractionIsKept()
    ensures RoundDown(Amount(3, 50_000_000), Amount(2, 0)) == Amount(2, 0)
    ensures RoundDown(Amount(2, 50_000_000), Amount(2, 0)) == Amount(2, 50_000_000)
  {
  }

  // ----- rounding seen from the ledgers -----

  /** An amount of smallest units, as the ledgers count it, rounded as above. */
  function Rounded(x: nat, unit: Amount): nat {
    var value, fraction := x / FRAC_BASE, Rest(x, FRAC_BASE);
    if unit.fraction != 0 && unit.value != 0 then x
    else if unit.fraction != 0 then x - Rest(fraction, unit.fraction)
    else if unit.value != 0 && Rest(value, unit.value) != 0 then
      (value - Rest(value, unit.value)) * FRAC_BASE
    else x
  }

  lemma {:induction false} RoundedIsRoundDown(a: Amount, unit: Amount)
    requires Normal(a)
    ensures Rounded(Units(a), unit) == Units(RoundDown(a, unit))
  {
    Remainder(a.value, a.fraction, FRAC_BASE);
    assert Units(a) / FRAC_BASE == a.value;
  }

  lemma {:induction false} RoundedDust(x: nat, unit: Amount)
    ensures Rounded(x, unit) <= x
    ensures x - Rounded(x, unit) < Units(unit) || Rounded(x, unit) == x
  {
    var value, fraction := x / FRAC_BASE, Rest(x, FRAC_BASE);
    assert x == value * FRAC_BASE + fraction;
  }

  /** What has been rounded needs no more rounding. */
  lemma {:induction false} RoundedTwice(x: nat, unit: Amount)
    ensures Rounded(Rounded(x, unit), unit) == Rounded(x, unit)
  {
    var value, fraction := x / FRAC_BASE, Rest(x, FRAC_BASE);
    assert x == value * FRAC_BASE + fraction;
    if unit.fraction != 0 && unit.value == 0 {
      var f := fraction - Rest(fraction, unit.fraction);
      KeptIsMultiple(fraction, unit.fraction);
      OneQuotient((value * FRAC_BASE + f) / FRAC_BASE, Rest(value * FRAC_BASE + f, FRAC_BASE), value, f, FRAC_BASE);
    } else if unit.fraction == 0 && unit.value != 0 && Rest(value, unit.value) != 0 {
      var v := value - Rest(value, unit.value);
      KeptIsMultiple(value, unit.value);
      OneQuotient((v * FRAC_BASE) / FRAC_BASE, Rest(v * FRAC_BASE, FRAC_BASE), v, 0, FRAC_BASE);
    }
  }
}
