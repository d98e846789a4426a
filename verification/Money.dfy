/** The money primitives on exact decimals, with rounding as in section 21.3.2.28 of ECMA-262. */
module Money {

  /** A finite number as its shortest decimal string gives it: mantissa times a power of ten. */
  datatype Decimal = Decimal(mantissa: int, exponent: int)

  const HALF_ORE := 0.005

  function Pow10(e: int): (r: real)
    ensures r > 0.0
    decreases if e >= 0 then e else -e
  {
    if e == 0 then 1.0 else if e > 0 then 10.0 * Pow10(e - 1) else Pow10(e + 1) / 10.0
  }

  function Value(d: Decimal): real {
    d.mantissa as real * Pow10(d.exponent)
  }

  /** Edits the exponent only. */
  function ShiftDecimal(d: Decimal, exp: int): Decimal {
    Decimal(d.mantissa, d.exponent + exp)
  }

  /** The integer closest to x, the larger one when two are equally close. */
  function MathRound(x: real): int {
    (x + 0.5).Floor
  }

  function RoundOre(d: Decimal): Decimal {
    if d.mantissa == 0 then d else ShiftDecimal(Decimal(MathRound(Value(ShiftDecimal(d, 2))), 0), -2)
  }

  function Truncate(x: real): int {
    if x >= 0.0 then x.Floor else -((-x).Floor)
  }

  function TruncateToWholeKronor(d: Decimal): int {
    Truncate(Value(RoundOre(d)))
  }

  predicate EqualOre(a: real, b: real) {
    -HALF_ORE <= a - b <= HALF_ORE
  }

  // ------------------------------------------------------------ shifting

  lemma NextPower(e: int)
    ensures Pow10(e + 1) == 10.0 * Pow10(e)
  {
  }

  lemma Tenfold(a: real, b: real)
    ensures a * (10.0 * b) == 10.0 * (a * b)
  {
  }

  lemma Regroup(a: real, b: real, c: real)
    ensures a * (b * c) == (a * b) * c
  {
  }

  lemma {:induction false} PowersAdd(e: int, k: int)
    ensures Pow10(e + k) == Pow10(e) * Pow10(k)
    decreases if k >= 0 then k else -k
  {
    hide Pow10;
    if k == 0 {
      PowersOfTheShift();
      assert e + k == e;
    } else if k > 0 {
      PowersAdd(e, k - 1);
      OneMorePower(e, k - 1);
    } else {
      PowersAdd(e, k + 1);
      OneMorePower(e, k);
    }
  }

  lemma OneMorePower(e: int, k: int)
    ensures Pow10(e + (k + 1)) == Pow10(e) * Pow10(k + 1) <==> Pow10(e + k) == Pow10(e) * Pow10(k)
  {
    hide Pow10;
    NextPower(e + k);
    NextPower(k);
    Tenfold(Pow10(e), Pow10(k));
  }

  lemma PowersOfTheShift()
    ensures Pow10(0) == 1.0 && Pow10(2) == 100.0 && Pow10(-2) == 0.01
  {
    assert Pow10(1) == 10.0 && Pow10(-1) == 0.1;
  }

  /** Shifting never touches the digits, and multiplies the value by exactly that power of ten. */
  lemma ShiftIsExact(d: Decimal, exp: int)
    ensures Value(ShiftDecimal(d, exp)) == Value(d) * Pow10(exp)
    ensures ShiftDecimal(ShiftDecimal(d, exp), -exp) == d
  {
    hide Pow10;
    PowersAdd(d.exponent, exp);
    Regroup(d.mantissa as real, Pow10(d.exponent), Pow10(exp));
  }

  // ------------------------------------------------------------ rounding to an öre

  /** The number of öre that an amount rounds to. */
  function Ore(v: real): int {
    MathRound(v * 100.0)
  }

  lemma RoundOreValue(d: Decimal)
    ensures Value(RoundOre(d)) == Ore(Value(d)) as real / 100.0
  {
    hide Pow10;
    PowersOfTheShift();
    if d.mantissa != 0 {
      ShiftIsExact(d, 2);
    }
  }

  lemma OreIs(v: real, k: int)
    ensures Ore(v) == k <==> k as real <= v * 100.0 + 0.5 < k as real + 1.0
  {
  }

  /** Rounding gives k öre exactly on the half-open öre around k, so it is off by at most half an öre. */
  lemma RoundsToExactlyWhen(d: Decimal, k: int)
    ensures Value(RoundOre(d)) == k as real / 100.0 <==>
            k as real / 100.0 - HALF_ORE <= Value(d) < k as real / 100.0 + HALF_ORE
  {
    hide RoundOre, Value, Ore;
    RoundOreValue(d);
    OreIs(Value(d), k);
  }

  lemma WithinHalfAnOre(d: Decimal)
    ensures -HALF_ORE < Value(RoundOre(d)) - Value(d) <= HALF_ORE
  {
    hide RoundOre, Value, Ore;
    RoundOreValue(d);
    OreIs(Value(d), Ore(Value(d)));
  }

  lemma RoundOreIsIdempotent(d: Decimal)
    ensures Value(RoundOre(RoundOre(d))) == Value(RoundOre(d))
  {
    hide RoundOre, Value, Ore;
    RoundOreValue(d);
    RoundOreValue(RoundOre(d));
    OreIs(Value(RoundOre(d)), Ore(Value(d)));
  }

  lemma RoundOreIsMonotone(a: Decimal, b: Decimal)
    requires Value(a) <= Value(b)
    ensures Value(RoundOre(a)) <= Value(RoundOre(b))
  {
    hide RoundOre, Value, Ore;
    RoundOreValue(a);
    RoundOreValue(b);
    OreIs(Value(a), Ore(Value(a)));
    OreIs(Value(b), Ore(Value(b)));
  }

  function Negated(d: Decimal): Decimal {
    Decimal(-d.mantissa, d.exponent)
  }

  /** The amount lies exactly between two öre. */
  predicate IsExactHalf(v: real) {
    (v * 100.0 + 0.5).Floor as real == v * 100.0 + 0.5
  }

  lemma OppositeOre(v: real)
    ensures Ore(v) + Ore(-v) == if IsExactHalf(v) then 1 else 0
  {
    hide Ore;
    var y := v * 100.0 + 0.5;
    OreIs(v, y.Floor);
    assert y.Floor as real <= y < y.Floor as real + 1.0;
    if IsExactHalf(v) {
      OreIs(-v, 1 - y.Floor);
    } else {
      OreIs(-v, -y.Floor);
    }
  }

  /** Rounding an amount and its reversal cancels, except at exact halves, where an öre remains. */
  lemma SignFlipExactlyWhen(d: Decimal)
    ensures Value(RoundOre(d)) + Value(RoundOre(Negated(d))) == if IsExactHalf(Value(d)) then 0.01 else 0.0
  {
    hide RoundOre, Value, Ore, IsExactHalf;
    RoundOreValue(d);
    RoundOreValue(Negated(d));
    NegatedValue(d);
    OppositeOre(Value(d));
  }

  lemma NegatedValue(d: Decimal)
    ensures Value(Negated(d)) == -Value(d)
  {
  }

  // ------------------------------------------------------------ whole kronor

  /** Truncation gives k kronor exactly for these amounts: zero and below gain nothing, and drift loses nothing. */
  lemma TruncatesToExactlyWhen(d: Decimal, k: int)
    ensures TruncateToWholeKronor(d) == k <==>
            (if k > 0 then k as real else k as real - 0.99) - HALF_ORE <= Value(d)
              < (if k < 0 then k as real else k as real + 0.99) + HALF_ORE
  {
    hide RoundOre, Value, Ore;
    RoundOreValue(d);
    TruncatedOre(Ore(Value(d)), k);
    OreIs(Value(d), Ore(Value(d)));
  }

  lemma TruncatedOre(n: int, k: int)
    ensures Truncate(n as real / 100.0) == k <==>
            (if k > 0 then 100 * k else 100 * k - 99) <= n <= (if k < 0 then 100 * k else 100 * k + 99)
  {
    var x := n as real / 100.0;
    if n >= 0 {
      assert x.Floor == n / 100 by {
        FloorOfHundredth(n);
      }
    } else {
      assert -x == (-n) as real / 100.0;
      FloorOfHundredth(-n);
    }
  }

  lemma FloorOfHundredth(n: int)
    requires n >= 0
    ensures (n as real / 100.0).Floor == n / 100
  {
    var q, r := n / 100, n % 100;
    assert n as real == 100.0 * q as real + r as real;
    assert q as real <= n as real / 100.0 < q as real + 1.0;
  }

  /** A drift of less than half an öre off a whole number of kronor never loses or gains a krona. */
  lemma DriftKeepsTheKrona(d: Decimal, k: int)
    requires k as real - HALF_ORE <= Value(d) < k as real + HALF_ORE
    ensures TruncateToWholeKronor(d) == k
  {
    TruncatesToExactlyWhen(d, k);
  }

  // ------------------------------------------------------------ sums and comparisons

  function Sum(values: seq<Decimal>): real {
    if values == [] then 0.0 else Sum(values[..|values| - 1]) + Value(values[|values| - 1])
  }

  function SumOfRounded(values: seq<Decimal>): real {
    if values == [] then 0.0 else SumOfRounded(values[..|values| - 1]) + Value(RoundOre(values[|values| - 1]))
  }

  lemma {:induction false} RoundingEachDrifts(values: seq<Decimal>)
    ensures -HALF_ORE * (|values| as real) <= SumOfRounded(values) - Sum(values) <= HALF_ORE * (|values| as real)
  {
    if values != [] {
      RoundingEachDrifts(values[..|values| - 1]);
      WithinHalfAnOre(values[|values| - 1]);
    }
  }

  /** The sum as an exact decimal. */
  function Total(values: seq<Decimal>): (t: Decimal)
    ensures Value(t) == Sum(values)
  {
    if values == [] then
      Decimal(0, 0)
    else
      var t := Total(values[..|values| - 1]);
      Plus(t, values[|values| - 1])
  }

  /** Addition, as the source's reduce applies it on exact decimals. */
  function Plus(a: Decimal, b: Decimal): (r: Decimal)
    ensures Value(r) == Value(a) + Value(b)
  {
    var e := if a.exponent <= b.exponent then a.exponent else b.exponent;
    ScaledMantissa(a, e);
    ScaledMantissa(b, e);
    var m, n := Scaled(a, e), Scaled(b, e);
    SumOfScaled(m, n, e);
    Decimal(m + n, e)
  }

  /** The mantissa of a decimal at a lower exponent. */
  function Scaled(d: Decimal, e: int): int
    requires e <= d.exponent
  {
    d.mantissa * IntPow10(d.exponent - e)
  }

  lemma SumOfScaled(m: int, n: int, e: int)
    ensures Value(Decimal(m + n, e)) == m as real * Pow10(e) + n as real * Pow10(e)
  {
    hide Pow10;
    Distributes(m as real, n as real, Pow10(e));
  }

  lemma Distributes(x: real, y: real, z: real)
    ensures (x + y) * z == x * z + y * z
  {
  }

  function IntPow10(n: nat): int {
    if n == 0 then 1 else 10 * IntPow10(n - 1)
  }

  lemma {:induction false} IntPower(n: nat)
    ensures IntPow10(n) as real == Pow10(n)
  {
    if n > 0 {
      IntPower(n - 1);
    }
  }

  lemma ScaledMantissa(d: Decimal, e: int)
    requires e <= d.exponent
    ensures Scaled(d, e) as real * Pow10(e) == Value(d)
  {
    hide Pow10, IntPow10;
    IntPower(d.exponent - e);
    PowersAdd(d.exponent - e, e);
    Regroup(d.mantissa as real, Pow10(d.exponent - e), Pow10(e));
  }

  function SumOre(values: seq<Decimal>): Decimal {
    RoundOre(Total(values))
  }

  /** Rounding once at the end differs from rounding each of n addends by at most n + 1 half öre. */
  lemma SumOreAgainstRoundedAddends(values: seq<Decimal>)
    ensures var drift := Value(SumOre(values)) - SumOfRounded(values);
            -HALF_ORE * (|values| + 1) as real <= drift <= HALF_ORE * (|values| + 1) as real
  {
    RoundingEachDrifts(values);
    WithinHalfAnOre(Total(values));
  }

  /**
   Amounts are equal to the öre up to half an öre of difference, the half included. They then round to the same öre or
   to neighbouring ones, and amounts that are a whole öre apart are never equal.
   */
  lemma EqualOreExactlyWhen(a: Decimal, b: Decimal)
    ensures EqualOre(Value(a), Value(b)) <==>
            -1.0 <= 200.0 * (Value(a) - Value(b)) <= 1.0
    ensures EqualOre(Value(a), Value(b)) ==> -0.01 <= Value(RoundOre(a)) - Value(RoundOre(b)) <= 0.01
    ensures Value(a) - Value(b) >= 0.01 || Value(b) - Value(a) >= 0.01 ==> !EqualOre(Value(a), Value(b))
  {
    hide RoundOre, Value, Ore;
    RoundOreValue(a);
    RoundOreValue(b);
    var m, n := Ore(Value(a)), Ore(Value(b));
    OreIs(Value(a), m);
    OreIs(Value(b), n);
    if EqualOre(Value(a), Value(b)) {
      assert m as real - n as real < 2.0 && n as real - m as real < 2.0;
      assert -1 <= m - n <= 1;
    }
  }

  /** The tolerance separates rounded amounts exactly. */
  lemma EqualOreOnRounded(a: Decimal, b: Decimal)
    ensures EqualOre(Value(RoundOre(a)), Value(RoundOre(b))) <==> Value(RoundOre(a)) == Value(RoundOre(b))
  {
    hide RoundOre, Value, Ore;
    RoundOreValue(a);
    RoundOreValue(b);
    var m, n := Ore(Value(a)), Ore(Value(b));
    if m < n {
      assert n as real >= m as real + 1.0;
    } else if n < m {
      assert m as real >= n as real + 1.0;
    }
  }
}
