/**
 Which integers a PostgreSQL float column stores exactly.  The test converts to double, for
 REAL on to single, and compares; both conversions round to nearest, ties to even, as
 section 4.3.1 of IEEE 754-2019 prescribes.
 */
module ExactFloats {
  import opened Wrappers
  import opened Decimals

  datatype FloatType = Real | DoublePrecision

  function Pow2(n: nat): (r: nat)
    ensures r >= 1
  {
    if n == 0 then 1 else 2 * Pow2(n - 1)
  }

  /** Precision in bits, and the exponent every finite magnitude stays below. */
  datatype Format = Format(precision: nat, range: nat)

  const SINGLE := Format(24, 128)
  const DOUBLE := Format(53, 1024)

  // ----- Rounding to p significant bits -----

  /** How many low bits do not fit next to the p leading ones. */
  function Excess(a: nat, p: nat): nat {
    if a < Pow2(p) then 0 else 1 + Excess(a / 2, p)
  }

  function RoundMagnitude(a: nat, p: nat): nat {
    var unit := Pow2(Excess(a, p));
    Kept(a, unit) * unit
  }

  /** `a / unit`, rounded to nearest, ties to even. */
  function Kept(a: nat, unit: nat): nat
    requires unit >= 1
  {
    var q, r := a / unit, a % unit;
    if 2 * r > unit || (2 * r == unit && q % 2 == 1) then q + 1 else q
  }

  function Round(n: int, p: nat): int {
    if n < 0 then 0 - RoundMagnitude(-n, p) else RoundMagnitude(n, p)
  }

  /** Conversion to a format; a magnitude beyond its range raises. */
  function Convert(n: int, f: Format): Option<int> {
    if Abs(Round(n, f.precision)) >= Pow2(f.range) then None else Some(Round(n, f.precision))
  }

  /** An integer becomes a double first; packing as a single starts from the double. */
  function ConvertTwice(n: int, wide: Format, narrow: Format): Option<int> {
    var d := Convert(n, wide);
    if d.None? then None else Convert(d.value, narrow)
  }

  /** `_integer_is_exactly_representable`. */
  predicate IsExact(n: int, t: FloatType) {
    (if t == Real then ConvertTwice(n, DOUBLE, SINGLE) else Convert(n, DOUBLE)) == Some(n)
  }

  // ----- The reference: significant bits and range -----

  function FormatOf(t: FloatType): Format { if t == Real then SINGLE else DOUBLE }

  predicate Splits(n: int, p: nat, m: int, e: nat) { Abs(m) < Pow2(p) && n == m * Pow2(e) }

  /** `n` has at most `p` significant bits. */
  ghost predicate HasBits(n: int, p: nat) {
    exists m: int, e: nat :: Splits(n, p, m, e)
  }

  // ----- Powers -----

  lemma {:induction false} Pow2Adds(a: nat, b: nat)
    ensures Pow2(a + b) == Pow2(a) * Pow2(b)
  {
    if a > 0 { Pow2Adds(a - 1, b); }
  }

  lemma SmallPowers()
    ensures Pow2(7) == 0x80 && Pow2(8) == 0x100 && Pow2(15) == 0x8000 && Pow2(16) == 0x1_0000
  {
    assert Pow2(7) == 0x80;
    Pow2Adds(7, 8);
    Pow2Adds(8, 8);
  }

  /** The powers that bound integer and float types. */
  lemma LargePowers()
    ensures Pow2(24) == 0x100_0000 && Pow2(31) == 0x8000_0000 && Pow2(32) == 0x1_0000_0000
    ensures Pow2(53) == 0x20_0000_0000_0000
    ensures Pow2(63) == 0x8000_0000_0000_0000 && Pow2(64) == 0x1_0000_0000_0000_0000
  {
    SmallPowers();
    Pow2Adds(16, 8);
    Pow2Adds(15, 16);
    Pow2Adds(16, 16);
    Pow2Adds(32, 16);
    Pow2Adds(48, 5);
    assert Pow2(5) == 0x20;
    Pow2Adds(31, 32);
    Pow2Adds(32, 32);
  }

  lemma {:induction false} Pow2Grows(a: nat, b: nat)
    requires a <= b
    ensures Pow2(a) <= Pow2(b)
  {
    if a < b { Pow2Grows(a, b - 1); }
  }

  /** The kept part has at most p bits, and exactly p when something was cut off. */
  lemma {:induction false} KeptBits(a: nat, p: nat)
    ensures a / Pow2(Excess(a, p)) < Pow2(p)
    ensures Excess(a, p) > 0 && p >= 1 ==> a / Pow2(Excess(a, p)) >= Pow2(p - 1)
  {
    if a >= Pow2(p) {
      KeptBits(a / 2, p);
      DivideTwice(a, Pow2(Excess(a / 2, p)));
    }
  }

  lemma DivideTwice(a: nat, d: nat)
    requires d >= 1
    ensures a / (2 * d) == a / 2 / d
  {
    var q := a / 2 / d;
    assert a / 2 == q * d + (a / 2) % d;
    var rest := a - q * (2 * d);
    assert 0 <= rest < 2 * d;
    QuotientIs(a, 2 * d, q, rest);
  }

  lemma QuotientIs(a: nat, d: nat, q: nat, r: nat)
    requires d >= 1 && a == q * d + r && r < d
    ensures a / d == q && a % d == r
  {
    var k := a / d - q;
    assert a == (a / d) * d + a % d;
    assert k * d == r - a % d;
    assert k >= 1 ==> k * d >= d;
    assert k <= -1 ==> k * d <= 0 - d;
  }

  /** A number with at most p bits has no more excess bits than trailing zeros. */
  lemma {:induction false} ExcessOfMultiple(m: nat, e: nat, p: nat)
    requires m < Pow2(p)
    ensures Excess(m * Pow2(e), p) <= e
  {
    if e > 0 {
      ExcessOfMultiple(m, e - 1, p);
      assert m * Pow2(e) == 2 * (m * Pow2(e - 1));
    } else {
      assert m * Pow2(0) == m;
    }
  }

  lemma NonNegative(a: nat, p: nat) returns (m: nat, e: nat)
    requires HasBits(a, p)
    ensures Splits(a, p, m, e)
  {
    var k: int, f: nat :| Splits(a, p, k, f);
    assert k < 0 ==> k * Pow2(f) < 0;
    m, e := k, f;
  }

  lemma ExactStays(a: nat, p: nat)
    requires HasBits(a, p)
    ensures RoundMagnitude(a, p) == a
  {
    var m, e := NonNegative(a, p);
    ExcessOfMultiple(m, e, p);
    var k := Excess(a, p);
    Pow2Adds(k, e - k);
    var q := m * Pow2(e - k);
    assert a == q * Pow2(k) by { Reassociate(m, Pow2(e - k), Pow2(k)); }
    QuotientIs(a, Pow2(k), q, 0);
  }

  lemma Reassociate(a: int, b: int, c: int)
    ensures a * b * c == a * (c * b)
  {
  }

  /** Whatever is rounded has at most p bits afterwards. */
  lemma RoundedHasBits(a: nat, p: nat)
    requires p >= 1
    ensures HasBits(RoundMagnitude(a, p), p)
  {
    KeptBits(a, p);
    var k := Excess(a, p);
    var q := a / Pow2(k);
    assert Splits(q * Pow2(k), p, q, k);
    CarryHasBits(q, k, p);
  }

  lemma CarryHasBits(q: nat, k: nat, p: nat)
    requires p >= 1 && q < Pow2(p)
    ensures HasBits((q + 1) * Pow2(k), p)
  {
    var n, m := (q + 1) * Pow2(k), q + 1;
    if m < Pow2(p) {
      assert n == m * Pow2(k);
      assert Splits(n, p, m, k);
    } else {
      assert m == Pow2(p);
      FullCarry(k, p);
      assert n == Pow2(p) * Pow2(k);
    }
  }

  lemma FullCarry(k: nat, p: nat)
    requires p >= 1
    ensures HasBits(Pow2(p) * Pow2(k), p)
  {
    DoubleUnit(Pow2(p), Pow2(p - 1), k);
    assert Splits(Pow2(p) * Pow2(k), p, Pow2(p - 1), k + 1);
  }

  lemma DoubleUnit(m: nat, half: nat, k: nat)
    requires m == 2 * half
    ensures m * Pow2(k) == half * Pow2(k + 1)
  {
    Reassociate(half, 2, Pow2(k));
  }

  /** Nothing with at most p bits lies strictly between two neighbouring kept parts. */
  lemma NothingBetween(a: nat, p: nat, w: nat)
    requires p >= 1 && HasBits(w, p)
    ensures var unit := Pow2(Excess(a, p)); w <= a / unit * unit || w >= (a / unit + 1) * unit
  {
    KeptBits(a, p);
    var k := Excess(a, p);
    var q := a / Pow2(k);
    if k == 0 {
      assert q * 1 == q;
    } else {
      var m, e := NonNegative(w, p);
      if e < k {
        FewTrailingZeros(m, e, p, k, q);
      } else {
        Pow2Adds(k, e - k);
        Reassociate(m, Pow2(e - k), Pow2(k));
        Squeezed(q, m * Pow2(e - k), Pow2(k));
      }
    }
  }

  /** A p-bit number with fewer than k trailing zeros stays below p bits followed by k zeros. */
  lemma FewTrailingZeros(m: nat, e: nat, p: nat, k: nat, q: nat)
    requires p >= 1 && e < k && m < Pow2(p) && q >= Pow2(p - 1)
    ensures m * Pow2(e) <= q * Pow2(k)
  {
    Pow2Grows(e, k - 1);
    Products(m, Pow2(p), Pow2(e), Pow2(k - 1));
    Products(Pow2(p - 1), q, Pow2(k), Pow2(k));
    assert Pow2(p) == 2 * Pow2(p - 1) && Pow2(k) == 2 * Pow2(k - 1);
    Reassociate(Pow2(p - 1), Pow2(k - 1), 2);
  }

  lemma Products(a: nat, b: nat, c: nat, d: nat)
    requires a <= b && c <= d
    ensures a * c <= b * d
  {
    assert a * c <= b * c;
    assert b * c <= b * d;
  }

  lemma Squeezed(q: int, f: int, unit: nat)
    requires unit >= 1
    ensures !(q * unit < f * unit < (q + 1) * unit)
  {
    if f <= q { assert f * unit <= q * unit; } else { assert f * unit >= (q + 1) * unit; }
  }

  /** Rounding finds the nearest number with at most p bits. */
  lemma RoundsToNearest(a: nat, p: nat, w: nat)
    requires p >= 1 && HasBits(w, p)
    ensures Abs(RoundMagnitude(a, p) - a) <= Abs(w - a)
  {
    NothingBetween(a, p, w);
    var unit := Pow2(Excess(a, p));
    assert a == a / unit * unit + a % unit;
    assert (a / unit + 1) * unit == a / unit * unit + unit;
  }

  /** ... and of two equally near ones the one with the even kept part. */
  lemma TiesGoToEven(a: nat, p: nat)
    requires 2 * (a % Pow2(Excess(a, p))) == Pow2(Excess(a, p))
    ensures exists q :: q % 2 == 0 && RoundMagnitude(a, p) == q * Pow2(Excess(a, p))
  {
    var q := a / Pow2(Excess(a, p));
    var even := if q % 2 == 1 then q + 1 else q;
    assert even % 2 == 0 && RoundMagnitude(a, p) == even * Pow2(Excess(a, p));
  }

  // ----- The test is exact -----

  lemma SignedBits(n: int, p: nat)
    ensures HasBits(n, p) <==> HasBits(0 - n, p)
  {
    if HasBits(n, p) {
      var m: int, e: nat :| Splits(n, p, m, e);
      assert Splits(0 - n, p, 0 - m, e);
    }
    if HasBits(0 - n, p) {
      var m: int, e: nat :| Splits(0 - n, p, m, e);
      assert Splits(n, p, 0 - m, e);
    }
  }

  lemma RoundFixes(n: int, p: nat)
    requires p >= 1
    ensures Round(n, p) == n <==> HasBits(n, p)
    ensures HasBits(Round(n, p), p)
  {
    SignedBits(n, p);
    SignedBits(Round(n, p), p);
    RoundedHasBits(Abs(n), p);
    if HasBits(n, p) { ExactStays(Abs(n), p); }
  }

  lemma MoreBits(n: int, p: nat, p': nat)
    requires HasBits(n, p) && p <= p'
    ensures HasBits(n, p')
  {
    var m: int, e: nat :| Splits(n, p, m, e);
    Pow2Grows(p, p');
    assert Splits(n, p', m, e);
  }

  lemma OneConversion(n: int, f: Format)
    requires f.precision >= 1
    ensures Convert(n, f) == Some(n) <==> HasBits(n, f.precision) && Abs(n) < Pow2(f.range)
    ensures Convert(n, f).Some? ==> HasBits(Convert(n, f).value, f.precision)
  {
    RoundFixes(n, f.precision);
  }

  /** Rounding twice accepts and rejects nothing wrongly. */
  lemma TwoConversions(n: int, wide: Format, narrow: Format)
    requires 1 <= narrow.precision <= wide.precision && narrow.range <= wide.range
    ensures ConvertTwice(n, wide, narrow) == Some(n) <==>
            HasBits(n, narrow.precision) && Abs(n) < Pow2(narrow.range)
  {
    OneConversion(n, wide);
    OneConversion(n, narrow);
    Pow2Grows(narrow.range, wide.range);
    if HasBits(n, narrow.precision) { MoreBits(n, narrow.precision, wide.precision); }
    if ConvertTwice(n, wide, narrow) == Some(n) { OneConversion(Convert(n, wide).value, narrow); }
  }

  /**
   The test accepts an integer exactly when it has at most 24 (REAL) or 53 (DOUBLE PRECISION)
   significant bits and lies in the type's range.
   */
  lemma AcceptsExactlyTheRepresentable(n: int, t: FloatType)
    ensures IsExact(n, t) <==>
            if t == Real then HasBits(n, 24) && Abs(n) < Pow2(128) else HasBits(n, 53) && Abs(n) < Pow2(1024)
  {
    OneConversion(n, DOUBLE);
    TwoConversions(n, DOUBLE, SINGLE);
  }

  lemma SmallHasBits(n: int, p: nat, range: nat)
    requires 1 <= p < range && Abs(n) <= Pow2(p)
    ensures HasBits(n, p) && Abs(n) < Pow2(range)
  {
    Pow2Grows(p + 1, range);
    if Abs(n) < Pow2(p) {
      assert n * Pow2(0) == n;
      assert Splits(n, p, n, 0);
    } else {
      var half := if n < 0 then 0 - Pow2(p - 1) else Pow2(p - 1);
      assert Pow2(1) == 2 && n == half * Pow2(1);
      assert Splits(n, p, half, 1);
    }
  }

  /** Every integer up to 2^24 or 2^53 passes. */
  lemma SmallIntegersPass(n: int, t: FloatType)
    requires Abs(n) <= Pow2(if t == Real then 24 else 53)
    ensures IsExact(n, t)
  {
    AcceptsExactlyTheRepresentable(n, t);
    SmallHasBits(n, FormatOf(t).precision, FormatOf(t).range);
  }

  lemma OneTooMany(p: nat, limit: nat)
    requires p >= 1 && limit == Pow2(p)
    ensures !HasBits(limit + 1, p)
  {
    var n := limit + 1;
    forall m: int, e: nat ensures !Splits(n, p, m, e) {
      if e > 0 {
        assert Pow2(e) == 2 * Pow2(e - 1);
        Reassociate(m, Pow2(e - 1), 2);
        assert m * Pow2(e) == m * Pow2(e - 1) * 2;
        assert Pow2(p) == 2 * Pow2(p - 1);
      } else {
        assert m * Pow2(0) == m;
      }
    }
  }

  /** The integer just past the limit is refused. */
  lemma LimitIsTight(t: FloatType, p: nat, limit: nat)
    requires p == (if t == Real then 24 else 53) && limit == Pow2(p)
    ensures !IsExact(limit + 1, t)
  {
    var n := limit + 1;
    OneTooMany(p, limit);
    assert IsExact(n, t) ==> HasBits(n, p) by { AcceptsExactlyTheRepresentable(n, t); }
  }

  // ----- A batch -----

  /** An integer column, or one of another kind. */
  datatype Column = Integers(values: seq<Option<int>>) | OtherColumn

  predicate ColumnExact(c: Column, t: FloatType) {
    c.Integers? ==> forall i :: 0 <= i < |c.values| && c.values[i].Some? ==> IsExact(c.values[i].value, t)
  }

  /** `_validate_integer_float_batch`: the first column with a value that would be rounded refuses the batch. */
  method ValidateBatch(frame: map<string, Column>, targets: seq<(string, FloatType)>) returns (outcome: Outcome<string>)
    ensures outcome.Pass? <==> forall i :: 0 <= i < |targets| && targets[i].0 in frame ==>
                                 ColumnExact(frame[targets[i].0], targets[i].1)
    ensures outcome.Fail? ==> exists i :: 0 <= i < |targets| && targets[i].0 == outcome.error && outcome.error in frame
                                          && !ColumnExact(frame[outcome.error], targets[i].1)
  {
    var i := 0;
    while i < |targets|
      invariant 0 <= i <= |targets|
      invariant forall j :: 0 <= j < i && targets[j].0 in frame ==> ColumnExact(frame[targets[j].0], targets[j].1)
    {
      var name, target := targets[i].0, targets[i].1;
      if name in frame && frame[name].Integers? {
        var values := frame[name].values;
        var v := 0;
        while v < |values|
          invariant 0 <= v <= |values|
          invariant forall u :: 0 <= u < v && values[u].Some? ==> IsExact(values[u].value, target)
        {
          if values[v].Some? && !IsExact(values[v].value, target) {
            return Fail(name);
          }
          v := v + 1;
        }
      }
      i := i + 1;
    }
    return Pass;
  }
}
