/** The Decimal type a user-selected cast derives from the values of one batch column. */
module ColumnCasting {
  import opened Wrappers
  import opened Decimals

  /** A cell read as a decimal number; null cells are `None` in a column. */
  datatype Reading = Unreadable | NotFinite | Finite(number: Number)

  datatype CastError = NotDecimal | TooPrecise

  datatype DecimalType = DecimalType(precision: nat, scale: nat)

  const MAX_PRECISION: nat := 38

  predicate IsBad(cell: Option<Reading>) { cell.Some? && !cell.value.Finite? }

  function ScaleOf(n: Number): nat {
    if n.coefficient == 0 then 0 else Larger(0 - n.exponent, 0)
  }

  /** `adjusted() + 1`, the digits left of the decimal point. */
  function IntegerDigitsOf(n: Number): nat {
    if n.coefficient == 0 then 0 else Larger(Digits(Abs(n.coefficient)) + n.exponent, 0)
  }

  /** A cell that is a number other than zero. */
  predicate IsNonzero(cell: Option<Reading>) {
    cell.Some? && cell.value.Finite? && cell.value.number.coefficient != 0
  }

  /** Digits left of the decimal point, none or less for a number below one tenth. */
  function Adjusted(n: Number): int { Digits(Abs(n.coefficient)) + n.exponent }

  /** `scale` and `digits` are the largest any nonzero one of the first `count` cells asks for, and at least none. */
  ghost predicate Covers(cells: seq<Option<Reading>>, count: nat, scale: nat, digits: nat)
    requires count <= |cells|
  {
    && (forall i :: 0 <= i < count && IsNonzero(cells[i]) ==>
          0 - cells[i].value.number.exponent <= scale && Adjusted(cells[i].value.number) <= digits)
    && (scale == 0 || exists i :: 0 <= i < count && IsNonzero(cells[i])
                                  && scale == 0 - cells[i].value.number.exponent)
    && (digits == 0 || exists i :: 0 <= i < count && IsNonzero(cells[i])
                                   && digits == Adjusted(cells[i].value.number))
  }

  lemma NumberFits(n: Number, scale: nat, digits: nat)
    requires ScaleOf(n) <= scale && IntegerDigitsOf(n) <= digits
    ensures Fits(n, Larger(1, digits + scale), scale)
  {
    if n.coefficient == 0 {
      var m := 0;
      assert Scaled(n, scale, m);
    } else {
      DigitsBound(Abs(n.coefficient));
      RoomSuffices(n, Digits(Abs(n.coefficient)), digits, scale);
      var m :| Scaled(n, scale, m) && Abs(m) < Pow10(digits + scale);
      Pow10Grows(digits + scale, Larger(1, digits + scale));
    }
  }

  /** Fewer integer digits would not hold the number, whatever the scale. */
  lemma NeedsIntegerDigits(n: Number, p: nat, s: nat)
    requires p - s < IntegerDigitsOf(n) && IntegerDigitsOf(n) > 0
    ensures !Fits(n, p, s)
  {
    var d := Digits(Abs(n.coefficient));
    DigitsBound(Abs(n.coefficient));
    forall m | Scaled(n, s, m) ensures Abs(m) >= Pow10(p) {
      var shift := n.exponent + s;
      if shift >= 0 {
        AbsProduct(n.coefficient, Pow10(shift));
        MulMonotone(Pow10(d - 1), Abs(n.coefficient), Pow10(shift));
        Pow10Adds(d - 1, shift);
        Pow10Grows(p, d - 1 + shift);
      } else if Abs(m) < Pow10(p) {
        MulBound(m, Pow10(p), Pow10(-shift));
        Pow10Adds(p, -shift);
        Pow10Grows(p - shift, d - 1);
      }
    }
  }

  lemma MulMonotone(a: nat, b: nat, c: nat)
    requires a <= b
    ensures a * c <= b * c
  {
  }

  lemma AbsProduct(a: int, b: nat)
    ensures Abs(a * b) == Abs(a) * b
  {
    if a < 0 { assert (-a) * b == -(a * b); assert a * b <= 0; }
  }

  /**
   `_decimal_dtype`.  The type holds every value of the column exactly; one bad cell refuses
   the column; a refusal for width means the widest scale and the widest integer part, each
   asked for by some value, do not fit in 38 digits together.
   */
  method DecimalTypeOf(cells: seq<Option<Reading>>) returns (result: Result<DecimalType, CastError>)
    ensures result == Failure(NotDecimal) <==> exists i :: 0 <= i < |cells| && IsBad(cells[i])
    ensures result.Success? ==> 1 <= result.value.precision <= 38
    ensures result.Success? ==>
              forall i :: 0 <= i < |cells| && cells[i].Some? ==>
                Fits(cells[i].value.number, result.value.precision, result.value.scale)
    ensures result.Success? ==>
              exists digits: nat :: Covers(cells, |cells|, result.value.scale, digits)
                               && result.value.precision == Larger(1, digits + result.value.scale)
    ensures result == Failure(TooPrecise) ==>
              exists scale: nat, digits: nat :: Covers(cells, |cells|, scale, digits) && digits + scale > 38
  {
    var scale, integerDigits := 0, 0;
    var i := 0;
    while i < |cells|
      invariant 0 <= i <= |cells| && 0 <= scale && 0 <= integerDigits
      invariant forall j :: 0 <= j < i ==> !IsBad(cells[j])
      invariant Covers(cells, i, scale, integerDigits)
    {
      var cell := cells[i];
      if cell.Some? {
        if !cell.value.Finite? {
          return Failure(NotDecimal);
        }
        var number := cell.value.number;
        if number.coefficient != 0 {
          scale := Larger(scale, Larger(0 - number.exponent, 0));
          integerDigits := Larger(integerDigits, Larger(Digits(Abs(number.coefficient)) + number.exponent, 0));
        }
      }
      i := i + 1;
    }
    var precision := Larger(1, integerDigits + scale);
    if precision > MAX_PRECISION {
      return Failure(TooPrecise);
    }
    forall j | 0 <= j < |cells| && cells[j].Some? ensures Fits(cells[j].value.number, precision, scale) {
      assert !IsBad(cells[j]);
      NumberFits(cells[j].value.number, scale, integerDigits);
    }
    return Success(DecimalType(precision, scale));
  }
}
