/** Whether existing destination columns can store source decimals exactly. */
module DecimalValidation {
  import opened Wrappers
  import opened Decimals
  import ExactFloats

  datatype SourceType = BoundedSource(precision: nat, scale: nat) | UnboundedSource | NotDecimal

  /**
   `Unsized` is a Polars Decimal without both sizes, `Numeric` the server's plain numeric or decimal,
   `OtherTarget` a type without numbers.
   */
  datatype TargetType =
    | Sized(precision: nat, scale: nat) | Unsized | Numeric | Textual
    | SmallInt | Int | BigInt | Float(format: ExactFloats.FloatType) | OtherTarget

  datatype Column = Column(name: string, source: SourceType)

  predicate IsInteger(t: TargetType) { t.SmallInt? || t.Int? || t.BigInt? }

  /** The widest decimal each integer type is trusted with. */
  function DigitLimit(t: TargetType): nat
    requires IsInteger(t)
  {
    match t case SmallInt => 4 case Int => 9 case _ => 18
  }

  function Lowest(t: TargetType): int
    requires IsInteger(t)
  {
    match t case SmallInt => -0x8000 case Int => -0x8000_0000 case _ => -0x8000_0000_0000_0000
  }

  function Highest(t: TargetType): int
    requires IsInteger(t)
  {
    match t case SmallInt => 0x7fff case Int => 0x7fff_ffff case _ => 0x7fff_ffff_ffff_ffff
  }

  predicate AcceptsUnbounded(t: TargetType) { t.Numeric? || t.Textual? }

  predicate AcceptsBounded(precision: nat, scale: nat, t: TargetType) {
    || t.Numeric?
    || (t.Sized? && !(t.scale < scale || t.precision - t.scale < precision - scale))
    || t.Textual?
    || (IsInteger(t) && scale == 0 && precision <= DigitLimit(t))
  }

  predicate Accepts(source: SourceType, t: TargetType) {
    match source
    case NotDecimal => true
    case UnboundedSource => AcceptsUnbounded(t)
    case BoundedSource(p, s) => AcceptsBounded(p, s, t)
  }

  predicate Refused(c: Column, destinations: map<string, TargetType>) {
    c.name in destinations && !Accepts(c.source, destinations[c.name])
  }

  /** Unbounded columns are inspected first, then bounded ones; the first refusal is raised. */
  method Validate(columns: seq<Column>, destinations: map<string, TargetType>) returns (outcome: Outcome<string>)
    ensures outcome.Pass? <==> forall c :: c in columns ==> !Refused(c, destinations)
    ensures outcome.Fail? ==> exists c :: c in columns && c.name == outcome.error && Refused(c, destinations)
    ensures outcome.Fail? && (exists c :: c in columns && c.source.UnboundedSource? && Refused(c, destinations)) ==>
              exists c :: c in columns && c.source.UnboundedSource? && c.name == outcome.error
                          && Refused(c, destinations)
  {
    var i := 0;
    while i < |columns|
      invariant 0 <= i <= |columns|
      invariant forall j :: 0 <= j < i && columns[j].source.UnboundedSource? ==> !Refused(columns[j], destinations)
    {
      var c := columns[i];
      if c.source.UnboundedSource? && c.name in destinations {
        if !AcceptsUnbounded(destinations[c.name]) {
          assert c in columns && Refused(c, destinations);
          return Fail(c.name);
        }
      }
      i := i + 1;
    }
    i := 0;
    while i < |columns|
      invariant 0 <= i <= |columns|
      invariant forall j :: 0 <= j < i ==> !Refused(columns[j], destinations)
    {
      var c := columns[i];
      if c.source.BoundedSource? && c.name in destinations {
        if !AcceptsBounded(c.source.precision, c.source.scale, destinations[c.name]) {
          assert c in columns && Refused(c, destinations);
          return Fail(c.name);
        }
      }
      i := i + 1;
    }
    return Pass;
  }

  // ----- What acceptance means -----

  /** The value `m * 10^-scale` is the integer `n`. */
  ghost predicate HoldsInteger(m: int, scale: nat, t: TargetType)
    requires IsInteger(t)
  {
    exists n :: Scaled(Multiple(m, scale), 0, n) && Lowest(t) <= n <= Highest(t)
  }

  function Bits(f: ExactFloats.FloatType): nat { ExactFloats.FormatOf(f).precision }

  /** `m * 10^-scale` is `k * 2^e` or `k * 2^-e`. */
  predicate IsBinary(m: int, scale: nat, k: int, e: nat) {
    || m == k * ExactFloats.Pow2(e) * Pow10(scale)
    || m * ExactFloats.Pow2(e) == k * Pow10(scale)
  }

  /** A binary significand of the float's width represents `m * 10^-scale`. */
  ghost predicate HoldsFloat(m: int, scale: nat, f: ExactFloats.FloatType) {
    exists k: int, e: nat :: Abs(k) < ExactFloats.Pow2(Bits(f)) && IsBinary(m, scale, k, e)
  }

  /** The type holds `m * 10^-scale` exactly; one whose sizes are left open holds what any sizes would. */
  ghost predicate Holds(m: int, scale: nat, t: TargetType) {
    match t
    case Sized(p, s) => Fits(Multiple(m, scale), p, s)
    case Unsized => forall p: nat, s: nat :: Fits(Multiple(m, scale), p, s)
    case Numeric => true
    case Textual => true
    case Float(f) => HoldsFloat(m, scale, f)
    case OtherTarget => false
    case _ => HoldsInteger(m, scale, t)
  }

  /** Every value of Decimal(precision, scale) survives the trip into `t`. */
  ghost predicate StoresAll(precision: nat, scale: nat, t: TargetType) {
    forall m :: InType(m, precision) ==> Holds(m, scale, t)
  }

  /** The integer types hold what two, four and eight bytes do in two's complement. */
  lemma RangesByWidth(t: TargetType)
    requires IsInteger(t)
    ensures t.SmallInt? ==> Lowest(t) == 0 - ExactFloats.Pow2(15) && Highest(t) == ExactFloats.Pow2(15) - 1
    ensures t.Int? ==> Lowest(t) == 0 - ExactFloats.Pow2(31) && Highest(t) == ExactFloats.Pow2(31) - 1
    ensures t.BigInt? ==> Lowest(t) == 0 - ExactFloats.Pow2(63) && Highest(t) == ExactFloats.Pow2(63) - 1
  {
    if t.SmallInt? { ExactFloats.SmallPowers(); } else { ExactFloats.LargePowers(); }
  }

  lemma PowersOfTen()
    ensures Pow10(4) == 10000 && Pow10(5) == 100000
    ensures Pow10(9) == 1000000000 && Pow10(10) == 10000000000
    ensures Pow10(18) == 1000000000000000000 && Pow10(19) == 10000000000000000000
  {
    Pow10Adds(4, 1);
    Pow10Adds(5, 4);
    Pow10Adds(9, 1);
    Pow10Adds(9, 9);
    Pow10Adds(18, 1);
  }

  /** The digit limits are the largest that fit: one digit more and the widest value does not. */
  lemma DigitLimitsAreTight(t: TargetType)
    requires IsInteger(t)
    ensures forall m :: InType(m, DigitLimit(t)) ==> Lowest(t) <= m <= Highest(t)
    ensures InType(Pow10(DigitLimit(t) + 1) - 1, DigitLimit(t) + 1)
    ensures Pow10(DigitLimit(t) + 1) - 1 > Highest(t)
  {
    PowersOfTen();
  }

  lemma IntegerTargets(p: nat, s: nat, t: TargetType)
    requires p >= 1 && IsInteger(t)
    ensures StoresAll(p, s, t) <==> s == 0 && p <= DigitLimit(t)
  {
    DigitLimitsAreTight(t);
    if s == 0 && p <= DigitLimit(t) {
      Pow10Grows(p, DigitLimit(t));
      forall m | InType(m, p) ensures HoldsInteger(m, s, t) {
        assert InType(m, DigitLimit(t));
        assert Scaled(Multiple(m, s), 0, m);
      }
    } else if s > 0 {
      Pow10Grows(1, p);
      Pow10Grows(1, s);
      assert InType(1, p);
      forall m ensures !Scaled(Multiple(1, s), 0, m) { NoUnitFactor(m, Pow10(s)); }
      assert !HoldsInteger(1, s, t) && !Holds(1, s, t);
    } else {
      Pow10Grows(DigitLimit(t) + 1, p);
      var w := Pow10(DigitLimit(t) + 1) - 1;
      assert InType(w, p);
      assert !HoldsInteger(w, s, t) && !Holds(w, s, t) by {
        forall m | Scaled(Multiple(w, s), 0, m) ensures m == w { assert Pow10(0) == 1; }
      }
    }
  }

  // ----- Float targets -----

  /** How many decimal digits every integer of which the float represents. */
  function FloatDigits(f: ExactFloats.FloatType): nat { if f == ExactFloats.Real then 7 else 15 }

  lemma DigitsAgainstBits(f: ExactFloats.FloatType)
    ensures Pow10(FloatDigits(f)) <= ExactFloats.Pow2(Bits(f))
    ensures ExactFloats.Pow2(Bits(f)) + 1 < Pow10(FloatDigits(f) + 1)
  {
    PowersOfTen();
    if f == ExactFloats.Real {
      ExactFloats.LargePowers();
      assert Pow10(2) == 100 && Pow10(3) == 1000;
      Pow10Adds(5, 2);
      Pow10Adds(5, 3);
    } else {
      ExactFloats.LargePowers();
      Pow10Adds(10, 5);
      Pow10Adds(10, 5 + 1);
      Pow10Adds(5, 1);
    }
  }

  lemma {:induction false} NoFactorFive(e: nat)
    ensures ExactFloats.Pow2(e) % 5 != 0
  {
    if e > 0 { NoFactorFive(e - 1); }
  }

  /** A tenth, a hundredth and so on have no binary representation at all. */
  lemma NoBinaryFraction(s: nat, k: int, e: nat)
    requires s > 0
    ensures !IsBinary(1, s, k, e)
  {
    NoFactorFive(e);
    Pow10Grows(1, s);
    NoUnitFactor(k * ExactFloats.Pow2(e), Pow10(s));
    FiveTimes(k, Pow10(s - 1));
  }

  lemma FiveTimes(k: int, n: int)
    ensures (k * (10 * n)) % 5 == 0
  {
    assert k * (10 * n) == 5 * (2 * k * n);
  }

  lemma WholeIsBits(m: int, f: ExactFloats.FloatType)
    ensures HoldsFloat(m, 0, f) <==> ExactFloats.HasBits(m, Bits(f))
  {
    if HoldsFloat(m, 0, f) { WholeHasBits(m, f); }
    if ExactFloats.HasBits(m, Bits(f)) {
      var k: int, e: nat :| ExactFloats.Splits(m, Bits(f), k, e);
      assert Pow10(0) == 1 && IsBinary(m, 0, k, e);
    }
  }

  lemma WholeHasBits(m: int, f: ExactFloats.FloatType)
    requires HoldsFloat(m, 0, f)
    ensures ExactFloats.HasBits(m, Bits(f))
  {
    var k: int, e: nat :| Abs(k) < ExactFloats.Pow2(Bits(f)) && IsBinary(m, 0, k, e);
    WholeSplits(m, k, ExactFloats.Pow2(e));
    if m == k * ExactFloats.Pow2(e) {
      assert ExactFloats.Splits(m, Bits(f), k, e);
    } else {
      assert ExactFloats.Pow2(0) == 1 && ExactFloats.Splits(m, Bits(f), m, 0);
    }
  }

  /** A whole number that is a binary fraction is no larger than its significand. */
  lemma WholeSplits(m: int, k: int, unit: nat)
    requires unit >= 1 && (m == k * unit * Pow10(0) || m * unit == k * Pow10(0))
    ensures m == k * unit || Abs(m) <= Abs(k)
  {
    assert Pow10(0) == 1;
    NotLarger(m, unit);
  }

  lemma NotLarger(m: int, q: nat)
    requires q >= 1
    ensures Abs(m) <= Abs(m * q)
  {
    if m >= 0 { assert m * q >= m; } else { assert m * q <= m; }
  }

  /** A float stores a whole decimal type exactly when it has no scale and few enough digits. */
  lemma FloatTargets(p: nat, s: nat, f: ExactFloats.FloatType)
    requires p >= 1
    ensures StoresAll(p, s, Float(f)) <==> s == 0 && p <= FloatDigits(f)
  {
    if s > 0 {
      FractionsNotStored(p, s, f);
    } else if p <= FloatDigits(f) {
      FewDigitsStored(p, f);
    } else {
      ManyDigitsNotStored(p, f);
    }
  }

  lemma FractionsNotStored(p: nat, s: nat, f: ExactFloats.FloatType)
    requires p >= 1 && s > 0
    ensures !StoresAll(p, s, Float(f))
  {
    Pow10Grows(1, p);
    assert InType(1, p);
    forall k: int, e: nat ensures !IsBinary(1, s, k, e) { NoBinaryFraction(s, k, e); }
    assert !Holds(1, s, Float(f));
  }

  lemma FewDigitsStored(p: nat, f: ExactFloats.FloatType)
    requires p <= FloatDigits(f)
    ensures StoresAll(p, 0, Float(f))
  {
    DigitsAgainstBits(f);
    Pow10Grows(p, FloatDigits(f));
    forall m | InType(m, p) ensures Holds(m, 0, Float(f)) {
      assert ExactFloats.Splits(m, Bits(f), m, 0);
      WholeIsBits(m, f);
    }
  }

  lemma ManyDigitsNotStored(p: nat, f: ExactFloats.FloatType)
    requires p > FloatDigits(f)
    ensures !StoresAll(p, 0, Float(f))
  {
    var w := ExactFloats.Pow2(Bits(f)) + 1;
    assert InType(w, p) by {
      DigitsAgainstBits(f);
      Pow10Grows(FloatDigits(f) + 1, p);
    }
    assert !HoldsFloat(w, 0, f) by {
      ExactFloats.OneTooMany(Bits(f), ExactFloats.Pow2(Bits(f)));
      WholeIsBits(w, f);
    }
    assert !Holds(w, 0, Float(f));
  }

  lemma SizedTargets(p: nat, s: nat, p': nat, s': nat)
    requires p >= 1
    ensures StoresAll(p, s, Sized(p', s')) <==> HasRoom(p, s, p', s')
  {
    EmbedsIffRoom(p, s, p', s');
    if StoresAll(p, s, Sized(p', s')) {
      forall m | InType(m, p) ensures Fits(Multiple(m, s), p', s') { assert Holds(m, s, Sized(p', s')); }
    }
  }

  /** Where the sizes are open, or there are no numbers, nothing of use is stored. */
  lemma NothingIsStored(p: nat, s: nat, t: TargetType)
    requires p >= 1 && (t.Unsized? || t.OtherTarget?)
    ensures !StoresAll(p, s, t)
  {
    Pow10Grows(1, p);
    assert InType(1, p);
    assert !Holds(1, s, t) by {
      assert !Fits(Multiple(1, s), 0, s) by {
        forall n | Scaled(Multiple(1, s), s, n) ensures n == 1 { assert Pow10(0) == 1; }
      }
    }
  }

  /**
   Acceptance never loses a value; and it refuses a target that would store every value exactly for
   floats, when the source has no scale and at most 7 (real) or 15 (double precision) digits.
   */
  lemma AcceptedExactlyWhenStored(p: nat, s: nat, t: TargetType)
    requires p >= 1
    ensures AcceptsBounded(p, s, t) <==>
            StoresAll(p, s, t) && !(t.Float? && s == 0 && p <= FloatDigits(t.format))
    ensures StoresAll(p, s, t) && !AcceptsBounded(p, s, t) <==> t.Float? && s == 0 && p <= FloatDigits(t.format)
  {
    match t {
      case Sized(p', s') => SizedTargets(p, s, p', s');
      case Float(f) => FloatTargets(p, s, f);
      case Unsized => NothingIsStored(p, s, t);
      case OtherTarget => NothingIsStored(p, s, t);
      case Numeric =>
      case Textual =>
      case _ => IntegerTargets(p, s, t);
    }
  }

  /** An unbounded source is accepted exactly when the destination stores every value of every size. */
  lemma UnboundedAcceptedExactlyWhenStored(t: TargetType)
    ensures AcceptsUnbounded(t) <==> forall p: nat, s: nat :: p >= 1 ==> StoresAll(p, s, t)
  {
    if !AcceptsUnbounded(t) {
      var s := if t.Sized? then t.scale + 1 else 1;
      AcceptedExactlyWhenStored(1, s, t);
      assert !AcceptsBounded(1, s, t) && !StoresAll(1, s, t);
    }
  }

  /** Decimal(5, 0) into double precision: every value would be exact, and it is refused. */
  lemma DoubleIsRefusedThoughExact()
    ensures StoresAll(5, 0, Float(ExactFloats.DoublePrecision))
    ensures !AcceptsBounded(5, 0, Float(ExactFloats.DoublePrecision))
  {
    FloatTargets(5, 0, ExactFloats.DoublePrecision);
  }

  /** A refused sized decimal target comes with a value that would be rounded or overflow. */
  lemma RefusalHasWitness(p: nat, s: nat, t: TargetType)
    requires p >= 1 && t.Sized? && !AcceptsBounded(p, s, t)
    ensures InType(Witness(p, s, t.scale), p)
    ensures !Fits(Multiple(Witness(p, s, t.scale), s), t.precision, t.scale)
  {
    NoRoomWitness(p, s, t.precision, t.scale);
  }
}
