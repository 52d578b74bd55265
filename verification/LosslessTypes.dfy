/**
 The common column type of several batches: chosen so that every value of every batch is
 stored exactly, as narrow as possible, and the same whether batches are combined one by
 one while writing or all at once when finalizing.
 */
module LosslessTypes {
  import opened Wrappers
  import opened Decimals
  import ExactFloats
  import FoundryProfiles

  datatype Dtype =
    | Int8 | UInt8 | Int16 | UInt16 | Int32 | UInt32 | Int64 | UInt64
    | Float32 | Float64
    | Decimal(precision: Option<nat>, scale: Option<nat>)
    | Other(name: string)

  const INTEGERS: seq<Dtype> := [Int8, UInt8, Int16, UInt16, Int32, UInt32, Int64, UInt64]

  predicate IsInteger(t: Dtype) {
    t.Int8? || t.UInt8? || t.Int16? || t.UInt16? || t.Int32? || t.UInt32? || t.Int64? || t.UInt64?
  }

  predicate IsFloat(t: Dtype) { t.Float32? || t.Float64? }

  function Low(t: Dtype): int {
    match t
    case Int8 => -0x80
    case Int16 => -0x8000
    case Int32 => -0x8000_0000
    case Int64 => -0x8000_0000_0000_0000
    case _ => 0
  }

  function High(t: Dtype): int {
    match t
    case Int8 => 0x7f
    case UInt8 => 0xff
    case Int16 => 0x7fff
    case UInt16 => 0xffff
    case Int32 => 0x7fff_ffff
    case UInt32 => 0xffff_ffff
    case Int64 => 0x7fff_ffff_ffff_ffff
    case UInt64 => 0xffff_ffff_ffff_ffff
    case _ => 0
  }

  /** Integers up to this magnitude are exact in the float type. */
  function ExactLimit(t: Dtype): int {
    if t.Float64? then 0x20_0000_0000_0000 else 0x100_0000
  }

  // ----- The choice -----

  predicate AllSame(types: seq<Dtype>, u: Dtype) { forall t :: t in types ==> t == u }

  predicate AllDecimal(types: seq<Dtype>) { forall t :: t in types ==> t.Decimal? }

  predicate AllSized(types: seq<Dtype>) { forall t :: t in types ==> IsSized(t) }

  predicate AllIntegers(types: seq<Dtype>) { forall t :: t in types ==> IsInteger(t) }

  predicate AllFloats(types: seq<Dtype>) { forall t :: t in types ==> IsFloat(t) }

  predicate AllNumbers(types: seq<Dtype>) { forall t :: t in types ==> IsInteger(t) || IsFloat(t) }

  predicate AllWithin(types: seq<Dtype>, limit: int) { forall t :: t in types ==> WithinLimit(t, limit) }

  function Lowest(types: seq<Dtype>): int
    requires types != []
  {
    var n := |types| - 1;
    if n == 0 then Low(types[0]) else if Low(types[n]) < Lowest(types[..n]) then Low(types[n]) else Lowest(types[..n])
  }

  function Highest(types: seq<Dtype>): int
    requires types != []
  {
    var n := |types| - 1;
    if n == 0 then High(types[0]) else Larger(Highest(types[..n]), High(types[n]))
  }

  predicate IsSized(t: Dtype) { t.Decimal? && t.precision.Some? && t.scale.Some? }

  function ScaleOf(t: Dtype): int { if IsSized(t) then t.scale.value else 0 }

  function WholeDigits(t: Dtype): int { if IsSized(t) then t.precision.value - t.scale.value else 0 }

  function WidestScale(types: seq<Dtype>): int
    requires types != []
  {
    var n := |types| - 1;
    if n == 0 then ScaleOf(types[0]) else Larger(WidestScale(types[..n]), ScaleOf(types[n]))
  }

  function WidestWhole(types: seq<Dtype>): int
    requires types != []
  {
    var n := |types| - 1;
    if n == 0 then WholeDigits(types[0]) else Larger(WidestWhole(types[..n]), WholeDigits(types[n]))
  }

  function DecimalOf(whole: int, scale: int): Option<Dtype> {
    var precision := Larger(1, whole + scale);
    if precision <= 38 && scale >= 0 then Some(Decimal(Some(precision), Some(scale))) else None
  }

  /** The first integer type, from `i` on, whose range covers `low..high`. */
  function FirstCovering(low: int, high: int, i: nat): Option<Dtype>
    requires i <= |INTEGERS|
    decreases |INTEGERS| - i
  {
    if i == |INTEGERS| then None
    else if Low(INTEGERS[i]) <= low && high <= High(INTEGERS[i]) then Some(INTEGERS[i])
    else FirstCovering(low, high, i + 1)
  }

  function FloatFor(types: seq<Dtype>): Dtype { if Float64 in types then Float64 else Float32 }

  predicate WithinLimit(t: Dtype, limit: int) {
    IsInteger(t) ==> -limit <= Low(t) && High(t) <= limit
  }

  function Common(types: seq<Dtype>): Option<Dtype> {
    if types == [] then None
    else if AllSame(types, types[0]) then Some(types[0])
    else if AllDecimal(types) then
      if AllSized(types) then DecimalOf(WidestWhole(types), WidestScale(types)) else None
    else if AllIntegers(types) then FirstCovering(Lowest(types), Highest(types), 0)
    else if AllFloats(types) then Some(Float64)
    else if AllNumbers(types)
            && AllWithin(types, ExactLimit(FloatFor(types))) then Some(FloatFor(types))
    else None
  }

  // ----- What "exact" means -----

  function Significand(t: Dtype): nat { if t.Float64? then 53 else 24 }

  predicate InRange(t: Dtype, n: int) { Low(t) <= n <= High(t) }

  /** The finite values of a float type: `m * 2^e`. */
  predicate FloatHolds(t: Dtype, m: int, e: int) {
    && Abs(m) < ExactFloats.Pow2(Significand(t))
    && (if t.Float64? then -1074 <= e <= 971 else -149 <= e <= 104)
  }

  ghost predicate FloatHoldsInteger(t: Dtype, n: int) {
    exists m: int, e: nat :: FloatHolds(t, m, e) && n == m * ExactFloats.Pow2(e)
  }

  /** Every value of type `t` is stored exactly by type `u`. */
  ghost predicate Exact(t: Dtype, u: Dtype) {
    || t == u
    || (IsSized(t) && IsSized(u) && Embeds(t.precision.value, t.scale.value, u.precision.value, u.scale.value))
    || (IsInteger(t) && IsInteger(u) && forall n :: InRange(t, n) ==> InRange(u, n))
    || (IsInteger(t) && IsFloat(u) && forall n :: InRange(t, n) ==> FloatHoldsInteger(u, n))
    || (IsFloat(t) && IsFloat(u) && forall m, e :: FloatHolds(t, m, e) ==> FloatHolds(u, m, e))
  }

  /** Polars Decimals have between one digit and their scale's worth of digits or more. */
  predicate WellSized(t: Dtype) {
    IsSized(t) ==> t.precision.value >= 1 && t.scale.value <= t.precision.value
  }

  predicate AllWellSized(types: seq<Dtype>) { forall t :: t in types ==> WellSized(t) }

  predicate AllAtMost38(types: seq<Dtype>) { forall t :: t in types ==> AtMost38(t) }

  predicate AtMost38(t: Dtype) { IsSized(t) ==> t.precision.value <= 38 }

  // ----- Extremes over a list -----

  lemma {:induction false} Extremes(types: seq<Dtype>)
    requires types != []
    ensures forall i :: 0 <= i < |types| ==>
              Lowest(types) <= Low(types[i]) && High(types[i]) <= Highest(types)
              && ScaleOf(types[i]) <= WidestScale(types) && WholeDigits(types[i]) <= WidestWhole(types)
    ensures exists i :: 0 <= i < |types| && Lowest(types) == Low(types[i])
    ensures exists i :: 0 <= i < |types| && Highest(types) == High(types[i])
    ensures exists i :: 0 <= i < |types| && WidestScale(types) == ScaleOf(types[i])
    ensures exists i :: 0 <= i < |types| && WidestWhole(types) == WholeDigits(types[i])
  {
    var n := |types| - 1;
    if n > 0 {
      Extremes(types[..n]);
      var a :| 0 <= a < n && Lowest(types[..n]) == Low(types[..n][a]);
      var b :| 0 <= b < n && Highest(types[..n]) == High(types[..n][b]);
      var c :| 0 <= c < n && WidestScale(types[..n]) == ScaleOf(types[..n][c]);
      var d :| 0 <= d < n && WidestWhole(types[..n]) == WholeDigits(types[..n][d]);
      assert types[..n][a] == types[a] && types[..n][b] == types[b];
      assert types[..n][c] == types[c] && types[..n][d] == types[d];
      forall i | 0 <= i < n ensures types[i] == types[..n][i] {}
      assert Lowest(types) == Low(types[if Low(types[n]) < Low(types[a]) then n else a]);
      assert Highest(types) == High(types[if High(types[b]) < High(types[n]) then n else b]);
      assert WidestScale(types) == ScaleOf(types[if ScaleOf(types[c]) < ScaleOf(types[n]) then n else c]);
      assert WidestWhole(types) == WholeDigits(types[if WholeDigits(types[d]) < WholeDigits(types[n]) then n else d]);
    }
  }

  predicate Covers(t: Dtype, low: int, high: int) { Low(t) <= low && high <= High(t) }

  lemma {:induction false} FirstCoveringIsFirst(low: int, high: int, i: nat)
    requires i <= |INTEGERS|
    ensures var t := FirstCovering(low, high, i);
            && (t.Some? ==> exists k :: i <= k < |INTEGERS| && INTEGERS[k] == t.value && Covers(t.value, low, high)
                                        && forall j :: i <= j < k ==> !Covers(INTEGERS[j], low, high))
            && (t.None? ==> forall j :: i <= j < |INTEGERS| ==> !Covers(INTEGERS[j], low, high))
    decreases |INTEGERS| - i
  {
    if i < |INTEGERS| && !Covers(INTEGERS[i], low, high) {
      FirstCoveringIsFirst(low, high, i + 1);
    }
  }

  /** Among integer types, being first in the list is being contained in every other cover. */
  lemma FirstIsContained(a: Dtype, b: Dtype, u: Dtype)
    requires IsInteger(a) && IsInteger(b) && IsInteger(u)
    requires Low(a) <= Low(b) && High(a) <= High(b)
    requires Covers(u, Low(a), High(b))
    ensures FirstCovering(Low(a), High(b), 0).Some?
    ensures var t := FirstCovering(Low(a), High(b), 0).value; Covers(u, Low(t), High(t))
  {
    FirstCoveringIsFirst(Low(a), High(b), 0);
  }

  lemma RangesExact(t: Dtype, u: Dtype)
    requires IsInteger(t) && IsInteger(u)
    ensures Exact(t, u) <==> Covers(u, Low(t), High(t))
  {
    assert InRange(t, Low(t)) && InRange(t, High(t));
    if Exact(t, u) && t != u { assert InRange(u, Low(t)) && InRange(u, High(t)); }
  }

  // ----- Soundness -----

  lemma IntegersInFloats(t: Dtype, u: Dtype)
    requires IsInteger(t) && IsFloat(u) && WithinLimit(t, ExactLimit(u))
    ensures Exact(t, u)
  {
    ExactFloats.LargePowers();
    forall n | InRange(t, n) ensures FloatHoldsInteger(u, n) {
      var e: nat := 0;
      assert FloatHolds(u, n, e) && n == n * ExactFloats.Pow2(e);
    }
  }

  lemma DecimalsIn(types: seq<Dtype>, i: nat)
    requires i < |types| && AllSized(types) && AllWellSized(types)
    requires DecimalOf(WidestWhole(types), WidestScale(types)).Some?
    ensures Exact(types[i], DecimalOf(WidestWhole(types), WidestScale(types)).value)
  {
    Extremes(types);
    var t, u := types[i], DecimalOf(WidestWhole(types), WidestScale(types)).value;
    EmbedsIffRoom(t.precision.value, t.scale.value, u.precision.value, u.scale.value);
  }

  /** Every value of every input type is stored exactly by the common type. */
  lemma CommonIsSound(types: seq<Dtype>, i: nat)
    requires i < |types| && Common(types).Some? && AllWellSized(types)
    ensures Exact(types[i], Common(types).value)
  {
    var u := Common(types).value;
    assert types[i] in types && types[0] in types;
    if AllSame(types, types[0]) {
    } else if AllDecimal(types) {
      DecimalsIn(types, i);
    } else if AllIntegers(types) {
      Extremes(types);
      FirstCoveringIsFirst(Lowest(types), Highest(types), 0);
      RangesExact(types[i], u);
    } else if IsInteger(types[i]) {
      IntegersInFloats(types[i], u);
    } else {
      ExactFloats.LargePowers();
    }
  }

  // ----- Minimality -----

  /** For sized decimals the common type is the narrowest, and is missing only when 38 digits do not do. */
  lemma CommonDecimalIsLeast(types: seq<Dtype>, u: Dtype)
    requires types != [] && AllSized(types) && AllWellSized(types)
    requires IsSized(u) && AtMost38(u)
    requires AllAtMost38(types)
    requires forall i :: 0 <= i < |types| ==> Exact(types[i], u)
    ensures Common(types).Some? && Exact(Common(types).value, u)
  {
    Extremes(types);
    forall i | 0 <= i < |types|
      ensures HasRoom(types[i].precision.value, types[i].scale.value, u.precision.value, u.scale.value)
    {
      assert types[i] in types;
      EmbedsIffRoom(types[i].precision.value, types[i].scale.value, u.precision.value, u.scale.value);
    }
    if !AllSame(types, types[0]) {
      var t := DecimalOf(WidestWhole(types), WidestScale(types));
      EmbedsIffRoom(t.value.precision.value, t.value.scale.value, u.precision.value, u.scale.value);
    }
  }

  /** Bits of an integer type, and whether it has a sign. */
  function Width(t: Dtype): nat {
    match t
    case Int8 => 8 case UInt8 => 8 case Int16 => 16 case UInt16 => 16
    case Int32 => 32 case UInt32 => 32 case Int64 => 64 case UInt64 => 64
    case _ => 0
  }

  predicate HasSign(t: Dtype) { t.Int8? || t.Int16? || t.Int32? || t.Int64? }

  /** Integer types hold what their bits do, in two's complement when they have a sign. */
  lemma RangesByWidth(t: Dtype, n: int)
    requires IsInteger(t)
    ensures InRange(t, n) <==>
            if HasSign(t) then 0 - ExactFloats.Pow2(Width(t) - 1) <= n < ExactFloats.Pow2(Width(t) - 1)
            else 0 <= n < ExactFloats.Pow2(Width(t))
  {
    ExactFloats.SmallPowers();
    ExactFloats.LargePowers();
  }

  /** The integer after the limit of a float is not exact in it. */
  lemma PastTheLimit(u: Dtype, n: int)
    requires IsFloat(u) && (n == ExactLimit(u) + 1)
    ensures !FloatHoldsInteger(u, n)
  {
    ExactFloats.LargePowers();
    ExactFloats.OneTooMany(Significand(u), ExactLimit(u));
    forall m: int, e: nat | FloatHolds(u, m, e) ensures n != m * ExactFloats.Pow2(e) {
      assert n == m * ExactFloats.Pow2(e) ==> ExactFloats.Splits(n, Significand(u), m, e);
    }
  }

  /** An integer type is exact in a float exactly when its range is within the float's limit. */
  lemma WithinLimitIsExact(t: Dtype, u: Dtype)
    requires IsInteger(t) && IsFloat(u)
    ensures WithinLimit(t, ExactLimit(u)) <==> forall n :: InRange(t, n) ==> FloatHoldsInteger(u, n)
  {
    if WithinLimit(t, ExactLimit(u)) {
      IntegersInFloats(t, u);
    } else {
      PastTheLimit(u, ExactLimit(u) + 1);
      assert InRange(t, ExactLimit(u) + 1);
    }
  }

  /**
   Floats, with or without integers, have a common type exactly when every integer in the range of every
   integer type is exact in the widest float, and it is that float.
   */
  lemma CommonFloatExactlyWhen(types: seq<Dtype>)
    requires AllNumbers(types) && !AllIntegers(types)
    ensures var u := if Float64 in types then Float64 else Float32;
            && (Common(types).Some? <==>
                  forall t, n :: t in types && IsInteger(t) && InRange(t, n) ==> FloatHoldsInteger(u, n))
            && (Common(types).Some? ==> Common(types) == Some(u))
  {
    var u := if Float64 in types then Float64 else Float32;
    assert types != [] && types[0] in types;
    var a :| a in types && !IsInteger(a);
    assert IsFloat(a) && !AllDecimal(types);
    if AllFloats(types) {
      FloatsAlone(types);
    } else {
      var b :| b in types && !IsFloat(b);
      assert !AllSame(types, types[0]);
      forall t | t in types && IsInteger(t)
        ensures WithinLimit(t, ExactLimit(u)) <==> forall n :: InRange(t, n) ==> FloatHoldsInteger(u, n)
      {
        WithinLimitIsExact(t, u);
      }
    }
  }

  lemma FloatsAlone(types: seq<Dtype>)
    requires types != [] && AllFloats(types)
    ensures Common(types) == Some(if Float64 in types then Float64 else Float32)
  {
    assert types[0] in types;
    if AllSame(types, types[0]) {
      assert Float64 in types <==> types[0] == Float64;
    } else {
      var t :| t in types && t != types[0];
      assert t == Float64 || types[0] == Float64;
    }
  }

  lemma ExtremeTypes(types: seq<Dtype>) returns (a: Dtype, b: Dtype)
    requires types != [] && AllIntegers(types)
    ensures a in types && b in types && IsInteger(a) && IsInteger(b)
    ensures Low(a) == Lowest(types) && High(b) == Highest(types)
    ensures Low(a) <= Low(b) && High(a) <= High(b)
  {
    Extremes(types);
    var i :| 0 <= i < |types| && Lowest(types) == Low(types[i]);
    var j :| 0 <= j < |types| && Highest(types) == High(types[j]);
    a, b := types[i], types[j];
  }

  /** For integers the common type is contained in every integer type that would do. */
  lemma CommonIntegerIsLeast(types: seq<Dtype>, u: Dtype)
    requires types != [] && AllIntegers(types) && IsInteger(u)
    requires forall i :: 0 <= i < |types| ==> Exact(types[i], u)
    ensures Common(types).Some? && Exact(Common(types).value, u)
  {
    if AllSame(types, types[0]) {
    } else {
      var a, b := ExtremeTypes(types);
      RangesExact(a, u);
      RangesExact(b, u);
      FirstIsContained(a, b, u);
      FirstCoveringIsFirst(Lowest(types), Highest(types), 0);
      assert !types[0].Decimal?;
      RangesExact(Common(types).value, u);
    }
  }

  // ----- Order -----

  lemma SameExtremes(a: seq<Dtype>, b: seq<Dtype>)
    requires a != [] && b != [] && forall t :: t in a <==> t in b
    ensures Lowest(a) == Lowest(b) && Highest(a) == Highest(b)
    ensures WidestScale(a) == WidestScale(b) && WidestWhole(a) == WidestWhole(b)
  {
    Dominates(a, b);
    Dominates(b, a);
  }

  lemma Dominates(a: seq<Dtype>, b: seq<Dtype>)
    requires a != [] && b != [] && forall t :: t in b ==> t in a
    ensures Lowest(a) <= Lowest(b) && Highest(b) <= Highest(a)
    ensures WidestScale(b) <= WidestScale(a) && WidestWhole(b) <= WidestWhole(a)
  {
    Extremes(a);
    Extremes(b);
    forall i | 0 <= i < |b| ensures exists j :: 0 <= j < |a| && a[j] == b[i] { assert b[i] in a; }
  }

  /** The common type depends on which types occur, not on their order or repetition. */
  lemma CommonIgnoresOrder(a: seq<Dtype>, b: seq<Dtype>)
    requires forall t :: t in a <==> t in b
    ensures Common(a) == Common(b)
  {
    assert b != [] ==> b[0] in b;
    if a != [] {
      assert a[0] in b;
      SameExtremes(a, b);
      assert b[0] in a;
      assert AllSame(a, a[0]) <==> AllSame(b, b[0]);
      assert FloatFor(a) == FloatFor(b);
      SameTests(a, b);
    }
  }

  lemma SameTests(a: seq<Dtype>, b: seq<Dtype>)
    requires forall t :: t in a <==> t in b
    ensures AllDecimal(a) <==> AllDecimal(b)
    ensures AllSized(a) <==> AllSized(b)
    ensures AllIntegers(a) <==> AllIntegers(b)
    ensures AllFloats(a) <==> AllFloats(b)
    ensures AllNumbers(a) <==> AllNumbers(b)
    ensures forall limit :: AllWithin(a, limit) <==> AllWithin(b, limit)
  {
  }

  // ----- Batch by batch or all at once -----

  /** Writing combines the type so far with each new batch's; a refusal stops the load. */
  function Folded(types: seq<Dtype>): Option<Dtype> {
    if types == [] then None
    else if |types| == 1 then Some(types[0])
    else
      var before := Folded(types[..|types| - 1]);
      if before.None? then None else Common([before.value, types[|types| - 1]])
  }

  lemma Pair(u: Dtype, x: Dtype)
    ensures Lowest([u, x]) == (if Low(x) < Low(u) then Low(x) else Low(u))
    ensures Highest([u, x]) == Larger(High(u), High(x))
    ensures WidestScale([u, x]) == Larger(ScaleOf(u), ScaleOf(x))
    ensures WidestWhole([u, x]) == Larger(WholeDigits(u), WholeDigits(x))
    ensures Common([u, x]) ==
            if u == x then Some(u)
            else if u.Decimal? && x.Decimal? then
              if IsSized(u) && IsSized(x) then
                DecimalOf(Larger(WholeDigits(u), WholeDigits(x)), Larger(ScaleOf(u), ScaleOf(x))) else None
            else if IsInteger(u) && IsInteger(x) then
              FirstCovering(if Low(x) < Low(u) then Low(x) else Low(u), Larger(High(u), High(x)), 0)
            else if IsFloat(u) && IsFloat(x) then Some(Float64)
            else if IsInteger(u) && IsFloat(x) && WithinLimit(u, ExactLimit(x)) then Some(x)
            else if IsFloat(u) && IsInteger(x) && WithinLimit(x, ExactLimit(u)) then Some(u)
            else None
  {
    assert [u, x][..1] == [u];
    PairTests(u, x);
    assert Float64 in [u, x] <==> u == Float64 || x == Float64;
  }

  lemma PairTests(u: Dtype, x: Dtype)
    ensures AllSame([u, x], u) <==> x == u
    ensures AllDecimal([u, x]) <==> u.Decimal? && x.Decimal?
    ensures AllSized([u, x]) <==> IsSized(u) && IsSized(x)
    ensures AllIntegers([u, x]) <==> IsInteger(u) && IsInteger(x)
    ensures AllFloats([u, x]) <==> IsFloat(u) && IsFloat(x)
    ensures AllNumbers([u, x]) <==> (IsInteger(u) || IsFloat(u)) && (IsInteger(x) || IsFloat(x))
    ensures forall limit :: AllWithin([u, x], limit) <==> WithinLimit(u, limit) && WithinLimit(x, limit)
  {
    assert u in [u, x] && x in [u, x];
  }

  lemma Grown(p: seq<Dtype>, x: Dtype)
    requires p != []
    ensures var q := p + [x];
            && Lowest(q) == (if Low(x) < Lowest(p) then Low(x) else Lowest(p))
            && Highest(q) == Larger(Highest(p), High(x))
            && WidestScale(q) == Larger(WidestScale(p), ScaleOf(x))
            && WidestWhole(q) == Larger(WidestWhole(p), WholeDigits(x))
  {
    assert (p + [x])[..|p|] == p;
  }

  /** What kind of types a common type comes from. */
  lemma Kinds(p: seq<Dtype>)
    requires Common(p).Some?
    ensures var u := Common(p).value;
            && (u.Decimal? ==> AllDecimal(p))
            && (IsSized(u) ==> AllSized(p))
            && (u.Decimal? && !IsSized(u) ==> AllSame(p, u))
            && (IsInteger(u) ==> AllIntegers(p))
            && (IsFloat(u) ==> AllNumbers(p)
                               && AllWithin(p, ExactLimit(u)) && (u.Float64? <==> Float64 in p))
            && (u.Other? ==> AllSame(p, u))
  {
    assert p[0] in p;
  }

  lemma EqualListExtremes(p: seq<Dtype>, u: Dtype)
    requires p != [] && AllSame(p, u)
    ensures Lowest(p) == Low(u) && Highest(p) == High(u)
    ensures WidestScale(p) == ScaleOf(u) && WidestWhole(p) == WholeDigits(u)
  {
    Extremes(p);
    forall i | 0 <= i < |p| ensures p[i] == u { assert p[i] in p; }
  }

  lemma DecimalStep(p: seq<Dtype>, x: Dtype)
    requires p != [] && Common(p).Some? && IsSized(Common(p).value) && IsSized(x)
    requires AllWellSized(p) && WellSized(x)
    ensures DecimalOf(WidestWhole(p + [x]), WidestScale(p + [x])) ==
            DecimalOf(Larger(WholeDigits(Common(p).value), WholeDigits(x)),
                      Larger(ScaleOf(Common(p).value), ScaleOf(x)))
  {
    Kinds(p);
    Grown(p, x);
    Extremes(p);
    if AllSame(p, p[0]) {
      EqualListExtremes(p, p[0]);
    }
  }

  lemma {:induction false} SameCoversSameFirst(low: int, high: int, low': int, high': int, i: nat)
    requires i <= |INTEGERS|
    requires forall j :: i <= j < |INTEGERS| ==> (Covers(INTEGERS[j], low, high) <==> Covers(INTEGERS[j], low', high'))
    ensures FirstCovering(low, high, i) == FirstCovering(low', high', i)
    decreases |INTEGERS| - i
  {
    if i < |INTEGERS| {
      assert Covers(INTEGERS[i], low, high) <==> Covers(INTEGERS[i], low', high');
      SameCoversSameFirst(low, high, low', high', i + 1);
    }
  }

  lemma OwnRange(u: Dtype)
    requires IsInteger(u)
    ensures FirstCovering(Low(u), High(u), 0) == Some(u)
  {
    FirstCoveringIsFirst(Low(u), High(u), 0);
  }

  /** The common integer type is covered by exactly the types that cover the whole list. */
  lemma HullOf(p: seq<Dtype>)
    requires p != [] && Common(p).Some? && IsInteger(Common(p).value)
    ensures FirstCovering(Lowest(p), Highest(p), 0) == Common(p)
    ensures forall j :: 0 <= j < |INTEGERS| ==>
              (Covers(INTEGERS[j], Lowest(p), Highest(p)) <==>
               Covers(INTEGERS[j], Low(Common(p).value), High(Common(p).value)))
  {
    Kinds(p);
    var a, b := ExtremeTypes(p);
    if AllSame(p, p[0]) {
      EqualListExtremes(p, p[0]);
      OwnRange(p[0]);
    }
    FirstCoveringIsFirst(Lowest(p), Highest(p), 0);
    forall j | 0 <= j < |INTEGERS| && Covers(INTEGERS[j], Lowest(p), Highest(p))
      ensures Covers(INTEGERS[j], Low(Common(p).value), High(Common(p).value))
    {
      FirstIsContained(a, b, INTEGERS[j]);
    }
  }

  lemma IntegerStep(p: seq<Dtype>, x: Dtype)
    requires p != [] && Common(p).Some? && IsInteger(Common(p).value)
    ensures var u := Common(p).value;
            FirstCovering(Lowest(p + [x]), Highest(p + [x]), 0) ==
            FirstCovering(if Low(x) < Low(u) then Low(x) else Low(u), Larger(High(u), High(x)), 0)
  {
    var u := Common(p).value;
    Grown(p, x);
    HullOf(p);
    CoversWider(Lowest(p), Highest(p), Low(u), High(u), Low(x), High(x));
  }

  lemma CoversWider(low: int, high: int, low': int, high': int, a: int, b: int)
    requires forall j :: 0 <= j < |INTEGERS| ==> (Covers(INTEGERS[j], low, high) <==> Covers(INTEGERS[j], low', high'))
    ensures FirstCovering(if a < low then a else low, Larger(high, b), 0) ==
            FirstCovering(if a < low' then a else low', Larger(high', b), 0)
  {
    forall j | 0 <= j < |INTEGERS|
      ensures Covers(INTEGERS[j], if a < low then a else low, Larger(high, b)) <==>
              Covers(INTEGERS[j], if a < low' then a else low', Larger(high', b))
    {
      assert Covers(INTEGERS[j], low, high) <==> Covers(INTEGERS[j], low', high');
    }
    SameCoversSameFirst(if a < low then a else low, Larger(high, b), if a < low' then a else low', Larger(high', b), 0);
  }

  lemma WithinHull(p: seq<Dtype>, limit: int)
    requires p != [] && Common(p).Some? && IsInteger(Common(p).value) && WithinLimit(Common(p).value, limit)
    ensures AllWithin(p, limit)
  {
    Kinds(p);
    Extremes(p);
    if !AllSame(p, p[0]) { FirstCoveringIsFirst(Lowest(p), Highest(p), 0); }
  }

  /** How the tests of `Common` on a longer list follow from those on the shorter one. */
  lemma AppendedTests(p: seq<Dtype>, x: Dtype, limit: int)
    requires p != []
    ensures var q := p + [x];
            && q[0] == p[0]
            && (AllSame(q, q[0]) <==> AllSame(p, p[0]) && x == p[0])
            && (AllDecimal(q) <==> AllDecimal(p) && x.Decimal?)
            && (AllSized(q) <==> AllSized(p) && IsSized(x))
            && (AllIntegers(q) <==> AllIntegers(p) && IsInteger(x))
            && (AllFloats(q) <==> AllFloats(p) && IsFloat(x))
            && (AllNumbers(q) <==> AllNumbers(p) && (IsInteger(x) || IsFloat(x)))
            && (AllWithin(q, limit) <==> AllWithin(p, limit) && WithinLimit(x, limit))
            && (Float64 in q <==> Float64 in p || x == Float64)
  {
    var q := p + [x];
    assert p[0] in p && q[|p|] == x && x in q;
    forall y ensures y in q <==> y in p || y == x {
      if y in p { var i :| 0 <= i < |p| && p[i] == y; assert q[i] == y; }
    }
  }

  /** A list of integers meets a float. */
  lemma IntegersThenFloat(p: seq<Dtype>, x: Dtype)
    requires p != [] && Common(p).Some? && IsInteger(Common(p).value) && IsFloat(x)
    requires WithinLimit(Common(p).value, ExactLimit(x))
    ensures Common(p + [x]) == Some(x)
  {
    Kinds(p);
    WithinHull(p, ExactLimit(x));
    AppendedTests(p, x, ExactLimit(x));
    assert p[0] in p;
  }

  lemma NumbersWithin(q: seq<Dtype>)
    requires AllNumbers(q) && !AllIntegers(q) && AllWithin(q, ExactLimit(FloatFor(q)))
    ensures Common(q) == Some(FloatFor(q))
  {
    var a :| a in q && !IsInteger(a);
    assert q[0] in q;
    if AllFloats(q) {
      FloatsAlone(q);
    } else {
      var b :| b in q && !IsFloat(b);
      assert a.Float32? || a.Float64?;
    }
  }

  /** What a float and another type have in common. */
  lemma FloatPair(u: Dtype, x: Dtype)
    requires IsFloat(u) && Common([u, x]).Some?
    ensures var t := if u == Float64 || x == Float64 then Float64 else Float32;
            && Common([u, x]) == Some(t) && (IsInteger(x) || IsFloat(x)) && WithinLimit(x, ExactLimit(t))
  {
    Pair(u, x);
  }

  /** A list whose common type is a float meets a float or an integer. */
  lemma FloatsThenAny(p: seq<Dtype>, x: Dtype)
    requires p != [] && Common(p).Some? && IsFloat(Common(p).value)
    requires Common([Common(p).value, x]).Some?
    ensures Common(p + [x]) == Common([Common(p).value, x])
  {
    var u := Common(p).value;
    Kinds(p);
    FloatPair(u, x);
    var t := Common([u, x]).value;
    LimitsGrow(p, u, t);
    AppendedTests(p, x, ExactLimit(t));
    assert !AllIntegers(p) by { if AllIntegers(p) { IntegersHaveIntegerType(p); } }
    NumbersWithin(p + [x]);
  }

  lemma LimitsGrow(p: seq<Dtype>, u: Dtype, t: Dtype)
    requires AllWithin(p, ExactLimit(u)) && ExactLimit(u) <= ExactLimit(t)
    ensures AllWithin(p, ExactLimit(t))
  {
  }

  lemma FoldStep(p: seq<Dtype>, x: Dtype)
    requires p != [] && Common(p).Some? && Common([Common(p).value, x]).Some?
    requires AllWellSized(p) && WellSized(x)
    ensures Common(p + [x]) == Common([Common(p).value, x])
  {
    var u := Common(p).value;
    Kinds(p);
    Pair(u, x);
    if IsFloat(u) {
      FloatsThenAny(p, x);
    } else if IsFloat(x) {
      IntegersThenFloat(p, x);
    } else {
      AppendedTests(p, x, 0);
      if IsInteger(u) {
        IntegerStep(p, x);
        if u == x { OwnRange(u); }
      } else if IsSized(u) {
        DecimalStep(p, x);
        Extremes(p);
      }
    }
  }

  /** Whenever writing batch by batch settles on a type, finalizing all batches at once picks the same. */
  lemma {:induction false} FoldAgreesWithCommon(types: seq<Dtype>)
    requires Folded(types).Some? && AllWellSized(types)
    ensures Common(types) == Folded(types)
  {
    if |types| > 1 {
      var p, x := types[..|types| - 1], types[|types| - 1];
      assert types == p + [x];
      FoldAgreesWithCommon(p);
      FoldStep(p, x);
    }
  }

  // ----- Exactly when batch by batch works -----

  /** A float that follows integers only can hold everything those were widened to. */
  predicate FloatFollowsWell(p: seq<Dtype>, x: Dtype) {
    IsFloat(x) && AllIntegers(p) && Common(p).Some? ==> WithinLimit(Common(p).value, ExactLimit(x))
  }

  lemma FloatsBack(p: seq<Dtype>, x: Dtype)
    requires p != [] && Common(p).Some? && IsFloat(Common(p).value) && Common(p + [x]).Some?
    ensures Common([Common(p).value, x]).Some?
  {
    var u := Common(p).value;
    var kept := IsFloat(x) || (IsInteger(x) && WithinLimit(x, ExactLimit(u)));
    assert kept by {
      Kinds(p);
      assert p[0] in p;
      AppendedTests(p, x, ExactLimit(FloatFor(p + [x])));
      assert IsInteger(x) ==> FloatFor(p + [x]) == u;
    }
    Pair(u, x);
  }

  lemma SizedBack(p: seq<Dtype>, x: Dtype)
    requires p != [] && Common(p).Some? && IsSized(Common(p).value) && Common(p + [x]).Some?
    requires AllWellSized(p) && WellSized(x)
    ensures Common([Common(p).value, x]).Some?
  {
    var u := Common(p).value;
    Kinds(p);
    Pair(u, x);
    assert p[0] in p;
    AppendedTests(p, x, 0);
    if IsSized(x) { DecimalStep(p, x); }
  }

  lemma IntegersBack(p: seq<Dtype>, x: Dtype)
    requires p != [] && Common(p).Some? && IsInteger(Common(p).value) && Common(p + [x]).Some?
    requires FloatFollowsWell(p, x)
    ensures Common([Common(p).value, x]).Some?
  {
    var u := Common(p).value;
    Kinds(p);
    Pair(u, x);
    assert p[0] in p;
    AppendedTests(p, x, ExactLimit(FloatFor(p + [x])));
    if IsInteger(x) { IntegerStep(p, x); }
  }

  /** What one more batch needs. */
  lemma FoldStepExactly(p: seq<Dtype>, x: Dtype)
    requires p != [] && Common(p).Some? && AllWellSized(p) && WellSized(x)
    ensures Common([Common(p).value, x]).Some? <==> Common(p + [x]).Some? && FloatFollowsWell(p, x)
  {
    var u := Common(p).value;
    Kinds(p);
    Pair(u, x);
    if Common([u, x]).Some? {
      FoldStep(p, x);
      if AllIntegers(p) { IntegersHaveIntegerType(p); }
    } else if Common(p + [x]).Some? && FloatFollowsWell(p, x) {
      if IsFloat(u) {
        FloatsBack(p, x);
      } else if IsInteger(u) {
        IntegersBack(p, x);
      } else if IsSized(u) {
        SizedBack(p, x);
      } else {
        assert p[0] in p;
        AppendedTests(p, x, 0);
      }
    }
  }

  lemma IntegersHaveIntegerType(p: seq<Dtype>)
    requires p != [] && Common(p).Some? && AllIntegers(p)
    ensures IsInteger(Common(p).value)
  {
    assert p[0] in p;
    if !AllSame(p, p[0]) { FirstCoveringIsFirst(Lowest(p), Highest(p), 0); }
  }

  /** The first `k` types have a common type, and a float after them follows well. */
  predicate FoldsAt(types: seq<Dtype>, k: nat)
    requires 1 <= k <= |types|
  {
    Common(types[..k]).Some? && (k < |types| ==> FloatFollowsWell(types[..k], types[k]))
  }

  /** Every first part of the list has a common type, and floats follow well. */
  predicate FoldsWell(types: seq<Dtype>) {
    forall k :: 1 <= k <= |types| ==> FoldsAt(types, k)
  }

  lemma FoldsAtOn(p: seq<Dtype>, x: Dtype, k: nat)
    requires 1 <= k < |p|
    ensures FoldsAt(p + [x], k) <==> FoldsAt(p, k)
  {
    assert (p + [x])[..k] == p[..k];
  }

  lemma FoldsAtEnd(p: seq<Dtype>)
    requires p != []
    ensures FoldsAt(p, |p|) <==> Common(p).Some?
  {
    assert p[..|p|] == p;
  }

  lemma FoldsAtLast(p: seq<Dtype>, x: Dtype)
    requires p != []
    ensures FoldsAt(p + [x], |p|) <==> Common(p).Some? && FloatFollowsWell(p, x)
  {
    assert (p + [x])[..|p|] == p;
  }

  /** What one more type needs. */
  lemma FoldsBefore(p: seq<Dtype>, x: Dtype)
    requires p != [] && FoldsWell(p + [x])
    ensures FoldsWell(p) && Common(p + [x]).Some? && FloatFollowsWell(p, x)
  {
    assert FoldsAt(p + [x], |p|) && FoldsAt(p + [x], |p| + 1);
    FoldsAtLast(p, x);
    FoldsAtEnd(p + [x]);
    forall k | 1 <= k <= |p| ensures FoldsAt(p, k) {
      if k < |p| { FoldsAtOn(p, x, k); } else { FoldsAtEnd(p); }
    }
  }

  lemma FoldsAfter(p: seq<Dtype>, x: Dtype)
    requires p != [] && FoldsWell(p) && Common(p + [x]).Some? && FloatFollowsWell(p, x)
    ensures FoldsWell(p + [x])
  {
    assert FoldsAt(p, |p|);
    FoldsAtEnd(p);
    FoldsAtLast(p, x);
    FoldsAtEnd(p + [x]);
    forall k | 1 <= k <= |p| + 1 ensures FoldsAt(p + [x], k) {
      if k < |p| { FoldsAtOn(p, x, k); }
    }
  }

  /**
   Combining batch by batch succeeds exactly when every first part of the batches has a common type
   and no float column arrives after integers that were widened past what it holds.
   */
  lemma {:induction false} FoldSucceedsExactlyWhen(types: seq<Dtype>)
    requires types != [] && AllWellSized(types)
    ensures Folded(types).Some? <==> FoldsWell(types)
    decreases |types|
  {
    if |types| == 1 {
      FoldsOne(types);
    } else {
      var p, x := types[..|types| - 1], types[|types| - 1];
      assert types == p + [x];
      assert forall t :: t in p ==> t in types;
      FoldSucceedsExactlyWhen(p);
      FoldedOn(p, x);
      if FoldsWell(p + [x]) {
        FoldsBefore(p, x);
      } else if Folded(p + [x]).Some? {
        FoldsAfter(p, x);
      }
    }
  }

  lemma FoldsOne(types: seq<Dtype>)
    requires |types| == 1
    ensures Folded(types).Some? && FoldsWell(types)
  {
    assert types[..1] == types && types[0] in types;
    assert AllSame(types, types[0]);
    assert FoldsAt(types, 1);
  }

  lemma FoldedOn(p: seq<Dtype>, x: Dtype)
    requires p != [] && AllWellSized(p) && WellSized(x)
    ensures Folded(p + [x]).Some? <==> Folded(p).Some? && Common(p + [x]).Some? && FloatFollowsWell(p, x)
  {
    assert (p + [x])[..|p|] == p;
    if Folded(p).Some? {
      FoldAgreesWithCommon(p);
      FoldStepExactly(p, x);
    }
  }

  /** Two integer types widen past what a later float batch can hold, which all at once they do not. */
  lemma FoldCanRefuseWhatCommonAccepts()
    ensures Folded([Int16, UInt16, Float32]).None? && Common([Int16, UInt16, Float32]) == Some(Float32)
  {
    var types := [Int16, UInt16, Float32];
    assert types[..2] == [Int16, UInt16] && [Int16, UInt16][..1] == [Int16];
    Pair(Int16, UInt16);
    FirstCoveringIsFirst(-0x8000, 0xffff, 0);
    Pair(Int32, Float32);
    assert Int16 in types && UInt16 in types && Float32 in types;
  }

  // ----- Whole schemas -----

  type Schema = seq<(string, Dtype)>

  predicate SameNames(a: Schema, b: Schema) {
    |a| == |b| && forall c :: 0 <= c < |a| ==> a[c].0 == b[c].0
  }

  predicate SameColumns(schemas: seq<Schema>) {
    forall i :: 0 <= i < |schemas| ==> SameNames(schemas[i], schemas[0])
  }

  lemma AgreeExactly(schemas: seq<Schema>)
    ensures SameColumns(schemas) <==> NamesAgree(schemas)
  {
    assert SameColumns(schemas) ==> forall i :: 0 <= i < |schemas| ==> SameNames(schemas[i], schemas[0]);
    forall i | 0 <= i < |schemas| && NamesAgree(schemas) ensures SameNames(schemas[i], schemas[0]) {}
  }

  function TypesAt(schemas: seq<Schema>, c: nat): (types: seq<Dtype>)
    requires forall i :: 0 <= i < |schemas| ==> c < |schemas[i]|
    ensures |types| == |schemas| && forall i :: 0 <= i < |schemas| ==> types[i] == schemas[i][c].1
  {
    seq(|schemas|, i requires 0 <= i < |schemas| => schemas[i][c].1)
  }

  /** A value profile overrides the declared sizes of a decimal column. */
  function ColumnType(types: seq<Dtype>, profiles: FoundryProfiles.Profiles, column: string): Option<Dtype> {
    if column in profiles && AllDecimal(types) then DecimalOf(profiles[column].digits, profiles[column].scale)
    else Common(types)
  }

  /** Every schema has the columns of the first, in its order. */
  ghost predicate NamesAgree(schemas: seq<Schema>) {
    forall i :: 0 <= i < |schemas| ==>
      && |schemas[i]| == |schemas[0]|
      && forall c :: 0 <= c < |schemas[i]| ==> schemas[i][c].0 == schemas[0][c].0
  }

  /** `_lossless_common_schema`: same columns in the same order, and a common type for each. */
  method CommonSchema(schemas: seq<Schema>, profiles: FoundryProfiles.Profiles) returns (common: Option<Schema>)
    ensures schemas == [] || !NamesAgree(schemas) ==> common.None?
    ensures schemas != [] && NamesAgree(schemas) ==>
              (common.Some? <==> forall c :: 0 <= c < |schemas[0]| ==>
                                   ColumnType(TypesAt(schemas, c), profiles, schemas[0][c].0).Some?)
    ensures common.Some? ==>
              && schemas != [] && NamesAgree(schemas) && |common.value| == |schemas[0]|
              && forall c :: 0 <= c < |schemas[0]| ==>
                   common.value[c].0 == schemas[0][c].0
                   && Some(common.value[c].1) == ColumnType(TypesAt(schemas, c), profiles, schemas[0][c].0)
  {
    if schemas == [] {
      return None;
    }
    var columns := schemas[0];
    AgreeExactly(schemas);
    if !SameColumns(schemas) {
      return None;
    }
    var result: Schema := [];
    var c := 0;
    while c < |columns|
      invariant 0 <= c <= |columns| && |result| == c
      invariant forall d :: 0 <= d < c ==>
                  result[d].0 == columns[d].0
                  && Some(result[d].1) == ColumnType(TypesAt(schemas, d), profiles, columns[d].0)
    {
      var dataType := ColumnType(TypesAt(schemas, c), profiles, columns[c].0);
      if dataType.None? {
        return None;
      }
      result := result + [(columns[c].0, dataType.value)];
      c := c + 1;
    }
    return Some(result);
  }

  /** A profiled column is published losslessly: its type holds every value of every batch. */
  lemma ProfiledColumnIsLossless(frames: seq<FoundryProfiles.Frame>, f: nat, column: string, i: nat, types: seq<Dtype>)
    requires f < |frames| && column in frames[f] && frames[f][column].DecimalColumn?
    requires i < |frames[f][column].values| && frames[f][column].values[i].Some?
    requires AllDecimal(types) && ColumnType(types, FoundryProfiles.ProfilesOf(frames), column).Some?
    requires column in FoundryProfiles.ProfilesOf(frames)
    ensures var t := ColumnType(types, FoundryProfiles.ProfilesOf(frames), column).value;
            && IsSized(t)
            && Fits(Multiple(frames[f][column].values[i].value, frames[f][column].scale),
                    t.precision.value, t.scale.value)
  {
    var wide := FoundryProfiles.ProfilesOf(frames)[column];
    var c := frames[f][column];
    var n := Multiple(c.values[i].value, c.scale);
    ProfileGivesType(types, FoundryProfiles.ProfilesOf(frames), column);
    assert Fits(n, Larger(1, wide.digits + wide.scale), wide.scale) by {
      FoundryProfiles.MergedTypeHoldsEverything(frames, f, column, i);
    }
  }

  lemma ProfileGivesType(types: seq<Dtype>, profiles: FoundryProfiles.Profiles, column: string)
    requires AllDecimal(types) && column in profiles && ColumnType(types, profiles, column).Some?
    ensures var wide, t := profiles[column], ColumnType(types, profiles, column).value;
            IsSized(t) && t.precision.value == Larger(1, wide.digits + wide.scale) && t.scale.value == wide.scale
  {
  }
}
