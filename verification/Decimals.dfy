/**
 When a decimal number is stored exactly by Decimal(precision, scale).  A number is
 `coefficient * 10^exponent`; the type stores the multiples of `10^-scale` whose
 multiplier has at most `precision` digits.
 */
module Decimals {

  datatype Number = Number(coefficient: int, exponent: int)

  function Pow10(n: nat): (r: nat)
    ensures r >= 1
  {
    if n == 0 then 1 else 10 * Pow10(n - 1)
  }

  function Abs(n: int): nat { if n < 0 then -n else n }

  function Larger(a: int, b: int): int { if a < b then b else a }

  /** `m * 10^-scale` is the value of `n`. */
  predicate Scaled(n: Number, scale: nat, m: int) {
    if n.exponent + scale >= 0 then m == n.coefficient * Pow10(n.exponent + scale)
    else n.coefficient == m * Pow10(-(n.exponent + scale))
  }

  /** Decimal(precision, scale) stores `n` without rounding. */
  ghost predicate Fits(n: Number, precision: nat, scale: nat) {
    exists m :: Scaled(n, scale, m) && Abs(m) < Pow10(precision)
  }

  /** How many decimal digits `n` is written with; zero is written with one. */
  function Digits(n: nat): nat {
    if n < 10 then 1 else 1 + Digits(n / 10)
  }

  // ----- Powers and digits -----

  lemma {:induction false} Pow10Adds(a: nat, b: nat)
    ensures Pow10(a + b) == Pow10(a) * Pow10(b)
  {
    if a > 0 { Pow10Adds(a - 1, b); }
  }

  lemma {:induction false} Pow10Grows(a: nat, b: nat)
    requires a <= b
    ensures Pow10(a) <= Pow10(b) && (a < b ==> 10 * Pow10(a) <= Pow10(b))
  {
    if a < b { Pow10Grows(a, b - 1); }
  }

  lemma {:induction false} DigitsBound(n: nat)
    ensures n < Pow10(Digits(n))
    ensures n > 0 ==> Pow10(Digits(n) - 1) <= n
  {
    if n >= 10 { DigitsBound(n / 10); }
  }

  lemma {:induction false} DigitsMonotone(a: nat, b: nat)
    requires a <= b
    ensures Digits(a) <= Digits(b)
  {
    if a >= 10 { DigitsMonotone(a / 10, b / 10); }
  }

  lemma MulBound(a: int, b: nat, p: nat)
    requires Abs(a) < b && p >= 1
    ensures Abs(a * p) == Abs(a) * p < b * p
  {
    assert (Abs(a) + 1) * p <= b * p;
  }

  /** What `Scaled` says, in whole numbers: `m * 10^-scale` is `c * 10^up / 10^down`. */
  lemma ScaledExactly(c: int, up: nat, down: nat, scale: nat, m: int)
    ensures Scaled(Number(c, up - down), scale, m) <==> m * Pow10(down) == c * Pow10(up + scale)
  {
    var shift := up - down + scale;
    if shift >= 0 {
      Pow10Adds(shift, down);
      CancelsUp(m, c, Pow10(shift), Pow10(down), Pow10(up + scale));
    } else {
      Pow10Adds(up + scale, 0 - shift);
      CancelsDown(m, c, Pow10(0 - shift), Pow10(down), Pow10(up + scale));
    }
  }

  lemma CancelsUp(m: int, c: int, factor: nat, down: nat, up: nat)
    requires up == factor * down && down >= 1
    ensures m == c * factor <==> m * down == c * up
  {
    Associates(c, factor, down);
    Cancels(m, c * factor, down);
  }

  lemma CancelsDown(m: int, c: int, factor: nat, down: nat, up: nat)
    requires down == up * factor && up >= 1
    ensures c == m * factor <==> m * down == c * up
  {
    Swaps(m, up, factor);
    Cancels(c, m * factor, up);
  }

  lemma Swaps(a: int, b: int, c: int)
    ensures a * (b * c) == (a * c) * b
  {
  }

  lemma Associates(a: int, b: int, c: int)
    ensures a * b * c == a * (b * c)
  {
  }

  lemma AtLeast(k: int, q: nat)
    requires k >= 1 && q >= 1
    ensures k * q >= q
  {
  }

  lemma StrictlyGrows(a: int, b: int, q: nat)
    requires a < b && q >= 1
    ensures a * q < b * q
  {
    AtLeast(b - a, q);
    assert b * q == a * q + (b - a) * q;
  }

  lemma Cancels(a: int, b: int, q: nat)
    requires q >= 1
    ensures a * q == b * q <==> a == b
  {
    if a < b { StrictlyGrows(a, b, q); } else if b < a { StrictlyGrows(b, a, q); }
  }

  // ----- Sufficient room -----

  /** Enough integer digits and enough scale hold a number written with `digits` digits. */
  lemma RoomSuffices(n: Number, digits: nat, integerDigits: nat, scale: nat)
    requires Abs(n.coefficient) < Pow10(digits)
    requires integerDigits >= digits + n.exponent && scale >= -n.exponent
    ensures Fits(n, integerDigits + scale, scale)
  {
    var shift := n.exponent + scale;
    var m := n.coefficient * Pow10(shift);
    MulBound(n.coefficient, Pow10(digits), Pow10(shift));
    Pow10Adds(digits, shift);
    Pow10Grows(digits + shift, integerDigits + scale);
    assert Scaled(n, scale, m);
  }

  // ----- Exactly enough room -----

  /** `m * 10^-scale`. */
  function Multiple(m: int, scale: nat): Number { Number(m, 0 - scale) }

  /** Decimal(precision, scale) values, as multipliers of `10^-scale`. */
  predicate InType(m: int, precision: nat) { Abs(m) < Pow10(precision) }

  /** Every value of Decimal(p, s) is stored exactly by Decimal(p', s'). */
  ghost predicate Embeds(p: nat, s: nat, p': nat, s': nat) {
    forall m :: InType(m, p) ==> Fits(Multiple(m, s), p', s')
  }

  /** The test the code uses: no less scale and no fewer integer digits. */
  predicate HasRoom(p: nat, s: nat, p': nat, s': nat) {
    s' >= s && p' - s' >= p - s
  }

  lemma Distributes(m: int, extra: nat, p: nat, p': nat)
    requires InType(m, p) && p + extra <= p'
    ensures Abs(m * Pow10(extra)) < Pow10(p')
  {
    MulBound(m, Pow10(p), Pow10(extra));
    Pow10Adds(p, extra);
    Pow10Grows(p + extra, p');
  }

  /** A decimal type embeds in another exactly when it has room there. */
  lemma EmbedsIffRoom(p: nat, s: nat, p': nat, s': nat)
    requires p >= 1
    ensures Embeds(p, s, p', s') <==> HasRoom(p, s, p', s')
  {
    if HasRoom(p, s, p', s') {
      forall m | InType(m, p) ensures Fits(Multiple(m, s), p', s') {
        Distributes(m, s' - s, p, p');
        assert Scaled(Multiple(m, s), s', m * Pow10(s' - s));
      }
    } else {
      NoRoomWitness(p, s, p', s');
    }
  }

  /** The value that does not fit: the smallest step, or the widest number. */
  function Witness(p: nat, s: nat, s': nat): int {
    if s' < s then 1 else Pow10(p) - 1
  }

  lemma NoRoomWitness(p: nat, s: nat, p': nat, s': nat)
    requires p >= 1 && !HasRoom(p, s, p', s')
    ensures InType(Witness(p, s, s'), p) && !Fits(Multiple(Witness(p, s, s'), s), p', s')
    ensures !Embeds(p, s, p', s')
  {
    Pow10Grows(1, p);
    if s' < s {
      forall m ensures !Scaled(Multiple(1, s), s', m) {
        Pow10Grows(1, s - s');
        if m * Pow10(s - s') == 1 { NoUnitFactor(m, Pow10(s - s')); }
      }
    } else {
      var w := Pow10(p) - 1;
      forall m | Scaled(Multiple(w, s), s', m) ensures !(Abs(m) < Pow10(p')) {
        assert m == w * Pow10(s' - s);
        Pow10Grows(0, p - 1);
        assert w >= Pow10(p - 1);
        Pow10Adds(p - 1, s' - s);
        assert w * Pow10(s' - s) >= Pow10(p - 1) * Pow10(s' - s);
        Pow10Grows(p', p - 1 + s' - s);
      }
    }
  }

  lemma NoUnitFactor(m: int, q: nat)
    requires q >= 2
    ensures m * q != 1
  {
    if m >= 1 { assert m * q >= q; } else { assert m * q <= 0; }
  }
}
