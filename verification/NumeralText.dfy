/**
 The texts of numerals: which texts the reader takes for numbers, and the value a text stands for,
 stated of its characters alone.
 */
module NumeralText {
  import opened Wrappers
  import opened Decimals
  import opened CsvProfile

  // ----- Digits -----

  ghost predicate AllDigits(s: string) { forall i :: 0 <= i < |s| ==> '0' <= s[i] <= '9' }

  function Figure(n: nat): char
    requires n < 10
  {
    "0123456789"[n]
  }

  lemma FigureReadsBack(n: nat)
    requires n < 10
    ensures DigitValue(Figure(n)) == n && '0' <= Figure(n) <= '9' && (Figure(n) == '0' <==> n == 0)
  {
  }

  lemma DigitPrintsBack(c: char)
    requires '0' <= c <= '9'
    ensures DigitValue(c) < 10 && Figure(DigitValue(c)) == c
  {
  }

  lemma OneDigitMore(s: string, c: char)
    ensures DigitsValue(s + [c]) == DigitsValue(s) * 10 + DigitValue(c)
  {
    assert (s + [c])[..|s|] == s;
  }

  /** A number as it is printed, without leading zeros. */
  function Printed(n: nat): string {
    if n < 10 then [Figure(n)] else Printed(n / 10) + [Figure(n % 10)]
  }

  /** Reading what was printed gives the number back. */
  lemma {:induction false} PrintedReadsBack(n: nat)
    ensures AllDigits(Printed(n)) && DigitsValue(Printed(n)) == n
    ensures Printed(n) != [] && (n > 0 ==> Printed(n)[0] != '0')
  {
    if n < 10 {
      FigureReadsBack(n);
      OneDigitMore([], Figure(n));
      assert [] + [Figure(n)] == Printed(n);
    } else {
      PrintedReadsBack(n / 10);
      FigureReadsBack(n % 10);
      OneDigitMore(Printed(n / 10), Figure(n % 10));
    }
  }

  /** Leading zeros do not count. */
  lemma {:induction false} ZerosDoNotCount(s: string)
    ensures DigitsValue("0" + s) == DigitsValue(s)
  {
    if s == [] {
      assert ("0" + s)[..0] == [];
    } else {
      var n := |s| - 1;
      assert ("0" + s)[..|"0" + s| - 1] == "0" + s[..n];
      ZerosDoNotCount(s[..n]);
    }
  }

  lemma PrintedOn(q: nat, r: nat)
    requires q > 0 && r < 10
    ensures Printed(q * 10 + r) == Printed(q) + [Figure(r)]
  {
    var n := q * 10 + r;
    assert n / 10 == q && n % 10 == r;
  }

  /** Printing what was read gives the digits back, unless they begin with a zero. */
  lemma {:induction false} ReadPrintsBack(s: string)
    requires AllDigits(s) && s != [] && (s[0] != '0' || |s| == 1)
    ensures Printed(DigitsValue(s)) == s
    ensures s[0] != '0' ==> DigitsValue(s) > 0
    decreases |s|
  {
    var init, last := s[..|s| - 1], s[|s| - 1];
    assert s == init + [last];
    if init == [] {
      OneDigitPrintsBack(last);
      assert s == [last];
    } else {
      ReadPrintsBack(init);
      OneMorePrintsBack(init, last);
    }
  }

  lemma OneDigitPrintsBack(c: char)
    requires '0' <= c <= '9'
    ensures Printed(DigitsValue([c])) == [c] && (c != '0' ==> DigitsValue([c]) > 0)
  {
    assert [] + [c] == [c] && DigitsValue([]) == 0;
    OneDigitMore([], c);
    DigitPrintsBack(c);
  }

  lemma OneMorePrintsBack(init: string, last: char)
    requires '0' <= last <= '9' && Printed(DigitsValue(init)) == init && DigitsValue(init) > 0
    ensures Printed(DigitsValue(init + [last])) == init + [last] && DigitsValue(init + [last]) > 0
  {
    OneDigitMore(init, last);
    DigitPrintsBack(last);
    PrintedOn(DigitsValue(init), DigitValue(last));
  }

  // ----- Texts -----

  /** The parts a number is written in; `turn` and `power` are the exponent's sign and digits. */
  datatype Text = Text(sign: string, whole: string, point: string, fraction: string,
                       mark: string, turn: string, power: string)

  ghost predicate WellWritten(t: Text) {
    && (t.sign == "" || t.sign == "+" || t.sign == "-")
    && AllDigits(t.whole) && AllDigits(t.fraction) && AllDigits(t.power)
    && (t.point == "" || t.point == ".") && (t.point == "" ==> t.fraction == "")
    && (t.mark == "" || t.mark == "e" || t.mark == "E") && (t.mark == "" <==> t.power == "")
    && (t.turn == "" || t.turn == "+" || t.turn == "-") && (t.mark == "" ==> t.turn == "")
  }

  /** The exponent part. */
  function Tail(t: Text): string { t.mark + (t.turn + t.power) }

  /** What follows the whole digits. */
  function Rest(t: Text): string { t.point + (t.fraction + Tail(t)) }

  function Written(t: Text): string { t.sign + (t.whole + Rest(t)) }

  /** The digits on both sides of the point, with the sign. */
  function SignedDigits(t: Text): int {
    var digits := DigitsValue(t.whole + t.fraction);
    if t.sign == "-" then 0 - digits else digits
  }

  /** `m * 10^-scale` is the value of the text, in whole numbers. */
  ghost predicate IsValue(t: Text, scale: nat, m: int) {
    var signed := SignedDigits(t);
    if t.turn == "-" then m * Pow10(|t.fraction| + DigitsValue(t.power)) == signed * Pow10(scale)
    else m * Pow10(|t.fraction|) == signed * Pow10(DigitsValue(t.power) + scale)
  }

  // ----- Reading a text -----

  lemma {:induction false} RunOf(digits: string, rest: string)
    requires AllDigits(digits) && (rest == [] || !IsDigit(rest[0]))
    ensures Run(digits + rest) == |digits|
  {
    if digits == [] {
      assert digits + rest == rest;
    } else {
      assert (digits + rest)[1..] == digits[1..] + rest;
      RunOf(digits[1..], rest);
    }
  }

  lemma UnsignedOf(sign: string, rest: string)
    requires sign == "" || sign == "+" || sign == "-"
    requires sign == "" ==> !IsSign(rest)
    ensures Unsigned(sign + rest) == rest
    ensures (sign + rest != [] && (sign + rest)[0] == '-') <==> sign == "-"
  {
    if sign == "" {
      assert sign + rest == rest;
    } else {
      assert (sign + rest)[1..] == rest;
    }
  }

  lemma DigitsNoSign(digits: string, rest: string)
    requires AllDigits(digits) && !IsSign(rest)
    ensures !IsSign(digits + rest)
  {
    if digits == [] { assert digits + rest == rest; }
  }

  lemma PowerRead(turn: string, power: string)
    requires turn == "" || turn == "+" || turn == "-"
    requires AllDigits(power) && power != []
    ensures ReadExponent(turn + power) ==
            Some(if turn == "-" then 0 - DigitsValue(power) else DigitsValue(power))
  {
    DigitsNoSign(power, []);
    assert power + [] == power;
    UnsignedOf(turn, power);
  }

  function Power(t: Text): int { if t.turn == "-" then 0 - DigitsValue(t.power) else DigitsValue(t.power) }

  lemma RunSplits(digits: string, rest: string)
    requires AllDigits(digits) && (rest == [] || !IsDigit(rest[0]))
    ensures var body := digits + rest; body[..Run(body)] == digits && body[Run(body)..] == rest
  {
    RunOf(digits, rest);
  }

  lemma RestBegins(t: Text)
    requires WellWritten(t)
    ensures Rest(t) != [] && Rest(t)[0] == '.' <==> t.point == "."
    ensures t.point == "." ==> Rest(t)[1..] == t.fraction + Tail(t)
    ensures t.point == "" ==> Rest(t) == Tail(t)
    ensures Rest(t) == [] || (!IsDigit(Rest(t)[0]) && !IsSign(Rest(t)))
  {
    TailBegins(t);
    if t.point == "." {
      assert Rest(t)[1..] == t.fraction + Tail(t);
    } else {
      assert t.fraction + Tail(t) == Tail(t) && Rest(t) == Tail(t);
    }
  }

  lemma MarkedTailIsRead(negative: bool, whole: string, point: bool, fraction: string, tail: string, exponent: string)
    requires tail != [] && (tail[0] == 'e' || tail[0] == 'E') && tail[1..] == exponent
    requires ReadExponent(exponent).Some?
    ensures ReadTail(negative, whole, point, fraction, tail) ==
            Some(Numeral(negative, whole, point, fraction, true, ReadExponent(exponent).value))
  {
  }

  lemma TailBegins(t: Text)
    requires WellWritten(t)
    ensures Tail(t) == [] <==> t.mark == ""
    ensures t.mark != "" ==> (Tail(t)[0] == 'e' || Tail(t)[0] == 'E') && Tail(t)[1..] == t.turn + t.power
  {
    if t.mark != "" { assert Tail(t)[1..] == t.turn + t.power; }
  }

  lemma NoTailIsRead(t: Text)
    requires WellWritten(t) && t.mark == ""
    ensures ReadTail(t.sign == "-", t.whole, t.point == ".", t.fraction, Tail(t)) ==
            Some(Numeral(t.sign == "-", t.whole, t.point == ".", t.fraction, false, 0))
  {
    TailBegins(t);
  }

  lemma PowerTailIsRead(negative: bool, whole: string, point: bool, fraction: string,
                        mark: string, turn: string, power: string)
    requires (mark == "e" || mark == "E") && (turn == "" || turn == "+" || turn == "-")
    requires AllDigits(power) && power != ""
    ensures ReadTail(negative, whole, point, fraction, mark + (turn + power)) ==
            Some(Numeral(negative, whole, point, fraction, true,
                         if turn == "-" then 0 - DigitsValue(power) else DigitsValue(power)))
  {
    var tail := mark + (turn + power);
    assert tail[0] == mark[0] && tail[1..] == turn + power;
    PowerRead(turn, power);
    MarkedTailIsRead(negative, whole, point, fraction, tail, turn + power);
  }

  lemma FractionIsRead(t: Text)
    requires WellWritten(t)
    ensures ReadFraction(t.sign == "-", t.whole, Rest(t)) ==
            ReadTail(t.sign == "-", t.whole, t.point == ".", t.fraction, Tail(t))
  {
    RestBegins(t);
    TailBegins(t);
    if t.point == "." { RunSplits(t.fraction, Tail(t)); }
  }

  lemma SignIsRead(sign: string, body: string)
    requires (sign == "" && !IsSign(body)) || sign == "+" || sign == "-"
    ensures ReadNumeral(sign + body) == ReadFraction(sign == "-", body[..Run(body)], body[Run(body)..])
  {
    UnsignedOf(sign, body);
  }

  lemma WholeIsRead(t: Text)
    requires WellWritten(t)
    ensures ReadNumeral(Written(t)) == ReadFraction(t.sign == "-", t.whole, Rest(t))
  {
    RestBegins(t);
    DigitsNoSign(t.whole, Rest(t));
    SignIsRead(t.sign, t.whole + Rest(t));
    RunSplits(t.whole, Rest(t));
  }

  lemma HalfIsRead(t: Text)
    requires WellWritten(t)
    ensures ReadNumeral(Written(t)) == ReadTail(t.sign == "-", t.whole, t.point == ".", t.fraction, Tail(t))
  {
    WholeIsRead(t);
    FractionIsRead(t);
  }

  lemma OtherHalfIsRead(t: Text)
    requires WellWritten(t)
    ensures ReadTail(t.sign == "-", t.whole, t.point == ".", t.fraction, Tail(t)) ==
            Some(Numeral(t.sign == "-", t.whole, t.point == ".", t.fraction, t.mark != "", Power(t)))
  {
    if t.mark == "" {
      NoTailIsRead(t);
    } else {
      PowerTailIsRead(t.sign == "-", t.whole, t.point == ".", t.fraction, t.mark, t.turn, t.power);
    }
  }

  /** The reader splits a text into the parts it was written in. */
  lemma TextIsRead(t: Text)
    requires WellWritten(t)
    ensures ReadNumeral(Written(t)) ==
            Some(Numeral(t.sign == "-", t.whole, t.point == ".", t.fraction, t.mark != "", Power(t)))
  {
    HalfIsRead(t);
    OtherHalfIsRead(t);
  }

  lemma {:induction false} RunIsDigits(s: string)
    ensures AllDigits(s[..Run(s)])
  {
    if s != [] && IsDigit(s[0]) {
      RunIsDigits(s[1..]);
      assert s[..Run(s)] == [s[0]] + s[1..][..Run(s[1..])];
    }
  }

  function SignOf(s: string): string { if IsSign(s) then s[..1] else "" }

  lemma SignSplits(s: string)
    ensures SignOf(s) + Unsigned(s) == s
    ensures SignOf(s) == "" || SignOf(s) == "+" || SignOf(s) == "-"
  {
    if IsSign(s) { assert s == [s[0]] + s[1..]; }
  }

  lemma PowerIsText(s: string)
    requires ReadExponent(s).Some?
    ensures AllDigits(Unsigned(s)) && Unsigned(s) != ""
  {
  }

  lemma TailIsText(negative: bool, whole: string, point: bool, fraction: string, tail: string)
    returns (mark: string, turn: string, power: string)
    requires ReadTail(negative, whole, point, fraction, tail).Some?
    ensures mark + (turn + power) == tail && AllDigits(power)
    ensures mark == "" || mark == "e" || mark == "E"
    ensures (mark == "" <==> power == "") && (mark == "" ==> turn == "")
    ensures turn == "" || turn == "+" || turn == "-"
  {
    if tail == [] {
      return "", "", "";
    }
    mark, turn, power := tail[..1], SignOf(tail[1..]), Unsigned(tail[1..]);
    SignSplits(tail[1..]);
    PowerIsText(tail[1..]);
    assert mark == [tail[0]] && tail == mark + tail[1..];
  }

  lemma Assembled(whole: string, point: string, fraction: string, tail: string,
                  mark: string, turn: string, power: string) returns (t: Text)
    requires AllDigits(whole) && AllDigits(fraction) && AllDigits(power)
    requires (point == "" && fraction == "") || point == "."
    requires mark + (turn + power) == tail
    requires mark == "" || mark == "e" || mark == "E"
    requires (mark == "" <==> power == "") && (mark == "" ==> turn == "")
    requires turn == "" || turn == "+" || turn == "-"
    ensures WellWritten(t) && t.sign == "" && t.whole == whole && Rest(t) == point + (fraction + tail)
  {
    t := Text("", whole, point, fraction, mark, turn, power);
  }

  lemma PointIsText(negative: bool, whole: string, fraction: string, tail: string) returns (t: Text)
    requires ReadTail(negative, whole, true, fraction, tail).Some? && AllDigits(whole) && AllDigits(fraction)
    ensures WellWritten(t) && t.whole == whole && Rest(t) == "." + (fraction + tail)
  {
    var mark, turn, power := TailIsText(negative, whole, true, fraction, tail);
    t := Assembled(whole, ".", fraction, tail, mark, turn, power);
  }

  lemma Joins(s: string, k: nat)
    requires k <= |s|
    ensures s[..k] + s[k..] == s
  {
  }

  lemma FractionIsText(negative: bool, whole: string, rest: string) returns (t: Text)
    requires ReadFraction(negative, whole, rest).Some? && AllDigits(whole)
    ensures WellWritten(t) && t.whole == whole && Rest(t) == rest
  {
    if rest != [] && rest[0] == '.' {
      RunIsDigits(rest[1..]);
      Joins(rest[1..], Run(rest[1..]));
      t := PointIsText(negative, whole, rest[1..][..Run(rest[1..])], rest[1..][Run(rest[1..])..]);
      assert rest == "." + rest[1..];
    } else {
      var mark, turn, power := TailIsText(negative, whole, false, [], rest);
      t := Assembled(whole, "", "", rest, mark, turn, power);
      assert "" + ("" + rest) == rest;
    }
  }

  lemma Signed(t: Text, sign: string)
    requires WellWritten(t) && (sign == "" || sign == "+" || sign == "-")
    ensures WellWritten(t.(sign := sign)) && Written(t.(sign := sign)) == sign + (t.whole + Rest(t))
  {
  }

  lemma BodyIsText(negative: bool, body: string) returns (t: Text)
    requires ReadFraction(negative, body[..Run(body)], body[Run(body)..]).Some?
    ensures WellWritten(t) && t.whole + Rest(t) == body
  {
    RunIsDigits(body);
    Joins(body, Run(body));
    t := FractionIsText(negative, body[..Run(body)], body[Run(body)..]);
  }

  /** What the reader takes is the text of a number. */
  lemma OnlyTextsAreRead(s: string) returns (t: Text)
    requires ReadNumeral(s).Some?
    ensures WellWritten(t) && Written(t) == s
  {
    t := BodyIsText(s != [] && s[0] == '-', Unsigned(s));
    SignSplits(s);
    Signed(t, SignOf(s));
    t := t.(sign := SignOf(s));
  }

  // ----- Its value -----

  lemma DenotedOf(t: Text)
    requires WellWritten(t)
    ensures ReadNumeral(Written(t)).Some?
    ensures Denoted(ReadNumeral(Written(t)).value) == Number(SignedDigits(t), Power(t) - |t.fraction|)
  {
    TextIsRead(t);
  }

  /** The number read is the value of the text, at every scale. */
  lemma ReadHasTheValue(t: Text, scale: nat, m: int)
    requires WellWritten(t)
    ensures ReadNumeral(Written(t)).Some?
    ensures Scaled(Denoted(ReadNumeral(Written(t)).value), scale, m) <==> IsValue(t, scale, m)
  {
    DenotedOf(t);
    ValueScaled(t, scale, m);
  }

  lemma ValueScaled(t: Text, scale: nat, m: int)
    ensures Scaled(Number(SignedDigits(t), Power(t) - |t.fraction|), scale, m) <==> IsValue(t, scale, m)
  {
    if t.turn == "-" {
      ScaledExactly(SignedDigits(t), 0, |t.fraction| + DigitsValue(t.power), scale, m);
    } else {
      ScaledExactly(SignedDigits(t), DigitsValue(t.power), |t.fraction|, scale, m);
    }
  }

  /** Decimal(precision, scale) stores the value of the text exactly. */
  ghost predicate Stores(precision: nat, scale: nat, t: Text) {
    exists m :: IsValue(t, scale, m) && Abs(m) < Pow10(precision)
  }

  lemma FitsIsStores(t: Text, precision: nat, scale: nat)
    requires WellWritten(t)
    ensures ReadNumeral(Written(t)).Some?
    ensures Fits(Denoted(ReadNumeral(Written(t)).value), precision, scale) <==> Stores(precision, scale, t)
  {
    TextIsRead(t);
    forall m ensures Scaled(Denoted(ReadNumeral(Written(t)).value), scale, m) <==> IsValue(t, scale, m) {
      ReadHasTheValue(t, scale, m);
    }
  }

  // ----- Which texts are which numbers -----

  /** A leading zero in front of another digit. */
  ghost predicate Padded(t: Text) { |t.whole| > 1 && t.whole[0] == '0' }

  ghost predicate WholeText(t: Text) { t.point == "" && t.mark == "" && t.whole != "" }

  ghost predicate DecimalText(t: Text) {
    (t.point == "." && (t.whole != "" || t.fraction != "")) || (t.point == "" && t.mark != "" && t.whole != "")
  }

  ghost predicate In64Bits(t: Text) {
    var n := if t.sign == "-" then 0 - DigitsValue(t.whole) else DigitsValue(t.whole);
    -9_223_372_036_854_775_808 <= n <= 9_223_372_036_854_775_807
  }

  lemma KindsOf(t: Text)
    requires WellWritten(t)
    ensures ReadNumeral(Written(t)).Some?
    ensures var n := ReadNumeral(Written(t)).value;
            && (IsIntegerNumeral(n) <==> WholeText(t)) && (IsDecimalNumeral(n) <==> DecimalText(t))
            && (IsPadded(n) <==> Padded(t)) && n.whole == t.whole
            && (WholeText(t) ==> (Int64Range(Denoted(n).coefficient) <==> In64Bits(t)))
  {
    TextIsRead(t);
    assert t.whole + "" == t.whole;
  }

  /** Which texts count as 64-bit integers and which as decimals; no other text is a number. */
  lemma NumbersExactly(rules: Rules, t: Text)
    requires Sane(rules) && WellWritten(t)
    ensures ValueType(rules, Written(t)) == Whole <==>
            WholeText(t) && !Padded(t) && |t.whole| <= 38 && In64Bits(t)
    ensures ValueType(rules, Written(t)) == Fractional <==>
            !Padded(t) && (DecimalText(t) || (WholeText(t) && |t.whole| <= 38 && !In64Bits(t)))
  {
    KindsOf(t);
    assert !IsNumeric(rules.other(Written(t)));
  }

  /** A number the reader does not take counts as text. */
  lemma RecordedExactly(rules: Rules, t: Text)
    requires Sane(rules) && WellWritten(t)
    ensures var seen := ValueType(rules, Written(t));
            RecordedType(rules, Written(t)) ==
            if IsNumeric(seen) && !rules.readable(Number(SignedDigits(t), Power(t) - |t.fraction|)) then Plain else seen
  {
    DenotedOf(t);
  }

  lemma OtherTextsAreNoNumbers(rules: Rules, s: string)
    requires Sane(rules) && forall t :: WellWritten(t) ==> Written(t) != s
    ensures !IsNumeric(ValueType(rules, s))
  {
    assert !IsNumeric(rules.other(s));
    if ReadNumeral(s).Some? { var t := OnlyTextsAreRead(s); }
  }

  // ----- What the profile promises about the texts of a column -----

  /**
   In a column inferred decimal every populated cell, integers included, is the text of a number whose
   value the reported Decimal(precision, scale) stores exactly; the precision is at most 38, and the
   scale no less than the cell has digits behind its point.
   */
  lemma InferredDecimalIsExact(rules: Rules, cells: seq<string>, i: nat)
    requires Sane(rules) && i < |cells| && cells[i] != []
    requires MergeTypes(ColumnTally(rules, cells).types) == Inferred(Fractional)
    requires ColumnProfile(ColumnTally(rules, cells)).Success?
    ensures ColumnProfile(ColumnTally(rules, cells)).value.precision <= 38
    ensures exists t :: WellWritten(t) && Written(t) == cells[i]
    ensures var p := ColumnProfile(ColumnTally(rules, cells)).value;
            forall t :: WellWritten(t) && Written(t) == cells[i] ==>
              Stores(p.precision, p.scale, t) && (t.mark == "" ==> p.scale >= |t.fraction|)
  {
    var p := ColumnProfile(ColumnTally(rules, cells)).value;
    NumberIsStored(rules, cells, i);
    var some := OnlyTextsAreRead(cells[i]);
    forall t | WellWritten(t) && Written(t) == cells[i]
      ensures Stores(p.precision, p.scale, t) && (t.mark == "" ==> p.scale >= |t.fraction|)
    {
      FitsIsStores(t, p.precision, p.scale);
      TextIsRead(t);
      if t.mark == "" {
        assert DigitsValue("") == 0;
        ScaleIsEnough(rules, cells, i);
      }
    }
  }

  /** In a column inferred integer every populated cell is a sign and digits, in 64 bits. */
  lemma InferredIntegerFits(rules: Rules, cells: seq<string>, i: nat)
    requires Sane(rules) && i < |cells| && cells[i] != []
    requires MergeTypes(ColumnTally(rules, cells).types) == Inferred(Whole)
    ensures exists t :: WellWritten(t) && Written(t) == cells[i]
    ensures forall t :: WellWritten(t) && Written(t) == cells[i] ==> WholeText(t) && In64Bits(t)
  {
    WholeColumn(rules, cells, i);
    var some := OnlyTextsAreRead(cells[i]);
    forall t | WellWritten(t) && Written(t) == cells[i] ensures WholeText(t) && In64Bits(t) {
      NumbersExactly(rules, t);
    }
  }
}
