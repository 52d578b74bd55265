/**
 Streaming type inference for CSV columns.  Cells arrive with surrounding white space already
 stripped.  Recognizing dates, times and booleans, and the exponent range of the decimal
 reader, are parameters.
 */
module CsvProfile {
  import opened Wrappers
  import opened Decimals

  datatype CellType = Boolean | Whole | Fractional | ZonedDatetime | Datetime | Date | Time | Plain

  /** `other` classifies a cell that is not numeric; `readable` says which numbers the reader accepts. */
  datatype Rules = Rules(other: string -> CellType, readable: Number -> bool)

  ghost predicate Sane(rules: Rules) {
    forall s :: !IsNumeric(rules.other(s))
  }

  predicate IsNumeric(t: CellType) { t == Whole || t == Fractional }

  const MAX_PRECISION: nat := 38
  const MAX_CELL: nat := 131072

  // ----- Numerals -----

  predicate IsDigit(c: char) { '0' <= c <= '9' }

  /** The length of the leading run of digits. */
  function Run(s: string): (n: nat)
    ensures n <= |s|
  {
    if s == [] || !IsDigit(s[0]) then 0 else 1 + Run(s[1..])
  }

  function DigitValue(c: char): nat { if IsDigit(c) then c as int - '0' as int else 0 }

  function DigitsValue(s: string): nat {
    if s == [] then 0 else DigitsValue(s[..|s| - 1]) * 10 + DigitValue(s[|s| - 1])
  }

  predicate IsSign(s: string) { s != [] && (s[0] == '+' || s[0] == '-') }

  function Unsigned(s: string): string { if IsSign(s) then s[1..] else s }

  /** sign, whole digits, optional point and fraction digits, optional exponent. */
  datatype Numeral = Numeral(negative: bool, whole: string, point: bool, fraction: string, marked: bool, exponent: int)

  function ReadExponent(s: string): Option<int> {
    var digits := Unsigned(s);
    if digits == [] || exists i :: 0 <= i < |digits| && !IsDigit(digits[i]) then None
    else Some(if s[0] == '-' then 0 - DigitsValue(digits) else DigitsValue(digits))
  }

  function ReadNumeral(s: string): Option<Numeral> {
    var body := Unsigned(s);
    ReadFraction(s != [] && s[0] == '-', body[..Run(body)], body[Run(body)..])
  }

  function ReadFraction(negative: bool, whole: string, rest: string): Option<Numeral> {
    if rest != [] && rest[0] == '.' then
      var after := rest[1..];
      ReadTail(negative, whole, true, after[..Run(after)], after[Run(after)..])
    else ReadTail(negative, whole, false, [], rest)
  }

  function ReadTail(negative: bool, whole: string, point: bool, fraction: string, tail: string): Option<Numeral> {
    if tail == [] then Some(Numeral(negative, whole, point, fraction, false, 0))
    else if tail[0] != 'e' && tail[0] != 'E' then None
    else
      var e := ReadExponent(tail[1..]);
      if e.None? then None else Some(Numeral(negative, whole, point, fraction, true, e.value))
  }

  predicate IsIntegerNumeral(n: Numeral) { !n.point && !n.marked && n.whole != [] }

  predicate IsDecimalNumeral(n: Numeral) {
    if n.point then n.whole != [] || n.fraction != [] else n.marked && n.whole != []
  }

  predicate IsPadded(n: Numeral) { |n.whole| > 1 && n.whole[0] == '0' }

  /** The number a numeral denotes, with the exponent it is written with. */
  function Denoted(n: Numeral): Number {
    var magnitude := DigitsValue(n.whole + n.fraction);
    Number(if n.negative then 0 - magnitude else magnitude, n.exponent - |n.fraction|)
  }

  // ----- Cells -----

  predicate Int64Range(n: int) { -0x8000_0000_0000_0000 <= n < 0x8000_0000_0000_0000 }

  /** `_value_type` */
  function ValueType(rules: Rules, s: string): CellType {
    var n := ReadNumeral(s);
    if n.Some? && IsIntegerNumeral(n.value) && !IsPadded(n.value) then
      if |n.value.whole| > MAX_PRECISION then Plain
      else if !Int64Range(Denoted(n.value).coefficient) then Fractional
      else Whole
    else if n.Some? && IsDecimalNumeral(n.value) then
      if IsPadded(n.value) then Plain else Fractional
    else rules.other(s)
  }

  /** The type recorded for a cell: a number the reader cannot take counts as text. */
  function RecordedType(rules: Rules, s: string): CellType {
    var t := ValueType(rules, s);
    if IsNumeric(t) && !(ReadNumeral(s).Some? && rules.readable(Denoted(ReadNumeral(s).value))) then Plain else t
  }

  // ----- Column tallies -----

  datatype Tally = Tally(types: set<CellType>, populated: nat, nulls: nat, example: string, digits: nat, scale: nat)

  const EMPTY := Tally({}, 0, 0, "", 0, 0)

  function Head(s: string): string { if |s| <= 80 then s else s[..80] }

  function NumberTally(n: Number): (nat, nat) {
    (Larger(Digits(Abs(n.coefficient)) + n.exponent, 0), Larger(0 - n.exponent, 0))
  }

  /** One cell's contribution. */
  function CellTally(rules: Rules, s: string): Tally {
    if s == [] then EMPTY.(nulls := 1)
    else
      var t := RecordedType(rules, s);
      var extent := if IsNumeric(t) && ReadNumeral(s).Some? then NumberTally(Denoted(ReadNumeral(s).value)) else (0, 0);
      Tally({t}, 1, 0, Head(s), extent.0, extent.1)
  }

  function Combine(a: Tally, b: Tally): Tally {
    Tally(a.types + b.types, a.populated + b.populated, a.nulls + b.nulls,
          if a.example == "" then b.example else a.example,
          Larger(a.digits, b.digits), Larger(a.scale, b.scale))
  }

  /** The tally of a column's cells, each measured by `measure`. */
  function TallyOf<T>(measure: T -> Tally, cells: seq<T>): Tally {
    if cells == [] then EMPTY
    else Combine(TallyOf(measure, cells[..|cells| - 1]), measure(cells[|cells| - 1]))
  }

  function ColumnTally(rules: Rules, cells: seq<string>): Tally { TallyOf(s => CellTally(rules, s), cells) }

  // ----- The profiling loop -----

  datatype CsvError = RaggedRow(number: nat) | LongCell | TooPrecise

  predicate IsBlank(row: seq<string>) { forall i :: 0 <= i < |row| ==> row[i] == [] }

  predicate HasLongCell(row: seq<string>) { exists i :: 0 <= i < |row| && |row[i]| > MAX_CELL }

  /** The rows that count, or the first fault. */
  function Kept(rows: seq<seq<string>>, columns: nat): Result<seq<seq<string>>, CsvError> {
    if rows == [] then Success([])
    else
      var before := Kept(rows[..|rows| - 1], columns);
      var row := rows[|rows| - 1];
      if before.Failure? || row == [] then before
      else if |row| != columns then Failure(RaggedRow(|before.value| + 2))
      else if IsBlank(row) then before
      else if HasLongCell(row) then Failure(LongCell)
      else Success(before.value + [row])
  }

  function ColumnOf(rows: seq<seq<string>>, c: nat): (cells: seq<string>)
    ensures |cells| == |rows| && forall i :: 0 <= i < |rows| && c < |rows[i]| ==> cells[i] == rows[i][c]
  {
    seq(|rows|, i requires 0 <= i < |rows| => if c < |rows[i]| then rows[i][c] else [])
  }

  /** `profile_csv_rows`, up to the column profiles. */
  method ProfileRows(measure: string -> Tally, columns: nat, rows: seq<seq<string>>)
    returns (result: Result<(nat, seq<Tally>), CsvError>)
    ensures result.Failure? <==> Kept(rows, columns).Failure?
    ensures result.Failure? ==> result.error == Kept(rows, columns).error
    ensures result.Success? ==>
              var kept := Kept(rows, columns).value;
              && result.value.0 == |kept| && |result.value.1| == columns
              && forall c :: 0 <= c < columns ==> result.value.1[c] == TallyOf(measure, ColumnOf(kept, c))
  {
    var tallies := seq(columns, _ => EMPTY);
    var rowCount := 0;
    ghost var kept: seq<seq<string>> := [];
    var r := 0;
    while r < |rows|
      invariant 0 <= r <= |rows|
      invariant Kept(rows[..r], columns) == Success(kept) && rowCount == |kept| && |tallies| == columns
      invariant forall c :: 0 <= c < columns ==> tallies[c] == TallyOf(measure, ColumnOf(kept, c))
    {
      var row := rows[r];
      assert rows[..r + 1][..r] == rows[..r];
      KeptPrefix(rows, r + 1, columns);
      r := r + 1;
      if row == [] {
        continue;
      }
      if |row| != columns {
        return Failure(RaggedRow(rowCount + 2));
      }
      if IsBlank(row) {
        continue;
      }
      var long;
      rowCount := rowCount + 1;
      tallies, long := TallyRow(measure, kept, row, tallies);
      if long {
        return Failure(LongCell);
      }
      kept := kept + [row];
    }
    assert rows[..r] == rows;
    return Success((rowCount, tallies));
  }

  /** One row: every column's tally grows by its cell, unless a cell is too long. */
  method TallyRow(measure: string -> Tally, ghost kept: seq<seq<string>>, row: seq<string>, before: seq<Tally>)
    returns (tallies: seq<Tally>, long: bool)
    requires |before| == |row|
    requires forall c :: 0 <= c < |row| ==> before[c] == TallyOf(measure, ColumnOf(kept, c))
    ensures long <==> HasLongCell(row)
    ensures |tallies| == |row|
    ensures !long ==> forall c :: 0 <= c < |row| ==> tallies[c] == TallyOf(measure, ColumnOf(kept + [row], c))
  {
    tallies := before;
    var c := 0;
    while c < |row|
      invariant 0 <= c <= |row| && |tallies| == |row|
      invariant forall d :: 0 <= d < c ==> |row[d]| <= MAX_CELL
      invariant forall d :: 0 <= d < c ==> tallies[d] == TallyOf(measure, ColumnOf(kept + [row], d))
      invariant forall d :: c <= d < |row| ==> tallies[d] == before[d]
    {
      if |row[c]| > MAX_CELL {
        return tallies, true;
      }
      ColumnGrows(measure, kept, row, c);
      tallies := tallies[c := Combine(tallies[c], measure(row[c]))];
      c := c + 1;
    }
    return tallies, false;
  }

  /** A fault in a prefix is the fault of the whole. */
  lemma {:induction false} KeptPrefix(rows: seq<seq<string>>, r: nat, columns: nat)
    requires r <= |rows|
    ensures Kept(rows[..r], columns).Failure? ==> Kept(rows, columns) == Kept(rows[..r], columns)
    decreases |rows|
  {
    if r < |rows| {
      KeptPrefix(rows[..|rows| - 1], r, columns);
      assert rows[..|rows| - 1][..r] == rows[..r];
    } else {
      assert rows[..r] == rows;
    }
  }

  lemma ColumnGrows(measure: string -> Tally, rows: seq<seq<string>>, row: seq<string>, c: nat)
    requires c < |row|
    ensures TallyOf(measure, ColumnOf(rows + [row], c)) ==
            Combine(TallyOf(measure, ColumnOf(rows, c)), measure(row[c]))
  {
    assert ColumnOf(rows + [row], c) == ColumnOf(rows, c) + [row[c]];
    assert (ColumnOf(rows, c) + [row[c]])[..|rows|] == ColumnOf(rows, c);
  }

  // ----- Column profiles -----

  datatype ColumnType = EmptyColumn | Inferred(cells: CellType)

  function MergeTypes(types: set<CellType>): ColumnType {
    if types == {} then EmptyColumn
    else if types == {ZonedDatetime} then Inferred(Datetime)
    else if exists t :: t in types && types == {t} then
      var t :| t in types && types == {t}; Inferred(t)
    else if types <= {Whole, Fractional} then Inferred(Fractional)
    else if types <= {Date, Datetime} then Inferred(Datetime)
    else Inferred(Plain)
  }

  datatype Profile = Profile(inferred: ColumnType, populated: nat, nulls: nat, precision: nat, scale: nat, zoned: bool)

  /** `_column_profile` */
  function ColumnProfile(t: Tally): Result<Profile, CsvError> {
    var inferred := MergeTypes(t.types);
    if inferred != Inferred(Fractional) then
      Success(Profile(inferred, t.populated, t.nulls, 0, 0, t.types == {ZonedDatetime}))
    else
      var precision := Larger(Larger(t.digits + t.scale, t.scale), 1);
      if precision > MAX_PRECISION then Failure(TooPrecise)
      else Success(Profile(inferred, t.populated, t.nulls, precision, t.scale, false))
  }

  /** The kept rows' count and every column's profile, or the first column too precise. */
  method ProfileCsv(rules: Rules, columns: nat, rows: seq<seq<string>>)
    returns (result: Result<(nat, seq<Profile>), CsvError>)
    ensures Kept(rows, columns).Failure? ==> result.Failure? && result.error == Kept(rows, columns).error
    ensures Kept(rows, columns).Success? ==>
              var kept := Kept(rows, columns).value;
              if forall c :: 0 <= c < columns ==> ColumnProfile(ColumnTally(rules, ColumnOf(kept, c))).Success?
              then && result.Success? && result.value.0 == |kept| && |result.value.1| == columns
                   && forall c :: 0 <= c < columns ==>
                        ColumnProfile(ColumnTally(rules, ColumnOf(kept, c))) == Success(result.value.1[c])
              else result == Failure(TooPrecise)
  {
    var tallied := ProfileRows(s => CellTally(rules, s), columns, rows);
    if tallied.Failure? {
      return Failure(tallied.error);
    }
    ghost var kept := Kept(rows, columns).value;
    var profiles: seq<Profile> := [];
    var c := 0;
    while c < columns
      invariant 0 <= c <= columns && |profiles| == c
      invariant forall d :: 0 <= d < c ==>
                  ColumnProfile(ColumnTally(rules, ColumnOf(kept, d))) == Success(profiles[d])
    {
      assert tallied.value.1[c] == ColumnTally(rules, ColumnOf(kept, c));
      var profile := ColumnProfile(tallied.value.1[c]);
      if profile.Failure? {
        return Failure(profile.error);
      }
      profiles := profiles + [profile.value];
      c := c + 1;
    }
    return Success((tallied.value.0, profiles));
  }

  // ----- Streaming and order -----

  lemma CombineAssociates(a: Tally, b: Tally, c: Tally)
    ensures Combine(Combine(a, b), c) == Combine(a, Combine(b, c))
  {
  }

  lemma OneMore<T>(measure: T -> Tally, cells: seq<T>, cell: T)
    ensures TallyOf(measure, cells + [cell]) == Combine(TallyOf(measure, cells), measure(cell))
  {
    assert (cells + [cell])[..|cells|] == cells;
  }

  /** The profile of two files read one after the other is the combination of their profiles. */
  lemma {:induction false} ProfilingCombines<T>(measure: T -> Tally, a: seq<T>, b: seq<T>)
    ensures TallyOf(measure, a + b) == Combine(TallyOf(measure, a), TallyOf(measure, b))
    decreases |b|
  {
    if b == [] {
      assert a + b == a;
      CombineEmpty(TallyOf(measure, a));
    } else {
      ProfilingCombines(measure, a, b[..|b| - 1]);
      assert b == b[..|b| - 1] + [b[|b| - 1]];
      ProfilingOneMore(measure, a, b[..|b| - 1], b[|b| - 1]);
    }
  }

  lemma Regrouped<T>(a: seq<T>, b: seq<T>, c: seq<T>)
    ensures a + (b + c) == (a + b) + c
  {
  }

  lemma ProfilingOneMore<T>(measure: T -> Tally, a: seq<T>, init: seq<T>, last: T)
    requires TallyOf(measure, a + init) == Combine(TallyOf(measure, a), TallyOf(measure, init))
    ensures TallyOf(measure, a + (init + [last])) == Combine(TallyOf(measure, a), TallyOf(measure, init + [last]))
  {
    Regrouped(a, init, [last]);
    OneMore(measure, a + init, last);
    OneMore(measure, init, last);
    CombineAssociates(TallyOf(measure, a), TallyOf(measure, init), measure(last));
  }

  lemma CombineEmpty(a: Tally)
    ensures Combine(a, EMPTY) == a
  {
  }

  function Unordered(t: Tally): Tally { t.(example := "") }

  lemma CombineSwaps(a: Tally, b: Tally, c: Tally)
    ensures Unordered(Combine(Combine(a, b), c)) == Unordered(Combine(Combine(a, c), b))
  {
  }

  lemma CombineUnordered(a: Tally, a': Tally, b: Tally)
    requires Unordered(a) == Unordered(a')
    ensures Unordered(Combine(a, b)) == Unordered(Combine(a', b))
  {
  }

  /** A cell moved to the end. */
  lemma MovedLast<T>(measure: T -> Tally, a: seq<T>, cell: T, b: seq<T>)
    ensures Unordered(TallyOf(measure, a + [cell] + b)) == Unordered(TallyOf(measure, a + b + [cell]))
  {
    ProfilingCombines(measure, a + [cell], b);
    OneMore(measure, a, cell);
    ProfilingCombines(measure, a, b);
    OneMore(measure, a + b, cell);
    CombineSwaps(TallyOf(measure, a), measure(cell), TallyOf(measure, b));
  }

  /** Types, counts and digits do not depend on the order of the rows. */
  lemma {:induction false} OrderDoesNotMatter<T>(measure: T -> Tally, a: seq<T>, b: seq<T>)
    requires multiset(a) == multiset(b)
    ensures Unordered(TallyOf(measure, a)) == Unordered(TallyOf(measure, b))
    decreases |a|
  {
    assert |a| == |multiset(a)| == |multiset(b)| == |b|;
    if a != [] {
      var init, last := a[..|a| - 1], a[|a| - 1];
      assert a == init + [last];
      assert last in multiset(b);
      var i :| 0 <= i < |b| && b[i] == last;
      var front, back := b[..i], b[i + 1..];
      assert b == front + [last] + back;
      assert multiset(init) == multiset(front + back) by {
        assert multiset(init) == multiset(a) - multiset{last};
        assert multiset(front + back) == multiset(b) - multiset{last};
      }
      OrderDoesNotMatter(measure, init, front + back);
      MovedLast(measure, front, last, back);
      OneMore(measure, init, last);
      OneMore(measure, front + back, last);
      CombineUnordered(TallyOf(measure, init), TallyOf(measure, front + back), measure(last));
    }
  }

  /** Measuring one column of a row; a missing cell counts as empty. */
  function CellOf(measure: string -> Tally, c: nat): seq<string> -> Tally {
    (row: seq<string>) => measure(if c < |row| then row[c] else [])
  }

  lemma {:induction false} ColumnByRows(measure: string -> Tally, rows: seq<seq<string>>, c: nat)
    ensures TallyOf(measure, ColumnOf(rows, c)) == TallyOf(CellOf(measure, c), rows)
  {
    if rows != [] {
      var init, last := rows[..|rows| - 1], rows[|rows| - 1];
      ColumnByRows(measure, init, c);
      assert ColumnOf(rows, c) == ColumnOf(init, c) + [if c < |last| then last[c] else []];
      OneMore(measure, ColumnOf(init, c), if c < |last| then last[c] else []);
    }
  }

  lemma {:induction false} KeptAppends(a: seq<seq<string>>, b: seq<seq<string>>, columns: nat)
    requires Kept(a, columns).Success? && Kept(b, columns).Success?
    ensures Kept(a + b, columns) == Success(Kept(a, columns).value + Kept(b, columns).value)
    decreases |b|
  {
    if b == [] {
      assert a + b == a;
      assert Kept(a, columns).value + [] == Kept(a, columns).value;
    } else {
      var init := b[..|b| - 1];
      assert (a + b)[..|a + b| - 1] == a + init;
      KeptAppends(a, init, columns);
      var x, y, last := Kept(a, columns).value, Kept(init, columns).value, b[|b| - 1];
      assert (x + y) + [last] == x + (y + [last]);
    }
  }

  /** Profiling two row streams one after the other combines their column tallies. */
  lemma StreamsCombine(rules: Rules, a: seq<seq<string>>, b: seq<seq<string>>, columns: nat, c: nat)
    requires Kept(a, columns).Success? && Kept(b, columns).Success?
    ensures Kept(a + b, columns).Success?
    ensures var both := Kept(a + b, columns).value;
            ColumnTally(rules, ColumnOf(both, c)) ==
            Combine(ColumnTally(rules, ColumnOf(Kept(a, columns).value, c)),
                    ColumnTally(rules, ColumnOf(Kept(b, columns).value, c)))
  {
    KeptAppends(a, b, columns);
    var x, y := Kept(a, columns).value, Kept(b, columns).value;
    assert ColumnOf(x + y, c) == ColumnOf(x, c) + ColumnOf(y, c);
    ProfilingCombines(s => CellTally(rules, s), ColumnOf(x, c), ColumnOf(y, c));
  }

  lemma ColumnOrder(measure: string -> Tally, a: seq<seq<string>>, b: seq<seq<string>>, c: nat)
    requires multiset(a) == multiset(b)
    ensures Unordered(TallyOf(measure, ColumnOf(a, c))) == Unordered(TallyOf(measure, ColumnOf(b, c)))
  {
    ColumnByRows(measure, a, c);
    ColumnByRows(measure, b, c);
    OrderDoesNotMatter(CellOf(measure, c), a, b);
  }

  lemma ProfileIgnoresExample(a: Tally, b: Tally)
    requires Unordered(a) == Unordered(b)
    ensures ColumnProfile(a) == ColumnProfile(b)
  {
  }

  // ----- Rows that are kept -----

  predicate Skipped(row: seq<string>) { row == [] || IsBlank(row) }

  /** A row that ends profiling; blank rows of the right width do not. */
  predicate Faulty(row: seq<string>, columns: nat) {
    row != [] && (|row| != columns || (!IsBlank(row) && HasLongCell(row)))
  }

  /** Every cell is empty. */
  ghost predicate Empty(row: seq<string>) { forall i :: 0 <= i < |row| ==> row[i] == "" }

  function WithoutSkipped(rows: seq<seq<string>>): seq<seq<string>> {
    if rows == [] then []
    else
      var before := WithoutSkipped(rows[..|rows| - 1]);
      if Skipped(rows[|rows| - 1]) then before else before + [rows[|rows| - 1]]
  }

  lemma {:induction false} KeptExactly(rows: seq<seq<string>>, columns: nat)
    ensures Kept(rows, columns).Success? <==> forall r :: r in rows ==> !Faulty(r, columns)
    ensures Kept(rows, columns).Success? <==>
              forall r :: r in rows ==>
                r == [] || (|r| == columns && (Empty(r) || forall i :: 0 <= i < |r| ==> |r[i]| <= 131072))
    ensures Kept(rows, columns).Success? ==> Kept(rows, columns).value == WithoutSkipped(rows)
    decreases |rows|
  {
    if rows != [] {
      var init, last := rows[..|rows| - 1], rows[|rows| - 1];
      KeptExactly(init, columns);
      assert rows == init + [last];
      assert last in rows && forall r :: r in rows <==> r in init || r == last;
    }
  }

  /** The first row that is refused decides the fault: one too short or long is named by its place among those kept. */
  lemma FirstFaultDecides(before: seq<seq<string>>, row: seq<string>, after: seq<seq<string>>, columns: nat)
    requires Kept(before, columns).Success? && Faulty(row, columns)
    ensures Kept(before + [row] + after, columns) ==
            Failure(if |row| != columns then RaggedRow(|WithoutSkipped(before)| + 2) else LongCell)
  {
    var all, n := before + [row] + after, |before|;
    assert all[..n + 1] == before + [row] && (before + [row])[..n] == before;
    KeptExactly(before, columns);
    KeptPrefix(all, n + 1, columns);
  }

  lemma {:induction false} SkippingCounts(rows: seq<seq<string>>, row: seq<string>)
    ensures multiset(WithoutSkipped(rows))[row] == if Skipped(row) then 0 else multiset(rows)[row]
    decreases |rows|
  {
    if rows != [] {
      var init, last := rows[..|rows| - 1], rows[|rows| - 1];
      SkippingCounts(init, row);
      assert rows == init + [last];
    }
  }

  /**
   Profiling does not depend on the order of the rows as they come, blank ones included: a file is
   refused in every order or in none, and otherwise all orders give the same count of rows and the
   same inferred type, counts and digits for every column.
   */
  lemma RowOrderDoesNotMatter(rules: Rules, a: seq<seq<string>>, b: seq<seq<string>>, columns: nat, c: nat)
    requires multiset(a) == multiset(b)
    ensures Kept(a, columns).Success? <==> Kept(b, columns).Success?
    ensures Kept(a, columns).Success? ==>
              var x, y := Kept(a, columns).value, Kept(b, columns).value;
              && |x| == |y|
              && ColumnProfile(ColumnTally(rules, ColumnOf(x, c))) == ColumnProfile(ColumnTally(rules, ColumnOf(y, c)))
  {
    KeptExactly(a, columns);
    KeptExactly(b, columns);
    assert forall r :: (r in a <==> r in multiset(a)) && (r in b <==> r in multiset(b));
    var x, y := WithoutSkipped(a), WithoutSkipped(b);
    forall row ensures multiset(x)[row] == multiset(y)[row] {
      SkippingCounts(a, row);
      SkippingCounts(b, row);
    }
    assert multiset(x) == multiset(y);
    assert |x| == |multiset(x)| == |multiset(y)| == |y|;
    KeptOrderDoesNotMatter(rules, x, y, c);
  }

  lemma KeptOrderDoesNotMatter(rules: Rules, a: seq<seq<string>>, b: seq<seq<string>>, c: nat)
    requires multiset(a) == multiset(b)
    ensures ColumnProfile(ColumnTally(rules, ColumnOf(a, c))) == ColumnProfile(ColumnTally(rules, ColumnOf(b, c)))
  {
    ColumnOrder(s => CellTally(rules, s), a, b, c);
    ProfileIgnoresExample(ColumnTally(rules, ColumnOf(a, c)), ColumnTally(rules, ColumnOf(b, c)));
  }

  // ----- What a tally and a type say -----

  /** The column's type by the types of its populated cells. */
  lemma MergedExactly(types: set<CellType>)
    ensures MergeTypes(types) == EmptyColumn <==> types == {}
    ensures MergeTypes(types) == Inferred(Whole) <==> types == {Whole}
    ensures MergeTypes(types) == Inferred(Fractional) <==> Fractional in types && types <= {Whole, Fractional}
    ensures MergeTypes(types) == Inferred(Datetime) <==>
            types == {ZonedDatetime} || (Datetime in types && types <= {Date, Datetime})
    ensures forall t :: t == Boolean || t == Date || t == Time ==>
              (MergeTypes(types) == Inferred(t) <==> types == {t})
    ensures MergeTypes(types) != Inferred(ZonedDatetime)
  {
    if exists t :: types == {t} {
      var t :| types == {t};
      assert forall u :: u in types <==> u == t;
    }
    if types <= {Whole, Fractional} && types != {} && Fractional !in types { assert types == {Whole}; }
    if types <= {Date, Datetime} && types != {} && Datetime !in types { assert types == {Date}; }
  }

  /** A profile copies the counts; only a decimal column has digits, and one of more than 38 is refused. */
  lemma ProfileSays(t: Tally)
    ensures ColumnProfile(t) == Failure(TooPrecise) <==>
            Fractional in t.types && t.types <= {Whole, Fractional} && t.digits + t.scale > 38
    ensures ColumnProfile(t).Failure? ==> ColumnProfile(t).error == TooPrecise
    ensures ColumnProfile(t).Success? ==>
              var p := ColumnProfile(t).value; var decimal := p.inferred == Inferred(Fractional);
              && p.inferred == MergeTypes(t.types) && p.populated == t.populated && p.nulls == t.nulls
              && (p.zoned <==> t.types == {ZonedDatetime})
              && p.scale == (if decimal then t.scale else 0)
              && p.precision ==
                 (if !decimal then 0 else if t.digits + t.scale == 0 then 1 else t.digits + t.scale)
  {
    MergedExactly(t.types);
  }

  ghost function TypesSeen(rules: Rules, cells: seq<string>): set<CellType> {
    set cell | cell in cells && cell != [] :: RecordedType(rules, cell)
  }

  ghost function EmptyCells(cells: seq<string>): set<int> { set i | 0 <= i < |cells| && cells[i] == [] }

  lemma SeenOn(rules: Rules, cells: seq<string>, cell: string)
    ensures TypesSeen(rules, cells + [cell]) ==
            TypesSeen(rules, cells) + if cell == [] then {} else {RecordedType(rules, cell)}
  {
    assert forall other :: other in cells + [cell] <==> other in cells || other == cell;
  }

  lemma EmptyOn(cells: seq<string>, cell: string)
    ensures |EmptyCells(cells + [cell])| == |EmptyCells(cells)| + if cell == [] then 1 else 0
  {
    var more := cells + [cell];
    assert forall i :: 0 <= i < |cells| ==> more[i] == cells[i];
    assert EmptyCells(more) == EmptyCells(cells) + if cell == [] then {|cells|} else {};
  }

  /** A tally has the types of the populated cells, their number and that of the empty ones. */
  lemma {:induction false} TallyExactly(rules: Rules, cells: seq<string>)
    ensures var t := ColumnTally(rules, cells);
            && t.types == TypesSeen(rules, cells)
            && t.nulls == |EmptyCells(cells)| && t.populated + t.nulls == |cells|
  {
    if cells != [] {
      var init, last := cells[..|cells| - 1], cells[|cells| - 1];
      TallyExactly(rules, init);
      assert cells == init + [last];
      SeenOn(rules, init, last);
      EmptyOn(init, last);
      OneMore(s => CellTally(rules, s), init, last);
    }
  }

  /** The example is the first populated cell, cut after eighty characters. */
  lemma {:induction false} ExampleIsFirst(rules: Rules, cells: seq<string>, i: nat)
    requires i <= |cells| && forall j :: 0 <= j < i ==> cells[j] == ""
    requires i < |cells| ==> cells[i] != ""
    ensures ColumnTally(rules, cells).example ==
            if i == |cells| then "" else if |cells[i]| <= 80 then cells[i] else cells[i][..80]
  {
    if cells != [] {
      var n := |cells| - 1;
      assert cells == cells[..n] + [cells[n]];
      ExampleIsFirst(rules, cells[..n], if i < n then i else n);
      OneMore(s => CellTally(rules, s), cells[..n], cells[n]);
    }
  }

  ghost predicate ScaleAsked(rules: Rules, cells: seq<string>, scale: nat) {
    exists i :: 0 <= i < |cells| && AsksFor(rules, cells[i])
                && 0 - Denoted(ReadNumeral(cells[i]).value).exponent == scale
  }

  ghost predicate DigitsAsked(rules: Rules, cells: seq<string>, digits: nat) {
    exists i :: 0 <= i < |cells| && AsksFor(rules, cells[i])
                && IntegerDigits(Denoted(ReadNumeral(cells[i]).value)) == digits
  }

  lemma AskedOn(rules: Rules, cells: seq<string>, cell: string, scale: nat, digits: nat)
    ensures ScaleAsked(rules, cells, scale) ==> ScaleAsked(rules, cells + [cell], scale)
    ensures DigitsAsked(rules, cells, digits) ==> DigitsAsked(rules, cells + [cell], digits)
  {
    assert forall i :: 0 <= i < |cells| ==> (cells + [cell])[i] == cells[i];
  }

  lemma LastAsks(rules: Rules, cells: seq<string>, cell: string)
    ensures CellTally(rules, cell).scale == 0 || ScaleAsked(rules, cells + [cell], CellTally(rules, cell).scale)
    ensures CellTally(rules, cell).digits == 0 || DigitsAsked(rules, cells + [cell], CellTally(rules, cell).digits)
  {
    assert (cells + [cell])[|cells|] == cell;
  }

  /** Some cell is written with as many digits behind the point, and some with as many before it, as the tally says. */
  lemma {:induction false} TallyIsAttained(rules: Rules, cells: seq<string>)
    ensures var t := ColumnTally(rules, cells);
            && (t.scale == 0 || ScaleAsked(rules, cells, t.scale))
            && (t.digits == 0 || DigitsAsked(rules, cells, t.digits))
  {
    if cells != [] {
      var init, last := cells[..|cells| - 1], cells[|cells| - 1];
      var before := ColumnTally(rules, init);
      TallyIsAttained(rules, init);
      assert cells == init + [last];
      OneMore(s => CellTally(rules, s), init, last);
      AskedOn(rules, init, last, before.scale, before.digits);
      LastAsks(rules, init, last);
    }
  }

  predicate AsksFor(rules: Rules, s: string) {
    s != [] && IsNumeric(RecordedType(rules, s)) && ReadNumeral(s).Some?
  }

  /** The digits of a number before its point; zero counts one digit, moved by its exponent. */
  function IntegerDigits(n: Number): int { Digits(Abs(n.coefficient)) + n.exponent }

  /** Some cell's digits before the point and some cell's behind it come to more than 38. */
  ghost predicate TooWide(rules: Rules, cells: seq<string>) {
    exists i, j :: 0 <= i < |cells| && 0 <= j < |cells| && AsksFor(rules, cells[i]) && AsksFor(rules, cells[j])
      && Larger(0 - Denoted(ReadNumeral(cells[i]).value).exponent, 0)
         + Larger(IntegerDigits(Denoted(ReadNumeral(cells[j]).value)), 0) > 38
  }

  /** A decimal column is refused exactly when its cells together ask for more than 38 digits. */
  lemma RefusedExactlyWhenTooWide(rules: Rules, cells: seq<string>)
    requires Sane(rules) && MergeTypes(ColumnTally(rules, cells).types) == Inferred(Fractional)
    ensures ColumnProfile(ColumnTally(rules, cells)).Failure? <==> TooWide(rules, cells)
  {
    var t := ColumnTally(rules, cells);
    ProfileSays(t);
    MergedExactly(t.types);
    TallyIsAttained(rules, cells);
    forall i | 0 <= i < |cells| && AsksFor(rules, cells[i])
      ensures var n := Denoted(ReadNumeral(cells[i]).value); t.scale >= 0 - n.exponent && t.digits >= IntegerDigits(n)
    {
      CellCovered(rules, cells, i);
      NumericCell(rules, cells[i]);
    }
  }

  /**
   The reported type is no wider than the cells ask for: some cell is written with as many digits behind
   the point, and some cell needs as many before it.
   */
  lemma InferredDecimalIsTight(rules: Rules, cells: seq<string>)
    requires ColumnProfile(ColumnTally(rules, cells)).Success?
    requires MergeTypes(ColumnTally(rules, cells).types) == Inferred(Fractional)
    ensures var p := ColumnProfile(ColumnTally(rules, cells)).value;
            && (p.scale == 0 || ScaleAsked(rules, cells, p.scale))
            && (p.precision == p.scale || (p.precision == 1 && p.scale == 0)
                || (p.precision >= p.scale && DigitsAsked(rules, cells, p.precision - p.scale)))
  {
    TallyIsAttained(rules, cells);
  }

  // ----- Exactness -----

  /** Every numeric cell of the column stays within the column's digits and scale. */
  lemma {:induction false} TallyCovers<T>(measure: T -> Tally, cells: seq<T>, i: nat)
    requires i < |cells|
    ensures var t, c := TallyOf(measure, cells), measure(cells[i]);
            c.types <= t.types && c.digits <= t.digits && c.scale <= t.scale
  {
    var n := |cells| - 1;
    if i < n { TallyCovers(measure, cells[..n], i); }
  }

  /** A numeric cell is a numeral whose digits and scale its tally counts. */
  lemma NumericCell(rules: Rules, s: string)
    requires Sane(rules) && s != [] && IsNumeric(RecordedType(rules, s))
    ensures CellTally(rules, s).types == {RecordedType(rules, s)}
    ensures ReadNumeral(s).Some?
    ensures var n, t := Denoted(ReadNumeral(s).value), CellTally(rules, s);
            t.digits >= Digits(Abs(n.coefficient)) + n.exponent && t.scale >= 0 - n.exponent
  {
    assert !IsNumeric(rules.other(s));
  }

  lemma OneKind(types: set<CellType>, t: CellType)
    requires t in types && (MergeTypes(types) == Inferred(Fractional) || MergeTypes(types) == Inferred(Whole))
    ensures MergeTypes(types) == Inferred(Fractional) ==> IsNumeric(t)
    ensures MergeTypes(types) == Inferred(Whole) ==> t == Whole
  {
  }

  /** What the column's tally covers, the reported type stores. */
  lemma TallyFits(t: Tally, n: Number)
    requires t.digits >= Digits(Abs(n.coefficient)) + n.exponent && t.scale >= 0 - n.exponent
    requires MergeTypes(t.types) == Inferred(Fractional) && ColumnProfile(t).Success?
    ensures var p := ColumnProfile(t).value;
            p.precision <= MAX_PRECISION && Fits(n, p.precision, p.scale)
  {
    var p := ColumnProfile(t).value;
    DigitsBound(Abs(n.coefficient));
    RoomSuffices(n, Digits(Abs(n.coefficient)), t.digits, t.scale);
    var m :| Scaled(n, t.scale, m) && Abs(m) < Pow10(t.digits + t.scale);
    Pow10Grows(t.digits + t.scale, p.precision);
  }

  /** In a column inferred decimal the number every populated cell is read as is stored exactly. */
  lemma NumberIsStored(rules: Rules, cells: seq<string>, i: nat)
    requires Sane(rules) && i < |cells| && cells[i] != []
    requires MergeTypes(ColumnTally(rules, cells).types) == Inferred(Fractional)
    requires ColumnProfile(ColumnTally(rules, cells)).Success?
    ensures ReadNumeral(cells[i]).Some?
    ensures var p := ColumnProfile(ColumnTally(rules, cells)).value;
            && p.precision <= MAX_PRECISION
            && Fits(Denoted(ReadNumeral(cells[i]).value), p.precision, p.scale)
  {
    var t := ColumnTally(rules, cells);
    CellCovered(rules, cells, i);
    OneKind(t.types, RecordedType(rules, cells[i]));
    NumericCell(rules, cells[i]);
    TallyFits(t, Denoted(ReadNumeral(cells[i]).value));
  }

  lemma ScaleIsEnough(rules: Rules, cells: seq<string>, i: nat)
    requires Sane(rules) && i < |cells| && cells[i] != []
    requires MergeTypes(ColumnTally(rules, cells).types) == Inferred(Fractional)
    requires ColumnProfile(ColumnTally(rules, cells)).Success?
    ensures ReadNumeral(cells[i]).Some?
    ensures ColumnProfile(ColumnTally(rules, cells)).value.scale >= 0 - Denoted(ReadNumeral(cells[i]).value).exponent
  {
    CellCovered(rules, cells, i);
    OneKind(ColumnTally(rules, cells).types, RecordedType(rules, cells[i]));
    NumericCell(rules, cells[i]);
  }

  lemma CellCovered(rules: Rules, cells: seq<string>, i: nat)
    requires i < |cells| && cells[i] != []
    ensures var t, c := ColumnTally(rules, cells), CellTally(rules, cells[i]);
            RecordedType(rules, cells[i]) in t.types && c.digits <= t.digits && c.scale <= t.scale
  {
    TallyCovers(s => CellTally(rules, s), cells, i);
    assert RecordedType(rules, cells[i]) in CellTally(rules, cells[i]).types;
  }

  /** In a column inferred integer every populated cell is a readable whole number. */
  lemma WholeColumn(rules: Rules, cells: seq<string>, i: nat)
    requires Sane(rules) && i < |cells| && cells[i] != []
    requires MergeTypes(ColumnTally(rules, cells).types) == Inferred(Whole)
    ensures ReadNumeral(cells[i]).Some? && ValueType(rules, cells[i]) == Whole
  {
    CellCovered(rules, cells, i);
    OneKind(ColumnTally(rules, cells).types, RecordedType(rules, cells[i]));
    assert !IsNumeric(rules.other(cells[i]));
  }
}
