/**
 The text a batch is copied in: every value quoted, quotes doubled, nulls as an unquoted
 `\N`, bytes as quoted hexadecimal.  The reader follows the quoting rules of section 2 of
 RFC 4180 with unquoted `\N` as null.
 */
module CopyCsv {
  import opened Wrappers

  type Byte = b: int | 0 <= b < 256

  datatype Field = Missing | Text(text: string) | Binary(bytes: seq<Byte>)

  // ----- The encoder -----

  function HexDigit(n: int): char
    requires 0 <= n < 16
  {
    "0123456789abcdef"[n]
  }

  function Hex(bytes: seq<Byte>): string {
    if bytes == [] then [] else [HexDigit(bytes[0] / 16), HexDigit(bytes[0] % 16)] + Hex(bytes[1..])
  }

  function Doubled(text: string): string {
    if text == [] then [] else (if text[0] == '"' then "\"\"" else [text[0]]) + Doubled(text[1..])
  }

  /** The value a field stands for once copied: null, or its text. */
  function Meaning(f: Field): Option<string> {
    match f
    case Missing => None
    case Text(text) => Some(text)
    case Binary(bytes) => Some("\\x" + Hex(bytes))
  }

  function EncodeField(f: Field): string {
    if Meaning(f).None? then "\\N" else "\"" + Doubled(Meaning(f).value) + "\""
  }

  function EncodeFields(row: seq<Field>): string {
    if row == [] then []
    else if |row| == 1 then EncodeField(row[0])
    else EncodeField(row[0]) + "," + EncodeFields(row[1..])
  }

  function Encode(rows: seq<seq<Field>>): string {
    if rows == [] then [] else EncodeFields(rows[0]) + "\n" + Encode(rows[1..])
  }

  // ----- The encoder as the connector runs it -----

  method WriteField(f: Field) returns (field: string)
    ensures field == EncodeField(f)
    ensures f.Missing? ==> field == "\\N"
    ensures !f.Missing? ==> |field| >= 2 && field[0] == '"' && field[|field| - 1] == '"'
  {
    if f.Missing? {
      return "\\N";
    }
    var value := if f.Binary? then "\\x" + Hex(f.bytes) else f.text;
    var doubled := Double(value);
    field := "\"" + doubled + "\"";
  }

  lemma Regroup(a: string, b: string, c: string)
    ensures (a + b) + c == a + (b + c)
  {
  }

  /** Quotes doubled, one character at a time. */
  method Double(value: string) returns (doubled: string)
    ensures doubled == Doubled(value)
  {
    doubled := [];
    var i := 0;
    while i < |value|
      invariant 0 <= i <= |value|
      invariant doubled + Doubled(value[i..]) == Doubled(value)
    {
      var next := if value[i] == '"' then "\"\"" else [value[i]];
      assert Doubled(value[i..]) == next + Doubled(value[i + 1..]) by { assert value[i..][1..] == value[i + 1..]; }
      Regroup(doubled, next, Doubled(value[i + 1..]));
      doubled := doubled + next;
      i := i + 1;
    }
    assert doubled + [] == doubled;
  }

  function Join(fields: seq<string>): string {
    if fields == [] then [] else if |fields| == 1 then fields[0] else fields[0] + "," + Join(fields[1..])
  }

  lemma {:induction false} JoinIsEncode(fields: seq<string>, row: seq<Field>)
    requires |fields| == |row| && forall i :: 0 <= i < |row| ==> fields[i] == EncodeField(row[i])
    ensures Join(fields) == EncodeFields(row)
  {
    if |row| > 1 { JoinIsEncode(fields[1..], row[1..]); }
  }

  /** One row, field by field. */
  method WriteRow(row: seq<Field>) returns (line: string)
    ensures line == EncodeFields(row) + "\n"
  {
    var fields := [];
    var c := 0;
    while c < |row|
      invariant 0 <= c <= |row| && |fields| == c
      invariant forall i :: 0 <= i < c ==> fields[i] == EncodeField(row[i])
    {
      var field := WriteField(row[c]);
      fields := fields + [field];
      c := c + 1;
    }
    JoinIsEncode(fields, row);
    return Join(fields) + "\n";
  }

  /** `write_batch`: rows into one buffer. */
  method WriteBatch(rows: seq<seq<Field>>) returns (buffer: string)
    ensures buffer == Encode(rows)
  {
    buffer := [];
    var r := 0;
    while r < |rows|
      invariant 0 <= r <= |rows|
      invariant buffer + Encode(rows[r..]) == Encode(rows)
    {
      var line := WriteRow(rows[r]);
      assert rows[r..][1..] == rows[r + 1..];
      assert buffer + (line + Encode(rows[r + 1..])) == (buffer + line) + Encode(rows[r + 1..]);
      buffer := buffer + line;
      r := r + 1;
    }
    assert buffer + [] == buffer;
  }

  // ----- The reader -----

  datatype ReadError = UnterminatedQuote | TextAfterQuote | BareQuote

  /** The rest of a quoted field and of the input after its closing quote. */
  function ReadQuoted(s: string): (r: Result<(string, string), ReadError>)
    ensures r.Success? ==> |r.value.1| < |s|
  {
    if s == [] then Failure(UnterminatedQuote)
    else if s[0] != '"' then
      var rest := ReadQuoted(s[1..]);
      if rest.Failure? then rest else Success(([s[0]] + rest.value.0, rest.value.1))
    else if |s| > 1 && s[1] == '"' then
      var rest := ReadQuoted(s[2..]);
      if rest.Failure? then rest else Success((['"'] + rest.value.0, rest.value.1))
    else Success(([], s[1..]))
  }

  function ReadBare(s: string): (r: Result<(string, string), ReadError>)
    ensures r.Success? ==> |r.value.1| <= |s|
  {
    if s == [] || s[0] == ',' || s[0] == '\n' then Success(([], s))
    else if s[0] == '"' then Failure(BareQuote)
    else
      var rest := ReadBare(s[1..]);
      if rest.Failure? then rest else Success(([s[0]] + rest.value.0, rest.value.1))
  }

  function ReadField(s: string): (r: Result<(Option<string>, string), ReadError>)
    ensures r.Success? ==> |r.value.1| <= |s|
  {
    if s != [] && s[0] == '"' then
      var quoted := ReadQuoted(s[1..]);
      if quoted.Failure? then Failure(quoted.error) else Success((Some(quoted.value.0), quoted.value.1))
    else
      var bare := ReadBare(s);
      if bare.Failure? then Failure(bare.error)
      else Success((if bare.value.0 == "\\N" then None else Some(bare.value.0), bare.value.1))
  }

  function ReadRecord(s: string): (r: Result<(seq<Option<string>>, string), ReadError>)
    ensures r.Success? ==> r.value.0 != [] && (|r.value.1| < |s| || s == [])
    decreases |s|
  {
    var field := ReadField(s);
    if field.Failure? then Failure(field.error)
    else
      var rest := field.value.1;
      if rest == [] then Success(([field.value.0], rest))
      else if rest[0] == '\n' then Success(([field.value.0], rest[1..]))
      else if rest[0] == ',' then
        var more := ReadRecord(rest[1..]);
        if more.Failure? then more else Success(([field.value.0] + more.value.0, more.value.1))
      else Failure(TextAfterQuote)
  }

  function Read(s: string): (r: Result<seq<seq<Option<string>>>, ReadError>)
    ensures r.Success? ==> forall i :: 0 <= i < |r.value| ==> r.value[i] != []
    decreases |s|
  {
    if s == [] then Success([])
    else
      var record := ReadRecord(s);
      if record.Failure? then Failure(record.error)
      else
        var rest := Read(record.value.1);
        if rest.Failure? then rest else Success([record.value.0] + rest.value)
  }

  // ----- Round trip -----

  function Meanings(row: seq<Field>): seq<Option<string>> {
    seq(|row|, i requires 0 <= i < |row| => Meaning(row[i]))
  }

  function AllMeanings(rows: seq<seq<Field>>): seq<seq<Option<string>>> {
    seq(|rows|, i requires 0 <= i < |rows| => Meanings(rows[i]))
  }

  predicate AllHaveColumns(rows: seq<seq<Field>>) {
    forall i :: 0 <= i < |rows| ==> rows[i] != []
  }

  /** The encoder's text continues with a separator, never with a quote. */
  predicate Separated(rest: string) { rest != [] && (rest[0] == ',' || rest[0] == '\n') }

  lemma {:induction false} QuotedReadsBack(text: string, rest: string)
    requires Separated(rest)
    ensures ReadQuoted(Doubled(text) + "\"" + rest) == Success((text, rest))
  {
    var s := Doubled(text) + "\"" + rest;
    if text == [] {
      assert s == "\"" + rest;
      assert s[1..] == rest;
    } else {
      QuotedReadsBack(text[1..], rest);
      var tail := Doubled(text[1..]) + "\"" + rest;
      if text[0] == '"' {
        assert s == "\"\"" + tail;
        assert s[2..] == tail;
      } else {
        assert s == [text[0]] + tail;
        assert s[1..] == tail;
      }
      assert text == [text[0]] + text[1..];
    }
  }

  lemma NullReadsBack(rest: string)
    requires Separated(rest)
    ensures ReadField("\\N" + rest) == Success((None, rest))
  {
    var s := "\\N" + rest;
    assert s[0] == '\\' && s[1..] == "N" + rest && s[1..][0] == 'N' && s[1..][1..] == rest;
    assert ReadBare(rest) == Success(([], rest));
    assert ['N'] + [] == ['N'] && ReadBare(s[1..]) == Success((['N'], rest));
    assert ReadBare(s) == Success((['\\'] + ['N'], rest));
  }

  lemma RegroupQuoted(doubled: string, rest: string)
    ensures ("\"" + doubled + "\"") + rest == "\"" + (doubled + "\"" + rest)
  {
  }

  lemma ReadsQuoted(s: string, text: string, rest: string)
    requires ReadQuoted(s) == Success((text, rest))
    ensures ReadField("\"" + s) == Success((Some(text), rest))
  {
    assert ("\"" + s)[1..] == s;
  }

  lemma FieldReadsBack(f: Field, rest: string)
    requires Separated(rest)
    ensures ReadField(EncodeField(f) + rest) == Success((Meaning(f), rest))
  {
    if f.Missing? {
      NullReadsBack(rest);
    } else {
      var text := Meaning(f).value;
      QuotedReadsBack(text, rest);
      RegroupQuoted(Doubled(text), rest);
      ReadsQuoted(Doubled(text) + "\"" + rest, text, rest);
    }
  }

  lemma LastFieldReadsBack(f: Field, rest: string)
    ensures ReadRecord(EncodeField(f) + ("\n" + rest)) == Success(([Meaning(f)], rest))
  {
    FieldReadsBack(f, "\n" + rest);
    assert ("\n" + rest)[1..] == rest;
  }

  lemma FieldReadsOn(f: Field, tail: string, more: seq<Option<string>>, rest: string)
    requires ReadRecord(tail) == Success((more, rest))
    ensures ReadRecord(EncodeField(f) + ("," + tail)) == Success(([Meaning(f)] + more, rest))
  {
    FieldReadsBack(f, "," + tail);
    assert ("," + tail)[1..] == tail;
  }

  lemma RegroupRecord(first: string, more: string, rest: string)
    ensures (first + "," + more) + "\n" + rest == first + ("," + (more + "\n" + rest))
  {
  }

  lemma OneFieldReadsBack(f: Field, rest: string)
    ensures ReadRecord(EncodeField(f) + "\n" + rest) == Success(([Meaning(f)], rest))
  {
    Regroup(EncodeField(f), "\n", rest);
    LastFieldReadsBack(f, rest);
  }

  lemma MoreFieldsReadBack(f: Field, more: string, read: seq<Option<string>>, rest: string)
    requires ReadRecord(more + "\n" + rest) == Success((read, rest))
    ensures ReadRecord((EncodeField(f) + "," + more) + "\n" + rest) == Success(([Meaning(f)] + read, rest))
  {
    RegroupRecord(EncodeField(f), more, rest);
    FieldReadsOn(f, more + "\n" + rest, read, rest);
  }

  lemma {:induction false} RecordReadsBack(row: seq<Field>, rest: string)
    requires row != []
    ensures ReadRecord(EncodeFields(row) + "\n" + rest) == Success((Meanings(row), rest))
  {
    if |row| == 1 {
      OneFieldReadsBack(row[0], rest);
      assert Meanings(row) == [Meaning(row[0])];
    } else {
      RecordReadsBack(row[1..], rest);
      MoreFieldsReadBack(row[0], EncodeFields(row[1..]), Meanings(row[1..]), rest);
      assert Meanings(row) == [Meaning(row[0])] + Meanings(row[1..]);
    }
  }

  lemma ReadsOn(s: string, record: seq<Option<string>>, rest: string, more: seq<seq<Option<string>>>)
    requires s != [] && ReadRecord(s) == Success((record, rest)) && Read(rest) == Success(more)
    ensures Read(s) == Success([record] + more)
  {
  }

  lemma AllMeaningsGrow(rows: seq<seq<Field>>)
    requires rows != []
    ensures AllMeanings(rows) == [Meanings(rows[0])] + AllMeanings(rows[1..])
  {
  }

  lemma {:induction false} RowsReadBack(rows: seq<seq<Field>>)
    requires AllHaveColumns(rows)
    ensures Read(Encode(rows)) == Success(AllMeanings(rows))
  {
    if rows != [] {
      var row, later := rows[0], rows[1..];
      RowsReadBack(later);
      RecordReadsBack(row, Encode(later));
      ReadsOn(EncodeFields(row) + "\n" + Encode(later), Meanings(row), Encode(later), AllMeanings(later));
      AllMeaningsGrow(rows);
    } else {
      assert AllMeanings(rows) == [];
    }
  }

  // ----- Bytes -----

  function HexValue(c: char): Option<int> {
    if '0' <= c <= '9' then Some(c as int - '0' as int)
    else if 'a' <= c <= 'f' then Some(c as int - 'a' as int + 10)
    else None
  }

  /** The inverse of the hexadecimal text, on text that is one. */
  function Unhex(s: string): Option<seq<Byte>> {
    if s == [] then Some([])
    else if |s| == 1 then None
    else
      var high, low, rest := HexValue(s[0]), HexValue(s[1]), Unhex(s[2..]);
      if high.None? || low.None? || rest.None? then None
      else Some([Joined(high.value, low.value)] + rest.value)
  }

  function Joined(high: int, low: int): Byte {
    if 0 <= high < 16 && 0 <= low < 16 then high * 16 + low else 0
  }

  /** Bytes survive the copy: their hexadecimal text determines them. */
  lemma {:induction false} BytesReadBack(bytes: seq<Byte>)
    ensures Unhex(Hex(bytes)) == Some(bytes)
  {
    if bytes != [] {
      BytesReadBack(bytes[1..]);
      var s := Hex(bytes);
      assert s[2..] == Hex(bytes[1..]);
      DigitReadsBack(bytes[0] / 16);
      DigitReadsBack(bytes[0] % 16);
      assert bytes == [bytes[0]] + bytes[1..];
    }
  }

  lemma DigitReadsBack(n: int)
    requires 0 <= n < 16
    ensures HexValue(HexDigit(n)) == Some(n)
  {
  }

  // ----- The rows as they were -----

  /** What was read is the field: null for null, the text itself, `\\x` and two small hexadecimal digits a byte. */
  ghost predicate IsField(read: Option<string>, f: Field) {
    match f
    case Missing => read == None
    case Text(text) => read == Some(text)
    case Binary(bytes) =>
      && read.Some? && |read.value| == 2 + 2 * |bytes| && read.value[0] == '\\' && read.value[1] == 'x'
      && Unhex(read.value[2..]) == Some(bytes)
      && forall i :: 2 <= i < |read.value| ==> '0' <= read.value[i] <= '9' || 'a' <= read.value[i] <= 'f'
  }

  /** Row by row and field by field. */
  ghost predicate AreFields(read: seq<seq<Option<string>>>, rows: seq<seq<Field>>) {
    |read| == |rows| && forall i :: 0 <= i < |rows| ==>
      |read[i]| == |rows[i]| && forall c :: 0 <= c < |rows[i]| ==> IsField(read[i][c], rows[i][c])
  }

  lemma {:induction false} HexIsHex(bytes: seq<Byte>)
    ensures |Hex(bytes)| == 2 * |bytes|
    ensures forall i :: 0 <= i < |Hex(bytes)| ==> '0' <= Hex(bytes)[i] <= '9' || 'a' <= Hex(bytes)[i] <= 'f'
  {
    if bytes != [] { HexIsHex(bytes[1..]); }
  }

  /** The two digits of a byte, the higher first. */
  lemma {:induction false} UnhexedAt(s: string, i: nat)
    requires Unhex(s).Some? && i < |Unhex(s).value|
    ensures 2 * i + 1 < |s|
    ensures HexValue(s[2 * i]).Some? && HexValue(s[2 * i + 1]).Some?
    ensures Unhex(s).value[i] == 16 * HexValue(s[2 * i]).value + HexValue(s[2 * i + 1]).value
    decreases i
  {
    if i > 0 {
      UnhexedAt(s[2..], i - 1);
      assert s[2..][2 * (i - 1)] == s[2 * i] && s[2..][2 * (i - 1) + 1] == s[2 * i + 1];
    }
  }

  lemma MeaningIsField(f: Field)
    ensures IsField(Meaning(f), f)
  {
    if f.Binary? {
      HexIsHex(f.bytes);
      BytesReadBack(f.bytes);
      assert ("\\x" + Hex(f.bytes))[2..] == Hex(f.bytes);
    }
  }

  /** Reading the emitted text gives every field of every row back exactly when no row is without columns. */
  lemma RoundTrip(rows: seq<seq<Field>>)
    ensures Read(Encode(rows)).Success? && AreFields(Read(Encode(rows)).value, rows) <==> AllHaveColumns(rows)
  {
    if AllHaveColumns(rows) {
      RowsReadBack(rows);
      forall i, c | 0 <= i < |rows| && 0 <= c < |rows[i]| ensures IsField(AllMeanings(rows)[i][c], rows[i][c]) {
        MeaningIsField(rows[i][c]);
      }
    } else {
      var i :| 0 <= i < |rows| && rows[i] == [];
      assert Read(Encode(rows)).Success? ==> forall k :: 0 <= k < |Read(Encode(rows)).value| ==>
                                               Read(Encode(rows)).value[k] != [];
    }
  }
}
