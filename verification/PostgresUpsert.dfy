/**
 The update upsert of the PostgreSQL load path.  Staged rows are reduced to the null-key
 rows plus the last staged row of each non-null key, and that set is merged by one
 INSERT ... ON CONFLICT DO UPDATE.  The theorem: whatever order the server takes the
 reduced rows in, the table is the one row-by-row application in write order would give,
 except for how a new key is spelled.  The server compares keys by its own equality, which
 may identify different texts (1.0 and 1.00, or two cases of a case-insensitive text).
 */
module PostgresUpsert {
  import opened Wrappers

  datatype Cell = Null | Value(text: string)
  type Columns = map<string, Cell>
  type Key = seq<Cell>

  /**
   A staged row: its conflict key as the server compares it, the texts of its key columns,
   and its values of the other loaded columns.  Rows conflict when their keys are the same.
   */
  datatype Row = Row(key: Key, spelling: Key, loaded: Columns)

  /** A destination row: its key columns, the other loaded columns, and columns the load does not supply. */
  datatype Stored = Stored(spelling: Key, loaded: Columns, rest: Columns)

  /** Rows that can conflict, by key; and rows that cannot, because their key holds a null. */
  datatype Table = Table(keyed: map<Key, Stored>, loose: multiset<(Key, Stored)>, defaults: Columns)

  predicate HasNull(key: Key) { Null in key }

  // ----- Row by row, in write order -----

  function Inserted(t: Table, row: Row): Stored { Stored(row.spelling, row.loaded, t.defaults) }

  /** DO UPDATE assigns every loaded column outside the key; the key columns and the rest stay. */
  function Assigned(existing: Stored, row: Row): Stored { existing.(loaded := row.loaded) }

  function ApplyRow(t: Table, row: Row): Table {
    if HasNull(row.key) then t.(loose := t.loose + multiset{(row.key, Inserted(t, row))})
    else if row.key in t.keyed then t.(keyed := t.keyed[row.key := Assigned(t.keyed[row.key], row)])
    else t.(keyed := t.keyed[row.key := Inserted(t, row)])
  }

  function ApplyRows(t: Table, rows: seq<Row>): Table
    decreases rows
  {
    if rows == [] then t else ApplyRows(ApplyRow(t, rows[0]), rows[1..])
  }

  // ----- The set-based statement -----

  /** How many staged rows carry `key`. */
  function KeyCount(rows: seq<Row>, key: Key): nat {
    if rows == [] then 0 else KeyCount(rows[1..], key) + if rows[0].key == key then 1 else 0
  }

  /**
   The reduced rows: every null-key row, and by DISTINCT ON the key with the latest staging
   sequence first, each row that no later staged row shares its key with.
   */
  function Source(rows: seq<Row>): seq<Row> {
    if rows == [] then []
    else if HasNull(rows[0].key) || KeyCount(rows[1..], rows[0].key) == 0 then [rows[0]] + Source(rows[1..])
    else Source(rows[1..])
  }

  /** One INSERT ... ON CONFLICT DO UPDATE; the server refuses to touch one key twice. */
  function Merge(t: Table, source: seq<Row>, touched: set<Key>): Result<Table, string>
    decreases source
  {
    if source == [] then Success(t)
    else if HasNull(source[0].key) then Merge(ApplyRow(t, source[0]), source[1..], touched)
    else if source[0].key in touched then
      Failure("ON CONFLICT DO UPDATE command cannot affect row a second time")
    else Merge(ApplyRow(t, source[0]), source[1..], touched + {source[0].key})
  }

  // ----- What row-by-row application amounts to -----

  /** `row` is the last staged row of its key. */
  predicate IsLast(rows: seq<Row>, row: Row) {
    rows != [] && (IsLast(rows[1..], row) || (row == rows[0] && KeyCount(rows[1..], row.key) == 0))
  }

  /** How the first staged row of `key` spells it. */
  function FirstSpelling(rows: seq<Row>, key: Key): Key
    requires KeyCount(rows, key) > 0
  {
    if rows[0].key == key then rows[0].spelling else FirstSpelling(rows[1..], key)
  }

  /** How the last staged row of `key` spells it. */
  function LastSpelling(rows: seq<Row>, key: Key): Key
    requires KeyCount(rows, key) > 0
  {
    if KeyCount(rows[1..], key) > 0 then LastSpelling(rows[1..], key) else rows[0].spelling
  }

  function LooseRow(t: Table, row: Row): multiset<(Key, Stored)> {
    if HasNull(row.key) then multiset{(row.key, Inserted(t, row))} else multiset{}
  }

  function LooseRows(t: Table, rows: seq<Row>): multiset<(Key, Stored)> {
    if rows == [] then multiset{} else LooseRow(t, rows[0]) + LooseRows(t, rows[1..])
  }

  lemma {:induction false} LooseReadsDefaults(t: Table, u: Table, rows: seq<Row>)
    requires t.defaults == u.defaults
    ensures LooseRows(t, rows) == LooseRows(u, rows)
  {
    if rows != [] { LooseReadsDefaults(t, u, rows[1..]); }
  }

  lemma {:induction false} AppliedLoose(t: Table, rows: seq<Row>)
    ensures ApplyRows(t, rows).loose == t.loose + LooseRows(t, rows)
    ensures ApplyRows(t, rows).defaults == t.defaults
    decreases rows
  {
    if rows != [] {
      AppliedLoose(ApplyRow(t, rows[0]), rows[1..]);
      LooseReadsDefaults(t, ApplyRow(t, rows[0]), rows[1..]);
    }
  }

  ghost predicate SettledOn(t: Table, rows: seq<Row>, key: Key, stored: Stored, row: Row)
    requires KeyCount(rows, key) > 0
  {
    && IsLast(rows, row) && row.key == key && stored.loaded == row.loaded
    && stored.spelling == (if key in t.keyed then t.keyed[key].spelling else FirstSpelling(rows, key))
    && stored.rest == (if key in t.keyed then t.keyed[key].rest else t.defaults)
  }

  /**
   A staged key ends on its last staged row, spelled as it was or, when it is new, as the first
   staged row spells it; any other key keeps its row.
   */
  lemma {:induction false} AppliedRow(t: Table, rows: seq<Row>, key: Key)
    ensures HasNull(key) || KeyCount(rows, key) == 0 ==>
              (key in ApplyRows(t, rows).keyed <==> key in t.keyed)
              && (key in t.keyed ==> ApplyRows(t, rows).keyed[key] == t.keyed[key])
    ensures !HasNull(key) && KeyCount(rows, key) > 0 ==>
              key in ApplyRows(t, rows).keyed
              && exists row :: SettledOn(t, rows, key, ApplyRows(t, rows).keyed[key], row)
    decreases rows
  {
    if rows != [] {
      var u := ApplyRow(t, rows[0]);
      AppliedRow(u, rows[1..], key);
      if !HasNull(key) && KeyCount(rows, key) > 0 {
        var stored := ApplyRows(t, rows).keyed[key];
        if KeyCount(rows[1..], key) > 0 {
          var row :| SettledOn(u, rows[1..], key, stored, row);
          assert SettledOn(t, rows, key, stored, row);
        } else {
          assert SettledOn(t, rows, key, stored, rows[0]);
        }
      }
    }
  }

  lemma {:induction false} LastIsThere(rows: seq<Row>, a: Row)
    requires IsLast(rows, a)
    ensures a in rows && KeyCount(rows, a.key) > 0 && LastSpelling(rows, a.key) == a.spelling
  {
    if IsLast(rows[1..], a) { LastIsThere(rows[1..], a); }
  }

  lemma {:induction false} LastIsUnique(rows: seq<Row>, a: Row, b: Row)
    requires IsLast(rows, a) && IsLast(rows, b) && a.key == b.key
    ensures a == b
  {
    if IsLast(rows[1..], a) { LastIsThere(rows[1..], a); }
    if IsLast(rows[1..], b) { LastIsThere(rows[1..], b); }
    if IsLast(rows[1..], a) && IsLast(rows[1..], b) { LastIsUnique(rows[1..], a, b); }
  }

  // ----- The reduced source -----

  predicate Distinct(source: seq<Row>, key: Key) { HasNull(key) || KeyCount(source, key) <= 1 }

  /** The source keeps which keys occur, once each, on the last staged row of each. */
  lemma {:induction false} SourceOfKey(rows: seq<Row>, key: Key)
    requires !HasNull(key)
    ensures KeyCount(Source(rows), key) == if KeyCount(rows, key) > 0 then 1 else 0
    ensures forall r :: IsLast(Source(rows), r) && r.key == key ==> IsLast(rows, r)
  {
    if rows != [] {
      SourceOfKey(rows[1..], key);
      if Source(rows) != Source(rows[1..]) { assert Source(rows)[1..] == Source(rows[1..]); }
    }
  }

  // ----- The statement, in any order -----

  /** Distinct keys never trip the second-touch error. */
  lemma {:induction false} MergeSucceeds(t: Table, source: seq<Row>, touched: set<Key>)
    requires forall k :: Distinct(source, k) && (k in touched ==> KeyCount(source, k) == 0)
    ensures Merge(t, source, touched) == Success(ApplyRows(t, source))
    decreases source
  {
    if source != [] {
      var touched' := if HasNull(source[0].key) then touched else touched + {source[0].key};
      assert Distinct(source, source[0].key);
      forall k ensures Distinct(source[1..], k) && (k in touched' ==> KeyCount(source[1..], k) == 0 || HasNull(k)) {
        assert Distinct(source, k);
      }
      forall k | k in touched' ensures KeyCount(source[1..], k) == 0 {
        assert Distinct(source, k) && (k in touched ==> KeyCount(source, k) == 0);
      }
      MergeSucceeds(ApplyRow(t, source[0]), source[1..], touched');
    }
  }

  lemma {:induction false} Removed(t: Table, rows: seq<Row>, i: nat)
    requires i < |rows|
    ensures var without := rows[..i] + rows[i + 1..];
            && LooseRows(t, rows) == LooseRows(t, without) + LooseRow(t, rows[i])
            && forall k :: KeyCount(rows, k) == KeyCount(without, k) + if rows[i].key == k then 1 else 0
  {
    var without := rows[..i] + rows[i + 1..];
    if i == 0 {
      assert without == rows[1..];
    } else {
      Removed(t, rows[1..], i - 1);
      assert without[1..] == rows[1..][..i - 1] + rows[1..][i..];
    }
  }

  lemma Removal<T>(a: seq<T>, b: seq<T>) returns (i: nat)
    requires a != [] && multiset(a) == multiset(b)
    ensures i < |b| && b[i] == a[0]
    ensures multiset(a[1..]) == multiset(b[..i] + b[i + 1..])
  {
    assert a == [a[0]] + a[1..];
    assert a[0] in multiset(b);
    i :| 0 <= i < |b| && b[i] == a[0];
    assert b == b[..i] + [b[i]] + b[i + 1..];
    calc {
      multiset(a[1..]);
      multiset(a) - multiset{a[0]};
      multiset(b[..i] + [b[i]] + b[i + 1..]) - multiset{b[i]};
      multiset(b[..i]) + multiset(b[i + 1..]);
      multiset(b[..i] + b[i + 1..]);
    }
  }

  /** Null-key insertions and key counts do not depend on the order of the rows. */
  lemma {:induction false} OrderIgnored(t: Table, a: seq<Row>, b: seq<Row>)
    requires multiset(a) == multiset(b)
    ensures LooseRows(t, a) == LooseRows(t, b)
    ensures forall k :: KeyCount(a, k) == KeyCount(b, k)
  {
    if a == [] {
      assert |multiset(b)| == |b|;
    } else {
      var i := Removal(a, b);
      Removed(t, b, i);
      OrderIgnored(t, a[1..], b[..i] + b[i + 1..]);
    }
  }

  lemma {:induction false} LooseOfSource(t: Table, rows: seq<Row>)
    ensures LooseRows(t, Source(rows)) == LooseRows(t, rows)
  {
    if rows != [] {
      LooseOfSource(t, rows[1..]);
      if HasNull(rows[0].key) || KeyCount(rows[1..], rows[0].key) == 0 {
        assert Source(rows)[1..] == Source(rows[1..]);
      }
    }
  }

  /** A key that occurs once sits on the same row in every order. */
  lemma {:induction false} OnlyRow(a: seq<Row>, row: Row)
    requires row in a && KeyCount(a, row.key) <= 1
    ensures IsLast(a, row) && KeyCount(a, row.key) == 1 && FirstSpelling(a, row.key) == row.spelling
  {
    if a[0] != row {
      OnlyRow(a[1..], row);
    } else if KeyCount(a[1..], row.key) == 0 {
    }
  }

  /** `key` is staged, not null and not yet in the table. */
  predicate IsNew(t: Table, staged: seq<Row>, key: Key) {
    !HasNull(key) && KeyCount(staged, key) > 0 && key !in t.keyed
  }

  /** What the statement leaves of a row that row-by-row application leaves as `stored`. */
  function Respelled(t: Table, staged: seq<Row>, key: Key, stored: Stored): Stored {
    if IsNew(t, staged, key) then stored.(spelling := LastSpelling(staged, key)) else stored
  }

  /** The row-by-row table, with every new key spelled as its last staged row spells it. */
  function Upserted(t: Table, staged: seq<Row>): Table {
    var applied := ApplyRows(t, staged);
    applied.(keyed := map k | k in applied.keyed :: Respelled(t, staged, k, applied.keyed[k]))
  }

  /** The first and the last staged row of every new key spell it alike. */
  ghost predicate SpelledAlike(t: Table, staged: seq<Row>) {
    forall k | IsNew(t, staged, k) :: FirstSpelling(staged, k) == LastSpelling(staged, k)
  }

  /**
   The set-based upsert is row-by-row application up to the spelling of new keys: for every
   order in which the server may take the reduced rows, the statement succeeds, and every
   column outside the key and every key already there is what applying all staged rows one by
   one, in write order, would leave.  A new key keeps its last staged spelling where row-by-row
   application keeps the first, so the tables are the same exactly when those agree.
   */
  lemma UpsertIsRowByRow(t: Table, staged: seq<Row>, taken: seq<Row>)
    requires multiset(taken) == multiset(Source(staged))
    ensures Merge(t, taken, {}) == Success(Upserted(t, staged))
    ensures Merge(t, taken, {}) == Success(ApplyRows(t, staged)) <==> SpelledAlike(t, staged)
  {
    OrderIgnored(t, taken, Source(staged));
    forall k ensures Distinct(taken, k) {
      if !HasNull(k) { SourceOfKey(staged, k); }
    }
    MergeSucceeds(t, taken, {});
    AppliedLoose(t, taken);
    AppliedLoose(t, staged);
    LooseOfSource(t, staged);
    var a, b := ApplyRows(t, taken), Upserted(t, staged);
    forall k ensures k in a.keyed <==> k in b.keyed { SameRow(t, staged, taken, k); }
    forall k | k in a.keyed ensures a.keyed[k] == b.keyed[k] { SameRow(t, staged, taken, k); }
    assert a.keyed.Keys == b.keyed.Keys;
    assert a.keyed == b.keyed;
    SpellingDecides(t, staged);
  }

  /** Both applications settle a key on the same row, its last staged one. */
  lemma SameRow(t: Table, staged: seq<Row>, taken: seq<Row>, k: Key)
    requires multiset(taken) == multiset(Source(staged))
    ensures k in ApplyRows(t, taken).keyed <==> k in ApplyRows(t, staged).keyed
    ensures k in ApplyRows(t, taken).keyed ==>
              ApplyRows(t, taken).keyed[k] == Respelled(t, staged, k, ApplyRows(t, staged).keyed[k])
  {
    AppliedRow(t, staged, k);
    AppliedRow(t, taken, k);
    if !HasNull(k) {
      OrderIgnored(t, taken, Source(staged));
      SourceOfKey(staged, k);
      if KeyCount(taken, k) > 0 {
        var a :| SettledOn(t, taken, k, ApplyRows(t, taken).keyed[k], a);
        var b :| SettledOn(t, staged, k, ApplyRows(t, staged).keyed[k], b);
        LastIsThere(taken, a);
        OnlyRow(taken, a);
        assert a in multiset(Source(staged));
        OnlyRow(Source(staged), a);
        LastIsUnique(staged, a, b);
        LastIsThere(staged, a);
      }
    }
  }

  /** Respelling is visible exactly on a new key whose first and last spellings differ. */
  lemma SpellingDecides(t: Table, staged: seq<Row>)
    ensures Upserted(t, staged) == ApplyRows(t, staged) <==> SpelledAlike(t, staged)
  {
    var applied := ApplyRows(t, staged);
    forall k | k in applied.keyed
      ensures Respelled(t, staged, k, applied.keyed[k]) == applied.keyed[k]
              <==> (IsNew(t, staged, k) ==> FirstSpelling(staged, k) == LastSpelling(staged, k)) {
      AppliedRow(t, staged, k);
    }
    forall k | IsNew(t, staged, k) ensures k in applied.keyed { AppliedRow(t, staged, k); }
    if SpelledAlike(t, staged) {
      assert Upserted(t, staged).keyed == applied.keyed;
    } else {
      var k :| IsNew(t, staged, k) && FirstSpelling(staged, k) != LastSpelling(staged, k);
      assert Upserted(t, staged).keyed[k] != applied.keyed[k];
    }
  }

  // ----- What the statement writes, staged row by staged row -----

  ghost predicate AllPresent(key: Key) { forall c :: 0 <= c < |key| ==> key[c] != Null }

  lemma HasNullExactly(key: Key)
    ensures HasNull(key) <==> !AllPresent(key)
  {
  }

  /** Staged row `j` is the last of its key. */
  ghost predicate LastOf(staged: seq<Row>, key: Key, j: nat) {
    j < |staged| && staged[j].key == key && forall k :: j < k < |staged| ==> staged[k].key != key
  }

  lemma {:induction false} Uncounted(rows: seq<Row>, key: Key)
    ensures KeyCount(rows, key) == 0 <==> forall k :: 0 <= k < |rows| ==> rows[k].key != key
  {
    if rows != [] {
      Uncounted(rows[1..], key);
      assert forall k :: 0 <= k < |rows[1..]| ==> rows[1..][k] == rows[k + 1];
      assert forall k :: 0 < k < |rows| ==> rows[k] == rows[1..][k - 1];
    }
  }

  lemma {:induction false} LastIsLast(staged: seq<Row>, key: Key, j: nat)
    requires LastOf(staged, key, j)
    ensures IsLast(staged, staged[j])
  {
    if j == 0 {
      Uncounted(staged[1..], key);
    } else {
      assert LastOf(staged[1..], key, j - 1) by {
        assert forall k :: j - 1 < k < |staged[1..]| ==> staged[1..][k] == staged[k + 1];
      }
      LastIsLast(staged[1..], key, j - 1);
    }
  }

  /**
   What the statement leaves for one key without nulls.  A staged key has the loaded columns of its
   last staged row; the columns the load does not supply keep their values, or are defaults in a new
   row; a key that is not staged keeps its row.
   */
  lemma StatementWrites(t: Table, staged: seq<Row>, taken: seq<Row>, key: Key, j: nat)
    requires multiset(taken) == multiset(Source(staged)) && AllPresent(key)
    ensures Merge(t, taken, {}).Success? && Merge(t, taken, {}).value.defaults == t.defaults
    ensures LastOf(staged, key, j) ==>
              var after := Merge(t, taken, {}).value.keyed;
              && key in after && after[key].loaded == staged[j].loaded
              && after[key].rest == (if key in t.keyed then t.keyed[key].rest else t.defaults)
              && after[key].spelling == (if key in t.keyed then t.keyed[key].spelling else staged[j].spelling)
    ensures (forall k :: 0 <= k < |staged| ==> staged[k].key != key) ==>
              var after := Merge(t, taken, {}).value.keyed;
              (key in after <==> key in t.keyed) && (key in t.keyed ==> after[key] == t.keyed[key])
  {
    UpsertIsRowByRow(t, staged, taken);
    AppliedLoose(t, staged);
    AppliedRow(t, staged, key);
    HasNullExactly(key);
    Uncounted(staged, key);
    if LastOf(staged, key, j) {
      LastIsLast(staged, key, j);
      LastIsThere(staged, staged[j]);
      var row :| SettledOn(t, staged, key, ApplyRows(t, staged).keyed[key], row);
      LastIsUnique(staged, row, staged[j]);
    }
  }

  /** The staged rows with a null in their key that are inserted as `entry`. */
  ghost function InsertedAs(t: Table, staged: seq<Row>, entry: (Key, Stored)): set<int> {
    set i | 0 <= i < |staged| && InsertsAs(t, staged[i], entry)
  }

  ghost predicate InsertsAs(t: Table, row: Row, entry: (Key, Stored)) {
    !AllPresent(row.key) && entry == (row.key, Stored(row.spelling, row.loaded, t.defaults))
  }

  lemma InsertedAsOn(t: Table, rows: seq<Row>, row: Row, entry: (Key, Stored))
    ensures |InsertedAs(t, rows + [row], entry)| ==
            |InsertedAs(t, rows, entry)| + if InsertsAs(t, row, entry) then 1 else 0
  {
    var more := rows + [row];
    assert forall i :: 0 <= i < |rows| ==> more[i] == rows[i];
    assert InsertedAs(t, more, entry) ==
           InsertedAs(t, rows, entry) + if InsertsAs(t, row, entry) then {|rows|} else {};
  }

  lemma LooseRowOf(t: Table, row: Row, entry: (Key, Stored))
    ensures LooseRow(t, row)[entry] == if InsertsAs(t, row, entry) then 1 else 0
  {
    HasNullExactly(row.key);
  }

  lemma {:induction false} LooseAppended(t: Table, rows: seq<Row>, row: Row)
    ensures LooseRows(t, rows + [row]) == LooseRows(t, rows) + LooseRow(t, row)
  {
    if rows == [] {
      assert [row][1..] == [] && [] + [row] == [row];
    } else {
      assert (rows + [row])[1..] == rows[1..] + [row];
      LooseAppended(t, rows[1..], row);
    }
  }

  lemma {:induction false} LooseCounts(t: Table, staged: seq<Row>, entry: (Key, Stored))
    ensures LooseRows(t, staged)[entry] == |InsertedAs(t, staged, entry)|
  {
    if staged != [] {
      var n := |staged| - 1;
      var init, row := staged[..n], staged[n];
      LooseCounts(t, init, entry);
      assert staged == init + [row];
      LooseAppended(t, init, row);
      InsertedAsOn(t, init, row, entry);
      LooseRowOf(t, row, entry);
    }
  }

  /** Every staged row with a null in its key is inserted, once each, with what it loads and the defaults. */
  lemma StatementInserts(t: Table, staged: seq<Row>, taken: seq<Row>, entry: (Key, Stored))
    requires multiset(taken) == multiset(Source(staged))
    ensures Merge(t, taken, {}).Success?
    ensures Merge(t, taken, {}).value.loose[entry] == t.loose[entry] + |InsertedAs(t, staged, entry)|
  {
    UpsertIsRowByRow(t, staged, taken);
    AppliedLoose(t, staged);
    LooseCounts(t, staged, entry);
  }

  // ----- Row counts and repetition -----

  function NullRows(rows: seq<Row>): nat {
    if rows == [] then 0 else NullRows(rows[1..]) + if HasNull(rows[0].key) then 1 else 0
  }

  function NonNullKeys(rows: seq<Row>): set<Key> {
    if rows == [] then {} else NonNullKeys(rows[1..]) + if HasNull(rows[0].key) then {} else {rows[0].key}
  }

  lemma {:induction false} KeysAreCounted(rows: seq<Row>, k: Key)
    ensures k in NonNullKeys(rows) <==> !HasNull(k) && KeyCount(rows, k) > 0
  {
    if rows != [] { KeysAreCounted(rows[1..], k); }
  }

  lemma {:induction false} SourceLength(staged: seq<Row>)
    ensures |Source(staged)| == NullRows(staged) + |NonNullKeys(staged)|
  {
    if staged != [] {
      var key := staged[0].key;
      SourceLength(staged[1..]);
      KeysAreCounted(staged[1..], key);
      if key in NonNullKeys(staged[1..]) {
        assert NonNullKeys(staged) == NonNullKeys(staged[1..]);
      }
    }
  }

  lemma {:induction false} NullRowsAppended(rows: seq<Row>, row: Row)
    ensures NullRows(rows + [row]) == NullRows(rows) + if HasNull(row.key) then 1 else 0
  {
    if rows == [] {
      assert [row][1..] == [] && [] + [row] == [row];
    } else {
      assert (rows + [row])[1..] == rows[1..] + [row];
      NullRowsAppended(rows[1..], row);
    }
  }

  ghost function RowsWithNull(staged: seq<Row>): set<int> {
    set i | 0 <= i < |staged| && !AllPresent(staged[i].key)
  }

  ghost function KeysPresent(staged: seq<Row>): set<Key> {
    set i | 0 <= i < |staged| && AllPresent(staged[i].key) :: staged[i].key
  }

  lemma RowsWithNullOn(rows: seq<Row>, row: Row)
    ensures |RowsWithNull(rows + [row])| == |RowsWithNull(rows)| + if AllPresent(row.key) then 0 else 1
  {
    var more := rows + [row];
    assert forall i :: 0 <= i < |rows| ==> more[i] == rows[i];
    assert RowsWithNull(more) == RowsWithNull(rows) + if AllPresent(row.key) then {} else {|rows|};
  }

  lemma {:induction false} NullRowsCounted(staged: seq<Row>)
    ensures NullRows(staged) == |RowsWithNull(staged)|
  {
    if staged != [] {
      var n := |staged| - 1;
      NullRowsCounted(staged[..n]);
      assert staged == staged[..n] + [staged[n]];
      NullRowsAppended(staged[..n], staged[n]);
      HasNullExactly(staged[n].key);
      RowsWithNullOn(staged[..n], staged[n]);
    }
  }

  /** The expected row count, null-key rows plus distinct keys without nulls, is how many rows are touched. */
  lemma ExpectedRowsAreTouchedRows(staged: seq<Row>)
    ensures NullRows(staged) + |NonNullKeys(staged)| == |RowsWithNull(staged)| + |KeysPresent(staged)|
    ensures |Source(staged)| == |RowsWithNull(staged)| + |KeysPresent(staged)|
  {
    SourceLength(staged);
    NullRowsCounted(staged);
    forall key ensures key in NonNullKeys(staged) <==> key in KeysPresent(staged) {
      KeysAreCounted(staged, key);
      Uncounted(staged, key);
      HasNullExactly(key);
    }
    assert NonNullKeys(staged) == KeysPresent(staged);
  }

  /** Without null keys, loading the same rows again changes nothing. */
  lemma RepeatingChangesNothing(t: Table, staged: seq<Row>)
    requires NullRows(staged) == 0
    ensures ApplyRows(ApplyRows(t, staged), staged) == ApplyRows(t, staged)
  {
    var once := ApplyRows(t, staged);
    var twice := ApplyRows(once, staged);
    AppliedLoose(t, staged);
    AppliedLoose(once, staged);
    NoLooseRows(once, staged);
    forall k ensures (k in once.keyed <==> k in twice.keyed) && (k in once.keyed ==> twice.keyed[k] == once.keyed[k]) {
      AppliedRow(t, staged, k);
      AppliedRow(once, staged, k);
      if !HasNull(k) && KeyCount(staged, k) > 0 {
        var a :| SettledOn(t, staged, k, once.keyed[k], a);
        var b :| SettledOn(once, staged, k, twice.keyed[k], b);
        LastIsUnique(staged, a, b);
      }
    }
    assert twice.keyed.Keys == once.keyed.Keys;
    assert twice.keyed == once.keyed;
  }

  lemma {:induction false} NoLooseRows(t: Table, rows: seq<Row>)
    requires NullRows(rows) == 0
    ensures LooseRows(t, rows) == multiset{}
  {
    if rows != [] { NoLooseRows(t, rows[1..]); }
  }
}
