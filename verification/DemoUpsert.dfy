/**
 The emulated PostgreSQL upsert: a row list with an index from key to position, kept up to date
 row by row.  On rows that satisfy the conflict key's uniqueness it is a keyed merge.
 A column a row does not carry reads as null.
 */
module DemoUpsert {
  import opened Wrappers

  datatype Cell = Null | Int(n: int) | Other(text: string)

  type Row = map<string, Cell>
  type Key = seq<Cell>

  datatype Fault = SchemaDrift | DestinationConflict | UnsupportedType

  function Get(row: Row, name: string): Cell { if name in row then row[name] else Null }

  function KeyOf(row: Row, columns: seq<string>): (key: Key)
    ensures |key| == |columns|
    ensures forall i :: 0 <= i < |columns| ==> key[i] == if columns[i] in row then row[columns[i]] else Null
  {
    seq(|columns|, i requires 0 <= i < |columns| => Get(row, columns[i]))
  }

  predicate Full(key: Key) { forall i :: 0 <= i < |key| ==> key[i] != Null }

  /** No two rows share a key without nulls. */
  ghost predicate Distinct(rows: seq<Row>, columns: seq<string>) {
    forall i, j :: 0 <= i < j < |rows| && Full(KeyOf(rows[i], columns)) ==>
                     KeyOf(rows[i], columns) != KeyOf(rows[j], columns)
  }

  /** The incoming row, with the preserved columns of the row it replaces. */
  function Overwrite(incoming: Row, previous: Row, preserve: set<string>): (r: Row) {
    incoming + map name | name in preserve :: Get(previous, name)
  }

  lemma OverwriteKeepsKey(incoming: Row, previous: Row, preserve: set<string>, columns: seq<string>)
    requires KeyOf(incoming, columns) == KeyOf(previous, columns)
    ensures KeyOf(Overwrite(incoming, previous, preserve), columns) == KeyOf(previous, columns)
  {
    var merged := Overwrite(incoming, previous, preserve);
    forall i | 0 <= i < |columns| ensures Get(merged, columns[i]) == Get(previous, columns[i]) {
      assert KeyOf(incoming, columns)[i] == KeyOf(previous, columns)[i];
    }
  }

  // ----- Row by row, without an index -----

  /** The last position that holds `key`. */
  function Find(rows: seq<Row>, columns: seq<string>, key: Key): (p: Option<nat>)
    ensures p.Some? ==> p.value < |rows| && KeyOf(rows[p.value], columns) == key
    ensures p.None? ==> forall i :: 0 <= i < |rows| ==> KeyOf(rows[i], columns) != key
    decreases rows
  {
    if rows == [] then None
    else if KeyOf(rows[|rows| - 1], columns) == key then Some(|rows| - 1)
    else Find(rows[..|rows| - 1], columns, key)
  }

  lemma {:induction false} FindAfterOverwrite(rows: seq<Row>, columns: seq<string>, key: Key, p: nat, row: Row)
    requires p < |rows| && KeyOf(row, columns) == KeyOf(rows[p], columns)
    ensures Find(rows[p := row], columns, key) == Find(rows, columns, key)
    decreases rows
  {
    var n := |rows| - 1;
    if p < n {
      assert rows[p := row][..n] == rows[..n][p := row];
      FindAfterOverwrite(rows[..n], columns, key, p, row);
    } else {
      assert rows[p := row][..n] == rows[..n];
    }
  }

  lemma FindAfterAppend(rows: seq<Row>, columns: seq<string>, key: Key, row: Row)
    ensures Find(rows + [row], columns, key) ==
            if KeyOf(row, columns) == key then Some(|rows|) else Find(rows, columns, key)
  {
    assert (rows + [row])[..|rows|] == rows;
  }

  datatype Progress = Progress(rows: seq<Row>, updated: set<Key>, loaded: nat)

  datatype Upsert = Upsert(conflict: seq<string>, update: bool, preserve: set<string>)

  /** One incoming row. */
  function Step(u: Upsert, s: Progress, row: Row): Result<Progress, Fault> {
    var key := KeyOf(row, u.conflict);
    var position := if Full(key) then Find(s.rows, u.conflict, key) else None;
    if position.None? then Success(Progress(s.rows + [row], s.updated, s.loaded + 1))
    else if !u.update then Success(s)
    else if key in s.updated then Failure(DestinationConflict)
    else Success(Progress(s.rows[position.value := Overwrite(row, s.rows[position.value], u.preserve)],
                          s.updated + {key}, s.loaded + 1))
  }

  function Steps(u: Upsert, existing: seq<Row>, incoming: seq<Row>): Result<Progress, Fault> {
    if incoming == [] then Success(Progress(existing, {}, 0))
    else
      var before := Steps(u, existing, incoming[..|incoming| - 1]);
      if before.Failure? then before else Step(u, before.value, incoming[|incoming| - 1])
  }

  lemma StepsOn(u: Upsert, existing: seq<Row>, incoming: seq<Row>, i: nat)
    requires i < |incoming| && Steps(u, existing, incoming[..i]).Success?
    ensures Steps(u, existing, incoming[..i + 1]) == Step(u, Steps(u, existing, incoming[..i]).value, incoming[i])
  {
    assert incoming[..i + 1][..i] == incoming[..i];
  }

  // ----- The indexed loop -----

  /** The index finds, for every key without nulls, the last position that holds it. */
  ghost predicate Indexes(index: map<Key, nat>, rows: seq<Row>, columns: seq<string>) {
    forall key: Key :: Full(key) ==> Find(rows, columns, key) == if key in index then Some(index[key]) else None
  }

  lemma IndexAppended(index: map<Key, nat>, rows: seq<Row>, columns: seq<string>, row: Row)
    requires Indexes(index, rows, columns)
    ensures Indexes(index[KeyOf(row, columns) := |rows|], rows + [row], columns)
  {
    forall key: Key | Full(key)
      ensures Find(rows + [row], columns, key) ==
              var next := index[KeyOf(row, columns) := |rows|]; if key in next then Some(next[key]) else None
    {
      FindAfterAppend(rows, columns, key, row);
    }
  }

  lemma IndexOverwritten(index: map<Key, nat>, rows: seq<Row>, columns: seq<string>, p: nat, row: Row)
    requires Indexes(index, rows, columns)
    requires p < |rows| && KeyOf(row, columns) == KeyOf(rows[p], columns)
    ensures Indexes(index, rows[p := row], columns)
  {
    forall key: Key | Full(key) ensures Find(rows[p := row], columns, key) == Find(rows, columns, key) {
      FindAfterOverwrite(rows, columns, key, p, row);
    }
  }

  /** The initial index; a later row of the same key overwrites an earlier one. */
  method IndexRows(rows: seq<Row>, columns: seq<string>) returns (index: map<Key, nat>)
    ensures Indexes(index, rows, columns)
  {
    index := map[];
    var i := 0;
    while i < |rows|
      invariant 0 <= i <= |rows|
      invariant Indexes(index, rows[..i], columns)
    {
      var key := KeyOf(rows[i], columns);
      assert rows[..i + 1] == rows[..i] + [rows[i]];
      IndexAppended(index, rows[..i], columns, rows[i]);
      if Full(key) {
        index := index[key := i];
      } else {
        forall k: Key | Full(k) ensures Find(rows[..i + 1], columns, k) == Find(rows[..i], columns, k) {
          FindAfterAppend(rows[..i], columns, k, rows[i]);
        }
      }
      i := i + 1;
    }
    assert rows[..i] == rows;
  }

  /** One incoming row: the index, the row list and the updated keys change together. */
  method ApplyOne(u: Upsert, index: map<Key, nat>, s: Progress, row: Row)
    returns (next: Result<Progress, Fault>, grown: map<Key, nat>)
    requires Indexes(index, s.rows, u.conflict)
    ensures next == Step(u, s, row)
    ensures next.Success? ==> Indexes(grown, next.value.rows, u.conflict)
  {
    var key := KeyOf(row, u.conflict);
    grown := index;
    if !(Full(key) && key in index) {
      IndexAppended(index, s.rows, u.conflict, row);
      grown := index[key := |s.rows|];
      return Success(Progress(s.rows + [row], s.updated, s.loaded + 1)), grown;
    }
    if !u.update {
      return Success(s), grown;
    }
    if key in s.updated {
      return Failure(DestinationConflict), grown;
    }
    var position := index[key];
    var merged := Overwrite(row, s.rows[position], u.preserve);
    OverwriteKeepsKey(row, s.rows[position], u.preserve, u.conflict);
    IndexOverwritten(index, s.rows, u.conflict, position, merged);
    return Success(Progress(s.rows[position := merged], s.updated + {key}, s.loaded + 1)), grown;
  }

  /** `_upsert`: an index of the existing rows, then row by row up to a key that comes again. */
  method Apply(u: Upsert, existing: seq<Row>, incoming: seq<Row>)
    returns (result: Result<(seq<Row>, nat), Fault>)
    ensures result == var s := Steps(u, existing, incoming);
                      if s.Failure? then Failure(s.error) else Success((s.value.rows, s.value.loaded))
  {
    var progress := Progress(existing, {}, 0);
    var index := IndexRows(existing, u.conflict);
    var i := 0;
    while i < |incoming|
      invariant 0 <= i <= |incoming|
      invariant Indexes(index, progress.rows, u.conflict)
      invariant Steps(u, existing, incoming[..i]) == Success(progress)
    {
      var next;
      next, index := ApplyOne(u, index, progress, incoming[i]);
      StepsOn(u, existing, incoming, i);
      if next.Failure? {
        StepsFail(u, existing, incoming, i + 1);
        return Failure(next.error);
      }
      progress := next.value;
      i := i + 1;
    }
    assert incoming[..i] == incoming;
    return Success((progress.rows, progress.loaded));
  }

  lemma {:induction false} StepsFail(u: Upsert, existing: seq<Row>, incoming: seq<Row>, n: nat)
    requires n <= |incoming| && Steps(u, existing, incoming[..n]).Failure?
    ensures Steps(u, existing, incoming) == Steps(u, existing, incoming[..n])
    decreases |incoming|
  {
    if n < |incoming| {
      var init := incoming[..|incoming| - 1];
      assert init[..n] == incoming[..n];
      StepsFail(u, existing, init, n);
    } else {
      assert incoming[..n] == incoming;
    }
  }

  // ----- The keyed merge -----

  /** An existing row, overwritten by the incoming row of its key when there is one. */
  function Updated(u: Upsert, row: Row, incoming: seq<Row>): Row {
    var key := KeyOf(row, u.conflict);
    var match_ := Find(incoming, u.conflict, key);
    if u.update && Full(key) && match_.Some? then Overwrite(incoming[match_.value], row, u.preserve) else row
  }

  predicate Matches(u: Upsert, row: Row, existing: seq<Row>) {
    Full(KeyOf(row, u.conflict)) && Find(existing, u.conflict, KeyOf(row, u.conflict)).Some?
  }

  /** The incoming rows that match no existing row, in order. */
  function Added(u: Upsert, existing: seq<Row>, incoming: seq<Row>): (added: seq<Row>)
    ensures |added| <= |incoming|
    ensures forall r :: r in added ==> r in incoming && !Matches(u, r, existing)
  {
    if incoming == [] then []
    else
      var before := Added(u, existing, incoming[..|incoming| - 1]);
      if Matches(u, incoming[|incoming| - 1], existing) then before else before + [incoming[|incoming| - 1]]
  }

  function Overwritten(u: Upsert, existing: seq<Row>, incoming: seq<Row>): (rows: seq<Row>)
    ensures |rows| == |existing|
  {
    seq(|existing|, i requires 0 <= i < |existing| => Updated(u, existing[i], incoming))
  }

  /** Existing rows stay where they are; the rest is added at the end. */
  function KeyedMerge(u: Upsert, existing: seq<Row>, incoming: seq<Row>): seq<Row> {
    Overwritten(u, existing, incoming) + Added(u, existing, incoming)
  }

  function Count(u: Upsert, existing: seq<Row>, incoming: seq<Row>): nat {
    if u.update then |incoming| else |Added(u, existing, incoming)|
  }

  lemma UpdatedKeepsKey(u: Upsert, row: Row, incoming: seq<Row>)
    ensures KeyOf(Updated(u, row, incoming), u.conflict) == KeyOf(row, u.conflict)
  {
    var match_ := Find(incoming, u.conflict, KeyOf(row, u.conflict));
    if match_.Some? { OverwriteKeepsKey(incoming[match_.value], row, u.preserve, u.conflict); }
  }

  lemma {:induction false} FindSameKeys(a: seq<Row>, b: seq<Row>, columns: seq<string>, key: Key)
    requires |a| == |b| && forall i :: 0 <= i < |a| ==> KeyOf(a[i], columns) == KeyOf(b[i], columns)
    ensures Find(a, columns, key) == Find(b, columns, key)
    decreases |a|
  {
    if a != [] { FindSameKeys(a[..|a| - 1], b[..|b| - 1], columns, key); }
  }

  lemma {:induction false} FindSkipsTail(a: seq<Row>, b: seq<Row>, columns: seq<string>, key: Key)
    requires forall r :: r in b ==> KeyOf(r, columns) != key
    ensures Find(a + b, columns, key) == Find(a, columns, key)
    decreases |b|
  {
    if b == [] {
      assert a + b == a;
    } else {
      assert a + b == (a + b[..|b| - 1]) + [b[|b| - 1]];
      FindSkipsTail(a, b[..|b| - 1], columns, key);
      FindAfterAppend(a + b[..|b| - 1], columns, key, b[|b| - 1]);
    }
  }

  /** A key not among the incoming rows is found in the merge exactly where it was before. */
  lemma FindInMerge(u: Upsert, existing: seq<Row>, incoming: seq<Row>, key: Key)
    requires Find(incoming, u.conflict, key).None?
    ensures Find(KeyedMerge(u, existing, incoming), u.conflict, key) == Find(existing, u.conflict, key)
  {
    FindSkipsTail(Overwritten(u, existing, incoming), Added(u, existing, incoming), u.conflict, key);
    forall i | 0 <= i < |existing|
      ensures KeyOf(Overwritten(u, existing, incoming)[i], u.conflict) == KeyOf(existing[i], u.conflict)
    {
      UpdatedKeepsKey(u, existing[i], incoming);
    }
    FindSameKeys(Overwritten(u, existing, incoming), existing, u.conflict, key);
  }

  /** One more incoming row changes an existing row only when it has its key. */
  lemma UpdatedByOneMore(u: Upsert, existing: Row, incoming: seq<Row>, row: Row)
    requires !Full(KeyOf(row, u.conflict)) || Find(incoming, u.conflict, KeyOf(row, u.conflict)).None?
    ensures if Full(KeyOf(row, u.conflict)) && KeyOf(existing, u.conflict) == KeyOf(row, u.conflict) then
              && Updated(u, existing, incoming) == existing
              && Updated(u, existing, incoming + [row])
                 == if u.update then Overwrite(row, existing, u.preserve) else existing
            else Updated(u, existing, incoming + [row]) == Updated(u, existing, incoming)
  {
    FindAfterAppend(incoming, u.conflict, KeyOf(existing, u.conflict), row);
    assert (incoming + [row])[|incoming|] == row;
    var at := Find(incoming, u.conflict, KeyOf(existing, u.conflict));
    assert at.Some? ==> (incoming + [row])[at.value] == incoming[at.value];
  }

  lemma OverwrittenByOther(u: Upsert, existing: seq<Row>, incoming: seq<Row>, row: Row)
    requires !Full(KeyOf(row, u.conflict)) || Find(incoming, u.conflict, KeyOf(row, u.conflict)).None?
    requires !Matches(u, row, existing) || !u.update
    ensures Overwritten(u, existing, incoming + [row]) == Overwritten(u, existing, incoming)
  {
    forall i | 0 <= i < |existing|
      ensures Updated(u, existing[i], incoming + [row]) == Updated(u, existing[i], incoming)
    {
      UpdatedByOneMore(u, existing[i], incoming, row);
    }
  }

  lemma OverwrittenByMatch(u: Upsert, existing: seq<Row>, incoming: seq<Row>, row: Row, p: nat)
    requires Distinct(existing, u.conflict) && u.update && Full(KeyOf(row, u.conflict))
    requires Find(incoming, u.conflict, KeyOf(row, u.conflict)).None?
    requires p < |existing| && KeyOf(existing[p], u.conflict) == KeyOf(row, u.conflict)
    ensures Overwritten(u, existing, incoming)[p] == existing[p]
    ensures Overwritten(u, existing, incoming + [row])
         == Overwritten(u, existing, incoming)[p := Overwrite(row, existing[p], u.preserve)]
  {
    UpdatedByOneMore(u, existing[p], incoming, row);
    forall i | 0 <= i < |existing| && i != p
      ensures Updated(u, existing[i], incoming + [row]) == Updated(u, existing[i], incoming)
    {
      assert KeyOf(existing[i], u.conflict) != KeyOf(row, u.conflict);
      UpdatedByOneMore(u, existing[i], incoming, row);
    }
  }

  lemma DistinctPrefix(rows: seq<Row>, columns: seq<string>, n: nat)
    requires n <= |rows| && Distinct(rows, columns)
    ensures Distinct(rows[..n], columns)
  {
  }

  /** The keyed merge of the rows taken so far; only their keys were updated. */
  ghost predicate IsMerge(u: Upsert, existing: seq<Row>, incoming: seq<Row>, s: Progress) {
    && s.rows == KeyedMerge(u, existing, incoming) && s.loaded == Count(u, existing, incoming)
    && forall key :: key in s.updated ==> Find(incoming, u.conflict, key).Some?
  }

  /**
   On existing and incoming rows that satisfy the conflict key, the indexed upsert is the keyed
   merge: it never reports a repeated key, and it counts the rows it loaded.
   */
  lemma {:induction false} UpsertIsKeyedMerge(u: Upsert, existing: seq<Row>, incoming: seq<Row>)
    requires Distinct(existing, u.conflict) && Distinct(incoming, u.conflict)
    ensures Steps(u, existing, incoming).Success?
    ensures IsMerge(u, existing, incoming, Steps(u, existing, incoming).value)
    decreases |incoming|
  {
    if incoming == [] {
      MergeOfNone(u, existing);
    } else {
      var init, row := incoming[..|incoming| - 1], incoming[|incoming| - 1];
      assert incoming == init + [row];
      LastIsNew(init, row, u.conflict);
      UpsertIsKeyedMerge(u, existing, init);
      MergesOn(u, existing, init, row, Steps(u, existing, init).value);
    }
  }

  lemma MergeOfNone(u: Upsert, existing: seq<Row>)
    ensures IsMerge(u, existing, [], Progress(existing, {}, 0))
  {
    assert KeyedMerge(u, existing, []) == existing;
  }

  lemma MergesOn(u: Upsert, existing: seq<Row>, init: seq<Row>, row: Row, s: Progress)
    requires Distinct(existing, u.conflict) && IsMerge(u, existing, init, s)
    requires Full(KeyOf(row, u.conflict)) ==> Find(init, u.conflict, KeyOf(row, u.conflict)).None?
    ensures Step(u, s, row).Success? && IsMerge(u, existing, init + [row], Step(u, s, row).value)
  {
    if Full(KeyOf(row, u.conflict)) { FindInMerge(u, existing, init, KeyOf(row, u.conflict)); }
    StepIsMerge(u, existing, init, row, s);
    forall k | k in Step(u, s, row).value.updated ensures Find(init + [row], u.conflict, k).Some? {
      FindAfterAppend(init, u.conflict, k, row);
    }
  }

  /** The state after one more row is the merge with one more row. */
  lemma StepIsMerge(u: Upsert, existing: seq<Row>, init: seq<Row>, row: Row, s: Progress)
    requires s.rows == KeyedMerge(u, existing, init) && s.loaded == Count(u, existing, init)
    requires Distinct(existing, u.conflict)
    requires Unseen(u, existing, init, row, s)
    ensures Step(u, s, row).Success?
    ensures var next := Step(u, s, row).value;
            && next.rows == KeyedMerge(u, existing, init + [row]) && next.loaded == Count(u, existing, init + [row])
            && next.updated <= s.updated + {KeyOf(row, u.conflict)}
  {
    AddedByOneMore(u, existing, init, row);
    if u.update && Matches(u, row, existing) {
      var p := Find(existing, u.conflict, KeyOf(row, u.conflict)).value;
      OverwrittenByMatch(u, existing, init, row, p);
      UpdateLeft(Overwritten(u, existing, init), Added(u, existing, init), p, Overwrite(row, existing[p], u.preserve));
    } else {
      OverwrittenByOther(u, existing, init, row);
      assert (Overwritten(u, existing, init) + Added(u, existing, init)) + [row]
          == Overwritten(u, existing, init) + (Added(u, existing, init) + [row]);
    }
  }

  /** The next row's key is not among the rows already taken. */
  ghost predicate Unseen(u: Upsert, existing: seq<Row>, init: seq<Row>, row: Row, s: Progress) {
    var key := KeyOf(row, u.conflict);
    Full(key) ==> && Find(init, u.conflict, key).None? && key !in s.updated
                  && Find(s.rows, u.conflict, key) == Find(existing, u.conflict, key)
  }

  lemma AddedByOneMore(u: Upsert, existing: seq<Row>, init: seq<Row>, row: Row)
    ensures Added(u, existing, init + [row]) ==
            if Matches(u, row, existing) then Added(u, existing, init) else Added(u, existing, init) + [row]
  {
    assert (init + [row])[..|init|] == init;
  }

  lemma UpdateLeft<T>(a: seq<T>, b: seq<T>, p: nat, x: T)
    requires p < |a|
    ensures (a + b)[p := x] == a[p := x] + b
  {
  }

  lemma LastIsNew(init: seq<Row>, row: Row, columns: seq<string>)
    requires Distinct(init + [row], columns)
    ensures Distinct(init, columns)
    ensures Full(KeyOf(row, columns)) ==> Find(init, columns, KeyOf(row, columns)).None?
  {
    var all, n := init + [row], |init|;
    assert all[..n] == init;
    DistinctPrefix(all, columns, n);
    var p := Find(init, columns, KeyOf(row, columns));
    assert p.Some? ==> all[p.value] == init[p.value] && all[n] == row;
  }

  // ----- What the merge keeps -----

  /** Existing positions keep their key and their preserved columns; nothing is lost. */
  lemma MergeKeepsPositions(u: Upsert, existing: seq<Row>, incoming: seq<Row>, i: nat)
    requires i < |existing|
    ensures |KeyedMerge(u, existing, incoming)| >= |existing|
    ensures KeyOf(KeyedMerge(u, existing, incoming)[i], u.conflict) == KeyOf(existing[i], u.conflict)
    ensures forall name :: name in u.preserve ==>
                             Get(KeyedMerge(u, existing, incoming)[i], name) == Get(existing[i], name)
  {
    UpdatedKeepsKey(u, existing[i], incoming);
  }

  /** Two rows carry the same value, and not null, in every column of the conflict key. */
  ghost predicate Meet(u: Upsert, a: Row, b: Row) {
    forall c :: c in u.conflict ==> c in a && c in b && a[c] == b[c] && a[c] != Null
  }

  lemma MeetingKeys(u: Upsert, a: Row, b: Row)
    ensures Meet(u, a, b) <==> Full(KeyOf(a, u.conflict)) && KeyOf(a, u.conflict) == KeyOf(b, u.conflict)
  {
    var x, y := KeyOf(a, u.conflict), KeyOf(b, u.conflict);
    if Full(x) && x == y {
      forall c | c in u.conflict ensures c in a && c in b && a[c] == b[c] && a[c] != Null {
        var i :| 0 <= i < |u.conflict| && u.conflict[i] == c;
        assert x[i] == Get(a, c) && y[i] == Get(b, c) && x[i] != Null;
      }
    }
    if Meet(u, a, b) {
      forall i | 0 <= i < |u.conflict| ensures x[i] == y[i] && x[i] != Null { assert u.conflict[i] in u.conflict; }
    }
  }

  /**
   An existing row that an incoming row meets has that row's value in every column, except in preserved
   ones, where it keeps its own; a row that none meets, or that is not to be updated, stays as it was.
   */
  lemma MergeWritesPositions(u: Upsert, existing: seq<Row>, incoming: seq<Row>, i: nat)
    requires i < |existing| && Distinct(incoming, u.conflict)
    ensures forall j :: 0 <= j < |incoming| && u.update && Meet(u, existing[i], incoming[j]) ==>
              var row := KeyedMerge(u, existing, incoming)[i];
              && (forall name :: name !in u.preserve ==> (name in row <==> name in incoming[j]))
              && (forall name :: name !in u.preserve && name in row ==> row[name] == incoming[j][name])
              && (forall name :: name in u.preserve ==>
                    name in row && row[name] == if name in existing[i] then existing[i][name] else Null)
    ensures !u.update || (forall j :: 0 <= j < |incoming| ==> !Meet(u, existing[i], incoming[j])) ==>
              KeyedMerge(u, existing, incoming)[i] == existing[i]
  {
    var at := Find(incoming, u.conflict, KeyOf(existing[i], u.conflict));
    forall j | 0 <= j < |incoming| && Meet(u, existing[i], incoming[j]) ensures at == Some(j) {
      MeetingKeys(u, existing[i], incoming[j]);
      OnlyFind(incoming, u.conflict, j);
    }
    if at.Some? { MeetingKeys(u, existing[i], incoming[at.value]); }
  }

  lemma OnlyFind(rows: seq<Row>, columns: seq<string>, j: nat)
    requires j < |rows| && Distinct(rows, columns) && Full(KeyOf(rows[j], columns))
    ensures Find(rows, columns, KeyOf(rows[j], columns)) == Some(j)
  {
    assert Find(rows, columns, KeyOf(rows[j], columns)).Some?;
  }

  /** One more incoming row is added at the end exactly when it meets no existing row. */
  lemma MergeAddsUnmet(u: Upsert, existing: seq<Row>, incoming: seq<Row>, row: Row)
    ensures KeyedMerge(u, existing, [])[|existing|..] == []
    ensures KeyedMerge(u, existing, incoming + [row])[|existing|..] ==
            KeyedMerge(u, existing, incoming)[|existing|..]
            + if forall i :: 0 <= i < |existing| ==> !Meet(u, existing[i], row) then [row] else []
  {
    AddedByOneMore(u, existing, incoming, row);
    var at := Find(existing, u.conflict, KeyOf(row, u.conflict));
    forall i | 0 <= i < |existing| ensures Meet(u, existing[i], row) ==> Matches(u, row, existing) {
      MeetingKeys(u, existing[i], row);
    }
    if Matches(u, row, existing) { MeetingKeys(u, existing[at.value], row); }
  }

  /** Every incoming row with a null in its key is in the merge. */
  lemma {:induction false} NullKeysAreAdded(u: Upsert, existing: seq<Row>, incoming: seq<Row>, i: nat)
    requires i < |incoming| && !Full(KeyOf(incoming[i], u.conflict))
    ensures incoming[i] in KeyedMerge(u, existing, incoming)
    ensures incoming[i] in Added(u, existing, incoming)
    decreases |incoming|
  {
    var n := |incoming| - 1;
    if i < n { NullKeysAreAdded(u, existing, incoming[..n], i); }
  }

  /** The rows added have distinct keys. */
  lemma {:induction false} AddedDistinct(u: Upsert, existing: seq<Row>, incoming: seq<Row>)
    requires Distinct(incoming, u.conflict)
    ensures Distinct(Added(u, existing, incoming), u.conflict)
    decreases |incoming|
  {
    if incoming != [] {
      var n := |incoming| - 1;
      DistinctPrefix(incoming, u.conflict, n);
      AddedDistinct(u, existing, incoming[..n]);
      var before := Added(u, existing, incoming[..n]);
      forall r | r in before && Full(KeyOf(r, u.conflict))
        ensures KeyOf(r, u.conflict) != KeyOf(incoming[n], u.conflict)
      {
        var j :| 0 <= j < n && incoming[..n][j] == r;
      }
    }
  }

  /** The merge satisfies the conflict key again. */
  lemma MergeStaysDistinct(u: Upsert, existing: seq<Row>, incoming: seq<Row>)
    requires Distinct(existing, u.conflict) && Distinct(incoming, u.conflict)
    ensures Distinct(KeyedMerge(u, existing, incoming), u.conflict)
  {
    var rows := KeyedMerge(u, existing, incoming);
    var added := Added(u, existing, incoming);
    AddedDistinct(u, existing, incoming);
    forall i | 0 <= i < |existing| ensures KeyOf(rows[i], u.conflict) == KeyOf(existing[i], u.conflict) {
      MergeKeepsPositions(u, existing, incoming, i);
    }
    forall i, j | 0 <= i < j < |rows| && Full(KeyOf(rows[i], u.conflict))
      ensures KeyOf(rows[i], u.conflict) != KeyOf(rows[j], u.conflict)
    {
      if i < |existing| <= j {
        assert rows[j] == added[j - |existing|];
        assert rows[j] in added;
      } else if |existing| <= i {
        assert rows[i] == added[i - |existing|] && rows[j] == added[j - |existing|];
      }
    }
  }
}
