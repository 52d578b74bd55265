/**
 The emulated PostgreSQL database: one commit replaces one table, and every table it stores
 satisfies its primary key and unique constraints.
 */
module DemoPostgres {
  import opened Wrappers
  import opened DemoUpsert

  datatype ColumnType = Int64 | Declared(name: string)

  datatype Frame = Frame(types: map<string, ColumnType>, rows: seq<Row>)

  datatype Table = Table(frame: Frame, primaryKey: seq<string>, unique: set<seq<string>>, identity: Option<string>)

  datatype Policy =
    | Append(autoKey: Option<string>, primaryKey: seq<string>)
    | Replace(recreate: bool, autoKey: Option<string>, primaryKey: seq<string>)
    | Merge(conflict: seq<string>, update: bool)

  /** A finished load: the frames written, put together, and the source's primary key. */
  datatype Pending = Pending(incoming: Frame, sourceKey: seq<string>, policy: Policy)

  /** Strict casts of a cell that is not null; a 64-bit integer column holds integers only. */
  datatype Casts = Casts(whole: Cell -> Option<int>, declared: (string, Cell) -> Option<Cell>)

  function Cast(casts: Casts, t: ColumnType, c: Cell): Option<Cell> {
    if c.Null? then Some(Null)
    else if t.Declared? then casts.declared(t.name, c)
    else if c.Int? then Some(c)
    else if casts.whole(c).Some? then Some(Int(casts.whole(c).value)) else None
  }

  // ----- Constraints -----

  function Constraints(t: Table): (all: set<seq<string>>)
    ensures forall c :: c in all <==> c != [] && (c == t.primaryKey || c in t.unique)
  {
    ({t.primaryKey} + t.unique) - {[]}
  }

  ghost predicate NoNulls(rows: seq<Row>, columns: seq<string>) {
    forall i :: 0 <= i < |rows| ==> Full(KeyOf(rows[i], columns))
  }

  ghost predicate Constrained(t: Table) {
    && (forall c :: c in Constraints(t) ==> Distinct(t.frame.rows, c))
    && (t.primaryKey != [] ==> NoNulls(t.frame.rows, t.primaryKey))
  }

  /** What every stored table satisfies; a generated key is the whole primary key. */
  ghost predicate Sound(t: Table) {
    && Constrained(t)
    && (t.identity.Some? ==>
          && t.primaryKey == [t.identity.value] && t.unique == {}
          && t.identity.value in t.frame.types && t.frame.types[t.identity.value] == Int64
          && forall i :: 0 <= i < |t.frame.rows| ==> Get(t.frame.rows[i], t.identity.value).Int?)
  }

  /** `_enforce_constraints`: one pass over the rows for each constraint. */
  method Enforce(t: Table) returns (ok: bool)
    ensures ok <==> Constrained(t)
  {
    var left := Constraints(t);
    while left != {}
      invariant left <= Constraints(t)
      invariant forall c :: c in Constraints(t) - left ==>
                  Distinct(t.frame.rows, c) && (c == t.primaryKey ==> NoNulls(t.frame.rows, c))
      decreases |left|
    {
      var constraint :| constraint in left;
      var fine := EnforceOne(t.frame.rows, constraint, constraint == t.primaryKey);
      if !fine {
        return false;
      }
      left := left - {constraint};
    }
    return true;
  }

  method EnforceOne(rows: seq<Row>, constraint: seq<string>, primary: bool) returns (ok: bool)
    ensures ok <==> Distinct(rows, constraint) && (primary ==> NoNulls(rows, constraint))
  {
    var seen: set<Key> := {};
    var i := 0;
    while i < |rows|
      invariant 0 <= i <= |rows|
      invariant forall j :: 0 <= j < i && Full(KeyOf(rows[j], constraint)) ==> KeyOf(rows[j], constraint) in seen
      invariant forall k :: k in seen ==> exists j :: 0 <= j < i && Full(k) && KeyOf(rows[j], constraint) == k
      invariant Distinct(rows[..i], constraint)
      invariant primary ==> NoNulls(rows[..i], constraint)
    {
      var key := KeyOf(rows[i], constraint);
      if Full(key) {
        if key in seen {
          return false;
        }
        seen := seen + {key};
      } else if primary {
        return false;
      }
      i := i + 1;
    }
    assert rows[..i] == rows;
    return true;
  }

  // ----- Generated keys -----

  function Highest(rows: seq<Row>, column: string): Option<int> {
    if rows == [] then None
    else
      var before := Highest(rows[..|rows| - 1], column);
      var c := Get(rows[|rows| - 1], column);
      if !c.Int? || (before.Some? && before.value >= c.n) then before else Some(c.n)
  }

  function NextId(rows: seq<Row>, column: string): int {
    var latest := Highest(rows, column);
    if latest.Some? then latest.value + 1 else 1
  }

  /** Rows numbered from `first` in the generated column. */
  function Numbered(incoming: Frame, column: string, first: int): Frame {
    Frame(incoming.types[column := Int64],
          seq(|incoming.rows|, i requires 0 <= i < |incoming.rows| => incoming.rows[i][column := Int(first + i)]))
  }

  lemma {:induction false} HighestBounds(rows: seq<Row>, column: string, i: nat)
    requires i < |rows| && Get(rows[i], column).Int?
    ensures Highest(rows, column).Some? && Get(rows[i], column).n <= Highest(rows, column).value
    decreases rows
  {
    if i < |rows| - 1 { HighestBounds(rows[..|rows| - 1], column, i); }
  }

  // ----- Coercion to an existing table -----

  function CastRow(casts: Casts, types: map<string, ColumnType>, row: Row): Option<Row> {
    if forall name :: name in types ==> Cast(casts, types[name], Get(row, name)).Some?
    then Some(map name | name in types :: Cast(casts, types[name], Get(row, name)).value)
    else None
  }

  function CastRows(casts: Casts, types: map<string, ColumnType>, rows: seq<Row>): (r: Option<seq<Row>>)
    ensures r.Some? ==> |r.value| == |rows|
    ensures r.Some? ==> forall i :: 0 <= i < |rows| ==> CastRow(casts, types, rows[i]) == Some(r.value[i])
    ensures r.None? ==> exists i :: 0 <= i < |rows| && CastRow(casts, types, rows[i]).None?
  {
    if rows == [] then Some([])
    else
      var before := CastRows(casts, types, rows[..|rows| - 1]);
      var last := CastRow(casts, types, rows[|rows| - 1]);
      if before.None? || last.None? then None else Some(before.value + [last.value])
  }

  function WithIds(incoming: Frame, target: Table): Frame {
    if target.identity.Some? && target.identity.value !in incoming.types
    then Numbered(incoming, target.identity.value, NextId(target.frame.rows, target.identity.value))
    else incoming
  }

  /** `_coerce_for_table` */
  function Coerced(casts: Casts, incoming: Frame, target: Table): Result<Frame, Fault> {
    var numbered := WithIds(incoming, target);
    if !(numbered.types.Keys <= target.frame.types.Keys) then Failure(SchemaDrift)
    else if exists name :: name in target.primaryKey && name in target.frame.types && name !in numbered.types
      then Failure(SchemaDrift)
    else
      var rows := CastRows(casts, target.frame.types, numbered.rows);
      if rows.None? then Failure(UnsupportedType)
      else if exists i :: 0 <= i < |rows.value| && !Full(KeyOf(rows.value[i], target.primaryKey))
      then Failure(SchemaDrift)
      else Success(Frame(target.frame.types, rows.value))
  }

  // ----- New tables -----

  /** `_new_postgres_table`, before its constraints are enforced. */
  function NewTable(p: Pending): Result<Table, Fault>
    requires !p.policy.Merge?
  {
    var auto := p.policy.autoKey;
    var chosen := if p.policy.primaryKey == [] then p.sourceKey else p.policy.primaryKey;
    if auto.Some? && auto.value in p.incoming.types then Failure(SchemaDrift)
    else if auto.Some? then Success(Table(Numbered(p.incoming, auto.value, 1), [auto.value], {}, auto))
    else if exists name :: name in chosen && name !in p.incoming.types then Failure(SchemaDrift)
    else Success(Table(p.incoming, chosen, {}, None))
  }

  // ----- One commit -----

  ghost function Enforced(t: Table, loaded: nat): Result<(Table, nat), Fault> {
    if Constrained(t) then Success((t, loaded)) else Failure(DestinationConflict)
  }

  predicate Recreates(p: Policy) { p.Replace? && p.recreate }

  /** What is written: coerced to the target unless the table is new or recreated. */
  function Prepared(casts: Casts, target: Option<Table>, p: Pending): Result<Frame, Fault> {
    if target.Some? && !Recreates(p.policy) then Coerced(casts, p.incoming, target.value) else Success(p.incoming)
  }

  function UpsertOf(target: Table, p: Pending): Upsert
    requires p.policy.Merge?
  {
    var omitted := target.identity.Some? && target.identity.value !in p.incoming.types;
    Upsert(p.policy.conflict, p.policy.update, if omitted then {target.identity.value} else {})
  }

  /** The new table and the rows loaded, or why nothing changes. */
  ghost function Committed(casts: Casts, target: Option<Table>, p: Pending): Result<(Table, nat), Fault> {
    var prepared := Prepared(casts, target, p);
    if prepared.Failure? then Failure(prepared.error)
    else
      var incoming := prepared.value;
      match p.policy
      case Append(_, _) =>
        if target.None? then Created(p)
        else Enforced(WithRows(target.value, target.value.frame.rows + incoming.rows), |incoming.rows|)
      case Replace(recreate, _, _) =>
        if recreate || target.None? then Created(p)
        else Enforced(WithRows(target.value, incoming.rows), |incoming.rows|)
      case Merge(conflict, _) =>
        if target.None? then Failure(DestinationConflict)
        else if conflict !in Constraints(target.value) then Failure(SchemaDrift)
        else if !Constrained(WithRows(target.value, incoming.rows)) then Failure(DestinationConflict)
        else
          var u := UpsertOf(target.value, p);
          Enforced(WithRows(target.value, KeyedMerge(u, target.value.frame.rows, incoming.rows)),
                   Count(u, target.value.frame.rows, incoming.rows))
  }

  ghost function Created(p: Pending): Result<(Table, nat), Fault>
    requires !p.policy.Merge?
  {
    var created := NewTable(p);
    if created.Failure? then Failure(created.error) else Enforced(created.value, |p.incoming.rows|)
  }

  function WithRows(t: Table, rows: seq<Row>): Table { t.(frame := Frame(t.frame.types, rows)) }

  // ----- What a commit keeps -----

  /** Casting keeps a generated column integral, and keeps integers as they are. */
  lemma CastIdentity(casts: Casts, target: Table, p: Frame)
    requires Sound(target) && target.identity.Some?
    requires Coerced(casts, p, target).Success?
    ensures var rows := Coerced(casts, p, target).value.rows;
            && |rows| == |p.rows|
            && forall i :: 0 <= i < |rows| ==> Get(rows[i], target.identity.value).Int?
    ensures target.identity.value !in p.types ==>
              var rows := Coerced(casts, p, target).value.rows;
              forall i :: 0 <= i < |rows| ==>
                Get(rows[i], target.identity.value) == Int(NextId(target.frame.rows, target.identity.value) + i)
  {
    var id := target.identity.value;
    var rows := Coerced(casts, p, target).value.rows;
    var numbered := WithIds(p, target);
    forall i | 0 <= i < |rows|
      ensures Get(rows[i], id).Int?
      ensures id !in p.types ==> Get(rows[i], id) == Int(NextId(target.frame.rows, id) + i)
    {
      assert CastRow(casts, target.frame.types, numbered.rows[i]) == Some(rows[i]);
      assert Full(KeyOf(rows[i], target.primaryKey));
      assert KeyOf(rows[i], target.primaryKey)[0] == Get(rows[i], id);
    }
  }

  /** Keys generated for an append are new, so the generated key never conflicts. */
  lemma GeneratedIdsAreNew(casts: Casts, target: Table, p: Frame)
    requires Sound(target) && target.identity.Some? && target.identity.value !in p.types
    requires Coerced(casts, p, target).Success?
    ensures Constrained(WithRows(target, target.frame.rows + Coerced(casts, p, target).value.rows))
  {
    var id := target.identity.value;
    var first := NextId(target.frame.rows, id);
    var added := Coerced(casts, p, target).value.rows;
    var rows := target.frame.rows + added;
    var n := |target.frame.rows|;
    CastIdentity(casts, target, p);
    forall i | 0 <= i < |rows|
      ensures KeyOf(rows[i], [id]) == [Get(rows[i], id)] && Get(rows[i], id).Int?
      ensures i < n ==> Get(rows[i], id).n < first
      ensures i >= n ==> Get(rows[i], id).n == first + i - n
    {
      if i < n { HighestBounds(target.frame.rows, id, i); } else { assert rows[i] == added[i - n]; }
    }
    forall i, j | 0 <= i < j < |rows| && Full(KeyOf(rows[i], [id]))
      ensures KeyOf(rows[i], [id]) != KeyOf(rows[j], [id])
    {
      if j < n { assert Distinct(target.frame.rows, [id]); }
      else { assert KeyOf(rows[i], [id])[0] != KeyOf(rows[j], [id])[0]; }
    }
  }

  /** An append without the generated column fails only when the rows themselves cannot be coerced. */
  lemma AppendWithGeneratedIds(casts: Casts, target: Table, p: Pending)
    requires Sound(target) && target.identity.Some? && target.identity.value !in p.incoming.types
    requires p.policy.Append?
    ensures Committed(casts, Some(target), p).Success? <==> Coerced(casts, p.incoming, target).Success?
  {
    if Coerced(casts, p.incoming, target).Success? { GeneratedIdsAreNew(casts, target, p.incoming); }
  }

  lemma NumberedIsSound(incoming: Frame, id: string)
    ensures Sound(Table(Numbered(incoming, id, 1), [id], {}, Some(id)))
  {
    var t := Table(Numbered(incoming, id, 1), [id], {}, Some(id));
    forall i | 0 <= i < |t.frame.rows| ensures KeyOf(t.frame.rows[i], [id]) == [Int(1 + i)] {
      assert KeyOf(t.frame.rows[i], [id])[0] == Int(1 + i);
    }
    assert Distinct(t.frame.rows, [id]) by {
      forall i, j | 0 <= i < j < |t.frame.rows| ensures KeyOf(t.frame.rows[i], [id]) != KeyOf(t.frame.rows[j], [id]) {
        assert KeyOf(t.frame.rows[i], [id])[0] != KeyOf(t.frame.rows[j], [id])[0];
      }
    }
    assert Constraints(t) == {[id]};
  }

  /** A new table with a generated key is never refused for a conflict. */
  lemma NewTableWithGeneratedIds(p: Pending)
    requires !p.policy.Merge? && p.policy.autoKey.Some? && p.policy.autoKey.value !in p.incoming.types
    ensures Created(p).Success?
  {
    NumberedIsSound(p.incoming, p.policy.autoKey.value);
  }

  lemma CreatedIsSound(p: Pending)
    requires !p.policy.Merge? && Created(p).Success?
    ensures Sound(Created(p).value.0)
  {
    if p.policy.autoKey.Some? { NumberedIsSound(p.incoming, p.policy.autoKey.value); }
  }

  lemma MergedIdentity(u: Upsert, existing: seq<Row>, incoming: seq<Row>, id: string)
    requires forall r :: r in existing ==> Get(r, id).Int?
    requires forall r :: r in incoming ==> Get(r, id).Int?
    ensures forall r :: r in KeyedMerge(u, existing, incoming) ==> Get(r, id).Int?
  {
    var rows := Overwritten(u, existing, incoming);
    forall i | 0 <= i < |rows| ensures Get(rows[i], id).Int? {
      assert existing[i] in existing;
      var at := Find(incoming, u.conflict, KeyOf(existing[i], u.conflict));
      assert at.Some? ==> incoming[at.value] in incoming;
    }
  }

  /** Whatever the load, a commit to a sound table leaves a sound table. */
  lemma CommitKeepsConstraints(casts: Casts, target: Option<Table>, p: Pending)
    requires target.Some? ==> Sound(target.value)
    requires Committed(casts, target, p).Success?
    ensures Sound(Committed(casts, target, p).value.0)
  {
    if (target.None? && !p.policy.Merge?) || Recreates(p.policy) {
      CreatedIsSound(p);
    } else if target.Some? && target.value.identity.Some? {
      CastIdentity(casts, target.value, p.incoming);
      if p.policy.Merge? {
        MergedIdentity(UpsertOf(target.value, p), target.value.frame.rows,
                       Prepared(casts, target, p).value.rows, target.value.identity.value);
      }
    }
  }

  /** An append keeps every earlier row where it was. */
  lemma AppendKeepsEarlierRows(casts: Casts, target: Table, p: Pending)
    requires p.policy.Append? && Committed(casts, Some(target), p).Success?
    ensures var (t, loaded) := Committed(casts, Some(target), p).value;
            && target.frame.rows <= t.frame.rows
            && |t.frame.rows| == |target.frame.rows| + loaded && loaded == |p.incoming.rows|
  {
    assert |WithIds(p.incoming, target).rows| == |p.incoming.rows|;
  }

  /** What a cell becomes in a column: null stays, a 64-bit column takes integers, any other its own cast. */
  ghost predicate CastTo(casts: Casts, t: ColumnType, from: Cell, to: Cell) {
    if from == Null then to == Null
    else match t
         case Declared(name) => casts.declared(name, from) == Some(to)
         case Int64 => if from.Int? then to == from else to.Int? && casts.whole(from) == Some(to.n)
  }

  /** Every column of the table holds the incoming cell, cast, or null where there is none. */
  ghost predicate RowCastTo(casts: Casts, types: map<string, ColumnType>, from: Row, to: Row) {
    && to.Keys == types.Keys
    && forall name :: name in types ==>
         CastTo(casts, types[name], if name in from then from[name] else Null, to[name])
  }

  ghost predicate RowsCastTo(casts: Casts, types: map<string, ColumnType>, from: seq<Row>, to: seq<Row>) {
    |to| == |from| && forall i :: 0 <= i < |from| ==> RowCastTo(casts, types, from[i], to[i])
  }

  /** Incoming rows, numbered on from the largest generated key when the load does not supply it. */
  ghost predicate NumberedOn(target: Table, from: Frame, rows: seq<Row>) {
    if target.identity.None? || target.identity.value in from.types then rows == from.rows
    else
      && |rows| == |from.rows|
      && exists first :: IsNextId(target.frame.rows, target.identity.value, first)
           && forall i :: 0 <= i < |rows| ==> rows[i] == from.rows[i][target.identity.value := Int(first + i)]
  }

  /** One more than the largest integer of the column, or one. */
  ghost predicate IsNextId(rows: seq<Row>, column: string, id: int) {
    && (forall i :: 0 <= i < |rows| && Get(rows[i], column).Int? ==> Get(rows[i], column).n < id)
    && ((id == 1 && forall i :: 0 <= i < |rows| ==> !Get(rows[i], column).Int?)
        || exists i :: 0 <= i < |rows| && Get(rows[i], column) == Int(id - 1))
  }

  lemma {:induction false} HighestIsThere(rows: seq<Row>, column: string)
    ensures Highest(rows, column).None? <==> forall i :: 0 <= i < |rows| ==> !Get(rows[i], column).Int?
    ensures Highest(rows, column).Some? ==>
              exists i :: 0 <= i < |rows| && Get(rows[i], column) == Int(Highest(rows, column).value)
  {
    if rows != [] {
      var n := |rows| - 1;
      HighestIsThere(rows[..n], column);
      var before := Highest(rows[..n], column);
      if before.Some? {
        var i :| 0 <= i < n && Get(rows[..n][i], column) == Int(before.value);
        assert Get(rows[i], column) == Int(before.value);
      }
    }
  }

  lemma NextIdIsNext(rows: seq<Row>, column: string)
    ensures IsNextId(rows, column, NextId(rows, column))
  {
    HighestIsThere(rows, column);
    forall i | 0 <= i < |rows| && Get(rows[i], column).Int? ensures Get(rows[i], column).n < NextId(rows, column) {
      HighestBounds(rows, column, i);
    }
  }

  lemma WithIdsNumbers(incoming: Frame, target: Table)
    ensures NumberedOn(target, incoming, WithIds(incoming, target).rows)
  {
    if target.identity.Some? && target.identity.value !in incoming.types {
      NextIdIsNext(target.frame.rows, target.identity.value);
      assert IsNextId(target.frame.rows, target.identity.value, NextId(target.frame.rows, target.identity.value));
    }
  }

  /** Coercion keeps every row, in order, cell by cell. */
  lemma CoercedRows(casts: Casts, incoming: Frame, target: Table) returns (numbered: seq<Row>)
    requires Coerced(casts, incoming, target).Success?
    ensures NumberedOn(target, incoming, numbered)
    ensures RowsCastTo(casts, target.frame.types, numbered, Coerced(casts, incoming, target).value.rows)
    ensures Coerced(casts, incoming, target).value.types == target.frame.types
  {
    numbered := WithIds(incoming, target).rows;
    WithIdsNumbers(incoming, target);
    var rows := Coerced(casts, incoming, target).value.rows;
    forall i | 0 <= i < |rows| ensures RowCastTo(casts, target.frame.types, numbered[i], rows[i]) {
      RowIsCast(casts, target.frame.types, numbered[i], rows[i]);
    }
  }

  lemma RowIsCast(casts: Casts, types: map<string, ColumnType>, from: Row, to: Row)
    requires CastRow(casts, types, from) == Some(to)
    ensures RowCastTo(casts, types, from, to)
  {
    forall name | name in types ensures name in to && CastTo(casts, types[name], Get(from, name), to[name]) {
      assert Cast(casts, types[name], Get(from, name)) == Some(to[name]);
    }
  }

  // ----- What is refused -----

  /** The cell has no cast to the column's type. */
  ghost predicate NoCast(casts: Casts, t: ColumnType, from: Cell) {
    from != Null && match t
                    case Declared(name) => casts.declared(name, from).None?
                    case Int64 => !from.Int? && casts.whole(from).None?
  }

  /** Every column comes from the table, and the table's primary key comes with the load or is generated. */
  ghost predicate ColumnsFit(from: Frame, target: Table) {
    && (forall name :: name in from.types ==> name in target.frame.types)
    && (target.identity.Some? ==> target.identity.value in target.frame.types)
    && forall name :: name in target.primaryKey && name in target.frame.types ==>
         name in from.types || target.identity == Some(name)
  }

  ghost predicate SomeUncastable(casts: Casts, types: map<string, ColumnType>, rows: seq<Row>) {
    exists i, name :: 0 <= i < |rows| && name in types && NoCast(casts, types[name], Get(rows[i], name))
  }

  lemma UncastableRow(casts: Casts, types: map<string, ColumnType>, row: Row)
    ensures CastRow(casts, types, row).None? <==>
            exists name :: name in types && NoCast(casts, types[name], Get(row, name))
  {
    forall name | name in types
      ensures NoCast(casts, types[name], Get(row, name)) <==> Cast(casts, types[name], Get(row, name)).None?
    {
    }
  }

  lemma UncastableRows(casts: Casts, types: map<string, ColumnType>, rows: seq<Row>)
    ensures CastRows(casts, types, rows).None? <==> SomeUncastable(casts, types, rows)
  {
    forall i | 0 <= i < |rows|
      ensures CastRow(casts, types, rows[i]).None? <==>
              exists name :: name in types && NoCast(casts, types[name], Get(rows[i], name))
    {
      UncastableRow(casts, types, rows[i]);
    }
  }

  /**
   Columns that do not fit are a drift of the schema, a cell without a cast an unsupported type, and a row
   whose primary key comes out null a drift again.
   */
  lemma CoercionRefusals(casts: Casts, incoming: Frame, target: Table) returns (numbered: seq<Row>)
    requires Sound(target)
    ensures NumberedOn(target, incoming, numbered)
    ensures Coerced(casts, incoming, target) == Failure(UnsupportedType) <==>
            ColumnsFit(incoming, target) && SomeUncastable(casts, target.frame.types, numbered)
    ensures Coerced(casts, incoming, target) == Failure(SchemaDrift) <==>
            !ColumnsFit(incoming, target) || CastHasNulls(casts, target.frame.types, numbered, target.primaryKey)
    ensures Coerced(casts, incoming, target) != Failure(DestinationConflict)
  {
    numbered := WithIds(incoming, target).rows;
    WithIdsNumbers(incoming, target);
    CoercedCases(casts, incoming, target);
    UncastableRows(casts, target.frame.types, numbered);
    NullKeysExactly(casts, target.frame.types, numbered, target.primaryKey);
  }

  lemma CoercedCases(casts: Casts, incoming: Frame, target: Table)
    requires Sound(target)
    ensures var cast := CastRows(casts, target.frame.types, WithIds(incoming, target).rows);
            var coerced := Coerced(casts, incoming, target);
            && (coerced == Failure(UnsupportedType) <==> ColumnsFit(incoming, target) && cast.None?)
            && (coerced == Failure(SchemaDrift) <==>
                  !ColumnsFit(incoming, target) || (cast.Some? && !NoNulls(cast.value, target.primaryKey)))
            && coerced != Failure(DestinationConflict)
  {
    FitExactly(incoming, target);
  }

  ghost predicate CastHasNulls(casts: Casts, types: map<string, ColumnType>, rows: seq<Row>, key: seq<string>) {
    exists to :: RowsCastTo(casts, types, rows, to) && !NoNulls(to, key)
  }

  lemma NullKeysExactly(casts: Casts, types: map<string, ColumnType>, rows: seq<Row>, key: seq<string>)
    ensures CastHasNulls(casts, types, rows, key) <==>
            CastRows(casts, types, rows).Some? && !NoNulls(CastRows(casts, types, rows).value, key)
  {
    if CastRows(casts, types, rows).Some? { CastsExactly(casts, types, rows, CastRows(casts, types, rows).value); }
    if to :| RowsCastTo(casts, types, rows, to) && !NoNulls(to, key) { CastsExactly(casts, types, rows, to); }
  }

  lemma FitExactly(incoming: Frame, target: Table)
    requires Sound(target)
    ensures var types := WithIds(incoming, target).types;
            ColumnsFit(incoming, target) <==>
            && types.Keys <= target.frame.types.Keys
            && !exists name :: name in target.primaryKey && name in target.frame.types && name !in types
  {
  }

  /** Rows have one cast, or none. */
  lemma CastsExactly(casts: Casts, types: map<string, ColumnType>, rows: seq<Row>, to: seq<Row>)
    ensures RowsCastTo(casts, types, rows, to) <==> CastRows(casts, types, rows) == Some(to)
  {
    forall i | 0 <= i < |rows| && i < |to|
      ensures RowCastTo(casts, types, rows[i], to[i]) <==> CastRow(casts, types, rows[i]) == Some(to[i])
    {
      RowCastsExactly(casts, types, rows[i], to[i]);
    }
    var cast := CastRows(casts, types, rows);
    if RowsCastTo(casts, types, rows, to) {
      assert cast.Some?;
      assert forall i :: 0 <= i < |to| ==> CastRow(casts, types, rows[i]) == Some(to[i]);
      assert cast.value == to;
    }
  }

  lemma CellCastsExactly(casts: Casts, t: ColumnType, from: Cell, to: Cell)
    ensures CastTo(casts, t, from, to) <==> Cast(casts, t, from) == Some(to)
  {
  }

  lemma RowCastsExactly(casts: Casts, types: map<string, ColumnType>, from: Row, to: Row)
    ensures RowCastTo(casts, types, from, to) <==> CastRow(casts, types, from) == Some(to)
  {
    forall name | name in types && name in to
      ensures CastTo(casts, types[name], Get(from, name), to[name]) <==>
              Cast(casts, types[name], Get(from, name)) == Some(to[name])
    {
      CellCastsExactly(casts, types[name], Get(from, name), to[name]);
    }
    if RowCastTo(casts, types, from, to) {
      assert forall name :: name in types ==> Cast(casts, types[name], Get(from, name)) == Some(to[name]);
      var cast := CastRow(casts, types, from).value;
      assert cast == to;
    }
  }

  /** An append or a replace: coercion's refusals, then constraints. */
  lemma CommitRefusals(casts: Casts, target: Table, p: Pending)
    requires !Recreates(p.policy) && !p.policy.Merge?
    ensures var coerced, done := Coerced(casts, p.incoming, target), Committed(casts, Some(target), p);
            if coerced.Failure? then done == Failure(coerced.error)
            else
              var cast := coerced.value.rows;
              && (done.Success? <==> Keeps(target, if p.policy.Append? then target.frame.rows + cast else cast))
              && (done.Failure? ==> done.error == DestinationConflict)
  {
  }

  /** A merge needs its conflict key to be a constraint, and incoming rows that satisfy all of them. */
  lemma MergeRefusals(casts: Casts, target: Table, p: Pending)
    requires p.policy.Merge?
    ensures var coerced, done := Coerced(casts, p.incoming, target), Committed(casts, Some(target), p);
            var conflict := p.policy.conflict;
            if coerced.Failure? then done == Failure(coerced.error)
            else if conflict == [] || (conflict != target.primaryKey && conflict !in target.unique)
            then done == Failure(SchemaDrift)
            else
              var rows, cast := target.frame.rows, coerced.value.rows;
              && (done.Success? <==> Keeps(target, cast) && Keeps(target, KeyedMerge(UpsertOf(target, p), rows, cast)))
              && (done.Failure? ==> done.error == DestinationConflict)
  {
  }

  /** The rows satisfy the table's primary key and unique constraints. */
  ghost predicate Keeps(target: Table, rows: seq<Row>) {
    Constrained(target.(frame := Frame(target.frame.types, rows)))
  }

  /** A table that is made anew. */
  lemma CreationRefusals(casts: Casts, target: Option<Table>, p: Pending)
    requires (target.None? || Recreates(p.policy)) && !p.policy.Merge?
    ensures var done, auto := Committed(casts, target, p), p.policy.autoKey;
            var key := if p.policy.primaryKey == [] then p.sourceKey else p.policy.primaryKey;
            && (done == Failure(SchemaDrift) <==>
                  if auto.Some? then auto.value in p.incoming.types
                  else exists name :: name in key && name !in p.incoming.types)
            && (done == Failure(DestinationConflict) <==>
                  && auto.None? && done != Failure(SchemaDrift)
                  && !Keeps(Table(p.incoming, key, {}, None), p.incoming.rows))
            && done != Failure(UnsupportedType)
  {
    if p.policy.autoKey.Some? && p.policy.autoKey.value !in p.incoming.types { NewTableWithGeneratedIds(p); }
  }

  /** There is nothing to merge into. */
  lemma MergeNeedsATable(casts: Casts, p: Pending)
    requires p.policy.Merge?
    ensures Committed(casts, None, p) == Failure(DestinationConflict)
  {
  }

  /**
   A replace leaves exactly the incoming rows, cast; an append the earlier rows and then those; both keep
   the table's types, keys and generated column, and count the incoming rows.
   */
  lemma CommitWritesRows(casts: Casts, target: Table, p: Pending) returns (numbered: seq<Row>, cast: seq<Row>)
    requires !p.policy.Merge? && !Recreates(p.policy) && Committed(casts, Some(target), p).Success?
    ensures NumberedOn(target, p.incoming, numbered) && RowsCastTo(casts, target.frame.types, numbered, cast)
    ensures var (t, loaded) := Committed(casts, Some(target), p).value;
            && t.frame.rows == (if p.policy.Replace? then cast else target.frame.rows + cast)
            && loaded == |p.incoming.rows|
            && t == target.(frame := Frame(target.frame.types, t.frame.rows))
  {
    numbered := CoercedRows(casts, p.incoming, target);
    cast := Coerced(casts, p.incoming, target).value.rows;
  }

  /** A merge leaves the keyed merge of the earlier rows and the incoming ones, cast. */
  lemma CommitMergesRows(casts: Casts, target: Table, p: Pending) returns (numbered: seq<Row>, cast: seq<Row>)
    requires p.policy.Merge? && Committed(casts, Some(target), p).Success?
    ensures NumberedOn(target, p.incoming, numbered) && RowsCastTo(casts, target.frame.types, numbered, cast)
    ensures var (t, loaded) := Committed(casts, Some(target), p).value;
            var omitted := target.identity.Some? && target.identity.value !in p.incoming.types;
            var u := Upsert(p.policy.conflict, p.policy.update, if omitted then {target.identity.value} else {});
            && t == target.(frame := Frame(target.frame.types, KeyedMerge(u, target.frame.rows, cast)))
            && (p.policy.update ==> loaded == |p.incoming.rows|)
            && (!p.policy.update ==> loaded == |t.frame.rows| - |target.frame.rows|)
  {
    numbered := CoercedRows(casts, p.incoming, target);
    cast := Coerced(casts, p.incoming, target).value.rows;
  }

  /** A new table has the incoming rows as they came, numbered from one when its key is generated. */
  lemma CommitCreatesRows(casts: Casts, target: Option<Table>, p: Pending)
    requires !p.policy.Merge? && (target.None? || Recreates(p.policy)) && Committed(casts, target, p).Success?
    ensures var (t, loaded) := Committed(casts, target, p).value; var key := p.policy.autoKey;
            && loaded == |t.frame.rows| == |p.incoming.rows| && t.identity == key && t.unique == {}
            && (forall i :: 0 <= i < |t.frame.rows| ==>
                  t.frame.rows[i] ==
                  if key.Some? then p.incoming.rows[i][key.value := Int(1 + i)] else p.incoming.rows[i])
            && t.primaryKey == (if key.Some? then [key.value]
                                else if p.policy.primaryKey != [] then p.policy.primaryKey else p.sourceKey)
  {
  }

  /** With the conflict key a constraint of a sound table, the repeated-key error cannot happen. */
  lemma RepeatedKeyUnreachable(target: Table, p: Pending, incoming: Frame)
    requires Sound(target) && p.policy.Merge? && p.policy.conflict in Constraints(target)
    requires Constrained(WithRows(target, incoming.rows))
    ensures Steps(UpsertOf(target, p), target.frame.rows, incoming.rows).Success?
    ensures var s := Steps(UpsertOf(target, p), target.frame.rows, incoming.rows).value;
            && s.rows == KeyedMerge(UpsertOf(target, p), target.frame.rows, incoming.rows)
            && s.loaded == Count(UpsertOf(target, p), target.frame.rows, incoming.rows)
  {
    assert Constraints(WithRows(target, incoming.rows)) == Constraints(target);
    UpsertIsKeyedMerge(UpsertOf(target, p), target.frame.rows, incoming.rows);
  }

  // ----- The backend -----

  type Name = (string, string)

  class DemoBackend {
    var tables: map<Name, Table>

    ghost predicate Valid()
      reads this
    {
      forall name :: name in tables ==> Sound(tables[name])
    }

    constructor (seeds: map<Name, Table>)
      requires forall name :: name in seeds ==> Sound(seeds[name])
      ensures Valid() && tables == seeds
    {
      tables := seeds;
    }

    /** `commit_postgres`: on failure nothing changes, on success one table does. */
    method Commit(casts: Casts, name: Name, p: Pending) returns (result: Result<(Table, nat), Fault>)
      requires Valid()
      modifies this
      ensures Valid()
      ensures result == Committed(casts, if name in old(tables) then Some(old(tables)[name]) else None, p)
      ensures tables == if result.Success? then old(tables)[name := result.value.0] else old(tables)
    {
      var target := if name in tables then Some(tables[name]) else None;
      var prepared := Prepared(casts, target, p);
      if prepared.Failure? {
        return Failure(prepared.error);
      }
      var incoming := prepared.value;
      var next, loaded := Table(incoming, [], {}, None), |incoming.rows|;
      match p.policy {
        case Append(_, _) =>
          if target.Some? {
            next := WithRows(target.value, target.value.frame.rows + incoming.rows);
          } else {
            var created := NewTable(p);
            if created.Failure? {
              return Failure(created.error);
            }
            next := created.value;
          }
        case Replace(recreate, _, _) =>
          if recreate || target.None? {
            var created := NewTable(p);
            if created.Failure? {
              return Failure(created.error);
            }
            next := created.value;
          } else {
            next := WithRows(target.value, incoming.rows);
          }
        case Merge(conflict, _) =>
          if target.None? {
            return Failure(DestinationConflict);
          }
          if conflict !in Constraints(target.value) {
            return Failure(SchemaDrift);
          }
          var acceptable := Enforce(WithRows(target.value, incoming.rows));
          if !acceptable {
            return Failure(DestinationConflict);
          }
          RepeatedKeyUnreachable(target.value, p, incoming);
          var merged := Apply(UpsertOf(target.value, p), target.value.frame.rows, incoming.rows);
          next, loaded := WithRows(target.value, merged.value.0), merged.value.1;
      }
      var fine := Enforce(next);
      if !fine {
        return Failure(DestinationConflict);
      }
      CommitKeepsConstraints(casts, target, p);
      tables := tables[name := next];
      return Success((next, loaded));
    }
  }
}
