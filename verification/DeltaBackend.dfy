/**
 The emulated Delta tables.  Connectors share committed tables and keep their own pending loads;
 a load commits only if its table still has the identity seen when the load was prepared.
 */
module DeltaBackend {
  import opened Wrappers

  type Row = map<string, string>

  /** Columns in order with their types, and rows. */
  datatype Frame = Frame(columns: seq<string>, types: map<string, string>, rows: seq<Row>)

  datatype Place = Place(workspace: string, catalog: string, schema: string, table: string)

  /** `objectId` is the identity the optimistic check compares. */
  datatype Table = Table(frame: Frame, objectId: string)

  type Tables = map<Place, Table>

  datatype Policy = Create | Append | Replace

  datatype Fault = Unsupported | NotFound | Conflict | Drift | NotOpen | Partial

  /** What a load asks for; `selectedId` is the identity in its locator, possibly empty. */
  datatype Request = Request(
    place: Place, selectedId: string, columns: seq<string>, types: map<string, string>, policy: Policy)

  datatype Load = Load(request: Request, expectedId: string, frames: seq<Frame>, sequence: nat, bytes: nat)

  /** A batch with the row and byte counts it claims and the size it has. */
  datatype Batch = Batch(frame: Frame, rowCount: nat, byteCount: nat, size: nat, sequence: nat)

  // ----- What each call decides -----

  function IdAt(tables: Tables, place: Place): string {
    if place in tables then tables[place].objectId else ""
  }

  predicate NamespaceKnown(tables: Tables, p: Place) {
    exists q :: q in tables && q.workspace == p.workspace && q.catalog == p.catalog && q.schema == p.schema
  }

  /** Some table is in the same schema. */
  ghost predicate Known(tables: Tables, p: Place) {
    exists name :: Place(p.workspace, p.catalog, p.schema, name) in tables
  }

  lemma KnownExactly(tables: Tables, p: Place)
    ensures NamespaceKnown(tables, p) <==> Known(tables, p)
  {
    if q :| q in tables && q.workspace == p.workspace && q.catalog == p.catalog && q.schema == p.schema {
      assert q == Place(p.workspace, p.catalog, p.schema, q.table);
    }
  }

  /** `prepare_destination` */
  function Prepared(tables: Tables, r: Request): Result<Load, Fault> {
    if r.columns == [] then Failure(Unsupported)
    else if !NamespaceKnown(tables, r.place) then Failure(NotFound)
    else if r.policy.Create? && r.place in tables then Failure(Conflict)
    else if !r.policy.Create? && r.place !in tables then Failure(NotFound)
    else if !r.policy.Create? && r.selectedId != "" && r.selectedId != tables[r.place].objectId then Failure(Drift)
    else Success(Load(r, IdAt(tables, r.place), [], 0, 0))
  }

  function Names(columns: seq<string>): set<string> { set c | c in columns }

  lemma NamesDiffer(a: seq<string>, b: seq<string>)
    ensures Names(a) != Names(b) <==> exists c :: (c in a) != (c in b)
  {
    assert forall c :: c in Names(a) <==> c in a;
    assert forall c :: c in Names(b) <==> c in b;
  }

  /** `write_batch` */
  function Written(load: Load, b: Batch): Result<Load, Fault> {
    if |b.frame.rows| != b.rowCount || b.byteCount != b.size then Failure(Partial)
    else if b.sequence <= load.sequence || Names(b.frame.columns) != Names(load.request.columns) then Failure(Drift)
    else
      Success(load.(frames := load.frames + [b.frame.(columns := load.request.columns)],
                    sequence := b.sequence, bytes := load.bytes + b.byteCount))
  }

  function RowsOf(frames: seq<Frame>): seq<Row> {
    if frames == [] then [] else RowsOf(frames[..|frames| - 1]) + frames[|frames| - 1].rows
  }

  predicate SameSchema(a: Frame, b: Frame) { a.columns == b.columns && a.types == b.types }

  /** The frames put together; an empty load has the columns it asked for. */
  function Incoming(load: Load): Option<Frame> {
    if load.frames == [] then Some(Frame(load.request.columns, load.request.types, []))
    else if forall i :: 0 <= i < |load.frames| ==> SameSchema(load.frames[i], load.frames[0])
    then Some(load.frames[0].(rows := RowsOf(load.frames)))
    else None
  }

  /** Columns with their order and types are the same. */
  ghost predicate SameColumns(a: Frame, b: Frame) {
    && |a.columns| == |b.columns| && a.types == b.types
    && forall i :: 0 <= i < |a.columns| ==> a.columns[i] == b.columns[i]
  }

  /** What the load brings has the columns of the table. */
  ghost predicate FitsTable(current: Frame, load: Load) {
    if load.frames == [] then current.columns == load.request.columns && current.types == load.request.types
    else current.columns == load.frames[0].columns && current.types == load.frames[0].types
  }

  lemma SameColumnsExactly(a: Frame, b: Frame)
    ensures SameColumns(a, b) <==> SameSchema(a, b)
  {
  }

  /** `finalize`: the table it puts in place. */
  function Finalized(tables: Tables, load: Load, newId: string): Result<Table, Fault> {
    var incoming, place := Incoming(load), load.request.place;
    if incoming.None? then Failure(Drift)
    else if IdAt(tables, place) != load.expectedId then Failure(Conflict)
    else if place !in tables then Success(Table(incoming.value, newId))
    else if !load.request.policy.Append? then Success(Table(incoming.value, tables[place].objectId))
    else if !SameSchema(tables[place].frame, incoming.value) then Failure(Drift)
    else
      var current := tables[place].frame;
      Success(Table(current.(rows := current.rows + incoming.value.rows), tables[place].objectId))
  }

  // ----- The shared backend and its connectors -----

  class Backend {
    var tables: Tables

    constructor (seeds: Tables)
      ensures tables == seeds
    {
      tables := seeds;
    }
  }

  class Connector {
    const backend: Backend
    var pending: map<string, Load>

    constructor (shared: Backend)
      ensures backend == shared && pending == map[]
    {
      backend, pending := shared, map[];
    }

    method Prepare(session: string, r: Request) returns (result: Result<Load, Fault>)
      modifies this`pending
      ensures result == Prepared(backend.tables, r)
      ensures result == Failure(Unsupported) <==> |r.columns| == 0
      ensures result == Failure(Conflict) <==>
                |r.columns| > 0 && Known(backend.tables, r.place) && r.policy == Create && r.place in backend.tables
      ensures result == Failure(NotFound) <==>
                && |r.columns| > 0
                && (!Known(backend.tables, r.place) || (r.policy != Create && r.place !in backend.tables))
      ensures result == Failure(Drift) <==>
                && |r.columns| > 0 && Known(backend.tables, r.place) && r.policy != Create && r.place in backend.tables
                && |r.selectedId| > 0 && r.selectedId != backend.tables[r.place].objectId
      ensures result.Success? ==>
                && result.value.request == r && |result.value.frames| == 0
                && result.value.sequence == 0 && result.value.bytes == 0
                && result.value.expectedId == if r.place in backend.tables then backend.tables[r.place].objectId else ""
      ensures pending == if result.Success? then old(pending)[session := result.value] else old(pending)
    {
      KnownExactly(backend.tables, r.place);
      result := Prepared(backend.tables, r);
      if result.Success? {
        pending := pending[session := result.value];
      }
    }

    method WriteBatch(session: string, b: Batch) returns (result: Result<nat, Fault>)
      modifies this`pending
      ensures session !in old(pending) ==> result == Failure(NotOpen)
      ensures session in old(pending) ==>
                var w := Written(old(pending)[session], b);
                && result == (if w.Success? then Success(|b.frame.rows|) else Failure(w.error))
                && (w.Success? ==> pending == old(pending)[session := w.value])
      ensures result == Failure(Partial) <==>
                session in old(pending) && (b.rowCount != |b.frame.rows| || b.byteCount != b.size)
      ensures result == Failure(Drift) <==>
                && session in old(pending) && b.rowCount == |b.frame.rows| && b.byteCount == b.size
                && (b.sequence <= old(pending)[session].sequence
                    || exists c :: (c in b.frame.columns) != (c in old(pending)[session].request.columns))
      ensures result.Success? ==>
                && session in old(pending) && session in pending && result.value == |b.frame.rows|
                && var was := old(pending)[session];
                && pending[session] == was.(
                     frames := was.frames + [Frame(was.request.columns, b.frame.types, b.frame.rows)],
                     sequence := b.sequence, bytes := was.bytes + b.size)
      ensures result.Failure? ==> pending == old(pending)
    {
      if session !in pending {
        return Failure(NotOpen);
      }
      var load := pending[session];
      NamesDiffer(b.frame.columns, load.request.columns);
      if |b.frame.rows| != b.rowCount || b.byteCount != b.size {
        return Failure(Partial);
      }
      if b.sequence <= load.sequence || Names(b.frame.columns) != Names(load.request.columns) {
        return Failure(Drift);
      }
      load := load.(frames := load.frames + [b.frame.(columns := load.request.columns)]);
      load := load.(sequence := b.sequence);
      load := load.(bytes := load.bytes + b.byteCount);
      pending := pending[session := load];
      return Success(|b.frame.rows|);
    }

    /** One table is replaced on success; on failure the load stays pending and no table changes. */
    method Finalize(session: string, newId: string) returns (result: Result<(nat, nat), Fault>)
      modifies this`pending, backend`tables
      ensures session !in old(pending) ==> result == Failure(NotOpen)
      ensures session in old(pending) ==>
                var load := old(pending)[session];
                var f := Finalized(old(backend.tables), load, newId);
                && (f.Failure? ==> result == Failure(f.error))
                && (f.Success? ==>
                      && result == Success((|RowsOf(load.frames)|, load.bytes))
                      && backend.tables == old(backend.tables)[load.request.place := f.value]
                      && pending == old(pending) - {session})
      ensures session in old(pending) ==>
                var load := old(pending)[session]; var place := load.request.place;
                var there, append := place in old(backend.tables), load.request.policy == Append;
                var mixed := exists i :: 0 < i < |load.frames| && !SameColumns(load.frames[i], load.frames[0]);
                var stale := load.expectedId != if there then old(backend.tables)[place].objectId else "";
                && (result == Failure(Conflict) <==> !mixed && stale)
                && (result == Failure(Drift) <==>
                      || mixed
                      || (!stale && there && append && !FitsTable(old(backend.tables)[place].frame, load)))
                && (result.Success? ==> result.value.1 == load.bytes && session !in pending && place in backend.tables)
                && (result.Success? && there ==>
                      backend.tables[place].objectId == old(backend.tables)[place].objectId)
                && (result.Success? && !there ==> backend.tables[place].objectId == newId)
      ensures result.Failure? ==> pending == old(pending) && backend.tables == old(backend.tables)
    {
      if session !in pending {
        return Failure(NotOpen);
      }
      var load := pending[session];
      var place := load.request.place;
      forall i | 0 <= i < |load.frames| { SameColumnsExactly(load.frames[i], load.frames[0]); }
      var incoming := Incoming(load);
      if incoming.None? {
        return Failure(Drift);
      }
      if IdAt(backend.tables, place) != load.expectedId {
        return Failure(Conflict);
      }
      var frame, id := incoming.value, newId;
      if place in backend.tables {
        var current := backend.tables[place];
        id := current.objectId;
        if load.request.policy.Append? {
          if !SameSchema(current.frame, frame) {
            return Failure(Drift);
          }
          frame := current.frame.(rows := current.frame.rows + frame.rows);
        }
      }
      backend.tables := backend.tables[place := Table(frame, id)];
      pending := pending - {session};
      return Success((|incoming.value.rows|, load.bytes));
    }

    method Abort(session: string)
      modifies this`pending
      ensures pending == old(pending) - {session}
    {
      pending := pending - {session};
    }
  }

  // ----- Any interleaving -----

  datatype System = System(tables: Tables, pending: map<Session, Load>)

  /** A connector and its session name. */
  type Session = (nat, string)

  datatype Event =
    | Prepare(session: Session, request: Request)
    | Write(session: Session, batch: Batch)
    | Finalize(session: Session, newId: string)
    | Abort(session: Session)

  /** A successful finalize. */
  datatype Commit = Commit(load: Load, newId: string)

  function Next(s: System, e: Event): System {
    match e
    case Prepare(n, r) =>
      var p := Prepared(s.tables, r);
      if p.Success? then s.(pending := s.pending[n := p.value]) else s
    case Write(n, b) =>
      if n in s.pending && Written(s.pending[n], b).Success?
      then s.(pending := s.pending[n := Written(s.pending[n], b).value]) else s
    case Finalize(n, id) =>
      if Commits(s, e)
      then System(s.tables[s.pending[n].request.place := Finalized(s.tables, s.pending[n], id).value], s.pending - {n})
      else s
    case Abort(n) => s.(pending := s.pending - {n})
  }

  predicate Commits(s: System, e: Event) {
    e.Finalize? && e.session in s.pending && Finalized(s.tables, s.pending[e.session], e.newId).Success?
  }

  function After(s: System, events: seq<Event>): System {
    if events == [] then s else Next(After(s, events[..|events| - 1]), events[|events| - 1])
  }

  /** The successful finalizes, in order. */
  function Log(s: System, events: seq<Event>): seq<Commit> {
    if events == [] then []
    else
      var before, e := After(s, events[..|events| - 1]), events[|events| - 1];
      Log(s, events[..|events| - 1]) + if Commits(before, e) then [Commit(before.pending[e.session], e.newId)] else []
  }

  /** The rows of one table after a log: an append adds its rows, anything else puts its rows in their place. */
  function Replayed(rows: seq<Row>, log: seq<Commit>, place: Place): seq<Row> {
    if log == [] then rows
    else
      var before, last := Replayed(rows, log[..|log| - 1], place), log[|log| - 1];
      if last.load.request.place != place then before
      else if last.load.request.policy.Append? then before + RowsOf(last.load.frames)
      else RowsOf(last.load.frames)
  }

  function RowsAt(tables: Tables, place: Place): seq<Row> {
    if place in tables then tables[place].frame.rows else []
  }

  /** New identities are not empty, as generated ones never are. */
  predicate Issued(events: seq<Event>) {
    forall i :: 0 <= i < |events| && events[i].Finalize? ==> events[i].newId != ""
  }

  /** Every table has an identity; a pending create expects none and any other load expects one. */
  ghost predicate WellFormed(s: System) {
    && (forall p :: p in s.tables ==> s.tables[p].objectId != "")
    && (forall n :: n in s.pending ==> (s.pending[n].expectedId == "" <==> s.pending[n].request.policy.Create?))
  }

  lemma StaysWellFormed(s: System, e: Event)
    requires WellFormed(s) && (e.Finalize? ==> e.newId != "")
    ensures WellFormed(Next(s, e))
  {
  }

  lemma {:induction false} AlwaysWellFormed(s: System, events: seq<Event>)
    requires WellFormed(s) && Issued(events)
    ensures WellFormed(After(s, events))
  {
    if events != [] {
      AlwaysWellFormed(s, events[..|events| - 1]);
      StaysWellFormed(After(s, events[..|events| - 1]), events[|events| - 1]);
    }
  }

  /** Only a successful finalize changes a table, and it changes one. */
  lemma OnlyCommitsWrite(s: System, e: Event, place: Place)
    ensures !Commits(s, e) || s.pending[e.session].request.place != place ==>
              (place in Next(s, e).tables <==> place in s.tables) &&
              (place in s.tables ==> Next(s, e).tables[place] == s.tables[place])
  {
  }

  /** An append finds its table; a create finds none. */
  lemma CommitMeetsItsTable(s: System, e: Event)
    requires WellFormed(s) && Commits(s, e)
    ensures s.pending[e.session].request.policy.Create? <==> s.pending[e.session].request.place !in s.tables
  {
  }

  lemma CommittedRows(s: System, e: Event)
    requires WellFormed(s) && Commits(s, e)
    ensures var load := s.pending[e.session];
            RowsAt(Next(s, e).tables, load.request.place) ==
            if load.request.policy.Append? then RowsAt(s.tables, load.request.place) + RowsOf(load.frames)
            else RowsOf(load.frames)
  {
    CommitMeetsItsTable(s, e);
  }

  /** After any interleaving, every table holds what its commits put there, in the order they finalized. */
  lemma {:induction false} TablesReplayTheirCommits(s: System, events: seq<Event>, place: Place)
    requires WellFormed(s) && Issued(events)
    ensures RowsAt(After(s, events).tables, place) == Replayed(RowsAt(s.tables, place), Log(s, events), place)
  {
    if events != [] {
      var init, e := events[..|events| - 1], events[|events| - 1];
      var before := After(s, init);
      TablesReplayTheirCommits(s, init, place);
      AlwaysWellFormed(s, init);
      OnlyCommitsWrite(before, e, place);
      if Commits(before, e) {
        CommittedRows(before, e);
        var c := Commit(before.pending[e.session], e.newId);
        assert (Log(s, init) + [c])[..|Log(s, init)|] == Log(s, init);
      } else {
        assert Log(s, init) + [] == Log(s, init);
      }
    }
  }

  /** Once there, a table stays and keeps its identity. */
  lemma {:induction false} IdentityStays(s: System, events: seq<Event>, place: Place)
    requires WellFormed(s) && Issued(events) && place in s.tables
    ensures place in After(s, events).tables
    ensures After(s, events).tables[place].objectId == s.tables[place].objectId
  {
    if events != [] { IdentityStays(s, events[..|events| - 1], place); }
  }

  lemma {:induction false} CommittedStays(s: System, events: seq<Event>)
    requires WellFormed(s) && Issued(events)
    ensures forall i :: 0 <= i < |Log(s, events)| ==> Log(s, events)[i].load.request.place in After(s, events).tables
  {
    if events != [] {
      CommittedStays(s, events[..|events| - 1]);
    }
  }

  /** No create follows another commit to its place, or finds a table of the initial state. */
  ghost predicate CreatesFirst(tables: Tables, log: seq<Commit>) {
    && (forall i, j :: 0 <= i < j < |log| && log[i].load.request.place == log[j].load.request.place ==>
                         !log[j].load.request.policy.Create?)
    && (forall i :: 0 <= i < |log| && log[i].load.request.policy.Create? ==> log[i].load.request.place !in tables)
  }

  lemma CreatesFirstOn(tables: Tables, log: seq<Commit>, c: Commit)
    requires CreatesFirst(tables, log)
    requires c.load.request.policy.Create? ==>
               && c.load.request.place !in tables
               && forall i :: 0 <= i < |log| ==> log[i].load.request.place != c.load.request.place
    ensures CreatesFirst(tables, log + [c])
  {
  }

  /** A create commits only as the first commit to its place: of two pending creates one fails. */
  lemma {:induction false} CreateComesFirst(s: System, events: seq<Event>)
    requires WellFormed(s) && Issued(events)
    ensures CreatesFirst(s.tables, Log(s, events))
  {
    if events != [] {
      var init, e := events[..|events| - 1], events[|events| - 1];
      var before, log := After(s, init), Log(s, init);
      CreateComesFirst(s, init);
      CommittedStays(s, init);
      AlwaysWellFormed(s, init);
      if Commits(before, e) {
        CommitMeetsItsTable(before, e);
        var place := before.pending[e.session].request.place;
        if place in s.tables { IdentityStays(s, init, place); }
        CreatesFirstOn(s.tables, log, Commit(before.pending[e.session], e.newId));
      } else {
        assert log + [] == log;
      }
    }
  }

  /** Commits that are all appends keep every row committed before them, as a prefix. */
  lemma AppendsLoseNothing(s: System, events: seq<Event>, place: Place)
    requires WellFormed(s) && Issued(events) && place in s.tables
    requires forall i :: 0 <= i < |Log(s, events)| && Log(s, events)[i].load.request.place == place ==>
                           Log(s, events)[i].load.request.policy.Append?
    ensures RowsAt(s.tables, place) <= RowsAt(After(s, events).tables, place)
  {
    TablesReplayTheirCommits(s, events, place);
    ReplayedAppends(RowsAt(s.tables, place), Log(s, events), place);
  }

  lemma {:induction false} ReplayedAppends(rows: seq<Row>, log: seq<Commit>, place: Place)
    requires forall i :: 0 <= i < |log| && log[i].load.request.place == place ==> log[i].load.request.policy.Append?
    ensures rows <= Replayed(rows, log, place)
  {
    if log != [] { ReplayedAppends(rows, log[..|log| - 1], place); }
  }

  // ----- What a load wrote -----

  /** Event `i` is a batch of the session that was taken. */
  ghost predicate Takes(s: System, events: seq<Event>, i: nat, session: Session)
    requires i < |events|
  {
    var before := After(s, events[..i]);
    && events[i].Write? && events[i].session == session && session in before.pending
    && Written(before.pending[session], events[i].batch).Success?
  }

  /** The rows of the batches taken from event `first` on, in order. */
  ghost function RowsTaken(s: System, events: seq<Event>, first: nat, session: Session): seq<Row> {
    if |events| <= first then []
    else
      var n := |events| - 1;
      RowsTaken(s, events[..n], first, session)
      + if Takes(s, events, n, session) then events[n].batch.frame.rows else []
  }

  ghost function BytesTaken(s: System, events: seq<Event>, first: nat, session: Session): nat {
    if |events| <= first then 0
    else
      var n := |events| - 1;
      BytesTaken(s, events[..n], first, session) + if Takes(s, events, n, session) then events[n].batch.size else 0
  }

  /** Event `p` opened the session's load. */
  ghost predicate Opens(s: System, events: seq<Event>, p: nat, session: Session)
    requires p < |events|
  {
    && events[p].Prepare? && events[p].session == session
    && Prepared(After(s, events[..p]).tables, events[p].request).Success?
  }

  /** Since event `p` opened it, the session's load was neither closed nor opened again, and this is what it holds. */
  ghost predicate HoldsSince(s: System, events: seq<Event>, p: nat, session: Session) {
    && p < |events| && Opens(s, events, p, session) && session in After(s, events).pending
    && var load := After(s, events).pending[session];
       && load.request == events[p].request
       && RowsOf(load.frames) == RowsTaken(s, events, p + 1, session)
       && load.bytes == BytesTaken(s, events, p + 1, session)
  }

  lemma RowsOfMore(frames: seq<Frame>, frame: Frame)
    ensures RowsOf(frames + [frame]) == RowsOf(frames) + frame.rows
  {
    assert (frames + [frame])[..|frames|] == frames;
  }

  lemma HoldsOn(s: System, events: seq<Event>, e: Event, p: nat, session: Session)
    requires HoldsSince(s, events, p, session) && session in Next(After(s, events), e).pending
    requires !(e.Prepare? && e.session == session && Prepared(After(s, events).tables, e.request).Success?)
    ensures HoldsSince(s, events + [e], p, session)
  {
    var more, n := events + [e], |events|;
    assert more[..n] == events && more[..p] == events[..p];
    if Takes(s, more, n, session) {
      var load := After(s, events).pending[session];
      RowsOfMore(load.frames, e.batch.frame.(columns := load.request.columns));
    } else {
      assert After(s, more).pending[session] == After(s, events).pending[session];
      assert RowsTaken(s, events, p + 1, session) + [] == RowsTaken(s, events, p + 1, session);
    }
  }

  lemma HoldsFresh(s: System, events: seq<Event>, e: Event, session: Session)
    requires e.Prepare? && e.session == session && Prepared(After(s, events).tables, e.request).Success?
    ensures HoldsSince(s, events + [e], |events|, session)
  {
    assert (events + [e])[..|events|] == events;
  }

  /**
   An open load holds exactly the rows of the batches taken since it was opened, in their order, and their
   bytes.
   */
  lemma {:induction false} LoadHoldsItsBatches(s: System, events: seq<Event>, session: Session) returns (p: nat)
    requires s.pending == map[] && session in After(s, events).pending
    ensures HoldsSince(s, events, p, session)
  {
    var n := |events| - 1;
    var init, e := events[..n], events[n];
    assert events == init + [e];
    if e.Prepare? && e.session == session && Prepared(After(s, init).tables, e.request).Success? {
      HoldsFresh(s, init, e, session);
      p := n;
    } else {
      p := LoadHoldsItsBatches(s, init, session);
      HoldsOn(s, init, e, p, session);
    }
  }

  /**
   A commit leaves its table with the rows of the batches taken since the load was opened, behind those it
   had for an append and instead of them otherwise.
   */
  lemma CommitWritesItsBatches(s: System, events: seq<Event>, commit: Event) returns (p: nat)
    requires WellFormed(s) && Issued(events) && s.pending == map[] && Commits(After(s, events), commit)
    ensures p < |events| && Opens(s, events, p, commit.session)
    ensures var place, tables := events[p].request.place, After(s, events + [commit]).tables;
            && place in tables
            && tables[place].frame.rows ==
               (if events[p].request.policy == Append then RowsAt(After(s, events).tables, place) else [])
               + RowsTaken(s, events, p + 1, commit.session)
  {
    AlwaysWellFormed(s, events);
    p := LoadHoldsItsBatches(s, events, commit.session);
    assert (events + [commit])[..|events|] == events;
    CommittedRows(After(s, events), commit);
  }

  // ----- A table in closed form -----

  predicate At(c: Commit, place: Place) { c.load.request.place == place }

  predicate Sets(c: Commit, place: Place) { At(c, place) && !c.load.request.policy.Append? }

  /** The last commit to the place that puts its rows there instead of adding them. */
  function LastSet(log: seq<Commit>, place: Place): Option<nat> {
    if log == [] then None
    else if Sets(log[|log| - 1], place) then Some(|log| - 1)
    else LastSet(log[..|log| - 1], place)
  }

  lemma {:induction false} LastSetIsLast(log: seq<Commit>, place: Place)
    ensures var at := LastSet(log, place);
            && (at.None? ==> forall i :: 0 <= i < |log| ==> !Sets(log[i], place))
            && (at.Some? ==> at.value < |log| && Sets(log[at.value], place)
                             && forall i :: at.value < i < |log| ==> !Sets(log[i], place))
  {
    if log != [] { LastSetIsLast(log[..|log| - 1], place); }
  }

  /** The rows of every commit to the place, in order. */
  function RowsTo(log: seq<Commit>, place: Place): seq<Row> {
    if log == [] then []
    else
      var before := RowsTo(log[..|log| - 1], place);
      if At(log[|log| - 1], place) then before + RowsOf(log[|log| - 1].load.frames) else before
  }

  /** The rows of the last setting commit, or what was there at first, then every later append's. */
  lemma {:induction false} ReplayedInClosedForm(rows: seq<Row>, log: seq<Commit>, place: Place)
    ensures match LastSet(log, place)
            case None => Replayed(rows, log, place) == rows + RowsTo(log, place)
            case Some(at) =>
              && at < |log|
              && Replayed(rows, log, place) == RowsOf(log[at].load.frames) + RowsTo(log[at + 1..], place)
  {
    if log != [] {
      var n := |log| - 1;
      var init, last := log[..n], log[n];
      ReplayedInClosedForm(rows, init, place);
      LastSetIsLast(init, place);
      if Sets(last, place) {
        assert log[n + 1..] == [];
      } else {
        var at := LastSet(init, place);
        if at.Some? {
          assert log[at.value + 1..][..n - at.value - 1] == init[at.value + 1..];
          RowsAddUp(RowsOf(log[at.value].load.frames), log[at.value + 1..], place);
        } else {
          RowsAddUp(rows, log, place);
        }
      }
    }
  }

  lemma RowsAddUp(rows: seq<Row>, log: seq<Commit>, place: Place)
    requires log != []
    ensures rows + RowsTo(log, place) ==
            (rows + RowsTo(log[..|log| - 1], place))
            + if At(log[|log| - 1], place) then RowsOf(log[|log| - 1].load.frames) else []
  {
  }

  /**
   After any interleaving a table holds the rows of its last commit that was no append, followed by
   those of every append that finalized after it, in that order.
   */
  lemma TableInClosedForm(s: System, events: seq<Event>, place: Place)
    requires WellFormed(s) && Issued(events)
    ensures var log, rows := Log(s, events), RowsAt(After(s, events).tables, place);
            match LastSet(log, place)
            case None => rows == RowsAt(s.tables, place) + RowsTo(log, place)
            case Some(at) => at < |log| && rows == RowsOf(log[at].load.frames) + RowsTo(log[at + 1..], place)
  {
    TablesReplayTheirCommits(s, events, place);
    ReplayedInClosedForm(RowsAt(s.tables, place), Log(s, events), place);
  }

  /**
   The optimistic check compares identities only: a pending replace commits after any append to its
   table, however recent, and leaves none of its rows.
   */
  lemma ReplaceDropsAnAppend(s: System, append: Event, replace: Event)
    requires WellFormed(s) && Commits(s, append) && Commits(s, replace) && append.session != replace.session
    requires var a, r := s.pending[append.session].request, s.pending[replace.session].request;
             a.policy.Append? && r.policy.Replace? && a.place == r.place
    ensures Commits(Next(s, append), replace)
    ensures RowsAt(Next(Next(s, append), replace).tables, s.pending[replace.session].request.place) ==
            RowsOf(s.pending[replace.session].frames)
  {
    CommitMeetsItsTable(s, append);
    CommitMeetsItsTable(s, replace);
  }

  /** An append behind an append, on the other hand, keeps both. */
  lemma AppendsBothStay(s: System, first: Event, second: Event)
    requires WellFormed(s) && Commits(s, first) && Commits(s, second) && first.session != second.session
    requires var a, b := s.pending[first.session].request, s.pending[second.session].request;
             a.policy.Append? && b.policy.Append? && a.place == b.place
    ensures Commits(Next(s, first), second)
    ensures var place := s.pending[first.session].request.place;
            RowsAt(Next(Next(s, first), second).tables, place) ==
            RowsAt(s.tables, place) + RowsOf(s.pending[first.session].frames) + RowsOf(s.pending[second.session].frames)
  {
    CommitMeetsItsTable(s, first);
    CommitMeetsItsTable(s, second);
  }
}
