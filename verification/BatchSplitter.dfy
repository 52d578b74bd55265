/**
 Splitting frames into bounded batches, numbering them through an extraction, and the
 destination's check of those numbers.  How large a frame is, is any function of its rows.
 */
module BatchSplitter {
  import opened Wrappers

  datatype Batch<T> = Batch(columns: set<string>, frame: seq<T>, rowCount: nat, byteCount: nat, sequence: nat)

  /** What a source yields before it is split. */
  datatype Frame<T> = Frame(columns: set<string>, rows: seq<T>)

  datatype Limits = Limits(rows: nat, bytes: nat)

  function Least(a: nat, b: nat): nat { if a < b then a else b }

  /** The frames of the batches, one after the other. */
  function Joined<T>(batches: seq<Batch<T>>): seq<T> {
    if batches == [] then [] else Joined(batches[..|batches| - 1]) + batches[|batches| - 1].frame
  }

  function Flattened<T>(frames: seq<seq<T>>): seq<T> {
    if frames == [] then [] else Flattened(frames[..|frames| - 1]) + frames[|frames| - 1]
  }

  lemma {:induction false} JoinedAppends<T>(a: seq<Batch<T>>, b: seq<Batch<T>>)
    ensures Joined(a + b) == Joined(a) + Joined(b)
    decreases |b|
  {
    if b == [] {
      assert a + b == a;
    } else {
      var init := b[..|b| - 1];
      assert (a + b)[..|a + b| - 1] == a + init;
      JoinedAppends(a, init);
      assert Joined(a) + Joined(init) + b[|b| - 1].frame == Joined(a) + (Joined(init) + b[|b| - 1].frame);
    }
  }

  /** Not empty, within both limits, and acknowledged with its own counts. */
  predicate Bounded<T>(b: Batch<T>, limits: Limits, size: seq<T> -> nat) {
    && 1 <= |b.frame| <= limits.rows && size(b.frame) <= limits.bytes
    && b.rowCount == |b.frame| && b.byteCount == size(b.frame)
  }

  predicate Numbered<T>(batches: seq<Batch<T>>, first: nat) {
    forall i :: 0 <= i < |batches| ==> batches[i].sequence == first + i
  }

  predicate AllBounded<T>(batches: seq<Batch<T>>, limits: Limits, size: seq<T> -> nat) {
    forall i :: 0 <= i < |batches| ==> Bounded(batches[i], limits, size)
  }

  /** The slice at `start` is as long as it may be, or one twice as long is over the byte limit. */
  predicate Generous<T>(frame: seq<T>, start: nat, length: nat, limits: Limits, size: seq<T> -> nat)
    requires start + length <= |frame|
  {
    || length == limits.rows || start + length == |frame|
    || (start + 2 * length <= |frame| && size(frame[start..start + 2 * length]) > limits.bytes)
    || (start + 2 * length + 1 <= |frame| && size(frame[start..start + 2 * length + 1]) > limits.bytes)
  }

  /** Where batch `i` starts in the frame. */
  function StartOf<T>(batches: seq<Batch<T>>, i: nat): nat
    requires i <= |batches|
  {
    |Joined(batches[..i])|
  }

  predicate AllGenerous<T>(batches: seq<Batch<T>>, frame: seq<T>, limits: Limits, size: seq<T> -> nat) {
    forall i :: 0 <= i < |batches| ==>
      && StartOf(batches, i) + |batches[i].frame| <= |frame|
      && Generous(frame, StartOf(batches, i), |batches[i].frame|, limits, size)
  }

  predicate Labelled<T>(batches: seq<Batch<T>>, columns: set<string>) {
    forall i :: 0 <= i < |batches| ==> batches[i].columns == columns
  }

  /** The row at `r` alone is over the byte limit. */
  predicate Oversize<T>(frame: seq<T>, r: nat, limits: Limits, size: seq<T> -> nat) {
    r < |frame| && size(frame[r..r + 1]) > limits.bytes
  }

  /** The batches cover the frame up to `start`. */
  ghost predicate Covers<T>(batches: seq<Batch<T>>, frame: seq<T>, start: nat, limits: Limits, size: seq<T> -> nat) {
    && start <= |frame| && Joined(batches) == frame[..start]
    && AllBounded(batches, limits, size) && AllGenerous(batches, frame, limits, size)
  }

  lemma CoversMore<T>(
      batches: seq<Batch<T>>, frame: seq<T>, start: nat, limits: Limits, size: seq<T> -> nat, b: Batch<T>)
    requires Covers(batches, frame, start, limits, size) && Bounded(b, limits, size)
    requires start + |b.frame| <= |frame| && b.frame == frame[start..start + |b.frame|]
    requires Generous(frame, start, |b.frame|, limits, size)
    ensures Covers(batches + [b], frame, start + |b.frame|, limits, size)
  {
    var more := batches + [b];
    assert more[..|batches|] == batches;
    assert Joined(more) == frame[..start] + b.frame == frame[..start + |b.frame|];
    forall i | 0 <= i < |more|
      ensures StartOf(more, i) + |more[i].frame| <= |frame|
      ensures Generous(frame, StartOf(more, i), |more[i].frame|, limits, size)
    {
      if i < |batches| { assert more[..i] == batches[..i]; }
    }
  }

  /** The longest slice at `start`, halved until it is within the byte limit or a single row. */
  method Candidate<T>(frame: seq<T>, start: nat, limits: Limits, size: seq<T> -> nat) returns (length: nat)
    requires limits.rows >= 1 && start < |frame|
    ensures 1 <= length <= limits.rows && start + length <= |frame|
    ensures Generous(frame, start, length, limits, size)
    ensures size(frame[start..start + length]) > limits.bytes ==> length == 1
  {
    length := Least(limits.rows, |frame| - start);
    var candidate := frame[start..start + length];
    while size(candidate) > limits.bytes && length > 1
      invariant 1 <= length <= Least(limits.rows, |frame| - start)
      invariant candidate == frame[start..start + length]
      invariant Generous(frame, start, length, limits, size)
      decreases length
    {
      length := length / 2;
      candidate := frame[start..start + length];
    }
  }

  /** The batches yielded by the time the frame is split up to `start`. */
  ghost predicate Yielded<T>(
      batches: seq<Batch<T>>, frame: seq<T>, start: nat, limits: Limits, size: seq<T> -> nat,
      columns: set<string>, first: nat)
  {
    && Covers(batches, frame, start, limits, size) && |Joined(batches)| == start
    && Numbered(batches, first) && Labelled(batches, columns)
  }

  lemma YieldsOn<T>(
      batches: seq<Batch<T>>, frame: seq<T>, start: nat, limits: Limits, size: seq<T> -> nat, b: Batch<T>, first: nat)
    requires Yielded(batches, frame, start, limits, size, b.columns, first)
    requires Bounded(b, limits, size) && b.sequence == first + |batches|
    requires start + |b.frame| <= |frame| && b.frame == frame[start..start + |b.frame|]
    requires Generous(frame, start, |b.frame|, limits, size)
    ensures Yielded(batches + [b], frame, start + |b.frame|, limits, size, b.columns, first)
  {
    CoversMore(batches, frame, start, limits, size, b);
  }

  /** `bounded_frame_batches`; when it fails, the batches already yielded are returned with the failure. */
  method Split<T>(columns: set<string>, frame: seq<T>, limits: Limits, size: seq<T> -> nat, first: nat)
    returns (batches: seq<Batch<T>>, failed: bool)
    requires limits.rows >= 1
    ensures Labelled(batches, columns)
    ensures Numbered(batches, first) && Covers(batches, frame, |Joined(batches)|, limits, size)
    ensures !failed ==> Joined(batches) == frame
    ensures failed ==> Oversize(frame, |Joined(batches)|, limits, size)
  {
    batches := [];
    var start, sequence := 0, first;
    while start < |frame|
      invariant Yielded(batches, frame, start, limits, size, columns, first) && sequence == first + |batches|
      decreases |frame| - start
    {
      var length := Candidate(frame, start, limits, size);
      var candidate := frame[start..start + length];
      if size(candidate) > limits.bytes {
        return batches, true;
      }
      var batch := Batch(columns, candidate, |candidate|, size(candidate), sequence);
      YieldsOn(batches, frame, start, limits, size, batch, first);
      batches := batches + [batch];
      start := start + length;
      sequence := sequence + 1;
    }
    assert frame[..start] == frame;
    return batches, false;
  }

  // ----- When splitting fails -----

  /** A part of a frame is no larger than the frame. */
  ghost predicate Monotone<T(!new)>(size: seq<T> -> nat) {
    forall frame: seq<T>, i: nat, j: nat, k: nat, l: nat ::
      k <= i <= j <= l <= |frame| ==> size(frame[i..j]) <= size(frame[k..l])
  }

  lemma {:induction false} Within<T>(batches: seq<Batch<T>>, frame: seq<T>, r: nat) returns (i: nat)
    requires Joined(batches) <= frame && r < |Joined(batches)|
    ensures i < |batches| && StartOf(batches, i) <= r < StartOf(batches, i) + |batches[i].frame|
    ensures StartOf(batches, i) + |batches[i].frame| <= |frame|
    ensures batches[i].frame == frame[StartOf(batches, i)..StartOf(batches, i) + |batches[i].frame|]
  {
    var n := |batches| - 1;
    if r >= |Joined(batches[..n])| {
      i := n;
    } else {
      i := Within(batches[..n], frame, r);
      assert batches[..n][..i] == batches[..i];
    }
  }

  /** For sizes that grow with the rows, a frame splits exactly when each of its rows alone is within the limit. */
  method SplitsExactlyWhen<T(!new)>(frame: seq<T>, limits: Limits, size: seq<T> -> nat)
    returns (batches: seq<Batch<T>>, failed: bool)
    requires limits.rows >= 1 && Monotone(size)
    ensures failed <==> exists r :: 0 <= r < |frame| && Oversize(frame, r, limits, size)
  {
    batches, failed := Split({}, frame, limits, size, 1);
    if !failed {
      forall r | 0 <= r < |frame| ensures !Oversize(frame, r, limits, size) {
        var i := Within(batches, frame, r);
        assert Bounded(batches[i], limits, size);
        var k := StartOf(batches, i);
        assert size(frame[r..r + 1]) <= size(frame[k..k + |batches[i].frame|]);
      }
    }
  }

  // ----- An extraction -----

  /** The rows are those of the frames before one that holds a row over the limit. */
  ghost predicate StopsAtOversize<T>(rows: seq<T>, frames: seq<seq<T>>, limits: Limits, size: seq<T> -> nat) {
    exists i, r :: 0 <= i < |frames| && 0 <= r < |frames[i]| && rows == Flattened(frames[..i])
                   && Oversize(frames[i], r, limits, size)
  }

  lemma NumberedOn<T>(a: seq<Batch<T>>, b: seq<Batch<T>>, first: nat)
    requires Numbered(a, first) && Numbered(b, first + |a|)
    ensures Numbered(a + b, first)
  {
  }

  lemma BoundedOn<T>(a: seq<Batch<T>>, b: seq<Batch<T>>, limits: Limits, size: seq<T> -> nat)
    requires AllBounded(a, limits, size) && AllBounded(b, limits, size)
    ensures AllBounded(a + b, limits, size)
  {
  }

  function RowsOf<T>(frames: seq<Frame<T>>): (rows: seq<seq<T>>)
    ensures |rows| == |frames| && forall i :: 0 <= i < |frames| ==> rows[i] == frames[i].rows
  {
    seq(|frames|, i requires 0 <= i < |frames| => frames[i].rows)
  }

  ghost predicate ComesFrom<T>(b: Batch<T>, frames: seq<Frame<T>>) {
    exists j :: 0 <= j < |frames| && b.columns == frames[j].columns
  }

  /** Every batch has the columns of some frame. */
  ghost predicate ColumnsFrom<T>(batches: seq<Batch<T>>, frames: seq<Frame<T>>) {
    forall i :: 0 <= i < |batches| ==> ComesFrom(batches[i], frames)
  }

  lemma ColumnsOn<T>(a: seq<Batch<T>>, b: seq<Batch<T>>, frames: seq<Frame<T>>, j: nat)
    requires ColumnsFrom(a, frames) && j < |frames|
    requires forall i :: 0 <= i < |b| ==> b[i].columns == frames[j].columns
    ensures ColumnsFrom(a + b, frames)
  {
    forall i | 0 <= i < |b| ensures ComesFrom(b[i], frames) { assert b[i].columns == frames[j].columns; }
  }

  /** Frames split one after the other; a frame that cannot be split yields none of its batches. */
  method Extract<T>(frames: seq<Frame<T>>, limits: Limits, size: seq<T> -> nat)
    returns (batches: seq<Batch<T>>, failed: bool)
    requires limits.rows >= 1
    ensures Numbered(batches, 1) && AllBounded(batches, limits, size) && ColumnsFrom(batches, frames)
    ensures !failed ==> Joined(batches) == Flattened(RowsOf(frames))
    ensures failed ==> StopsAtOversize(Joined(batches), RowsOf(frames), limits, size)
  {
    batches := [];
    ghost var rows := RowsOf(frames);
    var sequence, i := 1, 0;
    while i < |frames|
      invariant 0 <= i <= |frames| && sequence == 1 + |batches|
      invariant Numbered(batches, 1) && AllBounded(batches, limits, size) && ColumnsFrom(batches, frames)
      invariant Joined(batches) == Flattened(rows[..i])
    {
      var more, over := Split(frames[i].columns, frames[i].rows, limits, size, sequence);
      if over {
        assert Oversize(rows[i], |Joined(more)|, limits, size);
        return batches, true;
      }
      JoinedAppends(batches, more);
      NumberedOn(batches, more, 1);
      BoundedOn(batches, more, limits, size);
      ColumnsOn(batches, more, frames, i);
      assert rows[..i + 1][..i] == rows[..i];
      batches := batches + more;
      sequence := sequence + |more|;
      i := i + 1;
    }
    assert rows[..i] == rows;
    return batches, false;
  }

  // ----- A destination -----

  datatype WriteFault = WrongCounts | OutOfSequence | WrongColumns

  datatype TransferEnd = Complete | Oversized | Drifted

  class PendingLoad<T> {
    const columns: set<string>
    var frames: seq<seq<T>>
    var rows: nat
    var bytes: nat
    var lastSequence: nat

    constructor (expected: set<string>)
      ensures columns == expected && frames == [] && rows == 0 && bytes == 0 && lastSequence == 0
    {
      columns := expected;
      frames, rows, bytes, lastSequence := [], 0, 0, 0;
    }

    predicate Valid()
      reads this
    {
      rows == |Flattened(frames)|
    }

    method WriteBatch(b: Batch<T>, size: seq<T> -> nat) returns (fault: Option<WriteFault>)
      requires Valid()
      modifies this
      ensures Valid()
      ensures fault == if b.rowCount != |b.frame| || b.byteCount != size(b.frame) then Some(WrongCounts)
                       else if b.sequence <= old(lastSequence) then Some(OutOfSequence)
                       else if b.columns != columns then Some(WrongColumns) else None
      ensures fault.Some? ==>
                && frames == old(frames) && rows == old(rows)
                && bytes == old(bytes) && lastSequence == old(lastSequence)
      ensures fault.None? ==>
                && frames == old(frames) + [b.frame] && rows == old(rows) + |b.frame|
                && bytes == old(bytes) + size(b.frame) && lastSequence == b.sequence
    {
      if b.rowCount != |b.frame| || b.byteCount != size(b.frame) {
        return Some(WrongCounts);
      }
      if b.sequence <= lastSequence {
        return Some(OutOfSequence);
      }
      if b.columns != columns {
        return Some(WrongColumns);
      }
      assert (frames + [b.frame])[..|frames|] == frames;
      frames := frames + [b.frame];
      rows := rows + |b.frame|;
      bytes := bytes + b.byteCount;
      lastSequence := b.sequence;
      return None;
    }
  }

  /**
   A whole transfer: the destination's checks of counts and order never fire, and it ends with the
   source's rows in order, or with those of the frames before one holding a row over the limit, or at a
   frame whose columns are not the expected ones.
   */
  method Transfer<T>(frames: seq<Frame<T>>, expected: set<string>, limits: Limits, size: seq<T> -> nat)
    returns (load: PendingLoad<T>, end: TransferEnd)
    requires limits.rows >= 1
    ensures fresh(load) && load.Valid() && load.columns == expected
    ensures end == Complete ==> Flattened(load.frames) == Flattened(RowsOf(frames))
    ensures end == Oversized ==> StopsAtOversize(Flattened(load.frames), RowsOf(frames), limits, size)
    ensures end == Drifted ==> exists j :: 0 <= j < |frames| && frames[j].columns != expected
  {
    var batches, failed := Extract(frames, limits, size);
    load := new PendingLoad(expected);
    var i := 0;
    while i < |batches|
      invariant 0 <= i <= |batches| && fresh(load) && load.Valid() && load.columns == expected
      invariant load.lastSequence == i
      invariant Flattened(load.frames) == Joined(batches[..i])
    {
      ghost var before := load.frames;
      assert Bounded(batches[i], limits, size);
      var fault := load.WriteBatch(batches[i], size);
      if fault.Some? {
        assert fault.value == WrongColumns;
        return load, Drifted;
      }
      assert (before + [batches[i].frame])[..|before|] == before;
      assert batches[..i + 1][..i] == batches[..i];
      i := i + 1;
    }
    assert batches[..i] == batches;
    return load, if failed then Oversized else Complete;
  }
}
