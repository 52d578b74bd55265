/** What a record says about the transactions that made it: its totals, its submission, its confirmation. */
module RecordHistory {
  import opened Wrappers
  import opened Publication

  /** The transactions on one run's record: events reported of it, and those of recovery actors. */
  datatype Transaction =
    | Reported(lease: Option<Lease>, caller: Caller, event: Event, now: Time, fenceFree: bool)
    | Reclaimed(token: Token, now: Time)
    | Postponed(delay: nat, state: State, now: Time)
    | Marked(now: Time)
    | Swept

  function Written(record: Option<Record>, t: Transaction): Option<Record> {
    match t
    case Reported(lease, caller, event, now, fenceFree) =>
      var outcome := Recorded(lease, record, caller, event, now, fenceFree);
      if outcome.Success? then Some(outcome.value) else record
    case Reclaimed(token, now) => if record.None? then None else Some(Claimed(record.value, token, now))
    case Postponed(delay, state, now) => if record.None? then None else Some(Deferred(record.value, delay, state, now))
    case Marked(now) => if record.None? then None else Some(MarkedCommitted(record.value, now))
    case Swept => if record.None? then None else Some(Closed(record.value))
  }

  /** The record after the transactions; there is none at first. */
  function After(ts: seq<Transaction>): Option<Record> {
    if ts == [] then None else Written(After(ts[..|ts| - 1]), ts[|ts| - 1])
  }

  /** Transaction `i` is an event that was accepted. */
  predicate Accepted(ts: seq<Transaction>, i: nat)
    requires i < |ts|
  {
    ts[i].Reported?
    && Recorded(ts[i].lease, After(ts[..i]), ts[i].caller, ts[i].event, ts[i].now, ts[i].fenceFree).Success?
  }

  predicate Counted(ts: seq<Transaction>, i: nat)
    requires i < |ts|
  {
    Accepted(ts, i) && ts[i].event.BatchWritten?
  }

  lemma AcceptedBefore(ts: seq<Transaction>, i: nat)
    requires i < |ts| - 1
    ensures Accepted(ts, i) <==> Accepted(ts[..|ts| - 1], i)
  {
    assert ts[..|ts| - 1][..i] == ts[..i];
  }

  /** What the last transaction does to the totals of an existing record. */
  lemma TotalsStep(ts: seq<Transaction>)
    requires ts != [] && After(ts).Some?
    ensures var n := |ts| - 1; var was, rec := After(ts[..n]), After(ts).value;
            if was.None? then rec.stagedRows == 0 && rec.stagedBytes == 0 && !Counted(ts, n)
            else && rec.stagedRows == (if Counted(ts, n) && ts[n].event.rows > was.value.stagedRows
                                       then ts[n].event.rows else was.value.stagedRows)
                 && rec.stagedBytes == (if Counted(ts, n) && ts[n].event.bytes > was.value.stagedBytes
                                        then ts[n].event.bytes else was.value.stagedBytes)
  {
    var t := ts[|ts| - 1];
    if t.Reported? {
      var was := After(ts[..|ts| - 1]);
      RefusalsOf(t.lease, was, t.caller, t.event, t.now, t.fenceFree);
      if Accepted(ts, |ts| - 1) { WritesOf(t.lease, was, t.caller, t.event, t.now, t.fenceFree); }
    }
  }

  lemma {:induction false} NothingCountedWithoutRecord(ts: seq<Transaction>)
    requires After(ts).None?
    ensures forall i :: 0 <= i < |ts| ==> !Accepted(ts, i)
  {
    if ts != [] {
      var n := |ts| - 1;
      NothingCountedWithoutRecord(ts[..n]);
      forall i | 0 <= i < n ensures !Accepted(ts, i) { AcceptedBefore(ts, i); }
    }
  }

  /**
   Whatever events were reported, in whatever order and however often, and whatever recovery did in
   between: the staged rows of a record are the most any accepted batch report named, and so are its
   staged bytes.
   */
  lemma {:induction false} TotalsAreLargestReported(ts: seq<Transaction>)
    requires After(ts).Some?
    ensures forall i :: 0 <= i < |ts| && Counted(ts, i) ==>
              ts[i].event.rows <= After(ts).value.stagedRows && ts[i].event.bytes <= After(ts).value.stagedBytes
    ensures After(ts).value.stagedRows == 0
            || exists i :: 0 <= i < |ts| && Counted(ts, i) && ts[i].event.rows == After(ts).value.stagedRows
    ensures After(ts).value.stagedBytes == 0
            || exists i :: 0 <= i < |ts| && Counted(ts, i) && ts[i].event.bytes == After(ts).value.stagedBytes
  {
    var n := |ts| - 1;
    var init := ts[..n];
    TotalsStep(ts);
    forall i | 0 <= i < n ensures Counted(ts, i) <==> Counted(init, i) { AcceptedBefore(ts, i); }
    if After(init).None? {
      NothingCountedWithoutRecord(init);
    } else {
      TotalsAreLargestReported(init);
      var rec, was := After(ts).value, After(init).value;
      if rec.stagedRows == was.stagedRows > 0 {
        var i :| 0 <= i < n && Counted(init, i) && init[i].event.rows == was.stagedRows;
        assert Counted(ts, i) && ts[i].event.rows == rec.stagedRows;
      }
      if rec.stagedBytes == was.stagedBytes > 0 {
        var i :| 0 <= i < n && Counted(init, i) && init[i].event.bytes == was.stagedBytes;
        assert Counted(ts, i) && ts[i].event.bytes == rec.stagedBytes;
      }
    }
  }

  // ----- Submission and confirmation -----

  predicate Submits(ts: seq<Transaction>, i: nat)
    requires i < |ts|
  {
    Accepted(ts, i) && ts[i].event == PublishSubmitted
  }

  /** The commit is reported by the worker or found by recovery, on an existing record. */
  predicate Confirms(ts: seq<Transaction>, i: nat)
    requires i < |ts|
  {
    (ts[i].Marked? && After(ts[..i]).Some?) || (Accepted(ts, i) && ts[i].event == CommitConfirmed)
  }

  function Instant(t: Transaction): Time {
    match t case Swept => 0 case _ => t.now
  }

  lemma TimesStep(ts: seq<Transaction>)
    requires ts != [] && After(ts).Some?
    ensures var n := |ts| - 1; var was, rec := After(ts[..n]), After(ts).value;
            && rec.submittedAt == (if Submits(ts, n) then Some(Instant(ts[n]))
                                   else if was.None? then None else was.value.submittedAt)
            && rec.confirmedAt == (if Confirms(ts, n) then Some(Instant(ts[n]))
                                   else if was.None? then None else was.value.confirmedAt)
  {
    var t := ts[|ts| - 1];
    if t.Reported? {
      var was := After(ts[..|ts| - 1]);
      RefusalsOf(t.lease, was, t.caller, t.event, t.now, t.fenceFree);
      if Accepted(ts, |ts| - 1) { WritesOf(t.lease, was, t.caller, t.event, t.now, t.fenceFree); }
    }
  }

  /** The last of the transactions that `marks` names, if any, happened at the given time. */
  ghost predicate LastAt(ts: seq<Transaction>, marks: nat -> bool, at: Option<Time>) {
    if at.None? then forall i :: 0 <= i < |ts| ==> !marks(i)
    else exists i :: 0 <= i < |ts| && marks(i) && at.value == Instant(ts[i]) && forall j :: i < j < |ts| ==> !marks(j)
  }

  lemma LastAtOn(ts: seq<Transaction>, was: nat -> bool, marks: nat -> bool, before: Option<Time>)
    requires ts != [] && LastAt(ts[..|ts| - 1], was, before)
    requires forall i: nat :: i < |ts| - 1 ==> was(i) == marks(i)
    ensures LastAt(ts, marks, if marks(|ts| - 1) then Some(Instant(ts[|ts| - 1])) else before)
  {
    var n := |ts| - 1;
    if !marks(n) && before.Some? {
      var i :| 0 <= i < n && was(i) && before.value == Instant(ts[..n][i]) && forall j :: i < j < n ==> !was(j);
      assert marks(i) && forall j :: i < j < |ts| ==> !marks(j);
    }
  }

  function Submitting(ts: seq<Transaction>): nat -> bool { (i: nat) => i < |ts| && Submits(ts, i) }

  function Confirming(ts: seq<Transaction>): nat -> bool { (i: nat) => i < |ts| && Confirms(ts, i) }

  lemma NoTimesWithoutRecord(ts: seq<Transaction>)
    requires After(ts).None?
    ensures LastAt(ts, Submitting(ts), None) && LastAt(ts, Confirming(ts), None)
  {
    NothingCountedWithoutRecord(ts);
    forall i | 0 <= i < |ts| ensures After(ts[..i]).None? { NoneBefore(ts, i); }
  }

  lemma {:induction false} NoneBefore(ts: seq<Transaction>, i: nat)
    requires After(ts).None? && i <= |ts|
    ensures After(ts[..i]).None?
    decreases |ts|
  {
    if i < |ts| {
      assert ts[..|ts| - 1][..i] == ts[..i];
      NoneBefore(ts[..|ts| - 1], i);
    } else {
      assert ts[..i] == ts;
    }
  }

  /**
   A record was submitted when its last accepted `publish_submitted` was, and confirmed when its commit
   was last reported or found; it is neither without one.
   */
  lemma {:induction false} TimesAreThoseReported(ts: seq<Transaction>)
    requires After(ts).Some?
    ensures LastAt(ts, Submitting(ts), After(ts).value.submittedAt)
    ensures LastAt(ts, Confirming(ts), After(ts).value.confirmedAt)
  {
    var n := |ts| - 1;
    var init := ts[..n];
    TimesStep(ts);
    forall i: nat | i < n
      ensures Submitting(init)(i) == Submitting(ts)(i) && Confirming(init)(i) == Confirming(ts)(i)
    {
      AcceptedBefore(ts, i);
      assert init[..i] == ts[..i];
    }
    if After(init).None? {
      NoTimesWithoutRecord(init);
      LastAtOn(ts, Submitting(init), Submitting(ts), None);
      LastAtOn(ts, Confirming(init), Confirming(ts), None);
    } else {
      TimesAreThoseReported(init);
      LastAtOn(ts, Submitting(init), Submitting(ts), After(init).value.submittedAt);
      LastAtOn(ts, Confirming(init), Confirming(ts), After(init).value.confirmedAt);
    }
  }
}
