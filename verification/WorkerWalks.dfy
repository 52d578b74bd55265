/**
 A worker seen from outside: the durable events it reports and the remote statements it sends, one
 action at a time.  A walk is a list of actions the protocol's worker can take one after the other.
 */
module WorkerWalks {
  import opened Wrappers
  import opened Publication
  import opened Protocol

  datatype Action =
    | Report(event: Event, ok: bool)   // a durable event: recorded and acknowledged, or raised
    | Reject                           // validation before staging failed
    | SendStaging                      // CREATE of the staging table
    | StagingReply(ok: bool)
    | Insert(ok: bool)                 // rows into staging
    | Validate(ok: bool)               // the target is checked again
    | NoSession                        // the publish session could not be set up
    | Execute                          // the publish statement is sent
    | NotSent                          // ... or raises before it leaves
    | Reply(ok: bool)                  // ... and answers or raises
    | Drop(ok: bool)                   // staging is dropped
    | EnterAbort

  /** The protocol's worker after one action; `None` if the protocol has no such move. */
  function Moved(w: Worker, a: Action): Option<Worker> {
    match a
    case Report(event, ok) =>
      if EventOf(w, RowsIn(event), BytesIn(event)) == Some(event) then Some(AfterEvent(w, ok)) else None
    case Reject => if w.phase == Prepared then Some(w.(phase := Stopped)) else None
    case SendStaging => if w.phase == Prepared then Some(w.(phase := StagingSent)) else None
    case StagingReply(ok) =>
      if w.phase == StagingSent then Some(w.(phase := if ok then StagingMade else StagingBroken)) else None
    case Insert(ok) => if w.phase == Loading then Some(w.(phase := if ok then BatchSent else Aborting)) else None
    case Validate(ok) => if w.phase == Loading then Some(w.(phase := if ok then Finalizing else Aborting)) else None
    case NoSession => if w.phase == Finalizing then Some(w.(phase := Aborting)) else None
    case Execute => if w.phase == Submitted then Some(w.(phase := Executing)) else None
    case NotSent => if w.phase == Submitted then Some(w.(phase := ExecuteFailed)) else None
    case Reply(ok) =>
      if w.phase == Executing then Some(w.(phase := if ok then Acknowledged else ExecuteFailed)) else None
    case Drop(ok) =>
      if w.phase == Confirmed then Some(w.(phase := if ok then StagingDropped else StagingNotDropped))
      else if w.phase == Aborting && !w.publishSubmitted then
        Some(w.(phase := if ok then AbortDropped else AbortNotDropped))
      else None
    case EnterAbort =>
      if w.phase == Loading || w.phase == AbortEnded then Some(w.(phase := Aborting)) else None
  }

  function RowsIn(event: Event): nat { if event.BatchWritten? then event.rows else 0 }

  function BytesIn(event: Event): nat { if event.BatchWritten? then event.bytes else 0 }

  // ----- Walks -----

  ghost predicate Path(path: seq<Worker>, actions: seq<Action>) {
    && |path| == |actions| + 1
    && forall i {:trigger actions[i]} :: 0 <= i < |actions| ==> Moved(path[i], actions[i]) == Some(path[i + 1])
  }

  /** The actions take a worker from `w` to `w'`. */
  ghost predicate Walks(w: Worker, actions: seq<Action>, w': Worker) {
    exists path :: Path(path, actions) && path[0] == w && path[|actions|] == w'
  }

  /** What every action keeps, every walk keeps. */
  lemma {:induction false} PathInside(path: seq<Worker>, actions: seq<Action>, i: nat, j: nat, inside: Worker -> bool)
    requires Path(path, actions) && i <= j <= |actions| && inside(path[i])
    requires forall w, a, w' :: inside(w) && Moved(w, a) == Some(w') ==> inside(w')
    ensures inside(path[j])
  {
    if i < j {
      PathInside(path, actions, i, j - 1, inside);
      assert Moved(path[j - 1], actions[j - 1]) == Some(path[j - 1 + 1]);
    }
  }

  lemma WalksInside(w: Worker, actions: seq<Action>, w': Worker, inside: Worker -> bool)
    requires Walks(w, actions, w') && inside(w)
    requires forall v, a, v' :: inside(v) && Moved(v, a) == Some(v') ==> inside(v')
    ensures inside(w')
  {
    var path: seq<Worker> :| Path(path, actions) && path[0] == w && path[|actions|] == w';
    PathInside(path, actions, 0, |actions|, inside);
  }

  lemma NoWalk(w: Worker)
    ensures Walks(w, [], w)
  {
    assert Path([w], []);
  }

  lemma WalkOn(w: Worker, actions: seq<Action>, w': Worker, a: Action)
    requires Walks(w, actions, w') && Moved(w', a).Some?
    ensures Walks(w, actions + [a], Moved(w', a).value)
  {
    var path: seq<Worker> :| Path(path, actions) && path[0] == w && path[|actions|] == w';
    assert Path(path + [Moved(w', a).value], actions + [a]);
  }

  lemma WalkOnto(w: Worker, a: seq<Action>, w': Worker, b: seq<Action>, w'': Worker)
    requires Walks(w, a, w') && Walks(w', b, w'')
    ensures Walks(w, a + b, w'')
  {
    var p :| Path(p, a) && p[0] == w && p[|a|] == w';
    var q :| Path(q, b) && q[0] == w' && q[|b|] == w'';
    var path := p + q[1..];
    forall i | 0 <= i < |a + b| ensures Moved(path[i], (a + b)[i]) == Some(path[i + 1]) {
      if i < |a| {
        assert Moved(p[i], a[i]) == Some(p[i + 1]);
      } else {
        assert Moved(q[i - |a|], b[i - |a|]) == Some(q[i - |a| + 1]);
      }
    }
    assert Path(path, a + b);
  }

  lemma WalkOne(w: Worker, a: Action)
    requires Moved(w, a).Some?
    ensures Walks(w, [a], Moved(w, a).value)
  {
    NoWalk(w);
    WalkOn(w, [], w, a);
    assert [] + [a] == [a];
  }

  lemma WalkTwo(w: Worker, a: Action, b: Action)
    requires Moved(w, a).Some? && Moved(Moved(w, a).value, b).Some?
    ensures Walks(w, [a, b], Moved(Moved(w, a).value, b).value)
  {
    WalkOne(w, a);
    WalkOn(w, [a], Moved(w, a).value, b);
    assert [a] + [b] == [a, b];
  }

  // ----- The order of durable events and remote statements, over every walk -----

  lemma OnlySubmittingSubmits(w: Worker, a: Action)
    requires Moved(w, a).Some? && Moved(w, a).value.phase == Submitted
    ensures a == Report(PublishSubmitted, true) && Moved(w, a).value.publishSubmitted
  {
  }

  lemma OnlyConfirmingConfirms(w: Worker, a: Action)
    requires Moved(w, a).Some? && Moved(w, a).value.phase == Confirmed
    ensures a == Report(CommitConfirmed, true)
  {
  }

  lemma FlagStays(path: seq<Worker>, actions: seq<Action>, i: nat, j: nat)
    requires Path(path, actions) && i <= j <= |actions| && path[i].publishSubmitted
    ensures path[j].publishSubmitted
  {
    PathInside(path, actions, i, j, (w: Worker) => w.publishSubmitted);
  }

  /** In every walk the publish statement is sent right after the submission is durably recorded. */
  lemma SubmitsBeforeExecuting(w: Worker, actions: seq<Action>, w': Worker, i: nat)
    requires Walks(w, actions, w') && w.phase != Submitted && i < |actions| && actions[i] == Execute
    ensures i > 0 && actions[i - 1] == Report(PublishSubmitted, true)
  {
    var path: seq<Worker> :| Path(path, actions) && path[0] == w && path[|actions|] == w';
    assert Moved(path[i], actions[i]) == Some(path[i + 1]);
    assert path[i].phase == Submitted;
    assert Moved(path[i - 1], actions[i - 1]) == Some(path[i - 1 + 1]);
    OnlySubmittingSubmits(path[i - 1], actions[i - 1]);
  }

  /** Past its submission a worker never comes back to where it can submit again. */
  predicate Past(w: Worker) {
    && w.publishSubmitted && w.phase != Start && w.phase != Prepared && w.phase != StagingSent
    && w.phase != StagingMade && w.phase != Loading && w.phase != BatchSent && w.phase != Finalizing
    && w.phase != Submitted
  }

  lemma StaysPast(path: seq<Worker>, actions: seq<Action>, i: nat, j: nat)
    requires Path(path, actions) && i <= j <= |actions| && Past(path[i])
    ensures Past(path[j])
  {
    PathInside(path, actions, i, j, Past);
  }

  lemma SentIsPast(path: seq<Worker>, actions: seq<Action>, i: nat)
    requires Path(path, actions) && path[0] == Worker(Start, false) && i < |actions| && actions[i] == Execute
    ensures Past(path[i + 1])
  {
    PathInside(path, actions, 0, i, (w: Worker) => w.phase == Submitted ==> w.publishSubmitted);
    assert Moved(path[i], actions[i]) == Some(path[i + 1]);
  }

  /** In every walk from the start the publish statement is sent at most once. */
  lemma ExecutesAtMostOnce(actions: seq<Action>, w': Worker, i: nat, j: nat)
    requires Walks(Worker(Start, false), actions, w')
    requires i < j < |actions| && actions[i] == Execute
    ensures actions[j] != Execute
  {
    var path: seq<Worker> :| Path(path, actions) && path[0] == Worker(Start, false) && path[|actions|] == w';
    SentIsPast(path, actions, i);
    StaysPast(path, actions, i + 1, j);
    assert Moved(path[j], actions[j]) == Some(path[j + 1]);
  }

  /**
   In every walk from the start staging is dropped only if the publish statement was never sent, or
   right after the commit is durably confirmed.
   */
  lemma DropsOnlySafely(actions: seq<Action>, w': Worker, i: nat)
    requires Walks(Worker(Start, false), actions, w') && i < |actions| && actions[i].Drop?
    ensures || (i > 0 && actions[i - 1] == Report(CommitConfirmed, true))
            || forall j :: 0 <= j < i ==> actions[j] != Execute
  {
    var path: seq<Worker> :| Path(path, actions) && path[0] == Worker(Start, false) && path[|actions|] == w';
    assert Moved(path[i], actions[i]) == Some(path[i + 1]);
    if path[i].phase == Confirmed {
      assert Moved(path[i - 1], actions[i - 1]) == Some(path[i - 1 + 1]);
      OnlyConfirmingConfirms(path[i - 1], actions[i - 1]);
    } else {
      DropsUnsent(path, actions, i);
    }
  }

  lemma DropsUnsent(path: seq<Worker>, actions: seq<Action>, i: nat)
    requires Path(path, actions) && path[0] == Worker(Start, false)
    requires i < |actions| && !path[i].publishSubmitted
    ensures forall j :: 0 <= j < i ==> actions[j] != Execute
  {
    forall j | 0 <= j < i ensures actions[j] != Execute {
      if actions[j] == Execute { SentIsFlagged(path, actions, j, i); }
    }
  }

  lemma SentIsFlagged(path: seq<Worker>, actions: seq<Action>, j: nat, i: nat)
    requires Path(path, actions) && path[0] == Worker(Start, false)
    requires j < i <= |actions| && actions[j] == Execute
    ensures path[i].publishSubmitted
  {
    SentIsPast(path, actions, j);
    FlagStays(path, actions, j + 1, i);
  }

  // ----- Every action is a step of the protocol -----

  /** What must hold outside for an action to have its answer. */
  ghost predicate Answerable(x: Context, c: Cell, t: Token, a: Action) {
    match a
    case Report(event, true) =>
      Recorded(Some(c.lease), c.record, CallerOf(c, x.run, t), event, x.now, x.fenceFree).Success?
    case StagingReply(true) => c.staging
    case Reply(true) => x.commits > 0
    case _ => true
  }

  /** The run after its worker's action. */
  ghost function Acted(x: Context, c: Cell, t: Token, a: Action): Cell
    requires t in c.workers && Moved(c.workers[t], a).Some? && Answerable(x, c, t, a)
  {
    var moved := PutWorker(c, t, Moved(c.workers[t], a).value);
    match a
    case Report(event, true) =>
      moved.(record := Some(Recorded(Some(c.lease), c.record, CallerOf(c, x.run, t), event, x.now, x.fenceFree).value),
             creator := if c.workers[t].phase == Start then Some(t) else c.creator)
    case SendStaging => moved.(creating := c.creating + 1)
    case Execute => moved.(inFlight := c.inFlight + 1)
    case Drop(ok) => moved.(staging := c.staging && !ok)
    case _ => moved
  }

  lemma ReportIsProtocolStep(x: Context, c: Cell, t: Token, event: Event, ok: bool) returns (step: CellStep)
    requires t in c.workers && Moved(c.workers[t], Report(event, ok)).Some? && Answerable(x, c, t, Report(event, ok))
    ensures CellNext(x, c, step, Acted(x, c, t, Report(event, ok))) && step.WorkerEvent?
  {
    step := WorkerEvent(t, RowsIn(event), BytesIn(event), if ok then Acked else Lost);
  }

  /** The protocol takes every action a worker may take, with the same effect. */
  lemma ActionIsProtocolStep(x: Context, c: Cell, t: Token, a: Action) returns (step: CellStep)
    requires t in c.workers && Moved(c.workers[t], a).Some? && Answerable(x, c, t, a)
    ensures CellNext(x, c, step, Acted(x, c, t, a))
    ensures Issues(step) == {}
  {
    var w := c.workers[t];
    var w' := Moved(w, a).value;
    match a {
      case Report(event, ok) =>
        step := ReportIsProtocolStep(x, c, t, event, ok);
      case SendStaging =>
        step := SendCreate(t);
      case StagingReply(ok) =>
        step := if ok then CreateAnswered(t) else WorkerMove(t, w');
      case Execute =>
        step := SendPublish(t);
      case Reply(ok) =>
        step := if ok then PublishAnswered(t) else WorkerMove(t, w');
      case Drop(ok) =>
        step := if w.phase == Confirmed then DropAfterCommit(t, ok, ok) else DropInAbort(t, ok, ok);
      case _ =>
        step := WorkerMove(t, w');
    }
  }
}
