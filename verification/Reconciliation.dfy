/**
 Looking for a publication's commit: pages of the warehouse's query history for serverless compute,
 the target's table history otherwise.  Status and column names are compared case-folded, so they
 come folded.  A publish statement that finished is a commit.
 */
module Reconciliation {
  import opened Wrappers
  import opened Publication
  import opened Protocol
  import opened ProtocolSafety
  import opened ProtocolTheorems
  import opened Markers
  import opened Continuations
  import opened Recovery
  import opened Closing

  datatype Query = Query(status: string, tags: seq<(string, string)>, text: string)

  datatype PageAnswer = Page(queries: seq<Query>, more: bool) | PageFailed

  datatype HistoryAnswer =
    | History(names: seq<string>, rows: seq<seq<Option<string>>>)
    | ConnectorFailed
    | ProviderFailed

  const MAX_PAGES: nat := 100
  const LOOKBACK_MS: int := 1000 * LOOKBACK_SECONDS
  const WINDOW_MS: int := 1000 * WINDOW_SECONDS
  const RUN_TAG := "data_mover_run_id"
  const TARGET_TAG := "data_mover_target"

  /** Tag `i` gives the key its value: no later one names it. */
  ghost predicate IsTag(tags: seq<(string, string)>, i: int, key: string, value: string) {
    0 <= i < |tags| && tags[i] == (key, value) && forall j :: i < j < |tags| ==> tags[j].0 != key
  }

  /** A later tag of the same key replaces an earlier one. */
  function TagValue(tags: seq<(string, string)>, key: string): Option<string> {
    if tags == [] then None
    else if tags[|tags| - 1].0 == key then Some(tags[|tags| - 1].1)
    else TagValue(tags[..|tags| - 1], key)
  }

  /** The query carries the marker, as both tags or somewhere in its text. */
  predicate Mentions(q: Query, run: string, target: string) {
    || (TagValue(q.tags, RUN_TAG) == Some(run) && TagValue(q.tags, TARGET_TAG) == Some(target))
    || Contains(q.text, Marker(run, target))
  }

  predicate Matches(q: Query, run: string, target: string) {
    q.status == "FINISHED" && Mentions(q, run, target)
  }

  /** A statement matches when it finished and both its tags name run and target, or its text spells the marker. */
  lemma MatchesExactlyWhen(q: Query, run: string, target: string)
    ensures Matches(q, run, target) <==>
            && q.status == "FINISHED"
            && (|| ((exists i :: IsTag(q.tags, i, "data_mover_run_id", run))
                    && exists j :: IsTag(q.tags, j, "data_mover_target", target))
                || exists before, after :: q.text == before + ("datamover-run:" + run + ";target:" + target) + after)
  {
    TagsExactly(q.tags, "data_mover_run_id", run);
    TagsExactly(q.tags, "data_mover_target", target);
    ContainsExactly(q.text, "datamover-run:" + run + ";target:" + target);
  }

  lemma {:induction false} LastTagCounts(tags: seq<(string, string)>, key: string)
    ensures var value := TagValue(tags, key);
            if value.None? then forall i :: 0 <= i < |tags| ==> tags[i].0 != key
            else exists i :: IsTag(tags, i, key, value.value)
  {
    if tags != [] {
      var n, value := |tags| - 1, TagValue(tags, key);
      LastTagCounts(tags[..n], key);
      if tags[n].0 == key {
        assert IsTag(tags, n, key, value.value);
      } else if value.Some? {
        var i :| IsTag(tags[..n], i, key, value.value);
        assert IsTag(tags, i, key, value.value);
      }
    }
  }

  lemma TagsExactly(tags: seq<(string, string)>, key: string, value: string)
    ensures TagValue(tags, key) == Some(value) <==> exists i :: IsTag(tags, i, key, value)
  {
    LastTagCounts(tags, key);
    if i :| IsTag(tags, i, key, value) {
      var found := TagValue(tags, key);
      assert tags[i].0 == key && found.Some?;
      var j :| IsTag(tags, j, key, found.value);
      assert i == j;
    }
  }

  // ----- The search as the connector runs it -----

  /** The first `k` pages were shown and said there was another. */
  predicate PagesLeadTo(pages: nat -> PageAnswer, k: nat) {
    forall j :: 0 <= j < k ==> pages(j).Page? && pages(j).more
  }

  ghost predicate ShownOn(pages: nat -> PageAnswer, k: nat, run: string, target: string) {
    && PagesLeadTo(pages, k) && pages(k).Page?
    && exists i :: 0 <= i < |pages(k).queries| && Matches(pages(k).queries[i], run, target)
  }

  ghost predicate FoundOnPages(pages: nat -> PageAnswer, run: string, target: string) {
    exists k :: 0 <= k < MAX_PAGES && ShownOn(pages, k, run, target)
  }

  method SearchPage(queries: seq<Query>, run: string, target: string) returns (found: bool)
    ensures found <==> exists i :: 0 <= i < |queries| && Matches(queries[i], run, target)
  {
    var i := 0;
    while i < |queries|
      invariant 0 <= i <= |queries|
      invariant forall j :: 0 <= j < i ==> !Matches(queries[j], run, target)
    {
      if queries[i].status == "FINISHED" && Mentions(queries[i], run, target) {
        return true;
      }
      i := i + 1;
    }
    return false;
  }

  /** At most a hundred pages; a page that fails ends the search. */
  method SearchQueries(pages: nat -> PageAnswer, run: string, target: string) returns (verdict: Verdict)
    ensures verdict == Found || verdict == Unknown
    ensures verdict == Found <==> FoundOnPages(pages, run, target)
    ensures verdict == Found <==> exists k :: 0 <= k < 100 && ShownOn(pages, k, run, target)
  {
    var k := 0;
    while k < MAX_PAGES
      invariant 0 <= k <= MAX_PAGES && PagesLeadTo(pages, k)
      invariant forall j :: 0 <= j < k ==> !ShownOn(pages, j, run, target)
    {
      var page := pages(k);
      if page.PageFailed? {
        return Unknown;
      }
      var found := SearchPage(page.queries, run, target);
      if found {
        assert ShownOn(pages, k, run, target);
        return Found;
      }
      if !page.more {
        return Unknown;
      }
      k := k + 1;
    }
    return Unknown;
  }

  function IndexOf(names: seq<string>, name: string): (at: Option<nat>)
    ensures at.Some? ==> IsFirst(names, at.value, name)
    ensures at.None? ==> name !in names
  {
    if names == [] then None
    else if names[0] == name then Some(0)
    else
      var rest := IndexOf(names[1..], name);
      if rest.None? then None else Some(rest.value + 1)
  }

  /** Column `at` is the first of that name. */
  ghost predicate IsFirst(names: seq<string>, at: nat, name: string) {
    at < |names| && names[at] == name && forall i :: 0 <= i < at ==> names[i] != name
  }

  /** The commit's user metadata; an absent one reads as empty. */
  function Metadata(row: seq<Option<string>>, at: nat): string
    requires at < |row|
  {
    if row[at].None? then "" else row[at].value
  }

  /** The cell names the run. */
  ghost predicate CellIs(row: seq<Option<string>>, at: nat, run: string) {
    at < |row| && (row[at] == Some(run) || (row[at] == None && run == ""))
  }

  /** Row `i` names the run in the metadata column, and no row before it lacks that column. */
  ghost predicate NamedIn(answer: HistoryAnswer, at: nat, i: nat, run: string)
    requires answer.History?
  {
    && IsFirst(answer.names, at, "usermetadata") && i < |answer.rows| && CellIs(answer.rows[i], at, run)
    && forall j :: 0 <= j < i ==> at < |answer.rows[j]|
  }

  /** Row `i` ends before the metadata column, and no row before it does or names the run. */
  ghost predicate BrokenAt(answer: HistoryAnswer, at: nat, i: nat, run: string)
    requires answer.History?
  {
    && IsFirst(answer.names, at, "usermetadata") && i < |answer.rows| && at >= |answer.rows[i]|
    && forall j :: 0 <= j < i ==> at < |answer.rows[j]| && !CellIs(answer.rows[j], at, run)
  }

  ghost predicate ShownInHistory(answer: HistoryAnswer, run: string) {
    answer.History? && exists at, i :: NamedIn(answer, at, i, run)
  }

  ghost predicate HistoryRaises(answer: HistoryAnswer, run: string) {
    answer.ConnectorFailed? || (answer.History? && exists at, i :: BrokenAt(answer, at, i, run))
  }

  lemma FirstIsUnique(names: seq<string>, a: nat, b: nat, name: string)
    requires IsFirst(names, a, name) && IsFirst(names, b, name)
    ensures a == b
  {
  }

  method SearchHistory(answer: HistoryAnswer, run: string) returns (verdict: Verdict)
    ensures verdict == Found <==> ShownInHistory(answer, run)
    ensures verdict == Raised <==> HistoryRaises(answer, run)
  {
    if answer.ConnectorFailed? {
      return Raised;
    }
    if answer.ProviderFailed? {
      return Unknown;
    }
    var at := IndexOf(answer.names, "usermetadata");
    if at.None? {
      return Unknown;
    }
    forall b: nat | IsFirst(answer.names, b, "usermetadata") ensures b == at.value {
      FirstIsUnique(answer.names, b, at.value, "usermetadata");
    }
    var i := 0;
    while i < |answer.rows|
      invariant 0 <= i <= |answer.rows|
      invariant forall j :: 0 <= j < i ==> at.value < |answer.rows[j]| && !CellIs(answer.rows[j], at.value, run)
    {
      if at.value >= |answer.rows[i]| {
        assert BrokenAt(answer, at.value, i, run);
        return Raised;
      }
      if Metadata(answer.rows[i], at.value) == run {
        assert NamedIn(answer, at.value, i, run);
        return Found;
      }
      i := i + 1;
    }
    return Unknown;
  }

  /** The protocol's window is that of the search: 30 days, less a minute, in milliseconds. */
  lemma WindowInSeconds(submittedAt: Option<Time>, now: Time)
    ensures Searchable(submittedAt, now) <==>
            var submittedMs := if submittedAt.Some? then 1000 * submittedAt.value else 0;
            0 < submittedMs && 1000 * now - 30 * 24 * 60 * 60 * 1000 <= submittedMs - 60 * 1000
  {
  }

  /**
   `reconcile_publication`: the workspace's identity, the run's, the window, then the search of the
   compute family.  `compute` is whether the warehouse is serverless, or that this could not be told.
   */
  method Reconcile(run: string, target: string, submittedMs: int, nowMs: int, sameWorkspace: bool,
                   compute: Option<bool>, pages: nat -> PageAnswer, history: HistoryAnswer)
    returns (verdict: Verdict)
    ensures verdict == Found <==>
              && sameWorkspace && ValidRun(run) && 0 < submittedMs && compute.Some?
              && nowMs - 30 * 24 * 60 * 60 * 1000 <= submittedMs - 60 * 1000
              && if compute.value then FoundOnPages(pages, run, target) else ShownInHistory(history, run)
    ensures verdict == Raised <==>
              || !sameWorkspace
              || (&& ValidRun(run) && 0 < submittedMs && nowMs - 30 * 24 * 60 * 60 * 1000 <= submittedMs - 60 * 1000
                  && (compute.None? || (!compute.value && HistoryRaises(history, run))))
  {
    if !sameWorkspace {
      return Raised;
    }
    if !ValidRun(run) || submittedMs <= 0 {
      return Unknown;
    }
    if submittedMs - LOOKBACK_MS < nowMs - WINDOW_MS {
      return Unknown;
    }
    if compute.None? {
      return Raised;
    }
    if compute.value {
      verdict := SearchQueries(pages, run, target);
    } else {
      verdict := SearchHistory(history, run);
    }
  }

  // ----- Who wrote what is found -----

  /** A statement of the history: some run's publish statement, or anything else. */
  datatype Statement = Publish(run: string, target: string, body: string, status: string) | Foreign(query: Query)

  /** How the statement appears in the query history; a publish statement is sent with marker and tags. */
  function Shown(s: Statement): Query {
    match s
    case Publish(run, target, body, status) =>
      Query(status, [(RUN_TAG, run), (TARGET_TAG, target)], PublishText(run, target, body))
    case Foreign(query) => query
  }

  predicate WellNamed(s: Statement) { s.Publish? ==> ValidRun(s.run) && ValidTarget(s.target) }

  /** The run's own publish statement finished: it is a commit. */
  predicate IsCommitOf(s: Statement, run: string, target: string) {
    s.Publish? && s.run == run && s.target == target && s.status == "FINISHED"
  }

  /** A finished statement that is not the run's own yet spells out its marker. */
  predicate Impersonates(s: Statement, run: string, target: string) {
    match s
    case Publish(r, t, body, status) =>
      (r != run || t != target) && status == "FINISHED" && Contains(body, Marker(run, target))
    case Foreign(query) => Matches(query, run, target)
  }

  lemma OwnTags(run: string, target: string)
    ensures var tags := [(RUN_TAG, run), (TARGET_TAG, target)];
            TagValue(tags, RUN_TAG) == Some(run) && TagValue(tags, TARGET_TAG) == Some(target)
  {
    var tags := [(RUN_TAG, run), (TARGET_TAG, target)];
    assert RUN_TAG[5] == 'm' && |RUN_TAG| == |TARGET_TAG| && RUN_TAG[11] == 'r' && TARGET_TAG[11] == 't';
    assert tags[..1] == [(RUN_TAG, run)];
    assert [(RUN_TAG, run)][..0] == [];
  }

  /** What one statement proves to the search. */
  lemma MatchesExactly(s: Statement, run: string, target: string)
    requires WellNamed(s) && ValidRun(run) && ValidTarget(target)
    ensures Matches(Shown(s), run, target) <==> IsCommitOf(s, run, target) || Impersonates(s, run, target)
  {
    if s.Publish? {
      OwnTags(s.run, s.target);
      MarkerOccursExactly(s.run, s.target, s.body, run, target);
    }
  }

  /** The pages show the statements of a log: page by page, statement by statement. */
  ghost predicate ShowsLog(pages: nat -> PageAnswer, log: seq<Statement>) {
    forall k, i :: 0 <= k < MAX_PAGES && PagesLeadTo(pages, k) && pages(k).Page? && 0 <= i < |pages(k).queries| ==>
      exists j :: 0 <= j < |log| && Shown(log[j]) == pages(k).queries[i]
  }

  /** Nothing finished that is not the run's own carries its marker. */
  predicate Unmentioned(log: seq<Statement>, run: string, target: string) {
    forall j :: 0 <= j < |log| ==> !Impersonates(log[j], run, target)
  }

  predicate Committed(log: seq<Statement>, run: string, target: string) {
    exists j :: 0 <= j < |log| && IsCommitOf(log[j], run, target)
  }

  /** What is found on some page is in the log: a commit of the run, or a statement that impersonates it. */
  lemma FoundIsCommitOrImpostor(pages: nat -> PageAnswer, k: nat, log: seq<Statement>, run: string, target: string)
    requires k < MAX_PAGES && ShownOn(pages, k, run, target) && ShowsLog(pages, log)
    requires ValidRun(run) && ValidTarget(target) && forall j :: 0 <= j < |log| ==> WellNamed(log[j])
    ensures Committed(log, run, target) || !Unmentioned(log, run, target)
  {
    var i :| 0 <= i < |pages(k).queries| && Matches(pages(k).queries[i], run, target);
    var j :| 0 <= j < |log| && Shown(log[j]) == pages(k).queries[i];
    MatchesExactly(log[j], run, target);
  }

  /** A log on one page. */
  function OnePage(log: seq<Statement>): nat -> PageAnswer {
    k => if k == 0 then Page(seq(|log|, i requires 0 <= i < |log| => Shown(log[i])), false) else PageFailed
  }

  /**
   When a found marker means a commit, exactly: over every log, the search of a page that shows it finds
   the run's marker if and only if the run committed or some other finished statement carries the marker.
   */
  lemma FoundExactlyWhen(log: seq<Statement>, run: string, target: string)
    requires ValidRun(run) && ValidTarget(target) && forall j :: 0 <= j < |log| ==> WellNamed(log[j])
    ensures ShownOn(OnePage(log), 0, run, target) <==> Committed(log, run, target) || !Unmentioned(log, run, target)
  {
    var page := OnePage(log)(0);
    forall j | 0 <= j < |log|
      ensures Matches(page.queries[j], run, target) <==>
              IsCommitOf(log[j], run, target) || Impersonates(log[j], run, target)
    {
      MatchesExactly(log[j], run, target);
    }
  }

  /**
   What may run on the warehouse: any run's publish statement with a body `bodies` admits, and
   anything else `foreign` admits.
   */
  ghost predicate Allows(foreign: Query -> bool, bodies: string -> bool, log: seq<Statement>) {
    forall j :: 0 <= j < |log| ==>
      match log[j]
      case Publish(_, _, body, _) => WellNamed(log[j]) && bodies(body)
      case Foreign(query) => foreign(query)
  }

  /** Another run than the given one. */
  function OtherRun(run: string): string {
    if run == "00000000000000000000" then "11111111111111111111" else "00000000000000000000"
  }

  lemma RuleKeepsMarkerOut(foreign: Query -> bool, bodies: string -> bool, run: string, target: string,
                           log: seq<Statement>)
    requires ValidRun(run) && ValidTarget(target) && Allows(foreign, bodies, log)
    requires forall q :: foreign(q) ==> !Matches(q, run, target)
    requires forall body :: bodies(body) ==> !Contains(body, Marker(run, target))
    ensures ShownOn(OnePage(log), 0, run, target) ==> Committed(log, run, target)
  {
    assert forall j :: 0 <= j < |log| ==> WellNamed(log[j]);
    FoundExactlyWhen(log, run, target);
  }

  lemma ForeignMarkerMisleads(foreign: Query -> bool, bodies: string -> bool, run: string, target: string, q: Query)
    requires foreign(q) && Matches(q, run, target)
    ensures Allows(foreign, bodies, [Foreign(q)]) && ShownOn(OnePage([Foreign(q)]), 0, run, target)
    ensures !Committed([Foreign(q)], run, target)
  {
    assert OnePage([Foreign(q)])(0).queries[0] == q;
  }

  lemma BodyMarkerMisleads(foreign: Query -> bool, bodies: string -> bool, run: string, target: string, body: string)
    requires ValidRun(run) && ValidTarget(target) && bodies(body) && Contains(body, Marker(run, target))
    ensures var log := [Publish(OtherRun(run), target, body, "FINISHED")];
            Allows(foreign, bodies, log) && ShownOn(OnePage(log), 0, run, target) && !Committed(log, run, target)
  {
    var s := Publish(OtherRun(run), target, body, "FINISHED");
    MatchesExactly(s, run, target);
    assert OnePage([s])(0).queries[0] == Shown(s);
  }

  /**
   A found marker means a commit, over every log a rule allows, exactly when the rule keeps the run's
   marker out: out of every other statement that can match, and out of every publish statement's body.
   */
  lemma RuleIsSoundExactlyWhen(foreign: Query -> bool, bodies: string -> bool, run: string, target: string)
    requires ValidRun(run) && ValidTarget(target)
    ensures (forall log :: Allows(foreign, bodies, log) && ShownOn(OnePage(log), 0, run, target) ==>
                             Committed(log, run, target)) <==>
            (forall q :: foreign(q) ==> !Matches(q, run, target))
            && (forall body :: bodies(body) ==> !Contains(body, Marker(run, target)))
  {
    if q :| foreign(q) && Matches(q, run, target) {
      ForeignMarkerMisleads(foreign, bodies, run, target, q);
    } else if body :| bodies(body) && Contains(body, Marker(run, target)) {
      BodyMarkerMisleads(foreign, bodies, run, target, body);
    } else {
      forall log | Allows(foreign, bodies, log) && ShownOn(OnePage(log), 0, run, target)
        ensures Committed(log, run, target)
      {
        RuleKeepsMarkerOut(foreign, bodies, run, target, log);
      }
    }
  }

  /** An operator's look at the history for a run is itself found as that run's commit. */
  function Lookup(run: string, target: string): Query {
    Query("FINISHED", [], "SELECT * FROM history WHERE statement LIKE '%" + Marker(run, target) + "%'")
  }

  lemma LookupIsFound(run: string, target: string)
    ensures ShownOn(OnePage([Foreign(Lookup(run, target))]), 0, run, target)
    ensures !Committed([Foreign(Lookup(run, target))], run, target)
  {
    var q, m := Lookup(run, target), Marker(run, target);
    var head := "SELECT * FROM history WHERE statement LIKE '%";
    assert q.text == head + m + "%'";
    assert OccursAt(m, q.text, |head|);
    assert OnePage([Foreign(q)])(0).queries[0] == q;
    assert Matches(OnePage([Foreign(q)])(0).queries[0], run, target);
  }

  /** The round trip: what a run's publish statement leaves behind, its reconciliation finds. */
  lemma OwnPublishIsFound(log: seq<Statement>, run: string, target: string, body: string)
    requires Publish(run, target, body, "FINISHED") in log
    ensures ShownOn(OnePage(log), 0, run, target)
  {
    var s := Publish(run, target, body, "FINISHED");
    var j :| 0 <= j < |log| && log[j] == s;
    OwnTags(run, target);
    assert OnePage(log)(0).queries[j] == Shown(s);
    assert Matches(OnePage(log)(0).queries[j], run, target);
  }

  /** Its counterpart in the table history: a commit that names the run is found wherever the column stands. */
  lemma OwnCommitIsFound(names: seq<string>, rows: seq<seq<Option<string>>>, at: nat, i: nat, run: string)
    requires i < |rows| && at < |names| && names[at] == "usermetadata" && "usermetadata" !in names[..at]
    requires forall j :: 0 <= j < |rows| ==> |rows[j]| == |names|
    requires rows[i][at] == Some(run)
    ensures ShownInHistory(History(names, rows), run) && !HistoryRaises(History(names, rows), run)
  {
    assert forall k :: 0 <= k < at ==> names[k] in names[..at];
    assert NamedIn(History(names, rows), at, i, run);
  }

  // ----- In the protocol -----

  /** Names of runs and targets on the remote side. */
  datatype Names = Names(run: RunId -> string, target: TargetKey -> string)

  ghost predicate Proper(names: Names) {
    (forall r :: ValidRun(names.run(r))) && (forall t :: ValidTarget(names.target(t)))
  }

  /** What the log says of a run, the system has: its commit, or that somebody else mentions it. */
  ghost predicate Agrees(s: System, run: RunId, names: Names, log: seq<Statement>)
    requires run in s.cells
  {
    var id, target := names.run(run), names.target(s.cells[run].target);
    && (Committed(log, id, target) ==> CommitCount(s.history, run) > 0)
    && (!Unmentioned(log, id, target) ==> run in s.mentioned)
  }

  /** A commit in the table history that carries the run is the run's, or somebody else's who mentions it. */
  ghost predicate HistoryAgrees(s: System, run: RunId, names: Names, history: HistoryAnswer) {
    ShownInHistory(history, names.run(run)) ==> CommitCount(s.history, run) > 0 || run in s.mentioned
  }

  /**
   The verdict of the search is the protocol's: whatever the pages show of a log that agrees with the
   system, the recovery actor that got the verdict can take the protocol's step for it.
   */
  lemma VerdictIsProtocolStep(s: System, run: RunId, q: Token, assumed: Assumptions, names: Names,
                              pages: nat -> PageAnswer, log: seq<Statement>, history: HistoryAnswer, verdict: Verdict)
    requires run in s.cells && Is(s.cells[run], q, Reconciling) && s.cells[run].record.Some?
    requires Proper(names) && Agrees(s, run, names, log) && ShowsLog(pages, log)
    requires forall j :: 0 <= j < |log| ==> WellNamed(log[j])
    requires verdict == Found ==> Searchable(s.cells[run].record.value.submittedAt, s.now)
    requires verdict == Found ==>
               || FoundOnPages(pages, names.run(run), names.target(s.cells[run].target))
               || (ShownInHistory(history, names.run(run)) && HistoryAgrees(s, run, names, history))
    ensures exists c' :: CellNext(ContextOf(s, run, assumed), s.cells[run], Protocol.Reconcile(q, verdict), c')
  {
    var c, x := s.cells[run], ContextOf(s, run, assumed);
    match verdict {
      case Found =>
        if FoundOnPages(pages, names.run(run), names.target(c.target)) {
          var k :| 0 <= k < MAX_PAGES && ShownOn(pages, k, names.run(run), names.target(c.target));
          FoundIsCommitOrImpostor(pages, k, log, names.run(run), names.target(c.target));
        }
        assert CellNext(x, c, Protocol.Reconcile(q, Found), GoOn(c, q, MarkerFound));
      case Unknown =>
        var deferred := Deferred(c.record.value, RETRY_SECONDS, Uncertain, x.now);
        assert CellNext(x, c, Protocol.Reconcile(q, Unknown), Leave(Rewrite(c, q, deferred), q));
      case Raised =>
        assert CellNext(x, c, Protocol.Reconcile(q, Raised), c);
    }
  }

  // ----- Without the assumption that nobody else carries the marker -----

  const MENTIONABLE := Assumptions(true, false)

  lemma NextStillHolds(s: System, step: Step, s': System)
    requires Next(s, step, s', ASSUMED)
    ensures Next(s, step, s', MENTIONABLE)
  {
  }

  lemma {:induction false} StepsStillHold(s: System, trace: seq<System>, steps: seq<Step>, i: nat)
    requires Steps(trace, steps, ASSUMED) && trace[0] == s && i < |trace|
    ensures Leads(s, trace[i], MENTIONABLE)
  {
    if i == 0 {
      Stay(s, MENTIONABLE);
    } else {
      StepsStillHold(s, trace, steps, i - 1);
      assert Next(trace[i - 1], steps[i - 1], trace[i - 1 + 1], ASSUMED);
      NextStillHolds(trace[i - 1], steps[i - 1], trace[i]);
      OneMoreStep(s, trace[i - 1], steps[i - 1], trace[i], MENTIONABLE);
    }
  }

  lemma StillLeads(s: System, s': System)
    requires Leads(s, s', ASSUMED)
    ensures Leads(s, s', MENTIONABLE)
  {
    var trace, steps :| Steps(trace, steps, ASSUMED) && trace[0] == s && trace[|trace| - 1] == s';
    StepsStillHold(s, trace, steps, |trace| - 1);
  }

  /** Somebody else comes to carry the run's marker. */
  lemma Mentioned(s0: System, s: System, run: RunId) returns (s': System)
    requires Leads(s0, s, MENTIONABLE)
    ensures Leads(s0, s', MENTIONABLE) && s' == s.(mentioned := s.mentioned + {run})
  {
    s' := s.(mentioned := s.mentioned + {run});
    assert Next(s, Mention(run), s', MENTIONABLE);
    OneMoreStep(s0, s, Mention(run), s', MENTIONABLE);
  }

  /** A perfect pass over a record whose marker somebody else carries. */
  lemma MisledPass(s0: System, s: System, run: RunId) returns (s': System)
    requires Leads(s0, s, MENTIONABLE) && run in s.cells && run in s.mentioned && s.cells[run].record.Some?
    requires NeedsReconciliation(s.cells[run].record.value.state)
    requires Searchable(s.cells[run].record.value.submittedAt, s.now)
    requires Due(s.cells[run].record.value.recoveryExpires, s.now)
    requires s.cells[run].lease.terminal && s.cells[run].lease.token.None?
    ensures Leads(s0, s', MENTIONABLE) && ClosedAs(s', run, Complete) && s'.history == s.history
  {
    var c, x := s.cells[run], ContextOf(s, run, MENTIONABLE);
    var q := Highest(s.issued) + 1;
    var cells, steps := PassIsProtocolRun(x, c, q, PERFECT);
    s' := PathLeads(s, run, q, cells, steps, |steps|, MENTIONABLE);
    LeadsOn(s0, s, s', MENTIONABLE);
  }

  /** A recovery actor that holds the record and is still searching is misled. */
  lemma MisledSearch(s0: System, s: System, run: RunId, q: Token) returns (s': System)
    requires Leads(s0, s, MENTIONABLE) && run in s.cells && run in s.mentioned && Holds(s.cells[run], q)
    requires NeedsReconciliation(s.cells[run].record.value.state)
    requires Searchable(s.cells[run].record.value.submittedAt, s.now)
    requires Is(s.cells[run], q, Claiming) || Is(s.cells[run], q, Reconciling)
    ensures Leads(s0, s', MENTIONABLE) && ClosedAs(s', run, Complete) && s'.history == s.history
  {
    var c := s.cells[run];
    var searching := s;
    if Is(c, q, Claiming) {
      searching := StepLeads(s0, s, run, Read(q, true, Ready), GoOn(c, q, Reconciling), MENTIONABLE);
    }
    var found := StepLeads(s0, searching, run, Protocol.Reconcile(q, Found),
                           GoOn(searching.cells[run], q, MarkerFound), MENTIONABLE);
    s' := MisledClose(s0, found, run, q);
  }

  lemma MisledClose(s0: System, s: System, run: RunId, q: Token) returns (s': System)
    requires Leads(s0, s, MENTIONABLE) && run in s.cells && Holds(s.cells[run], q) && Is(s.cells[run], q, MarkerFound)
    ensures Leads(s0, s', MENTIONABLE) && ClosedAs(s', run, Complete) && s'.history == s.history
  {
    var c := s.cells[run];
    var marked := GoOn(c.(record := Some(MarkedCommitted(c.record.value, s.now))), q, Cleaning);
    var concluded := StepLeads(s0, s, run, Conclude(q, Acked), marked, MENTIONABLE);
    s' := MisledSweep(s0, concluded, run, q);
  }

  lemma MisledSweep(s0: System, s: System, run: RunId, q: Token) returns (s': System)
    requires Leads(s0, s, MENTIONABLE) && run in s.cells && Holds(s.cells[run], q) && Is(s.cells[run], q, Cleaning)
    requires s.cells[run].record.value.confirmedAt.Some?
    ensures Leads(s0, s', MENTIONABLE) && ClosedAs(s', run, Complete) && s'.history == s.history
  {
    var dropped := GoOn(s.cells[run], q, Cleaned).(staging := false);
    var swept := StepLeads(s0, s, run, DropStaging(q, true, true), dropped, MENTIONABLE);
    var closed := Leave(dropped, q).(record := Some(Closed(dropped.record.value)));
    s' := StepLeads(s0, swept, run, Finish(q, Acked), closed, MENTIONABLE);
  }

  /** Complete, over no commit at all. */
  ghost predicate CompleteOverNothing(s: System, run: RunId) {
    ClosedAs(s, run, Complete) && CommitCount(s.history, run) == 0
  }

  // ----- Out of reach of any search, no mention helps -----

  /** The run's own cell is sound whatever is mentioned, and it has a commit or nobody will confirm one. */
  ghost predicate Unmisled(s: System, run: RunId) {
    && run in s.cells && CellInv(run, s.cells[run], CommitCount(s.history, run), s.issued)
    && TimesInv(s.cells[run], s.now) && Hopeless(s.cells[run], CommitCount(s.history, run), s.now)
  }

  ghost predicate UnmisledOrCommitted(s: System, run: RunId) {
    CommitCount(s.history, run) > 0 || Unmisled(s, run)
  }

  lemma UnmisledOn(s: System, step: CellStep, s': System, run: RunId, assumed: Assumptions)
    requires assumed.disarmed && Unmisled(s, run) && Next(s, On(run, step), s', assumed)
    ensures Unmisled(s', run)
  {
    var x, c, c' := ContextOf(s, run, assumed), s.cells[run], s'.cells[run];
    HopelessIsNotMisled(x, c, step, c');
    CellStepKeeps(x, c, step, c');
    TimesKeep(x, c, step, c');
    HopelessStep(x, c, step, c');
  }

  lemma UnmisledElsewhere(s: System, step: Step, s': System, run: RunId, assumed: Assumptions)
    requires assumed.disarmed && Unmisled(s, run) && CommitCount(s.history, run) == 0 && Next(s, step, s', assumed)
    requires step.On? ==> step.run != run
    ensures UnmisledOrCommitted(s', run)
  {
    match step {
      case Land(r) =>
        Appended(s.history, Commit(r, s.cells[r].target), run);
      case On(r, cellStep) =>
        CellInvGrows(run, s.cells[run], 0, s.issued, s'.issued);
      case Tick(_) =>
      case Mention(_) =>
    }
  }

  lemma UnmisledNext(s: System, step: Step, s': System, run: RunId, assumed: Assumptions)
    requires assumed.disarmed && UnmisledOrCommitted(s, run) && Next(s, step, s', assumed)
    ensures UnmisledOrCommitted(s', run)
  {
    if CommitCount(s.history, run) > 0 {
      if step.Land? { Appended(s.history, Commit(step.run, s.cells[step.run].target), run); }
    } else if step.On? && step.run == run {
      UnmisledOn(s, step.cell, s', run, assumed);
    } else {
      UnmisledElsewhere(s, step, s', run, assumed);
    }
  }

  lemma {:induction false} UnmisledForever(
      trace: seq<System>, steps: seq<Step>, i: nat, run: RunId, assumed: Assumptions)
    requires assumed.disarmed && Steps(trace, steps, assumed) && UnmisledOrCommitted(trace[0], run) && i < |trace|
    ensures UnmisledOrCommitted(trace[i], run)
  {
    if i > 0 {
      UnmisledForever(trace, steps, i - 1, run, assumed);
      assert Next(trace[i - 1], steps[i - 1], trace[i - 1 + 1], assumed);
      UnmisledNext(trace[i - 1], steps[i - 1], trace[i], run, assumed);
    }
  }

  lemma OutOfReachStaysOpen(s: System, s': System, run: RunId, assumed: Assumptions)
    requires Open(s, run) && Undecided(s.cells[run]) && CommitCount(s.history, run) == 0
    requires assumed.disarmed && !CanSearch(s.cells[run], s.now) && Leads(s, s', assumed)
    ensures !CompleteOverNothing(s', run)
  {
    assert CellInv(run, s.cells[run], 0, s.issued);
    var trace, steps :| Steps(trace, steps, assumed) && trace[0] == s && trace[|trace| - 1] == s';
    UnmisledForever(trace, steps, |trace| - 1, run, assumed);
  }

  lemma ReachableIsMisled(s: System, run: RunId) returns (s': System)
    requires Open(s, run) && Undecided(s.cells[run]) && CommitCount(s.history, run) == 0
    requires CanSearch(s.cells[run], s.now)
    ensures Leads(s, s', MENTIONABLE) && CompleteOverNothing(s', run)
  {
    var rec := s.cells[run].record.value;
    assert CellInv(run, s.cells[run], 0, s.issued);
    Stay(s, ASSUMED);
    if Searchable(rec.submittedAt, DueAt(rec, s.now)) {
      var ended := LeaseEnds(s, s, run);
      var due := ComesDue(s, ended, run);
      StillLeads(s, due);
      var mentioned := Mentioned(s, due, run);
      s' := MisledPass(s, mentioned, run);
    } else {
      StillLeads(s, s);
      var mentioned := Mentioned(s, s, run);
      s' := MisledSearch(s, mentioned, run, rec.recoveryToken.value);
    }
  }

  /**
   An undecided record without a commit can be closed as complete over none exactly when others may
   carry markers and a search for it, under way or to come, is within the window.
   */
  lemma CompleteOverNothingExactlyWhenMentioned(s: System, run: RunId, assumed: Assumptions)
    requires Open(s, run) && Undecided(s.cells[run]) && CommitCount(s.history, run) == 0 && assumed.disarmed
    ensures (exists s' :: Leads(s, s', assumed) && CompleteOverNothing(s', run))
            <==> !assumed.unmentioned && CanSearch(s.cells[run], s.now)
  {
    if assumed.unmentioned {
      assert assumed == ASSUMED;
      forall s' | Leads(s, s', ASSUMED) ensures !CompleteOverNothing(s', run) {
        LeadsKeeps(s, s');
        if run in s'.cells { NeverOverNothing(s', run); }
      }
    } else if CanSearch(s.cells[run], s.now) {
      assert assumed == MENTIONABLE;
      var s' := ReachableIsMisled(s, run);
    } else {
      forall s' | Leads(s, s', assumed) ensures !CompleteOverNothing(s', run) {
        OutOfReachStaysOpen(s, s', run, assumed);
      }
    }
  }

  lemma NeverOverNothing(s: System, run: RunId)
    requires SystemInv(s) && run in s.cells
    ensures !CompleteOverNothing(s, run)
  {
    assert CellInv(run, s.cells[run], CommitCount(s.history, run), s.issued);
  }
}
