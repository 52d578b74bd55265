/** Building continuations of the protocol step by step, and what holds in all of them. */
module Continuations {
  import opened Wrappers
  import opened Publication
  import opened Protocol
  import opened ProtocolSafety
  import opened ProtocolTheorems

  lemma {:induction false} StepsOn(
      s: System, mid: System, trace: seq<System>, steps: seq<Step>, i: nat, assumed: Assumptions)
    requires Leads(s, mid, assumed) && Steps(trace, steps, assumed) && trace[0] == mid && i < |trace|
    ensures Leads(s, trace[i], assumed)
  {
    if i > 0 {
      StepsOn(s, mid, trace, steps, i - 1, assumed);
      assert Next(trace[i - 1], steps[i - 1], trace[i - 1 + 1], assumed);
      OneMoreStep(s, trace[i - 1], steps[i - 1], trace[i], assumed);
    }
  }

  lemma LeadsOn(s: System, mid: System, s': System, assumed: Assumptions)
    requires Leads(s, mid, assumed) && Leads(mid, s', assumed)
    ensures Leads(s, s', assumed)
  {
    var trace, steps :| Steps(trace, steps, assumed) && trace[0] == mid && trace[|trace| - 1] == s';
    StepsOn(s, mid, trace, steps, |trace| - 1, assumed);
  }

  /** One more step inside the run. */
  lemma StepLeads(s0: System, s: System, run: RunId, step: CellStep, c': Cell, assumed: Assumptions)
    returns (s': System)
    requires run in s.cells && Leads(s0, s, assumed)
    requires CellNext(ContextOf(s, run, assumed), s.cells[run], step, c')
    ensures Leads(s0, s', assumed) && s' == Put(s, run, c').(issued := s.issued + Issues(step))
  {
    s' := Put(s, run, c').(issued := s.issued + Issues(step));
    assert s'.cells[run] == c';
    assert Next(s, On(run, step), s', assumed);
    OneMoreStep(s0, s, On(run, step), s', assumed);
  }

  lemma StepOn(s0: System, s: System, run: RunId, step: CellStep, c': Cell)
    requires SystemInv(s) && run in s.cells && Leads(s0, s, ASSUMED) && Issues(step) == {}
    requires CellNext(ContextOf(s, run, ASSUMED), s.cells[run], step, c')
    ensures Leads(s0, Put(s, run, c'), ASSUMED) && SystemInv(Put(s, run, c'))
  {
    var s' := Put(s, run, c');
    assert s.issued + {} == s.issued && s'.cells[run] == c';
    assert Next(s, On(run, step), s', ASSUMED);
    OneMoreStep(s0, s, On(run, step), s', ASSUMED);
    StepKeeps(s, On(run, step), s');
  }

  lemma OthersStay(s: System, run: RunId, c': Cell, key: TargetKey)
    requires run in s.cells
    ensures NoOtherHolder(Put(s, run, c').cells, run, key) <==> NoOtherHolder(s.cells, run, key)
  {
    assert forall r :: r in s.cells && r != run ==> Put(s, run, c').cells[r] == s.cells[r];
  }

  lemma LandsOnce(s: System, run: RunId, commit: Commit) returns (s': System)
    requires run in s.cells && s.cells[run].inFlight > 0 && commit == Commit(run, s.cells[run].target)
    ensures Next(s, Land(run), s', ASSUMED) && s'.history == s.history + [commit] && run in s'.cells
    ensures s'.cells == s.cells[run := s.cells[run].(inFlight := s.cells[run].inFlight - 1)]
    ensures s'.issued == s.issued && s'.now == s.now && s'.mentioned == s.mentioned
  {
    s' := Put(s, run, s.cells[run].(inFlight := s.cells[run].inFlight - 1)).(history := s.history + [commit]);
  }

  /** The clock moves on. */
  lemma Later(s0: System, s: System, now: Time) returns (s': System)
    requires SystemInv(s) && Leads(s0, s, ASSUMED) && s.now <= now
    ensures SystemInv(s') && Leads(s0, s', ASSUMED) && s' == s.(now := now)
  {
    s' := s.(now := now);
    assert Next(s, Tick(now), s', ASSUMED);
    OneMoreStep(s0, s, Tick(now), s', ASSUMED);
    StepKeeps(s, Tick(now), s');
  }

  // ----- What holds in every continuation -----

  /** What every step keeps, every continuation keeps. */
  lemma {:induction false} StepsInside(
      trace: seq<System>, steps: seq<Step>, i: nat, assumed: Assumptions, inside: System -> bool)
    requires Steps(trace, steps, assumed) && inside(trace[0]) && i < |trace|
    requires forall s, step, s' :: inside(s) && Next(s, step, s', assumed) ==> inside(s')
    ensures inside(trace[i])
  {
    if i > 0 {
      StepsInside(trace, steps, i - 1, assumed, inside);
      assert Next(trace[i - 1], steps[i - 1], trace[i - 1 + 1], assumed);
    }
  }

  lemma LeadsInside(s: System, s': System, assumed: Assumptions, inside: System -> bool)
    requires inside(s) && Leads(s, s', assumed)
    requires forall t, step, t' :: inside(t) && Next(t, step, t', assumed) ==> inside(t')
    ensures inside(s')
  {
    var trace, steps :| Steps(trace, steps, assumed) && trace[0] == s && trace[|trace| - 1] == s';
    StepsInside(trace, steps, |trace| - 1, assumed, inside);
  }

  lemma LeadsKeeps(s: System, s': System)
    requires SystemInv(s) && Leads(s, s', ASSUMED)
    ensures SystemInv(s')
  {
    forall t, step, t' | SystemInv(t) && Next(t, step, t', ASSUMED) { StepKeeps(t, step, t'); }
    LeadsInside(s, s', ASSUMED, SystemInv);
  }

  // ----- Tokens nobody has -----

  ghost function Highest(tokens: set<Token>): (top: Token)
    ensures forall t :: t in tokens ==> t <= top
  {
    if tokens == {} then 0
    else
      var t :| t in tokens;
      var rest := Highest(tokens - {t});
      assert tokens == (tokens - {t}) + {t};
      if t > rest then t else rest
  }

  function Until(at: Option<Time>): Time { if at.Some? then at.value else 0 }
}
