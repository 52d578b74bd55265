/**
 Admission and draining of operations.  Every method body runs under one condition lock, so a
 run is a sequence of whole calls.
 */
module RuntimeLifetime {
  import opened Wrappers

  // ----- The account: every lease ever granted, and whether it was released -----

  datatype Account = Account(accepting: bool, released: seq<bool>)

  datatype Call = Admit(stopped: bool) | Retain(parent: nat) | Release(lease: nat) | Shutdown

  function Next(a: Account, c: Call): Account {
    match c
    case Admit(stopped) => if a.accepting && !stopped then a.(released := a.released + [false]) else a
    case Retain(i) => if Holds(a, i) then a.(released := a.released + [false]) else a
    case Release(i) => if Holds(a, i) then a.(released := a.released[i := true]) else a
    case Shutdown => a.(accepting := false)
  }

  predicate Holds(a: Account, lease: nat) { lease < |a.released| && !a.released[lease] }

  function Run(a: Account, calls: seq<Call>): Account
    decreases |calls|
  {
    if calls == [] then a else Run(Next(a, calls[0]), calls[1..])
  }

  /** How many leases are not released. */
  function Live(released: seq<bool>): nat {
    if released == [] then 0 else Live(released[..|released| - 1]) + if released[|released| - 1] then 0 else 1
  }

  lemma LiveGranted(released: seq<bool>)
    ensures Live(released + [false]) == Live(released) + 1
  {
    assert (released + [false])[..|released|] == released;
  }

  lemma {:induction false} LiveReleased(released: seq<bool>, i: nat)
    requires i < |released| && !released[i]
    ensures Live(released) > 0 && Live(released[i := true]) == Live(released) - 1
  {
    var n := |released| - 1;
    if i < n {
      LiveReleased(released[..n], i);
      assert released[i := true][..n] == released[..n][i := true];
    } else {
      assert released[i := true][..n] == released[..n];
    }
  }

  lemma {:induction false} NoneLive(released: seq<bool>)
    ensures Live(released) == 0 <==> forall i :: 0 <= i < |released| ==> released[i]
  {
    if released != [] {
      NoneLive(released[..|released| - 1]);
      forall i | 0 <= i < |released| && !released[i] ensures Live(released) > 0 { LiveReleased(released, i); }
    }
  }

  lemma {:induction false} LiveCounts(released: seq<bool>)
    ensures Live(released) == |set i | 0 <= i < |released| && !released[i]|
  {
    var n := |released| - 1;
    if n >= 0 {
      var live := set i | 0 <= i < n + 1 && !released[i];
      LiveCounts(released[..n]);
      assert (set i | 0 <= i < n && !released[..n][i]) == live - {n};
    }
  }

  // ----- Over whole runs -----

  /** Once shutdown has begun and nothing is live, nothing ever becomes live. */
  lemma {:induction false} DrainedForever(a: Account, calls: seq<Call>)
    requires !a.accepting && Live(a.released) == 0
    ensures Run(a, calls) == a
    decreases |calls|
  {
    if calls != [] {
      NoneLive(a.released);
      assert Next(a, calls[0]) == a;
      DrainedForever(a, calls[1..]);
    }
  }

  /** While draining, the live count grows only by retaining a live lease. */
  lemma DrainingGrowsOnlyByRetaining(a: Account, c: Call)
    requires !a.accepting
    ensures !Next(a, c).accepting
    ensures Live(Next(a, c).released) > Live(a.released) <==> c.Retain? && Holds(a, c.parent)
    ensures Live(Next(a, c).released) <= Live(a.released) + 1
  {
    LiveGranted(a.released);
    if c.Release? && Holds(a, c.lease) { LiveReleased(a.released, c.lease); }
  }

  /** A lease released once stays released, and releasing it again changes nothing then or later. */
  lemma {:induction false} ReleasedForGood(a: Account, calls: seq<Call>, lease: nat)
    requires lease < |a.released| && a.released[lease]
    ensures lease < |Run(a, calls).released| && Run(a, calls).released[lease]
    ensures Next(Run(a, calls), Release(lease)) == Run(a, calls)
    decreases |calls|
  {
    if calls != [] { ReleasedForGood(Next(a, calls[0]), calls[1..], lease); }
  }

  /** The number of leases granted less the number released is the number live. */
  function Releases(a: Account, calls: seq<Call>): nat
    decreases |calls|
  {
    if calls == [] then 0
    else (if calls[0].Release? && Holds(a, calls[0].lease) then 1 else 0) + Releases(Next(a, calls[0]), calls[1..])
  }

  lemma {:induction false} GrantsBalanceReleases(a: Account, calls: seq<Call>)
    ensures |Run(a, calls).released| >= |a.released|
    ensures Live(Run(a, calls).released) + Releases(a, calls) ==
            Live(a.released) + |Run(a, calls).released| - |a.released|
    decreases |calls|
  {
    if calls != [] {
      var c := calls[0];
      LiveGranted(a.released);
      if c.Release? && Holds(a, c.lease) { LiveReleased(a.released, c.lease); }
      GrantsBalanceReleases(Next(a, c), calls[1..]);
    }
  }

  // ----- The objects -----

  datatype AdmissionError = NotAccepting | ParentReleased

  class StopEvent {
    var raised: bool

    constructor ()
      ensures !raised
    {
      raised := false;
    }
  }

  class PipelineOperationLease {
    const lifetime: PipelineOperationLifetime
    var released: bool
    ghost const index: nat

    constructor (owner: PipelineOperationLifetime, ghost position: nat)
      ensures lifetime == owner && index == position && !released
    {
      lifetime, index, released := owner, position, false;
    }

    ghost predicate Granted()
      reads lifetime
    {
      index < |lifetime.leases| && lifetime.leases[index] == this
    }

    /** `release`: the second release of a lease is harmless, and none is one too many. */
    method Release() returns (tooMany: bool)
      requires lifetime.Valid() && Granted()
      modifies this`released, lifetime`active
      ensures lifetime.Valid() && Granted() && released
      ensures lifetime.Abstract() == Next(old(lifetime.Abstract()), Call.Release(index))
      ensures !tooMany
    {
      if released {
        return false;
      }
      ghost var before := lifetime.Abstract();
      LiveReleased(before.released, index);
      released := true;
      assert lifetime.Abstract().released == before.released[index := true];
      tooMany := lifetime.ReleaseLocked();
      assert lifetime.Abstract().released == before.released[index := true];
    }

    /** `retain`: a live lease can always be split, shutting down or not. */
    method Retain() returns (result: Result<PipelineOperationLease, AdmissionError>)
      requires lifetime.Valid() && Granted()
      modifies lifetime`active, lifetime`leases
      ensures lifetime.Valid() && Granted()
      ensures lifetime.Abstract() == Next(old(lifetime.Abstract()), Call.Retain(index))
      ensures result.Failure? <==> released
      ensures result.Failure? ==> result.error == ParentReleased && lifetime.leases == old(lifetime.leases)
      ensures result.Success? ==>
                && fresh(result.value) && result.value.lifetime == lifetime && !result.value.released
                && lifetime.leases == old(lifetime.leases) + [result.value] && result.value.Granted()
    {
      if released {
        return Failure(ParentReleased);
      }
      ghost var before := lifetime.Abstract();
      lifetime.RetainLocked();
      assert lifetime.Abstract().released == before.released;
      var child := lifetime.Grant();
      return Success(child);
    }
  }

  class PipelineOperationLifetime {
    var accepting: bool
    var active: int
    /** Every lease granted, in order. */
    ghost var leases: seq<PipelineOperationLease>

    ghost predicate Indexed()
      reads this, leases
    {
      forall i :: 0 <= i < |leases| ==> leases[i].lifetime == this && leases[i].index == i
    }

    /** The counter is the number of leases not released. */
    ghost predicate Valid()
      reads this, leases
    {
      Indexed() && active == Live(Abstract().released)
    }

    ghost function Abstract(): Account
      reads this, leases
    {
      var all := leases;
      Account(accepting, seq(|all|, i requires 0 <= i < |all| reads all => all[i].released))
    }

    constructor ()
      ensures Valid() && Abstract() == Account(true, [])
    {
      accepting, active, leases := true, 0, [];
    }

    method TryAdmit(stop: StopEvent) returns (result: Option<PipelineOperationLease>)
      requires Valid()
      modifies this`active, this`leases
      ensures Valid()
      ensures Abstract() == Next(old(Abstract()), Admit(stop.raised))
      ensures result.Some? <==> accepting && !stop.raised
      ensures result.Some? ==>
                && fresh(result.value) && result.value.lifetime == this && !result.value.released
                && leases == old(leases) + [result.value] && result.value.Granted()
      ensures result.None? ==> leases == old(leases)
    {
      if !accepting || stop.raised {
        return None;
      }
      ghost var before := Abstract();
      active := active + 1;
      assert Abstract().released == before.released;
      var lease := Grant();
      return Some(lease);
    }

    /** The lease a counted admission stands for. */
    method Grant() returns (lease: PipelineOperationLease)
      requires Indexed() && active == Live(Abstract().released) + 1
      modifies this`leases
      ensures Valid() && fresh(lease) && lease.lifetime == this && !lease.released
      ensures leases == old(leases) + [lease] && lease.Granted()
      ensures Abstract() == old(Abstract()).(released := old(Abstract()).released + [false])
    {
      ghost var before := Abstract();
      lease := new PipelineOperationLease(this, |leases|);
      leases := leases + [lease];
      assert Abstract().released == before.released + [false];
      LiveGranted(before.released);
    }

    method BeginShutdown(stop: StopEvent)
      requires Valid()
      modifies this`accepting, stop
      ensures Valid() && stop.raised && !accepting
      ensures Abstract() == Next(old(Abstract()), Shutdown)
      ensures leases == old(leases)
    {
      accepting := false;
      stop.raised := true;
      assert Abstract().released == old(Abstract()).released;
    }

    method IsIdle() returns (idle: bool)
      requires Valid()
      ensures idle <==> forall i :: 0 <= i < |leases| ==> leases[i].released
    {
      idle := active == 0;
      NoneLive(Abstract().released);
      assert forall i :: 0 <= i < |leases| ==> Abstract().released[i] == leases[i].released;
    }

    method RetainLocked()
      modifies this`active
      ensures active == old(active) + 1
    {
      active := active + 1;
    }

    method ReleaseLocked() returns (tooMany: bool)
      modifies this`active
      ensures tooMany <==> old(active) <= 0
      ensures active == if tooMany then old(active) else old(active) - 1
    {
      if active <= 0 {
        return true;
      }
      active := active - 1;
      return false;
    }
  }

  /** One admission that nested work may borrow. */
  class RuntimeOperationScope {
    const lease: PipelineOperationLease
    const owner: bool
    var active: bool

    constructor (held: PipelineOperationLease)
      ensures lease == held && owner && active
    {
      lease, owner, active := held, true, true;
    }

    ghost predicate Valid()
      reads this, lease, lease.lifetime, lease.lifetime.leases
    {
      lease.lifetime.Valid() && lease.Granted() && owner && (active ==> !lease.released)
    }

    /** `close`: gives the lease back once. */
    method Close() returns (tooMany: bool)
      requires Valid()
      modifies this`active, lease`released, lease.lifetime`active
      ensures Valid() && !active && !tooMany
      ensures old(active) ==> lease.released
      ensures lease.lifetime.Abstract() ==
              if old(active) then Next(old(lease.lifetime.Abstract()), Call.Release(lease.index))
              else old(lease.lifetime.Abstract())
    {
      if !active {
        return false;
      }
      active := false;
      tooMany := false;
      if owner {
        tooMany := lease.Release();
      }
    }
  }

  /** The context variable of one thread or task. */
  class OperationContext {
    var current: Option<RuntimeOperationScope>

    constructor ()
      ensures current == None
    {
      current := None;
    }
  }

  class ExecutionRuntime {
    const stop: StopEvent
    const lifetime: PipelineOperationLifetime

    constructor ()
      ensures lifetime.Valid() && lifetime.Abstract() == Account(true, []) && !stop.raised
    {
      stop := new StopEvent();
      lifetime := new PipelineOperationLifetime();
    }

    /**
     The scope `operation_scope` works under: a live scope of this runtime lends its admission even
     while shutting down; otherwise a new admission is asked for.
     */
    method Admitted(current: Option<RuntimeOperationScope>)
      returns (result: Result<RuntimeOperationScope, AdmissionError>)
      requires lifetime.Valid()
      requires current.Some? ==> current.value.Valid()
      modifies lifetime`active, lifetime`leases
      ensures lifetime.Valid()
      ensures result.Success? <==> Lends(current) || (old(lifetime.accepting) && !stop.raised)
      ensures lifetime.Abstract() ==
              Next(old(lifetime.Abstract()),
                   if Lends(current) then Call.Retain(current.value.lease.index) else Admit(stop.raised))
      ensures result.Failure? ==> result.error == NotAccepting
      ensures result.Success? ==>
                && fresh(result.value) && result.value.Valid() && result.value.active
                && result.value.lease.lifetime == lifetime
    {
      var lease: Option<PipelineOperationLease>;
      if Lends(current) {
        var retained := current.value.lease.Retain();
        lease := Some(retained.value);
      } else {
        lease := lifetime.TryAdmit(stop);
      }
      if lease.None? {
        return Failure(NotAccepting);
      }
      var scope := new RuntimeOperationScope(lease.value);
      return Success(scope);
    }

    predicate Lends(current: Option<RuntimeOperationScope>)
      reads if current.Some? then {current.value} else {}
    {
      current.Some? && current.value.lease.lifetime == lifetime && current.value.active
    }

    /** Entering `operation_scope`: the context now names the new scope; `previous` is kept for the exit. */
    method Enter(context: OperationContext)
      returns (result: Result<RuntimeOperationScope, AdmissionError>, previous: Option<RuntimeOperationScope>)
      requires lifetime.Valid()
      requires context.current.Some? ==> context.current.value.Valid()
      modifies lifetime`active, lifetime`leases, context
      ensures lifetime.Valid() && previous == old(context.current)
      ensures result.Success? <==> old(Lends(context.current)) || (old(lifetime.accepting) && !stop.raised)
      ensures lifetime.Abstract() ==
              Next(old(lifetime.Abstract()),
                   if old(Lends(context.current)) then Call.Retain(previous.value.lease.index) else Admit(stop.raised))
      ensures context.current == if result.Success? then Some(result.value) else previous
      ensures result.Success? ==>
                && fresh(result.value) && result.value.Valid() && result.value.active
                && result.value.lease.lifetime == lifetime
    {
      previous := context.current;
      result := Admitted(previous);
      if result.Success? {
        context.current := Some(result.value);
      }
    }

    /** Leaving it, however the body ended: the context is as before and the admission is given back. */
    method Exit(context: OperationContext, scope: RuntimeOperationScope, previous: Option<RuntimeOperationScope>)
      returns (tooMany: bool)
      requires scope.Valid() && scope.lease.lifetime == lifetime
      modifies context, scope`active, scope.lease`released, lifetime`active
      ensures lifetime.Valid() && context.current == previous && !scope.active && !tooMany
      ensures old(scope.active) ==> scope.lease.released
      ensures lifetime.Abstract() ==
              if old(scope.active) then Next(old(lifetime.Abstract()), Call.Release(scope.lease.index))
              else old(lifetime.Abstract())
    {
      context.current := previous;
      tooMany := scope.Close();
    }
  }
}
