/**
 Advancing the sequences behind explicitly loaded key columns, while other sessions keep
 calling nextval.  Increments may be negative; sequences have CACHE 1.
 */
module OwnedSequences {
  import opened Wrappers

  datatype SequenceError = SequenceMissing | CachedSequence | UpdateDenied | OwnershipRequired

  /** `a` lies strictly after `b` in the direction the sequence counts. */
  predicate Beyond(increment: int, a: int, b: int) {
    if increment > 0 then a > b else a < b
  }

  /** MAX or MIN of the non-null values, by direction. */
  function Boundary(increment: int, values: seq<Option<int>>): Option<int> {
    if values == [] then None
    else
      var rest := Boundary(increment, values[1..]);
      if values[0].None? then rest
      else if rest.None? || Beyond(increment, values[0].value, rest.value) then values[0]
      else rest
  }

  lemma {:induction false} BoundaryIsExtreme(increment: int, values: seq<Option<int>>)
    requires increment != 0
    ensures Boundary(increment, values).None? <==> forall v :: v in values ==> v.None?
    ensures Boundary(increment, values).Some? ==> Boundary(increment, values) in values
    ensures forall v :: v in values && v.Some? ==>
              && Boundary(increment, values).Some?
              && if increment > 0 then v.value <= Boundary(increment, values).value
                 else v.value >= Boundary(increment, values).value
  {
    if values != [] {
      BoundaryIsExtreme(increment, values[1..]);
      assert values == [values[0]] + values[1..];
    }
  }

  /** What the catalog says about a column's sequence. */
  datatype Settings = Settings(exists_: bool, cache: nat, mayUpdate: bool, owned: bool)

  class OwnedSequence {
    const increment: int
    var lastValue: int
    var isCalled: bool
    ghost var handedOut: set<int>   // every value any session ever got

    /** The value of the k-th nextval from now on. */
    ghost function Upcoming(k: nat): int
      reads this
    {
      (if isCalled then lastValue + increment else lastValue) + k * increment
    }

    /** Nothing that was handed out is ever handed out again. */
    ghost predicate Valid()
      reads this
    {
      && increment != 0
      && forall h, k: nat :: h in handedOut ==> if increment > 0 then Upcoming(k) > h else Upcoming(k) < h
    }

    /** Every value yet to come lies strictly beyond every given key. */
    ghost predicate Clears(keys: seq<Option<int>>)
      reads this
    {
      forall v, k: nat :: v in keys && v.Some? ==>
        if increment > 0 then Upcoming(k) > v.value else Upcoming(k) < v.value
    }

    /** Some given key lies strictly beyond the value. */
    ghost predicate Outrun(keys: seq<Option<int>>, value: int) {
      exists v :: v in keys && v.Some? && if increment > 0 then v.value > value else v.value < value
    }

    constructor (start: int, increment: int)
      requires increment != 0
      ensures Valid() && handedOut == {} && this.increment == increment && Upcoming(0) == start
    {
      this.increment := increment;
      lastValue := start;
      isCalled := false;
      handedOut := {};
    }

    method NextVal() returns (value: int)
      requires Valid()
      modifies this
      ensures Valid() && isCalled
      ensures value == old(Upcoming(0)) == lastValue
      ensures handedOut == old(handedOut) + {value}
      ensures forall k: nat :: Upcoming(k) == old(Upcoming(k + 1))
    {
      ghost var first := Upcoming(0);
      Spread(increment);
      assert forall k: nat :: Upcoming(k) == first + k * increment;
      if isCalled {
        lastValue := lastValue + increment;
      } else {
        isCalled := true;
      }
      value := lastValue;
      assert value == first;
      assert forall k: nat :: Upcoming(k) == first + (k + 1) * increment;
      handedOut := handedOut + {value};
    }

    /** Other sessions call nextval `calls` times. */
    method Concurrently(calls: nat)
      requires Valid()
      modifies this
      ensures Valid() && handedOut >= old(handedOut)
      ensures forall k: nat :: Upcoming(k) == old(Upcoming(k + calls))
      ensures old(isCalled) ==> isCalled
    {
      var done := 0;
      while done < calls
        invariant 0 <= done <= calls && Valid() && handedOut >= old(handedOut)
        invariant forall k: nat :: Upcoming(k) == old(Upcoming(k + done))
        invariant old(isCalled) ==> isCalled
      {
        var _ := NextVal();
        done := done + 1;
      }
    }

    /**
     One column of `_advance_owned_sequences`.  `destination` is read before the sequence is locked
     and `atLock` after; `before` and `waiting` count the nextval calls of other sessions up to this
     session's own nextval, and while it waits for the lock.  `locked` tells whether it came to locking.
     */
    method Advance(settings: Settings, staged: seq<Option<int>>, destination: seq<Option<int>>,
                   atLock: seq<Option<int>>, before: nat, waiting: nat)
      returns (outcome: Outcome<SequenceError>, locked: bool)
      requires Valid()
      modifies this
      ensures Valid() && handedOut >= old(handedOut)
      ensures outcome.Pass? && !locked ==> Clears(destination + staged)
      ensures outcome.Pass? && locked ==> Clears(atLock + staged)
      ensures outcome == Fail(SequenceMissing) <==> !settings.exists_
      ensures outcome == Fail(CachedSequence) <==> settings.exists_ && settings.cache != 1
      ensures outcome == Fail(UpdateDenied) <==> settings.exists_ && settings.cache == 1 && !settings.mayUpdate
      ensures outcome == Fail(OwnershipRequired) <==>
                && settings.exists_ && settings.cache == 1 && settings.mayUpdate && !settings.owned
                && Outrun(destination + staged, old(Upcoming(before)))
      ensures locked <==>
                && settings.exists_ && settings.cache == 1 && settings.mayUpdate && settings.owned
                && Outrun(destination + staged, old(Upcoming(before)))
      ensures outcome.Pass? <==>
                && settings.exists_ && settings.cache == 1 && settings.mayUpdate
                && (settings.owned || !Outrun(destination + staged, old(Upcoming(before))))
      ensures outcome.Fail? && outcome.error != OwnershipRequired ==> unchanged(this)
      // The sequence skips no further than one step past the furthest key.
      ensures locked ==>
                || Upcoming(0) == old(Upcoming(before + 1 + waiting))
                || exists v :: v in atLock + staged + destination && v.Some? && Upcoming(0) == v.value + increment
    {
      locked := false;
      if !settings.exists_ {
        return Fail(SequenceMissing), locked;
      }
      if settings.cache != 1 {
        return Fail(CachedSequence), locked;
      }
      if !settings.mayUpdate {
        return Fail(UpdateDenied), locked;
      }
      var loaded := Boundary(increment, destination + staged);
      BoundaryIsExtreme(increment, destination + staged);
      if loaded.None? {
        return Pass, locked;
      }
      Concurrently(before);
      var nextValue := NextVal();
      Spread(increment);
      if (increment > 0 && loaded.value <= nextValue) || (increment < 0 && loaded.value >= nextValue) {
        return Pass, locked;
      }
      if !settings.owned {
        return Fail(OwnershipRequired), locked;
      }
      Concurrently(waiting);
      locked := true;
      var available := lastValue + if isCalled then increment else 0;
      var latest := Boundary(increment, atLock + staged);
      BoundaryIsExtreme(increment, atLock + staged);
      if latest.None? {
        latest := loaded;
      }
      var beyond := latest.value + increment;
      var restart := if Beyond(increment, beyond, available) then beyond else available;
      assert Upcoming(0) == available;
      if restart != available {
        lastValue := restart;
        isCalled := false;
      }
      Spread(increment);
      assert Upcoming(0) == restart;
      assert latest in atLock + staged + destination by {
        assert latest in atLock + staged || latest in destination + staged;
      }
      return Pass, locked;
    }
  }

  /** One sequence-backed column of a load, and what the outside world does around it. */
  datatype SequenceColumn = SequenceColumn(sequence: OwnedSequence, settings: Settings, staged: seq<Option<int>>,
                           destination: seq<Option<int>>, atLock: seq<Option<int>>, before: nat, waiting: nat)

  /** The column's sequence can be advanced, or need not be. */
  ghost predicate Advances(c: SequenceColumn)
    reads c.sequence
  {
    && c.settings.exists_ && c.settings.cache == 1 && c.settings.mayUpdate
    && (c.settings.owned || !c.sequence.Outrun(c.destination + c.staged, c.sequence.Upcoming(c.before)))
  }

  ghost predicate Reserved(c: SequenceColumn)
    reads c.sequence
  {
    c.sequence.Clears(c.destination + c.staged) || c.sequence.Clears(c.atLock + c.staged)
  }

  /** Columns in order, up to the first refusal; later columns do not disturb earlier ones. */
  method AdvanceAll(columns: seq<SequenceColumn>) returns (outcome: Outcome<SequenceError>)
    requires forall c :: c in columns ==> c.sequence.Valid()
    requires forall i, j :: 0 <= i < j < |columns| ==> columns[i].sequence != columns[j].sequence
    modifies set c | c in columns :: c.sequence
    ensures forall c :: c in columns ==> c.sequence.Valid() && c.sequence.handedOut >= old(c.sequence.handedOut)
    ensures outcome.Pass? ==> forall c :: c in columns ==> Reserved(c)
    ensures outcome.Pass? <==> forall i :: 0 <= i < |columns| ==> old(Advances(columns[i]))
  {
    var i := 0;
    while i < |columns|
      invariant 0 <= i <= |columns|
      invariant forall j :: 0 <= j < |columns| ==>
                  columns[j].sequence.Valid() && columns[j].sequence.handedOut >= old(columns[j].sequence.handedOut)
      invariant forall j :: 0 <= j < i ==> Reserved(columns[j]) && old(Advances(columns[j]))
      invariant forall j :: i <= j < |columns| ==> unchanged(columns[j].sequence)
    {
      var c := columns[i];
      var advanced, _ := c.sequence.Advance(c.settings, c.staged, c.destination, c.atLock, c.before, c.waiting);
      if advanced.Fail? {
        return advanced;
      }
      i := i + 1;
    }
    return Pass;
  }

  /** Later multiples of the increment lie beyond earlier ones. */
  lemma Spread(increment: int)
    requires increment != 0
    ensures forall k: nat :: (if increment > 0 then k * increment >= 0 else k * increment <= 0)
    ensures forall k: nat :: k * increment + increment == (k + 1) * increment
  {
  }
}
