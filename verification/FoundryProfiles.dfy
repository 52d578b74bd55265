/**
 Decimal value profiles: how much scale and how many integer digits the values of a column
 ask for, taken from its least and greatest value only.  Every value of a Polars Decimal
 column is a multiple of ten to minus the column's scale.
 */
module FoundryProfiles {
  import opened Wrappers
  import opened Decimals

  datatype Column = DecimalColumn(scale: nat, values: seq<Option<int>>) | OtherColumn
  type Frame = map<string, Column>
  datatype Profile = Profile(scale: nat, digits: nat)
  type Profiles = map<string, Profile>

  const NOTHING := Profile(0, 0)

  function Join(a: Profile, b: Profile): Profile {
    Profile(Larger(a.scale, b.scale), Larger(a.digits, b.digits))
  }

  function Least(values: seq<Option<int>>): Option<int> {
    if values == [] then None
    else
      var rest := Least(values[1..]);
      if values[0].None? || (rest.Some? && rest.value < values[0].value) then rest else values[0]
  }

  function Greatest(values: seq<Option<int>>): Option<int> {
    if values == [] then None
    else
      var rest := Greatest(values[1..]);
      if values[0].None? || (rest.Some? && rest.value > values[0].value) then rest else values[0]
  }

  /** One extreme value: zero and missing values ask for nothing. */
  function ValueProfile(scale: nat, value: Option<int>): Profile {
    if value.None? || value.value == 0 then NOTHING
    else Profile(scale, Larger(Digits(Abs(value.value)) - scale, 0))
  }

  function ColumnProfile(scale: nat, values: seq<Option<int>>): Profile {
    Join(ValueProfile(scale, Least(values)), ValueProfile(scale, Greatest(values)))
  }

  // ----- The dictionaries, filled in loops -----

  function At(profiles: Profiles, column: string): Profile {
    if column in profiles then profiles[column] else NOTHING
  }

  function Both(a: Profiles, b: Profiles): Profiles {
    map c | c in a.Keys + b.Keys :: Join(At(a, c), At(b, c))
  }

  function FrameProfiles(frame: Frame): Profiles {
    map c | c in frame && frame[c].DecimalColumn? :: ColumnProfile(frame[c].scale, frame[c].values)
  }

  function ProfilesOf(frames: seq<Frame>): Profiles {
    if frames == [] then map[]
    else Both(ProfilesOf(frames[..|frames| - 1]), FrameProfiles(frames[|frames| - 1]))
  }

  function Merged(profiles: seq<Profiles>): Profiles {
    if profiles == [] then map[]
    else Both(Merged(profiles[..|profiles| - 1]), profiles[|profiles| - 1])
  }

  /** The least value, then the greatest. */
  method ProfileColumn(scale: nat, values: seq<Option<int>>) returns (asked: Profile)
    ensures asked == ColumnProfile(scale, values)
  {
    asked := NOTHING;
    asked := Join(asked, ValueProfile(scale, Least(values)));
    asked := Join(asked, ValueProfile(scale, Greatest(values)));
  }

  /** The profiles of one frame, joined into what was there, column by column. */
  method AbsorbFrame(profiles: Profiles, frame: Frame) returns (wider: Profiles)
    ensures wider == Both(profiles, FrameProfiles(frame))
  {
    wider := profiles;
    var todo := frame.Keys;
    ghost var found := FrameProfiles(frame);
    while todo != {}
      invariant todo <= frame.Keys
      invariant wider.Keys == profiles.Keys + (found.Keys - todo)
      invariant forall c :: c in wider ==>
                  wider[c] == if c in todo then At(profiles, c) else Join(At(profiles, c), At(found, c))
      decreases todo
    {
      var column :| column in todo;
      if frame[column].DecimalColumn? {
        var asked := ProfileColumn(frame[column].scale, frame[column].values);
        wider := wider[column := Join(At(wider, column), asked)];
      }
      todo := todo - {column};
    }
  }

  method ValueProfiles(frames: seq<Frame>) returns (profiles: Profiles)
    ensures profiles == ProfilesOf(frames)
  {
    profiles := map[];
    var f := 0;
    while f < |frames|
      invariant 0 <= f <= |frames|
      invariant profiles == ProfilesOf(frames[..f])
    {
      profiles := AbsorbFrame(profiles, frames[f]);
      assert frames[..f + 1][..f] == frames[..f];
      f := f + 1;
    }
    assert frames[..f] == frames;
  }

  method AbsorbProfiles(merged: Profiles, profile: Profiles) returns (wider: Profiles)
    ensures wider == Both(merged, profile)
  {
    wider := merged;
    var todo := profile.Keys;
    while todo != {}
      invariant todo <= profile.Keys
      invariant wider.Keys == merged.Keys + (profile.Keys - todo)
      invariant forall c :: c in wider ==>
                  wider[c] == if c in todo then At(merged, c) else Join(At(merged, c), At(profile, c))
      decreases todo
    {
      var column :| column in todo;
      wider := wider[column := Join(At(wider, column), profile[column])];
      todo := todo - {column};
    }
  }

  method MergeProfiles(profiles: seq<Profiles>) returns (merged: Profiles)
    ensures merged == Merged(profiles)
  {
    merged := map[];
    var p := 0;
    while p < |profiles|
      invariant 0 <= p <= |profiles|
      invariant merged == Merged(profiles[..p])
    {
      merged := AbsorbProfiles(merged, profiles[p]);
      assert profiles[..p + 1][..p] == profiles[..p];
      p := p + 1;
    }
    assert profiles[..p] == profiles;
  }

  // ----- The two extremes are enough -----

  lemma {:induction false} Extremes(values: seq<Option<int>>)
    ensures Least(values).None? <==> Greatest(values).None?
    ensures forall i :: 0 <= i < |values| && values[i].Some? ==>
              Least(values).Some? && Least(values).value <= values[i].value <= Greatest(values).value
  {
    if values != [] { Extremes(values[1..]); }
  }

  /** The Decimal type read off a profile holds the number exactly. */
  ghost predicate HeldBy(n: Number, wide: Profile) { Fits(n, Larger(1, wide.digits + wide.scale), wide.scale) }

  /** A profile at least as large as the column's holds every value of the column exactly. */
  lemma ExtremesSuffice(scale: nat, values: seq<Option<int>>, i: nat, wide: Profile)
    requires i < |values| && values[i].Some?
    requires Join(wide, ColumnProfile(scale, values)) == wide
    ensures HeldBy(Multiple(values[i].value, scale), wide)
  {
    Extremes(values);
    var v, low, high := values[i].value, Least(values).value, Greatest(values).value;
    if v == 0 {
      var m := 0;
      assert Scaled(Multiple(0, scale), wide.scale, m);
    } else {
      var far := if Abs(low) > Abs(high) then low else high;
      DigitsMonotone(Abs(v), Abs(far));
      DigitsBound(Abs(v));
      assert wide.scale >= scale && wide.digits >= Digits(Abs(v)) - scale;
      RoomSuffices(Multiple(v, scale), Digits(Abs(v)), wide.digits, wide.scale);
      var m :| Scaled(Multiple(v, scale), wide.scale, m) && Abs(m) < Pow10(wide.digits + wide.scale);
      Pow10Grows(wide.digits + wide.scale, Larger(1, wide.digits + wide.scale));
    }
  }

  /** The profile of frames absorbs the profile of each of its decimal columns. */
  lemma {:induction false} ProfilesAbsorb(frames: seq<Frame>, f: nat, column: string)
    requires f < |frames| && column in frames[f] && frames[f][column].DecimalColumn?
    ensures column in ProfilesOf(frames)
    ensures var wide := ProfilesOf(frames)[column];
            Join(wide, ColumnProfile(frames[f][column].scale, frames[f][column].values)) == wide
  {
    var last := |frames| - 1;
    JoinedAt(ProfilesOf(frames[..last]), FrameProfiles(frames[last]), column);
    if f < last { ProfilesAbsorb(frames[..last], f, column); }
  }

  /**
   Publishing is lossless: whatever scales the batches came with, every decimal value of every
   batch is stored exactly by the Decimal type read off the merged profile.
   */
  lemma MergedTypeHoldsEverything(frames: seq<Frame>, f: nat, column: string, i: nat)
    requires f < |frames| && column in frames[f] && frames[f][column].DecimalColumn?
    requires i < |frames[f][column].values| && frames[f][column].values[i].Some?
    ensures column in ProfilesOf(frames)
    ensures var c := frames[f][column]; HeldBy(Multiple(c.values[i].value, c.scale), ProfilesOf(frames)[column])
  {
    ProfilesAbsorb(frames, f, column);
    var c := frames[f][column];
    ExtremesSuffice(c.scale, c.values, i, ProfilesOf(frames)[column]);
  }

  // ----- No more than some value asks for -----

  lemma {:induction false} ExtremesOccur(values: seq<Option<int>>)
    ensures Least(values).Some? ==> Least(values) in values
    ensures Greatest(values).Some? ==> Greatest(values) in values
  {
    if values != [] { ExtremesOccur(values[1..]); }
  }

  /** The profile of one column is at most what one of its values, not zero, asks for. */
  lemma ColumnAsksFor(scale: nat, values: seq<Option<int>>)
    ensures var p := ColumnProfile(scale, values);
            && (p.scale > 0 ==> p.scale == scale && exists v: int :: v != 0 && Some(v) in values)
            && (p.digits > 0 ==> exists v: int :: v != 0 && Some(v) in values && p.digits == Digits(Abs(v)) - scale)
  {
    ExtremesOccur(values);
    Extremes(values);
    if Least(values).Some? {
      var low, high := Least(values).value, Greatest(values).value;
      assert Some(low) in values && Some(high) in values;
    }
  }

  /** A nonzero value of a decimal column of that name. */
  predicate Occurs(frame: Frame, column: string, v: int) {
    column in frame && frame[column].DecimalColumn? && v != 0 && Some(v) in frame[column].values
  }

  ghost predicate ScaleOccurs(frames: seq<Frame>, column: string, scale: nat) {
    exists f, v :: 0 <= f < |frames| && Occurs(frames[f], column, v) && scale == frames[f][column].scale
  }

  ghost predicate DigitsOccur(frames: seq<Frame>, column: string, digits: nat) {
    exists f, v :: 0 <= f < |frames| && Occurs(frames[f], column, v)
                   && digits == Digits(Abs(v)) - frames[f][column].scale
  }

  lemma OccursOn(frames: seq<Frame>, more: Frame, column: string, scale: nat, digits: nat)
    ensures ScaleOccurs(frames, column, scale) ==> ScaleOccurs(frames + [more], column, scale)
    ensures DigitsOccur(frames, column, digits) ==> DigitsOccur(frames + [more], column, digits)
  {
    assert forall f :: 0 <= f < |frames| ==> (frames + [more])[f] == frames[f];
  }

  lemma LastOccurs(frames: seq<Frame>, more: Frame, column: string)
    requires column in more && more[column].DecimalColumn?
    ensures var p := FrameProfiles(more)[column];
            && (p.scale > 0 ==> ScaleOccurs(frames + [more], column, p.scale))
            && (p.digits > 0 ==> DigitsOccur(frames + [more], column, p.digits))
  {
    ColumnAsksFor(more[column].scale, more[column].values);
    var all := frames + [more];
    assert all[|frames|] == more;
    forall v: int | v != 0 && Some(v) in more[column].values ensures Occurs(all[|frames|], column, v) {}
  }

  /** The columns profiled are the decimal ones. */
  lemma {:induction false} ProfiledColumns(frames: seq<Frame>, column: string)
    ensures column in ProfilesOf(frames) <==>
            exists f :: 0 <= f < |frames| && column in frames[f] && frames[f][column].DecimalColumn?
  {
    if frames != [] {
      var n := |frames| - 1;
      ProfiledColumns(frames[..n], column);
      JoinedAt(ProfilesOf(frames[..n]), FrameProfiles(frames[n]), column);
      assert forall f :: 0 <= f < n ==> frames[..n][f] == frames[f];
    }
  }

  /** Neither scale nor digits are larger than some value asks for. */
  lemma {:induction false} ProfilesAskFor(frames: seq<Frame>, column: string)
    ensures var p := At(ProfilesOf(frames), column);
            && (p.scale > 0 ==> ScaleOccurs(frames, column, p.scale))
            && (p.digits > 0 ==> DigitsOccur(frames, column, p.digits))
  {
    if frames != [] {
      var init, last := frames[..|frames| - 1], frames[|frames| - 1];
      assert frames == init + [last];
      ProfilesAskFor(init, column);
      JoinedAt(ProfilesOf(init), FrameProfiles(last), column);
      var p := At(ProfilesOf(init), column);
      OccursOn(init, last, column, p.scale, p.digits);
      if column in last && last[column].DecimalColumn? { LastOccurs(init, last, column); }
    }
  }

  // ----- Batch by batch or all at once -----

  lemma BothAssociates(a: Profiles, b: Profiles, c: Profiles)
    ensures Both(Both(a, b), c) == Both(a, Both(b, c))
  {
    var left, right := Both(Both(a, b), c), Both(a, Both(b, c));
    forall k ensures At(left, k) == At(right, k) && (k in left <==> k in right) {
      JoinedAt(a, b, k);
      JoinedAt(b, c, k);
      JoinedAt(Both(a, b), c, k);
      JoinedAt(a, Both(b, c), k);
    }
    forall k | k in left ensures k in right && left[k] == right[k] {
      assert At(left, k) == At(right, k);
    }
  }

  lemma JoinedAt(a: Profiles, b: Profiles, k: string)
    ensures At(Both(a, b), k) == Join(At(a, k), At(b, k))
    ensures k in Both(a, b) <==> k in a || k in b
  {
  }

  lemma EmptyIsNeutral(a: Profiles)
    ensures Both(a, map[]) == a && Both(map[], a) == a
  {
  }

  function AllFrames(groups: seq<seq<Frame>>): seq<Frame> {
    if groups == [] then [] else AllFrames(groups[..|groups| - 1]) + groups[|groups| - 1]
  }

  function EachProfiled(groups: seq<seq<Frame>>): seq<Profiles> {
    seq(|groups|, i requires 0 <= i < |groups| => ProfilesOf(groups[i]))
  }

  /** Merging what groups of batches gave is profiling all of them. */
  lemma {:induction false} MergingIsProfiling(groups: seq<seq<Frame>>)
    ensures Merged(EachProfiled(groups)) == ProfilesOf(AllFrames(groups))
  {
    if groups != [] {
      var init, last := groups[..|groups| - 1], groups[|groups| - 1];
      MergingIsProfiling(init);
      var each := EachProfiled(groups);
      assert each[..|each| - 1] == EachProfiled(init);
      BothIsAppend(AllFrames(init), last);
    }
  }

  lemma {:induction false} BothIsAppend(a: seq<Frame>, b: seq<Frame>)
    ensures Both(ProfilesOf(a), ProfilesOf(b)) == ProfilesOf(a + b)
  {
    if b == [] {
      assert a + b == a;
      EmptyIsNeutral(ProfilesOf(a));
    } else {
      var init, last := b[..|b| - 1], b[|b| - 1];
      BothIsAppend(a, init);
      assert (a + b)[..|a + b| - 1] == a + init;
      BothAssociates(ProfilesOf(a), ProfilesOf(init), FrameProfiles(last));
    }
  }

  /** Splitting one column into batches of the same scale does not change its profile. */
  lemma SplittingIsFree(scale: nat, a: seq<Option<int>>, b: seq<Option<int>>)
    ensures ColumnProfile(scale, a + b) == Join(ColumnProfile(scale, a), ColumnProfile(scale, b))
  {
    ReachOfConcatenation(a, b);
    Farthest(scale, a);
    Farthest(scale, b);
    Farthest(scale, a + b);
    FartherDigits(Reach(a), Reach(b));
  }

  lemma ReachOfConcatenation(a: seq<Option<int>>, b: seq<Option<int>>)
    ensures Reach(a + b) == Larger(Reach(a), Reach(b))
  {
    ExtremesOfConcatenation(a, b);
    Extremes(a);
    Extremes(b);
    Ordered(a);
    Ordered(b);
  }

  lemma {:induction false} Ordered(values: seq<Option<int>>)
    ensures Least(values).Some? ==> Greatest(values).Some? && Least(values).value <= Greatest(values).value
    ensures Least(values).None? ==> Greatest(values).None?
  {
    if values != [] { Ordered(values[1..]); }
  }

  /** The largest magnitude in a column. */
  function Reach(values: seq<Option<int>>): nat {
    if Least(values).None? || Greatest(values).None? then 0
    else Larger(Abs(Least(values).value), Abs(Greatest(values).value))
  }

  lemma Farthest(scale: nat, values: seq<Option<int>>)
    ensures Reach(values) == 0 ==> ColumnProfile(scale, values) == NOTHING
    ensures Reach(values) > 0 ==>
              ColumnProfile(scale, values) == Profile(scale, Larger(Digits(Reach(values)) - scale, 0))
  {
    Extremes(values);
    if Least(values).Some? {
      FartherDigits(Abs(Least(values).value), Abs(Greatest(values).value));
    }
  }

  lemma FartherDigits(a: nat, b: nat)
    ensures Digits(Larger(a, b)) == Larger(Digits(a), Digits(b))
  {
    if a <= b { DigitsMonotone(a, b); } else { DigitsMonotone(b, a); }
  }

  lemma {:induction false} ExtremesOfConcatenation(a: seq<Option<int>>, b: seq<Option<int>>)
    ensures Least(a + b) == if Least(a).None? then Least(b) else if Least(b).None? then Least(a)
                            else if Least(b).value < Least(a).value then Least(b) else Least(a)
    ensures Greatest(a + b) == if Greatest(a).None? then Greatest(b) else if Greatest(b).None? then Greatest(a)
                               else if Greatest(b).value > Greatest(a).value then Greatest(b) else Greatest(a)
  {
    if a == [] {
      assert a + b == b;
    } else {
      assert (a + b)[1..] == a[1..] + b;
      ExtremesOfConcatenation(a[1..], b);
    }
  }
}
