/** Eco Guardians: four missions, each finished by tapping its action button
    a number of times. A mission is its index in the table. The two delayed
    effects of `completeMission` (closing the mission after 1.5 s and moving
    to the next level after 3 s) are separate transitions, because the
    action button stays live until the first of them fires. */
module EcoGuardians {
  import opened Common
  import opened Difficulty

  datatype Mission = Mission(id: string, points: int)

  /** `missions`. */
  const Missions: seq<Mission> := [
    Mission("ocean", 30), Mission("trees", 25), Mission("animals", 35), Mission("recycle", 20)]

  /** The mission indices, the universe `completedMissions` is drawn from. */
  const Indices: seq<nat> := [0, 1, 2, 3]

  lemma IndicesAreMissions()
    ensures |Indices| == |Missions| && Distinct(Indices)
    ensures forall m: nat :: m in Indices <==> m < |Missions|
  {
  }

  /** `getMissionMaxProgress()`: the target the progress text shows. */
  function Displayed(m: nat): (r: int)
    requires m < |Missions|
    ensures Missions[m].id == "trees" ==> r == 5
    ensures Missions[m].id == "animals" ==> r == 3
    ensures Missions[m].id != "trees" && Missions[m].id != "animals" ==> r == 10
  {
    if Missions[m].id == "trees" then 5 else if Missions[m].id == "animals" then 3 else 10
  }

  /** `maxProgress` in `doAction`: the displayed target, lowered by two
      (not below 2) on easy and raised by two on hard. */
  function Required(m: nat, t: Tier): (r: int)
    requires m < |Missions|
    ensures t == Easy ==> r == Max(2, Displayed(m) - 2)
    ensures t == Normal ==> r == Displayed(m)
    ensures t == Hard ==> r == Displayed(m) + 2
    ensures r >= 1
  {
    var base := Displayed(m);
    if t == Easy then Max(2, base - 2) else if t == Hard then base + 2 else base
  }

  /** The progress text shows the unscaled target: off by two on hard, and
      on easy for every mission but Save Animals (3 lowered to 2 is off by
      one). Raising by two is steeper than `scaleMax`'s one. */
  lemma DisplayedTargetDiffers(m: nat)
    requires m < |Missions|
    ensures Required(m, Normal) == Displayed(m)
    ensures Required(m, Hard) == Displayed(m) + 2 != ScaleMax(Displayed(m), Hard)
    ensures Required(m, Easy) < Displayed(m)
  {
  }

  datatype State = State(
    level: int, score: int, completed: seq<nat>, current: Option<nat>, progress: int, pending: Option<int>)

  /** A mission card's `onPress`: cards are listed only while no mission is
      open, and a completed mission's card does nothing. */
  function StartMission(s: State, m: nat): (r: State)
    ensures s.current.Some? || m in s.completed ==> r == s
    ensures s.current.None? && m !in s.completed ==> r == s.(current := Some(m), progress := 0)
  {
    if s.current.Some? || m in s.completed then s else s.(current := Some(m), progress := 0)
  }

  /** `completeMission()`: the mission's points every time, the mission
      recorded once, and the level won when the record covers all four
      missions. The move to the next level is scheduled, not done. */
  function CompleteMission(s: State): (r: (State, Option<Save>))
    requires s.current.Some? ==> s.current.value < |Missions|
    ensures s.current.None? ==> r == (s, None)
    ensures s.current.Some? ==>
      var m := s.current.value;
      && r.0 == s.(score := s.score + Missions[m].points, completed := AppendNew(s.completed, m), pending := r.0.pending)
      && (r.1.Some? <==> m !in s.completed && |s.completed| + 1 == |Missions|)
      && (r.1.Some? ==> r.1.value == Save(s.level + 1, s.score + Missions[m].points, 3) && r.0.pending == Some(s.level + 1))
      && (r.1.None? ==> r.0.pending == s.pending)
  {
    if s.current.None? then (s, None)
    else
      var m := s.current.value;
      var score := s.score + Missions[m].points;
      if m in s.completed then (s.(score := score), None)
      else
        var completed := s.completed + [m];
        if |completed| == |Missions| then
          (s.(score := score, completed := completed, pending := Some(s.level + 1)), Some(Save(s.level + 1, score, 3)))
        else (s.(score := score, completed := completed), None)
  }

  /** `doAction()`: one more step, and the mission completes once the step
      count reaches the required number. */
  function DoAction(s: State, t: Tier): (r: (State, Option<Save>))
    requires s.current.Some? ==> s.current.value < |Missions|
    ensures s.current.None? ==> r == (s, None)
    ensures s.current.Some? && s.progress + 1 < Required(s.current.value, t) ==>
      r == (s.(progress := s.progress + 1), None)
    ensures s.current.Some? && s.progress + 1 >= Required(s.current.value, t) ==>
      r == CompleteMission(s.(progress := s.progress + 1))
  {
    if s.current.None? then (s, None)
    else
      var u := s.(progress := s.progress + 1);
      if u.progress >= Required(s.current.value, t) then CompleteMission(u) else (u, None)
  }

  /** The 1.5 s timer of `completeMission`, or the back button. */
  function CloseMission(s: State): (r: State)
    ensures r == s.(current := None)
  {
    s.(current := None)
  }

  /** The 3 s timer after a won level: the new level and an empty record. */
  function FinishLevel(s: State): (r: State)
    ensures s.pending.None? ==> r == s
    ensures s.pending.Some? ==> r == s.(level := s.pending.value, completed := [], pending := None)
  {
    if s.pending.None? then s else s.(level := s.pending.value, completed := [], pending := None)
  }

  /** The game invariant: the record holds distinct missions, and the level
      move is pending exactly when it holds all four. */
  ghost predicate Valid(s: State) {
    && (s.current.Some? ==> s.current.value < |Missions|)
    && Distinct(s.completed)
    && (forall i | 0 <= i < |s.completed| :: s.completed[i] < |Missions|)
    && (s.pending.Some? <==> |s.completed| == |Missions|)
  }

  lemma RecordBound(c: seq<nat>)
    requires Distinct(c) && forall i | 0 <= i < |c| :: c[i] < |Missions|
    ensures |c| <= |Missions|
    ensures |c| == |Missions| ==> forall m: nat | m < |Missions| :: m in c
  {
    IndicesAreMissions();
    DistinctWithin(c, Indices);
  }

  /** Every transition keeps the invariant; a won level cannot be won again
      before the move to the next level, since all four missions are on the
      record. */
  lemma StepsKeepValid(s: State, t: Tier, m: nat)
    requires Valid(s) && m < |Missions|
    ensures Valid(StartMission(s, m))
    ensures Valid(DoAction(s, t).0)
    ensures Valid(CloseMission(s)) && Valid(FinishLevel(s))
  {
    RecordBound(s.completed);
    if s.current.Some? {
      var c := s.current.value;
      AppendNewKeepsDistinct(s.completed, c);
      if c !in s.completed && |s.completed| + 1 != |Missions| {
        assert |s.completed| < |Missions|;
      }
    }
  }

  /** A mission on the record cannot be started again. */
  lemma CompletedCannotRestart(s: State, m: nat)
    requires m in s.completed
    ensures StartMission(s, m) == s
  {
  }

  /** `n` taps of the action button. */
  function Actions(s: State, t: Tier, n: nat): (r: (State, bool))
    requires s.current.Some? ==> s.current.value < |Missions|
    decreases n
  {
    if n == 0 then (s, false)
    else
      var (u, save) := DoAction(s, t);
      var (v, saved) := Actions(u, t, n - 1);
      (v, save.Some? || saved)
  }

  /** Below the required count taps only advance the progress. */
  lemma {:induction false} ActionsBelow(s: State, t: Tier, n: nat)
    requires s.current.Some? && s.current.value < |Missions|
    requires s.progress + n < Required(s.current.value, t)
    ensures Actions(s, t, n) == (s.(progress := s.progress + n), false)
    decreases n
  {
    if n > 0 {
      ActionsBelow(s.(progress := s.progress + 1), t, n - 1);
    }
  }

  /** A freshly started mission is completed by exactly `Required` taps:
      one tap fewer leaves it open and unscored, the last one records it
      and adds its points. */
  lemma MissionTakesRequired(s: State, t: Tier, m: nat)
    requires s.current.None? && m < |Missions| && m !in s.completed
    ensures var u := StartMission(s, m);
      var n := Required(m, t);
      && Actions(u, t, n - 1) == (u.(progress := n - 1), false)
      && var r := DoAction(Actions(u, t, n - 1).0, t);
         r.0.score == s.score + Missions[m].points && r.0.completed == s.completed + [m]
         && (r.1.Some? <==> |s.completed| + 1 == |Missions|)
  {
    var u := StartMission(s, m);
    ActionsBelow(u, t, Required(m, t) - 1);
  }

  /** Until the 1.5 s timer closes it, a completed mission's button stays
      live: every further tap scores the mission's points again, without
      recording it twice or winning anything. */
  lemma TapAfterCompletionScoresAgain(s: State, t: Tier)
    requires s.current.Some? && s.current.value < |Missions| && s.current.value in s.completed
    requires s.progress + 1 >= Required(s.current.value, t)
    ensures DoAction(s, t).0.score == s.score + Missions[s.current.value].points
    ensures DoAction(s, t).0.completed == s.completed && DoAction(s, t).1.None?
  {
  }
}
