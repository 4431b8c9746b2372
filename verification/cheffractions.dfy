/** Chef Fractions: a food is cut into `denominator` slices and the child
    selects `numerator` of them. */
module ChefFractions {
  import opened Common

  const FoodCount := 5

  /** `denominators`. */
  const Denominators: seq<int> := [2, 3, 4, 6, 8]

  datatype Challenge = Challenge(food: nat, totalSlices: int, numerator: int, denominator: int)

  datatype State = State(
    level: int, score: int, challenge: Option<Challenge>, selected: seq<int>, completed: int)

  /** The denominator of a level: the table entry `min(level - 1, 4)`. */
  function DenominatorFor(level: int): (d: int)
    requires level >= 1
    ensures d in Denominators
    ensures level <= 5 ==> d == Denominators[level - 1]
    ensures level >= 5 ==> d == 8
  {
    Denominators[Min(level - 1, |Denominators| - 1)]
  }

  /** The random choices of one `generateChallenge()`. */
  datatype ChallengeDraws = ChallengeDraws(food: nat, numerator: nat)

  /** `generateChallenge()` at `level`: a proper fraction, as many slices
      as the denominator, nothing selected. */
  function NewChallenge(level: int, d: ChallengeDraws): (c: Challenge)
    requires level >= 1
    ensures c.food < FoodCount
    ensures c.denominator == DenominatorFor(level) && c.totalSlices == c.denominator
    ensures 1 <= c.numerator < c.denominator
  {
    var den := DenominatorFor(level);
    Challenge(d.food % FoodCount, den, d.numerator % (den - 1) + 1, den)
  }

  /** Every proper numerator of the level's denominator can be drawn. */
  lemma EveryNumeratorDrawn(level: int, n: int, food: nat)
    requires level >= 1 && 1 <= n < DenominatorFor(level)
    ensures NewChallenge(level, ChallengeDraws(food, (n - 1) as nat)).numerator == n
  {
  }

  function GenerateChallenge(s: State, d: ChallengeDraws): (r: State)
    requires s.level >= 1
    ensures r.challenge == Some(NewChallenge(s.level, d)) && r.selected == []
    ensures r.level == s.level && r.score == s.score && r.completed == s.completed
  {
    s.(challenge := Some(NewChallenge(s.level, d)), selected := [])
  }

  /** `toggleSlice(index)`: remove the index when selected, append it
      otherwise. */
  function ToggleSlice(s: State, index: int): (r: State)
    ensures index in r.selected <==> index !in s.selected
    ensures forall j | j != index :: j in r.selected <==> j in s.selected
    ensures r == s.(selected := r.selected)
  {
    if index in s.selected then s.(selected := Without(s.selected, index))
    else s.(selected := s.selected + [index])
  }

  /** Tapping an unselected slice twice restores the selection exactly. */
  lemma ToggleTwice(s: State, index: int)
    requires index !in s.selected
    ensures ToggleSlice(ToggleSlice(s, index), index) == s
  {
    WithoutAppend(s.selected, index);
  }

  lemma {:induction false} WithoutAppend(a: seq<int>, x: int)
    requires x !in a
    ensures Without(a + [x], x) == a
  {
    if |a| == 0 {
      assert Without([x][1..], x) == [];
    } else {
      assert (a + [x])[1..] == a[1..] + [x];
      WithoutAppend(a[1..], x);
      assert a == [a[0]] + a[1..];
    }
  }

  /** `checkAnswer()`: correct exactly when as many slices are selected as
      the numerator says. A correct answer scores 20 and counts; every
      fifth one saves the next level, with `min(3, completed / 5)` stars,
      and raises the level. The third component says whether the `Next
      Challenge` alert is shown. A wrong answer changes nothing. */
  function CheckAnswer(s: State): (r: (State, Option<Save>, bool))
    ensures s.challenge.None? ==> r == (s, None, false)
    ensures s.challenge.Some? && |s.selected| != s.challenge.value.numerator ==> r == (s, None, false)
    ensures s.challenge.Some? && |s.selected| == s.challenge.value.numerator ==>
      && r.2 && r.0.score == s.score + 20 && r.0.completed == s.completed + 1
      && r.0.challenge == s.challenge && r.0.selected == s.selected
      && (r.1.Some? <==> (s.completed + 1) % 5 == 0)
      && (r.1.Some? ==> (r.1.value == Save(s.level + 1, s.score + 20, Min(3, (s.completed + 1) / 5))
                         && r.0.level == s.level + 1))
      && (r.1.None? ==> r.0.level == s.level)
  {
    if s.challenge.None? || |s.selected| != s.challenge.value.numerator then (s, None, false)
    else
      var score := s.score + 20;
      var completed := s.completed + 1;
      if completed % 5 == 0 then
        (s.(score := score, completed := completed, level := s.level + 1), Some(Save(s.level + 1, score, Min(3, completed / 5))), true)
      else (s.(score := score, completed := completed), None, true)
  }

  /** Serving a plate and pressing `Next Challenge`. The button runs the
      `generateChallenge` of the render that served, so the next challenge
      is drawn for the level before any level-up. */
  function Serve(s: State, d: ChallengeDraws): (r: (State, Option<Save>))
    requires s.level >= 1
    ensures r.1 == CheckAnswer(s).1
    ensures CheckAnswer(s).2 ==> r.0.challenge == Some(NewChallenge(s.level, d)) && r.0.selected == []
    ensures !CheckAnswer(s).2 ==> r.0 == s
    ensures r.0.level == CheckAnswer(s).0.level
  {
    var (u, save, next) := CheckAnswer(s);
    (if next then u.(challenge := Some(NewChallenge(s.level, d)), selected := []) else u, save)
  }

  /** The slice selection invariant: slice indices of the current plate,
      each at most once. */
  ghost predicate Valid(s: State) {
    && s.level >= 1
    && s.challenge.Some?
    && Distinct(s.selected)
    && forall i | 0 <= i < |s.selected| :: 0 <= s.selected[i] < s.challenge.value.totalSlices
  }

  lemma ToggleKeepsValid(s: State, index: int)
    requires Valid(s) && 0 <= index < s.challenge.value.totalSlices
    ensures Valid(ToggleSlice(s, index))
  {
    var r := ToggleSlice(s, index);
    if index in s.selected {
      WithoutKeepsDistinct(s.selected, index);
    }
    forall i | 0 <= i < |r.selected| ensures 0 <= r.selected[i] < s.challenge.value.totalSlices {
      assert r.selected[i] in s.selected || r.selected[i] == index;
    }
  }

  lemma ServeKeepsValid(s: State, d: ChallengeDraws)
    requires Valid(s)
    ensures Valid(Serve(s, d).0)
  {
  }

  /** On a valid plate the answer is right exactly when the set of selected
      slices has `numerator` elements. */
  lemma CorrectIffSetSize(s: State)
    requires Valid(s)
    ensures CheckAnswer(s).2 <==> |set i | i in s.selected| == s.challenge.value.numerator
  {
    DistinctSetSize(s.selected);
  }
}
