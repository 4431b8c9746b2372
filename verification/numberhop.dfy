/** Number Hop: the numbers 1 to `maxNum` lie shuffled on lily pads and must
    be tapped in increasing order. */
module NumberHop {
  import opened Common
  import opened Difficulty
  import MathUtil

  const BaseMax := 7

  /** `getMaxNumForLevel(level)`. */
  function MaxNum(level: int, t: Tier): (r: int)
    ensures r <= level + 1 && r <= ScaleMax(BaseMax, t)
    ensures r == level + 1 || r == ScaleMax(BaseMax, t)
  {
    Min(level + 1, ScaleMax(BaseMax, t))
  }

  /** From level 1 on there are at least two pads, at most seven on normal
      (the guide's "up to 7"), eight on hard and five on easy. */
  lemma MaxNumBounds(level: int, t: Tier)
    requires level >= 1
    ensures 2 <= MaxNum(level, t)
    ensures t == Normal ==> MaxNum(level, t) <= 7
    ensures t == Hard ==> MaxNum(level, t) <= 8
    ensures t == Easy ==> MaxNum(level, t) <= 5
  {
  }

  /** `Array.from({ length: n }, (_, i) => i + 1)`. */
  function Range(n: nat): (r: seq<int>)
    ensures |r| == n && forall i | 0 <= i < n :: r[i] == i + 1
  {
    if n == 0 then [] else Range(n - 1) + [n]
  }

  lemma RangeDistinct(n: nat)
    ensures Distinct(Range(n))
  {
  }

  /** The pads of a level: `shuffleArray` of `1..maxNum`. */
  function Pads(level: int, t: Tier, draws: seq<nat>): (r: seq<int>)
    requires level >= 1 && |draws| + 1 >= MaxNum(level, t)
    ensures multiset(r) == multiset(Range(MaxNum(level, t)))
  {
    MathUtil.Shuffle(Range(MaxNum(level, t)), draws)
  }

  /** Every number from 1 to `maxNum` is on exactly one pad. */
  lemma PadsArePermutation(level: int, t: Tier, draws: seq<nat>)
    requires level >= 1 && |draws| + 1 >= MaxNum(level, t)
    ensures var p := Pads(level, t, draws);
      && |p| == MaxNum(level, t) && Distinct(p)
      && forall x :: x in p <==> 1 <= x <= MaxNum(level, t)
  {
    var p := Pads(level, t, draws);
    var range := Range(MaxNum(level, t));
    RangeDistinct(MaxNum(level, t));
    MathUtil.PermutationKeepsDistinct(range, p);
    assert |p| == |multiset(p)| == |multiset(range)| == |range|;
    forall x ensures x in p <==> 1 <= x <= MaxNum(level, t) {
      assert x in p <==> x in multiset(p);
      assert x in range <==> x in multiset(range);
      if 1 <= x <= MaxNum(level, t) {
        assert range[x - 1] == x;
      }
    }
  }

  datatype State = State(level: int, score: int, nextTap: int)

  /** `onTapNumber(num)`, with the delayed level-up applied at once. */
  function OnTapNumber(s: State, t: Tier, num: int): (r: (State, Option<Save>))
    ensures num != s.nextTap ==> r == (s, None)
    ensures num == s.nextTap ==> r.0.score == s.score + 10
    ensures r.1.Some? <==> num == s.nextTap && num == MaxNum(s.level, t)
    ensures r.1.Some? ==> (r.1.value == Save(s.level + 1, s.score + 10, LevelStars(s.level))
      && r.0 == State(s.level + 1, s.score + 10, 1))
    ensures num == s.nextTap && r.1.None? ==> r.0 == State(s.level, s.score + 10, s.nextTap + 1)
  {
    if num != s.nextTap then (s, None)
    else
      var score := s.score + 10;
      if num == MaxNum(s.level, t) then
        (State(s.level + 1, score, 1), Some(Save(s.level + 1, score, LevelStars(s.level))))
      else (s.(score := score, nextTap := s.nextTap + 1), None)
  }

  ghost predicate Valid(s: State, t: Tier) {
    s.level >= 1 && 1 <= s.nextTap <= MaxNum(s.level, t)
  }

  /** The next number to tap stays between 1 and `maxNum`, whatever is
      tapped. */
  lemma TapKeepsValid(s: State, t: Tier, num: int)
    requires Valid(s, t)
    ensures Valid(OnTapNumber(s, t, num).0, t)
  {
    MaxNumBounds(s.level + 1, t);
  }

  /** Tapping the pads in order from 1 finishes the level after exactly
      `maxNum` taps, each worth 10 points. */
  lemma {:induction false} InOrderFinishes(s: State, t: Tier)
    requires Valid(s, t)
    ensures TapsInOrder(s, t).1.Some?
    ensures TapsInOrder(s, t).0.score == s.score + 10 * (MaxNum(s.level, t) - s.nextTap + 1)
    decreases MaxNum(s.level, t) - s.nextTap
  {
    var r := OnTapNumber(s, t, s.nextTap);
    if r.1.None? {
      InOrderFinishes(r.0, t);
    }
  }

  /** Taps `nextTap`, `nextTap + 1`, … until the level is won. */
  function TapsInOrder(s: State, t: Tier): (State, Option<Save>)
    requires Valid(s, t)
    decreases MaxNum(s.level, t) - s.nextTap
  {
    var r := OnTapNumber(s, t, s.nextTap);
    if r.1.Some? then r else TapsInOrder(r.0, t)
  }
}
