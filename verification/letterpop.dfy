/** Letter Pop Balloons: a row of letter balloons; the child pops the one
    showing the spoken letter. */
module LetterPop {
  import opened Common
  import opened Difficulty
  import MathUtil

  /** The `i`-th capital letter. */
  function Letter(i: int): (c: char)
    requires 0 <= i < 26
    ensures 'A' <= c <= 'Z'
  {
    (65 + i) as char
  }

  /** The letters from the `i`-th to 'Z', in order. */
  function LettersFrom(i: nat): (r: seq<char>)
    requires i <= 26
    ensures |r| == 26 - i
    ensures forall k | 0 <= k < |r| :: r[k] == Letter(i + k) && 'A' <= r[k] <= 'Z'
    decreases 26 - i
  {
    if i == 26 then [] else [Letter(i)] + LettersFrom(i + 1)
  }

  /** `LETTERS`: 'A' to 'Z'. */
  const Letters: seq<char> := LettersFrom(0)

  lemma LettersDistinct()
    ensures |Letters| == 26 && Distinct(Letters)
    ensures forall c | c in Letters :: 'A' <= c <= 'Z'
  {
  }

  /** `baseNeeded(level)`. */
  function BaseNeeded(level: int): (r: int)
    ensures level <= 1 ==> r == 2
    ensures level == 2 ==> r == 3
    ensures level >= 3 ==> r == 4
  {
    if level <= 1 then 2 else if level <= 2 then 3 else 4
  }

  /** `getNeededPerLevel(level)`. */
  function Needed(level: int, t: Tier): (r: int)
    ensures r >= 1
    ensures t == Normal ==> r == BaseNeeded(level)
  {
    ScaleNeeded(BaseNeeded(level), t)
  }

  /** `scaleChoices(6, 26, difficulty)`: 5, 6 or 7 balloons. */
  function BalloonCount(t: Tier): (r: int)
    ensures t == Easy ==> r == 5
    ensures t == Normal ==> r == 6
    ensures t == Hard ==> r == 7
  {
    ScaleChoices(6, 26, t)
  }

  /** The random choices of one `newRound()`: the target letter, and the
      order the random-comparator sort leaves the other 25 letters in. */
  datatype RoundDraws = RoundDraws(target: nat, order: seq<nat>)

  predicate Enough(d: RoundDraws) {
    |d.order| >= 24
  }

  datatype Round = Round(target: char, balloons: seq<char>)

  /** The row for target letter `k` and `n` balloons. */
  function RowFor(k: int, n: int, order: seq<nat>): (r: Round)
    requires 0 <= k < 26 && 1 <= n <= 26 && |order| >= 24
    ensures |r.balloons| == n && r.balloons[0] == r.target
    ensures 'A' <= r.target <= 'Z'
    ensures forall i | 1 <= i < n :: 'A' <= r.balloons[i] <= 'Z' && r.balloons[i] != r.target
    ensures Distinct(r.balloons)
  {
    LettersDistinct();
    var target := Letters[k];
    Round(target, MathUtil.ChoiceRow(Letters, target, n, order))
  }

  /** `newRound()`: the target is drawn from the alphabet; the remaining
      balloons are the first `numBalloons - 1` of the other letters in a
      random order. The target is always the first balloon of the row. */
  function NewRound(t: Tier, d: RoundDraws): (r: Round)
    requires Enough(d)
    ensures |r.balloons| == BalloonCount(t) && r.balloons[0] == r.target
    ensures 'A' <= r.target <= 'Z'
    ensures forall i | 1 <= i < |r.balloons| :: 'A' <= r.balloons[i] <= 'Z' && r.balloons[i] != r.target
    ensures Distinct(r.balloons)
  {
    RowFor(d.target % 26, BalloonCount(t), d.order)
  }

  /** The letter a tap on balloon `i` pops, if the row has such a balloon. */
  function BalloonAt(r: Round, i: int): Option<char> {
    if 0 <= i < |r.balloons| then Some(r.balloons[i]) else None
  }

  /** Exactly one balloon of a fresh row carries the target letter. */
  lemma OneTargetBalloon(t: Tier, d: RoundDraws, i: int)
    requires Enough(d)
    ensures BalloonAt(NewRound(t, d), i) == Some(NewRound(t, d).target) <==> i == 0
  {
  }

  datatype State = State(level: int, score: int, round: Option<Round>, count: int)

  /** `onPop(letter)`. The third component says whether a `newRound()` is
      scheduled: after every correct pop, by the 1200 ms timer or, on
      reaching the level's quota, by the reward timer once the level is
      saved as won, raised and its counter cleared. The row stays on screen
      until the refresh runs. A pop before any row exists, or of a wrong
      letter, changes nothing. */
  function OnPop(s: State, t: Tier, letter: char): (r: (State, Option<Save>, bool))
    ensures s.round.None? || letter != s.round.value.target ==> r == (s, None, false)
    ensures s.round.Some? && letter == s.round.value.target ==>
      && r.2 && r.0.score == s.score + 15 && r.0.round == s.round
      && (r.1.Some? <==> s.count + 1 >= Needed(s.level, t))
      && (r.1.Some? ==> (r.1.value == Save(s.level + 1, s.score + 15, LevelStars(s.level))
                         && r.0.level == s.level + 1 && r.0.count == 0))
      && (r.1.None? ==> r.0.level == s.level && r.0.count == s.count + 1)
  {
    if s.round.None? || letter != s.round.value.target then (s, None, false)
    else
      var score := s.score + 15;
      var count := s.count + 1;
      if count >= Needed(s.level, t) then
        (State(s.level + 1, score, s.round, 0), Some(Save(s.level + 1, score, LevelStars(s.level))), true)
      else (State(s.level, score, s.round, count), None, true)
  }

  /** The scheduled `newRound()`: the row `next` replaces the current one,
      and nothing else changes. */
  function Refresh(s: State, next: Round): (r: State)
    ensures r.round == Some(next)
    ensures r.level == s.level && r.score == s.score && r.count == s.count
  {
    s.(round := Some(next))
  }

  /** A pop followed by the refresh it schedules, when no other pop comes
      in between. */
  function PopThenRefresh(s: State, t: Tier, letter: char, next: Round): (r: (State, Option<Save>))
    ensures s.round.None? || letter != s.round.value.target ==> r == (s, None)
    ensures s.round.Some? && letter == s.round.value.target ==>
      && r.0.score == s.score + 15 && r.0.round == Some(next)
      && (r.1.Some? <==> s.count + 1 >= Needed(s.level, t))
      && (r.1.None? ==> r.0.level == s.level && r.0.count == s.count + 1)
  {
    var (u, save, refresh) := OnPop(s, t, letter);
    (if refresh then Refresh(u, next) else u, save)
  }

  /** The balloons stay tappable during the 1200 ms before the refresh, and
      a second pop of the same target counts again: it scores another 15
      and raises the counter a second time. */
  lemma QuickPopsCountTwice(s: State, t: Tier)
    requires s.round.Some? && s.count + 2 < Needed(s.level, t)
    ensures var target := s.round.value.target;
      var (u, save, _) := OnPop(s, t, target);
      var (v, save2, _) := OnPop(u, t, target);
      && save.None? && save2.None? && u.round == s.round
      && v.count == s.count + 2 && v.score == s.score + 30
  {
  }

  /** On normal at level 1, where two pops are needed, two quick pops of the
      first row's target win the level before any refresh. */
  lemma QuickPopsWinLevel(s: State)
    requires s.round.Some? && s.count == 0 && s.level <= 1
    ensures var target := s.round.value.target;
      var (u, save, _) := OnPop(s, Normal, target);
      && save.None?
      && OnPop(u, Normal, target).1 == Some(Save(s.level + 1, s.score + 30, LevelStars(s.level)))
  {
  }

  /** The counter stays below the quota of the current level. */
  ghost predicate Valid(s: State, t: Tier) {
    0 <= s.count < Needed(s.level, t)
  }

  lemma PopKeepsValid(s: State, t: Tier, letter: char)
    requires Valid(s, t)
    ensures Valid(OnPop(s, t, letter).0, t)
  {
  }

  /** Pops the target of each row in turn, the rows refreshed from `next`,
      until a level is won. */
  function PopTargets(s: State, t: Tier, next: seq<Round>): (r: (State, bool))
    requires s.round.Some?
    decreases |next|
  {
    if |next| == 0 then (s, false)
    else
      var r := PopThenRefresh(s, t, s.round.value.target, next[0]);
      if r.1.Some? then (r.0, true) else PopTargets(r.0, t, next[1..])
  }

  /** From a valid state, `needed - count` correct pops win the level. */
  lemma {:induction false} NeededPopsWin(s: State, t: Tier, next: seq<Round>)
    requires s.round.Some? && Valid(s, t)
    requires |next| >= Needed(s.level, t) - s.count
    ensures PopTargets(s, t, next).1
    decreases |next|
  {
    var r := PopThenRefresh(s, t, s.round.value.target, next[0]);
    if r.1.None? {
      NeededPopsWin(r.0, t, next[1..]);
    }
  }
}
