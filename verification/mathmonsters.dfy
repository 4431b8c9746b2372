/** Math Monsters: each right answer to an arithmetic question hits the
    monster, each wrong one lets the monster hit the player. Both start a
    level at 100 health. Questions come from `generateMathQuestion` at the
    game's level and the default normal tier. */
module MathMonsters {
  import opened Common
  import opened Difficulty
  import MathUtil

  const FullHealth := 100

  datatype State = State(
    level: int, score: int, question: MathUtil.Question,
    monster: int, player: int, streak: int, count: int)

  /** The next question: `generateMathQuestion(level)`, `None` when its
      option loop does not finish on the given draws. */
  function NextQuestion(level: int, d: MathUtil.QuestionDraws): (r: Option<MathUtil.Question>)
    requires |d.shuffle| >= 3
    ensures r.Some? ==> r.value.answer in r.value.options && |r.value.options| == 4
  {
    MathUtil.GenerateMathQuestion(level, Normal, d)
  }

  /** Because the game never passes a difficulty, from level 2 on a question
      can be a subtraction whose answer is too negative for the option loop
      to finish: the screen then hangs on the next answer. */
  lemma LevelTwoCanHang(wrong: seq<nat>, sh: seq<nat>)
    requires |sh| >= 3
    ensures NextQuestion(2, MathUtil.QuestionDraws(0, 19, 1, wrong, sh)).None?
  {
    MathUtil.NormalLevelTwoSubtractionHangs(wrong, sh);
  }

  /** `handleAnswer(selectedAnswer)`: a right answer deals `20 + 5 streak`
      damage, scores `10 + 2 streak` and extends the streak; a wrong one
      costs the player 15 health and ends the streak. Health never drops
      below 0, and every answer counts and brings the question `next`. */
  function HandleAnswer(s: State, selected: int, next: MathUtil.Question): (r: State)
    ensures r.count == s.count + 1 && r.question == next && r.level == s.level
    ensures selected == s.question.answer ==>
      && r.monster == Max(0, s.monster - (20 + 5 * s.streak))
      && r.score == s.score + 10 + 2 * s.streak
      && r.streak == s.streak + 1 && r.player == s.player
    ensures selected != s.question.answer ==>
      && r.player == Max(0, s.player - 15)
      && r.streak == 0 && r.monster == s.monster && r.score == s.score
  {
    var counted := s.(count := s.count + 1, question := next);
    if selected == s.question.answer then
      counted.(monster := Max(0, s.monster - (20 + 5 * s.streak)),
               score := s.score + 10 + 2 * s.streak, streak := s.streak + 1)
    else
      counted.(player := Max(0, s.player - 15), streak := 0)
  }

  /** `resetLevel()`: both at full health, streak and question count back
      to 0, level and score kept. */
  function ResetLevel(s: State, redrawn: MathUtil.Question): (r: State)
    ensures r.monster == FullHealth && r.player == FullHealth && r.streak == 0 && r.count == 0
    ensures r.level == s.level && r.score == s.score && r.question == redrawn
  {
    s.(monster := FullHealth, player := FullHealth, streak := 0, count := 0, question := redrawn)
  }

  datatype Event = Continue | LevelWon(save: Save) | GameOver

  /** The health effect and what follows it: a defeated monster saves the
      next level with the current score and `calculateStars(score, 10 ×
      questions)` stars, then the reward timer raises the level and resets
      it; a defeated player gets the Game Over alert, whose only button
      resets the level. `redrawn` is the question `resetLevel` draws; in both
      cases it is drawn for the level the reset's closure saw, the old one. */
  function Settle(s: State, redrawn: MathUtil.Question): (r: (State, Event))
    ensures s.monster <= 0 ==>
      && r.1 == LevelWon(Save(s.level + 1, s.score, MathUtil.CalculateStars(s.score, s.count * 10)))
      && r.0 == ResetLevel(s, redrawn).(level := s.level + 1)
    ensures s.monster > 0 && s.player <= 0 ==> r == (ResetLevel(s, redrawn), GameOver)
    ensures s.monster > 0 && s.player > 0 ==> r == (s, Continue)
  {
    if s.monster <= 0 then
      (ResetLevel(s, redrawn).(level := s.level + 1),
       LevelWon(Save(s.level + 1, s.score, MathUtil.CalculateStars(s.score, s.count * 10))))
    else if s.player <= 0 then (ResetLevel(s, redrawn), GameOver)
    else (s, Continue)
  }

  /** Health stays within `[0, 100]`, streak and count are never negative. */
  ghost predicate Valid(s: State) {
    0 <= s.monster <= FullHealth && 0 <= s.player <= FullHealth && s.streak >= 0 && s.count >= 0
  }

  lemma AnswerKeepsValid(s: State, selected: int, next: MathUtil.Question, redrawn: MathUtil.Question)
    requires Valid(s)
    ensures Valid(HandleAnswer(s, selected, next))
    ensures Valid(Settle(s, redrawn).0)
  {
  }

  /** The total damage of `k` right answers in a row from streak `st`. */
  function Damage(st: int, k: nat): (r: int)
    ensures st >= 0 ==> r >= 20 * k
    decreases k
  {
    if k == 0 then 0 else 20 + 5 * st + Damage(st + 1, k - 1)
  }

  /** The total score of `k` right answers in a row from streak `st`. */
  function Points(st: int, k: nat): (r: int)
    ensures st >= 0 ==> r >= 10 * k
    decreases k
  {
    if k == 0 then 0 else 10 + 2 * st + Points(st + 1, k - 1)
  }

  /** `k` right answers, the questions following each other from `qs`. */
  function RightAnswers(s: State, qs: seq<MathUtil.Question>, k: nat): (r: State)
    requires |qs| >= k
    decreases k
  {
    if k == 0 then s else RightAnswers(HandleAnswer(s, s.question.answer, qs[0]), qs[1..], k - 1)
  }

  lemma MaxChain(m: int, a: int, b: int)
    requires a >= 0 && b >= 0
    ensures Max(0, Max(0, m - a) - b) == Max(0, m - (a + b))
  {
  }

  /** A run of right answers adds up: the monster loses the run's total
      damage (down to 0), the score gains its total points, the player is
      untouched. */
  lemma {:induction false} RightAnswersAddUp(s: State, qs: seq<MathUtil.Question>, k: nat)
    requires |qs| >= k && s.streak >= 0 && s.monster >= 0
    ensures var r := RightAnswers(s, qs, k);
      && r.monster == Max(0, s.monster - Damage(s.streak, k))
      && r.score == s.score + Points(s.streak, k)
      && r.streak == s.streak + k && r.count == s.count + k
      && r.player == s.player && r.level == s.level
    decreases k
  {
    if k > 0 {
      var u := HandleAnswer(s, s.question.answer, qs[0]);
      RightAnswersAddUp(u, qs[1..], k - 1);
      assert RightAnswers(s, qs, k) == RightAnswers(u, qs[1..], k - 1);
      assert Damage(s.streak, k) == 20 + 5 * s.streak + Damage(s.streak + 1, k - 1);
      MaxChain(s.monster, 20 + 5 * s.streak, Damage(s.streak + 1, k - 1));
    }
  }

  /** From a fresh level four right answers in a row (20 + 25 + 30 + 35)
      defeat the monster, and three are not enough. */
  lemma FourRightAnswersWin(s: State, qs: seq<MathUtil.Question>)
    requires |qs| >= 4 && s.monster == FullHealth && s.streak == 0
    ensures RightAnswers(s, qs, 4).monster == 0
    ensures RightAnswers(s, qs, 3).monster == 25
    ensures RightAnswers(s, qs, 4).score == s.score + 52
  {
    RightAnswersAddUp(s, qs, 4);
    RightAnswersAddUp(s, qs, 3);
  }

  /** `k` wrong answers, each one more than the right answer. */
  function WrongAnswers(s: State, qs: seq<MathUtil.Question>, k: nat): (r: State)
    requires |qs| >= k
    decreases k
  {
    if k == 0 then s else WrongAnswers(HandleAnswer(s, s.question.answer + 1, qs[0]), qs[1..], k - 1)
  }

  /** A run of `k` wrong answers costs the player `15 k` health (down to 0)
      and leaves the monster and the score alone. */
  lemma {:induction false} WrongAnswersAddUp(s: State, qs: seq<MathUtil.Question>, k: nat)
    requires |qs| >= k && s.player >= 0
    ensures var r := WrongAnswers(s, qs, k);
      && r.player == Max(0, s.player - 15 * k)
      && r.monster == s.monster && r.score == s.score && r.count == s.count + k
      && (k > 0 ==> r.streak == 0)
    decreases k
  {
    if k > 0 {
      var u := HandleAnswer(s, s.question.answer + 1, qs[0]);
      WrongAnswersAddUp(u, qs[1..], k - 1);
      assert WrongAnswers(s, qs, k) == WrongAnswers(u, qs[1..], k - 1);
      MaxChain(s.player, 15, 15 * (k - 1));
    }
  }

  /** From full health seven wrong answers end the game (7 × 15 ≥ 100) and
      six leave the player with 10. */
  lemma SevenWrongAnswersLose(s: State, qs: seq<MathUtil.Question>)
    requires |qs| >= 7 && s.player == FullHealth
    ensures WrongAnswers(s, qs, 7).player == 0
    ensures WrongAnswers(s, qs, 6).player == 10
  {
    WrongAnswersAddUp(s, qs, 7);
    WrongAnswersAddUp(s, qs, 6);
  }
}
