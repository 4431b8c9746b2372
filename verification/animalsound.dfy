/** Animal Sound Match: an animal sound plays and the child taps the animal
    that makes it. An animal is its index in the eight-animal table (cow,
    dog, cat, pig, chicken, sheep, duck, frog); the source compares animals
    by name, and the eight names are distinct. */
module AnimalSound {
  import opened Common
  import opened Difficulty
  import MathUtil

  const AnimalCount := 8

  /** `ANIMALS`, as indices. */
  const Animals: seq<nat> := [0, 1, 2, 3, 4, 5, 6, 7]

  lemma AnimalsDistinct()
    ensures |Animals| == AnimalCount && Distinct(Animals)
    ensures forall a: nat :: a in Animals <==> a < AnimalCount
  {
    forall a: nat | a < AnimalCount ensures a in Animals {
      assert Animals[a] == a;
    }
  }

  /** `baseNeeded(level)`. */
  function BaseNeeded(level: int): (r: int)
    ensures level <= 2 ==> r == 2
    ensures 3 <= level <= 4 ==> r == 3
    ensures level >= 5 ==> r == 4
  {
    if level <= 2 then 2 else if level <= 4 then 3 else 4
  }

  /** `neededPerLevel(level)`. */
  function Needed(level: int, t: Tier): (r: int)
    ensures r >= 1
    ensures t == Normal ==> r == BaseNeeded(level)
  {
    ScaleNeeded(BaseNeeded(level), t)
  }

  /** `scaleChoices(3, ANIMALS.length, difficulty)`: 2, 3 or 4 choices. */
  function ChoiceCount(t: Tier): (r: int)
    ensures t == Easy ==> r == 2
    ensures t == Normal ==> r == 3
    ensures t == Hard ==> r == 4
  {
    ScaleChoices(3, AnimalCount, t)
  }

  /** What the pending timer will do when it fires: nothing, draw the next
      question, or raise the level to `newLevel` and then draw. */
  datatype Timer = Idle | NextRound | LevelUp(newLevel: int)

  datatype State = State(
    level: int, score: int, target: Option<nat>, choices: seq<nat>, count: int,
    locked: bool, pending: Timer)

  /** The random choices of one `newRound()`: the target animal, and the
      order the random-comparator sort leaves the other seven in. */
  datatype RoundDraws = RoundDraws(target: nat, order: seq<nat>)

  predicate Enough(d: RoundDraws) {
    |d.order| >= 6
  }

  /** The choices for target `k`. */
  function ChoicesFor(k: nat, n: int, order: seq<nat>): (r: seq<nat>)
    requires k < AnimalCount && 1 <= n <= AnimalCount && |order| >= 6
    ensures |r| == n && r[0] == k && Distinct(r)
    ensures forall i | 1 <= i < n :: r[i] < AnimalCount && r[i] != k
  {
    AnimalsDistinct();
    MathUtil.ChoiceRow(Animals, k, n, order)
  }

  /** `newRound()`: input unlocked, a new target, and the choices: the
      target first, then distinct other animals. */
  function NewRound(s: State, t: Tier, d: RoundDraws): (r: State)
    requires Enough(d)
    ensures r.target.Some? && r.target.value < AnimalCount
    ensures |r.choices| == ChoiceCount(t) && r.choices[0] == r.target.value && Distinct(r.choices)
    ensures forall i | 1 <= i < |r.choices| :: r.choices[i] < AnimalCount && r.choices[i] != r.target.value
    ensures !r.locked && r.pending == Idle
    ensures r.level == s.level && r.score == s.score && r.count == s.count
  {
    var k := d.target % AnimalCount;
    s.(target := Some(k), choices := ChoicesFor(k, ChoiceCount(t), d.order), locked := false, pending := Idle)
  }

  /** `onTapAnimal(animal)`: ignored without a target or while the answer
      is locked; a wrong animal keeps the question; the right one locks the
      input, counts, scores 20 and schedules the next question, saving the
      level as won first when the count reaches the quota. */
  function OnTap(s: State, t: Tier, animal: nat): (r: (State, Option<Save>))
    ensures s.target.None? || s.locked || Some(animal) != s.target ==> r == (s, None)
    ensures s.target == Some(animal) && !s.locked ==>
      && r.0.locked && r.0.count == s.count + 1 && r.0.score == s.score + 20
      && r.0.level == s.level && r.0.target == s.target && r.0.choices == s.choices
      && (r.1.Some? <==> s.count + 1 >= Needed(s.level, t))
      && (r.1.Some? ==> (r.1.value == Save(s.level + 1, s.score + 20, LevelStars(s.level))
                         && r.0.pending == LevelUp(s.level + 1)))
      && (r.1.None? ==> r.0.pending == NextRound)
  {
    if s.target.None? || s.locked || Some(animal) != s.target then (s, None)
    else
      var count := s.count + 1;
      var score := s.score + 20;
      if count >= Needed(s.level, t) then
        (s.(locked := true, count := count, score := score, pending := LevelUp(s.level + 1)),
         Some(Save(s.level + 1, score, LevelStars(s.level))))
      else (s.(locked := true, count := count, score := score, pending := NextRound), None)
  }

  /** The pending timer fires. */
  function Fire(s: State, t: Tier, d: RoundDraws): (r: State)
    requires Enough(d)
    ensures s.pending == Idle ==> r == s
    ensures s.pending == NextRound ==> r == NewRound(s, t, d)
    ensures s.pending.LevelUp? ==> r == NewRound(s.(level := s.pending.newLevel, count := 0), t, d)
  {
    match s.pending
    case Idle => s
    case NextRound => NewRound(s, t, d)
    case LevelUp(newLevel) => NewRound(s.(level := newLevel, count := 0), t, d)
  }

  /** A correct answer is counted once: until the timer fires, every further
      tap is ignored. */
  lemma CountedOnce(s: State, t: Tier, a: nat, b: nat)
    requires s.target == Some(a) && !s.locked
    ensures OnTap(OnTap(s, t, a).0, t, b) == (OnTap(s, t, a).0, None)
  {
  }

  /** The game invariant: input is locked exactly while a timer is pending,
      and the counter is below the quota unless a level-up is pending. */
  ghost predicate Valid(s: State, t: Tier) {
    && 0 <= s.count
    && (s.locked <==> s.pending != Idle)
    && (s.pending.LevelUp? <==> s.count >= Needed(s.level, t))
    && (s.pending.LevelUp? ==> s.pending.newLevel == s.level + 1)
  }

  lemma TapKeepsValid(s: State, t: Tier, animal: nat)
    requires Valid(s, t)
    ensures Valid(OnTap(s, t, animal).0, t)
  {
  }

  lemma FireKeepsValid(s: State, t: Tier, d: RoundDraws)
    requires Valid(s, t) && Enough(d)
    ensures Valid(Fire(s, t, d), t)
  {
  }

  /** One correct answer, then, short of the quota, its timer: the next
      question is open, one more answer is counted and the level is kept.
      Reaching the quota saves the level and leaves the level-up pending. */
  function Answer(s: State, t: Tier, d: RoundDraws): (r: (State, Option<Save>))
    requires s.target.Some? && Enough(d)
    ensures r.0.target.Some?
    ensures !s.locked && Valid(s, t) ==>
      && (r.1.Some? <==> s.count + 1 >= Needed(s.level, t))
      && (r.1.None? ==> !r.0.locked && Valid(r.0, t) && r.0.count == s.count + 1 && r.0.level == s.level)
  {
    var r := OnTap(s, t, s.target.value);
    if r.1.Some? then r else (Fire(r.0, t, d), None)
  }

  /** Answers each question correctly and lets its timer fire, until a
      level is won. */
  function AnswerAll(s: State, t: Tier, ds: seq<RoundDraws>): (r: (State, bool))
    requires s.target.Some?
    requires forall i | 0 <= i < |ds| :: Enough(ds[i])
    decreases |ds|
  {
    if |ds| == 0 then (s, false)
    else
      var r := Answer(s, t, ds[0]);
      if r.1.Some? then (r.0, true) else AnswerAll(r.0, t, ds[1..])
  }

  /** From an unlocked valid state, `needed - count` correct answers win the
      level. */
  lemma {:induction false} NeededAnswersWin(s: State, t: Tier, ds: seq<RoundDraws>)
    requires s.target.Some? && !s.locked && Valid(s, t)
    requires forall i | 0 <= i < |ds| :: Enough(ds[i])
    requires |ds| >= Needed(s.level, t) - s.count
    ensures AnswerAll(s, t, ds).1
    decreases |ds|
  {
    var r := Answer(s, t, ds[0]);
    if r.1.None? {
      NeededAnswersWin(r.0, t, ds[1..]);
    }
  }
}
