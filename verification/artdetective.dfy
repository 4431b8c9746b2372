/** Art Detective: a grid of shapes; the child taps every copy of the
    target shape. A shape is its index in the ten-shape table; a found
    cell shows a check mark. */
module ArtDetective {
  import opened Common
  import MathUtil

  const ShapeCount := 10

  datatype Cell = Shape(kind: nat) | Found

  /** `n` copies of `c`. */
  function Repeat(c: Cell, n: nat): (r: seq<Cell>)
    ensures |r| == n && multiset(r)[c] == n
    ensures forall i | 0 <= i < n :: r[i] == c
  {
    if n == 0 then [] else [c] + Repeat(c, n - 1)
  }

  /** The value the `do … while (randomShape === target)` loop accepts: a
      shape other than the target. */
  function OtherShape(target: nat, d: nat): (k: nat)
    requires target < ShapeCount
    ensures k < ShapeCount && k != target
  {
    var k := d % (ShapeCount - 1);
    if k < target then k else k + 1
  }

  function OtherCells(target: nat, draws: seq<nat>): (r: seq<Cell>)
    requires target < ShapeCount
    ensures |r| == |draws| && Shape(target) !in r && Found !in r
    ensures forall i | 0 <= i < |r| :: r[i].Shape? && r[i].kind < ShapeCount
  {
    seq(|draws|, i requires 0 <= i < |draws| => Shape(OtherShape(target, draws[i])))
  }

  /** The random choices of one `generateLevel()`. */
  datatype LevelDraws = LevelDraws(target: nat, others: seq<nat>, shuffle: seq<nat>)

  predicate Enough(level: int, d: LevelDraws) {
    level >= 0 && |d.others| >= 13 + 3 * level && |d.shuffle| + 1 >= 16 + 4 * level
  }

  /** The cells before the shuffle: the copies of the target, then the
      other shapes. */
  function Unshuffled(level: int, target: nat, others: seq<nat>): (c: seq<Cell>)
    requires level >= 0 && target < ShapeCount && |others| == 13 + 3 * level
    ensures |c| == 16 + 4 * level
    ensures multiset(c)[Shape(target)] == 3 + level && multiset(c)[Found] == 0
    ensures forall i | 0 <= i < |c| :: c[i].Shape? && c[i].kind < ShapeCount
  {
    var targets := Repeat(Shape(target), 3 + level);
    var rest := OtherCells(target, others);
    assert multiset(targets + rest) == multiset(targets) + multiset(rest);
    targets + rest
  }

  /** The board: the shuffled cells. */
  function BoardFor(level: int, target: nat, others: seq<nat>, shuffle: seq<nat>): (b: seq<Cell>)
    requires level >= 0 && target < ShapeCount
    requires |others| == 13 + 3 * level && |shuffle| + 1 >= 16 + 4 * level
    ensures |b| == 16 + 4 * level
    ensures multiset(b)[Shape(target)] == 3 + level && Found !in b
    ensures multiset(b) == multiset(Unshuffled(level, target, others))
  {
    MathUtil.Shuffle(Unshuffled(level, target, others), shuffle)
  }

  /** `generateLevel()` for `level`: `3 + level` copies of the target and
      other shapes up to `16 + 4 * level` cells, then shuffled. */
  function GenerateLevel(level: int, d: LevelDraws): (r: (seq<Cell>, nat))
    requires Enough(level, d)
    ensures r.1 < ShapeCount
    ensures |r.0| == 16 + 4 * level
    ensures multiset(r.0)[Shape(r.1)] == 3 + level
    ensures Found !in r.0
  {
    var target := MathUtil.Random(0, ShapeCount - 1, d.target);
    (BoardFor(level, target, d.others[..13 + 3 * level], d.shuffle), target)
  }

  datatype State = State(level: int, score: int, board: seq<Cell>, target: nat, found: int)

  /** Copies of the target still on the board. */
  function Left(s: State): nat {
    multiset(s.board)[Shape(s.target)]
  }

  /** The state after the reward delay: the next level, with a new board
      drawn by the `generateLevel` of the render that made the winning tap,
      so for the level before the level-up. */
  function NextLevel(s: State, score: int, d: LevelDraws): (r: State)
    requires Enough(s.level, d)
    ensures r.level == s.level + 1 && r.score == score && r.found == 0
    ensures Left(r) == 3 + s.level
  {
    var (board, target) := GenerateLevel(s.level, d);
    State(s.level + 1, score, board, target, 0)
  }

  /** `handleShapePress(shape, index)` on cell `index`. A tap on a target
      copy turns it into a check mark, counts it and scores 10; the level is
      complete when the new found count equals the number of copies that
      were on the board before this tap. Any other tap, a check mark
      included, changes nothing. */
  function Press(s: State, index: int, d: LevelDraws): (r: (State, Option<Save>))
    requires 0 <= index < |s.board| && Enough(s.level, d)
    ensures s.board[index] != Shape(s.target) ==> r == (s, None)
    ensures s.board[index] == Shape(s.target) ==>
      && r.0.score == s.score + 10
      && (r.1.Some? <==> s.found + 1 == Left(s))
      && (r.1.Some? ==> r.1.value == Save(s.level + 1, s.score + 10, LevelStars(s.level))
                        && r.0 == NextLevel(s, s.score + 10, d))
      && (r.1.None? ==> r.0 == s.(board := s.board[index := Found], found := s.found + 1, score := s.score + 10))
  {
    if s.board[index] != Shape(s.target) then (s, None)
    else
      var score := s.score + 10;
      var found := s.found + 1;
      if found == Left(s) then
        (NextLevel(s, score, d), Some(Save(s.level + 1, score, LevelStars(s.level))))
      else (s.(board := s.board[index := Found], found := found, score := score), None)
  }

  /** A found copy leaves the board: one target fewer, one check mark more. */
  lemma PressRemovesOne(s: State, index: int)
    requires 0 <= index < |s.board| && s.board[index] == Shape(s.target)
    ensures Left(s.(board := s.board[index := Found])) == Left(s) - 1
  {
  }

  /** With `total` copies at the start of a board, found plus left stays
      `total` while the board lasts. */
  ghost predicate OnBoard(s: State, total: int) {
    s.found >= 0 && s.found + Left(s) == total
  }

  /** The completion test fires on a target tap exactly when
      `2 * found + 1 == total`: only for an odd total, half-way through. */
  lemma CompletesHalfWay(s: State, index: int, d: LevelDraws, total: int)
    requires 0 <= index < |s.board| && Enough(s.level, d) && OnBoard(s, total)
    requires s.board[index] == Shape(s.target)
    ensures Press(s, index, d).1.Some? <==> 2 * s.found + 1 == total
  {
  }

  /** Any sequence of taps on cells of the board (out-of-range cells
      ignored). */
  function Presses(s: State, taps: seq<int>, d: LevelDraws): (r: (State, bool))
    requires Enough(s.level, d)
    decreases |taps|
  {
    if |taps| == 0 then (s, false)
    else if !(0 <= taps[0] < |s.board|) then Presses(s, taps[1..], d)
    else
      var r := Press(s, taps[0], d);
      if r.1.Some? then (r.0, true) else Presses(r.0, taps[1..], d)
  }

  /** A tap that does not complete the level keeps the balance. */
  lemma PressKeepsBalance(s: State, index: int, d: LevelDraws, total: int)
    requires 0 <= index < |s.board| && Enough(s.level, d) && OnBoard(s, total)
    requires Press(s, index, d).1.None?
    ensures OnBoard(Press(s, index, d).0, total)
    ensures Press(s, index, d).0.level == s.level
  {
    if s.board[index] == Shape(s.target) {
      PressRemovesOne(s, index);
    }
  }

  lemma NotOdd(a: int, b: int)
    ensures 2 * a + 1 != 2 * b
  {
  }

  lemma PressOnEvenBoard(s: State, index: int, d: LevelDraws, half: int)
    requires 0 <= index < |s.board| && Enough(s.level, d) && OnBoard(s, 2 * half)
    ensures Press(s, index, d).1.None?
    ensures OnBoard(Press(s, index, d).0, 2 * half) && Press(s, index, d).0.level == s.level
  {
    if s.board[index] == Shape(s.target) {
      NotOdd(s.found, half);
      CompletesHalfWay(s, index, d, 2 * half);
    }
    PressKeepsBalance(s, index, d, 2 * half);
  }

  /** A board with an even number of copies is never completed, whatever
      is tapped: the found count passes `total / 2` without the test firing
      and the board runs out of targets. */
  lemma {:induction false} EvenBoardNeverCompletes(s: State, taps: seq<int>, d: LevelDraws, half: int)
    requires Enough(s.level, d) && OnBoard(s, 2 * half)
    ensures !Presses(s, taps, d).1
    decreases |taps|
  {
    if |taps| > 0 {
      if 0 <= taps[0] < |s.board| {
        var r := Press(s, taps[0], d);
        PressOnEvenBoard(s, taps[0], d, half);
        EvenBoardNeverCompletes(r.0, taps[1..], d, half);
      } else {
        EvenBoardNeverCompletes(s, taps[1..], d, half);
      }
    }
  }

  /** The board drawn when the game opens is generated for the initial
      level 1, whatever level was stored: four copies, so the game is never
      won. */
  lemma OpeningBoardNeverCompletes(score: int, stored: int, d: LevelDraws, taps: seq<int>, e: LevelDraws)
    requires Enough(1, d) && Enough(stored, e)
    ensures var (board, target) := GenerateLevel(1, d);
      !Presses(State(stored, score, board, target, 0), taps, e).1
  {
    var (board, target) := GenerateLevel(1, d);
    EvenBoardNeverCompletes(State(stored, score, board, target, 0), taps, e, 2);
  }

  /** The evidently intended test: the level is complete when the tap
      removes the last copy from the board. */
  function PressFixed(s: State, index: int, d: LevelDraws): (r: (State, Option<Save>))
    requires 0 <= index < |s.board| && Enough(s.level, d)
    ensures s.board[index] != Shape(s.target) ==> r == (s, None)
    ensures s.board[index] == Shape(s.target) ==>
      && r.0.score == s.score + 10
      && (r.1.Some? <==> Left(s) == 1)
      && (r.1.Some? ==> r.1.value == Save(s.level + 1, s.score + 10, LevelStars(s.level))
                        && r.0 == NextLevel(s, s.score + 10, d))
      && (r.1.None? ==> r.0 == s.(board := s.board[index := Found], found := s.found + 1, score := s.score + 10))
  {
    if s.board[index] != Shape(s.target) then (s, None)
    else
      var score := s.score + 10;
      if Left(s) == 1 then
        (NextLevel(s, score, d), Some(Save(s.level + 1, score, LevelStars(s.level))))
      else (s.(board := s.board[index := Found], found := s.found + 1, score := score), None)
  }

  /** The position of the first copy of `c`. */
  function FirstIndex(b: seq<Cell>, c: Cell): (i: nat)
    requires c in b
    ensures i < |b| && b[i] == c
  {
    if b[0] == c then 0 else 1 + FirstIndex(b[1..], c)
  }

  /** Taps a remaining copy of the target until the level is won; also
      returns the number of taps. */
  function FindAllFixed(s: State, d: LevelDraws): (r: (State, bool, nat))
    requires Enough(s.level, d)
    decreases Left(s)
  {
    if Left(s) == 0 then (s, false, 0)
    else
      var i := FirstIndex(s.board, Shape(s.target));
      var r := PressFixed(s, i, d);
      PressRemovesOne(s, i);
      if r.1.Some? then (r.0, true, 1)
      else
        var rest := FindAllFixed(r.0, d);
        (rest.0, rest.1, rest.2 + 1)
  }

  /** With the intended test, a board with copies left is won after exactly
      as many taps as there are copies. */
  lemma {:induction false} FixedFindsAll(s: State, d: LevelDraws)
    requires Enough(s.level, d) && Left(s) > 0
    ensures FindAllFixed(s, d).1 && FindAllFixed(s, d).2 == Left(s)
    decreases Left(s)
  {
    var i := FirstIndex(s.board, Shape(s.target));
    var r := PressFixed(s, i, d);
    PressRemovesOne(s, i);
    if r.1.None? {
      FixedFindsAll(r.0, d);
    }
  }
}
