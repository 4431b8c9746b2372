/** Code Blocks: the child assembles a program of `MOVE` and `TURN` blocks
    and runs it; the robot walks the level's grid from its start cell facing
    right and wins on reaching the star. */
module CodeBlocks {
  import opened Common

  datatype Block = Move | Turn

  datatype Pos = Pos(row: int, col: int)

  datatype Level = Level(id: int, blocks: seq<Block>, rows: int, cols: int, start: Pos, star: Pos)

  /** The level table. */
  const Levels: seq<Level> := [
    Level(1, [Move], 3, 3, Pos(1, 0), Pos(1, 2)),
    Level(2, [Move, Turn], 3, 3, Pos(0, 0), Pos(2, 2))
  ]

  predicate InBounds(l: Level, p: Pos) {
    0 <= p.row < l.rows && 0 <= p.col < l.cols
  }

  /** One `MOVE` in direction `dir` (0 right, 1 down, 2 left, 3 up). */
  function Step(p: Pos, dir: int): (q: Pos)
    requires 0 <= dir < 4
    ensures dir == 0 ==> q == Pos(p.row, p.col + 1)
    ensures dir == 1 ==> q == Pos(p.row + 1, p.col)
    ensures dir == 2 ==> q == Pos(p.row, p.col - 1)
    ensures dir == 3 ==> q == Pos(p.row - 1, p.col)
  {
    if dir == 0 then p.(col := p.col + 1)
    else if dir == 1 then p.(row := p.row + 1)
    else if dir == 2 then p.(col := p.col - 1)
    else p.(row := p.row - 1)
  }

  /** A `MOVE` changes exactly one coordinate, by exactly one. */
  lemma StepIsUnitMove(p: Pos, dir: int)
    requires 0 <= dir < 4
    ensures var q := Step(p, dir);
      (q.row == p.row && (q.col - p.col == 1 || p.col - q.col == 1))
      || (q.col == p.col && (q.row - p.row == 1 || p.row - q.row == 1))
  {
  }

  /** How a run ends: the robot left the grid at `at`, or the program ran out
      with the robot at `pos` facing `dir`, having visited `path`. */
  datatype Outcome = OutOfBounds(at: Pos) | Finished(pos: Pos, dir: int, path: seq<Pos>)

  /** The `for (const block of program)` loop from position `pos` facing `dir`. */
  function Exec(l: Level, program: seq<Block>, pos: Pos, dir: int): (o: Outcome)
    requires 0 <= dir < 4
    ensures o.Finished? ==> 0 <= o.dir < 4
    ensures o.Finished? ==> forall i | 0 <= i < |o.path| :: InBounds(l, o.path[i])
    ensures o.Finished? && InBounds(l, pos) ==> InBounds(l, o.pos)
    ensures o.OutOfBounds? ==> !InBounds(l, o.at)
    ensures program == [] ==> o == Finished(pos, dir, [])
    decreases |program|
  {
    if program == [] then Finished(pos, dir, [])
    else match program[0]
      case Move =>
        var q := Step(pos, dir);
        if !InBounds(l, q) then OutOfBounds(q)
        else
          var rest := Exec(l, program[1..], q, dir);
          if rest.OutOfBounds? then rest else Finished(rest.pos, rest.dir, [q] + rest.path)
      case Turn => Exec(l, program[1..], pos, (dir + 1) % 4)
  }

  /** A `TURN` rotates clockwise and leaves the position where it is. */
  lemma TurnKeepsPosition(l: Level, rest: seq<Block>, pos: Pos, dir: int)
    requires 0 <= dir < 4
    ensures Exec(l, [Turn] + rest, pos, dir) == Exec(l, rest, pos, (dir + 1) % 4)
    ensures Exec(l, [Turn], pos, dir) == Finished(pos, (dir + 1) % 4, [])
  {
    assert ([Turn] + rest)[1..] == rest;
    assert [Turn][1..] == [];
  }

  /** The positions visited from an in-bounds start are in bounds, and a run
      that ends at `o.pos` ends at the last position visited. */
  lemma {:induction false} FinishedAtLastStep(l: Level, program: seq<Block>, pos: Pos, dir: int)
    requires 0 <= dir < 4
    ensures var o := Exec(l, program, pos, dir);
      o.Finished? ==> o.pos == (if |o.path| == 0 then pos else o.path[|o.path| - 1])
    decreases |program|
  {
    if program != [] {
      match program[0]
      case Move =>
        var q := Step(pos, dir);
        if InBounds(l, q) {
          FinishedAtLastStep(l, program[1..], q, dir);
        }
      case Turn =>
        FinishedAtLastStep(l, program[1..], pos, (dir + 1) % 4);
    }
  }

  datatype State = State(
    currentLevel: nat, score: int, program: seq<Block>, robotPos: Pos, robotDir: int)

  /** `resetLevel()`: the robot back at the start facing right, the program
      emptied. */
  function ResetLevel(s: State): (r: State)
    requires s.currentLevel < |Levels|
    ensures r.robotPos == Levels[s.currentLevel].start && r.robotDir == 0 && r.program == []
    ensures r.currentLevel == s.currentLevel && r.score == s.score
  {
    s.(robotPos := Levels[s.currentLevel].start, robotDir := 0, program := [])
  }

  /** `addBlock(block)`. */
  function AddBlock(s: State, b: Block): (r: State)
    ensures r.program == s.program + [b]
    ensures r == s.(program := r.program)
  {
    s.(program := s.program + [b])
  }

  /** `removeLastBlock()`: `slice(0, -1)`, which is empty on an empty program. */
  function RemoveLastBlock(s: State): (r: State)
    ensures |s.program| == 0 ==> r == s
    ensures |s.program| > 0 ==> r.program + [s.program[|s.program| - 1]] == s.program
    ensures r == s.(program := r.program)
  {
    if |s.program| == 0 then s else s.(program := s.program[..|s.program| - 1])
  }

  lemma RemoveUndoesAdd(s: State, b: Block)
    ensures RemoveLastBlock(AddBlock(s, b)) == s
  {
    assert (s.program + [b])[..|s.program|] == s.program;
  }

  /** `runProgram()`: execute from the level's start facing right; reaching
      the star saves the next level (1-based), the score plus 50 and three
      stars. Whatever happens the level is reset afterwards. */
  function RunProgram(s: State): (r: (State, Option<Save>))
    requires s.currentLevel < |Levels|
    ensures var l := Levels[s.currentLevel];
      var o := Exec(l, s.program, l.start, 0);
      && (r.1.Some? <==> o.Finished? && o.pos == l.star)
      && (r.1.Some? ==> r.1.value == Save(s.currentLevel + 2, s.score + 50, 3) && r.0.score == s.score + 50)
      && (r.1.None? ==> r.0.score == s.score)
    ensures r.0.program == [] && r.0.robotDir == 0 && r.0.robotPos == Levels[s.currentLevel].start
    ensures r.0.currentLevel == s.currentLevel
  {
    var l := Levels[s.currentLevel];
    var o := Exec(l, s.program, l.start, 0);
    if o.Finished? && o.pos == l.star then
      var score := s.score + 50;
      (ResetLevel(s.(score := score)), Some(Save(s.currentLevel + 2, score, 3)))
    else
      (ResetLevel(s), None)
  }

  /** The run ignores where the robot is drawn and which way it faces. */
  lemma RunIgnoresDisplayedRobot(s: State, p: Pos, d: int)
    requires s.currentLevel < |Levels|
    ensures RunProgram(s.(robotPos := p, robotDir := d)) == RunProgram(s)
  {
  }

  /** The `Next Level` button of the success alert. */
  function NextLevel(s: State): (r: State)
    ensures r.currentLevel == s.currentLevel + 1 && r.score == s.score
  {
    var t := s.(currentLevel := s.currentLevel + 1);
    if t.currentLevel < |Levels| then ResetLevel(t) else t
  }

  /** Each level is solvable with the blocks it offers. */
  lemma LevelsSolvable(score: int, p: Pos, d: int)
    ensures RunProgram(State(0, score, [Move, Move], p, d)).1 == Some(Save(2, score + 50, 3))
    ensures RunProgram(State(1, score, [Move, Move, Turn, Move, Move], p, d)).1 == Some(Save(3, score + 50, 3))
  {
    var l0 := Levels[0];
    assert Exec(l0, [Move], Pos(1, 1), 0) == Finished(Pos(1, 2), 0, [Pos(1, 2)]);
    assert Exec(l0, [Move, Move], Pos(1, 0), 0).pos == Pos(1, 2);
    var l1 := Levels[1];
    var p1 := [Move, Move, Turn, Move, Move];
    assert Exec(l1, [Move], Pos(1, 2), 1).pos == Pos(2, 2);
    assert Exec(l1, p1[3..], Pos(0, 2), 1).pos == Pos(2, 2);
    assert Exec(l1, p1[2..], Pos(0, 2), 0).pos == Pos(2, 2);
    assert Exec(l1, p1[1..], Pos(0, 1), 0).pos == Pos(2, 2);
  }

  /** Walking off the grid fails the run and saves nothing. */
  lemma LeavingGridFails(score: int)
    ensures RunProgram(State(0, score, [Move, Move, Move], Pos(0, 0), 0)).1 == None
    ensures Exec(Levels[0], [Move, Move, Move], Pos(1, 0), 0) == OutOfBounds(Pos(1, 3))
  {
    var l0 := Levels[0];
    assert Exec(l0, [Move], Pos(1, 2), 0) == OutOfBounds(Pos(1, 3));
    assert Exec(l0, [Move, Move], Pos(1, 1), 0) == OutOfBounds(Pos(1, 3));
  }
}
