/** Logic Town: the child places five buildings on a 5×5 grid (cells 0 to
    24, row-major, row 4 the ground). A building needs the ground or a stable
    building directly below it. */
module LogicTown {
  import opened Common

  const GridSize := 5

  datatype Building = Building(kind: string, position: int, stable: bool)

  /** The five building kinds a town starts with. */
  const Kinds: seq<string> := ["\U{1F3E0}", "\U{1F3E2}", "\U{1F3EA}", "\U{1F3EB}", "\U{1F3E5}"]

  datatype State = State(
    level: int, score: int, buildings: seq<Building>, available: seq<string>, selected: Option<string>)

  /** Why a tap on a cell was refused, or that it placed a building. */
  datatype Placement = NoSelection | Occupied | Unstable | Placed

  predicate OccupiedAt(bs: seq<Building>, pos: int) {
    exists i | 0 <= i < |bs| :: bs[i].position == pos
  }

  /** The support rule: the ground row, or a stable building one row down. */
  predicate Supported(bs: seq<Building>, pos: int) {
    pos >= GridSize * 4 || exists i | 0 <= i < |bs| :: bs[i].position == pos + GridSize && bs[i].stable
  }

  /** `selectBuilding(kind)`. */
  function SelectBuilding(s: State, kind: string): (r: State)
    ensures r == s.(selected := Some(kind))
  {
    s.(selected := Some(kind))
  }

  /** `resetTown()`. */
  function ResetTown(s: State): (r: State)
    ensures r.buildings == [] && r.available == Kinds && r.selected == None
    ensures r.level == s.level && r.score == s.score
  {
    s.(buildings := [], available := Kinds, selected := None)
  }

  /** `placeBuilding(position)` together with the `completeLevel()` it may
      start. On completion the score saved and shown is the score before
      this placement plus 50 (`completeLevel` reads the score of the render
      that made the tap), and after the reward delay the town is reset on
      the next level. */
  function PlaceBuilding(s: State, pos: int): (r: (State, Placement, Option<Save>))
    ensures s.selected.None? ==> r == (s, NoSelection, None)
    ensures s.selected.Some? && OccupiedAt(s.buildings, pos) ==> r == (s, Occupied, None)
    ensures r.1 == Placed <==> s.selected.Some? && !OccupiedAt(s.buildings, pos) && Supported(s.buildings, pos)
    ensures r.1 != Placed ==> r.0 == s && r.2 == None
    ensures r.1 == Placed ==>
      var avail := RemoveFirst(s.available, s.selected.value);
      && (r.2.Some? <==> |avail| == 0)
      && (r.2.Some? ==> r.2.value == Save(s.level + 1, s.score + 50, LevelStars(s.level))
                        && r.0 == ResetTown(s).(level := s.level + 1, score := s.score + 50))
      && (r.2.None? ==> r.0 == s.(buildings := s.buildings + [Building(s.selected.value, pos, true)],
                                  score := s.score + 10, available := avail, selected := None))
  {
    if s.selected.None? then (s, NoSelection, None)
    else if OccupiedAt(s.buildings, pos) then (s, Occupied, None)
    else if !Supported(s.buildings, pos) then (s, Unstable, None)
    else
      var kind := s.selected.value;
      var placed := s.(buildings := s.buildings + [Building(kind, pos, true)], score := s.score + 10,
                       available := RemoveFirst(s.available, kind), selected := None);
      if |placed.available| == 0 then
        var score := s.score + 50;
        (ResetTown(placed).(level := s.level + 1, score := score),
         Placed, Some(Save(s.level + 1, score, LevelStars(s.level))))
      else (placed, Placed, None)
  }

  /** The town invariant: cells on the grid, distinct, every building
      stable and held up, the selection one of the remaining kinds, and
      placed plus remaining buildings adding up to the five kinds. */
  ghost predicate Valid(s: State) {
    && (forall i | 0 <= i < |s.buildings| :: 0 <= s.buildings[i].position < GridSize * GridSize)
    && (forall i, j | 0 <= i < j < |s.buildings| :: s.buildings[i].position != s.buildings[j].position)
    && (forall i | 0 <= i < |s.buildings| :: s.buildings[i].stable)
    && (forall i | 0 <= i < |s.buildings| :: Supported(s.buildings, s.buildings[i].position))
    && (s.selected.Some? ==> s.selected.value in s.available)
    && |s.buildings| + |s.available| == |Kinds|
  }

  lemma ResetIsValid(s: State)
    ensures Valid(ResetTown(s))
  {
  }

  lemma SupportedGrows(bs: seq<Building>, b: Building, pos: int)
    requires Supported(bs, pos)
    ensures Supported(bs + [b], pos)
  {
    if pos < GridSize * 4 {
      var i :| 0 <= i < |bs| && bs[i].position == pos + GridSize && bs[i].stable;
      assert (bs + [b])[i] == bs[i];
    }
  }

  /** Every accepted or refused tap on a grid cell keeps the invariant, and
      selecting one of the remaining kinds does too. */
  lemma PlacePreservesValid(s: State, pos: int)
    requires Valid(s) && 0 <= pos < GridSize * GridSize
    ensures Valid(PlaceBuilding(s, pos).0)
  {
    var r := PlaceBuilding(s, pos);
    if r.1 == Placed && r.2.None? {
      PlacedIsValid(s, pos);
    } else if r.1 == Placed {
      ResetIsValid(s);
    }
  }

  /** A building placed on a free, held-up cell keeps the invariant. */
  lemma PlacedIsValid(s: State, pos: int)
    requires Valid(s) && 0 <= pos < GridSize * GridSize && s.selected.Some?
    requires !OccupiedAt(s.buildings, pos) && Supported(s.buildings, pos)
    ensures Valid(s.(buildings := s.buildings + [Building(s.selected.value, pos, true)], score := s.score + 10,
                     available := RemoveFirst(s.available, s.selected.value), selected := None))
  {
    var b := Building(s.selected.value, pos, true);
    var bs := s.buildings + [b];
    forall i | 0 <= i < |bs|
      ensures Supported(bs, bs[i].position)
    {
      if i < |s.buildings| {
        SupportedGrows(s.buildings, b, s.buildings[i].position);
      } else {
        SupportedGrows(s.buildings, b, pos);
      }
    }
    AppendKeepsDistinct(s.buildings, b);
  }

  /** A building on a cell no other occupies keeps the cells distinct. */
  lemma AppendKeepsDistinct(bs: seq<Building>, b: Building)
    requires forall i, j | 0 <= i < j < |bs| :: bs[i].position != bs[j].position
    requires !OccupiedAt(bs, b.position)
    ensures var u := bs + [b];
      forall i, j | 0 <= i < j < |u| :: u[i].position != u[j].position
  {
    assert forall i | 0 <= i < |bs| :: bs[i].position != b.position;
  }

  lemma SelectPreservesValid(s: State, kind: string)
    requires Valid(s) && kind in s.available
    ensures Valid(SelectBuilding(s, kind))
  {
  }

  /** In a valid town the level completes exactly on the placement that
      makes the fifth building. */
  lemma CompletesOnFifth(s: State, pos: int)
    requires Valid(s)
    requires PlaceBuilding(s, pos).1 == Placed
    ensures PlaceBuilding(s, pos).2.Some? <==> |s.buildings| + 1 == |Kinds|
  {
  }

  /** A placement above an empty cell is refused, and the ground accepts. */
  lemma GroundFirst(s: State, kind: string)
    requires s.buildings == []
    ensures PlaceBuilding(SelectBuilding(s, kind), 0).1 == Unstable
    ensures PlaceBuilding(SelectBuilding(s, kind), 20).1 == Placed
  {
  }
}
