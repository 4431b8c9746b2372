/** Color Match Parade: a row of eight animals in coloured boxes; the child
    taps the boxes of the target colour. Colours are indices into the
    six-colour table (red, blue, green, yellow, purple, orange); an animal is
    an index into its colour's five-animal list. */
module ColorMatch {
  import opened Common
  import opened Difficulty

  const ColorCount := 6
  const AnimalsPerColor := 5
  const ParadeLength := 8

  /** `baseNeeded(level)`. */
  function BaseNeeded(level: int): (r: int)
    ensures level <= 1 ==> r == 3
    ensures level == 2 ==> r == 4
    ensures level >= 3 ==> r == 5
  {
    if level <= 1 then 3 else if level <= 2 then 4 else 5
  }

  /** `getNeededPerLevel(level)`. */
  function Needed(level: int, t: Tier): (r: int)
    ensures r >= 2
    ensures t == Normal ==> r == BaseNeeded(level)
  {
    ScaleNeeded(BaseNeeded(level), t)
  }

  datatype Item = Item(animal: nat, color: nat)

  /** `otherColors[d % 5]`: the colours other than `target`, in table order. */
  function OtherColor(target: nat, d: nat): (c: nat)
    requires target < ColorCount
    ensures c < ColorCount && c != target
  {
    var k := d % (ColorCount - 1);
    if k < target then k else k + 1
  }

  /** The random choices of one `startParade()`: the target colour and one
      other colour for each odd position. */
  datatype ParadeDraws = ParadeDraws(color: nat, others: seq<nat>)

  predicate Enough(d: ParadeDraws) {
    |d.others| >= ParadeLength / 2
  }

  /** The loop `for (i = 0; i < 8; i++)` of `startParade`: even positions
      take the target colour, odd position `k` the colour picked by the
      `k / 2`-th draw; the animal at position `k` is number `k % 5` of its
      colour's list. */
  function Row(target: nat, others: seq<nat>): (r: seq<Item>)
    requires target < ColorCount && |others| >= ParadeLength / 2
    ensures |r| == ParadeLength
    ensures forall k | 0 <= k < |r| :: (k % 2 == 0 <==> r[k].color == target)
    ensures forall k | 0 <= k < |r| :: r[k].color < ColorCount && r[k].animal == k % AnimalsPerColor
  {
    seq(ParadeLength, k requires 0 <= k < ParadeLength =>
      if k % 2 == 0 then Item(k % AnimalsPerColor, target)
      else Item(k % AnimalsPerColor, OtherColor(target, others[k / 2])))
  }

  /** The number of items of colour `c`. */
  function CountColor(row: seq<Item>, c: nat): nat {
    if |row| == 0 then 0 else (if row[0].color == c then 1 else 0) + CountColor(row[1..], c)
  }

  lemma {:induction false} CountAlternating(row: seq<Item>, c: nat, parity: nat)
    requires parity < 2
    requires forall k | 0 <= k < |row| :: ((parity + k) % 2 == 0 <==> row[k].color == c)
    ensures CountColor(row, c) == (|row| + 1 - parity) / 2
  {
    if |row| > 0 {
      var rest := row[1..];
      assert forall k | 0 <= k < |rest| :: (((1 - parity) + k) % 2 == 0 <==> rest[k].color == c) by {
        forall k | 0 <= k < |rest| ensures (((1 - parity) + k) % 2 == 0 <==> rest[k].color == c) {
          assert rest[k] == row[k + 1];
          assert (parity + (k + 1)) % 2 == ((1 - parity) + k) % 2 || parity + k + 1 == (1 - parity) + k + 2 * parity;
        }
      }
      CountAlternating(rest, c, 1 - parity);
    }
  }

  datatype State = State(level: int, score: int, target: nat, parade: seq<Item>, hits: int)

  /** `startParade()`: a new target and row, and the hit counter cleared. */
  function StartParade(s: State, d: ParadeDraws): (r: State)
    requires Enough(d)
    ensures r.target < ColorCount && |r.parade| == ParadeLength
    ensures forall k | 0 <= k < ParadeLength :: (k % 2 == 0 <==> r.parade[k].color == r.target)
    ensures r.hits == 0 && r.level == s.level && r.score == s.score
  {
    var target := d.color % ColorCount;
    s.(target := target, parade := Row(target, d.others), hits := 0)
  }

  /** Exactly four of the eight items carry the target colour. */
  lemma FourTargets(s: State, d: ParadeDraws)
    requires Enough(d)
    ensures CountColor(StartParade(s, d).parade, StartParade(s, d).target) == 4
  {
    var r := StartParade(s, d);
    CountAlternating(r.parade, r.target, 0);
  }

  /** `onTapAnimal(color)`. The third component says whether a
      `startParade()` is scheduled: after every correct tap, and on
      level-up after the level has been raised and the hits cleared. */
  function Tap(s: State, t: Tier, color: nat): (r: (State, Option<Save>, bool))
    ensures color != s.target ==> r == (s, None, false)
    ensures color == s.target ==> r.0.score == s.score + 10 && r.2
    ensures r.1.Some? <==> color == s.target && s.hits + 1 >= Needed(s.level, t)
    ensures r.1.Some? ==> (r.1.value == Save(s.level + 1, s.score + 10, LevelStars(s.level))
      && r.0.level == s.level + 1 && r.0.hits == 0)
    ensures color == s.target && r.1.None? ==> r.0 == s.(score := s.score + 10, hits := s.hits + 1)
  {
    if color != s.target then (s, None, false)
    else
      var score := s.score + 10;
      var hits := s.hits + 1;
      if hits >= Needed(s.level, t) then
        (s.(score := score, level := s.level + 1, hits := 0), Some(Save(s.level + 1, score, LevelStars(s.level))), true)
      else (s.(score := score, hits := hits), None, true)
  }

  /** A tap followed by the refresh it schedules. */
  function Round(s: State, t: Tier, color: nat, d: ParadeDraws): (r: (State, Option<Save>))
    requires Enough(d)
  {
    var (u, save, refresh) := Tap(s, t, color);
    (if refresh then StartParade(u, d) else u, save)
  }

  /** As written, the refresh after a correct tap clears the hits, so a round
      starting from zero hits ends at zero hits and never levels up: every
      threshold is at least 2. */
  lemma RoundStaysAtZero(s: State, t: Tier, color: nat, d: ParadeDraws)
    requires Enough(d) && s.hits == 0
    ensures Round(s, t, color, d).1 == None
    ensures Round(s, t, color, d).0.hits == 0 && Round(s, t, color, d).0.level == s.level
  {
  }

  /** Play any sequence of taps, each followed by its refresh. */
  function Rounds(s: State, t: Tier, taps: seq<nat>, ds: seq<ParadeDraws>): (r: (State, bool))
    requires |ds| >= |taps| && forall i | 0 <= i < |ds| :: Enough(ds[i])
    decreases |taps|
  {
    if |taps| == 0 then (s, false)
    else
      var (u, save) := Round(s, t, taps[0], ds[0]);
      var (v, saved) := Rounds(u, t, taps[1..], ds[1..]);
      (v, save.Some? || saved)
  }

  /** With tap-then-refresh sequencing the level is never won, whatever is
      tapped. */
  lemma {:induction false} RoundsNeverLevelUp(s: State, t: Tier, taps: seq<nat>, ds: seq<ParadeDraws>)
    requires |ds| >= |taps| && forall i | 0 <= i < |ds| :: Enough(ds[i])
    requires s.hits == 0
    ensures !Rounds(s, t, taps, ds).1
    ensures Rounds(s, t, taps, ds).0.level == s.level
    decreases |taps|
  {
    if |taps| > 0 {
      RoundStaysAtZero(s, t, taps[0], ds[0]);
      RoundsNeverLevelUp(Round(s, t, taps[0], ds[0]).0, t, taps[1..], ds[1..]);
    }
  }

  /** The refresh waits 800 ms, and the boxes stay tappable meanwhile. Two
      taps on the target inside that window both count, because the second
      tap's render already holds the first hit: on easy at level 1, where
      two hits are needed, the second tap wins the level before any refresh
      has cleared the hits. */
  lemma QuickTapsLevelUp(s: State)
    requires s.hits == 0 && s.level <= 1
    ensures var (u, save, refresh) := Tap(s, Easy, s.target);
      && save.None? && refresh && u.hits == 1 && u.target == s.target
      && Tap(u, Easy, u.target).1 == Some(Save(s.level + 1, s.score + 20, LevelStars(s.level)))
  {
  }

  /** The refresh with the counter kept: a new target and row, the hits as
      they were. Only a level-up clears them. */
  function NextParade(s: State, d: ParadeDraws): (r: State)
    requires Enough(d)
    ensures r.hits == s.hits && r.level == s.level && r.score == s.score
    ensures r.target < ColorCount && |r.parade| == ParadeLength
  {
    StartParade(s, d).(hits := s.hits)
  }

  function RoundFixed(s: State, t: Tier, color: nat, d: ParadeDraws): (r: (State, Option<Save>))
    requires Enough(d)
    ensures color == s.target && r.1.None? ==> r.0.hits == s.hits + 1 && r.0.level == s.level
    ensures r.1.Some? <==> color == s.target && s.hits + 1 >= Needed(s.level, t)
    ensures color != s.target ==> r.0 == s
  {
    var (u, save, refresh) := Tap(s, t, color);
    (if refresh then NextParade(u, d) else u, save)
  }

  /** Taps each round's target in turn. */
  function CorrectRounds(s: State, t: Tier, ds: seq<ParadeDraws>): (r: (State, bool))
    requires forall i | 0 <= i < |ds| :: Enough(ds[i])
    decreases |ds|
  {
    if |ds| == 0 then (s, false)
    else
      var (u, save) := RoundFixed(s, t, s.target, ds[0]);
      if save.Some? then (u, true) else CorrectRounds(u, t, ds[1..])
  }

  /** With the counter kept across refreshes, `needed - hits` correct taps
      win the level. */
  lemma {:induction false} FixedLevelsUp(s: State, t: Tier, ds: seq<ParadeDraws>)
    requires forall i | 0 <= i < |ds| :: Enough(ds[i])
    requires 0 <= s.hits < Needed(s.level, t) && |ds| >= Needed(s.level, t) - s.hits
    ensures CorrectRounds(s, t, ds).1
    decreases |ds|
  {
    var (u, save) := RoundFixed(s, t, s.target, ds[0]);
    if save.None? {
      FixedLevelsUp(u, t, ds[1..]);
    }
  }
}
