/** The difficulty scaling engine: the tier setting chosen on the parent
    dashboard and the four total functions every mini-game uses to turn its
    base constants into round parameters. */
module Difficulty {
  import opened Common

  datatype Tier = Easy | Normal | Hard

  /** The string stored under the `difficulty` setting for each tier. */
  function TierName(t: Tier): string {
    match t
    case Easy => "easy"
    case Normal => "normal"
    case Hard => "hard"
  }

  /** Position of a tier on the easy-to-hard axis. */
  function Rank(t: Tier): int {
    match t
    case Easy => 0
    case Normal => 1
    case Hard => 2
  }

  /** `getDifficulty()`, given what `getSetting('difficulty')` returned: the
      stored tier when it is exactly one of the three names, `Normal` for an
      absent value or any other string. */
  function FromSetting(stored: Option<string>): (t: Tier)
    ensures forall u: Tier :: stored == Some(TierName(u)) ==> t == u
    ensures t != Normal ==> stored == Some(TierName(t))
  {
    if stored == Some("easy") then Easy
    else if stored == Some("hard") then Hard
    else Normal
  }

  /** A stored value is honoured exactly when it names a tier. */
  lemma FromSettingExact(stored: Option<string>)
    ensures (exists u: Tier :: stored == Some(TierName(u))) <==> stored == Some(TierName(FromSetting(stored)))
  {
  }

  /** `scaleNeeded`: correct answers required to level up. */
  function ScaleNeeded(base: int, t: Tier): (r: int)
    ensures base >= 1 ==> r >= 1
    ensures base >= 1 ==> base - 1 <= r <= base + 1
    ensures t == Normal ==> r == base
  {
    match t
    case Easy => Max(1, base - 1)
    case Hard => base + 1
    case Normal => base
  }

  /** For a base of at least 2 the three tiers are strictly ordered. */
  lemma ScaleNeededStrictlyOrdered(base: int, t: Tier, u: Tier)
    requires base >= 2 && Rank(t) < Rank(u)
    ensures ScaleNeeded(base, t) < ScaleNeeded(base, u)
  {
  }

  /** `scaleChoices`: how many options to lay out, capped at `max`. */
  function ScaleChoices(base: int, max: int, t: Tier): (r: int)
    ensures t != Easy ==> r <= max
    ensures t == Easy ==> r >= 2
    ensures t == Easy ==> (r <= max <==> max >= 2)
    ensures base >= 1 ==> r <= base + 1
  {
    match t
    case Easy => Max(2, Min(base - 1, max))
    case Hard => Min(base + 1, max)
    case Normal => Min(base, max)
  }

  /** With `2 <= base` and `2 <= max` every tier lies in `[2, max]` and the
      count never decreases from easy to hard. */
  lemma ScaleChoicesOrdered(base: int, max: int, t: Tier, u: Tier)
    requires 2 <= base && 2 <= max && Rank(t) <= Rank(u)
    ensures 2 <= ScaleChoices(base, max, t) <= max
    ensures ScaleChoices(base, max, t) <= ScaleChoices(base, max, u)
  {
  }

  /** With a base of 1 the easy floor of 2 overtakes the normal tier. */
  lemma ScaleChoicesBaseOneInverts(max: int)
    requires max >= 2
    ensures ScaleChoices(1, max, Easy) == 2 > ScaleChoices(1, max, Normal) == 1
  {
  }

  /** `scaleLevel`: the effective level used to size content. */
  function ScaleLevel(level: int, t: Tier): (r: int)
    ensures level >= 1 ==> r >= 1
    ensures t == Easy ==> r <= level || r == 1
    ensures t == Hard ==> r > level
  {
    match t
    case Easy => Max(1, level - 1)
    case Hard => level + 1
    case Normal => level
  }

  lemma ScaleLevelOrdered(level: int, t: Tier, u: Tier)
    requires level >= 1 && Rank(t) <= Rank(u)
    ensures 1 <= ScaleLevel(level, t) <= ScaleLevel(level, u)
    ensures ScaleLevel(level, Easy) <= level <= ScaleLevel(level, Hard)
  {
  }

  /** `scaleMax`: a capped length; easy lowers it by two (floor 2), hard
      raises it by only one. */
  function ScaleMax(base: int, t: Tier): (r: int)
    ensures t == Easy ==> r >= 2
    ensures base >= 2 ==> r >= 2
    ensures base >= 1 ==> base - 2 <= r <= base + 1
  {
    match t
    case Easy => Max(2, base - 2)
    case Hard => base + 1
    case Normal => base
  }

  lemma ScaleMaxOrdered(base: int, t: Tier, u: Tier)
    requires base >= 2 && Rank(t) <= Rank(u)
    ensures 2 <= ScaleMax(base, t) <= ScaleMax(base, u)
  {
  }

  /** The easy and hard offsets of `scaleMax` are not symmetric: for a base
      of at least 4 easy sits two below normal while hard sits one above. */
  lemma ScaleMaxAsymmetric(base: int)
    requires base >= 4
    ensures ScaleMax(base, Normal) - ScaleMax(base, Easy) == 2
    ensures ScaleMax(base, Hard) - ScaleMax(base, Normal) == 1
  {
  }
}
