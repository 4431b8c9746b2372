/** The parent dashboard: the per-game progress list with its totals, the
    screen-time and difficulty settings, the sound switch and the reset of
    all progress. Storage is the browser backend's store; `le` is the key
    order `getAllProgress` sorts by and `now` the play date a write stamps. */
module ParentDashboard {
  import opened Common
  import opened Strings
  import opened Difficulty
  import MathUtil
  import DbWeb

  type Row = DbWeb.ProgressRow

  /** The game keys of `rows`, in order. */
  function Keys(rows: seq<Row>): (r: seq<string>)
    ensures |r| == |rows| && forall i | 0 <= i < |rows| :: r[i] == rows[i].gameKey
  {
    seq(|rows|, i requires 0 <= i < |rows| => rows[i].gameKey)
  }

  lemma KeysAppend(a: seq<Row>, g: Row)
    ensures Keys(a + [g]) == Keys(a) + [g.gameKey]
  {
  }

  // ------------------------------------------------------------- loadData

  /** The `reduce` in `loadData`: a row is kept when no kept row has its
      game key yet. */
  function Unique(rows: seq<Row>): (r: seq<Row>)
    ensures |r| <= |rows|
    decreases |rows|
  {
    if |rows| == 0 then []
    else
      var acc := Unique(rows[..|rows| - 1]);
      var g := rows[|rows| - 1];
      if g.gameKey in Keys(acc) then acc else acc + [g]
  }

  /** Where the row at `j` of `rows` sits in the input: the first row with
      its key. */
  lemma FirstIndexOfPrefix(rows: seq<Row>, key: string)
    requires |rows| > 0 && DbWeb.ProgressIndex(rows[..|rows| - 1], key).Some?
    ensures DbWeb.ProgressIndex(rows, key) == DbWeb.ProgressIndex(rows[..|rows| - 1], key)
  {
    var p := rows[..|rows| - 1];
    var i := DbWeb.ProgressIndex(p, key).value;
    assert p[i] == rows[i];
    forall j | 0 <= j < i ensures rows[j].gameKey != key {
      assert p[j] == rows[j];
    }
    var r := DbWeb.ProgressIndex(rows, key);
    assert r.Some? && r.value <= i;
    assert r == Some(i);
  }

  lemma FirstIndexOfLast(rows: seq<Row>)
    requires |rows| > 0 && DbWeb.ProgressIndex(rows[..|rows| - 1], rows[|rows| - 1].gameKey).None?
    ensures DbWeb.ProgressIndex(rows, rows[|rows| - 1].gameKey) == Some(|rows| - 1)
  {
    var p := rows[..|rows| - 1];
    var key := rows[|rows| - 1].gameKey;
    forall j | 0 <= j < |p| ensures rows[j].gameKey != key {
      assert p[j] == rows[j];
    }
    var r := DbWeb.ProgressIndex(rows, key);
    assert r.Some?;
    assert r == Some(|rows| - 1);
  }

  /** A row whose key no earlier row has is the first with its key. */
  lemma FirstWithKey(rows: seq<Row>, j: nat)
    requires j < |rows| && forall i | 0 <= i < j :: rows[i].gameKey != rows[j].gameKey
    ensures DbWeb.ProgressIndex(rows, rows[j].gameKey) == Some(j)
  {
  }

  lemma KeysDiffer(rows: seq<Row>, i: nat, j: nat)
    requires Distinct(Keys(rows)) && i < j < |rows|
    ensures rows[i].gameKey != rows[j].gameKey
  {
    assert Keys(rows)[i] != Keys(rows)[j];
  }

  /** Each row of `r` is the first row of `rows` with its key. */
  ghost predicate KeptFirst(rows: seq<Row>, r: seq<Row>) {
    forall j | 0 <= j < |r| ::
      DbWeb.ProgressIndex(rows, r[j].gameKey).Some?
      && rows[DbWeb.ProgressIndex(rows, r[j].gameKey).value] == r[j]
  }

  /** The rows of `r` sit in `rows` in the same order. */
  ghost predicate KeptInOrder(rows: seq<Row>, r: seq<Row>)
    requires KeptFirst(rows, r)
  {
    forall j, k | 0 <= j < k < |r| ::
      DbWeb.ProgressIndex(rows, r[j].gameKey).value < DbWeb.ProgressIndex(rows, r[k].gameKey).value
  }

  /** `loadData` keeps the first row of every game: each kept row is the
      first input row with its key, the kept rows follow the input order,
      no key is kept twice, and every key of the input is kept. */
  lemma {:induction false} UniqueKeepsFirst(rows: seq<Row>)
    ensures var r := Unique(rows);
      && KeptFirst(rows, r) && KeptInOrder(rows, r)
      && Distinct(Keys(r))
      && (forall key :: key in Keys(r) <==> key in Keys(rows))
    decreases |rows|
  {
    if |rows| > 0 {
      var p := rows[..|rows| - 1];
      var g := rows[|rows| - 1];
      var acc := Unique(p);
      UniqueKeepsFirst(p);
      assert Keys(rows) == Keys(p) + [g.gameKey];
      forall j | 0 <= j < |acc|
        ensures DbWeb.ProgressIndex(rows, acc[j].gameKey) == DbWeb.ProgressIndex(p, acc[j].gameKey)
      {
        FirstIndexOfPrefix(rows, acc[j].gameKey);
      }
      KeptOfPrefix(rows, acc);
      if g.gameKey !in Keys(acc) {
        assert g.gameKey !in Keys(p);
        FirstIndexOfLast(rows);
        KeysAppend(acc, g);
        KeptAppendLast(rows, acc);
      }
    }
  }

  /** Rows kept from all but the last input row are kept from the whole
      input too, in the same order. */
  lemma KeptOfPrefix(rows: seq<Row>, acc: seq<Row>)
    requires |rows| > 0
    requires KeptFirst(rows[..|rows| - 1], acc) && KeptInOrder(rows[..|rows| - 1], acc)
    requires forall j | 0 <= j < |acc| ::
      DbWeb.ProgressIndex(rows, acc[j].gameKey) == DbWeb.ProgressIndex(rows[..|rows| - 1], acc[j].gameKey)
    ensures KeptFirst(rows, acc) && KeptInOrder(rows, acc)
    ensures forall j | 0 <= j < |acc| :: DbWeb.ProgressIndex(rows, acc[j].gameKey).value < |rows| - 1
  {
    var p := rows[..|rows| - 1];
    forall j | 0 <= j < |acc|
      ensures DbWeb.ProgressIndex(rows, acc[j].gameKey).Some?
      ensures rows[DbWeb.ProgressIndex(rows, acc[j].gameKey).value] == acc[j]
    {
      var i := DbWeb.ProgressIndex(p, acc[j].gameKey).value;
      assert p[i] == rows[i];
    }
  }

  /** Keeping the last input row, whose key is new, extends the kept rows in
      order. */
  lemma KeptAppendLast(rows: seq<Row>, acc: seq<Row>)
    requires |rows| > 0
    requires KeptFirst(rows, acc) && KeptInOrder(rows, acc)
    requires forall j | 0 <= j < |acc| :: DbWeb.ProgressIndex(rows, acc[j].gameKey).value < |rows| - 1
    requires DbWeb.ProgressIndex(rows, rows[|rows| - 1].gameKey) == Some(|rows| - 1)
    ensures KeptFirst(rows, acc + [rows[|rows| - 1]]) && KeptInOrder(rows, acc + [rows[|rows| - 1]])
  {
    var r := acc + [rows[|rows| - 1]];
    forall j | 0 <= j < |acc|
      ensures DbWeb.ProgressIndex(rows, r[j].gameKey).Some?
      ensures rows[DbWeb.ProgressIndex(rows, r[j].gameKey).value] == r[j]
    {
      var x := acc[j];
      assert r[j] == x;
      assert rows[DbWeb.ProgressIndex(rows, x.gameKey).value] == x;
    }
    assert r[|acc|] == rows[|rows| - 1];
    assert KeptFirst(rows, r);
    forall j, k | 0 <= j < k < |r|
      ensures DbWeb.ProgressIndex(rows, r[j].gameKey).value < DbWeb.ProgressIndex(rows, r[k].gameKey).value
    {
      assert r[j] == acc[j];
      if k < |acc| {
        assert r[k] == acc[k];
      }
    }
  }

  /** A list with no repeated key passes through unchanged. */
  lemma {:induction false} UniqueOfDistinctKeys(rows: seq<Row>)
    requires Distinct(Keys(rows))
    ensures Unique(rows) == rows
    decreases |rows|
  {
    if |rows| > 0 {
      var p := rows[..|rows| - 1];
      assert Keys(p) == Keys(rows)[..|rows| - 1];
      UniqueOfDistinctKeys(p);
      assert rows[|rows| - 1].gameKey !in Keys(p);
      assert p + [rows[|rows| - 1]] == rows;
    }
  }

  lemma UniqueIdempotent(rows: seq<Row>)
    ensures Unique(Unique(rows)) == Unique(rows)
  {
    UniqueKeepsFirst(rows);
    UniqueOfDistinctKeys(Unique(rows));
  }

  /** The two summed columns. */
  datatype Column = Score | Playtime

  function Cell(g: Row, c: Column): int {
    match c
    case Score => g.score
    case Playtime => g.playtime
  }

  /** `reduce((sum, game) => sum + (game.<column> || 0), 0)`; the columns
      are numbers, so `|| 0` leaves them as they are. */
  function Total(rows: seq<Row>, c: Column): (r: int)
    ensures (forall i | 0 <= i < |rows| :: Cell(rows[i], c) >= 0) ==> r >= 0
    decreases |rows|
  {
    if |rows| == 0 then 0 else Total(rows[..|rows| - 1], c) + Cell(rows[|rows| - 1], c)
  }

  /** Totals add up over a split list. */
  lemma {:induction false} TotalSplit(a: seq<Row>, b: seq<Row>, c: Column)
    ensures Total(a + b, c) == Total(a, c) + Total(b, c)
    decreases |b|
  {
    if |b| > 0 {
      assert (a + b)[..|a + b| - 1] == a + b[..|b| - 1];
      TotalSplit(a, b[..|b| - 1], c);
    } else {
      assert a + b == a;
    }
  }

  /** `progressData.filter((g) => g.completed).length`: rows whose
      `completed` is not 0. */
  function CompletedCount(rows: seq<Row>): (r: nat)
    ensures r <= |rows|
    ensures r == |rows| <==> forall i | 0 <= i < |rows| :: rows[i].completed != 0
    ensures r == 0 <==> forall i | 0 <= i < |rows| :: rows[i].completed == 0
    decreases |rows|
  {
    if |rows| == 0 then 0
    else
      var p := rows[..|rows| - 1];
      assert forall i | 0 <= i < |p| :: p[i] == rows[i];
      CompletedCount(p) + if rows[|rows| - 1].completed != 0 then 1 else 0
  }

  lemma GameKeysDistinct()
    ensures Distinct(DbWeb.GameKeys)
  {
  }

  /** The "x/15" tile: with every key one of the fifteen games, the deduped
      list has at most fifteen rows, so at most fifteen are completed. */
  lemma CompletedAtMostFifteen(rows: seq<Row>)
    requires forall i | 0 <= i < |rows| :: rows[i].gameKey in DbWeb.GameKeys
    ensures CompletedCount(Unique(rows)) <= |Unique(rows)| <= 15
  {
    var r := Unique(rows);
    UniqueKeepsFirst(rows);
    GameKeysDistinct();
    forall i | 0 <= i < |Keys(r)| ensures Keys(r)[i] in DbWeb.GameKeys {
      assert Keys(r)[i] in Keys(rows);
    }
    DistinctWithin(Keys(r), DbWeb.GameKeys);
  }

  /** `gameNames`. */
  const GameNames: map<string, string> := map[
    "math" := "Math Monsters", "story" := "Story Builder", "world" := "World Explorer",
    "art" := "Art Detective", "science" := "Science Lab", "chef" := "Chef Fractions",
    "code" := "Code Blocks", "eco" := "Eco Guardians", "music" := "Music Rhythm",
    "logic" := "Logic Town", "fruit" := "Fruit Finder", "colorMatch" := "Color Match Parade",
    "letterPop" := "Letter Pop Balloons", "numberHop" := "Number Hop", "animalSound" := "Animal Sound Match"]

  /** `gameNames[key] || key`. */
  function DisplayName(key: string): (r: string)
    ensures key in GameNames && GameNames[key] != [] ==> r == GameNames[key]
    ensures key !in GameNames ==> r == key
  {
    if key in GameNames && GameNames[key] != [] then GameNames[key] else key
  }

  /** Every seeded game has a name of its own on the dashboard. */
  lemma EveryGameNamed()
    ensures forall k | k in DbWeb.GameKeys :: k in GameNames && DisplayName(k) != k
  {
  }

  // ------------------------------------------------------- formatPlaytime

  /** JavaScript's `%`: the remainder takes the sign of the dividend. */
  function JsRem(a: int, b: int): (r: int)
    requires b > 0
    ensures a >= 0 ==> 0 <= r < b && r == a % b
    ensures a < 0 ==> -b < r <= 0
  {
    if a >= 0 then a % b else -((-a) % b)
  }

  /** The remainder is odd in the dividend: negating it negates the
      remainder (truncation, where Dafny's `%` is Euclidean). */
  lemma JsRemOdd(a: int, b: int)
    requires b > 0
    ensures JsRem(-a, b) == -JsRem(a, b)
  {
  }

  /** `formatPlaytime(seconds)`: whole hours and the minutes left over, the
      hours shown only when positive. `Math.floor(x / n)` for a positive
      `n` is Dafny's `/`. */
  function FormatPlaytime(seconds: int): (r: string)
    ensures |r| >= 2 && r[|r| - 1] == 'm'
    ensures seconds < 3600 ==> 'h' !in r
  {
    var hours := seconds / 3600;
    var minutes := JsRem(seconds, 3600) / 60;
    if hours > 0 then IntToString(hours) + "h " + IntToString(minutes) + "m"
    else
      assert forall i | 0 <= i < |IntToString(minutes)| :: IntToString(minutes)[i] != 'h';
      IntToString(minutes) + "m"
  }

  /** A duration as the dashboard reads it: whole hours, then whole
      minutes under sixty, a partial minute dropped. */
  function HoursMinutes(seconds: nat): (r: (nat, nat))
    ensures r.1 < 60
    ensures r.0 * 3600 + r.1 * 60 <= seconds < r.0 * 3600 + r.1 * 60 + 60
  {
    var h := seconds / 3600;
    var rest := seconds % 3600;
    assert seconds == h * 3600 + rest;
    var m := rest / 60;
    assert rest == m * 60 + rest % 60;
    (h, m)
  }

  /** Reads a shown playtime back: `<h>h <m>m` or `<m>m`. */
  function ReadPlaytime(text: string): (r: Option<(nat, nat)>)
  {
    var h := DigitPrefix(text);
    if |h| > 0 && |h| + 2 <= |text| && text[|h|..|h| + 2] == "h " then
      var rest := text[|h| + 2..];
      var m := DigitPrefix(rest);
      if |m| > 0 && rest[|m|..] == "m" then Some((DigitsValue(h), DigitsValue(m))) else None
    else if |h| > 0 && text[|h|..] == "m" then Some((0, DigitsValue(h)))
    else None
  }

  /** The shown playtime reads back as the hours and minutes of the
      duration. */
  lemma FormatReadsBack(seconds: nat)
    ensures ReadPlaytime(FormatPlaytime(seconds)) == Some(HoursMinutes(seconds))
  {
    var hm := HoursMinutes(seconds);
    assert hm == (seconds / 3600, JsRem(seconds, 3600) / 60);
    if hm.0 > 0 {
      assert FormatPlaytime(seconds) == NatToString(hm.0) + "h " + NatToString(hm.1) + "m";
      ReadHoursMinutes(hm.0, hm.1);
    } else {
      assert FormatPlaytime(seconds) == NatToString(hm.1) + "m";
      ReadMinutes(hm.1);
    }
  }

  lemma ReadHoursMinutes(hours: nat, minutes: nat)
    ensures ReadPlaytime(NatToString(hours) + "h " + NatToString(minutes) + "m") == Some((hours, minutes))
  {
    ReadDigitsHoursMinutes(NatToString(hours), NatToString(minutes));
  }

  /** Any two runs of digits, shown as hours and minutes, read back. */
  lemma ReadDigitsHoursMinutes(h: string, m: string)
    requires |h| > 0 && |m| > 0 && AllDigits(h) && AllDigits(m)
    ensures ReadPlaytime(h + "h " + m + "m") == Some((DigitsValue(h), DigitsValue(m)))
  {
    var rest := m + "m";
    assert h + "h " + m + "m" == h + ("h " + rest);
    DigitPrefixOf(h, "h " + rest);
    DigitPrefixOf(m, "m");
    ReadAfterHours(h + ("h " + rest), h, rest);
    assert rest[|m|..] == "m";
  }

  /** Digits, `h `, then the rest: the rest is read as the minutes part. */
  lemma ReadAfterHours(text: string, h: string, rest: string)
    requires |h| > 0 && DigitPrefix(text) == h && text == h + ("h " + rest)
    ensures ReadPlaytime(text) ==
      var m := DigitPrefix(rest);
      if |m| > 0 && rest[|m|..] == "m" then Some((DigitsValue(h), DigitsValue(m))) else None
  {
    assert text[|h|..|h| + 2] == "h ";
    assert text[|h| + 2..] == rest;
  }

  lemma ReadMinutes(minutes: nat)
    ensures ReadPlaytime(NatToString(minutes) + "m") == Some((0, minutes))
  {
    var m := NatToString(minutes);
    var text := m + "m";
    DigitPrefixOf(m, "m");
    assert text[|m|..] == "m";
    assert !(|m| + 2 <= |text|);
  }

  // ---------------------------------------------------------- screen time

  /** The limit field's `onChangeText`: `parseInt(text)` (no radix), kept
      unless it is `NaN`. */
  function EditScreenTime(limit: int, text: string): (r: int)
    ensures ParseIntNoRadix(text).None? ==> r == limit
    ensures ParseIntNoRadix(text).Some? ==> r == ParseIntNoRadix(text).value
  {
    match ParseIntNoRadix(text)
    case None => limit
    case Some(n) => n
  }

  /** The field shows `screenTimeLimit.toString()`; that text reads back as
      the same limit. */
  lemma ShownLimitReadsBack(limit: int)
    ensures EditScreenTime(limit, IntToString(limit)) == limit
  {
    ParseIntNoRadixOfInt(limit);
  }

  const ScreenTimeKey := "screen_time_limit"
  const DifficultyKey := "difficulty"
  const SoundKey := "sound_enabled"

  /** `handleSetScreenTime()`: a limit outside 15..180 minutes is refused
      and nothing is written; otherwise it is stored as its decimal text. */
  function SetScreenTime(s: DbWeb.Store, limit: int, le: (string, string) -> bool): (r: (DbWeb.Store, bool))
    requires DbWeb.TotalPreorder(le)
    ensures r.1 <==> 15 <= limit <= 180
    ensures !r.1 ==> r.0 == s
    ensures r.1 ==> && DbWeb.GetSetting(r.0, ScreenTimeKey, le).Some?
                    && ParseInt(DbWeb.GetSetting(r.0, ScreenTimeKey, le).value) == Some(limit)
    ensures forall k | k != ScreenTimeKey :: DbWeb.GetSetting(r.0, k, le) == DbWeb.GetSetting(s, k, le)
    ensures r.0.progress == s.progress && r.0.user == s.user && r.0.rewards == s.rewards
  {
    if limit < 15 || limit > 180 then (s, false)
    else
      var u := DbWeb.SetSetting(s, ScreenTimeKey, IntToString(limit), le);
      DbWeb.SetThenGet(s, ScreenTimeKey, IntToString(limit), le);
      ParseIntOfInt(limit);
      forall k | k != ScreenTimeKey ensures DbWeb.GetSetting(u, k, le) == DbWeb.GetSetting(s, k, le) {
        DbWeb.SetLeavesOthers(s, ScreenTimeKey, k, IntToString(limit), le);
      }
      (u, true)
  }

  // ------------------------------------------------- difficulty and sound

  /** The mount effect's difficulty: the stored name when it is one of the
      three, otherwise the initial `normal`. */
  function AdoptDifficulty(stored: Option<string>): (t: Tier)
    ensures forall u: Tier :: stored == Some(TierName(u)) ==> t == u
    ensures t != Normal ==> stored == Some(TierName(t))
  {
    if stored == Some("easy") || stored == Some("normal") || stored == Some("hard") then
      if stored.value == "easy" then Easy else if stored.value == "hard" then Hard else Normal
    else Normal
  }

  /** The dashboard reads the difficulty as the games' `getDifficulty` does. */
  lemma AdoptAgreesWithGames(stored: Option<string>)
    ensures AdoptDifficulty(stored) == FromSetting(stored)
  {
  }

  /** The mount effect: sound on unless the stored value is `'0'`, and the
      adopted difficulty. */
  function LoadSettings(s: DbWeb.Store, le: (string, string) -> bool): (r: (bool, Tier))
    requires DbWeb.TotalPreorder(le)
    ensures !r.0 <==> DbWeb.GetSetting(s, SoundKey, le) == Some("0")
    ensures r.1 == FromSetting(DbWeb.GetSetting(s, DifficultyKey, le))
  {
    (DbWeb.GetSetting(s, SoundKey, le) != Some("0"), AdoptDifficulty(DbWeb.GetSetting(s, DifficultyKey, le)))
  }

  /** A fresh store (no settings row) opens with sound on and `normal`. */
  lemma LoadDefaults(s: DbWeb.Store, le: (string, string) -> bool)
    requires DbWeb.TotalPreorder(le) && s.settings == []
    ensures LoadSettings(s, le) == (true, Normal)
  {
  }

  /** `handleSetDifficulty()`: the chosen tier's name is stored. */
  function SetDifficulty(s: DbWeb.Store, t: Tier, le: (string, string) -> bool): (r: DbWeb.Store)
    requires DbWeb.TotalPreorder(le)
    ensures FromSetting(DbWeb.GetSetting(r, DifficultyKey, le)) == t
    ensures DbWeb.GetSetting(r, SoundKey, le) == DbWeb.GetSetting(s, SoundKey, le)
    ensures r.progress == s.progress && r.user == s.user && r.rewards == s.rewards
  {
    var u := DbWeb.SetSetting(s, DifficultyKey, TierName(t), le);
    DbWeb.SetThenGet(s, DifficultyKey, TierName(t), le);
    DbWeb.SetLeavesOthers(s, DifficultyKey, SoundKey, TierName(t), le);
    u
  }

  /** After choosing a tier the dashboard reopens on it, the sound switch
      as it was. */
  lemma SetDifficultyThenLoad(s: DbWeb.Store, t: Tier, le: (string, string) -> bool)
    requires DbWeb.TotalPreorder(le)
    ensures LoadSettings(SetDifficulty(s, t, le), le) == (LoadSettings(s, le).0, t)
  {
    AdoptAgreesWithGames(DbWeb.GetSetting(SetDifficulty(s, t, le), DifficultyKey, le));
  }

  /** The sound row's `onPress`: the switch flips and `setMusicEnabled`
      stores `'1'` or `'0'`. */
  function ToggleSound(s: DbWeb.Store, on: bool, le: (string, string) -> bool): (r: (DbWeb.Store, bool))
    requires DbWeb.TotalPreorder(le)
    ensures r.1 == !on
    ensures LoadSettings(r.0, le) == (!on, LoadSettings(s, le).1)
    ensures r.0.progress == s.progress && r.0.user == s.user && r.0.rewards == s.rewards
  {
    var value := if !on then "1" else "0";
    var u := DbWeb.SetSetting(s, SoundKey, value, le);
    DbWeb.SetThenGet(s, SoundKey, value, le);
    DbWeb.SetLeavesOthers(s, SoundKey, DifficultyKey, value, le);
    (u, !on)
  }

  /** Two flips restore the switch and the stored sound setting's reading. */
  lemma ToggleTwice(s: DbWeb.Store, on: bool, le: (string, string) -> bool)
    requires DbWeb.TotalPreorder(le)
    ensures var (u, next) := ToggleSound(s, on, le);
      var (v, back) := ToggleSound(u, next, le);
      back == on && LoadSettings(v, le) == (on, LoadSettings(s, le).1)
  {
  }

  // --------------------------------------------------------------- reset

  /** The fields the reset writes. */
  const ResetPatch := DbWeb.Patch(Some(1), Some(0), Some(0), Some(0), Some(0))

  predicate IsReset(g: Row) {
    g.level == 1 && g.score == 0 && g.completed == 0 && g.stars == 0 && g.playtime == 0
  }

  /** The reset button's loop: `updateGameProgress(key, level 1, zeros)` for
      each shown game in turn. */
  function ResetAll(s: DbWeb.Store, shown: seq<Row>, now: string): (r: DbWeb.Store)
    ensures r.user == s.user && r.rewards == s.rewards && r.settings == s.settings
    ensures |r.progress| == |s.progress|
    ensures forall j | 0 <= j < |s.progress| :: r.progress[j].gameKey == s.progress[j].gameKey
    ensures forall j | 0 <= j < |s.progress| :: r.progress[j] == s.progress[j] || IsReset(r.progress[j])
    decreases |shown|
  {
    if |shown| == 0 then s
    else ResetAll(DbWeb.UpdateGameProgress(s, shown[0].gameKey, ResetPatch, now), shown[1..], now)
  }

  /** The row at `j` is the first with its key, and its key is shown. */
  predicate Targeted(rows: seq<Row>, shown: seq<Row>, j: nat)
    requires j < |rows|
  {
    DbWeb.ProgressIndex(rows, rows[j].gameKey) == Some(j) && rows[j].gameKey in Keys(shown)
  }

  /** Overwriting a row with one of the same key moves no first index. */
  lemma IndexStable(rows: seq<Row>, i: nat, x: Row, key: string)
    requires i < |rows| && x.gameKey == rows[i].gameKey
    ensures DbWeb.ProgressIndex(rows[i := x], key) == DbWeb.ProgressIndex(rows, key)
  {
    var q := rows[i := x];
    assert forall j | 0 <= j < |rows| :: q[j].gameKey == rows[j].gameKey;
    match DbWeb.ProgressIndex(rows, key)
    case None =>
    case Some(k) =>
      assert q[k].gameKey == key;
  }

  /** One reset write keeps the first index of every key. */
  lemma UpdateKeepsIndex(s: DbWeb.Store, key: string, now: string)
    ensures var u := DbWeb.UpdateGameProgress(s, key, ResetPatch, now);
      && Keys(u.progress) == Keys(s.progress)
      && forall k :: DbWeb.ProgressIndex(u.progress, k) == DbWeb.ProgressIndex(s.progress, k)
  {
    var u := DbWeb.UpdateGameProgress(s, key, ResetPatch, now);
    match DbWeb.ProgressIndex(s.progress, key)
    case None =>
    case Some(i) =>
      var x := DbWeb.ApplyPatch(s.progress[i], ResetPatch, now);
      assert u.progress == s.progress[i := x];
      forall k ensures DbWeb.ProgressIndex(u.progress, k) == DbWeb.ProgressIndex(s.progress, k) {
        IndexStable(s.progress, i, x, k);
      }
      assert Keys(u.progress) == Keys(s.progress);
  }

  /** The reset keeps every key and the first index of every key. */
  lemma {:induction false} ResetAllKeepsIndex(s: DbWeb.Store, shown: seq<Row>, now: string)
    ensures var r := ResetAll(s, shown, now);
      && Keys(r.progress) == Keys(s.progress)
      && forall key :: DbWeb.ProgressIndex(r.progress, key) == DbWeb.ProgressIndex(s.progress, key)
    decreases |shown|
  {
    if |shown| > 0 {
      var u := DbWeb.UpdateGameProgress(s, shown[0].gameKey, ResetPatch, now);
      UpdateKeepsIndex(s, shown[0].gameKey, now);
      ResetAllKeepsIndex(u, shown[1..], now);
    }
  }

  /** The rows the reset writes: the first row of each shown key. */
  lemma {:induction false} ResetAllRows(s: DbWeb.Store, shown: seq<Row>, now: string)
    ensures var r := ResetAll(s, shown, now);
      forall j | 0 <= j < |s.progress| ::
        r.progress[j] == if Targeted(s.progress, shown, j)
                         then DbWeb.ApplyPatch(s.progress[j], ResetPatch, now) else s.progress[j]
    decreases |shown|
  {
    if |shown| > 0 {
      var key := shown[0].gameKey;
      var u := DbWeb.UpdateGameProgress(s, key, ResetPatch, now);
      UpdateKeepsIndex(s, key, now);
      ResetAllRows(u, shown[1..], now);
      assert Keys(shown) == [key] + Keys(shown[1..]);
    }
  }

  /** What the reset does to the store: the first row of every shown game
      gets level 1, zero score, completion, stars and playtime and the new
      play date; every other row, every key and the other tables are kept. */
  lemma ResetAllEffect(s: DbWeb.Store, shown: seq<Row>, now: string)
    ensures var r := ResetAll(s, shown, now);
      && r.user == s.user && r.rewards == s.rewards && r.settings == s.settings
      && |r.progress| == |s.progress| && Keys(r.progress) == Keys(s.progress)
      && (forall key :: DbWeb.ProgressIndex(r.progress, key) == DbWeb.ProgressIndex(s.progress, key))
      && (forall j | 0 <= j < |s.progress| ::
            r.progress[j] == if Targeted(s.progress, shown, j)
                             then DbWeb.ApplyPatch(s.progress[j], ResetPatch, now) else s.progress[j])
  {
    ResetAllKeepsIndex(s, shown, now);
    ResetAllRows(s, shown, now);
  }

  /** Resetting twice is resetting once. */
  lemma ResetIdempotent(s: DbWeb.Store, shown: seq<Row>, now: string)
    ensures ResetAll(ResetAll(s, shown, now), shown, now) == ResetAll(s, shown, now)
  {
    var r := ResetAll(s, shown, now);
    var r2 := ResetAll(r, shown, now);
    ResetAllEffect(s, shown, now);
    ResetAllEffect(r, shown, now);
    forall j | 0 <= j < |s.progress| ensures r2.progress[j] == r.progress[j] {
      assert r.progress[j].gameKey == s.progress[j].gameKey;
      assert Targeted(r.progress, shown, j) == Targeted(s.progress, shown, j);
    }
  }

  /** No repeated key among the store's progress rows. */
  ghost predicate UniqueKeys(s: DbWeb.Store) {
    Distinct(Keys(s.progress))
  }

  /** The seeded table has one row per game. */
  lemma SeededKeysUnique(s: DbWeb.Store)
    requires |s.progress| == 0
    ensures UniqueKeys(DbWeb.InitDB(s))
  {
    DbWeb.InitDBSeeds(s);
    GameKeysDistinct();
    assert Keys(DbWeb.InitDB(s).progress) == DbWeb.GameKeys;
  }

  /** Reordering rows with distinct keys keeps them distinct. */
  lemma PermutedKeysDistinct(a: seq<Row>, b: seq<Row>)
    requires Distinct(Keys(a)) && multiset(a) == multiset(b)
    ensures Distinct(Keys(b))
  {
    assert Distinct(a);
    MathUtil.PermutationKeepsDistinct(a, b);
    forall i, j | 0 <= i < j < |b| ensures b[i].gameKey != b[j].gameKey {
      assert b[i] in multiset(a) && b[j] in multiset(a);
      var x :| 0 <= x < |a| && a[x] == b[i];
      var y :| 0 <= y < |a| && a[y] == b[j];
      assert x != y;
    }
  }

  /** `loadData` on a store with one row per game: every row is shown once
      (the dedupe removes nothing). */
  lemma LoadShowsEveryRow(s: DbWeb.Store, le: (string, string) -> bool)
    requires DbWeb.TotalPreorder(le) && UniqueKeys(s)
    ensures Unique(DbWeb.GetAllProgress(s, le)) == DbWeb.GetAllProgress(s, le)
  {
    PermutedKeysDistinct(s.progress, DbWeb.GetAllProgress(s, le));
    UniqueOfDistinctKeys(DbWeb.GetAllProgress(s, le));
  }

  /** Rows that are all reset total nothing and count no completion. */
  lemma {:induction false} ResetRowsTotalZero(rows: seq<Row>)
    requires forall i | 0 <= i < |rows| :: IsReset(rows[i])
    ensures Total(rows, Score) == 0 && Total(rows, Playtime) == 0 && CompletedCount(rows) == 0
    decreases |rows|
  {
    if |rows| > 0 {
      ResetRowsTotalZero(rows[..|rows| - 1]);
    }
  }

  /** On a store with one row per game, resetting the shown games resets
      every row of the table. */
  lemma ResetEveryRow(s: DbWeb.Store, shown0: seq<Row>, now: string, le: (string, string) -> bool)
    requires DbWeb.TotalPreorder(le) && UniqueKeys(s)
    requires shown0 == Unique(DbWeb.GetAllProgress(s, le))
    ensures forall j | 0 <= j < |ResetAll(s, shown0, now).progress| :: IsReset(ResetAll(s, shown0, now).progress[j])
  {
    var all := DbWeb.GetAllProgress(s, le);
    var r := ResetAll(s, shown0, now);
    ResetAllEffect(s, shown0, now);
    UniqueKeepsFirst(all);
    forall j | 0 <= j < |s.progress| ensures IsReset(r.progress[j]) {
      var key := s.progress[j].gameKey;
      assert s.progress[j] in multiset(all);
      var x :| 0 <= x < |all| && all[x] == s.progress[j];
      assert key in Keys(all);
      forall i | 0 <= i < j ensures s.progress[i].gameKey != key {
        KeysDiffer(s.progress, i, j);
      }
      FirstWithKey(s.progress, j);
    }
  }

  /** When every row is reset, so is every row the dashboard shows, and its
      totals are zero. */
  lemma ShownAllReset(r: DbWeb.Store, le: (string, string) -> bool)
    requires DbWeb.TotalPreorder(le)
    requires forall j | 0 <= j < |r.progress| :: IsReset(r.progress[j])
    ensures var shown := Unique(DbWeb.GetAllProgress(r, le));
      && (forall i | 0 <= i < |shown| :: IsReset(shown[i]))
      && Total(shown, Score) == 0 && Total(shown, Playtime) == 0 && CompletedCount(shown) == 0
  {
    var after := DbWeb.GetAllProgress(r, le);
    forall i | 0 <= i < |after| ensures IsReset(after[i]) {
      assert after[i] in multiset(r.progress);
    }
    UniqueKeepsFirst(after);
    var shown := Unique(after);
    forall i | 0 <= i < |shown| ensures IsReset(shown[i]) {
      assert shown[i] == after[DbWeb.ProgressIndex(after, shown[i].gameKey).value];
    }
    ResetRowsTotalZero(shown);
  }

  /** The reset as the dashboard runs it, on a store with one row per game:
      after reloading, every shown game is at level 1 with nothing scored,
      the totals are 0 and no game counts as completed. */
  lemma ResetClearsDashboard(s: DbWeb.Store, now: string, le: (string, string) -> bool)
    requires DbWeb.TotalPreorder(le) && UniqueKeys(s)
    ensures var r := ResetAll(s, Unique(DbWeb.GetAllProgress(s, le)), now);
      var shown := Unique(DbWeb.GetAllProgress(r, le));
      && (forall i | 0 <= i < |shown| :: IsReset(shown[i]))
      && Total(shown, Score) == 0 && Total(shown, Playtime) == 0 && CompletedCount(shown) == 0
  {
    var shown0 := Unique(DbWeb.GetAllProgress(s, le));
    ResetEveryRow(s, shown0, now, le);
    ShownAllReset(ResetAll(s, shown0, now), le);
  }
}
