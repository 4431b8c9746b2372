/** The browser storage backend: four tables kept as one value (the JSON
    document the source loads from and saves to `localStorage`), the
    statement router of `executeSQL`, and the API built on it. Every
    operation takes the loaded store and returns the store it would save;
    `now` stands for `new Date().toISOString()`. */
module DbWeb {
  import opened Common
  import opened Strings

  datatype UserRow = UserRow(id: int, name: string, age: Option<int>, avatar: Option<string>)

  datatype ProgressRow = ProgressRow(
    id: int, gameKey: string, level: int, score: int, completed: int,
    stars: int, playtime: int, lastPlayed: Option<string>)

  datatype RewardRow = RewardRow(
    id: int, rewardKey: string, rewardName: Option<string>, unlocked: int, unlockedAt: Option<string>)

  datatype SettingRow = SettingRow(id: int, key: string, value: Option<string>)

  datatype Store = Store(
    user: seq<UserRow>, progress: seq<ProgressRow>, rewards: seq<RewardRow>, settings: seq<SettingRow>)

  /** `GAME_KEYS`: the fifteen games, in seeding order. */
  const GameKeys: seq<string> := [
    "math", "story", "world", "art", "science", "chef", "code", "eco",
    "music", "logic", "fruit", "colorMatch", "letterPop", "numberHop", "animalSound"]

  /** A fresh progress row for the game at position `i` of `GameKeys`. */
  function SeedRow(i: nat): ProgressRow
    requires i < |GameKeys|
  {
    ProgressRow(i + 1, GameKeys[i], 1, 0, 0, 0, 0, None)
  }

  /** The loop of `initDB()`: one fresh row per game key, in order. */
  function SeedRows(): (r: seq<ProgressRow>)
    ensures |r| == |GameKeys|
    ensures forall i | 0 <= i < |r| :: r[i] == SeedRow(i)
  {
    seq(|GameKeys|, i requires 0 <= i < |GameKeys| => SeedRow(i))
  }

  /** `initDB()`: seed the progress table when, and only when, it is empty. */
  function InitDB(s: Store): (r: Store)
    ensures |s.progress| > 0 ==> r == s
    ensures |s.progress| == 0 ==> r == s.(progress := SeedRows())
    ensures |r.progress| > 0
  {
    if |s.progress| == 0 then s.(progress := SeedRows()) else s
  }

  /** Seeding an empty table creates exactly fifteen rows with ids 1 to 15,
      level 1, every counter 0 and no play date. */
  lemma InitDBSeeds(s: Store)
    requires |s.progress| == 0
    ensures |InitDB(s).progress| == 15
    ensures forall i | 0 <= i < 15 ::
      && InitDB(s).progress[i].id == i + 1 && InitDB(s).progress[i].gameKey == GameKeys[i]
      && InitDB(s).progress[i].level == 1 && InitDB(s).progress[i].score == 0
      && InitDB(s).progress[i].completed == 0 && InitDB(s).progress[i].stars == 0
      && InitDB(s).progress[i].playtime == 0 && InitDB(s).progress[i].lastPlayed == None
  {
  }

  lemma InitDBIdempotent(s: Store)
    ensures InitDB(InitDB(s)) == InitDB(s)
  {
  }

  // ------------------------------------------------------------ row helpers

  /** `findIndex((r) => r.game_key === key)`. */
  function ProgressIndex(rows: seq<ProgressRow>, key: string): (r: Option<nat>)
    ensures r.Some? ==> (r.value < |rows| && rows[r.value].gameKey == key
      && forall j | 0 <= j < r.value :: rows[j].gameKey != key)
    ensures r.None? ==> forall j | 0 <= j < |rows| :: rows[j].gameKey != key
  {
    if |rows| == 0 then None
    else if rows[0].gameKey == key then Some(0)
    else match ProgressIndex(rows[1..], key)
      case None => None
      case Some(i) => Some(i + 1)
  }

  /** `filter((r) => r.game_key === key)`. */
  function ProgressWithKey(rows: seq<ProgressRow>, key: string): (r: seq<ProgressRow>)
    ensures forall i | 0 <= i < |r| :: r[i].gameKey == key && r[i] in rows
    ensures forall i | 0 <= i < |rows| && rows[i].gameKey == key :: rows[i] in r
    ensures ProgressIndex(rows, key).Some? <==> |r| > 0
    ensures |r| > 0 ==> r[0] == rows[ProgressIndex(rows, key).value]
  {
    if |rows| == 0 then []
    else if rows[0].gameKey == key then [rows[0]] + ProgressWithKey(rows[1..], key)
    else ProgressWithKey(rows[1..], key)
  }

  function SettingIndex(rows: seq<SettingRow>, key: string): (r: Option<nat>)
    ensures r.Some? ==> (r.value < |rows| && rows[r.value].key == key
      && forall j | 0 <= j < r.value :: rows[j].key != key)
    ensures r.None? ==> forall j | 0 <= j < |rows| :: rows[j].key != key
  {
    if |rows| == 0 then None
    else if rows[0].key == key then Some(0)
    else match SettingIndex(rows[1..], key)
      case None => None
      case Some(i) => Some(i + 1)
  }

  function SettingsWithKey(rows: seq<SettingRow>, key: string): (r: seq<SettingRow>)
    ensures forall i | 0 <= i < |r| :: r[i].key == key && r[i] in rows
    ensures forall i | 0 <= i < |rows| && rows[i].key == key :: rows[i] in r
    ensures SettingIndex(rows, key).Some? <==> |r| > 0
    ensures |r| > 0 ==> r[0] == rows[SettingIndex(rows, key).value]
  {
    if |rows| == 0 then []
    else if rows[0].key == key then [rows[0]] + SettingsWithKey(rows[1..], key)
    else SettingsWithKey(rows[1..], key)
  }

  function RewardIndex(rows: seq<RewardRow>, key: string): (r: Option<nat>)
    ensures r.Some? ==> (r.value < |rows| && rows[r.value].rewardKey == key
      && forall j | 0 <= j < r.value :: rows[j].rewardKey != key)
    ensures r.None? ==> forall j | 0 <= j < |rows| :: rows[j].rewardKey != key
  {
    if |rows| == 0 then None
    else if rows[0].rewardKey == key then Some(0)
    else match RewardIndex(rows[1..], key)
      case None => None
      case Some(i) => Some(i + 1)
  }

  /** `filter((r) => r.unlocked === 1)`, order kept. */
  function UnlockedRewards(rows: seq<RewardRow>): (r: seq<RewardRow>)
    ensures forall i | 0 <= i < |r| :: r[i].unlocked == 1 && r[i] in rows
    ensures forall i | 0 <= i < |rows| && rows[i].unlocked == 1 :: rows[i] in r
    ensures |r| <= |rows|
  {
    if |rows| == 0 then []
    else if rows[0].unlocked == 1 then [rows[0]] + UnlockedRewards(rows[1..])
    else UnlockedRewards(rows[1..])
  }

  /** The filter keeps every unlocked row as often as the table holds it
      and no locked row at all. */
  lemma {:induction false} UnlockedRewardsCounts(rows: seq<RewardRow>, x: RewardRow)
    ensures multiset(UnlockedRewards(rows))[x] == if x.unlocked == 1 then multiset(rows)[x] else 0
    decreases |rows|
  {
    if |rows| > 0 {
      UnlockedRewardsCounts(rows[1..], x);
      assert rows == [rows[0]] + rows[1..];
      assert multiset(rows) == multiset([rows[0]]) + multiset(rows[1..]);
    }
  }

  /** The filter keeps table order: filtering two tables one after the
      other is filtering each and joining the results. */
  lemma {:induction false} UnlockedRewardsAppend(a: seq<RewardRow>, b: seq<RewardRow>)
    ensures UnlockedRewards(a + b) == UnlockedRewards(a) + UnlockedRewards(b)
    decreases |a|
  {
    if |a| > 0 {
      assert (a + b)[1..] == a[1..] + b;
      UnlockedRewardsAppend(a[1..], b);
    } else {
      assert a + b == b;
    }
  }

  // ---------------------------------------------------------------- sorting

  /** `a.localeCompare(b) <= 0`, left abstract: any total preorder on keys. */
  ghost predicate TotalPreorder(le: (string, string) -> bool) {
    && (forall a, b :: le(a, b) || le(b, a))
    && (forall a, b, c :: le(a, b) && le(b, c) ==> le(a, c))
  }

  ghost predicate SortedByKey(rows: seq<ProgressRow>, le: (string, string) -> bool) {
    forall i, j | 0 <= i < j < |rows| :: le(rows[i].gameKey, rows[j].gameKey)
  }

  /** A row whose key is at most every key of a sorted list can go first. */
  lemma ConsSorted(y: ProgressRow, t: seq<ProgressRow>, le: (string, string) -> bool)
    requires SortedByKey(t, le)
    requires forall i | 0 <= i < |t| :: le(y.gameKey, t[i].gameKey)
    ensures SortedByKey([y] + t, le)
  {
    var u := [y] + t;
    forall i, j | 0 <= i < j < |u| ensures le(u[i].gameKey, u[j].gameKey) {
      if i > 0 {
        assert u[i] == t[i - 1] && u[j] == t[j - 1];
      } else {
        assert u[j] == t[j - 1];
      }
    }
  }

  /** When `x` goes after the head of a sorted list, the head is at most
      every key of the rest with `x` inserted. */
  lemma HeadBelowInserted(x: ProgressRow, rows: seq<ProgressRow>, t: seq<ProgressRow>, le: (string, string) -> bool)
    requires TotalPreorder(le) && SortedByKey(rows, le) && |rows| > 0
    requires !le(x.gameKey, rows[0].gameKey)
    requires multiset(t) == multiset(rows[1..]) + multiset{x}
    ensures forall i | 0 <= i < |t| :: le(rows[0].gameKey, t[i].gameKey)
  {
    forall i | 0 <= i < |t| ensures le(rows[0].gameKey, t[i].gameKey) {
      assert t[i] in multiset(t);
      if t[i] != x {
        assert t[i] in multiset(rows[1..]);
        var k :| 0 <= k < |rows[1..]| && rows[1..][k] == t[i];
        assert rows[k + 1] == t[i];
      }
    }
  }

  function InsertByKey(x: ProgressRow, rows: seq<ProgressRow>, le: (string, string) -> bool): (r: seq<ProgressRow>)
    requires TotalPreorder(le) && SortedByKey(rows, le)
    ensures SortedByKey(r, le)
    ensures multiset(r) == multiset(rows) + multiset{x}
    ensures |r| == |rows| + 1
  {
    if |rows| == 0 then [x]
    else if le(x.gameKey, rows[0].gameKey) then
      assert forall i | 0 <= i < |rows| :: le(x.gameKey, rows[i].gameKey);
      ConsSorted(x, rows, le);
      [x] + rows
    else
      var t := InsertByKey(x, rows[1..], le);
      HeadBelowInserted(x, rows, t, le);
      ConsSorted(rows[0], t, le);
      assert rows == [rows[0]] + rows[1..];
      [rows[0]] + t
  }

  /** `[...rows].sort((a, b) => a.game_key.localeCompare(b.game_key))`. */
  function SortByKey(rows: seq<ProgressRow>, le: (string, string) -> bool): (r: seq<ProgressRow>)
    requires TotalPreorder(le)
    ensures SortedByKey(r, le)
    ensures multiset(r) == multiset(rows)
  {
    if |rows| == 0 then []
    else
      assert rows == [rows[0]] + rows[1..];
      InsertByKey(rows[0], SortByKey(rows[1..], le), le)
  }

  // -------------------------------------------------------------- executeSQL

  /** The branches of `executeSQL`. */
  datatype Statement =
    | UpsertSetting
    | SelectUser
    | SelectProgressByKey
    | SelectAllProgress
    | SelectUnlockedRewards
    | SelectSettingByKey
    | Unrecognised

  /** The branch `executeSQL` takes for the statement text `sql`: the text is
      trimmed and upper-cased, the settings upsert is recognised first, and
      the `SELECT` cases are tried in source order. */
  function Classify(sql: string): (k: Statement)
    ensures var u := Upper(Trim(sql));
      && (k == UpsertSetting <==> Contains(u, "INSERT OR REPLACE INTO SETTINGS"))
      && (k != UpsertSetting && k != Unrecognised ==> StartsWith(u, "SELECT"))
      && (k == SelectUser ==> Contains(u, "FROM USER"))
      && (k == SelectProgressByKey <==> (k != UpsertSetting && StartsWith(u, "SELECT") && !Contains(u, "FROM USER")
            && Contains(u, "FROM GAME_PROGRESS") && Contains(u, "WHERE")))
  {
    var u := Upper(Trim(sql));
    if Contains(u, "INSERT OR REPLACE INTO SETTINGS") then UpsertSetting
    else if StartsWith(u, "SELECT") then
      if Contains(u, "FROM USER") then SelectUser
      else if Contains(u, "FROM GAME_PROGRESS") && Contains(u, "WHERE") then SelectProgressByKey
      else if Contains(u, "FROM GAME_PROGRESS") then SelectAllProgress
      else if Contains(u, "FROM REWARDS") then SelectUnlockedRewards
      else if Contains(u, "FROM SETTINGS") && Contains(u, "WHERE") then SelectSettingByKey
      else Unrecognised
    else Unrecognised
  }

  /** What a statement returns. */
  datatype Rows =
    | Users(users: seq<UserRow>)
    | Progress(rows: seq<ProgressRow>)
    | Rewards(rewards: seq<RewardRow>)
    | Settings(settings: seq<SettingRow>)
    | NoRows

  /** The settings upsert: the row with `key` keeps its id and is
      overwritten, otherwise a row with id `length + 1` is appended. */
  function UpsertSettingRows(rows: seq<SettingRow>, key: string, value: Option<string>): (r: seq<SettingRow>)
    ensures SettingIndex(rows, key).Some? ==>
      var i := SettingIndex(rows, key).value;
      |r| == |rows| && r == rows[i := SettingRow(rows[i].id, key, value)]
    ensures SettingIndex(rows, key).None? ==>
      r == rows + [SettingRow(|rows| + 1, key, value)]
  {
    match SettingIndex(rows, key)
    case Some(i) => rows[i := SettingRow(rows[i].id, key, value)]
    case None => rows + [SettingRow(|rows| + 1, key, value)]
  }

  /** `executeSQL` after classification; `arg` and `value` are `params[0]`
      and `params[1]`. */
  function Run(s: Store, k: Statement, arg: string, value: Option<string>, le: (string, string) -> bool): (r: (Store, Rows))
    requires TotalPreorder(le)
    ensures k != UpsertSetting ==> r.0 == s
    ensures k == UpsertSetting ==> r.0 == s.(settings := UpsertSettingRows(s.settings, arg, value)) && r.1 == NoRows
    ensures k == Unrecognised ==> r.1 == NoRows
    ensures k == SelectUser ==> r.1 == Users(if |s.user| > 0 then [s.user[0]] else [])
  {
    match k
    case UpsertSetting => (s.(settings := UpsertSettingRows(s.settings, arg, value)), NoRows)
    case SelectUser =>
      assert |s.user| > 0 ==> s.user[..1] == [s.user[0]];
      (s, Users(s.user[..Min(1, |s.user|)]))
    case SelectProgressByKey => (s, Progress(ProgressWithKey(s.progress, arg)))
    case SelectAllProgress => (s, Progress(SortByKey(s.progress, le)))
    case SelectUnlockedRewards => (s, Rewards(UnlockedRewards(s.rewards)))
    case SelectSettingByKey => (s, Settings(SettingsWithKey(s.settings, arg)))
    case Unrecognised => (s, NoRows)
  }

  /** `executeSQL(sql, [arg, value])`. */
  function ExecuteSQL(s: Store, sql: string, arg: string, value: Option<string>, le: (string, string) -> bool): (r: (Store, Rows))
    requires TotalPreorder(le)
    ensures !Contains(Upper(Trim(sql)), "INSERT OR REPLACE INTO SETTINGS") ==> r.0 == s
    ensures !Contains(Upper(Trim(sql)), "INSERT OR REPLACE INTO SETTINGS") && !StartsWith(Upper(Trim(sql)), "SELECT") ==> r.1 == NoRows
  {
    Run(s, Classify(sql), arg, value, le)
  }

  // ---------------------------------------------------------------- the API

  /** `getUser()`: the first user row, if any. */
  function GetUser(s: Store): (r: Option<UserRow>)
    ensures r.Some? <==> |s.user| > 0
    ensures r.Some? ==> r.value == s.user[0]
  {
    var rows := s.user[..Min(1, |s.user|)];
    if |rows| > 0 then Some(rows[0]) else None
  }

  /** The default avatar as the browser backend's source writes it: the four
      UTF-8 bytes of U+1F466 (the boy emoji) each read as a Windows-1252
      character, so the text stored is four characters, not the emoji. */
  const DefaultAvatar: string := "\U{00F0}\U{0178}\U{2018}\U{00A6}"

  /** The avatar `avatar || DefaultAvatar` keeps: a missing or empty avatar
      falls back to the default. */
  function AvatarOrDefault(avatar: Option<string>): (r: string)
    ensures avatar.Some? && avatar.value != "" ==> r == avatar.value
    ensures avatar.None? || avatar.value == "" ==> r == DefaultAvatar
  {
    if avatar.Some? && avatar.value != "" then avatar.value else DefaultAvatar
  }

  /** The boy emoji, one code point. */
  const BoyEmoji: string := "\U{1F466}"

  /** The fallback with the emoji itself, the default the SQLite backend
      stores. */
  function AvatarOrDefaultFixed(avatar: Option<string>): (r: string)
    ensures avatar.Some? && avatar.value != "" ==> r == avatar.value
    ensures avatar.None? || avatar.value == "" ==> r == BoyEmoji && |r| == 1
  {
    if avatar.Some? && avatar.value != "" then avatar.value else BoyEmoji
  }

  /** The four-byte UTF-8 encoding of a code point outside the basic plane,
      as byte values. */
  function Utf8Four(c: nat): (r: seq<nat>)
    requires 0x10000 <= c < 0x110000
    ensures |r| == 4 && 0xF0 <= r[0] <= 0xF4
    ensures forall i | 1 <= i < 4 :: 0x80 <= r[i] < 0xC0
    ensures (r[0] - 0xF0) * 0x40000 + (r[1] - 0x80) * 0x1000 + (r[2] - 0x80) * 0x40 + (r[3] - 0x80) == c
  {
    var c1 := c / 0x40;
    var c2 := c1 / 0x40;
    var top := c2 / 0x40;
    assert c == c1 * 0x40 + c % 0x40 && c1 == c2 * 0x40 + c1 % 0x40 && c2 == top * 0x40 + c2 % 0x40;
    assert c2 < 0x110;
    [0xF0 + top, 0x80 + c2 % 0x40, 0x80 + c1 % 0x40, 0x80 + c % 0x40]
  }

  /** The Windows-1252 characters of the bytes 0x80..0x9F that differ from
      the Latin-1 code point of the same number. */
  function Cp1252High(): map<nat, char> {
    map[0x80 := '\U{20AC}', 0x82 := '\U{201A}', 0x83 := '\U{0192}', 0x84 := '\U{201E}',
        0x85 := '\U{2026}', 0x86 := '\U{2020}', 0x87 := '\U{2021}', 0x88 := '\U{02C6}',
        0x89 := '\U{2030}', 0x8A := '\U{0160}', 0x8B := '\U{2039}', 0x8C := '\U{0152}',
        0x8E := '\U{017D}', 0x91 := '\U{2018}', 0x92 := '\U{2019}', 0x93 := '\U{201C}',
        0x94 := '\U{201D}', 0x95 := '\U{2022}', 0x96 := '\U{2013}', 0x97 := '\U{2014}',
        0x98 := '\U{02DC}', 0x99 := '\U{2122}', 0x9A := '\U{0161}', 0x9B := '\U{203A}',
        0x9C := '\U{0153}', 0x9E := '\U{017E}', 0x9F := '\U{0178}']
  }

  /** A byte read as a Windows-1252 character. */
  function Cp1252(b: nat): (c: char)
    requires b < 0x100
    ensures b !in Cp1252High() ==> c as int == b
  {
    if b in Cp1252High() then Cp1252High()[b] else b as char
  }

  /** The stored default is the emoji's UTF-8 bytes misread as Windows-1252. */
  lemma DefaultAvatarIsMisreadEmoji()
    ensures var bytes := Utf8Four(0x1F466);
      DefaultAvatar == [Cp1252(bytes[0]), Cp1252(bytes[1]), Cp1252(bytes[2]), Cp1252(bytes[3])]
    ensures DefaultAvatar != BoyEmoji && |DefaultAvatar| == 4
  {
    BoyEmojiBytes();
    var high := Cp1252High();
    assert high[0x9F] == '\U{0178}' && high[0x91] == '\U{2018}';
  }

  /** The UTF-8 bytes of the boy emoji. */
  lemma BoyEmojiBytes()
    ensures Utf8Four(0x1F466) == [0xF0, 0x9F, 0x91, 0xA6]
  {
  }

  /** `createUser(name, age, avatar)`: the user table becomes exactly one
      row with id 1. `age == None` is the `NaN` a non-numeric age parses to
      (saved as `null`). */
  function CreateUser(s: Store, name: string, age: Option<int>, avatar: Option<string>): (r: Store)
    ensures r.user == [UserRow(1, name, age, Some(AvatarOrDefault(avatar)))]
    ensures r.progress == s.progress && r.rewards == s.rewards && r.settings == s.settings
  {
    s.(user := [UserRow(1, name, age, Some(AvatarOrDefault(avatar)))])
  }

  lemma CreateThenGetUser(s: Store, name: string, age: Option<int>, avatar: Option<string>)
    ensures GetUser(CreateUser(s, name, age, avatar)) == Some(UserRow(1, name, age, Some(AvatarOrDefault(avatar))))
  {
  }

  /** `getGameProgress(key)`: the first row with that key, if any. */
  function GetGameProgress(s: Store, key: string): (r: Option<ProgressRow>)
    ensures r.None? <==> forall i | 0 <= i < |s.progress| :: s.progress[i].gameKey != key
    ensures r.Some? ==> r.value in s.progress && r.value.gameKey == key
    ensures r.Some? ==> exists i | 0 <= i < |s.progress| :: (s.progress[i] == r.value
      && forall j | 0 <= j < i :: s.progress[j].gameKey != key)
  {
    var rows := ProgressWithKey(s.progress, key);
    if |rows| > 0 then Some(rows[0]) else None
  }

  /** The optional fields of `updateGameProgress(key, data)`. */
  datatype Patch = Patch(level: Option<int>, score: Option<int>, completed: Option<int>, stars: Option<int>, playtime: Option<int>)

  function Or(o: Option<int>, d: int): int {
    if o.Some? then o.value else d
  }

  function ApplyPatch(row: ProgressRow, p: Patch, now: string): (r: ProgressRow)
    ensures r.id == row.id && r.gameKey == row.gameKey && r.lastPlayed == Some(now)
    ensures r.level == (if p.level.Some? then p.level.value else row.level)
    ensures r.score == (if p.score.Some? then p.score.value else row.score)
    ensures r.completed == (if p.completed.Some? then p.completed.value else row.completed)
    ensures r.stars == (if p.stars.Some? then p.stars.value else row.stars)
    ensures r.playtime == (if p.playtime.Some? then p.playtime.value else row.playtime)
  {
    row.(level := Or(p.level, row.level), score := Or(p.score, row.score),
         completed := Or(p.completed, row.completed), stars := Or(p.stars, row.stars),
         playtime := Or(p.playtime, row.playtime), lastPlayed := Some(now))
  }

  /** `updateGameProgress(key, data)`: the first row with the key receives the
      supplied fields and a new play date; without such a row nothing
      changes (no row is created). */
  function UpdateGameProgress(s: Store, key: string, p: Patch, now: string): (r: Store)
    ensures ProgressIndex(s.progress, key).None? ==> r == s
    ensures r.user == s.user && r.rewards == s.rewards && r.settings == s.settings
    ensures |r.progress| == |s.progress|
    ensures ProgressIndex(s.progress, key).Some? ==>
      r.progress[ProgressIndex(s.progress, key).value] == ApplyPatch(s.progress[ProgressIndex(s.progress, key).value], p, now)
    ensures forall j | 0 <= j < |s.progress| && Some(j) != ProgressIndex(s.progress, key) :: r.progress[j] == s.progress[j]
  {
    match ProgressIndex(s.progress, key)
    case None => s
    case Some(i) => s.(progress := s.progress[i := ApplyPatch(s.progress[i], p, now)])
  }

  /** After an update the row read back carries the supplied values. */
  lemma UpdateThenGet(s: Store, key: string, p: Patch, now: string)
    requires GetGameProgress(s, key).Some?
    ensures var row := GetGameProgress(UpdateGameProgress(s, key, p, now), key);
      row == Some(ApplyPatch(GetGameProgress(s, key).value, p, now))
  {
    var i := ProgressIndex(s.progress, key).value;
    var r := UpdateGameProgress(s, key, p, now);
    assert ProgressIndex(r.progress, key) == Some(i) by {
      ProgressIndexAfterUpdate(s.progress, key, i, ApplyPatch(s.progress[i], p, now));
    }
  }

  lemma {:induction false} ProgressIndexAfterUpdate(rows: seq<ProgressRow>, key: string, i: nat, x: ProgressRow)
    requires ProgressIndex(rows, key) == Some(i) && x.gameKey == key
    ensures ProgressIndex(rows[i := x], key) == Some(i)
  {
    if i > 0 {
      assert rows[i := x][1..] == rows[1..][i - 1 := x];
      ProgressIndexAfterUpdate(rows[1..], key, i - 1, x);
    }
  }

  /** `getAllProgress()`: every row, ordered by key. */
  function GetAllProgress(s: Store, le: (string, string) -> bool): (r: seq<ProgressRow>)
    requires TotalPreorder(le)
    ensures SortedByKey(r, le)
    ensures multiset(r) == multiset(s.progress)
  {
    Run(s, SelectAllProgress, "", None, le).1.rows
  }

  /** No two rows share a reward key. */
  ghost predicate UniqueRewardKeys(rows: seq<RewardRow>) {
    forall i, j | 0 <= i < j < |rows| :: rows[i].rewardKey != rows[j].rewardKey
  }

  /** `unlockReward(key, name)`: the row with the key is marked unlocked in
      place; otherwise a new unlocked row with id `length + 1` is appended. */
  function UnlockReward(s: Store, key: string, name: string, now: string): (r: Store)
    ensures r.user == s.user && r.progress == s.progress && r.settings == s.settings
    ensures RewardIndex(s.rewards, key).Some? ==> (|r.rewards| == |s.rewards|
      && r.rewards[RewardIndex(s.rewards, key).value]
         == RewardRow(s.rewards[RewardIndex(s.rewards, key).value].id, key, Some(name), 1, Some(now)))
    ensures |r.rewards| >= |s.rewards|
    ensures forall j | 0 <= j < |s.rewards| && Some(j) != RewardIndex(s.rewards, key) :: r.rewards[j] == s.rewards[j]
    ensures RewardIndex(s.rewards, key).None? ==>
      r.rewards == s.rewards + [RewardRow(|s.rewards| + 1, key, Some(name), 1, Some(now))]
    ensures UniqueRewardKeys(s.rewards) ==> UniqueRewardKeys(r.rewards)
  {
    match RewardIndex(s.rewards, key)
    case Some(i) =>
      var old_ := s.rewards[i];
      s.(rewards := s.rewards[i := old_.(rewardName := Some(name), unlocked := 1, unlockedAt := Some(now))])
    case None =>
      s.(rewards := s.rewards + [RewardRow(|s.rewards| + 1, key, Some(name), 1, Some(now))])
  }

  /** `getRewards()`: the unlocked rows. */
  function GetRewards(s: Store, le: (string, string) -> bool): (r: seq<RewardRow>)
    requires TotalPreorder(le)
    ensures forall x :: x in r <==> x in s.rewards && x.unlocked == 1
    ensures r == UnlockedRewards(s.rewards)
  {
    Run(s, SelectUnlockedRewards, "", None, le).1.rewards
  }

  /** An unlocked reward is listed afterwards. */
  lemma UnlockThenListed(s: Store, key: string, name: string, now: string, le: (string, string) -> bool)
    requires TotalPreorder(le)
    ensures RewardRow(Or(if RewardIndex(s.rewards, key).Some? then Some(s.rewards[RewardIndex(s.rewards, key).value].id) else None, |s.rewards| + 1),
                      key, Some(name), 1, Some(now)) in GetRewards(UnlockReward(s, key, name, now), le)
  {
  }

  /** `getSetting(key)`: the first row's value, `None` when there is no row
      or its value is `null`. */
  function GetSetting(s: Store, key: string, le: (string, string) -> bool): (r: Option<string>)
    requires TotalPreorder(le)
    ensures SettingIndex(s.settings, key).None? ==> r.None?
    ensures SettingIndex(s.settings, key).Some? ==> r == s.settings[SettingIndex(s.settings, key).value].value
  {
    var rows := Run(s, SelectSettingByKey, key, None, le).1.settings;
    if |rows| > 0 && rows[0].value.Some? then rows[0].value else None
  }

  /** `setSetting(key, value)`. */
  function SetSetting(s: Store, key: string, value: string, le: (string, string) -> bool): (r: Store)
    requires TotalPreorder(le)
    ensures r.user == s.user && r.progress == s.progress && r.rewards == s.rewards
  {
    Run(s, UpsertSetting, key, Some(value), le).0
  }

  /** Reading a setting back gives the value just written. */
  lemma SetThenGet(s: Store, key: string, value: string, le: (string, string) -> bool)
    requires TotalPreorder(le)
    ensures GetSetting(SetSetting(s, key, value, le), key, le) == Some(value)
  {
    var rows := SetSetting(s, key, value, le).settings;
    match SettingIndex(s.settings, key)
    case Some(i) =>
      SettingIndexAfterUpdate(s.settings, key, i, SettingRow(s.settings[i].id, key, Some(value)));
    case None =>
      SettingIndexAppend(s.settings, key, SettingRow(|s.settings| + 1, key, Some(value)));
  }

  /** Writing one key leaves every other key's value as it was. */
  lemma SetLeavesOthers(s: Store, key: string, other: string, value: string, le: (string, string) -> bool)
    requires TotalPreorder(le) && other != key
    ensures GetSetting(SetSetting(s, key, value, le), other, le) == GetSetting(s, other, le)
  {
    var rows := SetSetting(s, key, value, le).settings;
    match SettingIndex(s.settings, key)
    case Some(i) =>
      SettingIndexOtherKey(s.settings, other, i, SettingRow(s.settings[i].id, key, Some(value)));
    case None =>
      SettingIndexAppendOther(s.settings, other, SettingRow(|s.settings| + 1, key, Some(value)));
  }

  lemma {:induction false} SettingIndexAfterUpdate(rows: seq<SettingRow>, key: string, i: nat, x: SettingRow)
    requires SettingIndex(rows, key) == Some(i) && x.key == key
    ensures SettingIndex(rows[i := x], key) == Some(i)
  {
    if i > 0 {
      assert rows[i := x][1..] == rows[1..][i - 1 := x];
      SettingIndexAfterUpdate(rows[1..], key, i - 1, x);
    }
  }

  lemma {:induction false} SettingIndexAppend(rows: seq<SettingRow>, key: string, x: SettingRow)
    requires SettingIndex(rows, key).None? && x.key == key
    ensures SettingIndex(rows + [x], key) == Some(|rows|)
  {
    if |rows| > 0 {
      assert (rows + [x])[1..] == rows[1..] + [x];
      SettingIndexAppend(rows[1..], key, x);
    }
  }

  lemma {:induction false} SettingIndexOtherKey(rows: seq<SettingRow>, other: string, i: nat, x: SettingRow)
    requires i < |rows| && rows[i].key == x.key && x.key != other
    ensures SettingIndex(rows[i := x], other) == SettingIndex(rows, other)
    ensures SettingIndex(rows, other).Some? ==> rows[i := x][SettingIndex(rows, other).value] == rows[SettingIndex(rows, other).value]
  {
    if i > 0 {
      assert rows[i := x][1..] == rows[1..][i - 1 := x];
      SettingIndexOtherKey(rows[1..], other, i - 1, x);
    }
  }

  lemma {:induction false} SettingIndexAppendOther(rows: seq<SettingRow>, other: string, x: SettingRow)
    requires x.key != other
    ensures SettingIndex(rows + [x], other) == SettingIndex(rows, other)
  {
    if |rows| > 0 {
      assert (rows + [x])[1..] == rows[1..] + [x];
      SettingIndexAppendOther(rows[1..], other, x);
    }
  }

  /** No two settings rows share a key. */
  ghost predicate UniqueSettingKeys(rows: seq<SettingRow>) {
    forall i, j | 0 <= i < j < |rows| :: rows[i].key != rows[j].key
  }

  /** The upsert keeps keys unique, keeps the id and the row count of an
      existing key, and otherwise grows the table by one row. */
  lemma SetSettingShape(s: Store, key: string, value: string, le: (string, string) -> bool)
    requires TotalPreorder(le)
    ensures var r := SetSetting(s, key, value, le).settings;
      && (UniqueSettingKeys(s.settings) ==> UniqueSettingKeys(r))
      && (SettingIndex(s.settings, key).Some? ==>
            |r| == |s.settings| && r[SettingIndex(s.settings, key).value].id == s.settings[SettingIndex(s.settings, key).value].id)
      && (SettingIndex(s.settings, key).None? ==> |r| == |s.settings| + 1 && r[|s.settings|].id == |s.settings| + 1)
  {
  }
}
