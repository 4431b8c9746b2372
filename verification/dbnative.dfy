/** The SQLite backend: the statement texts and parameter lists it hands to
    the engine, the `SELECT`-prefix dispatch of `executeSQL`, and the
    first-row / `null` logic of the readers. The engine itself is not
    modelled: a query's rows are a parameter. */
module DbNative {
  import opened Common
  import opened Strings
  import DbWeb

  /** A value bound to a `?` placeholder. */
  datatype Value = Int(i: int) | Text(s: string) | Null

  /** `executeSQL` sends the statement to the query path exactly when its
      trimmed, upper-cased text starts with `SELECT`. */
  function IsQuery(sql: string): (r: bool)
    ensures r <==> var t := Trim(sql);
      |t| >= 6 && forall i | 0 <= i < 6 :: UpperChar(t[i]) == "SELECT"[i]
  {
    StartsWith(Upper(Trim(sql)), "SELECT")
  }

  /** `executeSQL(sql, params)`: a query returns the engine's rows, any other
      statement is run for its effect and returns nothing. */
  function ExecuteSQL<R>(sql: string, engineRows: seq<R>): (r: seq<R>)
    ensures IsQuery(sql) ==> r == engineRows
    ensures !IsQuery(sql) ==> r == []
  {
    if IsQuery(sql) then engineRows else []
  }

  /** `result.length > 0 ? result[0] : null`. */
  function FirstRow<R>(rows: seq<R>): (r: Option<R>)
    ensures r.Some? <==> |rows| > 0
    ensures r.Some? ==> r.value == rows[0]
  {
    if |rows| > 0 then Some(rows[0]) else None
  }

  // The statement texts, written as their verb followed by the rest.
  const UserQuery: string := "SELECT" + " * FROM user LIMIT 1"
  const ProgressQuery: string := "SELECT" + " * FROM game_progress WHERE game_key = ?"
  const SettingQuery: string := "SELECT" + " value FROM settings WHERE key = ?"
  const CreateUserStatement: string := "INSERT" + " INTO user (name, age, avatar) VALUES (?, ?, ?)"
  const SetSettingStatement: string := "INSERT" + " OR REPLACE INTO settings (key, value) VALUES (?, ?)"

  /** When the six-letter verb a statement starts with begins and ends with
      a non-blank character, the statement is a query exactly when the verb
      spells `SELECT` in any case. */
  lemma QueryByPrefix(verb: string, rest: string)
    requires |verb| == 6 && !IsJsSpace(verb[0]) && !IsJsSpace(verb[5])
    ensures IsQuery(verb + rest) <==> Upper(verb) == "SELECT"
  {
    var sql := verb + rest;
    assert sql[0] == verb[0] && sql[5] == verb[5];
    assert TrimStart(sql) == sql;
    var t := TrimEnd(sql);
    assert |t| > 5;
    assert t[..6] == verb;
    assert Upper(t)[..6] == Upper(verb);
  }

  /** A statement starting with `SELECT` is a query. */
  lemma SelectIsQuery(rest: string)
    ensures IsQuery("SELECT" + rest)
  {
    QueryByPrefix("SELECT", rest);
    UpperOfCapitals("SELECT");
  }

  /** A statement starting with `INSERT` is not. */
  lemma InsertIsNotQuery(rest: string)
    ensures !IsQuery("INSERT" + rest)
  {
    QueryByPrefix("INSERT", rest);
    assert Upper("INSERT")[0] == 'I';
  }

  lemma UserQueryIsQuery()
    ensures IsQuery(UserQuery)
  {
    SelectIsQuery(" * FROM user LIMIT 1");
  }

  lemma ProgressQueryIsQuery()
    ensures IsQuery(ProgressQuery)
  {
    SelectIsQuery(" * FROM game_progress WHERE game_key = ?");
  }

  lemma SettingQueryIsQuery()
    ensures IsQuery(SettingQuery)
  {
    SelectIsQuery(" value FROM settings WHERE key = ?");
  }

  /** The writers start with `INSERT`, so they run without a result. */
  lemma WritersAreNotQueries()
    ensures !IsQuery(CreateUserStatement) && !IsQuery(SetSettingStatement)
  {
    InsertIsNotQuery(" INTO user (name, age, avatar) VALUES (?, ?, ?)");
    InsertIsNotQuery(" OR REPLACE INTO settings (key, value) VALUES (?, ?)");
  }

  /** The reader statements take the query path, the writers do not. */
  lemma StatementsDispatch()
    ensures IsQuery(UserQuery) && IsQuery(ProgressQuery) && IsQuery(SettingQuery)
    ensures !IsQuery(CreateUserStatement) && !IsQuery(SetSettingStatement)
  {
    UserQueryIsQuery();
    ProgressQueryIsQuery();
    SettingQueryIsQuery();
    WritersAreNotQueries();
  }

  /** `getUser()`, given the rows the engine returns for its query. */
  function GetUser<R>(engineRows: seq<R>): (r: Option<R>)
    ensures r.Some? <==> |engineRows| > 0
    ensures r.Some? ==> r.value == engineRows[0]
  {
    StatementsDispatch();
    FirstRow(ExecuteSQL(UserQuery, engineRows))
  }

  /** `getGameProgress(key)`, given the engine's rows for its query. */
  function GetGameProgress<R>(engineRows: seq<R>): (r: Option<R>)
    ensures r.Some? <==> |engineRows| > 0
    ensures r.Some? ==> r.value == engineRows[0]
  {
    StatementsDispatch();
    FirstRow(ExecuteSQL(ProgressQuery, engineRows))
  }

  /** `getSetting(key)`, given the `value` column of the engine's rows:
      `null` when there is no row or the first row's value is `null`. */
  function GetSetting(values: seq<Option<string>>): (r: Option<string>)
    ensures r.Some? <==> |values| > 0 && values[0].Some?
    ensures r.Some? ==> r == values[0]
  {
    StatementsDispatch();
    var rows := ExecuteSQL(SettingQuery, values);
    if |rows| > 0 && rows[0].Some? then rows[0] else None
  }

  /** The two backends agree on `getSetting` when the engine returns the
      matching rows in table order. */
  lemma GetSettingAgrees(s: DbWeb.Store, key: string, le: (string, string) -> bool)
    requires DbWeb.TotalPreorder(le)
    ensures DbWeb.GetSetting(s, key, le) == GetSetting(ValuesOf(DbWeb.SettingsWithKey(s.settings, key)))
  {
  }

  function ValuesOf(rows: seq<DbWeb.SettingRow>): (r: seq<Option<string>>)
    ensures |r| == |rows| && forall i | 0 <= i < |rows| :: r[i] == rows[i].value
  {
    if |rows| == 0 then [] else [rows[0].value] + ValuesOf(rows[1..])
  }

  /** The two backends agree on `getUser` when the engine returns the user
      table in row order. */
  lemma GetUserAgrees(s: DbWeb.Store)
    ensures DbWeb.GetUser(s) == GetUser(s.user)
  {
  }

  /** The two backends agree on `getGameProgress`. */
  lemma GetGameProgressAgrees(s: DbWeb.Store, key: string)
    ensures DbWeb.GetGameProgress(s, key) == GetGameProgress(DbWeb.ProgressWithKey(s.progress, key))
  {
  }

  /** The default avatar of `createUser` here: the boy emoji, U+1F466. */
  const DefaultAvatar: string := "\U{1F466}"

  /** `avatar || '👦'`: a given non-empty avatar is kept, a missing or empty
      one becomes the emoji. */
  function AvatarOrDefault(avatar: Option<string>): (r: string)
    ensures avatar.Some? && avatar.value != "" ==> r == avatar.value
    ensures avatar.None? || avatar.value == "" ==> r == DefaultAvatar
  {
    if avatar.Some? && avatar.value != "" then avatar.value else DefaultAvatar
  }

  /** The parameters of `createUser`. */
  function CreateUserParams(name: string, age: Option<int>, avatar: Option<string>): (r: seq<Value>)
    ensures |r| == 3 && r[0] == Text(name)
    ensures r[1] == (if age.Some? then Int(age.value) else Null)
    ensures r[2] == Text(AvatarOrDefault(avatar))
  {
    [Text(name), if age.Some? then Int(age.value) else Null, Text(AvatarOrDefault(avatar))]
  }

  /** The two backends store different avatars for a user created without
      one: the browser backend's is four characters, this one's the emoji. */
  lemma BackendDefaultsDiffer(name: string, age: Option<int>)
    ensures DbWeb.CreateUser(DbWeb.Store([], [], [], []), name, age, None).user[0].avatar
      != Some(AvatarOrDefault(None))
  {
    DbWeb.DefaultAvatarIsMisreadEmoji();
  }

  /** With the emoji as its default the browser backend agrees with this one
      on every avatar. */
  lemma FixedDefaultsAgree(avatar: Option<string>)
    ensures DbWeb.AvatarOrDefaultFixed(avatar) == AvatarOrDefault(avatar)
  {
  }

  // ------------------------------------------------------ updateGameProgress

  /** The number of occurrences of `c` in `s`. */
  function Occurrences(s: string, c: char): nat {
    if |s| == 0 then 0 else (if s[0] == c then 1 else 0) + Occurrences(s[1..], c)
  }

  lemma {:induction false} OccurrencesAppend(a: string, b: string, c: char)
    ensures Occurrences(a + b, c) == Occurrences(a, c) + Occurrences(b, c)
  {
    if |a| == 0 {
      assert a + b == b;
    } else {
      assert (a + b)[1..] == a[1..] + b;
      OccurrencesAppend(a[1..], b, c);
    }
  }

  lemma {:induction false} OccurrencesAbsent(s: string, c: char)
    requires c !in s
    ensures Occurrences(s, c) == 0
  {
    if |s| > 0 {
      assert s[0] != c;
      OccurrencesAbsent(s[1..], c);
    }
  }

  /** The `key = ?` assignments, in `Object.keys` order. */
  function Assignments(data: seq<(string, int)>): (r: seq<string>)
    ensures |r| == |data|
    ensures forall i | 0 <= i < |data| :: r[i] == data[i].0 + " = ?"
  {
    if |data| == 0 then [] else Assignments(data[..|data| - 1]) + [data[|data| - 1].0 + " = ?"]
  }

  function ParamsOf(data: seq<(string, int)>): (r: seq<Value>)
    ensures |r| == |data|
    ensures forall i | 0 <= i < |data| :: r[i] == Int(data[i].1)
  {
    if |data| == 0 then [] else ParamsOf(data[..|data| - 1]) + [Int(data[|data| - 1].1)]
  }

  const SetPrefix: string := "UPDATE game_progress SET "
  const LastPlayed: string := "last_played = datetime('now')"
  const WhereKey: string := " WHERE game_key = " + "?"

  /** The statement `updateGameProgress(key, data)` runs, as written: the
      joined assignments, then `, last_played = …` unconditionally. */
  function UpdateStatement(gameKey: string, data: seq<(string, int)>): (r: (string, seq<Value>))
    ensures r.0 == SetPrefix + Join(Assignments(data), ", ") + ", " + LastPlayed + WhereKey
    ensures r.1 == ParamsOf(data) + [Text(gameKey)]
  {
    (SetPrefix + Join(Assignments(data), ", ") + ", " + LastPlayed + WhereKey,
     ParamsOf(data) + [Text(gameKey)])
  }

  /** Joined parts hold the placeholders of the parts and separators. */
  lemma {:induction false} OccurrencesJoin(parts: seq<string>, sep: string, c: char)
    requires Occurrences(sep, c) == 0
    ensures Occurrences(Join(parts, sep), c) == SumOccurrences(parts, c)
  {
    if |parts| > 1 {
      var init := parts[..|parts| - 1];
      OccurrencesJoin(init, sep, c);
      OccurrencesAppend(Join(init, sep), sep, c);
      OccurrencesAppend(Join(init, sep) + sep, parts[|parts| - 1], c);
    }
  }

  function SumOccurrences(parts: seq<string>, c: char): nat {
    if |parts| == 0 then 0 else SumOccurrences(parts[..|parts| - 1], c) + Occurrences(parts[|parts| - 1], c)
  }

  /** Each assignment carries exactly one placeholder when the key has none. */
  lemma {:induction false} AssignmentPlaceholders(data: seq<(string, int)>)
    requires forall i | 0 <= i < |data| :: Occurrences(data[i].0, '?') == 0
    ensures SumOccurrences(Assignments(data), '?') == |data|
  {
    if |data| > 0 {
      var init := data[..|data| - 1];
      AssignmentPlaceholders(init);
      assert Assignments(data)[..|data| - 1] == Assignments(init);
      OccurrencesAppend(data[|data| - 1].0, " = ?", '?');
    }
  }

  // The fixed text around the assignments carries one placeholder, the one
  // for the game key.

  lemma SetPrefixPlaceholders()
    ensures Occurrences(SetPrefix, '?') == 0
  {
    OccurrencesAbsent(SetPrefix, '?');
  }

  lemma SeparatorPlaceholders()
    ensures Occurrences(", ", '?') == 0
  {
    OccurrencesAbsent(", ", '?');
  }

  lemma LastPlayedPlaceholders()
    ensures Occurrences(LastPlayed, '?') == 0
  {
    OccurrencesAbsent(LastPlayed, '?');
  }

  lemma WhereKeyPlaceholders()
    ensures Occurrences(WhereKey, '?') == 1
  {
    OccurrencesAbsent(" WHERE game_key = ", '?');
    OccurrencesAppend(" WHERE game_key = ", "?", '?');
  }

  /** The statement has exactly one placeholder per parameter: one per
      supplied field and one for the game key. */
  lemma PlaceholdersMatchParams(gameKey: string, data: seq<(string, int)>)
    requires forall i | 0 <= i < |data| :: Occurrences(data[i].0, '?') == 0
    ensures Occurrences(UpdateStatement(gameKey, data).0, '?') == |UpdateStatement(gameKey, data).1|
  {
    SeparatorPlaceholders();
    OccurrencesJoin(Assignments(data), ", ", '?');
    AssignmentPlaceholders(data);
    FixedTextPlaceholders(Join(Assignments(data), ", "), |data|);
  }

  /** Around the assignments the statement adds the game key's placeholder
      only. */
  lemma FixedTextPlaceholders(fields: string, n: nat)
    requires Occurrences(fields, '?') == n
    ensures Occurrences(SetPrefix + fields + ", " + LastPlayed + WhereKey, '?') == n + 1
  {
    SetPrefixPlaceholders();
    SeparatorPlaceholders();
    LastPlayedPlaceholders();
    WhereKeyPlaceholders();
    OccurrencesOfStatement(SetPrefix, fields, ", ", LastPlayed, WhereKey, n);
  }

  /** The placeholders of the five pieces of the statement add up. */
  lemma OccurrencesOfStatement(pre: string, fields: string, sep: string, last: string, tail: string, n: nat)
    requires Occurrences(pre, '?') == 0 && Occurrences(fields, '?') == n && Occurrences(sep, '?') == 0
    requires Occurrences(last, '?') == 0 && Occurrences(tail, '?') == 1
    ensures Occurrences(pre + fields + sep + last + tail, '?') == n + 1
  {
    OccurrencesAppend(pre, fields, '?');
    OccurrencesAppend(pre + fields, sep, '?');
    OccurrencesAppend(pre + fields + sep, last, '?');
    OccurrencesAppend(pre + fields + sep + last, tail, '?');
  }

  /** The SET list of a well-formed statement: the assignments followed by
      the `last_played` stamp, separated by commas. */
  function WellFormedUpdate(data: seq<(string, int)>): string {
    SetPrefix + Join(Assignments(data) + [LastPlayed], ", ") + WhereKey
  }

  lemma JoinSnoc(parts: seq<string>, last: string, sep: string)
    requires |parts| > 0
    ensures Join(parts + [last], sep) == Join(parts, sep) + sep + last
  {
    assert (parts + [last])[..|parts|] == parts;
  }

  /** With at least one field the statement as written is well formed. */
  lemma UpdateStatementWellFormed(gameKey: string, data: seq<(string, int)>)
    ensures |data| > 0 ==> UpdateStatement(gameKey, data).0 == WellFormedUpdate(data)
  {
    if |data| > 0 {
      JoinSnoc(Assignments(data), LastPlayed, ", ");
    }
  }

  /** With no field at all the SET list starts with a bare comma. */
  lemma EmptyPatchMalformed(gameKey: string)
    ensures UpdateStatement(gameKey, []).0 == SetPrefix + ", " + LastPlayed + WhereKey
    ensures UpdateStatement(gameKey, []).0 != WellFormedUpdate([])
  {
    var bad := UpdateStatement(gameKey, []).0;
    assert Join(Assignments([]), ", ") == [];
    assert SetPrefix + [] == SetPrefix;
    assert bad[|SetPrefix|] == ',';
    assert Assignments([]) + [LastPlayed] == [LastPlayed];
    assert WellFormedUpdate([])[|SetPrefix|] == 'l';
  }

  /** The statement with the comma written only between non-empty parts. */
  function UpdateStatementFixed(gameKey: string, data: seq<(string, int)>): (r: (string, seq<Value>))
    ensures r.0 == WellFormedUpdate(data)
    ensures r.1 == ParamsOf(data) + [Text(gameKey)]
    ensures |data| > 0 ==> r == UpdateStatement(gameKey, data)
  {
    var fields := Join(Assignments(data), ", ");
    var set_ := if |data| == 0 then LastPlayed else fields + ", " + LastPlayed;
    UpdateStatementWellFormedFixed(data);
    UpdateStatementWellFormed(gameKey, data);
    (SetPrefix + set_ + WhereKey, ParamsOf(data) + [Text(gameKey)])
  }

  lemma UpdateStatementWellFormedFixed(data: seq<(string, int)>)
    ensures WellFormedUpdate(data) ==
      SetPrefix + (if |data| == 0 then LastPlayed else Join(Assignments(data), ", ") + ", " + LastPlayed) + WhereKey
  {
    if |data| > 0 {
      JoinSnoc(Assignments(data), LastPlayed, ", ");
    } else {
      assert Assignments(data) + [LastPlayed] == [LastPlayed];
    }
  }
}
