/** The in-memory progress cache: a map from game key to a progress record
    and the list of rewards. `updateProgress` can create a record from a
    partial one, so a cached record is a set of optional fields. */
module ProgressStore {
  import opened Common
  import DbWeb

  datatype Entry = Entry(
    id: Option<int>, gameKey: Option<string>, level: Option<int>, score: Option<int>,
    completed: Option<int>, stars: Option<int>, playtime: Option<int>, lastPlayed: Option<string>)

  /** The record with no field set: what `state.progress[gameKey]` spreads
      to when the key is absent. */
  const NoFields: Entry := Entry(None, None, None, None, None, None, None, None)

  /** A complete row as a cached record. */
  function Full(row: DbWeb.ProgressRow): (e: Entry)
    ensures e.gameKey == Some(row.gameKey) && e.id == Some(row.id)
  {
    Entry(Some(row.id), Some(row.gameKey), Some(row.level), Some(row.score),
          Some(row.completed), Some(row.stars), Some(row.playtime), row.lastPlayed)
  }

  datatype State = State(progress: map<string, Entry>, rewards: seq<DbWeb.RewardRow>)

  const Initial: State := State(map[], [])

  function Pick<T>(patch: Option<T>, base: Option<T>): Option<T> {
    if patch.Some? then patch else base
  }

  /** `{ ...base, ...patch }`: every field the patch sets wins. */
  function Overlay(base: Entry, patch: Entry): (r: Entry)
    ensures patch.level.Some? ==> r.level == patch.level
    ensures patch.level.None? ==> r.level == base.level
    ensures patch.score.Some? ==> r.score == patch.score
    ensures patch.score.None? ==> r.score == base.score
    ensures patch.gameKey.Some? ==> r.gameKey == patch.gameKey
    ensures patch.gameKey.None? ==> r.gameKey == base.gameKey
    ensures patch.id.Some? ==> r.id == patch.id
    ensures patch.id.None? ==> r.id == base.id
    ensures patch.completed.Some? ==> r.completed == patch.completed
    ensures patch.completed.None? ==> r.completed == base.completed
    ensures patch.stars.Some? ==> r.stars == patch.stars
    ensures patch.stars.None? ==> r.stars == base.stars
    ensures patch.playtime.Some? ==> r.playtime == patch.playtime
    ensures patch.playtime.None? ==> r.playtime == base.playtime
    ensures patch.lastPlayed.Some? ==> r.lastPlayed == patch.lastPlayed
    ensures patch.lastPlayed.None? ==> r.lastPlayed == base.lastPlayed
  {
    Entry(Pick(patch.id, base.id), Pick(patch.gameKey, base.gameKey), Pick(patch.level, base.level),
          Pick(patch.score, base.score), Pick(patch.completed, base.completed),
          Pick(patch.stars, base.stars), Pick(patch.playtime, base.playtime),
          Pick(patch.lastPlayed, base.lastPlayed))
  }

  /** Overlaying nothing changes nothing, overlaying on nothing gives the
      patch, and two successive overlays are one overlay of the merged
      patches. */
  lemma OverlayLaws(e: Entry, p: Entry, q: Entry)
    ensures Overlay(e, NoFields) == e
    ensures Overlay(NoFields, p) == p
    ensures Overlay(Overlay(e, p), q) == Overlay(e, Overlay(p, q))
  {
  }

  /** `setProgress(gameKey, data)`. */
  function SetProgress(s: State, gameKey: string, data: Entry): (r: State)
    ensures r.progress.Keys == s.progress.Keys + {gameKey}
    ensures r.progress[gameKey] == data
    ensures forall k | k in s.progress && k != gameKey :: r.progress[k] == s.progress[k]
    ensures r.rewards == s.rewards
  {
    s.(progress := s.progress[gameKey := data])
  }

  /** The cached record for a key, `NoFields` when absent. */
  function Lookup(s: State, gameKey: string): Entry {
    if gameKey in s.progress then s.progress[gameKey] else NoFields
  }

  /** `updateProgress(gameKey, data)`. */
  function UpdateProgress(s: State, gameKey: string, data: Entry): (r: State)
    ensures r.progress.Keys == s.progress.Keys + {gameKey}
    ensures gameKey in s.progress ==> r.progress[gameKey] == Overlay(s.progress[gameKey], data)
    ensures gameKey !in s.progress ==> r.progress[gameKey] == data
    ensures forall k | k in s.progress && k != gameKey :: r.progress[k] == s.progress[k]
    ensures r.rewards == s.rewards
  {
    OverlayLaws(Lookup(s, gameKey), data, data);
    s.(progress := s.progress[gameKey := Overlay(Lookup(s, gameKey), data)])
  }

  /** Two updates of one key are one update with the merged patch. */
  lemma UpdateTwice(s: State, gameKey: string, p: Entry, q: Entry)
    ensures UpdateProgress(UpdateProgress(s, gameKey, p), gameKey, q)
         == UpdateProgress(s, gameKey, Overlay(p, q))
  {
    OverlayLaws(Lookup(s, gameKey), p, q);
  }

  /** `addReward(reward)`. */
  function AddReward(s: State, reward: DbWeb.RewardRow): (r: State)
    ensures |r.rewards| == |s.rewards| + 1
    ensures r.rewards[..|s.rewards|] == s.rewards && r.rewards[|s.rewards|] == reward
    ensures r.progress == s.progress
  {
    s.(rewards := s.rewards + [reward])
  }

  /** The position of the last row with key `k`. */
  function LastIndex(rows: seq<DbWeb.ProgressRow>, k: string): (r: Option<nat>)
    ensures r.None? <==> forall i | 0 <= i < |rows| :: rows[i].gameKey != k
    ensures r.Some? ==> (r.value < |rows| && rows[r.value].gameKey == k
      && forall j | r.value < j < |rows| :: rows[j].gameKey != k)
  {
    if |rows| == 0 then None
    else if rows[|rows| - 1].gameKey == k then Some(|rows| - 1)
    else LastIndex(rows[..|rows| - 1], k)
  }

  /** The map `forEach` builds: each row in turn stored under its key, so
      the last row with a key wins. */
  function Load(rows: seq<DbWeb.ProgressRow>): (m: map<string, Entry>)
    ensures forall k :: k in m <==> LastIndex(rows, k).Some?
    ensures forall k | k in m :: m[k] == Full(rows[LastIndex(rows, k).value])
  {
    if |rows| == 0 then map[]
    else
      var init := rows[..|rows| - 1];
      var last := rows[|rows| - 1];
      Load(init)[last.gameKey := Full(last)]
  }

  /** The keys of the loaded map are exactly the keys of the rows. */
  lemma LoadKeys(rows: seq<DbWeb.ProgressRow>)
    ensures Load(rows).Keys == set i | 0 <= i < |rows| :: rows[i].gameKey
  {
    var m := Load(rows);
    assert forall i | 0 <= i < |rows| :: rows[i].gameKey in m;
    assert forall k | k in m :: k == rows[LastIndex(rows, k).value].gameKey;
  }

  /** A row with no later row of the same key is the one loaded. */
  lemma LoadLastWins(rows: seq<DbWeb.ProgressRow>, i: nat)
    requires i < |rows| && forall j | i < j < |rows| :: rows[j].gameKey != rows[i].gameKey
    ensures rows[i].gameKey in Load(rows) && Load(rows)[rows[i].gameKey] == Full(rows[i])
  {
    var k := rows[i].gameKey;
    assert LastIndex(rows, k).Some?;
    var l := LastIndex(rows, k).value;
    assert !(l < i) && !(i < l);
  }

  /** `loadProgress(all)`: the previous map is discarded; the keys are those
      of the rows and each maps to the last row carrying it. */
  function LoadProgress(s: State, rows: seq<DbWeb.ProgressRow>): (r: State)
    ensures r.progress.Keys == set i | 0 <= i < |rows| :: rows[i].gameKey
    ensures forall i | 0 <= i < |rows| && (forall j | i < j < |rows| :: rows[j].gameKey != rows[i].gameKey) ::
      r.progress[rows[i].gameKey] == Full(rows[i])
    ensures r.rewards == s.rewards
  {
    LoadKeys(rows);
    forall i | 0 <= i < |rows| && (forall j | i < j < |rows| :: rows[j].gameKey != rows[i].gameKey)
      ensures Load(rows)[rows[i].gameKey] == Full(rows[i])
    {
      LoadLastWins(rows, i);
    }
    s.(progress := Load(rows))
  }

  /** Loading is independent of what was cached before. */
  lemma LoadForgetsPrevious(s: State, t: State, rows: seq<DbWeb.ProgressRow>)
    ensures LoadProgress(s, rows).progress == LoadProgress(t, rows).progress
  {
  }

  /** `loadRewards(all)`. */
  function LoadRewards(s: State, all: seq<DbWeb.RewardRow>): (r: State)
    ensures r.rewards == all && r.progress == s.progress
  {
    s.(rewards := all)
  }
}
