/** The home screen's first-run setup: the child's name and age are checked
    and the user row is written to the browser backend's store. */
module HomeScreen {
  import opened Common
  import opened Strings
  import DbWeb

  /** What tapping "Let's Play!" leads to. */
  datatype Outcome =
    | NameMissing
    | AgeOutOfRange
    | Created(store: DbWeb.Store, user: DbWeb.UserRow)

  /** `loadUser()`: the saved user, or the setup form when there is none. */
  function LoadUser(s: DbWeb.Store): (r: Option<DbWeb.UserRow>)
    ensures r.None? <==> |s.user| == 0
    ensures r.Some? ==> r.value == s.user[0]
  {
    DbWeb.GetUser(s)
  }

  /** `handleCreateUser()` as written: an all-blank name is refused first;
      then an empty age, or one that parses below 3 or above 12. An age
      with no leading digit parses to `NaN`, which fails both comparisons,
      so it is let through and saved as no age. */
  function HandleCreateUser(s: DbWeb.Store, name: string, age: string): (r: Outcome)
    ensures r == NameMissing <==> Trim(name) == []
    ensures r == AgeOutOfRange <==> (Trim(name) != [] && (age == [] ||
      (ParseInt(age).Some? && (ParseInt(age).value < 3 || ParseInt(age).value > 12))))
    ensures r.Created? ==>
      && r.user.name == Trim(name) && r.user.name != [] && r.user.age == ParseInt(age)
      && LoadUser(r.store) == Some(r.user)
      && r.store.progress == s.progress && r.store.settings == s.settings && r.store.rewards == s.rewards
  {
    if Trim(name) == [] then NameMissing
    else
      var n := ParseInt(age);
      if age == [] || (n.Some? && (n.value < 3 || n.value > 12)) then AgeOutOfRange
      else
        var u := DbWeb.CreateUser(s, Trim(name), n, None);
        DbWeb.CreateThenGetUser(s, Trim(name), n, None);
        Created(u, u.user[0])
  }

  /** Every age the form lets through is either in 3..12 or missing. */
  lemma CreatedAgeInRangeOrMissing(s: DbWeb.Store, name: string, age: string)
    requires HandleCreateUser(s, name, age).Created?
    ensures var a := HandleCreateUser(s, name, age).user.age;
      a.None? || 3 <= a.value <= 12
  {
  }

  /** Each age 3..12 typed as its digits is accepted and saved as typed. */
  lemma TypedAgeAccepted(s: DbWeb.Store, name: string, n: int)
    requires Trim(name) != [] && 3 <= n <= 12
    ensures HandleCreateUser(s, name, IntToString(n)).Created?
    ensures HandleCreateUser(s, name, IntToString(n)).user.age == Some(n)
  {
    ParseIntOfInt(n);
  }

  /** Only the leading digits count: `5x` is saved as 5. */
  lemma TrailingJunkIgnored(s: DbWeb.Store, name: string)
    requires Trim(name) != []
    ensures HandleCreateUser(s, name, "5x").Created?
    ensures HandleCreateUser(s, name, "5x").user.age == Some(5)
  {
    var t := "5x";
    DigitIsPlain('5');
    assert TrimStart(t) == t;
    assert t == "5" + "x";
    DigitPrefixOf("5", "x");
    assert DigitsValue("5") == 5;
  }

  /** As written, a two-letter age (the field takes two characters) passes
      the check and a user is created with no age. */
  lemma LettersAgeAccepted(s: DbWeb.Store, name: string)
    requires Trim(name) != []
    ensures HandleCreateUser(s, name, "ab").Created?
    ensures HandleCreateUser(s, name, "ab").user.age.None?
  {
    var t := "ab";
    assert !IsJsSpace(t[0]);
    assert TrimStart(t) == t;
    assert !IsDigit(t[0]);
  }

  /** `handleCreateUser()` with the age required to be a number: `NaN` is
      refused along with the out-of-range ages. */
  function HandleCreateUserFixed(s: DbWeb.Store, name: string, age: string): (r: Outcome)
    ensures r == NameMissing <==> Trim(name) == []
    ensures r == AgeOutOfRange <==> (Trim(name) != [] &&
      (ParseInt(age).None? || ParseInt(age).value < 3 || ParseInt(age).value > 12))
    ensures r.Created? ==>
      && r.user.name == Trim(name) && r.user.name != []
      && r.user.age.Some? && 3 <= r.user.age.value <= 12 && r.user.age == ParseInt(age)
      && LoadUser(r.store) == Some(r.user)
      && r.store.progress == s.progress && r.store.settings == s.settings && r.store.rewards == s.rewards
  {
    if Trim(name) == [] then NameMissing
    else
      var n := ParseInt(age);
      if n.None? || n.value < 3 || n.value > 12 then AgeOutOfRange
      else
        var u := DbWeb.CreateUser(s, Trim(name), n, None);
        DbWeb.CreateThenGetUser(s, Trim(name), n, None);
        Created(u, u.user[0])
  }

  /** The corrected form differs from the written one exactly on ages that
      do not parse, and creates the same user wherever both accept. */
  lemma FixedDiffersOnlyOnNaN(s: DbWeb.Store, name: string, age: string)
    ensures HandleCreateUserFixed(s, name, age) != HandleCreateUser(s, name, age) <==>
      Trim(name) != [] && age != [] && ParseInt(age).None?
  {
    if age == [] {
      assert ParseInt(age).None?;
    }
  }
}
