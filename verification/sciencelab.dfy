/** Science Lab: the child picks one of four experiments, selects its
    ingredients from the nine on the shelf, and runs it. Ingredients are the
    shelf labels; an experiment is its index in the table. */
module ScienceLab {
  import opened Common
  import opened Difficulty

  const BakingSoda := "\U{1F30B} Baking Soda"
  const Vinegar := "\U{1F34B} Vinegar"
  const Seed := "\U{1F331} Seed"
  const Water := "\U{1F4A7} Water"
  const Sunlight := "\U{2600}\U{FE0F} Sunlight"
  const Magnet := "\U{1F9F2} Magnet"
  const Metal := "\U{1F4CE} Metal"
  const Prism := "\U{1F48E} Prism"
  const Light := "\U{2600}\U{FE0F} Light"

  datatype Experiment = Experiment(name: string, ingredients: seq<string>)

  /** `experiments`. */
  const Experiments: seq<Experiment> := [
    Experiment("Volcano", [BakingSoda, Vinegar]),
    Experiment("Plant Growth", [Seed, Water, Sunlight]),
    Experiment("Magnet Power", [Magnet, Metal]),
    Experiment("Rainbow", [Water, Light, Prism])
  ]

  /** The experiment names, in table order. */
  const Names: seq<string> := ["Volcano", "Plant Growth", "Magnet Power", "Rainbow"]

  /** `allIngredients`, the shelf. */
  const Shelf: seq<string> := [BakingSoda, Vinegar, Seed, Water, Sunlight, Magnet, Metal, Prism, Light]

  /** Every recipe can be assembled from the shelf, no recipe repeats an
      ingredient, and the experiment names are distinct. */
  lemma TablesConsistent()
    ensures forall e, x | 0 <= e < |Experiments| && x in Experiments[e].ingredients :: x in Shelf
    ensures forall e | 0 <= e < |Experiments| :: Distinct(Experiments[e].ingredients)
    ensures Distinct(Shelf)
    ensures |Names| == |Experiments| && forall e | 0 <= e < |Experiments| :: Experiments[e].name == Names[e]
    ensures Distinct(Names)
  {
    assert Sunlight != Light by { assert Sunlight[3] != Light[3]; }
  }

  /** Experiments to complete per level: three on easy, all four otherwise. */
  function Needed(t: Tier): (r: int)
    ensures t == Easy ==> r == 3
    ensures t != Easy ==> r == |Experiments|
  {
    if t == Easy then 3 else |Experiments|
  }

  datatype State = State(
    level: int, score: int, current: Option<nat>, selected: seq<string>, completed: seq<string>,
    pending: Option<int>)

  /** `selectExperiment(experiment)`. */
  function SelectExperiment(s: State, e: nat): (r: State)
    ensures r.current == Some(e) && r.selected == []
    ensures r.level == s.level && r.score == s.score && r.completed == s.completed && r.pending == s.pending
  {
    s.(current := Some(e), selected := [])
  }

  /** `toggleIngredient(ingredient)`: a selected ingredient is filtered out,
      any other is appended. */
  function ToggleIngredient(s: State, x: string): (r: State)
    ensures x in r.selected <==> x !in s.selected
    ensures forall y | y != x :: y in r.selected <==> y in s.selected
    ensures r == s.(selected := r.selected)
  {
    if x in s.selected then s.(selected := Without(s.selected, x)) else s.(selected := s.selected + [x])
  }

  lemma ToggleKeepsDistinct(s: State, x: string)
    requires Distinct(s.selected)
    ensures Distinct(ToggleIngredient(s, x).selected)
  {
    if x in s.selected {
      WithoutKeepsDistinct(s.selected, x);
    }
  }

  /** Tapping the same ingredient twice restores a duplicate-free selection
      up to where the ingredient stands: it moves to the end. */
  lemma ToggleTwiceSameMembers(s: State, x: string)
    ensures forall y :: y in ToggleIngredient(ToggleIngredient(s, x), x).selected <==> y in s.selected
  {
  }

  /** The test of `runExperiment`: as many ingredients as the recipe and
      each of them in the recipe. */
  function Correct(selected: seq<string>, recipe: seq<string>): (r: bool)
    ensures r ==> forall x | x in selected :: x in recipe
    ensures |selected| != |recipe| ==> !r
    ensures selected == recipe ==> r
  {
    |selected| == |recipe| && forall i | 0 <= i < |selected| :: selected[i] in recipe
  }

  /** For duplicate-free lists the test is set equality: order does not
      matter, and nothing missing or extra is accepted. */
  lemma {:induction false} CorrectIffSameSet(selected: seq<string>, recipe: seq<string>)
    requires Distinct(selected) && Distinct(recipe)
    ensures Correct(selected, recipe) <==> (set x | x in selected) == (set x | x in recipe)
  {
    DistinctSetSize(selected);
    DistinctSetSize(recipe);
    var a := set x | x in selected;
    var b := set x | x in recipe;
    if Correct(selected, recipe) {
      assert a <= b by {
        forall x | x in a ensures x in b {
          var i :| 0 <= i < |selected| && selected[i] == x;
        }
      }
      SubsetSize(a, b);
    }
    if a == b {
      assert forall i | 0 <= i < |selected| :: selected[i] in recipe by {
        forall i | 0 <= i < |selected| ensures selected[i] in recipe {
          assert selected[i] in a;
        }
      }
    }
  }

  /** `runExperiment()`. A correct run scores 30 every time, records the
      experiment once and shows the result screen, which takes all input
      until its 2 s timer closes the experiment, so the close is applied at
      once. The run that brings the record to `needed` saves the next level
      with three stars and schedules the move there. A wrong run only shows
      an alert. */
  function RunExperiment(s: State, t: Tier): (r: (State, Option<Save>))
    requires s.current.Some? ==> s.current.value < |Experiments|
    ensures s.current.None? ==> r == (s, None)
    ensures s.current.Some? && !Correct(s.selected, Experiments[s.current.value].ingredients) ==> r == (s, None)
    ensures s.current.Some? && Correct(s.selected, Experiments[s.current.value].ingredients) ==>
      var name := Experiments[s.current.value].name;
      && r.0.score == s.score + 30 && r.0.current.None? && r.0.level == s.level
      && r.0.completed == AppendNew(s.completed, name)
      && (r.1.Some? <==> name !in s.completed && |s.completed| + 1 >= Needed(t))
      && (r.1.Some? ==> r.1.value == Save(s.level + 1, s.score + 30, 3) && r.0.pending == Some(s.level + 1))
      && (r.1.None? ==> r.0.pending == s.pending)
  {
    if s.current.None? then (s, None)
    else
      var e := Experiments[s.current.value];
      if !Correct(s.selected, e.ingredients) then (s, None)
      else
        var score := s.score + 30;
        var u := s.(score := score, current := None, completed := AppendNew(s.completed, e.name));
        if e.name !in s.completed && |s.completed| + 1 >= Needed(t) then
          (u.(pending := Some(s.level + 1)), Some(Save(s.level + 1, score, 3)))
        else (u, None)
  }

  /** The 3 s timer after a won level: the new level and an empty record. */
  function FinishLevel(s: State): (r: State)
    ensures s.pending.None? ==> r == s
    ensures s.pending.Some? ==> r == s.(level := s.pending.value, completed := [], pending := None)
  {
    if s.pending.None? then s else s.(level := s.pending.value, completed := [], pending := None)
  }

  /** The lab invariant: the open experiment is in the table, the selection
      has no repeats, the record holds distinct experiment names, and it
      has reached `needed` exactly when the level move is pending. */
  ghost predicate Valid(s: State, t: Tier) {
    && (s.current.Some? ==> s.current.value < |Experiments|)
    && Distinct(s.selected)
    && Distinct(s.completed)
    && (forall i | 0 <= i < |s.completed| :: s.completed[i] in Names)
    && (s.pending.None? <==> |s.completed| < Needed(t))
  }

  /** A duplicate-free record of table names has at most four entries, so
      the header's `completed/4` never shows more than four. */
  lemma NamesBound(c: seq<string>)
    requires Distinct(c) && forall i | 0 <= i < |c| :: c[i] in Names
    ensures |c| <= |Names|
  {
    TablesConsistent();
    DistinctWithin(c, Names);
  }

  lemma RunKeepsValid(s: State, t: Tier)
    requires Valid(s, t)
    ensures Valid(RunExperiment(s, t).0, t)
  {
    if s.current.Some? {
      AppendNewKeepsDistinct(s.completed, Experiments[s.current.value].name);
      TablesConsistent();
    }
  }

  lemma FinishKeepsValid(s: State, t: Tier)
    requires Valid(s, t)
    ensures Valid(FinishLevel(s), t)
  {
  }

  /** On easy the level is won with three of the four experiments. The
      record is cleared only by the level move of the 3 s reward timer.
      If the child closes the reward modal and, in the at most one second
      between the 2 s result screen closing and that timer, selects and
      mixes the fourth experiment, it is new to the record and passes
      `needed` again, so the same level is saved twice. */
  lemma EasyLevelSavedTwice(s: State)
    requires Valid(s, Easy) && s.pending.Some? && s.current == Some(3)
    requires Correct(s.selected, Experiments[3].ingredients) && Experiments[3].name !in s.completed
    ensures RunExperiment(s, Easy).1 == Some(Save(s.level + 1, s.score + 30, 3))
  {
  }

  lemma SelectToggleKeepValid(s: State, t: Tier, e: nat, x: string)
    requires Valid(s, t) && e < |Experiments|
    ensures Valid(SelectExperiment(s, e), t)
    ensures Valid(ToggleIngredient(s, x), t)
  {
    ToggleKeepsDistinct(s, x);
  }

  /** Toggles `xs` in turn. */
  function ToggleAll(s: State, xs: seq<string>): (r: State)
    ensures r == s.(selected := r.selected)
    decreases |xs|
  {
    if |xs| == 0 then s else ToggleAll(ToggleIngredient(s, xs[0]), xs[1..])
  }

  /** Tapping fresh, distinct ingredients appends them in order. */
  lemma {:induction false} ToggleAllAppends(s: State, xs: seq<string>)
    requires Distinct(xs) && forall i | 0 <= i < |xs| :: xs[i] !in s.selected
    ensures ToggleAll(s, xs).selected == s.selected + xs
    decreases |xs|
  {
    if |xs| > 0 {
      var u := ToggleIngredient(s, xs[0]);
      assert u.selected == s.selected + [xs[0]];
      assert forall i | 0 <= i < |xs[1..]| :: xs[1..][i] !in u.selected by {
        forall i | 0 <= i < |xs[1..]| ensures xs[1..][i] !in u.selected {
          assert xs[1..][i] == xs[i + 1] != xs[0];
        }
      }
      ToggleAllAppends(u, xs[1..]);
      assert s.selected + [xs[0]] + xs[1..] == s.selected + xs;
    }
  }

  /** Open experiment `e`, tap its recipe, run it. */
  function Solve(s: State, t: Tier, e: nat): (r: (State, Option<Save>))
    requires e < |Experiments|
  {
    RunExperiment(ToggleAll(SelectExperiment(s, e), Experiments[e].ingredients), t)
  }

  /** Tapping a recipe's ingredients into a fresh selection passes the test. */
  lemma SolveIsCorrect(s: State, e: nat)
    requires e < |Experiments|
    ensures Correct(ToggleAll(SelectExperiment(s, e), Experiments[e].ingredients).selected, Experiments[e].ingredients)
  {
    TablesConsistent();
    ToggleAllAppends(SelectExperiment(s, e), Experiments[e].ingredients);
  }

  /** Solves the experiments `es` in turn until the level is won. */
  function SolveAll(s: State, t: Tier, es: seq<nat>): (r: (State, bool))
    requires forall i | 0 <= i < |es| :: es[i] < |Experiments|
    decreases |es|
  {
    if |es| == 0 then (s, false)
    else
      var (u, save) := Solve(s, t, es[0]);
      if save.Some? then (u, true) else SolveAll(u, t, es[1..])
  }

  /** Solving enough experiments not yet on the record, each once, wins the
      level; repeats would not count. */
  lemma {:induction false} NewExperimentsWin(s: State, t: Tier, es: seq<nat>)
    requires Valid(s, t) && s.pending.None? && Distinct(es)
    requires forall i | 0 <= i < |es| :: es[i] < |Experiments| && Experiments[es[i]].name !in s.completed
    requires |s.completed| + |es| >= Needed(t)
    ensures SolveAll(s, t, es).1
    decreases |es|
  {
    var e := es[0];
    SolveIsCorrect(s, e);
    var (u, save) := Solve(s, t, e);
    if save.None? {
      var s1 := ToggleAll(SelectExperiment(s, e), Experiments[e].ingredients);
      TablesConsistent();
      ToggleAllAppends(SelectExperiment(s, e), Experiments[e].ingredients);
      SelectToggleKeepValid(s, t, e, "");
      assert Valid(s1, t);
      RunKeepsValid(s1, t);
      assert u.completed == s.completed + [Experiments[e].name];
      assert forall i | 0 <= i < |es[1..]| :: Experiments[es[1..][i]].name !in u.completed by {
        forall i | 0 <= i < |es[1..]| ensures Experiments[es[1..][i]].name !in u.completed {
          assert es[1..][i] == es[i + 1] != e;
        }
      }
      NewExperimentsWin(u, t, es[1..]);
    }
  }
}
