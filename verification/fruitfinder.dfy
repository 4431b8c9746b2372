/** Fruit Finder: a fruit picture is shown and the child types its name.
    A fruit is its index in the twelve-fruit table. */
module FruitFinder {
  import opened Common
  import opened Strings

  /** The names of `fruits`, in table order. */
  const Names: seq<string> := [
    "apple", "banana", "orange", "grape", "strawberry", "watermelon",
    "peach", "cherry", "kiwi", "pear", "mango", "pineapple"]

  /** Correct answers per level. */
  const Needed := 5

  datatype State = State(
    level: int, score: int, fruit: Option<nat>, answer: string, count: int, hint: bool)

  /** `generateNewFruit()`, also the `Skip This Fruit` button: a new fruit,
      the input and the hint cleared, the counter kept. */
  function GenerateNewFruit(s: State, draw: nat): (r: State)
    ensures r.fruit == Some(draw % |Names|) && r.answer == [] && !r.hint
    ensures r.level == s.level && r.score == s.score && r.count == s.count
  {
    s.(fruit := Some(draw % |Names|), answer := [], hint := false)
  }

  /** The answer test of `checkAnswer`: the typed text trimmed and
      lower-cased equals the lower-cased name. */
  function Matches(answer: string, name: string): (r: bool)
    ensures r <==> (|Trim(answer)| == |name| &&
      forall i | 0 <= i < |name| :: LowerChar(Trim(answer)[i]) == LowerChar(name[i]))
  {
    Lower(Trim(answer)) == Lower(name)
  }

  /** A word padded with white space matches a name it equals up to case. */
  lemma MatchesPadded(pre: string, w: string, post: string, name: string)
    requires AllSpace(pre) && AllSpace(post)
    requires |w| > 0 && !IsJsSpace(w[0]) && !IsJsSpace(w[|w| - 1])
    requires Lower(w) == Lower(name)
    ensures Matches(pre + w + post, name)
  {
    TrimPadded(pre, w, post);
  }

  /** Surrounding white space and letter case do not matter. */
  lemma PaddedAnswerMatches(pre: string, typed: string, post: string, name: string)
    requires AllSpace(pre) && AllSpace(post)
    requires |typed| > 0 && !IsJsSpace(typed[0]) && !IsJsSpace(typed[|typed| - 1])
    requires Lower(typed) == Lower(name)
    ensures Matches(pre + typed + post, name)
    ensures Matches(pre + Upper(typed) + post, name)
  {
    MatchesPadded(pre, typed, post, name);
    UpperKeepsEnds(typed);
    LowerOfUpper(typed);
    MatchesPadded(pre, Upper(typed), post, name);
  }

  /** `checkAnswer()`, with the follow-up its alert or timer performs
      applied at once: after a correct answer a new fruit (drawn by
      `draw`), after a wrong one the input cleared for another try. The
      fifth correct answer saves the level as won with three stars and
      starts the next level from zero. */
  function CheckAnswer(s: State, draw: nat): (r: (State, Option<Save>))
    requires s.fruit.Some? ==> s.fruit.value < |Names|
    ensures s.fruit.None? ==> r == (s, None)
    ensures s.fruit.Some? && !Matches(s.answer, Names[s.fruit.value]) ==>
      r == (s.(answer := []), None)
    ensures s.fruit.Some? && Matches(s.answer, Names[s.fruit.value]) ==>
      && r.0.score == s.score + 20 && r.0.fruit == Some(draw % |Names|) && r.0.answer == []
      && (r.1.Some? <==> s.count + 1 >= Needed)
      && (r.1.Some? ==> (r.1.value == Save(s.level + 1, s.score + 20, 3)
                         && r.0.level == s.level + 1 && r.0.count == 0))
      && (r.1.None? ==> r.0.level == s.level && r.0.count == s.count + 1)
  {
    if s.fruit.None? then (s, None)
    else if !Matches(s.answer, Names[s.fruit.value]) then (s.(answer := []), None)
    else
      var score := s.score + 20;
      var count := s.count + 1;
      if count >= Needed then
        (GenerateNewFruit(s.(level := s.level + 1, score := score, count := 0), draw),
         Some(Save(s.level + 1, score, 3)))
      else (GenerateNewFruit(s.(score := score, count := count), draw), None)
  }

  /** The counter stays below five and the fruit is one of the table. */
  ghost predicate Valid(s: State) {
    0 <= s.count < Needed && (s.fruit.Some? ==> s.fruit.value < |Names|)
  }

  lemma CheckKeepsValid(s: State, draw: nat)
    requires Valid(s)
    ensures Valid(CheckAnswer(s, draw).0)
  {
  }

  /** Skipping never loses or gains progress. */
  lemma SkipKeepsProgress(s: State, draw: nat)
    requires Valid(s)
    ensures Valid(GenerateNewFruit(s, draw))
    ensures GenerateNewFruit(s, draw).count == s.count
  {
  }

  /** Answers every fruit with its own name, one draw per new fruit, until
      a level is won. */
  function AnswerAll(s: State, draws: seq<nat>): (r: (State, bool))
    requires Valid(s) && s.fruit.Some?
    decreases |draws|
  {
    if |draws| == 0 then (s, false)
    else
      var r := CheckAnswer(s.(answer := Names[s.fruit.value]), draws[0]);
      CheckKeepsValid(s.(answer := Names[s.fruit.value]), draws[0]);
      if r.1.Some? then (r.0, true) else AnswerAll(r.0, draws[1..])
  }

  /** Each name in the table is accepted as typed. */
  lemma NameMatchesItself(k: nat)
    requires k < |Names|
    ensures Matches(Names[k], Names[k])
  {
    var n := Names[k];
    assert |n| > 0 && !IsJsSpace(n[0]) && !IsJsSpace(n[|n| - 1]) by {
      NamesAreWords(k);
    }
    assert n == [] + n + [];
    TrimPadded([], n, []);
  }

  lemma NamesAreWords(k: nat)
    requires k < |Names|
    ensures |Names[k]| > 0 && 'a' <= Names[k][0] <= 'z' && 'a' <= Names[k][|Names[k]| - 1] <= 'z'
  {
  }

  /** From a valid state, `5 - count` right answers win the level. */
  lemma {:induction false} FiveRightWin(s: State, draws: seq<nat>)
    requires Valid(s) && s.fruit.Some?
    requires |draws| >= Needed - s.count
    ensures AnswerAll(s, draws).1
    decreases |draws|
  {
    var t := s.(answer := Names[s.fruit.value]);
    NameMatchesItself(s.fruit.value);
    var r := CheckAnswer(t, draws[0]);
    CheckKeepsValid(t, draws[0]);
    if r.1.None? {
      FiveRightWin(r.0, draws[1..]);
    }
  }
}
