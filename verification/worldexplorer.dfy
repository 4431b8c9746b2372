/** World Explorer: five countries, each with a one-question quiz; a right
    answer earns the country's stamp. A country is its index in the table.
    The move to the next level after a full passport is a separate
    transition, since it fires three seconds after the answer. */
module WorldExplorer {
  import opened Common

  datatype Country = Country(code: string, name: string, options: seq<string>, answer: string)

  /** `countries`, with the quiz of each. */
  const Countries: seq<Country> := [
    Country("ph", "Philippines", ["Manila", "Cebu", "Davao", "Baguio"], "Manila"),
    Country("us", "United States", ["Grand Canyon", "Eiffel Tower", "Big Ben", "Taj Mahal"], "Grand Canyon"),
    Country("jp", "Japan", ["Land of Rising Sun", "Land of Dragons", "Land of Ice", "Land of Eagles"], "Land of Rising Sun"),
    Country("fr", "France", ["Eiffel Tower", "Big Ben", "Colosseum", "Statue of Liberty"], "Eiffel Tower"),
    Country("eg", "Egypt", ["Pyramids", "Great Wall", "Taj Mahal", "Colosseum"], "Pyramids")
  ]

  /** The country codes, in table order. */
  const Codes: seq<string> := ["ph", "us", "jp", "fr", "eg"]

  /** Every quiz can be answered from its buttons, and the codes that
      stamps are recorded under are distinct. */
  lemma TableConsistent()
    ensures forall c | 0 <= c < |Countries| :: Countries[c].answer in Countries[c].options
    ensures |Codes| == |Countries| && forall c | 0 <= c < |Countries| :: Countries[c].code == Codes[c]
    ensures Distinct(Codes)
  {
  }

  datatype State = State(
    level: int, score: int, visited: seq<string>, current: Option<nat>, showQuiz: bool, pending: Option<int>)

  /** `visitCountry(country)`. */
  function VisitCountry(s: State, c: nat): (r: State)
    ensures r == s.(current := Some(c), showQuiz := false)
  {
    s.(current := Some(c), showQuiz := false)
  }

  /** `startQuiz()`. */
  function StartQuiz(s: State): (r: State)
    ensures r == s.(showQuiz := true)
  {
    s.(showQuiz := true)
  }

  /** `handleQuizAnswer(answer)`: a right answer scores 20 every time and
      stamps the passport once; the stamp that completes it saves the next
      level with three stars and schedules the move there. Right or wrong,
      the country is closed afterwards. */
  function HandleQuizAnswer(s: State, answer: string): (r: (State, Option<Save>))
    requires s.current.Some? ==> s.current.value < |Countries|
    ensures s.current.None? ==> r == (s, None)
    ensures s.current.Some? ==> r.0.current.None? && !r.0.showQuiz && r.0.level == s.level
    ensures s.current.Some? && answer != Countries[s.current.value].answer ==>
      r == (s.(current := None, showQuiz := false), None)
    ensures s.current.Some? && answer == Countries[s.current.value].answer ==>
      var code := Countries[s.current.value].code;
      && r.0.score == s.score + 20 && r.0.visited == AppendNew(s.visited, code)
      && (r.1.Some? <==> code !in s.visited && |s.visited| + 1 == |Countries|)
      && (r.1.Some? ==> r.1.value == Save(s.level + 1, s.score + 20, 3) && r.0.pending == Some(s.level + 1))
      && (r.1.None? ==> r.0.pending == s.pending)
  {
    if s.current.None? then (s, None)
    else
      var c := Countries[s.current.value];
      var closed := s.(current := None, showQuiz := false);
      if answer != c.answer then (closed, None)
      else
        var score := s.score + 20;
        if c.code in s.visited then (closed.(score := score), None)
        else
          var visited := s.visited + [c.code];
          if |visited| == |Countries| then
            (closed.(score := score, visited := visited, pending := Some(s.level + 1)), Some(Save(s.level + 1, score, 3)))
          else (closed.(score := score, visited := visited), None)
  }

  /** The 3 s timer after a full passport. */
  function FinishLevel(s: State): (r: State)
    ensures s.pending.None? ==> r == s
    ensures s.pending.Some? ==> r == s.(level := s.pending.value, visited := [], pending := None)
  {
    if s.pending.None? then s else s.(level := s.pending.value, visited := [], pending := None)
  }

  /** The passport invariant: distinct stamps of table countries, and the
      level move pending exactly when all five are stamped. */
  ghost predicate Valid(s: State) {
    && (s.current.Some? ==> s.current.value < |Countries|)
    && Distinct(s.visited)
    && (forall i | 0 <= i < |s.visited| :: s.visited[i] in Codes)
    && (s.pending.Some? <==> |s.visited| == |Countries|)
  }

  lemma StepsKeepValid(s: State, c: nat, answer: string)
    requires Valid(s) && c < |Countries|
    ensures Valid(VisitCountry(s, c)) && Valid(StartQuiz(s)) && Valid(FinishLevel(s))
    ensures Valid(HandleQuizAnswer(s, answer).0)
  {
    TableConsistent();
    DistinctWithin(s.visited, Codes);
    if s.current.Some? {
      AppendNewKeepsDistinct(s.visited, Countries[s.current.value].code);
    }
  }

  /** Visit country `c`, open its quiz, press the right answer. */
  function Tour(s: State, c: nat): (r: (State, Option<Save>))
    requires c < |Countries|
  {
    HandleQuizAnswer(StartQuiz(VisitCountry(s, c)), Countries[c].answer)
  }

  /** Tours the countries `cs` in turn until the level is won. */
  function TourAll(s: State, cs: seq<nat>): (r: (State, bool))
    requires forall i | 0 <= i < |cs| :: cs[i] < |Countries|
    decreases |cs|
  {
    if |cs| == 0 then (s, false)
    else
      var (u, save) := Tour(s, cs[0]);
      if save.Some? then (u, true) else TourAll(u, cs[1..])
  }

  /** Answering the quizzes of all not-yet-stamped countries, each once,
      in any order, wins the level. */
  lemma {:induction false} NewStampsWin(s: State, cs: seq<nat>)
    requires Valid(s) && s.pending.None? && Distinct(cs)
    requires forall i | 0 <= i < |cs| :: cs[i] < |Countries| && Countries[cs[i]].code !in s.visited
    requires |s.visited| + |cs| >= |Countries|
    ensures TourAll(s, cs).1
    decreases |cs|
  {
    TableConsistent();
    DistinctWithin(s.visited, Codes);
    var c := cs[0];
    var (u, save) := Tour(s, c);
    if save.None? {
      StepsKeepValid(StartQuiz(VisitCountry(s, c)), c, Countries[c].answer);
      assert u.visited == s.visited + [Countries[c].code];
      assert forall i | 0 <= i < |cs[1..]| :: Countries[cs[1..][i]].code !in u.visited by {
        forall i | 0 <= i < |cs[1..]| ensures Countries[cs[1..][i]].code !in u.visited {
          assert cs[1..][i] == cs[i + 1] != c;
        }
      }
      NewStampsWin(u, cs[1..]);
    }
  }
}
