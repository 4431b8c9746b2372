/** Story Builder: the child picks a subject, a verb, an object and a place
    from four shuffled word lists and creates a story; every third story
    completes a level. */
module StoryBuilder {
  import opened Common
  import MathUtil

  /** `storyParts`, one list per category. */
  const Subjects: seq<string> := ["A brave knight", "A clever fox", "The princess", "A friendly dragon", "The wizard"]
  const Verbs: seq<string> := ["discovered", "built", "visited", "created", "found"]
  const Objects: seq<string> := ["a magic wand", "a treasure chest", "a secret map", "a golden crown", "a flying carpet"]
  const Places: seq<string> := ["in the castle", "under the sea", "in the forest", "on the moon", "in a cave"]

  /** The word buttons of each category, in display order. */
  datatype Parts = Parts(subjects: seq<string>, verbs: seq<string>, objects: seq<string>, places: seq<string>)

  /** One draw sequence per `shuffle` call. */
  datatype ShuffleDraws = ShuffleDraws(subjects: seq<nat>, verbs: seq<nat>, objects: seq<nat>, places: seq<nat>)

  predicate Enough(d: ShuffleDraws) {
    |d.subjects| + 1 >= |Subjects| && |d.verbs| + 1 >= |Verbs|
    && |d.objects| + 1 >= |Objects| && |d.places| + 1 >= |Places|
  }

  /** `shuffleWords()`: each category a permutation of its fixed list. */
  function ShuffleWords(d: ShuffleDraws): (p: Parts)
    requires Enough(d)
    ensures multiset(p.subjects) == multiset(Subjects) && multiset(p.verbs) == multiset(Verbs)
    ensures multiset(p.objects) == multiset(Objects) && multiset(p.places) == multiset(Places)
  {
    Parts(MathUtil.Shuffle(Subjects, d.subjects), MathUtil.Shuffle(Verbs, d.verbs),
          MathUtil.Shuffle(Objects, d.objects), MathUtil.Shuffle(Places, d.places))
  }

  lemma WordListsDistinct()
    ensures Distinct(Subjects) && Distinct(Verbs) && Distinct(Objects) && Distinct(Places)
  {
  }

  /** A permutation of a list without repeats shows each word exactly once. */
  lemma ShowsEachOnce(list: seq<string>, shown: seq<string>)
    requires Distinct(list) && multiset(shown) == multiset(list)
    ensures |shown| == |list| && Distinct(shown)
    ensures forall w :: w in shown <==> w in list
  {
    MathUtil.PermutationKeepsDistinct(list, shown);
    assert forall w :: w in shown <==> w in multiset(shown);
    assert forall w :: w in list <==> w in multiset(list);
    assert |shown| == |multiset(shown)|;
  }

  /** After a shuffle every category shows each of its five words once. */
  lemma ShuffleShowsEveryWord(d: ShuffleDraws)
    requires Enough(d)
    ensures var p := ShuffleWords(d);
      && Distinct(p.subjects) && (forall w :: w in p.subjects <==> w in Subjects)
      && Distinct(p.verbs) && (forall w :: w in p.verbs <==> w in Verbs)
      && Distinct(p.objects) && (forall w :: w in p.objects <==> w in Objects)
      && Distinct(p.places) && (forall w :: w in p.places <==> w in Places)
  {
    WordListsDistinct();
    var p := ShuffleWords(d);
    ShowsEachOnce(Subjects, p.subjects);
    ShowsEachOnce(Verbs, p.verbs);
    ShowsEachOnce(Objects, p.objects);
    ShowsEachOnce(Places, p.places);
  }

  datatype Slot = Subject | Verb | Object | Place

  datatype State = State(
    level: int, score: int, count: int,
    subject: string, verb: string, obj: string, place: string, parts: Parts)

  /** A word button's `onPress`: that category's selection set, the others
      kept. */
  function SelectWord(s: State, slot: Slot, w: string): (r: State)
    ensures slot == Subject ==> r == s.(subject := w)
    ensures slot == Verb ==> r == s.(verb := w)
    ensures slot == Object ==> r == s.(obj := w)
    ensures slot == Place ==> r == s.(place := w)
  {
    match slot
    case Subject => s.(subject := w)
    case Verb => s.(verb := w)
    case Object => s.(obj := w)
    case Place => s.(place := w)
  }

  /** `resetStory()`: all four selections cleared and the words shown anew;
      `next` is the result of its `shuffleWords()`. */
  function ResetStory(s: State, next: Parts): (r: State)
    ensures r.subject == [] && r.verb == [] && r.obj == [] && r.place == [] && r.parts == next
    ensures r.level == s.level && r.score == s.score && r.count == s.count
  {
    s.(subject := [], verb := [], obj := [], place := [], parts := next)
  }

  /** The guard of `createStory`: no category left empty. */
  predicate Complete(s: State) {
    s.subject != [] && s.verb != [] && s.obj != [] && s.place != []
  }

  /** `createStory()`, with `handleLevelComplete` as written: on every third
      story it saves the next level with the score and story count of the
      render that made the tap, so without this story's 50 points and with
      `min(3, floor((count - 1) / 3))` stars. The story alert's `Create
      Another` and the reward timer both end in `resetStory`, applied at
      once with the words `next`; the reward timer also raises the level. */
  function CreateStory(s: State, next: Parts): (r: (State, Option<Save>))
    ensures !Complete(s) ==> r == (s, None)
    ensures Complete(s) ==> r.0.score == s.score + 50 && r.0.count == s.count + 1
    ensures Complete(s) ==> r.0 == ResetStory(s, next).(score := s.score + 50, count := s.count + 1, level := r.0.level)
    ensures r.1.Some? <==> Complete(s) && (s.count + 1) % 3 == 0
    ensures r.1.Some? ==> r.1.value == Save(s.level + 1, s.score, Min(3, s.count / 3)) && r.0.level == s.level + 1
    ensures r.1.None? ==> r.0.level == s.level
  {
    if !Complete(s) then (s, None)
    else
      var u := s.(score := s.score + 50, count := s.count + 1);
      if u.count % 3 == 0 then
        (ResetStory(u, next).(level := s.level + 1), Some(Save(s.level + 1, s.score, Min(3, s.count / 3))))
      else (ResetStory(u, next), None)
  }

  /** As written, the first level-up (the third story) is saved with no
      stars and without the third story's points, though the screen shows
      them. */
  lemma FirstLevelUpSavesNoStars(s: State, next: Parts)
    requires Complete(s) && s.count == 2
    ensures CreateStory(s, next).1 == Some(Save(s.level + 1, s.score, 0))
    ensures CreateStory(s, next).0.score == s.score + 50
  {
  }

  /** As written, every saved level-up lags a level behind in stars and
      misses the 50 points of the story that won it. */
  lemma SavedLagsShown(s: State, next: Parts)
    requires Complete(s) && (s.count + 1) % 3 == 0 && s.count >= 0
    ensures CreateStory(s, next).1.value.stars == Min(3, (s.count + 1) / 3 - 1)
    ensures CreateStory(s, next).1.value.score == CreateStory(s, next).0.score - 50
  {
    var k := (s.count + 1) / 3;
    assert s.count == 3 * k - 1;
    assert s.count / 3 == k - 1;
  }

  /** Passing a multiple of three adds one to the number of thirds. */
  lemma ThirdsStep(c: int)
    requires c >= 0
    ensures (c + 1) / 3 - c / 3 == if (c + 1) % 3 == 0 then 1 else 0
  {
  }

  /** `createStory()` with the level-up saving the new score and the stars
      of the new story count. */
  function CreateStoryFixed(s: State, next: Parts): (r: (State, Option<Save>))
    ensures r.0 == CreateStory(s, next).0
    ensures r.1.Some? <==> CreateStory(s, next).1.Some?
    ensures r.1.Some? ==> r.1.value.score == r.0.score && r.1.value.level == r.0.level
    ensures r.1.Some? && s.count >= 0 ==> 1 <= r.1.value.stars <= 3
    ensures r.1.Some? ==> r.1.value.stars == Min(3, r.0.count / 3)
  {
    var (u, save) := CreateStory(s, next);
    if save.Some? then (u, Some(Save(s.level + 1, s.score + 50, Min(3, (s.count + 1) / 3)))) else (u, None)
  }

  /** The four words of one story. */
  datatype Words = Words(subject: string, verb: string, obj: string, place: string)

  predicate Filled(w: Words) {
    w.subject != [] && w.verb != [] && w.obj != [] && w.place != []
  }

  /** Select the four words, then create the story. */
  function Tell(s: State, w: Words, next: Parts): (r: (State, Option<Save>))
  {
    var u := SelectWord(SelectWord(SelectWord(SelectWord(s, Subject, w.subject), Verb, w.verb), Object, w.obj), Place, w.place);
    CreateStoryFixed(u, next)
  }

  /** Tells the stories `ws` in turn; also returns the number of level-ups. */
  function TellAll(s: State, ws: seq<Words>, ps: seq<Parts>): (r: (State, nat))
    requires |ps| >= |ws|
    decreases |ws|
  {
    if |ws| == 0 then (s, 0)
    else
      var (u, save) := Tell(s, ws[0], ps[0]);
      var (v, ups) := TellAll(u, ws[1..], ps[1..]);
      (v, ups + if save.Some? then 1 else 0)
  }

  /** `n` complete stories score `50 n`, and the level rises once per
      multiple of three the story count passes. */
  lemma {:induction false} StoriesRaiseLevel(s: State, ws: seq<Words>, ps: seq<Parts>)
    requires |ps| >= |ws|
    requires forall i | 0 <= i < |ws| :: Filled(ws[i])
    requires s.count >= 0
    ensures var (v, ups) := TellAll(s, ws, ps);
      && v.count == s.count + |ws| && v.score == s.score + 50 * |ws|
      && ups == (s.count + |ws|) / 3 - s.count / 3
      && v.level == s.level + ups
    decreases |ws|
  {
    if |ws| > 0 {
      var r := Tell(s, ws[0], ps[0]);
      TellStep(s, ws[0], ps[0]);
      StoriesRaiseLevel(r.0, ws[1..], ps[1..]);
      var rest := TellAll(r.0, ws[1..], ps[1..]);
      assert TellAll(s, ws, ps) == (rest.0, rest.1 + if r.1.Some? then 1 else 0);
      ThirdsAdd(s.count, r.0.count, |ws|, |ws[1..]|, r.1.Some?, rest.1);
    }
  }

  /** The level-ups of the first story and of the rest add up. */
  lemma ThirdsAdd(c: int, c1: int, n: int, m: int, up: bool, rest: int)
    requires c >= 0 && c1 == c + 1 && n >= 1 && m == n - 1
    requires up <==> c1 % 3 == 0
    requires rest == (c1 + m) / 3 - c1 / 3
    ensures (if up then 1 else 0) + rest == (c + n) / 3 - c / 3
  {
    ThirdsStep(c);
  }

  /** One complete story scores 50, counts once, and raises the level
      exactly when the count reaches a multiple of three. */
  lemma TellStep(s: State, w: Words, next: Parts)
    requires Filled(w)
    ensures var (u, save) := Tell(s, w, next);
      && u.count == s.count + 1 && u.score == s.score + 50
      && (save.Some? <==> (s.count + 1) % 3 == 0)
      && u.level == s.level + (if save.Some? then 1 else 0)
  {
  }
}
