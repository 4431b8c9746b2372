/** The arithmetic helpers of the app: bounded random integers, the
    Fisher-Yates shuffle, quiz generation, star rating and the two number
    formatters. `Math.random()` is replaced by explicit natural-number
    draws: a draw `d` stands for the value `floor(u * n)` that the source
    computes, reduced as `d % n`. */
module MathUtil {
  import opened Common
  import opened Strings
  import opened Difficulty

  /** `random(min, max)`: an integer in `[min, max]`. */
  function Random(min: int, max: int, draw: nat): (r: int)
    requires min <= max
    ensures min <= r <= max
    ensures draw < max - min + 1 ==> r == min + draw
  {
    min + draw % (max - min + 1)
  }

  /** Every value in range is produced by some draw. */
  lemma RandomReachesEvery(min: int, max: int, v: int)
    requires min <= v <= max
    ensures Random(min, max, v - min) == v
  {
  }

  function Swap<T>(a: seq<T>, i: nat, j: nat): (r: seq<T>)
    requires i < |a| && j < |a|
    ensures |r| == |a| && r[i] == a[j] && r[j] == a[i]
    ensures forall k | 0 <= k < |a| && k != i && k != j :: r[k] == a[k]
    ensures multiset(r) == multiset(a)
  {
    a[i := a[j]][j := a[i]]
  }

  /** The loop `for (i = n - 1; i > 0; i--) swap(i, floor(random * (i + 1)))`
      from index `i` down, consuming one draw per step. */
  function ShuffleFrom<T>(a: seq<T>, i: nat, draws: seq<nat>): (r: seq<T>)
    requires i < |a| && |draws| >= i
    ensures |r| == |a| && multiset(r) == multiset(a)
    decreases i
  {
    if i == 0 then a
    else ShuffleFrom(Swap(a, i, draws[0] % (i + 1)), i - 1, draws[1..])
  }

  /** `shuffle(array)` (and the identical `shuffleArray` of Number Hop and
      the inline shuffle of Art Detective): a permutation of the input. The
      input itself is a value and cannot be modified. */
  function Shuffle<T>(a: seq<T>, draws: seq<nat>): (r: seq<T>)
    requires |draws| + 1 >= |a|
    ensures |r| == |a| && multiset(r) == multiset(a)
  {
    if |a| == 0 then a else ShuffleFrom(a, |a| - 1, draws)
  }

  /** A permutation keeps an element-distinct sequence element-distinct. */
  lemma PermutationKeepsDistinct<T>(a: seq<T>, b: seq<T>)
    requires multiset(a) == multiset(b) && Distinct(a)
    ensures Distinct(b)
  {
    forall i, j | 0 <= i < j < |b| ensures b[i] != b[j] {
      if b[i] == b[j] {
        assert multiset(b)[b[i]] >= 2 by {
          assert b == b[..i] + [b[i]] + b[i + 1..j] + [b[j]] + b[j + 1..];
        }
        DistinctCountsOne(a, b[i]);
      }
    }
  }

  lemma {:induction false} DistinctCountsOne<T>(a: seq<T>, x: T)
    requires Distinct(a)
    ensures multiset(a)[x] <= 1
  {
    if |a| > 0 {
      assert a == [a[0]] + a[1..];
      DistinctCountsOne(a[1..], x);
      if a[0] == x {
        assert x !in a[1..];
      }
    }
  }

  /** The answer row several games lay out: the target first, then the
      first `count - 1` of the other items, filtered out of `items` and put
      in random order by a random-comparator sort. */
  function ChoiceRow<T(==)>(items: seq<T>, target: T, count: int, order: seq<nat>): (r: seq<T>)
    requires Distinct(items) && target in items
    requires 1 <= count <= |items| && |order| + 2 >= |items|
    ensures |r| == count && r[0] == target && Distinct(r)
    ensures forall i | 1 <= i < count :: r[i] in items && r[i] != target
  {
    var others := ShuffledOthers(items, target, order);
    PrependPrefix(target, others, count - 1);
    [target] + others[..count - 1]
  }

  /** The items other than the target, in the order of the sort. */
  function ShuffledOthers<T(==)>(items: seq<T>, target: T, order: seq<nat>): (o: seq<T>)
    requires Distinct(items) && target in items && |order| + 2 >= |items|
    ensures |o| == |items| - 1 && Distinct(o) && target !in o
    ensures forall i | 0 <= i < |o| :: o[i] in items
  {
    WithoutDistinctCount(items, target);
    WithoutKeepsDistinct(items, target);
    var others := Without(items, target);
    var o := Shuffle(others, order);
    PermutationKeepsDistinct(others, o);
    forall i | 0 <= i < |o| ensures o[i] in others {
      assert o[i] in multiset(o);
    }
    o
  }

  /** A distinct sequence's prefix behind a new head stays distinct. */
  lemma PrependPrefix<T>(x: T, s: seq<T>, n: nat)
    requires n <= |s| && Distinct(s) && x !in s
    ensures Distinct([x] + s[..n])
    ensures forall i | 1 <= i <= n :: ([x] + s[..n])[i] == s[i - 1]
  {
  }

  datatype Op = Plus | Minus | Times

  /** `operations[i]` for `operations = ['+', '-', '*']`. */
  function OpAt(i: int): Op
    requires 0 <= i < 3
  {
    if i == 0 then Plus else if i == 1 then Minus else Times
  }

  function Apply(op: Op, a: int, b: int): int {
    match op
    case Plus => a + b
    case Minus => a - b
    case Times => a * b
  }

  /** The effective level `generateMathQuestion` computes inline. */
  function QuestionLevel(level: int, t: Tier): int {
    if t == Easy then Max(1, level - 1) else if t == Hard then level + 1 else level
  }

  /** It uses exactly the offsets of `scaleLevel`. */
  lemma QuestionLevelIsScaleLevel(level: int, t: Tier)
    ensures QuestionLevel(level, t) == ScaleLevel(level, t)
  {
  }

  /** `maxNum = Math.max(5, effectiveLevel * 10)`. */
  function MaxOperand(level: int, t: Tier): (r: int)
    ensures r >= 5 && r >= 10 * ScaleLevel(level, t)
    ensures r == Max(5, 10 * ScaleLevel(level, t))
  {
    Max(5, QuestionLevel(level, t) * 10)
  }

  /** The highest operation index that may be drawn. */
  function OpBound(level: int, t: Tier): (r: int)
    ensures r <= 2
    ensures t == Easy ==> r == 0
  {
    if t == Easy then 0
    else if t == Hard then Min(QuestionLevel(level, t), 2)
    else Min(level - 1, 2)
  }

  /** `Math.max(0, random(0, bound))`. When `bound < 0` the source's
      `random` yields a value in `[bound + 1, 0]`, which the `max` turns
      into 0. */
  function OpIndex(level: int, t: Tier, draw: nat): (r: int)
    ensures 0 <= r <= Max(0, OpBound(level, t))
  {
    var bound := OpBound(level, t);
    if bound < 0 then 0 else Random(0, bound, draw)
  }

  function Spread(t: Tier): int {
    match t
    case Easy => 3
    case Normal => 5
    case Hard => 8
  }

  /** `random(-spread, spread)`, the distance of a candidate wrong answer. */
  function Offset(spread: nat, draw: nat): (r: int)
    ensures -(spread as int) <= r <= spread
    ensures draw <= 2 * spread ==> r == draw - spread
  {
    Random(-(spread as int), spread, draw)
  }

  /** A wrong option the loop accepts. */
  predicate Admissible(answer: int, spread: int, opts: seq<int>, w: int) {
    w != answer && w !in opts && w >= 0
  }

  /** The `while (options.length < 4)` loop run on a finite stream of draws:
      `Some` once four options are collected, `None` when the stream ends
      first (the loop would still be running). */
  function CollectOptions(answer: int, spread: nat, opts: seq<int>, draws: seq<nat>): (r: Option<seq<int>>)
    ensures r.Some? ==> |r.value| >= 4 && |opts| <= |r.value| && r.value[..|opts|] == opts
    ensures r.Some? && |opts| <= 4 ==> |r.value| == 4
    ensures |opts| < 4 && |draws| < 4 - |opts| ==> r.None?
    decreases |draws|
  {
    if |opts| >= 4 then Some(opts)
    else if |draws| == 0 then None
    else
      var w := answer + Offset(spread, draws[0]);
      var next := if Admissible(answer, spread, opts, w) then opts + [w] else opts;
      var r := CollectOptions(answer, spread, next, draws[1..]);
      assert r.Some? ==> r.value[..|opts|] == r.value[..|next|][..|opts|];
      r
  }

  ghost predicate ValidOptions(answer: int, spread: int, opts: seq<int>) {
    && |opts| >= 1 && opts[0] == answer && Distinct(opts)
    && forall i | 1 <= i < |opts| :: opts[i] >= 0 && answer - spread <= opts[i] <= answer + spread
  }

  /** When the loop finishes there are exactly four distinct options: the
      answer first, then non-negative wrong answers within `spread`. */
  lemma {:induction false} CollectOptionsValid(answer: int, spread: nat, opts: seq<int>, draws: seq<nat>)
    requires ValidOptions(answer, spread, opts) && |opts| <= 4
    requires CollectOptions(answer, spread, opts, draws).Some?
    ensures var r := CollectOptions(answer, spread, opts, draws).value;
      |r| == 4 && ValidOptions(answer, spread, r)
    decreases |draws|
  {
    if |opts| < 4 {
      var w := answer + Offset(spread, draws[0]);
      var next := if Admissible(answer, spread, opts, w) then opts + [w] else opts;
      assert ValidOptions(answer, spread, next);
      CollectOptionsValid(answer, spread, next, draws[1..]);
    }
  }

  /** When `answer + spread < 2` no non-negative value other than the answer
      within `spread` exists in sufficient number (at most two), so no
      stream of draws, however long, ends the loop. */
  lemma {:induction false} CollectOptionsStuck(answer: int, spread: nat, draws: seq<nat>)
    requires answer + spread < 2
    ensures CollectOptions(answer, spread, [answer], draws).None?
  {
    StuckFrom(answer, spread, [answer], draws);
  }

  /** The options of a stuck loop: the answer, then distinct values among
      0 and 1; once there are three, both 0 and 1 are taken. */
  ghost predicate StuckOptions(answer: int, opts: seq<int>) {
    && 1 <= |opts| <= 3 && opts[0] == answer && Distinct(opts)
    && (forall i | 1 <= i < |opts| :: 0 <= opts[i] <= 1)
    && (|opts| == 3 ==> forall v | 0 <= v <= 1 :: v in opts)
  }

  lemma {:induction false} StuckFrom(answer: int, spread: nat, opts: seq<int>, draws: seq<nat>)
    requires answer + spread < 2
    requires StuckOptions(answer, opts)
    ensures CollectOptions(answer, spread, opts, draws).None?
    decreases |draws|
  {
    if |draws| > 0 {
      var w := answer + Offset(spread, draws[0]);
      var next := if Admissible(answer, spread, opts, w) then opts + [w] else opts;
      StuckStep(answer, spread, opts, w);
      StuckFrom(answer, spread, next, draws[1..]);
    }
  }

  /** One more candidate keeps the options stuck. */
  lemma StuckStep(answer: int, spread: nat, opts: seq<int>, w: int)
    requires answer + spread < 2 && answer - spread <= w <= answer + spread
    requires StuckOptions(answer, opts)
    ensures StuckOptions(answer, if Admissible(answer, spread, opts, w) then opts + [w] else opts)
  {
    if Admissible(answer, spread, opts, w) {
      var next := opts + [w];
      assert 0 <= w <= 1 && w !in opts;
      assert |opts| <= 2;
      if |opts| == 2 {
        assert next == [answer, opts[1], w];
        assert opts[1] != w && 0 <= opts[1] <= 1;
        forall v | 0 <= v <= 1 ensures v in next {
          if v != w {
            assert v == opts[1];
          }
        }
      }
    }
  }

  /** The converse: with `answer + spread >= 2` and `spread >= 3` three
      admissible values exist and some draws end the loop. */
  lemma OptionsCanFinish(answer: int, spread: nat)
    requires answer + spread >= 2 && spread >= 3
    ensures exists draws :: CollectOptions(answer, spread, [answer], draws).Some?
  {
    var w0, w1, w2 := if answer >= 0 then answer + 1 else 0, if answer >= 0 then answer + 2 else 1, if answer >= 0 then answer + 3 else 2;
    var draws: seq<nat> := [w0 - answer + spread, w1 - answer + spread, w2 - answer + spread];
    assert Offset(spread, draws[0]) == w0 - answer;
    assert Offset(spread, draws[1]) == w1 - answer;
    assert Offset(spread, draws[2]) == w2 - answer;
    var o1 := [answer, w0];
    var o2 := [answer, w0, w1];
    var o3 := [answer, w0, w1, w2];
    assert draws[1..][0] == draws[1] && draws[1..][1..] == draws[2..];
    assert draws[2..][0] == draws[2] && draws[2..][1..] == draws[3..];
    assert Admissible(answer, spread, [answer], w0);
    assert Admissible(answer, spread, o1, w1);
    assert Admissible(answer, spread, o2, w2);
    assert [answer] + [w0] == o1 && o1 + [w1] == o2 && o2 + [w2] == o3;
    assert CollectOptions(answer, spread, o3, draws[3..]) == Some(o3);
    assert CollectOptions(answer, spread, o2, draws[2..]) == Some(o3);
    assert CollectOptions(answer, spread, o1, draws[1..]) == Some(o3);
    assert CollectOptions(answer, spread, [answer], draws) == Some(o3);
  }

  /** A generated quiz: the displayed operands, the operation, the answer
      and the four shuffled options. */
  datatype Question = Question(a: int, b: int, op: Op, answer: int, options: seq<int>)

  /** The random inputs of one call: both operands, the operation, the
      stream feeding the option loop and the final shuffle. */
  datatype QuestionDraws = QuestionDraws(a: nat, b: nat, op: nat, wrong: seq<nat>, shuffle: seq<nat>)

  /** The option list of one question: the loop's four options, shuffled. */
  function BuildOptions(answer: int, t: Tier, d: QuestionDraws): (r: Option<seq<int>>)
    requires |d.shuffle| >= 3
    ensures r.Some? <==> CollectOptions(answer, Spread(t), [answer], d.wrong).Some?
    ensures r.Some? ==>
      && |r.value| == 4 && answer in r.value && Distinct(r.value)
      && forall i | 0 <= i < 4 && r.value[i] != answer ::
           r.value[i] >= 0 && answer - Spread(t) <= r.value[i] <= answer + Spread(t)
  {
    match CollectOptions(answer, Spread(t), [answer], d.wrong)
    case None => None
    case Some(opts) =>
      CollectOptionsValid(answer, Spread(t), [answer], d.wrong);
      var shuffled := Shuffle(opts, d.shuffle);
      PermutationKeepsDistinct(opts, shuffled);
      assert forall i | 0 <= i < 4 :: shuffled[i] in multiset(opts);
      assert answer in multiset(shuffled);
      Some(shuffled)
  }

  /** `generateMathQuestion(level, difficulty)`; `None` when the option loop
      has not finished on the supplied stream. */
  function GenerateMathQuestion(level: int, t: Tier, d: QuestionDraws): (r: Option<Question>)
    requires |d.shuffle| >= 3
    ensures r.Some? ==>
      var q := r.value;
      && 1 <= q.a <= MaxOperand(level, t) && 1 <= q.b <= MaxOperand(level, t)
      && q.answer == Apply(q.op, q.a, q.b)
      && (t == Easy ==> q.op == Plus)
      && (q.op == Times ==> OpBound(level, t) == 2)
      && (q.op == Minus ==> OpBound(level, t) >= 1)
      && |q.options| == 4 && q.answer in q.options && Distinct(q.options)
      && forall i | 0 <= i < 4 && q.options[i] != q.answer ::
           q.options[i] >= 0 && q.answer - Spread(t) <= q.options[i] <= q.answer + Spread(t)
    ensures r.None? <==> CollectOptions(QuestionAnswer(level, t, d), Spread(t), [QuestionAnswer(level, t, d)], d.wrong).None?
  {
    var maxNum := MaxOperand(level, t);
    var a := Random(1, maxNum, d.a);
    var b := Random(1, maxNum, d.b);
    var op := OpAt(OpIndex(level, t, d.op));
    match BuildOptions(Apply(op, a, b), t, d)
    case None => None
    case Some(opts) => Some(Question(a, b, op, Apply(op, a, b), opts))
  }

  /** The answer `generateMathQuestion` computes from its draws. */
  function QuestionAnswer(level: int, t: Tier, d: QuestionDraws): int {
    var maxNum := MaxOperand(level, t);
    Apply(OpAt(OpIndex(level, t, d.op)), Random(1, maxNum, d.a), Random(1, maxNum, d.b))
  }

  /** From level 2 on the normal tier may draw a subtraction whose answer is
      far below zero; e.g. `1 - 20` at level 2 leaves the option loop with
      no way to finish, whatever draws follow. */
  lemma NormalLevelTwoSubtractionHangs(wrong: seq<nat>, sh: seq<nat>)
    requires |sh| >= 3
    ensures QuestionAnswer(2, Normal, QuestionDraws(0, 19, 1, wrong, sh)) == -19
    ensures GenerateMathQuestion(2, Normal, QuestionDraws(0, 19, 1, wrong, sh)).None?
  {
    assert MaxOperand(2, Normal) == 20;
    assert OpIndex(2, Normal, 1) == 1;
    CollectOptionsStuck(-19, 5, wrong);
  }

  /** Corrected operand order: a subtraction takes the larger operand first,
      so no answer is negative. */
  function OrderedOperands(op: Op, a: int, b: int): (r: (int, int))
    ensures op == Minus ==> Apply(op, r.0, r.1) >= 0
    ensures a >= 0 && b >= 0 ==> Apply(op, r.0, r.1) >= 0
    ensures r == (a, b) || r == (b, a)
  {
    if op == Times then
      assert a >= 0 && b >= 0 ==> a * b >= 0;
      (a, b)
    else if op == Minus && a < b then (b, a) else (a, b)
  }

  /** `generateMathQuestion` with subtraction operands ordered: every answer
      is non-negative, and (below) every answer admits finishing draws. */
  function GenerateMathQuestionFixed(level: int, t: Tier, d: QuestionDraws): (r: Option<Question>)
    requires |d.shuffle| >= 3
    ensures r.Some? ==>
      var q := r.value;
      && q.answer >= 0 && q.answer == Apply(q.op, q.a, q.b)
      && 1 <= q.a <= MaxOperand(level, t) && 1 <= q.b <= MaxOperand(level, t)
      && (t == Easy ==> q.op == Plus)
      && (q.op == Times ==> OpBound(level, t) == 2)
      && (q.op == Minus ==> OpBound(level, t) >= 1)
      && |q.options| == 4 && q.answer in q.options && Distinct(q.options)
      && forall i | 0 <= i < 4 && q.options[i] != q.answer ::
           q.options[i] >= 0 && q.answer - Spread(t) <= q.options[i] <= q.answer + Spread(t)
    ensures QuestionAnswer(level, t, d) >= 0 ==> r == GenerateMathQuestion(level, t, d)
  {
    var maxNum := MaxOperand(level, t);
    var op := OpAt(OpIndex(level, t, d.op));
    var ab := OrderedOperands(op, Random(1, maxNum, d.a), Random(1, maxNum, d.b));
    match BuildOptions(Apply(op, ab.0, ab.1), t, d)
    case None => None
    case Some(opts) => Some(Question(ab.0, ab.1, op, Apply(op, ab.0, ab.1), opts))
  }

  /** With ordered operands every answer is at least 0, so the option loop
      always has draws that end it. */
  lemma FixedQuestionCanFinish(level: int, t: Tier, d: QuestionDraws)
    requires |d.shuffle| >= 3
    ensures exists wrong :: GenerateMathQuestionFixed(level, t, d.(wrong := wrong)).Some?
  {
    var maxNum := MaxOperand(level, t);
    var op := OpAt(OpIndex(level, t, d.op));
    var ab := OrderedOperands(op, Random(1, maxNum, d.a), Random(1, maxNum, d.b));
    var answer := Apply(op, ab.0, ab.1);
    OptionsCanFinish(answer, Spread(t));
    var wrong :| CollectOptions(answer, Spread(t), [answer], wrong).Some?;
    assert BuildOptions(answer, t, d.(wrong := wrong)).Some?;
  }

  /** `calculateStars(score, maxScore)`: 3, 2, 1 or 0 at 90, 70 and 50 percent,
      decided on exact integers (`score * 100 >= 90 * maxScore` for
      `maxScore > 0`). A zero `maxScore` gives `Infinity` (3 stars) for a
      positive score and `NaN` (0 stars) otherwise; a negative `maxScore`
      flips every comparison. */
  function CalculateStars(score: int, maxScore: int): (r: int)
    ensures 0 <= r <= 3
    ensures maxScore > 0 ==> (r == 3 <==> score * 100 >= 90 * maxScore)
    ensures maxScore > 0 ==> (r >= 2 <==> score * 100 >= 70 * maxScore)
    ensures maxScore > 0 ==> (r >= 1 <==> score * 100 >= 50 * maxScore)
  {
    if maxScore > 0 then
      if score * 100 >= 90 * maxScore then 3
      else if score * 100 >= 70 * maxScore then 2
      else if score * 100 >= 50 * maxScore then 1
      else 0
    else if maxScore == 0 then
      if score > 0 then 3 else 0
    else
      if score * 100 <= 90 * maxScore then 3
      else if score * 100 <= 70 * maxScore then 2
      else if score * 100 <= 50 * maxScore then 1
      else 0
  }

  /** More points never earn fewer stars. */
  lemma CalculateStarsMonotone(s1: int, s2: int, maxScore: int)
    requires maxScore > 0 && s1 <= s2
    ensures CalculateStars(s1, maxScore) <= CalculateStars(s2, maxScore)
  {
  }

  /** A clock text: digits, a colon, and two more digits. */
  predicate ClockText(r: string) {
    |r| >= 4 && r[|r| - 3] == ':' && AllDigits(r[..|r| - 3]) && AllDigits(r[|r| - 2..])
  }

  /** The number a clock text shows before its colon. */
  function ClockMinutes(r: string): nat
    requires ClockText(r)
  {
    DigitsValue(r[..|r| - 3])
  }

  /** The number a clock text shows after its colon. */
  function ClockSeconds(r: string): nat
    requires ClockText(r)
  {
    DigitsValue(r[|r| - 2..])
  }

  /** `formatTime(seconds)`: minutes, a colon, seconds padded to two
      digits. Read back, the digits before the colon are the whole minutes
      and the two after it the remaining seconds. */
  function FormatTime(seconds: nat): (r: string)
    ensures ClockText(r)
    ensures ClockMinutes(r) * 60 + ClockSeconds(r) == seconds && ClockSeconds(r) < 60
  {
    var minutes, rest := seconds / 60, seconds % 60;
    assert seconds == minutes * 60 + rest;
    Clock(minutes, rest)
  }

  /** The minutes, a colon and the seconds padded to two digits; read back,
      the two parts are the two numbers. */
  function Clock(minutes: nat, rest: nat): (r: string)
    requires rest < 60
    ensures ClockText(r) && ClockMinutes(r) == minutes && ClockSeconds(r) == rest
  {
    var m := NatToString(minutes);
    var p := PadStart2(NatToString(rest));
    PaddedDigitsValue(rest);
    ColonSplit(m, p, minutes, rest);
    m + ":" + p
  }

  /** Digits `m`, a colon and two digits `p` split back into `m` and `p`. */
  lemma ColonSplit(m: string, p: string, minutes: nat, rest: nat)
    requires |m| >= 1 && AllDigits(m) && DigitsValue(m) == minutes
    requires |p| == 2 && AllDigits(p) && DigitsValue(p) == rest
    ensures ClockText(m + ":" + p)
    ensures ClockMinutes(m + ":" + p) == minutes && ClockSeconds(m + ":" + p) == rest
  {
    var r := m + ":" + p;
    assert r[..|r| - 3] == m;
    assert r[|r| - 2..] == p;
  }

  lemma PaddedDigitsValue(n: nat)
    requires n < 60
    ensures var p := PadStart2(NatToString(n));
      |p| == 2 && AllDigits(p) && DigitsValue(p) == n
  {
    var s := NatToString(n);
    var p := PadStart2(s);
    if n < 10 {
      assert p == ['0'] + s;
      assert p[..1] == ['0'];
      assert DigitsValue(p[..1]) == 0;
    } else {
      assert |NatToString(n / 10)| == 1;
      assert p == s;
    }
  }

  /** `s` with every comma removed. */
  function DropCommas(s: string): string {
    if |s| == 0 then [] else DropCommas(s[..|s| - 1]) + (if s[|s| - 1] == ',' then [] else [s[|s| - 1]])
  }

  lemma {:induction false} DropCommasAppend(a: string, b: string)
    ensures DropCommas(a + b) == DropCommas(a) + DropCommas(b)
    decreases |b|
  {
    if |b| > 0 {
      assert (a + b)[..|a + b| - 1] == a + b[..|b| - 1];
      DropCommasAppend(a, b[..|b| - 1]);
    } else {
      assert a + b == a;
    }
  }

  /** Digits grouped in threes from the right: a first group of one to three
      digits, then any number of `,ddd` groups. */
  ghost predicate WellGrouped(r: string)
    decreases |r|
  {
    if |r| <= 3 then 1 <= |r| && AllDigits(r)
    else |r| >= 5 && r[|r| - 4] == ',' && AllDigits(r[|r| - 3..]) && WellGrouped(r[..|r| - 4])
  }

  /** The comma insertion of `formatNumber`'s regular expression
      `\B(?=(\d{3})+(?!\d))` on a string of digits. */
  function GroupThousands(d: string): (r: string)
    requires AllDigits(d) && |d| >= 1
    ensures DropCommas(r) == d
    ensures WellGrouped(r)
    decreases |d|
  {
    if |d| <= 3 then
      assert DropCommas(d) == d by { NoCommasDropNothing(d); }
      d
    else
      var head := GroupThousands(d[..|d| - 3]);
      var tail := d[|d| - 3..];
      GroupStep(head, tail);
      assert d == d[..|d| - 3] + tail;
      head + "," + tail
  }

  /** One more `,ddd` group keeps a grouping well formed and adds its three
      digits to what reads back. */
  lemma GroupStep(head: string, tail: string)
    requires WellGrouped(head) && |tail| == 3 && AllDigits(tail)
    ensures DropCommas(head + "," + tail) == DropCommas(head) + tail
    ensures WellGrouped(head + "," + tail)
  {
    var r := head + "," + tail;
    assert r == head + ("," + tail);
    DropCommasAppend(head, "," + tail);
    DropCommasAppend(",", tail);
    assert DropCommas(",") == [] by {
      assert ","[..0] == [];
    }
    NoCommasDropNothing(tail);
    assert r[..|r| - 4] == head;
    assert r[|r| - 3..] == tail;
  }

  lemma {:induction false} NoCommasDropNothing(s: string)
    requires AllDigits(s)
    ensures DropCommas(s) == s
    decreases |s|
  {
    if |s| > 0 {
      NoCommasDropNothing(s[..|s| - 1]);
      assert s == s[..|s| - 1] + [s[|s| - 1]];
    }
  }

  /** `formatNumber(num)` for a natural number. */
  function FormatNumber(n: nat): (r: string)
    ensures DropCommas(r) == NatToString(n)
    ensures WellGrouped(r)
  {
    GroupThousands(NatToString(n))
  }
}
