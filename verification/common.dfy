/** Small shared vocabulary: an optional value, integer clamps, sequence
    predicates, and the progress record every mini-game hands to the store
    when a level is completed. */
module Common {

  /** `null`/`undefined` in the app, or a present value. */
  datatype Option<T> = None | Some(value: T)

  function Min(a: int, b: int): int { if a <= b then a else b }

  function Max(a: int, b: int): int { if a >= b then a else b }

  /** No element occurs twice. */
  ghost predicate Distinct<T>(s: seq<T>) {
    forall i, j | 0 <= i < j < |s| :: s[i] != s[j]
  }

  /** `arr.indexOf(x)` followed by `splice(index, 1)` when found: the first
      occurrence of `x` is dropped, nothing happens when `x` is absent. */
  function RemoveFirst<T(==)>(s: seq<T>, x: T): (r: seq<T>)
    ensures x in s ==> multiset(r) == multiset(s) - multiset{x} && |r| == |s| - 1
    ensures x !in s ==> r == s
  {
    if |s| == 0 then s
    else
      assert s == [s[0]] + s[1..];
      if s[0] == x then s[1..] else [s[0]] + RemoveFirst(s[1..], x)
  }

  /** `arr.filter((y) => y !== x)`. */
  function Without<T(==)>(s: seq<T>, x: T): (r: seq<T>)
    ensures x !in r
    ensures forall i | 0 <= i < |r| :: r[i] in s && r[i] != x
    ensures forall i | 0 <= i < |s| && s[i] != x :: s[i] in r
    ensures |r| <= |s|
  {
    if |s| == 0 then s
    else if s[0] == x then Without(s[1..], x)
    else [s[0]] + Without(s[1..], x)
  }

  /** Filtering keeps an element-distinct sequence element-distinct. */
  lemma {:induction false} WithoutKeepsDistinct<T>(s: seq<T>, x: T)
    requires Distinct(s)
    ensures Distinct(Without(s, x))
  {
    if |s| > 0 {
      WithoutKeepsDistinct(s[1..], x);
      if s[0] != x {
        assert s[0] !in s[1..];
        assert s[0] !in Without(s[1..], x);
      }
    }
  }

  /** Filtering out an element that occurs once removes exactly one. */
  lemma {:induction false} WithoutDistinctCount<T>(s: seq<T>, x: T)
    requires Distinct(s) && x in s
    ensures |Without(s, x)| == |s| - 1
  {
    if s[0] == x {
      assert x !in s[1..];
      WithoutAbsent(s[1..], x);
    } else {
      assert x in s[1..];
      WithoutDistinctCount(s[1..], x);
    }
  }

  /** Filtering out an absent element changes nothing. */
  lemma {:induction false} WithoutAbsent<T>(s: seq<T>, x: T)
    requires x !in s
    ensures Without(s, x) == s
  {
    if |s| > 0 {
      assert x !in s[1..];
      WithoutAbsent(s[1..], x);
      assert s == [s[0]] + s[1..];
    }
  }

  /** The argument games pass to `updateGameProgress(key, {level, score, stars})`
      when a level is won. */
  datatype Save = Save(level: int, score: int, stars: int)

  /** The `Math.min(3, level)` star rating most games save. */
  function LevelStars(level: int): (r: int)
    ensures r <= 3 && r <= level
    ensures r == 3 || r == level
  {
    Min(3, level)
  }

  /** `list.includes(x) ? list : [...list, x]`, the at-most-once record
      several games keep (completed experiments, missions, visited countries). */
  function AppendNew<T(==)>(s: seq<T>, x: T): (r: seq<T>)
    ensures x in r
    ensures x in s ==> r == s
    ensures x !in s ==> r == s + [x]
  {
    if x in s then s else s + [x]
  }

  lemma {:induction false} AppendNewKeepsDistinct<T>(s: seq<T>, x: T)
    requires Distinct(s)
    ensures Distinct(AppendNew(s, x))
  {
  }

  /** A sequence without repeats has as many distinct elements as entries. */
  lemma {:induction false} DistinctSetSize<T>(a: seq<T>)
    requires Distinct(a)
    ensures |set x | x in a| == |a|
  {
    if |a| > 0 {
      var rest := a[1..];
      DistinctSetSize(rest);
      assert (set x | x in a) == {a[0]} + (set x | x in rest);
      assert a[0] !in rest;
    }
  }

  /** A subset is no larger, and a subset of the same size is the whole set. */
  lemma {:induction false} SubsetSize<T>(a: set<T>, b: set<T>)
    requires a <= b
    ensures |a| <= |b|
    ensures |a| == |b| ==> a == b
    decreases |b|
  {
    if a != {} {
      var x :| x in a;
      assert |a - {x}| == |a| - 1 && |b - {x}| == |b| - 1;
      SubsetSize(a - {x}, b - {x});
      if |a| == |b| {
        assert a == (a - {x}) + {x} && b == (b - {x}) + {x};
      }
    } else if b != {} {
      var y :| y in b;
      assert |b - {y}| == |b| - 1;
    }
  }

  /** A duplicate-free list drawn from a duplicate-free universe is no
      longer than the universe, and as long only when it covers all of it. */
  lemma DistinctWithin<T>(c: seq<T>, universe: seq<T>)
    requires Distinct(c) && Distinct(universe)
    requires forall i | 0 <= i < |c| :: c[i] in universe
    ensures |c| <= |universe|
    ensures |c| == |universe| ==> forall x | x in universe :: x in c
  {
    DistinctSetSize(c);
    DistinctSetSize(universe);
    var a := set x | x in c;
    var b := set x | x in universe;
    assert a <= b;
    SubsetSize(a, b);
    if |c| == |universe| {
      assert forall x | x in universe :: x in b;
    }
  }
}
