/** Options and a few facts about duplicate-free sequences that several components share. */
module Collections {

  datatype Option<+T> = None | Some(value: T)

  ghost predicate Distinct<T>(s: seq<T>) {
    forall i, j :: 0 <= i < j < |s| ==> s[i] != s[j]
  }

  ghost function Elements<T>(s: seq<T>): set<T> {
    set x | x in s
  }

  lemma AppendElements<T>(s: seq<T>, x: T)
    ensures Elements(s + [x]) == Elements(s) + {x}
  {
    forall y | y in Elements(s + [x])
      ensures y in Elements(s) + {x}
    {
    }
  }

  lemma AppendDistinct<T>(s: seq<T>, x: T)
    requires Distinct(s) && x !in s
    ensures Distinct(s + [x])
  {
  }

  lemma {:induction false} DistinctSize<T>(s: seq<T>)
    requires Distinct(s)
    ensures |Elements(s)| == |s|
  {
    if s == [] {
      assert Elements(s) == {};
    } else {
      var t := s[..|s| - 1];
      DistinctSize(t);
      AppendElements(t, s[|s| - 1]);
      assert s == t + [s[|s| - 1]];
      assert s[|s| - 1] !in Elements(t);
    }
  }

  lemma SubsetSize<T>(a: set<T>, b: set<T>)
    requires a <= b
    ensures |a| <= |b|
    ensures |a| == |b| ==> a == b
  {
    assert b == a + (b - a);
    assert |b| == |a| + |b - a|;
  }

  lemma {:induction false} ElementsSize<T>(s: seq<T>)
    ensures |Elements(s)| <= |s|
  {
    if s == [] {
      assert Elements(s) == {};
    } else {
      var t := s[..|s| - 1];
      ElementsSize(t);
      AppendElements(t, s[|s| - 1]);
      assert s == t + [s[|s| - 1]];
    }
  }

  /** A duplicate-free sequence drawn from `b` is no longer than `b`. */
  lemma DistinctFits<T>(a: seq<T>, b: seq<T>)
    requires Distinct(a)
    requires forall x :: x in a ==> x in b
    ensures |a| <= |b|
  {
    DistinctSize(a);
    ElementsSize(b);
    SubsetSize(Elements(a), Elements(b));
  }

  lemma {:induction false} DistinctMultiplicity<T>(s: seq<T>)
    requires Distinct(s)
    ensures forall x :: multiset(s)[x] == if x in s then 1 else 0
  {
    if s != [] {
      var t := s[..|s| - 1];
      DistinctMultiplicity(t);
      assert s == t + [s[|s| - 1]];
    }
  }

  /** Two duplicate-free sequences with the same elements are permutations of each other. */
  lemma SameElementsPermutation<T>(a: seq<T>, b: seq<T>)
    requires Distinct(a) && Distinct(b)
    requires forall x :: x in a <==> x in b
    ensures multiset(a) == multiset(b)
  {
    DistinctMultiplicity(a);
    DistinctMultiplicity(b);
  }

  /** `all` is split into what an iteration has visited and what it has still to visit. */
  ghost predicate Split<T>(all: set<T>, done: set<T>, todo: set<T>) {
    all == done + todo && done !! todo
  }

  lemma SplitStep<T>(all: set<T>, done: set<T>, todo: set<T>, x: T)
    requires Split(all, done, todo) && x in todo
    ensures Split(all, done + {x}, todo - {x})
  {
  }

  lemma RemoveKey<K, V>(m: map<K, V>, k: K)
    requires k in m
    ensures (m - {k}).Keys == m.Keys - {k}
    ensures |m - {k}| < |m|
  {
    assert (m - {k}).Keys == m.Keys - {k};
    assert |m| == |m.Keys| && |m - {k}| == |(m - {k}).Keys|;
  }

  /** `part` holds the members of `whole` that an iteration has met so far. */
  ghost predicate Met<T>(whole: set<T>, todo: set<T>, part: set<T>) {
    part == whole - todo
  }

  lemma MetEnds<T>(whole: set<T>, todo: set<T>, part: set<T>)
    ensures whole <= todo ==> Met(whole, todo, {})
    ensures Met(whole, {}, part) ==> part == whole
  {
  }

  lemma MetStep<T>(whole: set<T>, todo: set<T>, part: set<T>, x: T)
    requires Met(whole, todo, part) && x in todo
    ensures x !in part
    ensures Met(whole, todo - {x}, if x in whole then part + {x} else part)
  {
  }
}
