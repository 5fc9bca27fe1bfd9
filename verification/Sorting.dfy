/** Stable sorting by a comparison, and the order of strings. */
module Sorting {

  // ---- orders ------------------------------------------------------------------

  /** `Less` as a comparison function induces it: asymmetric, and "not after" is transitive. */
  ghost predicate StrictWeakOrder<T(!new)>(less: (T, T) -> bool) {
    && (forall a, b :: less(a, b) ==> !less(b, a))
    && (forall a, b, c :: !less(b, a) && !less(c, b) ==> !less(c, a))
  }

  /** No element comes after a later one. */
  ghost predicate Sorted<T>(s: seq<T>, less: (T, T) -> bool) {
    forall i, j :: 0 <= i < j < |s| ==> !less(s[j], s[i])
  }

  ghost predicate StrictlySorted<T>(s: seq<T>, less: (T, T) -> bool) {
    forall i, j :: 0 <= i < j < |s| ==> less(s[i], s[j])
  }

  /** Any two different elements are ordered one way or the other. */
  ghost predicate Distinguishes<T>(s: seq<T>, less: (T, T) -> bool) {
    forall i, j :: 0 <= i < j < |s| ==> less(s[i], s[j]) || less(s[j], s[i])
  }

  // ---- insertion sort ------------------------------------------------------------

  /** Puts `x` behind everything that does not come after it. */
  function Insert<T>(s: seq<T>, x: T, less: (T, T) -> bool): (r: seq<T>) {
    if s == [] then [x]
    else if less(x, s[0]) then [x] + s
    else [s[0]] + Insert(s[1..], x, less)
  }

  function Sort<T>(s: seq<T>, less: (T, T) -> bool): seq<T> {
    if s == [] then [] else Insert(Sort(s[..|s| - 1], less), s[|s| - 1], less)
  }

  lemma {:induction false} InsertElements<T>(s: seq<T>, x: T, less: (T, T) -> bool)
    ensures |Insert(s, x, less)| == |s| + 1
    ensures multiset(Insert(s, x, less)) == multiset(s) + multiset{x}
  {
    if s != [] && !less(x, s[0]) {
      InsertElements(s[1..], x, less);
      assert s == [s[0]] + s[1..];
    }
  }

  lemma InMultiset<T>(s: seq<T>, x: T)
    ensures x in multiset(s) <==> x in s
  {
  }

  lemma {:induction false} InsertSorted<T(!new)>(s: seq<T>, x: T, less: (T, T) -> bool)
    requires StrictWeakOrder(less) && Sorted(s, less)
    ensures Sorted(Insert(s, x, less), less)
  {
    if s != [] && !less(x, s[0]) {
      var rest := Insert(s[1..], x, less);
      InsertSorted(s[1..], x, less);
      InsertElements(s[1..], x, less);
      forall j | 0 <= j < |rest|
        ensures !less(rest[j], s[0])
      {
        InMultiset(rest, rest[j]);
        assert rest[j] in multiset(rest);
        assert rest[j] == x || rest[j] in s[1..];
      }
    } else if s != [] {
      forall j | 0 <= j < |s|
        ensures !less(s[j], x)
      {
        assert !less(s[j], s[0]) || j == 0;
      }
    }
  }

  /** Sorting orders the elements and keeps each of them. */
  lemma {:induction false} SortFacts<T(!new)>(s: seq<T>, less: (T, T) -> bool)
    requires StrictWeakOrder(less)
    ensures Sorted(Sort(s, less), less)
    ensures multiset(Sort(s, less)) == multiset(s) && |Sort(s, less)| == |s|
    ensures forall x :: x in Sort(s, less) <==> x in s
  {
    if s != [] {
      var init, last := s[..|s| - 1], s[|s| - 1];
      SortFacts(init, less);
      InsertSorted(Sort(init, less), last, less);
      InsertElements(Sort(init, less), last, less);
      assert s == init + [last];
    }
    forall x
      ensures x in Sort(s, less) <==> x in s
    {
      InMultiset(s, x);
      InMultiset(Sort(s, less), x);
    }
  }

  lemma {:induction false} InsertAtEnd<T>(s: seq<T>, x: T, less: (T, T) -> bool)
    requires forall i :: 0 <= i < |s| ==> !less(x, s[i])
    ensures Insert(s, x, less) == s + [x]
  {
    if s != [] {
      InsertAtEnd(s[1..], x, less);
    }
  }

  lemma {:induction false} SortOfSorted<T>(s: seq<T>, less: (T, T) -> bool)
    requires Sorted(s, less)
    ensures Sort(s, less) == s
  {
    if s != [] {
      SortOfSorted(s[..|s| - 1], less);
      InsertAtEnd(s[..|s| - 1], s[|s| - 1], less);
    }
  }

  lemma FirstIsElement<T>(s: seq<T>)
    requires s != []
    ensures exists x :: x in s
  {
    assert s[0] in s;
  }

  /** A strictly sorted sequence is determined by its elements. */
  lemma {:induction false} StrictlySortedUnique<T(!new)>(a: seq<T>, b: seq<T>, less: (T, T) -> bool)
    requires StrictWeakOrder(less) && StrictlySorted(a, less) && StrictlySorted(b, less)
    requires forall x :: x in a <==> x in b
    ensures a == b
  {
    if a == [] {
      if b != [] {
        FirstIsElement(b);
      }
    } else {
      assert a[0] in b;
      assert b[0] in a;
      assert a[0] == b[0];
      forall x
        ensures x in a[1..] <==> x in b[1..]
      {
        TailElements(a, less, x);
        TailElements(b, less, x);
      }
      StrictlySortedUnique(a[1..], b[1..], less);
    }
  }

  lemma TailElements<T(!new)>(s: seq<T>, less: (T, T) -> bool, x: T)
    requires StrictWeakOrder(less) && StrictlySorted(s, less) && s != []
    ensures x in s[1..] <==> x in s && x != s[0]
  {
  }

  /** Sorting two lists of the same pairwise ordered elements gives the same list. */
  lemma SortUnique<T(!new)>(a: seq<T>, b: seq<T>, less: (T, T) -> bool)
    requires StrictWeakOrder(less) && Distinguishes(a, less) && Distinguishes(b, less)
    requires forall x :: x in a <==> x in b
    ensures Sort(a, less) == Sort(b, less)
  {
    SortFacts(a, less);
    SortFacts(b, less);
    SortStrict(a, less);
    SortStrict(b, less);
    StrictlySortedUnique(Sort(a, less), Sort(b, less), less);
  }

  lemma {:induction false} InsertStrict<T(!new)>(s: seq<T>, x: T, less: (T, T) -> bool)
    requires StrictWeakOrder(less) && StrictlySorted(s, less)
    requires forall i :: 0 <= i < |s| ==> less(s[i], x) || less(x, s[i])
    ensures StrictlySorted(Insert(s, x, less), less)
  {
    if s != [] && !less(x, s[0]) {
      var rest := Insert(s[1..], x, less);
      InsertStrict(s[1..], x, less);
      InsertElements(s[1..], x, less);
      forall j | 0 <= j < |rest|
        ensures less(s[0], rest[j])
      {
        InMultiset(rest, rest[j]);
        assert rest[j] in multiset(rest);
        assert rest[j] == x || rest[j] in s[1..];
      }
    } else if s != [] {
      forall j | 0 < j < |s|
        ensures less(x, s[j])
      {
        var y := s[j];
        assert less(s[0], y);
        assert !less(s[0], x);
        assert !less(y, x) || !less(x, y);
      }
    }
  }

  lemma {:induction false} SortStrict<T(!new)>(s: seq<T>, less: (T, T) -> bool)
    requires StrictWeakOrder(less) && Distinguishes(s, less)
    ensures StrictlySorted(Sort(s, less), less)
  {
    if s != [] {
      var init, last := s[..|s| - 1], s[|s| - 1];
      SortStrict(init, less);
      SortFacts(init, less);
      forall i | 0 <= i < |Sort(init, less)|
        ensures less(Sort(init, less)[i], last) || less(last, Sort(init, less)[i])
      {
        assert Sort(init, less)[i] in init;
      }
      InsertStrict(Sort(init, less), last, less);
    }
  }

  // ---- strings -------------------------------------------------------------------

  /** `str::cmp`: the order of the code points, which is the order of the UTF-8 bytes. */
  predicate StringLess(a: string, b: string) {
    if b == "" then false
    else if a == "" then true
    else if a[0] == b[0] then StringLess(a[1..], b[1..])
    else a[0] < b[0]
  }

  lemma {:induction false} StringLessAsymmetric(a: string, b: string)
    requires StringLess(a, b)
    ensures !StringLess(b, a)
  {
    if a != "" && a[0] == b[0] {
      StringLessAsymmetric(a[1..], b[1..]);
    }
  }

  lemma {:induction false} StringLessTotal(a: string, b: string)
    ensures StringLess(a, b) || StringLess(b, a) || a == b
  {
    if a != "" && b != "" && a[0] == b[0] {
      StringLessTotal(a[1..], b[1..]);
      assert a == [a[0]] + a[1..] && b == [b[0]] + b[1..];
    }
  }

  lemma {:induction false} StringLessTransitive(a: string, b: string, c: string)
    requires StringLess(a, b) && StringLess(b, c)
    ensures StringLess(a, c)
  {
    if a != "" && a[0] == b[0] == c[0] {
      StringLessTransitive(a[1..], b[1..], c[1..]);
    }
  }

  lemma StringOrder()
    ensures StrictWeakOrder(StringLess)
    ensures forall a, b :: a != b ==> StringLess(a, b) || StringLess(b, a)
    ensures forall a :: !StringLess(a, a)
  {
    forall a, b | StringLess(a, b)
      ensures !StringLess(b, a)
    {
      StringLessAsymmetric(a, b);
    }
    forall a, b
      ensures StringLess(a, b) || StringLess(b, a) || a == b
    {
      StringLessTotal(a, b);
    }
    forall a, b, c | !StringLess(b, a) && !StringLess(c, b)
      ensures !StringLess(c, a)
    {
      if StringLess(c, a) {
        StringLessTotal(a, b);
        StringLessTotal(b, c);
        if a != b && b != c {
          StringLessTransitive(a, b, c);
          StringLessAsymmetric(a, c);
        }
      }
    }
  }
}
