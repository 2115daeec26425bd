/** Strict orders, stable sorting and the order of strings, as the selection algorithms use them. */
module Ordering {

  ghost predicate StrictTotal<T(!new)>(before: (T, T) -> bool, domain: set<T>) {
    && (forall a | a in domain :: !before(a, a))
    && (forall a, b | a in domain && b in domain && a != b :: before(a, b) != before(b, a))
    && (forall a, b, c | a in domain && b in domain && c in domain && before(a, b) && before(b, c) :: before(a, c))
  }

  predicate Sorted<T>(s: seq<T>, before: (T, T) -> bool) {
    forall i, j | 0 <= i < j < |s| :: before(s[i], s[j])
  }

  /** No element occurs twice. */
  predicate Distinct<T(==)>(s: seq<T>) {
    forall x | x in s :: multiset(s)[x] == 1
  }

  function Elements<T>(s: seq<T>): set<T> {
    set x | x in s
  }

  /** Insertion behind everything that is not after the new element: a stable sort. */
  function Insert<T>(x: T, s: seq<T>, before: (T, T) -> bool): (r: seq<T>)
    ensures multiset(r) == multiset(s) + multiset{x}
  {
    if s != [] && before(x, s[|s| - 1]) then
      assert s == s[..|s| - 1] + [s[|s| - 1]];
      Insert(x, s[..|s| - 1], before) + [s[|s| - 1]]
    else s + [x]
  }

  function StableSort<T>(s: seq<T>, before: (T, T) -> bool): (r: seq<T>)
    ensures multiset(r) == multiset(s)
  {
    if s == [] then [] else
      assert s == s[..|s| - 1] + [s[|s| - 1]];
      Insert(s[|s| - 1], StableSort(s[..|s| - 1], before), before)
  }

  lemma SameElements<T>(s: seq<T>, t: seq<T>)
    requires multiset(s) == multiset(t)
    ensures Elements(s) == Elements(t) && |s| == |t|
  {
    forall x ensures x in s <==> x in t {
      assert x in s <==> x in multiset(s);
      assert x in t <==> x in multiset(t);
    }
    assert |multiset(s)| == |s| && |multiset(t)| == |t|;
  }

  lemma DistinctFront<T>(front: seq<T>, last: T)
    requires Distinct(front + [last])
    ensures Distinct(front) && last !in front
  {
    var s := front + [last];
    assert multiset(s) == multiset(front) + multiset{last};
    forall x | x in front ensures multiset(front)[x] == 1 && x != last {
      assert x in s && x in multiset(front);
    }
  }

  lemma DistinctAppend<T>(front: seq<T>, last: T)
    requires Distinct(front) && last !in front
    ensures Distinct(front + [last])
  {
    forall x | x in front + [last] ensures multiset(front + [last])[x] == 1 {
      assert x in front ==> multiset(front)[x] == 1;
      assert last !in multiset(front);
    }
  }

  lemma DistinctFirst<T>(s: seq<T>, n: nat)
    requires Distinct(s) && n <= |s|
    ensures Distinct(s[..n])
  {
    assert s == s[..n] + s[n..];
    forall x | x in s[..n] ensures multiset(s[..n])[x] == 1 {
      assert x in s && multiset(s) == multiset(s[..n]) + multiset(s[n..]);
      assert x in multiset(s[..n]);
    }
  }

  lemma DistinctDiffer<T>(s: seq<T>)
    requires Distinct(s)
    ensures forall j, k | 0 <= j < k < |s| :: s[j] != s[k]
  {
    forall j, k | 0 <= j < k < |s| ensures s[j] != s[k] {
      assert s == s[..k] + s[k..];
      assert s[j] in multiset(s[..k]) && s[k] in multiset(s[k..]) && s[k] in s;
      assert multiset(s) == multiset(s[..k]) + multiset(s[k..]);
    }
  }

  lemma {:induction false} DifferDistinct<T>(s: seq<T>)
    requires forall j, k | 0 <= j < k < |s| :: s[j] != s[k]
    ensures Distinct(s)
  {
    if s != [] {
      var front, last := s[..|s| - 1], s[|s| - 1];
      assert s == front + [last];
      DifferDistinct(front);
      DistinctAppend(front, last);
    }
  }

  lemma DistinctReordered<T>(s: seq<T>, t: seq<T>)
    requires Distinct(s) && multiset(s) == multiset(t)
    ensures Distinct(t)
  {
    forall x | x in t ensures multiset(t)[x] == 1 {
      assert x in multiset(t) && x in s;
    }
  }

  lemma {:induction false} InsertSorts<T(!new)>(x: T, s: seq<T>, before: (T, T) -> bool, domain: set<T>)
    requires StrictTotal(before, domain) && Elements(s) + {x} <= domain && x !in s && Sorted(s, before)
    ensures Sorted(Insert(x, s, before), before)
  {
    if s != [] {
      var front, last := s[..|s| - 1], s[|s| - 1];
      assert last in Elements(s);
      if before(x, last) {
        assert Elements(front) <= Elements(s);
        InsertSorts(x, front, before, domain);
        var r := Insert(x, front, before);
        forall i | 0 <= i < |r| ensures before(r[i], last) {
          assert r[i] in multiset(r);
          if r[i] != x {
            var j :| 0 <= j < |front| && front[j] == r[i];
          }
        }
      } else {
        forall i | 0 <= i < |s| ensures before(s[i], x) {
          assert s[i] in Elements(s);
        }
      }
    }
  }

  lemma {:induction false} StableSortSorts<T(!new)>(s: seq<T>, before: (T, T) -> bool, domain: set<T>)
    requires StrictTotal(before, domain) && Elements(s) <= domain && Distinct(s)
    ensures Sorted(StableSort(s, before), before)
  {
    if s != [] {
      var front, last := s[..|s| - 1], s[|s| - 1];
      assert s == front + [last];
      DistinctFront(front, last);
      assert Elements(front) <= Elements(s) && last in Elements(s);
      StableSortSorts(front, before, domain);
      SameElements(StableSort(front, before), front);
      InsertSorts(last, StableSort(front, before), before, domain);
    }
  }

  /** The last element of a sorted sequence comes after all others. */
  lemma LastIsAfter<T(!new)>(s: seq<T>, x: T, before: (T, T) -> bool)
    requires Sorted(s, before) && x in s && x != s[|s| - 1]
    ensures before(x, s[|s| - 1])
  {
    var i :| 0 <= i < |s| && s[i] == x;
  }

  lemma SameLast<T(!new)>(s: seq<T>, t: seq<T>, before: (T, T) -> bool, domain: set<T>)
    requires StrictTotal(before, domain) && Elements(s) <= domain && s != [] && t != []
    requires Sorted(s, before) && Sorted(t, before) && Elements(s) == Elements(t)
    ensures s[|s| - 1] == t[|t| - 1]
  {
    var x, y := s[|s| - 1], t[|t| - 1];
    assert x in Elements(s) && y in Elements(t);
    if x != y {
      LastIsAfter(s, y, before);
      LastIsAfter(t, x, before);
    }
  }

  lemma FrontsAgree<T>(front: seq<T>, other: seq<T>, last: T)
    requires multiset(front + [last]) == multiset(other + [last])
    ensures multiset(front) == multiset(other)
  {
    assert multiset(front) == multiset(front + [last]) - multiset{last};
    assert multiset(other) == multiset(other + [last]) - multiset{last};
  }

  /** A strict order leaves only one way to sort. */
  lemma {:induction false} SortedUnique<T(!new)>(s: seq<T>, t: seq<T>, before: (T, T) -> bool, domain: set<T>)
    requires StrictTotal(before, domain) && Elements(s) <= domain
    requires Sorted(s, before) && Sorted(t, before) && multiset(s) == multiset(t)
    ensures s == t
  {
    SameElements(s, t);
    if s != [] {
      SameLast(s, t, before, domain);
      var front, other, last := s[..|s| - 1], t[..|t| - 1], s[|s| - 1];
      assert s == front + [last] && t == other + [last];
      FrontsAgree(front, other, last);
      assert Elements(front) <= Elements(s);
      SortedUnique(front, other, before, domain);
    }
  }

  /** Sorting forgets the order of its input. */
  lemma SortIgnoresOrder<T(!new)>(s: seq<T>, t: seq<T>, before: (T, T) -> bool)
    requires multiset(s) == multiset(t) && Distinct(s) && StrictTotal(before, Elements(s))
    ensures StableSort(s, before) == StableSort(t, before) && Sorted(StableSort(s, before), before)
  {
    SameElements(s, t);
    assert Distinct(t);
    StableSortSorts(s, before, Elements(s));
    StableSortSorts(t, before, Elements(s));
    SameElements(StableSort(s, before), s);
    SortedUnique(StableSort(s, before), StableSort(t, before), before, Elements(s));
  }

  // ----- Sorting with ties -----

  /** An order whose ties are consistent on the domain: being level is an equivalence. */
  ghost predicate WeakOrder<T(!new)>(before: (T, T) -> bool, domain: set<T>) {
    && (forall a, b | a in domain && b in domain && before(a, b) :: !before(b, a))
    && (forall a, b, c | a in domain && b in domain && c in domain && !before(a, b) && !before(b, c) :: !before(a, c))
  }

  /** `before` decides what `coarse` leaves level, and nothing else. */
  ghost predicate Refines<T(!new)>(before: (T, T) -> bool, coarse: (T, T) -> bool, domain: set<T>) {
    forall a, b | a in domain && b in domain :: (coarse(a, b) ==> before(a, b)) && (before(a, b) ==> !coarse(b, a))
  }

  /** No element comes after one that it precedes. */
  predicate InOrder<T>(s: seq<T>, before: (T, T) -> bool) {
    forall i, j | 0 <= i < j < |s| :: !before(s[j], s[i])
  }

  lemma {:induction false} InsertKeepsOrder<T(!new)>(x: T, s: seq<T>, before: (T, T) -> bool, coarse: (T, T) -> bool, domain: set<T>)
    requires WeakOrder(coarse, domain) && Refines(before, coarse, domain) && Elements(s) + {x} <= domain && InOrder(s, coarse)
    ensures InOrder(Insert(x, s, before), coarse)
  {
    if s != [] {
      var front, last := s[..|s| - 1], s[|s| - 1];
      assert last in Elements(s);
      if before(x, last) {
        assert Elements(front) <= Elements(s);
        InsertKeepsOrder(x, front, before, coarse, domain);
        var r := Insert(x, front, before);
        forall i | 0 <= i < |r| ensures !coarse(last, r[i]) {
          assert r[i] in multiset(r);
          if r[i] != x {
            var j :| 0 <= j < |front| && front[j] == r[i];
          }
        }
      } else {
        forall i | 0 <= i < |s| ensures !coarse(x, s[i]) {
          assert s[i] in Elements(s);
          if i < |s| - 1 {
            assert !coarse(last, s[i]);
          }
        }
      }
    }
  }

  /** A sort whose comparison only breaks the ties of a consistent order sorts by that order, however it breaks them. */
  lemma {:induction false} StableSortOrders<T(!new)>(s: seq<T>, before: (T, T) -> bool, coarse: (T, T) -> bool, domain: set<T>)
    requires WeakOrder(coarse, domain) && Refines(before, coarse, domain) && Elements(s) <= domain
    ensures InOrder(StableSort(s, before), coarse)
  {
    if s != [] {
      var front, last := s[..|s| - 1], s[|s| - 1];
      assert Elements(front) <= Elements(s) && last in Elements(s);
      StableSortOrders(front, before, coarse, domain);
      SameElements(StableSort(front, before), front);
      InsertKeepsOrder(last, StableSort(front, before), before, coarse, domain);
    }
  }

  predicate Level<T>(a: T, b: T, before: (T, T) -> bool) {
    !before(a, b) && !before(b, a)
  }

  /** The elements level with x, in their order. */
  function LevelWith<T>(s: seq<T>, x: T, before: (T, T) -> bool): seq<T> {
    if s == [] then [] else
    LevelWith(s[..|s| - 1], x, before) + if Level(s[|s| - 1], x, before) then [s[|s| - 1]] else []
  }

  lemma LevelAppend<T>(s: seq<T>, last: T, x: T, before: (T, T) -> bool)
    ensures LevelWith(s + [last], x, before) == LevelWith(s, x, before) + if Level(last, x, before) then [last] else []
  {
    assert (s + [last])[..|s|] == s;
  }

  lemma NotBothLevel<T(!new)>(y: T, last: T, x: T, before: (T, T) -> bool, domain: set<T>)
    requires WeakOrder(before, domain) && {y, last, x} <= domain && before(y, last)
    ensures !Level(y, x, before) || !Level(last, x, before)
  {
  }

  lemma Swap<T>(a: seq<T>, b: seq<T>, c: seq<T>)
    requires b == [] || c == []
    ensures a + b + c == a + c + b
  {
  }

  lemma {:induction false} InsertIsStable<T(!new)>(y: T, s: seq<T>, x: T, before: (T, T) -> bool, domain: set<T>)
    requires WeakOrder(before, domain) && Elements(s) + {x, y} <= domain
    ensures LevelWith(Insert(y, s, before), x, before) == LevelWith(s, x, before) + if Level(y, x, before) then [y] else []
  {
    if s != [] && before(y, s[|s| - 1]) {
      var front, last := s[..|s| - 1], s[|s| - 1];
      assert Elements(front) <= Elements(s) && last in Elements(s);
      InsertIsStable(y, front, x, before, domain);
      LevelAppend(Insert(y, front, before), last, x, before);
      NotBothLevel(y, last, x, before, domain);
      Swap(LevelWith(front, x, before), if Level(y, x, before) then [y] else [], if Level(last, x, before) then [last] else []);
    } else {
      LevelAppend(s, y, x, before);
    }
  }

  /** Elements that are level keep the order of the input. */
  lemma {:induction false} StableSortIsStable<T(!new)>(s: seq<T>, x: T, before: (T, T) -> bool, domain: set<T>)
    requires WeakOrder(before, domain) && Elements(s) + {x} <= domain
    ensures LevelWith(StableSort(s, before), x, before) == LevelWith(s, x, before)
  {
    if s != [] {
      var front, last := s[..|s| - 1], s[|s| - 1];
      assert Elements(front) <= Elements(s) && last in Elements(s);
      StableSortIsStable(front, x, before, domain);
      SameElements(StableSort(front, before), front);
      InsertIsStable(last, StableSort(front, before), x, before, domain);
    }
  }

  // ----- The order of strings -----

  predicate Less(a: string, b: string) {
    b != "" && (a == "" || a[0] < b[0] || (a[0] == b[0] && Less(a[1..], b[1..])))
  }

  lemma {:induction false} LessIsStrict(a: string)
    ensures !Less(a, a)
  {
    if a != "" {
      LessIsStrict(a[1..]);
    }
  }

  lemma {:induction false} LessIsTotal(a: string, b: string)
    requires a != b
    ensures Less(a, b) != Less(b, a)
  {
    if a != "" && b != "" && a[0] == b[0] {
      assert a == [a[0]] + a[1..] && b == [b[0]] + b[1..];
      LessIsTotal(a[1..], b[1..]);
    }
  }

  lemma {:induction false} LessIsTransitive(a: string, b: string, c: string)
    requires Less(a, b) && Less(b, c)
    ensures Less(a, c)
  {
    if a != "" && a[0] == b[0] == c[0] {
      LessIsTransitive(a[1..], b[1..], c[1..]);
    }
  }

  /** The order is that of the first character in which the strings differ, a string coming before its continuations. */
  lemma {:induction false} LessAtFirstDifference(a: string, b: string, k: nat)
    requires k <= |a| && k <= |b| && a[..k] == b[..k]
    ensures k < |a| && k < |b| && a[k] < b[k] ==> Less(a, b)
    ensures k == |a| < |b| ==> Less(a, b)
  {
    if k > 0 {
      assert a[0] == a[..k][0] == b[0];
      assert a[1..][..k - 1] == a[..k][1..] && b[1..][..k - 1] == b[..k][1..];
      LessAtFirstDifference(a[1..], b[1..], k - 1);
    }
  }

  lemma LessIsWeak(a: string, b: string, c: string)
    ensures Less(a, b) ==> !Less(b, a)
    ensures !Less(a, b) && !Less(b, c) ==> !Less(a, c)
  {
    LessIsStrict(a);
    if a != b {
      LessIsTotal(a, b);
    }
    if b != c {
      LessIsTotal(b, c);
    }
    if Less(a, c) && Less(c, b) {
      LessIsTransitive(a, c, b);
    }
  }
}
