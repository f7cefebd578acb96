/** `sort.SliceStable`: the one stable order. */
module Sorting {

  /** Puts x after everything it does not have to come before. */
  function Insert<T>(x: T, s: seq<T>, less: (T, T) -> bool): seq<T> {
    if s == [] || !less(x, s[|s| - 1]) then s + [x] else Insert(x, s[..|s| - 1], less) + [s[|s| - 1]]
  }

  function StableSort<T>(s: seq<T>, less: (T, T) -> bool): seq<T> {
    if s == [] then [] else Insert(s[|s| - 1], StableSort(s[..|s| - 1], less), less)
  }

  /** A strict order whose ties are transitive. */
  ghost predicate IsOrder<T(!new)>(less: (T, T) -> bool) {
    && (forall x, y | less(x, y) :: !less(y, x))
    && (forall x, y, z | !less(y, x) && !less(z, y) :: !less(z, x))
  }

  ghost predicate Sorted<T>(s: seq<T>, less: (T, T) -> bool) {
    forall i, j | 0 <= i < j < |s| :: !less(s[j], s[i])
  }

  lemma Chain<T(!new)>(less: (T, T) -> bool, x: T, y: T, z: T)
    requires IsOrder(less) && !less(y, x) && !less(z, y)
    ensures !less(z, x)
  {}

  lemma Flip<T(!new)>(less: (T, T) -> bool, x: T, y: T)
    requires IsOrder(less) && less(x, y)
    ensures !less(y, x)
  {}

  lemma {:induction false} InsertSorts<T(!new)>(x: T, s: seq<T>, less: (T, T) -> bool)
    requires IsOrder(less) && Sorted(s, less)
    ensures Sorted(Insert(x, s, less), less)
    ensures multiset(Insert(x, s, less)) == multiset(s) + multiset{x}
  {
    hide IsOrder;
    if s != [] {
      var n := |s| - 1;
      assert s == s[..n] + [s[n]];
      if less(x, s[n]) {
        InsertSorts(x, s[..n], less);
        var front := Insert(x, s[..n], less);
        forall i | 0 <= i < |front| ensures !less(s[n], front[i]) {
          assert front[i] in multiset(front);
          if front[i] == x {
            Flip(less, x, s[n]);
          } else {
            assert front[i] in multiset(s[..n]);
          }
        }
      } else {
        forall i | 0 <= i < n ensures !less(x, s[i]) {
          Chain(less, s[i], s[n], x);
        }
      }
    }
  }

  lemma {:induction false} StableSortSorts<T(!new)>(s: seq<T>, less: (T, T) -> bool)
    requires IsOrder(less)
    ensures Sorted(StableSort(s, less), less)
    ensures multiset(StableSort(s, less)) == multiset(s)
    ensures |StableSort(s, less)| == |s|
  {
    hide IsOrder, Sorted;
    SortedEmpty(less);
    if s != [] {
      var n := |s| - 1;
      StableSortSorts(s[..n], less);
      InsertSorts(s[n], StableSort(s[..n], less), less);
      assert s == s[..n] + [s[n]];
      SameMultisetSameLength(StableSort(s, less), s);
    }
  }

  lemma SortedEmpty<T>(less: (T, T) -> bool)
    ensures Sorted([], less)
  {}

  lemma SameMultisetSameLength<T>(a: seq<T>, b: seq<T>)
    requires multiset(a) == multiset(b)
    ensures |a| == |b|
  {
    assert |multiset(a)| == |a| && |multiset(b)| == |b|;
  }

  ghost predicate NoDup<T>(s: seq<T>) {
    forall i, j | 0 <= i < j < |s| :: s[i] != s[j]
  }

  function Elements<T>(s: seq<T>): set<T> {
    set x | x in s
  }

  lemma {:induction false} NoDupSize<T>(s: seq<T>)
    requires NoDup(s)
    ensures |Elements(s)| == |s|
  {
    if s != [] {
      var n := |s| - 1;
      NoDupSize(s[..n]);
      assert s == s[..n] + [s[n]];
      assert Elements(s) == Elements(s[..n]) + {s[n]};
    }
  }

  lemma {:induction false} NoDupCounts<T>(s: seq<T>)
    ensures NoDup(s) <==> forall x | x in s :: multiset(s)[x] == 1
  {
    if s != [] {
      var n := |s| - 1;
      NoDupCounts(s[..n]);
      assert s == s[..n] + [s[n]];
      assert forall x | x in s :: x in s[..n] || x == s[n];
      if NoDup(s) {
        assert s[n] !in s[..n];
      } else if forall x | x in s :: multiset(s)[x] == 1 {
        assert multiset(s)[s[n]] == multiset(s[..n])[s[n]] + 1;
        assert s[n] !in s[..n];
        forall x | x in s[..n] ensures multiset(s[..n])[x] == 1 {
          assert multiset(s)[x] == 1;
        }
      }
    }
  }

  /** A permutation of a duplicate-free list is duplicate-free and has the same elements. */
  lemma PermutedNoDup<T>(a: seq<T>, b: seq<T>)
    requires multiset(a) == multiset(b) && NoDup(a)
    ensures NoDup(b) && Elements(a) == Elements(b)
  {
    NoDupCounts(a);
    NoDupCounts(b);
    forall x ensures x in a <==> x in b {
      assert x in multiset(a) <==> x in multiset(b);
    }
  }
}
