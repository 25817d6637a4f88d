/**
 * Python's `sorted`, which is stable: insertion sort under a strict order `less`, each element
 * inserted after every element already placed that it does not precede.
 */
module Sorting {

  ghost predicate StrictOrder<T(!new)>(less: (T, T) -> bool) {
    && (forall a :: !less(a, a))
    && (forall a, b, c :: less(a, b) && less(b, c) ==> less(a, c))
  }

  ghost predicate SortedBy<T>(s: seq<T>, less: (T, T) -> bool) {
    forall i, j :: 0 <= i < j < |s| ==> !less(s[j], s[i])
  }

  function Insert<T>(x: T, s: seq<T>, less: (T, T) -> bool): (r: seq<T>)
    ensures multiset(r) == multiset(s) + multiset{x}
    ensures |r| == |s| + 1
    decreases |s|
  {
    if s == [] then [x]
    else if less(x, s[0]) then [x] + s
    else
      assert s == [s[0]] + s[1..];
      [s[0]] + Insert(x, s[1..], less)
  }

  /** `sorted(s, key=...)`: the elements of `s`, stably ordered by `less`. */
  function Sort<T>(s: seq<T>, less: (T, T) -> bool): (r: seq<T>)
    ensures multiset(r) == multiset(s)
    ensures |r| == |s|
    decreases |s|
  {
    if s == [] then []
    else
      assert s == s[..|s| - 1] + [s[|s| - 1]];
      Insert(s[|s| - 1], Sort(s[..|s| - 1], less), less)
  }

  lemma {:induction false} InsertSorted<T(!new)>(x: T, s: seq<T>, less: (T, T) -> bool)
    requires StrictOrder(less)
    requires SortedBy(s, less)
    ensures SortedBy(Insert(x, s, less), less)
    decreases |s|
  {
    if s != [] && !less(x, s[0]) {
      var rest := Insert(x, s[1..], less);
      InsertSorted(x, s[1..], less);
      var r := [s[0]] + rest;
      assert multiset(rest) == multiset(s[1..]) + multiset{x};
      forall j | 1 <= j < |r| ensures !less(r[j], s[0]) {
        assert r[j] in multiset(rest);
        if r[j] != x {
          assert r[j] in multiset(s[1..]);
          var k :| 0 <= k < |s[1..]| && s[1..][k] == r[j];
          assert s[k + 1] == r[j];
        }
      }
    }
  }

  /** Sorting yields a sequence ordered by `less` (together with `Sort`'s own contract:
      a permutation of the input). */
  lemma {:induction false} SortSorted<T(!new)>(s: seq<T>, less: (T, T) -> bool)
    requires StrictOrder(less)
    ensures SortedBy(Sort(s, less), less)
    decreases |s|
  {
    if s != [] {
      SortSorted(s[..|s| - 1], less);
      InsertSorted(s[|s| - 1], Sort(s[..|s| - 1], less), less);
    }
  }

  function Filter<T>(s: seq<T>, keep: T -> bool): (r: seq<T>)
    ensures |r| <= |s|
    decreases |s|
  {
    if s == [] then []
    else Filter(s[..|s| - 1], keep) + (if keep(s[|s| - 1]) then [s[|s| - 1]] else [])
  }

  lemma {:induction false} FilterPrepend<T>(x: T, s: seq<T>, keep: T -> bool)
    ensures Filter([x] + s, keep) == (if keep(x) then [x] else []) + Filter(s, keep)
    decreases |s|
  {
    if s != [] {
      assert ([x] + s)[..|s|] == [x] + s[..|s| - 1];
      FilterPrepend(x, s[..|s| - 1], keep);
    } else {
      assert ([x] + s)[..0] == [];
    }
  }

  lemma {:induction false} FilterNone<T>(s: seq<T>, keep: T -> bool)
    requires forall i :: 0 <= i < |s| ==> !keep(s[i])
    ensures Filter(s, keep) == []
    decreases |s|
  {
    if s != [] {
      FilterNone(s[..|s| - 1], keep);
    }
  }

  /** The kept elements are mutually unordered and are ordered alike against every other element. */
  ghost predicate TieClass<T(!new)>(keep: T -> bool, less: (T, T) -> bool) {
    && (forall a, b :: keep(a) && keep(b) ==> !less(a, b))
    && (forall a, b, y :: keep(a) && keep(b) && less(a, y) ==> less(b, y))
  }

  /** When `x` precedes the first element of a sorted sequence and is kept, nothing else is kept. */
  lemma NoneKeptAfter<T(!new)>(x: T, s: seq<T>, less: (T, T) -> bool, keep: T -> bool)
    requires StrictOrder(less) && TieClass(keep, less)
    requires SortedBy(s, less)
    requires s != [] && less(x, s[0]) && keep(x)
    ensures forall i :: 0 <= i < |s| ==> !keep(s[i])
  {
    assert forall i :: 0 <= i < |s| && keep(s[i]) ==> less(s[i], s[0]);
  }

  lemma {:induction false} InsertFilter<T(!new)>(x: T, s: seq<T>, less: (T, T) -> bool, keep: T -> bool)
    requires StrictOrder(less) && TieClass(keep, less)
    requires SortedBy(s, less)
    ensures Filter(Insert(x, s, less), keep) == Filter(s, keep) + (if keep(x) then [x] else [])
    decreases |s|
  {
    if s == [] {
      assert [x][..0] == [];
    } else if less(x, s[0]) {
      FilterPrepend(x, s, keep);
      if keep(x) {
        NoneKeptAfter(x, s, less, keep);
        FilterNone(s, keep);
      }
    } else {
      SortedTail(s, less);
      InsertFilter(x, s[1..], less, keep);
      InsertFilterStep(x, s, less, keep);
    }
  }

  lemma SortedTail<T>(s: seq<T>, less: (T, T) -> bool)
    requires s != [] && SortedBy(s, less)
    ensures SortedBy(s[1..], less)
  {
  }

  lemma InsertFilterStep<T>(x: T, s: seq<T>, less: (T, T) -> bool, keep: T -> bool)
    requires s != [] && !less(x, s[0])
    requires Filter(Insert(x, s[1..], less), keep) == Filter(s[1..], keep) + (if keep(x) then [x] else [])
    ensures Filter(Insert(x, s, less), keep) == Filter(s, keep) + (if keep(x) then [x] else [])
  {
    var head: seq<T> := if keep(s[0]) then [s[0]] else [];
    var tail: seq<T> := if keep(x) then [x] else [];
    FilterHead(s, keep);
    FilterHead(Insert(x, s, less), keep);
    calc {
      Filter(Insert(x, s, less), keep);
    ==
      head + Filter(Insert(x, s[1..], less), keep);
    ==
      head + (Filter(s[1..], keep) + tail);
    ==  { Assoc(head, Filter(s[1..], keep), tail); }
      (head + Filter(s[1..], keep)) + tail;
    ==
      Filter(s, keep) + tail;
    }
  }

  /** The filtered sequence is empty exactly when nothing is kept, and otherwise starts with the
      first element kept. */
  lemma {:induction false} FilterFirst<T>(s: seq<T>, keep: T -> bool)
    ensures Filter(s, keep) == [] <==> forall j :: 0 <= j < |s| ==> !keep(s[j])
    ensures Filter(s, keep) != [] ==>
      exists k :: 0 <= k < |s| && keep(s[k]) && (forall j :: 0 <= j < k ==> !keep(s[j]))
        && Filter(s, keep)[0] == s[k]
    decreases |s|
  {
    if s != [] {
      var front := s[..|s| - 1];
      FilterFirst(front, keep);
      assert forall j :: 0 <= j < |front| ==> front[j] == s[j];
      if Filter(front, keep) != [] {
        var k :| 0 <= k < |front| && keep(front[k]) && (forall j :: 0 <= j < k ==> !keep(front[j]))
          && Filter(front, keep)[0] == front[k];
        assert Filter(s, keep)[0] == s[k];
      } else if keep(s[|s| - 1]) {
        assert Filter(s, keep) == [s[|s| - 1]];
      }
    }
  }

  lemma FilterHead<T>(s: seq<T>, keep: T -> bool)
    requires s != []
    ensures Filter(s, keep) == (if keep(s[0]) then [s[0]] else []) + Filter(s[1..], keep)
  {
    FilterPrepend(s[0], s[1..], keep);
    assert [s[0]] + s[1..] == s;
  }

  lemma Assoc<T>(a: seq<T>, b: seq<T>, c: seq<T>)
    ensures a + (b + c) == (a + b) + c
  {
  }

  /** Stability: among elements of one tie class, sorting keeps the input order. */
  lemma {:induction false} SortStable<T(!new)>(s: seq<T>, less: (T, T) -> bool, keep: T -> bool)
    requires StrictOrder(less) && TieClass(keep, less)
    ensures Filter(Sort(s, less), keep) == Filter(s, keep)
    decreases |s|
  {
    if s != [] {
      var init := s[..|s| - 1];
      SortStable(init, less, keep);
      SortSorted(init, less);
      InsertFilter(s[|s| - 1], Sort(init, less), less, keep);
    }
  }
}
