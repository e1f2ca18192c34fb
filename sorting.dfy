/** `Array.prototype.sort` with a comparator: a stable sort (as ECMAScript
    2019 requires) by a "comes strictly before" relation `lt`. It is written
    as an insertion sort; what matters is what is proved of it: the result is
    a permutation of the input, is ordered by `lt`, and keeps tied elements in
    their original order. */
module Sorting {
  import opened Sequences

  /** `lt` is a strict weak order: asymmetric, and "not before" is transitive. */
  ghost predicate StrictWeakOrder<T(!new)>(lt: (T, T) -> bool)
  {
    && (forall a, b :: lt(a, b) ==> !lt(b, a))
    && (forall a, b, c :: !lt(a, b) && !lt(b, c) ==> !lt(a, c))
  }

  /** No element comes strictly before an earlier one. */
  predicate SortedBy<T>(s: seq<T>, lt: (T, T) -> bool)
  {
    forall i, j :: 0 <= i < j < |s| ==> !lt(s[j], s[i])
  }

  /** Insert `x` in front of the first element it does not come after. */
  function Insert<T>(x: T, s: seq<T>, lt: (T, T) -> bool): (r: seq<T>)
    ensures |r| == |s| + 1
    ensures multiset(r) == multiset(s) + multiset{x}
  {
    if s == [] || !lt(s[0], x) then [x] + s
    else
      assert s == [s[0]] + s[1..];
      [s[0]] + Insert(x, s[1..], lt)
  }

  function SortBy<T>(s: seq<T>, lt: (T, T) -> bool): (r: seq<T>)
    ensures |r| == |s|
    ensures multiset(r) == multiset(s)
  {
    if s == [] then []
    else
      assert s == [s[0]] + s[1..];
      Insert(s[0], SortBy(s[1..], lt), lt)
  }

  /** Sorting neither adds nor drops an element. */
  lemma SortByMembers<T>(s: seq<T>, lt: (T, T) -> bool)
    ensures forall i :: 0 <= i < |SortBy(s, lt)| ==> SortBy(s, lt)[i] in s
    ensures forall i :: 0 <= i < |s| ==> s[i] in SortBy(s, lt)
  {
    var r := SortBy(s, lt);
    forall i | 0 <= i < |r| ensures r[i] in s {
      assert r[i] in multiset(r);
    }
    forall i | 0 <= i < |s| ensures s[i] in r {
      assert s[i] in multiset(s);
    }
  }

  lemma {:induction false} InsertSorted<T(!new)>(x: T, s: seq<T>, lt: (T, T) -> bool)
    requires StrictWeakOrder(lt)
    requires SortedBy(s, lt)
    ensures SortedBy(Insert(x, s, lt), lt)
    decreases |s|
  {
    var r := Insert(x, s, lt);
    if s == [] || !lt(s[0], x) {
      forall i, j | 0 <= i < j < |r| ensures !lt(r[j], r[i]) {
        if i == 0 {
          assert r[j] == s[j - 1];
          if j > 1 { assert !lt(s[j - 1], s[0]); }
        } else {
          assert r[i] == s[i - 1] && r[j] == s[j - 1];
        }
      }
    } else {
      var tail := Insert(x, s[1..], lt);
      InsertSorted(x, s[1..], lt);
      assert r == [s[0]] + tail;
      forall i, j | 0 <= i < j < |r| ensures !lt(r[j], r[i]) {
        if i == 0 {
          var y := r[j];
          assert y == tail[j - 1];
          assert y in multiset(tail);
          assert y == x || y in multiset(s[1..]);
          if y != x {
            var k :| 0 <= k < |s[1..]| && s[1..][k] == y;
            assert s[k + 1] == y;
          }
        } else {
          assert r[i] == tail[i - 1] && r[j] == tail[j - 1];
        }
      }
    }
  }

  /** The sorted list is ordered by `lt`. */
  lemma {:induction false} SortBySorted<T(!new)>(s: seq<T>, lt: (T, T) -> bool)
    requires StrictWeakOrder(lt)
    ensures SortedBy(SortBy(s, lt), lt)
    decreases |s|
  {
    if s != [] {
      SortBySorted(s[1..], lt);
      InsertSorted(s[0], SortBy(s[1..], lt), lt);
    }
  }

  /** A list that is already in order is left as it is. */
  lemma {:induction false} SortByKeepsSorted<T>(s: seq<T>, lt: (T, T) -> bool)
    requires SortedBy(s, lt)
    ensures SortBy(s, lt) == s
    decreases |s|
  {
    if s != [] {
      SortedTail(s, lt);
      SortByKeepsSorted(s[1..], lt);
      if |s| > 1 { assert !lt(s[1..][0], s[0]); }
      assert s == [s[0]] + s[1..];
    }
  }

  // ---------------------------------------------------------------------
  // Stability: restricted to the elements tied with any given `x`, the sort
  // changes nothing.

  /** Neither comes before the other. */
  predicate Tied<T>(lt: (T, T) -> bool, a: T, b: T)
  {
    !lt(a, b) && !lt(b, a)
  }

  function TiedWith<T>(lt: (T, T) -> bool, x: T): T -> bool
  {
    y => Tied(lt, y, x)
  }

  lemma FilterCons<T>(y: T, t: seq<T>, p: T -> bool)
    ensures Filter([y] + t, p) == (if p(y) then [y] else []) + Filter(t, p)
  {
    assert ([y] + t)[0] == y && ([y] + t)[1..] == t;
  }

  /** The tail of an ordered list is ordered. */
  lemma SortedTail<T>(t: seq<T>, lt: (T, T) -> bool)
    requires t != [] && SortedBy(t, lt)
    ensures SortedBy(t[1..], lt)
  {
    forall i, j | 0 <= i < j < |t[1..]| ensures !lt(t[1..][j], t[1..][i]) {
      assert t[1..][j] == t[j + 1] && t[1..][i] == t[i + 1];
    }
  }

  /** Of two elements one of which comes strictly before the other, at most
      one is tied with any given `x`. */
  lemma NotBothTied<T(!new)>(a: T, y: T, x: T, lt: (T, T) -> bool)
    requires StrictWeakOrder(lt) && lt(a, y)
    ensures !(Tied(lt, y, x) && Tied(lt, a, x))
  {
  }

  lemma {:induction false} InsertTies<T(!new)>(y: T, t: seq<T>, lt: (T, T) -> bool, x: T)
    requires StrictWeakOrder(lt)
    requires SortedBy(t, lt)
    ensures Filter(Insert(y, t, lt), TiedWith(lt, x))
         == (if Tied(lt, y, x) then [y] else []) + Filter(t, TiedWith(lt, x))
    decreases |t|
  {
    var p := TiedWith(lt, x);
    if t == [] || !lt(t[0], y) {
      FilterCons(y, t, p);
    } else {
      SortedTail(t, lt);
      InsertTies(y, t[1..], lt, x);
      NotBothTied(t[0], y, x, lt);
      InsertTiesStep(y, t, lt, x);
    }
  }

  /** The step of `InsertTies` past an element `t[0]` that comes strictly
      before `y`: `t[0]` stays in front, and at most one of the two is kept. */
  lemma InsertTiesStep<T>(y: T, t: seq<T>, lt: (T, T) -> bool, x: T)
    requires t != [] && lt(t[0], y)
    requires !(Tied(lt, y, x) && Tied(lt, t[0], x))
    requires Filter(Insert(y, t[1..], lt), TiedWith(lt, x))
          == (if Tied(lt, y, x) then [y] else []) + Filter(t[1..], TiedWith(lt, x))
    ensures Filter(Insert(y, t, lt), TiedWith(lt, x))
         == (if Tied(lt, y, x) then [y] else []) + Filter(t, TiedWith(lt, x))
  {
    assert Insert(y, t, lt) == [t[0]] + Insert(y, t[1..], lt);
    assert t == [t[0]] + t[1..];
    FilterPast(t[0], y, Insert(y, t[1..], lt), t[1..], TiedWith(lt, x));
  }

  /** Putting `a` in front of two lists whose filters differ only by `y` in
      front keeps that difference, when `a` and `y` are not both kept. */
  lemma FilterPast<T>(a: T, y: T, u: seq<T>, v: seq<T>, p: T -> bool)
    requires !(p(y) && p(a))
    requires Filter(u, p) == (if p(y) then [y] else []) + Filter(v, p)
    ensures Filter([a] + u, p) == (if p(y) then [y] else []) + Filter([a] + v, p)
  {
    FilterCons(a, u, p);
    FilterCons(a, v, p);
    if p(a) {
      assert [] + Filter(v, p) == Filter(v, p);
      assert Filter(u, p) == Filter(v, p);
    } else {
      assert [] + Filter(u, p) == Filter(u, p);
      assert [] + Filter(v, p) == Filter(v, p);
    }
  }

  /** Two tied elements of the sorted list stand in the same order in its
      input. */
  lemma StableTies<T(!new)>(s: seq<T>, lt: (T, T) -> bool, i: int, j: int) returns (a: int, b: int)
    requires StrictWeakOrder(lt)
    requires 0 <= i < j < |SortBy(s, lt)| && Tied(lt, SortBy(s, lt)[i], SortBy(s, lt)[j])
    ensures 0 <= a < b < |s| && s[a] == SortBy(s, lt)[i] && s[b] == SortBy(s, lt)[j]
  {
    var r := SortBy(s, lt);
    var p := TiedWith(lt, r[j]);
    SortByStable(s, lt, r[j]);
    assert p(r[i]) && p(r[j]);
    assert Before(r, r[i], r[j]);
    FilterKeepsBefore(r, p, r[i], r[j]);
    FilterBeforeBack(s, p, r[i], r[j]);
    a, b :| 0 <= a < b < |s| && s[a] == r[i] && s[b] == r[j];
  }

  /** The sort is stable: tied elements keep their original relative order. */
  lemma {:induction false} SortByStable<T(!new)>(s: seq<T>, lt: (T, T) -> bool, x: T)
    requires StrictWeakOrder(lt)
    ensures Filter(SortBy(s, lt), TiedWith(lt, x)) == Filter(s, TiedWith(lt, x))
    decreases |s|
  {
    if s != [] {
      SortByStable(s[1..], lt, x);
      SortBySorted(s[1..], lt);
      InsertTies(s[0], SortBy(s[1..], lt), lt, x);
      FilterCons(s[0], s[1..], TiedWith(lt, x));
      assert s == [s[0]] + s[1..];
    }
  }
}
