/** The array operations the route handlers use on the store's collections:
    `filter`, `find`/`findIndex` by id, `splice(i, 1)`, `slice` with
    JavaScript's negative-index rules, and the keep-the-last-n trim. */
module Sequences {
  import opened Base

  // ---------------------------------------------------------------------
  // `filter`

  function Filter<T>(s: seq<T>, p: T -> bool): (r: seq<T>)
    ensures |r| <= |s|
    ensures forall i :: 0 <= i < |r| ==> r[i] in s && p(r[i])
    ensures forall i :: 0 <= i < |s| && p(s[i]) ==> s[i] in r
  {
    if s == [] then []
    else
      var r := (if p(s[0]) then [s[0]] else []) + Filter(s[1..], p);
      assert forall i :: 1 <= i < |s| ==> s[i] == s[1..][i - 1];
      r
  }

  lemma {:induction false} FilterAppend<T>(s: seq<T>, x: T, p: T -> bool)
    ensures Filter(s + [x], p) == Filter(s, p) + (if p(x) then [x] else [])
    decreases |s|
  {
    if s == [] {
      assert [x][1..] == [];
    } else {
      assert (s + [x])[1..] == s[1..] + [x];
      FilterAppend(s[1..], x, p);
    }
  }

  /** `x` occurs somewhere before `y` in `s`. */
  predicate Before<T(==)>(s: seq<T>, x: T, y: T)
  {
    exists a, b :: 0 <= a < b < |s| && s[a] == x && s[b] == y
  }

  /** Two kept elements keep their relative order through `filter`. */
  lemma {:induction false} FilterKeepsBefore<T>(s: seq<T>, p: T -> bool, x: T, y: T)
    requires Before(s, x, y) && p(x) && p(y)
    ensures Before(Filter(s, p), x, y)
    decreases |s|
  {
    var a, b :| 0 <= a < b < |s| && s[a] == x && s[b] == y;
    var pre := if p(s[0]) then [s[0]] else [];
    var r := Filter(s[1..], p);
    assert Filter(s, p) == pre + r;
    if a == 0 {
      assert s[1..][b - 1] == y;
      var k :| 0 <= k < |r| && r[k] == y;
      assert (pre + r)[0] == x && (pre + r)[k + 1] == y;
    } else {
      assert s[1..][a - 1] == x && s[1..][b - 1] == y;
      FilterKeepsBefore(s[1..], p, x, y);
      var c, d :| 0 <= c < d < |r| && r[c] == x && r[d] == y;
      assert (pre + r)[|pre| + c] == x && (pre + r)[|pre| + d] == y;
    }
  }

  /** An order between two elements of a filtered list is their order in the input. */
  lemma {:induction false} FilterBeforeBack<T>(s: seq<T>, p: T -> bool, x: T, y: T)
    requires Before(Filter(s, p), x, y)
    ensures Before(s, x, y)
    decreases |s|
  {
    var pre := if p(s[0]) then [s[0]] else [];
    var r := Filter(s[1..], p);
    assert Filter(s, p) == pre + r;
    var a, b :| 0 <= a < b < |pre + r| && (pre + r)[a] == x && (pre + r)[b] == y;
    if a < |pre| {
      assert x == s[0] && r[b - 1] == y;
      var k :| 0 <= k < |s[1..]| && s[1..][k] == y;
      assert s[k + 1] == y;
    } else {
      assert r[a - |pre|] == x && r[b - |pre|] == y;
      FilterBeforeBack(s[1..], p, x, y);
      var c, d :| 0 <= c < d < |s[1..]| && s[1..][c] == x && s[1..][d] == y;
      assert s[c + 1] == x && s[d + 1] == y;
    }
  }

  /** Two filters in a row keep what their conjunction keeps. */
  lemma {:induction false} FilterFuse<T>(s: seq<T>, p: T -> bool, q: T -> bool, both: T -> bool)
    requires forall x :: both(x) == (p(x) && q(x))
    ensures Filter(Filter(s, p), q) == Filter(s, both)
    decreases |s|
  {
    if s != [] {
      FilterFuse(s[1..], p, q, both);
      var head := if p(s[0]) then [s[0]] else [];
      assert Filter(s, p) == head + Filter(s[1..], p);
      if p(s[0]) {
        assert Filter(s, p)[0] == s[0];
        assert Filter(s, p)[1..] == Filter(s[1..], p);
      } else {
        assert Filter(s, p) == Filter(s[1..], p);
      }
    }
  }

  /** A filter that keeps everything is the identity. */
  lemma {:induction false} FilterAll<T>(s: seq<T>, p: T -> bool)
    requires forall x :: x in s ==> p(x)
    ensures Filter(s, p) == s
    decreases |s|
  {
    if s != [] {
      FilterAll(s[1..], p);
      assert s == [s[0]] + s[1..];
    }
  }

  /** A filter keeps every element exactly when `p` holds of all of them. */
  lemma {:induction false} FilterKeepsAll<T>(s: seq<T>, p: T -> bool)
    ensures |Filter(s, p)| == |s| <==> forall i :: 0 <= i < |s| ==> p(s[i])
    decreases |s|
  {
    if s != [] {
      FilterKeepsAll(s[1..], p);
      assert forall i :: 1 <= i < |s| ==> s[i] == s[1..][i - 1];
      assert forall i :: 0 <= i < |s[1..]| ==> s[1..][i] == s[i + 1];
    }
  }

  /** A filter that keeps nothing gives the empty sequence. */
  lemma {:induction false} FilterNone<T>(s: seq<T>, p: T -> bool)
    requires forall i :: 0 <= i < |s| ==> !p(s[i])
    ensures Filter(s, p) == []
    decreases |s|
  {
    if s != [] {
      assert forall i :: 0 <= i < |s[1..]| ==> s[1..][i] == s[i + 1];
      FilterNone(s[1..], p);
    }
  }

  /** The number of elements `p` keeps. */
  function Count<T>(s: seq<T>, p: T -> bool): (n: nat)
    ensures n <= |s|
  {
    |Filter(s, p)|
  }

  lemma CountAppend<T>(s: seq<T>, x: T, p: T -> bool)
    ensures Count(s + [x], p) == Count(s, p) + (if p(x) then 1 else 0)
  {
    FilterAppend(s, x, p);
  }

  // ---------------------------------------------------------------------
  // Lookup by id: `findIndex(e => e.id === id)` and `find(...)`.

  /** The position of the first element whose key is `id`, or -1. */
  function FirstIndex<T>(s: seq<T>, key: T -> string, id: string): (r: int)
    ensures -1 <= r < |s|
    ensures r == -1 <==> forall k :: 0 <= k < |s| ==> key(s[k]) != id
    ensures r >= 0 ==> key(s[r]) == id && forall k :: 0 <= k < r ==> key(s[k]) != id
  {
    if s == [] then -1
    else if key(s[0]) == id then 0
    else
      var r := FirstIndex(s[1..], key, id);
      if r == -1 then -1 else r + 1
  }

  predicate HasKey<T>(s: seq<T>, key: T -> string, id: string)
  {
    exists k :: 0 <= k < |s| && key(s[k]) == id
  }

  function Find<T>(s: seq<T>, key: T -> string, id: string): (r: Option<T>)
    ensures r.Some? <==> HasKey(s, key, id)
    ensures r.Some? ==> r.value in s && key(r.value) == id
    ensures r.Some? ==> r.value == s[FirstIndex(s, key, id)]
  {
    var i := FirstIndex(s, key, id);
    if i < 0 then None else Some(s[i])
  }

  /** No two elements share a key. */
  predicate UniqueKeys<T>(s: seq<T>, key: T -> string)
  {
    forall i, j :: 0 <= i < j < |s| ==> key(s[i]) != key(s[j])
  }

  /** Appending an element with a fresh key keeps keys unique, and looking
      that key up afterwards finds exactly the new element. */
  lemma AppendFresh<T>(s: seq<T>, x: T, key: T -> string)
    requires UniqueKeys(s, key)
    requires !HasKey(s, key, key(x))
    ensures UniqueKeys(s + [x], key)
    ensures Find(s + [x], key, key(x)) == Some(x)
  {
    var t := s + [x];
    assert t[|s|] == x;
    assert HasKey(t, key, key(x));
    var i := FirstIndex(t, key, key(x));
    assert forall k :: 0 <= k < |s| ==> t[k] == s[k];
  }

  /** Appending several records at once keeps keys unique when their keys
      are unique among themselves and new to the collection. */
  lemma AppendAllFresh<T>(s: seq<T>, t: seq<T>, key: T -> string)
    requires UniqueKeys(s, key) && UniqueKeys(t, key)
    requires forall k :: 0 <= k < |t| ==> !HasKey(s, key, key(t[k]))
    ensures UniqueKeys(s + t, key)
  {
    var r := s + t;
    forall a, b | 0 <= a < b < |r| ensures key(r[a]) != key(r[b]) {
      if b >= |s| && a < |s| {
        assert r[b] == t[b - |s|] && r[a] == s[a];
      } else if a >= |s| {
        assert r[a] == t[a - |s|] && r[b] == t[b - |s|];
      }
    }
  }

  // ---------------------------------------------------------------------
  // Sequences without repetitions.

  predicate Distinct<T(==)>(s: seq<T>)
  {
    forall i, j :: 0 <= i < j < |s| ==> s[i] != s[j]
  }

  lemma MultisetTwice<T>(s: seq<T>, a: int, b: int)
    requires 0 <= a < b < |s| && s[a] == s[b]
    ensures multiset(s)[s[a]] >= 2
  {
    var x := s[a];
    assert s == s[..a] + [x] + s[a + 1..b] + [x] + s[b + 1..];
    assert multiset(s) == multiset(s[..a]) + multiset{x} + multiset(s[a + 1..b]) + multiset{x} + multiset(s[b + 1..]);
  }

  /** A sequence is without repetitions exactly when its multiset holds
      every element at most once. */
  lemma {:induction false} DistinctMultiset<T>(s: seq<T>)
    ensures Distinct(s) <==> forall x :: multiset(s)[x] <= 1
    decreases |s|
  {
    if s != [] {
      DistinctMultiset(s[1..]);
      assert s == [s[0]] + s[1..];
      assert multiset(s) == multiset{s[0]} + multiset(s[1..]);
      if Distinct(s) {
        assert Distinct(s[1..]) by {
          forall i, j | 0 <= i < j < |s[1..]| ensures s[1..][i] != s[1..][j] {
            assert s[1..][i] == s[i + 1] && s[1..][j] == s[j + 1];
          }
        }
        assert s[0] !in s[1..] by {
          forall k | 0 <= k < |s[1..]| ensures s[1..][k] != s[0] { assert s[1..][k] == s[k + 1]; }
        }
      } else {
        var a, b :| 0 <= a < b < |s| && s[a] == s[b];
        MultisetTwice(s, a, b);
      }
    }
  }

  /** A permutation of a sequence without repetitions has none either. */
  lemma DistinctPermutation<T>(s: seq<T>, t: seq<T>)
    requires multiset(s) == multiset(t) && Distinct(s)
    ensures Distinct(t)
  {
    DistinctMultiset(s);
    DistinctMultiset(t);
  }

  // ---------------------------------------------------------------------
  // `splice(i, 1)` and assignment at an index.

  function RemoveAt<T>(s: seq<T>, i: int): (r: seq<T>)
    requires 0 <= i < |s|
    ensures |r| == |s| - 1
    ensures forall k :: 0 <= k < i ==> r[k] == s[k]
    ensures forall k :: i <= k < |r| ==> r[k] == s[k + 1]
  {
    s[..i] + s[i + 1..]
  }

  /** The delete handlers: splice out the first element with key `id`, or
      leave the collection as it is when there is none. */
  function DeleteFirst<T>(s: seq<T>, key: T -> string, id: string): (r: seq<T>)
  {
    var i := FirstIndex(s, key, id);
    if i < 0 then s else RemoveAt(s, i)
  }

  /** Deleting an absent id changes nothing. */
  lemma DeleteAbsent<T>(s: seq<T>, key: T -> string, id: string)
    requires !HasKey(s, key, id)
    ensures DeleteFirst(s, key, id) == s
  {
  }

  /** Deleting a present id removes exactly one element, the first with that
      id, and keeps every other element in its relative order. */
  lemma DeletePresent<T>(s: seq<T>, key: T -> string, id: string)
    requires HasKey(s, key, id)
    ensures var r := DeleteFirst(s, key, id);
            var i := FirstIndex(s, key, id);
            && 0 <= i < |s| && key(s[i]) == id
            && (forall k :: 0 <= k < i ==> key(s[k]) != id)
            && |r| == |s| - 1
            && r == s[..i] + s[i + 1..]
            && multiset(r) + multiset{s[i]} == multiset(s)
  {
    var i := FirstIndex(s, key, id);
    var r := DeleteFirst(s, key, id);
    assert r == s[..i] + s[i + 1..];
    assert s == s[..i] + [s[i]] + s[i + 1..];
  }

  /** With unique ids, nothing with the deleted id is left, and ids stay unique. */
  lemma DeleteUnique<T>(s: seq<T>, key: T -> string, id: string)
    requires UniqueKeys(s, key)
    ensures !HasKey(DeleteFirst(s, key, id), key, id)
    ensures UniqueKeys(DeleteFirst(s, key, id), key)
  {
    var i := FirstIndex(s, key, id);
    if i >= 0 {
      var r := DeleteFirst(s, key, id);
      forall k | 0 <= k < |r| ensures key(r[k]) != id {
        if k < i { assert r[k] == s[k]; } else { assert r[k] == s[k + 1]; }
      }
      forall a, b | 0 <= a < b < |r| ensures key(r[a]) != key(r[b]) {
        var a' := if a < i then a else a + 1;
        var b' := if b < i then b else b + 1;
        assert r[a] == s[a'] && r[b] == s[b'];
      }
    }
  }

  /** What a delete handler needs to report its outcome: it finds the id
      exactly when the id is present, and an absent id leaves the collection
      alone. */
  lemma DeleteFacts<T>(s: seq<T>, key: T -> string, id: string)
    ensures FirstIndex(s, key, id) >= 0 <==> HasKey(s, key, id)
    ensures FirstIndex(s, key, id) < 0 ==> DeleteFirst(s, key, id) == s
  {
    var i := FirstIndex(s, key, id);
    if i >= 0 { assert key(s[i]) == id; }
  }

  /** Replacing the element at a position by one with the same key keeps ids
      unique and changes nothing else. */
  lemma ReplaceSameKey<T>(s: seq<T>, i: int, x: T, key: T -> string)
    requires 0 <= i < |s| && key(x) == key(s[i])
    requires UniqueKeys(s, key)
    ensures UniqueKeys(s[i := x], key)
    ensures |s[i := x]| == |s|
    ensures forall k :: 0 <= k < |s| && k != i ==> s[i := x][k] == s[k]
  {
    var r := s[i := x];
    forall a, b | 0 <= a < b < |r| ensures key(r[a]) != key(r[b]) {
      assert key(r[a]) == key(s[a]) && key(r[b]) == key(s[b]);
    }
  }

  // ---------------------------------------------------------------------
  // `slice(b, e)`: a negative bound counts from the end, and both bounds are
  // clamped to the length.

  function SliceBound(n: nat, k: int): (r: nat)
    ensures r <= n
    ensures 0 <= k ==> r == Min(k, n)
    ensures k < 0 ==> r == Max(n + k, 0)
  {
    if k < 0 then (if n + k < 0 then 0 else n + k) else if k > n then n else k
  }

  function Slice<T>(s: seq<T>, b: int, e: int): (r: seq<T>)
    ensures |r| <= |s|
    ensures var i, j := SliceBound(|s|, b), SliceBound(|s|, e);
            if i < j then r == s[i..j] else r == []
  {
    var i, j := SliceBound(|s|, b), SliceBound(|s|, e);
    if i < j then s[i..j] else []
  }

  /** A slice holds only elements of the sliced sequence. */
  lemma SliceMembers<T>(s: seq<T>, b: int, e: int)
    ensures forall i :: 0 <= i < |Slice(s, b, e)| ==> Slice(s, b, e)[i] in s
  {
    var i, j := SliceBound(|s|, b), SliceBound(|s|, e);
    if i < j {
      forall k | 0 <= k < j - i ensures s[i..j][k] in s { assert s[i..j][k] == s[i + k]; }
    }
  }

  /** With a non-negative start and a positive length, `slice(b, b + n)` is
      the window of at most `n` elements starting at `b`, or empty past the end. */
  lemma SliceWindow<T>(s: seq<T>, b: int, n: int)
    requires 0 <= b && 0 < n
    ensures Slice(s, b, b + n) == s[Min(b, |s|)..Min(b + n, |s|)]
    ensures |Slice(s, b, b + n)| <= n
  {
  }

  /** `slice(0, -k)` for a positive `k`: all but the last `k` elements. */
  lemma SliceDropLast<T>(s: seq<T>, n: int)
    requires n < 0
    ensures Slice(s, 0, n) == s[..Max(|s| + n, 0)]
  {
  }

  /** The page `slice(start, start + n)`: elements of `s` only; for a
      non-negative start and a positive length the window `[start,
      start + n)` cut at the end; for start 0 and a negative length every
      element but the last `-n`. */
  function Page<T>(s: seq<T>, start: int, n: int): (r: seq<T>)
    ensures forall i :: 0 <= i < |r| ==> r[i] in s
    ensures 0 <= start && 0 < n ==> r == s[Min(start, |s|)..Min(start + n, |s|)] && |r| <= n
    ensures start == 0 && n < 0 ==> r == s[..Max(|s| + n, 0)]
    ensures r == Slice(s, start, start + n)
  {
    SliceMembers(s, start, start + n);
    if 0 <= start && 0 < n then
      SliceWindow(s, start, n);
      Slice(s, start, start + n)
    else if start == 0 && n < 0 then
      SliceDropLast(s, n);
      Slice(s, start, start + n)
    else
      Slice(s, start, start + n)
  }

  /** `slice(-n)` for a positive `n`: the last `n` elements, all of them
      when there are fewer. */
  function Last<T>(s: seq<T>, n: nat): (r: seq<T>)
    requires n > 0
    ensures |r| == Min(|s|, n)
    ensures r == s[|s| - |r|..]
  {
    Slice(s, -(n as int), |s|)
  }
}
