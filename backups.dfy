/** The backup rotation `writeDatabase` performs before every write: copy
    the store to a new backup file, list the backup directory, and when it
    holds more than seven files sort the names and unlink all but the seven
    greatest. The directory is a set of names; the listing `readdir`
    returns is a sequence of those names in an order the model does not fix. */
module Backups {
  import opened Base
  import opened JsStrings
  import opened Sequences
  import opened Sorting

  const KeepBackups: nat := 7

  function Names(s: seq<string>): set<string>
  {
    set x | x in s
  }

  /** `Array.prototype.sort()` without a comparator on strings. */
  function NameOrder(): (string, string) -> bool
  {
    (a: string, b: string) => StrLess(a, b)
  }

  lemma NameOrderIsStrictWeak()
    ensures StrictWeakOrder(NameOrder())
  {
    var lt := NameOrder();
    forall a, b ensures lt(a, b) ==> !lt(b, a) { StrLessAsymmetric(a, b); }
    forall a, b, c | !lt(a, b) && !lt(b, c) ensures !lt(a, c) { NotLessTransitive(a, b, c); }
  }

  /** The names the rotation keeps of a listing: the last seven of the
      sorted listing, or all of them when there are at most seven. */
  function Retained(listing: seq<string>): (r: set<string>)
  {
    if |listing| > KeepBackups then
      var sorted := SortBy(listing, NameOrder());
      Names(sorted[|listing| - KeepBackups..])
    else Names(listing)
  }

  lemma {:induction false} DistinctSize(s: seq<string>)
    requires Distinct(s)
    ensures |Names(s)| == |s|
    decreases |s|
  {
    if s != [] {
      assert Distinct(s[1..]) by {
        forall i, j | 0 <= i < j < |s[1..]| ensures s[1..][i] != s[1..][j] {
          assert s[1..][i] == s[i + 1] && s[1..][j] == s[j + 1];
        }
      }
      DistinctSize(s[1..]);
      assert Names(s) == {s[0]} + Names(s[1..]);
      assert s[0] !in Names(s[1..]) by {
        forall k | 0 <= k < |s[1..]| ensures s[1..][k] != s[0] { assert s[1..][k] == s[k + 1]; }
      }
    }
  }

  /** Splitting a sequence without repetitions splits its names in two
      disjoint parts. */
  lemma SplitNames(s: seq<string>, k: int)
    requires Distinct(s) && 0 <= k <= |s|
    ensures Names(s) - Names(s[..k]) == Names(s[k..])
  {
    assert s == s[..k] + s[k..];
    forall x | x in Names(s[k..]) ensures x !in Names(s[..k]) {
      var j :| k <= j < |s| && s[j] == x;
      forall i | 0 <= i < k ensures s[i] != x { }
    }
  }

  lemma SortedNames(listing: seq<string>)
    requires Distinct(listing)
    ensures Names(SortBy(listing, NameOrder())) == Names(listing)
    ensures Distinct(SortBy(listing, NameOrder()))
  {
    var sorted := SortBy(listing, NameOrder());
    DistinctPermutation(listing, sorted);
    assert forall x :: x in sorted <==> x in multiset(sorted);
    assert forall x :: x in listing <==> x in multiset(listing);
  }

  /** Only listed names are kept, and exactly seven of them once there are
      more than seven. */
  lemma RetainedCount(listing: seq<string>)
    requires Distinct(listing)
    ensures Retained(listing) <= Names(listing)
    ensures |Retained(listing)| == Min(|listing|, KeepBackups)
  {
    DistinctSize(listing);
    if |listing| > KeepBackups {
      var sorted := SortBy(listing, NameOrder());
      SortedNames(listing);
      var tail := sorted[|listing| - KeepBackups..];
      assert Distinct(tail) by {
        forall i, j | 0 <= i < j < |tail| ensures tail[i] != tail[j] {
          assert tail[i] == sorted[|listing| - KeepBackups + i] && tail[j] == sorted[|listing| - KeepBackups + j];
        }
      }
      DistinctSize(tail);
    }
  }

  /** Every removed name sorts before every kept name. */
  lemma RetainedGreatest(listing: seq<string>, kept: string, removed: string)
    requires Distinct(listing)
    requires kept in Retained(listing) && removed in Names(listing) && removed !in Retained(listing)
    ensures StrLess(removed, kept)
  {
    var n := |listing|;
    var sorted := SortBy(listing, NameOrder());
    SortedNames(listing);
    NameOrderIsStrictWeak();
    SortBySorted(listing, NameOrder());
    var m :| n - KeepBackups <= m < n && sorted[m] == kept;
    var k :| 0 <= k < n && sorted[k] == removed;
    assert k < n - KeepBackups by {
      assert forall j :: n - KeepBackups <= j < n ==> sorted[j] == sorted[n - KeepBackups..][j - (n - KeepBackups)];
    }
    assert !StrLess(sorted[m], sorted[k]);
    NotLessIsAtLeast(kept, removed);
  }

  /** A name greater than every other listed name, as the newest timestamped
      backup is, always survives the rotation. */
  lemma NewestKept(listing: seq<string>, newest: string)
    requires Distinct(listing) && newest in listing
    requires forall x :: x in listing && x != newest ==> StrLess(x, newest)
    ensures newest in Retained(listing)
  {
    if newest !in Retained(listing) {
      RetainedCount(listing);
      var kept :| kept in Retained(listing);
      RetainedGreatest(listing, kept, newest);
      StrLessAsymmetric(kept, newest);
    }
  }

  class BackupDir {
    var files: set<string>

    constructor(initial: set<string>)
      ensures files == initial
    {
      files := initial;
    }

    /** `fs.copyFile(DB_FILE, backupFile)`: the new backup joins the
        directory (replacing a file of the same name). */
    method Copy(name: string)
      modifies this
      ensures files == old(files) + {name}
    {
      files := files + {name};
    }

    /** `fs.unlink`. */
    method Unlink(name: string)
      modifies this
      ensures files == old(files) - {name}
    {
      files := files - {name};
    }

    /** Sort the listing and unlink its first `length - 7` names. */
    method Prune(listing: seq<string>)
      requires Distinct(listing) && Names(listing) == files
      modifies this
      ensures files == Retained(listing)
    {
      if |listing| > KeepBackups {
        var backups := SortBy(listing, NameOrder());
        SortedNames(listing);
        var i := 0;
        while i < |backups| - KeepBackups
          invariant 0 <= i <= |backups| - KeepBackups
          invariant files == Names(listing) - Names(backups[..i])
        {
          assert backups[..i + 1] == backups[..i] + [backups[i]];
          Unlink(backups[i]);
          i := i + 1;
        }
        SplitNames(backups, i);
      }
    }

    /** One backup before a write: copy, list, prune. The listing is what
        `readdir` returns after the copy. */
    method Backup(name: string, listing: seq<string>)
      requires Distinct(listing) && Names(listing) == files + {name}
      modifies this
      ensures files == Retained(listing)
      ensures |files| == Min(|listing|, KeepBackups)
      ensures (forall x :: x in old(files) ==> StrLess(x, name)) ==> name in files
    {
      Copy(name);
      Prune(listing);
      RetainedCount(listing);
      if forall x :: x in old(files) ==> StrLess(x, name) {
        assert forall x :: x in listing ==> x in Names(listing);
        NewestKept(listing, name);
      }
    }
  }
}
