/**
 * `find_research_reports`, after the directory listing: parse every listed
 * file, keep those whose name yields both a version and a date, and order
 * them by the integer value of the version with a stable sort, so that equal
 * versions keep their listing (file-name) order.
 */
module Collection {
  import opened Seqs
  import opened Wrappers
  import opened Text
  import opened Reports

  /** `report.version and report.date`: both present and non-empty. */
  predicate Retained(r: Report) {
    r.version.Some? && r.version.value != "" && r.date.Some? && r.date.value != ""
  }

  /** The sort key `int(x.version) if x.version else 0`. A version read by
      `ExtractVersion` is always a digit string, so the fallback is never
      taken for a parsed report. */
  function VersionKey(r: Report): nat {
    if r.version.Some? && AllDigits(r.version.value) then DigitsValue(r.version.value) else 0
  }

  function ParseAll(files: seq<(string, string)>): (rs: seq<Report>)
    ensures |rs| == |files|
    ensures forall i :: 0 <= i < |rs| ==> rs[i] == ParseReport(files[i].0, files[i].1)
  {
    if |files| == 0 then [] else [ParseReport(files[0].0, files[0].1)] + ParseAll(files[1..])
  }

  /** The reports the loop appends: the retained ones, as often as they occur. */
  function KeepDated(rs: seq<Report>): (r: seq<Report>)
    ensures forall i :: 0 <= i < |r| ==> Retained(r[i])
    ensures forall x :: multiset(r)[x] == if Retained(x) then multiset(rs)[x] else 0
  {
    if |rs| == 0 then []
    else
      assert rs == [rs[0]] + rs[1..];
      (if Retained(rs[0]) then [rs[0]] else []) + KeepDated(rs[1..])
  }

  /** The filter keeps listing order: filtering a listing is filtering its
      first part, then its second. */
  lemma {:induction false} KeepDatedAppend(a: seq<Report>, b: seq<Report>)
    ensures KeepDated(a + b) == KeepDated(a) + KeepDated(b)
    decreases |a|
  {
    if |a| == 0 {
      assert a + b == b;
    } else {
      assert (a + b)[0] == a[0];
      assert (a + b)[1..] == a[1..] + b;
      KeepDatedAppend(a[1..], b);
      AppendAssoc(if Retained(a[0]) then [a[0]] else [], KeepDated(a[1..]), KeepDated(b));
    }
  }

  // ---------------------------------------------------------------------------
  // A stable insertion sort on a natural-number key

  ghost predicate SortedBy<T>(xs: seq<T>, key: T -> nat) {
    forall i, j :: 0 <= i < j < |xs| ==> key(xs[i]) <= key(xs[j])
  }

  /** The elements of `xs` whose key is `k`, in their order in `xs`. */
  function WithKey<T>(xs: seq<T>, key: T -> nat, k: nat): seq<T> {
    if |xs| == 0 then []
    else (if key(xs[0]) == k then [xs[0]] else []) + WithKey(xs[1..], key, k)
  }

  lemma WithKeyCons<T>(x: T, xs: seq<T>, key: T -> nat, k: nat)
    ensures WithKey([x] + xs, key, k) == (if key(x) == k then [x] else []) + WithKey(xs, key, k)
  {
    assert ([x] + xs)[1..] == xs;
  }

  /** Puts `x` in front of the first element whose key is at least its own. */
  function Insert<T(==)>(x: T, xs: seq<T>, key: T -> nat): (r: seq<T>)
    ensures multiset(r) == multiset(xs) + multiset{x}
  {
    if |xs| == 0 || key(x) <= key(xs[0]) then [x] + xs
    else
      assert xs == [xs[0]] + xs[1..];
      [xs[0]] + Insert(x, xs[1..], key)
  }

  lemma {:induction false} InsertSorted<T>(x: T, xs: seq<T>, key: T -> nat)
    requires SortedBy(xs, key)
    ensures SortedBy(Insert(x, xs, key), key)
  {
    if |xs| > 0 && key(x) > key(xs[0]) {
      var tail := Insert(x, xs[1..], key);
      InsertSorted(x, xs[1..], key);
      forall j | 0 <= j < |tail| ensures key(xs[0]) <= key(tail[j]) {
        assert tail[j] in multiset(tail);
        if tail[j] != x {
          assert tail[j] in multiset(xs[1..]);
          var m :| 0 <= m < |xs[1..]| && xs[1..][m] == tail[j];
          assert xs[m + 1] == tail[j];
        }
      }
      assert Insert(x, xs, key) == [xs[0]] + tail;
    }
  }

  /** Inserting `x` puts it after every element of smaller key and before
      every element of its own key. */
  lemma {:induction false} InsertStable<T>(x: T, xs: seq<T>, key: T -> nat, k: nat)
    ensures WithKey(Insert(x, xs, key), key, k) == WithKey([x] + xs, key, k)
  {
    if |xs| > 0 && key(x) > key(xs[0]) {
      var head := if key(xs[0]) == k then [xs[0]] else [];
      var mine := if key(x) == k then [x] else [];
      var rest := WithKey(xs[1..], key, k);
      assert WithKey(Insert(x, xs, key), key, k) == head + (mine + rest) by {
        InsertStable(x, xs[1..], key, k);
        WithKeyCons(x, xs[1..], key, k);
        WithKeyCons(xs[0], Insert(x, xs[1..], key), key, k);
      }
      assert WithKey([x] + xs, key, k) == mine + (head + rest) by {
        assert [xs[0]] + xs[1..] == xs;
        WithKeyCons(xs[0], xs[1..], key, k);
        WithKeyCons(x, xs, key, k);
      }
      if head == [] {
        assert head + (mine + rest) == mine + rest == mine + (head + rest);
      } else {
        assert mine == [];
        assert head + (mine + rest) == head + rest == mine + (head + rest);
      }
    }
  }

  /** A stable sort: the result is ordered by key, holds the same elements,
      and keeps the input order among elements of equal key. */
  function SortBy<T(==)>(xs: seq<T>, key: T -> nat): (r: seq<T>)
    ensures SortedBy(r, key)
    ensures multiset(r) == multiset(xs)
    ensures forall k :: WithKey(r, key, k) == WithKey(xs, key, k)
  {
    if |xs| == 0 then []
    else
      var sorted := SortBy(xs[1..], key);
      assert xs == [xs[0]] + xs[1..];
      InsertSorted(xs[0], sorted, key);
      assert forall k :: WithKey(Insert(xs[0], sorted, key), key, k) == WithKey(xs, key, k) by {
        forall k ensures WithKey(Insert(xs[0], sorted, key), key, k) == WithKey(xs, key, k) {
          InsertStable(xs[0], sorted, key, k);
          WithKeyCons(xs[0], sorted, key, k);
          WithKeyCons(xs[0], xs[1..], key, k);
        }
      }
      Insert(xs[0], sorted, key)
  }

  /** `reports.sort(key=lambda x: int(x.version) if x.version else 0)`. */
  function SortByVersion(rs: seq<Report>): (r: seq<Report>)
    ensures forall i, j :: 0 <= i < j < |r| ==> VersionKey(r[i]) <= VersionKey(r[j])
    ensures multiset(r) == multiset(rs)
    ensures forall k :: WithKey(r, VersionKey, k) == WithKey(rs, VersionKey, k)
  {
    SortBy(rs, VersionKey)
  }

  /** A property every element of `b` has, every element of a sub-multiset of
      `b` has too. */
  lemma SubMultisetKeeps<T>(a: seq<T>, b: seq<T>, p: T -> bool)
    requires multiset(a) <= multiset(b)
    requires forall i :: 0 <= i < |b| ==> p(b[i])
    ensures forall i :: 0 <= i < |a| ==> p(a[i])
  {
    forall i | 0 <= i < |a| ensures p(a[i]) {
      assert a[i] in multiset(b);
      var j :| 0 <= j < |b| && b[j] == a[i];
    }
  }

  /** What holds of every listed element and is checked for every kept one
      holds of every element of a reordering of the kept ones. */
  lemma KeptAndSorted<T>(all: seq<T>, kept: seq<T>, r: seq<T>, p: T -> bool, q: T -> bool)
    requires forall i :: 0 <= i < |all| ==> p(all[i])
    requires forall i :: 0 <= i < |kept| ==> q(kept[i])
    requires multiset(kept) <= multiset(all) && multiset(r) == multiset(kept)
    ensures forall i :: 0 <= i < |r| ==> p(r[i]) && q(r[i])
  {
    SubMultisetKeeps(kept, all, p);
    SubMultisetKeeps(r, kept, p);
    SubMultisetKeeps(r, kept, q);
  }

  /** The collection built from a directory listing, given as (file name,
      file text) pairs in the order `sorted(glob('v*.md'))` yields them. */
  function CollectReports(files: seq<(string, string)>): (r: seq<Report>)
    ensures forall i :: 0 <= i < |r| ==> Retained(r[i]) && ReadFromName(r[i])
    ensures forall i, j :: 0 <= i < j < |r| ==> VersionKey(r[i]) <= VersionKey(r[j])
    ensures multiset(r) == multiset(KeepDated(ParseAll(files)))
    ensures forall k :: WithKey(r, VersionKey, k) == WithKey(KeepDated(ParseAll(files)), VersionKey, k)
  {
    var all := ParseAll(files);
    var kept := KeepDated(all);
    var r := SortByVersion(kept);
    KeptAndSorted(all, kept, r, ReadFromName, Retained);
    r
  }

  /** A listed file is in the collection exactly when its name yields both a
      version and a date. */
  lemma RetainedIffDated(files: seq<(string, string)>, i: nat)
    requires i < |files|
    ensures ParseReport(files[i].0, files[i].1) in CollectReports(files) <==>
      ExtractVersion(files[i].0).Some? && ExtractDate(files[i].0).Some?
  {
    var x := ParseReport(files[i].0, files[i].1);
    var all := ParseAll(files);
    assert all[i] == x;
    KeptMember(x, all, CollectReports(files));
  }

  /** A listed report is among the kept ones exactly when it is retained. */
  lemma KeptMember(x: Report, all: seq<Report>, r: seq<Report>)
    requires x in all && multiset(r) == multiset(KeepDated(all))
    ensures x in r <==> Retained(x)
  {
    assert x in r <==> x in multiset(r);
    assert x in multiset(all);
  }
}
