/** Newest-first ordering of `Email`s and the "first n after sorting" cut.

    The reader sorts with Go's `sort.Slice`, which is not stable, so the model
    promises nothing about the relative order of equal dates: any
    permutation sorted by date, newest first, is a correct answer, and the
    insertion sort below is one such answer.
 */
module Ordering {
  import opened Wrappers
  import opened Messages

  /** Internal dates never increase along the sequence. */
  predicate NewestFirst(s: seq<Email>) {
    forall i, j :: 0 <= i < j < |s| ==> s[i].internalDate >= s[j].internalDate
  }

  /** Places `e` in front of the first record that is not newer than it. */
  function Insert(e: Email, s: seq<Email>): (r: seq<Email>)
    requires NewestFirst(s)
    ensures NewestFirst(r)
    ensures multiset(r) == multiset(s) + multiset{e}
    ensures |r| == |s| + 1
    ensures r[0] == e || (s != [] && r[0] == s[0])
    decreases |s|
  {
    if s == [] || s[0].internalDate <= e.internalDate then [e] + s
    else
      var rest := Insert(e, s[1..]);
      assert s == [s[0]] + s[1..];
      assert multiset(s) == multiset{s[0]} + multiset(s[1..]);
      PrependNewest(s[0], rest);
      [s[0]] + rest
  }

  /** A record no older than the head of a newest-first list can go in front. */
  lemma PrependNewest(x: Email, s: seq<Email>)
    requires NewestFirst(s)
    requires s != [] ==> s[0].internalDate <= x.internalDate
    ensures NewestFirst([x] + s)
  {
    var r := [x] + s;
    forall i, j | 0 <= i < j < |r| ensures r[i].internalDate >= r[j].internalDate {
      if i == 0 {
        assert r[j] == s[j - 1];
        assert s[0].internalDate >= s[j - 1].internalDate;
      } else {
        assert r[i] == s[i - 1] && r[j] == s[j - 1];
      }
    }
  }

  /** A newest-first permutation of `s`. */
  function SortByDate(s: seq<Email>): (r: seq<Email>)
    ensures NewestFirst(r)
    ensures multiset(r) == multiset(s)
    ensures |r| == |s|
    decreases |s|
  {
    if s == [] then []
    else
      assert s == [s[0]] + s[1..];
      Insert(s[0], SortByDate(s[1..]))
  }

  /** `sort.Slice` by date descending, then `results[:n]` when longer than n. */
  function NewestN(s: seq<Email>, n: nat): (r: seq<Email>)
    ensures |r| == Min(n, |s|)
    ensures NewestFirst(r)
    ensures multiset(r) <= multiset(s)
    ensures forall x, y :: x in multiset(s) - multiset(r) && y in r ==> x.internalDate <= y.internalDate
  {
    var sorted := SortByDate(s);
    var r := if |sorted| > n then sorted[..n] else sorted;
    SplitSorted(sorted, |r|);
    r
  }

  /** Cutting a newest-first list in two: the head is newest first, and
      what is cut off is exactly the tail, none of it newer than the head. */
  lemma SplitSorted(sorted: seq<Email>, k: nat)
    requires NewestFirst(sorted) && k <= |sorted|
    ensures NewestFirst(sorted[..k])
    ensures multiset(sorted[..k]) <= multiset(sorted)
    ensures multiset(sorted) - multiset(sorted[..k]) == multiset(sorted[k..])
    ensures forall x, y :: x in multiset(sorted) - multiset(sorted[..k]) && y in sorted[..k] ==> x.internalDate <= y.internalDate
  {
    var r := sorted[..k];
    var rest := sorted[k..];
    assert sorted == r + rest;
    assert multiset(sorted) == multiset(r) + multiset(rest);
    forall x: Email, y: Email | x in multiset(rest) && y in r ensures x.internalDate <= y.internalDate {
      var i :| 0 <= i < |rest| && rest[i] == x;
      var j :| 0 <= j < |r| && r[j] == y;
      assert sorted[k + i] == x && sorted[j] == y;
    }
  }

  /** Every record is in the sorted list exactly as often as in the input,
      so records are neither invented nor lost before the cut. */
  lemma NewestNKeepsAllWhenShort(s: seq<Email>, n: nat)
    requires |s| <= n
    ensures multiset(NewestN(s, n)) == multiset(s)
  {
  }
}
