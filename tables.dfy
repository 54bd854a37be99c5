/** Query semantics shared by the stores: `WHERE`-style filtering, counting and
    `ORDER BY`-style sorting of a table held as a sequence of records. */
module Tables {
  import opened Wrappers

  /** The position of the first row satisfying `p` (`findOne(filter)` in natural
      order), or `None` when no row does. */
  function FirstIndex<T>(s: seq<T>, p: T -> bool): (r: Option<nat>)
    ensures r.Some? ==> r.value < |s| && p(s[r.value]) && forall j :: 0 <= j < r.value ==> !p(s[j])
    ensures r.None? ==> forall j :: 0 <= j < |s| ==> !p(s[j])
  {
    if s == [] then None
    else if p(s[0]) then Some(0)
    else match FirstIndex(s[1..], p)
      case None => None
      case Some(k) => Some(k + 1)
  }

  /** The rows of `s` for which `keep` holds, in table order (`DELETE ... WHERE`
      keeps the others; `find(filter)` returns these). */
  function Filter<T>(s: seq<T>, keep: T -> bool): seq<T> {
    if s == [] then []
    else if keep(s[0]) then [s[0]] + Filter(s[1..], keep)
    else Filter(s[1..], keep)
  }

  /** The filtered rows are exactly the rows that pass. */
  lemma {:induction false} FilterMembers<T>(s: seq<T>, keep: T -> bool)
    ensures forall x :: x in Filter(s, keep) <==> x in s && keep(x)
    decreases |s|
  {
    if s != [] {
      assert s == [s[0]] + s[1..];
      FilterMembers(s[1..], keep);
    }
  }

  /** Filtering removes rows, and removes none exactly when every row passes. */
  lemma {:induction false} FilterLength<T(!new)>(s: seq<T>, keep: T -> bool)
    ensures |Filter(s, keep)| <= |s|
    ensures |Filter(s, keep)| == |s| <==> forall x :: x in s ==> keep(x)
    decreases |s|
  {
    if s != [] {
      var t := s[1..];
      assert s == [s[0]] + t;
      FilterLength(t, keep);
      assert (forall x :: x in s ==> keep(x)) <==> keep(s[0]) && forall x :: x in t ==> keep(x);
    }
  }

  /** Filtering keeps every kept row as many times as the table held it. */
  lemma {:induction false} FilterKeepsMultiplicity<T(!new)>(s: seq<T>, keep: T -> bool, x: T)
    requires keep(x)
    ensures multiset(Filter(s, keep))[x] == multiset(s)[x]
    decreases |s|
  {
    if s != [] {
      assert s == [s[0]] + s[1..];
      FilterKeepsMultiplicity(s[1..], keep, x);
    }
  }

  /** A filter every row passes changes nothing. */
  lemma {:induction false} FilterKeepsAll<T(!new)>(s: seq<T>, keep: T -> bool)
    requires forall j :: 0 <= j < |s| ==> keep(s[j])
    ensures Filter(s, keep) == s
    decreases |s|
  {
    if s != [] {
      var t := s[1..];
      assert s == [s[0]] + t;
      assert forall j :: 0 <= j < |t| ==> keep(t[j]) by {
        forall j | 0 <= j < |t| ensures keep(t[j]) {
          assert t[j] == s[j + 1];
        }
      }
      FilterKeepsAll(t, keep);
    }
  }

  /** When exactly the row at `i` fails `keep`, filtering removes just that row. */
  lemma {:induction false} FilterDropsOne<T(!new)>(s: seq<T>, i: nat, keep: T -> bool)
    requires i < |s| && !keep(s[i])
    requires forall j :: 0 <= j < |s| && j != i ==> keep(s[j])
    ensures Filter(s, keep) == s[..i] + s[i + 1..]
    decreases i
  {
    var t := s[1..];
    if i == 0 {
      FilterDropsFirst(s, keep);
    } else {
      assert Filter(s, keep) == [s[0]] + Filter(t, keep);
      assert t[i - 1] == s[i];
      forall j | 0 <= j < |t| && j != i - 1 ensures keep(t[j]) {
        assert t[j] == s[j + 1];
      }
      FilterDropsOne(t, i - 1, keep);
      assert s[..i] == [s[0]] + t[..i - 1];
      assert s[i + 1..] == t[i..];
    }
  }

  lemma FilterDropsFirst<T(!new)>(s: seq<T>, keep: T -> bool)
    requires 0 < |s| && !keep(s[0])
    requires forall j :: 0 < j < |s| ==> keep(s[j])
    ensures Filter(s, keep) == s[1..]
  {
    assert Filter(s, keep) == Filter(s[1..], keep);
    KeptSlice(s, 1, |s|, keep);
    assert s[1..|s|] == s[1..];
  }

  /** A slice of rows that all pass `keep` survives filtering unchanged. */
  lemma KeptSlice<T(!new)>(s: seq<T>, lo: nat, hi: nat, keep: T -> bool)
    requires lo <= hi <= |s| && forall j :: lo <= j < hi ==> keep(s[j])
    ensures Filter(s[lo..hi], keep) == s[lo..hi]
  {
    var t := s[lo..hi];
    forall j | 0 <= j < |t| ensures keep(t[j]) {
      assert t[j] == s[lo + j];
    }
    FilterKeepsAll(t, keep);
  }

  /** No two rows share a key (a primary key or `_id`). */
  predicate DistinctBy<T, K(==)>(s: seq<T>, key: T -> K) {
    forall i, j :: 0 <= i < j < |s| ==> key(s[i]) != key(s[j])
  }

  /** A row whose key no other row has can head a table with distinct keys. */
  lemma DistinctCons<T, K>(x: T, s: seq<T>, key: T -> K)
    requires DistinctBy(s, key) && forall y :: y in s ==> key(y) != key(x)
    ensures DistinctBy([x] + s, key)
  {
    var r := [x] + s;
    forall i, j | 0 <= i < j < |r| ensures key(r[i]) != key(r[j]) {
      assert r[j] == s[j - 1];
      if i > 0 {
        assert r[i] == s[i - 1];
      }
    }
  }

  /** Deleting rows keeps the remaining keys distinct. */
  lemma {:induction false} FilterKeepsDistinct<T(!new), K>(s: seq<T>, keep: T -> bool, key: T -> K)
    requires DistinctBy(s, key)
    ensures DistinctBy(Filter(s, keep), key)
    decreases |s|
  {
    if s != [] {
      var t := s[1..];
      assert s == [s[0]] + t;
      assert DistinctBy(t, key) by {
        forall i, j | 0 <= i < j < |t| ensures key(t[i]) != key(t[j]) {
          assert t[i] == s[i + 1] && t[j] == s[j + 1];
        }
      }
      FilterKeepsDistinct(t, keep, key);
      FilterMembers(t, keep);
      var rest := Filter(t, keep);
      if keep(s[0]) {
        assert Filter(s, keep) == [s[0]] + rest;
        forall y | y in rest ensures key(y) != key(s[0]) {
          var k :| 0 <= k < |t| && t[k] == y;
          assert s[k + 1] == y;
        }
        DistinctCons(s[0], rest, key);
      } else {
        assert Filter(s, keep) == rest;
      }
    }
  }

  /** The number of rows satisfying `p`. */
  function Count<T(!new)>(s: seq<T>, p: T -> bool): (n: nat)
    ensures n <= |s|
    ensures n == 0 <==> forall x :: x in s ==> !p(x)
    ensures n == |s| <==> forall x :: x in s ==> p(x)
  {
    if s == [] then 0
    else
      assert s == [s[0]] + s[1..];
      (if p(s[0]) then 1 else 0) + Count(s[1..], p)
  }

  /** Appending one row adds one to the count exactly when the row satisfies `p`. */
  lemma {:induction false} CountAppend<T(!new)>(s: seq<T>, x: T, p: T -> bool)
    ensures Count(s + [x], p) == Count(s, p) + (if p(x) then 1 else 0)
    decreases |s|
  {
    if s == [] {
      assert s + [x] == [x];
    } else {
      assert (s + [x])[1..] == s[1..] + [x];
      CountAppend(s[1..], x, p);
    }
  }

  /** `leq` is total and transitive, so sorting by it is meaningful. */
  ghost predicate TotalPreorder<T(!new)>(leq: (T, T) -> bool) {
    && (forall x, y :: leq(x, y) || leq(y, x))
    && (forall x, y, z :: leq(x, y) && leq(y, z) ==> leq(x, z))
  }

  /** Every row is `leq` every later row. */
  predicate Sorted<T>(s: seq<T>, leq: (T, T) -> bool) {
    forall i, j :: 0 <= i < j < |s| ==> leq(s[i], s[j])
  }

  function Insert<T(!new)>(x: T, s: seq<T>, leq: (T, T) -> bool): (r: seq<T>)
    requires TotalPreorder(leq) && Sorted(s, leq)
    ensures Sorted(r, leq)
    ensures multiset(r) == multiset(s) + multiset{x}
  {
    if s == [] then [x]
    else if leq(x, s[0]) then [x] + s
    else
      var rest := Insert(x, s[1..], leq);
      assert s == [s[0]] + s[1..];
      assert forall y :: y in multiset(rest) ==> leq(s[0], y) by {
        forall y | y in multiset(rest) ensures leq(s[0], y) {
          if y != x {
            var k :| 0 <= k < |s[1..]| && s[1..][k] == y;
            assert s[k + 1] == y;
          }
        }
      }
      SortedCons(s[0], rest, leq);
      [s[0]] + rest
  }

  /** A row no later than every row of a sorted table can head it. */
  lemma SortedCons<T>(h: T, t: seq<T>, leq: (T, T) -> bool)
    requires Sorted(t, leq) && forall y :: y in multiset(t) ==> leq(h, y)
    ensures Sorted([h] + t, leq)
  {
    var r := [h] + t;
    forall i, j | 0 <= i < j < |r| ensures leq(r[i], r[j]) {
      assert r[j] == t[j - 1] && r[j] in multiset(t);
      if i > 0 {
        assert r[i] == t[i - 1];
      }
    }
  }

  /** The table ordered by `leq` (insertion sort): a sorted permutation. */
  function Sort<T(!new)>(s: seq<T>, leq: (T, T) -> bool): (r: seq<T>)
    requires TotalPreorder(leq)
    ensures Sorted(r, leq)
    ensures multiset(r) == multiset(s)
  {
    if s == [] then []
    else
      assert s == [s[0]] + s[1..];
      Insert(s[0], Sort(s[1..], leq), leq)
  }

  /** In a sorted table, the first `k` rows (`.limit(k)`) are themselves sorted,
      are rows of the table, and come no later in the order than any row left out. */
  lemma TakeIsLeast<T(!new)>(s: seq<T>, k: nat, leq: (T, T) -> bool)
    requires Sorted(s, leq) && k <= |s|
    ensures Sorted(s[..k], leq)
    ensures multiset(s[..k]) <= multiset(s)
    ensures forall x, y :: x in s[..k] && y in multiset(s) - multiset(s[..k]) ==> leq(x, y)
  {
    assert s == s[..k] + s[k..];
    assert multiset(s) == multiset(s[..k]) + multiset(s[k..]);
    forall x, y | x in s[..k] && y in multiset(s) - multiset(s[..k]) ensures leq(x, y) {
      assert y in multiset(s[k..]);
      var i :| 0 <= i < k && s[..k][i] == x;
      var j :| 0 <= j < |s[k..]| && s[k..][j] == y;
      assert s[i] == x && s[k + j] == y;
    }
  }

  /** A row of one arrangement found in another: taking it out of both leaves two
      arrangements of the same rows. */
  lemma RemoveFirst<T>(a: seq<T>, b: seq<T>) returns (i: nat)
    requires multiset(a) == multiset(b) && a != []
    ensures i < |b| && b[i] == a[0]
    ensures b == b[..i] + [a[0]] + b[i + 1..]
    ensures multiset(b[..i] + b[i + 1..]) == multiset(a[1..])
  {
    assert a[0] in multiset(b);
    i :| 0 <= i < |b| && b[i] == a[0];
    assert b == b[..i] + [a[0]] + b[i + 1..];
    RemoveAt(b, i);
    RemoveAt(a, 0);
    assert a[..0] == [] && a[..0] + a[1..] == a[1..];
  }

  /** Taking out the row at position `i` takes one copy of it out of the multiset. */
  lemma RemoveAt<T>(s: seq<T>, i: nat)
    requires i < |s|
    ensures multiset(s[..i] + s[i + 1..]) == multiset(s) - multiset{s[i]}
  {
    assert s == s[..i] + [s[i]] + s[i + 1..];
  }

  /** Two orderings of the same rows hold the same rows. */
  lemma SameRows<T>(a: seq<T>, b: seq<T>)
    requires multiset(a) == multiset(b)
    ensures forall x :: x in a <==> x in b
  {
    forall x ensures x in a <==> x in b {
      assert x in a <==> x in multiset(a);
      assert x in b <==> x in multiset(b);
    }
  }
}
