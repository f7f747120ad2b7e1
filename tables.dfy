/** Rows of a store table as a sequence in insertion order, and the query
    building blocks the services use on them: lookup by key, filtering,
    counting, ordering (`orderBy`), `take`, and de-duplication (`new Set`). */
module Tables {
  import opened Wrappers

  /** The keys of the rows, in row order. */
  function Keys<T>(rows: seq<T>, key: T -> string): (ks: seq<string>)
    ensures |ks| == |rows|
    ensures forall i :: 0 <= i < |rows| ==> ks[i] == key(rows[i])
  {
    if rows == [] then [] else [key(rows[0])] + Keys(rows[1..], key)
  }

  /** A table whose primary key is unique. */
  ghost predicate UniqueKeys<T>(rows: seq<T>, key: T -> string) {
    rows == [] || (key(rows[0]) !in Keys(rows[1..], key) && UniqueKeys(rows[1..], key))
  }

  lemma {:induction false} UniqueKeysAppend<T>(rows: seq<T>, x: T, key: T -> string)
    requires UniqueKeys(rows, key) && key(x) !in Keys(rows, key)
    ensures UniqueKeys(rows + [x], key)
  {
    if rows != [] {
      assert (rows + [x])[1..] == rows[1..] + [x];
      assert Keys(rows[1..] + [x], key) == Keys(rows[1..], key) + [key(x)];
      UniqueKeysAppend(rows[1..], x, key);
    } else {
      assert Keys([x][1..], key) == [];
    }
  }

  /** In a table with a unique key, two rows with the same key are the same row. */
  lemma {:induction false} UniqueKeysSame<T>(rows: seq<T>, key: T -> string, i: nat, j: nat)
    requires UniqueKeys(rows, key) && i < |rows| && j < |rows| && key(rows[i]) == key(rows[j])
    ensures i == j
  {
    if i > 0 && j > 0 {
      UniqueKeysSame(rows[1..], key, i - 1, j - 1);
    }
  }

  /** Replacing a row by one with the same key keeps the key unique. */
  lemma {:induction false} UniqueKeysUpdate<T>(rows: seq<T>, key: T -> string, i: nat, x: T)
    requires UniqueKeys(rows, key) && i < |rows| && key(x) == key(rows[i])
    ensures UniqueKeys(rows[i := x], key)
  {
    var r := rows[i := x];
    if i == 0 {
      assert r[1..] == rows[1..];
    } else {
      assert r[1..] == rows[1..][i - 1 := x];
      UniqueKeysUpdate(rows[1..], key, i - 1, x);
      assert Keys(r[1..], key) == Keys(rows[1..], key);
    }
  }

  /** Index of the row with key `k` (`findUnique({ where: { id } })`). */
  function IndexOfKey<T>(rows: seq<T>, key: T -> string, k: string): (r: Option<nat>)
    ensures r.Some? ==> r.value < |rows| && key(rows[r.value]) == k
    ensures r.Some? ==> forall i :: 0 <= i < r.value ==> key(rows[i]) != k
    ensures r.None? <==> k !in Keys(rows, key)
  {
    if rows == [] then None
    else if key(rows[0]) == k then Some(0)
    else match IndexOfKey(rows[1..], key, k)
      case None => None
      case Some(i) => Some(i + 1)
  }

  function FindKey<T>(rows: seq<T>, key: T -> string, k: string): (r: Option<T>)
    ensures r.Some? ==> r.value in rows && key(r.value) == k
    ensures r.None? <==> k !in Keys(rows, key)
  {
    match IndexOfKey(rows, key, k)
    case None => None
    case Some(i) => Some(rows[i])
  }

  /** In a table with a unique key, the row found is the only row with that key. */
  lemma FindKeyUnique<T>(rows: seq<T>, key: T -> string, x: T)
    requires UniqueKeys(rows, key) && x in rows
    ensures FindKey(rows, key, key(x)) == Some(x)
  {
    var j :| 0 <= j < |rows| && rows[j] == x;
    assert Keys(rows, key)[j] == key(x);
    var i := IndexOfKey(rows, key, key(x)).value;
    UniqueKeysSame(rows, key, i, j);
  }

  /** `delete({ where: { id } })`: every row with a different key stays, in order. */
  function RemoveKey<T(!new)>(rows: seq<T>, key: T -> string, k: string): (r: seq<T>)
    ensures forall x :: x in r <==> x in rows && key(x) != k
    ensures |r| <= |rows|
    ensures k !in Keys(rows, key) ==> r == rows
  {
    if rows == [] then []
    else (if key(rows[0]) == k then [] else [rows[0]]) + RemoveKey(rows[1..], key, k)
  }

  lemma {:induction false} RemoveKeyKeepsAbsence<T(!new)>(rows: seq<T>, key: T -> string, k: string, q: string)
    requires q !in Keys(rows, key)
    ensures q !in Keys(RemoveKey(rows, key, k), key)
  {
    if rows != [] {
      assert q !in Keys(rows[1..], key);
      RemoveKeyKeepsAbsence(rows[1..], key, k, q);
      var rt := RemoveKey(rows[1..], key, k);
      if key(rows[0]) != k {
        assert Keys([rows[0]] + rt, key) == [key(rows[0])] + Keys(rt, key);
      }
    }
  }

  lemma {:induction false} RemoveKeyUnique<T(!new)>(rows: seq<T>, key: T -> string, k: string)
    requires UniqueKeys(rows, key)
    ensures UniqueKeys(RemoveKey(rows, key, k), key)
  {
    if rows != [] {
      var rt := RemoveKey(rows[1..], key, k);
      assert RemoveKey(rows, key, k) == (if key(rows[0]) == k then [] else [rows[0]]) + rt;
      RemoveKeyUnique(rows[1..], key, k);
      if key(rows[0]) != k {
        RemoveKeyKeepsAbsence(rows[1..], key, k, key(rows[0]));
        var r := [rows[0]] + rt;
        assert r[0] == rows[0] && r[1..] == rt;
        assert UniqueKeys(r, key);
      } else {
        assert [] + rt == rt;
      }
    }
  }

  // ---------------------------------------------------------------------------
  // Filters and counts (`findMany({ where })`, `Array.filter(...).length`)

  function Filter<T(!new)>(rows: seq<T>, p: T -> bool): (r: seq<T>)
    ensures |r| <= |rows|
    ensures forall x :: x in r <==> x in rows && p(x)
    ensures forall i :: 0 <= i < |r| ==> p(r[i])
  {
    if rows == [] then [] else (if p(rows[0]) then [rows[0]] else []) + Filter(rows[1..], p)
  }

  lemma {:induction false} FilterMultiset<T(!new)>(rows: seq<T>, p: T -> bool)
    ensures multiset(Filter(rows, p)) <= multiset(rows)
  {
    if rows != [] {
      FilterMultiset(rows[1..], p);
      assert rows == [rows[0]] + rows[1..];
    }
  }

  function Count<T(!new)>(rows: seq<T>, p: T -> bool): (n: nat)
    ensures n <= |rows|
  {
    |Filter(rows, p)|
  }

  /** One row is counted at most once across predicates that never hold together. */
  lemma {:induction false} CountDisjoint<T(!new)>(rows: seq<T>, p: T -> bool, q: T -> bool)
    requires forall x :: !(p(x) && q(x))
    ensures |Filter(rows, p)| + |Filter(rows, q)| == |Filter(rows, x => p(x) || q(x))|
  {
    if rows != [] {
      CountDisjoint(rows[1..], p, q);
    }
  }

  /** Every key of a filtered table is a key of the table. */
  lemma {:induction false} FilterKeys<T(!new)>(rows: seq<T>, p: T -> bool, q: string, key: T -> string)
    requires q in Keys(Filter(rows, p), key)
    ensures q in Keys(rows, key)
  {
    var r := Filter(rows, p);
    var i :| 0 <= i < |r| && Keys(r, key)[i] == q;
    assert r[i] in rows;
    var j :| 0 <= j < |rows| && rows[j] == r[i];
    assert Keys(rows, key)[j] == q;
  }

  /** `deleteMany` keeps a unique key unique. */
  lemma {:induction false} FilterUnique<T(!new)>(rows: seq<T>, key: T -> string, p: T -> bool)
    requires UniqueKeys(rows, key)
    ensures UniqueKeys(Filter(rows, p), key)
  {
    if rows != [] {
      FilterUnique(rows[1..], key, p);
      var rt := Filter(rows[1..], p);
      if p(rows[0]) {
        var r := [rows[0]] + rt;
        assert r[0] == rows[0] && r[1..] == rt;
        if key(rows[0]) in Keys(rt, key) {
          FilterKeys(rows[1..], p, key(rows[0]), key);
        }
      } else {
        assert Filter(rows, p) == [] + rt == rt;
      }
    }
  }

  /** Every row satisfies `p` or its negation, never both. */
  lemma {:induction false} FilterSplit<T(!new)>(rows: seq<T>, p: T -> bool, q: T -> bool)
    requires forall x :: q(x) == !p(x)
    ensures |Filter(rows, p)| + |Filter(rows, q)| == |rows|
  {
    if rows != [] {
      FilterSplit(rows[1..], p, q);
    }
  }

  /** `updateMany({ where, data })`: the rows satisfying `p` are replaced by their
      image under `f`, the others stay, in place. */
  function MapWhere<T>(rows: seq<T>, p: T -> bool, f: T -> T): (r: seq<T>)
    ensures |r| == |rows|
    ensures forall i :: 0 <= i < |rows| ==> r[i] == if p(rows[i]) then f(rows[i]) else rows[i]
  {
    if rows == [] then [] else [if p(rows[0]) then f(rows[0]) else rows[0]] + MapWhere(rows[1..], p, f)
  }

  /** An update that keeps each row's key keeps the keys, hence their uniqueness. */
  lemma MapWhereUnique<T(!new)>(rows: seq<T>, key: T -> string, p: T -> bool, f: T -> T)
    requires forall x :: key(f(x)) == key(x)
    ensures Keys(MapWhere(rows, p, f), key) == Keys(rows, key)
    ensures UniqueKeys(rows, key) ==> UniqueKeys(MapWhere(rows, p, f), key)
  {
    KeysOfSameKeys(rows, MapWhere(rows, p, f), key);
  }

  /** Uniqueness of a key depends only on the sequence of keys. */
  lemma {:induction false} KeysOfSameKeys<T>(a: seq<T>, b: seq<T>, key: T -> string)
    requires Keys(a, key) == Keys(b, key)
    ensures UniqueKeys(a, key) <==> UniqueKeys(b, key)
  {
    if a != [] {
      assert Keys(a[1..], key) == Keys(a, key)[1..];
      assert Keys(b[1..], key) == Keys(b, key)[1..];
      KeysOfSameKeys(a[1..], b[1..], key);
    }
  }

  // ---------------------------------------------------------------------------
  // Ordering (`orderBy`): a stable insertion sort on an integer key; rows with
  // equal keys keep their insertion order.

  ghost predicate SortedBy<T>(s: seq<T>, key: T -> int) {
    forall i, j :: 0 <= i < j < |s| ==> key(s[i]) <= key(s[j])
  }

  function Insert<T>(x: T, s: seq<T>, key: T -> int): (r: seq<T>)
    ensures multiset(r) == multiset(s) + multiset{x}
    ensures |r| == |s| + 1
  {
    if s == [] then [x]
    else if key(x) <= key(s[0]) then [x] + s
    else
      assert s == [s[0]] + s[1..];
      [s[0]] + Insert(x, s[1..], key)
  }

  /** Inserting into a sorted list keeps it sorted. */
  lemma {:induction false} InsertSorted<T>(x: T, s: seq<T>, key: T -> int)
    requires SortedBy(s, key)
    ensures SortedBy(Insert(x, s, key), key)
    ensures key(Insert(x, s, key)[0]) == key(x) || (s != [] && key(Insert(x, s, key)[0]) == key(s[0]))
  {
    if s == [] {
    } else if key(x) <= key(s[0]) {
      PrependSorted(x, s, key);
    } else {
      var rest := Insert(x, s[1..], key);
      SliceSorted(s, 1, |s|, key);
      InsertSorted(x, s[1..], key);
      assert key(s[0]) <= key(rest[0]);
      PrependSorted(s[0], rest, key);
    }
  }

  /** A list stays sorted under a new first element no greater than its head. */
  lemma PrependSorted<T>(x: T, s: seq<T>, key: T -> int)
    requires SortedBy(s, key) && (s == [] || key(x) <= key(s[0]))
    ensures SortedBy([x] + s, key)
  {
    var r := [x] + s;
    forall i, j | 0 <= i < j < |r| ensures key(r[i]) <= key(r[j]) {
      if i == 0 {
        assert r[j] == s[j - 1] && key(s[0]) <= key(s[j - 1]);
      } else {
        assert r[i] == s[i - 1] && r[j] == s[j - 1];
      }
    }
  }

  function SortBy<T>(s: seq<T>, key: T -> int): (r: seq<T>)
    ensures SortedBy(r, key)
    ensures multiset(r) == multiset(s)
    ensures |r| == |s|
  {
    if s == [] then []
    else
      assert s == [s[0]] + s[1..];
      InsertSorted(s[0], SortBy(s[1..], key), key);
      Insert(s[0], SortBy(s[1..], key), key)
  }

  lemma SortByMembers<T>(s: seq<T>, key: T -> int)
    ensures forall x :: x in SortBy(s, key) <==> x in s
  {
    var r := SortBy(s, key);
    forall x ensures x in r <==> x in s {
      assert x in r <==> x in multiset(r);
      assert x in s <==> x in multiset(s);
    }
  }

  /** `take: n`. A negative `n` takes the last `-n` rows (backwards pagination). */
  function Take<T>(s: seq<T>, n: int): (r: seq<T>)
    ensures |r| <= |s|
    ensures n >= 0 ==> |r| == if n <= |s| then n else |s|
    ensures n >= 0 ==> r == s[..|r|]
    ensures n < 0 ==> |r| == if -n <= |s| then -n else |s|
    ensures n < 0 ==> r == s[|s| - |r|..]
  {
    if n >= 0 then (if n <= |s| then s[..n] else s)
    else (if -n <= |s| then s[|s| + n..] else s)
  }

  /** A page of a sorted list is sorted and holds only rows of the list. */
  lemma TakeSorted<T>(s: seq<T>, n: int, key: T -> int)
    requires SortedBy(s, key)
    ensures SortedBy(Take(s, n), key)
    ensures forall x :: x in Take(s, n) ==> x in s
  {
    var r := Take(s, n);
    if n >= 0 {
      SliceSorted(s, 0, |r|, key);
      assert r == s[0..|r|];
    } else {
      SliceSorted(s, |s| - |r|, |s|, key);
      assert r == s[|s| - |r|..|s|];
    }
  }

  /** A page takes each row at most as often as the list holds it. */
  lemma TakeMultiset<T>(s: seq<T>, n: int)
    ensures multiset(Take(s, n)) <= multiset(s)
  {
    var r := Take(s, n);
    if n >= 0 {
      assert s == r + s[|r|..];
    } else {
      assert s == s[..|s| - |r|] + r;
    }
  }

  /** The rows satisfying `p` in ascending `key` order, then the first `n` of
      them (the last `-n` when `n` is negative): `findMany` with `where`,
      `orderBy` and `take`. */
  function TopBy<T(!new)>(rows: seq<T>, p: T -> bool, key: T -> int, n: int): (r: seq<T>)
    ensures forall x :: x in r ==> x in rows && p(x)
    ensures SortedBy(r, key)
    ensures multiset(r) <= multiset(Filter(rows, p))
    ensures n >= 0 ==> |r| == if n <= Count(rows, p) then n else Count(rows, p)
    ensures n < 0 ==> |r| == if -n <= Count(rows, p) then -n else Count(rows, p)
    ensures n >= 0 ==> forall x, y :: x in r && y in rows && p(y) && y !in r ==> key(x) <= key(y)
    ensures n < 0 ==> forall x, y :: x in r && y in rows && p(y) && y !in r ==> key(y) <= key(x)
  {
    var matching := Filter(rows, p);
    SortByMembers(matching, key);
    var sorted := SortBy(matching, key);
    TakeSorted(sorted, n, key);
    TakeMultiset(sorted, n);
    if n >= 0 then TakeFront(sorted, n, key); Take(sorted, n) else TakeBack(sorted, n, key); Take(sorted, n)
  }

  /** In a non-negative page of a sorted list, no row left out precedes a row
      taken. */
  lemma TakeFront<T>(s: seq<T>, n: int, key: T -> int)
    requires SortedBy(s, key) && n >= 0
    ensures forall x, y :: x in Take(s, n) && y in s && y !in Take(s, n) ==> key(x) <= key(y)
  {
    var r := Take(s, n);
    forall x, y | x in r && y in s && y !in r ensures key(x) <= key(y) {
      var i :| 0 <= i < |r| && r[i] == x;
      var j :| 0 <= j < |s| && s[j] == y;
      if j < |r| {
        assert false;
      }
      assert s[i] == x;
    }
  }

  /** In a negative page (the last `-n` rows) of a sorted list, no row left
      out follows a row taken. */
  lemma TakeBack<T>(s: seq<T>, n: int, key: T -> int)
    requires SortedBy(s, key) && n < 0
    ensures forall x, y :: x in Take(s, n) && y in s && y !in Take(s, n) ==> key(y) <= key(x)
  {
    var r := Take(s, n);
    var lo := |s| - |r|;
    forall x, y | x in r && y in s && y !in r ensures key(y) <= key(x) {
      var i :| 0 <= i < |r| && r[i] == x;
      var j :| 0 <= j < |s| && s[j] == y;
      if j >= lo {
        assert false;
      }
      assert s[lo + i] == x;
    }
  }

  lemma SliceSorted<T>(s: seq<T>, lo: nat, hi: nat, key: T -> int)
    requires SortedBy(s, key) && lo <= hi <= |s|
    ensures SortedBy(s[lo..hi], key)
    ensures forall x :: x in s[lo..hi] ==> x in s
  {
    var r := s[lo..hi];
    forall i, j | 0 <= i < j < |r| ensures key(r[i]) <= key(r[j]) {
      assert r[i] == s[lo + i] && r[j] == s[lo + j];
    }
    forall x | x in r ensures x in s {
      var i :| 0 <= i < |r| && r[i] == x;
      assert s[lo + i] == x;
    }
  }

  // ---------------------------------------------------------------------------
  // `[...new Set(xs)]`: the distinct elements in order of first occurrence

  ghost predicate NoDuplicates<T>(s: seq<T>) {
    forall i, j :: 0 <= i < j < |s| ==> s[i] != s[j]
  }

  /** The position of the first occurrence of `x` (`indexOf`). */
  function IndexOf<T(==)>(xs: seq<T>, x: T): (i: nat)
    requires x in xs
    ensures i < |xs| && xs[i] == x && x !in xs[..i]
  {
    if xs[0] == x then 0
    else
      assert xs == [xs[0]] + xs[1..];
      var i := 1 + IndexOf(xs[1..], x);
      assert xs[..i] == [xs[0]] + xs[1..][..i - 1];
      i
  }

  /** A prefix holding `x` finds it where the whole list does. */
  lemma IndexOfPrefix<T>(xs: seq<T>, k: nat, x: T)
    requires k <= |xs| && x in xs[..k]
    ensures x in xs && IndexOf(xs, x) == IndexOf(xs[..k], x)
  {
    var i := IndexOf(xs[..k], x);
    var j := IndexOf(xs, x);
    assert xs[..k][..i] == xs[..i];
  }

  /** The elements of `r` occur in `xs`, and earlier in `r` means an earlier
      first occurrence in `xs`. */
  ghost predicate InFirstOccurrenceOrder<T>(r: seq<T>, xs: seq<T>) {
    forall i, j :: 0 <= i < j < |r| ==> r[i] in xs && r[j] in xs && IndexOf(xs, r[i]) < IndexOf(xs, r[j])
  }

  /** The distinct elements, each where it first occurs. */
  function Distinct<T(==,!new)>(xs: seq<T>): (r: seq<T>)
    ensures NoDuplicates(r)
    ensures forall x :: x in r <==> x in xs
    ensures InFirstOccurrenceOrder(r, xs)
    ensures |r| <= |xs|
  {
    if xs == [] then []
    else
      var init := xs[..|xs| - 1];
      var front := Distinct(init);
      var last := xs[|xs| - 1];
      assert xs == init + [last];
      DistinctOrder(xs, init, front);
      if last in front then front
      else
        var r := front + [last];
        assert last !in init;
        assert IndexOf(xs, last) == |xs| - 1 by {
          var j := IndexOf(xs, last);
          if j < |xs| - 1 {
            assert false;
          }
        }
        assert forall i :: 0 <= i < |front| ==> IndexOf(xs, front[i]) < |xs| - 1;
        r
  }

  /** The order of the distinct elements of a list's front carries over to
      the whole list. */
  lemma DistinctOrder<T>(xs: seq<T>, init: seq<T>, front: seq<T>)
    requires |xs| > 0 && init == xs[..|xs| - 1]
    requires forall i :: 0 <= i < |front| ==> front[i] in init
    requires forall i, j :: 0 <= i < j < |front| ==> IndexOf(init, front[i]) < IndexOf(init, front[j])
    ensures forall i :: 0 <= i < |front| ==> front[i] in xs && IndexOf(xs, front[i]) == IndexOf(init, front[i])
    ensures forall i, j :: 0 <= i < j < |front| ==> IndexOf(xs, front[i]) < IndexOf(xs, front[j])
  {
    forall i | 0 <= i < |front|
      ensures front[i] in xs && IndexOf(xs, front[i]) == IndexOf(init, front[i])
    {
      IndexOfPrefix(xs, |xs| - 1, front[i]);
    }
  }

  /** `Math.max(...xs)` of a non-empty list. */
  function Max(xs: seq<int>): (m: int)
    requires |xs| > 0
    ensures m in xs
    ensures forall k :: 0 <= k < |xs| ==> xs[k] <= m
  {
    if |xs| == 1 then xs[0]
    else
      var rest := Max(xs[1..]);
      assert forall k :: 1 <= k < |xs| ==> xs[k] == xs[1..][k - 1];
      if xs[0] >= rest then xs[0] else rest
  }

  /** Sum of a list of integers (`reduce((sum, x) => sum + x, 0)`). */
  function Sum(xs: seq<int>): int {
    if xs == [] then 0 else xs[0] + Sum(xs[1..])
  }
}
