/** Generic building blocks shared by every table of the store: an Option
    type and the SQL-like operations on sequences of rows (WHERE as Filter,
    COUNT(*) as Count, UPDATE ... WHERE as Update, LIMIT as Take, a first-match
    lookup as Find), with the lemmas the handlers need about them. */
module Basics {

  datatype Option<+T> = None | Some(value: T)

  /** The rows of `s` satisfying `p`, in their original order. */
  function Filter<T(!new)>(s: seq<T>, p: T -> bool): (r: seq<T>)
    ensures |r| <= |s|
    ensures forall x :: x in r <==> x in s && p(x)
    ensures forall i :: 0 <= i < |r| ==> p(r[i])
  {
    if |s| == 0 then []
    else if p(s[0]) then [s[0]] + Filter(s[1..], p)
    else Filter(s[1..], p)
  }

  /** The number of rows of `s` satisfying `p` (a SQL COUNT(*)). */
  function Count<T(!new)>(s: seq<T>, p: T -> bool): (n: nat)
    ensures n <= |s|
    ensures n == 0 <==> forall x :: x in s ==> !p(x)
  {
    if |s| == 0 then 0
    else (if p(s[0]) then 1 else 0) + Count(s[1..], p)
  }

  /** The first row of `s` satisfying `p` (a SQL `.get` with LIMIT 1). */
  function Find<T(!new)>(s: seq<T>, p: T -> bool): (r: Option<T>)
    ensures r.None? <==> forall x :: x in s ==> !p(x)
    ensures r.Some? ==> r.value in s && p(r.value)
  {
    if |s| == 0 then None
    else if p(s[0]) then Some(s[0])
    else Find(s[1..], p)
  }

  /** Every row satisfying `p` rewritten by `f`, the others untouched (UPDATE ... WHERE). */
  function Update<T>(s: seq<T>, p: T -> bool, f: T -> T): (r: seq<T>)
    ensures |r| == |s|
    ensures forall i :: 0 <= i < |s| ==> r[i] == (if p(s[i]) then f(s[i]) else s[i])
  {
    seq(|s|, i requires 0 <= i < |s| => if p(s[i]) then f(s[i]) else s[i])
  }

  /** At most the first `n` rows (a SQL LIMIT). */
  function Take<T>(s: seq<T>, n: nat): (r: seq<T>)
    ensures |r| == if |s| < n then |s| else n
    ensures r == s[..|r|]
  {
    if |s| < n then s else s[..n]
  }

  function Reverse<T(!new)>(s: seq<T>): (r: seq<T>)
    ensures |r| == |s|
    ensures forall i :: 0 <= i < |s| ==> r[i] == s[|s| - 1 - i]
    ensures forall x :: x in r <==> x in s
  {
    if |s| == 0 then []
    else
      assert s == [s[0]] + s[1..];
      Reverse(s[1..]) + [s[0]]
  }

  /** `key` strictly increases along `s`. */
  ghost predicate Ascending<T>(s: seq<T>, key: T -> int)
  {
    forall i, j :: 0 <= i < j < |s| ==> key(s[i]) < key(s[j])
  }

  /** `key` strictly decreases along `s`. */
  ghost predicate Descending<T>(s: seq<T>, key: T -> int)
  {
    forall i, j :: 0 <= i < j < |s| ==> key(s[i]) > key(s[j])
  }

  /** `key` does not increase along `s`. */
  ghost predicate NonIncreasing<T>(s: seq<T>, key: T -> int)
  {
    forall i, j :: 0 <= i < j < |s| ==> key(s[i]) >= key(s[j])
  }

  /** Counting agrees with filtering. */
  lemma {:induction false} CountIsFilterLength<T(!new)>(s: seq<T>, p: T -> bool)
    ensures Count(s, p) == |Filter(s, p)|
  {
    if |s| > 0 {
      CountIsFilterLength(s[1..], p);
    }
  }

  lemma {:induction false} FilterAppend<T(!new)>(a: seq<T>, b: seq<T>, p: T -> bool)
    ensures Filter(a + b, p) == Filter(a, p) + Filter(b, p)
  {
    if |a| > 0 {
      assert (a + b)[1..] == a[1..] + b;
      FilterAppend(a[1..], b, p);
    } else {
      assert a + b == b;
    }
  }

  lemma {:induction false} CountAppend<T(!new)>(a: seq<T>, b: seq<T>, p: T -> bool)
    ensures Count(a + b, p) == Count(a, p) + Count(b, p)
  {
    if |a| > 0 {
      assert (a + b)[1..] == a[1..] + b;
      CountAppend(a[1..], b, p);
    } else {
      assert a + b == b;
    }
  }

  /** Two conditions that agree on every row of `s` count the same rows. */
  lemma {:induction false} CountSame<T(!new)>(s: seq<T>, p: T -> bool, q: T -> bool)
    requires forall x :: x in s ==> p(x) == q(x)
    ensures Count(s, p) == Count(s, q)
  {
    if |s| > 0 {
      assert s[0] in s;
      assert forall x :: x in s[1..] ==> x in s;
      CountSame(s[1..], p, q);
    }
  }

  /** Counting a condition that splits into two disjoint cases adds up the cases. */
  lemma {:induction false} CountSplit<T(!new)>(s: seq<T>, r: T -> bool, p: T -> bool, q: T -> bool)
    requires forall x :: x in s ==> (r(x) <==> p(x) || q(x))
    requires forall x :: x in s ==> !(p(x) && q(x))
    ensures Count(s, r) == Count(s, p) + Count(s, q)
  {
    if |s| > 0 {
      assert s[0] in s;
      assert forall x :: x in s[1..] ==> x in s;
      CountSplit(s[1..], r, p, q);
    }
  }

  /** Counting within the rows a filter kept is counting both conditions at once. */
  lemma {:induction false} CountFilter<T(!new)>(s: seq<T>, p: T -> bool, q: T -> bool, both: T -> bool)
    requires forall x :: both(x) == (p(x) && q(x))
    ensures Count(Filter(s, p), q) == Count(s, both)
  {
    if |s| > 0 {
      CountFilter(s[1..], p, q, both);
      if p(s[0]) {
        assert (Filter(s, p))[1..] == Filter(s[1..], p);
      }
    }
  }

  /** Reversing the rows does not change how many satisfy a condition. */
  lemma {:induction false} CountReverse<T(!new)>(s: seq<T>, p: T -> bool)
    ensures Count(Reverse(s), p) == Count(s, p)
  {
    if |s| > 0 {
      CountReverse(s[1..], p);
      CountAppend(Reverse(s[1..]), [s[0]], p);
    }
  }

  /** A prefix never holds more matching rows than the whole. */
  lemma CountPrefix<T(!new)>(s: seq<T>, n: nat, p: T -> bool)
    requires n <= |s|
    ensures Count(s[..n], p) <= Count(s, p)
  {
    assert s == s[..n] + s[n..];
    CountAppend(s[..n], s[n..], p);
  }

  /** A subsequence picked by Filter keeps a strictly increasing key increasing. */
  lemma {:induction false} FilterAscending<T(!new)>(s: seq<T>, p: T -> bool, key: T -> int)
    requires Ascending(s, key)
    ensures Ascending(Filter(s, p), key)
  {
    if |s| > 0 {
      assert Ascending(s[1..], key);
      FilterAscending(s[1..], p, key);
      var rest := Filter(s[1..], p);
      forall x | x in rest
        ensures key(s[0]) < key(x)
      {
        var k :| 0 <= k < |s[1..]| && s[1..][k] == x;
        assert s[k + 1] == x;
      }
    }
  }

  /** Reversing an increasing sequence gives a decreasing one. */
  lemma ReverseAscending<T(!new)>(s: seq<T>, key: T -> int)
    requires Ascending(s, key)
    ensures Descending(Reverse(s), key)
  {
    var r := Reverse(s);
    forall i, j | 0 <= i < j < |r|
      ensures key(r[i]) > key(r[j])
    {
      assert r[i] == s[|s| - 1 - i] && r[j] == s[|s| - 1 - j];
    }
  }

  /** Two sequences that agree, index by index, on whether a row counts give the same count. */
  lemma {:induction false} CountMap<T(!new), U(!new)>(s: seq<T>, t: seq<U>, p: T -> bool, q: U -> bool)
    requires |s| == |t|
    requires forall i :: 0 <= i < |s| ==> p(s[i]) == q(t[i])
    ensures Count(s, p) == Count(t, q)
  {
    if |s| > 0 {
      assert p(s[0]) == q(t[0]);
      CountMap(s[1..], t[1..], p, q);
    }
  }

  /** Places `x` before the first element whose key is not larger. */
  function InsertByKey<T>(x: T, s: seq<T>, key: T -> int): (r: seq<T>)
    ensures multiset(r) == multiset(s) + multiset{x}
  {
    if |s| == 0 then [x]
    else if key(x) >= key(s[0]) then [x] + s
    else
      assert s == [s[0]] + s[1..];
      [s[0]] + InsertByKey(x, s[1..], key)
  }

  /** An insertion sort by decreasing key (an ORDER BY ... DESC). */
  function SortByKey<T>(s: seq<T>, key: T -> int): (r: seq<T>)
    ensures |r| == |s|
    ensures multiset(r) == multiset(s)
  {
    if |s| == 0 then []
    else
      assert s == [s[0]] + s[1..];
      var r := InsertByKey(s[0], SortByKey(s[1..], key), key);
      assert |r| == |multiset(r)|;
      r
  }

  lemma {:induction false} InsertByKeySorted<T>(x: T, s: seq<T>, key: T -> int)
    requires NonIncreasing(s, key)
    ensures NonIncreasing(InsertByKey(x, s, key), key)
  {
    if |s| == 0 {
    } else if key(x) >= key(s[0]) {
      var r := [x] + s;
      forall i, j | 0 <= i < j < |r|
        ensures key(r[i]) >= key(r[j])
      {
        if i > 0 {
          assert r[i] == s[i - 1] && r[j] == s[j - 1];
        } else {
          assert r[j] == s[j - 1];
        }
      }
    } else {
      assert NonIncreasing(s[1..], key);
      InsertByKeySorted(x, s[1..], key);
      var rest := InsertByKey(x, s[1..], key);
      forall k | 0 <= k < |rest|
        ensures key(s[0]) >= key(rest[k])
      {
        assert rest[k] in multiset(rest);
        if rest[k] != x {
          assert rest[k] in multiset(s[1..]);
          var m :| 0 <= m < |s[1..]| && s[1..][m] == rest[k];
          assert s[m + 1] == rest[k];
        }
      }
      var r := [s[0]] + rest;
      forall i, j | 0 <= i < j < |r|
        ensures key(r[i]) >= key(r[j])
      {
        if i > 0 {
          assert r[i] == rest[i - 1] && r[j] == rest[j - 1];
        } else {
          assert r[j] == rest[j - 1];
        }
      }
    }
  }

  lemma {:induction false} SortByKeySorted<T>(s: seq<T>, key: T -> int)
    ensures NonIncreasing(SortByKey(s, key), key)
  {
    if |s| > 0 {
      SortByKeySorted(s[1..], key);
      InsertByKeySorted(s[0], SortByKey(s[1..], key), key);
    }
  }

  /** Rows selected by `q` are neither rewritten by the update nor moved into `q` by it. */
  lemma {:induction false} FilterUpdateUntouched<T(!new)>(s: seq<T>, p: T -> bool, f: T -> T, q: T -> bool)
    requires forall x :: q(x) ==> !p(x)
    requires forall x :: q(f(x)) == q(x)
    ensures Filter(Update(s, p, f), q) == Filter(s, q)
  {
    if |s| > 0 {
      assert Update(s, p, f)[1..] == Update(s[1..], p, f);
      FilterUpdateUntouched(s[1..], p, f, q);
    }
  }

  /** Deleting rows outside `q` leaves the rows selected by `q` as they were. */
  lemma {:induction false} FilterFilterUntouched<T(!new)>(s: seq<T>, keep: T -> bool, q: T -> bool)
    requires forall x :: q(x) ==> keep(x)
    ensures Filter(Filter(s, keep), q) == Filter(s, q)
  {
    if |s| > 0 {
      FilterFilterUntouched(s[1..], keep, q);
    }
  }
}
