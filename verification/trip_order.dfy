/** `ORDER BY t.date ASC, t.time ASC`: text columns compared code point by
    code point (SQLite's BINARY collation; ISO dates and HH:MM times sort the
    same way as the values they denote), and an insertion sort that puts a
    list of trips in that order. Rows with equal (date, time) may come out in
    any order in SQL; the sort here happens to keep their input order. */
module TripOrder {
  import opened Store

  /** Lexicographic order on strings, by code point. */
  predicate StrLe(a: string, b: string)
    decreases |a|
  {
    |a| == 0 || (|b| > 0 && (a[0] < b[0] || (a[0] == b[0] && StrLe(a[1..], b[1..]))))
  }

  lemma {:induction false} StrLeRefl(a: string)
    ensures StrLe(a, a)
  {
    if |a| > 0 {
      StrLeRefl(a[1..]);
    }
  }

  lemma {:induction false} StrLeTotal(a: string, b: string)
    ensures StrLe(a, b) || StrLe(b, a)
  {
    if |a| > 0 && |b| > 0 && a[0] == b[0] {
      StrLeTotal(a[1..], b[1..]);
    }
  }

  lemma {:induction false} StrLeAntisymmetric(a: string, b: string)
    requires StrLe(a, b) && StrLe(b, a)
    ensures a == b
  {
    if |a| > 0 {
      StrLeAntisymmetric(a[1..], b[1..]);
      assert a == [a[0]] + a[1..] && b == [b[0]] + b[1..];
    }
  }

  lemma {:induction false} StrLeTransitive(a: string, b: string, c: string)
    requires StrLe(a, b) && StrLe(b, c)
    ensures StrLe(a, c)
  {
    if |a| > 0 && a[0] == b[0] && b[0] == c[0] {
      StrLeTransitive(a[1..], b[1..], c[1..]);
    }
  }

  /** Trip `a` may come before trip `b`: earlier date, or same date and no later time. */
  predicate TripLe(a: Trip, b: Trip)
  {
    (a.date != b.date && StrLe(a.date, b.date)) || (a.date == b.date && StrLe(a.time, b.time))
  }

  lemma TripLeTotal(a: Trip, b: Trip)
    ensures TripLe(a, b) || TripLe(b, a)
  {
    StrLeTotal(a.date, b.date);
    StrLeTotal(a.time, b.time);
  }

  lemma TripLeTransitive(a: Trip, b: Trip, c: Trip)
    requires TripLe(a, b) && TripLe(b, c)
    ensures TripLe(a, c)
  {
    if a.date != b.date && b.date != c.date {
      StrLeTransitive(a.date, b.date, c.date);
      if a.date == c.date {
        StrLeAntisymmetric(a.date, b.date);
      }
    } else if a.date == b.date && b.date == c.date {
      StrLeTransitive(a.time, b.time, c.time);
    }
  }

  ghost predicate Sorted(ts: seq<Trip>)
  {
    forall i, j :: 0 <= i < j < |ts| ==> TripLe(ts[i], ts[j])
  }

  /** Places `t` before the first element it may precede. */
  function Insert(t: Trip, ts: seq<Trip>): (r: seq<Trip>)
    ensures multiset(r) == multiset(ts) + multiset{t}
  {
    if |ts| == 0 then [t]
    else if TripLe(t, ts[0]) then [t] + ts
    else
      assert ts == [ts[0]] + ts[1..];
      [ts[0]] + Insert(t, ts[1..])
  }

  function Sort(ts: seq<Trip>): (r: seq<Trip>)
    ensures multiset(r) == multiset(ts)
  {
    if |ts| == 0 then []
    else
      assert ts == [ts[0]] + ts[1..];
      Insert(ts[0], Sort(ts[1..]))
  }

  lemma {:induction false} InsertSorted(t: Trip, ts: seq<Trip>)
    requires Sorted(ts)
    ensures Sorted(Insert(t, ts))
  {
    if |ts| == 0 {
    } else if TripLe(t, ts[0]) {
      var r := [t] + ts;
      forall i, j | 0 <= i < j < |r|
        ensures TripLe(r[i], r[j])
      {
        if i == 0 && j > 1 {
          TripLeTransitive(t, ts[0], ts[j - 1]);
        }
      }
    } else {
      TripLeTotal(t, ts[0]);
      InsertSorted(t, ts[1..]);
      var rest := Insert(t, ts[1..]);
      forall k | 0 <= k < |rest|
        ensures TripLe(ts[0], rest[k])
      {
        assert rest[k] in multiset(rest);
        if rest[k] != t {
          assert rest[k] in multiset(ts[1..]);
          var m :| 0 <= m < |ts[1..]| && ts[1..][m] == rest[k];
          assert ts[m + 1] == rest[k];
        }
      }
      var r := [ts[0]] + rest;
      forall i, j | 0 <= i < j < |r|
        ensures TripLe(r[i], r[j])
      {
        if i > 0 {
          assert r[i] == rest[i - 1] && r[j] == rest[j - 1];
        } else {
          assert r[j] == rest[j - 1];
        }
      }
    }
  }

  lemma {:induction false} SortSorted(ts: seq<Trip>)
    ensures Sorted(Sort(ts))
  {
    if |ts| > 0 {
      SortSorted(ts[1..]);
      InsertSorted(ts[0], Sort(ts[1..]));
    }
  }
}
