/** The PostgreSQL adapter's text rewriting: `?` placeholders become `$1`,
    `$2`, ... in order; `run` appends ` RETURNING id` to an INSERT that does
    not already return something, so that it can report the new row id; `get`
    appends ` LIMIT 1`. */
module Sql {
  import opened Text

  /** The `sql.replace(/\?/g, ...)` pass with the counter starting at `k`. */
  function ConvertFrom(sql: string, k: nat): (r: string)
    ensures forall i :: 0 <= i < |r| ==> r[i] != '?'
    decreases |sql|
  {
    if |sql| == 0 then ""
    else if sql[0] == '?' then "$" + NatToString(k) + ConvertFrom(sql[1..], k + 1)
    else [sql[0]] + ConvertFrom(sql[1..], k)
  }

  /** convertQuery: the first placeholder is `$1`. */
  function ConvertQuery(sql: string): (r: string)
    ensures forall i :: 0 <= i < |r| ==> r[i] != '?'
  {
    ConvertFrom(sql, 1)
  }

  /** The text between the placeholders: `sql.split('?')`. */
  function Split(sql: string): (parts: seq<string>)
    ensures |parts| >= 1
    ensures forall i, j :: 0 <= i < |parts| && 0 <= j < |parts[i]| ==> parts[i][j] != '?'
  {
    if |sql| == 0 then [""]
    else
      var rest := Split(sql[1..]);
      if sql[0] == '?' then [""] + rest
      else [[sql[0]] + rest[0]] + rest[1..]
  }

  /** The pieces glued back with `?` between them. */
  function Join(parts: seq<string>): string
    requires |parts| >= 1
  {
    if |parts| == 1 then parts[0] else parts[0] + "?" + Join(parts[1..])
  }

  /** The pieces glued with `$k`, `$k+1`, ... between them: the intended
      numbering, written independently of the left-to-right scan. */
  function Numbered(parts: seq<string>, k: nat): string
    requires |parts| >= 1
  {
    if |parts| == 1 then parts[0] else parts[0] + "$" + NatToString(k) + Numbered(parts[1..], k + 1)
  }

  /** Splitting at the placeholders loses nothing. */
  lemma {:induction false} JoinSplit(sql: string)
    ensures Join(Split(sql)) == sql
  {
    if |sql| > 0 {
      JoinSplit(sql[1..]);
      var rest := Split(sql[1..]);
      if sql[0] == '?' {
        assert Split(sql)[1..] == rest;
        assert sql == [sql[0]] + sql[1..];
      } else {
        var parts := Split(sql);
        if |rest| > 1 {
          assert parts[1..] == rest[1..];
        }
        assert sql == [sql[0]] + sql[1..];
      }
    }
  }

  /** The scan numbers the i-th placeholder `$(k+i)`. */
  lemma {:induction false} ConvertIsNumbered(sql: string, k: nat)
    ensures ConvertFrom(sql, k) == Numbered(Split(sql), k)
  {
    if |sql| > 0 {
      var rest := Split(sql[1..]);
      ConvertIsNumbered(sql[1..], k);
      ConvertIsNumbered(sql[1..], k + 1);
      var parts := Split(sql);
      if sql[0] == '?' {
        assert parts[1..] == rest;
      } else if |rest| > 1 {
        assert parts[1..] == rest[1..];
      }
    }
  }

  /** A query is converted as its placeholders numbered from `$1`. */
  lemma ConvertQueryNumbers(sql: string)
    ensures ConvertQuery(sql) == Numbered(Split(sql), 1)
    ensures Join(Split(sql)) == sql
  {
    ConvertIsNumbered(sql, 1);
    JoinSplit(sql);
  }

  /** A query without placeholders passes through unchanged. */
  lemma {:induction false} ConvertWithoutPlaceholders(sql: string, k: nat)
    requires forall i :: 0 <= i < |sql| ==> sql[i] != '?'
    ensures ConvertFrom(sql, k) == sql
  {
    if |sql| > 0 {
      ConvertWithoutPlaceholders(sql[1..], k);
      assert sql == [sql[0]] + sql[1..];
    }
  }

  const Returning := " RETURNING id"

  /** `sql.trim().toUpperCase().startsWith('INSERT')`. */
  predicate IsInsert(sql: string)
  {
    StartsWith(Upper(Trim(sql)), "INSERT")
  }

  /** The text `run` sends for an already converted query. */
  function RunText(sql: string): (q: string)
    ensures q == sql || q == sql + Returning
    ensures q == sql + Returning <==> IsInsert(sql) && !Contains(Upper(sql), "RETURNING")
  {
    if IsInsert(sql) && !Contains(Upper(sql), "RETURNING") then sql + Returning else sql
  }

  /** Upper-casing distributes over concatenation. */
  lemma UpperAppend(a: string, b: string)
    ensures Upper(a + b) == Upper(a) + Upper(b)
  {
  }

  /** Once `RETURNING id` is there, `run` adds nothing more: rewriting is idempotent. */
  lemma RunTextIdempotent(sql: string)
    ensures RunText(RunText(sql)) == RunText(sql)
  {
    var q := RunText(sql);
    if q == sql + Returning {
      ReturningOccurs(sql);
    }
  }

  lemma ReturningOccurs(sql: string)
    ensures Contains(Upper(sql + Returning), "RETURNING")
  {
    var u := Upper(sql);
    var x := Upper(Returning);
    UpperAppend(sql, Returning);
    assert x[1..10] == "RETURNING";
    assert (u + x)[|u| + 1..|u| + 10] == x[1..10];
    assert OccursAt(u + x, "RETURNING", |u| + 1);
    ContainsOccurs(u + x, "RETURNING");
  }

  /** The text `get` sends. */
  function GetText(sql: string): (q: string)
    ensures StartsWith(q, sql)
    ensures q[|sql|..] == " LIMIT 1"
  {
    sql + " LIMIT 1"
  }
}
