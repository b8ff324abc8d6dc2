/**
 * The read-only probes the handlers run against a table: the rows a
 * filtered SELECT returns, the `isRecordExist` existence check and the
 * `$count` row count.
 */
module DbHelper {
  import opened Wrappers

  /** A row passes an absent filter, or a present one that holds of it. */
  predicate Passes<T>(filter: Option<T -> bool>, row: T) {
    filter.None? || filter.value(row)
  }

  /** `column = value`, for the column read by `key`. */
  function KeyIs<T, K(==)>(key: T -> K, k: K): T -> bool {
    (row: T) => key(row) == k
  }

  /** `column IN (values)`. */
  function Listed<T, K(==)>(key: T -> K, ks: seq<K>): T -> bool {
    (row: T) => key(row) in ks
  }

  /** `column NOT IN (values)`: the rows a DELETE ... WHERE column IN (values) keeps. */
  function Unlisted<T, K(==)>(key: T -> K, ks: seq<K>): T -> bool {
    (row: T) => key(row) !in ks
  }

  /** `RETURNING column`: one value per row, in row order. */
  function KeysOf<T, K>(rows: seq<T>, key: T -> K): (r: seq<K>)
    ensures |r| == |rows| && forall i :: 0 <= i < |rows| ==> r[i] == key(rows[i])
  {
    if rows == [] then [] else [key(rows[0])] + KeysOf(rows[1..], key)
  }

  /** `SELECT ... FROM table [WHERE filter]`: the passing rows in table order. */
  function Select<T>(table: seq<T>, filter: Option<T -> bool>): seq<T> {
    if table == [] then []
    else (if Passes(filter, table[0]) then [table[0]] else []) + Select(table[1..], filter)
  }

  /** `$count(table, p)`: how many rows satisfy `p`. */
  function Count<T>(table: seq<T>, p: T -> bool): nat {
    if table == [] then 0 else (if p(table[0]) then 1 else 0) + Count(table[1..], p)
  }

  /** A value is selected iff it is a row of the table that passes the filter. */
  lemma {:induction false} SelectMember<T>(table: seq<T>, filter: Option<T -> bool>, x: T)
    ensures x in Select(table, filter) <==> x in table && Passes(filter, x)
  {
    if table != [] {
      SelectMember(table[1..], filter, x);
      assert table == [table[0]] + table[1..];
    }
  }

  /** Every selected row is a passing row of the table, and there are no more of them. */
  lemma {:induction false} SelectMembers<T>(table: seq<T>, filter: Option<T -> bool>)
    ensures forall j :: 0 <= j < |Select(table, filter)| ==>
      Select(table, filter)[j] in table && Passes(filter, Select(table, filter)[j])
    ensures |Select(table, filter)| <= |table|
  {
    if table != [] {
      SelectMembers(table[1..], filter);
      var rest := Select(table[1..], filter);
      forall j | 0 <= j < |Select(table, filter)|
        ensures Select(table, filter)[j] in table && Passes(filter, Select(table, filter)[j])
      {
        if Passes(filter, table[0]) && j > 0 {
          assert Select(table, filter)[j] == rest[j - 1];
          assert rest[j - 1] in table[1..];
        } else if !Passes(filter, table[0]) {
          assert Select(table, filter)[j] == rest[j];
          assert rest[j] in table[1..];
        }
      }
    }
  }

  /** A SELECT returns some row iff some row of the table passes its filter. */
  lemma {:induction false} SelectNonEmpty<T>(table: seq<T>, filter: Option<T -> bool>)
    ensures |Select(table, filter)| > 0 <==> exists i :: 0 <= i < |table| && Passes(filter, table[i])
  {
    if table != [] {
      SelectNonEmpty(table[1..], filter);
      if exists i :: 0 <= i < |table| && Passes(filter, table[i]) {
        var i :| 0 <= i < |table| && Passes(filter, table[i]);
        if i > 0 { assert table[1..][i - 1] == table[i]; }
      }
      if exists i :: 0 <= i < |table[1..]| && Passes(filter, table[1..][i]) {
        var i :| 0 <= i < |table[1..]| && Passes(filter, table[1..][i]);
        assert table[i + 1] == table[1..][i];
      }
    }
  }

  /**
   * `isRecordExist`: with no filter, whether the table has a row at all;
   * with one, whether some row satisfies it. It only reads the table.
   */
  function IsRecordExist<T>(table: seq<T>, filter: Option<T -> bool>): (r: bool)
    ensures filter.None? ==> (r <==> |table| > 0)
    ensures filter.Some? ==> (r <==> exists i :: 0 <= i < |table| && filter.value(table[i]))
  {
    SelectNonEmpty(table, filter);
    |Select(table, filter)| > 0
  }

  /** The count of a predicate is the number of rows a SELECT with it returns. */
  lemma {:induction false} CountIsSelectLength<T>(table: seq<T>, p: T -> bool)
    ensures Count(table, p) == |Select(table, Some(p))|
  {
    if table != [] {
      CountIsSelectLength(table[1..], p);
    }
  }

  /**
   * The count-based conflict check (`$count(...) >= 1`) and the existence
   * probe give the same answer for the same predicate.
   */
  lemma CountAgreesWithExists<T>(table: seq<T>, p: T -> bool)
    ensures Count(table, p) >= 1 <==> IsRecordExist(table, Some(p))
  {
    CountIsSelectLength(table, p);
  }

  /** Two filters that agree on every row of the table select the same rows. */
  lemma {:induction false} SelectAgrees<T>(table: seq<T>, p: T -> bool, q: T -> bool)
    requires forall i :: 0 <= i < |table| ==> p(table[i]) == q(table[i])
    ensures Select(table, Some(p)) == Select(table, Some(q))
  {
    if table != [] {
      assert forall i :: 0 <= i < |table[1..]| ==> table[1..][i] == table[i + 1];
      SelectAgrees(table[1..], p, q);
    }
  }

  /**
   * `DELETE ... WHERE column IN (values) RETURNING column` (or the matching
   * SELECT) yields a value iff it is listed and some row has it.
   */
  lemma ListedKeys<T, K>(table: seq<T>, key: T -> K, ks: seq<K>, x: K)
    ensures x in KeysOf(Select(table, Some(Listed(key, ks))), key)
      <==> x in ks && exists i :: 0 <= i < |table| && key(table[i]) == x
  {
    var sel := Select(table, Some(Listed(key, ks)));
    var out := KeysOf(sel, key);
    if x in out {
      var k :| 0 <= k < |out| && out[k] == x;
      SelectMembers(table, Some(Listed(key, ks)));
      var i :| 0 <= i < |table| && table[i] == sel[k];
    }
    if x in ks && exists i :: 0 <= i < |table| && key(table[i]) == x {
      var i :| 0 <= i < |table| && key(table[i]) == x;
      SelectMember(table, Some(Listed(key, ks)), table[i]);
      var k :| 0 <= k < |sel| && sel[k] == table[i];
      assert out[k] == x;
    }
  }

  /** A filter every row passes selects the whole table. */
  lemma {:induction false} SelectAll<T>(table: seq<T>, p: T -> bool)
    requires forall i :: 0 <= i < |table| ==> p(table[i])
    ensures Select(table, Some(p)) == table
  {
    if table != [] {
      assert forall i :: 0 <= i < |table[1..]| ==> table[1..][i] == table[i + 1];
      SelectAll(table[1..], p);
      assert table == [table[0]] + table[1..];
    }
  }

  /** A probe on one column finds a row iff some row holds the value. */
  lemma FoundByKey<T, K>(table: seq<T>, key: T -> K, x: K)
    ensures IsRecordExist(table, Some(KeyIs(key, x))) <==> exists i :: 0 <= i < |table| && key(table[i]) == x
  {
    if exists i :: 0 <= i < |table| && key(table[i]) == x {
      var i :| 0 <= i < |table| && key(table[i]) == x;
      assert KeyIs(key, x)(table[i]);
    }
  }

  /** `const [record] = await select ... where(eq(column, x))`: the first row holding the value. */
  function Lookup<T, K(==)>(table: seq<T>, key: T -> K, x: K): (r: Option<T>)
    ensures r.Some? <==> exists i :: 0 <= i < |table| && key(table[i]) == x
    ensures r.Some? ==> r.value in table && key(r.value) == x
  {
    var rows := Select(table, Some(KeyIs(key, x)));
    FoundByKey(table, key, x);
    SelectNonEmpty(table, Some(KeyIs(key, x)));
    if |rows| > 0 then
      SelectMember(table, Some(KeyIs(key, x)), rows[0]);
      Some(rows[0])
    else None
  }
}
