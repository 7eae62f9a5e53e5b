/**
 * `GET /api/events` in server_full.js: the whole `events` table, as
 * `SELECT * FROM events ORDER BY event_order ASC` returns it, or an empty
 * list when no database is configured.
 */
module Listing {
  import opened EventStore

  /** Ascending by `event_order`. */
  predicate SortedByOrder(rows: seq<Row>)
  {
    forall i, j :: 0 <= i < j < |rows| ==> rows[i].order <= rows[j].order
  }

  /** Strictly ascending by `event_order`. */
  predicate StrictlyAscending(rows: seq<Row>)
  {
    forall i, j :: 0 <= i < j < |rows| ==> rows[i].order < rows[j].order
  }

  /** Places r before the first row of `sorted` whose order is not below its own. */
  function InsertByOrder(r: Row, sorted: seq<Row>): (s: seq<Row>)
    ensures |s| == |sorted| + 1
    ensures multiset(s) == multiset(sorted) + multiset{r}
  {
    if sorted == [] || r.order <= sorted[0].order then [r] + sorted
    else
      assert sorted == [sorted[0]] + sorted[1..];
      [sorted[0]] + InsertByOrder(r, sorted[1..])
  }

  /** A row placed before an ascending list whose first order is not below its own keeps it ascending. */
  lemma ConsSorted(a: Row, t: seq<Row>)
    requires SortedByOrder(t) && (t != [] ==> a.order <= t[0].order)
    ensures SortedByOrder([a] + t)
  {
    var s := [a] + t;
    forall i, j | 0 <= i < j < |s|
      ensures s[i].order <= s[j].order
    {
      if i == 0 {
        assert s[j] == t[j - 1];
        if j > 1 {
          assert t[0].order <= t[j - 1].order;
        }
      } else {
        assert s[i] == t[i - 1] && s[j] == t[j - 1];
      }
    }
  }

  /** The strict counterpart of ConsSorted. */
  lemma ConsStrict(a: Row, t: seq<Row>)
    requires StrictlyAscending(t) && (t != [] ==> a.order < t[0].order)
    ensures StrictlyAscending([a] + t)
  {
    var s := [a] + t;
    forall i, j | 0 <= i < j < |s|
      ensures s[i].order < s[j].order
    {
      if i == 0 {
        assert s[j] == t[j - 1];
        if j > 1 {
          assert t[0].order < t[j - 1].order;
        }
      } else {
        assert s[i] == t[i - 1] && s[j] == t[j - 1];
      }
    }
  }

  /** The first row after an insertion: the new row, or the old first row. */
  lemma InsertHead(r: Row, sorted: seq<Row>)
    ensures InsertByOrder(r, sorted)[0] == (if sorted == [] || r.order <= sorted[0].order then r else sorted[0])
  {
  }

  /** Inserting into an ascending list keeps it ascending. */
  lemma {:induction false} InsertKeepsSorted(r: Row, sorted: seq<Row>)
    requires SortedByOrder(sorted)
    ensures SortedByOrder(InsertByOrder(r, sorted))
  {
    if sorted == [] || r.order <= sorted[0].order {
      ConsSorted(r, sorted);
    } else {
      var rest := sorted[1..];
      assert SortedByOrder(rest) by {
        forall i, j | 0 <= i < j < |rest|
          ensures rest[i].order <= rest[j].order
        {
          assert rest[i] == sorted[i + 1] && rest[j] == sorted[j + 1];
        }
      }
      InsertKeepsSorted(r, rest);
      InsertHead(r, rest);
      if rest != [] {
        assert sorted[0].order <= sorted[1].order;
      }
      ConsSorted(sorted[0], InsertByOrder(r, rest));
    }
  }

  /** Inserting a row with a fresh order into a strictly ascending list keeps it strictly ascending. */
  lemma {:induction false} InsertKeepsStrict(r: Row, sorted: seq<Row>)
    requires StrictlyAscending(sorted)
    requires forall k :: 0 <= k < |sorted| ==> sorted[k].order != r.order
    ensures StrictlyAscending(InsertByOrder(r, sorted))
  {
    if sorted == [] || r.order <= sorted[0].order {
      ConsStrict(r, sorted);
    } else {
      var rest := sorted[1..];
      assert StrictlyAscending(rest) by {
        forall i, j | 0 <= i < j < |rest|
          ensures rest[i].order < rest[j].order
        {
          assert rest[i] == sorted[i + 1] && rest[j] == sorted[j + 1];
        }
      }
      forall k | 0 <= k < |rest|
        ensures rest[k].order != r.order
      {
        assert rest[k] == sorted[k + 1];
      }
      InsertKeepsStrict(r, rest);
      InsertHead(r, rest);
      if rest != [] {
        assert sorted[0].order < sorted[1].order;
      }
      ConsStrict(sorted[0], InsertByOrder(r, rest));
    }
  }

  /**
   * `ORDER BY event_order ASC`. SQL leaves the order of rows that share an
   * order open; this model chooses to keep them in the order the table
   * holds them.
   */
  function SortByOrder(rows: seq<Row>): (s: seq<Row>)
  {
    if rows == [] then [] else InsertByOrder(rows[0], SortByOrder(rows[1..]))
  }

  /** The sorted listing is ascending and holds exactly the table's rows, each as often as the table does. */
  lemma {:induction false} SortByOrderSorts(rows: seq<Row>)
    ensures SortedByOrder(SortByOrder(rows))
    ensures multiset(SortByOrder(rows)) == multiset(rows)
  {
    if rows != [] {
      var rest := rows[1..];
      SortByOrderSorts(rest);
      InsertKeepsSorted(rows[0], SortByOrder(rest));
      assert rows == [rows[0]] + rest;
      assert multiset(rows) == multiset(rest) + multiset{rows[0]};
      assert multiset(SortByOrder(rows)) == multiset(SortByOrder(rest)) + multiset{rows[0]};
    }
  }

  /** A table that is already in order is listed as it stands. */
  lemma {:induction false} SortedListsAsIs(rows: seq<Row>)
    requires SortedByOrder(rows)
    ensures SortByOrder(rows) == rows
  {
    if rows != [] {
      SortedListsAsIs(rows[1..]);
      assert rows == [rows[0]] + rows[1..];
    }
  }

  /**
   * Under the server's key `UNIQUE (event_order)` the orders are distinct,
   * so the listing is strictly ascending.
   */
  lemma {:induction false} UniqueKeyListsStrictly(rows: seq<Row>)
    requires Consistent(Global, rows)
    ensures StrictlyAscending(SortByOrder(rows))
  {
    if rows != [] {
      var rest := rows[1..];
      assert Consistent(Global, rest) by {
        forall i, j | 0 <= i < j < |rest|
          ensures !Clash(Global, rest[i], rest[j])
        {
          assert rest[i] == rows[i + 1] && rest[j] == rows[j + 1];
        }
      }
      UniqueKeyListsStrictly(rest);
      SortByOrderSorts(rest);
      var s := SortByOrder(rest);
      forall k | 0 <= k < |s|
        ensures s[k].order != rows[0].order
      {
        assert s[k] in multiset(rest);
        var m :| 0 <= m < |rest| && rest[m] == s[k];
        assert rows[m + 1] == s[k];
        assert !Clash(Global, rows[0], rows[m + 1]);
      }
      InsertKeepsStrict(rows[0], s);
    }
  }

  // ---------------------------------------------------------------------------
  // The endpoint

  /** The response: the rows, or status 500 with `{ error: 'DB error' }`. */
  datatype Reply = Rows(rows: seq<Row>) | DbError

  /**
   * `/api/events`: `[]` with no pool; the ordered table; or the error when
   * taking a connection or running the query fails.
   */
  function ListEvents(pool: bool, connectFails: bool, queryFails: bool, rows: seq<Row>): (r: Reply)
    ensures !pool ==> r == Rows([])
    ensures pool ==> (r.DbError? <==> connectFails || queryFails)
  {
    if !pool then Rows([])
    else if connectFails || queryFails then DbError
    else Rows(SortByOrder(rows))
  }

  /**
   * A successful listing holds every stored row exactly as often as the
   * table does, ascending by order; with the server's unique key, strictly.
   */
  lemma ListingIsOrderedTable(mode: Uniqueness, rows: seq<Row>)
    requires Consistent(mode, rows)
    ensures var r := ListEvents(true, false, false, rows);
      && r.Rows? && SortedByOrder(r.rows) && multiset(r.rows) == multiset(rows)
      && (mode == Global ==> StrictlyAscending(r.rows))
  {
    SortByOrderSorts(rows);
    if mode == Global {
      UniqueKeyListsStrictly(rows);
    }
  }
}
