/**
 * The `events` table, as an in-memory store of rows standing in for the
 * MariaDB database the scripts talk to. A row holds the values the scripts
 * bind as statement parameters. The store enforces the table's NOT NULL
 * columns and its uniqueness key, which is a parameter: the schema created
 * by server_full.js declares `event_order` unique over the whole table,
 * while tools/ingest_events.js writes a `chapter` column and deletes by
 * chapter, which fits a key on (chapter, event_order).
 */
module EventStore {
  import opened JsValues

  /** Which rows may not share an `event_order`. */
  datatype Uniqueness =
    | Global      // UNIQUE KEY (event_order)
    | PerChapter  // UNIQUE KEY (chapter, event_order), with SQL's rule that NULL equals nothing

  /** One stored event. The JSON column `misc_data` holds the value that was serialised into it. */
  datatype Row = Row(
    chapter: Option<int>,
    order: int,
    delay: Json,
    action: Json,
    actor: Json,
    staticText: Json,
    voice: Json,
    apiPrompt: Json,
    isGenerated: bool,
    generatedContent: Json,
    misc: Json)

  /** The parameters of one `INSERT INTO events`, before the database checks them. */
  datatype InsertParams = InsertParams(
    chapter: Option<int>,
    order: Json,
    delay: Json,
    action: Json,
    actor: Json,
    staticText: Json,
    voice: Json,
    apiPrompt: Json,
    isGenerated: bool,
    generatedContent: Json,
    misc: Json)

  /** The statement passes the column checks: an integer order and no NULL in `delay` or `action`. */
  predicate Admissible(p: InsertParams)
  {
    IsInteger(p.order) && p.delay != JNull && p.action != JNull
  }

  /** The row an admissible statement stores. */
  function RowOf(p: InsertParams): (r: Row)
    requires Admissible(p)
    ensures r.chapter == p.chapter && r.order as real == p.order.x
    ensures r.delay == p.delay && r.action == p.action && r.misc == p.misc
  {
    Row(p.chapter, IntOf(p.order), p.delay, p.action, p.actor, p.staticText, p.voice,
        p.apiPrompt, p.isGenerated, p.generatedContent, p.misc)
  }

  /** Two rows that the uniqueness key forbids to coexist. */
  predicate Clash(mode: Uniqueness, a: Row, b: Row)
  {
    a.order == b.order && (mode == Global || (a.chapter.Some? && a.chapter == b.chapter))
  }

  /** Row r may be added to rows without breaking the key. */
  predicate Fits(mode: Uniqueness, rows: seq<Row>, r: Row)
  {
    forall i :: 0 <= i < |rows| ==> !Clash(mode, rows[i], r)
  }

  /** No two rows break the key. */
  predicate Consistent(mode: Uniqueness, rows: seq<Row>)
  {
    forall i, j :: 0 <= i < j < |rows| ==> !Clash(mode, rows[i], rows[j])
  }

  /** Appending a row that fits keeps the table free of clashes. */
  lemma ConsistentAppend(mode: Uniqueness, rows: seq<Row>, r: Row)
    requires Consistent(mode, rows) && Fits(mode, rows, r)
    ensures Consistent(mode, rows + [r])
  {
  }

  /**
   * One insert: it fails on a transient database error (`fault`), on a
   * column check, or on a duplicate key; otherwise it appends the row.
   */
  function TryInsert(mode: Uniqueness, rows: seq<Row>, p: InsertParams, fault: bool): (r: Option<seq<Row>>)
    ensures r.Some? <==> !fault && Admissible(p) && Fits(mode, rows, RowOf(p))
    ensures r.Some? ==> r.value == rows + [RowOf(p)]
  {
    if !fault && Admissible(p) && Fits(mode, rows, RowOf(p)) then
      Some(rows + [RowOf(p)])
    else None
  }

  /** `SELECT COALESCE(MAX(event_order), 0) FROM events`. */
  function MaxOrder(rows: seq<Row>): (m: int)
    ensures forall i :: 0 <= i < |rows| ==> rows[i].order <= m
    ensures rows == [] ==> m == 0
    ensures rows != [] ==> exists i :: 0 <= i < |rows| && rows[i].order == m
  {
    if rows == [] then 0
    else if |rows| == 1 then rows[0].order
    else
      var m := MaxOrder(rows[..|rows| - 1]);
      var last := rows[|rows| - 1].order;
      assert rows[..|rows| - 1] != [];
      if last > m then last else m
  }

  /** Appending a row after two stretches of rows. */
  lemma AppendAssociates(a: seq<Row>, b: seq<Row>, x: Row)
    ensures (a + b) + [x] == a + (b + [x])
  {
  }

  /** A row with an order above the maximum fits, whatever the key. */
  lemma AboveMaxFits(mode: Uniqueness, rows: seq<Row>, r: Row)
    requires r.order > MaxOrder(rows)
    ensures Fits(mode, rows, r)
  {
  }

  /** The rows of one chapter, in store order. */
  function OfChapter(rows: seq<Row>, c: int): (r: seq<Row>)
    ensures |r| <= |rows|
    ensures forall i :: 0 <= i < |r| ==> r[i].chapter == Some(c)
  {
    if rows == [] then []
    else
      var init := OfChapter(rows[..|rows| - 1], c);
      if rows[|rows| - 1].chapter == Some(c) then init + [rows[|rows| - 1]] else init
  }

  /** `DELETE FROM events WHERE chapter = c`: the rows that remain, in store order. */
  function WithoutChapter(rows: seq<Row>, c: int): (r: seq<Row>)
    ensures |r| <= |rows|
    ensures forall i :: 0 <= i < |r| ==> r[i].chapter != Some(c)
    ensures forall i :: 0 <= i < |r| ==> exists k :: 0 <= k < |rows| && r[i] == rows[k]
  {
    if rows == [] then []
    else
      var init := WithoutChapter(rows[..|rows| - 1], c);
      if rows[|rows| - 1].chapter == Some(c) then init else init + [rows[|rows| - 1]]
  }

  /** Selecting one chapter's rows distributes over concatenation. */
  lemma {:induction false} OfChapterAppend(a: seq<Row>, b: seq<Row>, c: int)
    ensures OfChapter(a + b, c) == OfChapter(a, c) + OfChapter(b, c)
    decreases |b|
  {
    if b == [] {
      assert a + b == a;
    } else {
      var n := |b| - 1;
      assert (a + b)[..|a + b| - 1] == a + b[..n];
      assert (a + b)[|a + b| - 1] == b[n];
      OfChapterAppend(a, b[..n], c);
      var x, y := OfChapter(a, c), OfChapter(b[..n], c);
      assert (x + y) + [b[n]] == x + (y + [b[n]]);
    }
  }

  /** Removing one chapter's rows distributes over concatenation. */
  lemma {:induction false} WithoutChapterAppend(a: seq<Row>, b: seq<Row>, c: int)
    ensures WithoutChapter(a + b, c) == WithoutChapter(a, c) + WithoutChapter(b, c)
    decreases |b|
  {
    if b == [] {
      assert a + b == a;
    } else {
      var n := |b| - 1;
      assert (a + b)[..|a + b| - 1] == a + b[..n];
      assert (a + b)[|a + b| - 1] == b[n];
      WithoutChapterAppend(a, b[..n], c);
      var x, y := WithoutChapter(a, c), WithoutChapter(b[..n], c);
      assert (x + y) + [b[n]] == x + (y + [b[n]]);
    }
  }

  /** The rows of chapter c and the rows outside it are the two parts of the table. */
  lemma {:induction false} ChapterSplit(rows: seq<Row>, c: int)
    ensures OfChapter(WithoutChapter(rows, c), c) == []
    ensures WithoutChapter(WithoutChapter(rows, c), c) == WithoutChapter(rows, c)
    ensures |OfChapter(rows, c)| + |WithoutChapter(rows, c)| == |rows|
  {
    if rows != [] {
      var n := |rows| - 1;
      ChapterSplit(rows[..n], c);
      var w := WithoutChapter(rows[..n], c);
      if rows[n].chapter != Some(c) {
        var w' := w + [rows[n]];
        assert w'[..|w'| - 1] == w;
      }
    }
  }

  /** Rows that all belong to chapter c are all selected, and none survives its removal. */
  lemma {:induction false} AllOfChapter(rows: seq<Row>, c: int)
    requires forall i :: 0 <= i < |rows| ==> rows[i].chapter == Some(c)
    ensures OfChapter(rows, c) == rows
    ensures WithoutChapter(rows, c) == []
  {
    if rows != [] {
      AllOfChapter(rows[..|rows| - 1], c);
      assert rows == rows[..|rows| - 1] + [rows[|rows| - 1]];
    }
  }

  /** Deleting the rows of a chapter never creates a clash. */
  lemma {:induction false} WithoutChapterKeeps(mode: Uniqueness, rows: seq<Row>, c: int)
    requires Consistent(mode, rows)
    ensures Consistent(mode, WithoutChapter(rows, c))
  {
    if rows != [] {
      var init := rows[..|rows| - 1];
      var last := rows[|rows| - 1];
      WithoutChapterKeeps(mode, init, c);
      var w := WithoutChapter(init, c);
      forall i | 0 <= i < |w|
        ensures !Clash(mode, w[i], last)
      {
        var k :| 0 <= k < |init| && w[i] == init[k];
        assert init[k] == rows[k];
      }
    }
  }

  /**
   * The store. `rows` is what the connection sees, committed or not;
   * `saved` is the state `Begin` recorded, which `Rollback` restores.
   */
  class Store {
    const mode: Uniqueness
    var rows: seq<Row>
    var saved: seq<Row>

    ghost predicate Valid()
      reads this
    {
      Consistent(mode, rows) && Consistent(mode, saved)
    }

    constructor (mode: Uniqueness)
      ensures Valid() && this.mode == mode && rows == [] && saved == []
    {
      this.mode := mode;
      rows := [];
      saved := [];
    }

    /** One INSERT; `fault` is a transient error of the database connection. */
    method Insert(p: InsertParams, fault: bool) returns (ok: bool)
      requires Valid()
      modifies this`rows
      ensures Valid()
      ensures ok == TryInsert(mode, old(rows), p, fault).Some?
      ensures rows == if ok then old(rows) + [RowOf(p)] else old(rows)
    {
      var r := TryInsert(mode, rows, p, fault);
      ok := r.Some?;
      if ok {
        ConsistentAppend(mode, rows, RowOf(p));
        rows := r.value;
      }
    }

    /** `DELETE FROM events WHERE chapter = c`, returning the number of rows removed. */
    method DeleteChapter(c: int) returns (count: nat)
      requires Valid()
      modifies this`rows
      ensures Valid()
      ensures rows == WithoutChapter(old(rows), c)
      ensures count == |OfChapter(old(rows), c)|
    {
      WithoutChapterKeeps(mode, rows, c);
      count := |OfChapter(rows, c)|;
      rows := WithoutChapter(rows, c);
    }

    /** `beginTransaction`: remember the state to return to. */
    method Begin()
      requires Valid()
      modifies this`saved
      ensures Valid() && saved == rows
    {
      saved := rows;
    }

    /** `commit`: the current state becomes the one a later rollback returns to. */
    method Commit()
      requires Valid()
      modifies this`saved
      ensures Valid() && saved == rows
    {
      saved := rows;
    }

    /** `rollback`: undo everything since `Begin`. */
    method Rollback()
      requires Valid()
      modifies this`rows
      ensures Valid() && rows == saved
    {
      rows := saved;
    }
  }
}
