/**
 * tools/ingest_events.js: loads a JSON array of events into the `events`
 * table for one chapter, inside one transaction. With `--replace` the
 * chapter's existing rows are deleted first. Each event keeps its own
 * `event_order`; any failing statement rolls the whole transaction back.
 */
module IngestEvents {
  import opened JsValues
  import opened EventStore
  import opened CommandLine

  // ---------------------------------------------------------------------------
  // The statements

  /** The parameters bound to the INSERT for event `ev` of chapter `c`. */
  function ChapterParams(ev: Json, c: int): (p: InsertParams)
    ensures p.chapter == Some(c) && !p.isGenerated && p.generatedContent == JNull
    ensures Some(p.order) == Prop(ev, "event_order") || (Prop(ev, "event_order").None? && p.order == JNull)
    ensures Truthy(Prop(ev, "misc_data")) ==> Some(p.misc) == Prop(ev, "misc_data")
    ensures !Truthy(Prop(ev, "misc_data")) ==> p.misc == JObj(map[])
  {
    InsertParams(
      Some(c),
      Bind(Prop(ev, "event_order")),
      Bind(Prop(ev, "delay")),
      Bind(Prop(ev, "action")),
      Or(Prop(ev, "actor"), JNull),
      Or(Prop(ev, "static_text"), JNull),
      Or(Prop(ev, "voice"), JNull),
      Or(Prop(ev, "api_prompt"), JNull),
      false,
      JNull,
      Or(Prop(ev, "misc_data"), JObj(map[])))
  }

  /**
   * Event `ev` yields a statement that passes the column checks: reading
   * its properties does not throw (it is not null), its `event_order` is an
   * integer and its `delay` and `action` are present and not null.
   */
  predicate Storable(ev: Json, c: int)
  {
    ev != JNull && Admissible(ChapterParams(ev, c))
  }

  /** The row a storable event becomes. */
  function EventRow(ev: Json, c: int): (r: Row)
    requires Storable(ev, c)
    ensures Admissible(ChapterParams(ev, c)) && r == RowOf(ChapterParams(ev, c))
    ensures r.chapter == Some(c)
  {
    RowOf(ChapterParams(ev, c))
  }

  /** The rows the first n events of chapter c become when every one of them is storable. */
  function EventRows(events: seq<Json>, c: int, n: nat): (r: seq<Row>)
    requires n <= |events| && forall i :: 0 <= i < n ==> Storable(events[i], c)
    ensures |r| == n
    ensures forall i :: 0 <= i < n ==> r[i] == EventRow(events[i], c)
    ensures forall i :: 0 <= i < n ==> r[i].chapter == Some(c)
  {
    if n == 0 then [] else EventRows(events, c, n - 1) + [EventRow(events[n - 1], c)]
  }

  /**
   * The INSERT loop from state `rows` over the first n events: the rows
   * after inserting every one in turn, or None once an event is null
   * (reading its properties throws) or an INSERT fails. `faults` holds the
   * positions whose INSERT the database refuses for reasons of its own.
   */
  function Staged(mode: Uniqueness, rows: seq<Row>, events: seq<Json>, c: int, faults: set<nat>, n: nat): (r: Option<seq<Row>>)
    requires n <= |events|
    ensures r.Some? ==> forall i :: 0 <= i < n ==> Storable(events[i], c) && i !in faults
    ensures r.Some? ==> r.value == rows + EventRows(events, c, n)
  {
    if n == 0 then Some(rows)
    else
      var init := Staged(mode, rows, events, c, faults, n - 1);
      if init.None? || events[n - 1] == JNull then None
      else TryInsert(mode, init.value, ChapterParams(events[n - 1], c), n - 1 in faults)
  }

  /** Failures of the transaction's own statements. */
  datatype TxFaults = TxFaults(begin: bool, delete: bool, inserts: set<nat>, commit: bool)

  /**
   * The transaction: BEGIN, the optional DELETE of the chapter, the
   * INSERTs and COMMIT. The table after it, or None when it is rolled back.
   */
  function Transaction(mode: Uniqueness, rows: seq<Row>, events: seq<Json>, c: int, replace: bool, f: TxFaults): Option<seq<Row>>
  {
    if f.begin || (replace && f.delete) then None
    else
      var start := if replace then WithoutChapter(rows, c) else rows;
      var staged := Staged(mode, start, events, c, f.inserts, |events|);
      if f.commit then None else staged
  }

  // ---------------------------------------------------------------------------
  // What the transaction promises

  /**
   * After a committed `--replace` the chapter holds exactly the rows of the
   * file, in file order, and every other chapter is as it was.
   */
  lemma ReplaceInstallsChapter(mode: Uniqueness, rows: seq<Row>, events: seq<Json>, c: int, f: TxFaults)
    requires Transaction(mode, rows, events, c, true, f).Some?
    ensures var r := Transaction(mode, rows, events, c, true, f).value;
      && (forall i :: 0 <= i < |events| ==> Storable(events[i], c))
      && OfChapter(r, c) == EventRows(events, c, |events|)
      && WithoutChapter(r, c) == WithoutChapter(rows, c)
  {
    var staged := Staged(mode, WithoutChapter(rows, c), events, c, f.inserts, |events|);
    assert Transaction(mode, rows, events, c, true, f) == staged;
    ReplacedChapter(rows, EventRows(events, c, |events|), c);
  }

  /** The table after the chapter's rows are deleted and `added`, all of that chapter, are appended. */
  lemma ReplacedChapter(rows: seq<Row>, added: seq<Row>, c: int)
    requires forall i :: 0 <= i < |added| ==> added[i].chapter == Some(c)
    ensures OfChapter(WithoutChapter(rows, c) + added, c) == added
    ensures WithoutChapter(WithoutChapter(rows, c) + added, c) == WithoutChapter(rows, c)
  {
    var start := WithoutChapter(rows, c);
    OfChapterAppend(start, added, c);
    WithoutChapterAppend(start, added, c);
    ChapterSplit(rows, c);
    AllOfChapter(added, c);
    assert [] + added == added;
    assert start + [] == start;
  }

  /** Without `--replace` the rows of the file are appended to the table. */
  lemma AppendWithoutReplace(mode: Uniqueness, rows: seq<Row>, events: seq<Json>, c: int, f: TxFaults)
    requires Transaction(mode, rows, events, c, false, f).Some?
    ensures Transaction(mode, rows, events, c, false, f).value == rows + EventRows(events, c, |events|)
  {
  }

  /** The same start gives the same result: repeating a committed `--replace` changes nothing. */
  lemma ReplaceIsIdempotent(mode: Uniqueness, rows: seq<Row>, events: seq<Json>, c: int, f: TxFaults)
    requires Transaction(mode, rows, events, c, true, f).Some?
    ensures var r := Transaction(mode, rows, events, c, true, f).value;
      Transaction(mode, r, events, c, true, f) == Some(r)
  {
    ReplaceInstallsChapter(mode, rows, events, c, f);
  }

  /** Once the loop fails over the first i events, it fails over the first n for every n from i on. */
  lemma StagedPrefixFails(mode: Uniqueness, rows: seq<Row>, events: seq<Json>, c: int, faults: set<nat>,
                          i: nat, n: nat)
    requires i <= n <= |events| && Staged(mode, rows, events, c, faults, i).None?
    ensures Staged(mode, rows, events, c, faults, n).None?
  {
    var k := i;
    while k < n
      invariant i <= k <= n && Staged(mode, rows, events, c, faults, k).None?
    {
      StagedStaysFailed(mode, rows, events, c, faults, k + 1);
      k := k + 1;
    }
  }

  /** A failed loop stays failed for one more event. */
  lemma StagedStaysFailed(mode: Uniqueness, rows: seq<Row>, events: seq<Json>, c: int, faults: set<nat>, n: nat)
    requires 0 < n <= |events| && Staged(mode, rows, events, c, faults, n - 1).None?
    ensures Staged(mode, rows, events, c, faults, n).None?
  {
  }

  /**
   * Running the file a second time without `--replace` is refused: its
   * first event's order is already taken in its chapter.
   */
  lemma ReingestWithoutReplaceFails(mode: Uniqueness, rows: seq<Row>, events: seq<Json>, c: int, f: TxFaults)
    requires events != [] && Transaction(mode, rows, events, c, false, f).Some?
    ensures var r := Transaction(mode, rows, events, c, false, f).value;
      Transaction(mode, r, events, c, false, f).None?
  {
    var r := Transaction(mode, rows, events, c, false, f).value;
    FirstEventClashes(mode, r, events, c, f.inserts, |rows|);
    StagedPrefixFails(mode, r, events, c, f.inserts, 1, |events|);
  }

  /** A table that already holds the row of the first event refuses that event again. */
  lemma FirstEventClashes(mode: Uniqueness, r: seq<Row>, events: seq<Json>, c: int, faults: set<nat>, k: nat)
    requires events != [] && Storable(events[0], c) && k < |r| && r[k] == EventRow(events[0], c)
    ensures Staged(mode, r, events, c, faults, 1).None?
  {
    assert Clash(mode, r[k], EventRow(events[0], c));
  }

  /**
   * With a key per chapter, a `--replace` of a file whose events are all
   * storable and carry distinct orders commits when no statement faults.
   */
  lemma ReplaceSucceeds(rows: seq<Row>, events: seq<Json>, c: int)
    requires forall i :: 0 <= i < |events| ==> Storable(events[i], c)
    requires forall i, j :: 0 <= i < j < |events| ==> EventRow(events[i], c).order != EventRow(events[j], c).order
    ensures Transaction(PerChapter, rows, events, c, true, TxFaults(false, false, {}, false)).Some?
  {
    StagedSucceeds(WithoutChapter(rows, c), events, c, |events|);
  }

  /**
   * From a table without rows of chapter c, the loop over the first n
   * events succeeds when they are storable, carry distinct orders and
   * nothing faults.
   */
  lemma {:induction false} StagedSucceeds(start: seq<Row>, events: seq<Json>, c: int, n: nat)
    requires n <= |events|
    requires forall i :: 0 <= i < |start| ==> start[i].chapter != Some(c)
    requires forall i :: 0 <= i < n ==> Storable(events[i], c)
    requires forall i, j :: 0 <= i < j < n ==> EventRow(events[i], c).order != EventRow(events[j], c).order
    ensures Staged(PerChapter, start, events, c, {}, n).Some?
  {
    if n > 0 {
      StagedSucceeds(start, events, c, n - 1);
      var staged := start + EventRows(events, c, n - 1);
      var last := EventRow(events[n - 1], c);
      forall i | 0 <= i < |staged|
        ensures !Clash(PerChapter, staged[i], last)
      {
        if i >= |start| {
          assert staged[i] == EventRow(events[i - |start|], c);
        }
      }
    }
  }

  // ---------------------------------------------------------------------------
  // The script

  /** What reading and parsing the file gives. */
  datatype Source = Unreadable | Unparsable | Parsed(value: Json)

  /** How the script ends. */
  datatype Outcome =
    | Usage               // missing --file or --chapter: exit 1
    | NoDatabase          // DB_HOST unset: exit 2
    | RolledBack          // a statement failed: exit 3
    | Crashed             // main rejected before the transaction: exit 4
    | Ingested(count: nat) // exit 0

  /** `process.exit`: 0 exactly when the file was ingested, and a distinct code for each failure. */
  function ExitCode(o: Outcome): (code: int)
    ensures code == 0 <==> o.Ingested?
    ensures 0 <= code <= 4
  {
    match o
    case Usage => 1
    case NoDatabase => 2
    case RolledBack => 3
    case Crashed => 4
    case Ingested(_) => 0
  }

  /** `!file || !chapter`: the file word is missing or empty, or the chapter is NaN or 0. */
  predicate UsageError(argv: seq<string>)
  {
    var file := Arg(argv, "--file");
    var chapter := ParseInt(Arg(argv, "--chapter"));
    file.None? || file.value == "" || chapter.None? || chapter.value == 0
  }

  /** The insert loop on the store, proved against `Staged`. */
  method InsertAll(store: Store, events: seq<Json>, c: int, faults: set<nat>) returns (ok: bool)
    requires store.Valid()
    modifies store`rows
    ensures store.Valid()
    ensures ok == Staged(store.mode, old(store.rows), events, c, faults, |events|).Some?
    ensures ok ==> store.rows == Staged(store.mode, old(store.rows), events, c, faults, |events|).value
  {
    ghost var rows0 := store.rows;
    var i := 0;
    ok := true;
    while i < |events|
      invariant 0 <= i <= |events|
      invariant store.Valid()
      invariant Staged(store.mode, rows0, events, c, faults, i) == Some(store.rows)
    {
      ok := InsertEvent(store, events, c, faults, rows0, i);
      if !ok {
        return;
      }
      i := i + 1;
    }
  }

  /** One pass of the insert loop: event i is inserted, or the whole loop fails. */
  method InsertEvent(store: Store, events: seq<Json>, c: int, faults: set<nat>, ghost rows0: seq<Row>, i: nat)
    returns (ok: bool)
    requires store.Valid() && i < |events|
    requires Staged(store.mode, rows0, events, c, faults, i) == Some(store.rows)
    modifies store`rows
    ensures store.Valid()
    ensures ok ==> Staged(store.mode, rows0, events, c, faults, i + 1) == Some(store.rows)
    ensures !ok ==> Staged(store.mode, rows0, events, c, faults, |events|).None?
  {
    if events[i] == JNull {
      // reading `ev.event_order` throws
      StagedStep(store.mode, rows0, events, c, faults, i, store.rows);
      StagedPrefixFails(store.mode, rows0, events, c, faults, i + 1, |events|);
      return false;
    }
    ghost var before := store.rows;
    ok := store.Insert(ChapterParams(events[i], c), i in faults);
    StagedStep(store.mode, rows0, events, c, faults, i, before);
    if !ok {
      StagedPrefixFails(store.mode, rows0, events, c, faults, i + 1, |events|);
    }
  }

  /** One more event: the loop fails on a null event and otherwise does its INSERT. */
  lemma StagedStep(mode: Uniqueness, rows0: seq<Row>, events: seq<Json>, c: int, faults: set<nat>, i: nat, before: seq<Row>)
    requires i < |events| && Staged(mode, rows0, events, c, faults, i) == Some(before)
    ensures Staged(mode, rows0, events, c, faults, i + 1)
      == if events[i] == JNull then None else TryInsert(mode, before, ChapterParams(events[i], c), i in faults)
  {
  }

  /**
   * The transaction on the store. Rows are rolled back on any failure after
   * BEGIN; a failed BEGIN leaves nothing to undo.
   */
  method RunTransaction(store: Store, events: seq<Json>, c: int, replace: bool, f: TxFaults) returns (ok: bool)
    requires store.Valid()
    modifies store
    ensures store.Valid()
    ensures ok == Transaction(store.mode, old(store.rows), events, c, replace, f).Some?
    ensures store.rows == if ok then Transaction(store.mode, old(store.rows), events, c, replace, f).value else old(store.rows)
  {
    if f.begin {
      return false;
    }
    store.Begin();
    if replace {
      if f.delete {
        store.Rollback();
        return false;
      }
      var _ := store.DeleteChapter(c);
    }
    ok := InsertAll(store, events, c, f.inserts);
    if !ok || f.commit {
      store.Rollback();
      return false;
    }
    store.Commit();
  }

  /**
   * The whole script. `dbHost` is DB_HOST; `connectFails` is a failure of
   * `pool.getConnection()`.
   */
  method Run(store: Store, argv: seq<string>, dbHost: Option<string>, source: Source,
             connectFails: bool, f: TxFaults) returns (out: Outcome)
    requires store.Valid()
    modifies store
    ensures store.Valid()
    ensures out.Usage? <==> UsageError(argv)
    ensures out.NoDatabase? <==> !UsageError(argv) && (dbHost.None? || dbHost.value == "")
    ensures out.Crashed? <==>
      (!UsageError(argv) && dbHost.Some? && dbHost.value != "" && (!source.Parsed? || !source.value.JArr? || connectFails))
    ensures out.Ingested? ==>
      (source.Parsed? && source.value.JArr? && out.count == |source.value.items|
       && Transaction(store.mode, old(store.rows), source.value.items, ParseInt(Arg(argv, "--chapter")).value,
                      "--replace" in argv, f) == Some(store.rows))
    ensures out.RolledBack? ==>
      (source.Parsed? && source.value.JArr?
       && Transaction(store.mode, old(store.rows), source.value.items, ParseInt(Arg(argv, "--chapter")).value,
                      "--replace" in argv, f).None?)
    ensures !out.Ingested? ==> store.rows == old(store.rows)
  {
    if UsageError(argv) {
      return Usage;
    }
    var c := ParseInt(Arg(argv, "--chapter")).value;
    if dbHost.None? || dbHost.value == "" {
      return NoDatabase;
    }
    if !source.Parsed? || !source.value.JArr? || connectFails {
      return Crashed;
    }
    var events := source.value.items;
    var ok := RunTransaction(store, events, c, "--replace" in argv, f);
    if !ok {
      return RolledBack;
    }
    return Ingested(|events|);
  }
}
