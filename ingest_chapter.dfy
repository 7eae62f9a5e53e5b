/**
 * ingest_chapter.js: appends the events of a chapter file after the highest
 * `event_order` already stored, numbering them max+1, max+2, ... in file
 * order. There is no transaction: when any database step fails, the rows
 * inserted so far stay, and the script writes every event of the file as a
 * literal INSERT statement to a fallback SQL file instead, doubling the
 * single quotes of the quoted text fields.
 */
module IngestChapter {
  import opened JsValues
  import opened EventStore
  import opened DbReplies

  // ---------------------------------------------------------------------------
  // Order allocation and row mapping

  /**
   * `(rows && rows.length && rows[0].max_order) ? rows[0].max_order : 0`:
   * the baseline read out of the reply to the MAX query.
   */
  function Baseline(reply: seq<Json>): Json
  {
    if |reply| > 0 && Truthy(Prop(reply[0], "max_order")) then Prop(reply[0], "max_order").value else Num(0)
  }

  /** The baseline is the largest stored order, and 0 on an empty store. */
  lemma BaselineIsMax(rows: seq<Row>)
    ensures Baseline(MaxOrderReply(rows, "max_order")) == Num(MaxOrder(rows))
    ensures rows == [] ==> Baseline(MaxOrderReply(rows, "max_order")) == Num(0)
  {
    var reply := MaxOrderReply(rows, "max_order");
    if MaxOrder(rows) == 0 {
      assert !Truthy(Prop(reply[0], "max_order"));
    }
  }

  /** The statement parameters for event `ev` inserted with the allocated order `order`. */
  function AllocatedParams(ev: Json, order: int): InsertParams
  {
    InsertParams(
      None,
      Num(order),
      Or(Prop(ev, "delay"), Num(0)),
      Bind(Prop(ev, "action")),
      Or(Prop(ev, "actor"), JNull),
      Or(Prop(ev, "content"), Or(Prop(ev, "static_text"), JNull)),
      JNull,
      JNull,
      Truthy(Prop(ev, "is_generated")),
      Or(Prop(ev, "generated_content"), JNull),
      Or(Prop(ev, "misc_data"), JNull))
  }

  /**
   * What the row mapping promises: the allocated order, a `delay` that is
   * never NULL (a falsy delay becomes 0), the text taken from `content`
   * before `static_text`, no voice and no prompt. The statement passes the
   * column checks exactly when the event has a non-null `action`.
   */
  lemma RowMapping(ev: Json, order: int)
    ensures var p := AllocatedParams(ev, order);
      && p.chapter.None? && IsInteger(p.order) && IntOf(p.order) == order
      && p.delay != JNull
      && (Truthy(Prop(ev, "delay")) ==> Some(p.delay) == Prop(ev, "delay"))
      && (!Truthy(Prop(ev, "delay")) ==> p.delay == Num(0))
      && (Truthy(Prop(ev, "content")) ==> Some(p.staticText) == Prop(ev, "content"))
      && (!Truthy(Prop(ev, "content")) && Truthy(Prop(ev, "static_text")) ==> Some(p.staticText) == Prop(ev, "static_text"))
      && (!Truthy(Prop(ev, "content")) && !Truthy(Prop(ev, "static_text")) ==> p.staticText == JNull)
      && p.voice == JNull && p.apiPrompt == JNull
      && (Admissible(p) <==> !Rejected(ev))
  {
    var d := Prop(ev, "delay");
    if !Truthy(d) {
      assert Or(d, Num(0)) == Num(0);
    } else {
      assert d.value != JNull;
    }
  }

  /** A non-null event yields an admissible statement exactly when it is insertable. */
  lemma AdmissibleIffInsertable(ev: Json, order: int)
    requires ev != JNull
    ensures Admissible(AllocatedParams(ev, order)) <==> Insertable(ev)
  {
    RowMapping(ev, order);
  }

  /** The database refuses the row of this event: its `action` is missing or null (a NOT NULL column). */
  predicate Rejected(ev: Json)
  {
    Bind(Prop(ev, "action")) == JNull
  }

  /** Event `ev` can be inserted: reading its properties does not throw, and the row passes the column checks. */
  predicate Insertable(ev: Json)
  {
    ev != JNull && !Rejected(ev)
  }

  /** Inserting the event at position `i` fails: it is null, it is refused, or the database errs. */
  predicate Fails(ev: Json, fault: bool)
  {
    !Insertable(ev) || fault
  }

  /** The number of events inserted before the first failure (all of them when none fails). */
  function Stop(data: seq<Json>, faults: set<nat>): (k: nat)
    ensures k <= |data|
    ensures forall i :: 0 <= i < k ==> !Fails(data[i], i in faults)
    ensures k < |data| ==> Fails(data[k], k in faults)
  {
    if data == [] then 0
    else
      var n := |data| - 1;
      var s := Stop(data[..n], faults);
      if s < n then s
      else if Fails(data[n], n in faults) then n
      else |data|
  }

  /** Short of the stopping point, the insert at n fails exactly when n is the stopping point. */
  lemma StopAt(data: seq<Json>, faults: set<nat>, n: nat)
    requires n < |data| && n <= Stop(data, faults)
    ensures Fails(data[n], n in faults) <==> n == Stop(data, faults)
  {
  }

  /** The row an insertable event becomes under the allocated order. */
  function AllocatedRow(ev: Json, order: int): (r: Row)
    requires Insertable(ev)
    ensures Admissible(AllocatedParams(ev, order)) && r == RowOf(AllocatedParams(ev, order))
    ensures r.order == order && r.chapter.None?
  {
    RowMapping(ev, order);
    RowOf(AllocatedParams(ev, order))
  }

  /** The rows the first |data| events become, numbered from base + 1. */
  function AllocatedRows(data: seq<Json>, base: int, n: nat): (r: seq<Row>)
    requires n <= |data| && forall i :: 0 <= i < n ==> Insertable(data[i])
    ensures |r| == n
    ensures forall i :: 0 <= i < n ==> r[i] == AllocatedRow(data[i], base + i + 1)
    ensures forall i :: 0 <= i < n ==> r[i].order == base + i + 1 && r[i].chapter.None?
  {
    if n == 0 then [] else AllocatedRows(data, base, n - 1) + [AllocatedRow(data[n - 1], base + n)]
  }

  /**
   * The allocated orders are gap-free and ascending, all above every order
   * already stored, so the appended rows never break the uniqueness key,
   * whichever key the table has.
   */
  lemma {:induction false} AllocationFits(mode: Uniqueness, rows: seq<Row>, data: seq<Json>)
    requires Consistent(mode, rows)
    requires forall i :: 0 <= i < |data| ==> Insertable(data[i])
    ensures var added := AllocatedRows(data, MaxOrder(rows), |data|);
      && (forall i :: 0 <= i < |added| ==> added[i].order == MaxOrder(rows) + i + 1)
      && (forall i, j :: 0 <= i < |rows| && 0 <= j < |added| ==> rows[i].order < added[j].order)
      && Consistent(mode, rows + added)
  {
    var added := AllocatedRows(data, MaxOrder(rows), |data|);
    var all := rows + added;
    forall i, j | 0 <= i < j < |all|
      ensures !Clash(mode, all[i], all[j])
    {
      if j >= |rows| {
        assert all[j].order == MaxOrder(rows) + (j - |rows|) + 1;
        if i >= |rows| {
          assert all[i].order == MaxOrder(rows) + (i - |rows|) + 1;
        } else {
          assert all[i].order <= MaxOrder(rows);
        }
      } else {
        assert all[i] == rows[i] && all[j] == rows[j];
      }
    }
  }

  /** On an empty store the events are numbered 1 to N. */
  lemma EmptyStoreNumbersFromOne(data: seq<Json>)
    requires forall i :: 0 <= i < |data| ==> Insertable(data[i])
    ensures forall i :: 0 <= i < |data| ==> AllocatedRows(data, MaxOrder([]), |data|)[i].order == i + 1
  {
    assert MaxOrder([]) == 0;
  }

  // ---------------------------------------------------------------------------
  // The fallback SQL file

  /** `.replace(/'/g, "''")`: every single quote doubled. */
  function Escape(s: string): (t: string)
    ensures |t| >= |s|
  {
    if s == [] then []
    else (if s[0] == '\'' then "''" else [s[0]]) + Escape(s[1..])
  }

  /** Undoing the doubling; None when the text holds a single quote that is not doubled. */
  function Unescape(t: string): Option<string>
  {
    if t == [] then Some([])
    else if t[0] != '\'' then
      var rest := Unescape(t[1..]);
      if rest.Some? then Some([t[0]] + rest.value) else None
    else if |t| >= 2 && t[1] == '\'' then
      var rest := Unescape(t[2..]);
      if rest.Some? then Some("'" + rest.value) else None
    else None
  }

  /** Undoing the doubling recovers the original text. */
  lemma {:induction false} UnescapeEscape(s: string)
    ensures Unescape(Escape(s)) == Some(s)
  {
    if s != [] {
      UnescapeEscape(s[1..]);
      var head := if s[0] == '\'' then "''" else [s[0]];
      assert Escape(s) == head + Escape(s[1..]);
      if s[0] == '\'' {
        assert Escape(s)[2..] == Escape(s[1..]);
      } else {
        assert Escape(s)[1..] == Escape(s[1..]);
      }
      assert s == [s[0]] + s[1..];
    }
  }

  /** Every text the doubling accepts back is the escape of exactly one text. */
  lemma {:induction false} EscapeUnescape(t: string)
    requires Unescape(t).Some?
    ensures Escape(Unescape(t).value) == t
    decreases |t|
  {
    if t != [] {
      if t[0] != '\'' {
        EscapeUnescape(t[1..]);
        var s := Unescape(t).value;
        assert s[0] == t[0] && s[1..] == Unescape(t[1..]).value;
        assert t == [t[0]] + t[1..];
      } else {
        EscapeUnescape(t[2..]);
        var s := Unescape(t).value;
        assert s[0] == '\'' && s[1..] == Unescape(t[2..]).value;
        assert t == "''" + t[2..];
      }
    }
  }

  /**
   * `(v || '').replace(...)`: the text of a field, "" when it is falsy; None
   * when the field is a truthy non-string, whose missing `replace` throws.
   */
  function TextOf(v: Option<Json>): (r: Option<string>)
    ensures !Truthy(v) ==> r == Some("")
    ensures Truthy(v) ==> (r.Some? <==> v.value.JStr?)
  {
    var w := Or(v, JStr(""));
    if w.JStr? then Some(w.s) else None
  }

  /** The values one line of the fallback file is made of. */
  datatype FallbackLine = FallbackLine(
    order: Option<Json>,   // the authored `event_order`, None printed as NULL
    delay: Json,
    action: Option<Json>,  // printed inside quotes, without escaping
    actor: string,         // escaped
    content: string,       // escaped
    isGenerated: bool,
    misc: string)          // the escaped serialisation of `misc_data`

  /**
   * The line for one event, or None when building it throws: the event is
   * null, or `content`/`static_text`/`actor` is a truthy non-string.
   * `stringify` is `JSON.stringify`.
   */
  function LineOf(ev: Json, stringify: Json -> string): Option<FallbackLine>
  {
    if ev == JNull then None
    else
      var content := TextOf(Some(Or(Prop(ev, "content"), Or(Prop(ev, "static_text"), JStr("")))));
      var actor := TextOf(Prop(ev, "actor"));
      if content.None? || actor.None? then None
      else
        Some(FallbackLine(
          if Truthy(Prop(ev, "event_order")) then Prop(ev, "event_order") else None,
          Or(Prop(ev, "delay"), Num(0)),
          Prop(ev, "action"),
          Escape(actor.value),
          Escape(content.value),
          Truthy(Prop(ev, "is_generated")),
          Escape(stringify(Or(Prop(ev, "misc_data"), JNull)))))
  }

  /** `data.map(...)` over the first n events: their fallback lines, or None when building any of them throws. */
  function FallbackLines(data: seq<Json>, stringify: Json -> string, n: nat): (r: Option<seq<FallbackLine>>)
    requires n <= |data|
    ensures r.Some? <==> forall i :: 0 <= i < n ==> LineOf(data[i], stringify).Some?
    ensures r.Some? ==> |r.value| == n
    ensures r.Some? ==> forall i :: 0 <= i < n ==> Some(r.value[i]) == LineOf(data[i], stringify)
  {
    if n == 0 then Some([])
    else
      var init := FallbackLines(data, stringify, n - 1);
      var last := LineOf(data[n - 1], stringify);
      if init.Some? && last.Some? then Some(init.value + [last.value]) else None
  }

  /**
   * A line of the fallback file keeps what the event authored: its own
   * order (not an allocated one) or NULL, its action, and its content
   * (or static text), actor and serialised misc data with every quote doubled, so that undoing the doubling gives them back.
   */
  lemma FallbackKeepsAuthoredValues(ev: Json, stringify: Json -> string)
    requires LineOf(ev, stringify).Some?
    ensures var l := LineOf(ev, stringify).value;
      && (l.order.Some? <==> Truthy(Prop(ev, "event_order")))
      && (l.order.Some? ==> l.order == Prop(ev, "event_order"))
      && l.action == Prop(ev, "action")
      && Unescape(l.content) == TextOf(Some(Or(Prop(ev, "content"), Or(Prop(ev, "static_text"), JStr("")))))
      && Unescape(l.actor) == TextOf(Prop(ev, "actor"))
      && Unescape(l.misc) == Some(stringify(Or(Prop(ev, "misc_data"), JNull)))
  {
    UnescapeEscape(TextOf(Some(Or(Prop(ev, "content"), Or(Prop(ev, "static_text"), JStr(""))))).value);
    UnescapeEscape(TextOf(Prop(ev, "actor")).value);
    UnescapeEscape(stringify(Or(Prop(ev, "misc_data"), JNull)));
  }

  // ---------------------------------------------------------------------------
  // insertEvents

  datatype Outcome =
    | Inserted                                // resolves true, exit 0
    | WroteFallback(lines: seq<FallbackLine>) // resolves false, exit 1
    | FallbackCrashed                         // the catch block itself threw: unhandled rejection

  /** `process.exit(ok ? 0 : 1)`: 0 exactly when every insert went through. */
  function ExitCode(o: Outcome): (code: int)
    ensures code == 0 <==> o.Inserted?
    ensures code == 0 || code == 1
  {
    if o.Inserted? then 0 else 1
  }

  /**
   * What the catch block produces: the fallback lines, unless building one
   * throws or `writeFileSync` fails (`writeFails`), which throws out of the
   * catch.
   */
  function Fallback(data: seq<Json>, stringify: Json -> string, writeFails: bool): (r: Outcome)
    ensures r.WroteFallback? <==> !writeFails && forall i :: 0 <= i < |data| ==> LineOf(data[i], stringify).Some?
    ensures r.WroteFallback? ==> |r.lines| == |data|
    ensures r.WroteFallback? ==> forall i :: 0 <= i < |data| ==> Some(r.lines[i]) == LineOf(data[i], stringify)
    ensures !r.WroteFallback? ==> r == FallbackCrashed
  {
    var lines := FallbackLines(data, stringify, |data|);
    if lines.Some? && !writeFails then WroteFallback(lines.value) else FallbackCrashed
  }

  /** Every order in `rows` followed by the rows allocated after `base` to n events is at most base + n. */
  lemma {:induction false} AllocatedBelow(rows: seq<Row>, data: seq<Json>, base: int, n: nat)
    requires forall j :: 0 <= j < |rows| ==> rows[j].order <= base
    requires n <= |data| && forall j :: 0 <= j < n ==> Insertable(data[j])
    ensures var all := rows + AllocatedRows(data, base, n);
      forall j :: 0 <= j < |all| ==> all[j].order <= base + n
  {
    var all := rows + AllocatedRows(data, base, n);
    forall j | 0 <= j < |all|
      ensures all[j].order <= base + n
    {
      if j >= |rows| {
        assert all[j] == AllocatedRows(data, base, n)[j - |rows|];
      }
    }
  }

  /**
   * One INSERT of a non-null event under an order above every stored one:
   * it succeeds exactly when the event does not fail, and then appends the
   * event's row.
   */
  method InsertOne(store: Store, ev: Json, order: int, fault: bool) returns (ok: bool)
    requires store.Valid() && ev != JNull
    requires forall j :: 0 <= j < |store.rows| ==> store.rows[j].order < order
    modifies store`rows
    ensures store.Valid()
    ensures ok <==> !Fails(ev, fault)
    ensures ok ==> store.rows == old(store.rows) + [AllocatedRow(ev, order)]
    ensures !ok ==> store.rows == old(store.rows)
  {
    var p := AllocatedParams(ev, order);
    AdmissibleIffInsertable(ev, order);
    if Admissible(p) {
      assert RowOf(p).order == order;
      assert Fits(store.mode, store.rows, RowOf(p));
    }
    ok := store.Insert(p, fault);
  }

  /**
   * The INSERT of event i after events 0..i-1 went in under base+1..base+i:
   * it fails exactly when the event does, and on success the store holds
   * the rows of events 0..i.
   */
  method InsertNext(store: Store, data: seq<Json>, i: nat, base: int, ghost rows0: seq<Row>, fault: bool)
    returns (ok: bool)
    requires store.Valid() && i < |data|
    requires forall j :: 0 <= j < |rows0| ==> rows0[j].order <= base
    requires forall j :: 0 <= j < i ==> Insertable(data[j])
    requires store.rows == rows0 + AllocatedRows(data, base, i)
    modifies store`rows
    ensures store.Valid()
    ensures ok <==> !Fails(data[i], fault)
    ensures ok ==> store.rows == rows0 + AllocatedRows(data, base, i + 1)
    ensures !ok ==> store.rows == old(store.rows)
  {
    if data[i] == JNull {
      // reading `ev.delay` throws
      return false;
    }
    AllocatedBelow(rows0, data, base, i);
    ok := InsertOne(store, data[i], base + i + 1, fault);
    if ok {
      AppendAssociates(rows0, AllocatedRows(data, base, i), AllocatedRow(data[i], base + i + 1));
    }
  }

  /**
   * The insert loop of `insertEvents`, numbering from base + 1: it stops at
   * the first event that fails and returns how many went in.
   */
  method InsertAll(store: Store, data: seq<Json>, base: int, insertFaults: set<nat>) returns (n: nat)
    requires store.Valid()
    requires forall j :: 0 <= j < |store.rows| ==> store.rows[j].order <= base
    modifies store`rows
    ensures store.Valid()
    ensures n == Stop(data, insertFaults)
    ensures store.rows == old(store.rows) + AllocatedRows(data, base, n)
  {
    ghost var rows0 := store.rows;
    n := 0;
    while n < |data|
      invariant n <= Stop(data, insertFaults)
      invariant store.Valid()
      invariant store.rows == rows0 + AllocatedRows(data, base, n)
    {
      StopAt(data, insertFaults, n);
      var ok := InsertNext(store, data, n, base, rows0, n in insertFaults);
      if !ok {
        return;
      }
      n := n + 1;
    }
  }

  /**
   * `insertEvents`. `connectFails` and `selectFails` are failures of the pool
   * and of the MAX query; `insertFaults` holds the positions whose INSERT the
   * database refuses for reasons of its own; `writeFails` is a failure of
   * the fallback file write.
   */
  method InsertEvents(store: Store, data: seq<Json>, connectFails: bool, selectFails: bool,
                      insertFaults: set<nat>, writeFails: bool, stringify: Json -> string) returns (out: Outcome)
    requires store.Valid()
    modifies store`rows
    ensures store.Valid()
    ensures connectFails || selectFails ==> store.rows == old(store.rows)
    ensures !connectFails && !selectFails ==>
      var k := Stop(data, insertFaults);
      store.rows == old(store.rows) + AllocatedRows(data, MaxOrder(old(store.rows)), k)
    ensures out.Inserted? <==> !connectFails && !selectFails && Stop(data, insertFaults) == |data|
    ensures !out.Inserted? ==> out == Fallback(data, stringify, writeFails)
  {
    if connectFails || selectFails {
      return Fallback(data, stringify, writeFails);
    }
    var reply := MaxOrderReply(store.rows, "max_order");
    var maxOrder := Baseline(reply);
    BaselineIsMax(store.rows);
    var n := InsertAll(store, data, IntOf(maxOrder), insertFaults);
    if n < |data| {
      return Fallback(data, stringify, writeFails);
    }
    return Inserted;
  }

  /** The values `for (const ev of s)` visits in a string: its characters, each a one-character string. */
  function Characters(s: string): (r: seq<Json>)
    ensures |r| == |s| && forall i :: 0 <= i < |s| ==> r[i] == JStr([s[i]])
  {
    seq(|s|, i requires 0 <= i < |s| => JStr([s[i]]))
  }

  /**
   * The script on whatever `JSON.parse` made of the events file. An array is
   * ingested as above. A string is iterated character by character, and if
   * that fails the catch block's `data.map` throws, strings having no `map`.
   * Any other value is not iterable: the loop throws before its first insert
   * and `data.map` throws in the catch.
   */
  method IngestPayload(store: Store, payload: Json, connectFails: bool, selectFails: bool,
                       insertFaults: set<nat>, writeFails: bool, stringify: Json -> string) returns (out: Outcome)
    requires store.Valid()
    modifies store`rows
    ensures store.Valid()
    ensures payload.JArr? && !connectFails && !selectFails ==>
      var k := Stop(payload.items, insertFaults);
      store.rows == old(store.rows) + AllocatedRows(payload.items, MaxOrder(old(store.rows)), k)
    ensures payload.JArr? ==>
      && (out.Inserted? <==> !connectFails && !selectFails && Stop(payload.items, insertFaults) == |payload.items|)
      && (!out.Inserted? ==> out == Fallback(payload.items, stringify, writeFails))
    ensures payload.JStr? && !connectFails && !selectFails ==>
      var k := Stop(Characters(payload.s), insertFaults);
      store.rows == old(store.rows) + AllocatedRows(Characters(payload.s), MaxOrder(old(store.rows)), k)
    ensures payload.JStr? ==>
      && (out.Inserted? <==> !connectFails && !selectFails && Stop(Characters(payload.s), insertFaults) == |payload.s|)
      && (!out.Inserted? ==> out == FallbackCrashed)
    ensures !payload.JArr? && !payload.JStr? ==> out == FallbackCrashed && store.rows == old(store.rows)
    ensures connectFails || selectFails ==> store.rows == old(store.rows)
  {
    match payload
    case JArr(items) =>
      out := InsertEvents(store, items, connectFails, selectFails, insertFaults, writeFails, stringify);
    case JStr(text) =>
      out := InsertEvents(store, Characters(text), connectFails, selectFails, insertFaults, writeFails, stringify);
      if !out.Inserted? {
        out := FallbackCrashed;
      }
    case _ =>
      out := FallbackCrashed;
  }
}
