/**
 * `POST /api/audioLogs/batch` in server_full.js: synthesises up to ten audio
 * logs one after the other and, when asked to and a database is
 * configured, records each synthesised log as an `audioLog` event under the
 * next free `event_order`. Every entry gets a result, in request order; a
 * failing entry does not stop the ones after it.
 */
module AudioBatch {
  import opened JsValues
  import opened Text
  import opened EventStore
  import opened DbReplies
  import opened AudioFiles

  // ---------------------------------------------------------------------------
  // Synthesising one entry

  /**
   * What the handler cannot see: whether a TTS key is configured, the
   * public URL prefix of the audio directory, the entries whose synthesis
   * fails (the TTS call, its reply or the file write), the entries whose
   * INSERT the database refuses, and the default file name the handler
   * makes up for entry i from the clock and `Math.random`.
   */
  datatype Env = Env(
    hasKey: bool,
    publicPath: string,
    synthFaults: set<nat>,
    insertFaults: set<nat>,
    generated: nat -> string)

  /** Why an entry failed. */
  datatype Failure =
    | TextRequired  // missing, empty or all white space
    | NotAString    // a truthy `text` or `fileName` that is not a string: a TypeError
    | SynthFailed   // the TTS call, its reply or the file write failed

  /**
   * `synthOne(entry)`: the name of the written file, the `voice` the entry
   * asked for and whether the file is the silent stub.
   */
  datatype Synth =
    | Failed(why: Failure)
    | Synthesized(name: string, voice: Json, stub: bool)

  /**
   * The voice the TTS request of a synthesised entry names, from the voice
   * it kept; None for the stub, which makes no request.
   */
  function TtsVoice(s: Synth): Option<string>
    requires s.Synthesized?
  {
    if s.stub then None else Some(VoiceName(Some(s.voice)))
  }

  /** `entry || {}` has the properties of the entry: a falsy entry has none. */
  lemma DefaultedEntry(entry: Json, key: string)
    ensures Prop(Or(Some(entry), JObj(map[])), key) == Prop(entry, key)
  {
  }

  /** `synthOne(entry)` for the entry at position i. */
  function SynthOne(entry: Json, i: nat, env: Env): (r: Synth)
    ensures r.Synthesized? ==> '/' !in r.name && (r.stub <==> !env.hasKey)
  {
    var e := Or(Some(entry), JObj(map[]));
    var usable := TextUsable(Prop(e, "text"));
    if usable.None? then Failed(NotAString)
    else if !usable.value then Failed(TextRequired)
    else
      var name := SpeechFileName(Prop(e, "fileName"), env.generated(i));
      if name.None? then Failed(NotAString)
      else if i in env.synthFaults then Failed(SynthFailed)
      else
        SanitizedIsSafe(Or(Prop(e, "fileName"), JStr(env.generated(i))).s);
        Synthesized(name.value, RequestedVoice(Prop(e, "voice")), !env.hasKey)
  }

  /**
   * An entry is synthesised exactly when its text is a string with
   * something besides white space, its `fileName` is absent, falsy or a
   * string, and neither the TTS call nor the write fails; it is refused
   * with "text required" exactly when the text is falsy or blank. The
   * synthesised entry keeps the requested voice, `'Charon'` by default, and
   * asks the TTS service for the voice that name maps to.
   */
  lemma SynthOneOutcome(entry: Json, i: nat, env: Env)
    ensures var r := SynthOne(entry, i, env);
      var text := Prop(entry, "text");
      && (r.Synthesized? <==>
           (text.Some? && text.value.JStr? && Trim(text.value.s) != []
            && (!Truthy(Prop(entry, "fileName")) || Prop(entry, "fileName").value.JStr?)
            && i !in env.synthFaults))
      && (r.Failed? && r.why == TextRequired <==>
           (!Truthy(text) || (text.value.JStr? && Trim(text.value.s) == [])))
      && (r.Synthesized? ==> r.voice == RequestedVoice(Prop(entry, "voice")))
      && (r.Synthesized? ==> (TtsVoice(r).Some? <==> env.hasKey))
      && (r.Synthesized? && env.hasKey ==> TtsVoice(r) == Some(VoiceName(Prop(entry, "voice"))))
  {
    DefaultedEntry(entry, "text");
    DefaultedEntry(entry, "fileName");
    DefaultedEntry(entry, "voice");
  }

  /** Whether entry i of the batch synthesises. */
  predicate Synthesizes(entries: seq<Json>, i: nat, env: Env)
    requires i < |entries|
  {
    SynthOne(entries[i], i, env).Synthesized?
  }

  // ---------------------------------------------------------------------------
  // Where the orders start

  /**
   * `nextOrder = maxOrder + 1`, with the maximum read out of the reply to
   * `SELECT COALESCE(MAX(event_order), 0) AS maxOrder` as `rows[0].maxOrder`.
   */
  function NextOrder(rows: seq<Row>): (next: Option<int>)
    ensures next == Some(MaxOrder(rows) + 1)
  {
    RowReadYieldsValue("maxOrder", Num(MaxOrder(rows)));
    var read := RowRead(MaxOrderReply(rows, "maxOrder"), "maxOrder");
    if read.Bound? && read.value.Some? && IsInteger(read.value.value) then Some(IntOf(read.value.value) + 1) else None
  }

  /**
   * The same read as the handler writes it, `const [[{ maxOrder }]] = ...`:
   * the destructuring throws, and the catch block leaves `nextOrder` null.
   */
  function NextOrderAsWritten(rows: seq<Row>): Option<int>
  {
    var read := NestedRead(MaxOrderReply(rows, "maxOrder"), "maxOrder");
    if read.Bound? && read.value.Some? && IsInteger(read.value.value) then Some(IntOf(read.value.value) + 1) else None
  }

  /** The connection and the first order the loop starts with. */
  datatype Start = Start(conn: bool, next: Option<int>)

  /**
   * The block before the loop: with `includeEvents` truthy and a pool, it
   * takes a connection and reads the maximum order; a failure of either is
   * caught and leaves what was obtained so far.
   */
  function StartWith(includeEvents: Option<Json>, pool: bool, connectFails: bool, selectFails: bool,
                     rows: seq<Row>, asWritten: bool): (s: Start)
    ensures s.conn <==> Truthy(includeEvents) && pool && !connectFails
    ensures s.next.Some? ==> s.conn
  {
    if !(Truthy(includeEvents) && pool) || connectFails then Start(false, None)
    else if selectFails then Start(true, None)
    else Start(true, if asWritten then NextOrderAsWritten(rows) else NextOrder(rows))
  }

  /** With the read corrected, every obtained connection whose SELECT succeeds yields an order above every stored one. */
  lemma StartAboveStored(includeEvents: Option<Json>, pool: bool, connectFails: bool, selectFails: bool, rows: seq<Row>)
    ensures var s := StartWith(includeEvents, pool, connectFails, selectFails, rows, false);
      (s.next.Some? <==> s.conn && !selectFails)
      && (s.next.Some? ==> Below(rows, s.next.value))
      && (s.next.Some? && rows == [] ==> s.next.value == 1)
  {
  }

  /**
   * As written, the handler never has an order to start from, whatever the
   * table holds, though the connection is taken.
   */
  lemma AsWrittenNeverAllocates(includeEvents: Option<Json>, pool: bool, connectFails: bool, selectFails: bool, rows: seq<Row>)
    ensures StartWith(includeEvents, pool, connectFails, selectFails, rows, true).next.None?
  {
    NestedReadThrowsOnRows("maxOrder", Num(MaxOrder(rows)));
  }

  // ---------------------------------------------------------------------------
  // Order allocation

  /** Which of the first n entries are synthesised, in request order. */
  function Made(entries: seq<Json>, env: Env, n: nat): (made: seq<bool>)
    requires n <= |entries|
    ensures |made| == n
  {
    if n == 0 then [] else Made(entries, env, n - 1) + [Synthesizes(entries, n - 1, env)]
  }

  /** The k-th flag says whether the entry at position k is synthesised. */
  lemma {:induction false} MadeAt(entries: seq<Json>, env: Env, n: nat, k: nat)
    requires k < n <= |entries|
    ensures Made(entries, env, n)[k] == Synthesizes(entries, k, env)
  {
    if k < n - 1 {
      MadeAt(entries, env, n - 1, k);
    }
  }

  /**
   * The number of orders the first n entries consume: a failed entry
   * consumes none, a synthesised one exactly one, whether or not its
   * INSERT then fails.
   */
  function Consumed(made: seq<bool>, n: nat): (c: nat)
    requires n <= |made|
    ensures c <= n
  {
    if n == 0 then 0 else Consumed(made, n - 1) + if made[n - 1] then 1 else 0
  }

  /**
   * The order the entry at position i is inserted under: `nextOrder++` runs
   * for every synthesised entry, so one more for each synthesised entry
   * before it, whether or not its INSERT succeeded.
   */
  function OrderAt(entries: seq<Json>, i: nat, env: Env, next: int): int
    requires i <= |entries|
  {
    next + Consumed(Made(entries, env, |entries|), i)
  }

  /**
   * The statement that records a synthesised entry: no chapter, a delay of
   * 500, the action `audioLog`, the entry's actor, text and voice or NULL,
   * no prompt, and `JSON.stringify(null)` as the misc data.
   */
  function AudioLogParams(entry: Json, order: int): (p: InsertParams)
    ensures Admissible(p) && RowOf(p).order == order && RowOf(p).chapter.None?
    ensures p.delay == Num(500) && p.action == JStr("audioLog") && p.misc == JNull
    ensures p.apiPrompt == JNull && !p.isGenerated
    ensures p.staticText == (if Truthy(Prop(entry, "text")) then Prop(entry, "text").value else JNull)
    ensures p.voice == (if Truthy(Prop(entry, "voice")) then Prop(entry, "voice").value else JNull)
    ensures p.actor == (if Truthy(Prop(entry, "actor")) then Prop(entry, "actor").value else JNull)
  {
    InsertParams(
      None, Num(order), Num(500), JStr("audioLog"),
      Or(Prop(entry, "actor"), JNull),
      Or(Prop(entry, "text"), JNull),
      Or(Prop(entry, "voice"), JNull),
      JNull, false, JNull, JNull)
  }

  // ---------------------------------------------------------------------------
  // The results

  /** One element of `results`: `{ ok: false, error }` or `{ ok: true, textPreview, url, voice, stub?, insertedEventOrder? }`. */
  datatype ItemResult =
    | ItemFailed(why: Failure)
    | ItemDone(preview: string, url: string, voice: Json, stub: bool, insertedOrder: Option<int>)

  /** `(entry.text || '').slice(0, 80)`. */
  function Preview(text: string): (p: string)
    ensures |p| == if |text| <= 80 then |text| else 80
    ensures p == text[..|p|]
  {
    if |text| <= 80 then text else text[..80]
  }

  /**
   * The result for the entry at position i when orders are allocated from
   * `next` (None when no INSERT is attempted).
   */
  function ItemAt(entries: seq<Json>, i: nat, env: Env, next: Option<int>): ItemResult
    requires i < |entries|
  {
    match SynthOne(entries[i], i, env)
    case Failed(why) => ItemFailed(why)
    case Synthesized(name, voice, stub) =>
      ItemDone(Preview(Prop(entries[i], "text").value.s), env.publicPath + "/" + name, voice, stub,
               if next.Some? && i !in env.insertFaults then Some(OrderAt(entries, i, env, next.value)) else None)
  }

  /**
   * An entry's result reports success exactly when it is synthesised,
   * carrying its URL under the public path and the first 80 characters of
   * its text, and it reports an order exactly when an INSERT is attempted
   * and succeeds, the order its entry consumed; a failed entry reports the
   * reason synthesis gave.
   */
  lemma ItemOutcome(entries: seq<Json>, i: nat, env: Env, next: Option<int>)
    requires i < |entries|
    ensures var r := ItemAt(entries, i, env, next);
      && (r.ItemDone? <==> Synthesizes(entries, i, env))
      && (r.ItemFailed? ==> r.why == SynthOne(entries[i], i, env).why)
      && (r.ItemDone? ==> r.url == env.publicPath + "/" + SynthOne(entries[i], i, env).name)
      && (r.ItemDone? ==> r.preview == Preview(Prop(entries[i], "text").value.s))
      && (r.ItemDone? ==> (r.insertedOrder.Some? <==> next.Some? && i !in env.insertFaults))
      && (r.ItemDone? && r.insertedOrder.Some? ==> r.insertedOrder.value == OrderAt(entries, i, env, next.value))
  {
  }

  /** The results of the entries before position n, in request order. */
  function Items(entries: seq<Json>, n: nat, env: Env, next: Option<int>): (r: seq<ItemResult>)
    requires n <= |entries|
    ensures |r| == n
  {
    if n == 0 then [] else Items(entries, n - 1, env, next) + [ItemAt(entries, n - 1, env, next)]
  }

  /**
   * The rows the loop adds to the table for the first n entries, where
   * `made` says which entries were synthesised and `faults` which INSERTs
   * fail: one row per synthesised entry whose INSERT succeeds, under the
   * order its entry consumed.
   */
  function AddedRows(entries: seq<Json>, made: seq<bool>, faults: set<nat>, next: Option<int>, n: nat): (r: seq<Row>)
    requires |made| == |entries| && n <= |entries|
    ensures |r| <= n
    ensures next.None? ==> r == []
  {
    if n == 0 then []
    else
      var init := AddedRows(entries, made, faults, next, n - 1);
      if next.Some? && made[n - 1] && n - 1 !in faults then
        init + [RowOf(AudioLogParams(entries[n - 1], next.value + Consumed(made, n - 1)))]
      else init
  }

  // ---------------------------------------------------------------------------
  // What the allocation promises

  /** The consumed count only grows along the entries. */
  lemma {:induction false} ConsumedPrefix(made: seq<bool>, i: nat, j: nat)
    requires i <= j <= |made|
    ensures Consumed(made, i) <= Consumed(made, j)
    decreases j - i
  {
    if i < j {
      ConsumedPrefix(made, i, j - 1);
    }
  }

  /**
   * The order a synthesised entry takes is at least `next` and below the
   * order of every later entry: no two entries share an order.
   */
  lemma OrdersIncrease(entries: seq<Json>, env: Env, next: int, i: nat, j: nat)
    requires i < j < |entries| && Synthesizes(entries, i, env)
    ensures next <= OrderAt(entries, i, env, next) < OrderAt(entries, j, env, next)
  {
    MadeAt(entries, env, |entries|, i);
    ConsumedPast(Made(entries, env, |entries|), i, j);
  }

  /** Past a synthesised entry, strictly more orders have been consumed. */
  lemma ConsumedPast(made: seq<bool>, i: nat, j: nat)
    requires i < j <= |made| && made[i]
    ensures Consumed(made, i) < Consumed(made, j)
  {
    ConsumedPrefix(made, i + 1, j);
  }

  /** Every row's order lies in [lo, hi). */
  predicate Within(r: seq<Row>, lo: int, hi: int)
  {
    forall k :: 0 <= k < |r| ==> lo <= r[k].order < hi
  }

  /** Every row's order lies below hi. */
  predicate Below(r: seq<Row>, hi: int)
  {
    forall k :: 0 <= k < |r| ==> r[k].order < hi
  }

  /** The rows' orders strictly increase. */
  predicate Ascending(r: seq<Row>)
  {
    forall k, l :: 0 <= k < l < |r| ==> r[k].order < r[l].order
  }

  /** Rows within [lo, hi) followed by one more at hi stay ascending and within [lo, hi + 1). */
  lemma AppendAbove(r: seq<Row>, x: Row, r': seq<Row>, lo: int, hi: int, hi': int)
    requires Within(r, lo, hi) && Ascending(r) && lo <= hi && x.order == hi
    requires r' == r + [x] && hi' == hi + 1
    ensures Within(r', lo, hi') && Ascending(r')
  {
    forall k | 0 <= k < |r'|
      ensures lo <= r'[k].order < hi'
    {
      if k < |r| {
        assert r'[k] == r[k];
      }
    }
    forall k, l | 0 <= k < l < |r'|
      ensures r'[k].order < r'[l].order
    {
      assert r'[k] == r[k];
      if l < |r| {
        assert r'[l] == r[l];
      }
    }
  }

  /**
   * The added rows have orders from `next` up to, but excluding, `next`
   * plus the number of consumed orders, in strictly increasing order.
   */
  lemma {:induction false} AddedRowsAscend(entries: seq<Json>, made: seq<bool>, faults: set<nat>, next: int, n: nat)
    requires |made| == |entries| && n <= |entries|
    ensures Within(AddedRows(entries, made, faults, Some(next), n), next, next + Consumed(made, n))
    ensures Ascending(AddedRows(entries, made, faults, Some(next), n))
  {
    if n > 0 {
      AddedRowsAscend(entries, made, faults, next, n - 1);
      var init := AddedRows(entries, made, faults, Some(next), n - 1);
      var c := Consumed(made, n - 1);
      if made[n - 1] && n - 1 !in faults {
        AddedRowsGrow(entries, made, faults, next, n);
        AppendAbove(init, RowOf(AudioLogParams(entries[n - 1], next + c)), AddedRows(entries, made, faults, Some(next), n),
                    next, next + c, next + Consumed(made, n));
      } else {
        AddedRowsStay(entries, made, faults, next, n);
        ConsumedPrefix(made, n - 1, n);
        WithinWider(init, next, next + c, next + Consumed(made, n));
      }
    }
  }

  /** A synthesised entry whose INSERT succeeds adds its row, under the next order, and consumes it. */
  lemma AddedRowsGrow(entries: seq<Json>, made: seq<bool>, faults: set<nat>, next: int, n: nat)
    requires |made| == |entries| && 0 < n <= |entries| && made[n - 1] && n - 1 !in faults
    ensures AddedRows(entries, made, faults, Some(next), n)
      == AddedRows(entries, made, faults, Some(next), n - 1) + [RowOf(AudioLogParams(entries[n - 1], next + Consumed(made, n - 1)))]
    ensures Consumed(made, n) == Consumed(made, n - 1) + 1
  {
  }

  /** Any other entry adds no row. */
  lemma AddedRowsStay(entries: seq<Json>, made: seq<bool>, faults: set<nat>, next: int, n: nat)
    requires |made| == |entries| && 0 < n <= |entries| && !(made[n - 1] && n - 1 !in faults)
    ensures AddedRows(entries, made, faults, Some(next), n) == AddedRows(entries, made, faults, Some(next), n - 1)
  {
  }

  /** The next order moves on by one exactly past a synthesised entry. */
  lemma OrderNext(made: seq<bool>, i: nat, next: int)
    requires i < |made|
    ensures next + Consumed(made, i + 1) == if made[i] then next + Consumed(made, i) + 1 else next + Consumed(made, i)
  {
  }

  /**
   * The entry at position i adds its row, under the order it consumes,
   * exactly when there is an order to use, it is synthesised and its
   * INSERT succeeds.
   */
  lemma AddedRowsNext(entries: seq<Json>, made: seq<bool>, faults: set<nat>, next: Option<int>, i: nat)
    requires |made| == |entries| && i < |entries|
    ensures AddedRows(entries, made, faults, next, i + 1)
      == if next.Some? && made[i] && i !in faults
         then AddedRows(entries, made, faults, next, i) + [RowOf(AudioLogParams(entries[i], next.value + Consumed(made, i)))]
         else AddedRows(entries, made, faults, next, i)
  {
  }

  /**
   * The table after the entry at position i: its row appended when it has
   * one, the table unchanged otherwise.
   */
  lemma RecordedRows(rows0: seq<Row>, entries: seq<Json>, made: seq<bool>, faults: set<nat>, next: Option<int>,
                     i: nat, order: int, before: seq<Row>, after: seq<Row>)
    requires |made| == |entries| && i < |entries|
    requires next.Some? ==> order == next.value + Consumed(made, i)
    requires before == rows0 + AddedRows(entries, made, faults, next, i)
    requires after == if next.Some? && made[i] && i !in faults then before + [RowOf(AudioLogParams(entries[i], order))] else before
    ensures after == rows0 + AddedRows(entries, made, faults, next, i + 1)
  {
    AddedRowsNext(entries, made, faults, next, i);
    if next.Some? && made[i] && i !in faults {
      AppendAssociates(rows0, AddedRows(entries, made, faults, next, i),
                       RowOf(AudioLogParams(entries[i], next.value + Consumed(made, i))));
    }
  }

  /** Raising the upper bound keeps rows within it. */
  lemma WithinWider(r: seq<Row>, lo: int, hi: int, hi': int)
    requires Within(r, lo, hi) && hi <= hi'
    ensures Within(r, lo, hi')
  {
  }

  /**
   * Before the entry at position i, every stored row, those there before
   * the batch and those it added, has an order below the next one to use.
   */
  lemma StoredBelow(rows0: seq<Row>, entries: seq<Json>, made: seq<bool>, faults: set<nat>, i: nat, next: int)
    requires |made| == |entries| && i <= |entries|
    requires Below(rows0, next)
    ensures Below(rows0 + AddedRows(entries, made, faults, Some(next), i), next + Consumed(made, i))
  {
    var added := AddedRows(entries, made, faults, Some(next), i);
    AddedRowsAscend(entries, made, faults, next, i);
    var all := rows0 + added;
    var bound := next + Consumed(made, i);
    forall k | 0 <= k < |all|
      ensures all[k].order < bound
    {
      if k >= |rows0| {
        assert all[k] == added[k - |rows0|];
      } else {
        assert all[k] == rows0[k];
      }
    }
  }

  /** Without an order to start from, nothing is inserted and no result reports an order. */
  lemma NoStartNoInserts(entries: seq<Json>, env: Env)
    ensures AddedRows(entries, Made(entries, env, |entries|), env.insertFaults, None, |entries|) == []
    ensures forall i :: 0 <= i < |entries| && ItemAt(entries, i, env, None).ItemDone? ==>
      ItemAt(entries, i, env, None).insertedOrder.None?
  {
  }

  // ---------------------------------------------------------------------------
  // The loop

  /** The INSERT for a synthesised entry under an order above every stored one. */
  method InsertLog(store: Store, entry: Json, order: int, fault: bool) returns (ok: bool)
    requires store.Valid()
    requires Below(store.rows, order)
    modifies store`rows
    ensures store.Valid()
    ensures ok <==> !fault
    ensures store.rows == if ok then old(store.rows) + [RowOf(AudioLogParams(entry, order))] else old(store.rows)
  {
    var p := AudioLogParams(entry, order);
    assert Fits(store.mode, store.rows, RowOf(p));
    ok := store.Insert(p, fault);
  }

  /**
   * The tail of the loop body: with an order to use, a synthesised entry
   * takes it (`nextOrder++`) and its INSERT is attempted. `made` says which
   * entries are synthesised, `next` is the order the batch started from.
   */
  method RecordLog(store: Store, entries: seq<Json>, i: nat, faults: set<nat>, ghost made: seq<bool>,
                   ghost next: Option<int>, ghost rows0: seq<Row>, nextOrder: Option<int>, synthesized: bool)
    returns (inserted: Option<int>, nextOrder': Option<int>)
    requires store.Valid() && |made| == |entries| && i < |entries| && made[i] == synthesized
    requires nextOrder.Some? <==> next.Some?
    requires next.Some? ==> nextOrder.value == next.value + Consumed(made, i)
    requires next.Some? ==> Below(rows0, next.value)
    requires store.rows == rows0 + AddedRows(entries, made, faults, next, i)
    modifies store`rows
    ensures store.Valid()
    ensures inserted == if synthesized && next.Some? && i !in faults then nextOrder else None
    ensures nextOrder'.Some? <==> next.Some?
    ensures next.Some? ==> nextOrder'.value == next.value + Consumed(made, i + 1)
    ensures store.rows == rows0 + AddedRows(entries, made, faults, next, i + 1)
  {
    ghost var before := store.rows;
    if next.Some? {
      OrderNext(made, i, next.value);
    }
    var order := if nextOrder.Some? then nextOrder.value else 0;
    inserted, nextOrder' := None, nextOrder;
    if synthesized && nextOrder.Some? {
      nextOrder' := Some(order + 1);
      StoredBelow(rows0, entries, made, faults, i, next.value);
      var ok := InsertLog(store, entries[i], order, i in faults);
      if ok {
        inserted := Some(order);
      }
    }
    RecordedRows(rows0, entries, made, faults, next, i, order, before, store.rows);
  }

  /**
   * One pass of the loop body for the entry at position i, with `nextOrder`
   * as it stands: the table so far holds the rows of the entries before i.
   */
  method Step(store: Store, entries: seq<Json>, i: nat, env: Env, ghost next: Option<int>, ghost rows0: seq<Row>,
              nextOrder: Option<int>, results: seq<ItemResult>) returns (results': seq<ItemResult>, nextOrder': Option<int>)
    requires store.Valid() && i < |entries|
    requires results == Items(entries, i, env, next)
    requires nextOrder.Some? <==> next.Some?
    requires next.Some? ==> nextOrder.value == OrderAt(entries, i, env, next.value)
    requires next.Some? ==> Below(rows0, next.value)
    requires store.rows == rows0 + AddedRows(entries, Made(entries, env, |entries|), env.insertFaults, next, i)
    modifies store`rows
    ensures store.Valid()
    ensures results' == Items(entries, i + 1, env, next)
    ensures nextOrder'.Some? <==> next.Some?
    ensures next.Some? ==> nextOrder'.value == OrderAt(entries, i + 1, env, next.value)
    ensures store.rows == rows0 + AddedRows(entries, Made(entries, env, |entries|), env.insertFaults, next, i + 1)
  {
    var s := SynthOne(entries[i], i, env);
    ghost var made := Made(entries, env, |entries|);
    MadeAt(entries, env, |entries|, i);
    var inserted, item;
    inserted, nextOrder' := RecordLog(store, entries, i, env.insertFaults, made, next, rows0, nextOrder, s.Synthesized?);
    if s.Failed? {
      item := ItemFailed(s.why);
    } else {
      item := ItemDone(Preview(Prop(entries[i], "text").value.s), env.publicPath + "/" + s.name, s.voice, s.stub, inserted);
    }
    results' := results + [item];
  }

  /**
   * `for (const entry of logs)`: one result per entry, in order, and the
   * table gains the rows of the synthesised entries whose INSERT succeeded.
   */
  method ProcessLogs(store: Store, entries: seq<Json>, env: Env, next: Option<int>) returns (results: seq<ItemResult>)
    requires store.Valid()
    requires next.Some? ==> Below(store.rows, next.value)
    modifies store`rows
    ensures store.Valid()
    ensures results == Items(entries, |entries|, env, next)
    ensures store.rows == old(store.rows) + AddedRows(entries, Made(entries, env, |entries|), env.insertFaults, next, |entries|)
  {
    ghost var rows0 := store.rows;
    var nextOrder := next;
    results := [];
    var i := 0;
    while i < |entries|
      invariant 0 <= i <= |entries|
      invariant store.Valid()
      invariant results == Items(entries, i, env, next)
      invariant nextOrder.Some? <==> next.Some?
      invariant next.Some? ==> nextOrder.value == OrderAt(entries, i, env, next.value)
      invariant store.rows == rows0 + AddedRows(entries, Made(entries, env, |entries|), env.insertFaults, next, i)
    {
      results, nextOrder := Step(store, entries, i, env, next, rows0, nextOrder, results);
      i := i + 1;
    }
  }

  // ---------------------------------------------------------------------------
  // The endpoint

  /** The response. */
  datatype Reply =
    | LogsRequired   // 400: `logs` is not a non-empty array
    | TooManyLogs    // 400: more than ten logs
    | BatchFailed    // 500: the audio directory could not be created
    | Batch(results: seq<ItemResult>, dbInserts: Option<Json>)

  /** `includeEvents && !!conn`: the flag itself when it is falsy (None for an absent flag). */
  function DbInserts(includeEvents: Option<Json>, conn: bool): (r: Option<Json>)
    ensures Truthy(includeEvents) ==> r == Some(JBool(conn))
    ensures !Truthy(includeEvents) ==> r == includeEvents
  {
    if Truthy(includeEvents) then Some(JBool(conn)) else includeEvents
  }

  /**
   * The handler, with the maximum read corrected (`asWritten` false) or as
   * written (`asWritten` true). `pool` says whether the database is
   * configured; the other flags are the failures of the steps the handler
   * can fail in.
   */
  method HandleBatch(store: Store, body: Json, env: Env, pool: bool, mkdirFails: bool,
                     connectFails: bool, selectFails: bool, asWritten: bool) returns (reply: Reply)
    requires store.Valid()
    modifies store`rows
    ensures store.Valid()
    ensures var b := Or(Some(body), JObj(map[]));
      var logs := Prop(b, "logs");
      var includeEvents := Prop(b, "includeEvents");
      var start := StartWith(includeEvents, pool, connectFails, selectFails, old(store.rows), asWritten);
      if !(logs.Some? && logs.value.JArr? && logs.value.items != []) then
        reply == LogsRequired && store.rows == old(store.rows)
      else if |logs.value.items| > 10 then
        reply == TooManyLogs && store.rows == old(store.rows)
      else if mkdirFails then
        reply == BatchFailed && store.rows == old(store.rows)
      else
        && reply.Batch?
        && reply.results == Items(logs.value.items, |logs.value.items|, env, start.next)
        && reply.dbInserts == DbInserts(includeEvents, start.conn)
        && store.rows == old(store.rows)
             + AddedRows(logs.value.items, Made(logs.value.items, env, |logs.value.items|), env.insertFaults, start.next, |logs.value.items|)
  {
    var b := Or(Some(body), JObj(map[]));
    var logs := Prop(b, "logs");
    var includeEvents := Prop(b, "includeEvents");
    if !(logs.Some? && logs.value.JArr? && logs.value.items != []) {
      return LogsRequired;
    }
    if |logs.value.items| > 10 {
      return TooManyLogs;
    }
    if mkdirFails {
      return BatchFailed;
    }
    var start := StartWith(includeEvents, pool, connectFails, selectFails, store.rows, asWritten);
    if asWritten {
      AsWrittenNeverAllocates(includeEvents, pool, connectFails, selectFails, store.rows);
    } else {
      StartAboveStored(includeEvents, pool, connectFails, selectFails, store.rows);
    }
    var results := ProcessLogs(store, logs.value.items, env, start.next);
    reply := Batch(results, DbInserts(includeEvents, start.conn));
  }

  /**
   * As written, a batch with `includeEvents` set and a reachable database
   * reports `dbInserts: true` and yet inserts nothing and reports no order.
   */
  lemma AsWrittenReportsPhantomInserts(entries: seq<Json>, env: Env, includeEvents: Option<Json>, rows: seq<Row>)
    requires Truthy(includeEvents)
    ensures var start := StartWith(includeEvents, true, false, false, rows, true);
      && DbInserts(includeEvents, start.conn) == Some(JBool(true))
      && AddedRows(entries, Made(entries, env, |entries|), env.insertFaults, start.next, |entries|) == []
  {
    AsWrittenNeverAllocates(includeEvents, true, false, false, rows);
  }

  /**
   * With the read corrected, the same batch allocates orders from one above
   * the stored maximum, so every synthesised entry whose INSERT succeeds is
   * recorded.
   */
  lemma CorrectedRecordsInserts(includeEvents: Option<Json>, rows: seq<Row>)
    requires Truthy(includeEvents)
    ensures var start := StartWith(includeEvents, true, false, false, rows, false);
      && DbInserts(includeEvents, start.conn) == Some(JBool(true))
      && start.next == Some(MaxOrder(rows) + 1)
  {
  }
}
