/**
 * What the `mariadb` driver hands back for the single-value SELECTs the
 * scripts run (`COALESCE(MAX(event_order), 0)` and `COUNT(*)`), and the two
 * ways the scripts read the value out of it.
 *
 * The driver resolves a SELECT to an array with one object per row, each
 * keyed by column name. server_full.js reads such a reply with the nested
 * pattern `const [[{ maxOrder }]] = reply`, which expects an array of
 * arrays; `RowRead` is the plain first-row read that pattern evidently
 * intends. (ingest_chapter.js guards its own `rows[0].max_order` read; see
 * `IngestChapter.Baseline`.)
 */
module DbReplies {
  import opened JsValues
  import opened EventStore

  /** The result of reading a column out of a reply: a value, or the TypeError the read throws. */
  datatype Read = TypeError | Bound(value: Option<Json>)

  /** The reply to a one-row, one-column SELECT. */
  function SingleRow(column: string, v: Json): (reply: seq<Json>)
    ensures |reply| == 1 && Prop(reply[0], column) == Some(v)
  {
    [JObj(map[column := v])]
  }

  /** The reply to `SELECT COALESCE(MAX(event_order), 0) AS <column> FROM events`. */
  function MaxOrderReply(rows: seq<Row>, column: string): (reply: seq<Json>)
    ensures |reply| == 1 && Prop(reply[0], column) == Some(Num(MaxOrder(rows)))
  {
    SingleRow(column, Num(MaxOrder(rows)))
  }

  /** The reply to `SELECT COUNT(*) AS <column> FROM events`. */
  function CountReply(rows: seq<Row>, column: string): (reply: seq<Json>)
    ensures |reply| == 1 && Prop(reply[0], column) == Some(Num(|rows|))
  {
    SingleRow(column, Num(|rows|))
  }

  /**
   * Array destructuring of one element: `[p] = v` binds p to the first item
   * of v. Arrays and strings are iterable (a string yields its characters);
   * anything else throws. None is the `undefined` an empty iterable yields.
   */
  function FirstOf(v: Option<Json>): (r: Option<Option<Json>>)
    ensures r.Some? <==> v.Some? && (v.value.JArr? || v.value.JStr?)
  {
    if v.None? then None
    else match v.value
      case JArr(items) => Some(if items == [] then None else Some(items[0]))
      case JStr(s) => Some(if s == "" then None else Some(JStr([s[0]])))
      case _ => None
  }

  /**
   * Object destructuring `{ column } = v`: throws on `undefined` and `null`,
   * otherwise reads the property.
   */
  function Field(v: Option<Json>, column: string): (r: Read)
    ensures r.TypeError? <==> v.None? || v.value.JNull?
  {
    if v.None? || v.value.JNull? then TypeError else Bound(Prop(v.value, column))
  }

  /** `const [[{ column }]] = reply`, the read server_full.js makes. */
  function NestedRead(reply: seq<Json>, column: string): (r: Read)
    ensures (reply == [] || !(reply[0].JArr? || reply[0].JStr?)) ==> r.TypeError?
  {
    var row := FirstOf(Some(JArr(reply)));
    var cell := FirstOf(row.value);
    if cell.None? then TypeError else Field(cell.value, column)
  }

  /**
   * `reply[0].column`: the read the nested destructurings of server_full.js
   * (the max order and the row count) evidently intend. It throws when there
   * is no row or the row is null.
   */
  function RowRead(reply: seq<Json>, column: string): (r: Read)
    ensures r.TypeError? <==> reply == [] || reply[0].JNull?
    ensures reply != [] && !reply[0].JNull? ==> r == Bound(Prop(reply[0], column))
  {
    if reply == [] then TypeError else Field(Some(reply[0]), column)
  }

  /**
   * The nested read throws on every reply of the driver's shape: a row is
   * an object, and an object is not iterable.
   */
  lemma NestedReadThrowsOnRows(column: string, v: Json)
    ensures NestedRead(SingleRow(column, v), column) == TypeError
  {
    assert SingleRow(column, v)[0].JObj?;
  }

  /** Reading the first row's property yields the selected value. */
  lemma RowReadYieldsValue(column: string, v: Json)
    ensures RowRead(SingleRow(column, v), column) == Bound(Some(v))
  {
  }

  /** The shape the nested read was written for: an array of row arrays. */
  lemma NestedReadFitsRowArrays(column: string, v: Json)
    ensures NestedRead([JArr([JObj(map[column := v])])], column) == Bound(Some(v))
  {
  }
}
