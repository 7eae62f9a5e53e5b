/**
 * `populateDatabase` in server_full.js: at start-up, with a database
 * configured, the server creates the `events` table if it is missing and,
 * when the table holds no row, inserts the 24 events of the opening
 * sequence one after the other, outside any transaction.
 */
module Seeding {
  import opened JsValues
  import opened EventStore
  import opened DbReplies

  /**
   * One entry of `initialEvents`: an absent property is None. `misc` holds
   * the object serialised into `misc_data`.
   */
  datatype Seed = Seed(
    order: int,
    delay: int,
    action: string,
    actor: Option<string>,
    text: Option<string>,
    voice: Option<string>,
    prompt: Option<string>,
    misc: Option<Json>)

  /**
   * The server keeps `initialEvents` as one array of event objects; this model
   * splits each entry into a cue (when, what and who) and a content (what is
   * said or shown). The properties of seeding are about the cues and hold
   * whatever the contents.
   */
  datatype Cue = Cue(order: int, delay: int, action: string, actor: Option<string>, voice: Option<string>)

  datatype Content = Content(text: Option<string>, prompt: Option<string>, misc: Option<Json>)

  /** The cues of `initialEvents`, in the order the loop inserts them. */
  const Cues: seq<Cue> := [
      Cue(1, 1000, "comms", Some("KNOX"), None),
      Cue(2, 500, "ledger", None, None),
      Cue(3, 1000, "comms", Some("KNOX"), None),
      Cue(4, 500, "map", None, None),
      Cue(5, 2000, "social", None, None),
      Cue(6, 3000, "comms", Some("KNOX"), None),
      Cue(7, 1000, "map", None, None),
      Cue(8, 500, "ledger", None, None),
      Cue(9, 1000, "netTraffic", None, None),
      Cue(10, 4000, "comms", Some("KNOX"), None),
      Cue(11, 500, "audioLog", None, Some("Charon")),
      Cue(12, 6000, "comms", Some("MAYA"), None),
      Cue(13, 500, "redaction", None, None),
      Cue(14, 8000, "comms", Some("KNOX"), None),
      Cue(15, 500, "simulator", None, None),
      Cue(16, 5000, "marketShock", None, None),
      Cue(17, 7000, "comms", Some("MAYA"), None),
      Cue(18, 500, "ledger", None, None),
      Cue(19, 4000, "social", None, None),
      Cue(20, 6000, "comms", Some("RHEA"), None),
      Cue(21, 500, "audioLog", None, Some("Leda")),
      Cue(22, 7000, "comms", Some("KNOX"), None),
      Cue(23, 500, "map", None, None),
      Cue(24, 5000, "comms", Some("MAYA"), None)
    ]

  /** The contents of `initialEvents`, entry by entry. */
  const Contents: seq<Content> := seq(24, k requires 0 <= k < 24 => ContentAt(k))

  /** The content of entry k of `initialEvents`. */
  function ContentAt(k: nat): Content
    requires k < 24
  {
    match k
    case 0 =>
      Content(Some("Found something weird. Handhole LFT-UTL-H2037 is warm. Shouldn\'t be. Logging it now."),
              None,
              None)
    case 1 =>
      Content(None,
              None,
              Some(JObj(map["time" := JStr("14:32"), "domain" := JStr("INFRA"), "desc" := JStr("Handhole LFT\U{2011}UTL\U{2011}H2037 logged. Anomaly: residual heat.")])))
    case 2 =>
      Content(Some("I\'ve added a Geo-Intel map and a Social Stream to the OS. Let\'s see what people are saying."),
              None,
              None)
    case 3 =>
      Content(None,
              None,
              Some(JObj(map["lat" := JNum(30.133), "lon" := JNum(-92.033), "popup" := JStr("LFT-UTL-H2037: Anomalous thermal reading.")])))
    case 4 =>
      Content(None,
              Some("Write a short, realistic social media post from someone in Lafayette, LA complaining about their internet being weirdly slow today."),
              None)
    case 5 =>
      Content(Some("Pulling up Ghost Route. Seeing a pattern... a rhythm. Micro-withdrawals at :15 and :45. Too clean for humans. I\'m opening the Net Traffic analyzer."),
              None,
              None)
    case 6 =>
      Content(None,
              None,
              Some(JObj(map["event" := JStr("startPulse")])))
    case 7 =>
      Content(None,
              None,
              Some(JObj(map["time" := JStr("15:03"), "domain" := JStr("NETWORK"), "desc" := JStr("Ghost Route overlay active. Rhythm detected: :15/:45 micro-withdrawals.")])))
    case 8 =>
      Content(None,
              None,
              Some(JObj(map["asn" := JStr("AS7018"), "spike" := Num(90)])))
    case 9 =>
      Content(Some("Leaving an audio log with my initial thoughts. Check the Audio Logs app."),
              None,
              None)
    case 10 =>
      Content(Some("Say in a slightly concerned, professional tone: Knox, field log. The regularity of these network events is... unnatural. It feels automated, but not in a way I recognize. The heat signature at the handhole suggests a physical component, not just software. This isn\'t a normal outage. This is something else."),
              None,
              None)
    case 11 =>
      Content(Some("Knox, I got your forward. This \"Operating Agent\" language is a pattern I\'ve seen before. I need to file a preliminary injunction. Can you redact the sensitive client names from this draft before I send it?"),
              None,
              None)
    case 12 =>
      Content(None,
              None,
              None)
    case 13 =>
      Content(Some("It\'s not just routing... it\'s exploiting market microstructure. I\'ve added a Market Shock Simulator to your dock. See how it concentrates power."),
              None,
              None)
    case 14 =>
      Content(None,
              None,
              None)
    case 15 =>
      Content(None,
              None,
              None)
    case 16 =>
      Content(Some("That market shock was no accident. It correlates with the network events. I need everything we can find on the shell companies involved. Start with \"Oasis Relay, Ltd.\"."),
              None,
              None)
    case 17 =>
      Content(None,
              None,
              Some(JObj(map["time" := JStr("19:05"), "domain" := JStr("LEGAL"), "desc" := JStr("Corporate investigation initiated into \"Oasis Relay, Ltd.\".")])))
    case 18 =>
      Content(None,
              Some("Write a short, realistic social media post from a financial news blogger speculating about the cause of a recent, bizarre flash crash in a niche market."),
              None)
    case 19 =>
      Content(Some("They\'re getting smarter. The :15/:45 rhythm is gone. They\'re using a new pattern, off-prime, looks like :07/:37. More subtle. It\'s like they know we\'re watching. Sending an audio log with the details."),
              None,
              None)
    case 20 =>
      Content(Some("Say in a focused, technical tone: Rhea here. The prime-gap tags are gone. The new pattern is a phase shift to off-prime times, specifically seven and thirty-seven minutes past the hour. It\'s quieter, less obvious. They\'re not just running a script anymore; they\'re adapting. This is active counter-surveillance."),
              None,
              None)
    case 21 =>
      Content(Some("Found a link between Oasis Relay and a new data center build-out in Houston. The power permits are under a different name, but the fiber contracts lead back to the same trustee. Adding the location to the Geo-Intel map."),
              None,
              None)
    case 22 =>
      Content(None,
              None,
              Some(JObj(map["lat" := JNum(29.7174), "lon" := JNum(-95.3698), "popup" := JStr("New Data Center Construction: Linked to Oasis Relay via fiber contracts.")])))
    case _ => // the last entry, 23
      Content(Some("Good work, team. We have a physical location, a corporate entity, and a clear pattern of adaptive behavior. We have enough to move. I\'m drafting a motion to compel."),
              None,
              None)
  }

  /** `initialEvents`: the k-th cue with the k-th content. */
  function Events(cues: seq<Cue>, contents: seq<Content>): (seeds: seq<Seed>)
    requires |cues| == |contents|
    ensures |seeds| == |cues|
    ensures forall k :: 0 <= k < |seeds| ==> seeds[k].order == cues[k].order && seeds[k].action == cues[k].action
    ensures forall k :: 0 <= k < |seeds| ==>
      seeds[k].delay == cues[k].delay && seeds[k].actor == cues[k].actor && seeds[k].voice == cues[k].voice
    ensures forall k :: 0 <= k < |seeds| ==>
      seeds[k].text == contents[k].text && seeds[k].prompt == contents[k].prompt && seeds[k].misc == contents[k].misc
  {
    seq(|cues|, k requires 0 <= k < |cues| =>
      Seed(cues[k].order, cues[k].delay, cues[k].action, cues[k].actor,
           contents[k].text, cues[k].voice, contents[k].prompt, contents[k].misc))
  }

  /** The property `e.<key>` of a seed, as JavaScript reads it. */
  function Str(s: Option<string>): (v: Option<Json>)
    ensures v.Some? <==> s.Some?
    ensures s.Some? ==> v.value == JStr(s.value)
  {
    if s.Some? then Some(JStr(s.value)) else None
  }

  /**
   * The statement for one seed: its order, delay and action, its actor,
   * text, voice and prompt or NULL when absent or empty, no chapter, and
   * `JSON.stringify(e.misc || null)` as the misc data.
   */
  function SeedParams(e: Seed): (p: InsertParams)
    ensures Admissible(p) && RowOf(p).order == e.order && RowOf(p).chapter.None?
    ensures p.delay == Num(e.delay) && p.action == JStr(e.action)
    ensures p.actor == (if e.actor.Some? && e.actor.value != "" then JStr(e.actor.value) else JNull)
    ensures p.staticText == (if e.text.Some? && e.text.value != "" then JStr(e.text.value) else JNull)
    ensures p.voice == (if e.voice.Some? && e.voice.value != "" then JStr(e.voice.value) else JNull)
    ensures p.apiPrompt == (if e.prompt.Some? && e.prompt.value != "" then JStr(e.prompt.value) else JNull)
    ensures p.misc == (if e.misc.Some? && Truthy(e.misc) then e.misc.value else JNull)
  {
    InsertParams(None, Num(e.order), Num(e.delay), JStr(e.action),
                 Or(Str(e.actor), JNull), Or(Str(e.text), JNull), Or(Str(e.voice), JNull),
                 Or(Str(e.prompt), JNull), false, JNull, Or(e.misc, JNull))
  }

  /** The rows the first n seeds store, in order. */
  function SeedRows(seeds: seq<Seed>, n: nat): (r: seq<Row>)
    requires n <= |seeds|
    ensures |r| == n
    ensures forall j :: 0 <= j < n ==> r[j] == RowOf(SeedParams(seeds[j]))
  {
    if n == 0 then [] else SeedRows(seeds, n - 1) + [RowOf(SeedParams(seeds[n - 1]))]
  }

  /** The seeds are numbered 1, 2, ... in the order they are listed. */
  predicate Numbered(seeds: seq<Seed>)
  {
    forall i :: 0 <= i < |seeds| ==> seeds[i].order == i + 1
  }

  /** The server's table lists 24 cues, numbered 1 to 24. */
  lemma CuesNumbered()
    ensures |Cues| == 24 && forall i :: 0 <= i < |Cues| ==> Cues[i].order == i + 1
  {
  }

  /** With any 24 contents, the server's events are numbered 1 to 24. */
  lemma EventsNumbered(contents: seq<Content>)
    requires |contents| == |Cues|
    ensures |Events(Cues, contents)| == 24 && Numbered(Events(Cues, contents))
  {
    CuesNumbered();
  }

  /** The stored rows of numbered seeds carry the orders 1 .. n, ascending, with no chapter. */
  lemma SeedRowsOrders(seeds: seq<Seed>, n: nat)
    requires Numbered(seeds) && n <= |seeds|
    ensures var r := SeedRows(seeds, n);
      |r| == n && forall j :: 0 <= j < n ==> r[j].order == j + 1 && r[j].chapter.None?
  {
  }

  /** The rows of numbered seeds never clash, whatever the table's key. */
  lemma SeedRowsConsistent(mode: Uniqueness, seeds: seq<Seed>, n: nat)
    requires Numbered(seeds) && n <= |seeds|
    ensures Consistent(mode, SeedRows(seeds, n))
  {
    SeedRowsOrders(seeds, n);
  }

  // ---------------------------------------------------------------------------
  // The insert loop

  /** The position of the first insert that fails among the first n, or n when none does. */
  function FirstFault(faults: set<nat>, n: nat): (k: nat)
    ensures k <= n
    ensures forall j :: 0 <= j < k ==> j !in faults
    ensures k < n ==> k in faults
  {
    if n == 0 then 0
    else
      var k := FirstFault(faults, n - 1);
      if k < n - 1 then k else if n - 1 in faults then n - 1 else n
  }

  /** Short of the first failure, the insert at i fails exactly when i is the first failure. */
  lemma FirstFaultAt(faults: set<nat>, n: nat, i: nat)
    requires i < n && i <= FirstFault(faults, n)
    ensures i in faults <==> i == FirstFault(faults, n)
  {
  }

  /**
   * `for (const e of initialEvents) await conn.query(...)` on an empty
   * table: the seeds go in one by one until an insert fails, which throws
   * out of the loop and leaves the rows already inserted.
   */
  method InsertSeeds(store: Store, seeds: seq<Seed>, faults: set<nat>) returns (n: nat)
    requires store.Valid() && store.rows == [] && Numbered(seeds)
    modifies store`rows
    ensures store.Valid()
    ensures n == FirstFault(faults, |seeds|)
    ensures store.rows == SeedRows(seeds, n)
  {
    n := 0;
    while n < |seeds|
      invariant n <= FirstFault(faults, |seeds|)
      invariant store.Valid()
      invariant store.rows == SeedRows(seeds, n)
    {
      FirstFaultAt(faults, |seeds|, n);
      SeedRowsOrders(seeds, n);
      var p := SeedParams(seeds[n]);
      assert Fits(store.mode, store.rows, RowOf(p));
      var ok := store.Insert(p, n in faults);
      if !ok {
        return;
      }
      n := n + 1;
    }
  }

  // ---------------------------------------------------------------------------
  // `populateDatabase`

  /** What `populateDatabase` ends with. */
  datatype Outcome =
    | NotConfigured      // no pool: nothing happens
    | Failed(seeded: nat) // an error was caught and logged after `seeded` inserts
    | AlreadyPopulated   // the table holds rows: nothing is inserted
    | Populated          // all seeds inserted

  /**
   * `count > 0` for the value the count read binds: only a positive number
   * is above zero (`undefined > 0` is false).
   */
  predicate Positive(v: Option<Json>)
  {
    v.Some? && v.value.JNum? && v.value.x > 0.0
  }

  /**
   * The count read: `rows[0].count` as intended, or as written
   * `const [[{ count }]] = ...`, which throws on the driver's reply.
   */
  function CountRead(rows: seq<Row>, asWritten: bool): Read
  {
    if asWritten then NestedRead(CountReply(rows, "count"), "count") else RowRead(CountReply(rows, "count"), "count")
  }

  /** The outcome and the table `populateDatabase` leaves, as a function of the table it starts from. */
  function Populate(seeds: seq<Seed>, rows: seq<Row>, pool: bool, connectFails: bool, createFails: bool, countFails: bool,
                    faults: set<nat>, asWritten: bool): (r: (Outcome, seq<Row>))
    ensures r.0 == Populated ==> r.1 == rows + SeedRows(seeds, |seeds|)
  {
    if !pool then (NotConfigured, rows)
    else if connectFails || createFails || countFails then (Failed(0), rows)
    else
      var read := CountRead(rows, asWritten);
      if read.TypeError? then (Failed(0), rows)
      else if Positive(read.value) then (AlreadyPopulated, rows)
      else
        var n := FirstFault(faults, |seeds|);
        (if n == |seeds| then Populated else Failed(n), rows + SeedRows(seeds, n))
  }

  /**
   * `populateDatabase()` over a numbered seed table. The store must be
   * empty when the count reads 0, which holds for the corrected read; the
   * as-written read never gets that far.
   */
  method PopulateWith(store: Store, seeds: seq<Seed>, pool: bool, connectFails: bool, createFails: bool, countFails: bool,
                      faults: set<nat>, asWritten: bool) returns (out: Outcome)
    requires store.Valid() && Numbered(seeds)
    modifies store`rows
    ensures store.Valid()
    ensures (out, store.rows) == Populate(seeds, old(store.rows), pool, connectFails, createFails, countFails, faults, asWritten)
  {
    if !pool {
      return NotConfigured;
    }
    if connectFails || createFails || countFails {
      return Failed(0);
    }
    NestedReadThrowsOnRows("count", Num(|store.rows|));
    CountReadsSize(store.rows);
    var read := CountRead(store.rows, asWritten);
    if read.TypeError? {
      return Failed(0);
    }
    if Positive(read.value) {
      return AlreadyPopulated;
    }
    var n := InsertSeeds(store, seeds, faults);
    assert store.rows == old(store.rows) + SeedRows(seeds, n);
    out := if n == |seeds| then Populated else Failed(n);
  }

  /** `populateDatabase()` with the server's `initialEvents`, the table `Events(Cues, Contents)`. */
  method PopulateDatabase(store: Store, pool: bool, connectFails: bool, createFails: bool,
                          countFails: bool, faults: set<nat>, asWritten: bool) returns (out: Outcome)
    requires store.Valid()
    modifies store`rows
    ensures store.Valid()
    ensures (out, store.rows) == Populate(Events(Cues, Contents), old(store.rows), pool, connectFails, createFails,
                                          countFails, faults, asWritten)
  {
    EventsNumbered(Contents);
    out := PopulateWith(store, Events(Cues, Contents), pool, connectFails, createFails, countFails, faults, asWritten);
  }

  /** The corrected read binds the number of rows. */
  lemma CountReadsSize(rows: seq<Row>)
    ensures CountRead(rows, false) == Bound(Some(Num(|rows|)))
    ensures Positive(CountRead(rows, false).value) <==> rows != []
  {
    RowReadYieldsValue("count", Num(|rows|));
  }

  // ---------------------------------------------------------------------------
  // What seeding promises

  /**
   * With the read corrected: a table that holds rows is left as it is, and
   * an empty one, with no insert failing, receives exactly the seeds,
   * numbered 1, 2, ... in ascending order.
   */
  lemma SeedOnlyIfEmpty(seeds: seq<Seed>, rows: seq<Row>)
    requires Numbered(seeds)
    ensures var (out, after) := Populate(seeds, rows, true, false, false, false, {}, false);
      && (rows != [] ==> out == AlreadyPopulated && after == rows)
      && (rows == [] ==> out == Populated && |after| == |seeds|)
      && (rows == [] ==> forall j :: 0 <= j < |seeds| ==> after[j].order == j + 1)
  {
    CountReadsSize(rows);
    if rows == [] {
      assert FirstFault({}, |seeds|) == |seeds|;
      SeedRowsOrders(seeds, |seeds|);
    }
  }

  /** On an empty table, the server's seeding stores its 24 events, numbered 1 to 24. */
  lemma SeedsTwentyFour()
    ensures var (out, after) := Populate(Events(Cues, Contents), [], true, false, false, false, {}, false);
      out == Populated && |after| == 24 && forall j :: 0 <= j < 24 ==> after[j].order == j + 1
  {
    EventsNumbered(Contents);
    SeedOnlyIfEmpty(Events(Cues, Contents), []);
  }

  /** Running the seeding twice seeds once: the second run finds the rows of the first. */
  lemma SeedingIsIdempotent(seeds: seq<Seed>, rows: seq<Row>, faults: set<nat>)
    requires seeds != []
    ensures var (_, once) := Populate(seeds, rows, true, false, false, false, faults, false);
      var (out, twice) := Populate(seeds, once, true, false, false, false, faults, false);
      (once != [] ==> out == AlreadyPopulated) && twice == once
  {
    var (_, once) := Populate(seeds, rows, true, false, false, false, faults, false);
    CountReadsSize(rows);
    CountReadsSize(once);
  }

  /**
   * A failing insert leaves the seeds before it in the table and stops the
   * loop: the table is never rolled back to empty.
   */
  lemma PartialSeeding(seeds: seq<Seed>, k: nat, faults: set<nat>)
    requires Numbered(seeds) && k < |seeds| && k in faults && forall j :: 0 <= j < k ==> j !in faults
    ensures var (out, after) := Populate(seeds, [], true, false, false, false, faults, false);
      out == Failed(k) && after == SeedRows(seeds, k)
      && forall j :: 0 <= j < k ==> after[j].order == j + 1
  {
    CountReadsSize([]);
    FirstFaultIs(faults, k, |seeds|);
    SeedRowsOrders(seeds, k);
  }

  /** The first failure is the first index in the fault set. */
  lemma {:induction false} FirstFaultIs(faults: set<nat>, k: nat, n: nat)
    requires k < n && k in faults && forall j :: 0 <= j < k ==> j !in faults
    ensures FirstFault(faults, n) == k
    decreases n
  {
    if n - 1 > k {
      FirstFaultIs(faults, k, n - 1);
    }
  }

  /**
   * As written, the count read throws, so `populateDatabase` never seeds:
   * it logs an error and leaves the table as it found it, empty or not.
   */
  lemma AsWrittenNeverSeeds(seeds: seq<Seed>, rows: seq<Row>, faults: set<nat>)
    ensures Populate(seeds, rows, true, false, false, false, faults, true) == (Failed(0), rows)
  {
    NestedReadThrowsOnRows("count", Num(|rows|));
  }
}
