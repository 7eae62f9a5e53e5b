/**
 * tools/validate_events.js: a structural check of an events file before it is
 * ingested. Every event must carry the eight required keys, `event_order`
 * must not repeat, `event_order` and `delay` must be numbers and `misc_data`
 * a non-null object. Every violation is reported, the loop never stops early,
 * and on a pass the script reports how many events carry each action.
 */
module ValidateEvents {
  import opened JsValues

  /** The keys every event must carry, in the order they are checked. */
  const Required: seq<string> :=
    ["event_order", "delay", "action", "actor", "static_text", "voice", "api_prompt", "misc_data"]

  /** The command line and the file, as far as the script gets with them. */
  datatype Input =
    | NoFileArgument               // no path on the command line
    | Unreadable                   // readFileSync threw
    | Read(parsed: Option<Json>)   // what JSON.parse made of the text; None when it threw

  datatype Problem =
    | MissingKey(key: string)
    | DuplicateOrder(order: Option<Json>)
    | OrderNotNumber(order: Option<Json>)
    | DelayNotNumber(order: Option<Json>)
    | MiscNotObject(order: Option<Json>)

  /**
   * One line of the error report: the position of the event it is about and
   * the problem. (The script prints the index for a missing key and the
   * event's `event_order` for the other problems; both are kept here.)
   */
  datatype Violation = Violation(index: nat, problem: Problem)

  datatype Outcome =
    | Usage                                         // exit 1
    | ReadFailed                                    // uncaught exception, exit 1
    | InvalidJson                                   // exit 2
    | NotArray                                      // exit 3
    | Crashed(reported: seq<Violation>, at: nat)    // `k in ev` threw a TypeError on item `at`, exit 1
    | Checked(violations: seq<Violation>, histogram: Option<map<Option<Json>, Tally>>)

  /** `process.exit`: 0 only for a well-formed file, 4 for a file with violations, 1 to 3 for the early exits. */
  function ExitCode(o: Outcome): (code: int)
    ensures code == 0 <==> o.Checked? && o.violations == []
    ensures 0 <= code <= 4
  {
    match o
    case Usage => 1
    case ReadFailed => 1
    case InvalidJson => 2
    case NotArray => 3
    case Crashed(_, _) => 1
    case Checked(v, _) => if v == [] then 0 else 4
  }

  /** Items the `in` operator accepts: objects and arrays (anything else makes `k in ev` throw). */
  predicate IsRecord(ev: Json)
  {
    ev.JObj? || ev.JArr?
  }

  /** `k in ev`. An array has none of the required keys among its properties. */
  predicate HasKey(ev: Json, k: string)
  {
    ev.JObj? && k in ev.fields
  }

  /** `ev.event_order`, absent when the event lacks the key. */
  function Order(ev: Json): Option<Json>
  {
    Prop(ev, "event_order")
  }

  /**
   * Values a JavaScript Set compares by value. Arrays and objects are
   * compared by identity, and every parsed object is a distinct one, so such
   * an `event_order` never counts as seen.
   */
  predicate Primitive(v: Option<Json>)
  {
    !IsObject(v)
  }

  /** `seenOrders.add(v)`, as far as later `has` tests can tell. */
  function Remember(seen: set<Option<Json>>, v: Option<Json>): set<Option<Json>>
  {
    if Primitive(v) then seen + {v} else seen
  }

  /** The set of orders recorded after the events of a prefix. */
  function SeenOf(data: seq<Json>): set<Option<Json>>
  {
    if data == [] then {} else Remember(SeenOf(data[..|data| - 1]), Order(data[|data| - 1]))
  }

  /** The missing-key lines for event `idx`, for the keys in `keys`, in that order. */
  function MissingViolations(idx: nat, ev: Json, keys: seq<string>): (r: seq<Violation>)
    ensures forall x :: x in r ==> x.index == idx && x.problem.MissingKey?
  {
    if keys == [] then []
    else
      MissingViolations(idx, ev, keys[..|keys| - 1])
      + (if HasKey(ev, keys[|keys| - 1]) then [] else [Violation(idx, MissingKey(keys[|keys| - 1]))])
  }

  /** The checks made after the key loop, in the order the script makes them. */
  datatype Check = Duplicate | OrderType | DelayType | MiscType

  const TypeChecks: seq<Check> := [Duplicate, OrderType, DelayType, MiscType]

  /** The problem check `c` finds in event `ev`, if any. */
  function Found(c: Check, ev: Json, seen: set<Option<Json>>): (r: Option<Problem>)
    ensures r.Some? ==> !r.value.MissingKey?
  {
    var o := Order(ev);
    match c
    case Duplicate => if Primitive(o) && o in seen then Some(DuplicateOrder(o)) else None
    case OrderType => if !IsNumber(o) then Some(OrderNotNumber(o)) else None
    case DelayType => if !IsNumber(Prop(ev, "delay")) then Some(DelayNotNumber(o)) else None
    case MiscType => if !IsObject(Prop(ev, "misc_data")) then Some(MiscNotObject(o)) else None
  }

  /** The report line for what a check found, if anything. */
  function Emit(idx: nat, f: Option<Problem>): seq<Violation>
  {
    if f.Some? then [Violation(idx, f.value)] else []
  }

  /** The lines the checks in `checks` add for event `idx`, in order. */
  function TypeViolations(idx: nat, ev: Json, seen: set<Option<Json>>, checks: seq<Check>): (r: seq<Violation>)
    ensures forall x :: x in r ==> x.index == idx && !x.problem.MissingKey?
  {
    if checks == [] then []
    else
      TypeViolations(idx, ev, seen, checks[..|checks| - 1]) + Emit(idx, Found(checks[|checks| - 1], ev, seen))
  }

  /** Everything reported about event `idx`, given the orders seen before it. */
  function EventViolations(idx: nat, ev: Json, seen: set<Option<Json>>): (r: seq<Violation>)
    ensures forall x :: x in r ==> x.index == idx
  {
    MissingViolations(idx, ev, Required) + TypeViolations(idx, ev, seen, TypeChecks)
  }

  /** The whole report for a list of events, in the order the lines are printed. */
  function Violations(data: seq<Json>): seq<Violation>
  {
    if data == [] then []
    else
      var n := |data| - 1;
      Violations(data[..n]) + EventViolations(n, data[n], SeenOf(data[..n]))
  }

  /**
   * The names a fresh `{}` inherits from Object.prototype whose value is a
   * function; `__proto__` is inherited too, but as an accessor.
   */
  const InheritedMethods: set<string> := {
    "constructor", "toString", "toLocaleString", "valueOf", "hasOwnProperty",
    "isPrototypeOf", "propertyIsEnumerable", "__defineGetter__",
    "__defineSetter__", "__lookupGetter__", "__lookupSetter__"}

  /** The action whose key is the prototype accessor of the accumulator. */
  const ProtoKey: Option<Json> := Some(JStr("__proto__"))

  /** An action whose key reads an inherited method before it is ever assigned. */
  predicate Inherited(a: Option<Json>)
  {
    a.Some? && a.value.JStr? && a.value.s in InheritedMethods
  }

  /**
   * A value of the accumulator: a number of occurrences, or the source text
   * of the inherited method `name` followed by `ones` characters "1", which
   * is what repeated `+ 1` makes of a function.
   */
  datatype Tally = Count(n: nat) | Appended(name: string, ones: nat)

  /** How many `+ 1`s a value has taken. */
  function Occurrences(t: Tally): nat
  {
    match t
    case Count(n) => n
    case Appended(_, k) => k
  }

  /** `m[a] || 0`: the own value, else the inherited method, else 0. */
  function Lookup(m: map<Option<Json>, Tally>, a: Option<Json>): (r: Tally)
    ensures a !in m && !Inherited(a) ==> r == Count(0)
    ensures a !in m && Inherited(a) ==> r == Appended(a.value.s, 0)
  {
    if a in m then m[a] else if Inherited(a) then Appended(a.value.s, 0) else Count(0)
  }

  /** `v + 1`: arithmetic on a count, string concatenation on a function. */
  function PlusOne(t: Tally): (r: Tally)
    ensures Occurrences(r) == Occurrences(t) + 1
    ensures r.Appended? <==> t.Appended?
  {
    match t
    case Count(n) => Count(n + 1)
    case Appended(f, k) => Appended(f, k + 1)
  }

  /**
   * The accumulator after the `reduce` over a list of actions. Assigning a
   * string to `__proto__` goes to the prototype setter, which ignores it.
   */
  function Histogram(actions: seq<Option<Json>>): map<Option<Json>, Tally>
  {
    if actions == [] then map[]
    else
      var m := Histogram(actions[..|actions| - 1]);
      var a := actions[|actions| - 1];
      if a == ProtoKey then m else m[a := PlusOne(Lookup(m, a))]
  }

  /** `e.action` for each event, in order. */
  function Actions(data: seq<Json>): (r: seq<Option<Json>>)
    ensures |r| == |data| && forall i :: 0 <= i < |data| ==> r[i] == Prop(data[i], "action")
  {
    seq(|data|, i requires 0 <= i < |data| => Prop(data[i], "action"))
  }

  /**
   * The `reduce` that builds the action distribution, as the loop it is.
   */
  method CountActions(data: seq<Json>) returns (m: map<Option<Json>, Tally>)
    ensures m == Histogram(Actions(data))
  {
    m := map[];
    var i := 0;
    while i < |data|
      invariant 0 <= i <= |data|
      invariant m == Histogram(Actions(data)[..i])
    {
      var a := Prop(data[i], "action");
      assert Actions(data)[..i + 1][..i] == Actions(data)[..i];
      var prior := if a in m then m[a] else if Inherited(a) then Appended(a.value.s, 0) else Count(0);
      if a != ProtoKey {
        m := m[a := PlusOne(prior)];
      }
      i := i + 1;
    }
    assert Actions(data)[..i] == Actions(data);
  }

  /** The loop over the required keys of event `idx`: one line per missing key. */
  method CheckKeys(idx: nat, ev: Json) returns (lines: seq<Violation>)
    ensures lines == MissingViolations(idx, ev, Required)
  {
    lines := [];
    var k := 0;
    while k < |Required|
      invariant 0 <= k <= |Required|
      invariant lines == MissingViolations(idx, ev, Required[..k])
    {
      assert Required[..k + 1][..k] == Required[..k];
      if !HasKey(ev, Required[k]) {
        lines := lines + [Violation(idx, MissingKey(Required[k]))];
      }
      k := k + 1;
    }
    assert Required[..k] == Required;
  }

  /**
   * The body of the `forEach` callback for one object `ev` at position `idx`:
   * the lines it prints, and the seen set after it.
   */
  method CheckEvent(idx: nat, ev: Json, seen: set<Option<Json>>) returns (lines: seq<Violation>, seen': set<Option<Json>>)
    ensures lines == EventViolations(idx, ev, seen)
    ensures seen' == Remember(seen, Order(ev))
  {
    var missing := CheckKeys(idx, ev);
    var typed;
    typed, seen' := CheckTypes(idx, ev, seen);
    lines := missing + typed;
  }

  /**
   * The checks on `event_order`, `delay` and `misc_data` of event `idx`, and
   * the recording of its order in the seen set.
   */
  method CheckTypes(idx: nat, ev: Json, seen: set<Option<Json>>) returns (lines: seq<Violation>, seen': set<Option<Json>>)
    ensures lines == TypeViolations(idx, ev, seen, TypeChecks)
    ensures seen' == Remember(seen, Order(ev))
  {
    lines := [];
    var o := Order(ev);
    if Primitive(o) && o in seen {
      lines := lines + [Violation(idx, DuplicateOrder(o))];
    }
    seen' := Remember(seen, o);
    assert lines == Emit(idx, Found(Duplicate, ev, seen));
    if !IsNumber(o) {
      lines := lines + [Violation(idx, OrderNotNumber(o))];
    }
    assert lines == Emit(idx, Found(Duplicate, ev, seen)) + Emit(idx, Found(OrderType, ev, seen));
    if !IsNumber(Prop(ev, "delay")) {
      lines := lines + [Violation(idx, DelayNotNumber(o))];
    }
    assert lines == Emit(idx, Found(Duplicate, ev, seen)) + Emit(idx, Found(OrderType, ev, seen))
      + Emit(idx, Found(DelayType, ev, seen));
    if !IsObject(Prop(ev, "misc_data")) {
      lines := lines + [Violation(idx, MiscNotObject(o))];
    }
    TypeViolationsAll(idx, ev, seen);
  }

  /** The four checks, one after the other. */
  lemma TypeViolationsAll(idx: nat, ev: Json, seen: set<Option<Json>>)
    ensures TypeViolations(idx, ev, seen, TypeChecks) ==
      Emit(idx, Found(Duplicate, ev, seen)) + Emit(idx, Found(OrderType, ev, seen))
      + Emit(idx, Found(DelayType, ev, seen)) + Emit(idx, Found(MiscType, ev, seen))
  {
    var t := TypeChecks;
    assert t[..1][..0] == [];
    assert TypeViolations(idx, ev, seen, t[..1]) == Emit(idx, Found(Duplicate, ev, seen));
    assert t[..2][..1] == t[..1];
    assert TypeViolations(idx, ev, seen, t[..2]) == TypeViolations(idx, ev, seen, t[..1]) + Emit(idx, Found(OrderType, ev, seen));
    assert t[..3][..2] == t[..2];
    assert TypeViolations(idx, ev, seen, t[..3]) == TypeViolations(idx, ev, seen, t[..2]) + Emit(idx, Found(DelayType, ev, seen));
    assert t[..3] == t[..|t| - 1];
  }



  /**
   * The `forEach` over the events: checks each one in turn, collecting every
   * violation, and stops only when `k in ev` throws on an item that is not
   * an object.
   */
  method CheckEvents(data: seq<Json>) returns (out: Outcome)
    ensures out.Checked? || out.Crashed?
    ensures out.Checked? <==> forall i :: 0 <= i < |data| ==> IsRecord(data[i])
    ensures out.Checked? ==> out.violations == Violations(data)
    ensures out.Checked? ==> (out.histogram.Some? <==> out.violations == [])
    ensures out.Checked? && out.histogram.Some? ==> out.histogram.value == Histogram(Actions(data))
    ensures out.Crashed? ==>
      out.at < |data| && !IsRecord(data[out.at])
      && (forall i :: 0 <= i < out.at ==> IsRecord(data[i]))
      && out.reported == Violations(data[..out.at])
  {
    var ok := true;
    var seen: set<Option<Json>> := {};
    var report: seq<Violation> := [];
    var idx := 0;
    while idx < |data|
      invariant 0 <= idx <= |data|
      invariant forall j :: 0 <= j < idx ==> IsRecord(data[j])
      invariant report == Violations(data[..idx])
      invariant seen == SeenOf(data[..idx])
      invariant ok == (report == [])
    {
      var ev := data[idx];
      if !IsRecord(ev) {
        return Crashed(report, idx);
      }
      assert forall j :: 0 <= j <= idx ==> IsRecord(data[j]);
      assert data[..idx + 1][..idx] == data[..idx];
      var lines;
      lines, seen := CheckEvent(idx, ev, seen);
      report := report + lines;
      ok := ok && lines == [];
      idx := idx + 1;
    }
    assert data[..idx] == data;
    if ok {
      var histogram := CountActions(data);
      out := Checked(report, Some(histogram));
    } else {
      out := Checked(report, None);
    }
  }

  /** The whole script: argument, file, JSON, top-level shape, then the per-event checks. */
  method Validate(input: Input) returns (out: Outcome)
    ensures input.NoFileArgument? ==> out == Usage
    ensures input.Unreadable? ==> out == ReadFailed
    ensures input.Read? && input.parsed.None? ==> out == InvalidJson
    ensures input.Read? && input.parsed.Some? && !input.parsed.value.JArr? ==> out == NotArray
    ensures ExitCode(out) == 0 <==>
      input.Read? && input.parsed.Some? && input.parsed.value.JArr?
      && (forall i :: 0 <= i < |input.parsed.value.items| ==> IsRecord(input.parsed.value.items[i]))
      && WellFormed(input.parsed.value.items)
  {
    match input
    case NoFileArgument => out := Usage;
    case Unreadable => out := ReadFailed;
    case Read(parsed) =>
      if parsed.None? {
        out := InvalidJson;
      } else if !parsed.value.JArr? {
        out := NotArray;
      } else {
        out := CheckEvents(parsed.value.items);
        PassIffWellFormed(parsed.value.items);
      }
  }

  // ---------------------------------------------------------------------------
  // What a pass means, stated without the loop

  /**
   * An event that passes every check of its own: all required keys present,
   * `event_order` and `delay` numbers, `misc_data` an object or an array.
   */
  predicate Passes(ev: Json)
  {
    && (forall k :: k in Required ==> HasKey(ev, k))
    && IsNumber(Order(ev))
    && IsNumber(Prop(ev, "delay"))
    && IsObject(Prop(ev, "misc_data"))
  }

  /** The events a pass accepts: each passes its own checks, and no two share an `event_order`. */
  predicate WellFormed(data: seq<Json>)
  {
    && (forall i :: 0 <= i < |data| ==> Passes(data[i]))
    && (forall i, j :: 0 <= i < j < |data| ==> Order(data[i]) != Order(data[j]))
  }

  /** Well-formedness of a list in terms of its prefix and its last event. */
  lemma WellFormedSnoc(data: seq<Json>)
    requires data != []
    ensures WellFormed(data) <==>
      WellFormed(data[..|data| - 1]) && Passes(data[|data| - 1])
      && forall i :: 0 <= i < |data| - 1 ==> Order(data[i]) != Order(data[|data| - 1])
  {
    var init := data[..|data| - 1];
    assert forall i :: 0 <= i < |init| ==> init[i] == data[i];
  }

  /** The seen set holds exactly the value-compared orders of the prefix. */
  lemma {:induction false} SeenOfIsOrders(data: seq<Json>, v: Option<Json>)
    ensures v in SeenOf(data) <==> Primitive(v) && exists i :: 0 <= i < |data| && Order(data[i]) == v
  {
    if data != [] {
      var n := |data| - 1;
      SeenOfIsOrders(data[..n], v);
      if Primitive(v) && (exists i :: 0 <= i < |data| && Order(data[i]) == v) {
        var i :| 0 <= i < |data| && Order(data[i]) == v;
        if i < n {
          assert Order(data[..n][i]) == v;
        }
      }
      if exists i :: 0 <= i < n && Order(data[..n][i]) == v {
        var i :| 0 <= i < n && Order(data[..n][i]) == v;
        assert Order(data[i]) == v;
      }
    }
  }

  /** A missing-key report is made exactly for each required key the event lacks. */
  lemma {:induction false} MissingViolationsAt(idx: nat, ev: Json, keys: seq<string>, x: Violation)
    ensures x in MissingViolations(idx, ev, keys) <==>
      x.index == idx && x.problem.MissingKey? && x.problem.key in keys && !HasKey(ev, x.problem.key)
  {
    if keys != [] {
      var n := |keys| - 1;
      MissingViolationsAt(idx, ev, keys[..n], x);
      assert keys == keys[..n] + [keys[n]];
    }
  }

  /** No missing-key report iff every required key is present. */
  lemma {:induction false} MissingViolationsEmpty(idx: nat, ev: Json, keys: seq<string>)
    ensures MissingViolations(idx, ev, keys) == [] <==> forall k :: k in keys ==> HasKey(ev, k)
  {
    if MissingViolations(idx, ev, keys) != [] {
      var x := MissingViolations(idx, ev, keys)[0];
      MissingViolationsAt(idx, ev, keys, x);
    }
    if exists k :: k in keys && !HasKey(ev, k) {
      var k :| k in keys && !HasKey(ev, k);
      MissingViolationsAt(idx, ev, keys, Violation(idx, MissingKey(k)));
    }
  }

  /** What a report line about an event says, given the orders seen before that event. */
  predicate Holds(ev: Json, seen: set<Option<Json>>, p: Problem)
  {
    match p
    case MissingKey(k) => k in Required && !HasKey(ev, k)
    case DuplicateOrder(o) => o == Order(ev) && Primitive(o) && o in seen
    case OrderNotNumber(o) => o == Order(ev) && !IsNumber(o)
    case DelayNotNumber(o) => o == Order(ev) && !IsNumber(Prop(ev, "delay"))
    case MiscNotObject(o) => o == Order(ev) && !IsObject(Prop(ev, "misc_data"))
  }

  /** A type report is made exactly when one of the checks finds its problem. */
  lemma {:induction false} TypeViolationsAt(idx: nat, ev: Json, seen: set<Option<Json>>, checks: seq<Check>, x: Violation)
    ensures x in TypeViolations(idx, ev, seen, checks) <==>
      x.index == idx && exists c :: c in checks && Found(c, ev, seen) == Some(x.problem)
  {
    if checks != [] {
      var n := |checks| - 1;
      TypeViolationsAt(idx, ev, seen, checks[..n], x);
      assert checks == checks[..n] + [checks[n]];
    }
  }

  /** A report for an event is made exactly when its problem holds. */
  lemma {:induction false} EventViolationsAt(idx: nat, ev: Json, seen: set<Option<Json>>, x: Violation)
    ensures x in EventViolations(idx, ev, seen) <==> x.index == idx && Holds(ev, seen, x.problem)
  {
    MissingViolationsAt(idx, ev, Required, x);
    TypeViolationsAt(idx, ev, seen, TypeChecks, x);
    if !x.problem.MissingKey? {
      HoldsIffFound(ev, seen, x.problem);
    }
  }

  /** What the four checks can find is exactly what a non-missing-key line may say. */
  lemma HoldsIffFound(ev: Json, seen: set<Option<Json>>, p: Problem)
    requires !p.MissingKey?
    ensures Holds(ev, seen, p) <==> exists c :: c in TypeChecks && Found(c, ev, seen) == Some(p)
  {
    match p
    case DuplicateOrder(_) => assert Found(Duplicate, ev, seen) == Some(p) <==> Holds(ev, seen, p);
    case OrderNotNumber(_) => assert Found(OrderType, ev, seen) == Some(p) <==> Holds(ev, seen, p);
    case DelayNotNumber(_) => assert Found(DelayType, ev, seen) == Some(p) <==> Holds(ev, seen, p);
    case MiscNotObject(_) => assert Found(MiscType, ev, seen) == Some(p) <==> Holds(ev, seen, p);
  }

  /** Every line of the report is about the event whose index it carries, and says something true of it. */
  lemma {:induction false} ViolationsAt(data: seq<Json>, x: Violation)
    ensures x in Violations(data) <==>
      x.index < |data| && Holds(data[x.index], SeenOf(data[..x.index]), x.problem)
  {
    if data != [] {
      var n := |data| - 1;
      var init := data[..n];
      ViolationsAt(init, x);
      EventViolationsAt(n, data[n], SeenOf(init), x);
      assert Violations(data) == Violations(init) + EventViolations(n, data[n], SeenOf(init));
      if x.index < n {
        assert init[..x.index] == data[..x.index];
        assert init[x.index] == data[x.index];
        assert x !in EventViolations(n, data[n], SeenOf(init));
      } else {
        assert x !in Violations(init);
      }
    }
  }

  /** A value-compared order is unseen before the last event exactly when no earlier event has it. */
  lemma UnseenIffNew(data: seq<Json>)
    requires data != []
    ensures var n := |data| - 1; Primitive(Order(data[n])) ==>
      (Order(data[n]) !in SeenOf(data[..n]) <==> forall i :: 0 <= i < n ==> Order(data[i]) != Order(data[n]))
  {
    var n := |data| - 1;
    SeenOfIsOrders(data[..n], Order(data[n]));
    assert forall i :: 0 <= i < n ==> data[..n][i] == data[i];
  }

  /** An event draws no report line exactly when it passes its own checks and its order is new. */
  lemma {:induction false} EventViolationsEmpty(idx: nat, ev: Json, seen: set<Option<Json>>)
    ensures EventViolations(idx, ev, seen) == [] <==> Passes(ev) && Order(ev) !in seen
  {
    var o := Order(ev);
    if EventViolations(idx, ev, seen) != [] {
      EventViolationsAt(idx, ev, seen, EventViolations(idx, ev, seen)[0]);
    }
    forall k | k in Required && !HasKey(ev, k)
      ensures EventViolations(idx, ev, seen) != []
    {
      EventViolationsAt(idx, ev, seen, Violation(idx, MissingKey(k)));
    }
    EventViolationsAt(idx, ev, seen, Violation(idx, DuplicateOrder(o)));
    EventViolationsAt(idx, ev, seen, Violation(idx, OrderNotNumber(o)));
    EventViolationsAt(idx, ev, seen, Violation(idx, DelayNotNumber(o)));
    EventViolationsAt(idx, ev, seen, Violation(idx, MiscNotObject(o)));
  }

  /** The report is empty exactly when the events are well formed. */
  lemma {:induction false} PassIffWellFormed(data: seq<Json>)
    ensures Violations(data) == [] <==> WellFormed(data)
  {
    if data != [] {
      var n := |data| - 1;
      var init := data[..n];
      var ev := data[n];
      PassIffWellFormed(init);
      EventViolationsEmpty(n, ev, SeenOf(init));
      UnseenIffNew(data);
      WellFormedSnoc(data);
      assert Violations(data) == Violations(init) + EventViolations(n, ev, SeenOf(init));
    }
  }

  // ---------------------------------------------------------------------------
  // Properties of the report

  /** Every missing key of every event is reported, and nothing else is reported as missing. */
  lemma {:induction false} MissingKeysAllReported(data: seq<Json>, i: nat, k: string)
    ensures Violation(i, MissingKey(k)) in Violations(data) <==>
      i < |data| && k in Required && !HasKey(data[i], k)
  {
    ViolationsAt(data, Violation(i, MissingKey(k)));
  }

  /**
   * A duplicate is reported at the second and every later occurrence of an
   * order value, never at the first one.
   */
  lemma {:induction false} DuplicateAtLaterOccurrence(data: seq<Json>, j: nat, v: Option<Json>)
    ensures Violation(j, DuplicateOrder(v)) in Violations(data) <==>
      j < |data| && Order(data[j]) == v && Primitive(v)
      && exists i :: 0 <= i < j && Order(data[i]) == v
  {
    ViolationsAt(data, Violation(j, DuplicateOrder(v)));
    if j < |data| {
      SeenOfIsOrders(data[..j], v);
      if exists i :: 0 <= i < j && Order(data[i]) == v {
        var i :| 0 <= i < j && Order(data[i]) == v;
        assert Order(data[..j][i]) == v;
      }
    }
  }

  /** `delay` is only checked to be a number: any number, negative or fractional, passes. */
  lemma {:induction false} DelayOnlyTypeChecked(data: seq<Json>, i: nat)
    requires i < |data|
    ensures (exists o :: Violation(i, DelayNotNumber(o)) in Violations(data)) <==>
      !IsNumber(Prop(data[i], "delay"))
  {
    ViolationsAt(data, Violation(i, DelayNotNumber(Order(data[i]))));
    if exists o :: Violation(i, DelayNotNumber(o)) in Violations(data) {
      var o :| Violation(i, DelayNotNumber(o)) in Violations(data);
      ViolationsAt(data, Violation(i, DelayNotNumber(o)));
    }
  }

  /** `misc_data` is rejected exactly when it is missing, null or a primitive; an array passes. */
  lemma {:induction false} MiscObjectCheck(data: seq<Json>, i: nat)
    requires i < |data|
    ensures (exists o :: Violation(i, MiscNotObject(o)) in Violations(data)) <==>
      !(Prop(data[i], "misc_data").Some? && (Prop(data[i], "misc_data").value.JObj? || Prop(data[i], "misc_data").value.JArr?))
  {
    ViolationsAt(data, Violation(i, MiscNotObject(Order(data[i]))));
    if exists o :: Violation(i, MiscNotObject(o)) in Violations(data) {
      var o :| Violation(i, MiscNotObject(o)) in Violations(data);
      ViolationsAt(data, Violation(i, MiscNotObject(o)));
    }
  }

  /** The number of events of the list with a given action. */
  function CountOf(actions: seq<Option<Json>>, a: Option<Json>): nat
  {
    if actions == [] then 0
    else CountOf(actions[..|actions| - 1], a) + (if actions[|actions| - 1] == a then 1 else 0)
  }

  /** The number of `+ 1`s the accumulator holds over all its keys. */
  ghost function Total(m: map<Option<Json>, Tally>): nat
    decreases |m|
  {
    if m == map[] then 0
    else
      var k :| k in m;
      Occurrences(m[k]) + Total(m - {k})
  }

  /** The sum splits off one key's occurrences. */
  lemma {:induction false} TotalRemove(m: map<Option<Json>, Tally>, k: Option<Json>)
    requires k in m
    ensures Total(m) == Occurrences(m[k]) + Total(m - {k})
    decreases |m|
  {
    var k' :| k' in m && Total(m) == Occurrences(m[k']) + Total(m - {k'});
    if k' != k {
      var m1 := m - {k'};
      var m2 := m - {k};
      TotalRemove(m1, k);
      TotalRemove(m2, k');
      assert m1 - {k} == m2 - {k'};
    }
  }

  /** Replacing one value changes the sum by the difference of their occurrences. */
  lemma {:induction false} TotalUpdate(m: map<Option<Json>, Tally>, k: Option<Json>, v: Tally)
    ensures Total(m[k := v]) == Total(m) - (if k in m then Occurrences(m[k]) else 0) + Occurrences(v)
  {
    TotalRemove(m[k := v], k);
    assert m[k := v] - {k} == m - {k};
    if k in m {
      TotalRemove(m, k);
    } else {
      assert m - {k} == m;
    }
  }

  /** The accumulator has an own key for exactly the actions that occur, except `__proto__`. */
  lemma {:induction false} HistogramKeys(actions: seq<Option<Json>>)
    ensures forall a :: a in Histogram(actions) <==> a in actions && a != ProtoKey
  {
    if actions != [] {
      var n := |actions| - 1;
      var init := actions[..n];
      HistogramKeys(init);
      assert actions == init + [actions[n]];
    }
  }

  /**
   * Each key holds its number of occurrences: as a number for an ordinary
   * action, and as that many "1"s after the method's text for an inherited
   * method's name.
   */
  lemma {:induction false} HistogramValues(actions: seq<Option<Json>>)
    ensures forall a :: a in Histogram(actions) ==>
      && Occurrences(Histogram(actions)[a]) == CountOf(actions, a)
      && (Histogram(actions)[a].Appended? <==> Inherited(a))
      && (Histogram(actions)[a].Appended? ==> Histogram(actions)[a].name == a.value.s)
  {
    if actions != [] {
      var n := |actions| - 1;
      var init := actions[..n];
      HistogramValues(init);
      HistogramKeys(init);
      var m := Histogram(init);
      var a := actions[n];
      if a !in m && a != ProtoKey {
        CountOfAbsent(init, a);
      }
    }
  }

  /**
   * Every event is counted once, except those whose action is `__proto__`,
   * which the accumulator drops.
   */
  lemma {:induction false} HistogramTotal(actions: seq<Option<Json>>)
    ensures Total(Histogram(actions)) == |actions| - CountOf(actions, ProtoKey)
  {
    if actions != [] {
      var n := |actions| - 1;
      var m := Histogram(actions[..n]);
      HistogramTotal(actions[..n]);
      CountOfBound(actions[..n], ProtoKey);
      var a := actions[n];
      if a != ProtoKey {
        TotalUpdate(m, a, PlusOne(Lookup(m, a)));
      }
    }
  }

  /** No action occurs more often than there are events. */
  lemma {:induction false} CountOfBound(actions: seq<Option<Json>>, a: Option<Json>)
    ensures CountOf(actions, a) <= |actions|
  {
    if actions != [] {
      CountOfBound(actions[..|actions| - 1], a);
    }
  }

  /** An action that does not occur is counted 0 times. */
  lemma {:induction false} CountOfAbsent(actions: seq<Option<Json>>, a: Option<Json>)
    requires a !in actions
    ensures CountOf(actions, a) == 0
  {
    if actions != [] {
      assert a !in actions[..|actions| - 1];
      CountOfAbsent(actions[..|actions| - 1], a);
    }
  }
}
