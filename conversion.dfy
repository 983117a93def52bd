/**
 * The row builder of the negative dataset: every gesture record of every list
 * trace of every app is classified and turned into one output row, unless a
 * row with the same deduplication key was emitted before, in this call or in
 * an earlier one (the set of seen keys lives as long as the program).
 */
module Conversion {
  import opened Wrappers
  import opened Geometry
  import opened Classifier

  /** The `component_info` object of a gesture record; absent optional keys read as shown. */
  datatype ComponentInfo = ComponentInfo(
    bounds: seq<int>,
    cls: string,
    totalComponents: int,
    descendantCount: int,
    descendantClasses: seq<string>,
    clickable: Option<bool>,              // `None`: the text 'false' the matcher writes for an absent key
    spacing: map<string, Extended>,       // absent "spacing" reads as `{}`
    hierarchyDepth: Option<int>,          // absent reads as 0
    nestingLevel: Option<int>,            // absent reads as 0
    ancestors: seq<string>,               // absent reads as []
    siblings: seq<string>)                // absent reads as []

  /** One gesture record: `UI` (absent reads as `None`), `gesture_converted` and `component_info`. */
  datatype GestureRecord = GestureRecord(ui: Option<string>, gesture: (real, real), info: ComponentInfo)

  /** The value of a trace entry: a list of records, or anything else (such as the "None file" marker). */
  datatype TraceValue = Records(records: seq<GestureRecord>) | NotAList

  datatype AppEntry = AppEntry(appName: string, traces: seq<(string, TraceValue)>)

  /** A gesture record together with the name of its app. */
  type Item = (string, GestureRecord)

  /** The deduplication key: app, UI, raw class, classified ancestors, classified siblings, clickable. */
  type Key = (string, Option<string>, string, seq<string>, seq<string>, Option<bool>)

  /** One row of the classified CSV. */
  datatype OutRow = OutRow(
    appName: string,
    ui: Option<string>,
    gestureX: real,
    gestureY: real,
    bounds: seq<int>,
    classifiedClass: string,
    clickable: Option<bool>,
    ancestorsCnt: nat,
    siblingsCnt: nat,
    ancestors: seq<string>,
    siblings: seq<string>,
    hierarchyDepth: int,
    nestingLevel: int,
    topSpacing: Option<Extended>,
    bottomSpacing: Option<Extended>,
    leftSpacing: Option<Extended>,
    rightSpacing: Option<Extended>,
    totalComponents: int,
    descendantCount: int,
    descendantClasses: seq<string>)

  /** The header row of the Other-class log. */
  const Header: OtherRow := ("App", Some("UI"), "Class")

  function SpacingValue(spacing: map<string, Extended>, key: string): Option<Extended> {
    if key in spacing then Some(spacing[key]) else None
  }

  // ---------------------------------------------------------------------
  // One gesture record
  // ---------------------------------------------------------------------

  function KeyOf(table: Table, it: Item): Key {
    var (app, g) := it;
    (app, g.ui, g.info.cls, ClassifyAll(g.info.ancestors, table), ClassifyAll(g.info.siblings, table),
     g.info.clickable)
  }

  /** The row of a gesture record; the counts are those of the classified lists. */
  function RowOf(table: Table, it: Item): (r: OutRow)
    ensures r.ancestorsCnt == |r.ancestors| == |it.1.info.ancestors|
    ensures r.siblingsCnt == |r.siblings| == |it.1.info.siblings|
    ensures |r.descendantClasses| == |it.1.info.descendantClasses|
    ensures it.1.info.hierarchyDepth.None? ==> r.hierarchyDepth == 0
    ensures it.1.info.nestingLevel.None? ==> r.nestingLevel == 0
  {
    var (app, g) := it;
    var info := g.info;
    var ancestors := ClassifyAll(info.ancestors, table);
    var siblings := ClassifyAll(info.siblings, table);
    OutRow(app, g.ui, g.gesture.0, g.gesture.1, info.bounds, Classify(info.cls, table), info.clickable,
           |ancestors|, |siblings|, ancestors, siblings,
           info.hierarchyDepth.GetOr(0), info.nestingLevel.GetOr(0),
           SpacingValue(info.spacing, "top_spacing"), SpacingValue(info.spacing, "bottom_spacing"),
           SpacingValue(info.spacing, "left_spacing"), SpacingValue(info.spacing, "right_spacing"),
           info.totalComponents, info.descendantCount, ClassifyAll(info.descendantClasses, table))
  }

  /**
   * The Other-log rows a gesture record writes, in call order: its descendant
   * classes, its own class, its ancestors, its siblings.
   */
  function GestureLog(table: Table, it: Item): seq<OtherRow> {
    var (app, g) := it;
    var info := g.info;
    OtherRows(app, g.ui, info.descendantClasses, ClassifyAll(info.descendantClasses, table)) +
    (if Classify(info.cls, table) == Other then [(app, g.ui, info.cls)] else []) +
    OtherRows(app, g.ui, info.ancestors, ClassifyAll(info.ancestors, table)) +
    OtherRows(app, g.ui, info.siblings, ClassifyAll(info.siblings, table))
  }

  /** The body of the innermost loop up to the duplicate check: classification, key and row. */
  method ConvertGesture(table: Table, app: string, g: GestureRecord, log0: seq<OtherRow>)
    returns (row: OutRow, key: Key, log: seq<OtherRow>)
    ensures row == RowOf(table, (app, g)) && key == KeyOf(table, (app, g))
    ensures log == log0 + GestureLog(table, (app, g))
  {
    var info := g.info;
    var descendants, log1 := ProcessClasses(app, g.ui, info.descendantClasses, table, log0);
    var cls, log2 := ClassifyComponentClass(app, g.ui, info.cls, table, log1);
    var ancestors, log3 := ProcessClasses(app, g.ui, info.ancestors, table, log2);
    var siblings, log4 := ProcessClasses(app, g.ui, info.siblings, table, log3);
    ghost var d := OtherRows(app, g.ui, info.descendantClasses, descendants);
    ghost var c := if cls == Other then [(app, g.ui, info.cls)] else [];
    ghost var a := OtherRows(app, g.ui, info.ancestors, ancestors);
    ghost var s := OtherRows(app, g.ui, info.siblings, siblings);
    assert GestureLog(table, (app, g)) == d + c + a + s;
    AppendFour(log0, d, c, a, s);
    log := log4;
    key := (app, g.ui, info.cls, ancestors, siblings, info.clickable);
    row := OutRow(app, g.ui, g.gesture.0, g.gesture.1, info.bounds, cls, info.clickable,
                  |ancestors|, |siblings|, ancestors, siblings,
                  info.hierarchyDepth.GetOr(0), info.nestingLevel.GetOr(0),
                  SpacingValue(info.spacing, "top_spacing"), SpacingValue(info.spacing, "bottom_spacing"),
                  SpacingValue(info.spacing, "left_spacing"), SpacingValue(info.spacing, "right_spacing"),
                  info.totalComponents, info.descendantCount, descendants);
  }

  lemma AppendFour<T>(x: seq<T>, a: seq<T>, b: seq<T>, c: seq<T>, d: seq<T>)
    ensures x + a + b + c + d == x + (a + b + c + d)
  {}

  // ---------------------------------------------------------------------
  // The records in loop order
  // ---------------------------------------------------------------------

  function RecordItems(app: string, gs: seq<GestureRecord>): (r: seq<Item>)
    ensures |r| == |gs| && forall i :: 0 <= i < |gs| ==> r[i] == (app, gs[i])
  {
    seq(|gs|, i requires 0 <= i < |gs| => (app, gs[i]))
  }

  lemma RecordItemsSnoc(done: seq<Item>, app: string, gs: seq<GestureRecord>, n: nat)
    requires n < |gs|
    ensures done + RecordItems(app, gs[..n + 1]) == done + RecordItems(app, gs[..n]) + [(app, gs[n])]
  {
  }

  lemma AppItemsSnoc(done: seq<Item>, app: string, traces: seq<(string, TraceValue)>, n: nat)
    requires n < |traces|
    ensures done + AppItems(app, traces[..n + 1]) == done + AppItems(app, traces[..n]) + TraceItems(app, traces[n].1)
  {
    assert traces[..n + 1][..n] == traces[..n];
  }

  function TraceItems(app: string, v: TraceValue): seq<Item> {
    match v
    case Records(gs) => RecordItems(app, gs)
    case NotAList => []
  }

  function AppItems(app: string, traces: seq<(string, TraceValue)>): seq<Item> {
    if |traces| == 0 then []
    else AppItems(app, traces[..|traces| - 1]) + TraceItems(app, traces[|traces| - 1].1)
  }

  /** Every gesture record of every list trace, app by app and trace by trace. */
  function Items(data: seq<AppEntry>): seq<Item> {
    if |data| == 0 then []
    else Items(data[..|data| - 1]) + AppItems(data[|data| - 1].appName, data[|data| - 1].traces)
  }

  /** A record reaches the rows only from a trace whose value is a list, under its own app's name. */
  lemma {:induction false} ItemsFromListTraces(data: seq<AppEntry>)
    ensures forall it :: it in Items(data) ==>
      exists a, t :: 0 <= a < |data| && 0 <= t < |data[a].traces| &&
        it.0 == data[a].appName && data[a].traces[t].1.Records? && it.1 in data[a].traces[t].1.records
  {
    if |data| > 0 {
      var n := |data| - 1;
      ItemsFromListTraces(data[..n]);
      AppItemsFromListTraces(data[n].appName, data[n].traces);
      forall it | it in Items(data)
        ensures exists a, t ::
          0 <= a < |data| && 0 <= t < |data[a].traces| &&
          it.0 == data[a].appName && data[a].traces[t].1.Records? && it.1 in data[a].traces[t].1.records
      {
        if it in Items(data[..n]) {
          var a, t :| 0 <= a < n && 0 <= t < |data[..n][a].traces| &&
            it.0 == data[..n][a].appName && data[..n][a].traces[t].1.Records? && it.1 in data[..n][a].traces[t].1.records;
          assert data[..n][a] == data[a];
        } else {
          assert it in AppItems(data[n].appName, data[n].traces);
          var t :| 0 <= t < |data[n].traces| && it.0 == data[n].appName &&
            data[n].traces[t].1.Records? && it.1 in data[n].traces[t].1.records;
        }
      }
    }
  }

  lemma {:induction false} AppItemsFromListTraces(app: string, traces: seq<(string, TraceValue)>)
    ensures forall it :: it in AppItems(app, traces) ==>
      exists t :: 0 <= t < |traces| && it.0 == app && traces[t].1.Records? && it.1 in traces[t].1.records
  {
    if |traces| > 0 {
      var n := |traces| - 1;
      AppItemsFromListTraces(app, traces[..n]);
      forall it | it in AppItems(app, traces)
        ensures exists t :: 0 <= t < |traces| && it.0 == app && traces[t].1.Records? && it.1 in traces[t].1.records
      {
        if it in AppItems(app, traces[..n]) {
          var t :| 0 <= t < n && it.0 == app && traces[..n][t].1.Records? && it.1 in traces[..n][t].1.records;
          assert traces[..n][t] == traces[t];
        } else {
          var k :| 0 <= k < |TraceItems(app, traces[n].1)| && TraceItems(app, traces[n].1)[k] == it;
          assert traces[n].1.Records? && it.1 == traces[n].1.records[k];
        }
      }
    }
  }

  // ---------------------------------------------------------------------
  // Deduplication against the seen-set
  // ---------------------------------------------------------------------

  /**
   * The entries kept from `es` and the seen-set afterwards, starting from
   * `seen`: an entry is kept when its key is not yet seen, and its key is then
   * added. The theory is stated for any key and row types.
   */
  function Dedup<K(==), R>(seen: set<K>, es: seq<(K, R)>): (seq<(K, R)>, set<K>) {
    if |es| == 0 then ([], seen)
    else
      var (kept, s) := Dedup(seen, es[..|es| - 1]);
      var e := es[|es| - 1];
      if e.0 in s then (kept, s) else (kept + [e], s + {e.0})
  }

  function KeySet<K(==), R>(es: seq<(K, R)>): set<K> {
    set i | 0 <= i < |es| :: es[i].0
  }

  /**
   * The seen-set grows by exactly the keys of the entries; the kept entries
   * are entries of the input, no two share a key, none has a key seen before;
   * and every key new to the seen-set is the key of a kept entry.
   */
  lemma {:induction false} DedupFacts<K, R>(seen: set<K>, es: seq<(K, R)>)
    ensures var (kept, s) := Dedup(seen, es);
      && s == seen + KeySet(es)
      && (forall k :: 0 <= k < |kept| ==> kept[k] in es && kept[k].0 !in seen)
      && (forall k, l :: 0 <= k < l < |kept| ==> kept[k].0 != kept[l].0)
      && (forall key :: key in KeySet(es) && key !in seen ==> exists k :: 0 <= k < |kept| && kept[k].0 == key)
  {
    if |es| > 0 {
      var n := |es| - 1;
      var init := es[..n];
      DedupFacts(seen, init);
      assert KeySet(es) == KeySet(init) + {es[n].0} by {
        forall key | key in KeySet(es) ensures key in KeySet(init) + {es[n].0} {
          var i :| 0 <= i < |es| && key == es[i].0;
          if i < n {
            assert init[i] == es[i];
          }
        }
        forall key | key in KeySet(init) ensures key in KeySet(es) {
          var i :| 0 <= i < n && key == init[i].0;
          assert init[i] == es[i];
        }
      }
      assert forall x :: x in init ==> x in es;
      var (kept0, s0) := Dedup(seen, init);
      var e := es[n];
      if e.0 !in s0 {
        var kept := kept0 + [e];
        forall key | key in KeySet(es) && key !in seen
          ensures exists k :: 0 <= k < |kept| && kept[k].0 == key
        {
          if key == e.0 {
            assert kept[|kept0|].0 == key;
          } else {
            var k :| 0 <= k < |kept0| && kept0[k].0 == key;
            assert kept[k] == kept0[k];
          }
        }
      }
    }
  }

  /**
   * The first entry with a key not seen before is kept: if no earlier entry
   * shares its key, it is among the kept entries.
   */
  lemma {:induction false} FirstOccurrenceKept<K, R>(seen: set<K>, es: seq<(K, R)>, i: nat)
    requires i < |es| && es[i].0 !in seen
    requires forall j :: 0 <= j < i ==> es[j].0 != es[i].0
    ensures es[i] in Dedup(seen, es).0
  {
    var n := |es| - 1;
    var init := es[..n];
    if i < n {
      assert init[i] == es[i];
      FirstOccurrenceKept(seen, init, i);
    } else {
      DedupFacts(seen, init);
      assert forall j :: 0 <= j < n ==> init[j] == es[j];
    }
  }

  /** An entry whose key was seen before, or whose key an earlier entry has, is dropped. */
  lemma {:induction false} DuplicateDropped<K, R>(seen: set<K>, es: seq<(K, R)>)
    requires |es| > 0
    requires var e := es[|es| - 1];
      e.0 in seen || exists j :: 0 <= j < |es| - 1 && es[j].0 == e.0
    ensures Dedup(seen, es).0 == Dedup(seen, es[..|es| - 1]).0
  {
    var n := |es| - 1;
    DedupFacts(seen, es[..n]);
    if es[n].0 !in seen {
      var j :| 0 <= j < n && es[j].0 == es[n].0;
      assert es[..n][j] == es[j];
    }
  }

  /** Deduplicating two batches in turn, the seen-set carried over, is deduplicating them as one. */
  lemma {:induction false} DedupAppend<K, R>(seen: set<K>, a: seq<(K, R)>, b: seq<(K, R)>)
    ensures var (k1, s1) := Dedup(seen, a);
      var (k2, s2) := Dedup(s1, b);
      Dedup(seen, a + b) == (k1 + k2, s2)
    decreases |b|
  {
    if |b| == 0 {
      assert a + b == a;
      assert Dedup(seen, a).0 + [] == Dedup(seen, a).0;
    } else {
      var n := |b| - 1;
      assert (a + b)[..|a + b| - 1] == a + b[..n];
      DedupAppend(seen, a, b[..n]);
      var (k1, s1) := Dedup(seen, a);
      var (k2, s2) := Dedup(s1, b[..n]);
      var e := b[n];
      if e.0 !in s2 {
        assert k1 + (k2 + [e]) == k1 + k2 + [e];
      }
    }
  }

  /**
   * The seen-set persists: once a batch has been processed, processing the
   * same batch again keeps nothing.
   */
  lemma DedupAgainKeepsNothing<K, R>(seen: set<K>, es: seq<(K, R)>)
    ensures Dedup(Dedup(seen, es).1, es).0 == []
  {
    DedupFacts(seen, es);
    AllSeenKeepsNothing(Dedup(seen, es).1, es);
  }

  /** Entries whose keys are all seen are all dropped, and the seen-set stays as it is. */
  lemma {:induction false} AllSeenKeepsNothing<K, R>(seen: set<K>, es: seq<(K, R)>)
    requires KeySet(es) <= seen
    ensures Dedup(seen, es) == ([], seen)
  {
    if |es| > 0 {
      var n := |es| - 1;
      assert KeySet(es[..n]) <= KeySet(es) by {
        forall key | key in KeySet(es[..n]) ensures key in KeySet(es) {
          var i :| 0 <= i < n && key == es[..n][i].0;
          assert es[..n][i] == es[i];
        }
      }
      AllSeenKeepsNothing(seen, es[..n]);
      assert es[n].0 in KeySet(es);
    }
  }

  // ---------------------------------------------------------------------
  // process_data_from_json
  // ---------------------------------------------------------------------

  /** The key and the row of each element, in order. */
  function Pairs<T, K, R>(xs: seq<T>, key: T -> K, row: T -> R): (r: seq<(K, R)>)
    ensures |r| == |xs| && forall i :: 0 <= i < |xs| ==> r[i] == (key(xs[i]), row(xs[i]))
  {
    seq(|xs|, i requires 0 <= i < |xs| => (key(xs[i]), row(xs[i])))
  }

  lemma PairsSnoc<T, K, R>(xs: seq<T>, x: T, key: T -> K, row: T -> R)
    ensures Pairs(xs + [x], key, row) == Pairs(xs, key, row) + [(key(x), row(x))]
  {
  }

  /** The deduplication key and the output row of each record. */
  function Entries(table: Table, items: seq<Item>): seq<(Key, OutRow)> {
    Pairs(items, it => KeyOf(table, it), it => RowOf(table, it))
  }

  /** The rows of kept entries. */
  function Values<K, R>(kept: seq<(K, R)>): (r: seq<R>)
    ensures |r| == |kept| && forall i :: 0 <= i < |kept| ==> r[i] == kept[i].1
  {
    seq(|kept|, i requires 0 <= i < |kept| => kept[i].1)
  }

  lemma ValuesSnoc<K, R>(kept: seq<(K, R)>, e: (K, R))
    ensures Values(kept + [e]) == Values(kept) + [e.1]
  {
  }

  lemma DedupSnoc<K, R>(seen: set<K>, es: seq<(K, R)>, e: (K, R))
    ensures var (kept, s) := Dedup(seen, es);
      Dedup(seen, es + [e]) == if e.0 in s then (kept, s) else (kept + [e], s + {e.0})
  {
    assert (es + [e])[..|es|] == es;
  }

  /** The concatenation of `f` over the elements, in order. */
  function Concat<T, L>(xs: seq<T>, f: T -> seq<L>): seq<L> {
    if |xs| == 0 then [] else Concat(xs[..|xs| - 1], f) + f(xs[|xs| - 1])
  }

  lemma ConcatSnoc<T, L>(head: seq<L>, xs: seq<T>, x: T, f: T -> seq<L>)
    ensures head + Concat(xs + [x], f) == head + Concat(xs, f) + f(x)
  {
    assert (xs + [x])[..|xs|] == xs;
  }

  /** The Other log rows the records write, in order. */
  function LogOf(table: Table, items: seq<Item>): seq<OtherRow> {
    Concat(items, it => GestureLog(table, it))
  }

  /**
   * What a call has produced after the records `done`, from the seen-set
   * `seen0`: the rows of the kept records, the seen-set and the Other log.
   */
  ghost predicate Tracked(table: Table, seen0: set<Key>, done: seq<Item>,
                          rows: seq<OutRow>, recorded: set<Key>, others: seq<OtherRow>)
  {
    var (kept, seen) := Dedup(seen0, Entries(table, done));
    rows == Values(kept) && recorded == seen && others == [Header] + LogOf(table, done)
  }

  /** Converting one more record: its row is added exactly when its key has not been seen. */
  lemma TrackedStep(table: Table, seen0: set<Key>, done: seq<Item>, it: Item,
                    rows: seq<OutRow>, recorded: set<Key>, others: seq<OtherRow>)
    requires Tracked(table, seen0, done, rows, recorded, others)
    ensures var key := KeyOf(table, it);
      Tracked(table, seen0, done + [it],
              if key in recorded then rows else rows + [RowOf(table, it)],
              if key in recorded then recorded else recorded + {key},
              others + GestureLog(table, it))
  {
    var key, row := KeyOf(table, it), RowOf(table, it);
    PairsSnoc(done, it, x => KeyOf(table, x), x => RowOf(table, x));
    ghost var kept := Dedup(seen0, Entries(table, done)).0;
    DedupSnoc(seen0, Entries(table, done), (key, row));
    ValuesSnoc(kept, (key, row));
    ConcatSnoc([Header], done, it, x => GestureLog(table, x));
  }

  /** The module-level `recorded_ui_classes` set, kept across calls. */
  class Converter {
    var recorded: set<Key>
    /** The classifier's keyword table the converter classifies with. */
    const table: Table

    constructor()
      ensures recorded == {} && table == Keywords
    {
      recorded := {};
      table := Keywords;
    }

    ghost predicate Tracks(seen0: set<Key>, done: seq<Item>, rows: seq<OutRow>, others: seq<OtherRow>)
      reads this
    {
      Tracked(table, seen0, done, rows, recorded, others)
    }

    /** One record: converted, looked up in the seen-set, and recorded when new. */
    method ConvertRecord(app: string, g: GestureRecord, ghost seen0: set<Key>, ghost done: seq<Item>,
                         rows0: seq<OutRow>, others0: seq<OtherRow>)
      returns (rows: seq<OutRow>, others: seq<OtherRow>)
      modifies this
      requires Tracks(seen0, done, rows0, others0)
      ensures Tracks(seen0, done + [(app, g)], rows, others)
    {
      var row, key, log := ConvertGesture(table, app, g, others0);
      TrackedStep(table, seen0, done, (app, g), rows0, recorded, others0);
      rows := rows0;
      if key !in recorded {
        recorded := recorded + {key};
        rows := rows + [row];
      }
      others := log;
    }

    /** The records of one trace, in order. */
    method ConvertRecords(app: string, gs: seq<GestureRecord>, ghost seen0: set<Key>, ghost done: seq<Item>,
                          rows0: seq<OutRow>, others0: seq<OtherRow>)
      returns (rows: seq<OutRow>, others: seq<OtherRow>)
      modifies this
      requires Tracks(seen0, done, rows0, others0)
      ensures Tracks(seen0, done + RecordItems(app, gs), rows, others)
    {
      rows, others := rows0, others0;
      var g := 0;
      assert done + RecordItems(app, gs[..g]) == done;
      while g < |gs|
        invariant 0 <= g <= |gs|
        invariant Tracks(seen0, done + RecordItems(app, gs[..g]), rows, others)
      {
        rows, others := ConvertRecord(app, gs[g], seen0, done + RecordItems(app, gs[..g]), rows, others);
        RecordItemsSnoc(done, app, gs, g);
        g := g + 1;
      }
      assert gs[..g] == gs;
    }

    /**
     * `process_data_from_json` on already loaded data: the rows of the records
     * whose keys were not seen before, the grown seen-set, and the Other-class
     * log, which is written afresh with its header on every call.
     */
    method ProcessDataFromJson(data: seq<AppEntry>) returns (rows: seq<OutRow>, others: seq<OtherRow>)
      modifies this
      ensures var (kept, seen) := Dedup(old(recorded), Entries(table, Items(data)));
        rows == Values(kept) && recorded == seen
      ensures others == [Header] + LogOf(table, Items(data))
    {
      rows, others := [], [Header];
      ghost var seen0 := recorded;
      var a := 0;
      assert Tracks(seen0, Items(data[..a]), rows, others);
      while a < |data|
        invariant 0 <= a <= |data|
        invariant Tracks(seen0, Items(data[..a]), rows, others)
      {
        rows, others := ConvertTraces(data[a].appName, data[a].traces, seen0, Items(data[..a]), rows, others);
        assert data[..a + 1][..a] == data[..a];
        a := a + 1;
      }
      assert data[..a] == data;
    }

    /** The traces of one app, in order; a trace whose value is not a list is passed over. */
    method ConvertTraces(app: string, traces: seq<(string, TraceValue)>, ghost seen0: set<Key>, ghost done: seq<Item>,
                         rows0: seq<OutRow>, others0: seq<OtherRow>)
      returns (rows: seq<OutRow>, others: seq<OtherRow>)
      modifies this
      requires Tracks(seen0, done, rows0, others0)
      ensures Tracks(seen0, done + AppItems(app, traces), rows, others)
    {
      rows, others := rows0, others0;
      var t := 0;
      assert done + AppItems(app, traces[..t]) == done;
      while t < |traces|
        invariant 0 <= t <= |traces|
        invariant Tracks(seen0, done + AppItems(app, traces[..t]), rows, others)
      {
        AppItemsSnoc(done, app, traces, t);
        match traces[t].1 {
          case NotAList =>
            assert done + AppItems(app, traces[..t + 1]) == done + AppItems(app, traces[..t]);
          case Records(gs) =>
            rows, others := ConvertRecords(app, gs, seen0, done + AppItems(app, traces[..t]), rows, others);
        }
        t := t + 1;
      }
      assert traces[..t] == traces;
    }
  }
}
