/**
 * The driver of the positive-dataset matcher: gesture coordinates are scaled
 * to the screen, each UI's hierarchy is searched for the tapped leaf, and one
 * record per UI is assembled; the reasons for every skip go to a log.
 */
module Matching {
  import opened Wrappers
  import opened Faults
  import opened Geometry
  import opened UiTree
  import opened Spacing
  import opened Resolver

  const ScreenWidth: real := 1440.0
  const ScreenHeight: real := 2560.0

  datatype Point = Point(x: real, y: real)

  /** The reason column of the skipped log, one constructor per message. */
  datatype Reason =
    | NoCoordinates            // "No coordinates found (possibly a scroll gesture)"
    | MultipleCoordinates      // "More than one coordinate found (possibly a scroll gesture)"
    | NoHierarchy(file: string)     // "No view hierarchy found or invalid JSON for <file>"
    | EmptyHierarchy(file: string)  // "Empty or invalid view hierarchy for <file>"
    | TraversalError(file: string)  // "Error: <AttributeError text> in <file>"
    | NoMatch(file: string)         // "Did not match any component in <file>"

  /** A row `[gesture id, reason]` of the skipped log. */
  type LogEntry = (string, Reason)

  /** A gesture id with its normalised coordinates, as `gestures.json` gives them. */
  type RawGesture = (string, seq<(real, real)>)

  /** A gesture id with its screen points. */
  type Gesture = (string, seq<Point>)

  predicate DistinctIds<T>(gs: seq<(string, T)>) {
    forall i, j :: 0 <= i < j < |gs| ==> gs[i].0 != gs[j].0
  }

  // ---------------------------------------------------------------------
  // convert_coordinates
  // ---------------------------------------------------------------------

  function ToScreen(c: (real, real)): Point {
    Point(c.0 * ScreenWidth, c.1 * ScreenHeight)
  }

  /** The gestures kept, in input order: exactly those with one coordinate, scaled. */
  function Converted(gs: seq<RawGesture>): seq<Gesture> {
    if |gs| == 0 then []
    else
      var g := gs[|gs| - 1];
      Converted(gs[..|gs| - 1]) + (if |g.1| == 1 then [(g.0, [ToScreen(g.1[0])])] else [])
  }

  /** The log rows written for the gestures skipped, in input order. */
  function ConversionLog(gs: seq<RawGesture>): seq<LogEntry> {
    if |gs| == 0 then []
    else
      var g := gs[|gs| - 1];
      ConversionLog(gs[..|gs| - 1]) +
      (if |g.1| == 0 then [(g.0, NoCoordinates)]
       else if |g.1| > 1 then [(g.0, MultipleCoordinates)]
       else [])
  }

  /**
   * `convert_coordinates(gesture_data, 1440, 2560, log_writer)`: the converted
   * gestures, the number skipped, and the log with the skip reasons appended.
   */
  method ConvertCoordinates(gestures: seq<RawGesture>, log0: seq<LogEntry>)
    returns (converted: seq<Gesture>, skipped: nat, log: seq<LogEntry>)
    ensures converted == Converted(gestures)
    ensures log == log0 + ConversionLog(gestures)
    ensures skipped + |converted| == |gestures|
    ensures skipped == |ConversionLog(gestures)|
  {
    converted, skipped, log := [], 0, log0;
    var i := 0;
    while i < |gestures|
      invariant 0 <= i <= |gestures|
      invariant converted == Converted(gestures[..i])
      invariant log == log0 + ConversionLog(gestures[..i])
      invariant skipped == |ConversionLog(gestures[..i])|
      invariant skipped + |converted| == i
    {
      assert gestures[..i + 1][..i] == gestures[..i];
      var (id, coordinates) := gestures[i];
      if |coordinates| == 0 {
        skipped := skipped + 1;
        log := log + [(id, NoCoordinates)];
      } else if |coordinates| > 1 {
        skipped := skipped + 1;
        log := log + [(id, MultipleCoordinates)];
      } else {
        converted := converted + [(id, [ToScreen(coordinates[0])])];
      }
      i := i + 1;
    }
    assert gestures[..i] == gestures;
  }

  /** The converted form of a gesture with at least one coordinate. */
  function ConvertOne(g: RawGesture): Gesture
    requires |g.1| >= 1
  {
    (g.0, [ToScreen(g.1[0])])
  }

  /** The log reason of a gesture whose coordinate count is not one. */
  function SkipReason(g: RawGesture): Reason {
    if |g.1| == 0 then NoCoordinates else MultipleCoordinates
  }

  /** Every gesture with exactly one coordinate is converted, to `(cx * 1440, cy * 2560)`. */
  lemma {:induction false} ConvertedComplete(gs: seq<RawGesture>)
    ensures forall i :: 0 <= i < |gs| && |gs[i].1| == 1 ==> ConvertOne(gs[i]) in Converted(gs)
  {
    if |gs| > 0 {
      var init := gs[..|gs| - 1];
      ConvertedComplete(init);
      assert forall i :: 0 <= i < |init| ==> init[i] == gs[i];
    }
  }

  /** Only gestures with exactly one coordinate are converted. */
  lemma {:induction false} ConvertedSound(gs: seq<RawGesture>)
    ensures forall c :: c in Converted(gs) ==>
      exists i :: 0 <= i < |gs| && |gs[i].1| == 1 && c == ConvertOne(gs[i])
  {
    if |gs| > 0 {
      var init := gs[..|gs| - 1];
      ConvertedSound(init);
      forall c | c in Converted(gs)
        ensures exists i :: 0 <= i < |gs| && |gs[i].1| == 1 && c == ConvertOne(gs[i])
      {
        if c in Converted(init) {
          var i :| 0 <= i < |init| && |init[i].1| == 1 && c == ConvertOne(init[i]);
          assert init[i] == gs[i];
        } else {
          assert |gs[|gs| - 1].1| == 1 && c == ConvertOne(gs[|gs| - 1]);
        }
      }
    }
  }

  /** Every gesture without exactly one coordinate is logged with the reason its count gives. */
  lemma {:induction false} LogComplete(gs: seq<RawGesture>)
    ensures forall i :: 0 <= i < |gs| && |gs[i].1| != 1 ==> (gs[i].0, SkipReason(gs[i])) in ConversionLog(gs)
  {
    if |gs| > 0 {
      var init := gs[..|gs| - 1];
      LogComplete(init);
      assert forall i :: 0 <= i < |init| ==> init[i] == gs[i];
    }
  }

  /** Only gestures without exactly one coordinate are logged. */
  lemma {:induction false} LogSound(gs: seq<RawGesture>)
    ensures forall e :: e in ConversionLog(gs) ==>
      exists i :: 0 <= i < |gs| && |gs[i].1| != 1 && e == (gs[i].0, SkipReason(gs[i]))
  {
    if |gs| > 0 {
      var init := gs[..|gs| - 1];
      LogSound(init);
      forall e | e in ConversionLog(gs)
        ensures exists i :: 0 <= i < |gs| && |gs[i].1| != 1 && e == (gs[i].0, SkipReason(gs[i]))
      {
        if e in ConversionLog(init) {
          var i :| 0 <= i < |init| && |init[i].1| != 1 && e == (init[i].0, SkipReason(init[i]));
          assert init[i] == gs[i];
        } else {
          assert |gs[|gs| - 1].1| != 1 && e == (gs[|gs| - 1].0, SkipReason(gs[|gs| - 1]));
        }
      }
    }
  }

  /** Conversion keeps distinct gesture ids distinct. */
  lemma {:induction false} ConvertedDistinct(gs: seq<RawGesture>)
    requires DistinctIds(gs)
    ensures DistinctIds(Converted(gs))
  {
    if |gs| > 0 {
      var init := gs[..|gs| - 1];
      assert forall i :: 0 <= i < |init| ==> init[i] == gs[i];
      ConvertedDistinct(init);
      ConvertedSound(init);
      var c := Converted(gs);
      forall i, j | 0 <= i < j < |c| ensures c[i].0 != c[j].0 {
        if j >= |Converted(init)| {
          assert c[i] in Converted(init);
          var k :| 0 <= k < |init| && |init[k].1| == 1 && c[i] == ConvertOne(init[k]);
          assert c[j].0 == gs[|gs| - 1].0;
        }
      }
    }
  }

  // ---------------------------------------------------------------------
  // Record assembly for the selected candidate (lines 256-288)
  // ---------------------------------------------------------------------

  /** The output record of one matched gesture. */
  datatype MatchRecord = MatchRecord(
    ui: string,
    gesture: Point,
    bounds: seq<int>,
    cls: string,
    ancestors: seq<string>,
    ancestorsCnt: nat,
    siblings: seq<string>,
    siblingsCnt: nat,
    hierarchyDepth: nat,          // depth of the WHOLE tree, not the sort key
    nestingLevel: nat,
    clickable: Option<bool>,      // `None`: the key is absent and the record holds the text 'false'
    spacing: Spacings,
    totalComponents: nat,
    descendantCount: nat,
    descendantClasses: seq<string>)

  /**
   * `[s for s in parent.children if s != component]`: the parent's other
   * children, dropping every one structurally equal to the leaf. A candidate's
   * parent has no `None` child, so only nodes remain.
   */
  function OtherSiblings(cs: seq<Option<Node>>, leaf: Node): (r: seq<Node>)
    ensures forall s :: s in r ==> s != leaf && Some(s) in cs
    ensures forall i :: 0 <= i < |cs| && cs[i].Some? && cs[i].value != leaf ==> cs[i].value in r
  {
    if |cs| == 0 then []
    else
      var init := OtherSiblings(cs[..|cs| - 1], leaf);
      assert forall i :: 0 <= i < |cs| - 1 ==> cs[..|cs| - 1][i] == cs[i];
      match cs[|cs| - 1]
      case Some(s) => if s != leaf then init + [s] else init
      case None => init
  }

  /** The record for candidate `cand` of gesture `id` at `p` in the tree `root`. */
  function Record(id: string, p: Point, root: Node, cand: Candidate): (r: Result<MatchRecord, Fault>)
    requires |cand.leaf.bounds| == 4
    ensures r.Ok? ==> r.value.descendantCount == |r.value.descendantClasses|
    ensures r.Ok? ==> r.value.hierarchyDepth == HierarchyDepth(Some(root))
    ensures r.Ok? ==> r.value.totalComponents == CountComponents(Some(root))
    ensures r.Ok? ==>
      r.value.descendantClasses == (if cand.parent.Some? then DescendantClasses(cand.parent.value) else [])
    ensures r.Err? ==> r.error != AttributeError
  {
    var parent := cand.parent;
    var descendants := if parent.Some? then DescendantClasses(parent.value) else [];
    var others := if parent.Some? then OtherSiblings(parent.value.children, cand.leaf) else [];
    match SpacingOf(RectOf(cand.leaf.bounds), ParentBounds(parent), others)
    case Err(e) => Err(e)
    case Ok(sp) =>
      Ok(MatchRecord(id, p, cand.leaf.bounds, ClassOf(cand.leaf), cand.ancestors, cand.ancestorsCnt,
                     cand.siblingClasses, cand.siblings, HierarchyDepth(Some(root)), cand.nestingLevel,
                     cand.leaf.clickable, sp, CountComponents(Some(root)), |descendants|, descendants))
  }

  /** The facts every emitted record satisfies. */
  ghost predicate RecordFacts(r: MatchRecord, id: string, root: Node) {
    && r.ui == id
    && r.descendantCount == |r.descendantClasses|
    && r.ancestorsCnt == |r.ancestors| == r.nestingLevel + 1
    && r.ancestors[0] == ClassOf(root)
    && r.ancestors[|r.ancestors| - 1] == r.cls
    && r.siblingsCnt == |r.siblings|
    && |r.bounds| == 4
    && r.hierarchyDepth == HierarchyDepth(Some(root))
    && r.totalComponents == CountComponents(Some(root))
  }

  // ---------------------------------------------------------------------
  // One point, then the points of one gesture id (lines 247-294)
  // ---------------------------------------------------------------------

  /** What trying one point yields. */
  datatype Attempt =
    | Hit(rec: MatchRecord)   // a record was assembled
    | Caught                  // the search raised AttributeError: logged, next point
    | Missed                  // no candidate: next point
    | Crash(fault: Fault)     // any other exception ends the run

  lemma {:induction false} CandidateBounds(root: Node, x: real, y: real, k: nat)
    requires Candidates(Some(root), x, y).Ok? && k < |Candidates(Some(root), x, y).value|
    ensures |Candidates(Some(root), x, y).value[k].leaf.bounds| == 4
    ensures Shaped(Candidates(Some(root), x, y).value[k], 0, [])
    ensures Candidates(Some(root), x, y).value[k].ancestors[0] == ClassOf(root)
  {
    CandidatesSound(root, x, y);
  }

  function TryPoint(id: string, root: Node, p: Point): Attempt {
    match Candidates(Some(root), p.x, p.y)
    case Err(e) => if e == AttributeError then Caught else Crash(e)
    case Ok(cands) =>
      if |cands| == 0 then Missed
      else
        var k := BestIndex(cands);
        CandidateBounds(root, p.x, p.y, k);
        match Record(id, p, root, cands[k])
        case Err(e) => Crash(e)
        case Ok(r) => Hit(r)
  }

  /**
   * The record describes the point and the candidate the sort selects: a
   * childless node that contains the point (by its bounds or its relative
   * bounds), with no candidate ranked above it and every earlier one ranked below.
   */
  ghost predicate ChosenFrom(r: MatchRecord, root: Node, p: Point) {
    && Candidates(Some(root), p.x, p.y).Ok?
    && var cands := Candidates(Some(root), p.x, p.y).value;
    && |cands| > 0
    && var c := cands[BestIndex(cands)];
    && r.gesture == p
    && r.bounds == c.leaf.bounds
    && r.cls == ClassOf(c.leaf)
    && r.clickable == c.leaf.clickable
    && r.ancestors == c.ancestors
    && r.siblings == c.siblingClasses
    && |c.leaf.children| == 0
    && Contains(c.parent, c.leaf, p.x, p.y) == Ok(true)
  }

  /**
   * A hit's record satisfies `RecordFacts` and comes from the selected
   * candidate; an AttributeError is never a crash.
   */
  lemma {:induction false} TryPointFacts(id: string, root: Node, p: Point)
    ensures TryPoint(id, root, p).Hit? ==> RecordFacts(TryPoint(id, root, p).rec, id, root)
    ensures TryPoint(id, root, p).Hit? ==> ChosenFrom(TryPoint(id, root, p).rec, root, p)
    ensures TryPoint(id, root, p).Crash? ==> TryPoint(id, root, p).fault != AttributeError
  {
    var res := Candidates(Some(root), p.x, p.y);
    if res.Ok? && |res.value| > 0 {
      var cands := res.value;
      var k := BestIndex(cands);
      CandidateBounds(root, p.x, p.y, k);
      var cand := cands[k];
      var r := Record(id, p, root, cand);
      if r.Ok? {
        assert TryPoint(id, root, p) == Hit(r.value);
        assert r.value.ancestors == cand.ancestors;
        CandidatesSound(root, p.x, p.y);
        assert Contains(cand.parent, cand.leaf, p.x, p.y) == Ok(true);
      }
    }
  }

  /** Where the points of one gesture id leave the log, and the record or fault they produce. */
  datatype PointsOutcome = PointsOutcome(rec: Option<MatchRecord>, log: seq<LogEntry>, fault: Option<Fault>)

  /** `for gesture in gestures: ... break` for one gesture id. */
  function MatchPoints(id: string, file: string, root: Node, pts: seq<Point>, log: seq<LogEntry>): PointsOutcome
    decreases |pts|
  {
    if |pts| == 0 then PointsOutcome(None, log, None)
    else
      match TryPoint(id, root, pts[0])
      case Hit(r) => PointsOutcome(Some(r), log, None)
      case Caught => MatchPoints(id, file, root, pts[1..], log + [(id, TraversalError(file))])
      case Missed => MatchPoints(id, file, root, pts[1..], log)
      case Crash(f) => PointsOutcome(None, log, Some(f))
  }

  /** Entries that count as a skipped hierarchy. */
  function CountSkips(log: seq<LogEntry>): nat {
    if |log| == 0 then 0
    else CountSkips(log[..|log| - 1]) + (if log[|log| - 1].1.NoHierarchy? || log[|log| - 1].1.EmptyHierarchy? then 1 else 0)
  }

  lemma {:induction false} CountSkipsAppend(a: seq<LogEntry>, b: seq<LogEntry>)
    ensures CountSkips(a + b) == CountSkips(a) + CountSkips(b)
    decreases |b|
  {
    if |b| == 0 {
      assert a + b == a;
    } else {
      assert (a + b)[..|a + b| - 1] == a + b[..|b| - 1];
      CountSkipsAppend(a, b[..|b| - 1]);
    }
  }

  /**
   * The points loop only appends TraversalError rows for this id, so it adds
   * no skip, and it never ends with both a record and a fault, nor with
   * AttributeError as its fault.
   */
  lemma {:induction false} MatchPointsLog(id: string, file: string, root: Node, pts: seq<Point>, log: seq<LogEntry>)
    ensures var o := MatchPoints(id, file, root, pts, log);
      && |log| <= |o.log| && o.log[..|log|] == log
      && (forall i :: |log| <= i < |o.log| ==> o.log[i] == (id, TraversalError(file)))
      && CountSkips(o.log) == CountSkips(log)
      && !(o.rec.Some? && o.fault.Some?)
      && (o.fault.Some? ==> o.fault.value != AttributeError)
    decreases |pts|
  {
    var o := MatchPoints(id, file, root, pts, log);
    if |pts| > 0 {
      var t := TryPoint(id, root, pts[0]);
      assert t.Crash? ==> t.fault != AttributeError by {
        TryPointFacts(id, root, pts[0]);
      }
      if t.Caught? {
        var log' := log + [(id, TraversalError(file))];
        MatchPointsLog(id, file, root, pts[1..], log');
        assert o == MatchPoints(id, file, root, pts[1..], log');
        assert o.log[..|log'|] == log';
        assert o.log[..|log|] == log'[..|log|];
        CountSkipsAppend(log, [(id, TraversalError(file))]);
        assert CountSkips([(id, TraversalError(file))]) == 0 by {
          assert [(id, TraversalError(file))][..0] == [];
        }
      } else if t.Missed? {
        MatchPointsLog(id, file, root, pts[1..], log);
      }
    }
  }

  /** A record the points loop returns is chosen at one of its points and satisfies `RecordFacts`. */
  lemma {:induction false} MatchPointsRecord(id: string, file: string, root: Node, pts: seq<Point>, log: seq<LogEntry>)
    ensures var o := MatchPoints(id, file, root, pts, log);
      && (o.rec.Some? ==> RecordFacts(o.rec.value, id, root))
      && (o.rec.Some? ==> o.rec.value.gesture in pts && ChosenFrom(o.rec.value, root, o.rec.value.gesture))
    decreases |pts|
  {
    if |pts| > 0 {
      TryPointFacts(id, root, pts[0]);
      var t := TryPoint(id, root, pts[0]);
      if t.Caught? {
        MatchPointsRecord(id, file, root, pts[1..], log + [(id, TraversalError(file))]);
      } else if t.Missed? {
        MatchPointsRecord(id, file, root, pts[1..], log);
      } else if t.Hit? {
        assert t.rec.gesture == pts[0];
      }
    }
  }

  // ---------------------------------------------------------------------
  // find_matching_components (lines 215-299)
  // ---------------------------------------------------------------------

  /**
   * A loaded view-hierarchy file: unreadable (`load_json` returned `None`), or
   * its `activity.root`, `None` when that is missing or empty.
   */
  datatype HierarchyFile = Unreadable | Loaded(root: Option<Node>)

  /** The state of the matching loop; `fault` is the exception that ended it, if any. */
  datatype MatchState = MatchState(
    records: seq<MatchRecord>,
    recorded: set<string>,
    matched: nat,
    skipped: nat,
    log: seq<LogEntry>,
    fault: Option<Fault>)

  function FileOf(id: string): string {
    id + ".json"
  }

  /** One iteration of the loop over gesture ids. */
  function UiStep(s: MatchState, g: Gesture, files: map<string, HierarchyFile>): MatchState {
    var (id, pts) := g;
    var file := FileOf(id);
    if s.fault.Some? || id in s.recorded then s
    else if file !in files || files[file].Unreadable? then
      s.(skipped := s.skipped + 1, log := s.log + [(id, NoHierarchy(file))])
    else if files[file].root.None? then
      s.(skipped := s.skipped + 1, log := s.log + [(id, EmptyHierarchy(file))])
    else AfterPoints(s, id, file, MatchPoints(id, file, files[file].root.value, pts, s.log))
  }

  /** The end of an iteration: the outcome `o` of the points loop for `id` taken into the state. */
  function AfterPoints(s: MatchState, id: string, file: string, o: PointsOutcome): MatchState {
    if o.fault.Some? then s.(log := o.log, fault := o.fault)
    else if o.rec.Some? then
      s.(records := s.records + [o.rec.value], recorded := s.recorded + {id},
         matched := s.matched + 1, log := o.log)
    else s.(log := o.log + [(id, NoMatch(file))])
  }

  /** The loop from state `s` over the remaining gesture ids. */
  function MatchFrom(s: MatchState, gs: seq<Gesture>, files: map<string, HierarchyFile>): MatchState
    decreases |gs|
  {
    if |gs| == 0 then s else MatchFrom(UiStep(s, gs[0], files), gs[1..], files)
  }

  function Start(log: seq<LogEntry>): MatchState {
    MatchState([], {}, 0, 0, log, None)
  }

  lemma {:induction false} CrashedStays(s: MatchState, gs: seq<Gesture>, files: map<string, HierarchyFile>)
    requires s.fault.Some?
    ensures MatchFrom(s, gs, files) == s
    decreases |gs|
  {
    if |gs| > 0 {
      CrashedStays(UiStep(s, gs[0], files), gs[1..], files);
    }
  }

  /**
   * `find_matching_components(converted_gestures, view_hierarchies, log_writer)`:
   * the records, the matched and skipped-hierarchy counts, the log, and the
   * exception that ended the run early if one did.
   */
  method FindMatchingComponents(gestures: seq<Gesture>, files: map<string, HierarchyFile>, log0: seq<LogEntry>)
    returns (records: seq<MatchRecord>, matched: nat, skipped: nat, log: seq<LogEntry>, fault: Option<Fault>)
    ensures var fin := MatchFrom(Start(log0), gestures, files);
      records == fin.records && matched == fin.matched && skipped == fin.skipped &&
      log == fin.log && fault == fin.fault
  {
    var recorded: set<string> := {};
    records, matched, skipped, log, fault := [], 0, 0, log0, None;
    var i := 0;
    while i < |gestures|
      invariant 0 <= i <= |gestures|
      invariant MatchFrom(Start(log0), gestures, files) ==
        MatchFrom(MatchState(records, recorded, matched, skipped, log, None), gestures[i..], files)
    {
      var s := MatchState(records, recorded, matched, skipped, log, None);
      var (id, pts) := gestures[i];
      var file := FileOf(id);
      assert gestures[i..][1..] == gestures[i + 1..];
      if id in recorded {
        i := i + 1;
        continue;
      }
      if file !in files || files[file].Unreadable? {
        log := log + [(id, NoHierarchy(file))];
        skipped := skipped + 1;
        i := i + 1;
        continue;
      }
      if files[file].root.None? {
        log := log + [(id, EmptyHierarchy(file))];
        skipped := skipped + 1;
        i := i + 1;
        continue;
      }
      var root := files[file].root.value;
      var rec: Option<MatchRecord>, f: Option<Fault>;
      rec, log, f := MatchGesture(id, file, root, pts, log);
      if f.Some? {
        fault := f;
        CrashedStays(UiStep(s, gestures[i], files), gestures[i + 1..], files);
        return;
      }
      if rec.Some? {
        records := records + [rec.value];
        recorded := recorded + {id};
        matched := matched + 1;
      } else {
        log := log + [(id, NoMatch(file))];
      }
      i := i + 1;
    }
  }

  /** The loop over the points of one gesture id, with its `break`. */
  method MatchGesture(id: string, file: string, root: Node, pts: seq<Point>, log0: seq<LogEntry>)
    returns (rec: Option<MatchRecord>, log: seq<LogEntry>, fault: Option<Fault>)
    ensures MatchPoints(id, file, root, pts, log0) == PointsOutcome(rec, log, fault)
  {
    rec, log, fault := None, log0, None;
    var overallDepth := HierarchyDepth(Some(root));
    var totalComponents := CountComponents(Some(root));
    var j := 0;
    while j < |pts|
      invariant 0 <= j <= |pts|
      invariant MatchPoints(id, file, root, pts, log0) == MatchPoints(id, file, root, pts[j..], log)
    {
      assert pts[j..][1..] == pts[j + 1..];
      var p := pts[j];
      var res := Candidates(Some(root), p.x, p.y);
      if res.Err? {
        if res.error == AttributeError {
          log := log + [(id, TraversalError(file))];
          j := j + 1;
          continue;
        }
        fault := Some(res.error);
        return;
      }
      var cands := res.value;
      if |cands| == 0 {
        j := j + 1;
        continue;
      }
      var k := BestIndex(cands);
      CandidateBounds(root, p.x, p.y, k);
      var cand := cands[k];
      var parent := cand.parent;
      var descendantCount: nat, descendantClasses: seq<string>;
      if parent.Some? {
        descendantCount, descendantClasses := GetAllDescendantComponentsInfo(parent);
      } else {
        descendantCount, descendantClasses := 0, [];
      }
      var others := if parent.Some? then OtherSiblings(parent.value.children, cand.leaf) else [];
      var spacing := CalculateSpacing(RectOf(cand.leaf.bounds), ParentBounds(parent), others);
      if spacing.Err? {
        fault := Some(spacing.error);
        return;
      }
      rec := Some(MatchRecord(id, p, cand.leaf.bounds, ClassOf(cand.leaf), cand.ancestors, cand.ancestorsCnt,
                              cand.siblingClasses, cand.siblings, overallDepth, cand.nestingLevel,
                              cand.leaf.clickable, spacing.value, totalComponents,
                              descendantCount, descendantClasses));
      assert TryPoint(id, root, p) == Hit(rec.value);
      return;
    }
  }

  // ---------------------------------------------------------------------
  // What the loop promises
  // ---------------------------------------------------------------------

  /** A record was built from the loaded tree of its own UI's hierarchy file. */
  ghost predicate FromItsFile(r: MatchRecord, files: map<string, HierarchyFile>) {
    FileOf(r.ui) in files && files[FileOf(r.ui)].Loaded? && files[FileOf(r.ui)].root.Some? &&
    RecordFacts(r, r.ui, files[FileOf(r.ui)].root.value) &&
    ChosenFrom(r, files[FileOf(r.ui)].root.value, r.gesture)
  }

  /**
   * The invariant of the matching loop: one record per matched id, no id twice,
   * every record's id remembered, skipped hierarchies counted by their log rows,
   * and the log only grows.
   */
  ghost predicate Consistent(s: MatchState, files: map<string, HierarchyFile>, log0: seq<LogEntry>) {
    && s.matched == |s.records|
    && (forall i, j :: 0 <= i < j < |s.records| ==> s.records[i].ui != s.records[j].ui)
    && (forall i :: 0 <= i < |s.records| ==> s.records[i].ui in s.recorded)
    && (forall i :: 0 <= i < |s.records| ==> FromItsFile(s.records[i], files))
    && |log0| <= |s.log| && s.log[..|log0|] == log0
    && CountSkips(s.log) == CountSkips(log0) + s.skipped
  }

  /** A skipped hierarchy: one more skip, logged by one skip row. */
  lemma SkipKeepsConsistent(s: MatchState, e: LogEntry, files: map<string, HierarchyFile>, log0: seq<LogEntry>)
    requires Consistent(s, files, log0) && CountSkips([e]) == 1
    ensures Consistent(s.(skipped := s.skipped + 1, log := s.log + [e]), files, log0)
  {
    CountSkipsAppend(s.log, [e]);
    assert (s.log + [e])[..|log0|] == s.log[..|log0|];
  }

  /** A log that only grows by rows that are not skips. */
  lemma LogKeepsConsistent(s: MatchState, log: seq<LogEntry>, files: map<string, HierarchyFile>, log0: seq<LogEntry>)
    requires Consistent(s, files, log0)
    requires |s.log| <= |log| && log[..|s.log|] == s.log && CountSkips(log) == CountSkips(s.log)
    ensures Consistent(s.(log := log), files, log0)
  {
    assert log[..|log0|] == log[..|s.log|][..|log0|];
  }

  /** A new record, for an id not yet recorded, taken from its own file. */
  lemma RecordKeepsConsistent(s: MatchState, r: MatchRecord, files: map<string, HierarchyFile>, log0: seq<LogEntry>)
    requires Consistent(s, files, log0) && r.ui !in s.recorded && FromItsFile(r, files)
    ensures Consistent(s.(records := s.records + [r], recorded := s.recorded + {r.ui}, matched := s.matched + 1), files, log0)
  {
  }

  /** Taking in an outcome of the points loop that only appended non-skip rows keeps `Consistent`. */
  lemma AfterPointsConsistent(s: MatchState, id: string, file: string, o: PointsOutcome,
                              files: map<string, HierarchyFile>, log0: seq<LogEntry>)
    requires Consistent(s, files, log0) && id !in s.recorded
    requires |s.log| <= |o.log| && o.log[..|s.log|] == s.log && CountSkips(o.log) == CountSkips(s.log)
    requires o.rec.Some? ==> o.rec.value.ui == id && FromItsFile(o.rec.value, files)
    ensures Consistent(AfterPoints(s, id, file, o), files, log0)
  {
    if o.fault.None? && o.rec.Some? {
      LogKeepsConsistent(s, o.log, files, log0);
      RecordKeepsConsistent(s.(log := o.log), o.rec.value, files, log0);
    } else if o.fault.None? {
      var log := o.log + [(id, NoMatch(file))];
      CountSkipsAppend(o.log, [(id, NoMatch(file))]);
      assert CountSkips([(id, NoMatch(file))]) == 0 by {
        assert [(id, NoMatch(file))][..0] == [];
      }
      assert log[..|s.log|] == o.log[..|s.log|];
      LogKeepsConsistent(s, log, files, log0);
    } else {
      LogKeepsConsistent(s, o.log, files, log0);
    }
  }

  lemma {:induction false} UiStepConsistent(s: MatchState, g: Gesture, files: map<string, HierarchyFile>, log0: seq<LogEntry>)
    requires Consistent(s, files, log0)
    ensures Consistent(UiStep(s, g, files), files, log0)
  {
    var (id, pts) := g;
    var file := FileOf(id);
    if s.fault.None? && id !in s.recorded {
      if file !in files || files[file].Unreadable? || files[file].root.None? {
        var reason := if file !in files || files[file].Unreadable? then NoHierarchy(file) else EmptyHierarchy(file);
        assert CountSkips([(id, reason)]) == 1 by {
          assert [(id, reason)][..0] == [];
        }
        SkipKeepsConsistent(s, (id, reason), files, log0);
      } else {
        var root := files[file].root.value;
        var o := MatchPoints(id, file, root, pts, s.log);
        MatchPointsLog(id, file, root, pts, s.log);
        assert o.rec.Some? ==> o.rec.value.ui == id && FromItsFile(o.rec.value, files) by {
          MatchPointsRecord(id, file, root, pts, s.log);
        }
        AfterPointsConsistent(s, id, file, o, files, log0);
      }
    }
  }

  lemma {:induction false} MatchFromConsistent(s: MatchState, gs: seq<Gesture>, files: map<string, HierarchyFile>, log0: seq<LogEntry>)
    requires Consistent(s, files, log0)
    ensures Consistent(MatchFrom(s, gs, files), files, log0)
    decreases |gs|
  {
    if |gs| > 0 {
      UiStepConsistent(s, gs[0], files, log0);
      MatchFromConsistent(UiStep(s, gs[0], files), gs[1..], files, log0);
    }
  }

  /**
   * After the whole loop: `matched_components_count` is the number of records,
   * no UI has two records, `skipped_hierarchies_count` is the number of
   * missing/empty-hierarchy rows added to the log, the log only grows, and every
   * record has its descendant count equal to its class list's length and
   * `ancestors_cnt == Nesting_Level + 1`.
   */
  lemma MatchingLoopFacts(gs: seq<Gesture>, files: map<string, HierarchyFile>, log0: seq<LogEntry>)
    ensures var fin := MatchFrom(Start(log0), gs, files);
      && fin.matched == |fin.records|
      && (forall i, j :: 0 <= i < j < |fin.records| ==> fin.records[i].ui != fin.records[j].ui)
      && (forall i :: 0 <= i < |fin.records| ==> FromItsFile(fin.records[i], files))
      && |log0| <= |fin.log| && fin.log[..|log0|] == log0
      && CountSkips(fin.log) == CountSkips(log0) + fin.skipped
  {
    assert Start(log0).log[..|log0|] == log0;
    MatchFromConsistent(Start(log0), gs, files, log0);
  }

  /** A missing or unreadable hierarchy file is logged, counted, and yields no record. */
  lemma MissingHierarchySkipped(s: MatchState, g: Gesture, files: map<string, HierarchyFile>)
    requires s.fault.None? && g.0 !in s.recorded
    requires FileOf(g.0) !in files || files[FileOf(g.0)].Unreadable?
    ensures UiStep(s, g, files) ==
      s.(skipped := s.skipped + 1, log := s.log + [(g.0, NoHierarchy(FileOf(g.0)))])
  {}

  /** A hierarchy without a root is logged, counted, and yields no record. */
  lemma EmptyHierarchySkipped(s: MatchState, g: Gesture, files: map<string, HierarchyFile>)
    requires s.fault.None? && g.0 !in s.recorded
    requires FileOf(g.0) in files && files[FileOf(g.0)] == Loaded(None)
    ensures UiStep(s, g, files) ==
      s.(skipped := s.skipped + 1, log := s.log + [(g.0, EmptyHierarchy(FileOf(g.0)))])
  {}

  /** A gesture id whose points all fail to match gets a "Did not match" row as its last log entry. */
  lemma UnmatchedLogged(s: MatchState, g: Gesture, files: map<string, HierarchyFile>)
    requires s.fault.None? && g.0 !in s.recorded
    requires FileOf(g.0) in files && files[FileOf(g.0)].Loaded? && files[FileOf(g.0)].root.Some?
    requires UiStep(s, g, files).fault.None? && UiStep(s, g, files).records == s.records
    ensures var t := UiStep(s, g, files);
      |t.log| > 0 && t.log[|t.log| - 1] == (g.0, NoMatch(FileOf(g.0))) && t.matched == s.matched
  {}

  /** A UI that already has a record is passed over. */
  lemma RecordedPassedOver(s: MatchState, g: Gesture, files: map<string, HierarchyFile>)
    requires g.0 in s.recorded
    ensures UiStep(s, g, files) == s
  {}

  // ---------------------------------------------------------------------
  // Per-trace and per-app totals (lines 306-346)
  // ---------------------------------------------------------------------

  /** What `process_trace_data` returns for one trace folder. */
  datatype TraceResult = TraceResult(
    records: seq<MatchRecord>,
    matched: nat,
    skippedGestures: nat,
    skippedHierarchies: nat,
    viewHierarchies: nat,   // 1 when the trace has a view_hierarchies folder
    uis: nat,               // number of .json files in it
    skippedUis: nat)

  /**
   * `process_trace_data` with the files already loaded: conversion, then
   * matching; `None` when an exception ended the run.
   */
  function ProcessTrace(gestures: seq<RawGesture>, files: map<string, HierarchyFile>, hasFolder: bool, log0: seq<LogEntry>)
    : (r: (Option<TraceResult>, seq<LogEntry>))
    ensures r.0.Some? ==> r.0.value.skippedUis == r.0.value.skippedHierarchies
    ensures r.0.Some? ==> r.0.value.viewHierarchies <= 1 && r.0.value.uis == |files|
  {
    var log1 := log0 + ConversionLog(gestures);
    var fin := MatchFrom(Start(log1), Converted(gestures), files);
    if fin.fault.Some? then (None, fin.log)
    else
      (Some(TraceResult(fin.records, fin.matched, |ConversionLog(gestures)|, fin.skipped,
                        if hasFolder then 1 else 0, |files|, fin.skipped)), fin.log)
  }

  /** An entry of `app_data["traces"]`: the records, or the "None file" marker. */
  datatype TraceEntry = Records(records: seq<MatchRecord>) | NoneFile

  datatype AppTotals = AppTotals(
    skippedGestures: nat, components: nat, skipHierarchies: nat,
    viewHierarchies: nat, uis: nat, skippedUis: nat)

  function EntryOf(t: TraceResult): TraceEntry {
    if |t.records| > 0 then Records(t.records) else NoneFile
  }

  function Add(a: AppTotals, t: TraceResult): AppTotals {
    AppTotals(a.skippedGestures + t.skippedGestures, a.components + t.matched,
              a.skipHierarchies + t.skippedHierarchies, a.viewHierarchies + t.viewHierarchies,
              a.uis + t.uis, a.skippedUis + t.skippedUis)
  }

  /** The loop of `process_single_app_traces` over the trace results, in folder order. */
  function AppTraces(results: seq<(string, TraceResult)>): (seq<(string, TraceEntry)>, AppTotals) {
    if |results| == 0 then ([], AppTotals(0, 0, 0, 0, 0, 0))
    else
      var (entries, totals) := AppTraces(results[..|results| - 1]);
      var (name, t) := results[|results| - 1];
      (entries + [(name, EntryOf(t))], Add(totals, t))
  }

  /**
   * Over an app's traces: one entry per trace in order, the "None file" marker
   * exactly for traces without records, and, since every trace reports its
   * skipped hierarchies as its skipped UIs, the two app totals agree.
   */
  lemma {:induction false} AppTracesFacts(results: seq<(string, TraceResult)>)
    requires forall i :: 0 <= i < |results| ==> results[i].1.skippedUis == results[i].1.skippedHierarchies
    ensures var (entries, totals) := AppTraces(results);
      && |entries| == |results|
      && (forall i :: 0 <= i < |results| ==> entries[i].0 == results[i].0)
      && (forall i :: 0 <= i < |results| ==> (entries[i].1 == NoneFile <==> |results[i].1.records| == 0))
      && (forall i :: 0 <= i < |results| ==> entries[i].1.Records? ==> entries[i].1.records == results[i].1.records)
      && totals.skippedUis == totals.skipHierarchies
  {
    if |results| > 0 {
      var init := results[..|results| - 1];
      assert forall i :: 0 <= i < |init| ==> init[i] == results[i];
      AppTracesFacts(init);
    }
  }
}
