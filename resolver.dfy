/**
 * `recursive_search` and the tie-break of `find_matching_components`: the
 * pruned pre-order descent that collects every childless node containing the
 * tap point, and the choice of one candidate among them.
 */
module Resolver {
  import opened Wrappers
  import opened Faults
  import opened Geometry
  import opened UiTree

  /** The `(component, component_info)` pair that the search records for a leaf. */
  datatype Candidate = Candidate(
    leaf: Node,
    cls: string,
    bounds: seq<int>,
    siblings: nat,                      // length of the parent's children, 0 at the root
    siblingClasses: seq<string>,
    parentComponentsCount: nat,
    parentComponentClasses: seq<string>,
    hierarchyDepth: nat,                // depth of the PARENT's subtree
    nestingLevel: nat,
    ancestors: seq<string>,             // root class first, the leaf's own class last
    ancestorsCnt: nat,
    parent: Option<Node>)

  /** `parent.get('bounds', []) if parent else []` */
  function ParentBounds(parent: Option<Node>): seq<int> {
    if parent.Some? then parent.value.bounds else []
  }

  /**
   * The containment test of one node: its own bounds first (a node without four
   * bounds raises ValueError here), then the relative bounds against the parent.
   */
  function Contains(parent: Option<Node>, n: Node, x: real, y: real): (r: Result<bool, Fault>)
    ensures |n.bounds| != 4 ==> r == Err(ValueError)
    ensures |n.bounds| == 4 && |ParentBounds(parent)| in {0, 4} ==> r.Ok?
    ensures r.Ok? ==> (r.value <==>
      IsWithinBounds(x, y, AsReals(n.bounds)) == Ok(true) ||
      IsWithinRelBounds(x, y, n.relBounds, ParentBounds(parent)) == Ok(true))
  {
    match IsWithinBounds(x, y, AsReals(n.bounds))
    case Err(e) => Err(e)
    case Ok(inside) =>
      if inside then Ok(true) else IsWithinRelBounds(x, y, n.relBounds, ParentBounds(parent))
  }

  /** The record made for a leaf that passed containment; `None` siblings raise AttributeError. */
  function LeafCandidate(parent: Option<Node>, n: Node, depth: nat, ancestors: seq<string>): (r: Result<Candidate, Fault>)
    ensures parent.None? ==> r.Ok? && r.value.siblings == 0 && r.value.siblingClasses == []
    ensures parent.Some? ==> (r.Ok? <==> !HasNoneChild(parent.value))
    ensures r.Err? ==> r.error == AttributeError
    ensures r.Ok? && parent.Some? ==>
      r.value.siblings == |parent.value.children| == |r.value.siblingClasses|
    ensures r.Ok? && parent.Some? ==> forall i :: 0 <= i < |r.value.siblingClasses| ==>
      r.value.siblingClasses[i] == ClassOf(parent.value.children[i].value)
    ensures r.Ok? ==> r.value.leaf == n && r.value.parent == parent && r.value.nestingLevel == depth
    ensures r.Ok? ==> r.value.ancestors == ancestors && r.value.ancestorsCnt == |ancestors|
    ensures r.Ok? ==> r.value.hierarchyDepth == HierarchyDepth(parent)
  {
    var classes: Result<seq<string>, Fault> :=
      if parent.Some? then ChildClasses(parent.value.children) else Ok([]);
    match classes
    case Err(e) => Err(e)
    case Ok(sibClasses) =>
      var count := if parent.Some? then |parent.value.children| else 0;
      Ok(Candidate(n, ClassOf(n), n.bounds, count, sibClasses, count, sibClasses,
                   HierarchyDepth(parent), depth, ancestors, |ancestors|, parent))
  }

  /**
   * A containment test: the verdict for a node reached from a parent, or the
   * fault the test raises. `Inside(x, y)` is the one the core uses.
   */
  type Test = (Option<Node>, Node) -> Result<bool, Fault>

  function Inside(x: real, y: real): Test {
    (p: Option<Node>, n: Node) => Contains(p, n, x, y)
  }

  /**
   * `recursive_search(parent, component, x, y, depth, ancestors)` with the
   * containment test `test`: the candidates in pre-order, or the first fault
   * raised on the way.
   */
  function Search(parent: Option<Node>, c: Option<Node>, test: Test, depth: nat, ancestors: seq<string>)
    : Result<seq<Candidate>, Fault>
    decreases c
  {
    match c
    case None => Ok([])
    case Some(n) =>
      match test(parent, n)
      case Err(e) => Err(e)
      case Ok(inside) =>
        if !inside then Ok([])
        else
          var current := ancestors + [ClassOf(n)];
          if |n.children| > 0 then SearchChildren(n, n.children, test, depth + 1, current)
          else
            match LeafCandidate(parent, n, depth, current)
            case Err(e) => Err(e)
            case Ok(cand) => Ok([cand])
  }

  /** The loop over the children, extending the result with each child's matches. */
  function SearchChildren(parent: Node, cs: seq<Option<Node>>, test: Test, depth: nat, ancestors: seq<string>)
    : Result<seq<Candidate>, Fault>
    decreases cs
  {
    if |cs| == 0 then Ok([])
    else
      match Search(Some(parent), cs[0], test, depth, ancestors)
      case Err(e) => Err(e)
      case Ok(first) =>
        match SearchChildren(parent, cs[1..], test, depth, ancestors)
        case Err(e) => Err(e)
        case Ok(rest) => Ok(first + rest)
  }

  /** The search the core starts at the root of a hierarchy for the point `(x, y)`. */
  function Candidates(root: Option<Node>, x: real, y: real): Result<seq<Candidate>, Fault> {
    Search(None, root, Inside(x, y), 0, [])
  }

  /** A test that accepts only nodes with four bounds, as `Inside` does. */
  ghost predicate Bounded(test: Test) {
    forall p: Option<Node>, n: Node :: test(p, n) == Ok(true) ==> |n.bounds| == 4
  }

  /** A test that raises nothing on a node with four bounds under a parent with none or four. */
  ghost predicate TotalOnGood(test: Test) {
    forall p: Option<Node>, n: Node :: |n.bounds| == 4 && |ParentBounds(p)| in {0, 4} ==> test(p, n).Ok?
  }

  lemma {:induction false} InsideBoundedAndTotal(x: real, y: real)
    ensures Bounded(Inside(x, y)) && TotalOnGood(Inside(x, y))
  {
    forall p: Option<Node>, n: Node
      ensures Inside(x, y)(p, n) == Ok(true) ==> |n.bounds| == 4
      ensures |n.bounds| == 4 && |ParentBounds(p)| in {0, 4} ==> Inside(x, y)(p, n).Ok?
    {
      assert Inside(x, y)(p, n) == Contains(p, n, x, y);
    }
  }

  // ---------------------------------------------------------------------
  // What every candidate satisfies
  // ---------------------------------------------------------------------

  /** Where a candidate sits: a childless node with its ancestors and the sibling data of its parent. */
  ghost predicate Shaped(cand: Candidate, depth: nat, anc: seq<string>) {
    && |cand.leaf.children| == 0
    && cand.nestingLevel >= depth
    && |cand.ancestors| == |anc| + cand.nestingLevel - depth + 1
    && cand.ancestors[..|anc|] == anc
    && cand.ancestors[|cand.ancestors| - 1] == ClassOf(cand.leaf)
    && cand.ancestorsCnt == |cand.ancestors|
    && cand.hierarchyDepth == HierarchyDepth(cand.parent)
    && cand.cls == ClassOf(cand.leaf)
    && cand.bounds == cand.leaf.bounds
    && (cand.parent.None? ==> cand.siblings == 0 && cand.siblingClasses == [])
    && (cand.parent.Some? ==>
         && |cand.parent.value.bounds| == 4
         && !HasNoneChild(cand.parent.value)
         && Some(cand.leaf) in cand.parent.value.children
         && cand.siblings == |cand.parent.value.children| == |cand.siblingClasses|
         && (forall i :: 0 <= i < |cand.siblingClasses| ==>
               cand.siblingClasses[i] == ClassOf(cand.parent.value.children[i].value)))
  }

  /** The candidate recorded for a leaf that passed its test sits where `Shaped` says. */
  lemma {:induction false} LeafShaped(parent: Option<Node>, n: Node, depth: nat, anc: seq<string>)
    requires parent.Some? ==> |parent.value.bounds| == 4 && Some(n) in parent.value.children
    requires |n.children| == 0
    requires LeafCandidate(parent, n, depth, anc + [ClassOf(n)]).Ok?
    ensures var cand := LeafCandidate(parent, n, depth, anc + [ClassOf(n)]).value;
      && Shaped(cand, depth, anc)
      && cand.ancestors[|anc|] == ClassOf(n)
      && (cand.parent.None? ==> parent.None? && cand.nestingLevel == depth && cand.leaf == n)
  {
    var cand := LeafCandidate(parent, n, depth, anc + [ClassOf(n)]).value;
    assert cand.ancestors[..|anc|] == anc;
  }

  /** A candidate placed one level below `anc + [cls]` is placed below `anc`. */
  lemma {:induction false} ShapedDeeper(cand: Candidate, depth: nat, anc: seq<string>, cls: string)
    requires Shaped(cand, depth + 1, anc + [cls])
    ensures Shaped(cand, depth, anc) && cand.ancestors[|anc|] == cls
  {
    var current := anc + [cls];
    assert cand.ancestors[..|current|] == current;
    assert cand.ancestors[..|anc|] == cand.ancestors[..|current|][..|anc|];
  }

  /**
   * Every candidate is a childless node that passed the test, its ancestor list
   * extends the one passed in and ends with its own class, and its sibling data
   * is read from the parent it was reached from. A candidate without a parent is
   * the node the search started at.
   */
  lemma {:induction false} SearchSound(parent: Option<Node>, c: Option<Node>, test: Test, depth: nat, anc: seq<string>)
    requires Bounded(test)
    requires parent.Some? ==> |parent.value.bounds| == 4 && c.Some? && c in parent.value.children
    ensures Search(parent, c, test, depth, anc).Ok? ==>
      var cands := Search(parent, c, test, depth, anc).value;
      forall k :: 0 <= k < |cands| ==>
        && Shaped(cands[k], depth, anc)
        && test(cands[k].parent, cands[k].leaf) == Ok(true)
        && |cands[k].leaf.bounds| == 4
        && cands[k].ancestors[|anc|] == ClassOf(c.value)
        && (cands[k].parent.None? ==> parent.None? && cands[k].nestingLevel == depth && Some(cands[k].leaf) == c)
    decreases c, 1
  {
    match c
    case None =>
    case Some(n) =>
      if Search(parent, c, test, depth, anc).Ok? && test(parent, n) == Ok(true) {
        var current := anc + [ClassOf(n)];
        if |n.children| > 0 {
          assert |n.bounds| == 4;
          assert Search(parent, c, test, depth, anc) == SearchChildren(n, n.children, test, depth + 1, current);
          var cands := SearchChildren(n, n.children, test, depth + 1, current).value;
          SearchChildrenSound(n, n.children, test, depth + 1, current);
          assert SearchChildren(n, n.children, test, depth + 1, current).Ok?;
          forall k | 0 <= k < |cands|
            ensures Shaped(cands[k], depth, anc) && cands[k].ancestors[|anc|] == ClassOf(n)
            ensures test(cands[k].parent, cands[k].leaf) == Ok(true) && |cands[k].leaf.bounds| == 4
            ensures cands[k].parent.Some?
          {
            ShapedDeeper(cands[k], depth, anc, ClassOf(n));
          }
        } else {
          LeafShaped(parent, n, depth, anc);
        }
      }
  }

  lemma {:induction false} SearchChildrenSound(p: Node, cs: seq<Option<Node>>, test: Test, depth: nat, anc: seq<string>)
    requires Bounded(test) && |p.bounds| == 4
    requires forall i :: 0 <= i < |cs| ==> cs[i] in p.children
    ensures SearchChildren(p, cs, test, depth, anc).Ok? ==>
      var cands := SearchChildren(p, cs, test, depth, anc).value;
      forall k :: 0 <= k < |cands| ==>
        && Shaped(cands[k], depth, anc)
        && test(cands[k].parent, cands[k].leaf) == Ok(true)
        && |cands[k].leaf.bounds| == 4
        && cands[k].parent.Some?
    decreases cs, 0
  {
    if |cs| > 0 && SearchChildren(p, cs, test, depth, anc).Ok? {
      var first := Search(Some(p), cs[0], test, depth, anc).value;
      var rest := SearchChildren(p, cs[1..], test, depth, anc).value;
      var all := first + rest;
      assert SearchChildren(p, cs, test, depth, anc).value == all;
      if cs[0].Some? {
        SearchSound(Some(p), cs[0], test, depth, anc);
      }
      assert forall i :: 0 <= i < |cs[1..]| ==> cs[1..][i] == cs[i + 1];
      SearchChildrenSound(p, cs[1..], test, depth, anc);
      assert SearchChildren(p, cs[1..], test, depth, anc).Ok?;
      assert Search(Some(p), cs[0], test, depth, anc).Ok?;
      assert forall k :: 0 <= k < |rest| ==> Shaped(rest[k], depth, anc);
      forall k | 0 <= k < |all|
        ensures Shaped(all[k], depth, anc) && test(all[k].parent, all[k].leaf) == Ok(true)
        ensures |all[k].leaf.bounds| == 4 && all[k].parent.Some?
      {
        if k < |first| {
          assert cs[0].Some?;
          assert all[k] == first[k];
          assert Shaped(first[k], depth, anc) && test(first[k].parent, first[k].leaf) == Ok(true);
          assert first[k].parent.Some?;
        } else {
          assert all[k] == rest[k - |first|];
          assert Shaped(rest[k - |first|], depth, anc);
        }
      }
    }
  }

  /**
   * The search the core starts at a hierarchy root: every candidate is a
   * childless node with four bounds that contains the point (by its bounds, or
   * by its relative bounds inside its parent), its ancestors start with the
   * root's class, end with its own class and number `Nesting_Level + 1`, and a
   * candidate without a parent is the root itself, with no siblings.
   */
  lemma {:induction false} CandidatesSound(root: Node, x: real, y: real)
    ensures Candidates(Some(root), x, y).Ok? ==>
      var cands := Candidates(Some(root), x, y).value;
      forall k :: 0 <= k < |cands| ==>
        && Shaped(cands[k], 0, [])
        && Contains(cands[k].parent, cands[k].leaf, x, y) == Ok(true)
        && |cands[k].leaf.bounds| == 4
        && cands[k].ancestors[0] == ClassOf(root)
        && |cands[k].ancestors| == cands[k].nestingLevel + 1
        && (cands[k].parent.None? ==> cands[k].leaf == root && cands[k].nestingLevel == 0)
  {
    var t := Inside(x, y);
    InsideBoundedAndTotal(x, y);
    assert Bounded(t);
    SearchSound(None, Some(root), t, 0, []);
    assert Candidates(Some(root), x, y) == Search(None, Some(root), t, 0, []);
    if Candidates(Some(root), x, y).Ok? {
      var cands := Search(None, Some(root), t, 0, []).value;
      forall k | 0 <= k < |cands|
        ensures Contains(cands[k].parent, cands[k].leaf, x, y) == Ok(true)
      {
        InsideIsContains(x, y, cands[k].parent, cands[k].leaf);
      }
    }
  }

  lemma {:induction false} InsideIsContains(x: real, y: real, p: Option<Node>, n: Node)
    requires Inside(x, y)(p, n) == Ok(true)
    ensures Contains(p, n, x, y) == Ok(true)
  {}

  /** A visited node without four bounds aborts the search with ValueError. */
  lemma {:induction false} MissingBoundsRaises(parent: Option<Node>, n: Node, x: real, y: real, depth: nat, anc: seq<string>)
    requires |n.bounds| != 4
    ensures Search(parent, Some(n), Inside(x, y), depth, anc) == Err(ValueError)
  {
    assert Inside(x, y)(parent, n) == Err(ValueError);
  }

  /** A leaf that contains the point but has a `None` sibling raises AttributeError. */
  lemma {:induction false} NoneSiblingRaises(p: Node, n: Node, x: real, y: real, depth: nat, anc: seq<string>)
    requires HasNoneChild(p) && |n.children| == 0
    requires Contains(Some(p), n, x, y) == Ok(true)
    ensures Search(Some(p), Some(n), Inside(x, y), depth, anc) == Err(AttributeError)
  {
    assert Inside(x, y)(Some(p), n) == Ok(true);
  }

  // ---------------------------------------------------------------------
  // Reference: every root-to-leaf path, filtered by containment
  // ---------------------------------------------------------------------

  /** A node on a path, with the parent it is reached from. */
  type Step = (Option<Node>, Node)

  /** Every path from `n` to a node without children, in pre-order. */
  ghost function LeafPaths(parent: Option<Node>, n: Node): seq<seq<Step>>
    decreases n, 1
  {
    if |n.children| == 0 then [[(parent, n)]]
    else Prepend((parent, n), ForestPaths(n, n.children))
  }

  ghost function ForestPaths(p: Node, cs: seq<Option<Node>>): seq<seq<Step>>
    decreases cs, 0
  {
    if |cs| == 0 then []
    else
      (match cs[0]
       case None => []
       case Some(c) => assert c < cs[0]; LeafPaths(Some(p), c))
      + ForestPaths(p, cs[1..])
  }

  ghost function Prepend(s: Step, paths: seq<seq<Step>>): (r: seq<seq<Step>>)
    ensures |r| == |paths| && forall i :: 0 <= i < |paths| ==> r[i] == [s] + paths[i]
  {
    seq(|paths|, i requires 0 <= i < |paths| => [s] + paths[i])
  }

  /** Every node on the path passes the test. */
  ghost predicate PathContains(path: seq<Step>, test: Test) {
    forall i :: 0 <= i < |path| ==> test(path[i].0, path[i].1) == Ok(true)
  }

  function PathClasses(path: seq<Step>): (r: seq<string>)
    ensures |r| == |path| && forall i :: 0 <= i < |path| ==> r[i] == ClassOf(path[i].1)
  {
    seq(|path|, i requires 0 <= i < |path| => ClassOf(path[i].1))
  }

  /** What identifies a candidate: its parent, the leaf, its nesting level and its ancestors. */
  type Summary = (Option<Node>, Node, nat, seq<string>)

  function SummaryOf(c: Candidate): Summary {
    (c.parent, c.leaf, c.nestingLevel, c.ancestors)
  }

  function Summaries(cs: seq<Candidate>): (r: seq<Summary>)
    ensures |r| == |cs| && forall i :: 0 <= i < |cs| ==> r[i] == SummaryOf(cs[i])
  {
    seq(|cs|, i requires 0 <= i < |cs| => SummaryOf(cs[i]))
  }

  ghost function PathSummary(path: seq<Step>, depth: nat, anc: seq<string>): Summary
    requires |path| > 0
  {
    (path[|path| - 1].0, path[|path| - 1].1, depth + |path| - 1, anc + PathClasses(path))
  }

  /** The summaries of the paths whose every node passes the test, in order. */
  ghost function Hits(paths: seq<seq<Step>>, test: Test, depth: nat, anc: seq<string>): seq<Summary>
  {
    if |paths| == 0 then []
    else
      (if |paths[0]| > 0 && PathContains(paths[0], test) then [PathSummary(paths[0], depth, anc)] else [])
      + Hits(paths[1..], test, depth, anc)
  }

  /** Every node has four bounds and no `None` child. */
  ghost predicate WellFormed(n: Node)
    decreases n, 1
  {
    |n.bounds| == 4 && WellFormedForest(n.children)
  }

  ghost predicate WellFormedForest(cs: seq<Option<Node>>)
    decreases cs, 0
  {
    if |cs| == 0 then true
    else
      match cs[0]
      case None => false
      case Some(c) => assert c < cs[0]; WellFormed(c) && WellFormedForest(cs[1..])
  }

  lemma {:induction false} WellFormedForestAll(cs: seq<Option<Node>>)
    requires WellFormedForest(cs)
    ensures forall i :: 0 <= i < |cs| ==> cs[i].Some?
  {
    if |cs| > 0 {
      WellFormedForestAll(cs[1..]);
      assert forall i :: 1 <= i < |cs| ==> cs[i] == cs[1..][i - 1];
    }
  }

  /** A parent the search can come from: absent, or with four bounds and no `None` child. */
  ghost predicate GoodParent(parent: Option<Node>) {
    parent.Some? ==> |parent.value.bounds| == 4 && !HasNoneChild(parent.value)
  }

  lemma {:induction false} HitsAppend(a: seq<seq<Step>>, b: seq<seq<Step>>, test: Test, depth: nat, anc: seq<string>)
    ensures Hits(a + b, test, depth, anc) == Hits(a, test, depth, anc) + Hits(b, test, depth, anc)
  {
    if |a| > 0 {
      var head := if |a[0]| > 0 && PathContains(a[0], test) then [PathSummary(a[0], depth, anc)] else [];
      assert (a + b)[0] == a[0];
      assert (a + b)[1..] == a[1..] + b;
      HitsAppend(a[1..], b, test, depth, anc);
      calc {
        Hits(a + b, test, depth, anc);
        head + Hits(a[1..] + b, test, depth, anc);
        head + (Hits(a[1..], test, depth, anc) + Hits(b, test, depth, anc));
        (head + Hits(a[1..], test, depth, anc)) + Hits(b, test, depth, anc);
        Hits(a, test, depth, anc) + Hits(b, test, depth, anc);
      }
    } else {
      assert a + b == b;
    }
  }

  /** When the first step fails the test, no path through it is a hit. */
  lemma {:induction false} HitsPrependOutside(s: Step, paths: seq<seq<Step>>, test: Test, depth: nat, anc: seq<string>)
    requires test(s.0, s.1) != Ok(true)
    ensures Hits(Prepend(s, paths), test, depth, anc) == []
  {
    if |paths| > 0 {
      var p := Prepend(s, paths);
      assert p[0][0] == s;
      assert p[1..] == Prepend(s, paths[1..]);
      HitsPrependOutside(s, paths[1..], test, depth, anc);
    }
  }

  /** Prepending a step that passes the test keeps a path's verdict and deepens its summary by one level. */
  lemma {:induction false} PrependStep(s: Step, q: seq<Step>, test: Test, depth: nat, anc: seq<string>)
    requires test(s.0, s.1) == Ok(true) && |q| > 0
    ensures PathContains([s] + q, test) <==> PathContains(q, test)
    ensures PathSummary([s] + q, depth, anc) == PathSummary(q, depth + 1, anc + [ClassOf(s.1)])
  {
    var p := [s] + q;
    if PathContains(q, test) {
      forall i | 0 <= i < |p| ensures test(p[i].0, p[i].1) == Ok(true) {
        if i > 0 { assert p[i] == q[i - 1]; }
      }
    }
    if PathContains(p, test) {
      forall i | 0 <= i < |q| ensures test(q[i].0, q[i].1) == Ok(true) {
        assert q[i] == p[i + 1];
      }
    }
    assert PathClasses(p) == [ClassOf(s.1)] + PathClasses(q);
    assert anc + PathClasses(p) == (anc + [ClassOf(s.1)]) + PathClasses(q);
  }

  /** When the first step passes, the hits through it are those of the rest, one level deeper. */
  lemma {:induction false} HitsPrependInside(s: Step, paths: seq<seq<Step>>, test: Test, depth: nat, anc: seq<string>)
    requires test(s.0, s.1) == Ok(true)
    requires forall i :: 0 <= i < |paths| ==> |paths[i]| > 0
    ensures Hits(Prepend(s, paths), test, depth, anc) == Hits(paths, test, depth + 1, anc + [ClassOf(s.1)])
  {
    if |paths| > 0 {
      var p := Prepend(s, paths);
      assert p[0] == [s] + paths[0];
      assert p[1..] == Prepend(s, paths[1..]);
      HitsPrependInside(s, paths[1..], test, depth, anc);
      PrependStep(s, paths[0], test, depth, anc);
    }
  }

  lemma {:induction false} LeafPathsShape(parent: Option<Node>, n: Node)
    ensures forall i :: 0 <= i < |LeafPaths(parent, n)| ==>
      |LeafPaths(parent, n)[i]| > 0 && LeafPaths(parent, n)[i][0] == (parent, n)
  {}

  lemma {:induction false} ForestPathsNonEmpty(p: Node, cs: seq<Option<Node>>)
    ensures forall i :: 0 <= i < |ForestPaths(p, cs)| ==> |ForestPaths(p, cs)[i]| > 0
    decreases cs
  {
    if |cs| > 0 {
      ForestPathsNonEmpty(p, cs[1..]);
      if cs[0].Some? {
        LeafPathsShape(Some(p), cs[0].value);
      }
    }
  }

  /**
   * Whenever the search succeeds, it finds exactly the leaves whose whole path
   * from the starting node passes the test, in pre-order, each with its parent,
   * its nesting level and its ancestor classes: a node that fails the test
   * contributes nothing from its subtree, a `None` child contributes nothing,
   * and every node on a candidate's path passes the test.
   */
  lemma {:induction false} SearchIsFilteredLeafPaths(parent: Option<Node>, n: Node, test: Test, depth: nat, anc: seq<string>)
    ensures Search(parent, Some(n), test, depth, anc).Ok? ==>
      Summaries(Search(parent, Some(n), test, depth, anc).value) == Hits(LeafPaths(parent, n), test, depth, anc)
    decreases n, 1
  {
    if Search(parent, Some(n), test, depth, anc).Ok? {
      var inside := test(parent, n);
      assert inside.Ok?;
      var current := anc + [ClassOf(n)];
      if |n.children| == 0 {
        if inside == Ok(true) {
          var path: seq<Step> := [(parent, n)];
          assert PathContains(path, test);
          assert PathClasses(path) == [ClassOf(n)];
        }
      } else {
        ForestPathsNonEmpty(n, n.children);
        if inside == Ok(true) {
          HitsPrependInside((parent, n), ForestPaths(n, n.children), test, depth, anc);
          SearchChildrenIsFilteredForestPaths(n, n.children, test, depth + 1, current);
        } else {
          HitsPrependOutside((parent, n), ForestPaths(n, n.children), test, depth, anc);
        }
      }
    }
  }

  lemma {:induction false} SearchChildrenIsFilteredForestPaths(p: Node, cs: seq<Option<Node>>, test: Test, depth: nat, anc: seq<string>)
    ensures SearchChildren(p, cs, test, depth, anc).Ok? ==>
      Summaries(SearchChildren(p, cs, test, depth, anc).value) == Hits(ForestPaths(p, cs), test, depth, anc)
    decreases cs, 0
  {
    if |cs| > 0 && SearchChildren(p, cs, test, depth, anc).Ok? {
      var first := Search(Some(p), cs[0], test, depth, anc).value;
      var rest := SearchChildren(p, cs[1..], test, depth, anc).value;
      assert SearchChildren(p, cs, test, depth, anc) == Ok(first + rest);
      SearchChildrenIsFilteredForestPaths(p, cs[1..], test, depth, anc);
      SummariesAppend(first, rest);
      match cs[0]
      case None =>
        assert first + rest == rest;
        assert ForestPaths(p, cs) == ForestPaths(p, cs[1..]);
      case Some(c) =>
        assert c < cs[0];
        SearchIsFilteredLeafPaths(Some(p), c, test, depth, anc);
        HitsAppend(LeafPaths(Some(p), c), ForestPaths(p, cs[1..]), test, depth, anc);
        assert ForestPaths(p, cs) == LeafPaths(Some(p), c) + ForestPaths(p, cs[1..]);
    }
  }

  /** On a well-formed tree, with a test that raises nothing there, the search succeeds. */
  lemma {:induction false} SearchTotal(parent: Option<Node>, n: Node, test: Test, depth: nat, anc: seq<string>)
    requires TotalOnGood(test) && GoodParent(parent) && WellFormed(n)
    ensures Search(parent, Some(n), test, depth, anc).Ok?
    decreases n, 1
  {
    var inside := test(parent, n);
    assert inside.Ok?;
    if inside == Ok(true) && |n.children| > 0 {
      WellFormedForestAll(n.children);
      SearchChildrenTotal(n, n.children, test, depth + 1, anc + [ClassOf(n)]);
    }
  }

  lemma {:induction false} SearchChildrenTotal(p: Node, cs: seq<Option<Node>>, test: Test, depth: nat, anc: seq<string>)
    requires TotalOnGood(test) && |p.bounds| == 4 && !HasNoneChild(p) && WellFormedForest(cs)
    ensures SearchChildren(p, cs, test, depth, anc).Ok?
    decreases cs, 0
  {
    if |cs| > 0 {
      var c := cs[0].value;
      assert c < cs[0];
      SearchTotal(Some(p), c, test, depth, anc);
      SearchChildrenTotal(p, cs[1..], test, depth, anc);
    }
  }

  lemma {:induction false} SummariesAppend(a: seq<Candidate>, b: seq<Candidate>)
    ensures Summaries(a + b) == Summaries(a) + Summaries(b)
  {
    assert forall i :: 0 <= i < |a + b| ==> Summaries(a + b)[i] == (Summaries(a) + Summaries(b))[i];
  }

  /**
   * Whenever the search the core runs from a hierarchy root succeeds, it yields
   * exactly the root-to-leaf paths whose every node contains `(x, y)`, in pre-order.
   */
  lemma {:induction false} CandidatesAreContainedLeafPaths(root: Node, x: real, y: real)
    ensures Candidates(Some(root), x, y).Ok? ==>
      Summaries(Candidates(Some(root), x, y).value) == Hits(LeafPaths(None, root), Inside(x, y), 0, [])
  {
    SearchIsFilteredLeafPaths(None, root, Inside(x, y), 0, []);
  }

  /** On a hierarchy whose every node has four bounds and no `None` child, the search raises nothing. */
  lemma {:induction false} CandidatesTotal(root: Node, x: real, y: real)
    requires WellFormed(root)
    ensures Candidates(Some(root), x, y).Ok?
  {
    InsideBoundedAndTotal(x, y);
    SearchTotal(None, root, Inside(x, y), 0, []);
  }

  // ---------------------------------------------------------------------
  // Tie-break: sorted(..., key=(Hierarchy_Depth, Nesting_Level), reverse=True)[0]
  // ---------------------------------------------------------------------

  /** The sort key of `a` is lexicographically below that of `b`. */
  predicate KeyBelow(a: Candidate, b: Candidate) {
    a.hierarchyDepth < b.hierarchyDepth ||
    (a.hierarchyDepth == b.hierarchyDepth && a.nestingLevel < b.nestingLevel)
  }

  /**
   * The first element of a stable descending sort: a candidate with the greatest
   * `(Hierarchy_Depth, Nesting_Level)`, and among equal keys the earliest.
   */
  function BestIndex(cands: seq<Candidate>): (k: nat)
    requires |cands| > 0
    ensures k < |cands|
    ensures forall i :: 0 <= i < |cands| ==> !KeyBelow(cands[k], cands[i])
    ensures forall i :: 0 <= i < k ==> KeyBelow(cands[i], cands[k])
  {
    if |cands| == 1 then 0
    else
      var j := BestIndex(cands[..|cands| - 1]);
      if KeyBelow(cands[j], cands[|cands| - 1]) then |cands| - 1 else j
  }
}
