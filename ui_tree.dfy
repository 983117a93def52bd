/**
 * The view-hierarchy node and the tree metrics computed over it:
 * subtree depth, component count, and the pre-order list of descendant classes.
 */
module UiTree {
  import opened Wrappers
  import opened Faults

  /**
   * One node of a view-hierarchy dump. An absent `bounds`, `rel-bounds` or
   * `children` key reads as the empty list, as `component.get(key, [])` does,
   * and a child entry may be JSON `null` (`None`).
   */
  datatype Node = Node(
    cls: Option<string>,
    bounds: seq<int>,
    relBounds: seq<real>,
    clickable: Option<bool>,
    children: seq<Option<Node>>)

  /** `component.get('class', 'Unknown')` */
  function ClassOf(n: Node): string {
    n.cls.GetOr("Unknown")
  }

  predicate HasNoneChild(n: Node) {
    exists i :: 0 <= i < |n.children| && n.children[i].None?
  }

  /**
   * `[child.get('class', 'Unknown') for child in children]`: the classes of a
   * list of children, which fails with AttributeError on a `None` entry.
   */
  function ChildClasses(cs: seq<Option<Node>>): (r: Result<seq<string>, Fault>)
    ensures r.Ok? <==> forall i :: 0 <= i < |cs| ==> cs[i].Some?
    ensures r.Err? ==> r.error == AttributeError
    ensures r.Ok? ==> |r.value| == |cs|
    ensures r.Ok? ==> forall i :: 0 <= i < |cs| ==> r.value[i] == ClassOf(cs[i].value)
  {
    if |cs| == 0 then Ok([])
    else match cs[0]
      case None => Err(AttributeError)
      case Some(c) =>
        match ChildClasses(cs[1..])
        case Err(e) => Err(e)
        case Ok(rest) => Ok([ClassOf(c)] + rest)
  }

  // ---------------------------------------------------------------------
  // calculate_hierarchy_depth
  // ---------------------------------------------------------------------

  /**
   * Height of the subtree: 1 for `None` or a childless node, otherwise one
   * more than the deepest non-`None` child (1 again when every child is `None`).
   */
  function HierarchyDepth(c: Option<Node>): (d: nat)
    ensures d >= 1
  {
    match c
    case None => 1
    case Some(n) => 1 + MaxChildDepth(n.children)
  }

  /** The largest depth among the non-`None` entries, 0 when there is none. */
  function MaxChildDepth(cs: seq<Option<Node>>): nat
  {
    if |cs| == 0 then 0
    else
      var rest := MaxChildDepth(cs[..|cs| - 1]);
      match cs[|cs| - 1]
      case None => rest
      case Some(ch) =>
        var d := HierarchyDepth(Some(ch));
        if d > rest then d else rest
  }

  lemma {:induction false} MaxChildDepthIsMax(cs: seq<Option<Node>>)
    ensures forall i :: 0 <= i < |cs| && cs[i].Some? ==> HierarchyDepth(cs[i]) <= MaxChildDepth(cs)
    ensures MaxChildDepth(cs) == 0 <==> forall i :: 0 <= i < |cs| ==> cs[i].None?
    ensures MaxChildDepth(cs) > 0 ==>
      exists i :: 0 <= i < |cs| && cs[i].Some? && HierarchyDepth(cs[i]) == MaxChildDepth(cs)
  {
    if |cs| > 0 {
      var init := cs[..|cs| - 1];
      MaxChildDepthIsMax(init);
      assert forall i :: 0 <= i < |init| ==> init[i] == cs[i];
      if MaxChildDepth(cs) > 0 && MaxChildDepth(cs) != MaxChildDepth(init) {
        assert HierarchyDepth(cs[|cs| - 1]) == MaxChildDepth(cs);
      }
    }
  }

  /**
   * The depth of a node with children is one more than the maximum over its
   * non-`None` children (every one is strictly shallower and one attains it);
   * with no non-`None` child it is 1.
   */
  lemma HierarchyDepthIsOnePlusMax(n: Node)
    ensures forall i :: 0 <= i < |n.children| && n.children[i].Some? ==>
      HierarchyDepth(n.children[i]) < HierarchyDepth(Some(n))
    ensures (forall i :: 0 <= i < |n.children| ==> n.children[i].None?) ==>
      HierarchyDepth(Some(n)) == 1
    ensures (exists i :: 0 <= i < |n.children| && n.children[i].Some?) ==>
      exists i :: 0 <= i < |n.children| && n.children[i].Some? &&
        HierarchyDepth(Some(n)) == 1 + HierarchyDepth(n.children[i])
  {
    MaxChildDepthIsMax(n.children);
  }

  // ---------------------------------------------------------------------
  // count_components_in_ui
  // ---------------------------------------------------------------------

  /** Number of components in the subtree; a `None` child counts as one. */
  function CountComponents(c: Option<Node>): (k: nat)
    ensures k >= 1
  {
    match c
    case None => 1
    case Some(n) => 1 + ForestCount(n.children)
  }

  /** `sum(count_components_in_ui(child) for child in children)` */
  function ForestCount(cs: seq<Option<Node>>): nat
  {
    if |cs| == 0 then 0
    else ForestCount(cs[..|cs| - 1]) + CountComponents(cs[|cs| - 1])
  }

  lemma {:induction false} DepthAtMostCount(c: Option<Node>)
    ensures HierarchyDepth(c) <= CountComponents(c)
    decreases c, 1
  {
    if c.Some? {
      MaxAtMostForestCount(c.value.children);
    }
  }

  lemma {:induction false} MaxAtMostForestCount(cs: seq<Option<Node>>)
    ensures MaxChildDepth(cs) <= ForestCount(cs)
    decreases cs, 0
  {
    if |cs| > 0 {
      MaxAtMostForestCount(cs[..|cs| - 1]);
      DepthAtMostCount(cs[|cs| - 1]);
    }
  }

  // ---------------------------------------------------------------------
  // get_all_descendant_components_info
  // ---------------------------------------------------------------------

  /** Classes of every non-`None` descendant of `n` (not `n` itself), in pre-order. */
  function DescendantClasses(n: Node): seq<string>
  {
    ForestClasses(n.children)
  }

  function ForestClasses(cs: seq<Option<Node>>): seq<string>
  {
    if |cs| == 0 then []
    else
      ForestClasses(cs[..|cs| - 1]) +
      match cs[|cs| - 1]
      case None => []
      case Some(c) =>
        assert c < cs[|cs| - 1];
        [ClassOf(c)] + DescendantClasses(c)
  }

  /** Number of `None` child entries anywhere below `n`. */
  function NoneEntries(n: Node): nat
  {
    ForestNoneEntries(n.children)
  }

  function ForestNoneEntries(cs: seq<Option<Node>>): nat
  {
    if |cs| == 0 then 0
    else
      ForestNoneEntries(cs[..|cs| - 1]) +
      match cs[|cs| - 1]
      case None => 1
      case Some(c) =>
        assert c < cs[|cs| - 1];
        NoneEntries(c)
  }

  /**
   * The component count and the descendant enumeration agree: the count is the
   * node itself, its listed descendants, and the `None` entries, which the
   * count includes and the enumeration skips.
   */
  lemma {:induction false} CountIsNodePlusDescendants(n: Node)
    ensures CountComponents(Some(n)) == 1 + |DescendantClasses(n)| + NoneEntries(n)
    decreases n, 1
  {
    ForestCountIsClassesPlusNones(n.children);
  }

  lemma {:induction false} ForestCountIsClassesPlusNones(cs: seq<Option<Node>>)
    ensures ForestCount(cs) == |ForestClasses(cs)| + ForestNoneEntries(cs)
    decreases cs, 0
  {
    if |cs| > 0 {
      ForestCountIsClassesPlusNones(cs[..|cs| - 1]);
      match cs[|cs| - 1]
      case None =>
      case Some(c) =>
        assert c < cs[|cs| - 1];
        CountIsNodePlusDescendants(c);
    }
  }

  /**
   * `get_all_descendant_components_info`: the number and the pre-order classes
   * of all non-`None` descendants of `parent`; `(0, [])` for `None`.
   */
  method GetAllDescendantComponentsInfo(parent: Option<Node>) returns (count: nat, classes: seq<string>)
    ensures count == |classes|
    ensures parent.None? ==> classes == []
    ensures parent.Some? ==> classes == DescendantClasses(parent.value)
  {
    if parent.None? {
      return 0, [];
    }
    count, classes := TraverseDescendants(parent.value, 0, []);
  }

  /** The nested `traverse_descendants`, appending to the two accumulators. */
  method TraverseDescendants(n: Node, count0: nat, classes0: seq<string>) returns (count: nat, classes: seq<string>)
    requires count0 == |classes0|
    ensures count == |classes|
    ensures classes == classes0 + DescendantClasses(n)
    decreases n
  {
    count, classes := count0, classes0;
    var i := 0;
    while i < |n.children|
      invariant 0 <= i <= |n.children|
      invariant count == |classes|
      invariant classes == classes0 + ForestClasses(n.children[..i])
    {
      assert n.children[..i + 1][..i] == n.children[..i];
      var child := n.children[i];
      if child.Some? {
        count := count + 1;
        classes := classes + [ClassOf(child.value)];
        assert child.value < n.children[i];
        count, classes := TraverseDescendants(child.value, count, classes);
      }
      i := i + 1;
    }
    assert n.children[..|n.children|] == n.children;
  }

  // ---------------------------------------------------------------------
  // get_direct_child_components_info
  // ---------------------------------------------------------------------

  /** Number and classes of the direct children of `parent`; `(0, [])` for `None`. */
  function GetDirectChildComponentsInfo(parent: Option<Node>): (r: Result<(nat, seq<string>), Fault>)
    ensures parent.None? ==> r == Ok((0, []))
    ensures parent.Some? ==> (r.Ok? <==> !HasNoneChild(parent.value))
    ensures r.Ok? && parent.Some? ==> r.value.0 == |parent.value.children| == |r.value.1|
    ensures r.Ok? && parent.Some? ==>
      forall i :: 0 <= i < |r.value.1| ==> r.value.1[i] == ClassOf(parent.value.children[i].value)
  {
    match parent
    case None => Ok((0, []))
    case Some(p) =>
      match ChildClasses(p.children)
      case Err(e) => Err(e)
      case Ok(classes) => Ok((|p.children|, classes))
  }
}
