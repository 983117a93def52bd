/**
 * `calculate_spacing`: the normalised distance from a matched element to the
 * nearest edge above, below, left and right of it, starting from the parent's
 * edges and tightened by every sibling that overlaps it in the other axis.
 */
module Spacing {
  import opened Wrappers
  import opened Faults
  import opened Geometry
  import opened UiTree

  datatype Spacings = Spacings(top: Extended, bottom: Extended, left: Extended, right: Extended)

  datatype Side = Top | Bottom | Left | Right

  function Get(sp: Spacings, side: Side): Extended {
    match side
    case Top => sp.top
    case Bottom => sp.bottom
    case Left => sp.left
    case Right => sp.right
  }

  /** `min(a, b)` where `a` may be `float('inf')` and `b` is finite. */
  function MinWith(a: Extended, b: real): (m: Extended)
    ensures m.Finite? && m.v <= b
    ensures a.Finite? ==> m.v <= a.v
    ensures m == a || m == Finite(b)
  {
    match a
    case Infinity => Finite(b)
    case Finite(v) => if b < v then Finite(b) else a
  }

  /** `a <= b` on floats that may be infinite. */
  predicate AtMost(a: Extended, b: Extended) {
    b.Infinity? || (a.Finite? && a.v <= b.v)
  }

  /** The horizontal extents of the two rectangles overlap (strictly). */
  predicate OverlapsHorizontally(cur: Rect, s: Rect) {
    s.right > cur.left && s.left < cur.right
  }

  /** The vertical extents of the two rectangles overlap (strictly). */
  predicate OverlapsVertically(cur: Rect, s: Rect) {
    s.bottom > cur.top && s.top < cur.bottom
  }

  /** Sibling `s` lies strictly beyond `cur` on `side` and overlaps it in the other axis. */
  predicate Qualifies(cur: Rect, s: Rect, side: Side) {
    match side
    case Top => s.bottom < cur.top && OverlapsHorizontally(cur, s)
    case Bottom => s.top > cur.bottom && OverlapsHorizontally(cur, s)
    case Left => s.right < cur.left && OverlapsVertically(cur, s)
    case Right => s.left > cur.right && OverlapsVertically(cur, s)
  }

  /** The gap between `cur` and sibling `s` on `side`, normalised by the parent's size. */
  function Gap(cur: Rect, s: Rect, side: Side, pw: int, ph: int): real
    requires pw != 0 && ph != 0
  {
    match side
    case Top => (cur.top - s.bottom) as real / ph as real
    case Bottom => (s.top - cur.bottom) as real / ph as real
    case Left => (cur.left - s.right) as real / pw as real
    case Right => (s.left - cur.right) as real / pw as real
  }

  /** One iteration of the sibling loop on one side. */
  function Update(sp: Spacings, cur: Rect, s: Rect, side: Side, pw: int, ph: int): Extended
    requires pw != 0 && ph != 0
  {
    if Qualifies(cur, s, side) then MinWith(Get(sp, side), Gap(cur, s, side, pw, ph)) else Get(sp, side)
  }

  /** One iteration of the sibling loop; a sibling without bounds is skipped. */
  function Step(sp: Spacings, cur: Rect, sib: Node, pw: int, ph: int): Spacings
    requires pw != 0 && ph != 0
    requires Readable(sib)
  {
    if |sib.bounds| == 0 then sp
    else
      var s := RectOf(sib.bounds);
      Spacings(Update(sp, cur, s, Top, pw, ph), Update(sp, cur, s, Bottom, pw, ph),
               Update(sp, cur, s, Left, pw, ph), Update(sp, cur, s, Right, pw, ph))
  }

  /** A sibling's bounds can be read: absent, or at least four entries. */
  predicate Readable(sib: Node) {
    |sib.bounds| == 0 || |sib.bounds| >= 4
  }

  /** The spacings after the loop has visited every sibling, in order. */
  function Refine(sp: Spacings, cur: Rect, sibs: seq<Node>, pw: int, ph: int): Spacings
    requires pw != 0 && ph != 0
    requires forall i :: 0 <= i < |sibs| ==> Readable(sibs[i])
  {
    if |sibs| == 0 then sp
    else
      assert Readable(sibs[|sibs| - 1]);
      Step(Refine(sp, cur, sibs[..|sibs| - 1], pw, ph), cur, sibs[|sibs| - 1], pw, ph)
  }

  /** `parent_width`: 1 without parent bounds. */
  function ParentWidth(pb: seq<int>): int
    requires |pb| == 0 || |pb| >= 4
  {
    if |pb| == 0 then 1 else pb[2] - pb[0]
  }

  /** `parent_height`: 1 without parent bounds. */
  function ParentHeight(pb: seq<int>): int
    requires |pb| == 0 || |pb| >= 4
  {
    if |pb| == 0 then 1 else pb[3] - pb[1]
  }

  /** The distances to the parent's edges, or all infinite without parent bounds. */
  function Baseline(cur: Rect, pb: seq<int>): Spacings
    requires |pb| == 0 || (|pb| >= 4 && ParentWidth(pb) != 0 && ParentHeight(pb) != 0)
  {
    if |pb| == 0 then Spacings(Infinity, Infinity, Infinity, Infinity)
    else
      var pw, ph := ParentWidth(pb) as real, ParentHeight(pb) as real;
      Spacings(Finite((cur.top - pb[1]) as real / ph), Finite((pb[3] - cur.bottom) as real / ph),
               Finite((cur.left - pb[0]) as real / pw), Finite((pb[2] - cur.right) as real / pw))
  }

  /**
   * The whole of `calculate_spacing` for the matched bounds `cur`, the parent's
   * bounds `pb` (empty without a parent) and the siblings: parent bounds of one
   * to three entries and sibling bounds of one to three entries are indexed past
   * their end, and a parent of zero width or height divides by zero.
   */
  function SpacingOf(cur: Rect, pb: seq<int>, sibs: seq<Node>): Result<Spacings, Fault>
  {
    if 0 < |pb| < 4 then Err(IndexError)
    else if ParentHeight(pb) == 0 || ParentWidth(pb) == 0 then Err(ZeroDivisionError)
    else if exists i :: 0 <= i < |sibs| && !Readable(sibs[i]) then Err(IndexError)
    else Ok(Refine(Baseline(cur, pb), cur, sibs, ParentWidth(pb), ParentHeight(pb)))
  }

  /** The body of the sibling loop, for a sibling with bounds: each side may shrink to its gap. */
  method VisitSibling(top: Extended, bottom: Extended, left: Extended, right: Extended,
                      cur: Rect, sib: Node, pw: int, ph: int)
    returns (top': Extended, bottom': Extended, left': Extended, right': Extended)
    requires pw != 0 && ph != 0 && |sib.bounds| >= 4
    ensures Spacings(top', bottom', left', right') == Step(Spacings(top, bottom, left, right), cur, sib, pw, ph)
  {
    var sb := sib.bounds;
    top', bottom', left', right' := top, bottom, left, right;
    var overlapsVertically := sb[3] > cur.top && sb[1] < cur.bottom;
    var overlapsHorizontally := sb[2] > cur.left && sb[0] < cur.right;
    if sb[3] < cur.top && overlapsHorizontally {
      top' := MinWith(top, (cur.top - sb[3]) as real / ph as real);
    }
    if sb[1] > cur.bottom && overlapsHorizontally {
      bottom' := MinWith(bottom, (sb[1] - cur.bottom) as real / ph as real);
    }
    if sb[2] < cur.left && overlapsVertically {
      left' := MinWith(left, (cur.left - sb[2]) as real / pw as real);
    }
    if sb[0] > cur.right && overlapsVertically {
      right' := MinWith(right, (sb[0] - cur.right) as real / pw as real);
    }
  }

  /** `calculate_spacing`, as the loop over the siblings that it is. */
  method CalculateSpacing(cur: Rect, pb: seq<int>, sibs: seq<Node>) returns (r: Result<Spacings, Fault>)
    ensures r == SpacingOf(cur, pb, sibs)
  {
    if 0 < |pb| < 4 {
      return Err(IndexError);
    }
    var pw := if |pb| > 0 then pb[2] - pb[0] else 1;
    var ph := if |pb| > 0 then pb[3] - pb[1] else 1;
    if ph == 0 || pw == 0 {
      return Err(ZeroDivisionError);
    }
    var top, bottom, left, right;
    if |pb| > 0 {
      top := Finite((cur.top - pb[1]) as real / ph as real);
      bottom := Finite((pb[3] - cur.bottom) as real / ph as real);
      left := Finite((cur.left - pb[0]) as real / pw as real);
      right := Finite((pb[2] - cur.right) as real / pw as real);
    } else {
      top, bottom, left, right := Infinity, Infinity, Infinity, Infinity;
    }
    ghost var base := Spacings(top, bottom, left, right);
    assert base == Baseline(cur, pb);
    var i := 0;
    while i < |sibs|
      invariant 0 <= i <= |sibs|
      invariant forall k :: 0 <= k < i ==> Readable(sibs[k])
      invariant Spacings(top, bottom, left, right) == Refine(base, cur, sibs[..i], pw, ph)
    {
      assert sibs[..i + 1][..i] == sibs[..i];
      var sb := sibs[i].bounds;
      if |sb| == 0 {
        i := i + 1;
        continue;
      }
      if |sb| < 4 {
        assert !Readable(sibs[i]);
        return Err(IndexError);
      }
      top, bottom, left, right := VisitSibling(top, bottom, left, right, cur, sibs[i], pw, ph);
      i := i + 1;
    }
    assert sibs[..|sibs|] == sibs;
    return Ok(Spacings(top, bottom, left, right));
  }

  // ---------------------------------------------------------------------
  // Properties
  // ---------------------------------------------------------------------

  /** Without a parent (and so without siblings) every spacing is infinite. */
  lemma NoParentIsInfinite(cur: Rect)
    ensures SpacingOf(cur, [], []) == Ok(Spacings(Infinity, Infinity, Infinity, Infinity))
  {}

  /** (a - p) / h + (b - a) / h + (q - b) / h == 1 when q - p == h. */
  lemma ThreeGapsSpan(p: int, a: int, b: int, q: int, h: int)
    requires h != 0 && q - p == h
    ensures (a - p) as real / h as real + (b - a) as real / h as real + (q - b) as real / h as real == 1.0
  {
    var hr := h as real;
    assert (a - p) as real / hr + (b - a) as real / hr + (q - b) as real / hr == ((a - p) + (b - a) + (q - b)) as real / hr;
  }

  /**
   * With parent bounds and no siblings, the element and its two gaps span the
   * parent exactly: `top + height / parentHeight + bottom == 1`, and the same
   * across with the width.
   */
  lemma NoSiblingsSpanParent(cur: Rect, pb: seq<int>)
    requires |pb| >= 4 && ParentWidth(pb) != 0 && ParentHeight(pb) != 0
    ensures SpacingOf(cur, pb, []).Ok?
    ensures var sp := SpacingOf(cur, pb, []).value;
      && sp.top.Finite? && sp.bottom.Finite? && sp.left.Finite? && sp.right.Finite?
      && sp.top.v + (cur.bottom - cur.top) as real / ParentHeight(pb) as real + sp.bottom.v == 1.0
      && sp.left.v + (cur.right - cur.left) as real / ParentWidth(pb) as real + sp.right.v == 1.0
  {
    ThreeGapsSpan(pb[1], cur.top, cur.bottom, pb[3], ParentHeight(pb));
    ThreeGapsSpan(pb[0], cur.left, cur.right, pb[2], ParentWidth(pb));
  }

  /** A step never raises a spacing, and a sibling without bounds changes nothing. */
  lemma StepLowers(sp: Spacings, cur: Rect, sib: Node, pw: int, ph: int, side: Side)
    requires pw != 0 && ph != 0 && Readable(sib)
    ensures AtMost(Get(Step(sp, cur, sib, pw, ph), side), Get(sp, side))
    ensures |sib.bounds| == 0 ==> Step(sp, cur, sib, pw, ph) == sp
  {}

  /**
   * A sibling affects the top and bottom spacings only if it overlaps the element
   * horizontally, and the left and right spacings only if it overlaps vertically.
   */
  lemma StepNeedsOverlap(sp: Spacings, cur: Rect, sib: Node, pw: int, ph: int)
    requires pw != 0 && ph != 0 && |sib.bounds| >= 4
    ensures !OverlapsHorizontally(cur, RectOf(sib.bounds)) ==>
      Step(sp, cur, sib, pw, ph).top == sp.top && Step(sp, cur, sib, pw, ph).bottom == sp.bottom
    ensures !OverlapsVertically(cur, RectOf(sib.bounds)) ==>
      Step(sp, cur, sib, pw, ph).left == sp.left && Step(sp, cur, sib, pw, ph).right == sp.right
  {}

  lemma AtMostTransitive(a: Extended, b: Extended, c: Extended)
    requires AtMost(a, b) && AtMost(b, c)
    ensures AtMost(a, c)
  {}

  /** Adding a sibling at the end can only lower a spacing, never raise it. */
  lemma AddingSiblingLowers(sp: Spacings, cur: Rect, sibs: seq<Node>, sib: Node, pw: int, ph: int, side: Side)
    requires pw != 0 && ph != 0
    requires forall i :: 0 <= i < |sibs| ==> Readable(sibs[i])
    requires Readable(sib)
    ensures AtMost(Get(Refine(sp, cur, sibs + [sib], pw, ph), side), Get(Refine(sp, cur, sibs, pw, ph), side))
  {
    assert (sibs + [sib])[..|sibs|] == sibs;
    StepLowers(Refine(sp, cur, sibs, pw, ph), cur, sib, pw, ph, side);
  }

  /**
   * The result in each direction is the smallest of the starting value and the
   * gaps to the siblings that qualify on that side: no qualifying sibling is
   * nearer, and the result is either the start value or one of those gaps.
   */
  lemma {:induction false} RefineIsNearest(sp: Spacings, cur: Rect, sibs: seq<Node>, pw: int, ph: int, side: Side)
    requires pw != 0 && ph != 0
    requires forall i :: 0 <= i < |sibs| ==> Readable(sibs[i])
    ensures AtMost(Get(Refine(sp, cur, sibs, pw, ph), side), Get(sp, side))
    ensures forall i :: 0 <= i < |sibs| && |sibs[i].bounds| >= 4 && Qualifies(cur, RectOf(sibs[i].bounds), side) ==>
      AtMost(Get(Refine(sp, cur, sibs, pw, ph), side), Finite(Gap(cur, RectOf(sibs[i].bounds), side, pw, ph)))
    ensures Get(Refine(sp, cur, sibs, pw, ph), side) == Get(sp, side) ||
      exists i :: 0 <= i < |sibs| && |sibs[i].bounds| >= 4 && Qualifies(cur, RectOf(sibs[i].bounds), side) &&
        Get(Refine(sp, cur, sibs, pw, ph), side) == Finite(Gap(cur, RectOf(sibs[i].bounds), side, pw, ph))
  {
    if |sibs| > 0 {
      var init, last := sibs[..|sibs| - 1], sibs[|sibs| - 1];
      RefineIsNearest(sp, cur, init, pw, ph, side);
      assert forall i :: 0 <= i < |init| ==> init[i] == sibs[i];
      var before := Refine(sp, cur, init, pw, ph);
      StepLowers(before, cur, last, pw, ph, side);
      forall i | 0 <= i < |sibs| && |sibs[i].bounds| >= 4 && Qualifies(cur, RectOf(sibs[i].bounds), side)
        ensures AtMost(Get(Refine(sp, cur, sibs, pw, ph), side), Finite(Gap(cur, RectOf(sibs[i].bounds), side, pw, ph)))
      {
        if i < |init| {
          AtMostTransitive(Get(Refine(sp, cur, sibs, pw, ph), side), Get(before, side),
            Finite(Gap(cur, RectOf(sibs[i].bounds), side, pw, ph)));
        }
      }
      if Get(Refine(sp, cur, sibs, pw, ph), side) != Get(before, side) {
        assert Get(Refine(sp, cur, sibs, pw, ph), side) == Finite(Gap(cur, RectOf(last.bounds), side, pw, ph));
      }
    }
  }

  /** Siblings with nonempty bounds, in order. */
  function WithBounds(sibs: seq<Node>): (r: seq<Node>)
    ensures |r| <= |sibs|
  {
    if |sibs| == 0 then []
    else WithBounds(sibs[..|sibs| - 1]) + if |sibs[|sibs| - 1].bounds| == 0 then [] else [sibs[|sibs| - 1]]
  }

  lemma {:induction false} WithBoundsReadable(sibs: seq<Node>)
    requires forall i :: 0 <= i < |sibs| ==> Readable(sibs[i])
    ensures forall i :: 0 <= i < |WithBounds(sibs)| ==> |WithBounds(sibs)[i].bounds| >= 4
  {
    if |sibs| > 0 {
      WithBoundsReadable(sibs[..|sibs| - 1]);
    }
  }

  lemma {:induction false} RefineIgnoresBoundless(sp: Spacings, cur: Rect, sibs: seq<Node>, pw: int, ph: int)
    requires pw != 0 && ph != 0
    requires forall i :: 0 <= i < |sibs| ==> Readable(sibs[i])
    ensures forall i :: 0 <= i < |WithBounds(sibs)| ==> Readable(WithBounds(sibs)[i])
    ensures Refine(sp, cur, sibs, pw, ph) == Refine(sp, cur, WithBounds(sibs), pw, ph)
  {
    WithBoundsReadable(sibs);
    if |sibs| > 0 {
      var init, last := sibs[..|sibs| - 1], sibs[|sibs| - 1];
      RefineIgnoresBoundless(sp, cur, init, pw, ph);
      var w := WithBounds(sibs);
      if |last.bounds| > 0 {
        assert w == WithBounds(init) + [last];
        assert w[..|w| - 1] == WithBounds(init);
        assert w[|w| - 1] == last;
      } else {
        assert w == WithBounds(init);
      }
    }
  }

  /** Siblings without bounds have no effect on the result. */
  lemma BoundlessSiblingsIgnored(cur: Rect, pb: seq<int>, sibs: seq<Node>)
    ensures SpacingOf(cur, pb, sibs) == SpacingOf(cur, pb, WithBounds(sibs))
  {
    if !(0 < |pb| < 4) && ParentHeight(pb) != 0 && ParentWidth(pb) != 0 {
      if forall i :: 0 <= i < |sibs| ==> Readable(sibs[i]) {
        RefineIgnoresBoundless(Baseline(cur, pb), cur, sibs, ParentWidth(pb), ParentHeight(pb));
      } else {
        WithBoundsKeepsUnreadable(sibs);
      }
    }
  }

  lemma {:induction false} WithBoundsKeepsUnreadable(sibs: seq<Node>)
    requires exists i :: 0 <= i < |sibs| && !Readable(sibs[i])
    ensures exists i :: 0 <= i < |WithBounds(sibs)| && !Readable(WithBounds(sibs)[i])
  {
    var init, last := sibs[..|sibs| - 1], sibs[|sibs| - 1];
    if Readable(last) {
      var i :| 0 <= i < |sibs| && !Readable(sibs[i]);
      assert init[i] == sibs[i];
      WithBoundsKeepsUnreadable(init);
      var j :| 0 <= j < |WithBounds(init)| && !Readable(WithBounds(init)[j]);
      assert WithBounds(sibs)[j] == WithBounds(init)[j];
    } else {
      assert WithBounds(sibs)[|WithBounds(sibs)| - 1] == last;
    }
  }
}
