/**
 * Point-in-rectangle tests on absolute bounds `[left, top, right, bottom]`
 * and on bounds given as fractions of the parent's rectangle.
 */
module Geometry {
  import opened Wrappers
  import opened Faults

  /** A Python float that may be `float('inf')`; finite values are exact reals. */
  datatype Extended = Finite(v: real) | Infinity

  /** Four integer bounds, read from the first four entries of a bounds list. */
  datatype Rect = Rect(left: int, top: int, right: int, bottom: int)

  function RectOf(b: seq<int>): Rect
    requires |b| >= 4
  {
    Rect(b[0], b[1], b[2], b[3])
  }

  function AsReals(b: seq<int>): (r: seq<real>)
    ensures |r| == |b| && forall i :: 0 <= i < |b| ==> r[i] == b[i] as real
  {
    seq(|b|, i requires 0 <= i < |b| => b[i] as real)
  }

  /** Python's `int(r)` on a float: truncation toward zero. */
  function Trunc(r: real): (t: int)
    ensures r >= 0.0 ==> t as real <= r < t as real + 1.0
    ensures r < 0.0 ==> t as real - 1.0 < r <= t as real
  {
    if r >= 0.0 then r.Floor else -((-r).Floor)
  }

  /**
   * `is_within_bounds`: unpacking the bounds fails unless there are exactly
   * four; otherwise the test is inclusive on all four truncated edges.
   */
  function IsWithinBounds(x: real, y: real, b: seq<real>): (r: Result<bool, Fault>)
    ensures r.Err? <==> |b| != 4
    ensures r.Err? ==> r.error == ValueError
    ensures r.Ok? ==> (r.value <==>
      Trunc(b[0]) as real <= x <= Trunc(b[2]) as real &&
      Trunc(b[1]) as real <= y <= Trunc(b[3]) as real)
  {
    if |b| != 4 then Err(ValueError)
    else
      var left, top, right, bottom := Trunc(b[0]), Trunc(b[1]), Trunc(b[2]), Trunc(b[3]);
      Ok(left as real <= x <= right as real && top as real <= y <= bottom as real)
  }

  /** The rectangle that four fractions select inside the parent's rectangle. */
  function RelToAbs(rel: seq<real>, parent: seq<int>): (b: seq<real>)
    requires |rel| == 4 && |parent| == 4
    ensures |b| == 4
  {
    [ Scale(parent[0], parent[2], rel[0]), Scale(parent[1], parent[3], rel[1]),
      Scale(parent[0], parent[2], rel[2]), Scale(parent[1], parent[3], rel[3]) ]
  }

  /** The point at fraction `f` of the way from `lo` to `hi`. */
  function Scale(lo: int, hi: int, f: real): real {
    lo as real + (hi - lo) as real * f
  }

  /**
   * `is_within_rel_bounds`: false without parent bounds or without four
   * fractions; unpacking parent bounds other than four entries fails;
   * otherwise the point is tested against the mapped rectangle.
   */
  function IsWithinRelBounds(x: real, y: real, rel: seq<real>, parent: seq<int>): (r: Result<bool, Fault>)
    ensures |parent| == 0 || |rel| != 4 ==> r == Ok(false)
    ensures r.Err? <==> |parent| != 0 && |parent| != 4 && |rel| == 4
    ensures r.Err? ==> r.error == ValueError
    ensures |parent| == 4 && |rel| == 4 ==> r == IsWithinBounds(x, y, RelToAbs(rel, parent))
  {
    if |parent| == 0 || |rel| != 4 then Ok(false)
    else if |parent| != 4 then Err(ValueError)
    else IsWithinBounds(x, y, RelToAbs(rel, parent))
  }

  /** On integer bounds truncation changes nothing, so the test is the plain inclusive one. */
  lemma IntegerBoundsInclusive(x: real, y: real, b: seq<int>)
    requires |b| == 4
    ensures IsWithinBounds(x, y, AsReals(b)) ==
      Ok(b[0] as real <= x <= b[2] as real && b[1] as real <= y <= b[3] as real)
  {
    var r := AsReals(b);
    assert forall i :: 0 <= i < 4 ==> Trunc(r[i]) == b[i];
  }

  lemma TruncAtLeast(v: real, n: int)
    requires n as real <= v
    ensures n <= Trunc(v)
  {}

  lemma TruncAtMost(v: real, n: int)
    requires v <= n as real
    ensures Trunc(v) <= n
  {}

  /**
   * With fractions in [0, 1] and a well-ordered parent, the rectangle the
   * relative bounds select stays inside the parent, truncation included:
   * a point the fallback accepts is also inside the parent's own bounds.
   */
  lemma RelBoundsInsideParent(x: real, y: real, rel: seq<real>, parent: seq<int>)
    requires |rel| == 4 && |parent| == 4
    requires forall i :: 0 <= i < 4 ==> 0.0 <= rel[i] <= 1.0
    requires parent[0] <= parent[2] && parent[1] <= parent[3]
    requires IsWithinRelBounds(x, y, rel, parent) == Ok(true)
    ensures IsWithinBounds(x, y, AsReals(parent)) == Ok(true)
  {
    var a := RelToAbs(rel, parent);
    assert IsWithinBounds(x, y, a) == Ok(true);
    EdgeInside(parent[0], parent[2], rel[0]);
    EdgeInside(parent[1], parent[3], rel[1]);
    EdgeInside(parent[0], parent[2], rel[2]);
    EdgeInside(parent[1], parent[3], rel[3]);
    IntegerBoundsInclusive(x, y, parent);
  }

  /** An edge placed at fraction `f` of `[lo, hi]` truncates to a value in `[lo, hi]`. */
  lemma EdgeInside(lo: int, hi: int, f: real)
    requires lo <= hi && 0.0 <= f <= 1.0
    ensures lo <= Trunc(Scale(lo, hi, f)) <= hi
  {
    var v := Scale(lo, hi, f);
    ScaleBetween(lo, hi, f);
    TruncAtLeast(v, lo);
    TruncAtMost(v, hi);
  }

  lemma ScaleBetween(lo: int, hi: int, f: real)
    requires lo <= hi && 0.0 <= f <= 1.0
    ensures lo as real <= Scale(lo, hi, f) <= hi as real
  {
    ScaledFraction((hi - lo) as real, f);
  }

  lemma ScaledFraction(w: real, f: real)
    requires 0.0 <= w && 0.0 <= f <= 1.0
    ensures 0.0 <= w * f <= w
  {
    assert w * f <= w * 1.0;
  }

  /** `calculate_bounds_area`: width times height for four bounds, infinity otherwise. */
  function BoundsArea(b: seq<int>): (r: Extended)
    ensures r.Finite? <==> |b| == 4
    ensures r.Finite? && b[0] <= b[2] && b[1] <= b[3] ==> r.v >= 0.0
    ensures r.Finite? && (b[0] == b[2] || b[1] == b[3]) ==> r.v == 0.0
  {
    if |b| == 4 then Finite(((b[2] - b[0]) * (b[3] - b[1])) as real) else Infinity
  }
}
