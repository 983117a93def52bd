/**
 * The small per-row feature encoders of the training pipeline: the one-hot
 * encoding of the classified class, the frequency vector of the descendant
 * classes over the global list of distinct classes, and its scaling by the
 * descendant count. Python's unordered set of distinct classes is passed in
 * as a sequence (`unique`) whose order the encodings follow.
 */
module Features {
  import opened Wrappers

  // ---------------------------------------------------------------------
  // encode_class
  // ---------------------------------------------------------------------

  /** The classes of the one-hot encoding, in slot order. */
  const Slots: seq<string> := ["Image", "TextButton", "Other"]

  /**
   * `encode_class`: a list of three zeros, with a one written into the slot
   * of the class when it is one of the three.
   */
  method EncodeClass(cls: string) returns (encoded: seq<int>)
    ensures |encoded| == |Slots| == 3
    ensures forall i :: 0 <= i < 3 ==> encoded[i] == (if cls == Slots[i] then 1 else 0)
    ensures cls !in Slots ==> encoded == [0, 0, 0]
    ensures cls in Slots ==> Sum(encoded) == 1
  {
    encoded := [0, 0, 0];
    if cls == "Image" {
      encoded := encoded[0 := 1];
    } else if cls == "TextButton" {
      encoded := encoded[1 := 1];
    } else if cls == "Other" {
      encoded := encoded[2 := 1];
    }
    SumOfThree(encoded);
  }

  lemma SumOfThree(s: seq<int>)
    requires |s| == 3
    ensures Sum(s) == s[0] + s[1] + s[2]
  {
    assert s[..2][..1] == [s[0]];
    assert Sum([s[0]]) == s[0] by {
      assert [s[0]][..0] == [];
    }
    assert Sum(s[..2]) == s[0] + s[1];
  }

  // ---------------------------------------------------------------------
  // encode_descendant_classes
  // ---------------------------------------------------------------------

  function Sum(s: seq<int>): int {
    if |s| == 0 then 0 else Sum(s[..|s| - 1]) + s[|s| - 1]
  }

  predicate Distinct<T(==)>(s: seq<T>) {
    forall i, j :: 0 <= i < j < |s| ==> s[i] != s[j]
  }

  /** The number of occurrences in `l` of each class of `unique`, in order. */
  function Frequencies(unique: seq<string>, l: seq<string>): (r: seq<int>)
    ensures |r| == |unique| && forall k :: 0 <= k < |unique| ==> r[k] == multiset(l)[unique[k]]
  {
    seq(|unique|, k requires 0 <= k < |unique| => multiset(l)[unique[k]])
  }

  /** The number of items of `l` that are classes of `unique`. */
  function Known(unique: seq<string>, l: seq<string>): (n: nat)
    ensures n <= |l|
  {
    if |l| == 0 then 0
    else Known(unique, l[..|l| - 1]) + (if l[|l| - 1] in unique then 1 else 0)
  }

  /**
   * `encode_descendant_classes`: a count per distinct class, started at zero;
   * each item of the list that is one of the classes raises its count; a
   * missing (None) or empty list leaves every count at zero.
   */
  method EncodeDescendantClasses(unique: seq<string>, list: Option<seq<string>>) returns (r: seq<int>)
    ensures |r| == |unique|
    ensures list.Some? ==> r == Frequencies(unique, list.value)
    ensures (list.None? || list.value == []) ==> forall k :: 0 <= k < |r| ==> r[k] == 0
  {
    var counts: map<string, int> := map c | c in unique :: 0;
    if list.Some? && |list.value| > 0 {
      var l := list.value;
      var i := 0;
      while i < |l|
        invariant 0 <= i <= |l|
        invariant forall c :: c in counts <==> c in unique
        invariant forall c :: c in counts ==> counts[c] == multiset(l[..i])[c]
      {
        assert l[..i + 1] == l[..i] + [l[i]];
        if l[i] in counts {
          counts := counts[l[i] := counts[l[i]] + 1];
        }
        i := i + 1;
      }
      assert l[..i] == l;
    }
    r := seq(|unique|, k requires 0 <= k < |unique| => counts[unique[k]]);
  }

  /** Adding one at index `j` adds one to the sum. */
  lemma {:induction false} SumIncrementAt(s: seq<int>, t: seq<int>, j: nat)
    requires |s| == |t| && j < |s|
    requires t[j] == s[j] + 1 && forall k :: 0 <= k < |s| && k != j ==> t[k] == s[k]
    ensures Sum(t) == Sum(s) + 1
  {
    var n := |s| - 1;
    if j < n {
      SumIncrementAt(s[..n], t[..n], j);
    } else {
      assert s[..n] == t[..n];
    }
  }

  /** Sequences equal pointwise have the same sum. */
  lemma SumPointwise(s: seq<int>, t: seq<int>)
    requires |s| == |t| && forall k :: 0 <= k < |s| ==> t[k] == s[k]
    ensures Sum(t) == Sum(s)
  {
    assert s == t;
  }

  /**
   * Over distinct classes, the frequencies add up to the number of items that
   * are classes: items that are not are ignored.
   */
  lemma {:induction false} FrequenciesSum(unique: seq<string>, l: seq<string>)
    requires Distinct(unique)
    ensures Sum(Frequencies(unique, l)) == Known(unique, l)
  {
    if |l| == 0 {
      assert Frequencies(unique, l) == seq(|unique|, k => 0);
      ZeroSum(|unique|);
    } else {
      var n := |l| - 1;
      var x := l[n];
      FrequenciesSum(unique, l[..n]);
      assert l == l[..n] + [x];
      var s, t := Frequencies(unique, l[..n]), Frequencies(unique, l);
      if x in unique {
        var j :| 0 <= j < |unique| && unique[j] == x;
        SumIncrementAt(s, t, j);
      } else {
        SumPointwise(s, t);
      }
    }
  }

  lemma {:induction false} ZeroSum(n: nat)
    ensures Sum(seq(n, k => 0)) == 0
  {
    if n > 0 {
      assert seq(n, k => 0)[..n - 1] == seq(n - 1, k => 0);
      ZeroSum(n - 1);
    }
  }

  /** Every item counted exactly when every item is one of the classes. */
  lemma {:induction false} KnownAll(unique: seq<string>, l: seq<string>)
    ensures Known(unique, l) == |l| <==> forall i :: 0 <= i < |l| ==> l[i] in unique
  {
    if |l| > 0 {
      var n := |l| - 1;
      KnownAll(unique, l[..n]);
      assert forall i :: 0 <= i < n ==> l[..n][i] == l[i];
    }
  }

  /**
   * The encoded frequencies sum to at most the list length, and to exactly
   * the list length when every item is one of the distinct classes.
   */
  lemma FrequenciesBound(unique: seq<string>, l: seq<string>)
    requires Distinct(unique)
    ensures Sum(Frequencies(unique, l)) <= |l|
    ensures (forall i :: 0 <= i < |l| ==> l[i] in unique) ==> Sum(Frequencies(unique, l)) == |l|
  {
    FrequenciesSum(unique, l);
    KnownAll(unique, l);
  }

  // ---------------------------------------------------------------------
  // scale_encoded_classes
  // ---------------------------------------------------------------------

  function SumR(s: seq<real>): real {
    if |s| == 0 then 0.0 else SumR(s[..|s| - 1]) + s[|s| - 1]
  }

  /**
   * `scale_encoded_classes`: each count divided by the total, or zero for
   * every entry when the total is not positive. Division is exact.
   */
  function ScaleEncodedClasses(encoded: seq<int>, total: int): (r: seq<real>)
    ensures |r| == |encoded|
    ensures total <= 0 ==> forall i :: 0 <= i < |r| ==> r[i] == 0.0
  {
    seq(|encoded|, i requires 0 <= i < |encoded| =>
      if total > 0 then encoded[i] as real / total as real else 0.0)
  }

  /** With a positive total, the scaled entries sum to the counts' sum over the total. */
  lemma {:induction false} ScaledSum(encoded: seq<int>, total: int)
    requires total > 0
    ensures SumR(ScaleEncodedClasses(encoded, total)) == Sum(encoded) as real / total as real
  {
    if |encoded| > 0 {
      var n := |encoded| - 1;
      ScaledSum(encoded[..n], total);
      assert ScaleEncodedClasses(encoded, total)[..n] == ScaleEncodedClasses(encoded[..n], total);
      assert Sum(encoded) as real / total as real
          == Sum(encoded[..n]) as real / total as real + encoded[n] as real / total as real;
    }
  }

  /** Counts between zero and the total scale into the unit interval. */
  lemma ScaledInUnit(encoded: seq<int>, total: int)
    requires total > 0 && forall i :: 0 <= i < |encoded| ==> 0 <= encoded[i] <= total
    ensures forall i :: 0 <= i < |encoded| ==> 0.0 <= ScaleEncodedClasses(encoded, total)[i] <= 1.0
  {
    forall i | 0 <= i < |encoded|
      ensures 0.0 <= ScaleEncodedClasses(encoded, total)[i] <= 1.0
    {
      var c, t := encoded[i] as real, total as real;
      assert c / t <= 1.0 by {
        assert c <= t;
      }
    }
  }

  /**
   * Scaling the frequency vector of a list by its own length gives at most
   * one in total, and exactly one when every item is a known class.
   */
  lemma ScaledFrequencies(unique: seq<string>, l: seq<string>)
    requires Distinct(unique) && |l| > 0
    ensures SumR(ScaleEncodedClasses(Frequencies(unique, l), |l|)) <= 1.0
    ensures (forall i :: 0 <= i < |l| ==> l[i] in unique) ==>
      SumR(ScaleEncodedClasses(Frequencies(unique, l), |l|)) == 1.0
  {
    var f := Frequencies(unique, l);
    FrequenciesBound(unique, l);
    ScaledSum(f, |l|);
    UnitRatio(Sum(f), |l|);
  }

  lemma UnitRatio(a: int, b: int)
    requires 0 < b && a <= b
    ensures a as real / b as real <= 1.0
    ensures a == b ==> a as real / b as real == 1.0
  {
  }
}
