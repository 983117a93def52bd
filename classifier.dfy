/**
 * The class-name classifier of the negative dataset: a raw Android class name
 * is lowercased, its last two `.`-separated segments are looked up, segment by
 * segment, in an ordered keyword table, and names that match nothing are
 * classified 'Other' and written to a log.
 */
module Classifier {
  import opened Wrappers

  // ---------------------------------------------------------------------
  // The keyword table (component_keywords), in its insertion order
  // ---------------------------------------------------------------------

  const Other: string := "Other"

  const Keywords: seq<(string, seq<string>)> := [
    ("Advertisement", ["adview", "htmlbannerwebview", "adcontainer"]),
    ("BottomNavigation", ["bottomtabgroupview", "bottombar"]),
    ("ButtonBar", ["buttonbar"]),
    ("Card", ["cardview"]),
    ("Checkbox", ["checkbox", "checkedtextview", "appcompatcheckedtextview", "appcompatcheckbox"]),
    ("Drawer", ["DrawerLayout"]),
    ("DatePicker", ["datepicker"]),
    ("Input", ["edittext", "searchboxview", "appcompatautocompletetextview", "autocompletetextview", "appcompatedittext"]),
    ("ListItem", ["listView", "recyclerview", "listpopupwindow", "tabitem", "gridview"]),
    ("MapView", ["mapview"]),
    ("MultiTab", ["slidingtab"]),
    ("NumberStepper", ["numberpicker"]),
    ("OnOffSwitch", ["switch"]),
    ("PageIndicator", ["viewpagerindicatordots", "pageindicator", "circleindicator", "pagerindicator"]),
    ("RadioButton", ["radiobutton", "appcompatradiobutton"]),
    ("Slider", ["seekbar"]),
    ("Toolbar", ["toolbar", "titlebar", "actionbar"]),
    ("Video", ["videoview"]),
    ("WebView", ["webview"]),
    ("TextButton", ["button", "textview", "appcompattextview"]),
    ("Image", ["imageview", "appcompatimageview", "imagebutton", "glyphview", "appcompatbutton",
               "appcompatimagebutton", "actionmenuitemview", "actionmenuitempresenter"])
  ]

  /** The table has 21 types, none of them named 'Other', the sixth (index 5) being 'Drawer' with the single keyword 'DrawerLayout'. */
  lemma TableShape()
    ensures |Keywords| == 21
    ensures forall k :: 0 <= k < |Keywords| ==> Keywords[k].0 != Other
    ensures forall k :: 0 <= k < |Keywords| && Keywords[k].0 == "Drawer" ==> k == 5
    ensures Keywords[5] == ("Drawer", ["DrawerLayout"])
    ensures Keywords[8].0 == "ListItem" && Keywords[8].1[0] == "listView"
  {}

  // ---------------------------------------------------------------------
  // extract_base_class
  // ---------------------------------------------------------------------

  predicate IsUpper(c: char) {
    'A' <= c <= 'Z'
  }

  predicate NoUpper(s: string) {
    forall i :: 0 <= i < |s| ==> !IsUpper(s[i])
  }

  /** `str.lower` on one character; only the ASCII letters A-Z are folded. */
  function Lower(c: char): (d: char)
    ensures !IsUpper(d)
    ensures d == '.' <==> c == '.'
  {
    if IsUpper(c) then (c as int + 32) as char else c
  }

  function LowerStr(s: string): (r: string)
    ensures |r| == |s|
  {
    if |s| == 0 then [] else [Lower(s[0])] + LowerStr(s[1..])
  }

  /**
   * Lowercasing lowercases each character in place: the dots stay where they
   * are and no upper-case letter is left.
   */
  lemma {:induction false} LowerStrMeaning(s: string)
    ensures var r := LowerStr(s);
      && (forall i :: 0 <= i < |s| ==> r[i] == Lower(s[i]))
      && ('.' in r <==> '.' in s)
      && NoUpper(r)
  {
    var r := LowerStr(s);
    if |s| > 0 {
      LowerStrMeaning(s[1..]);
      assert r == [Lower(s[0])] + LowerStr(s[1..]);
      assert forall i :: 0 < i < |s| ==> r[i] == LowerStr(s[1..])[i - 1] && s[i] == s[1..][i - 1];
    }
    assert '.' in r ==> '.' in s by {
      if '.' in r {
        var i :| 0 <= i < |r| && r[i] == '.';
        assert Lower(s[i]) == '.';
      }
    }
    assert '.' in s ==> '.' in r by {
      if '.' in s {
        var i :| 0 <= i < |s| && s[i] == '.';
        assert r[i] == '.';
      }
    }
  }

  /** The pieces joined back with `.`: the inverse of `SplitDots`. */
  function Join(parts: seq<string>): string
    requires |parts| >= 1
  {
    if |parts| == 1 then parts[0] else parts[0] + "." + Join(parts[1..])
  }

  /** `s.split('.')`: the pieces between the dots. */
  function SplitDots(s: string): (parts: seq<string>)
    ensures |parts| >= 1
  {
    if |s| == 0 then [""]
    else
      var rest := SplitDots(s[1..]);
      if s[0] == '.' then [""] + rest else [[s[0]] + rest[0]] + rest[1..]
  }

  /** The pieces join back into the string, and there is more than one exactly when it has a dot. */
  lemma {:induction false} SplitDotsJoin(s: string)
    ensures var parts := SplitDots(s);
      Join(parts) == s && (|parts| > 1 <==> '.' in s)
  {
    if |s| > 0 {
      var parts, rest := SplitDots(s), SplitDots(s[1..]);
      SplitDotsJoin(s[1..]);
      assert s == [s[0]] + s[1..];
      if s[0] == '.' {
        assert parts[1..] == rest;
      } else {
        assert parts == [[s[0]] + rest[0]] + rest[1..];
        if |rest| > 1 {
          assert parts[1..] == rest[1..];
        }
        assert '.' in s <==> '.' in s[1..];
      }
    }
  }

  /** No piece holds a dot, and pieces of a string without capitals have none. */
  lemma {:induction false} SplitDotsPieces(s: string)
    ensures var parts := SplitDots(s);
      && (forall p :: p in parts ==> '.' !in p)
      && (NoUpper(s) ==> forall i :: 0 <= i < |parts| ==> NoUpper(parts[i]))
  {
    if |s| > 0 {
      var parts, rest := SplitDots(s), SplitDots(s[1..]);
      SplitDotsPieces(s[1..]);
      if s[0] == '.' {
        assert parts == [""] + rest;
        assert forall i :: 0 < i < |parts| ==> parts[i] == rest[i - 1];
      } else {
        assert parts == [[s[0]] + rest[0]] + rest[1..];
        assert forall i :: 0 < i < |parts| ==> parts[i] == rest[i];
        assert NoUpper(s) ==> NoUpper(parts[0]) by {
          if NoUpper(s) {
            assert NoUpper(s[1..]);
            assert forall i :: 0 < i < |parts[0]| ==> parts[0][i] == rest[0][i - 1];
          }
        }
      }
    }
  }

  /** Joining splits at any inner position. */
  lemma {:induction false} JoinAt(parts: seq<string>, k: nat)
    requires 0 < k < |parts|
    ensures Join(parts) == Join(parts[..k]) + "." + Join(parts[k..])
  {
    if k > 1 {
      JoinAt(parts[1..], k - 1);
      assert parts[1..][..k - 1] == parts[..k][1..];
      assert parts[1..][k - 1..] == parts[k..];
    }
  }

  predicate IsSuffix(a: string, b: string) {
    |a| <= |b| && b[|b| - |a|..] == a
  }

  /** `extract_base_class`: the last two lowercased segments, or the one there is. */
  function ExtractBaseClass(name: string): (r: seq<string>)
    ensures 1 <= |r| <= 2
  {
    var parts := SplitDots(LowerStr(name));
    if |parts| > 1 then parts[|parts| - 2..] else parts
  }

  /**
   * The base class is the lowercased name itself when it has no dot;
   * otherwise its last two dot-separated segments, that is, two dot-free
   * strings that end the lowercased name joined by a dot, preceded by a dot or
   * by nothing. No segment holds an upper-case letter.
   */
  lemma ExtractBaseClassMeaning(name: string)
    ensures var r := ExtractBaseClass(name);
      && ('.' !in name ==> r == [LowerStr(name)])
      && ('.' in name ==> |r| == 2)
      && (forall p :: p in r ==> '.' !in p)
      && (forall i :: 0 <= i < |r| ==> NoUpper(r[i]))
      && (|r| == 2 ==>
            var low, tail := LowerStr(name), r[0] + "." + r[1];
            IsSuffix(tail, low) && (|tail| == |low| || low[|low| - |tail| - 1] == '.'))
  {
    var low := LowerStr(name);
    assert ('.' in low <==> '.' in name) && NoUpper(low) by {
      LowerStrMeaning(name);
    }
    SplitDotsJoin(low);
    SplitDotsPieces(low);
    LastSegments(low, SplitDots(low));
  }

  /** `ExtractBaseClassMeaning` for any dot-free pieces joining into `low`. */
  lemma LastSegments(low: string, parts: seq<string>)
    requires |parts| >= 1 && Join(parts) == low && (|parts| > 1 <==> '.' in low)
    requires forall p :: p in parts ==> '.' !in p
    requires NoUpper(low) ==> forall i :: 0 <= i < |parts| ==> NoUpper(parts[i])
    ensures var r := if |parts| > 1 then parts[|parts| - 2..] else parts;
      && ('.' !in low ==> r == [low])
      && ('.' in low ==> |r| == 2)
      && (forall p :: p in r ==> '.' !in p)
      && (NoUpper(low) ==> forall i :: 0 <= i < |r| ==> NoUpper(r[i]))
      && (|r| == 2 ==>
            var tail := r[0] + "." + r[1];
            IsSuffix(tail, low) && (|tail| == |low| || low[|low| - |tail| - 1] == '.'))
  {
    var n := |parts|;
    if n > 1 {
      var r := parts[n - 2..];
      assert r == [parts[n - 2], parts[n - 1]];
      LastTwoEndJoin(parts);
    }
  }

  /** The last two pieces, joined by a dot, end the joined string, after a dot or at its start. */
  lemma LastTwoEndJoin(parts: seq<string>)
    requires |parts| >= 2
    ensures var n, s := |parts|, Join(parts);
      var tail := parts[n - 2] + "." + parts[n - 1];
      IsSuffix(tail, s) && (|tail| == |s| || s[|s| - |tail| - 1] == '.')
  {
    var n := |parts|;
    var r := parts[n - 2..];
    var tail := parts[n - 2] + "." + parts[n - 1];
    assert Join(r) == tail by {
      assert r[1..] == [parts[n - 1]];
    }
    if n > 2 {
      JoinAt(parts, n - 2);
      var pre := Join(parts[..n - 2]) + ".";
      assert Join(parts) == pre + tail;
    } else {
      assert parts == r;
    }
  }

  // ---------------------------------------------------------------------
  // classify_component_class
  // ---------------------------------------------------------------------

  /**
   * A keyword table: type names with their keywords, in lookup order. The
   * functions below take it as a parameter; the program uses `Keywords`.
   */
  type Table = seq<(string, seq<string>)>

  predicate NoOtherKey(table: Table) {
    forall k :: 0 <= k < |table| ==> table[k].0 != Other
  }

  /** The first type in table order listing `part` among its keywords. */
  function FirstMatch(part: string, table: Table): (r: Option<string>)
    ensures r.None? <==> forall k :: 0 <= k < |table| ==> part !in table[k].1
    ensures r.Some? ==>
      exists k :: 0 <= k < |table| && r.value == table[k].0 && part in table[k].1 &&
        forall j :: 0 <= j < k ==> part !in table[j].1
  {
    if |table| == 0 then None
    else if part in table[0].1 then
      Some(table[0].0)
    else
      var r := FirstMatch(part, table[1..]);
      assert forall k :: 1 <= k < |table| ==> table[k] == table[1..][k - 1];
      if r.Some? then
        var k :| 0 <= k < |table[1..]| && r.value == table[1..][k].0 && part in table[1..][k].1 &&
          forall j :: 0 <= j < k ==> part !in table[1..][j].1;
        assert r.value == table[k + 1].0 && part in table[k + 1].1;
        assert forall j :: 0 <= j < k + 1 ==> part !in table[j].1 by {
          forall j | 0 <= j < k + 1 ensures part !in table[j].1 {
            if j > 0 {
              assert table[j] == table[1..][j - 1];
            }
          }
        }
        r
      else
        r
  }

  /**
   * The segment loop: the first match of each segment is taken in turn, and
   * the first such match that is not 'Other' is the result.
   */
  function ClassifyParts(parts: seq<string>, table: Table): string {
    if |parts| == 0 then Other
    else match FirstMatch(parts[0], table)
      case Some(t) => if t != Other then t else ClassifyParts(parts[1..], table)
      case None => ClassifyParts(parts[1..], table)
  }

  /** What `classify_component_class` returns for `name` under `table`. */
  function Classify(name: string, table: Table): string {
    ClassifyParts(ExtractBaseClass(name), table)
  }

  /** A row `[app, UI, class]` of the Other-class log; the UI may be absent. */
  type OtherRow = (string, Option<string>, string)

  /**
   * `classify_component_class(app_name, ui_name, class_name, writer)`: the
   * nested loops over the segments and the table, each left at the first
   * match, and one Other-log row when nothing matched.
   */
  method ClassifyComponentClass(app: string, ui: Option<string>, name: string, table: Table, log0: seq<OtherRow>)
    returns (matched: string, log: seq<OtherRow>)
    ensures matched == Classify(name, table)
    ensures log == log0 + (if matched == Other then [(app, ui, name)] else [])
  {
    var parts := ExtractBaseClass(name);
    matched := Other;
    var i := 0;
    while i < |parts|
      invariant 0 <= i <= |parts|
      invariant matched == Other
      invariant ClassifyParts(parts[i..], table) == ClassifyParts(parts, table)
    {
      var part := parts[i];
      ghost var hit: Option<string> := None;
      var j := 0;
      while j < |table|
        invariant 0 <= j <= |table|
        invariant FirstMatch(part, table[j..]) == FirstMatch(part, table)
        invariant matched == Other && hit.None?
      {
        assert table[j..][1..] == table[j + 1..];
        if part in table[j].1 {
          matched := table[j].0;
          hit := Some(matched);
          break;
        }
        j := j + 1;
      }
      assert hit == FirstMatch(part, table) by {
        if hit.None? {
          assert table[|table|..] == [];
        }
      }
      assert matched == hit.GetOr(Other);
      assert parts[i..][1..] == parts[i + 1..];
      if matched != Other {
        assert matched == ClassifyParts(parts, table);
        break;
      }
      i := i + 1;
    }
    assert matched == Other ==> parts[i..] == [];
    if matched == Other {
      log := log0 + [(app, ui, name)];
    } else {
      log := log0;
    }
  }

  /** For a table without an 'Other' type, the result is 'Other' exactly when no segment is a keyword. */
  lemma {:induction false} ClassifyPartsOther(parts: seq<string>, table: Table)
    requires NoOtherKey(table)
    ensures ClassifyParts(parts, table) == Other <==>
      forall i, k :: 0 <= i < |parts| && 0 <= k < |table| ==> parts[i] !in table[k].1
  {
    if |parts| > 0 {
      var rest := parts[1..];
      ClassifyPartsOther(rest, table);
      match FirstMatch(parts[0], table)
      case Some(t) =>
        var k :| 0 <= k < |table| && t == table[k].0 && parts[0] in table[k].1;
        assert ClassifyParts(parts, table) == t;
      case None =>
        assert ClassifyParts(parts, table) == ClassifyParts(rest, table);
        assert forall i :: 0 < i < |parts| ==> parts[i] == rest[i - 1];
    }
  }

  /** No type of the table lists `part` among its keywords. */
  predicate NotKeyword(part: string, table: Table) {
    forall k :: 0 <= k < |table| ==> part !in table[k].1
  }

  /**
   * Segment `i` is listed under type `k`, whose name is `t`, no earlier type
   * lists it, and no earlier segment is a keyword at all.
   */
  predicate HitAt(parts: seq<string>, table: Table, i: int, k: int, t: string) {
    && 0 <= i < |parts| && 0 <= k < |table|
    && t == table[k].0 && parts[i] in table[k].1
    && (forall j :: 0 <= j < k ==> parts[i] !in table[j].1)
    && (forall h :: 0 <= h < i ==> NotKeyword(parts[h], table))
  }

  /** A hit in the segments after a non-keyword is a hit one place later. */
  lemma HitShift(parts: seq<string>, table: Table, i: int, k: int, t: string)
    requires |parts| > 0 && NotKeyword(parts[0], table) && HitAt(parts[1..], table, i, k, t)
    ensures HitAt(parts, table, i + 1, k, t)
  {
    assert parts[i + 1] == parts[1..][i];
    forall h | 0 <= h < i + 1 ensures NotKeyword(parts[h], table) {
      if h > 0 {
        assert parts[h] == parts[1..][h - 1];
      }
    }
  }

  /**
   * For a table without an 'Other' type, a result other than 'Other' is a type
   * T of the table listing some segment, where no earlier type of the table
   * lists that segment, and no earlier segment is a keyword at all.
   */
  lemma {:induction false} ClassifyPartsHit(parts: seq<string>, table: Table)
    requires NoOtherKey(table)
    ensures ClassifyParts(parts, table) != Other ==>
      exists i, k :: HitAt(parts, table, i, k, ClassifyParts(parts, table))
  {
    if |parts| > 0 {
      var t := ClassifyParts(parts, table);
      match FirstMatch(parts[0], table)
      case Some(m) =>
        var k :| 0 <= k < |table| && m == table[k].0 && parts[0] in table[k].1 &&
          forall j :: 0 <= j < k ==> parts[0] !in table[j].1;
        assert HitAt(parts, table, 0, k, t);
      case None =>
        ClassifyPartsHit(parts[1..], table);
        assert t == ClassifyParts(parts[1..], table);
        if t != Other {
          var i, k :| HitAt(parts[1..], table, i, k, t);
          HitShift(parts, table, i, k, t);
        }
    }
  }

  /**
   * Under the program's table, a class name classifies as one of its types or
   * as 'Other', and as 'Other' exactly when none of its base segments is a keyword.
   */
  lemma ClassifyMeaning(name: string)
    ensures Classify(name, Keywords) == Other ||
      exists k :: 0 <= k < |Keywords| && Classify(name, Keywords) == Keywords[k].0
    ensures var parts := ExtractBaseClass(name);
      Classify(name, Keywords) == Other <==>
        forall i, k :: 0 <= i < |parts| && 0 <= k < |Keywords| ==> parts[i] !in Keywords[k].1
  {
    TableShape();
    ClassifyPartsOther(ExtractBaseClass(name), Keywords);
    ClassifyPartsHit(ExtractBaseClass(name), Keywords);
  }

  /** A string without upper-case letters differs from one with an upper-case letter. */
  lemma {:induction false} UpperDiffers(p: string, kw: string, i: nat)
    requires NoUpper(p) && i < |kw| && IsUpper(kw[i])
    ensures p != kw
  {

  }

  /**
   * Keywords with capitals can never match: segments are lowercased, so
   * 'DrawerLayout' and 'listView' never equal a segment, and 'Drawer' is never returned.
   */
  lemma CapitalisedKeywordsNeverMatch(name: string)
    ensures forall p :: p in ExtractBaseClass(name) ==> p != "DrawerLayout" && p != "listView"
    ensures Classify(name, Keywords) != "Drawer"
  {
    var parts := ExtractBaseClass(name);
    ExtractBaseClassMeaning(name);
    forall i | 0 <= i < |parts| ensures parts[i] != "DrawerLayout" && parts[i] != "listView" {
      UpperDiffers(parts[i], "DrawerLayout", 0);
      UpperDiffers(parts[i], "listView", 4);
    }
    TableShape();
    ClassifyPartsHit(parts, Keywords);
  }

  // ---------------------------------------------------------------------
  // process_classes
  // ---------------------------------------------------------------------

  /** The Other-log rows for `names` whose classifications are `classes`, in order. */
  function OtherRows(app: string, ui: Option<string>, names: seq<string>, classes: seq<string>): seq<OtherRow>
    requires |classes| == |names|
  {
    if |names| == 0 then []
    else
      var n := |names| - 1;
      OtherRows(app, ui, names[..n], classes[..n]) + (if classes[n] == Other then [(app, ui, names[n])] else [])
  }

  lemma OtherRowsSnoc(app: string, ui: Option<string>, names: seq<string>, classes: seq<string>, x: string, c: string)
    requires |classes| == |names|
    ensures OtherRows(app, ui, names + [x], classes + [c])
      == OtherRows(app, ui, names, classes) + (if c == Other then [(app, ui, x)] else [])
  {
    assert (names + [x])[..|names|] == names && (classes + [c])[..|names|] == classes;
  }

  /** The logged rows are exactly the names classified 'Other', each with the app and UI. */
  lemma {:induction false} OtherRowsExact(app: string, ui: Option<string>, names: seq<string>, classes: seq<string>)
    requires |classes| == |names|
    ensures forall r :: r in OtherRows(app, ui, names, classes) ==>
      r.0 == app && r.1 == ui && exists i :: 0 <= i < |names| && r.2 == names[i] && classes[i] == Other
    ensures forall i :: 0 <= i < |names| && classes[i] == Other ==>
      (app, ui, names[i]) in OtherRows(app, ui, names, classes)
    ensures |OtherRows(app, ui, names, classes)| <= |names|
  {
    if |names| > 0 {
      var n := |names| - 1;
      OtherRowsExact(app, ui, names[..n], classes[..n]);
      assert forall i :: 0 <= i < n ==> names[..n][i] == names[i] && classes[..n][i] == classes[i];
    }
  }

  /** `f` applied to each element, in order. */
  function Map<A, B>(f: A -> B, xs: seq<A>): (r: seq<B>)
    ensures |r| == |xs|
  {
    if |xs| == 0 then [] else Map(f, xs[..|xs| - 1]) + [f(xs[|xs| - 1])]
  }

  lemma {:induction false} MapAt<A, B>(f: A -> B, xs: seq<A>, i: nat)
    requires i < |xs|
    ensures Map(f, xs)[i] == f(xs[i])
  {
    var n := |xs| - 1;
    if i < n {
      MapAt(f, xs[..n], i);
      assert xs[..n][i] == xs[i];
    }
  }

  lemma MapSnoc<A, B>(f: A -> B, xs: seq<A>, i: nat)
    requires i < |xs|
    ensures Map(f, xs[..i + 1]) == Map(f, xs[..i]) + [f(xs[i])]
  {
    assert xs[..i + 1][..i] == xs[..i];
  }

  /** The classification of each name, in order. */
  function ClassifyAll(names: seq<string>, table: Table): (r: seq<string>)
    ensures |r| == |names|
  {
    Map(name => Classify(name, table), names)
  }

  /** Entry `i` of the classified list is the classification of name `i`. */
  lemma ClassifyAllAt(names: seq<string>, table: Table, i: nat)
    requires i < |names|
    ensures ClassifyAll(names, table)[i] == Classify(names[i], table)
  {
    MapAt(name => Classify(name, table), names, i);
  }

  /** One turn of the `process_classes` loop keeps its two invariants. */
  lemma ProcessStep(f: string -> string, app: string, ui: Option<string>, names: seq<string>, i: nat,
                    classified: seq<string>, c: string, log0: seq<OtherRow>, log: seq<OtherRow>, log': seq<OtherRow>)
    requires i < |names| && classified == Map(f, names[..i]) && c == f(names[i])
    requires log == log0 + OtherRows(app, ui, names[..i], classified)
    requires log' == log + (if c == Other then [(app, ui, names[i])] else [])
    ensures classified + [c] == Map(f, names[..i + 1])
    ensures log' == log0 + OtherRows(app, ui, names[..i + 1], classified + [c])
  {
    MapSnoc(f, names, i);
    OtherRowsSnoc(app, ui, names[..i], classified, names[i], c);
    assert names[..i + 1] == names[..i] + [names[i]];
  }

  /**
   * `process_classes`: the classification of every name, in order, with the
   * Other-log rows of the 'Other' ones appended in the same order.
   */
  method ProcessClasses(app: string, ui: Option<string>, names: seq<string>, table: Table, log0: seq<OtherRow>)
    returns (classified: seq<string>, log: seq<OtherRow>)
    ensures classified == ClassifyAll(names, table)
    ensures log == log0 + OtherRows(app, ui, names, classified)
  {
    classified, log := [], log0;
    ghost var f := name => Classify(name, table);
    var i := 0;
    while i < |names|
      invariant 0 <= i <= |names|
      invariant classified == Map(f, names[..i])
      invariant log == log0 + OtherRows(app, ui, names[..i], classified)
    {
      var c, log' := ClassifyComponentClass(app, ui, names[i], table, log);
      ProcessStep(f, app, ui, names, i, classified, c, log0, log, log');
      classified, log := classified + [c], log';
      i := i + 1;
    }
    assert names[..i] == names;
  }
}
