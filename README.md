# Gesture-to-component matching, class classification and feature encoding

This project is a Dafny model of the core of a dataset builder for mobile UI
interactions. It covers three parts of the program.

* **The positive-dataset matcher** (`positive_dataset_code/boundMatching_positive.py`):
  * Each gesture of a trace is inspected. One with zero coordinates, or with more
    than one, is skipped. The rest are scaled from normalised coordinates to a
    1440 x 2560 screen.
  * The UI's view-hierarchy tree is searched, depth-first and pruned by
    containment, for the childless components that contain the tap point. One
    candidate is chosen by `(Hierarchy_Depth, Nesting_Level)`.
  * The chosen component is described by its ancestors, siblings, descendants,
    tree metrics and directional spacing to its neighbours.
  * Every skip goes to a log, and the per-trace and per-app totals are folded.
* **The negative-dataset converter** (`negative_dataset_code/convertDataset_negative.py`):
  * Raw Android class names are classified through an ordered keyword table on
    their last two lowercased segments. Names that match nothing become
    'Other' and are logged.
  * Each gesture record becomes one output row, unless a row with the same
    deduplication key was emitted before. The seen-set lasts as long as the
    program.
* **Three feature encoders** (`model/feature.py`): the one-hot class encoding, the
  per-class frequency vector, and its scaling by the descendant count.

Modules:

| file | module | models |
|---|---|---|
| `wrappers.dfy` | `Wrappers`, `Faults` | `Option`, `Result`, and the Python exceptions that can occur (`ValueError`, `AttributeError`, `IndexError`, `ZeroDivisionError`) |
| `geometry.dfy` | `Geometry` | `is_within_bounds`, `is_within_rel_bounds`, `calculate_bounds_area`, `int()` truncation |
| `ui_tree.dfy` | `UiTree` | the hierarchy node; `calculate_hierarchy_depth`, `count_components_in_ui`, `get_all_descendant_components_info`, `get_direct_child_components_info` |
| `spacing.dfy` | `Spacing` | `calculate_spacing` |
| `resolver.dfy` | `Resolver` | `recursive_search` and the sort that picks one candidate |
| `matching.dfy` | `Matching` | `convert_coordinates`, the record assembly and loop of `find_matching_components`, the `process_trace_data` and `process_single_app_traces` folds |
| `classifier.dfy` | `Classifier` | `component_keywords`, `extract_base_class`, `classify_component_class`, `process_classes` |
| `conversion.dfy` | `Conversion` | `recorded_ui_classes` and `process_data_from_json` |
| `features.dfy` | `Features` | `encode_class`, `encode_descendant_classes`, `scale_encoded_classes` |

Notes on how the model reads the code:

* **Imperative code is modelled as methods.** The loops of `convert_coordinates`,
  `calculate_spacing`, `traverse_descendants`, `find_matching_components`,
  `classify_component_class`, `process_classes`, `process_data_from_json` and
  `encode_descendant_classes` are Dafny methods with loops. Each is proved equal
  to a functional specification, and the properties are proved about that
  specification. `encode_class` has no loop: it is a straight-line method whose
  result is stated slot by slot.
* **The global seen-set is a class field.** `recorded_ui_classes` is the
  `recorded` field of `Conversion.Converter`, and `process_data_from_json` is a
  method that updates it.
* **CSV writers are appended sequences.** Each method takes the log so far and
  returns it extended.
* **Exceptions are explicit results.**
  * `is_within_bounds` raises `ValueError` on bounds that are not of length
    four, and `recursive_search` reaches that test before the relative-bounds
    fallback.
  * `sib.get` on a `None` child raises `AttributeError`.
  * Indexing short bounds raises `IndexError`, and a zero-size parent raises
    `ZeroDivisionError`.
  * These are `Result` errors. Only `AttributeError` is caught by the matching
    loop. Any other error ends the run, so it is kept as the loop's `fault`.
* **The tie-break follows the code.** `sorted(..., reverse=True)[0]` is a stable
  sort, so among candidates with equal `(Hierarchy_Depth, Nesting_Level)` the
  *earliest* in pre-order is chosen (`Resolver.BestIndex`).

## Model

| member | source | states |
|---|---|---|
| Geometry.Trunc | positive_dataset_code/boundMatching_positive.py:48 | `int()` on a float truncates toward zero: the result is within one of the argument, at or below it for non-negative values and at or above it for negative ones |
| Geometry.IsWithinBounds | positive_dataset_code/boundMatching_positive.py:47-49 | the unpacking fails with ValueError exactly when there are not four bounds; otherwise true iff the point lies within the four truncated edges, all inclusive |
| Geometry.IsWithinRelBounds | positive_dataset_code/boundMatching_positive.py:51-61 | false without parent bounds or without four fractions; ValueError exactly when the parent bounds are present but not four; otherwise the absolute test on the parent-scaled rectangle |
| Geometry.IntegerBoundsInclusive | positive_dataset_code/boundMatching_positive.py:47-49 | on integer bounds the test is the plain inclusive test on all four edges |
| Geometry.RelBoundsInsideParent | positive_dataset_code/boundMatching_positive.py:51-61 | with fractions in [0, 1] and an ordered parent, a point the relative test accepts is inside the parent's own bounds |
| Geometry.EdgeInside | positive_dataset_code/boundMatching_positive.py:56-59 | an edge placed at a fraction in [0, 1] of a parent extent truncates to a value inside that extent |
| Geometry.BoundsArea | positive_dataset_code/boundMatching_positive.py:63-67 | finite exactly for four bounds (infinity otherwise), non-negative for ordered bounds, zero for a degenerate rectangle |
| UiTree.ChildClasses | positive_dataset_code/boundMatching_positive.py:189 | the classes of a child list, in order and one per child, with 'Unknown' for a missing class; AttributeError exactly when some child is `None` |
| UiTree.HierarchyDepth | positive_dataset_code/boundMatching_positive.py:69-78 | the depth is at least 1 |
| UiTree.MaxChildDepthIsMax | positive_dataset_code/boundMatching_positive.py:75-78 | the maximum over the non-`None` children bounds every child's depth and is attained by one; it is 0 exactly when every child is `None` |
| UiTree.HierarchyDepthIsOnePlusMax | positive_dataset_code/boundMatching_positive.py:69-78 | a node is deeper than each non-`None` child, exactly one deeper than some child when it has one, and of depth 1 when all its children are `None` |
| UiTree.CountComponents | positive_dataset_code/boundMatching_positive.py:81-89 | the count is at least 1 (a `None` child counts as one component) |
| UiTree.DepthAtMostCount | positive_dataset_code/boundMatching_positive.py:69-89 | a tree's depth never exceeds its component count |
| UiTree.CountIsNodePlusDescendants | positive_dataset_code/boundMatching_positive.py:81-89 | the component count equals the node itself, plus its non-`None` descendants as the descendant enumeration lists them, plus the `None` entries that the count includes and the enumeration skips |
| UiTree.GetAllDescendantComponentsInfo | positive_dataset_code/boundMatching_positive.py:193-211 | the count equals the length of the class list; the classes are all non-`None` descendants in pre-order; `(0, [])` for `None` |
| UiTree.TraverseDescendants | positive_dataset_code/boundMatching_positive.py:201-208 | the recursive traversal appends exactly the pre-order descendant classes to the accumulator and bumps the count by as many |
| UiTree.GetDirectChildComponentsInfo | positive_dataset_code/boundMatching_positive.py:183-191 | `(0, [])` for `None`; otherwise the number of children and their classes in order, or AttributeError exactly when a child is `None` |
| Spacing.MinWith | positive_dataset_code/boundMatching_positive.py:117 | `min` against a finite gap is finite, at most both arguments, and one of them |
| Spacing.VisitSibling | positive_dataset_code/boundMatching_positive.py:112-129 | one sibling with bounds shrinks each side to its scaled gap, taken only when the sibling lies wholly on that side and overlaps on the other axis: the reference step `Step` |
| Spacing.CalculateSpacing | positive_dataset_code/boundMatching_positive.py:92-136 | the sibling loop computes exactly the reference `SpacingOf`, including the IndexError and ZeroDivisionError cases |
| Spacing.NoParentIsInfinite | positive_dataset_code/boundMatching_positive.py:94-104 | without a parent all four spacings are infinite |
| Spacing.NoSiblingsSpanParent | positive_dataset_code/boundMatching_positive.py:97-104 | with parent bounds and no siblings, top + height/parentHeight + bottom = 1, and left + width/parentWidth + right = 1 |
| Spacing.StepLowers | positive_dataset_code/boundMatching_positive.py:107-129 | one sibling never raises any spacing, and a sibling without bounds changes nothing |
| Spacing.StepNeedsOverlap | positive_dataset_code/boundMatching_positive.py:112-129 | a sibling changes top or bottom only if it overlaps strictly in the horizontal axis, and left or right only if it overlaps strictly in the vertical axis |
| Spacing.AddingSiblingLowers | positive_dataset_code/boundMatching_positive.py:107-129 | appending a sibling can only lower each spacing |
| Spacing.RefineIsNearest | positive_dataset_code/boundMatching_positive.py:107-129 | each spacing is at most its baseline and at most the gap to every sibling that qualifies on that side, and it equals the baseline or one of those gaps |
| Spacing.BoundlessSiblingsIgnored | positive_dataset_code/boundMatching_positive.py:108-110 | the result is unchanged when the siblings without bounds are removed |
| Resolver.Contains | positive_dataset_code/boundMatching_positive.py:147 | a node without four bounds raises ValueError; a node with four bounds under a parent with none or four raises nothing; when it raises nothing, it accepts exactly when the point is inside the node's own bounds or inside its relative bounds within the parent |
| Resolver.LeafCandidate | positive_dataset_code/boundMatching_positive.py:155-179 | no siblings for the root; otherwise AttributeError exactly when the parent has a `None` child, else the parent's child count and classes; the leaf, parent, nesting level, ancestors, their count and the parent's depth are recorded |
| Resolver.SearchSound | positive_dataset_code/boundMatching_positive.py:138-181 | every candidate is a childless node that passed the test, under a parent it was reached from, with ancestors that extend the ones passed in and end with its own class |
| Resolver.CandidatesSound | positive_dataset_code/boundMatching_positive.py:138-181 | from the root, every candidate is a childless node with four bounds that contains the point; its ancestors start with the root's class, end with its own and number `Nesting_Level + 1`; `siblings` is the parent's child count; a candidate without a parent is the root with no siblings |
| Resolver.MissingBoundsRaises | positive_dataset_code/boundMatching_positive.py:144-147 | a visited node without four bounds aborts the search with ValueError |
| Resolver.NoneSiblingRaises | positive_dataset_code/boundMatching_positive.py:157-158 | a leaf that contains the point but has a `None` sibling raises AttributeError |
| Resolver.SearchIsFilteredLeafPaths | positive_dataset_code/boundMatching_positive.py:138-181 | on any tree where the search succeeds, including trees with `None` children, it returns exactly the root-to-leaf paths whose every node passes the test, in pre-order; a failing node or a `None` child contributes nothing |
| Resolver.SearchTotal | positive_dataset_code/boundMatching_positive.py:138-181 | on a tree whose every node has four bounds and no `None` child, a test that raises nothing there lets the search succeed |
| Resolver.CandidatesAreContainedLeafPaths | positive_dataset_code/boundMatching_positive.py:250 | whenever the search from the root succeeds, it yields exactly the root-to-leaf paths whose every node contains the point, in pre-order |
| Resolver.CandidatesTotal | positive_dataset_code/boundMatching_positive.py:250 | on a hierarchy whose every node has four bounds and no `None` child, the search from the root raises nothing |
| Resolver.BestIndex | positive_dataset_code/boundMatching_positive.py:256 | the chosen candidate has a `(Hierarchy_Depth, Nesting_Level)` that no candidate exceeds, and every earlier candidate is strictly below it (the first of the ties) |
| Matching.ConvertCoordinates | positive_dataset_code/boundMatching_positive.py:29-45 | the loop builds the converted gestures and the log rows of the reference functions, and skipped plus converted equals the input count |
| Matching.ConvertedComplete | positive_dataset_code/boundMatching_positive.py:33-43 | every gesture with exactly one coordinate is converted to `(cx * 1440, cy * 2560)` |
| Matching.ConvertedSound | positive_dataset_code/boundMatching_positive.py:33-43 | every converted gesture comes from an input gesture with exactly one coordinate |
| Matching.LogComplete | positive_dataset_code/boundMatching_positive.py:34-41 | every gesture with zero, or more than one, coordinate is logged with the reason for its count |
| Matching.LogSound | positive_dataset_code/boundMatching_positive.py:34-41 | every log row belongs to a gesture without exactly one coordinate |
| Matching.ConvertedDistinct | positive_dataset_code/boundMatching_positive.py:30-43 | distinct gesture ids stay distinct after conversion |
| Matching.OtherSiblings | positive_dataset_code/boundMatching_positive.py:266 | the siblings keep every child that is not equal, by value, to the leaf, and only such children |
| Matching.Record | positive_dataset_code/boundMatching_positive.py:256-288 | the record's descendant count is the length of its class list; its depth and component count are those of the whole tree; its descendant classes are those of the parent; an error is never AttributeError |
| Matching.TryPointFacts | positive_dataset_code/boundMatching_positive.py:247-294 | a hit's record comes from the candidate the sort selects: a childless node containing the point, with the point, bounds, class, clickable, ancestors and siblings taken from it; a crash is never AttributeError |
| Matching.MatchPointsLog | positive_dataset_code/boundMatching_positive.py:247-294 | the points loop keeps the log prefix and appends only TraversalError rows for this id, so it logs no skip; it never ends with both a record and a fault, and its fault is never AttributeError |
| Matching.MatchPointsRecord | positive_dataset_code/boundMatching_positive.py:247-294 | a record the points loop returns was chosen at one of its points and has the record's stated shape |
| Matching.CrashedStays | positive_dataset_code/boundMatching_positive.py:249-253 | once an uncaught exception has ended the run, no further gesture changes the state |
| Matching.MatchGesture | positive_dataset_code/boundMatching_positive.py:247-294 | the points loop, with its `break` and caught AttributeError, computes the reference `MatchPoints` |
| Matching.FindMatchingComponents | positive_dataset_code/boundMatching_positive.py:215-299 | the loop over gesture ids computes the reference fold from the initial state: the records, both counters, the log and the fault |
| Matching.AfterPointsConsistent | positive_dataset_code/boundMatching_positive.py:290-297 | taking in the points loop's outcome (a fault, a new record for an unrecorded id, or a "Did not match" row) keeps the loop invariant |
| Matching.UiStepConsistent | positive_dataset_code/boundMatching_positive.py:221-297 | one iteration keeps the loop invariant: one record per matched id, no id twice, each record built from its own UI's loaded tree, skipped hierarchies counted by their log rows, the log only growing |
| Matching.MatchFromConsistent | positive_dataset_code/boundMatching_positive.py:221-297 | the whole loop keeps that invariant |
| Matching.MatchingLoopFacts | positive_dataset_code/boundMatching_positive.py:215-299 | after the loop, `matched_components_count` is the number of records, no UI has two records, `skipped_hierarchies_count` is the number of missing or empty hierarchy log rows added, and every record satisfies the record facts |
| Matching.MissingHierarchySkipped | positive_dataset_code/boundMatching_positive.py:225-231 | a missing or unreadable hierarchy file is logged and counted, and yields no record |
| Matching.EmptyHierarchySkipped | positive_dataset_code/boundMatching_positive.py:233-237 | a hierarchy without a root is logged and counted, and yields no record |
| Matching.UnmatchedLogged | positive_dataset_code/boundMatching_positive.py:296-297 | a gesture id that gets no record and no fault ends its log rows with "Did not match" |
| Matching.RecordedPassedOver | positive_dataset_code/boundMatching_positive.py:222-223 | an id that already has a record is passed over |
| Matching.ProcessTrace | positive_dataset_code/boundMatching_positive.py:306-317 | a completed trace reports its skipped hierarchies as its skipped UIs, at most one view-hierarchy folder, and one UI per loaded file |
| Matching.AppTracesFacts | positive_dataset_code/boundMatching_positive.py:319-346 | one entry per trace, in order and under its trace's name; the "None file" marker exactly for traces without records, their records otherwise; when every trace reports its skipped hierarchies as its skipped UIs, the two app totals agree |
| Classifier.TableShape | negative_dataset_code/convertDataset_negative.py:11-33 | the table has 21 types in insertion order, none named 'Other'; 'Drawer' is the sixth, with the single keyword 'DrawerLayout'; 'ListItem' lists 'listView' first |
| Classifier.Lower | negative_dataset_code/convertDataset_negative.py:37 | a lowercased character is not upper-case, and it is a dot exactly when the original is |
| Classifier.LowerStr | negative_dataset_code/convertDataset_negative.py:37 | lowercasing keeps the length |
| Classifier.LowerStrMeaning | negative_dataset_code/convertDataset_negative.py:37 | lowercasing lowercases each character in place, keeps the dots where they are, and leaves no upper-case letter |
| Classifier.SplitDots | negative_dataset_code/convertDataset_negative.py:37 | `split('.')` gives at least one part |
| Classifier.SplitDotsJoin | negative_dataset_code/convertDataset_negative.py:37 | the parts joined by dots are the string, and there is more than one part exactly when the string has a dot |
| Classifier.SplitDotsPieces | negative_dataset_code/convertDataset_negative.py:37 | no part holds a dot, and parts of a string without capitals have none |
| Classifier.ExtractBaseClass | negative_dataset_code/convertDataset_negative.py:36-38 | the result has one or two segments |
| Classifier.ExtractBaseClassMeaning | negative_dataset_code/convertDataset_negative.py:36-38 | without a dot, the lowercased name itself; with one, two dot-free lowercase segments that, joined by a dot, end the lowercased name after a dot or at its start |
| Classifier.FirstMatch | negative_dataset_code/convertDataset_negative.py:47-50 | no match exactly when no type lists the segment; otherwise the first type in table order that lists it |
| Classifier.ClassifyComponentClass | negative_dataset_code/convertDataset_negative.py:41-58 | the nested loops with their breaks compute the reference classification, and append one `[app, UI, class]` log row exactly when the result is 'Other' |
| Classifier.ClassifyPartsOther | negative_dataset_code/convertDataset_negative.py:46-52 | for a table without an 'Other' type, the result is 'Other' exactly when no segment is a keyword |
| Classifier.ClassifyPartsHit | negative_dataset_code/convertDataset_negative.py:46-52 | any other result is a type listing some segment, where no earlier type lists that segment and no earlier segment is a keyword at all |
| Classifier.ClassifyMeaning | negative_dataset_code/convertDataset_negative.py:41-58 | under the program's table the result is one of its types or 'Other', and 'Other' exactly when no base segment is a keyword |
| Classifier.CapitalisedKeywordsNeverMatch | negative_dataset_code/convertDataset_negative.py:17-37 | no lowercased segment equals 'DrawerLayout' or 'listView', so 'Drawer' is never returned |
| Classifier.OtherRowsExact | negative_dataset_code/convertDataset_negative.py:55-66 | the logged rows are exactly the names classified 'Other', each with the app and UI, and there are no more rows than names |
| Classifier.ClassifyAllAt | negative_dataset_code/convertDataset_negative.py:61-66 | the classified list has the input's length, and entry i is the classification of name i |
| Classifier.ProcessClasses | negative_dataset_code/convertDataset_negative.py:61-66 | the loop returns the element-wise classification, and the log gets each 'Other' name in order |
| Conversion.RowOf | negative_dataset_code/convertDataset_negative.py:111-148 | `ancestors_cnt` and `siblings_cnt` are the lengths of the classified lists; the descendant classes are classified one for one; a missing `Hierarchy_Depth` or `Nesting_Level` reads as 0 |
| Conversion.ConvertGesture | negative_dataset_code/convertDataset_negative.py:89-118 | one record's classification calls produce the reference row and key, and append the reference Other-log rows in call order (descendants, class, ancestors, siblings) |
| Conversion.ItemsFromListTraces | negative_dataset_code/convertDataset_negative.py:82-88 | every record that reaches the rows comes from a trace whose value is a list, under its own app's name; non-list values such as "None file" contribute nothing |
| Conversion.AppItemsFromListTraces | negative_dataset_code/convertDataset_negative.py:86-88 | within one app, every record comes from a list-valued trace |
| Conversion.DedupFacts | negative_dataset_code/convertDataset_negative.py:118-125 | the seen-set grows by exactly the keys met; the kept rows come from the input, no two share a key, none has a key seen before, and every new key has a kept row |
| Conversion.FirstOccurrenceKept | negative_dataset_code/convertDataset_negative.py:118-125 | the first record with a key not seen before is kept |
| Conversion.DuplicateDropped | negative_dataset_code/convertDataset_negative.py:121-122 | a record whose key was seen before, or that an earlier record shares, is dropped |
| Conversion.DedupAppend | negative_dataset_code/convertDataset_negative.py:69-125 | two batches processed in turn, with the seen-set carried over, keep what one batch of both would |
| Conversion.DedupAgainKeepsNothing | negative_dataset_code/convertDataset_negative.py:69-125 | because the seen-set persists, processing the same data a second time emits no row |
| Conversion.TrackedStep | negative_dataset_code/convertDataset_negative.py:118-148 | one more record adds its row and its key exactly when its key is unseen, and appends its Other log rows |
| Conversion.Converter.constructor | negative_dataset_code/convertDataset_negative.py:69 | the seen-set starts empty, and the converter classifies with the program's keyword table |
| Conversion.Converter.ConvertRecord | negative_dataset_code/convertDataset_negative.py:89-148 | one record keeps the invariant that the rows, seen-set and log are those of the reference deduplication of the records so far |
| Conversion.Converter.ConvertRecords | negative_dataset_code/convertDataset_negative.py:88-148 | the same for all the records of one trace |
| Conversion.Converter.ConvertTraces | negative_dataset_code/convertDataset_negative.py:86-87 | the same for every trace of one app; a non-list trace is passed over |
| Conversion.Converter.ProcessDataFromJson | negative_dataset_code/convertDataset_negative.py:72-148 | the rows are the reference deduplication of every record against the seen-set held before the call, and the new seen-set is its result; the Other log is its header plus every record's rows |
| Features.EncodeClass | model/feature.py:63-72 | three 0/1 slots, with a 1 exactly in the slot of 'Image', 'TextButton' or 'Other'; all zeros for any other class; summing to one for the three classes |
| Features.EncodeDescendantClasses | model/feature.py:40-46 | one entry per distinct class, in the given order, each the number of occurrences of that class in the list; all zeros for a `None` or empty list |
| Features.FrequenciesSum | model/feature.py:44-45 | over distinct classes, the frequencies sum to the number of list items that are classes |
| Features.KnownAll | model/feature.py:44-45 | every item is counted exactly when every item is one of the classes |
| Features.FrequenciesBound | model/feature.py:40-46 | the entries sum to at most the list length, and to exactly the list length when every item is a known class |
| Features.ScaleEncodedClasses | model/feature.py:52-53 | the length is kept; all zeros when the total is not positive |
| Features.ScaledSum | model/feature.py:52-53 | with a positive total, the scaled entries sum to the counts' sum divided by the total |
| Features.ScaledInUnit | model/feature.py:52-53 | counts between zero and the total scale into [0, 1] |
| Features.ScaledFrequencies | model/feature.py:40-57 | a frequency vector scaled by its list's length sums to at most one, and to exactly one when every item is a known class |

## Left out

- File and directory I/O is not modelled. This covers `load_json`, `load_gestures`, `load_view_hierarchies`, `save_to_json`, `os.listdir`, `main`, the module-level `process_data_from_json(...)` call and the pandas or CSV writing. The loaded data is passed in as values, and the CSV writers are modelled as appended sequences.
- A JSON file that `load_json` cannot read is `HierarchyFile.Unreadable`; its exception message is not modelled.
- Console output and progress bars are not modelled.
- Python floats are exact reals, and `float('inf')` is `Extended.Infinity`. Rounding is not modelled. Bounds are integers, and relative bounds and coordinates are reals.
- An empty-dict child `{}` is falsy in `traverse_descendants` and truthy elsewhere. The node model cannot tell it from a node with every key absent, so it is treated as a node.
- Lowercasing covers ASCII letters only. Python's Unicode case mapping is not modelled.
- Classifier.ClassifyComponentClass takes the keyword table as a parameter, and Conversion.Converter holds `Keywords` as a constant field. This keeps the proofs small. The behaviour is that of the program's single table.
- Malformed input is not modelled. A record without `gesture_converted`, `component_info` or one of its required keys, or a `gesture_converted` that is not a pair, would raise `KeyError` or `ValueError` in `process_data_from_json`. The model's record type always has those fields.
- Malformed view hierarchies on the matching side are not modelled. `HierarchyFile` is either unreadable or a loaded `activity.root`. A file whose top level is a list, or whose `activity` is `null`, makes `view_hierarchy.get('activity', {}).get('root', {})` raise an uncaught `AttributeError`; the model has no such file.
- A node's `Node.children` is a sequence, and an absent or `null` `children` key reads as the empty sequence. For `recursive_search` the two agree, since both make a leaf. `traverse_descendants`, however, iterates a `null` `children` and raises `TypeError`, and such a crash is not modelled.
- `clickable` for the negative converter is `Option<bool>`; `None` stands for the text 'false' that the matcher writes when the key is absent. Only equality on it matters.
- Spacing.CalculateSpacing takes the matched component's bounds as a rectangle. Every candidate has four bounds (Matching.CandidateBounds), so `current_bounds` is never indexed out of range.
- The rest of `model/feature.py` is not modelled: `safe_literal_eval`, the pandas columns, MinMaxScaler and `np.log`. The set `unique_descendant_classes` is passed in as a sequence, because Python's set order is unspecified.
- `model/model_train.py` (a neural network and PCA), `negative_dataset_code/makeGestures_negative.py` (a GUI) and `negative_dataset_code/copyFileLoader_negative.py` (random file copying) are not part of this model.
