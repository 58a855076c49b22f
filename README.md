# microscopium-ui: a Dafny model of the dashboard's logic

The microscopium dashboard shows a scatter plot of microscopy samples, the
neighbours and images of the selected sample, line plots of its feature
vector, and a filter panel. Most of its code draws with D3 or a canvas, but
a few small, deterministic parts hold state or compute values. This project
models those parts and proves properties about them:

- The two generations of the sample navigation **History**:
  - the current one (`app/static/js/History.js`, module `AppHistory`) is a
    browser-style back/forward list that drops duplicate adds;
  - the earlier one (`public/js/History.js`, module `PublicHistory`) uses an
    `iterator` over a sparse array.
- The status bit flags (`Byteflag`) and how `PointsDrawer.draw` turns them
  into a painting order (`PointsDrawer`).
- The collection helpers `uniqueData`, `findByValues`, `sortedPush`,
  `makeSelector` and `translateString` (`AppUtils`, `PublicUtils`).
- The select-query parser of the server (`RouteUtils`).
- The gene lists and the "filtering" test of the filter panel (`GeneFilter`).
- The active-feature cursor of the two line plots (`FeatureCursor`,
  `FeatureVectorLineplot`, `Lineplot`).

The JavaScript built-ins and lodash helpers these call are modelled once:
- `Builtins`: default `Array.prototype.sort`, `indexOf`, `join` and `split`.
- `Lodash`: `_.filter`, `_.pluck`, `_.uniq` and `_.sortedIndex`.
- `JsValues`: JavaScript values as far as these parts need them. A value is a
  string or `undefined`. Strings are ordered character by character, with
  `undefined` last. A Dafny `char` is a code point, so this is the default
  sort's UTF-16 code unit order for strings without characters above U+FFFF.

Objects whose fields change in place are Dafny classes with those fields.
Each method is proved against a pure step function of the old state. The
properties are stated and proved as lemmas about those step functions.

Where the code and the documented design disagree, the model follows the
code:
- The current History suppresses an `add` equal to the id added last
  (`lastSample`), which need not be the entry under the cursor
  (app/static/js/History.js:27).
- Its `reset` leaves `lastSample` as it was (app/static/js/History.js:83-87),
  so re-adding that id after a reset is still ignored.
- tests/History.spec.js loads `public/js/History.js`, but its expectations
  hold only for `app/static/js/History.js`. `AppHistory.RecordedScenarios`
  proves them for the current version. `PublicHistory.BackReadsHole` and
  `PublicHistory.RepeatedAddStored` show the earlier version answering
  otherwise.
- A click on the line plots can never select feature 1 (see Findings).
  Feature `f` is the histogram of column `f - 1`
  (public/js/UIController.js:69-70), so 1 is the first feature, not a gap.

## Model

| member | source | states |
|---|---|---|
| Builtins.Sort | app/static/js/utils/Utils.js:33 | default `sort()` returns a permutation of its input: same elements with the same multiplicities |
| Builtins.SortSorted | app/static/js/utils/Utils.js:33 | the result of the default sort is in string order |
| Builtins.SortIsTheSortedPermutation | app/static/js/utils/Utils.js:33 | any sorted permutation of the input equals the model's result, so the model does not depend on the engine's sorting algorithm |
| Builtins.SortDistinct | app/static/js/utils/Utils.js:33 | sorting a repeat-free array leaves it repeat-free |
| Builtins.SortedUnique | public/js/Filter.js:130 | two sorted arrays with the same elements are equal, so re-sorting `genes` has one possible result |
| Builtins.IndexOf | public/js/Filter.js:104 | `indexOf` is -1 exactly when the value is absent, otherwise the index of its first occurrence |
| Builtins.JoinCons | app/static/js/utils/Utils.js:177 | joining a piece followed by more pieces gives that piece, the separator, then the join of the rest |
| Builtins.SplitJoin | app/RouteUtils.js:14 | splitting a join on its separator gives back the pieces when no piece contains the separator |
| Lodash.Filter | app/static/js/utils/Utils.js:47-54 | `_.filter` keeps only elements that pass the test, in their original order (a subsequence) |
| Lodash.FilterCount | app/static/js/utils/Utils.js:47-54 | `_.filter` keeps every occurrence of a value that passes and none of a value that fails |
| Lodash.FilterMembers | app/static/js/utils/Utils.js:47-54 | a value is in the result exactly when it is in the input and passes the test |
| Lodash.FilterAppend | app/static/js/PointsDrawer.js:50-66 | filtering one more element at the end appends it to the result exactly when it passes, as the pushing loop of `draw` does |
| Lodash.Pluck | app/static/js/utils/Utils.js:33 | `_.pluck` gives each record's field value, `undefined` where the field is missing |
| Lodash.Uniq | app/static/js/utils/Utils.js:33 | `_.uniq` has the same elements as its input and no repeats |
| Lodash.SortedIndex | app/static/js/utils/Utils.js:65 | on an ascending array `_.sortedIndex` finds the lowest insertion index: every element before it is smaller, every element from it on is not |
| Byteflag.Add | app/static/js/utils/Byteflag.js:12-14 | `flag \| newBit` sets the new bits and keeps every other bit |
| Byteflag.Remove | app/static/js/utils/Byteflag.js:23-25 | `flag & ~removeBit` clears the removed bits and keeps every other bit |
| Byteflag.CheckAdd | app/static/js/utils/Byteflag.js:12-14 | a bit that was added is present |
| Byteflag.AddIdempotent | app/static/js/utils/Byteflag.js:12-14 | adding a bit that is present leaves the flag unchanged |
| Byteflag.RemoveClears | app/static/js/utils/Byteflag.js:23-25 | a removed nonzero bit is absent |
| Byteflag.RemoveAbsent | app/static/js/utils/Byteflag.js:23-25 | removing an absent bit returns the flag unchanged |
| Byteflag.RemoveIdempotent | app/static/js/utils/Byteflag.js:23-25 | removing twice is removing once |
| Byteflag.AddKeepsOtherBits | app/static/js/utils/Byteflag.js:12-14 | adding a bit does not change `check` of a disjoint mask |
| Byteflag.RemoveKeepsOtherBits | app/static/js/utils/Byteflag.js:23-25 | removing a bit does not change `check` of a disjoint mask |
| Byteflag.CheckUnion | app/static/js/utils/Byteflag.js:34-36 | `check(f, b1 \| b2)` holds exactly when both `check(f, b1)` and `check(f, b2)` hold |
| Byteflag.AddCommutes | app/static/js/utils/Byteflag.js:12-14 | the order in which two bits are added does not matter |
| Byteflag.RemoveUndoesAdd | app/static/js/utils/Byteflag.js:23-25 | removing a bit that was just added to a flag without it restores the flag |
| Byteflag.StatusScenario | app/static/js/utils/Byteflag.js:12-36 | concrete add, remove and check results on small status values |
| AppHistory.Initial | app/static/js/History.js:10-15 | a new history has no reachable entries, current -1 and lastSample null |
| AppHistory.AddStep | app/static/js/History.js:25-41 | an add repeating lastSample changes nothing; otherwise the cursor advances by one, the id becomes the entry under it and the last reachable one, and the entries up to the old cursor are kept |
| AppHistory.BackStep | app/static/js/History.js:51-59 | with current > 0 the cursor steps back and answers the entry now under it; otherwise null and no change; sampleHistory, length and lastSample are never changed |
| AppHistory.ForwardStep | app/static/js/History.js:68-76 | with -1 < current < length-1 the cursor steps forward and answers the entry now under it; otherwise null and no change |
| AppHistory.ResetStep | app/static/js/History.js:83-87 | reset empties the reachable entries and sets current to -1, keeping lastSample |
| AppHistory.BackThenForward | app/static/js/History.js:51-76 | back then forward restores the state and answers the entry that was current |
| AppHistory.ForwardThenBack | app/static/js/History.js:51-76 | forward then back restores the state |
| AppHistory.AddPrunesForward | app/static/js/History.js:34-39 | after an add that is not suppressed there is nothing ahead to go forward to |
| AppHistory.AddThenBack | app/static/js/History.js:25-58 | back right after an add answers the entry that was current before it |
| AppHistory.EmptyAnswersNull | app/static/js/History.js:51-76 | an empty history answers null to back and forward and does not change |
| AppHistory.BackAtStartIsStable | app/static/js/History.js:51-58 | at the oldest entry back answers null and changes nothing, however often it is called |
| AppHistory.ResetKeepsLastSample | app/static/js/History.js:83-87 | after a reset, adding the id added last is still ignored |
| AppHistory.RepeatedAddSuppressed | app/static/js/History.js:27 | adding the same id twice in a row is the same as adding it once |
| AppHistory.BranchTruncation | app/static/js/History.js:34-39 | after A, B, C, back, add D: back, back, forward, forward answer B, A, B, D and C is unreachable |
| AppHistory.RecordedScenarios | tests/History.spec.js:11-72 | the recorded back/forward answers: null after a repeated add, A then null after A, B, and the expected orders going back and forward |
| AppHistory.History.constructor | app/static/js/History.js:10-15 | the fields start as the initial state and satisfy the invariant |
| AppHistory.History.Add | app/static/js/History.js:25-41 | updates the fields as AddStep and keeps the invariant |
| AppHistory.History.Back | app/static/js/History.js:51-59 | updates the fields and answers as BackStep, keeping the invariant |
| AppHistory.History.Forward | app/static/js/History.js:68-76 | updates the fields and answers as ForwardStep, keeping the invariant |
| AppHistory.History.Reset | app/static/js/History.js:83-87 | updates the fields as ResetStep, keeping the invariant |
| PublicHistory.Read | public/js/History.js:47 | reading an unwritten slot gives `undefined`, a written one its id |
| PublicHistory.Store | public/js/History.js:30 | an indexed write past the end fills the gap with holes and changes no other slot |
| PublicHistory.Initial | public/js/History.js:8-12 | a new history is empty with iterator and length 0 |
| PublicHistory.AddStep | public/js/History.js:22-34 | add always advances the iterator and stores the id under it, pushing at the end and overwriting otherwise, keeping the slots before it and after it; length becomes the iterator; the first add leaves slot 0 unwritten |
| PublicHistory.BackStep | public/js/History.js:44-52 | with iterator > 0 it steps back and answers the slot now under it, `undefined` exactly when that is slot 0; otherwise null and no change |
| PublicHistory.ForwardStep | public/js/History.js:61-69 | while the iterator is below the array's last index it steps forward and answers that entry; otherwise null and no change |
| PublicHistory.BackThenForward | public/js/History.js:44-69 | back then forward restores the state |
| PublicHistory.ForwardThenBack | public/js/History.js:44-69 | forward then back restores the state |
| PublicHistory.BackReadsHole | public/js/History.js:44-52 | after one add, back answers `undefined` (slot 0) and a second back answers null |
| PublicHistory.ForwardPassesLength | public/js/History.js:61-69 | after an add that is not at the end, forward still reaches the old entry beyond the new length |
| PublicHistory.StaleForward | public/js/History.js:22-69 | after A, B, C, back, back, add D, forward answers C |
| PublicHistory.RepeatedAddStored | public/js/History.js:22-34 | adding the same id twice stores it twice: back answers it |
| PublicHistory.History.constructor | public/js/History.js:8-12 | the fields start as the initial state |
| PublicHistory.History.Add | public/js/History.js:22-34 | updates the fields as AddStep, keeping the invariant |
| PublicHistory.History.Back | public/js/History.js:44-52 | updates the fields and answers as BackStep |
| PublicHistory.History.Forward | public/js/History.js:61-69 | updates the fields and answers as ForwardStep |
| PublicHistory.History.Reset | public/js/History.js:76-80 | restores the initial state |
| AppUtils.UniqueData | app/static/js/utils/Utils.js:32-34 | the result is sorted, repeat-free, and holds exactly the field values found in the records |
| AppUtils.UniqueDataOrderIrrelevant | app/static/js/utils/Utils.js:32-34 | reordering the records does not change the result |
| AppUtils.SameSortedSet | app/static/js/utils/Utils.js:32-34 | two sorted repeat-free results with the same elements are equal |
| AppUtils.FindByValues | app/static/js/utils/Utils.js:45-56 | keeps exactly the records whose property is in `values`, or not in `values` when `invert` is `true`, in their original order |
| AppUtils.FindByValuesPartition | app/static/js/utils/Utils.js:45-56 | the plain and inverted results split the collection: every record lands in exactly one of them, as often as it occurs |
| AppUtils.SortedPush | app/static/js/utils/Utils.js:64-66 | the array grows by the value; on an ascending array the value goes in front of the elements equal to it and the array stays ascending |
| AppUtils.MakeSelector | app/static/js/utils/Utils.js:75-77 | the selector always starts with `#`: the input itself when it does, `#` plus the input otherwise |
| AppUtils.MakeSelectorIdempotent | app/static/js/utils/Utils.js:75-77 | applying it twice is applying it once |
| AppUtils.MakeSelectorInjective | app/static/js/utils/Utils.js:75-77 | different ids without `#` give different selectors |
| AppUtils.TranslateString | app/static/js/utils/Utils.js:168-178 | the pushed pieces join to `translate(<left><u>, <top><u>)`, with `u` equal to `px` exactly when `px` is truthy |
| AppUtils.TranslateStringInjective | app/static/js/utils/Utils.js:168-178 | when the left offset has no comma, the string determines both offsets |
| PublicUtils.UniqueData | public/js/Utils.js:34-36 | sorted, repeat-free, exactly the field values of the records |
| PublicUtils.FindByValues | public/js/Utils.js:45-49 | keeps exactly the records whose property is in `values`, as a subsequence no longer than the collection |
| PublicUtils.SubsequenceLength | public/js/Utils.js:46-48 | a subsequence is no longer than the sequence it comes from |
| PublicUtils.FindByValuesIsNotInverted | public/js/Utils.js:45-49 | it is the non-inverted `findByValues` of the current utilities |
| RouteUtils.ParseSelectQuery | app/RouteUtils.js:11-15 | null exactly for a falsy query; a non-empty string is returned as it is; an array is joined with single spaces |
| RouteUtils.EmptyArrayGivesEmptyString | app/RouteUtils.js:12-14 | an empty array is truthy and gives the empty string, not null |
| RouteUtils.ParseSelectQueryRoundTrip | app/RouteUtils.js:14 | splitting the result on spaces gives back a non-empty array of space-free field names |
| RouteUtils.SingleFieldAsArray | app/RouteUtils.js:13-14 | a string gives what the one-element array of it gives |
| GeneFilter.UniqueData | public/js/Filter.js:247-249 | sorted, repeat-free, exactly the field values of the records |
| GeneFilter.InitialLists | public/js/Filter.js:17-21 | `genes` starts as the sorted repeat-free gene names of the data and `selectedGenes` empty |
| GeneFilter.Without | public/js/Filter.js:107 | `splice(index, 1)` removes the element at `index`: the elements before it stay in place and those after it move down by one |
| GeneFilter.Added | public/js/Filter.js:101-115 | a truthy value found in `genes` leaves it and goes to the end of `selectedGenes`; any other value changes nothing; the pool of genes is kept and `genes` stays sorted |
| GeneFilter.Removed | public/js/Filter.js:122-137 | a truthy value found in `selectedGenes` is spliced out at its first index, the other selected genes keeping their order, and `genes` gains it, re-sorted; any other value changes nothing; the pool is kept |
| GeneFilter.ResetLists | public/js/Filter.js:144-151 | every selected gene goes back, `genes` is sorted and holds the whole pool, `selectedGenes` is empty |
| GeneFilter.RemoveUndoesAdd | public/js/Filter.js:101-137 | removing a gene just added gives back the lists exactly |
| GeneFilter.ResetDependsOnPoolOnly | public/js/Filter.js:144-151 | the lists after a reset depend only on the pool, not on what was selected in which order |
| GeneFilter.ResetRestoresInitial | public/js/Filter.js:144-151 | a reset after any moves gives the lists built by the constructor |
| GeneFilter.SortedWithout | public/js/Filter.js:107 | removing an element of a sorted list keeps it sorted |
| GeneFilter.FilterActive | public/js/Filter.js:206-217 | not filtering exactly when all rows, columns and plates are ticked and no gene is selected |
| GeneFilter.AddActivates | public/js/Filter.js:206-211 | after a gene is added the filter is active whatever the checkboxes say |
| GeneFilter.ResetLeavesCheckboxes | public/js/Filter.js:144-151 | after a reset only the checkboxes decide whether the filter is active |
| GeneFilter.SampleFilter.constructor | public/js/Filter.js:13-21 | the unique columns, rows, plates and genes of the data, no selected genes |
| GeneFilter.SampleFilter.ApplyFilter | public/js/Filter.js:199-220 | the two tests set "filtering" exactly as FilterActive |
| GeneFilter.SampleFilter.AddToFilter | public/js/Filter.js:101-115 | the lists change as Added, the invariant is kept, the other fields are untouched, then the filter test runs |
| GeneFilter.SampleFilter.RemoveFromFilter | public/js/Filter.js:122-137 | the lists change as Removed, the invariant is kept, then the filter test runs |
| GeneFilter.SampleFilter.ResetGeneFilter | public/js/Filter.js:144-151 | the lists change as ResetLists, the invariant is kept, then the filter test runs |
| PointsDrawer.SelectedDoesNotMove | app/static/js/PointsDrawer.js:54-65 | marking or unmarking a sample SELECTED never changes the group it is drawn in |
| PointsDrawer.Precedence | app/static/js/PointsDrawer.js:54-65 | an ACTIVE sample is drawn as active whatever else it is; flagging an active or neighbouring sample FILTERED_OUT does not demote it |
| PointsDrawer.Groups | app/static/js/PointsDrawer.js:52-65 | each sample's group is the one its status selects in the if/else chain |
| PointsDrawer.Members | app/static/js/PointsDrawer.js:50-66 | every index queued for a group belongs to a sample of that group |
| PointsDrawer.MembersIn | app/static/js/PointsDrawer.js:50-66 | an index is queued for a group exactly when it is drawn and its sample is in that group |
| PointsDrawer.MembersCount | app/static/js/PointsDrawer.js:50-66 | each occurrence of an index goes to its own group's queue and to no other |
| PointsDrawer.GroupsPartition | app/static/js/PointsDrawer.js:50-66 | the four queues together hold exactly the indices to draw, with their multiplicities |
| PointsDrawer.MembersAppend | app/static/js/PointsDrawer.js:58-64 | the next index goes to the end of its group's queue |
| PointsDrawer.LastActive | app/static/js/PointsDrawer.js:54-56 | `active` ends as an ACTIVE index among those drawn, when there is one |
| PointsDrawer.LastActiveNone | app/static/js/PointsDrawer.js:54-56 | `active` stays undefined exactly when no index drawn is ACTIVE |
| PointsDrawer.LoopStep | app/static/js/PointsDrawer.js:50-66 | one loop iteration: an ACTIVE index replaces `active`, any other goes to the end of its queue |
| PointsDrawer.Paint | app/static/js/PointsDrawer.js:151-159 | `_drawPoints` paints one dot per index, in the order of the indices, with the current style |
| PointsDrawer.SceneLayered | app/static/js/PointsDrawer.js:68-93 | dots are painted filtered-out first, then not filtered out, then neighbours, then the active point: layers never decrease |
| PointsDrawer.SceneIndices | app/static/js/PointsDrawer.js:70-93 | the painted indices are the filtered-out, not-filtered-out and neighbour queues in that order, then the active index |
| PointsDrawer.SceneCoverage | app/static/js/PointsDrawer.js:50-93 | every index that is not ACTIVE is painted exactly as often as it is drawn; of the ACTIVE ones only the last is painted, and only when it is not 0 |
| PointsDrawer.ActiveOnTop | app/static/js/PointsDrawer.js:90-93 | the active point, when painted, is the last dot, in red |
| PointsDrawer.LaterActiveWins | app/static/js/PointsDrawer.js:54-56 | with two ACTIVE samples only the later one is painted |
| PointsDrawer.ActiveZeroNotPainted | app/static/js/PointsDrawer.js:90 | an ACTIVE sample at index 0 is never painted |
| PointsDrawer.CorrectedActiveOnTop | app/static/js/PointsDrawer.js:90-93 | with the test `active !== undefined`, an ACTIVE sample among those drawn always puts a red dot on top |
| PointsDrawer.CorrectedAgrees | app/static/js/PointsDrawer.js:90-93 | the corrected drawing differs from `draw` only when the active index is 0 |
| PointsDrawer.PointsDrawer.constructor | app/static/js/PointsDrawer.js:12-16 | a fresh 2D context: blank, black, opaque |
| PointsDrawer.PointsDrawer.DrawPoints | app/static/js/PointsDrawer.js:151-159 | appends Paint of the indices with the current style and changes no style |
| PointsDrawer.PointsDrawer.GroupIndices | app/static/js/PointsDrawer.js:50-66 | the loop leaves `active` and the three queues as LastActive and Members |
| PointsDrawer.PointsDrawer.PaintQueues | app/static/js/PointsDrawer.js:70-93 | paints the queues with their styles in order, then the active point when `active` is truthy |
| PointsDrawer.PointsDrawer.Draw | app/static/js/PointsDrawer.js:28-94 | clears the canvas, takes `indices` when given and the cached range otherwise, and leaves exactly the Scene of those indices |
| FeatureCursor.KeyStep | public/js/FeatureVectorLineplot.js:245-259 | RIGHT moves the cursor up one while it is below the length, LEFT down one while it is above 1, any other key changes nothing; it broadcasts exactly when the cursor moves, keeps it within 1..length, and throws on RIGHT before a vector is loaded |
| FeatureCursor.ClickStep | public/js/FeatureVectorLineplot.js:222-230 | a click takes the clicked feature exactly when 1 < feature <= length and broadcasts it; otherwise nothing changes |
| FeatureCursor.RightThenLeft | public/js/FeatureVectorLineplot.js:245-259 | RIGHT then LEFT returns below the last feature |
| FeatureCursor.LeftThenRight | public/js/FeatureVectorLineplot.js:245-259 | LEFT then RIGHT returns above the first feature |
| FeatureCursor.StopsAtEnds | public/js/FeatureVectorLineplot.js:248-258 | RIGHT at the last feature and LEFT at the first change nothing |
| FeatureCursor.PressesKeepRange | public/js/FeatureVectorLineplot.js:245-259 | any run of key presses keeps the cursor within 1..length |
| FeatureCursor.PressesMoveAtMostOnePerKey | public/js/FeatureVectorLineplot.js:245-259 | n presses move the cursor by at most n |
| FeatureCursor.RightPresses | public/js/FeatureVectorLineplot.js:248-252 | n presses of RIGHT advance n features, stopping at the last |
| FeatureCursor.LeftPresses | public/js/FeatureVectorLineplot.js:255-258 | n presses of LEFT go back n features, stopping at 1 |
| FeatureCursor.KeysReachEveryFeature | public/js/FeatureVectorLineplot.js:245-259 | every feature from 1 to the length is reachable from the initial cursor by keys |
| FeatureCursor.CursorOutlivesVector | public/js/FeatureVectorLineplot.js:64 | after a shorter vector is loaded the cursor can lie past its end: RIGHT is ignored, LEFT steps back, a click from 2 on brings it into range |
| FeatureCursor.ClickNeverSelectsFirst | public/js/FeatureVectorLineplot.js:226 | no click moves the cursor to feature 1, though LEFT from feature 2 does |
| FeatureCursor.CorrectedClickStep | public/js/FeatureVectorLineplot.js:222-230 | with the bound `clickedFeature >= 1`, a click takes exactly the features 1..length |
| FeatureCursor.CorrectedClickSelectsAnyFeature | public/js/FeatureVectorLineplot.js:222-230 | the corrected click selects every feature the keys reach and agrees with the click as written on every feature but 1 |
| FeatureVectorLineplot.FeatureVectorLineplot.constructor | public/js/FeatureVectorLineplot.js:29 | the cursor starts at feature 1, with no vector loaded |
| FeatureVectorLineplot.FeatureVectorLineplot.DrawLineplot | public/js/FeatureVectorLineplot.js:63-72 | a loaded vector replaces the old one and leaves the cursor where it was |
| FeatureVectorLineplot.FeatureVectorLineplot.HandleFeatureChange | public/js/FeatureVectorLineplot.js:206-209 | broadcasts the current feature |
| FeatureVectorLineplot.FeatureVectorLineplot.OnClickUpdate | public/js/FeatureVectorLineplot.js:222-230 | moves the cursor and broadcasts as ClickStep |
| FeatureVectorLineplot.FeatureVectorLineplot.OnKeydownUpdate | public/js/FeatureVectorLineplot.js:245-259 | moves the cursor and broadcasts as KeyStep |
| Lineplot.GuardedKeyStep | public/js/Lineplot.js:235-253 | a cursor of 0 ignores every key; any other cursor behaves as KeyStep |
| Lineplot.RunStaysPositive | public/js/Lineplot.js:213-253 | no run of keys, clicks and loaded vectors takes the cursor below 1 |
| Lineplot.GuardNeverSkips | public/js/Lineplot.js:238 | from a fresh plot the truthiness test on the cursor always passes, so `keypressUpdate` acts as the plain key handler |
| Lineplot.Lineplot.constructor | public/js/Lineplot.js:30 | the cursor starts at feature 1, with no vector loaded |
| Lineplot.Lineplot.DrawLineplot | public/js/Lineplot.js:82-84 | a loaded vector replaces the old one and leaves the cursor where it was |
| Lineplot.Lineplot.OnClickUpdate | public/js/Lineplot.js:213-222 | moves the cursor and broadcasts as ClickStep |
| Lineplot.Lineplot.KeypressUpdate | public/js/Lineplot.js:235-253 | moves the cursor and broadcasts as GuardedKeyStep |

## Left out

- Rendering is not modelled: D3 scales, axes, SVG, tooltips, the canvas arc geometry and coordinates. The canvas is the list of dots painted, each with its style.
- Browser and server glue is not modelled: the DOM reads and writes, AJAX requests, `$('body').trigger` (modelled as the returned `Broadcast` event), timers, the server routes and the database code.
- `regexFilter`, `updateGeneList` and `updateSelectedGeneList` are not modelled. They depend on the RegExp engine and the DOM.
- The option selected after an add or remove (`nextValue`) is not modelled; it only moves the DOM selection.
- `euclideanDistance`, `linspace`, `percentile` and `getPercentiles` are not modelled: they are floating-point arithmetic.
- SampleManager and the sample status enumeration file are not part of this model.
- AppUtils.SortedPush: returns the new contents instead of splicing the caller's array in place, and covers arrays of numbers only. A Dafny array cannot grow.
- JsValues.StrLe: compares code points, not UTF-16 code units. For strings with characters above U+FFFF the order differs from the default sort: JavaScript puts U+10000 before U+FFFF, the model after it. This carries over to Builtins.Sort, the UniqueData functions and the gene lists.
- Byteflag.Check: the arguments are taken as int32 values. JavaScript compares the signed 32-bit result of `&` with the raw number, so masks at or above 2^31 (`check(add(0, 2147483648), 2147483648)` is false) and non-integer masks are not modelled.
- RouteUtils.SelectQuery: a `select` parameter parsed into an object (`?select[a]=b`) is not modelled. Such an object is truthy and has no `join`, so `parseSelectQuery` throws a TypeError on it. Its documented argument is a string or an array of strings.
- Lodash.SortedIndex: numbers only. Lodash also compares strings with `<`.
- AppUtils.UniqueData: `_.flatten` is not modelled (the records are a flat list). Field values are strings or `undefined`; numbers, which the default sort compares as their decimal text, are not modelled. The same holds for PublicUtils.UniqueData and GeneFilter.UniqueData.
- AppUtils.FindByValues: `invert` is a boolean, with `false` standing for every argument other than `true`, as the test `invert === true` treats them. Equality of values is on strings and `undefined` only.
- AppUtils.TranslateString: the offsets are taken as already converted to text.
- PointsDrawer.Classify: ACTIVE, NEIGHBOUR, FILTERED_OUT and SELECTED are taken as the distinct single bits 1, 2, 4 and 8, since the enumeration file is not part of this model.
- PointsDrawer.PointsDrawer.Draw: the two radii from the plot configuration are abstract tags, and `statuses` stands for the status field of each sample. Indices out of range are excluded by its precondition.
- PublicHistory.History: the field `iterator` is named `iter`, because `iterator` is a Dafny keyword.
- FeatureCursor.ClickStep: the clicked feature is an integer input; `xScale.invert` and `Math.round` are floating point. A NaN cursor is not modelled.
- FeatureCursor.KeyStep: a TypeError thrown on RIGHT before a vector is loaded is modelled as the `Thrown` event, leaving the cursor unchanged.
- `_updateSelectedFeatureLine` and `updateActiveLine` only redraw; they are not modelled.

## Findings

| source | as written | input that shows it | evidently intended | confidence | as-written member | corrected member |
|---|---|---|---|---|---|---|
| public/js/History.js:44-52 | `back` steps down to iterator 0 and returns slot 0, which `add` never writes | `add('A')`, then `back()` answers `undefined` | `back` at the oldest entry answers null, as the recorded scenario expects | not executed | PublicHistory.BackReadsHole | AppHistory.BackAtStartIsStable |
| public/js/History.js:61-69 | `forward` is bounded by the array's length, not by `length`, so entries after an overwriting `add` stay reachable | add A, B, C, `back()` twice, `add('D')`, then `forward()` answers C | entries after the cursor are removed by `add`, as its doc comment says | not executed | PublicHistory.StaleForward | AppHistory.AddPrunesForward |
| public/js/History.js:22-34 | `add` stores an id even when it repeats the previous one | `add('A')` twice, then `back()` answers A | consecutive repeats are stored once, so `back()` answers null | not executed | PublicHistory.RepeatedAddStored | AppHistory.RepeatedAddSuppressed |
| app/static/js/PointsDrawer.js:90 | `if(active)` treats the active index 0 as no active point | sample 0 flagged ACTIVE, `draw` with indices `[0]`: nothing is painted | the active point is painted whenever there is one (`active !== undefined`) | not executed | PointsDrawer.ActiveZeroNotPainted | PointsDrawer.CorrectedActiveOnTop |
| public/js/FeatureVectorLineplot.js:226 | a click is accepted only for features above 1 | cursor at 3 of 5 features, click on feature 1: the cursor stays at 3 | a click accepts every feature from 1 to the length, as the keys do | not executed | FeatureCursor.ClickNeverSelectsFirst | FeatureCursor.CorrectedClickSelectsAnyFeature |
| public/js/Lineplot.js:218 | a click is accepted only for features above 1 | cursor at 3 of 5 features, click on feature 1: the cursor stays at 3 | a click accepts every feature from 1 to the length, as the keys do | not executed | FeatureCursor.ClickNeverSelectsFirst | FeatureCursor.CorrectedClickSelectsAnyFeature |
