# vkcharts core, modelled in Dafny

A model of the core of the vkcharts TypeScript chart library, with proofs about it. Every chart
component is built on the same pieces, and the model covers each of them:

- **Listener registry.** Every chart component is an observable that keeps property listeners
  and event listeners, each with its own scopes (`Observable`). Its behaviour is checked on the
  library's own test scenarios (`ObservableScenarios`).
- **Reactive setters.** Properties are declared with `@reactive(...)`, which generates a setter
  that compares, stores and notifies (`Reactive`). The components built only from such
  properties are the label, the caption, the series marker, the drop shadow and the data
  property of hierarchy series (`Components`).
- **Series base class.** Its reactive properties and the two dirty-flag latches
  (`nodeDataPending`, `updatePending`) that raise the chart's `updatePending`. It also has the
  highlight helpers, key lookup and numeric-extent repair (`Series`).
- **Bar series.** The `yKeys` normalisation and the bookkeeping derived from it, names, legend
  items and toggling (`Bar`). The data pipeline: y values, normalisation, the y domain and the
  stacked bars (`BarData`).
- **Other series.** The pie series (`Pie`), the scatter series (`Scatter`) and the treemap
  series (`Treemap`).
- **Legend.** The orientation and visibility rules, the horizontal and vertical grid packing,
  item placement, item keys and opacities (`Legend`).
- **Charts.** The polar chart's layout (`Polar`) and the grouped-category chart's axis-domain
  update (`GroupedCategory`).
- **Utilities.** `createId` (`Id`) and the object interpolator (`Interpolate`).
- **`redecorate.js`.** The code generator that expands `@reactive(...)` declarations into a
  field, a setter and a getter, leaving comments alone (`Redecorate`, over the string
  operations in `JsString`).
- **Treemap example.** The tree-data conversion: path rows are inserted into a tree
  (`Convert`).

JavaScript values, numbers (finite reals, NaN, the infinities), strict equality, truthiness and
unary `+` are defined once, in `Js`. Numbers are not rounded. Integer division facts used by the
legend proofs are in `Arith`.

Several collaborators of the library are not part of this model. Each arrives as a function
parameter or as a number:

- scales, `extent`, `isNumber`, the per-value interpolator and the properties of Object.prototype;
- the hierarchy layout and text measurement;
- the automatic paddings from caption and legend placement.

Notification does not run listeners. It returns the trace of calls
`Call(listener, scope, event)`, so order and multiplicity can be stated.

The model follows the code where it disagrees with the library's own description of itself:

- **`nodeDataPending` can raise the chart flag when it changes to false.** The setter always
  sets `updatePending = true`, and that setter raises `chart.updatePending` on a change to true
  (`lib/chart/series/series.ts:201-209`). `Series.NodeDataPendingPropagation` states this.
- **The legend fires no event when its size changes.** The new size is copied into `oldSize`
  and nothing is notified (`lib/chart/legend.ts:545-555`).
- **`toUpperCase` on a non-string label throws.** The treemap data pass calls it on the label
  of a parent (`lib/chart/series/hierarchy/treemapSeries.ts:343`), so a hierarchy whose parent
  labels are not all strings ends in `Treemap.Processed.LabelTypeError`.
- **Treemap series list no legend items.** `listSeriesItems` adds nothing.

## Model

| member | source | states |
|---|---|---|
| Observable.NewObservable | lib/util/observable.ts:25-26 | a new observable has empty property and event registries |
| Observable.AddPropertyListener | lib/util/observable.ts:28-52 | afterwards exactly the old registrations plus (name, listener, scope) are registered, the scope defaulting to the observable itself; a listener new to the name is appended last and a known one keeps its place; other names and the event registry are untouched |
| Observable.AddEventListener | lib/util/observable.ts:94-111 | the same for an event type: a new listener goes last, a known one keeps its place, other types and the property registry are untouched |
| Observable.AddEntry | lib/util/observable.ts:44-51 | the listener's scope set gains the scope; well-formedness (each listener once, scope sets without repeats) is kept; a new listener is appended last with that one scope and every other entry keeps its index |
| Observable.CallsAppend | lib/util/observable.ts:88-89 | the calls of two listener lists placed one after the other are the first list's calls followed by the second's |
| Observable.NewListenerCalledLast | lib/util/observable.ts:44-51 | after adding a listener new to a name, a notification calls every earlier listener as before and then the new one, last |
| Observable.KnownListenerKeepsPlace | lib/util/observable.ts:44-51 | adding a scope to a known listener leaves the calls of the listeners before and after it in place, and its own calls run over its grown scope set |
| Observable.FireEventCallsEachOnce | lib/util/observable.ts:146-156 | firing an event calls each (listener, scope) registered for its type exactly once, with the event's fields, and no other pair |
| Observable.AddScope | lib/util/observable.ts:49-51 | adding a scope to a set keeps it duplicate-free, leaves it as it was when the scope is present and appends it otherwise |
| Observable.AddRegisters | lib/util/observable.ts:37-51 | a triple is registered after an add iff it was before or it is the added one |
| Observable.AddKeepsValid | lib/util/observable.ts:39-51 | every name keeps a well-formed listener list after an add |
| Observable.AddIdempotent | lib/util/observable.ts:44-51 | adding the same (name, listener, scope) twice leaves the registry as adding it once |
| Observable.RemoveScope | lib/util/observable.ts:69 | deleting a scope from a set removes exactly that scope |
| Observable.RemoveEntry | lib/util/observable.ts:67-73 | exactly the pair (listener, scope) disappears; a listener left without scopes is dropped; an unknown pair changes nothing |
| Observable.RemoveFrom | lib/util/observable.ts:63-77 | other names are untouched and well-formedness is kept |
| Observable.RemoveIsPrecise | lib/util/observable.ts:54-73 | after a remove with a listener, a triple is registered iff it was and it is not the removed one |
| Observable.RemoveUnknownIsNoOp | lib/util/observable.ts:65-73 | removing an unknown name, listener or scope leaves the registry as it was |
| Observable.RemoveAllClearsName | lib/util/observable.ts:74-76 | a remove without a listener clears every registration under that name and no other |
| Observable.ListenerPresentIffScoped | lib/util/observable.ts:70-72 | in a well-formed list a listener has an entry iff it has some scope |
| Observable.RemovePropertyListener | lib/util/observable.ts:54-78 | keeps the registries valid and the event registry untouched |
| Observable.RemoveEventListener | lib/util/observable.ts:113-130 | keeps the registries valid and the property registry untouched |
| Observable.ScopeCalls | lib/util/observable.ts:89 | one call per scope, in the scopes' order |
| Observable.CallsAreRegistered | lib/util/observable.ts:88-90 | every call goes to a registered (listener, scope) pair with the given event |
| Observable.CallsExactlyOnce | lib/util/observable.ts:88-90 | each registered (listener, scope) pair is called exactly once and any other pair never |
| Observable.CallsInRegistrationOrder | lib/util/observable.ts:88 | the calls of earlier listeners all come before those of later ones |
| Observable.OneCallPerScope | lib/util/observable.ts:88-90 | a listener's calls are one per scope, contiguous, between the calls of the listeners before and after it |
| Observable.NotifyPropertyListeners | lib/util/observable.ts:80-92 | every call carries type = name, source = the observable, the new and the old value, and goes to a listener registered for that name |
| Observable.TypeCalls | lib/util/observable.ts:136-140 | the calls for one type carry that type and the observable as source and reach only that type's listeners |
| Observable.NotifyEventListeners | lib/util/observable.ts:132-143 | every call goes to a listener of one of the listed types, with that type and the observable as source |
| Observable.NotifyEventListenersAppend | lib/util/observable.ts:135-142 | the types are handled in list order: the calls for a + b are those for a followed by those for b |
| Observable.NotifyOneType | lib/util/observable.ts:135-142 | notifying one type is that type's calls |
| Observable.NotifyTwoTypes | lib/util/observable.ts:135-142 | notifying two types is the first type's calls then the second's |
| Observable.FireEvent | lib/util/observable.ts:146-156 | only listeners of the event's type are called, with the event's fields and the observable as source |
| Observable.RegistriesAreIndependent | lib/util/observable.ts:25-26 | property notifications do not depend on the event registry and event notifications do not depend on the property registry |
| ObservableScenarios.CallOrderRegistries | lib/util/observable.test.ts:351-366 | the four registrations of the call-order test build one entry per name, scoped to the component |
| ObservableScenarios.ListenerCallOrder | lib/util/observable.test.ts:344-374 | setting bob then john calls the listeners in the order 1, 3, 4, 2, 3, 4, which takes the counters from 2, 2, 2 to 12, 28, 42 |
| ObservableScenarios.ThreeScopesRegistry | lib/util/observable.test.ts:308-310 | one listener added under the default scope and two object scopes has one entry with three scopes |
| ObservableScenarios.RemoveScope7 | lib/util/observable.test.ts:314 | removing one scope keeps the other two |
| ObservableScenarios.RemoveScope5 | lib/util/observable.test.ts:319 | removing the second scope keeps the default scope |
| ObservableScenarios.RemoveDefaultScope | lib/util/observable.test.ts:324 | removing without a scope removes the default scope, dropping the listener |
| ObservableScenarios.ScopeRemoval | lib/util/observable.test.ts:300-328 | the listener is called 3, 2, 1 and then 0 times as its scopes are removed |
| Reactive.Set | lib/chart/label.ts:6-13 | the generated setter: when the guard holds, it stores the value and makes exactly the property-listener calls for (name, old, new) followed by the calls for the declared categories; otherwise nothing changes and no call is made; other fields are untouched |
| Reactive.SetThenGet | lib/chart/label.ts:6-16 | set-then-get returns the value set, whether or not the setter fired |
| Reactive.SetSamePrimitiveIsNoOp | lib/chart/label.ts:8 | re-assigning the current primitive value (not NaN) leaves the component as it was and calls no listener |
| Reactive.ObjectAlwaysFires | lib/chart/label.ts:8 | with the object check, a non-null object fires even when it is the current reference |
| Reactive.FiresIff | lib/chart/label.ts:8 | the guard holds iff the value differs, is NaN, or is an object on an object-checked property; for null and undefined iff the value differs |
| Reactive.SecondSetFiresOnlyForObjectsOrNaN | lib/chart/label.ts:8-9 | a second identical assignment fires only for an object-checked object or NaN |
| Reactive.PropertyListenersFirst | lib/chart/label.ts:10-11 | a firing setter's calls are first the property-change calls carrying (name, source, new, old), then the category calls |
| Components.NewLabel | lib/chart/label.ts:5-76 | a new label holds every property's default: enabled, font size 12, 'Verdana, sans-serif', 'rgba(70, 70, 70, 1)', no font style or weight |
| Components.LabelCategories | lib/chart/label.ts:11-76 | `enabled` fires 'change' then 'dataChange'; every other label property fires 'change' alone |
| Components.NewMarker | lib/chart/series/seriesMarker.ts:6-133 | a new marker is enabled, a circle of size 6 and maximum size 30 with stroke width 1; fill, stroke, domain and opacities are unset |
| Components.MarkerSetters | lib/chart/series/seriesMarker.ts:6-139 | every marker setter fires exactly 'change'; the current primitive value fires nothing; a domain tuple always fires |
| Components.NewDropShadow | lib/scene/dropShadow.ts:4-56 | a new shadow is enabled, 'rgba(0, 0, 0, 0.5)', offsets 0 and blur 5 |
| Components.ShadowSetters | lib/scene/dropShadow.ts:6-64 | a shadow setter fires 'change' only on an actual change, its property listeners receive (previous, new), and the value reads back |
| Components.PropertyChangeCallsCarryValues | lib/scene/dropShadow.ts:9 | every property-change call of a firing setter carries the previous and the new value |
| Components.NewHierarchySeries | lib/chart/series/hierarchy/hierarchySeries.ts:5-7 | a hierarchy series starts with no chart and undefined data |
| Components.HierarchyDataSetter | lib/chart/series/hierarchy/hierarchySeries.ts:8-15 | any object fires the 'data' property listeners then 'dataChange', even the same reference; an identical primitive, undefined or null fires nothing and leaves the data as it was |
| Components.CaptionReactiveSetters | lib/caption.ts:10-34 | caption `enabled` fires its listeners then 'change' only on a strict change; `padding` fires for every object |
| Components.NewCaption | lib/caption.ts:10-23 | a new caption has `enabled` false, its own padding object, and a centre-aligned, top-baselined node ignoring pointer events |
| Components.WriteThrough | lib/caption.ts:36-94 | text, font and colour setters write through to the node and read back from it; other node fields and the reactive fields are untouched; an equal value does nothing; what is fired is a plain 'change' event |
| Components.WriteThroughReachesOnlyChangeListeners | lib/caption.ts:36-41 | a write-through change calls each 'change' (listener, scope) pair exactly once and nothing else |
| Series.NewSeries | lib/chart/series/series.ts:115-152 | a new series has undefined data, is visible and is shown in the legend |
| Series.VisibilitySettersFireOnChange | lib/chart/series/series.ts:128-153 | `visible` and `showInLegend` fire only on a strict change, `visible` with 'dataChange' and `showInLegend` with 'layoutChange' |
| Series.ToggleSeriesItem | lib/chart/series/series.ts:282-284 | the default toggle sets `visible` to the flag, leaves every other field alone and calls nobody when nothing changes |
| Series.ScheduleData | lib/chart/series/series.ts:296-298 | fires a plain 'dataChange' event from the series |
| Series.ScheduleLayout | lib/chart/series/series.ts:292-294 | fires a plain 'layoutChange' event from the series |
| Series.InitialFlags | lib/chart/series/series.ts:200-218 | a series starts with node data pending and no update pending |
| Series.RaiseChart | lib/chart/series/series.ts:205-207 | raises the chart's flag when there is a chart and touches nothing else |
| Series.SetUpdatePending | lib/chart/series/series.ts:219-226 | the update flag takes the value; node data pending is untouched |
| Series.SetNodeDataPending | lib/chart/series/series.ts:201-209 | the node-data flag takes the value |
| Series.ChartFlagIsLatch | lib/chart/series/series.ts:201-226 | neither setter attaches or detaches a chart, and neither ever lowers a raised chart flag |
| Series.UpdatePendingPropagation | lib/chart/series/series.ts:219-226 | the chart flag ends raised iff it was raised or the update flag changed to true; an equal value changes nothing |
| Series.NodeDataPendingPropagation | lib/chart/series/series.ts:201-209 | any change of node data pending leaves an update pending; the chart flag ends raised iff it was raised, or the flag changed to true, or it changed to false while no update was pending |
| Series.UpdateAsWritten | lib/chart/series/cartesian/barSeries.ts:751-762 | the update pass as written clears node data pending, leaves an update pending iff node data was pending, and leaves the chart flag raised iff it was raised or node data was pending |
| Series.UpdateAsWrittenLeavesUpdatePending | lib/chart/series/cartesian/barSeries.ts:751-762 | a pass that consumes pending node data ends with an update still pending and the chart re-flagged |
| Series.UpdateAsWrittenExample | lib/chart/series/cartesian/barSeries.ts:751-762 | a fresh series in a chart that has just cleared its flag ends the pass with an update pending and the chart flagged again |
| Series.Update | lib/chart/series/cartesian/barSeries.ts:751-762 | the pass with the flags cleared node data first ends with nothing pending |
| Series.UpdateClearsEverything | lib/chart/series/cartesian/barSeries.ts:751-762 | the reordered pass clears both flags, is idempotent, raises the chart only where the as-written pass does, and equals it when no node data was pending |
| Series.GetOpacity | lib/chart/series/series.ts:238-250 | 1 with no chart, no highlight, or a highlight on this series with no datum or the same item id; the dim opacity (default 1) otherwise |
| Series.GetStrokeWidth | lib/chart/series/series.ts:252-266 | the highlight stroke width under the same match when it is defined; the default otherwise |
| Series.DimmedMeansDefaultStroke | lib/chart/series/series.ts:238-266 | a dimmed datum keeps its default stroke width, and a datum drawn with the highlight width is never dimmed |
| Series.KeyContribution | lib/chart/series/series.ts:166-173 | a plain key value contributes itself iff it is truthy; an array contributes all its items |
| Series.GetKeys | lib/chart/series/series.ts:164-178 | every key returned is contributed by some field, and every field's contribution is among the keys |
| Series.GetKeysAppend | lib/chart/series/series.ts:164-176 | keys come out in field order, each field's contribution contiguous |
| Series.GetKeysOfPlainFields | lib/chart/series/series.ts:164-178 | without array-valued fields, the keys are exactly the truthy field values, in field order |
| Series.FixNumericExtent | lib/chart/series/series.ts:300-331 | a missing extent gives [0, 1]; the result is [0, 1] or two numbers; two distinct numbers come back unchanged |
| Series.Widen | lib/chart/series/series.ts:312-315 | a finite single value v becomes [v - abs(v)/100, v + abs(v)/100]; NaN gives NaN at both ends |
| Series.FixNumericExtentWidens | lib/chart/series/series.ts:312-320 | a finite single-value extent is widened by one percent of its value on each side; [0, 0] stays [0, 0] |
| Series.FixNumericExtentOrdered | lib/chart/series/series.ts:300-331 | with finiteness as the number test, an ordered (or missing, or non-finite) extent gives a finite ordered pair |
| Bar.Normalise | lib/chart/series/cartesian/barSeries.ts:363-374 | a flat key list becomes one stack per key when grouped and a single stack otherwise, and is remembered; the flattened key order is the given one |
| Bar.CumFrom | lib/chart/series/cartesian/barSeries.ts:383-393 | the running key count of stack i is the number of keys in the stacks before it |
| Bar.VisibleStacks | lib/chart/series/cartesian/barSeries.ts:386-397 | the group-scale domain holds the decimal index of a stack exactly when that stack is non-empty, in index order |
| Bar.AllEnabled | lib/chart/series/cartesian/barSeries.ts:396-400 | after a key change exactly the keys of the stacks are enabled, all of them true |
| Bar.NewBar | lib/chart/series/cartesian/barSeries.ts:184-205 | a new bar series has no keys, is not grouped, is not normalised and uses the default six-colour fill and stroke palettes |
| Bar.SetYKeys | lib/chart/series/cartesian/barSeries.ts:363-412 | the setter acts iff the normalised stacks differ from the current ones; then it stores them with the flat list, clears the y data, recomputes running counts, enablement and group domain and schedules a data pass; the consistency invariant is preserved |
| Bar.SetYKeysIdempotent | lib/chart/series/cartesian/barSeries.ts:376 | assigning the same keys twice: the second assignment changes nothing and schedules nothing |
| Bar.SetGrouped | lib/chart/series/cartesian/barSeries.ts:415-422 | the flag is stored; an unchanged flag does nothing and without a remembered flat list nothing else changes |
| Bar.GroupedReappliesFlatKeys | lib/chart/series/cartesian/barSeries.ts:415-422 | toggling grouped over a remembered flat list re-applies it: one stack per key when on, one stack when off, same flat order |
| Bar.SetYNames | lib/chart/series/cartesian/barSeries.ts:432-443 | names are stored and a data pass scheduled; an array over a remembered flat list becomes an object keyed by the flat keys only |
| Bar.ArrayNamesFollowFlatKeys | lib/chart/series/cartesian/barSeries.ts:433-439 | with distinct flat keys, the name of flat key j is array entry j |
| Bar.ArrayNamesByIndex | lib/chart/series/cartesian/barSeries.ts:432-443 | an array kept as is answers a lookup of the decimal index i with entry i |
| Bar.DisplayName | lib/chart/series/cartesian/barSeries.ts:978 | the legend label is the key's name or, when that is empty or missing, the key |
| Bar.NormalizedValue | lib/chart/series/cartesian/barSeries.ts:458-459 | the stored target is the absolute value of the assignment, and undefined for undefined, zero or NaN |
| Bar.SetNormalizedTo | lib/chart/series/cartesian/barSeries.ts:458-465 | a data pass is scheduled iff the absolute value differs from the stored one, and only the target changes |
| Bar.NormalizedToIgnoresSign | lib/chart/series/cartesian/barSeries.ts:458-465 | assigning -x after x schedules nothing, and assigning 0 is the same as assigning undefined |
| Bar.ListSeriesItems | lib/chart/series/cartesian/barSeries.ts:952-991 | no items unless there are data rows, an x key and y keys; otherwise the items of the flattened keys in stack order, coloured by running position |
| Bar.FlatEntriesItems | lib/chart/series/cartesian/barSeries.ts:968-988 | every item names a key that is not hidden, and every key not hidden gets an item |
| Bar.RemainingDistinct | lib/chart/series/cartesian/barSeries.ts:999-1008 | with distinct keys, removing the first occurrence of each disabled key keeps exactly the keys that are not disabled |
| Bar.ToggleSeriesItem | lib/chart/series/cartesian/barSeries.ts:993-1019 | the item's flag is recorded, the stacks are kept, only the group domain changes and a data pass is scheduled |
| Bar.ToggleDomain | lib/chart/series/cartesian/barSeries.ts:993-1016 | after a toggle a stack stays in the group domain iff one of its keys is not disabled |
| Bar.GetKeys | lib/chart/series/cartesian/barSeries.ts:289-314 | the x key for the X direction and the flattened y keys for Y, with the directions swapped when flipped |
| Bar.GetDomain | lib/chart/series/cartesian/barSeries.ts:577-586 | the x data for the X direction and the y domain for Y, with the directions swapped when flipped |
| BarData.FindLargestMinMax | lib/chart/series/cartesian/barSeries.ts:559-575 | the two nested loops compute the fold of the stack bounds from (0, 0) |
| BarData.LargestMinMaxBounds | lib/chart/series/cartesian/barSeries.ts:559-575 | the result is below every stack minimum and above every stack maximum, spans 0, and each non-zero bound is some stack's |
| BarData.YValue | lib/chart/series/cartesian/barSeries.ts:510-518 | a y value is the field's number when finite and the key is enabled, and 0 otherwise |
| BarData.Target | lib/chart/series/cartesian/barSeries.ts:531 | normalising happens iff the target is set, finite and non-zero |
| BarData.Rescale | lib/chart/series/cartesian/barSeries.ts:535-543 | a zero stays zero; every other value is rescaled exactly as the source does |
| BarData.RescaleAsWrittenZeroStack | lib/chart/series/cartesian/barSeries.ts:535-543 | as written, a zero in a stack whose maximum is 0 becomes NaN |
| BarData.RescaleBounded | lib/chart/series/cartesian/barSeries.ts:535-543 | a value within its stack's bounds rescales to a finite value in [-n, n] with the same sign |
| BarData.StoredY | lib/chart/series/cartesian/barSeries.ts:509-543 | the stored values have the shape of the raw ones, equal them when not normalising, and keep zeros |
| BarData.StoredYAsWritten | lib/chart/series/cartesian/barSeries.ts:535-543 | the values as the source rescales them: shaped like the raw ones, equal to the corrected values when not normalising and wherever the raw value is not 0 |
| BarData.YRange | lib/chart/series/cartesian/barSeries.ts:529-547 | the y range spans 0 whenever the stack bounds do and the target is positive |
| BarData.ProcessData | lib/chart/series/cartesian/barSeries.ts:496-556 | only the x data, y data and y domain change; x data are the rows' x fields, y data are shaped like the keys; it fires 'dataProcessed', calling each registered (listener, scope) exactly once, and reports success |
| BarData.ProcessDataAsWritten | lib/chart/series/cartesian/barSeries.ts:496-556 | the pass as written differs from the corrected one only in the stored y values, not at all without a target, and only where a raw value is 0 |
| BarData.ProcessDataAsWrittenZeroStack | lib/chart/series/cartesian/barSeries.ts:535-543 | with a target, a value 0 in a stack whose largest magnitude is 0 is stored as NaN as written and as 0 by the corrected pass |
| BarData.ProcessDataValues | lib/chart/series/cartesian/barSeries.ts:509-543 | without a target the stored value is the sanitised one, and a disabled key stores 0 |
| BarData.ProcessDataDomain | lib/chart/series/cartesian/barSeries.ts:529-549 | the y domain is finite and spans 0; when normalising to n it is [0, n] or [-n, n] |
| BarData.NormalisedValuesBounded | lib/chart/series/cartesian/barSeries.ts:531-543 | when normalising to n every stored value is finite and within [-n, n] |
| BarData.StackBars | lib/chart/series/cartesian/barSeries.ts:650-743 | the level loop with its two running bases yields exactly one bar per level, each on the base for its sign |
| BarData.StackedBarsDoNotOverlap | lib/chart/series/cartesian/barSeries.ts:661-743 | in a stack of finite values, non-negative bars stack upwards from 0 and negative bars downwards, without overlap |
| BarData.CreateNodeData | lib/chart/series/cartesian/barSeries.ts:607-749 | nothing unless the series is ready; every bar is in the visible range and names its key, and its colour index is the stack's running count plus its level |
| BarData.BarColours | lib/chart/series/cartesian/barSeries.ts:706-720 | a bar's colour index is its key's position among all keys, and its fill is the one the legend shows for that key |
| BarData.BarColoursDistinct | lib/chart/series/cartesian/barSeries.ts:706-720 | bars of different slots have different colour indices |
| Pie.NewPie | lib/chart/series/polar/pieSeries.ts:463 | a new pie series has no data, no angle key and no item flags, is visible, has no rotation and a 20 degree label minimum angle |
| Pie.SetData | lib/chart/series/polar/pieSeries.ts:257-261 | any data array re-enables exactly one item per datum; assigning no data keeps the flags; nothing else changes |
| Pie.SetItem | lib/chart/series/polar/pieSeries.ts:913 | writing a flag sets that item and leaves every other item's reading unchanged, growing the array with falsy holes |
| Pie.ToggleSeriesItem | lib/chart/series/polar/pieSeries.ts:912-915 | the item's flag becomes the given value, every other flag is kept and a data pass is scheduled |
| Pie.SetFills | lib/chart/series/polar/pieSeries.ts:378-381 | the fills are stored and a data pass is scheduled even when the value is unchanged |
| Pie.SetStrokes | lib/chart/series/polar/pieSeries.ts:387-390 | the strokes are stored and a data pass is scheduled even when the value is unchanged |
| Pie.GroupVisible | lib/chart/series/polar/pieSeries.ts:702-707 | without a chart the group keeps its visibility; otherwise it shows iff the series is visible and some item is enabled |
| Pie.GroupVisibilityFollowsItems | lib/chart/series/polar/pieSeries.ts:257-261 | after a non-empty data assignment a visible series shows, and once every item is off it hides |
| Pie.AngleValue | lib/chart/series/polar/pieSeries.ts:552-554 | an angle value is 0, +Infinity or positive; it is 0 for a disabled item or a NaN field and the absolute field value otherwise |
| Pie.EndRatios | lib/chart/series/polar/pieSeries.ts:559-562 | the end ratio of slice k is the running sum of the shares of the first k + 1 values |
| Pie.TotalOfPrefix | lib/chart/series/polar/pieSeries.ts:555 | the sum of finite non-negative values is finite and grows with the prefix |
| Pie.RatioSumIsShare | lib/chart/series/polar/pieSeries.ts:559-562 | with a positive total, the running sum of shares after k values is the share of the first k values |
| Pie.EndRatiosAreShares | lib/chart/series/polar/pieSeries.ts:559-562 | with a positive total, the end ratios are finite, in [0, 1] and non-decreasing |
| Pie.LastEndRatioIsOne | lib/chart/series/polar/pieSeries.ts:559-562 | with a positive total, the last slice ends at ratio exactly 1 |
| Pie.ZeroTotalMeansZeroValues | lib/chart/series/polar/pieSeries.ts:555 | a zero total of non-negative values means every value is 0 |
| Pie.ZeroTotalGivesNaNRatios | lib/chart/series/polar/pieSeries.ts:559-562 | with a zero total every end ratio is NaN |
| Pie.MinMaxBound | lib/chart/series/polar/pieSeries.ts:580-581 | over finite values the minimum and maximum are finite and bound every value |
| Pie.RadiusFraction | lib/chart/series/polar/pieSeries.ts:582-584 | a zero or NaN spread gives the fraction 1 |
| Pie.SliceRadii | lib/chart/series/polar/pieSeries.ts:577-585 | all radii are 1 without a radius key; otherwise each is the fraction of its radius between the set or data bounds |
| Pie.FractionWithin | lib/chart/series/polar/pieSeries.ts:582-584 | a value between finite bounds has a fraction in [0, 1]: 1 at the top and 0 at the bottom of a non-empty spread |
| Pie.RadiusFractionInUnit | lib/chart/series/polar/pieSeries.ts:577-585 | with data bounds every fraction is in [0, 1], the largest radius gets 1 and the smallest 0 unless all are equal |
| Pie.SliceLabel | lib/chart/series/polar/pieSeries.ts:605-606 | a slice is labelled iff labels are on and its span exceeds the minimum angle, and the text is the label field's |
| Pie.ProcessData | lib/chart/series/polar/pieSeries.ts:548-654 | one slice per row in data order; the first starts at ratio 0 plus the rotation, each later one where the previous ended; radii and labels as above; it reports success |
| Pie.DisabledItemHasEmptySlice | lib/chart/series/polar/pieSeries.ts:552-562 | a disabled item's slice starts and ends at the same ratio |
| Pie.LegendText | lib/chart/series/polar/pieSeries.ts:888-899 | the legend text is the item label, preceded by the title text and " - " when that text is non-empty |
| Pie.ListSeriesItems | lib/chart/series/polar/pieSeries.ts:882-910 | no items unless there is data and a label key; otherwise one item per datum with its position as id, its flag, its text and its palette colours |
| Pie.LegendItemIdsDistinct | lib/chart/series/polar/pieSeries.ts:896 | the legend items of a pie have pairwise different ids |
| Pie.ToggleRoundTrip | lib/chart/series/polar/pieSeries.ts:912-915 | toggling an item shows in that item's legend entry only, and turning it off zeroes its angle value |
| Pie.DataResetsToggles | lib/chart/series/polar/pieSeries.ts:257-261 | after a data assignment every legend item is enabled |
| Scatter.NewScatter | lib/chart/series/cartesian/scatterSeries.ts:155-158 | a new scatter series has no keys and no data, the size and label names 'Size' and 'Label', enabled markers of size 6 and empty projections |
| Scatter.SetKey | lib/chart/series/cartesian/scatterSeries.ts:103-178 | a key setter acts iff the value differs; then it stores the key, notifies the property listeners with old and new value, fires 'dataChange' and empties that key's projection; x and y start as '' and an undefined assigned to any key is kept as undefined |
| Scatter.DomainOf | lib/chart/series/cartesian/scatterSeries.ts:221-230 | a continuous axis gets a numeric extent and any other axis the values themselves |
| Scatter.ProcessData | lib/chart/series/cartesian/scatterSeries.ts:194-233 | without both axes it fails and changes nothing; otherwise it projects the rows on the x, y, size and label keys, takes the marker domain for sizes when set, and computes each axis domain |
| Scatter.ProcessDataAligns | lib/chart/series/cartesian/scatterSeries.ts:170-172 | a data pass leaves all projections aligned with the data, and after a key change the next pass rebuilds them to the row count |
| Scatter.Candidate | lib/chart/series/cartesian/scatterSeries.ts:281-301 | a row gives a node iff it maps into the domain and its point is in range; the node carries the row, and the marker size unless there are size data |
| Scatter.CreateNodeData | lib/chart/series/cartesian/scatterSeries.ts:263-305 | nothing unless the series is ready; otherwise the loop collects the candidates of every row in order |
| Scatter.NodesAreCandidates | lib/chart/series/cartesian/scatterSeries.ts:281-301 | every node is the candidate of a row before the bound |
| Scatter.NodesInRowOrder | lib/chart/series/cartesian/scatterSeries.ts:281-301 | the nodes' row positions strictly increase |
| Scatter.NodesComplete | lib/chart/series/cartesian/scatterSeries.ts:281-301 | every row that passes both checks has its node |
| Scatter.NodesAreOrderedSelection | lib/chart/series/cartesian/scatterSeries.ts:281-301 | the node data is exactly the order-preserving selection of the rows that pass both checks |
| Scatter.MarkerOf | lib/chart/series/cartesian/scatterSeries.ts:405-412 | a marker's size is the formatter's when given, it is visible iff markers are enabled and the size is positive, and a highlighted marker is raised to the highlight z-index |
| Scatter.HighlightOnTop | lib/chart/series/cartesian/scatterSeries.ts:411-412 | a highlighted marker is above every other marker; disabled markers and markers of size 0, NaN or below are hidden |
| Scatter.SetKeyRepeatIsNoOp | lib/chart/series/cartesian/scatterSeries.ts:103-178 | assigning a key the value it was just set to changes nothing and calls nobody |
| Scatter.OnMarkerShapeChange | lib/chart/series/cartesian/scatterSeries.ts:181-187 | a shape change empties the marker selection, refilled with the node data when node data was pending; the update as written clears node data pending, leaves an update pending iff node data was pending, re-raises the chart flag in that case, and the change fires only 'legendChange' calls to registered listeners |
| Scatter.ShapeChangeLeavesUpdatePending | lib/chart/series/cartesian/scatterSeries.ts:307-323 | a fresh series in a chart whose flag was just cleared ends a shape change with an update pending and the chart flagged again |
| Scatter.ListSeriesItems | lib/chart/series/cartesian/scatterSeries.ts:475-495 | one legend item iff there is data and both keys; its text is the title, else the y name, else the y key; it is enabled as the series is visible; a missing colour is transparent |
| Scatter.GetTooltip | lib/chart/series/cartesian/scatterSeries.ts:416-437 | no tooltip without both keys and both axes; otherwise its title is the title or the y name, its colour the marker fill or 'gray', and it has two lines plus one per set size or label key |
| Scatter.TooltipLineOrder | lib/chart/series/cartesian/scatterSeries.ts:433-443 | the label line comes first, then the x and y lines with the datum's values, then the size line |
| Treemap.TreemapPropCategories | lib/chart/series/hierarchy/treemapSeries.ts:172-258 | when they fire, the label, size and colour keys and colorParents notify their property listeners and fire 'dataChange', while gradient fires 'update' |
| Treemap.ColorValue | lib/chart/series/hierarchy/treemapSeries.ts:336 | a node's colour value is its colour-key field when a colour key is set, and its depth otherwise |
| Treemap.NodeLabel | lib/chart/series/hierarchy/treemapSeries.ts:342-346 | a falsy label becomes '', a parent's label is upper-cased and a leaf's is kept |
| Treemap.NodeFill | lib/chart/series/hierarchy/treemapSeries.ts:339 | leaves, and parents when colorParents is set, take the colour scale's value; other parents take the fixed dark colour |
| Treemap.Traverse | lib/chart/series/hierarchy/treemapSeries.ts:333-350 | a decorated node keeps its datum, has the given depth and one decorated child per child |
| Treemap.SubtreeLabellable | lib/chart/series/hierarchy/treemapSeries.ts:343 | if no parent label would make upper-casing throw, none in any subtree would either |
| Treemap.DecoratedAt | lib/chart/series/hierarchy/treemapSeries.ts:333-350 | the decorated tree has the hierarchy's shape, and the node at each position has that position's datum, depth, colour value, fill and label |
| Treemap.ProcessData | lib/chart/series/hierarchy/treemapSeries.ts:313-356 | no data gives false; a truthy non-string parent label throws; otherwise the root is decorated at depth 0 and the result has the hierarchy's shape |
| Treemap.PaddingTop | lib/chart/series/hierarchy/treemapSeries.ts:295-310 | a parent below the root whose title fits reserves the title height plus padding on both sides; every other node reserves the padding alone |
| Treemap.LabelTier | lib/chart/series/hierarchy/treemapSeries.ts:452-473 | leaves get one of the three leaf fonts; a parent gets the subtitle font iff it is deeper than 1 |
| Treemap.LeafTiers | lib/chart/series/hierarchy/treemapSeries.ts:460-467 | a leaf is large iff both inner sides exceed 40 and medium iff not large and both exceed 20; a bigger leaf never gets a smaller font |
| Treemap.GetTooltip | lib/chart/series/hierarchy/treemapSeries.ts:555-591 | the title is the label, or the root name at the root; the colour is the fill or 'gray'; the colour line appears iff a colour key and name are set and the field is a finite number |
| Treemap.TooltipColorLineNeedsKey | lib/chart/series/hierarchy/treemapSeries.ts:564-569 | without a colour key there is no colour line, even though the node is coloured by depth |
| Treemap.GetDomain | lib/chart/series/hierarchy/treemapSeries.ts:539-541 | the series spans [0, 1] on either axis |
| Treemap.ListSeriesItems | lib/chart/series/hierarchy/treemapSeries.ts:594 | a treemap adds no legend items |
| Treemap.SetNodePadding | lib/chart/series/hierarchy/treemapSeries.ts:160-167 | the setter acts iff the value strictly differs; then it stores it and runs the update as written, which clears node data pending, leaves an update pending iff node data was pending, and raises the chart flag in that case |
| Treemap.NodePaddingLeavesUpdatePending | lib/chart/series/hierarchy/treemapSeries.ts:365-376 | a fresh series whose padding changes ends with an update pending and the chart flagged again |
| Treemap.NodePaddingActsOnlyOnChange | lib/chart/series/hierarchy/treemapSeries.ts:160-167 | setting the same padding twice acts only once, except NaN, which acts every time |
| Legend.Pick | lib/chart/series/polar/pieSeries.ts:902-903 | a palette colour is picked by position modulo the palette size, and an empty palette gives undefined |
| Legend.SetData | lib/chart/legend.ts:260-267 | a data assignment always takes effect, and the group then shows iff there is data and the legend is enabled; nothing else changes |
| Legend.SetEnabled | lib/chart/legend.ts:273-280 | the flag acts only on change, and then the group shows iff the legend is enabled and has data |
| Legend.SetPosition | lib/chart/legend.ts:299-306 | the position is stored, and an unchanged position changes nothing |
| Legend.PositionSetsOrientation | lib/chart/legend.ts:355-366 | a new position right or left makes the legend vertical, top or bottom horizontal, and nothing else changes |
| Legend.VisibilityFollowsDataAndEnabled | lib/chart/legend.ts:347-353 | after a data assignment or a change of enabled, the group shows exactly when there is data and the legend is enabled |
| Legend.ItemKeyInjective | lib/chart/legend.ts:391-394 | item keys without '-' in the item id and shape name identify the component id, item id and shape |
| Legend.Opacities | lib/chart/legend.ts:566 | enabled items are drawn opaque and disabled ones at half opacity |
| Legend.MaxWidth | lib/chart/legend.ts:449-458 | a column's width bounds every item in it and is never negative |
| Legend.MaxWidthAttained | lib/chart/legend.ts:449-458 | a positive column width is the width of one of its items |
| Legend.ColumnCount | lib/chart/legend.ts:449-464 | a non-empty list fills at least one column, and at most one when the rows hold every item |
| Legend.ColumnCountIsCeiling | lib/chart/legend.ts:449-464 | the column count is the ceiling of the item count over the row count |
| Legend.HorizontalRows | lib/chart/legend.ts:437-466 | the horizontal search finds the least row count that fits the width or leaves a single column |
| Legend.VerticalSteps | lib/chart/legend.ts:477-510 | the vertical search halves the row count, rounding up, until the height fits or one row is left, and no earlier try fits |
| Legend.VerticalRowsChain | lib/chart/legend.ts:477-510 | the vertical search starts from the item count, gives 0 rows for no items and at least 1 otherwise, and its result fits |
| Legend.PackedWidthIsProduct | lib/chart/legend.ts:465 | the packed width is the item extent plus (columnCount - 1) * paddingX, with one column assumed when there are no rows |
| Legend.PackedHeightsAreProducts | lib/chart/legend.ts:468-509 | the horizontal height is itemHeight * rowCount and the vertical height the first column's height, each plus (rowCount - 1) * paddingY |
| Legend.SingleColumn | lib/chart/legend.ts:449-465 | with at least as many rows as items there is one column as wide as the widest item |
| Legend.EmptyLegendSize | lib/chart/legend.ts:437-510 | an empty horizontal legend has one row, height 0 and width -paddingX; an empty vertical one has 0 rows, width 0 and height -paddingY |
| Legend.MeasureColumns | lib/chart/legend.ts:440-465 | the measuring loop computes the sum of the column widths, the first column's height and the column count |
| Legend.HorizontalPacking | lib/chart/legend.ts:431-469 | the horizontal do-while loop settles on the least fitting row count, with the packed width and the height of that many first-item rows |
| Legend.VerticalPacking | lib/chart/legend.ts:471-510 | the vertical do-while loop settles on the halving search's row count, with the packed width and the first column's height |
| Legend.VerticalTry | lib/chart/legend.ts:484-509 | one vertical try measures the packed width and height for the given row count |
| Legend.OffsetDownColumn | lib/chart/legend.ts:522-540 | within a column the next item sits below the previous one, one height and one gap further down |
| Legend.OffsetNewColumn | lib/chart/legend.ts:522-540 | the item after a full column starts the next column at the top, one column width and gap further right |
| Legend.PlaceItems | lib/chart/legend.ts:518-540 | the placement loop gives every item the offset of its grid cell |
| Legend.AtLeastOne | lib/chart/legend.ts:428-429 | the clamped size is at least 1 when finite, and finite iff the input is finite or -Infinity |
| Legend.PerformLayout | lib/chart/legend.ts:388-556 | a non-finite governing size aborts and changes nothing; otherwise the row count comes from the search for the orientation, the size is the packed size, items are placed in their grid cells around a centred corner, and no event is fired |
| Polar.PaddingReassignRelayouts | lib/chart/polarChart.ts:12 | re-assigning the chart's current padding object leaves the chart as it was but still calls the 'padding' listeners and then the 'layoutChange' listeners |
| Polar.LegendInsets | lib/chart/polarChart.ts:34-58 | a hidden or empty legend takes no space from any side |
| Polar.ShrinkRectInsets | lib/chart/polarChart.ts:25-65 | the series rectangle starts after the left and top insets, and insets plus rectangle add up to the chart's width and height |
| Polar.SpacingOnLegendSide | lib/chart/polarChart.ts:41-57 | the legend spacing is taken from the legend's own side only |
| Polar.PerformLayout | lib/chart/polarChart.ts:24-79 | the series rectangle is the shrunk rectangle; every polar series is centred in it with half the smaller side as radius and updated, and other series are untouched |
| Polar.CircleFitsRect | lib/chart/polarChart.ts:67-76 | in a rectangle that is not inverted, a polar series' circle lies inside the series rectangle |
| GroupedCategory.Visible | lib/chart/groupedCategoryChart.ts:18-19 | the filter keeps no more series than it is given |
| GroupedCategory.ContributionsStep | lib/chart/groupedCategoryChart.ts:20-33 | one more visible series extends the collected domains exactly as the loop body does, and the numeric flag is set once, by the first series |
| GroupedCategory.CollectDomains | lib/chart/groupedCategoryChart.ts:15-34 | the per-axis loop collects the reference domains: all visible series' domains, except on X after a first domain that does not start with a number, when only that one |
| GroupedCategory.AxisDomainOf | lib/chart/groupedCategoryChart.ts:35-36 | the axis domain is the extent of the collected values when there is one, and the values themselves otherwise |
| GroupedCategory.UpdateAxes | lib/chart/groupedCategoryChart.ts:13-40 | every axis gets the domain computed from its own bound series |
| GroupedCategory.HiddenSeriesIgnored | lib/chart/groupedCategoryChart.ts:18-19 | a hidden series contributes nothing wherever it is bound |
| GroupedCategory.VisibleIsFilter | lib/chart/groupedCategoryChart.ts:18-19 | the filter keeps exactly the visible series |
| GroupedCategory.NonNumericXKeepsFirst | lib/chart/groupedCategoryChart.ts:21-30 | on X, a first visible domain not starting with a number is the whole collected domain |
| GroupedCategory.AllValuesCollected | lib/chart/groupedCategoryChart.ts:20-35 | off X, or when the first X domain is numeric, every value of every visible series' domain reaches the axis |
| Id.CreateId | lib/util/id.ts:1-9 | without a class name it throws; otherwise the counter advances by one from 0 and the id is the class name, '-' and the new count |
| Id.SuccessiveNumbers | lib/util/id.ts:8 | k successive calls number their instances start + 1 to start + k and leave the counter at start + k |
| Id.SuccessiveIdsDistinct | lib/util/id.ts:8 | successive ids of one class are pairwise distinct |
| Interpolate.Make | lib/interpolate/object.ts:3-21 | keys of b that the `in` test finds in a (its enumerable fields, its non-enumerable and inherited properties, or Object.prototype's for a non-object) get an interpolator of the two values; the other keys of b are copied; keys of a alone are dropped; a non-object b enumerates nothing |
| Interpolate.At | lib/interpolate/object.ts:23-28 | a call sets every interpolated key to its value at t and keeps the copied keys |
| Interpolate.InterpolatedObject | lib/interpolate/object.ts:3-29 | the object returned has exactly b's keys: shared ones at their interpolated value, the others as in b |
| Interpolate.HiddenKeyInterpolated | lib/interpolate/object.ts:15-17 | a key of b that a has only as a non-enumerable or inherited property, such as an array's 'length', is interpolated from that property rather than copied |
| Interpolate.LaterCallOverwrites | lib/interpolate/object.ts:23-28 | the result object is reused: after calls at t1 and t2 it holds what one call at t2 gives |
| Interpolate.NonObjectsAreEmpty | lib/interpolate/object.ts:7-12 | a non-object a reads as `{}`: b's keys that Object.prototype has are interpolated from it and the rest are copied; a non-object b gives an empty result |
| Redecorate.GetIndent | redecorate.js:14-17 | the indent is the leading white space of the line: it is all white space and followed by the trimmed line |
| Redecorate.Expand | redecorate.js:24-28 | a line without the decorator, or a line comment, comes back unchanged |
| Redecorate.Scan | redecorate.js:29-44 | an '=' is only taken as the initializer when it is not the arrow of a function type; otherwise the value ends at the semicolon or end of line |
| Redecorate.Read | redecorate.js:45-54 | an initializer is read exactly when there is an '=' that is not a function type's, and the events are the decorator's arguments |
| Redecorate.TypeOf | redecorate.js:60-73 | an explicit type already containing '\| undefined' is kept as written |
| Redecorate.Render | redecorate.js:75-101 | the expansion is the field, setter and getter, twelve lines plus one firing the events when there are events; the object check is added to the setter's change test for non-primitive types; the last line is empty |
| Redecorate.EventsRoundTrip | redecorate.js:46-57 | the quoted event list the setter fires reads back as the same events |
| Redecorate.ParsePrint | redecorate.js:24-73 | a well-formed declaration (decorator with events, key, optional mark, type, initializer) is read back as the key, events, type and initializer it was written with |
| Redecorate.DeclaredType | redecorate.js:60-73 | the type rules give the declared type: the explicit type, widened by '\| undefined' for an optional key, or the type inferred from the initializer |
| Redecorate.ExpansionIs | redecorate.js:81-103 | an expanded line is the rendered declaration, each line indented and blank lines left empty, joined by line feeds |
| Redecorate.ExpansionOpensWithField | redecorate.js:79-96 | the expansion starts with the indent and the private field named after the key |
| Redecorate.ExpandedDiffers | redecorate.js:24-103 | an unindented decorated line not starting with 'p' is always changed by the expansion |
| Redecorate.MarkOf | redecorate.js:109-114 | as written, a line opens a comment block when its trimmed text starts with '/*' (corrected: and does not close the comment itself), and closes one when it does not open and starts with '*/' |
| Redecorate.CountAndExpand | redecorate.js:106-120 | the loop keeps the comment depth, never below zero: a line inside a block comes back as it is, any other is expanded with its own indent |
| Redecorate.TransformLines | redecorate.js:106-120 | every line comes out at its own position, as the block depth at that line says |
| Redecorate.BlockLinesVerbatim | redecorate.js:110-117 | every line from a block opener up to the next closer is left verbatim |
| Redecorate.OneLineCommentSuppressesExpansion | redecorate.js:110-114 | a one-line '/** doc */' opens a block that no line closes, so the declaration after it is not expanded, where the corrected counter expands it |
| Redecorate.SelfClosedCommentTransparent | redecorate.js:106-119 | with the corrected counting, a comment opened and closed on one line changes no later line's output: each comes out as it would without that line |
| Redecorate.Declaration1Changes | redecorate.js:24-103 | the unindented declaration `@reactive() x = 1;` is changed by the expansion |
| Redecorate.YesParse | redecorate.js:29-73 | the golden test's `  @reactive() yes = true;` reads as key 'yes', type ': boolean' (from the initializer), no events and initializer 'true' |
| Redecorate.YesExpandsAsExpected | redecorate.test.js:91-102 | the expansion of the golden test's line 14, `  @reactive() yes = true;`, is exactly the twelve lines the test expects for it, joined by newlines |
| Convert.FindChild | examples/treemap-test/convert.ts:77-79 | the first child carrying the path part in the path field, or -1 when none does |
| Convert.Insert | examples/treemap-test/convert.ts:68-95 | an insertion keeps the node's own fields and its existing children's fields, gives every node on the path a children array, and appends at most one child, named by the next path part |
| Convert.InsertReaches | examples/treemap-test/convert.ts:72-94 | after an insertion the whole path leads to a node |
| Convert.InsertExisting | examples/treemap-test/convert.ts:77-80 | inserting along a path that already exists changes nothing, so the row's other fields are not merged into an existing node |
| Convert.InsertIdempotent | examples/treemap-test/convert.ts:68-95 | inserting a second row along the same path leaves the tree as the first insertion made it |
| Convert.InsertNew | examples/treemap-test/convert.ts:80-92 | along a path not yet present, the node at its end is a copy of the row named by the last part, without children |
| Convert.InsertKeepsPaths | examples/treemap-test/convert.ts:73-92 | an insertion only adds: every path that led to a node still does |
| Convert.InsertKeepsValid | examples/treemap-test/convert.ts:77-92 | insertion keeps siblings distinct by name, since a new child is created only when no sibling has the name |
| Convert.InsertAllReaches | examples/treemap-test/convert.ts:61-63 | after inserting every row, every row's path leads to a node and the tree is still well formed |
| Convert.InsertAllKeepsPaths | examples/treemap-test/convert.ts:61-63 | inserting rows one after another never removes a path |
| Convert.ConvertGridTreeData | examples/treemap-test/convert.ts:58-66 | the converted root has no fields of its own, its tree is well formed, and every sample row's hierarchy leads to a node |

## Left out

- Keyed selection diffing (enter, exit, merge) and the scene nodes (rectangles, sectors, text, groups). The series' node data is modelled; writing it into nodes is not. Legend items are laid out in data order, which is what the selection's merge yields.
- The chart orchestrator and the axes. Only the series' flag latches into the chart are modelled.
- Scales, `extent`, `findMinMax`, `isNumber`, `checkDomainXY`/`checkRangeXY`, `getMarker`, text measurement, the hierarchy layout and the per-value interpolator. These code paths are not part of this model, so each arrives as a parameter.
- Trigonometry and float rounding. This covers the pie's label quadrants and text alignment, `toRadians` (the angle scale arrives as `convert`), and `Math.floor` in legend item positions. Numbers are exact reals.
- Tooltip HTML formatting and sanitising. Only the tooltip's gating and line order are modelled.
- The pie tooltip and the pie's label placement beyond the gating of `SliceLabel`.
- The legend's own reactive style setters and the events they fire. Also its marker and label nodes.
- `console.warn` logging.
- The golden whole-file test of `redecorate.js` (redecorate.test.js:3-198). The generator is modelled line by line, and one declaration of that test, line 14, is checked against its expected block in `Redecorate.YesExpandsAsExpected`.
- File discovery, git and file writes of `redecorate.js`.
- `convert.js`, the earlier variant of the same expander.
- Type-only and theme files, the library's re-exports, DOM and canvas plumbing, the other browser demos, and the build configuration.
- Js.ToNumber: only the empty string converts from text (to 0); every other string, numeric text included, converts to NaN. JavaScript's string-to-number grammar (decimal, exponent and hex forms, surrounding white space, 'Infinity') is not modelled. The bar, pie and scatter data paths meet it when a field holds text.
- BarData.YValue: a field holding numeric text such as "5" passes the global `isFinite`, and the source stores the string itself, which later takes part in the stack sums; the model stores 0 for any string.
- Pie.AngleValue: unary `+` parses numeric text, so the source's angle for "5" is 5; the model's is 0.
- Pie.SliceRadii: `Math.abs` parses numeric text the same way, so the source's radius for "5" is 5; the model's is NaN.
- JsString: positions and lengths count Unicode scalar values; JavaScript counts UTF-16 code units, so they differ on lines holding characters outside the Basic Multilingual Plane.
- Js.Upper: upper-cases ASCII letters only. Other Unicode case mappings are not modelled.
- Redecorate.ParsePrint: the round trip is stated for declarations whose key and events are identifiers, whose optional keys carry an explicit type, and whose type and initializer text contains no '=', ';' or '?'. An initializer without a type must also contain no ':'. Function types (`=>`) are covered by `Redecorate.Scan` and `Redecorate.Read` only.
- Id.CreateId: the constructor's statics are read directly. A counter inherited through the prototype chain is not modelled.
- Interpolate.Make: the enumerated keys are a map, so their enumeration order is not modelled; which properties an object has beyond them, and Object.prototype's, arrive as data.
- Convert.ConvertGridTreeData: the `data` argument is ignored, as in the source. Rows are assumed to carry no `children` field of their own.
- Series.FixNumericExtentOrdered: stated with finiteness standing for the `isNumber` collaborator.

## Findings

| source | as written | input that shows it | evidently intended | confidence | as-written member | corrected member |
|---|---|---|---|---|---|---|
| lib/chart/series/cartesian/barSeries.ts:751-762 | `update()` clears `updatePending` first and then sets `nodeDataPending = false`, whose setter sets `updatePending` back to true and raises the chart's flag | a series with node data pending in a chart whose `updatePending` was just cleared | after a pass nothing is pending: clear `nodeDataPending` before `updatePending` | medium, not executed | Series.UpdateAsWrittenLeavesUpdatePending | Series.UpdateClearsEverything |
| lib/chart/series/cartesian/barSeries.ts:535-543 | with `normalizedTo` set, a value `y >= 0` is rescaled as `y / max * normalizedTo` | a stack whose values are all 0 (a single disabled key, say): 0 / 0 gives NaN | a zero stays zero and every value lies in [-normalizedTo, normalizedTo] | low, not executed | BarData.RescaleAsWrittenZeroStack | BarData.NormalisedValuesBounded |
| redecorate.js:106-119 | any line whose trimmed text starts with '/*' opens a comment block, which only a line starting with '*/' closes | a one-line `/** doc */` followed by `@reactive() x = 1;` | a comment closed on its own line opens no block, so the declaration after it is expanded | medium, not executed | Redecorate.OneLineCommentSuppressesExpansion | Redecorate.SelfClosedCommentTransparent |
