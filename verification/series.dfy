/** The series base class: its reactive properties, the two dirty-flag
    latches into the chart, the highlight helpers, key lookup and extent repair. */
module Series {
  import opened Js
  import opened Observable
  import opened Reactive

  /** Axis directions a series reports keys and domains for. */
  datatype Direction = X | Y

  // ---------------------------------------------------------------------------
  // Reactive properties

  /** `data`: object-checked, so any array assignment fires, even the same one. */
  const DataProp := Prop("data", Undefined, ["dataChange"], true)
  /** `visible`: strict comparison, fires 'dataChange'. */
  const VisibleProp := Prop("visible", Bool(true), ["dataChange"], false)
  /** `showInLegend`: strict comparison, fires 'layoutChange'. */
  const ShowInLegendProp := Prop("showInLegend", Bool(true), ["layoutChange"], false)
  /** `SeriesTooltip.enabled`: strict comparison, fires 'change'. */
  const TooltipEnabledProp := Prop("enabled", Bool(true), ["change"], false)

  const SeriesProps := [DataProp, VisibleProp, ShowInLegendProp]

  /** A fresh series: data undefined, visible and shown in the legend. */
  function NewSeries(self: nat): (c: Component)
    ensures forall p :: p in SeriesProps ==> Get(c, p.name) == p.default
  {
    Component(NewObservable(self), map["data" := Undefined, "visible" := Bool(true), "showInLegend" := Bool(true)])
  }

  /** `visible` and `showInLegend` fire only on a strict change, with their own categories. */
  lemma VisibilitySettersFireOnChange(c: Component, b: bool)
    ensures Set(c, VisibleProp, Bool(b)).calls != [] ==> Get(c, "visible") != Bool(b)
    ensures Get(c, "visible") != Bool(b) ==>
              Set(c, VisibleProp, Bool(b)).calls
              == NotifyPropertyListeners(c.obs, "visible", Get(c, "visible"), Bool(b)) + NotifyEventListeners(c.obs, ["dataChange"])
    ensures Get(c, "showInLegend") != Bool(b) ==>
              Set(c, ShowInLegendProp, Bool(b)).calls
              == NotifyPropertyListeners(c.obs, "showInLegend", Get(c, "showInLegend"), Bool(b))
                 + NotifyEventListeners(c.obs, ["layoutChange"])
    ensures Get(c, "showInLegend") == Bool(b) ==> Set(c, ShowInLegendProp, Bool(b)) == Outcome(c, [])
  {
  }

  /** The default `toggleSeriesItem(itemId, enabled)`: `visible = enabled`. */
  function ToggleSeriesItem(c: Component, enabled: bool): (r: Outcome)
    ensures Get(r.c, "visible") == Bool(enabled)
    ensures forall n :: n != "visible" ==> Get(r.c, n) == Get(c, n)
    ensures Get(c, "visible") == Bool(enabled) ==> r.calls == []
  {
    Set(c, VisibleProp, Bool(enabled))
  }

  /** `scheduleData`: fires a 'dataChange' event. */
  function ScheduleData(o: Observable): (r: seq<Call>)
    ensures forall call :: call in r ==> call.event == Fired("dataChange", map[], o.self)
  {
    FireEvent(o, "dataChange", map[])
  }

  /** `scheduleLayout`: fires a 'layoutChange' event. */
  function ScheduleLayout(o: Observable): (r: seq<Call>)
    ensures forall call :: call in r ==> call.event == Fired("layoutChange", map[], o.self)
  {
    FireEvent(o, "layoutChange", map[])
  }

  // ---------------------------------------------------------------------------
  // Dirty flags

  /** The two latches of a series, and the chart's own update flag when the
      series is attached to a chart. */
  datatype Flags = Flags(nodeDataPending: bool, updatePending: bool, chartUpdatePending: Option<bool>)

  /** A new series: node data pending, no update pending. */
  function InitialFlags(chart: Option<bool>): (f: Flags)
    ensures f.nodeDataPending && !f.updatePending && f.chartUpdatePending == chart
  {
    Flags(true, false, chart)
  }

  /** Marks the chart as needing an update, when there is one. */
  function RaiseChart(f: Flags): (r: Flags)
    ensures r.nodeDataPending == f.nodeDataPending && r.updatePending == f.updatePending
    ensures r.chartUpdatePending.Some? <==> f.chartUpdatePending.Some?
    ensures r.chartUpdatePending.Some? ==> r.chartUpdatePending.value
  {
    if f.chartUpdatePending.Some? then f.(chartUpdatePending := Some(true)) else f
  }

  /** The `updatePending` setter. */
  function SetUpdatePending(f: Flags, value: bool): (r: Flags)
    ensures r.updatePending == value && r.nodeDataPending == f.nodeDataPending
  {
    if f.updatePending != value then
      var g := f.(updatePending := value);
      if value then RaiseChart(g) else g
    else f
  }

  /** The `nodeDataPending` setter: any change also assigns `updatePending = true`. */
  function SetNodeDataPending(f: Flags, value: bool): (r: Flags)
    ensures r.nodeDataPending == value
  {
    if f.nodeDataPending != value then
      var g := SetUpdatePending(f.(nodeDataPending := value), true);
      if value then RaiseChart(g) else g
    else f
  }

  /** The chart flag is a one-way latch: these setters never lower it, and
      they never attach or detach a chart. */
  lemma ChartFlagIsLatch(f: Flags, b: bool)
    ensures SetUpdatePending(f, b).chartUpdatePending.Some? <==> f.chartUpdatePending.Some?
    ensures SetNodeDataPending(f, b).chartUpdatePending.Some? <==> f.chartUpdatePending.Some?
    ensures f.chartUpdatePending == Some(true) ==> SetUpdatePending(f, b).chartUpdatePending == Some(true)
    ensures f.chartUpdatePending == Some(true) ==> SetNodeDataPending(f, b).chartUpdatePending == Some(true)
  {
  }

  /** `updatePending` changes only when different; a change to true reaches
      the chart, a change to false never does. */
  lemma UpdatePendingPropagation(f: Flags, b: bool)
    requires f.chartUpdatePending.Some?
    ensures SetUpdatePending(f, b).chartUpdatePending.value
            <==> f.chartUpdatePending.value || (b && !f.updatePending)
    ensures f.updatePending == b ==> SetUpdatePending(f, b) == f
  {
  }

  /** Any actual change of `nodeDataPending`, in either direction, leaves
      `updatePending` set. The chart is raised by a change to true, and also by
      a change to false when `updatePending` was clear, because the inner
      `updatePending = true` raises it. */
  lemma NodeDataPendingPropagation(f: Flags, b: bool)
    requires f.chartUpdatePending.Some?
    ensures f.nodeDataPending != b ==> SetNodeDataPending(f, b).updatePending
    ensures f.nodeDataPending == b ==> SetNodeDataPending(f, b) == f
    ensures SetNodeDataPending(f, b).chartUpdatePending.value
            <==> f.chartUpdatePending.value || (f.nodeDataPending != b && (b || !f.updatePending))
  {
  }

  /** Every series' `update()` as written: clear `updatePending`, then (in
      `updateSelections`) clear `nodeDataPending` when it was set. The pass
      ends with an update pending exactly when it consumed node data, and it
      raises the chart's flag in that case too. */
  function UpdateAsWritten(f: Flags): (r: Flags)
    ensures !r.nodeDataPending
    ensures r.updatePending <==> f.nodeDataPending
    ensures r.chartUpdatePending.Some? <==> f.chartUpdatePending.Some?
    ensures r.chartUpdatePending.Some? ==>
              (r.chartUpdatePending.value <==> f.chartUpdatePending.value || f.nodeDataPending)
  {
    var g := SetUpdatePending(f, false);
    if g.nodeDataPending then SetNodeDataPending(g, false) else g
  }

  /** After an update pass that consumed pending node data, the series still
      reports an update pending and the chart is re-flagged. */
  lemma UpdateAsWrittenLeavesUpdatePending(f: Flags)
    requires f.nodeDataPending && f.chartUpdatePending == Some(false)
    ensures UpdateAsWritten(f).updatePending
    ensures UpdateAsWritten(f).chartUpdatePending == Some(true)
  {
  }

  /** A concrete instance: a fresh series in a chart whose flag the chart has
      just cleared. */
  lemma UpdateAsWrittenExample()
    ensures UpdateAsWritten(InitialFlags(Some(false))) == Flags(false, true, Some(true))
  {
  }

  /** `update()` with the flags cleared in dependency order: node data first,
      then the update flag, so that the pass ends with nothing pending. */
  function Update(f: Flags): (r: Flags)
    ensures !r.nodeDataPending && !r.updatePending
  {
    var g := if f.nodeDataPending then SetNodeDataPending(f, false) else f;
    SetUpdatePending(g, false)
  }

  /** The corrected pass clears both series flags, and reaches the chart only
      where the as-written pass does too. */
  lemma UpdateClearsEverything(f: Flags)
    requires f.chartUpdatePending.Some?
    ensures !Update(f).nodeDataPending && !Update(f).updatePending
    ensures Update(f).chartUpdatePending.value ==> UpdateAsWritten(f).chartUpdatePending.value
    ensures !f.nodeDataPending ==> Update(f) == UpdateAsWritten(f)
    ensures Update(Update(f)) == Update(f)
  {
  }

  // ---------------------------------------------------------------------------
  // Highlight helpers

  /** The chart's highlighted datum: the series it belongs to and its item id. */
  datatype Highlighted = Highlighted(series: nat, itemId: JsValue)

  /** The series (or the given datum of it) is the highlighted one: a chart
      exists, something is highlighted, it belongs to this series, and either no
      datum was given or its item id is strictly equal. */
  predicate HighlightMatches(chart: Option<Option<Highlighted>>, self: nat, datumItemId: Option<JsValue>) {
    chart.Some? && chart.value.Some? && chart.value.value.series == self
    && (datumItemId.None? || StrictEquals(chart.value.value.itemId, datumItemId.value))
  }

  /** `getOpacity(datum?)`; `chart` is absent, or holds the optional highlighted datum. */
  function GetOpacity(chart: Option<Option<Highlighted>>, self: nat, dimOpacity: Option<Num>,
                      datumItemId: Option<JsValue>): (r: Num)
    ensures r == One || r == dimOpacity.GetOr(One)
    ensures chart.None? || chart.value.None? ==> r == One
    ensures HighlightMatches(chart, self, datumItemId) ==> r == One
    ensures chart.Some? && chart.value.Some? && !HighlightMatches(chart, self, datumItemId) ==> r == dimOpacity.GetOr(One)
  {
    if chart.None? || chart.value.None? || HighlightMatches(chart, self, datumItemId) then One
    else dimOpacity.GetOr(One)
  }

  /** `getStrokeWidth(default, datum?)`. */
  function GetStrokeWidth(defaultWidth: Num, chart: Option<Option<Highlighted>>, self: nat,
                          strokeWidth: Option<Num>, datumItemId: Option<JsValue>): (r: Num)
    ensures HighlightMatches(chart, self, datumItemId) && strokeWidth.Some? ==> r == strokeWidth.value
    ensures !(HighlightMatches(chart, self, datumItemId) && strokeWidth.Some?) ==> r == defaultWidth
  {
    if HighlightMatches(chart, self, datumItemId) && strokeWidth.Some? then strokeWidth.value else defaultWidth
  }

  /** The two helpers agree: a dimmed datum keeps its default stroke width, and
      a datum drawn with the highlight stroke width is never dimmed. */
  lemma DimmedMeansDefaultStroke(defaultWidth: Num, chart: Option<Option<Highlighted>>, self: nat,
                                 dimOpacity: Option<Num>, strokeWidth: Option<Num>, datumItemId: Option<JsValue>)
    requires dimOpacity.GetOr(One) != One
    ensures GetOpacity(chart, self, dimOpacity, datumItemId) != One
            ==> GetStrokeWidth(defaultWidth, chart, self, strokeWidth, datumItemId) == defaultWidth
    ensures strokeWidth.Some? && GetStrokeWidth(defaultWidth, chart, self, strokeWidth, datumItemId) != defaultWidth
            ==> GetOpacity(chart, self, dimOpacity, datumItemId) == One
  {
  }

  // ---------------------------------------------------------------------------
  // Keys

  /** The value of a key field: a plain value, or an array (as `yKeys` is). */
  datatype KeyValue = Single(v: JsValue) | Many(items: seq<JsValue>)

  /** What one key field contributes: nothing if falsy, its items if an
      array (arrays are always truthy), else the value itself. */
  function KeyContribution(kv: KeyValue): (r: seq<JsValue>)
    ensures kv.Single? ==> (r == [] <==> !Truthy(kv.v))
    ensures kv.Single? && Truthy(kv.v) ==> r == [kv.v]
    ensures kv.Many? ==> r == kv.items
  {
    match kv
    case Single(v) => if Truthy(v) then [v] else []
    case Many(items) => items
  }

  /** A value `getKeys` may return for field `kv`: the truthy plain value, or
      one of the array's items. */
  predicate ContributedBy(kv: KeyValue, v: JsValue) {
    (kv == Single(v) && Truthy(v)) || (kv.Many? && v in kv.items)
  }

  /** `getKeys(direction)` over the direction's key field names: every
      value comes from some field, and every field's truthy plain value or
      array item is there. */
  function GetKeys(keys: seq<string>, field: string -> KeyValue): (r: seq<JsValue>)
    ensures forall v :: v in r ==> exists i :: 0 <= i < |keys| && ContributedBy(field(keys[i]), v)
    ensures forall i, v :: 0 <= i < |keys| && ContributedBy(field(keys[i]), v) ==> v in r
  {
    if keys == [] then []
    else
      var rest := GetKeys(keys[1..], field);
      assert forall i :: 0 < i < |keys| ==> keys[i] == keys[1..][i - 1];
      assert forall j :: 0 <= j < |keys[1..]| ==> keys[1..][j] == keys[j + 1];
      KeyContribution(field(keys[0])) + rest
  }

  /** Keys come out in field order, each field's contribution contiguous. */
  lemma {:induction false} GetKeysAppend(a: seq<string>, b: seq<string>, field: string -> KeyValue)
    ensures GetKeys(a + b, field) == GetKeys(a, field) + GetKeys(b, field)
  {
    if a == [] {
      assert a + b == b;
    } else {
      assert (a + b)[0] == a[0];
      assert (a + b)[1..] == a[1..] + b;
      GetKeysAppend(a[1..], b, field);
    }
  }

  /** The truthy values of `vs`, in order. */
  function TruthyOnly(vs: seq<JsValue>): (r: seq<JsValue>)
    ensures forall v :: v in r <==> v in vs && Truthy(v)
  {
    if vs == [] then [] else (if Truthy(vs[0]) then [vs[0]] else []) + TruthyOnly(vs[1..])
  }

  /** The plain values of the fields, in field order. */
  function PlainValues(keys: seq<string>, field: string -> KeyValue): (vs: seq<JsValue>)
    requires forall i :: 0 <= i < |keys| ==> field(keys[i]).Single?
    ensures |vs| == |keys| && forall i :: 0 <= i < |keys| ==> vs[i] == field(keys[i]).v
  {
    seq(|keys|, i requires 0 <= i < |keys| => field(keys[i]).v)
  }

  /** Without array-valued fields, the result is exactly the truthy field
      values in field order. */
  lemma {:induction false} GetKeysOfPlainFields(keys: seq<string>, field: string -> KeyValue)
    requires forall i :: 0 <= i < |keys| ==> field(keys[i]).Single?
    ensures GetKeys(keys, field) == TruthyOnly(PlainValues(keys, field))
  {
    if keys != [] {
      assert forall i :: 0 <= i < |keys[1..]| ==> keys[1..][i] == keys[i + 1];
      GetKeysOfPlainFields(keys[1..], field);
      assert PlainValues(keys, field)[1..] == PlainValues(keys[1..], field);
    }
  }

  // ---------------------------------------------------------------------------
  // Extent repair

  /** `fixNumericExtent(extent)`. `isNumber` is the library's value test, which
      is not part of this model. */
  function FixNumericExtent(extent: Option<(Num, Num)>, isNumber: Num -> bool): (r: (Num, Num))
    ensures extent.None? ==> r == (Zero, One)
    ensures r == (Zero, One) || (isNumber(r.0) && isNumber(r.1))
    ensures (extent.Some? && !NumEq(extent.value.0, extent.value.1)
             && isNumber(extent.value.0) && isNumber(extent.value.1)) ==> r == extent.value
  {
    if extent.None? then (Zero, One)
    else
      var (min0, max0) := extent.value;
      var (min, max) :=
        if NumEq(min0, max0) then Widen(min0) else (min0, max0);
      if !(isNumber(min) && isNumber(max)) then (Zero, One) else (min, max)
  }

  predicate IsFiniteNum(n: Num) { n.Fin? }

  /** A single value `v` padded by `Math.abs(v * 0.01)` on each side. For a
      finite `v` the padding is |v| / 100; `v * 0.01` keeps an infinity (whose
      absolute value is +Infinity) and NaN. */
  function Widen(v: Num): (r: (Num, Num))
    ensures v.Fin? ==> r == (Fin(v.r - (if v.r < 0.0 then -v.r else v.r) * 0.01),
                             Fin(v.r + (if v.r < 0.0 then -v.r else v.r) * 0.01))
    ensures v.NaN? ==> r.0.NaN? && r.1.NaN?
  {
    var padding := if v.Fin? then Fin((if v.r < 0.0 then -v.r else v.r) * 0.01) else Abs(v);
    (Sub(v, padding), Add(v, padding))
  }

  /** With finiteness as the number test, a finite single-value extent v is
      widened to [v - |v|/100, v + |v|/100]; a zero extent stays [0, 0]. */
  lemma FixNumericExtentWidens(v: real)
    ensures FixNumericExtent(Some((Fin(v), Fin(v))), IsFiniteNum) == Widen(Fin(v))
    ensures FixNumericExtent(Some((Zero, Zero)), IsFiniteNum) == (Zero, Zero)
  {
    WidenSingle(v);
    WidenSingle(0.0);
    WidenZero();
  }

  lemma WidenSingle(v: real)
    ensures FixNumericExtent(Some((Fin(v), Fin(v))), IsFiniteNum) == Widen(Fin(v))
  {
    var w := Widen(Fin(v));
    assert NumEq(Fin(v), Fin(v));
    assert IsFiniteNum(w.0) && IsFiniteNum(w.1);
  }

  lemma WidenZero()
    ensures Widen(Zero) == (Zero, Zero)
  {
    assert 0.0 * 0.01 == 0.0;
  }

  /** With finiteness as the number test, the result is finite and ordered
      whenever the input was ordered (or missing, or not finite). */
  lemma FixNumericExtentOrdered(extent: Option<(Num, Num)>)
    requires extent.Some? && extent.value.0.Fin? && extent.value.1.Fin? ==> extent.value.0.r <= extent.value.1.r
    ensures var r := FixNumericExtent(extent, IsFiniteNum);
            r.0.Fin? && r.1.Fin? && r.0.r <= r.1.r
  {
    if extent.Some? && NumEq(extent.value.0, extent.value.1) && extent.value.0.Fin? {
      var v := extent.value.0.r;
      FixNumericExtentWidens(v);
    }
  }

  /** A domain handed to an axis: the values themselves for a band scale,
      a numeric extent for a continuous one. */
  datatype AxisDomain = Values(values: seq<JsValue>) | Bounds(bounds: (Num, Num))

  // ---------------------------------------------------------------------------
  // Rows and node-data gating

  /** A data row: field name to value; a missing field reads as undefined. */
  type Row = map<string, JsValue>

  function Field(row: Row, key: string): (v: JsValue)
    ensures key !in row ==> v == Undefined
  {
    if key in row then row[key] else Undefined
  }

  /** What `createNodeData` of the cartesian series checks before building
      nodes: a chart, data, visibility and both axes, with neither a layout
      nor a data pass pending on the chart. */
  datatype Gate = Gate(chart: bool, data: bool, visible: bool, xAxis: bool, yAxis: bool,
                       layoutPending: bool, dataPending: bool)

  predicate Ready(g: Gate) {
    g.chart && g.data && g.visible && g.xAxis && g.yAxis && !g.layoutPending && !g.dataPending
  }
}
