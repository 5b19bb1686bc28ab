/** The scatter series: its key setters and the cached projections they
    invalidate, data processing, the node-data filter, marker visibility,
    the legend item and the tooltip's gating and line order.

    The axes' scales are outside this model. Placing a row (checking its x
    and y against the axis domains, converting them and adding the band
    offsets) arrives as `place`, the range check as `inRange`, the size
    scale as `sizeOf`, `extent` and `isNumber` as parameters of the same
    names, and `String(value)` as `show`. */
module Scatter {
  import opened Js
  import Legend
  import Series
  import Observable

  /** The scatter series state. Keys are options: `undefined` is None.
      `xKey` and `yKey` start as '' and the size and label keys as undefined. */
  datatype ScatterSeries = ScatterSeries(
    xKey: Option<string>, yKey: Option<string>, sizeKey: Option<string>, labelKey: Option<string>,
    title: Option<string>, xName: string, yName: string, sizeName: Option<string>, labelName: Option<string>,
    data: Option<seq<Series.Row>>, visible: bool,
    markerEnabled: bool, markerSize: Num, markerFill: Option<string>, markerStroke: Option<string>,
    markerDomain: Option<(Num, Num)>,
    xData: seq<JsValue>, yData: seq<JsValue>, sizeData: seq<JsValue>, labelTexts: seq<string>,
    xDomain: Series.AxisDomain, yDomain: Series.AxisDomain, sizeDomain: (Num, Num))

  /** A new scatter series: empty keys, size and label names 'Size' and
      'Label', a 6px enabled marker, nothing cached. */
  function NewScatter(): (s: ScatterSeries)
    ensures s.xKey == Some("") && s.yKey == Some("") && s.sizeKey.None? && s.labelKey.None? && s.data.None?
    ensures s.sizeName == Some("Size") && s.labelName == Some("Label")
    ensures s.markerEnabled && s.markerSize == Fin(6.0)
    ensures s.xData == [] && s.yData == [] && s.sizeData == [] && s.labelTexts == []
  {
    ScatterSeries(Some(""), Some(""), None, None, None, "", "", Some("Size"), Some("Label"), None, true,
                  true, Fin(6.0), None, None, None, [], [], [], [], Series.Values([]), Series.Values([]), (One, One))
  }

  /** `a || b` on optional strings. */
  function Or(a: Option<string>, b: string): (r: string)
    ensures IsSet(a) ==> r == a.value
    ensures !IsSet(a) ==> r == b
  {
    if IsSet(a) then a.value else b
  }

  // ---------------------------------------------------------------------------
  // Key setters

  datatype Key = XKey | YKey | SizeKey | LabelKey

  function KeyName(k: Key): string {
    match k
    case XKey => "xKey"
    case YKey => "yKey"
    case SizeKey => "sizeKey"
    case LabelKey => "labelKey"
  }

  /** The current value of a key, `undefined` as None. */
  function KeyOf(s: ScatterSeries, k: Key): Option<string> {
    match k
    case XKey => s.xKey
    case YKey => s.yKey
    case SizeKey => s.sizeKey
    case LabelKey => s.labelKey
  }

  function AsJs(v: Option<string>): JsValue {
    if v.Some? then Str(v.value) else Undefined
  }

  /** Setting a key: a strict change stores it, notifies the key's property
      listeners and fires 'dataChange'. The constructor's property listeners on
      xKey, yKey and sizeKey empty the matching cached projection. */
  function SetKey(s: ScatterSeries, o: Observable.Observable, k: Key, value: Option<string>)
    : (r: (ScatterSeries, seq<Observable.Call>))
    ensures value == KeyOf(s, k) ==> r == (s, [])
    ensures value != KeyOf(s, k) ==>
              r.1 == Observable.NotifyPropertyListeners(o, KeyName(k), AsJs(KeyOf(s, k)), AsJs(value))
                     + Observable.NotifyEventListeners(o, ["dataChange"])
    ensures value != KeyOf(s, k) ==> KeyOf(r.0, k) == value
    ensures value != KeyOf(s, k) ==>
              (k == XKey ==> r.0 == s.(xKey := value, xData := []))
              && (k == YKey ==> r.0 == s.(yKey := value, yData := []))
              && (k == SizeKey ==> r.0 == s.(sizeKey := value, sizeData := []))
              && (k == LabelKey ==> r.0 == s.(labelKey := value))
  {
    var current := KeyOf(s, k);
    if value == current then (s, [])
    else
      var t := match k
        case XKey => s.(xKey := value, xData := [])
        case YKey => s.(yKey := value, yData := [])
        case SizeKey => s.(sizeKey := value, sizeData := [])
        case LabelKey => s.(labelKey := value);
      (t, Observable.NotifyPropertyListeners(o, KeyName(k), AsJs(current), AsJs(value))
          + Observable.NotifyEventListeners(o, ["dataChange"]))
  }

  /** Assigning a key the value it already holds, `undefined` included, is a
      no-op: strict equality holds between equal strings and between two
      `undefined`s. */
  lemma SetKeyRepeatIsNoOp(s: ScatterSeries, o: Observable.Observable, k: Key, value: Option<string>)
    ensures var first := SetKey(s, o, k, value).0;
            SetKey(first, o, k, value) == (first, [])
  {
  }

  // ---------------------------------------------------------------------------
  // processData

  /** The rows `processData` projects: none unless x key, y key and data are set. */
  function Rows(s: ScatterSeries): (rows: seq<Series.Row>)
    ensures IsSet(s.xKey) && IsSet(s.yKey) && s.data.Some? ==> rows == s.data.value
    ensures !(IsSet(s.xKey) && IsSet(s.yKey) && s.data.Some?) ==> rows == []
  {
    if IsSet(s.xKey) && IsSet(s.yKey) && s.data.Some? then s.data.value else []
  }

  /** `rows.map(d => d[key])`. */
  function Project(rows: seq<Series.Row>, key: string): (vs: seq<JsValue>)
    ensures |vs| == |rows| && forall i :: 0 <= i < |rows| ==> vs[i] == Series.Field(rows[i], key)
  {
    seq(|rows|, i requires 0 <= i < |rows| => Series.Field(rows[i], key))
  }

  /** The domain of an axis: the repaired extent for a continuous scale,
      the data itself otherwise. */
  function DomainOf(values: seq<JsValue>, continuous: bool, extent: seq<JsValue> -> Option<(Num, Num)>,
                    isNumber: Num -> bool): (d: Series.AxisDomain)
    ensures continuous <==> d.Bounds?
    ensures !continuous ==> d.values == values
  {
    if continuous then Series.Bounds(Series.FixNumericExtent(extent(values), isNumber)) else Series.Values(values)
  }

  /** `processData`. `axes` is None when an axis is missing, else whether
      the x and y scales are continuous. Without axes nothing changes and the
      result is false. */
  function ProcessData(s: ScatterSeries, axes: Option<(bool, bool)>, extent: seq<JsValue> -> Option<(Num, Num)>,
                       isNumber: Num -> bool, show: JsValue -> string): (r: (ScatterSeries, bool))
    ensures axes.None? <==> !r.1
    ensures axes.None? ==> r.0 == s
    ensures axes.Some? ==>
              r.0 == s.(xData := r.0.xData, yData := r.0.yData, sizeData := r.0.sizeData,
                        labelTexts := r.0.labelTexts, xDomain := r.0.xDomain, yDomain := r.0.yDomain,
                        sizeDomain := r.0.sizeDomain)
    ensures axes.Some? ==> r.0.xData == Project(Rows(s), s.xKey.GetOr("")) && r.0.yData == Project(Rows(s), s.yKey.GetOr(""))
    ensures axes.Some? ==> r.0.sizeData == if IsSet(s.sizeKey) then Project(Rows(s), s.sizeKey.value) else []
    ensures axes.Some? ==> |r.0.labelTexts| == if IsSet(s.labelKey) then |Rows(s)| else 0
    ensures axes.Some? && IsSet(s.labelKey) ==>
              forall i :: 0 <= i < |Rows(s)| ==> r.0.labelTexts[i] == show(Series.Field(Rows(s)[i], s.labelKey.value))
    ensures axes.Some? && s.markerDomain.Some? ==> r.0.sizeDomain == s.markerDomain.value
    ensures axes.Some? ==> r.0.xDomain == DomainOf(r.0.xData, axes.value.0, extent, isNumber)
                           && r.0.yDomain == DomainOf(r.0.yData, axes.value.1, extent, isNumber)
  {
    if axes.None? then (s, false)
    else
      var rows := Rows(s);
      var xData := Project(rows, s.xKey.GetOr(""));
      var yData := Project(rows, s.yKey.GetOr(""));
      var sizeData := if IsSet(s.sizeKey) then Project(rows, s.sizeKey.value) else [];
      var labels := if IsSet(s.labelKey)
                    then seq(|rows|, i requires 0 <= i < |rows| => show(Series.Field(rows[i], s.labelKey.value)))
                    else [];
      var sizeDomain := s.markerDomain.GetOr(extent(sizeData).GetOr((One, One)));
      (s.(xData := xData, yData := yData, sizeData := sizeData, labelTexts := labels,
          xDomain := DomainOf(xData, axes.value.0, extent, isNumber),
          yDomain := DomainOf(yData, axes.value.1, extent, isNumber), sizeDomain := sizeDomain), true)
  }

  /** The projections line up with the data after a data pass: `createNodeData`
      may index all of them, and the data, by the same row position. */
  predicate Processed(s: ScatterSeries) {
    s.data.Some?
    && |s.yData| == |s.xData| && (|s.xData| == 0 || |s.xData| == |s.data.value|)
    && (|s.sizeData| == 0 || |s.sizeData| == |s.xData|)
    && (|s.labelTexts| == 0 || |s.labelTexts| == |s.xData|)
  }

  /** A data pass with both axes and data present leaves the series processed;
      changing a key empties its projection until the next pass rebuilds it. */
  lemma ProcessDataAligns(s: ScatterSeries, o: Observable.Observable, k: Key, value: Option<string>,
                          xy: (bool, bool), extent: seq<JsValue> -> Option<(Num, Num)>,
                          isNumber: Num -> bool, show: JsValue -> string)
    requires s.data.Some?
    ensures Processed(ProcessData(s, Some(xy), extent, isNumber, show).0)
    ensures var t := SetKey(s, o, k, value).0;
            var u := ProcessData(t, Some(xy), extent, isNumber, show).0;
            |u.xData| == |Rows(t)| && |u.yData| == |Rows(t)|
  {
  }

  // ---------------------------------------------------------------------------
  // createNodeData

  /** One marker: the row position, the datum, its position on screen, its
      size and, when labels are on, the label text. */
  datatype ScatterNode = ScatterNode(index: nat, datum: Series.Row, point: (Num, Num), size: Num, text: Option<string>)

  /** The node of row `i`, or None when the row fails the domain or the range check. */
  function Candidate(s: ScatterSeries, i: nat, place: (JsValue, JsValue) -> Option<(Num, Num)>,
                     inRange: ((Num, Num)) -> bool, sizeOf: JsValue -> Num): (n: Option<ScatterNode>)
    requires Processed(s) && i < |s.xData|
    ensures n.Some? <==> place(s.xData[i], s.yData[i]).Some? && inRange(place(s.xData[i], s.yData[i]).value)
    ensures n.Some? ==> n.value.index == i && n.value.datum == s.data.value[i]
                        && n.value.point == place(s.xData[i], s.yData[i]).value
    ensures n.Some? && s.sizeData == [] ==> n.value.size == s.markerSize
    ensures n.Some? && s.sizeData != [] ==> n.value.size == sizeOf(s.sizeData[i])
  {
    match place(s.xData[i], s.yData[i])
    case None => None
    case Some(point) =>
      if !inRange(point) then None
      else
        var size := if |s.sizeData| > 0 then sizeOf(s.sizeData[i]) else s.markerSize;
        var text := if |s.labelTexts| > 0 then Some(s.labelTexts[i]) else None;
        Some(ScatterNode(i, s.data.value[i], point, size, text))
  }

  /** Reference: the nodes of the first `n` rows that pass both checks, in row order. */
  function NodesUpTo(s: ScatterSeries, n: nat, place: (JsValue, JsValue) -> Option<(Num, Num)>,
                     inRange: ((Num, Num)) -> bool, sizeOf: JsValue -> Num): seq<ScatterNode>
    requires Processed(s) && n <= |s.xData|
  {
    if n == 0 then []
    else
      var c := Candidate(s, n - 1, place, inRange, sizeOf);
      NodesUpTo(s, n - 1, place, inRange, sizeOf) + (if c.Some? then [c.value] else [])
  }

  /** `createNodeData`: nothing unless the chart is ready; otherwise the
      loop over the rows that keeps those passing the domain and range checks. */
  method CreateNodeData(s: ScatterSeries, gate: Series.Gate, place: (JsValue, JsValue) -> Option<(Num, Num)>,
                        inRange: ((Num, Num)) -> bool, sizeOf: JsValue -> Num)
    returns (nodes: seq<ScatterNode>)
    requires Series.Ready(gate) ==> Processed(s)
    ensures !Series.Ready(gate) ==> nodes == []
    ensures Series.Ready(gate) ==> nodes == NodesUpTo(s, |s.xData|, place, inRange, sizeOf)
  {
    nodes := [];
    if !Series.Ready(gate) {
      return;
    }
    var i := 0;
    while i < |s.xData|
      invariant i <= |s.xData|
      invariant nodes == NodesUpTo(s, i, place, inRange, sizeOf)
    {
      var xy := place(s.xData[i], s.yData[i]);
      if xy.Some? && inRange(xy.value) {
        var size := if |s.sizeData| > 0 then sizeOf(s.sizeData[i]) else s.markerSize;
        var text := if |s.labelTexts| > 0 then Some(s.labelTexts[i]) else None;
        nodes := nodes + [ScatterNode(i, s.data.value[i], xy.value, size, text)];
      }
      i := i + 1;
    }
  }

  /** Every node is the candidate of an earlier row. */
  lemma {:induction false} NodesAreCandidates(s: ScatterSeries, n: nat, place: (JsValue, JsValue) -> Option<(Num, Num)>,
                                              inRange: ((Num, Num)) -> bool, sizeOf: JsValue -> Num)
    requires Processed(s) && n <= |s.xData|
    ensures forall k :: 0 <= k < |NodesUpTo(s, n, place, inRange, sizeOf)| ==>
              NodesUpTo(s, n, place, inRange, sizeOf)[k].index < n
              && Candidate(s, NodesUpTo(s, n, place, inRange, sizeOf)[k].index, place, inRange, sizeOf)
                 == Some(NodesUpTo(s, n, place, inRange, sizeOf)[k])
  {
    if n > 0 {
      NodesAreCandidates(s, n - 1, place, inRange, sizeOf);
      var prev := NodesUpTo(s, n - 1, place, inRange, sizeOf);
      var c := Candidate(s, n - 1, place, inRange, sizeOf);
      var nodes := NodesUpTo(s, n, place, inRange, sizeOf);
      assert nodes == prev + (if c.Some? then [c.value] else []);
      forall k | 0 <= k < |nodes|
        ensures nodes[k].index < n && Candidate(s, nodes[k].index, place, inRange, sizeOf) == Some(nodes[k])
      {
        if k < |prev| {
          assert nodes[k] == prev[k];
          assert prev[k].index < n - 1;
          assert Candidate(s, prev[k].index, place, inRange, sizeOf) == Some(prev[k]);
        } else {
          assert c.Some? && nodes[k] == c.value && c.value.index == n - 1;
          assert Candidate(s, c.value.index, place, inRange, sizeOf) == Some(c.value);
        }
      }
    }
  }

  /** Nodes keep the order of their rows. */
  lemma {:induction false} NodesInRowOrder(s: ScatterSeries, n: nat, place: (JsValue, JsValue) -> Option<(Num, Num)>,
                                           inRange: ((Num, Num)) -> bool, sizeOf: JsValue -> Num)
    requires Processed(s) && n <= |s.xData|
    ensures forall k, m :: 0 <= k < m < |NodesUpTo(s, n, place, inRange, sizeOf)| ==>
              NodesUpTo(s, n, place, inRange, sizeOf)[k].index < NodesUpTo(s, n, place, inRange, sizeOf)[m].index
  {
    if n > 0 {
      NodesInRowOrder(s, n - 1, place, inRange, sizeOf);
      NodesAreCandidates(s, n - 1, place, inRange, sizeOf);
      var prev := NodesUpTo(s, n - 1, place, inRange, sizeOf);
      var c := Candidate(s, n - 1, place, inRange, sizeOf);
      var nodes := NodesUpTo(s, n, place, inRange, sizeOf);
      assert nodes == prev + (if c.Some? then [c.value] else []);
      forall k, m | 0 <= k < m < |nodes|
        ensures nodes[k].index < nodes[m].index
      {
        assert nodes[k] == prev[k];
        assert prev[k].index < n - 1;
        if m < |prev| {
          assert nodes[m] == prev[m];
          assert prev[k].index < prev[m].index;
        } else {
          assert c.Some? && nodes[m] == c.value && c.value.index == n - 1;
        }
      }
    }
  }

  /** Some node belongs to row `i`. */
  predicate HasNode(nodes: seq<ScatterNode>, i: nat)
  {
    exists k :: 0 <= k < |nodes| && nodes[k].index == i
  }

  /** Every row that passes both checks has its node. */
  lemma {:induction false} NodesComplete(s: ScatterSeries, n: nat, place: (JsValue, JsValue) -> Option<(Num, Num)>,
                                         inRange: ((Num, Num)) -> bool, sizeOf: JsValue -> Num)
    requires Processed(s) && n <= |s.xData|
    ensures forall i :: 0 <= i < n && Candidate(s, i, place, inRange, sizeOf).Some? ==>
              HasNode(NodesUpTo(s, n, place, inRange, sizeOf), i)
  {
    if n > 0 {
      NodesComplete(s, n - 1, place, inRange, sizeOf);
      var prev := NodesUpTo(s, n - 1, place, inRange, sizeOf);
      var c := Candidate(s, n - 1, place, inRange, sizeOf);
      var nodes := NodesUpTo(s, n, place, inRange, sizeOf);
      assert nodes == prev + (if c.Some? then [c.value] else []);
      forall i | 0 <= i < n && Candidate(s, i, place, inRange, sizeOf).Some?
        ensures HasNode(NodesUpTo(s, n, place, inRange, sizeOf), i)
      {
        if i == n - 1 {
          assert c.Some? && nodes[|prev|] == c.value;
          assert NodesUpTo(s, n, place, inRange, sizeOf)[|prev|].index == i;
        } else {
          assert HasNode(prev, i);
          var k :| 0 <= k < |prev| && prev[k].index == i;
          assert NodesUpTo(s, n, place, inRange, sizeOf)[k].index == i;
        }
      }
    }
  }

  /** The node data is an order-preserving selection of the rows: node `k`
      is the candidate of a row whose position grows with `k`, and every row
      that passes both checks has its node. */
  lemma NodesAreOrderedSelection(s: ScatterSeries, n: nat, place: (JsValue, JsValue) -> Option<(Num, Num)>,
                                 inRange: ((Num, Num)) -> bool, sizeOf: JsValue -> Num)
    requires Processed(s) && n <= |s.xData|
    ensures var nodes := NodesUpTo(s, n, place, inRange, sizeOf);
            (forall k :: 0 <= k < |nodes| ==>
               nodes[k].index < n && Candidate(s, nodes[k].index, place, inRange, sizeOf) == Some(nodes[k]))
            && (forall k, m :: 0 <= k < m < |nodes| ==> nodes[k].index < nodes[m].index)
            && (forall i :: 0 <= i < n && Candidate(s, i, place, inRange, sizeOf).Some? ==>
                  HasNode(nodes, i))
  {
    NodesAreCandidates(s, n, place, inRange, sizeOf);
    NodesInRowOrder(s, n, place, inRange, sizeOf);
    NodesComplete(s, n, place, inRange, sizeOf);
  }

  // ---------------------------------------------------------------------------
  // Marker nodes

  /** `Series.highlightedZIndex`. */
  const HighlightedZIndex: real := 1000000000000.0

  /** What `updateMarkerNodes` sets on the marker of node `index`: the size
      (the formatter's when it returns one), the visibility and the z-index. */
  datatype MarkerLook = MarkerLook(size: Num, visible: bool, zIndex: real)

  function MarkerOf(markerEnabled: bool, node: ScatterNode, formatSize: Option<Num>, highlighted: bool, index: nat)
    : (m: MarkerLook)
    ensures m.size == formatSize.GetOr(node.size)
    ensures m.visible <==> markerEnabled && Lt(Zero, m.size)
    ensures highlighted ==> m.zIndex == HighlightedZIndex
    ensures !highlighted ==> m.zIndex == index as real
  {
    var size := formatSize.GetOr(node.size);
    MarkerLook(size, markerEnabled && Lt(Zero, size), if highlighted then HighlightedZIndex else index as real)
  }

  /** A highlighted marker is drawn above every other marker of a series
      with fewer than `HighlightedZIndex` nodes; a disabled marker is never
      visible, nor is one of size 0, NaN or below. */
  lemma HighlightOnTop(enabled: bool, a: ScatterNode, b: ScatterNode, fa: Option<Num>, fb: Option<Num>, i: nat, j: nat)
    requires (j as real) < HighlightedZIndex
    ensures MarkerOf(enabled, a, fa, true, i).zIndex > MarkerOf(enabled, b, fb, false, j).zIndex
    ensures !enabled ==> !MarkerOf(enabled, a, fa, true, i).visible
    ensures var m := MarkerOf(enabled, a, fa, false, i);
            m.size == Zero || m.size.NaN? || (m.size.Fin? && m.size.r < 0.0) ==> !m.visible
  {
  }

  // ---------------------------------------------------------------------------
  // Marker shape change

  /** `onMarkerShapeChange`: the marker selection is emptied and the series
      runs its `update()` as written (`Series.UpdateAsWritten`), then
      'legendChange' is fired. The selection pass rebuilds the markers from
      `nodeData`, the node data `CreateNodeData` yields for the series, only
      when node data was pending; otherwise the markers stay empty until a
      later pass. Consuming the node data leaves an update pending and
      re-flags the chart. */
  function OnMarkerShapeChange(nodeData: seq<ScatterNode>, f: Series.Flags, o: Observable.Observable)
    : (r: (seq<ScatterNode>, Series.Flags, seq<Observable.Call>))
    ensures f.nodeDataPending ==> r.0 == nodeData
    ensures !f.nodeDataPending ==> r.0 == []
    ensures !r.1.nodeDataPending && (r.1.updatePending <==> f.nodeDataPending)
    ensures r.1.chartUpdatePending.Some? <==> f.chartUpdatePending.Some?
    ensures r.1.chartUpdatePending.Some? ==>
              (r.1.chartUpdatePending.value <==> f.chartUpdatePending.value || f.nodeDataPending)
    ensures forall call :: call in r.2 ==>
              call.event == Observable.Fired("legendChange", map[], o.self)
              && Observable.Registered(o.events, "legendChange", call.listener, call.scope)
  {
    var markers := if f.nodeDataPending then nodeData else [];
    (markers, Series.UpdateAsWritten(f), Observable.FireEvent(o, "legendChange", map[]))
  }

  /** A shape change on a fresh series whose chart has just cleared its flag
      rebuilds the markers, yet leaves the series and the chart flagged for
      another update. */
  lemma ShapeChangeLeavesUpdatePending(nodeData: seq<ScatterNode>, o: Observable.Observable)
    ensures var r := OnMarkerShapeChange(nodeData, Series.InitialFlags(Some(false)), o);
            r.0 == nodeData && r.1.updatePending && r.1.chartUpdatePending == Some(true)
  {
  }

  // ---------------------------------------------------------------------------
  // Legend and tooltip

  /** `listSeriesItems`: at most one entry, only with data and both keys;
      its text is the title, else the y name, else the y key; enabled
      follows `visible`. A missing marker colour becomes transparent. */
  function ListSeriesItems(s: ScatterSeries, id: string): (r: seq<Legend.LegendEntry>)
    ensures |r| <= 1
    ensures |r| == 1 <==> s.data.Some? && |s.data.value| > 0 && IsSet(s.xKey) && IsSet(s.yKey)
    ensures |r| == 1 ==> r[0].datum.id == id && r[0].datum.enabled == s.visible
                         && r[0].datum.text == Or(s.title, if s.yName != "" then s.yName else s.yKey.value)
                         && r[0].fill == Some(Or(s.markerFill, "rgba(0, 0, 0, 0)"))
                         && r[0].stroke == Some(Or(s.markerStroke, "rgba(0, 0, 0, 0)"))
  {
    if s.data.Some? && |s.data.value| > 0 && IsSet(s.xKey) && IsSet(s.yKey) then
      [Legend.LegendEntry(Legend.Datum(id, "undefined", s.visible, Or(s.title, if s.yName != "" then s.yName else s.yKey.value)),
                          Some(Or(s.markerFill, "rgba(0, 0, 0, 0)")), Some(Or(s.markerStroke, "rgba(0, 0, 0, 0)")))]
    else []
  }

  /** The default tooltip: title, colour and the name-value lines of the content. */
  datatype Tooltip = Tooltip(title: string, color: string, lines: seq<(string, JsValue)>)

  /** `getTooltipHtml` before HTML formatting: nothing ('') without both keys
      and both axes; otherwise the x and y lines, preceded by the label line
      when a label key is set and followed by the size line when a size key is. */
  function GetTooltip(s: ScatterSeries, hasAxes: bool, datum: Series.Row): (r: Option<Tooltip>)
    ensures r.None? <==> !IsSet(s.xKey) || !IsSet(s.yKey) || !hasAxes
    ensures r.Some? ==> r.value.title == Or(s.title, s.yName) && r.value.color == Or(s.markerFill, "gray")
    ensures r.Some? ==> |r.value.lines| == 2 + (if IsSet(s.labelKey) then 1 else 0) + (if IsSet(s.sizeKey) then 1 else 0)
  {
    if !IsSet(s.xKey) || !IsSet(s.yKey) || !hasAxes then None
    else
      var xLine := (if s.xName != "" then s.xName else s.xKey.value, Series.Field(datum, s.xKey.value));
      var yLine := (if s.yName != "" then s.yName else s.yKey.value, Series.Field(datum, s.yKey.value));
      var sizeLines := if IsSet(s.sizeKey) then [(Or(s.sizeName, s.sizeKey.value), Series.Field(datum, s.sizeKey.value))] else [];
      var labelLines := if IsSet(s.labelKey) then [(Or(s.labelName, s.labelKey.value), Series.Field(datum, s.labelKey.value))] else [];
      Some(Tooltip(Or(s.title, s.yName), Or(s.markerFill, "gray"), labelLines + [xLine, yLine] + sizeLines))
  }

  /** Line order of the tooltip content: label line first, then x, then y,
      then size; the x and y lines carry the datum's values. */
  lemma TooltipLineOrder(s: ScatterSeries, datum: Series.Row)
    requires IsSet(s.xKey) && IsSet(s.yKey)
    ensures var t := GetTooltip(s, true, datum).value;
            var l := if IsSet(s.labelKey) then 1 else 0;
            t.lines[l].1 == Series.Field(datum, s.xKey.value) && t.lines[l + 1].1 == Series.Field(datum, s.yKey.value)
            && (IsSet(s.labelKey) ==> t.lines[0] == (Or(s.labelName, s.labelKey.value), Series.Field(datum, s.labelKey.value)))
            && (IsSet(s.sizeKey) ==> t.lines[|t.lines| - 1] == (Or(s.sizeName, s.sizeKey.value), Series.Field(datum, s.sizeKey.value)))
  {
  }
}
