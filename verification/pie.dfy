/** The pie series: the per-item enablement reset by a data assignment,
    the slice angles as running shares of the total, the radius fractions,
    the label gating, legend items and item toggling.

    The angle scale maps a ratio in [0, 1] to an angle; it is a collaborator
    outside this model and arrives as the function `convert`. Likewise the
    label text of a value (`String(value)` or the label formatter) arrives as
    `labelText`. Numbers follow JavaScript (see `Js`), without float rounding. */
module Pie {
  import opened Js
  import opened Arith
  import Legend
  import Series
  import Observable

  /** The parts of the pie title the series reads: its text and its
      `showInLegend` flag, which accepts any value and is tested for truthiness. */
  datatype Title = Title(text: string, showInLegend: JsValue)

  /** The pie series state read by data processing, legend and toggling.
      An unset `radiusKey` or `labelKey` is the empty string: every use of them
      only tests truthiness. Array slots past the end of `seriesItemEnabled`
      read as undefined, i.e. falsy. */
  datatype PieSeries = PieSeries(
    angleKey: string, radiusKey: string, labelKey: string,
    radiusMin: Option<Num>, radiusMax: Option<Num>, rotation: Num,
    labelEnabled: bool, labelMinAngle: Num,
    data: Option<seq<Series.Row>>, seriesItemEnabled: seq<bool>,
    fills: seq<string>, strokes: seq<string>, title: Option<Title>, visible: bool)

  const DefaultFills := ["#c16068", "#a2bf8a", "#ebcc87", "#80a0c3", "#b58dae", "#85c0d1"]
  const DefaultStrokes := ["#874349", "#718661", "#a48f5f", "#5a7088", "#7f637a", "#5d8692"]

  /** A new pie series: no keys, no data, no rotation, labels enabled with a
      20 degree minimum angle, the default palettes. */
  function NewPie(): (p: PieSeries)
    ensures p.data.None? && p.seriesItemEnabled == [] && p.angleKey == "" && p.visible
    ensures p.labelMinAngle == Fin(20.0) && p.rotation == Zero
  {
    PieSeries("", "", "", None, None, Zero, true, Fin(20.0), None, [], DefaultFills, DefaultStrokes, None, true)
  }

  /** `seriesItemEnabled[i]`, where a missing slot is falsy. */
  predicate Enabled(flags: seq<bool>, i: nat) {
    i < |flags| && flags[i]
  }

  // ---------------------------------------------------------------------------
  // Data assignment and toggling

  /** Assigning `data`: the 'data' property listener installed by the
      constructor replaces `seriesItemEnabled` with one `true` per datum
      whenever the new value is truthy (an array, even an empty one). The
      data setter notifies property listeners for every array assignment,
      the same array included, so the reset happens on each of them. */
  function SetData(p: PieSeries, value: Option<seq<Series.Row>>): (r: PieSeries)
    ensures r == p.(data := value, seriesItemEnabled := r.seriesItemEnabled)
    ensures value.Some? ==> |r.seriesItemEnabled| == |value.value|
                            && forall i :: 0 <= i < |value.value| ==> Enabled(r.seriesItemEnabled, i)
    ensures value.None? ==> r.seriesItemEnabled == p.seriesItemEnabled
  {
    match value
    case Some(rows) => p.(data := value, seriesItemEnabled := seq(|rows|, _ => true))
    case None => p.(data := value)
  }

  /** `seriesItemEnabled[itemId] = enabled`; assigning past the end grows the
      array with holes, which read as falsy. */
  function SetItem(flags: seq<bool>, itemId: nat, enabled: bool): (r: seq<bool>)
    ensures |r| == if itemId < |flags| then |flags| else itemId + 1
    ensures Enabled(r, itemId) == enabled
    ensures forall i :: i != itemId ==> Enabled(r, i) == Enabled(flags, i)
  {
    var grown := if itemId < |flags| then flags else flags + seq(itemId + 1 - |flags|, _ => false);
    grown[itemId := enabled]
  }

  /** `toggleSeriesItem(itemId, enabled)`: records the flag and schedules a
      data pass. */
  function ToggleSeriesItem(p: PieSeries, o: Observable.Observable, itemId: nat, enabled: bool)
    : (r: (PieSeries, seq<Observable.Call>))
    ensures r.0 == p.(seriesItemEnabled := r.0.seriesItemEnabled)
    ensures Enabled(r.0.seriesItemEnabled, itemId) == enabled
    ensures forall i :: i != itemId ==> Enabled(r.0.seriesItemEnabled, i) == Enabled(p.seriesItemEnabled, i)
    ensures r.1 == Series.ScheduleData(o)
  {
    (p.(seriesItemEnabled := SetItem(p.seriesItemEnabled, itemId, enabled)), Series.ScheduleData(o))
  }

  /** The `fills` and `strokes` setters store the palette and schedule a data
      pass with no equality check: assigning the current palette schedules too. */
  function SetFills(p: PieSeries, o: Observable.Observable, fills: seq<string>): (r: (PieSeries, seq<Observable.Call>))
    ensures r.0 == p.(fills := fills)
    ensures r.1 == Series.ScheduleData(o)
  {
    (p.(fills := fills), Series.ScheduleData(o))
  }

  function SetStrokes(p: PieSeries, o: Observable.Observable, strokes: seq<string>): (r: (PieSeries, seq<Observable.Call>))
    ensures r.0 == p.(strokes := strokes)
    ensures r.1 == Series.ScheduleData(o)
  {
    (p.(strokes := strokes), Series.ScheduleData(o))
  }

  /** `group.visible` after `updateNodes`: unchanged without a chart, else
      visible exactly when the series is visible and some item is enabled. */
  function GroupVisible(p: PieSeries, hasChart: bool, current: bool): (v: bool)
    ensures !hasChart ==> v == current
    ensures hasChart ==> (v <==> p.visible && exists i :: 0 <= i < |p.seriesItemEnabled| && p.seriesItemEnabled[i])
  {
    if hasChart then p.visible && true in p.seriesItemEnabled else current
  }

  /** After a non-empty data assignment the group of a visible series shows;
      once every item is toggled off it hides. */
  lemma GroupVisibilityFollowsItems(p: PieSeries, rows: seq<Series.Row>, current: bool)
    requires p.visible && |rows| > 0
    ensures GroupVisible(SetData(p, Some(rows)), true, current)
    ensures !GroupVisible(SetData(p, Some(rows)).(seriesItemEnabled := seq(|rows|, _ => false)), true, current)
  {
    assert SetData(p, Some(rows)).seriesItemEnabled[0];
  }

  // ---------------------------------------------------------------------------
  // Angles

  /** The rows `processData` reads: none unless the angle key and the data are set. */
  function Rows(p: PieSeries): (rows: seq<Series.Row>)
    ensures p.angleKey == "" || p.data.None? ==> rows == []
    ensures p.angleKey != "" && p.data.Some? ==> rows == p.data.value
  {
    if p.angleKey != "" && p.data.Some? then p.data.value else []
  }

  /** `(seriesItemEnabled[i] && Math.abs(+datum[angleKey])) || 0`. */
  function AngleValue(p: PieSeries, row: Series.Row, i: nat): (v: Num)
    ensures v == Zero || v == PosInf || (v.Fin? && v.r > 0.0)
    ensures !Enabled(p.seriesItemEnabled, i) ==> v == Zero
    ensures Enabled(p.seriesItemEnabled, i) && ToNumber(Series.Field(row, p.angleKey)).Fin? ==>
              v == Abs(ToNumber(Series.Field(row, p.angleKey)))
    ensures ToNumber(Series.Field(row, p.angleKey)).NaN? ==> v == Zero
  {
    var a := Abs(ToNumber(Series.Field(row, p.angleKey)));
    if Enabled(p.seriesItemEnabled, i) && Truthy(Number(a)) then a else Zero
  }

  function AngleData(p: PieSeries, rows: seq<Series.Row>): (vs: seq<Num>)
    ensures |vs| == |rows|
    ensures forall i :: 0 <= i < |rows| ==> vs[i] == AngleValue(p, rows[i], i)
  {
    seq(|rows|, i requires 0 <= i < |rows| => AngleValue(p, rows[i], i))
  }

  /** `values.reduce((a, b) => a + b, 0)`, summed from the left. */
  function Total(vs: seq<Num>): Num
    decreases |vs|
  {
    if vs == [] then Zero else Add(Total(vs[..|vs| - 1]), vs[|vs| - 1])
  }

  /** The running `sum += value / total` after the first `k` values. */
  function RatioSum(vs: seq<Num>, total: Num, k: nat): Num
    requires k <= |vs|
  {
    if k == 0 then Zero else Add(RatioSum(vs, total, k - 1), Div(vs[k - 1], total))
  }

  /** The end ratio of every slice. */
  function EndRatios(vs: seq<Num>): (rs: seq<Num>)
    ensures |rs| == |vs|
    ensures forall k :: 0 <= k < |vs| ==> rs[k] == RatioSum(vs, Total(vs), k + 1)
  {
    seq(|vs|, k requires 0 <= k < |vs| => RatioSum(vs, Total(vs), k + 1))
  }

  /** Every value finite and not negative: all the angle values when no
      enabled datum holds an infinity. */
  predicate FiniteNonNegative(vs: seq<Num>) {
    forall i :: 0 <= i < |vs| ==> vs[i].Fin? && vs[i].r >= 0.0
  }

  /** The sum of finite non-negative values is finite and grows with the prefix. */
  lemma {:induction false} TotalOfPrefix(vs: seq<Num>, j: nat, k: nat)
    requires FiniteNonNegative(vs) && j <= k <= |vs|
    ensures Total(vs[..j]).Fin? && Total(vs[..k]).Fin?
    ensures 0.0 <= Total(vs[..j]).r <= Total(vs[..k]).r
    decreases k
  {
    if k == j {
      if j > 0 {
        TotalOfPrefix(vs, j - 1, j - 1);
        assert vs[..j][..j - 1] == vs[..j - 1];
      }
    } else {
      TotalOfPrefix(vs, j, k - 1);
      assert vs[..k][..k - 1] == vs[..k - 1];
    }
  }

  /** Each running sum is the share of the prefix in the total. */
  lemma {:induction false} RatioSumIsShare(vs: seq<Num>, k: nat)
    requires FiniteNonNegative(vs) && k <= |vs|
    requires Total(vs).Fin? && Total(vs).r > 0.0
    ensures Total(vs[..k]).Fin? && RatioSum(vs, Total(vs), k) == Fin(Total(vs[..k]).r / Total(vs).r)
  {
    var t := Total(vs).r;
    TotalOfPrefix(vs, k, k);
    if k > 0 {
      RatioSumIsShare(vs, k - 1);
      assert vs[..k][..k - 1] == vs[..k - 1];
      var p := Total(vs[..k - 1]).r;
      DivAdd(p, vs[k - 1].r, t);
    }
  }

  /** Shares of a positive whole keep the order of the parts and lie in [0, 1]. */
  lemma Shares(a: real, b: real, t: real)
    requires 0.0 <= a <= b <= t && t > 0.0
    ensures 0.0 <= a / t <= b / t <= 1.0
  {
    UnitRatio(a, t);
    DivMonotone(a, b, t);
    UnitRatio(b, t);
  }

  lemma {:induction false} PrefixTotalsOrdered(vs: seq<Num>, j: nat, k: nat)
    requires FiniteNonNegative(vs) && j <= k <= |vs|
    ensures Total(vs[..j]).Fin? && Total(vs[..k]).Fin? && Total(vs).Fin?
    ensures 0.0 <= Total(vs[..j]).r <= Total(vs[..k]).r <= Total(vs).r
  {
    TotalOfPrefix(vs, j, k);
    TotalOfPrefix(vs, k, |vs|);
    assert vs[..|vs|] == vs;
  }

  /** With a positive total, the end ratios never decrease and stay in [0, 1]. */
  lemma {:induction false} EndRatiosAreShares(vs: seq<Num>, i: nat, j: nat)
    requires FiniteNonNegative(vs) && Total(vs).Fin? && Total(vs).r > 0.0
    requires i <= j < |vs|
    ensures EndRatios(vs)[i].Fin? && EndRatios(vs)[j].Fin?
    ensures 0.0 <= EndRatios(vs)[i].r <= EndRatios(vs)[j].r <= 1.0
  {
    var t := Total(vs).r;
    RatioSumIsShare(vs, i + 1);
    RatioSumIsShare(vs, j + 1);
    var a, b := Total(vs[..i + 1]).r, Total(vs[..j + 1]).r;
    assert EndRatios(vs)[i] == Fin(a / t) && EndRatios(vs)[j] == Fin(b / t);
    PrefixTotalsOrdered(vs, i + 1, j + 1);
    Shares(a, b, t);
  }

  /** With a positive total, the last slice ends at exactly 1: the slices
      fill the circle. */
  lemma {:induction false} LastEndRatioIsOne(vs: seq<Num>)
    requires FiniteNonNegative(vs) && Total(vs).Fin? && Total(vs).r > 0.0 && |vs| > 0
    ensures EndRatios(vs)[|vs| - 1] == One
  {
    var t := Total(vs).r;
    RatioSumIsShare(vs, |vs|);
    assert vs[..|vs|] == vs;
    WholeRatio(t);
    assert EndRatios(vs)[|vs| - 1] == RatioSum(vs, Total(vs), |vs|);
  }

  /** Finite non-negative values with a zero total are all zero. */
  lemma {:induction false} ZeroTotalMeansZeroValues(vs: seq<Num>, i: nat)
    requires FiniteNonNegative(vs) && Total(vs) == Zero && i < |vs|
    ensures vs[i] == Zero
  {
    TotalOfPrefix(vs, i, i + 1);
    TotalOfPrefix(vs, i + 1, |vs|);
    assert vs[..i + 1][..i] == vs[..i];
    assert vs[..|vs|] == vs;
  }

  /** With a zero total (every item disabled or zero) each share is 0/0, so
      every end ratio, and with it every slice angle, is NaN. */
  lemma {:induction false} ZeroTotalGivesNaNRatios(vs: seq<Num>, k: nat)
    requires FiniteNonNegative(vs) && Total(vs) == Zero && 0 < k <= |vs|
    ensures RatioSum(vs, Total(vs), k).NaN?
  {
    ZeroTotalMeansZeroValues(vs, k - 1);
    if k > 1 {
      ZeroTotalGivesNaNRatios(vs, k - 1);
    }
  }

  // ---------------------------------------------------------------------------
  // Radii

  /** `Math.min(a, b)` and `Math.max(a, b)`: NaN wins. */
  function Min2(a: Num, b: Num): Num {
    if a.NaN? || b.NaN? then NaN else if Lt(b, a) then b else a
  }

  function Max2(a: Num, b: Num): Num {
    if a.NaN? || b.NaN? then NaN else if Lt(a, b) then b else a
  }

  /** `Math.min(...vs)`; +Infinity for no values. */
  function MathMin(vs: seq<Num>): Num
    decreases |vs|
  {
    if vs == [] then PosInf else Min2(MathMin(vs[..|vs| - 1]), vs[|vs| - 1])
  }

  /** `Math.max(...vs)`; -Infinity for no values. */
  function MathMax(vs: seq<Num>): Num
    decreases |vs|
  {
    if vs == [] then NegInf else Max2(MathMax(vs[..|vs| - 1]), vs[|vs| - 1])
  }

  predicate AllFinite(vs: seq<Num>) {
    forall i :: 0 <= i < |vs| ==> vs[i].Fin?
  }

  /** Over finite values, `Math.min`/`Math.max` are finite bounds of every value. */
  lemma {:induction false} MinMaxBound(vs: seq<Num>)
    requires AllFinite(vs) && |vs| > 0
    ensures MathMin(vs).Fin? && MathMax(vs).Fin?
    ensures forall i :: 0 <= i < |vs| ==> MathMin(vs).r <= vs[i].r <= MathMax(vs).r
    decreases |vs|
  {
    var init := vs[..|vs| - 1];
    if |init| > 0 {
      MinMaxBound(init);
      assert forall i :: 0 <= i < |init| ==> vs[i] == init[i];
    }
  }

  /** `|datum[radiusKey]|` of every row (`Math.abs` converts with unary `+`). */
  function Radii(rows: seq<Series.Row>, key: string): (vs: seq<Num>)
    ensures |vs| == |rows|
    ensures forall i :: 0 <= i < |rows| ==> vs[i] == Abs(ToNumber(Series.Field(rows[i], key)))
  {
    seq(|rows|, i requires 0 <= i < |rows| => Abs(ToNumber(Series.Field(rows[i], key))))
  }

  /** `delta ? (value - min) / delta : 1`, with `delta = max - min`. */
  function RadiusFraction(v: Num, min: Num, max: Num): (f: Num)
    ensures !Truthy(Number(Sub(max, min))) ==> f == One
  {
    var delta := Sub(max, min);
    if Truthy(Number(delta)) then Div(Sub(v, min), delta) else One
  }

  /** The bounds of the radius fractions: `radiusMin`/`radiusMax` when set,
      else the extremes of the data. */
  function RadiusBounds(p: PieSeries, radii: seq<Num>): (Num, Num) {
    (p.radiusMin.GetOr(MathMin(radii)), p.radiusMax.GetOr(MathMax(radii)))
  }

  /** The radius of every slice in [0, 1]; all 1 without a radius key. */
  function SliceRadii(p: PieSeries, rows: seq<Series.Row>): (rs: seq<Num>)
    ensures |rs| == |rows|
    ensures p.radiusKey == "" ==> forall i :: 0 <= i < |rows| ==> rs[i] == One
    ensures p.radiusKey != "" ==>
              var radii := Radii(rows, p.radiusKey);
              var bounds := RadiusBounds(p, radii);
              forall i :: 0 <= i < |rows| ==> rs[i] == RadiusFraction(radii[i], bounds.0, bounds.1)
  {
    if p.radiusKey == "" then seq(|rows|, _ => One)
    else
      var radii := Radii(rows, p.radiusKey);
      var bounds := RadiusBounds(p, radii);
      seq(|rows|, i requires 0 <= i < |rows| => RadiusFraction(radii[i], bounds.0, bounds.1))
  }

  /** The fraction of a value between finite bounds. */
  lemma FractionWithin(v: real, lo: real, hi: real)
    requires lo <= v <= hi
    ensures var f := RadiusFraction(Fin(v), Fin(lo), Fin(hi));
            f.Fin? && 0.0 <= f.r <= 1.0 && (v == hi ==> f == One) && (v == lo && lo != hi ==> f == Zero)
  {
    if lo != hi {
      assert Sub(Fin(hi), Fin(lo)) == Fin(hi - lo);
      assert Sub(Fin(v), Fin(lo)) == Fin(v - lo);
      UnitRatio(v - lo, hi - lo);
      WholeRatio(hi - lo);
    }
  }

  /** With finite radii and the bounds taken from the data, every fraction
      lies in [0, 1]; the largest radius gets 1 and the smallest 0 unless all
      radii are equal, in which case every fraction is 1. */
  lemma {:induction false} RadiusFractionInUnit(p: PieSeries, rows: seq<Series.Row>, i: nat)
    requires p.radiusKey != "" && p.radiusMin.None? && p.radiusMax.None?
    requires AllFinite(Radii(rows, p.radiusKey)) && i < |rows|
    ensures var f := SliceRadii(p, rows)[i]; f.Fin? && 0.0 <= f.r <= 1.0
    ensures var radii := Radii(rows, p.radiusKey);
            radii[i] == MathMax(radii) ==> SliceRadii(p, rows)[i] == One
    ensures var radii := Radii(rows, p.radiusKey);
            radii[i] == MathMin(radii) && MathMin(radii) != MathMax(radii) ==> SliceRadii(p, rows)[i] == Zero
  {
    var radii := Radii(rows, p.radiusKey);
    MinMaxBound(radii);
    FractionWithin(radii[i].r, MathMin(radii).r, MathMax(radii).r);
  }

  // ---------------------------------------------------------------------------
  // Node data

  /** One pie slice: `itemId` and `index` are the datum's position; `text` is the
      label text when the slice is labelled. */
  datatype Slice = Slice(itemId: nat, index: nat, datum: Series.Row, radius: Num,
                         startAngle: Num, endAngle: Num, text: Option<string>)

  /** `Math.PI` and `toRadians`. */
  const Pi: real := 3.141592653589793

  function Radians(degrees: Num): Num {
    Mul(Div(degrees, Fin(180.0)), Fin(Pi))
  }

  /** Labels are produced only when the label is enabled and a label key is set. */
  predicate LabelsOn(p: PieSeries) {
    p.labelEnabled && p.labelKey != ""
  }

  /** The label of a slice spanning `start` to `end`: present when labels
      are on and the span exceeds the label's minimum angle. */
  function SliceLabel(p: PieSeries, row: Series.Row, start: Num, end: Num, labelText: JsValue -> string)
    : (l: Option<string>)
    ensures l.Some? <==> LabelsOn(p) && Lt(Radians(p.labelMinAngle), Abs(Sub(end, start)))
    ensures l.Some? ==> l.value == labelText(Series.Field(row, p.labelKey))
  {
    if LabelsOn(p) && Lt(Radians(p.labelMinAngle), Abs(Sub(end, start)))
    then Some(labelText(Series.Field(row, p.labelKey))) else None
  }

  /** The ratio a slice starts at: 0 for the first, the previous end after. */
  function StartRatio(ratios: seq<Num>, i: nat): Num
    requires i < |ratios|
  {
    if i == 0 then Zero else ratios[i - 1]
  }

  function Slices(p: PieSeries, rows: seq<Series.Row>, convert: Num -> Num, labelText: JsValue -> string)
    : (ss: seq<Slice>)
    ensures |ss| == |rows|
  {
    var ratios := EndRatios(AngleData(p, rows));
    var radii := SliceRadii(p, rows);
    var rotation := Radians(p.rotation);
    seq(|rows|, i requires 0 <= i < |rows| =>
      var start := Add(convert(StartRatio(ratios, i)), rotation);
      var end := Add(convert(ratios[i]), rotation);
      Slice(i, i, rows[i], radii[i], start, end, SliceLabel(p, rows[i], start, end, labelText)))
  }

  /** Every slice sits at its row's position, consecutive slices share a
      boundary angle, and each slice's end, radius and label come from its row. */
  lemma {:induction false} SlicesShape(p: PieSeries, rows: seq<Series.Row>, convert: Num -> Num,
                                       labelText: JsValue -> string)
    ensures var ss := Slices(p, rows, convert, labelText);
            && (forall i :: 0 <= i < |ss| ==> ss[i].itemId == i && ss[i].index == i && ss[i].datum == rows[i])
            && (|ss| > 0 ==> ss[0].startAngle == Add(convert(Zero), Radians(p.rotation)))
            && (forall i :: 0 < i < |ss| ==> ss[i].startAngle == ss[i - 1].endAngle)
            && (forall i :: 0 <= i < |ss| ==>
                  ss[i].endAngle == Add(convert(EndRatios(AngleData(p, rows))[i]), Radians(p.rotation)))
            && (forall i :: 0 <= i < |ss| ==> ss[i].radius == SliceRadii(p, rows)[i])
            && (forall i :: 0 <= i < |ss| ==>
                  ss[i].text == SliceLabel(p, rows[i], ss[i].startAngle, ss[i].endAngle, labelText))
  {
    var ss := Slices(p, rows, convert, labelText);
    var ratios := EndRatios(AngleData(p, rows));
    forall i | 0 < i < |ss|
      ensures ss[i].startAngle == ss[i - 1].endAngle
    {
      assert StartRatio(ratios, i) == ratios[i - 1];
    }
  }

  /** `processData`: one slice per row, each starting where the previous one
      ended (the first at ratio 0), the rotation added to both ends. It always
      reports success. */
  function ProcessData(p: PieSeries, convert: Num -> Num, labelText: JsValue -> string): (r: (seq<Slice>, bool))
    ensures r.1
    ensures |r.0| == |Rows(p)|
    ensures forall i :: 0 <= i < |r.0| ==> r.0[i].itemId == i && r.0[i].index == i && r.0[i].datum == Rows(p)[i]
    ensures |r.0| > 0 ==> r.0[0].startAngle == Add(convert(Zero), Radians(p.rotation))
    ensures forall i :: 0 < i < |r.0| ==> r.0[i].startAngle == r.0[i - 1].endAngle
    ensures forall i :: 0 <= i < |r.0| ==>
              r.0[i].endAngle == Add(convert(EndRatios(AngleData(p, Rows(p)))[i]), Radians(p.rotation))
    ensures forall i :: 0 <= i < |r.0| ==> r.0[i].radius == SliceRadii(p, Rows(p))[i]
    ensures forall i :: 0 <= i < |r.0| ==>
              r.0[i].text == SliceLabel(p, Rows(p)[i], r.0[i].startAngle, r.0[i].endAngle, labelText)
  {
    SlicesShape(p, Rows(p), convert, labelText);
    (Slices(p, Rows(p), convert, labelText), true)
  }

  /** Without labels on, no slice carries a label; a disabled item's angle
      value is 0, so its slice starts and ends at the same ratio. */
  lemma {:induction false} DisabledItemHasEmptySlice(p: PieSeries, i: nat)
    requires 0 < i < |Rows(p)| && !Enabled(p.seriesItemEnabled, i)
    requires FiniteNonNegative(AngleData(p, Rows(p))) && Total(AngleData(p, Rows(p))).Fin?
    requires Total(AngleData(p, Rows(p))).r > 0.0
    ensures EndRatios(AngleData(p, Rows(p)))[i] == EndRatios(AngleData(p, Rows(p)))[i - 1]
  {
    var vs := AngleData(p, Rows(p));
    RatioSumIsShare(vs, i);
    assert Div(vs[i], Total(vs)) == Zero;
  }

  // ---------------------------------------------------------------------------
  // Legend

  /** `title && title.showInLegend && title.text`, as the text it yields ('' when falsy). */
  function TitleText(title: Option<Title>): string {
    if title.Some? && Truthy(title.value.showInLegend) then title.value.text else ""
  }

  /** `[title, label].join(' - ')`, the title only when its text is non-empty. */
  function LegendText(titleText: string, item: string): (t: string)
    ensures titleText == "" ==> t == item
    ensures titleText != "" ==> |t| == |titleText| + 3 + |item| && t[..|titleText|] == titleText && t[|titleText|..|titleText| + 3] == " - "
                                && t[|titleText| + 3..] == item
  {
    if titleText != "" then titleText + " - " + item else item
  }

  /** `listSeriesItems`: when the data is non-empty and a label key is set,
      one entry per datum in data order, identified by its position. */
  function ListSeriesItems(p: PieSeries, id: string, show: JsValue -> string): (r: seq<Legend.LegendEntry>)
    ensures !(p.data.Some? && |p.data.value| > 0 && p.labelKey != "") ==> r == []
    ensures p.data.Some? && |p.data.value| > 0 && p.labelKey != "" ==> |r| == |p.data.value|
    ensures forall i :: 0 <= i < |r| ==>
              r[i].datum.id == id && r[i].datum.itemId == NatToString(i)
              && r[i].datum.enabled == Enabled(p.seriesItemEnabled, i)
              && r[i].datum.text == LegendText(TitleText(p.title), show(Series.Field(p.data.value[i], p.labelKey)))
              && r[i].fill == Legend.Pick(p.fills, i) && r[i].stroke == Legend.Pick(p.strokes, i)
  {
    if p.data.Some? && |p.data.value| > 0 && p.labelKey != "" then
      var rows := p.data.value;
      var title := TitleText(p.title);
      seq(|rows|, i requires 0 <= i < |rows| =>
        Legend.LegendEntry(Legend.Datum(id, NatToString(i), Enabled(p.seriesItemEnabled, i),
                                        LegendText(title, show(Series.Field(rows[i], p.labelKey)))),
                           Legend.Pick(p.fills, i), Legend.Pick(p.strokes, i)))
    else []
  }

  /** Legend entries of a pie are told apart by their item ids. */
  lemma LegendItemIdsDistinct(p: PieSeries, id: string, show: JsValue -> string, i: nat, j: nat)
    requires i < j < |ListSeriesItems(p, id, show)|
    ensures ListSeriesItems(p, id, show)[i].datum.itemId != ListSeriesItems(p, id, show)[j].datum.itemId
  {
    NatToStringInjective(i, j);
  }

  /** Toggling an item from the legend is reflected by that item's legend
      entry and, when turned off, zeroes its angle value; nothing else changes. */
  lemma ToggleRoundTrip(p: PieSeries, o: Observable.Observable, id: string, show: JsValue -> string,
                        itemId: nat, enabled: bool, row: Series.Row)
    requires itemId < |ListSeriesItems(p, id, show)|
    ensures var q := ToggleSeriesItem(p, o, itemId, enabled).0;
            ListSeriesItems(q, id, show)[itemId].datum.enabled == enabled
            && (forall i :: 0 <= i < |ListSeriesItems(q, id, show)| && i != itemId ==>
                  ListSeriesItems(q, id, show)[i] == ListSeriesItems(p, id, show)[i])
            && (!enabled ==> AngleValue(q, row, itemId) == Zero)
  {
  }

  /** A fresh data assignment re-enables every item. */
  lemma DataResetsToggles(p: PieSeries, rows: seq<Series.Row>, id: string, show: JsValue -> string, i: nat)
    requires p.labelKey != "" && i < |rows|
    ensures ListSeriesItems(SetData(p, Some(rows)), id, show)[i].datum.enabled
  {
  }
}
