/** The bar series' data pipeline: rows to per-group, per-stack y values,
    the y domain, and the stacked bars built from them. */
module BarData {
  import opened Js
  import Series
  import Legend
  import Observable
  import opened Bar

  // ---------------------------------------------------------------------------
  // findLargestMinMax

  /** One step of `findLargestMinMax`: keep the lower minimum and the higher maximum. */
  function Widest(acc: (real, real), stack: (real, real)): (r: (real, real))
    ensures r.0 <= acc.0 && r.0 <= stack.0 && (r.0 == acc.0 || r.0 == stack.0)
    ensures r.1 >= acc.1 && r.1 >= stack.1 && (r.1 == acc.1 || r.1 == stack.1)
  {
    (if stack.0 < acc.0 then stack.0 else acc.0, if stack.1 > acc.1 then stack.1 else acc.1)
  }

  /** The inner loop over the stacks of one group, from the accumulator `acc`. */
  function FoldStacks(acc: (real, real), stacks: seq<(real, real)>): (real, real) {
    if stacks == [] then acc else Widest(FoldStacks(acc, stacks[..|stacks| - 1]), stacks[|stacks| - 1])
  }

  /** The outer loop over the groups, starting from (0, 0). */
  function FoldGroups(groups: seq<seq<(real, real)>>): (real, real) {
    if groups == [] then (0.0, 0.0) else FoldStacks(FoldGroups(groups[..|groups| - 1]), groups[|groups| - 1])
  }

  /** `findLargestMinMax(groups)` as the source's two nested loops. */
  method FindLargestMinMax(groups: seq<seq<(real, real)>>) returns (r: (real, real))
    ensures r == FoldGroups(groups)
  {
    var tallestMin, tallestMax := 0.0, 0.0;
    for i := 0 to |groups|
      invariant (tallestMin, tallestMax) == FoldGroups(groups[..i])
    {
      var group := groups[i];
      ghost var before := FoldGroups(groups[..i]);
      for j := 0 to |group|
        invariant (tallestMin, tallestMax) == FoldStacks(before, group[..j])
      {
        if group[j].0 < tallestMin {
          tallestMin := group[j].0;
        }
        if group[j].1 > tallestMax {
          tallestMax := group[j].1;
        }
        assert group[..j + 1][..j] == group[..j];
      }
      assert group[..|group|] == group;
      assert groups[..i + 1][..i] == groups[..i];
    }
    assert groups[..|groups|] == groups;
    r := (tallestMin, tallestMax);
  }

  lemma {:induction false} FoldStacksBounds(acc: (real, real), stacks: seq<(real, real)>)
    ensures FoldStacks(acc, stacks).0 <= acc.0 && FoldStacks(acc, stacks).1 >= acc.1
    ensures forall j :: 0 <= j < |stacks| ==>
              FoldStacks(acc, stacks).0 <= stacks[j].0 && FoldStacks(acc, stacks).1 >= stacks[j].1
    ensures FoldStacks(acc, stacks).0 == acc.0 || exists j :: 0 <= j < |stacks| && FoldStacks(acc, stacks).0 == stacks[j].0
    ensures FoldStacks(acc, stacks).1 == acc.1 || exists j :: 0 <= j < |stacks| && FoldStacks(acc, stacks).1 == stacks[j].1
  {
    if stacks != [] {
      var init := stacks[..|stacks| - 1];
      FoldStacksBounds(acc, init);
      assert forall j :: 0 <= j < |init| ==> init[j] == stacks[j];
    }
  }

  /** The result is the least stack minimum and the greatest stack maximum,
      each bounded by 0: min <= 0 <= max, and a non-zero bound is some stack's. */
  lemma {:induction false} LargestMinMaxBounds(groups: seq<seq<(real, real)>>)
    ensures FoldGroups(groups).0 <= 0.0 <= FoldGroups(groups).1
    ensures forall i, j :: 0 <= i < |groups| && 0 <= j < |groups[i]| ==>
              FoldGroups(groups).0 <= groups[i][j].0 && FoldGroups(groups).1 >= groups[i][j].1
    ensures FoldGroups(groups).0 == 0.0 ||
            exists i, j :: 0 <= i < |groups| && 0 <= j < |groups[i]| && FoldGroups(groups).0 == groups[i][j].0
    ensures FoldGroups(groups).1 == 0.0 ||
            exists i, j :: 0 <= i < |groups| && 0 <= j < |groups[i]| && FoldGroups(groups).1 == groups[i][j].1
  {
    if groups != [] {
      var init, last := groups[..|groups| - 1], groups[|groups| - 1];
      LargestMinMaxBounds(init);
      FoldStacksBounds(FoldGroups(init), last);
      assert forall i :: 0 <= i < |init| ==> init[i] == groups[i];
    }
  }

  // ---------------------------------------------------------------------------
  // processData

  /** `seriesItemEnabled.get(yKey)` is truthy. */
  predicate ItemEnabled(e: map<string, bool>, key: string) {
    key in e && e[key]
  }

  /** `isFinite(value) && seriesItemEnabled.get(yKey) ? value : 0`, with the
      value read as a number. */
  function YValue(row: Series.Row, key: string, e: map<string, bool>): (y: real)
    ensures ItemEnabled(e, key) && ToNumber(Series.Field(row, key)).Fin? ==> y == ToNumber(Series.Field(row, key)).r
    ensures !(ItemEnabled(e, key) && ToNumber(Series.Field(row, key)).Fin?) ==> y == 0.0
  {
    var n := ToNumber(Series.Field(row, key));
    if n.Fin? && ItemEnabled(e, key) then n.r else 0.0
  }

  /** The rows `processData` reads: none unless there is an x key, a y key and data. */
  function Rows(b: BarSeries, data: Option<seq<Series.Row>>): (rows: seq<Series.Row>)
    ensures rows != [] ==> b.xKey != "" && |b.yKeys| > 0 && data.Some? && rows == data.value
  {
    if b.xKey != "" && |b.yKeys| > 0 && data.Some? then data.value else []
  }

  /** The sanitised y values of one row: one list per stack, one value per key. */
  function RawGroup(row: Series.Row, stacks: seq<seq<string>>, e: map<string, bool>): (ys: seq<seq<real>>)
    ensures |ys| == |stacks| && forall s :: 0 <= s < |stacks| ==> |ys[s]| == |stacks[s]|
    ensures forall s, l :: 0 <= s < |stacks| && 0 <= l < |stacks[s]| ==> ys[s][l] == YValue(row, stacks[s][l], e)
  {
    seq(|stacks|, s requires 0 <= s < |stacks| =>
      seq(|stacks[s]|, l requires 0 <= l < |stacks[s]| => YValue(row, stacks[s][l], e)))
  }

  /** `normalizedTo && isFinite(normalizedTo)`: the normalisation target, if any. */
  function Target(normalizedTo: Option<Num>): (t: Option<real>)
    ensures t.Some? <==> normalizedTo.Some? && normalizedTo.value.Fin? && normalizedTo.value.r != 0.0
    ensures t.Some? ==> normalizedTo.value == Fin(t.value)
  {
    if normalizedTo.Some? && normalizedTo.value.Fin? && normalizedTo.value.r != 0.0 then Some(normalizedTo.value.r) else None
  }

  /** The rescaling `processData` applies when normalising, as written: a
      negative value over its stack's minimum, anything else over its stack's
      maximum, times the target. */
  function RescaleAsWritten(y: real, minMax: (real, real), n: real): Num {
    if y < 0.0 then Mul(Div(Fin(-y), Fin(minMax.0)), Fin(n)) else Mul(Div(Fin(y), Fin(minMax.1)), Fin(n))
  }

  /** A zero in a stack whose maximum is 0 (an all-zero stack, for instance a
      single disabled key) becomes 0/0 * n, which is NaN. */
  lemma RescaleAsWrittenZeroStack(n: real)
    ensures RescaleAsWritten(0.0, (0.0, 0.0), n).NaN?
    ensures RescaleAsWritten(0.0, (-3.0, 0.0), n).NaN?
  {
  }

  /** The rescaling with zero kept as zero; it agrees with the source on every
      other value. */
  function Rescale(y: real, minMax: (real, real), n: real): (r: Num)
    ensures y != 0.0 ==> r == RescaleAsWritten(y, minMax, n)
    ensures y == 0.0 ==> r == Zero
  {
    if y == 0.0 then Zero else RescaleAsWritten(y, minMax, n)
  }

  /** What `findMinMax` of a stack is expected to give: a minimum <= 0 and a
      maximum >= 0 that bound every value of the stack. */
  predicate Bounds(ys: seq<real>, minMax: (real, real)) {
    minMax.0 <= 0.0 <= minMax.1 && forall k :: 0 <= k < |ys| ==> minMax.0 <= ys[k] <= minMax.1
  }

  lemma RatioAtMostOne(a: real, d: real)
    requires 0.0 < a <= d
    ensures 0.0 < a / d <= 1.0
  {
    assert a / d <= d / d;
  }

  lemma ScaleWithin(q: real, n: real)
    requires 0.0 < q <= 1.0 && n > 0.0
    ensures 0.0 < q * n <= n
  {
    assert q * n <= 1.0 * n;
  }

  lemma NegativeRatio(a: real, m: real, n: real)
    requires 0.0 < a <= m && n > 0.0
    ensures -n <= (a / -m) * n < 0.0
  {
    RatioAtMostOne(a, m);
    ScaleWithin(a / m, n);
    assert a / -m == -(a / m);
    assert (a / -m) * n == -((a / m) * n);
  }

  /** Within its stack's bounds, a rescaled value is finite, keeps its sign and
      lies in [-n, n]. */
  lemma RescaleBounded(y: real, minMax: (real, real), n: real)
    requires n > 0.0 && minMax.0 <= 0.0 <= minMax.1 && minMax.0 <= y <= minMax.1
    ensures Rescale(y, minMax, n).Fin?
    ensures -n <= Rescale(y, minMax, n).r <= n
    ensures (y < 0.0 ==> Rescale(y, minMax, n).r < 0.0) && (y > 0.0 ==> Rescale(y, minMax, n).r > 0.0)
  {
    if y < 0.0 {
      RescaleNegative(y, minMax.0, minMax.1, n);
    } else if y > 0.0 {
      RescalePositive(y, minMax.0, minMax.1, n);
    }
  }

  lemma RescaleNegative(y: real, lo: real, hi: real, n: real)
    requires n > 0.0 && lo <= y < 0.0
    ensures Rescale(y, (lo, hi), n) == Fin((-y / lo) * n)
    ensures -n <= (-y / lo) * n < 0.0
  {
    assert Div(Fin(-y), Fin(lo)) == Fin(-y / lo);
    NegativeRatio(-y, -lo, n);
  }

  lemma RescalePositive(y: real, lo: real, hi: real, n: real)
    requires n > 0.0 && 0.0 < y <= hi
    ensures Rescale(y, (lo, hi), n) == Fin((y / hi) * n)
    ensures 0.0 < (y / hi) * n <= n
  {
    assert Div(Fin(y), Fin(hi)) == Fin(y / hi);
    RatioAtMostOne(y, hi);
    ScaleWithin(y / hi, n);
  }

  /** Every group has one value list per stack and one value per key. */
  predicate Shaped(b: BarSeries) {
    |b.yData| == |b.xData|
    && (forall g :: 0 <= g < |b.yData| ==> |b.yData[g]| == |b.yKeys|)
    && (forall g, s :: 0 <= g < |b.yData| && 0 <= s < |b.yKeys| ==> |b.yData[g][s]| == |b.yKeys[s]|)
  }

  /** The y values stored by `processData`: the sanitised values, rescaled
      to the target when normalising. */
  function StoredY(raw: seq<seq<seq<real>>>, minMax: seq<seq<(real, real)>>, target: Option<real>): (ys: seq<seq<seq<Num>>>)
    requires |minMax| == |raw| && forall g :: 0 <= g < |raw| ==> |minMax[g]| == |raw[g]|
    ensures |ys| == |raw|
    ensures forall g :: 0 <= g < |raw| ==> |ys[g]| == |raw[g]|
    ensures forall g, s :: 0 <= g < |raw| && 0 <= s < |raw[g]| ==> |ys[g][s]| == |raw[g][s]|
    ensures target.None? ==> forall g, s, l :: 0 <= g < |raw| && 0 <= s < |raw[g]| && 0 <= l < |raw[g][s]| ==>
              ys[g][s][l] == Fin(raw[g][s][l])
    ensures forall g, s, l :: (0 <= g < |raw| && 0 <= s < |raw[g]| && 0 <= l < |raw[g][s]|
                               && raw[g][s][l] == 0.0) ==> ys[g][s][l] == Zero
  {
    seq(|raw|, g requires 0 <= g < |raw| =>
      seq(|raw[g]|, s requires 0 <= s < |raw[g]| =>
        seq(|raw[g][s]|, l requires 0 <= l < |raw[g][s]| =>
          if target.Some? then Rescale(raw[g][s][l], minMax[g][s], target.value) else Fin(raw[g][s][l]))))
  }

  /** The y range before extent repair: the largest stack bounds, or the
      target (and its negation when some stack goes below 0). */
  function YRange(largest: (real, real), target: Option<real>): (r: (real, real))
    ensures largest.0 <= 0.0 <= largest.1 && (target.Some? ==> target.value > 0.0) ==> r.0 <= 0.0 <= r.1
  {
    if target.Some? then (if largest.0 < 0.0 then -target.value else 0.0, target.value) else largest
  }

  /** The sanitised y values of every row. */
  function RawData(rows: seq<Series.Row>, b: BarSeries): (raw: seq<seq<seq<real>>>)
    ensures |raw| == |rows|
    ensures forall g :: 0 <= g < |rows| ==> raw[g] == RawGroup(rows[g], b.yKeys, b.seriesItemEnabled)
  {
    seq(|rows|, g requires 0 <= g < |rows| => RawGroup(rows[g], b.yKeys, b.seriesItemEnabled))
  }

  /** `findMinMax` of every stack of every group. */
  function MinMaxes(raw: seq<seq<seq<real>>>, findMinMax: seq<real> -> (real, real)): (mm: seq<seq<(real, real)>>)
    ensures |mm| == |raw| && forall g :: 0 <= g < |raw| ==> |mm[g]| == |raw[g]|
    ensures forall g, s :: 0 <= g < |raw| && 0 <= s < |raw[g]| ==> mm[g][s] == findMinMax(raw[g][s])
  {
    seq(|raw|, g requires 0 <= g < |raw| => seq(|raw[g]|, s requires 0 <= s < |raw[g]| => findMinMax(raw[g][s])))
  }

  /** `datum[xKey]` of every row. */
  function XValues(rows: seq<Series.Row>, xKey: string): (xs: seq<JsValue>)
    ensures |xs| == |rows| && forall i :: 0 <= i < |rows| ==> xs[i] == Series.Field(rows[i], xKey)
  {
    seq(|rows|, i requires 0 <= i < |rows| => Series.Field(rows[i], xKey))
  }

  /** The y domain `processData` settles on. */
  function YDomain(b: BarSeries, rows: seq<Series.Row>, findMinMax: seq<real> -> (real, real),
                   isNumber: Num -> bool): (Num, Num)
  {
    var range := YRange(FoldGroups(MinMaxes(RawData(rows, b), findMinMax)), Target(b.normalizedTo));
    Series.FixNumericExtent(Some((Fin(range.0), Fin(range.1))), isNumber)
  }

  /** `processData`: x values and sanitised, possibly normalised y values per
      row, and the y domain; then 'dataProcessed' is fired. It always reports
      success. `findMinMax` and `isNumber` are the library's helpers, which
      are not part of this model. The normalisation is the corrected one
      (`Rescale`); `ProcessDataAsWritten` is the source's. */
  function ProcessData(b: BarSeries, o: Observable.Observable, data: Option<seq<Series.Row>>,
                       findMinMax: seq<real> -> (real, real), isNumber: Num -> bool)
    : (r: (BarSeries, bool, seq<Observable.Call>))
    ensures r.1
    ensures r.0 == b.(xData := r.0.xData, yData := r.0.yData, yDomain := r.0.yDomain)
    ensures !(b.xKey != "" && |b.yKeys| > 0 && data.Some?) ==> r.0.xData == [] && r.0.yData == []
    ensures |r.0.xData| == |Rows(b, data)|
    ensures forall i :: 0 <= i < |r.0.xData| ==> r.0.xData[i] == Series.Field(Rows(b, data)[i], b.xKey)
    ensures Shaped(r.0)
    ensures r.0.yDomain == Some(YDomain(b, Rows(b, data), findMinMax, isNumber))
    ensures forall c :: c in r.2 ==>
              c.event == Observable.Fired("dataProcessed", map[], o.self)
              && Observable.Registered(o.events, "dataProcessed", c.listener, c.scope)
    ensures Observable.ValidRegistry(o.events) ==>
              forall l, sc :: Observable.Count(r.2, Observable.Call(l, sc, Observable.Fired("dataProcessed", map[], o.self)))
                              == if Observable.Registered(o.events, "dataProcessed", l, sc) then 1 else 0
  {
    var rows := Rows(b, data);
    var raw := RawData(rows, b);
    var yData := StoredY(raw, MinMaxes(raw, findMinMax), Target(b.normalizedTo));
    var xData := XValues(rows, b.xKey);
    var noFields: map<string, JsValue> := map[];
    assert noFields - {"type", "source"} == noFields;
    Observable.FireEventCallsEachOnce(o, "dataProcessed", noFields);
    (b.(xData := xData, yData := yData, yDomain := Some(YDomain(b, rows, findMinMax, isNumber))), true,
     Observable.FireEvent(o, "dataProcessed", noFields))
  }

  /** Without a usable target the stored values are the sanitised ones; a
      disabled key is stored as 0 either way. */
  lemma ProcessDataValues(b: BarSeries, o: Observable.Observable, data: Option<seq<Series.Row>>,
                          findMinMax: seq<real> -> (real, real), isNumber: Num -> bool, g: nat, s: nat, l: nat)
    requires g < |Rows(b, data)| && s < |b.yKeys| && l < |b.yKeys[s]|
    ensures var y := ProcessData(b, o, data, findMinMax, isNumber).0.yData[g][s][l];
            Target(b.normalizedTo).None? ==> y == Fin(YValue(Rows(b, data)[g], b.yKeys[s][l], b.seriesItemEnabled))
    ensures var y := ProcessData(b, o, data, findMinMax, isNumber).0.yData[g][s][l];
            !ItemEnabled(b.seriesItemEnabled, b.yKeys[s][l]) ==> y == Zero
  {
    var raw := RawData(Rows(b, data), b);
    assert raw[g][s][l] == YValue(Rows(b, data)[g], b.yKeys[s][l], b.seriesItemEnabled);
  }

  /** With finiteness as the number test, the y domain is finite and spans 0;
      when normalising to n it is [0, n] or, when some stack goes below 0, [-n, n]. */
  lemma ProcessDataDomain(b: BarSeries, rows: seq<Series.Row>, findMinMax: seq<real> -> (real, real))
    requires Consistent(b)
    ensures var d := YDomain(b, rows, findMinMax, Series.IsFiniteNum);
            d.0.Fin? && d.1.Fin? && d.0.r <= 0.0 <= d.1.r
    ensures var d := YDomain(b, rows, findMinMax, Series.IsFiniteNum);
            Target(b.normalizedTo).Some? ==>
              d.1 == Fin(Target(b.normalizedTo).value) && (d.0 == Zero || d.0 == Fin(-Target(b.normalizedTo).value))
  {
    var minMax := MinMaxes(RawData(rows, b), findMinMax);
    LargestMinMaxBounds(minMax);
    var range := YRange(FoldGroups(minMax), Target(b.normalizedTo));
    var extent := Some((Fin(range.0), Fin(range.1)));
    Series.FixNumericExtentOrdered(extent);
    if range.0 == range.1 {
      Series.FixNumericExtentWidens(0.0);
    }
  }

  /** When normalising to n > 0 with stack bounds from `findMinMax`, every
      stored y value is finite and within [-n, n]. */
  lemma NormalisedValuesBounded(b: BarSeries, o: Observable.Observable, data: Option<seq<Series.Row>>,
                                findMinMax: seq<real> -> (real, real), isNumber: Num -> bool, g: nat, s: nat, l: nat)
    requires forall ys :: Bounds(ys, findMinMax(ys))
    requires Target(b.normalizedTo).Some? && Target(b.normalizedTo).value > 0.0
    requires g < |Rows(b, data)| && s < |b.yKeys| && l < |b.yKeys[s]|
    ensures var y := ProcessData(b, o, data, findMinMax, isNumber).0.yData[g][s][l];
            y.Fin? && -Target(b.normalizedTo).value <= y.r <= Target(b.normalizedTo).value
  {
    var rows := Rows(b, data);
    var raw := RawData(rows, b);
    var stackYs := raw[g][s];
    assert Bounds(stackYs, findMinMax(stackYs));
    RescaleBounded(stackYs[l], findMinMax(stackYs), Target(b.normalizedTo).value);
  }

  /** The y values `processData` stores as written: the normalising pass
      divides every value, a zero included, by its stack's bound. */
  function StoredYAsWritten(raw: seq<seq<seq<real>>>, minMax: seq<seq<(real, real)>>, target: Option<real>)
    : (ys: seq<seq<seq<Num>>>)
    requires |minMax| == |raw| && forall g :: 0 <= g < |raw| ==> |minMax[g]| == |raw[g]|
    ensures |ys| == |raw|
    ensures forall g :: 0 <= g < |raw| ==> |ys[g]| == |raw[g]|
    ensures forall g, s :: 0 <= g < |raw| && 0 <= s < |raw[g]| ==> |ys[g][s]| == |raw[g][s]|
    ensures target.None? ==> ys == StoredY(raw, minMax, target)
    ensures forall g, s, l :: (0 <= g < |raw| && 0 <= s < |raw[g]| && 0 <= l < |raw[g][s]|
                               && raw[g][s][l] != 0.0) ==> ys[g][s][l] == StoredY(raw, minMax, target)[g][s][l]
  {
    var ys := seq(|raw|, g requires 0 <= g < |raw| =>
      seq(|raw[g]|, s requires 0 <= s < |raw[g]| =>
        seq(|raw[g][s]|, l requires 0 <= l < |raw[g][s]| =>
          if target.Some? then RescaleAsWritten(raw[g][s][l], minMax[g][s], target.value) else Fin(raw[g][s][l]))));
    assert target.None? ==> ys == StoredY(raw, minMax, target) by {
      if target.None? {
        var c := StoredY(raw, minMax, target);
        forall g | 0 <= g < |raw| ensures ys[g] == c[g] {
          assert forall s :: 0 <= s < |raw[g]| ==> ys[g][s] == c[g][s];
        }
      }
    }
    ys
  }

  /** `processData` as written: the same x values, y domain and
      'dataProcessed' event as `ProcessData`, and the same y values except
      for the zeros of a normalised stack, which the source divides too. */
  function ProcessDataAsWritten(b: BarSeries, o: Observable.Observable, data: Option<seq<Series.Row>>,
                                findMinMax: seq<real> -> (real, real), isNumber: Num -> bool)
    : (r: (BarSeries, bool, seq<Observable.Call>))
    ensures var c := ProcessData(b, o, data, findMinMax, isNumber);
            r.1 && r.2 == c.2 && r.0.(yData := c.0.yData) == c.0 && Shaped(r.0)
    ensures Target(b.normalizedTo).None? ==> r == ProcessData(b, o, data, findMinMax, isNumber)
    ensures forall g, s, l :: (0 <= g < |Rows(b, data)| && 0 <= s < |b.yKeys| && 0 <= l < |b.yKeys[s]|
                               && YValue(Rows(b, data)[g], b.yKeys[s][l], b.seriesItemEnabled) != 0.0) ==>
              r.0.yData[g][s][l] == ProcessData(b, o, data, findMinMax, isNumber).0.yData[g][s][l]
  {
    var c := ProcessData(b, o, data, findMinMax, isNumber);
    var raw := RawData(Rows(b, data), b);
    var yData := StoredYAsWritten(raw, MinMaxes(raw, findMinMax), Target(b.normalizedTo));
    (c.0.(yData := yData), c.1, c.2)
  }

  /** The discrepancy: when normalising, a value read as 0 (a disabled key, a
      missing or non-finite field) in a stack whose maximum is 0 is stored as
      NaN as written, and as 0 by the corrected pass. */
  lemma ProcessDataAsWrittenZeroStack(b: BarSeries, o: Observable.Observable, data: Option<seq<Series.Row>>,
                                      findMinMax: seq<real> -> (real, real), isNumber: Num -> bool,
                                      g: nat, s: nat, l: nat)
    requires Target(b.normalizedTo).Some?
    requires g < |Rows(b, data)| && s < |b.yKeys| && l < |b.yKeys[s]|
    requires YValue(Rows(b, data)[g], b.yKeys[s][l], b.seriesItemEnabled) == 0.0
    requires findMinMax(RawData(Rows(b, data), b)[g][s]).1 == 0.0
    ensures ProcessDataAsWritten(b, o, data, findMinMax, isNumber).0.yData[g][s][l].NaN?
    ensures ProcessData(b, o, data, findMinMax, isNumber).0.yData[g][s][l] == Zero
  {
    var raw := RawData(Rows(b, data), b);
    assert raw[g][s][l] == 0.0;
    RescaleAsWrittenZeroStack(Target(b.normalizedTo).value);
    var m := findMinMax(raw[g][s]);
    assert RescaleAsWritten(0.0, m, Target(b.normalizedTo).value).NaN?;
  }

  // ---------------------------------------------------------------------------
  // Stacking

  /** The running positive base after `ys`: the sum of the values not below 0
      (`prevMaxY`). */
  function PositiveBase(ys: seq<Num>): Num {
    if ys == [] then Zero
    else
      var prev := PositiveBase(ys[..|ys| - 1]);
      if Lt(ys[|ys| - 1], Zero) then prev else Add(prev, ys[|ys| - 1])
  }

  /** The running negative base after `ys`: the sum of the values below 0 (`prevMinY`). */
  function NegativeBase(ys: seq<Num>): Num {
    if ys == [] then Zero
    else
      var prev := NegativeBase(ys[..|ys| - 1]);
      if Lt(ys[|ys| - 1], Zero) then Add(prev, ys[|ys| - 1]) else prev
  }

  /** A bar, in data coordinates: it spans `bottom` to `top` (the values the
      source hands to the y scale), and takes its colours from `colourIndex`. */
  datatype BarNode = BarNode(group: nat, stack: nat, level: nat, yKey: string, bottom: Num, top: Num, colourIndex: nat)

  /** Level `l` of a stack: a negative value sits on the negative base, any
      other on the positive base, and its colour index is the stack's running
      key count plus the level. */
  function LevelNode(g: nat, s: nat, keys: seq<string>, ys: seq<Num>, firstColour: nat, l: nat): BarNode
    requires l < |ys| && |keys| == |ys|
  {
    var prev := if Lt(ys[l], Zero) then NegativeBase(ys[..l]) else PositiveBase(ys[..l]);
    BarNode(g, s, l, keys[l], prev, Add(prev, ys[l]), firstColour + l)
  }

  /** The level loop of `createNodeData` for one stack, with its two running bases. */
  method StackBars(g: nat, s: nat, keys: seq<string>, ys: seq<Num>, firstColour: nat) returns (nodes: seq<BarNode>)
    requires |keys| == |ys|
    ensures |nodes| == |ys|
    ensures forall l :: 0 <= l < |ys| ==> nodes[l] == LevelNode(g, s, keys, ys, firstColour, l)
  {
    var prevMinY, prevMaxY := Zero, Zero;
    nodes := [];
    for l := 0 to |ys|
      invariant |nodes| == l
      invariant forall m :: 0 <= m < l ==> nodes[m] == LevelNode(g, s, keys, ys, firstColour, m)
      invariant prevMinY == NegativeBase(ys[..l]) && prevMaxY == PositiveBase(ys[..l])
    {
      var currY := ys[l];
      var prevY := if Lt(currY, Zero) then prevMinY else prevMaxY;
      nodes := nodes + [BarNode(g, s, l, keys[l], prevY, Add(prevY, currY), firstColour + l)];
      assert ys[..l + 1][..l] == ys[..l];
      if Lt(currY, Zero) {
        prevMinY := Add(prevMinY, currY);
      } else {
        prevMaxY := Add(prevMaxY, currY);
      }
    }
  }

  predicate AllFinite(ys: seq<Num>) {
    forall k :: 0 <= k < |ys| ==> ys[k].Fin?
  }

  lemma {:induction false} BasesFinite(ys: seq<Num>)
    requires AllFinite(ys)
    ensures PositiveBase(ys).Fin? && PositiveBase(ys).r >= 0.0
    ensures NegativeBase(ys).Fin? && NegativeBase(ys).r <= 0.0
  {
    if ys != [] {
      BasesFinite(ys[..|ys| - 1]);
    }
  }

  /** Over finite values the positive base only grows and the negative base only shrinks. */
  lemma {:induction false} BasesMonotone(ys: seq<Num>, i: nat, j: nat)
    requires AllFinite(ys) && i <= j <= |ys|
    ensures PositiveBase(ys[..i]).Fin? && PositiveBase(ys[..j]).Fin? && PositiveBase(ys[..i]).r <= PositiveBase(ys[..j]).r
    ensures NegativeBase(ys[..i]).Fin? && NegativeBase(ys[..j]).Fin? && NegativeBase(ys[..i]).r >= NegativeBase(ys[..j]).r
    decreases j - i
  {
    BasesFinite(ys[..i]);
    BasesFinite(ys[..j]);
    if i < j {
      BasesMonotone(ys, i, j - 1);
      assert ys[..j][..j - 1] == ys[..j - 1];
      assert ys[..j][j - 1] == ys[j - 1];
    }
  }

  lemma TopIsNextBase(ys: seq<Num>, l: nat)
    requires AllFinite(ys) && l < |ys|
    ensures !Lt(ys[l], Zero) ==> Add(PositiveBase(ys[..l]), ys[l]) == PositiveBase(ys[..l + 1])
    ensures Lt(ys[l], Zero) ==> Add(NegativeBase(ys[..l]), ys[l]) == NegativeBase(ys[..l + 1])
  {
    assert ys[..l + 1][..l] == ys[..l];
  }

  /** In a stack of finite values, bars of non-negative values stack upwards
      from 0 without overlapping, and bars of negative values downwards. */
  lemma StackedBarsDoNotOverlap(g: nat, s: nat, keys: seq<string>, ys: seq<Num>, c: nat, l: nat, m: nat)
    requires AllFinite(ys) && |keys| == |ys| && l < m < |ys|
    ensures var a, z := LevelNode(g, s, keys, ys, c, l), LevelNode(g, s, keys, ys, c, m);
            a.bottom.Fin? && a.top.Fin? && z.bottom.Fin? && z.top.Fin?
            && (ys[l].r >= 0.0 && ys[m].r >= 0.0 ==> 0.0 <= a.bottom.r <= a.top.r <= z.bottom.r <= z.top.r)
            && (ys[l].r < 0.0 && ys[m].r < 0.0 ==> 0.0 >= a.bottom.r >= a.top.r >= z.bottom.r >= z.top.r)
  {
    BasesMonotone(ys, l, l + 1);
    BasesMonotone(ys, l + 1, m);
    BasesMonotone(ys, 0, l);
    BasesFinite(ys[..m]);
    assert ys[..0] == [];
    TopIsNextBase(ys, l);
  }

  // ---------------------------------------------------------------------------
  // createNodeData

  /** The bars of stack `s` in group `g`. */
  function StackNodes(b: BarSeries, g: nat, s: nat): (nodes: seq<BarNode>)
    requires Consistent(b) && Shaped(b) && g < |b.yData| && s < |b.yKeys|
    ensures forall n :: n in nodes ==> (n.group == g && n.stack == s && n.level < |b.yKeys[s]|
                                        && n.yKey == b.yKeys[s][n.level] && n.colourIndex == b.cumYKeyCount[s] + n.level)
  {
    seq(|b.yData[g][s]|, l requires 0 <= l < |b.yData[g][s]| =>
      LevelNode(g, s, b.yKeys[s], b.yData[g][s], b.cumYKeyCount[s], l))
  }

  /** The stack loop of one group, from stack `s`; stacks outside the
      visible range of the category axis are skipped. */
  function GroupNodes(b: BarSeries, g: nat, s: nat, inRange: (nat, nat) -> bool): (nodes: seq<BarNode>)
    requires Consistent(b) && Shaped(b) && g < |b.yData| && s <= |b.yKeys|
    ensures forall n :: n in nodes ==> (n.group == g && s <= n.stack < |b.yKeys| && n.level < |b.yKeys[n.stack]|
                                        && inRange(g, n.stack) && n.yKey == b.yKeys[n.stack][n.level]
                                        && n.colourIndex == b.cumYKeyCount[n.stack] + n.level)
    decreases |b.yKeys| - s
  {
    if s == |b.yKeys| then []
    else (if inRange(g, s) then StackNodes(b, g, s) else []) + GroupNodes(b, g, s + 1, inRange)
  }

  /** The group loop, from group `g`. */
  function GroupsNodes(b: BarSeries, g: nat, inRange: (nat, nat) -> bool): (nodes: seq<BarNode>)
    requires Consistent(b) && Shaped(b) && g <= |b.yData|
    ensures forall n :: n in nodes ==> (g <= n.group < |b.yData| && n.stack < |b.yKeys| && n.level < |b.yKeys[n.stack]|
                                        && inRange(n.group, n.stack) && n.yKey == b.yKeys[n.stack][n.level]
                                        && n.colourIndex == b.cumYKeyCount[n.stack] + n.level)
    decreases |b.yData| - g
  {
    if g == |b.yData| then [] else GroupNodes(b, g, 0, inRange) + GroupsNodes(b, g + 1, inRange)
  }

  /** `createNodeData`: nothing unless the series is ready to draw; then the
      bars of every group, stack and level. A ready series has processed its
      data, so its y values are shaped like its keys. `inRange(group, stack)`
      is the category axis' visibility test, which is not part of this model. */
  function CreateNodeData(b: BarSeries, gate: Series.Gate, inRange: (nat, nat) -> bool): (nodes: seq<BarNode>)
    requires Consistent(b) && (Series.Ready(gate) ==> Shaped(b))
    ensures !Series.Ready(gate) ==> nodes == []
    ensures forall n :: n in nodes ==> (n.group < |b.xData| && n.stack < |b.yKeys| && n.level < |b.yKeys[n.stack]|
                                        && inRange(n.group, n.stack) && n.yKey == b.yKeys[n.stack][n.level]
                                        && n.colourIndex == b.cumYKeyCount[n.stack] + n.level)
  {
    if Series.Ready(gate) then GroupsNodes(b, 0, inRange) else []
  }

  /** A bar's colour index is its key's position among all keys, so bars of
      different keys get different colours until the palette wraps, and the
      fill is the one the legend shows for that key. */
  lemma BarColours(b: BarSeries, gate: Series.Gate, inRange: (nat, nat) -> bool, n: BarNode)
    requires Consistent(b) && (Series.Ready(gate) ==> Shaped(b))
    requires n in CreateNodeData(b, gate, inRange)
    ensures n.colourIndex < |Flatten(b.yKeys)| && Flatten(b.yKeys)[n.colourIndex] == n.yKey
    ensures Legend.Pick(b.fills, n.colourIndex) == Entry(b, "", n.yKey, n.colourIndex).fill
  {
    FlatPosition(b.yKeys, n.stack, n.level);
  }

  /** Two bars of different (stack, level) slots have different colour indices. */
  lemma BarColoursDistinct(b: BarSeries, gate: Series.Gate, inRange: (nat, nat) -> bool, n: BarNode, m: BarNode)
    requires Consistent(b) && (Series.Ready(gate) ==> Shaped(b))
    requires n in CreateNodeData(b, gate, inRange) && m in CreateNodeData(b, gate, inRange)
    requires (n.stack, n.level) != (m.stack, m.level)
    ensures n.colourIndex != m.colourIndex
  {
    if n.stack < m.stack {
      SlotsDistinct(b.yKeys, n.stack, n.level, m.stack, m.level);
    } else if m.stack < n.stack {
      SlotsDistinct(b.yKeys, m.stack, m.level, n.stack, n.level);
    }
  }
}
