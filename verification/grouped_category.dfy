/** The grouped-category chart's axis update: each axis collects the domains
    of its visible bound series and hands the axis their extent, or their
    concatenation when they have none. On the X axis only the first visible
    series' domain is taken unless that domain starts with a number.

    `extent` (with `isContinuous`) is outside this model and arrives as a
    parameter; series domains are given per direction. */
module GroupedCategory {
  import opened Js
  import Series

  /** A series bound to an axis: its visibility and its domain per direction. */
  datatype BoundSeries = BoundSeries(visible: bool, xDomain: seq<JsValue>, yDomain: seq<JsValue>)

  /** An axis: its direction and the series bound to it, in binding order. */
  datatype Axis = Axis(direction: Series.Direction, boundSeries: seq<BoundSeries>)

  function DomainOf(s: BoundSeries, d: Series.Direction): seq<JsValue> {
    if d == Series.X then s.xDomain else s.yDomain
  }

  /** `boundSeries.filter(s => s.visible)`. */
  function Visible(ss: seq<BoundSeries>): (r: seq<BoundSeries>)
    ensures |r| <= |ss|
  {
    if ss == [] then []
    else Visible(ss[..|ss| - 1]) + (if ss[|ss| - 1].visible then [ss[|ss| - 1]] else [])
  }

  /** `typeof domain[0] === 'number'`: an empty domain is not numeric. */
  predicate Numeric(domain: seq<JsValue>) {
    |domain| > 0 && domain[0].Number?
  }

  /** The domains of some series in one direction, in order. */
  function Domains(vis: seq<BoundSeries>, d: Series.Direction): (ds: seq<seq<JsValue>>)
    ensures |ds| == |vis| && forall i :: 0 <= i < |vis| ==> ds[i] == DomainOf(vis[i], d)
  {
    seq(|vis|, i requires 0 <= i < |vis| => DomainOf(vis[i], d))
  }

  /** Reference: the domains an axis collects from its visible series. Off
      the X direction, all of them; on it, all of them when the first starts
      with a number, else the first alone. */
  function Contributions(vis: seq<BoundSeries>, d: Series.Direction): seq<seq<JsValue>> {
    if d == Series.X && |vis| > 0 && !Numeric(vis[0].xDomain) then [vis[0].xDomain]
    else Domains(vis, d)
  }

  /** `[].concat(...domains)`. */
  function Concat(ds: seq<seq<JsValue>>): (r: seq<JsValue>) {
    if ds == [] then [] else Concat(ds[..|ds| - 1]) + ds[|ds| - 1]
  }

  /** The flag the loop keeps: unset before the first visible series, then
      whether its X domain starts with a number. */
  function NumericX(vis: seq<BoundSeries>): Option<bool> {
    if |vis| == 0 then None else Some(Numeric(vis[0].xDomain))
  }

  /** One visible series more extends the collected domains as the loop body does. */
  lemma {:induction false} ContributionsStep(vis: seq<BoundSeries>, s: BoundSeries, d: Series.Direction)
    ensures d != Series.X ==> Contributions(vis + [s], d) == Contributions(vis, d) + [DomainOf(s, d)]
    ensures d == Series.X && NumericX(vis).None? ==> Contributions(vis + [s], d) == [s.xDomain]
    ensures d == Series.X && NumericX(vis) == Some(true) ==> Contributions(vis + [s], d) == Contributions(vis, d) + [s.xDomain]
    ensures d == Series.X && NumericX(vis) == Some(false) ==> Contributions(vis + [s], d) == Contributions(vis, d)
    ensures d == Series.X && NumericX(vis).None? ==> NumericX(vis + [s]) == Some(Numeric(s.xDomain))
    ensures NumericX(vis).Some? ==> NumericX(vis + [s]) == NumericX(vis)
  {
    var w := vis + [s];
    assert w[0] == if |vis| == 0 then s else vis[0];
    assert Domains(w, d) == Domains(vis, d) + [DomainOf(s, d)];
  }

  lemma VisibleStep(ss: seq<BoundSeries>, i: nat)
    requires i < |ss|
    ensures Visible(ss[..i + 1]) == Visible(ss[..i]) + (if ss[i].visible then [ss[i]] else [])
  {
    assert ss[..i + 1][..i] == ss[..i];
  }

  /** The per-axis loop over the bound series. */
  method CollectDomains(a: Axis) returns (domains: seq<seq<JsValue>>)
    ensures domains == Contributions(Visible(a.boundSeries), a.direction)
  {
    domains := [];
    var isNumericX: Option<bool> := None;
    var i := 0;
    while i < |a.boundSeries|
      invariant i <= |a.boundSeries|
      invariant domains == Contributions(Visible(a.boundSeries[..i]), a.direction)
      invariant a.direction == Series.X ==> isNumericX == NumericX(Visible(a.boundSeries[..i]))
    {
      var s := a.boundSeries[i];
      var before := Visible(a.boundSeries[..i]);
      VisibleStep(a.boundSeries, i);
      if s.visible {
        ContributionsStep(before, s, a.direction);
        if a.direction == Series.X {
          if isNumericX.None? {
            domains := domains + [s.xDomain];
            isNumericX := Some(Numeric(s.xDomain));
          } else if isNumericX.value {
            domains := domains + [s.xDomain];
          }
        } else {
          domains := domains + [s.yDomain];
        }
      }
      i := i + 1;
    }
    assert a.boundSeries[..i] == a.boundSeries;
  }

  /** `axis.domain = extent(domain, isContinuous) || domain`. */
  function AxisDomainOf(values: seq<JsValue>, extent: seq<JsValue> -> Option<(Num, Num)>): (d: Series.AxisDomain)
    ensures extent(values).Some? ==> d == Series.Bounds(extent(values).value)
    ensures extent(values).None? ==> d == Series.Values(values)
  {
    if extent(values).Some? then Series.Bounds(extent(values).value) else Series.Values(values)
  }

  /** `updateAxes`: every axis gets a domain, computed from its own bound series. */
  method UpdateAxes(axes: seq<Axis>, extent: seq<JsValue> -> Option<(Num, Num)>) returns (domains: seq<Series.AxisDomain>)
    ensures |domains| == |axes|
    ensures forall i :: 0 <= i < |axes| ==>
              domains[i] == AxisDomainOf(Concat(Contributions(Visible(axes[i].boundSeries), axes[i].direction)), extent)
  {
    domains := [];
    var i := 0;
    while i < |axes|
      invariant i <= |axes| && |domains| == i
      invariant forall j :: 0 <= j < i ==>
                  domains[j] == AxisDomainOf(Concat(Contributions(Visible(axes[j].boundSeries), axes[j].direction)), extent)
    {
      var collected := CollectDomains(axes[i]);
      domains := domains + [AxisDomainOf(Concat(collected), extent)];
      i := i + 1;
    }
  }

  // ---------------------------------------------------------------------------
  // Properties

  lemma {:induction false} ConcatAppend(ds: seq<seq<JsValue>>, es: seq<seq<JsValue>>)
    ensures Concat(ds + es) == Concat(ds) + Concat(es)
    decreases |es|
  {
    if es == [] {
      assert ds + es == ds;
    } else {
      var init := es[..|es| - 1];
      assert ds + es == (ds + init) + [es[|es| - 1]];
      assert (ds + es)[..|ds + es| - 1] == ds + init;
      ConcatAppend(ds, init);
    }
  }

  lemma {:induction false} VisibleAppend(a: seq<BoundSeries>, b: seq<BoundSeries>)
    ensures Visible(a + b) == Visible(a) + Visible(b)
    decreases |b|
  {
    if b == [] {
      assert a + b == a;
    } else {
      var init := b[..|b| - 1];
      assert (a + b)[..|a + b| - 1] == a + init;
      assert (a + b)[|a + b| - 1] == b[|b| - 1];
      VisibleAppend(a, init);
    }
  }

  /** A hidden series contributes nothing wherever it is bound. */
  lemma {:induction false} HiddenSeriesIgnored(a: seq<BoundSeries>, s: BoundSeries, b: seq<BoundSeries>, d: Series.Direction)
    requires !s.visible
    ensures Contributions(Visible(a + [s] + b), d) == Contributions(Visible(a + b), d)
  {
    assert Visible(a + [s] + b) == Visible(a + b) by {
      VisibleAppend(a + [s], b);
      VisibleAppend(a, [s]);
      VisibleAppend(a, b);
      assert [s][..0] == [];
    }
  }

  /** The filter keeps exactly the visible series. */
  lemma {:induction false} VisibleIsFilter(ss: seq<BoundSeries>)
    ensures forall s :: s in Visible(ss) ==> s.visible && s in ss
    ensures forall s :: s in ss && s.visible ==> s in Visible(ss)
    decreases |ss|
  {
    if ss != [] {
      var init := ss[..|ss| - 1];
      VisibleIsFilter(init);
      assert ss == init + [ss[|ss| - 1]];
    }
  }

  /** On the X axis a first visible domain that does not start with a number
      (an empty one included) is the whole collected domain. */
  lemma NonNumericXKeepsFirst(vis: seq<BoundSeries>)
    requires |vis| > 0 && !Numeric(vis[0].xDomain)
    ensures Concat(Contributions(vis, Series.X)) == vis[0].xDomain
  {
    ConcatAppend([], [vis[0].xDomain]);
  }

  /** Off the X axis, or when the first X domain is numeric, every value of
      every visible series' domain reaches the axis. */
  lemma {:induction false} AllValuesCollected(vis: seq<BoundSeries>, d: Series.Direction, i: nat, j: nat)
    requires d != Series.X || (|vis| > 0 && Numeric(vis[0].xDomain))
    requires i < |vis| && j < |DomainOf(vis[i], d)|
    ensures DomainOf(vis[i], d)[j] in Concat(Contributions(vis, d))
  {
    var ds := Domains(vis, d);
    assert ds == ds[..i] + [ds[i]] + ds[i + 1..];
    ConcatAppend(ds[..i] + [ds[i]], ds[i + 1..]);
    ConcatAppend(ds[..i], [ds[i]]);
    ConcatAppend([], [ds[i]]);
  }
}
