/** The polar chart's layout: the series rectangle is the chart's area less
    the caption space, the legend's space and side (when the legend is shown)
    and the chart padding; every polar series is centred in it with the
    largest radius that fits.

    Caption and legend placement (which produce the automatic paddings) are
    outside this model and arrive as numbers. */
module Polar {
  import opened Js
  import opened Reactive
  import Observable
  import Legend

  /** A rectangle: left, top, width and height. */
  datatype Rect = Rect(x: real, y: real, width: real, height: real)

  /** Space on each side. */
  datatype Sides = Sides(top: real, right: real, bottom: real, left: real)

  /** What the layout reads of the legend: whether it is enabled, how many
      items it has, its side, its spacing and the space it reserved. */
  datatype LegendInfo = LegendInfo(enabled: bool, items: nat, position: Legend.Position, spacing: real,
                                   autoPadding: Sides)

  /** A series of the chart: a polar series with the centre and radius last
      assigned to it and whether it has been updated, or any other series. */
  datatype ChartSeries =
    | PolarSeries(centerX: real, centerY: real, radius: real, updated: bool)
    | OtherSeries(id: nat)

  /** `@reactive('layoutChange') padding = new Padding(40)`: an object-checked
      property whose default is a fresh padding object. */
  function PaddingProp(paddingObject: nat): Prop {
    Prop("padding", ObjRef(paddingObject), ["layoutChange"], true)
  }

  /** The padding is compared with the object check: assigning the chart's
      current padding object again (after editing its sides in place, say)
      still notifies the 'padding' listeners and then the 'layoutChange'
      listeners, so the chart lays itself out again. */
  lemma PaddingReassignRelayouts(c: Component, paddingObject: nat)
    requires Get(c, "padding") == ObjRef(paddingObject)
    ensures var r := Set(c, PaddingProp(paddingObject), ObjRef(paddingObject));
            r.c == c
            && r.calls == Observable.NotifyPropertyListeners(c.obs, "padding", ObjRef(paddingObject), ObjRef(paddingObject))
                          + Observable.NotifyEventListeners(c.obs, ["layoutChange"])
  {
    assert c.fields["padding" := ObjRef(paddingObject)] == c.fields;
  }

  /** The sides of the default padding object. */
  const DefaultPadding := Sides(40.0, 40.0, 40.0, 40.0)

  predicate LegendShown(l: LegendInfo) {
    l.enabled && l.items > 0
  }

  /** The rectangle steps of `performLayout`, in source order. */
  function ShrinkRect(width: real, height: real, captionAutoPadding: real, l: LegendInfo, padding: Sides): (r: Rect)
  {
    var r0 := Rect(0.0, 0.0, width, height);
    var r1 := r0.(y := r0.y + captionAutoPadding, height := r0.height - captionAutoPadding);
    var r2 := if !LegendShown(l) then r1
              else
                var a := l.autoPadding;
                var q := Rect(r1.x + a.left, r1.y + a.top, r1.width - (a.left + a.right), r1.height - (a.top + a.bottom));
                match l.position
                case Right => q.(width := q.width - l.spacing)
                case Bottom => q.(height := q.height - l.spacing)
                case Left => q.(x := q.x + l.spacing, width := q.width - l.spacing)
                case Top => q.(y := q.y + l.spacing, height := q.height - l.spacing);
    Rect(r2.x + padding.left, r2.y + padding.top,
         r2.width - (padding.left + padding.right), r2.height - (padding.top + padding.bottom))
  }

  /** The space the legend takes from each side: its reserved space plus its
      spacing on its own side, nothing when it is hidden or empty. */
  function LegendInsets(l: LegendInfo): (s: Sides)
    ensures !LegendShown(l) ==> s == Sides(0.0, 0.0, 0.0, 0.0)
  {
    if !LegendShown(l) then Sides(0.0, 0.0, 0.0, 0.0)
    else
      var a := l.autoPadding;
      Sides(a.top + (if l.position == Legend.Top then l.spacing else 0.0),
            a.right + (if l.position == Legend.Right then l.spacing else 0.0),
            a.bottom + (if l.position == Legend.Bottom then l.spacing else 0.0),
            a.left + (if l.position == Legend.Left then l.spacing else 0.0))
  }

  /** The series rectangle in closed form: every inset is taken from its own
      side, and what the insets take plus what remains is the chart's size. */
  lemma ShrinkRectInsets(width: real, height: real, caption: real, l: LegendInfo, padding: Sides)
    ensures var r := ShrinkRect(width, height, caption, l, padding);
            var e := LegendInsets(l);
            r.x == e.left + padding.left
            && r.y == caption + e.top + padding.top
            && r.x + r.width + e.right + padding.right == width
            && r.y + r.height + e.bottom + padding.bottom == height
  {
  }

  /** The legend's spacing lands on the legend's own side only. */
  lemma SpacingOnLegendSide(width: real, height: real, caption: real, l: LegendInfo, padding: Sides)
    requires LegendShown(l)
    ensures var r := ShrinkRect(width, height, caption, l, padding);
            var z := ShrinkRect(width, height, caption, l.(spacing := 0.0), padding);
            (l.position == Legend.Right ==> r == z.(width := z.width - l.spacing))
            && (l.position == Legend.Bottom ==> r == z.(height := z.height - l.spacing))
            && (l.position == Legend.Left ==> r == z.(x := z.x + l.spacing, width := z.width - l.spacing))
            && (l.position == Legend.Top ==> r == z.(y := z.y + l.spacing, height := z.height - l.spacing))
  {
  }

  function Min(a: real, b: real): (m: real)
    ensures m <= a && m <= b && (m == a || m == b)
  {
    if a <= b then a else b
  }

  /** `performLayout`: the series rectangle, and the series with every polar
      series centred in it and given half the smaller side as radius, then updated. */
  function PerformLayout(width: real, height: real, caption: real, l: LegendInfo, padding: Sides,
                         series: seq<ChartSeries>): (r: (Rect, seq<ChartSeries>))
    ensures r.0 == ShrinkRect(width, height, caption, l, padding)
    ensures |r.1| == |series|
    ensures forall i :: 0 <= i < |series| && series[i].OtherSeries? ==> r.1[i] == series[i]
    ensures forall i :: 0 <= i < |series| && series[i].PolarSeries? ==>
              r.1[i] == PolarSeries(r.0.x + r.0.width / 2.0, r.0.y + r.0.height / 2.0,
                                    Min(r.0.width, r.0.height) / 2.0, true)
  {
    var rect := ShrinkRect(width, height, caption, l, padding);
    var placed := PolarSeries(rect.x + rect.width / 2.0, rect.y + rect.height / 2.0, Min(rect.width, rect.height) / 2.0, true);
    (rect, seq(|series|, i requires 0 <= i < |series| => if series[i].PolarSeries? then placed else series[i]))
  }

  /** A polar series' circle lies inside the series rectangle when the
      rectangle is not inverted: the centre is at least a radius from each side. */
  lemma CircleFitsRect(width: real, height: real, caption: real, l: LegendInfo, padding: Sides,
                       series: seq<ChartSeries>, i: nat)
    requires i < |series| && series[i].PolarSeries?
    requires var r := ShrinkRect(width, height, caption, l, padding); r.width >= 0.0 && r.height >= 0.0
    ensures var (r, out) := PerformLayout(width, height, caption, l, padding, series);
            var s := out[i];
            s.radius >= 0.0
            && r.x <= s.centerX - s.radius && s.centerX + s.radius <= r.x + r.width
            && r.y <= s.centerY - s.radius && s.centerY + s.radius <= r.y + r.height
  {
  }
}
