/** The chart legend: the orientation and visibility rules wired up in its
    constructor, the grid packing `performLayout` searches for, the placement
    of items in that grid, the item keys and the opacity `update` applies.

    Measuring an item (marker plus label) is done by the scene graph; here each
    item arrives as its measured `Box`. The keyed selection that turns data into
    marker-label nodes is not part of this model: the items are laid out in data
    order, which is what the selection's merge yields. */
module Legend {
  import opened Js
  import opened Arith

  datatype Orientation = Vertical | Horizontal
  datatype Position = Top | Right | Bottom | Left

  /** One legend entry: component id, sub-component id (as text), whether the
      sub-component is enabled, and the label text. */
  datatype Datum = Datum(id: string, itemId: string, enabled: bool, text: string)

  /** A legend datum with its marker colours. The marker's `shape`,
      `fillOpacity` and `strokeOpacity`, which every series also supplies,
      are not kept here: the shape reaches `ItemKey` as an argument of its
      own, and the marker nodes they style are not part of this model. */
  datatype LegendEntry = LegendEntry(datum: Datum, fill: Option<string>, stroke: Option<string>)

  /** `palette[index % palette.length]`, the series' colour choice; an empty
      palette yields undefined. */
  function Pick(palette: seq<string>, index: nat): (c: Option<string>)
    ensures palette == [] <==> c.None?
    ensures c.Some? ==> c.value in palette
  {
    if palette == [] then None else Some(palette[index % |palette|])
  }

  /** The measured bounding box of one marker-and-label item. */
  datatype Box = Box(width: real, height: real)

  /** The legend's state as far as the rules below read or write it. */
  datatype LegendState = LegendState(data: seq<Datum>, enabled: bool, orientation: Orientation,
                                     position: Position, visible: bool,
                                     size: (real, real), oldSize: (real, real))

  // ---------------------------------------------------------------------------
  // Setters and the constructor's property listeners

  function OrientationFor(p: Position): Orientation {
    if p == Right || p == Left then Vertical else Horizontal
  }

  /** `data` holds an array, so its setter always fires; the 'data' listener
      then shows the group iff there is data and the legend is enabled. */
  function SetData(l: LegendState, data: seq<Datum>): (r: LegendState)
    ensures r.data == data && r.enabled == l.enabled
    ensures r.visible <==> |data| > 0 && l.enabled
    ensures r.(data := l.data, visible := l.visible) == l
  {
    l.(data := data, visible := |data| > 0 && l.enabled)
  }

  /** `enabled` fires only on change; its listener then recomputes visibility. */
  function SetEnabled(l: LegendState, enabled: bool): (r: LegendState)
    ensures r.enabled == enabled && r.data == l.data
    ensures enabled != l.enabled ==> (r.visible <==> enabled && |l.data| > 0)
    ensures enabled == l.enabled ==> r == l
    ensures r.(enabled := l.enabled, visible := l.visible) == l
  {
    if enabled != l.enabled then l.(enabled := enabled, visible := enabled && |l.data| > 0) else l
  }

  /** `position` fires only on change; its listener sets the orientation. */
  function SetPosition(l: LegendState, p: Position): (r: LegendState)
    ensures r.position == p
    ensures p == l.position ==> r == l
  {
    if p != l.position then l.(position := p, orientation := OrientationFor(p)) else l
  }

  /** A change of position to right or left makes the legend vertical, to top
      or bottom horizontal; nothing else changes. */
  lemma PositionSetsOrientation(l: LegendState, p: Position)
    requires p != l.position
    ensures SetPosition(l, p).orientation == Vertical <==> p == Right || p == Left
    ensures SetPosition(l, p).orientation == Horizontal <==> p == Top || p == Bottom
    ensures SetPosition(l, p).(position := l.position, orientation := l.orientation) == l
  {
  }

  predicate VisibilityAgrees(l: LegendState) {
    l.visible <==> |l.data| > 0 && l.enabled
  }

  /** After any data assignment or a change of `enabled`, the group is visible
      exactly when there is data and the legend is enabled; a state where this
      already holds keeps it under both setters. */
  lemma VisibilityFollowsDataAndEnabled(l: LegendState, data: seq<Datum>, enabled: bool)
    ensures VisibilityAgrees(SetData(l, data))
    ensures enabled != l.enabled ==> VisibilityAgrees(SetEnabled(l, enabled))
    ensures VisibilityAgrees(l) ==> VisibilityAgrees(SetEnabled(l, enabled))
  {
  }

  // ---------------------------------------------------------------------------
  // Item keys and the `update` pass

  /** The selection key of an item: component id, item id and marker-shape name, joined by '-'. */
  function ItemKey(d: Datum, shapeName: string): string {
    d.id + "-" + d.itemId + "-" + shapeName
  }

  lemma {:induction false} DashSplit(a: string, b: string, c: string, d: string)
    requires '-' !in b && '-' !in d
    requires a + "-" + b == c + "-" + d
    ensures a == c && b == d
  {
    var s := a + "-" + b;
    assert |s| == |a| + 1 + |b| == |c| + 1 + |d|;
    if |b| < |d| {
      SeparatorAt(a, b);
      assert false;
    } else if |d| < |b| {
      SeparatorAt(c, d);
      assert false;
    }
    assert a == s[..|a|] == c;
    assert b == s[|a| + 1..] == d;
  }

  lemma SeparatorAt(a: string, b: string)
    ensures (a + "-" + b)[|a|] == '-'
  {
  }

  lemma InsideRight(c: string, d: string, k: nat)
    requires |c| < k < |c| + 1 + |d|
    ensures (c + "-" + d)[k] in d
  {
    assert (c + "-" + d)[k] == d[k - |c| - 1];
  }

  /** The key determines the component id, item id and shape name whenever
      item ids and shape names contain no '-' (component ids may: createId
      yields `Class-n`). */
  lemma ItemKeyInjective(d1: Datum, s1: string, d2: Datum, s2: string)
    requires '-' !in d1.itemId && '-' !in d2.itemId && '-' !in s1 && '-' !in s2
    requires ItemKey(d1, s1) == ItemKey(d2, s2)
    ensures d1.id == d2.id && d1.itemId == d2.itemId && s1 == s2
  {
    assert ItemKey(d1, s1) == (d1.id + "-" + d1.itemId) + "-" + s1;
    assert ItemKey(d2, s2) == (d2.id + "-" + d2.itemId) + "-" + s2;
    DashSplit(d1.id + "-" + d1.itemId, s1, d2.id + "-" + d2.itemId, s2);
    DashSplit(d1.id, d1.itemId, d2.id, d2.itemId);
  }

  /** `update`: enabled items are drawn opaque, disabled ones at half opacity. */
  function Opacities(data: seq<Datum>): (r: seq<real>)
    ensures |r| == |data|
    ensures forall i :: 0 <= i < |r| ==> (r[i] == 1.0 <==> data[i].enabled) && (r[i] == 0.5 <==> !data[i].enabled)
  {
    seq(|data|, i requires 0 <= i < |data| => if data[i].enabled then 1.0 else 0.5)
  }

  // ---------------------------------------------------------------------------
  // Grid packing: reference definitions

  /** Items go into columns of `rows` items, top to bottom. A zero row count
      (only reached by an empty vertical legend) never closes a column. */
  function FirstColumnLength(n: nat, rows: nat): (k: nat)
    ensures k <= n && (n > 0 ==> k > 0)
  {
    if rows == 0 || rows > n then n else rows
  }

  /** The width of a column: the widest item, and never below 0 since the
      running maximum starts at 0. */
  function MaxWidth(bs: seq<Box>): (w: real)
    ensures w >= 0.0
    ensures forall i :: 0 <= i < |bs| ==> bs[i].width <= w
  {
    if bs == [] then 0.0
    else
      var w := MaxWidth(bs[..|bs| - 1]);
      assert forall i :: 0 <= i < |bs| - 1 ==> bs[..|bs| - 1][i] == bs[i];
      if bs[|bs| - 1].width > w then bs[|bs| - 1].width else w
  }

  /** A positive column width is the width of one of its items. */
  lemma {:induction false} MaxWidthAttained(bs: seq<Box>)
    ensures MaxWidth(bs) == 0.0 || exists i :: 0 <= i < |bs| && bs[i].width == MaxWidth(bs)
  {
    if bs != [] {
      var p := bs[..|bs| - 1];
      MaxWidthAttained(p);
      if MaxWidth(bs) != bs[|bs| - 1].width && MaxWidth(bs) != 0.0 {
        var i :| 0 <= i < |p| && p[i].width == MaxWidth(p);
        assert bs[i] == p[i];
      }
    }
  }

  function SumHeights(bs: seq<Box>): real {
    if bs == [] then 0.0 else SumHeights(bs[..|bs| - 1]) + bs[|bs| - 1].height
  }

  /** The sum of the column widths. */
  function ItemsWidth(bs: seq<Box>, rows: nat): real
    decreases |bs|
  {
    if bs == [] then 0.0
    else
      var k := FirstColumnLength(|bs|, rows);
      MaxWidth(bs[..k]) + ItemsWidth(bs[k..], rows)
  }

  /** The number of columns `n` items fill with `rows` rows: the ceiling of n / rows. */
  function ColumnCount(n: nat, rows: nat): (c: nat)
    ensures rows >= n ==> c <= 1
    ensures n > 0 <==> c > 0
  {
    if n == 0 then 0 else 1 + ColumnCount(n - FirstColumnLength(n, rows), rows)
  }

  /** The column count is the ceiling of n / rows. */
  lemma {:induction false} ColumnCountIsCeiling(n: nat, rows: nat)
    requires rows > 0
    ensures (ColumnCount(n, rows) - 1) * rows < n <= ColumnCount(n, rows) * rows
    decreases n
  {
    var c := ColumnCount(n, rows);
    if n > rows {
      ColumnCountIsCeiling(n - rows, rows);
      assert c == ColumnCount(n - rows, rows) + 1;
      assert c * rows == ColumnCount(n - rows, rows) * rows + rows;
      assert (c - 1) * rows == (ColumnCount(n - rows, rows) - 1) * rows + rows;
    }
  }

  /** Packed width: column widths plus a gap of `px` between columns. With a
      zero row count JavaScript's `0 % 0` is NaN, which the pass reads as one
      open column. */
  function PackedWidth(bs: seq<Box>, rows: nat, px: real): real {
    ItemsWidth(bs, rows) + Scale(PackedColumns(|bs|, rows) as int - 1, px)
  }

  /** The column count the packed width is measured with. */
  function PackedColumns(n: nat, rows: nat): nat {
    if rows == 0 then 1 else ColumnCount(n, rows)
  }

  /** `bboxes.length && bboxes[0].height`. */
  function ItemHeight(bs: seq<Box>): real {
    if |bs| > 0 then bs[0].height else 0.0
  }

  /** Horizontal legends assume every row is as tall as the first item. */
  function HorizontalHeight(bs: seq<Box>, rows: nat, py: real): real {
    Scale(rows, ItemHeight(bs)) + Scale(rows as int - 1, py)
  }

  /** Vertical legends measure the first column. */
  function VerticalHeight(bs: seq<Box>, rows: nat, py: real): real {
    SumHeights(bs[..FirstColumnLength(|bs|, rows)]) + Scale(rows as int - 1, py)
  }

  /** The packed width is the source's `itemsWidth + (columnCount - 1) * paddingX`. */
  lemma {:induction false} PackedWidthIsProduct(bs: seq<Box>, rows: nat, px: real)
    ensures var gaps := PackedColumns(|bs|, rows) as int - 1;
            PackedWidth(bs, rows, px) == ItemsWidth(bs, rows) + gaps as real * px
  {
    var gaps := PackedColumns(|bs|, rows) as int - 1;
    ScaleIsProduct(gaps, px);
  }

  /** The packed heights are the source's `itemHeight * rowCount` or the first
      column's height, plus `(rowCount - 1) * paddingY`. */
  lemma {:induction false} PackedHeightsAreProducts(bs: seq<Box>, rows: nat, py: real)
    ensures HorizontalHeight(bs, rows, py) == rows as real * ItemHeight(bs) + (rows - 1) as real * py
    ensures VerticalHeight(bs, rows, py)
            == SumHeights(bs[..FirstColumnLength(|bs|, rows)]) + (rows - 1) as real * py
  {
    ScaleIsProduct(rows, ItemHeight(bs));
    ScaleIsProduct(rows - 1, py);
  }

  predicate HorizontalFits(bs: seq<Box>, rows: nat, px: real, width: real) {
    PackedWidth(bs, rows, px) <= width || ColumnCount(|bs|, rows) <= 1
  }

  predicate VerticalFits(bs: seq<Box>, rows: nat, py: real, height: real) {
    VerticalHeight(bs, rows, py) <= height || rows <= 1
  }

  /** The horizontal search: the least row count from `from` on whose packed
      width fits, or that leaves a single column. */
  function HorizontalRows(bs: seq<Box>, px: real, width: real, from: nat): (rows: nat)
    requires from >= 1
    decreases |bs| - from
    ensures rows >= from && HorizontalFits(bs, rows, px, width)
    ensures forall k :: from <= k < rows ==> !HorizontalFits(bs, k, px, width)
  {
    if HorizontalFits(bs, from, px, width) then from else HorizontalRows(bs, px, width, from + 1)
  }

  /** `(r >> 1) + (r % 2)`: half the rows, rounded up. */
  function Halve(r: nat): (h: nat)
    ensures h + h == r || h + h == r + 1
  {
    r / 2 + r % 2
  }

  function HalveIter(r: nat, k: nat): nat {
    if k == 0 then r else HalveIter(Halve(r), k - 1)
  }

  /** The vertical search: how many halvings of `r` it takes to reach a row
      count whose first column fits, or a single row. */
  function VerticalSteps(bs: seq<Box>, py: real, height: real, r: nat): (k: nat)
    decreases r
    ensures VerticalFits(bs, HalveIter(r, k), py, height)
    ensures forall j :: 0 <= j < k ==> !VerticalFits(bs, HalveIter(r, j), py, height)
  {
    if VerticalFits(bs, r, py, height) then 0
    else
      var k := VerticalSteps(bs, py, height, Halve(r));
      assert forall j :: 1 <= j < k + 1 ==> HalveIter(r, j) == HalveIter(Halve(r), j - 1);
      k + 1
  }

  /** The row count starts at twice the item count and is halved before every
      try, so the first try is the item count itself. */
  function VerticalRows(bs: seq<Box>, py: real, height: real): nat {
    var start := Halve(2 * |bs|);
    HalveIter(start, VerticalSteps(bs, py, height, start))
  }

  /** Offset of item i from the grid's top-left corner. Its column is i / rows;
      x is the width of the columns before it plus their gaps, y the height of
      the items above it in its column plus their gaps. */
  function ColumnOf(i: nat, rows: nat): nat {
    if rows == 0 then 0 else i / rows
  }

  function Offset(bs: seq<Box>, rows: nat, px: real, py: real, i: nat): (real, real)
    requires i < |bs|
  {
    var s := ColumnOf(i, rows) * rows;
    assert s <= i by {
      if rows > 0 {
        DivModUnique(i, rows, i / rows, i % rows);
      }
    }
    (ItemsWidth(bs[..s], rows) + Scale(ColumnOf(i, rows), px), SumHeights(bs[s..i]) + Scale(i - s, py))
  }

  // ---------------------------------------------------------------------------
  // Lemmas about the reference definitions

  /** `n` items fill whole columns of `rows` items. */
  predicate Whole(n: nat, rows: nat)
    decreases n
  {
    rows > 0 && (n == 0 || (n >= rows && Whole(n - rows, rows)))
  }

  lemma {:induction false} WholeIsMultiple(n: nat, rows: nat)
    requires Whole(n, rows)
    ensures n == ColumnCount(n, rows) * rows
    decreases n
  {
    if n > 0 {
      WholeIsMultiple(n - rows, rows);
      assert ColumnCount(n, rows) == ColumnCount(n - rows, rows) + 1;
      assert (ColumnCount(n - rows, rows) + 1) * rows == ColumnCount(n - rows, rows) * rows + rows;
    }
  }

  lemma {:induction false} MultipleIsWhole(c: nat, rows: nat)
    requires rows > 0
    ensures Whole(c * rows, rows) && ColumnCount(c * rows, rows) == c
    decreases c
  {
    if c > 0 {
      MultipleIsWhole(c - 1, rows);
      assert c * rows == (c - 1) * rows + rows;
      ColumnCountAppend((c - 1) * rows, rows, rows);
    }
  }

  lemma ItemsWidthOneColumn(col: seq<Box>, rows: nat)
    requires 0 < |col| && (rows == 0 || |col| <= rows)
    ensures ItemsWidth(col, rows) == MaxWidth(col)
  {
    assert col[..|col|] == col;
    assert col[|col|..] == [];
  }

  lemma {:induction false} ItemsWidthAppend(a: seq<Box>, b: seq<Box>, rows: nat)
    requires Whole(|a|, rows)
    ensures ItemsWidth(a + b, rows) == ItemsWidth(a, rows) + ItemsWidth(b, rows)
    decreases |a|
  {
    if |a| == 0 {
      assert a + b == b;
    } else {
      var ab := a + b;
      assert ab[..rows] == a[..rows];
      assert ab[rows..] == a[rows..] + b;
      ItemsWidthAppend(a[rows..], b, rows);
    }
  }

  lemma {:induction false} ColumnCountAppend(s: nat, rows: nat, k: nat)
    requires Whole(s, rows) && k <= rows
    ensures ColumnCount(s + k, rows) == ColumnCount(s, rows) + (if k > 0 then 1 else 0)
    decreases s
  {
    if s > 0 {
      ColumnCountAppend(s - rows, rows, k);
      assert s + k - rows == s - rows + k;
    }
  }

  /** A row count of at least the item count gives a single column, as wide as
      the widest item. */
  lemma SingleColumn(bs: seq<Box>, rows: nat, px: real)
    requires |bs| > 0 && rows >= |bs|
    ensures ColumnCount(|bs|, rows) == 1 && PackedWidth(bs, rows, px) == MaxWidth(bs)
  {
    ItemsWidthOneColumn(bs, rows);
  }

  /** The halving chain from any positive count stays positive and strictly
      shrinks until it reaches one row. */
  lemma {:induction false} HalvingChain(r: nat, k: nat)
    requires r > 0
    ensures HalveIter(r, k) >= 1
    ensures HalveIter(r, k) > 1 ==> HalveIter(r, k + 1) < HalveIter(r, k)
    decreases k
  {
    if k > 0 {
      HalvingChain(Halve(r), k - 1);
    }
  }

  /** The vertical search starts at the item count; with at least one item it
      settles on a positive row count that fits or is 1, after trying and
      rejecting every earlier count of the chain; with none it settles on 0. */
  lemma VerticalRowsChain(bs: seq<Box>, py: real, height: real)
    ensures Halve(2 * |bs|) == |bs|
    ensures |bs| == 0 ==> VerticalRows(bs, py, height) == 0
    ensures |bs| > 0 ==> VerticalRows(bs, py, height) >= 1
    ensures VerticalFits(bs, VerticalRows(bs, py, height), py, height)
    ensures forall j :: 0 <= j < VerticalSteps(bs, py, height, |bs|)
              ==> !VerticalFits(bs, HalveIter(|bs|, j), py, height)
  {
    if |bs| > 0 {
      HalvingChain(|bs|, VerticalSteps(bs, py, height, |bs|));
    }
  }

  lemma ExtendColumn(bs: seq<Box>, start: nat, i: nat)
    requires start <= i < |bs|
    ensures MaxWidth(bs[start..i + 1])
            == if bs[i].width > MaxWidth(bs[start..i]) then bs[i].width else MaxWidth(bs[start..i])
    ensures SumHeights(bs[start..i + 1]) == SumHeights(bs[start..i]) + bs[i].height
    ensures SumHeights(bs[..i + 1]) == SumHeights(bs[..i]) + bs[i].height
  {
    assert bs[start..i + 1][..i - start] == bs[start..i];
    assert bs[..i + 1][..i] == bs[..i];
  }

  /** After the item before index i, `i % rows === 0` holds exactly when the
      column that began at `start` is empty or full. */
  lemma StepMod(rows: nat, start: nat, i: nat)
    requires Whole(start, rows) && start <= i <= start + rows
    ensures JsModIsZero(i, rows) <==> i == start || i == start + rows
  {
    WholeIsMultiple(start, rows);
    var c := ColumnCount(start, rows);
    if i < start + rows {
      ColumnIndex(c, rows, i - start);
    } else {
      assert (c + 1) * rows == start + rows;
      ColumnIndex(c + 1, rows, 0);
    }
  }

  lemma CloseColumn(bs: seq<Box>, rows: nat, start: nat, i: nat)
    requires Whole(start, rows) && i == start + rows <= |bs|
    ensures ItemsWidth(bs[..i], rows) == ItemsWidth(bs[..start], rows) + MaxWidth(bs[start..i])
    ensures ColumnCount(i, rows) == ColumnCount(start, rows) + 1 && Whole(i, rows)
  {
    var a, b := bs[..start], bs[start..i];
    assert |a| == start && |b| == rows;
    assert bs[..i] == a + b;
    ItemsWidthAppend(a, b, rows);
    ItemsWidthOneColumn(b, rows);
    ColumnCountAppend(start, rows, rows);
    assert i - rows == start;
  }

  lemma FinishPass(bs: seq<Box>, rows: nat, start: nat)
    requires start <= |bs|
    requires rows == 0 ==> start == 0
    requires rows > 0 ==> Whole(start, rows) && |bs| - start < rows
    ensures rows > 0 ==> (JsModIsZero(|bs|, rows) <==> start == |bs|)
    ensures rows > 0 ==> ColumnCount(|bs|, rows) == ColumnCount(start, rows) + (if start < |bs| then 1 else 0)
    ensures ItemsWidth(bs, rows) == ItemsWidth(bs[..start], rows) + MaxWidth(bs[start..])
  {
    assert bs == bs[..start] + bs[start..];
    if rows > 0 {
      StepMod(rows, start, |bs|);
      ColumnCountAppend(start, rows, |bs| - start);
      ItemsWidthAppend(bs[..start], bs[start..], rows);
      if start < |bs| {
        ItemsWidthOneColumn(bs[start..], rows);
      } else {
        assert bs[start..] == [];
      }
    } else if bs != [] {
      ItemsWidthOneColumn(bs, rows);
    }
  }

  /** The offset of item i, read from the column it is in. */
  lemma OffsetAt(bs: seq<Box>, rows: nat, px: real, py: real, start: nat, i: nat)
    requires start <= i < |bs|
    requires rows == 0 ==> start == 0
    requires rows > 0 ==> Whole(start, rows) && i - start < rows
    ensures Offset(bs, rows, px, py, i)
            == (ItemsWidth(bs[..start], rows) + Scale(if rows == 0 then 0 else ColumnCount(start, rows), px),
                SumHeights(bs[start..i]) + Scale(i - start, py))
  {
    if rows > 0 {
      WholeIsMultiple(start, rows);
      ColumnIndex(ColumnCount(start, rows), rows, i - start);
    }
  }

  /** Within a column, each item sits one item height plus `py` below the one
      before it, at the same x. */
  lemma OffsetDownColumn(bs: seq<Box>, rows: nat, px: real, py: real, i: nat)
    requires rows > 0 && i + 1 < |bs| && (i + 1) % rows != 0
    ensures Offset(bs, rows, px, py, i + 1).0 == Offset(bs, rows, px, py, i).0
    ensures Offset(bs, rows, px, py, i + 1).1 == Offset(bs, rows, px, py, i).1 + bs[i].height + py
  {
    var c := i / rows;
    Euclid(i, rows);
    MultipleIsWhole(c, rows);
    var start := c * rows;
    StepMod(rows, start, i + 1);
    OffsetDownFrom(bs, rows, px, py, start, i);
  }

  /** `OffsetDownColumn` for a column known to start at `start`. */
  lemma OffsetDownFrom(bs: seq<Box>, rows: nat, px: real, py: real, start: nat, i: nat)
    requires Whole(start, rows) && start <= i && i + 1 < start + rows && i + 1 < |bs|
    ensures Offset(bs, rows, px, py, i + 1).0 == Offset(bs, rows, px, py, i).0
    ensures Offset(bs, rows, px, py, i + 1).1 == Offset(bs, rows, px, py, i).1 + bs[i].height + py
  {
    OffsetAt(bs, rows, px, py, start, i);
    ExtendColumn(bs, start, i);
    OffsetAt(bs, rows, px, py, start, i + 1);
    assert Scale(i + 1 - start, py) == Scale(i - start, py) + py;
  }

  /** Item i + 1 starts a new column when i + 1 is a multiple of the row
      count: at the top, at the width of the columns before it plus their gaps. */
  lemma OffsetNewColumn(bs: seq<Box>, rows: nat, px: real, py: real, i: nat)
    requires rows > 0 && i + 1 < |bs| && (i + 1) % rows == 0
    ensures Offset(bs, rows, px, py, i + 1) == (ItemsWidth(bs[..i + 1], rows) + Scale((i + 1) / rows, px), 0.0)
  {
    var c := (i + 1) / rows;
    Euclid(i + 1, rows);
    MultipleIsWhole(c, rows);
    OffsetAt(bs, rows, px, py, i + 1, i + 1);
    assert bs[i + 1..i + 1] == [];
  }

  /** An empty legend packs to (-px, 0) horizontally and (0, -py) vertically. */
  lemma EmptyLegendSize(px: real, py: real, width: real, height: real)
    ensures HorizontalRows([], px, width, 1) == 1
    ensures PackedWidth([], 1, px) == -px && HorizontalHeight([], 1, py) == 0.0
    ensures VerticalRows([], py, height) == 0
    ensures PackedWidth([], 0, px) == 0.0 && VerticalHeight([], 0, py) == -py
  {
    VerticalRowsChain([], py, height);
    assert Scale(-1, px) == -px && Scale(-1, py) == -py;
    assert Scale(1, 0.0) == 0.0;
  }

  // ---------------------------------------------------------------------------
  // The layout loops

  /** `i % rows === 0` in JavaScript: false when rows is 0, since `i % 0` is NaN. */
  predicate JsModIsZero(i: nat, rows: nat) {
    rows != 0 && i % rows == 0
  }

  /** What the packing pass knows after `i` items, `start` being the first
      item of the open column. */
  ghost predicate PassInv(bs: seq<Box>, rows: nat, i: nat, start: nat, columnCount: nat,
                          itemsWidth: real, columnWidth: real, itemsHeight: real)
  {
    && start <= i <= |bs|
    && (rows == 0 ==> start == 0 && columnCount == 0)
    && (rows > 0 ==> Whole(start, rows) && i - start < rows && columnCount == ColumnCount(start, rows))
    && (columnCount == 0 <==> start == 0)
    && itemsWidth == ItemsWidth(bs[..start], rows)
    && columnWidth == MaxWidth(bs[start..i])
    && (start == 0 ==> itemsHeight == SumHeights(bs[..i]))
    && (start > 0 ==> itemsHeight == SumHeights(bs[..rows]) && rows <= start)
  }

  /** One iteration of the packing pass keeps `PassInv`. */
  lemma PassStep(bs: seq<Box>, rows: nat, i: nat, start: nat, columnCount: nat,
                 itemsWidth: real, columnWidth: real, itemsHeight: real)
    requires i < |bs| && PassInv(bs, rows, i, start, columnCount, itemsWidth, columnWidth, itemsHeight)
    ensures var h := if columnCount == 0 then itemsHeight + bs[i].height else itemsHeight;
            var w := if bs[i].width > columnWidth then bs[i].width else columnWidth;
            if JsModIsZero(i + 1, rows)
            then PassInv(bs, rows, i + 1, i + 1, columnCount + 1, itemsWidth + w, 0.0, h)
            else PassInv(bs, rows, i + 1, start, columnCount, itemsWidth, w, h)
  {
    if rows > 0 {
      StepMod(rows, start, i + 1);
    }
    if JsModIsZero(i + 1, rows) {
      PassClose(bs, rows, i, start, columnCount, itemsWidth, columnWidth, itemsHeight);
    } else {
      PassExtend(bs, rows, i, start, columnCount, itemsWidth, columnWidth, itemsHeight);
    }
  }

  /** An item that fills its column closes it. */
  lemma PassClose(bs: seq<Box>, rows: nat, i: nat, start: nat, columnCount: nat,
                  itemsWidth: real, columnWidth: real, itemsHeight: real)
    requires i < |bs| && PassInv(bs, rows, i, start, columnCount, itemsWidth, columnWidth, itemsHeight)
    requires rows > 0 && i + 1 == start + rows
    ensures var h := if columnCount == 0 then itemsHeight + bs[i].height else itemsHeight;
            var w := if bs[i].width > columnWidth then bs[i].width else columnWidth;
            PassInv(bs, rows, i + 1, i + 1, columnCount + 1, itemsWidth + w, 0.0, h)
  {
    ExtendColumn(bs, start, i);
    CloseColumn(bs, rows, start, i + 1);
    assert bs[i + 1..i + 1] == [];
  }

  /** Any other item extends the open column. */
  lemma PassExtend(bs: seq<Box>, rows: nat, i: nat, start: nat, columnCount: nat,
                   itemsWidth: real, columnWidth: real, itemsHeight: real)
    requires i < |bs| && PassInv(bs, rows, i, start, columnCount, itemsWidth, columnWidth, itemsHeight)
    requires rows == 0 || i + 1 < start + rows
    ensures var h := if columnCount == 0 then itemsHeight + bs[i].height else itemsHeight;
            var w := if bs[i].width > columnWidth then bs[i].width else columnWidth;
            PassInv(bs, rows, i + 1, start, columnCount, itemsWidth, w, h)
  {
    ExtendColumn(bs, start, i);
  }

  /** The pass's closing step: an open column counts as one more. */
  lemma PassEnd(bs: seq<Box>, rows: nat, start: nat, columnCount: nat,
                itemsWidth: real, columnWidth: real, itemsHeight: real)
    requires PassInv(bs, rows, |bs|, start, columnCount, itemsWidth, columnWidth, itemsHeight)
    ensures itemsHeight == SumHeights(bs[..FirstColumnLength(|bs|, rows)])
    ensures !JsModIsZero(|bs|, rows) ==>
              itemsWidth + columnWidth == ItemsWidth(bs, rows)
              && columnCount + 1 == if rows == 0 then 1 else ColumnCount(|bs|, rows)
    ensures JsModIsZero(|bs|, rows) ==>
              itemsWidth == ItemsWidth(bs, rows) && columnCount == ColumnCount(|bs|, rows)
  {
    FinishPass(bs, rows, start);
    assert bs[start..|bs|] == bs[start..];
    if JsModIsZero(|bs|, rows) {
      assert bs[start..] == [];
    }
  }

  /** One pass of the packing loop: the sum of the column widths, the height of
      the first column, and the number of columns. */
  method MeasureColumns(bs: seq<Box>, rows: nat) returns (itemsWidth: real, itemsHeight: real, columnCount: nat)
    ensures itemsWidth == ItemsWidth(bs, rows)
    ensures itemsHeight == SumHeights(bs[..FirstColumnLength(|bs|, rows)])
    ensures columnCount == if rows == 0 then 1 else ColumnCount(|bs|, rows)
  {
    var columnWidth := 0.0;
    itemsWidth, itemsHeight, columnCount := 0.0, 0.0, 0;
    ghost var start := 0;
    var i := 0;
    while i < |bs|
      invariant PassInv(bs, rows, i, start, columnCount, itemsWidth, columnWidth, itemsHeight)
    {
      PassStep(bs, rows, i, start, columnCount, itemsWidth, columnWidth, itemsHeight);
      var b := bs[i];
      if columnCount == 0 {
        itemsHeight := itemsHeight + b.height;
      }
      if b.width > columnWidth {
        columnWidth := b.width;
      }
      i := i + 1;
      if JsModIsZero(i, rows) {
        itemsWidth := itemsWidth + columnWidth;
        columnWidth := 0.0;
        columnCount := columnCount + 1;
        start := i;
      }
    }
    PassEnd(bs, rows, start, columnCount, itemsWidth, columnWidth, itemsHeight);
    if !JsModIsZero(i, rows) {
      itemsWidth := itemsWidth + columnWidth;
      columnCount := columnCount + 1;
    }
  }

  /** The horizontal do-while: try 1, 2, 3, … rows until the packed width fits
      or a single column is left. */
  method HorizontalPacking(bs: seq<Box>, px: real, py: real, width: real)
    returns (rows: nat, packedWidth: real, packedHeight: real)
    ensures rows == HorizontalRows(bs, px, width, 1)
    ensures packedWidth == PackedWidth(bs, rows, px)
    ensures packedHeight == HorizontalHeight(bs, rows, py)
  {
    rows := 1;
    var itemsWidth, firstColumnHeight, columnCount := MeasureColumns(bs, rows);
    packedWidth := itemsWidth + Scale(columnCount as int - 1, px);
    while packedWidth > width && columnCount > 1
      invariant rows >= 1
      invariant columnCount == ColumnCount(|bs|, rows)
      invariant packedWidth == PackedWidth(bs, rows, px)
      invariant HorizontalRows(bs, px, width, rows) == HorizontalRows(bs, px, width, 1)
      decreases |bs| - rows
    {
      rows := rows + 1;
      itemsWidth, firstColumnHeight, columnCount := MeasureColumns(bs, rows);
      packedWidth := itemsWidth + Scale(columnCount as int - 1, px);
    }
    packedHeight := Scale(rows, ItemHeight(bs)) + Scale(rows as int - 1, py);
  }

  /** The vertical do-while: start from twice the item count and halve
      (rounding up) before every try, until the first column fits or one row
      is left. */
  method VerticalPacking(bs: seq<Box>, px: real, py: real, height: real)
    returns (rows: nat, packedWidth: real, packedHeight: real)
    ensures rows == VerticalRows(bs, py, height)
    ensures packedWidth == PackedWidth(bs, rows, px)
    ensures packedHeight == VerticalHeight(bs, rows, py)
  {
    ghost var start := Halve(2 * |bs|);
    ghost var steps := 0;
    rows := (2 * |bs|) / 2 + (2 * |bs|) % 2;
    packedWidth, packedHeight := VerticalTry(bs, rows, px, py);
    while packedHeight > height && rows > 1
      invariant rows == HalveIter(start, steps)
      invariant packedWidth == PackedWidth(bs, rows, px)
      invariant packedHeight == VerticalHeight(bs, rows, py)
      invariant VerticalSteps(bs, py, height, start) == steps + VerticalSteps(bs, py, height, rows)
      decreases rows
    {
      VerticalStep(bs, py, height, start, steps);
      rows := rows / 2 + rows % 2;
      steps := steps + 1;
      packedWidth, packedHeight := VerticalTry(bs, rows, px, py);
    }
    VerticalStop(bs, py, height, start, steps);
  }

  /** One try of the vertical search: the packed width and the height of the first column with gaps. */
  method VerticalTry(bs: seq<Box>, rows: nat, px: real, py: real) returns (packedWidth: real, packedHeight: real)
    ensures packedWidth == PackedWidth(bs, rows, px)
    ensures packedHeight == VerticalHeight(bs, rows, py)
  {
    var itemsWidth, itemsHeight, columnCount := MeasureColumns(bs, rows);
    packedWidth := itemsWidth + Scale(columnCount as int - 1, px);
    packedHeight := itemsHeight + Scale(rows as int - 1, py);
  }

  /** A rejected row count is halved, and the search has one step fewer left. */
  lemma VerticalStep(bs: seq<Box>, py: real, height: real, start: nat, steps: nat)
    requires !VerticalFits(bs, HalveIter(start, steps), py, height)
    requires VerticalSteps(bs, py, height, start) == steps + VerticalSteps(bs, py, height, HalveIter(start, steps))
    ensures HalveIter(start, steps + 1) == HalveIter(start, steps) / 2 + HalveIter(start, steps) % 2
    ensures VerticalSteps(bs, py, height, start) == steps + 1 + VerticalSteps(bs, py, height, HalveIter(start, steps + 1))
  {
    HalveIterStep(start, steps);
  }

  lemma VerticalStop(bs: seq<Box>, py: real, height: real, start: nat, steps: nat)
    requires start == Halve(2 * |bs|)
    requires VerticalFits(bs, HalveIter(start, steps), py, height)
    requires VerticalSteps(bs, py, height, start) == steps + VerticalSteps(bs, py, height, HalveIter(start, steps))
    ensures HalveIter(start, steps) == VerticalRows(bs, py, height)
  {
  }

  lemma {:induction false} HalveIterStep(r: nat, k: nat)
    ensures HalveIter(r, k + 1) == Halve(HalveIter(r, k))
    decreases k
  {
    if k > 0 {
      HalveIterStep(Halve(r), k - 1);
    }
  }

  /** Where the placement pass stands after `i` items, `start` being the
      first item of the current column and `column` its index. */
  ghost predicate PlaceCursor(bs: seq<Box>, rows: nat, px: real, py: real, i: nat, start: nat, column: nat,
                              x: real, y: real, columnWidth: real)
  {
    && start <= i <= |bs|
    && (rows == 0 ==> start == 0 && column == 0)
    && (rows > 0 ==> Whole(start, rows) && i - start < rows && column == ColumnCount(start, rows))
    && x == ItemsWidth(bs[..start], rows) + Scale(column, px)
    && y == SumHeights(bs[start..i]) + Scale(i - start, py)
    && columnWidth == MaxWidth(bs[start..i])
  }

  /** What the placement pass knows after `i` items: its position, and the
      offsets of the items placed so far. */
  ghost predicate PlaceInv(bs: seq<Box>, rows: nat, px: real, py: real, i: nat, start: nat, column: nat,
                           x: real, y: real, columnWidth: real, offsets: seq<(real, real)>)
  {
    && PlaceCursor(bs, rows, px, py, i, start, column, x, y, columnWidth)
    && |offsets| == i
    && forall j :: 0 <= j < i ==> offsets[j] == Offset(bs, rows, px, py, j)
  }

  /** The item at `i` lands at (x, y). */
  lemma PlaceRecord(bs: seq<Box>, rows: nat, px: real, py: real, i: nat, start: nat, column: nat,
                    x: real, y: real, columnWidth: real, offsets: seq<(real, real)>)
    requires i < |bs| && PlaceInv(bs, rows, px, py, i, start, column, x, y, columnWidth, offsets)
    ensures forall j :: 0 <= j < i + 1 ==> (offsets + [(x, y)])[j] == Offset(bs, rows, px, py, j)
  {
    OffsetAt(bs, rows, px, py, start, i);
  }

  /** Nothing is placed before the first item, which starts the first column at (0, 0). */
  lemma PlaceStart(bs: seq<Box>, rows: nat, px: real, py: real)
    ensures PlaceInv(bs, rows, px, py, 0, 0, 0, 0.0, 0.0, 0.0, [])
  {
    assert bs[..0] == [] && bs[0..0] == [];
  }

  /** Moving down the current column. */
  lemma DownCursor(bs: seq<Box>, rows: nat, px: real, py: real, i: nat, start: nat, column: nat,
                   x: real, y: real, columnWidth: real)
    requires i < |bs| && PlaceCursor(bs, rows, px, py, i, start, column, x, y, columnWidth)
    requires !JsModIsZero(i + 1, rows)
    ensures var w := if bs[i].width > columnWidth then bs[i].width else columnWidth;
            PlaceCursor(bs, rows, px, py, i + 1, start, column, x, y + bs[i].height + py, w)
  {
    ExtendColumn(bs, start, i);
    if rows > 0 {
      StepMod(rows, start, i + 1);
    }
  }

  /** Moving to the top of the next column. */
  lemma CloseCursor(bs: seq<Box>, rows: nat, px: real, py: real, i: nat, start: nat, column: nat,
                    x: real, y: real, columnWidth: real)
    requires i < |bs| && PlaceCursor(bs, rows, px, py, i, start, column, x, y, columnWidth)
    requires JsModIsZero(i + 1, rows)
    ensures var w := if bs[i].width > columnWidth then bs[i].width else columnWidth;
            PlaceCursor(bs, rows, px, py, i + 1, i + 1, column + 1, x + w + px, 0.0, 0.0)
  {
    StepMod(rows, start, i + 1);
    NextColumnStart(bs, rows, px, i, start, column, x, columnWidth);
    assert bs[i + 1..i + 1] == [];
  }

  /** The next column starts one column width plus `px` to the right. */
  lemma NextColumnStart(bs: seq<Box>, rows: nat, px: real, i: nat, start: nat, column: nat,
                        x: real, columnWidth: real)
    requires Whole(start, rows) && i + 1 == start + rows && i < |bs|
    requires column == ColumnCount(start, rows) && x == ItemsWidth(bs[..start], rows) + Scale(column, px)
    requires columnWidth == MaxWidth(bs[start..i])
    ensures var w := if bs[i].width > columnWidth then bs[i].width else columnWidth;
            x + w + px == ItemsWidth(bs[..i + 1], rows) + Scale(column + 1, px)
    ensures column + 1 == ColumnCount(i + 1, rows) && Whole(i + 1, rows)
  {
    ExtendColumn(bs, start, i);
    CloseColumn(bs, rows, start, i + 1);
  }

  /** Moving down the current column keeps `PlaceInv`. */
  lemma PlaceDown(bs: seq<Box>, rows: nat, px: real, py: real, i: nat, start: nat, column: nat,
                  x: real, y: real, columnWidth: real, offsets: seq<(real, real)>)
    requires i < |bs| && PlaceInv(bs, rows, px, py, i, start, column, x, y, columnWidth, offsets)
    requires !JsModIsZero(i + 1, rows)
    ensures var w := if bs[i].width > columnWidth then bs[i].width else columnWidth;
            PlaceInv(bs, rows, px, py, i + 1, start, column, x, y + bs[i].height + py, w, offsets + [(x, y)])
  {
    PlaceRecord(bs, rows, px, py, i, start, column, x, y, columnWidth, offsets);
    DownCursor(bs, rows, px, py, i, start, column, x, y, columnWidth);
  }

  /** Closing a column keeps `PlaceInv`. */
  lemma PlaceNextColumn(bs: seq<Box>, rows: nat, px: real, py: real, i: nat, start: nat, column: nat,
                        x: real, y: real, columnWidth: real, offsets: seq<(real, real)>)
    requires i < |bs| && PlaceInv(bs, rows, px, py, i, start, column, x, y, columnWidth, offsets)
    requires JsModIsZero(i + 1, rows)
    ensures var w := if bs[i].width > columnWidth then bs[i].width else columnWidth;
            PlaceInv(bs, rows, px, py, i + 1, i + 1, column + 1, x + w + px, 0.0, 0.0, offsets + [(x, y)])
  {
    PlaceRecord(bs, rows, px, py, i, start, column, x, y, columnWidth, offsets);
    CloseCursor(bs, rows, px, py, i, start, column, x, y, columnWidth);
  }

  /** The placement pass: walk the items in order, moving down a column and
      jumping to the next column after every `rows` items. Each item lands at
      its `Offset`. */
  method PlaceItems(bs: seq<Box>, rows: nat, px: real, py: real) returns (offsets: seq<(real, real)>)
    ensures |offsets| == |bs|
    ensures forall i :: 0 <= i < |bs| ==> offsets[i] == Offset(bs, rows, px, py, i)
  {
    var x, y, columnWidth := 0.0, 0.0, 0.0;
    offsets := [];
    ghost var start, column := 0, 0;
    var i := 0;
    PlaceStart(bs, rows, px, py);
    while i < |bs|
      invariant PlaceInv(bs, rows, px, py, i, start, column, x, y, columnWidth, offsets)
    {
      var b := bs[i];
      var w := if b.width > columnWidth then b.width else columnWidth;
      if JsModIsZero(i + 1, rows) {
        PlaceNextColumn(bs, rows, px, py, i, start, column, x, y, columnWidth, offsets);
        offsets := offsets + [(x, y)];
        x, y, columnWidth := x + w + px, 0.0, 0.0;
        start, column := i + 1, column + 1;
      } else {
        PlaceDown(bs, rows, px, py, i, start, column, x, y, columnWidth, offsets);
        offsets := offsets + [(x, y)];
        y, columnWidth := y + b.height + py, w;
      }
      i := i + 1;
    }
  }

  // ---------------------------------------------------------------------------
  // performLayout

  /** `Math.max(1, d)`. */
  function AtLeastOne(d: Num): (r: Num)
    ensures r.Fin? ==> r.r >= 1.0
    ensures r.Fin? <==> d.Fin? || d.NegInf?
  {
    match d
    case Fin(v) => if v < 1.0 then Fin(1.0) else d
    case NaN => NaN
    case PosInf => PosInf
    case NegInf => Fin(1.0)
  }

  /** What a successful layout produces besides the size: the row count, the
      top-left corner of the grid (centred in the given box) and each item's
      offset from it. */
  datatype Placement = Placement(rows: nat, start: (Num, Num), offsets: seq<(real, real)>)

  /** `performLayout(width, height)`: None models the early `return false`
      when the governing dimension is not finite after clamping; the state is
      then untouched. Otherwise size and oldSize both become the packed size
      and no event is fired. */
  method PerformLayout(l: LegendState, bs: seq<Box>, px: real, py: real, width: Num, height: Num)
    returns (placement: Option<Placement>, r: LegendState)
    requires |bs| == |l.data|
    ensures placement.None? <==> !(if l.orientation == Horizontal then AtLeastOne(width) else AtLeastOne(height)).Fin?
    ensures placement.None? ==> r == l
    ensures placement.Some? && l.orientation == Horizontal ==>
              placement.value.rows == HorizontalRows(bs, px, AtLeastOne(width).r, 1)
              && r.size == (PackedWidth(bs, placement.value.rows, px), HorizontalHeight(bs, placement.value.rows, py))
    ensures placement.Some? && l.orientation == Vertical ==>
              placement.value.rows == VerticalRows(bs, py, AtLeastOne(height).r)
              && r.size == (PackedWidth(bs, placement.value.rows, px), VerticalHeight(bs, placement.value.rows, py))
    ensures placement.Some? ==> r == l.(size := r.size, oldSize := r.size)
    ensures placement.Some? ==> |placement.value.offsets| == |bs|
    ensures placement.Some? ==>
              forall i :: 0 <= i < |placement.value.offsets| ==> placement.value.offsets[i] == Offset(bs, placement.value.rows, px, py, i)
    ensures placement.Some? ==>
              placement.value.start == (Div(Sub(AtLeastOne(width), Fin(r.size.0)), Fin(2.0)),
                                        Div(Sub(AtLeastOne(height), Fin(r.size.1)), Fin(2.0)))
  {
    var w, h := AtLeastOne(width), AtLeastOne(height);
    var rows: nat, packedWidth: real, packedHeight: real;
    if l.orientation == Horizontal {
      if !w.Fin? {
        return None, l;
      }
      rows, packedWidth, packedHeight := HorizontalPacking(bs, px, py, w.r);
    } else {
      if !h.Fin? {
        return None, l;
      }
      rows, packedWidth, packedHeight := VerticalPacking(bs, px, py, h.r);
    }
    var start := (Div(Sub(w, Fin(packedWidth)), Fin(2.0)), Div(Sub(h, Fin(packedHeight)), Fin(2.0)));
    var offsets := PlaceItems(bs, rows, px, py);
    placement := Some(Placement(rows, start, offsets));
    r := l.(size := (packedWidth, packedHeight), oldSize := (packedWidth, packedHeight));
  }
}
