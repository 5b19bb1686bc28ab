/** The treemap series: the data pass that decorates every node of the
    hierarchy with its colour value, fill and label; the choice of label
    font by node size and depth; the space reserved for a parent's title;
    the default tooltip; the `nodePadding` setter; and the reactive keys.

    The hierarchy itself (`hierarchy(data)` and its size sums), the squarified
    layout, the linear colour scale and text measurement are outside this
    model: the hierarchy arrives as a `Tree`, the colour scale as `colorOf`,
    and measured text sizes as numbers. */
module Treemap {
  import opened Js
  import opened Observable
  import opened Reactive
  import Series

  // ---------------------------------------------------------------------------
  // Reactive properties

  const LabelKey := Prop("labelKey", Str("label"), ["dataChange"], true)
  const SizeKey := Prop("sizeKey", Str("size"), ["dataChange"], true)
  const ColorKey := Prop("colorKey", Str("color"), ["dataChange"], true)
  const ColorParents := Prop("colorParents", Bool(false), ["dataChange"], true)
  const Gradient := Prop("gradient", Bool(true), ["update"], true)

  /** The properties whose change re-runs the data pass. */
  const DataProps := [LabelKey, SizeKey, ColorKey, ColorParents]

  /** Keys and `colorParents` fire 'dataChange' when they fire; `gradient`
      only asks for a redraw ('update'). */
  lemma TreemapPropCategories(c: Component, p: Prop, value: JsValue)
    requires (p in DataProps || p == Gradient) && Fires(p, Get(c, p.name), value)
    ensures p in DataProps ==>
              Set(c, p, value).calls == NotifyPropertyListeners(c.obs, p.name, Get(c, p.name), value)
                                        + TypeCalls(c.obs, "dataChange")
    ensures p == Gradient ==>
              Set(c, p, value).calls == NotifyPropertyListeners(c.obs, "gradient", Get(c, "gradient"), value)
                                        + TypeCalls(c.obs, "update")
  {
    NotifyOneType(c.obs, "dataChange");
    NotifyOneType(c.obs, "update");
  }

  // ---------------------------------------------------------------------------
  // The data pass

  /** A node of the hierarchy built from the data: the datum and its
      children, none for a leaf. */
  datatype Tree = Tree(datum: Series.Row, children: seq<Tree>)

  /** The settings `processData` reads. */
  datatype Settings = Settings(labelKey: string, colorKey: Option<string>, colorParents: bool)

  /** A decorated node: the datum, its depth (0 at the root), the label, the
      fill and the colour value, with the decorated children. */
  datatype TreemapNode = TreemapNode(datum: Series.Row, depth: nat, text: JsValue, fill: string,
                                     colorValue: JsValue, children: seq<TreemapNode>)

  /** The colour of parents that are not coloured by value. */
  const ParentFill := "#272931"

  /** The colour value of a node: the datum's `colorKey` field when a colour
      key is set, else the node's depth. */
  function ColorValue(datum: Series.Row, depth: nat, st: Settings): (v: JsValue)
    ensures !IsSet(st.colorKey) ==> v == Real(depth as real)
    ensures IsSet(st.colorKey) ==> v == Series.Field(datum, st.colorKey.value)
  {
    if IsSet(st.colorKey) then Series.Field(datum, st.colorKey.value) else Real(depth as real)
  }

  /** Whether a node's label can be shown: `toUpperCase` is called on the
      label of every parent whose label is truthy, which throws unless it is
      a string. */
  predicate Labellable(t: Tree, labelKey: string)
    decreases t
  {
    (t.children != [] && Truthy(Series.Field(t.datum, labelKey)) ==> Series.Field(t.datum, labelKey).Str?)
    && forall c :: c in t.children ==> Labellable(c, labelKey)
  }

  /** The label of a node: '' when the datum's label is falsy, upper-cased
      for a parent, the value itself for a leaf. */
  function NodeLabel(value: JsValue, isParent: bool): (text: JsValue)
    requires isParent && Truthy(value) ==> value.Str?
    ensures !Truthy(value) ==> text == Str("")
    ensures Truthy(value) && isParent ==> text == Str(Upper(value.s))
    ensures Truthy(value) && !isParent ==> text == value
  {
    if !Truthy(value) then Str("")
    else if isParent then Str(Upper(value.s))
    else value
  }

  /** The fill of a node: the colour scale's value for leaves, and for parents
      when `colorParents` is set; the dark parent colour otherwise. */
  function NodeFill(isParent: bool, colorParents: bool, colorValue: JsValue, colorOf: JsValue -> string): (f: string)
    ensures !isParent || colorParents ==> f == colorOf(colorValue)
    ensures isParent && !colorParents ==> f == ParentFill
  {
    if !isParent || colorParents then colorOf(colorValue) else ParentFill
  }

  /** `traverse`: decorates a node and, one level deeper, its children. */
  function Traverse(t: Tree, depth: nat, st: Settings, colorOf: JsValue -> string): (r: TreemapNode)
    requires Labellable(t, st.labelKey)
    ensures r.datum == t.datum && r.depth == depth && |r.children| == |t.children|
    decreases t
  {
    var colorValue := ColorValue(t.datum, depth, st);
    var isParent := t.children != [];
    TreemapNode(t.datum, depth, NodeLabel(Series.Field(t.datum, st.labelKey), isParent),
                NodeFill(isParent, st.colorParents, colorValue, colorOf), colorValue,
                seq(|t.children|, i requires 0 <= i < |t.children| => Traverse(t.children[i], depth + 1, st, colorOf)))
  }

  /** The node reached from `t` by following child positions. */
  function Subtree(t: Tree, path: seq<nat>): (u: Option<Tree>)
    decreases |path|
  {
    if path == [] then Some(t)
    else if path[0] < |t.children| then Subtree(t.children[path[0]], path[1..])
    else None
  }

  /** The decorated node reached by following child positions. */
  function SubNode(n: TreemapNode, path: seq<nat>): (m: Option<TreemapNode>)
    decreases |path|
  {
    if path == [] then Some(n)
    else if path[0] < |n.children| then SubNode(n.children[path[0]], path[1..])
    else None
  }

  /** The label check is hereditary: every subtree of a labellable tree is labellable. */
  lemma {:induction false} SubtreeLabellable(t: Tree, path: seq<nat>, labelKey: string)
    requires Labellable(t, labelKey) && Subtree(t, path).Some?
    ensures Labellable(Subtree(t, path).value, labelKey)
    decreases |path|
  {
    if path != [] {
      assert t.children[path[0]] in t.children;
      SubtreeLabellable(t.children[path[0]], path[1..], labelKey);
    }
  }

  /** What the data pass promises of each node: the decorated tree has the
      hierarchy's shape, and the node at every position carries that
      position's datum, a depth one more per level, and the colour value,
      fill and label its own datum and kind call for. */
  lemma {:induction false} DecoratedAt(t: Tree, depth: nat, st: Settings, colorOf: JsValue -> string, path: seq<nat>)
    requires Labellable(t, st.labelKey)
    ensures SubNode(Traverse(t, depth, st, colorOf), path).Some? <==> Subtree(t, path).Some?
    ensures Subtree(t, path).Some? ==>
              var u := Subtree(t, path).value;
              var n := SubNode(Traverse(t, depth, st, colorOf), path).value;
              var d := depth + |path|;
              var v := Series.Field(u.datum, st.labelKey);
              n.datum == u.datum && n.depth == d && |n.children| == |u.children|
              && n.colorValue == (if IsSet(st.colorKey) then Series.Field(u.datum, st.colorKey.value) else Real(d as real))
              && n.fill == (if u.children == [] || st.colorParents then colorOf(n.colorValue) else ParentFill)
              && (!Truthy(v) ==> n.text == Str(""))
              && (Truthy(v) && u.children != [] ==> v.Str? && n.text == Str(Upper(v.s)))
              && (Truthy(v) && u.children == [] ==> n.text == v)
    decreases |path|
  {
    var r := Traverse(t, depth, st, colorOf);
    if path != [] && path[0] < |t.children| {
      var i := path[0];
      assert t.children[i] in t.children;
      assert r.children[i] == Traverse(t.children[i], depth + 1, st, colorOf);
      DecoratedAt(t.children[i], depth + 1, st, colorOf, path[1..]);
    }
  }

  /** The outcome of `processData`: false without data, a thrown TypeError
      when a parent's label is truthy but not a string, true with the
      decorated tree otherwise. */
  datatype Processed = NoData | LabelTypeError | Built(root: TreemapNode)

  /** `processData`. `hierarchy` is the node tree built from `data`. */
  function ProcessData(data: JsValue, hierarchy: Tree, st: Settings, colorOf: JsValue -> string): (r: Processed)
    ensures r.NoData? <==> !Truthy(data)
    ensures r.LabelTypeError? <==> Truthy(data) && !Labellable(hierarchy, st.labelKey)
    ensures r.Built? ==> r.root.depth == 0 && r.root.datum == hierarchy.datum
    ensures r.Built? ==> forall path :: SubNode(r.root, path).Some? <==> Subtree(hierarchy, path).Some?
  {
    if !Truthy(data) then NoData
    else if !Labellable(hierarchy, st.labelKey) then LabelTypeError
    else
      var root := Traverse(hierarchy, 0, st, colorOf);
      assert forall path :: SubNode(root, path).Some? <==> Subtree(hierarchy, path).Some? by {
        forall path
          ensures SubNode(root, path).Some? <==> Subtree(hierarchy, path).Some?
        {
          DecoratedAt(hierarchy, 0, st, colorOf, path);
        }
      }
      Built(root)
  }

  // ---------------------------------------------------------------------------
  // Layout padding and label fonts

  /** `paddingTop` of the layout: a parent below the root whose title fits in
      its inner width reserves the title's height plus padding on both sides;
      every other node reserves the node padding alone. */
  function PaddingTop(depth: nat, isParent: bool, nodeWidth: real, textWidth: real, textHeight: real,
                      nodePadding: real): (r: (real, bool))
    ensures r.1 <==> depth > 0 && isParent && textWidth <= nodeWidth - nodePadding * 2.0
    ensures !r.1 ==> r.0 == nodePadding
    ensures r.1 && textHeight >= 0.0 ==> r.0 >= nodePadding * 2.0
  {
    var hasTitle := depth > 0 && isParent && textWidth <= nodeWidth - nodePadding * 2.0;
    (if hasTitle then textHeight + nodePadding * 2.0 else nodePadding, hasTitle)
  }

  /** The label fonts of the series: three sizes for leaves, a title for
      parents near the root and a subtitle for deeper ones. */
  datatype Tier = Large | Medium | Small | Subtitle | Title

  /** The configured font size of each tier. */
  function TierFontSize(t: Tier): real {
    match t
    case Large => 18.0
    case Medium => 14.0
    case Small => 10.0
    case Subtitle => 9.0
    case Title => 12.0
  }

  /** The font a node's name is drawn with. The inner size is the node's size
      less the node padding on both sides. */
  function LabelTier(isLeaf: bool, depth: nat, width: real, height: real, nodePadding: real): (t: Tier)
    ensures isLeaf <==> t in {Large, Medium, Small}
    ensures !isLeaf ==> (t == Subtitle <==> depth > 1)
  {
    var innerWidth := width - nodePadding * 2.0;
    var innerHeight := height - nodePadding * 2.0;
    if isLeaf then
      if innerWidth > 40.0 && innerHeight > 40.0 then Large
      else if innerWidth > 20.0 && innerHeight > 20.0 then Medium
      else Small
    else if depth > 1 then Subtitle
    else Title
  }

  /** A leaf gets the large font exactly when both inner sides exceed 40,
      the medium one when both exceed 20 but not both 40, and a bigger leaf
      never gets a smaller font than a smaller one. */
  lemma LeafTiers(depth: nat, w: real, h: real, w2: real, h2: real, p: real)
    requires w <= w2 && h <= h2
    ensures LabelTier(true, depth, w, h, p) == Large <==> w - 2.0 * p > 40.0 && h - 2.0 * p > 40.0
    ensures LabelTier(true, depth, w, h, p) == Medium
            <==> !(w - 2.0 * p > 40.0 && h - 2.0 * p > 40.0) && w - 2.0 * p > 20.0 && h - 2.0 * p > 20.0
    ensures TierFontSize(LabelTier(true, depth, w, h, p)) <= TierFontSize(LabelTier(true, depth, w2, h2, p))
  {
  }

  // ---------------------------------------------------------------------------
  // Tooltip

  /** The default tooltip before HTML formatting: the title, the background
      colour and, when shown, the colour line (name and value). */
  datatype Tooltip = Tooltip(title: JsValue, color: string, content: Option<(string, real)>)

  /** `getTooltipHtml` without a renderer. */
  function GetTooltip(n: TreemapNode, labelKey: string, colorKey: Option<string>, colorName: string,
                      rootName: string): (r: Tooltip)
    ensures n.depth > 0 ==> r.title == Series.Field(n.datum, labelKey)
    ensures n.depth == 0 ==> r.title == if rootName != "" then Str(rootName) else Series.Field(n.datum, labelKey)
    ensures r.color == if n.fill != "" then n.fill else "gray"
    ensures r.content.Some? <==> IsSet(colorKey) && colorName != "" && IsFiniteNumber(Series.Field(n.datum, colorKey.value))
    ensures r.content.Some? ==> r.content.value == (colorName, Series.Field(n.datum, colorKey.value).n.r)
  {
    var title := if n.depth > 0 then Series.Field(n.datum, labelKey)
                 else if rootName != "" then Str(rootName) else Series.Field(n.datum, labelKey);
    var content := if IsSet(colorKey) && colorName != "" && IsFiniteNumber(Series.Field(n.datum, colorKey.value))
                   then Some((colorName, Series.Field(n.datum, colorKey.value).n.r))
                   else None;
    Tooltip(title, if n.fill != "" then n.fill else "gray", content)
  }

  /** The colour line reads the raw datum, not the node's colour value: with
      no colour key the node is coloured by depth yet the tooltip shows no
      colour line. */
  lemma TooltipColorLineNeedsKey(n: TreemapNode, labelKey: string, colorName: string, rootName: string)
    ensures GetTooltip(n, labelKey, None, colorName, rootName).content.None?
    ensures GetTooltip(n, labelKey, Some(""), colorName, rootName).content.None?
  {
  }

  // ---------------------------------------------------------------------------
  // Axes, legend and node padding

  /** `getDomain`: the series spans [0, 1] on either axis. */
  function GetDomain(direction: Series.Direction): (d: seq<JsValue>)
    ensures |d| == 2 && d[0] == Real(0.0) && d[1] == Real(1.0)
  {
    [Real(0.0), Real(1.0)]
  }

  /** `listSeriesItems`: a treemap adds no legend entries. */
  function ListSeriesItems<T>(legendData: seq<T>): (r: seq<T>)
    ensures r == legendData
  {
    legendData
  }

  /** The part of the series state `nodePadding` touches. */
  datatype PaddingState = PaddingState(nodePadding: Num, flags: Series.Flags)

  /** The default padding between nodes. */
  const DefaultNodePadding := Fin(2.0)

  /** `nodePadding`: on a strict change it stores the value and runs the
      series' `update()` as written (`Series.UpdateAsWritten`); otherwise
      nothing happens. The update leaves an update pending, and raises the
      chart's flag, exactly when it consumed pending node data. */
  function SetNodePadding(s: PaddingState, value: Num): (r: (PaddingState, bool))
    ensures !r.1 ==> r.0 == s
    ensures r.1 <==> !StrictEquals(Number(s.nodePadding), Number(value))
    ensures r.1 ==> r.0.nodePadding == value && !r.0.flags.nodeDataPending
                    && (r.0.flags.updatePending <==> s.flags.nodeDataPending)
    ensures r.1 && s.flags.chartUpdatePending.Some? ==>
              r.0.flags.chartUpdatePending.Some?
              && (r.0.flags.chartUpdatePending.value <==> s.flags.chartUpdatePending.value || s.flags.nodeDataPending)
  {
    if !StrictEquals(Number(s.nodePadding), Number(value)) then
      (PaddingState(value, Series.UpdateAsWritten(s.flags)), true)
    else (s, false)
  }

  /** A new padding on a fresh treemap whose chart has just cleared its flag
      leaves the series and the chart flagged for another update. */
  lemma NodePaddingLeavesUpdatePending(value: Num)
    requires value != DefaultNodePadding
    ensures var r := SetNodePadding(PaddingState(DefaultNodePadding, Series.InitialFlags(Some(false))), value);
            r.1 && r.0.flags.updatePending && r.0.flags.chartUpdatePending == Some(true)
  {
  }

  /** Setting the same padding twice updates at most once (NaN, never equal
      to itself, updates every time). */
  lemma NodePaddingActsOnlyOnChange(s: PaddingState, value: Num)
    ensures value != NaN ==> !SetNodePadding(SetNodePadding(s, value).0, value).1
    ensures value == NaN ==> SetNodePadding(SetNodePadding(s, value).0, value).1
  {
  }
}
