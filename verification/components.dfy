/** The small observable components whose properties are all reactive:
    chart labels, captions, series markers, drop shadows, and the data
    property of hierarchy series. */
module Components {
  import opened Js
  import opened Observable
  import opened Reactive

  // ---------------------------------------------------------------------------
  // Label

  const LabelEnabled := Prop("enabled", Bool(true), ["change", "dataChange"], true)
  const LabelFontSize := Prop("fontSize", Real(12.0), ["change"], true)
  const LabelFontFamily := Prop("fontFamily", Str("Verdana, sans-serif"), ["change"], true)
  const LabelFontStyle := Prop("fontStyle", Undefined, ["change"], true)
  const LabelFontWeight := Prop("fontWeight", Undefined, ["change"], true)
  const LabelColor := Prop("color", Str("rgba(70, 70, 70, 1)"), ["change"], true)

  const LabelProps := [LabelEnabled, LabelFontSize, LabelFontFamily, LabelFontStyle, LabelFontWeight, LabelColor]

  /** A new label: enabled, 12px Verdana, dark grey, no font style or weight. */
  function NewLabel(self: nat): (c: Component)
    ensures forall p :: p in LabelProps ==> Get(c, p.name) == p.default
  {
    Component(NewObservable(self), map[
      "enabled" := Bool(true), "fontSize" := Real(12.0), "fontFamily" := Str("Verdana, sans-serif"),
      "color" := Str("rgba(70, 70, 70, 1)")])
  }

  /** Only `enabled` reaches the data pipeline: it fires 'change' then
      'dataChange'; every other label property fires 'change' alone. */
  lemma LabelCategories(c: Component, p: Prop, value: JsValue)
    requires p in LabelProps && Fires(p, Get(c, p.name), value)
    ensures p == LabelEnabled ==>
              Set(c, p, value).calls == NotifyPropertyListeners(c.obs, "enabled", Get(c, "enabled"), value)
                                        + TypeCalls(c.obs, "change") + TypeCalls(c.obs, "dataChange")
    ensures p != LabelEnabled ==>
              Set(c, p, value).calls == NotifyPropertyListeners(c.obs, p.name, Get(c, p.name), value)
                                        + TypeCalls(c.obs, "change")
  {
    NotifyOneType(c.obs, "change");
    NotifyTwoTypes(c.obs, "change", "dataChange");
  }

  // ---------------------------------------------------------------------------
  // Series marker

  /** The identity of the `Circle` marker class, the default shape. */
  const CircleClass: nat := 0

  const MarkerEnabled := Prop("enabled", Bool(true), ["change"], true)
  const MarkerShape := Prop("shape", FnRef(CircleClass), ["change"], true)
  const MarkerSize := Prop("size", Real(6.0), ["change"], true)
  const MarkerMaxSize := Prop("maxSize", Real(30.0), ["change"], true)
  const MarkerDomain := Prop("domain", Undefined, ["change"], true)
  const MarkerFill := Prop("fill", Undefined, ["change"], true)
  const MarkerStroke := Prop("stroke", Undefined, ["change"], true)
  const MarkerStrokeWidth := Prop("strokeWidth", Real(1.0), ["change"], true)
  const MarkerFillOpacity := Prop("fillOpacity", Undefined, ["change"], true)
  const MarkerStrokeOpacity := Prop("strokeOpacity", Undefined, ["change"], true)

  const MarkerProps := [MarkerEnabled, MarkerShape, MarkerSize, MarkerMaxSize, MarkerDomain,
                        MarkerFill, MarkerStroke, MarkerStrokeWidth, MarkerFillOpacity, MarkerStrokeOpacity]

  /** A new marker: enabled circles of size 6 (at most 30) with stroke width 1;
      fill, stroke, domain and opacities unset. */
  function NewMarker(self: nat): (c: Component)
    ensures forall p :: p in MarkerProps ==> Get(c, p.name) == p.default
  {
    var fields := map[
      "enabled" := Bool(true), "shape" := FnRef(CircleClass), "size" := Real(6.0),
      "maxSize" := Real(30.0), "strokeWidth" := Real(1.0)];
    var c := Component(NewObservable(self), fields);
    assert forall i :: 0 <= i < |MarkerProps| ==> Get(c, MarkerProps[i].name) == MarkerProps[i].default;
    c
  }

  /** Every marker setter fires exactly the 'change' category; re-setting a
      primitive to its current value fires nothing; a domain tuple always fires. */
  lemma MarkerSetters(c: Component, p: Prop, value: JsValue)
    requires p in MarkerProps
    ensures Fires(p, Get(c, p.name), value) ==>
              Set(c, p, value).calls == NotifyPropertyListeners(c.obs, p.name, Get(c, p.name), value)
                                        + TypeCalls(c.obs, "change")
    ensures !IsObject(value) && value != Number(NaN) && Get(c, p.name) == value ==> Set(c, p, value).calls == []
    ensures p == MarkerDomain && IsObject(value) ==> Fires(p, Get(c, p.name), value)
  {
    NotifyOneType(c.obs, "change");
  }

  // ---------------------------------------------------------------------------
  // Drop shadow

  const ShadowEnabled := Prop("enabled", Bool(true), ["change"], true)
  const ShadowColor := Prop("color", Str("rgba(0, 0, 0, 0.5)"), ["change"], true)
  const ShadowXOffset := Prop("xOffset", Real(0.0), ["change"], true)
  const ShadowYOffset := Prop("yOffset", Real(0.0), ["change"], true)
  const ShadowBlur := Prop("blur", Real(5.0), ["change"], true)

  const ShadowProps := [ShadowEnabled, ShadowColor, ShadowXOffset, ShadowYOffset, ShadowBlur]

  /** A new drop shadow: enabled, half-transparent black, no offset, blur 5. */
  function NewDropShadow(self: nat): (c: Component)
    ensures forall p :: p in ShadowProps ==> Get(c, p.name) == p.default
  {
    Component(NewObservable(self), map[
      "enabled" := Bool(true), "color" := Str("rgba(0, 0, 0, 0.5)"), "xOffset" := Real(0.0),
      "yOffset" := Real(0.0), "blur" := Real(5.0)])
  }

  /** A drop-shadow setter fires 'change' only when the (primitive) value
      changes, its property listeners see (previous, new), and the value reads back. */
  lemma ShadowSetters(c: Component, p: Prop, value: JsValue)
    requires p in ShadowProps && !IsObject(value)
    ensures Set(c, p, value).calls != [] ==> !StrictEquals(value, Get(c, p.name))
    ensures !StrictEquals(value, Get(c, p.name)) ==>
              Set(c, p, value).calls == NotifyPropertyListeners(c.obs, p.name, Get(c, p.name), value)
                                        + TypeCalls(c.obs, "change")
    ensures forall call :: call in Set(c, p, value).calls && call.event.PropertyChange? ==>
              call.event.oldValue == Get(c, p.name) && call.event.value == value
    ensures Get(Set(c, p, value).c, p.name) == value
  {
    NotifyOneType(c.obs, "change");
    if Fires(p, Get(c, p.name), value) {
      PropertyChangeCallsCarryValues(c, p, value);
    }
  }

  lemma PropertyChangeCallsCarryValues(c: Component, p: Prop, value: JsValue)
    requires Fires(p, Get(c, p.name), value)
    ensures forall call :: call in Set(c, p, value).calls && call.event.PropertyChange? ==>
              call.event.oldValue == Get(c, p.name) && call.event.value == value
  {
    forall call | call in Set(c, p, value).calls && call.event.PropertyChange?
      ensures call.event.oldValue == Get(c, p.name) && call.event.value == value
    {
      var k :| 0 <= k < |Set(c, p, value).calls| && Set(c, p, value).calls[k] == call;
      PropertyListenersFirst(c, p, value, k);
    }
  }

  // ---------------------------------------------------------------------------
  // Hierarchy series data

  const HierarchyData := Prop("data", Undefined, ["dataChange"], true)

  /** A hierarchy series starts with no chart and no data. */
  datatype HierarchySeries = HierarchySeries(chart: Option<nat>, comp: Component)

  function NewHierarchySeries(self: nat): (s: HierarchySeries)
    ensures s.chart.None? && Get(s.comp, "data") == Undefined
  {
    HierarchySeries(None, Component(NewObservable(self), map[]))
  }

  /** Assigning data fires the 'data' property listeners and then 'dataChange'
      (any object, even the same reference); an identical primitive, undefined
      or null fires nothing and leaves the data as it was. */
  lemma HierarchyDataSetter(s: HierarchySeries, value: JsValue)
    ensures IsObject(value) ==>
              Set(s.comp, HierarchyData, value).calls
              == NotifyPropertyListeners(s.comp.obs, "data", Get(s.comp, "data"), value) + TypeCalls(s.comp.obs, "dataChange")
    ensures !IsObject(value) && StrictEquals(value, Get(s.comp, "data")) ==>
              Set(s.comp, HierarchyData, value) == Outcome(s.comp, [])
  {
    NotifyOneType(s.comp.obs, "dataChange");
  }

  // ---------------------------------------------------------------------------
  // Caption

  /** The text-node properties a caption writes through to. */
  datatype NodeField = Text | FontStyle | FontWeight | FontSize | FontFamily | Fill

  /** The caption's text node, reduced to what the caption reads and writes. */
  datatype TextNode = TextNode(style: map<NodeField, JsValue>, textAlign: string, textBaseline: string,
                               pointerEventsNone: bool)

  datatype Caption = Caption(comp: Component, node: TextNode)

  datatype CaptionOutcome = CaptionOutcome(cap: Caption, calls: seq<Call>)

  const CaptionEnabled := Prop("enabled", Bool(false), ["change"], false)

  /** `padding`: a `Padding(10)` object by default, object-checked. */
  function CaptionPadding(defaultPadding: nat): Prop {
    Prop("padding", ObjRef(defaultPadding), ["change"], true)
  }

  /** `enabled` fires its property listeners then 'change', and only on a
      strict change (it has no object check); `padding` fires for every
      object, even the one it holds. */
  lemma CaptionReactiveSetters(cap: Caption, paddingObject: nat, value: JsValue)
    ensures Fires(CaptionEnabled, Get(cap.comp, "enabled"), value) <==> !StrictEquals(value, Get(cap.comp, "enabled"))
    ensures !StrictEquals(value, Get(cap.comp, "enabled")) ==>
              Set(cap.comp, CaptionEnabled, value).calls
              == NotifyPropertyListeners(cap.comp.obs, "enabled", Get(cap.comp, "enabled"), value) + TypeCalls(cap.comp.obs, "change")
    ensures IsObject(value) ==>
              Set(cap.comp, CaptionPadding(paddingObject), value).calls
              == NotifyPropertyListeners(cap.comp.obs, "padding", Get(cap.comp, "padding"), value) + TypeCalls(cap.comp.obs, "change")
  {
    NotifyOneType(cap.comp.obs, "change");
  }

  /** The constructor: `enabled` false, a fresh padding object, and the node
      centred, top-baselined and ignoring pointer events. */
  function NewCaption(self: nat, paddingObject: nat, node: TextNode): (cap: Caption)
    ensures Get(cap.comp, "enabled") == Bool(false) && Get(cap.comp, "padding") == ObjRef(paddingObject)
    ensures cap.node.textAlign == "center" && cap.node.textBaseline == "top" && cap.node.pointerEventsNone
    ensures cap.node.style == node.style
  {
    Caption(Component(NewObservable(self), map["enabled" := Bool(false), "padding" := ObjRef(paddingObject)]),
            node.(textAlign := "center", textBaseline := "top", pointerEventsNone := true))
  }

  /** The getters read back from the node. */
  function CaptionGet(cap: Caption, f: NodeField): JsValue {
    if f in cap.node.style then cap.node.style[f] else Undefined
  }

  /** text/fontStyle/fontWeight/fontSize/fontFamily/color: write through to the
      node and fire a 'change' event when the node's value differs. */
  function WriteThrough(cap: Caption, f: NodeField, value: JsValue): (r: CaptionOutcome)
    ensures CaptionGet(r.cap, f) == value
    ensures r.cap.comp == cap.comp
    ensures forall g :: g != f ==> CaptionGet(r.cap, g) == CaptionGet(cap, g)
    ensures StrictEquals(CaptionGet(cap, f), value) ==> r == CaptionOutcome(cap, [])
    ensures forall call :: call in r.calls ==> call.event == Fired("change", map[], cap.comp.obs.self)
  {
    if !StrictEquals(CaptionGet(cap, f), value) then
      CaptionOutcome(cap.(node := cap.node.(style := cap.node.style[f := value])),
                     FireEvent(cap.comp.obs, "change", map[]))
    else CaptionOutcome(cap, [])
  }

  /** Write-through setters notify no property listeners and only 'change'
      event listeners, each once per scope. */
  lemma WriteThroughReachesOnlyChangeListeners(cap: Caption, f: NodeField, value: JsValue, l: nat, s: nat)
    requires Valid(cap.comp.obs)
    requires !StrictEquals(CaptionGet(cap, f), value)
    ensures Count(WriteThrough(cap, f, value).calls, Call(l, s, Fired("change", map[], cap.comp.obs.self)))
            == if Registered(cap.comp.obs.events, "change", l, s) then 1 else 0
  {
    var o := cap.comp.obs;
    var none: map<string, JsValue> := map[];
    assert none - {"type", "source"} == none;
    if "change" in o.events {
      CallsExactlyOnce(o.events["change"], Fired("change", map[], o.self), l, s);
    }
  }
}
