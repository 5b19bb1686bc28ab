/** The setter pattern every reactive property follows.

  A property declared `@reactive('cat1', 'cat2') name = default` is expanded
  into a backing field and a setter that compares the new value with the old,
  stores it, notifies the property listeners of `name` with (old, new), and
  then notifies the event listeners of each category in order. The generated
  comparison has one quirk: when the declared type is not a primitive, a
  non-null object counts as changed even when it is the very same reference.
  Hand-written setters that compare strictly are the same pattern without the
  object check.
 */
module Reactive {
  import opened Js
  import opened Observable

  /** One declared property: its name, default value, event categories, and
      whether the setter carries the object check. */
  datatype Prop = Prop(name: string, default: JsValue, categories: seq<string>, objectCheck: bool)

  /** An observable with its backing fields, keyed by property name. */
  datatype Component = Component(obs: Observable, fields: map<string, JsValue>)

  /** What a setter call leaves behind: the new component and the listener calls it made. */
  datatype Outcome = Outcome(c: Component, calls: seq<Call>)

  /** An unset backing field reads as `undefined`. */
  function Get(c: Component, name: string): JsValue {
    if name in c.fields then c.fields[name] else Undefined
  }

  /** The generated guard: `value !== oldValue || (typeof value === 'object' && value !== null)`. */
  predicate Fires(p: Prop, oldValue: JsValue, value: JsValue) {
    !StrictEquals(value, oldValue) || (p.objectCheck && IsObject(value))
  }

  /** The generated setter. */
  function Set(c: Component, p: Prop, value: JsValue): (r: Outcome)
    ensures r.c.obs == c.obs
    ensures forall n :: n != p.name ==> Get(r.c, n) == Get(c, n)
    ensures !Fires(p, Get(c, p.name), value) ==> r == Outcome(c, [])
    ensures Fires(p, Get(c, p.name), value) ==>
              r.calls == NotifyPropertyListeners(c.obs, p.name, Get(c, p.name), value)
                         + NotifyEventListeners(c.obs, p.categories)
  {
    var oldValue := Get(c, p.name);
    if Fires(p, oldValue, value) then
      Outcome(c.(fields := c.fields[p.name := value]),
              NotifyPropertyListeners(c.obs, p.name, oldValue, value) + NotifyEventListeners(c.obs, p.categories))
    else
      Outcome(c, [])
  }

  /** Set-then-get returns the value set, whether or not the setter fired. */
  lemma SetThenGet(c: Component, p: Prop, value: JsValue)
    ensures Get(Set(c, p, value).c, p.name) == value
  {
  }

  /** Assigning the current value of a primitive property (anything but an
      object, and not NaN) does nothing at all. */
  lemma SetSamePrimitiveIsNoOp(c: Component, p: Prop)
    requires !IsObject(Get(c, p.name)) && Get(c, p.name) != Number(NaN)
    ensures Set(c, p, Get(c, p.name)) == Outcome(c, [])
  {
  }

  /** With the object check, an object always fires, even the same reference. */
  lemma ObjectAlwaysFires(c: Component, p: Prop, value: JsValue)
    requires p.objectCheck && IsObject(value)
    ensures Set(c, p, value).calls
            == NotifyPropertyListeners(c.obs, p.name, Get(c, p.name), value) + NotifyEventListeners(c.obs, p.categories)
  {
  }

  /** A setter fires iff the value changed strictly, or it is an object and the
      property is object-checked; re-setting null or undefined fires nothing. */
  lemma FiresIff(p: Prop, oldValue: JsValue, value: JsValue)
    ensures Fires(p, oldValue, value) <==> value != oldValue || value == Number(NaN) || (p.objectCheck && value.ObjRef?)
    ensures (value == Null || value == Undefined) ==> (Fires(p, oldValue, value) <==> value != oldValue)
  {
  }

  /** Setting twice in a row: the second call fires only for an object-checked
      object or NaN. */
  lemma SecondSetFiresOnlyForObjectsOrNaN(c: Component, p: Prop, value: JsValue)
    ensures Fires(p, Get(Set(c, p, value).c, p.name), value)
            <==> value == Number(NaN) || (p.objectCheck && IsObject(value))
  {
  }

  /** A call of the property listeners followed by the category listeners is
      a property change exactly when it falls in the first part. */
  lemma CallInConcat(a: seq<Call>, b: seq<Call>, k: nat, ev: Event, categories: seq<string>)
    requires ev.PropertyChange? && k < |a + b|
    requires forall c :: c in a ==> c.event == ev
    requires forall c :: c in b ==> c.event.SourceEvent? && c.event.typ in categories
    ensures k < |a| <==> (a + b)[k].event.PropertyChange?
    ensures (a + b)[k].event.PropertyChange? ==> (a + b)[k].event == ev
    ensures (a + b)[k].event.SourceEvent? ==> (a + b)[k].event.typ in categories
  {
    if k < |a| {
      assert (a + b)[k] == a[k] && a[k] in a;
    } else {
      assert (a + b)[k] == b[k - |a|] && b[k - |a|] in b;
    }
  }

  /** The calls a firing setter makes: first the property listeners of the name,
      each with (old, new), then the category listeners in category order. */
  lemma PropertyListenersFirst(c: Component, p: Prop, value: JsValue, k: nat)
    requires Fires(p, Get(c, p.name), value)
    requires k < |Set(c, p, value).calls|
    ensures var call := Set(c, p, value).calls[k];
            k < |NotifyPropertyListeners(c.obs, p.name, Get(c, p.name), value)|
            <==> call.event.PropertyChange?
    ensures var call := Set(c, p, value).calls[k];
            call.event.PropertyChange? ==> call.event == PropertyChange(p.name, c.obs.self, value, Get(c, p.name))
    ensures var call := Set(c, p, value).calls[k];
            call.event.SourceEvent? ==> call.event.typ in p.categories
  {
    var a := NotifyPropertyListeners(c.obs, p.name, Get(c, p.name), value);
    var b := NotifyEventListeners(c.obs, p.categories);
    assert Set(c, p, value).calls == a + b;
    CallInConcat(a, b, k, PropertyChange(p.name, c.obs.self, value, Get(c, p.name)), p.categories);
  }
}
