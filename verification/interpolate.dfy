/** The object interpolator: from a start object `a` and an end object `b` it
    builds a function of `t` that returns an object with `b`'s keys, where
    keys shared with `a` are interpolated and the others are copied from `b`.

    The per-value interpolator (`interpolate/value`) is outside this model
    and arrives as `value`: for two values it gives the function of `t`. */
module Interpolate {
  import opened Js

  /** An argument: a non-null object, or anything else. An object has the
      keys `for...in` enumerates (its own and inherited enumerable ones) in
      `fields`, and in `hidden` the further properties the `in` test finds:
      non-enumerable own ones, such as an array's 'length', and inherited
      non-enumerable ones, such as Object.prototype's 'toString'. A key in
      both reads as in `fields`. */
  datatype Arg = Object(fields: map<string, JsValue>, hidden: map<string, JsValue>) | NotObject

  /** What an interpolator keeps between calls: the interpolators of the
      shared keys and the result object, which every call overwrites. */
  datatype Interpolator = Interpolator(shared: map<string, real -> JsValue>, result: map<string, JsValue>)

  /** The keys `for (k in x)` visits, with `x[k]`; `null` and non-objects are
      replaced by `{}`, which enumerates nothing. */
  function FieldsOf(x: Arg): (m: map<string, JsValue>)
    ensures x.NotObject? ==> m == map[]
  {
    if x.Object? then x.fields else map[]
  }

  /** The properties `k in x` finds, with `x[k]`. A non-object is replaced by
      `{}`, which finds exactly `builtins`, the properties of Object.prototype. */
  function PropsOf(x: Arg, builtins: map<string, JsValue>): (m: map<string, JsValue>)
    ensures m.Keys == if x.Object? then x.fields.Keys + x.hidden.Keys else builtins.Keys
    ensures x.Object? ==> forall k :: k in x.fields ==> m[k] == x.fields[k]
  {
    if x.Object? then x.hidden + x.fields else builtins
  }

  /** Building the interpolator: keys of `b` that `in` finds in `a` get an
      interpolator between the two values; the other keys of `b` are copied
      into the result; keys of `a` alone are dropped. */
  function Make(a: Arg, b: Arg, builtins: map<string, JsValue>, value: (JsValue, JsValue) -> (real -> JsValue)): (r: Interpolator)
    ensures r.shared.Keys == FieldsOf(b).Keys * PropsOf(a, builtins).Keys
    ensures r.result.Keys == FieldsOf(b).Keys - PropsOf(a, builtins).Keys
    ensures forall k :: k in r.result ==> r.result[k] == FieldsOf(b)[k]
    ensures forall k :: k in r.shared ==> r.shared[k] == value(PropsOf(a, builtins)[k], FieldsOf(b)[k])
  {
    var pa := PropsOf(a, builtins);
    var fb := FieldsOf(b);
    Interpolator(map k | k in fb.Keys * pa.Keys :: value(pa[k], fb[k]),
                 map k | k in fb.Keys - pa.Keys :: fb[k])
  }

  /** One call at `t`: every shared key of the (one, reused) result object is
      set to its interpolator's value at `t`; the interpolator keeps that object. */
  function At(i: Interpolator, t: real): (r: Interpolator)
    ensures r.shared == i.shared
    ensures r.result.Keys == i.result.Keys + i.shared.Keys
    ensures forall k :: k in i.shared ==> r.result[k] == i.shared[k](t)
    ensures forall k :: k in i.result && k !in i.shared ==> r.result[k] == i.result[k]
  {
    Interpolator(i.shared, map k | k in i.result.Keys + i.shared.Keys ::
                             if k in i.shared then i.shared[k](t) else i.result[k])
  }

  /** What a call at `t` returns: exactly `b`'s keys, the shared ones at their
      interpolated value and the others as in `b` whatever `t` is. */
  lemma InterpolatedObject(a: Arg, b: Arg, builtins: map<string, JsValue>,
                           value: (JsValue, JsValue) -> (real -> JsValue), t: real)
    ensures var o := At(Make(a, b, builtins, value), t).result;
            var pa := PropsOf(a, builtins);
            o.Keys == FieldsOf(b).Keys
            && (forall k :: k in FieldsOf(b) && k in pa ==> o[k] == value(pa[k], FieldsOf(b)[k])(t))
            && (forall k :: k in FieldsOf(b) && k !in pa ==> o[k] == FieldsOf(b)[k])
  {
  }

  /** A key of `b` that `a` only has as a hidden property (an array's
      'length', an inherited 'toString') is interpolated from that property,
      not copied. */
  lemma HiddenKeyInterpolated(fa: map<string, JsValue>, hidden: map<string, JsValue>, b: Arg, k: string,
                              builtins: map<string, JsValue>, value: (JsValue, JsValue) -> (real -> JsValue), t: real)
    requires k in FieldsOf(b) && k !in fa && k in hidden
    ensures var o := At(Make(Object(fa, hidden), b, builtins, value), t).result;
            k in o && o[k] == value(hidden[k], FieldsOf(b)[k])(t)
  {
    InterpolatedObject(Object(fa, hidden), b, builtins, value, t);
  }

  /** The result object is reused: after calls at `t1` then `t2` it holds
      exactly what a single call at `t2` would have produced, so an object
      returned earlier now shows the later values. */
  lemma LaterCallOverwrites(a: Arg, b: Arg, builtins: map<string, JsValue>,
                            value: (JsValue, JsValue) -> (real -> JsValue), t1: real, t2: real)
    ensures At(At(Make(a, b, builtins, value), t1), t2) == At(Make(a, b, builtins, value), t2)
  {
  }

  /** Non-object arguments count as `{}`: with a non-object `a` only keys of
      `b` that Object.prototype has are interpolated and the rest of `b` is
      copied; with a non-object `b` the result is empty. */
  lemma NonObjectsAreEmpty(a: Arg, b: Arg, builtins: map<string, JsValue>,
                           value: (JsValue, JsValue) -> (real -> JsValue), t: real)
    ensures a.NotObject? ==>
              var o := At(Make(a, b, builtins, value), t).result;
              o.Keys == FieldsOf(b).Keys
              && (forall k :: k in FieldsOf(b) && k !in builtins ==> o[k] == FieldsOf(b)[k])
              && (forall k :: k in FieldsOf(b) && k in builtins ==> o[k] == value(builtins[k], FieldsOf(b)[k])(t))
    ensures b.NotObject? ==> At(Make(a, b, builtins, value), t).result == map[]
  {
  }
}
