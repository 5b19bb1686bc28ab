/** JavaScript values as the chart library sees them at run time.

  Numbers are IEEE doubles without rounding: a finite real, NaN or one of the
  two infinities. Objects, arrays and functions are references compared by
  identity. Strict equality (`===`), truthiness, `typeof v === 'object'` and
  unary `+` are defined here once and used by every other module.
 */
module Js {

  datatype Option<+T> = None | Some(value: T) {
    function GetOr(default: T): T {
      match this
      case Some(v) => v
      case None => default
    }
  }

  /** A JavaScript number: a finite real, NaN, +Infinity or -Infinity. */
  datatype Num = Fin(r: real) | NaN | PosInf | NegInf {
    /** `isFinite(n)` on a number. */
    predicate IsFinite() { Fin? }
  }

  const Zero: Num := Fin(0.0)
  const One: Num := Fin(1.0)

  /** `a === b` on numbers: NaN is unequal to everything, itself included. */
  predicate NumEq(a: Num, b: Num) {
    !a.NaN? && !b.NaN? && a == b
  }

  function Neg(a: Num): (r: Num)
    ensures a.Fin? <==> r.Fin?
    ensures a.Fin? ==> r.r == -a.r
  {
    match a
    case Fin(x) => Fin(-x)
    case NaN => NaN
    case PosInf => NegInf
    case NegInf => PosInf
  }

  /** `Math.abs(a)`. */
  function Abs(a: Num): (r: Num)
    ensures a.NaN? <==> r.NaN?
    ensures a.Fin? <==> r.Fin?
    ensures r.Fin? ==> r.r >= 0.0 && (r.r == a.r || r.r == -a.r)
    ensures !a.Fin? && !a.NaN? ==> r == PosInf
  {
    match a
    case Fin(x) => Fin(if x < 0.0 then -x else x)
    case NaN => NaN
    case _ => PosInf
  }

  /** `a + b`; the sum of opposite infinities is NaN. */
  function Add(a: Num, b: Num): (r: Num)
    ensures a.Fin? && b.Fin? <==> r.Fin?
    ensures r.Fin? ==> r.r == a.r + b.r
    ensures a.NaN? || b.NaN? ==> r.NaN?
  {
    match (a, b)
    case (Fin(x), Fin(y)) => Fin(x + y)
    case (NaN, _) => NaN
    case (_, NaN) => NaN
    case (PosInf, NegInf) => NaN
    case (NegInf, PosInf) => NaN
    case (PosInf, _) => PosInf
    case (NegInf, _) => NegInf
    case (_, PosInf) => PosInf
    case (_, NegInf) => NegInf
  }

  /** `a - b`. */
  function Sub(a: Num, b: Num): (r: Num)
    ensures a.Fin? && b.Fin? <==> r.Fin?
    ensures r.Fin? ==> r.r == a.r - b.r
  {
    Add(a, Neg(b))
  }

  /** `a * b`; zero times an infinity is NaN. */
  function Mul(a: Num, b: Num): (r: Num)
    ensures a.Fin? && b.Fin? <==> r.Fin?
    ensures r.Fin? ==> r.r == a.r * b.r
  {
    match (a, b)
    case (Fin(x), Fin(y)) => Fin(x * y)
    case (NaN, _) => NaN
    case (_, NaN) => NaN
    case (Fin(x), _) =>
      if x == 0.0 then NaN
      else if (x > 0.0) == b.PosInf? then PosInf else NegInf
    case (_, Fin(y)) =>
      if y == 0.0 then NaN
      else if (y > 0.0) == a.PosInf? then PosInf else NegInf
    case _ => if a == b then PosInf else NegInf
  }

  /** `a / b`; division by zero gives an infinity (or NaN for 0/0). The sign
      of zero is not tracked, so x/0 is +Infinity for x > 0 and -Infinity for x < 0. */
  function Div(a: Num, b: Num): (r: Num)
    ensures a.Fin? && b.Fin? && b.r != 0.0 ==> r == Fin(a.r / b.r)
    ensures a.NaN? || b.NaN? || b == Zero ==> !r.Fin?
  {
    match (a, b)
    case (Fin(x), Fin(y)) =>
      if y != 0.0 then Fin(x / y)
      else if x == 0.0 then NaN
      else if x > 0.0 then PosInf else NegInf
    case (NaN, _) => NaN
    case (_, NaN) => NaN
    case (Fin(_), _) => Fin(0.0)
    case (_, Fin(y)) => if (y >= 0.0) == a.PosInf? then PosInf else NegInf
    case _ => NaN
  }

  /** `a < b`; every comparison with NaN is false. */
  predicate Lt(a: Num, b: Num) {
    match (a, b)
    case (Fin(x), Fin(y)) => x < y
    case (NegInf, Fin(_)) => true
    case (NegInf, PosInf) => true
    case (Fin(_), PosInf) => true
    case _ => false
  }

  /** `a <= b`. */
  predicate Le(a: Num, b: Num) {
    Lt(a, b) || NumEq(a, b)
  }

  /** The JavaScript value space. Object and function references are opaque identities. */
  datatype JsValue =
    | Undefined
    | Null
    | Bool(b: bool)
    | Number(n: Num)
    | Str(s: string)
    | ObjRef(id: nat)
    | FnRef(fid: nat)

  function Real(x: real): JsValue { Number(Fin(x)) }

  /** `a === b`. */
  predicate StrictEquals(a: JsValue, b: JsValue) {
    if a.Number? && b.Number? then NumEq(a.n, b.n) else a == b
  }

  /** `typeof v === 'object' && v !== null`: true for objects and arrays only. */
  predicate IsObject(v: JsValue) {
    v.ObjRef?
  }

  /** JavaScript truthiness (`!!v`). */
  predicate Truthy(v: JsValue) {
    match v
    case Undefined => false
    case Null => false
    case Bool(b) => b
    case Number(n) => !n.NaN? && n != Fin(0.0)
    case Str(s) => s != ""
    case ObjRef(_) => true
    case FnRef(_) => true
  }

  /** Unary `+v`. Only the empty string is converted from text (to 0); every
      other string becomes NaN, so numeric strings are not parsed. */
  function ToNumber(v: JsValue): (r: Num)
    ensures v.Number? ==> r == v.n
    ensures v.Undefined? || v.ObjRef? || v.FnRef? ==> r.NaN?
  {
    match v
    case Undefined => NaN
    case Null => Zero
    case Bool(b) => if b then One else Zero
    case Number(n) => n
    case Str(s) => if s == "" then Zero else NaN
    case ObjRef(_) => NaN
    case FnRef(_) => NaN
  }

  /** An optional key as JavaScript tests it (`if (key)`): set and non-empty. */
  predicate IsSet(key: Option<string>) {
    key.Some? && key.value != ""
  }

  /** `typeof v === 'number' && isFinite(v)`. */
  predicate IsFiniteNumber(v: JsValue) {
    v.Number? && v.n.Fin?
  }

  lemma StrictEqualsSymmetric(a: JsValue, b: JsValue)
    ensures StrictEquals(a, b) <==> StrictEquals(b, a)
  {
  }

  /** `===` is the identity relation except that NaN is not equal to itself. */
  lemma StrictEqualsIsIdentityButNaN(a: JsValue, b: JsValue)
    ensures StrictEquals(a, b) <==> a == b && a != Number(NaN)
  {
  }

  /** ASCII upper-casing of one character (`String.prototype.toUpperCase` on ASCII). */
  function UpperChar(c: char): (r: char)
    ensures 'a' <= c <= 'z' ==> r as int == c as int - 32
    ensures !('a' <= c <= 'z') ==> r == c
  {
    if 'a' <= c <= 'z' then (c as int - 32) as char else c
  }

  /** ASCII upper-casing of a string. */
  function Upper(s: string): (r: string)
    ensures |r| == |s|
    ensures forall i :: 0 <= i < |s| ==> r[i] == UpperChar(s[i])
  {
    if s == [] then [] else [UpperChar(s[0])] + Upper(s[1..])
  }

  /** Decimal text of a natural number, as `String(n)` prints it. */
  function NatToString(n: nat): (r: string)
    ensures |r| >= 1
    ensures forall i :: 0 <= i < |r| ==> '0' <= r[i] <= '9'
    ensures r[0] == '0' ==> n == 0
    decreases n
  {
    if n < 10 then [Digit(n)] else NatToString(n / 10) + [Digit(n % 10)]
  }

  function Digit(d: nat): (c: char)
    requires d < 10
    ensures '0' <= c <= '9' && c as int - '0' as int == d
  {
    ('0' as int + d) as char
  }

  /** Reads decimal digits back; the inverse of NatToString. */
  function ParseNat(s: string): (n: nat)
    requires forall i :: 0 <= i < |s| ==> '0' <= s[i] <= '9'
  {
    if s == [] then 0 else ParseNat(s[..|s| - 1]) * 10 + (s[|s| - 1] as int - '0' as int)
  }

  lemma {:induction false} ParseNatToString(n: nat)
    ensures ParseNat(NatToString(n)) == n
    decreases n
  {
    if n >= 10 {
      var s := NatToString(n / 10);
      var t := s + [Digit(n % 10)];
      assert t[..|t| - 1] == s;
      ParseNatToString(n / 10);
    }
  }

  /** Different numbers print differently. */
  lemma NatToStringInjective(m: nat, n: nat)
    ensures NatToString(m) == NatToString(n) ==> m == n
  {
    ParseNatToString(m);
    ParseNatToString(n);
  }
}
