/** `createId`: a per-class counter that names instances `ClassName-n`. */
module Id {
  import opened Js

  /** What `createId` reads and writes on an instance's constructor: the
      static `className`, and the static `id` counter (unset before the
      first call). */
  datatype Constructor = Constructor(className: Option<string>, id: Option<nat>)

  /** `createId` either throws (no class name) or returns the id and the
      constructor with its counter advanced. */
  datatype Created = MissingClassName | Created(id: string, ctor: Constructor)

  function CreateId(c: Constructor): (r: Created)
    ensures r.MissingClassName? <==> !IsSet(c.className)
    ensures r.Created? ==> r.ctor == c.(id := Some(c.id.GetOr(0) + 1))
    ensures r.Created? ==> r.id == c.className.value + "-" + NatToString(c.id.GetOr(0) + 1)
  {
    if !IsSet(c.className) then MissingClassName
    else
      var n := c.id.GetOr(0) + 1;
      Created(c.className.value + "-" + NatToString(n), c.(id := Some(n)))
  }

  /** The ids of `k` successive calls on one constructor, and the constructor after them. */
  function Successive(c: Constructor, k: nat): (r: (seq<string>, Constructor))
    requires IsSet(c.className)
    ensures |r.0| == k
    ensures r.1.className == c.className
    decreases k
  {
    if k == 0 then ([], c)
    else
      var (ids, d) := Successive(c, k - 1);
      var made := CreateId(d);
      (ids + [made.id], made.ctor)
  }

  /** The counter starts from 1 and grows by exactly one per call: call `j`
      (from 0) names the instance with the number `start + j + 1`. */
  lemma {:induction false} SuccessiveNumbers(c: Constructor, k: nat)
    requires IsSet(c.className)
    ensures Successive(c, k).1.id == if k == 0 then c.id else Some(c.id.GetOr(0) + k)
    ensures forall j :: 0 <= j < k ==>
              Successive(c, k).0[j] == c.className.value + "-" + NatToString(c.id.GetOr(0) + j + 1)
    decreases k
  {
    if k > 0 {
      SuccessiveNumbers(c, k - 1);
    }
  }

  /** Equal ids with one class-name prefix have equal numbers. */
  lemma SameSuffix(name: string, a: string, b: string)
    requires name + "-" + a == name + "-" + b
    ensures a == b
  {
    assert a == (name + "-" + a)[|name| + 1..];
    assert b == (name + "-" + b)[|name| + 1..];
  }

  /** Successive ids for one constructor are pairwise distinct. */
  lemma SuccessiveIdsDistinct(c: Constructor, k: nat, i: nat, j: nat)
    requires IsSet(c.className) && i < j < k
    ensures Successive(c, k).0[i] != Successive(c, k).0[j]
  {
    SuccessiveNumbers(c, k);
    var name := c.className.value;
    var n := c.id.GetOr(0);
    if Successive(c, k).0[i] == Successive(c, k).0[j] {
      SameSuffix(name, NatToString(n + i + 1), NatToString(n + j + 1));
      NatToStringInjective(n + i + 1, n + j + 1);
    }
  }
}
