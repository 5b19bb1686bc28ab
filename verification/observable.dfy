/** The listener registry every chart component inherits.

  An observable keeps two independent registries, one for property listeners
  and one for event listeners. Each maps a name (a property name or an event
  type) to its listeners in insertion order, and each listener to its scopes,
  also in insertion order (JavaScript `Map` and `Set` iterate in insertion
  order). Listeners and scopes are identities. Notification does not run the
  listeners: it returns the trace of calls, one `Call(listener, scope, event)`
  per invocation, in the order they happen.
 */
module Observable {
  import opened Js

  /** One listener and its scopes. */
  datatype Entry = Entry(listener: nat, scopes: seq<nat>)

  /** name → listeners in insertion order. */
  type Registry = map<string, seq<Entry>>

  /** The argument a listener receives. `Fired` is what `fireEvent` passes:
      the caller's event fields with `source` set to the observable. */
  datatype Event =
    | PropertyChange(name: string, source: nat, value: JsValue, oldValue: JsValue)
    | SourceEvent(typ: string, source: nat)
    | Fired(typ: string, fields: map<string, JsValue>, source: nat)

  datatype Call = Call(listener: nat, scope: nat, event: Event)

  /** An observable object: its own identity and its two registries. */
  datatype Observable = Observable(self: nat, props: Registry, events: Registry)

  function NewObservable(self: nat): (o: Observable)
    ensures o.self == self && o.props == map[] && o.events == map[]
  {
    Observable(self, map[], map[])
  }

  // ---------------------------------------------------------------------------
  // Entry lists

  ghost predicate Distinct<T>(s: seq<T>) {
    forall i, j :: 0 <= i < j < |s| ==> s[i] != s[j]
  }

  /** No listener twice, and every listener has at least one scope, none twice. */
  ghost predicate WellFormed(entries: seq<Entry>) {
    (forall i, j :: 0 <= i < j < |entries| ==> entries[i].listener != entries[j].listener)
    && (forall i :: 0 <= i < |entries| ==> entries[i].scopes != [] && Distinct(entries[i].scopes))
  }

  ghost predicate ValidRegistry(reg: Registry) {
    forall name :: name in reg ==> WellFormed(reg[name])
  }

  ghost predicate Valid(o: Observable) {
    ValidRegistry(o.props) && ValidRegistry(o.events)
  }

  /** Position of `l` among the listeners, if registered. */
  function Find(entries: seq<Entry>, l: nat): (r: Option<nat>)
    ensures r.Some? ==> r.value < |entries| && entries[r.value].listener == l
    ensures r.Some? ==> forall k :: 0 <= k < r.value ==> entries[k].listener != l
    ensures r.None? ==> forall k :: 0 <= k < |entries| ==> entries[k].listener != l
  {
    if entries == [] then None
    else if entries[0].listener == l then Some(0)
    else match Find(entries[1..], l)
      case None => None
      case Some(k) => Some(k + 1)
  }

  /** `(l, s)` is registered in the list. */
  predicate Has(entries: seq<Entry>, l: nat, s: nat) {
    exists i :: 0 <= i < |entries| && entries[i].listener == l && s in entries[i].scopes
  }

  /** `(name, l, s)` is registered. */
  predicate Registered(reg: Registry, name: string, l: nat, s: nat) {
    name in reg && Has(reg[name], l, s)
  }

  function EntriesOf(reg: Registry, name: string): seq<Entry> {
    if name in reg then reg[name] else []
  }

  // ---------------------------------------------------------------------------
  // Add

  function AddScope(ss: seq<nat>, s: nat): (r: seq<nat>)
    ensures s in r && forall x :: x in r <==> x in ss || x == s
    ensures Distinct(ss) ==> Distinct(r)
    ensures s in ss ==> r == ss
    ensures s !in ss ==> r == ss + [s]
  {
    if s in ss then ss else ss + [s]
  }

  /** `entries` with position `i` replaced by `mid` (zero or one entries). */
  function Splice(entries: seq<Entry>, i: nat, mid: seq<Entry>): (r: seq<Entry>)
    requires i < |entries|
    ensures |r| == |entries| - 1 + |mid|
  {
    entries[..i] + mid + entries[i + 1..]
  }

  /** `(l, s)` is registered at a position other than `i`. */
  predicate HasElsewhere(entries: seq<Entry>, i: nat, l: nat, s: nat) {
    exists j :: 0 <= j < |entries| && j != i && entries[j].listener == l && s in entries[j].scopes
  }

  lemma HasSplit(entries: seq<Entry>, i: nat, l: nat, s: nat)
    requires i < |entries|
    ensures Has(entries, l, s) <==> HasElsewhere(entries, i, l, s) || (entries[i].listener == l && s in entries[i].scopes)
  {
  }

  lemma HasSplice(entries: seq<Entry>, i: nat, mid: seq<Entry>, l: nat, s: nat)
    requires i < |entries| && |mid| <= 1
    ensures Has(Splice(entries, i, mid), l, s) <==> HasElsewhere(entries, i, l, s) || Has(mid, l, s)
  {
    var r := Splice(entries, i, mid);
    var d := |mid|;
    assert forall j :: 0 <= j < i ==> r[j] == entries[j];
    assert forall j :: i < j < |entries| ==> r[j - 1 + d] == entries[j];
    assert forall j :: 0 <= j < d ==> r[i + j] == mid[j];
    if Has(r, l, s) {
      var k :| 0 <= k < |r| && r[k].listener == l && s in r[k].scopes;
      if k < i {
        assert entries[k] == r[k];
      } else if k < i + d {
        assert mid[k - i] == r[k];
      } else {
        assert entries[k + 1 - d] == r[k];
      }
    }
    if HasElsewhere(entries, i, l, s) {
      var j :| 0 <= j < |entries| && j != i && entries[j].listener == l && s in entries[j].scopes;
      if j < i {
        assert r[j] == entries[j];
      } else {
        assert r[j - 1 + d] == entries[j];
      }
    }
    if Has(mid, l, s) {
      assert r[i] == mid[0];
    }
  }

  lemma SpliceWellFormed(entries: seq<Entry>, i: nat, mid: seq<Entry>)
    requires WellFormed(entries) && i < |entries| && |mid| <= 1
    requires forall k :: 0 <= k < |mid| ==>
               mid[k].listener == entries[i].listener && mid[k].scopes != [] && Distinct(mid[k].scopes)
    ensures WellFormed(Splice(entries, i, mid))
  {
    var r := Splice(entries, i, mid);
    var d := |mid|;
    forall k | 0 <= k < |r|
      ensures r[k].listener == entries[SpliceSource(k, i, d)].listener
      ensures r[k].scopes != [] && Distinct(r[k].scopes)
    {
      if k < i {
        assert r[k] == entries[k];
      } else if k < i + d {
        assert r[k] == mid[0];
      } else {
        assert r[k] == entries[k + 1 - d];
      }
    }
    forall a, b | 0 <= a < b < |r|
      ensures r[a].listener != r[b].listener
    {
      assert SpliceSource(a, i, d) < SpliceSource(b, i, d);
    }
  }

  /** The position of `entries` that position `k` of a splice at `i` with
      `d` (at most one) new entries stands for. */
  function SpliceSource(k: nat, i: nat, d: nat): nat
    requires d <= 1
  {
    if k < i then k else k + 1 - d
  }

  /** Registration order after adding `(l, s)`: a listener not yet in the list
      goes last with the single scope `s`; a listener already in the list keeps
      its place, gaining `s` after its other scopes, and every other listener
      keeps its place and scopes. */
  predicate AddsInOrder(before: seq<Entry>, after: seq<Entry>, l: nat, s: nat) {
    |before| <= |after| <= |before| + 1
    && ((forall k :: 0 <= k < |before| ==> before[k].listener != l) ==> after == before + [Entry(l, [s])])
    && ((exists k :: 0 <= k < |before| && before[k].listener == l) ==> |after| == |before|)
    && (forall i :: 0 <= i < |before| ==>
          after[i] == before[i]
          || (before[i].listener == l && after[i] == Entry(l, AddScope(before[i].scopes, s))))
  }

  /** `Map.get(listener) ?? set(listener, new Set())`, then `scopes.add(scope)`. */
  function AddEntry(entries: seq<Entry>, l: nat, s: nat): (r: seq<Entry>)
    ensures WellFormed(entries) ==> WellFormed(r)
    ensures AddsInOrder(entries, r, l, s)
    ensures forall l', s' :: Has(r, l', s') <==> Has(entries, l', s') || (l' == l && s' == s)
  {
    match Find(entries, l)
    case Some(i) =>
      var r := entries[i := Entry(l, AddScope(entries[i].scopes, s))];
      assert r == Splice(entries, i, [Entry(l, AddScope(entries[i].scopes, s))]);
      var mid := [Entry(l, AddScope(entries[i].scopes, s))];
      forall l', s' ensures Has(r, l', s') <==> Has(entries, l', s') || (l' == l && s' == s) {
        HasSplit(entries, i, l', s');
        HasSplice(entries, i, mid, l', s');
        assert Has(mid, l', s') <==> l' == l && s' in mid[0].scopes;
      }
      assert WellFormed(entries) ==> WellFormed(r) by {
        if WellFormed(entries) {
          SpliceWellFormed(entries, i, [Entry(l, AddScope(entries[i].scopes, s))]);
        }
      }
      assert entries[i].listener == l;
      r
    case None =>
      var r := entries + [Entry(l, [s])];
      forall l', s' ensures Has(r, l', s') <==> Has(entries, l', s') || (l' == l && s' == s) {
        if Has(entries, l', s') {
          var j :| 0 <= j < |entries| && entries[j].listener == l' && s' in entries[j].scopes;
          assert r[j] == entries[j];
        }
        if l' == l && s' == s {
          assert r[|entries|] == Entry(l, [s]);
        }
      }
      assert forall k :: 0 <= k < |entries| ==> r[k] == entries[k];
      r
  }

  function AddTo(reg: Registry, name: string, l: nat, s: nat): (r: Registry)
    ensures r.Keys == reg.Keys + {name}
    ensures forall n :: n in reg && n != name ==> r[n] == reg[n]
    ensures r[name] == AddEntry(EntriesOf(reg, name), l, s)
  {
    reg[name := AddEntry(EntriesOf(reg, name), l, s)]
  }

  /** Adding `(name, l, s)` registers exactly that triple and keeps every other. */
  lemma AddRegisters(reg: Registry, name: string, l: nat, s: nat, n': string, l': nat, s': nat)
    ensures Registered(AddTo(reg, name, l, s), n', l', s')
            <==> Registered(reg, n', l', s') || (n' == name && l' == l && s' == s)
  {
  }

  lemma AddKeepsValid(reg: Registry, name: string, l: nat, s: nat)
    requires ValidRegistry(reg)
    ensures ValidRegistry(AddTo(reg, name, l, s))
  {
  }

  /** Registering the same triple twice is the same as registering it once. */
  lemma AddIdempotent(reg: Registry, name: string, l: nat, s: nat)
    ensures AddTo(AddTo(reg, name, l, s), name, l, s) == AddTo(reg, name, l, s)
  {
    var e0 := EntriesOf(reg, name);
    AddEntryIdempotent(e0, l, s);
    assert EntriesOf(AddTo(reg, name, l, s), name) == AddEntry(e0, l, s);
  }

  /** Adding a pair to a list twice is adding it once. */
  lemma AddEntryIdempotent(e0: seq<Entry>, l: nat, s: nat)
    ensures AddEntry(AddEntry(e0, l, s), l, s) == AddEntry(e0, l, s)
  {
    var e := AddEntry(e0, l, s);
    match Find(e0, l)
    case Some(j) =>
      assert e[j].listener == l && s in e[j].scopes;
      assert forall k :: 0 <= k < j ==> e[k] == e0[k];
      var f := Find(e, l);
      assert f.Some? && f.value <= j;
      assert f.value == j;
      assert AddScope(e[j].scopes, s) == e[j].scopes;
      assert e[j := Entry(l, e[j].scopes)] == e;
    case None =>
      assert e == e0 + [Entry(l, [s])];
      assert e[|e0|] == Entry(l, [s]);
      assert forall k :: 0 <= k < |e0| ==> e[k] == e0[k];
      var f := Find(e, l);
      assert f.Some? && f.value == |e0|;
      assert AddScope(e[|e0|].scopes, s) == e[|e0|].scopes;
      assert e[|e0| := Entry(l, e[|e0|].scopes)] == e;
  }

  /** `addPropertyListener(name, listener, scope = this)`. */
  function AddPropertyListener(o: Observable, name: string, l: nat, scope: Option<nat>): (r: Observable)
    ensures r.self == o.self && r.events == o.events
    ensures forall n, l', s' ::
              Registered(r.props, n, l', s') <==> Registered(o.props, n, l', s') || (n == name && l' == l && s' == scope.GetOr(o.self))
    ensures name in r.props && AddsInOrder(EntriesOf(o.props, name), r.props[name], l, scope.GetOr(o.self))
    ensures forall n :: n in o.props && n != name ==> n in r.props && r.props[n] == o.props[n]
  {
    AddRegistersAll(o.props, name, l, scope.GetOr(o.self));
    o.(props := AddTo(o.props, name, l, scope.GetOr(o.self)))
  }

  /** `addEventListener(type, listener, scope = this)`. */
  function AddEventListener(o: Observable, typ: string, l: nat, scope: Option<nat>): (r: Observable)
    ensures r.self == o.self && r.props == o.props
    ensures forall n, l', s' ::
              Registered(r.events, n, l', s') <==> Registered(o.events, n, l', s') || (n == typ && l' == l && s' == scope.GetOr(o.self))
    ensures typ in r.events && AddsInOrder(EntriesOf(o.events, typ), r.events[typ], l, scope.GetOr(o.self))
    ensures forall n :: n in o.events && n != typ ==> n in r.events && r.events[n] == o.events[n]
  {
    AddRegistersAll(o.events, typ, l, scope.GetOr(o.self));
    o.(events := AddTo(o.events, typ, l, scope.GetOr(o.self)))
  }

  lemma AddRegistersAll(reg: Registry, name: string, l: nat, s: nat)
    ensures forall n, l', s' ::
              Registered(AddTo(reg, name, l, s), n, l', s') <==> Registered(reg, n, l', s') || (n == name && l' == l && s' == s)
  {
    forall n, l', s' ensures Registered(AddTo(reg, name, l, s), n, l', s')
            <==> Registered(reg, n, l', s') || (n == name && l' == l && s' == s) {
      AddRegisters(reg, name, l, s, n, l', s');
    }
  }

  // ---------------------------------------------------------------------------
  // Remove

  function RemoveScope(ss: seq<nat>, s: nat): (r: seq<nat>)
    ensures forall x :: x in r <==> x in ss && x != s
    ensures Distinct(ss) ==> Distinct(r)
    ensures s !in ss ==> r == ss
    ensures |r| <= |ss|
  {
    if ss == [] then []
    else if ss[0] == s then RemoveScope(ss[1..], s)
    else
      var rest := RemoveScope(ss[1..], s);
      assert Distinct(ss) ==> ss[0] !in rest;
      [ss[0]] + rest
  }

  /** `scopes.delete(scope)`, then drop the listener when its scope set is empty. */
  function RemoveEntry(entries: seq<Entry>, l: nat, s: nat): (r: seq<Entry>)
    requires WellFormed(entries)
    ensures WellFormed(r)
    ensures forall l', s' :: Has(r, l', s') <==> Has(entries, l', s') && !(l' == l && s' == s)
    ensures !Has(entries, l, s) ==> r == entries
  {
    match Find(entries, l)
    case None => entries
    case Some(i) =>
      var ss := RemoveScope(entries[i].scopes, s);
      var mid := if ss == [] then [] else [Entry(l, ss)];
      var r := Splice(entries, i, mid);
      SpliceWellFormed(entries, i, mid);
      forall l', s' ensures Has(r, l', s') <==> Has(entries, l', s') && !(l' == l && s' == s) {
        HasSplit(entries, i, l', s');
        HasSplice(entries, i, mid, l', s');
        assert Has(mid, l', s') <==> mid != [] && l' == l && s' in mid[0].scopes;
        if l' == l {
          assert !HasElsewhere(entries, i, l', s');
        }
      }
      assert !Has(entries, l, s) ==> r == entries by {
        if !Has(entries, l, s) {
          assert mid == [entries[i]];
          assert entries == entries[..i] + [entries[i]] + entries[i + 1..];
        }
      }
      r
  }

  /** `removePropertyListener(name, listener?, scope = this)` and
      `removeEventListener`: with a listener, removes that one scope; without,
      clears every listener of the name. An unknown name leaves the registry as is. */
  function RemoveFrom(reg: Registry, name: string, l: Option<nat>, s: nat): (r: Registry)
    requires ValidRegistry(reg)
    ensures ValidRegistry(r)
    ensures r.Keys == reg.Keys
    ensures forall n :: n in reg && n != name ==> r[n] == reg[n]
  {
    if name !in reg then reg
    else if l.None? then reg[name := []]
    else reg[name := RemoveEntry(reg[name], l.value, s)]
  }

  /** Removing with a listener deletes exactly that triple. */
  lemma RemoveIsPrecise(reg: Registry, name: string, l: nat, s: nat, n': string, l': nat, s': nat)
    requires ValidRegistry(reg)
    ensures Registered(RemoveFrom(reg, name, Some(l), s), n', l', s')
            <==> Registered(reg, n', l', s') && !(n' == name && l' == l && s' == s)
  {
  }

  /** Removing something that is not registered is a no-op. */
  lemma RemoveUnknownIsNoOp(reg: Registry, name: string, l: nat, s: nat)
    requires ValidRegistry(reg)
    requires !Registered(reg, name, l, s)
    ensures RemoveFrom(reg, name, Some(l), s) == reg
  {
    if name in reg {
      assert reg[name := reg[name]] == reg;
    }
  }

  /** Removing without a listener deletes every registration of the name, and nothing else. */
  lemma RemoveAllClearsName(reg: Registry, name: string, s: nat, n': string, l': nat, s': nat)
    requires ValidRegistry(reg)
    ensures Registered(RemoveFrom(reg, name, None, s), n', l', s')
            <==> Registered(reg, n', l', s') && n' != name
  {
  }

  /** A listener stays in the list exactly while it has a scope registered. */
  lemma ListenerPresentIffScoped(entries: seq<Entry>, l: nat)
    requires WellFormed(entries)
    ensures Find(entries, l).Some? <==> exists s :: Has(entries, l, s)
  {
    if Find(entries, l).Some? {
      var i := Find(entries, l).value;
      assert entries[i].scopes[0] in entries[i].scopes;
      assert Has(entries, l, entries[i].scopes[0]);
    }
  }

  function RemovePropertyListener(o: Observable, name: string, l: Option<nat>, scope: Option<nat>): (r: Observable)
    requires Valid(o)
    ensures Valid(r) && r.self == o.self && r.events == o.events
  {
    o.(props := RemoveFrom(o.props, name, l, scope.GetOr(o.self)))
  }

  function RemoveEventListener(o: Observable, typ: string, l: Option<nat>, scope: Option<nat>): (r: Observable)
    requires Valid(o)
    ensures Valid(r) && r.self == o.self && r.props == o.props
  {
    o.(events := RemoveFrom(o.events, typ, l, scope.GetOr(o.self)))
  }

  // ---------------------------------------------------------------------------
  // Notification

  /** One listener called once per scope, scopes in insertion order. */
  function ScopeCalls(l: nat, ss: seq<nat>, ev: Event): (r: seq<Call>)
    ensures |r| == |ss|
    ensures forall i :: 0 <= i < |ss| ==> r[i] == Call(l, ss[i], ev)
  {
    if ss == [] then [] else [Call(l, ss[0], ev)] + ScopeCalls(l, ss[1..], ev)
  }

  /** `listeners.forEach((scopes, listener) => scopes.forEach(scope => listener.call(scope, ev)))`. */
  function Calls(entries: seq<Entry>, ev: Event): (r: seq<Call>)
  {
    if entries == [] then [] else ScopeCalls(entries[0].listener, entries[0].scopes, ev) + Calls(entries[1..], ev)
  }

  /** Every call carries the event, and its (listener, scope) is registered. */
  lemma {:induction false} CallsAreRegistered(entries: seq<Entry>, ev: Event)
    ensures forall c :: c in Calls(entries, ev) ==> c.event == ev && Has(entries, c.listener, c.scope)
  {
    if entries != [] {
      CallsAreRegistered(entries[1..], ev);
      forall c | c in Calls(entries, ev) ensures c.event == ev && Has(entries, c.listener, c.scope) {
        var head := ScopeCalls(entries[0].listener, entries[0].scopes, ev);
        if c in head {
          var k :| 0 <= k < |head| && head[k] == c;
          assert c.scope == entries[0].scopes[k];
        } else {
          assert c in Calls(entries[1..], ev);
          var j :| 0 <= j < |entries[1..]| && entries[1..][j].listener == c.listener && c.scope in entries[1..][j].scopes;
          assert entries[j + 1] == entries[1..][j];
        }
      }
    }
  }

  function Count(trace: seq<Call>, c: Call): (n: nat)
    ensures n <= |trace|
  {
    if trace == [] then 0 else (if trace[0] == c then 1 else 0) + Count(trace[1..], c)
  }

  lemma {:induction false} CountAppend(a: seq<Call>, b: seq<Call>, c: Call)
    ensures Count(a + b, c) == Count(a, c) + Count(b, c)
  {
    if a != [] {
      assert (a + b)[0] == a[0];
      assert (a + b)[1..] == a[1..] + b;
      CountAppend(a[1..], b, c);
      assert Count(a + b, c) == (if a[0] == c then 1 else 0) + Count(a[1..] + b, c);
    } else {
      assert a + b == b;
    }
  }

  lemma {:induction false} ScopeCallsCount(l: nat, ss: seq<nat>, ev: Event, c: Call)
    requires Distinct(ss)
    ensures Count(ScopeCalls(l, ss, ev), c) == if c.listener == l && c.scope in ss && c.event == ev then 1 else 0
  {
    if ss != [] {
      ScopeCallsCount(l, ss[1..], ev, c);
      assert ss[0] !in ss[1..];
    }
  }

  /** Each registered (listener, scope) pair is called exactly once per
      notification; unregistered pairs are not called. */
  lemma {:induction false} CallsExactlyOnce(entries: seq<Entry>, ev: Event, l: nat, s: nat)
    requires WellFormed(entries)
    ensures Count(Calls(entries, ev), Call(l, s, ev)) == if Has(entries, l, s) then 1 else 0
  {
    if entries != [] {
      var rest := entries[1..];
      assert WellFormed(rest);
      CallsExactlyOnce(rest, ev, l, s);
      CountAppend(ScopeCalls(entries[0].listener, entries[0].scopes, ev), Calls(rest, ev), Call(l, s, ev));
      ScopeCallsCount(entries[0].listener, entries[0].scopes, ev, Call(l, s, ev));
      if l == entries[0].listener {
        assert !Has(rest, l, s);
      }
      assert Has(entries, l, s) <==> (l == entries[0].listener && s in entries[0].scopes) || Has(rest, l, s) by {
        if Has(rest, l, s) {
          var j :| 0 <= j < |rest| && rest[j].listener == l && s in rest[j].scopes;
          assert entries[j + 1] == rest[j];
        }
        if Has(entries, l, s) && !(l == entries[0].listener && s in entries[0].scopes) {
          var j :| 0 <= j < |entries| && entries[j].listener == l && s in entries[j].scopes;
          assert rest[j - 1] == entries[j];
        }
      }
    }
  }

  /** Listeners are called in registration order: the calls of the first `k`
      listeners all come before those of the others. */
  lemma {:induction false} CallsInRegistrationOrder(entries: seq<Entry>, ev: Event, k: nat)
    requires k <= |entries|
    ensures Calls(entries, ev) == Calls(entries[..k], ev) + Calls(entries[k..], ev)
  {
    if k > 0 {
      CallsInRegistrationOrder(entries[1..], ev, k - 1);
      assert entries[..k][1..] == entries[1..][..k - 1];
      assert entries[1..][k - 1..] == entries[k..];
    }
  }

  /** A listener with `k` scopes is invoked `k` times, once per scope, in scope order. */
  lemma {:induction false} OneCallPerScope(entries: seq<Entry>, ev: Event, i: nat)
    requires i < |entries|
    ensures Calls(entries, ev) == Calls(entries[..i], ev)
            + ScopeCalls(entries[i].listener, entries[i].scopes, ev) + Calls(entries[i + 1..], ev)
  {
    CallsInRegistrationOrder(entries, ev, i);
    assert entries[i..][1..] == entries[i + 1..];
  }

  lemma CallsAppend(a: seq<Entry>, b: seq<Entry>, ev: Event)
    ensures Calls(a + b, ev) == Calls(a, ev) + Calls(b, ev)
  {
    CallsInRegistrationOrder(a + b, ev, |a|);
    assert (a + b)[..|a|] == a;
    assert (a + b)[|a|..] == b;
  }

  /** A listener added for the first time is called after every listener
      registered before it, once, with the scope it was added with. */
  lemma NewListenerCalledLast(entries: seq<Entry>, l: nat, s: nat, ev: Event)
    requires forall k :: 0 <= k < |entries| ==> entries[k].listener != l
    ensures Calls(AddEntry(entries, l, s), ev) == Calls(entries, ev) + [Call(l, s, ev)]
  {
    CallsAppend(entries, [Entry(l, [s])], ev);
    assert [Entry(l, [s])][1..] == [];
  }

  /** Adding a scope to a listener already registered leaves the order of the
      calls unchanged and calls the new scope after the listener's others. */
  lemma KnownListenerKeepsPlace(entries: seq<Entry>, i: nat, s: nat, ev: Event)
    requires WellFormed(entries) && i < |entries|
    ensures Calls(AddEntry(entries, entries[i].listener, s), ev)
            == Calls(entries[..i], ev)
               + ScopeCalls(entries[i].listener, AddScope(entries[i].scopes, s), ev)
               + Calls(entries[i + 1..], ev)
  {
    var l := entries[i].listener;
    var r := AddEntry(entries, l, s);
    assert |r| == |entries|;
    forall k | 0 <= k < |entries| && k != i ensures r[k] == entries[k] {
      assert entries[k].listener != l;
    }
    assert r[i] == Entry(l, AddScope(entries[i].scopes, s));
    OneCallPerScope(r, ev, i);
    assert r[..i] == entries[..i];
    assert r[i + 1..] == entries[i + 1..];
  }

  /** `notifyPropertyListeners(name, oldValue, value)`. */
  function NotifyPropertyListeners(o: Observable, name: string, oldValue: JsValue, value: JsValue): (r: seq<Call>)
    ensures forall c :: c in r ==> c.event == PropertyChange(name, o.self, value, oldValue)
                                   && Registered(o.props, name, c.listener, c.scope)
  {
    var ev := PropertyChange(name, o.self, value, oldValue);
    CallsAreRegistered(EntriesOf(o.props, name), ev);
    Calls(EntriesOf(o.props, name), ev)
  }

  function TypeCalls(o: Observable, typ: string): (r: seq<Call>)
    ensures forall c :: c in r ==> c.event == SourceEvent(typ, o.self)
                                   && Registered(o.events, typ, c.listener, c.scope)
  {
    CallsAreRegistered(EntriesOf(o.events, typ), SourceEvent(typ, o.self));
    Calls(EntriesOf(o.events, typ), SourceEvent(typ, o.self))
  }

  /** `notifyEventListeners(types)`: the types in list order, each with `{type, source}`. */
  function NotifyEventListeners(o: Observable, types: seq<string>): (r: seq<Call>)
    ensures forall c :: c in r ==> c.event.SourceEvent? && c.event.source == o.self && c.event.typ in types
                                   && Registered(o.events, c.event.typ, c.listener, c.scope)
  {
    if types == [] then [] else TypeCalls(o, types[0]) + NotifyEventListeners(o, types[1..])
  }

  /** Categories are handled in list order. */
  lemma {:induction false} NotifyEventListenersAppend(o: Observable, a: seq<string>, b: seq<string>)
    ensures NotifyEventListeners(o, a + b) == NotifyEventListeners(o, a) + NotifyEventListeners(o, b)
  {
    if a != [] {
      assert (a + b)[0] == a[0];
      assert (a + b)[1..] == a[1..] + b;
      NotifyEventListenersAppend(o, a[1..], b);
      assert NotifyEventListeners(o, a + b) == TypeCalls(o, a[0]) + NotifyEventListeners(o, a[1..] + b);
    } else {
      assert a + b == b;
    }
  }

  lemma NotifyOneType(o: Observable, t: string)
    ensures NotifyEventListeners(o, [t]) == TypeCalls(o, t)
  {
    assert [t][1..] == [];
  }

  lemma NotifyTwoTypes(o: Observable, t: string, u: string)
    ensures NotifyEventListeners(o, [t, u]) == TypeCalls(o, t) + TypeCalls(o, u)
  {
    assert [t, u][1..] == [u];
    NotifyOneType(o, u);
  }

  /** `fireEvent(event)`: the event's own fields plus `source = this`, to the listeners of `event.type` only. */
  function FireEvent(o: Observable, typ: string, fields: map<string, JsValue>): (r: seq<Call>)
    ensures forall c :: c in r ==> c.event == Fired(typ, fields - {"type", "source"}, o.self)
                                   && Registered(o.events, typ, c.listener, c.scope)
  {
    var ev := Fired(typ, fields - {"type", "source"}, o.self);
    CallsAreRegistered(EntriesOf(o.events, typ), ev);
    Calls(EntriesOf(o.events, typ), ev)
  }

  /** With a well-formed registry, `fireEvent` calls each registered
      (listener, scope) pair of the event's type exactly once and no other. */
  lemma FireEventCallsEachOnce(o: Observable, typ: string, fields: map<string, JsValue>)
    ensures ValidRegistry(o.events) ==>
              forall l, s :: Count(FireEvent(o, typ, fields), Call(l, s, Fired(typ, fields - {"type", "source"}, o.self)))
                             == if Registered(o.events, typ, l, s) then 1 else 0
  {
    if ValidRegistry(o.events) {
      var ev := Fired(typ, fields - {"type", "source"}, o.self);
      forall l, s ensures Count(FireEvent(o, typ, fields), Call(l, s, ev)) == if Registered(o.events, typ, l, s) then 1 else 0 {
        CallsExactlyOnce(EntriesOf(o.events, typ), ev, l, s);
      }
    }
  }

  /** The two registries are disjoint: property notification reads only the
      property registry and event notification only the event registry. */
  lemma RegistriesAreIndependent(o: Observable, props': Registry, events': Registry,
                                 name: string, oldValue: JsValue, value: JsValue, types: seq<string>)
    ensures NotifyPropertyListeners(o.(events := events'), name, oldValue, value)
            == NotifyPropertyListeners(o, name, oldValue, value)
    ensures NotifyEventListeners(o.(props := props'), types) == NotifyEventListeners(o, types)
  {
    NotifyEventsIgnoreProps(o, props', types);
  }

  lemma {:induction false} NotifyEventsIgnoreProps(o: Observable, props': Registry, types: seq<string>)
    ensures NotifyEventListeners(o.(props := props'), types) == NotifyEventListeners(o, types)
  {
    if types != [] {
      NotifyEventsIgnoreProps(o, props', types[1..]);
    }
  }
}
