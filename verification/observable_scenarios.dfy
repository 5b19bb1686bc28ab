/** Concrete registries and setter calls checked against the library's own
    expectations for the listener registry (lib/util/observable.test.ts). */
module ObservableScenarios {
  import opened Js
  import opened Observable
  import opened Reactive

  /** The test component's `john` and `bob` setters: strict, categories 'name' then 'misc'. */
  const John := Prop("john", Str("smith"), ["name", "misc"], false)
  const Bob := Prop("bob", Str("marley"), ["name", "misc"], false)
  /** `foo`: strict, category 'change'. */
  const Foo := Prop("foo", Str(""), ["change"], false)

  const Self: nat := 100

  /** The three counters the call-order test mutates from its listeners. */
  datatype Counters = Counters(name: int, category: int, category2: int)

  /** The test's four listeners: 1 on property 'bob', 2 on property 'john',
      3 on event 'name', 4 on event 'misc'. */
  function Effect(l: nat, c: Counters): Counters {
    if l == 1 then c.(name := c.name + 2, category := c.category + 2)
    else if l == 2 then c.(name := c.name * 3, category := c.category * 3)
    else if l == 3 then c.(category := c.category + 4, category2 := c.category2 + 2)
    else if l == 4 then c.(category2 := c.category2 * 3)
    else c
  }

  /** Runs the listeners of a trace in order. */
  function Run(trace: seq<Call>, c: Counters): Counters {
    if trace == [] then c else Run(trace[1..], Effect(trace[0].listener, c))
  }

  function CallOrderObservable(): Observable {
    var o := NewObservable(Self);
    var o := AddPropertyListener(o, "bob", 1, None);
    var o := AddPropertyListener(o, "john", 2, None);
    var o := AddEventListener(o, "name", 3, None);
    AddEventListener(o, "misc", 4, None)
  }

  lemma CallOrderRegistries()
    ensures CallOrderObservable().props == map["bob" := [Entry(1, [Self])], "john" := [Entry(2, [Self])]]
    ensures CallOrderObservable().events == map["name" := [Entry(3, [Self])], "misc" := [Entry(4, [Self])]]
  {
    assert AddEntry([], 1, Self) == [Entry(1, [Self])];
    assert AddEntry([], 2, Self) == [Entry(2, [Self])];
    assert AddEntry([], 3, Self) == [Entry(3, [Self])];
    assert AddEntry([], 4, Self) == [Entry(4, [Self])];
  }

  lemma CallOrderTrace(o: Observable)
    requires o.props == map["bob" := [Entry(1, [Self])], "john" := [Entry(2, [Self])]]
    requires o.events == map["name" := [Entry(3, [Self])], "misc" := [Entry(4, [Self])]]
    requires o.self == Self
    ensures var c := Component(o, map["john" := Str("smith"), "bob" := Str("marley")]);
            var first := Set(c, Bob, Str("aaa"));
            var second := Set(first.c, John, Str("bbb"));
            first.calls + second.calls == [
              Call(1, Self, PropertyChange("bob", Self, Str("aaa"), Str("marley"))),
              Call(3, Self, SourceEvent("name", Self)), Call(4, Self, SourceEvent("misc", Self)),
              Call(2, Self, PropertyChange("john", Self, Str("bbb"), Str("smith"))),
              Call(3, Self, SourceEvent("name", Self)), Call(4, Self, SourceEvent("misc", Self))]
  {
    var c := Component(o, map["john" := Str("smith"), "bob" := Str("marley")]);
    var first := Set(c, Bob, Str("aaa"));
    SetterCalls(o, c, Bob, Str("aaa"), 1);
    SetterCalls(o, first.c, John, Str("bbb"), 2);
  }

  /** A strict setter with categories 'name' then 'misc', whose property has
      the one listener `l` and which changes the value, calls `l` and then the
      listeners 3 and 4. */
  lemma SetterCalls(o: Observable, c: Component, p: Prop, value: JsValue, l: nat)
    requires o.events == map["name" := [Entry(3, [Self])], "misc" := [Entry(4, [Self])]]
    requires o.self == Self && c.obs == o
    requires p.name in o.props && o.props[p.name] == [Entry(l, [Self])]
    requires p.categories == ["name", "misc"] && Fires(p, Get(c, p.name), value)
    ensures Set(c, p, value).calls == [
              Call(l, Self, PropertyChange(p.name, Self, value, Get(c, p.name))),
              Call(3, Self, SourceEvent("name", Self)), Call(4, Self, SourceEvent("misc", Self))]
  {
    NotifyTwoTypes(o, "name", "misc");
    assert ScopeCalls(3, [Self], SourceEvent("name", Self)) == [Call(3, Self, SourceEvent("name", Self))];
    assert ScopeCalls(4, [Self], SourceEvent("misc", Self)) == [Call(4, Self, SourceEvent("misc", Self))];
    assert Calls([Entry(3, [Self])], SourceEvent("name", Self)) == [Call(3, Self, SourceEvent("name", Self))];
    assert Calls([Entry(4, [Self])], SourceEvent("misc", Self)) == [Call(4, Self, SourceEvent("misc", Self))];
    var ev := PropertyChange(p.name, Self, value, Get(c, p.name));
    assert ScopeCalls(l, [Self], ev) == [Call(l, Self, ev)];
    assert Calls([Entry(l, [Self])], ev) == [Call(l, Self, ev)];
  }

  lemma RunSix(trace: seq<Call>)
    requires |trace| == 6
    requires trace[0].listener == 1 && trace[1].listener == 3 && trace[2].listener == 4
    requires trace[3].listener == 2 && trace[4].listener == 3 && trace[5].listener == 4
    ensures Run(trace, Counters(2, 2, 2)) == Counters(12, 28, 42)
  {
    assert Run(trace[6..], Counters(12, 28, 42)) == Counters(12, 28, 42);
    assert Run(trace[5..], Counters(12, 28, 14)) == Counters(12, 28, 42);
    assert Run(trace[4..], Counters(12, 24, 12)) == Counters(12, 28, 42);
    assert Run(trace[3..], Counters(4, 8, 12)) == Counters(12, 28, 42);
    assert Run(trace[2..], Counters(4, 8, 4)) == Counters(12, 28, 42);
    assert Run(trace[1..], Counters(4, 4, 2)) == Counters(12, 28, 42);
  }

  /** Setting bob then john calls, in order: the bob property listener, the
      'name' and 'misc' listeners, the john property listener, then 'name' and
      'misc' again; starting from 2, 2, 2 this gives 12, 28 and 42. The
      registries required here are those `CallOrderObservable` builds
      (`CallOrderRegistries`). */
  lemma ListenerCallOrder(o: Observable)
    requires o.props == map["bob" := [Entry(1, [Self])], "john" := [Entry(2, [Self])]]
    requires o.events == map["name" := [Entry(3, [Self])], "misc" := [Entry(4, [Self])]]
    requires o.self == Self
    ensures var c := Component(o, map["john" := Str("smith"), "bob" := Str("marley")]);
            var first := Set(c, Bob, Str("aaa"));
            var second := Set(first.c, John, Str("bbb"));
            Run(first.calls + second.calls, Counters(2, 2, 2)) == Counters(12, 28, 42)
  {
    CallOrderTrace(o);
    var c := Component(o, map["john" := Str("smith"), "bob" := Str("marley")]);
    var first := Set(c, Bob, Str("aaa"));
    var second := Set(first.c, John, Str("bbb"));
    RunSix(first.calls + second.calls);
  }

  function ThreeScopes(): Observable {
    AddEventListener(AddEventListener(AddEventListener(NewObservable(Self), "change", 4, None),
                                      "change", 4, Some(5)), "change", 4, Some(7))
  }

  lemma ThreeScopesRegistry()
    ensures ThreeScopes().self == Self && ThreeScopes().props == map[]
    ensures ThreeScopes().events == map["change" := [Entry(4, [Self, 5, 7])]]
  {
    var a := AddEventListener(NewObservable(Self), "change", 4, None);
    assert AddEntry([], 4, Self) == [Entry(4, [Self])];
    assert a.events == map["change" := [Entry(4, [Self])]];
    AddOtherScope(a, "change", 4, [Self], 5);
    var b := AddEventListener(a, "change", 4, Some(5));
    assert [Self] + [5] == [Self, 5];
    AddOtherScope(b, "change", 4, [Self, 5], 7);
    assert [Self, 5] + [7] == [Self, 5, 7];
  }

  /** A listener registered alone on a type gains a new scope at the end. */
  lemma AddOtherScope(o: Observable, typ: string, l: nat, scopes: seq<nat>, s: nat)
    requires o.events == map[typ := [Entry(l, scopes)]] && s !in scopes
    ensures AddEventListener(o, typ, l, Some(s)).events == map[typ := [Entry(l, scopes + [s])]]
  {
    assert Find([Entry(l, scopes)], l) == Some(0);
    assert AddScope(scopes, s) == scopes + [s];
    assert AddEntry([Entry(l, scopes)], l, s) == [Entry(l, scopes + [s])];
  }

  lemma RemoveScope7(o: Observable)
    requires o.props == map[] && o.events == map["change" := [Entry(4, [Self, 5, 7])]]
    ensures Valid(o)
    ensures RemoveEventListener(o, "change", Some(4), Some(7)).events == map["change" := [Entry(4, [Self, 5])]]
  {
    assert Distinct([Self, 5, 7]);
    assert WellFormed([Entry(4, [Self, 5, 7])]);
    assert Find([Entry(4, [Self, 5, 7])], 4) == Some(0);
    assert [Self, 5, 7][1..] == [5, 7] && [5, 7][1..] == [7] && [7][1..] == [];
    assert RemoveScope([7], 7) == [];
    assert RemoveScope([5, 7], 7) == [5];
    assert RemoveScope([Self, 5, 7], 7) == [Self, 5];
    assert Splice([Entry(4, [Self, 5, 7])], 0, [Entry(4, [Self, 5])]) == [Entry(4, [Self, 5])];
  }

  lemma RemoveScope5(o: Observable)
    requires o.props == map[] && o.events == map["change" := [Entry(4, [Self, 5])]]
    ensures Valid(o)
    ensures RemoveEventListener(o, "change", Some(4), Some(5)).events == map["change" := [Entry(4, [Self])]]
  {
    assert Distinct([Self, 5]);
    assert WellFormed([Entry(4, [Self, 5])]);
    assert Find([Entry(4, [Self, 5])], 4) == Some(0);
    assert [Self, 5][1..] == [5] && [5][1..] == [];
    assert RemoveScope([5], 5) == [];
    assert RemoveScope([Self, 5], 5) == [Self];
    assert Splice([Entry(4, [Self, 5])], 0, [Entry(4, [Self])]) == [Entry(4, [Self])];
  }

  lemma RemoveDefaultScope(o: Observable)
    requires o.self == Self && o.props == map[] && o.events == map["change" := [Entry(4, [Self])]]
    ensures Valid(o)
    ensures RemoveEventListener(o, "change", Some(4), None).events == map["change" := []]
  {
    assert WellFormed([Entry(4, [Self])]);
    assert Find([Entry(4, [Self])], 4) == Some(0);
    assert RemoveScope([Self], Self) == [];
    assert Splice([Entry(4, [Self])], 0, []) == [];
  }

  lemma ChangeCallCount(o: Observable, scopes: seq<nat>)
    requires o.events == map["change" := if scopes == [] then [] else [Entry(4, scopes)]]
    ensures |NotifyEventListeners(o, ["change"])| == |scopes|
  {
    NotifyOneType(o, "change");
    if scopes != [] {
      assert Calls([Entry(4, scopes)], SourceEvent("change", o.self))
             == ScopeCalls(4, scopes, SourceEvent("change", o.self)) + Calls([], SourceEvent("change", o.self));
    }
  }

  /** The scope test: one listener under the default scope and two object
      scopes is called once per scope; removing scopes one at a time leaves
      2, 1 and then no calls. */
  lemma ScopeRemoval()
    ensures Valid(ThreeScopes())
    ensures var o := ThreeScopes();
            var o1 := RemoveEventListener(o, "change", Some(4), Some(7));
            var o2 := RemoveEventListener(o1, "change", Some(4), Some(5));
            var o3 := RemoveEventListener(o2, "change", Some(4), None);
            |NotifyEventListeners(o, ["change"])| == 3 && |NotifyEventListeners(o1, ["change"])| == 2
            && |NotifyEventListeners(o2, ["change"])| == 1 && |NotifyEventListeners(o3, ["change"])| == 0
  {
    ThreeScopesRegistry();
    RemovingScopes(ThreeScopes());
  }

  lemma RemovingScopes(o: Observable)
    requires o.self == Self && o.props == map[] && o.events == map["change" := [Entry(4, [Self, 5, 7])]]
    ensures Valid(o)
    ensures var o1 := RemoveEventListener(o, "change", Some(4), Some(7));
            var o2 := RemoveEventListener(o1, "change", Some(4), Some(5));
            var o3 := RemoveEventListener(o2, "change", Some(4), None);
            |NotifyEventListeners(o, ["change"])| == 3 && |NotifyEventListeners(o1, ["change"])| == 2
            && |NotifyEventListeners(o2, ["change"])| == 1 && |NotifyEventListeners(o3, ["change"])| == 0
  {
    ChangeCallCount(o, [Self, 5, 7]);
    RemoveScope7(o);
    var o1 := RemoveEventListener(o, "change", Some(4), Some(7));
    ChangeCallCount(o1, [Self, 5]);
    RemoveScope5(o1);
    var o2 := RemoveEventListener(o1, "change", Some(4), Some(5));
    ChangeCallCount(o2, [Self]);
    RemoveDefaultScope(o2);
    var o3 := RemoveEventListener(o2, "change", Some(4), None);
    ChangeCallCount(o3, []);
  }
}
