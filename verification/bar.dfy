/** The bar series' y keys: how a `yKeys` assignment is normalised into
    stacks, the bookkeeping derived from the stacks (running key counts,
    per-key enablement, the visible-stack domain of the group scale),
    names, legend items and item toggling. */
module Bar {
  import opened Js
  import Legend
  import Series

  // ---------------------------------------------------------------------------
  // Stacks of keys

  /** The keys of all stacks in stack order: the order of colours and legend items. */
  function Flatten(stacks: seq<seq<string>>): seq<string> {
    if stacks == [] then [] else stacks[0] + Flatten(stacks[1..])
  }

  lemma {:induction false} FlattenAppend(a: seq<seq<string>>, b: seq<seq<string>>)
    ensures Flatten(a + b) == Flatten(a) + Flatten(b)
  {
    if a == [] {
      assert a + b == b;
    } else {
      assert (a + b)[0] == a[0];
      assert (a + b)[1..] == a[1..] + b;
      FlattenAppend(a[1..], b);
    }
  }

  lemma FlattenOne(stack: seq<string>)
    ensures Flatten([stack]) == stack
  {
    assert [stack][1..] == [];
  }

  /** Each stack adds its own length to the flattened prefix. */
  lemma FlattenPrefixStep(stacks: seq<seq<string>>, s: nat)
    requires s < |stacks|
    ensures |Flatten(stacks[..s + 1])| == |Flatten(stacks[..s])| + |stacks[s]|
  {
    assert stacks[..s + 1] == stacks[..s] + [stacks[s]];
    FlattenAppend(stacks[..s], [stacks[s]]);
    FlattenOne(stacks[s]);
  }

  lemma FlattenPrefixGrows(stacks: seq<seq<string>>, i: nat, j: nat)
    requires i <= j <= |stacks|
    ensures |Flatten(stacks[..i])| <= |Flatten(stacks[..j])|
  {
    assert stacks[..j] == stacks[..i] + stacks[i..j];
    FlattenAppend(stacks[..i], stacks[i..j]);
  }

  /** Level `l` of stack `s` is key number |Flatten(stacks[..s])| + l of the
      flattened list. */
  lemma FlatPosition(stacks: seq<seq<string>>, s: nat, l: nat)
    requires s < |stacks| && l < |stacks[s]|
    ensures |Flatten(stacks[..s])| + l < |Flatten(stacks)|
    ensures Flatten(stacks)[|Flatten(stacks[..s])| + l] == stacks[s][l]
  {
    assert stacks == stacks[..s] + stacks[s..];
    FlattenAppend(stacks[..s], stacks[s..]);
    assert stacks[s..][0] == stacks[s];
  }

  /** Two different (stack, level) slots never share a flattened position. */
  lemma SlotsDistinct(stacks: seq<seq<string>>, s: nat, l: nat, s2: nat, l2: nat)
    requires s < |stacks| && l < |stacks[s]| && s2 < |stacks| && l2 < |stacks[s2]|
    requires s < s2
    ensures |Flatten(stacks[..s])| + l < |Flatten(stacks[..s2])| + l2
  {
    FlattenPrefixStep(stacks, s);
    FlattenPrefixGrows(stacks, s + 1, s2);
  }

  /** The `cumYKeyCount` loop: each stack's entry is the running total of the
      stack lengths before it, starting from `prev`. */
  function CumFrom(stacks: seq<seq<string>>, prev: nat): (cum: seq<nat>)
    ensures |cum| == |stacks|
    ensures forall i :: 0 <= i < |stacks| ==> cum[i] == prev + |Flatten(stacks[..i])|
  {
    if stacks == [] then []
    else
      var rest := CumFrom(stacks[1..], prev + |stacks[0]|);
      PrefixFlatten(stacks);
      [prev] + rest
  }

  lemma PrefixFlatten(stacks: seq<seq<string>>)
    requires stacks != []
    ensures Flatten(stacks[..0]) == []
    ensures forall i :: 1 <= i <= |stacks| ==> Flatten(stacks[..i]) == stacks[0] + Flatten(stacks[1..][..i - 1])
  {
    forall i | 1 <= i <= |stacks|
      ensures Flatten(stacks[..i]) == stacks[0] + Flatten(stacks[1..][..i - 1])
    {
      assert stacks[..i][0] == stacks[0];
      assert stacks[..i][1..] == stacks[1..][..i - 1];
    }
  }

  /** Indices (from `from`) of the non-empty stacks, ascending. */
  function NonEmptyFrom(stacks: seq<seq<string>>, from: nat): (ix: seq<nat>)
    ensures |ix| <= |stacks|
    ensures forall k :: 0 <= k < |ix| ==> from <= ix[k] < from + |stacks| && stacks[ix[k] - from] != []
    ensures forall i :: from <= i < from + |stacks| && stacks[i - from] != [] ==> i in ix
    ensures forall k, m :: 0 <= k < m < |ix| ==> ix[k] < ix[m]
  {
    if stacks == [] then []
    else
      var rest := NonEmptyFrom(stacks[1..], from + 1);
      if stacks[0] != [] then [from] + rest else rest
  }

  /** `String(index)` of every non-empty stack, in stack order: the group
      scale's domain. */
  function VisibleStacks(stacks: seq<seq<string>>): (domain: seq<string>)
    ensures |domain| <= |stacks|
    ensures forall i :: 0 <= i < |stacks| ==> (NatToString(i) in domain <==> stacks[i] != [])
  {
    var ix := NonEmptyFrom(stacks, 0);
    var domain := seq(|ix|, k requires 0 <= k < |ix| => NatToString(ix[k]));
    VisibleStacksMembership(stacks, ix, domain);
    domain
  }

  lemma VisibleStacksMembership(stacks: seq<seq<string>>, ix: seq<nat>, domain: seq<string>)
    requires ix == NonEmptyFrom(stacks, 0)
    requires |domain| == |ix| && forall k :: 0 <= k < |ix| ==> domain[k] == NatToString(ix[k])
    ensures forall i :: 0 <= i < |stacks| ==> (NatToString(i) in domain <==> stacks[i] != [])
  {
    forall i | 0 <= i < |stacks|
      ensures NatToString(i) in domain <==> stacks[i] != []
    {
      if NatToString(i) in domain {
        var k :| 0 <= k < |domain| && domain[k] == NatToString(i);
        NatToStringInjective(ix[k], i);
      }
      if stacks[i] != [] {
        assert stacks[i - 0] != [];
        assert i in ix;
        var k :| 0 <= k < |ix| && ix[k] == i;
        assert domain[k] == NatToString(i);
      }
    }
  }

  /** Every key of every stack enabled, and no other key. */
  function AllEnabled(stacks: seq<seq<string>>): (e: map<string, bool>)
    ensures forall k :: k in e <==> k in Flatten(stacks)
    ensures forall k :: k in e ==> e[k]
  {
    map k | k in Flatten(stacks) :: true
  }

  // ---------------------------------------------------------------------------
  // The yKeys assignment

  /** What may be assigned to `yKeys`: a flat list of keys, or a list of stacks. */
  datatype YKeysValue = Flat(keys: seq<string>) | Stacked(stacks: seq<seq<string>>)

  /** One stack per key, in key order. */
  function Singletons(keys: seq<string>): (stacks: seq<seq<string>>)
    ensures |stacks| == |keys| && forall i :: 0 <= i < |keys| ==> stacks[i] == [keys[i]]
  {
    seq(|keys|, i requires 0 <= i < |keys| => [keys[i]])
  }

  lemma {:induction false} FlattenSingletons(keys: seq<string>)
    ensures Flatten(Singletons(keys)) == keys
  {
    if keys != [] {
      assert Singletons(keys)[1..] == Singletons(keys[1..]);
      FlattenSingletons(keys[1..]);
      assert keys == [keys[0]] + keys[1..];
    }
  }

  /** The conversion at the head of the setter. A non-empty flat list becomes
      one stack per key when grouped, else a single stack, and is remembered;
      an empty list has no first element to inspect and is taken as it is. */
  function Normalise(value: YKeysValue, grouped: bool): (r: (seq<seq<string>>, Option<seq<string>>))
    ensures r.1.Some? <==> value.Flat? && value.keys != []
    ensures r.1.Some? ==> r.1.value == value.keys
    ensures Flatten(r.0) == (if value.Flat? then value.keys else Flatten(value.stacks))
    ensures value.Flat? && grouped ==> r.0 == Singletons(value.keys)
    ensures value.Flat? && value.keys != [] && !grouped ==> r.0 == [value.keys]
  {
    match value
    case Stacked(stacks) => (stacks, None)
    case Flat(keys) =>
      if keys == [] then ([], None)
      else if grouped then FlattenSingletons(keys); (Singletons(keys), Some(keys))
      else FlattenOne(keys); ([keys], Some(keys))
  }

  // ---------------------------------------------------------------------------
  // State

  /** `yNames`: either a key-to-name object or, as assigned, an array, whose
      properties are its decimal indices. */
  datatype Names = ArrayNames(values: seq<string>) | ObjectNames(names: map<string, string>)

  /** The bar series' own state (the base series' state is in `Series`). */
  datatype BarSeries = BarSeries(
    xKey: string,
    yKeys: seq<seq<string>>,
    flatYKeys: Option<seq<string>>,
    grouped: bool,
    cumYKeyCount: seq<nat>,
    seriesItemEnabled: map<string, bool>,
    groupDomain: seq<string>,
    yNames: Names,
    normalizedTo: Option<Num>,
    hideInLegend: seq<string>,
    fills: seq<string>,
    strokes: seq<string>,
    xData: seq<JsValue>,
    yData: seq<seq<seq<Num>>>,
    yDomain: Option<(Num, Num)>)

  const DefaultFills := ["#c16068", "#a2bf8a", "#ebcc87", "#80a0c3", "#b58dae", "#85c0d1"]
  const DefaultStrokes := ["#874349", "#718661", "#a48f5f", "#5a7088", "#7f637a", "#5d8692"]

  /** The running key counts belong to the current stacks, a remembered flat
      list is never empty, and a normalisation target is positive. */
  predicate Consistent(b: BarSeries) {
    b.cumYKeyCount == CumFrom(b.yKeys, 0) && (b.flatYKeys.Some? ==> b.flatYKeys.value != [])
    && (b.normalizedTo.Some? ==> Lt(Zero, b.normalizedTo.value))
  }

  /** A new bar series: no keys, not grouped, not normalised, the default palette. */
  function NewBar(): (b: BarSeries)
    ensures Consistent(b) && b.yKeys == [] && !b.grouped && b.normalizedTo.None?
    ensures b.fills == DefaultFills && b.strokes == DefaultStrokes
  {
    BarSeries("", [], None, false, [], map[], [], ObjectNames(map[]), None, [],
              DefaultFills, DefaultStrokes, [], [], None)
  }

  /** A setter's result: the new state and whether it scheduled a data pass. */
  datatype Step = Step(b: BarSeries, scheduled: bool)

  /** The state after a `yKeys` assignment that changed the stacks. */
  function Rekeyed(b: BarSeries, stacks: seq<seq<string>>, flat: Option<seq<string>>): BarSeries {
    b.(yKeys := stacks, flatYKeys := flat, cumYKeyCount := CumFrom(stacks, 0), yData := [],
       seriesItemEnabled := AllEnabled(stacks), groupDomain := VisibleStacks(stacks))
  }

  /** The `yKeys` setter. Deep equality with the current stacks makes it do
      nothing at all (not even remember a flat list). */
  function SetYKeys(b: BarSeries, value: YKeysValue): (r: Step)
    ensures r.scheduled <==> Normalise(value, b.grouped).0 != b.yKeys
    ensures !r.scheduled ==> r.b == b
    ensures r.scheduled ==> r.b.yKeys == Normalise(value, b.grouped).0 && r.b.flatYKeys == Normalise(value, b.grouped).1
    ensures r.scheduled ==> r.b.yData == [] && r.b.xData == b.xData && r.b.grouped == b.grouped
    ensures r.scheduled ==> |r.b.cumYKeyCount| == |r.b.yKeys|
    ensures r.scheduled ==> forall i :: 0 <= i < |r.b.yKeys| ==> r.b.cumYKeyCount[i] == |Flatten(r.b.yKeys[..i])|
    ensures r.scheduled ==> forall k :: k in r.b.seriesItemEnabled <==> k in Flatten(r.b.yKeys)
    ensures r.scheduled ==> forall k :: k in r.b.seriesItemEnabled ==> r.b.seriesItemEnabled[k]
    ensures r.scheduled ==> forall i :: 0 <= i < |r.b.yKeys| ==> (NatToString(i) in r.b.groupDomain <==> r.b.yKeys[i] != [])
    ensures Consistent(b) ==> Consistent(r.b)
  {
    var (stacks, flat) := Normalise(value, b.grouped);
    if stacks != b.yKeys then Step(Rekeyed(b, stacks, flat), true) else Step(b, false)
  }

  /** The `grouped` setter: on a change, re-applies the remembered flat list. */
  function SetGrouped(b: BarSeries, value: bool): (r: Step)
    ensures r.b.grouped == value
    ensures b.grouped == value ==> r == Step(b, false)
    ensures b.flatYKeys.None? ==> r.b == b.(grouped := value) && !r.scheduled
    ensures Consistent(b) ==> Consistent(r.b)
  {
    if b.grouped != value then
      var b1 := b.(grouped := value);
      if b1.flatYKeys.Some? then SetYKeys(b1, Flat(b1.flatYKeys.value)) else Step(b1, false)
    else Step(b, false)
  }

  /** Toggling `grouped` over a flat list gives one stack per key when turned
      on and a single stack when turned off; the flat list stays remembered and
      the flattened key order is unchanged. */
  lemma GroupedReappliesFlatKeys(b: BarSeries, value: bool)
    requires Consistent(b) && b.flatYKeys.Some? && b.grouped != value
    ensures var r := SetGrouped(b, value);
            r.b.yKeys == (if value then Singletons(b.flatYKeys.value) else [b.flatYKeys.value])
            && r.b.flatYKeys == b.flatYKeys
            && Flatten(r.b.yKeys) == b.flatYKeys.value
  {
    var f := b.flatYKeys.value;
    var r := SetGrouped(b, value);
    var (stacks, flat) := Normalise(Flat(f), value);
    if stacks == b.yKeys {
      assert r.b == b.(grouped := value);
    }
  }

  /** A second assignment of the same flat list changes nothing. */
  lemma SetYKeysIdempotent(b: BarSeries, value: YKeysValue)
    ensures var r := SetYKeys(b, value);
            !SetYKeys(r.b, value).scheduled && SetYKeys(r.b, value).b == r.b
  {
  }

  // ---------------------------------------------------------------------------
  // Names

  /** Folds a name array over the remembered flat keys, index by index; an
      index past the end of the array maps its key to undefined. */
  function NamesFrom(flat: seq<string>, values: seq<string>, i: nat, m: map<string, string>): (r: map<string, string>)
    requires i <= |flat|
    ensures forall k :: k in r ==> k in m || k in flat[i..]
    decreases |flat| - i
  {
    if i == |flat| then m
    else
      var m' := if i < |values| then m[flat[i] := values[i]] else m - {flat[i]};
      NamesFrom(flat, values, i + 1, m')
  }

  /** A key not folded over keeps its entry. */
  lemma {:induction false} NamesFromUntouched(flat: seq<string>, values: seq<string>, i: nat, m: map<string, string>, k: string)
    requires i <= |flat| && k !in flat[i..]
    ensures (k in NamesFrom(flat, values, i, m) <==> k in m)
    ensures k in m ==> NamesFrom(flat, values, i, m)[k] == m[k]
    decreases |flat| - i
  {
    if i < |flat| {
      assert flat[i..] == [flat[i]] + flat[i + 1..];
      var m' := if i < |values| then m[flat[i] := values[i]] else m - {flat[i]};
      NamesFromUntouched(flat, values, i + 1, m', k);
    }
  }

  /** With distinct flat keys, each key gets the name at its own index. */
  lemma {:induction false} NamesFromByIndex(flat: seq<string>, values: seq<string>, i: nat, m: map<string, string>, j: nat)
    requires i <= j < |flat| && j < |values|
    requires forall p, q :: 0 <= p < q < |flat| ==> flat[p] != flat[q]
    ensures flat[j] in NamesFrom(flat, values, i, m) && NamesFrom(flat, values, i, m)[flat[j]] == values[j]
    decreases |flat| - i
  {
    var m' := m[flat[i] := values[i]];
    if i == j {
      assert flat[j] !in flat[j + 1..];
      NamesFromUntouched(flat, values, i + 1, m', flat[j]);
    } else {
      NamesFromByIndex(flat, values, i + 1, m', j);
    }
  }

  /** An array key: the decimal text of an index, with no leading zeros. */
  predicate IsIndex(key: string) {
    key != [] && (forall i :: 0 <= i < |key| ==> '0' <= key[i] <= '9') && key == NatToString(ParseNat(key))
  }

  /** `yNames[yKey]`, empty when missing. */
  function NameLookup(names: Names, key: string): string {
    match names
    case ObjectNames(m) => if key in m then m[key] else ""
    case ArrayNames(values) => if IsIndex(key) && ParseNat(key) < |values| then values[ParseNat(key)] else ""
  }

  /** `yNames[yKey] || yKey`: the legend and tooltip text of a key. */
  function DisplayName(names: Names, key: string): (text: string)
    ensures text == key || text == NameLookup(names, key)
    ensures text == "" ==> key == ""
  {
    var n := NameLookup(names, key);
    if n != "" then n else key
  }

  /** The `yNames` setter: an array paired with a remembered flat list becomes
      a key-to-name object; anything else is stored as it is. Either way a data
      pass is scheduled. */
  function SetYNames(b: BarSeries, value: Names): (r: Step)
    ensures r.scheduled && r.b == b.(yNames := r.b.yNames)
    ensures value.ObjectNames? || b.flatYKeys.None? ==> r.b.yNames == value
    ensures value.ArrayNames? && b.flatYKeys.Some? ==>
              r.b.yNames.ObjectNames? && forall k :: k in r.b.yNames.names ==> k in b.flatYKeys.value
  {
    if value.ArrayNames? && b.flatYKeys.Some? then
      Step(b.(yNames := ObjectNames(NamesFrom(b.flatYKeys.value, value.values, 0, map[]))), true)
    else Step(b.(yNames := value), true)
  }

  /** Names given as an array line up with the flat keys by index. */
  lemma ArrayNamesFollowFlatKeys(b: BarSeries, values: seq<string>, j: nat)
    requires b.flatYKeys.Some? && j < |b.flatYKeys.value| && j < |values|
    requires forall p, q :: 0 <= p < q < |b.flatYKeys.value| ==> b.flatYKeys.value[p] != b.flatYKeys.value[q]
    ensures NameLookup(SetYNames(b, ArrayNames(values)).b.yNames, b.flatYKeys.value[j]) == values[j]
  {
    NamesFromByIndex(b.flatYKeys.value, values, 0, map[], j);
  }

  /** Without a flat list, an array's entries are found under their decimal indices. */
  lemma ArrayNamesByIndex(values: seq<string>, i: nat)
    requires i < |values|
    ensures NameLookup(ArrayNames(values), NatToString(i)) == values[i]
  {
    ParseNatToString(i);
  }

  // ---------------------------------------------------------------------------
  // normalizedTo

  /** `value ? Math.abs(value) : undefined`. */
  function NormalizedValue(value: Option<Num>): (r: Option<Num>)
    ensures r.None? <==> value.None? || value.value.NaN? || value.value == Zero
    ensures r.Some? ==> Lt(Zero, r.value)
    ensures r.Some? && value.value.Fin? ==> r.value.Fin? && (r.value.r == value.value.r || r.value.r == -value.value.r)
  {
    if value.Some? && !value.value.NaN? && value.value != Zero then Some(Abs(value.value)) else None
  }

  /** `===` between two values that are each a number or undefined. */
  predicate SameOptionalNumber(a: Option<Num>, b: Option<Num>) {
    (a.None? && b.None?) || (a.Some? && b.Some? && NumEq(a.value, b.value))
  }

  /** The `normalizedTo` setter: stores the magnitude, and schedules a data
      pass only when that differs from the stored value. */
  function SetNormalizedTo(b: BarSeries, value: Option<Num>): (r: Step)
    ensures r.b == b.(normalizedTo := r.b.normalizedTo)
    ensures r.scheduled <==> !SameOptionalNumber(b.normalizedTo, NormalizedValue(value))
    ensures r.scheduled ==> r.b.normalizedTo == NormalizedValue(value)
    ensures !r.scheduled ==> r.b == b
    ensures Consistent(b) ==> Consistent(r.b)
  {
    var abs := NormalizedValue(value);
    if !SameOptionalNumber(b.normalizedTo, abs) then Step(b.(normalizedTo := abs), true) else Step(b, false)
  }

  /** The sign is ignored: setting x and then -x schedules once; 0 and
      undefined both clear normalisation. */
  lemma NormalizedToIgnoresSign(b: BarSeries, x: real)
    ensures !SetNormalizedTo(SetNormalizedTo(b, Some(Fin(x))).b, Some(Fin(-x))).scheduled
    ensures SetNormalizedTo(b, Some(Zero)) == SetNormalizedTo(b, None)
  {
  }

  // ---------------------------------------------------------------------------
  // Legend items

  function Entry(b: BarSeries, id: string, key: string, colourIndex: nat): Legend.LegendEntry {
    Legend.LegendEntry(Legend.Datum(id, key, key in b.seriesItemEnabled && b.seriesItemEnabled[key], DisplayName(b.yNames, key)),
                Legend.Pick(b.fills, colourIndex), Legend.Pick(b.strokes, colourIndex))
  }

  /** The entry of one key, or none when the key is hidden from the legend. */
  function Slot(b: BarSeries, id: string, key: string, colourIndex: nat): (r: seq<Legend.LegendEntry>)
    ensures |r| <= 1
  {
    if key in b.hideInLegend then [] else [Entry(b, id, key, colourIndex)]
  }

  /** Reference: one entry per flattened key not hidden from the legend, in
      order, coloured by its flattened position (counted from `from`). */
  function FlatEntries(b: BarSeries, id: string, keys: seq<string>, from: nat): (r: seq<Legend.LegendEntry>)
    ensures |r| <= |keys|
  {
    if keys == [] then [] else Slot(b, id, keys[0], from) + FlatEntries(b, id, keys[1..], from + 1)
  }

  lemma {:induction false} FlatEntriesAppend(b: BarSeries, id: string, a: seq<string>, c: seq<string>, from: nat)
    ensures FlatEntries(b, id, a + c, from) == FlatEntries(b, id, a, from) + FlatEntries(b, id, c, from + |a|)
  {
    if a == [] {
      assert a + c == c;
    } else {
      var head := Slot(b, id, a[0], from);
      assert (a + c)[0] == a[0];
      assert (a + c)[1..] == a[1..] + c;
      assert FlatEntries(b, id, a + c, from) == head + FlatEntries(b, id, a[1..] + c, from + 1);
      FlatEntriesAppend(b, id, a[1..], c, from + 1);
    }
  }

  /** The inner `forEach`: levels `l..` of one stack, whose first colour index is `base`. */
  function StackEntries(b: BarSeries, id: string, stack: seq<string>, base: nat, l: nat): seq<Legend.LegendEntry>
    requires l <= |stack|
    decreases |stack| - l
  {
    if l == |stack| then [] else Slot(b, id, stack[l], base + l) + StackEntries(b, id, stack, base, l + 1)
  }

  /** The outer `forEach`: stacks `s..`, each starting at `cumYKeyCount[s]`. */
  function StacksEntries(b: BarSeries, id: string, s: nat): seq<Legend.LegendEntry>
    requires |b.cumYKeyCount| == |b.yKeys| && s <= |b.yKeys|
    decreases |b.yKeys| - s
  {
    if s == |b.yKeys| then []
    else StackEntries(b, id, b.yKeys[s], b.cumYKeyCount[s], 0) + StacksEntries(b, id, s + 1)
  }

  lemma {:induction false} StackEntriesAreFlat(b: BarSeries, id: string, stack: seq<string>, base: nat, l: nat)
    requires l <= |stack|
    ensures StackEntries(b, id, stack, base, l) == FlatEntries(b, id, stack[l..], base + l)
    decreases |stack| - l
  {
    if l < |stack| {
      StackEntriesAreFlat(b, id, stack, base, l + 1);
      assert stack[l..][0] == stack[l];
      assert stack[l..][1..] == stack[l + 1..];
    }
  }

  lemma StacksEntriesUnfold(b: BarSeries, id: string, s: nat)
    requires |b.cumYKeyCount| == |b.yKeys| && s < |b.yKeys|
    ensures StacksEntries(b, id, s) == FlatEntries(b, id, b.yKeys[s], b.cumYKeyCount[s]) + StacksEntries(b, id, s + 1)
  {
    StackEntriesAreFlat(b, id, b.yKeys[s], b.cumYKeyCount[s], 0);
    assert b.yKeys[s][0..] == b.yKeys[s];
  }

  lemma FlattenSuffix(stacks: seq<seq<string>>, s: nat)
    requires s < |stacks|
    ensures Flatten(stacks[s..]) == stacks[s] + Flatten(stacks[s + 1..])
  {
    assert stacks[s..] == [stacks[s]] + stacks[s + 1..];
    FlattenAppend([stacks[s]], stacks[s + 1..]);
    FlattenOne(stacks[s]);
  }

  lemma StacksEntriesStep(b: BarSeries, id: string, s: nat)
    requires |b.cumYKeyCount| == |b.yKeys| && s < |b.yKeys|
    requires b.cumYKeyCount[s] == |Flatten(b.yKeys[..s])|
    requires StacksEntries(b, id, s + 1) == FlatEntries(b, id, Flatten(b.yKeys[s + 1..]), |Flatten(b.yKeys[..s + 1])|)
    ensures StacksEntries(b, id, s) == FlatEntries(b, id, Flatten(b.yKeys[s..]), |Flatten(b.yKeys[..s])|)
  {
    var a, rest, c := b.yKeys[s], Flatten(b.yKeys[s + 1..]), b.cumYKeyCount[s];
    StacksEntriesUnfold(b, id, s);
    FlattenPrefixStep(b.yKeys, s);
    assert StacksEntries(b, id, s + 1) == FlatEntries(b, id, rest, c + |a|);
    FlatEntriesAppend(b, id, a, rest, c);
    FlattenSuffix(b.yKeys, s);
    assert Flatten(b.yKeys[s..]) == a + rest;
  }

  lemma {:induction false} StacksEntriesAreFlat(b: BarSeries, id: string, s: nat)
    requires Consistent(b) && s <= |b.yKeys|
    ensures StacksEntries(b, id, s) == FlatEntries(b, id, Flatten(b.yKeys[s..]), |Flatten(b.yKeys[..s])|)
    decreases |b.yKeys| - s
  {
    if s < |b.yKeys| {
      StacksEntriesAreFlat(b, id, s + 1);
      StacksEntriesStep(b, id, s);
    } else {
      assert b.yKeys[s..] == [];
    }
  }

  /** `listSeriesItems`: with data rows, an x key and some y keys, one entry per
      key not hidden from the legend, in stack order, enabled as its
      `seriesItemEnabled` flag (false when absent), labelled by its name or
      else the key, and coloured by its running position; otherwise nothing. */
  function ListSeriesItems(b: BarSeries, id: string, data: Option<seq<Series.Row>>): (r: seq<Legend.LegendEntry>)
    requires Consistent(b)
    ensures !(data.Some? && |data.value| > 0 && b.xKey != "" && |b.yKeys| > 0) ==> r == []
    ensures data.Some? && |data.value| > 0 && b.xKey != "" && |b.yKeys| > 0 ==>
              r == FlatEntries(b, id, Flatten(b.yKeys), 0)
  {
    if data.Some? && |data.value| > 0 && b.xKey != "" && |b.yKeys| > 0 then
      StacksEntriesAreFlat(b, id, 0);
      assert b.yKeys[0..] == b.yKeys;
      StacksEntries(b, id, 0)
    else []
  }

  /** Each visible key gets one entry, naming it, and hidden keys get none. */
  lemma {:induction false} FlatEntriesItems(b: BarSeries, id: string, keys: seq<string>, from: nat)
    ensures forall e :: e in FlatEntries(b, id, keys, from) ==> e.datum.itemId in keys && e.datum.itemId !in b.hideInLegend
    ensures forall k :: k in keys && k !in b.hideInLegend ==> exists e :: e in FlatEntries(b, id, keys, from) && e.datum.itemId == k
  {
    if keys != [] {
      FlatEntriesItems(b, id, keys[1..], from + 1);
      if keys[0] !in b.hideInLegend {
        assert Slot(b, id, keys[0], from) == [Entry(b, id, keys[0], from)];
        assert Entry(b, id, keys[0], from) in FlatEntries(b, id, keys, from);
      }
    }
  }

  // ---------------------------------------------------------------------------
  // Toggling a series item

  /** A key is disabled when its flag is present and false. */
  predicate Disabled(e: map<string, bool>, key: string) {
    key in e && !e[key]
  }

  /** A stack after the toggle's clean-up: each disabled key loses its first
      occurrence (`indexOf` then `splice(index, 1)`); `removed` holds the keys
      already spliced out. */
  function Remaining(stack: seq<string>, e: map<string, bool>, removed: set<string>): (r: seq<string>)
    ensures |r| <= |stack|
    ensures forall k :: k in r ==> k in stack
  {
    if stack == [] then []
    else if Disabled(e, stack[0]) && stack[0] !in removed then Remaining(stack[1..], e, removed + {stack[0]})
    else [stack[0]] + Remaining(stack[1..], e, removed)
  }

  /** With distinct keys, the clean-up keeps exactly the keys not disabled. */
  lemma {:induction false} RemainingDistinct(stack: seq<string>, e: map<string, bool>, removed: set<string>)
    requires forall p, q :: 0 <= p < q < |stack| ==> stack[p] != stack[q]
    requires forall k :: k in stack ==> k !in removed
    ensures forall k :: k in Remaining(stack, e, removed) <==> k in stack && !Disabled(e, k)
  {
    if stack != [] {
      var rest := stack[1..];
      assert forall p, q :: 0 <= p < q < |rest| ==> rest[p] != rest[q] by {
        forall p, q | 0 <= p < q < |rest| ensures rest[p] != rest[q] {
          assert rest[p] == stack[p + 1] && rest[q] == stack[q + 1];
        }
      }
      if Disabled(e, stack[0]) {
        RemainingDistinct(rest, e, removed + {stack[0]});
      } else {
        RemainingDistinct(rest, e, removed);
      }
    }
  }

  /** `toggleSeriesItem(itemId, enabled)`: records the flag, recomputes the
      group-scale domain from the stacks without their disabled keys (on a
      copy), and schedules a data pass; the stacks themselves are kept. */
  function ToggleSeriesItem(b: BarSeries, itemId: string, enabled: bool): (r: Step)
    ensures r.scheduled
    ensures r.b == b.(seriesItemEnabled := b.seriesItemEnabled[itemId := enabled], groupDomain := r.b.groupDomain)
    ensures |r.b.groupDomain| <= |b.yKeys|
  {
    var e := b.seriesItemEnabled[itemId := enabled];
    var pruned := seq(|b.yKeys|, s requires 0 <= s < |b.yKeys| => Remaining(b.yKeys[s], e, {}));
    Step(b.(seriesItemEnabled := e, groupDomain := VisibleStacks(pruned)), true)
  }

  /** With distinct keys in each stack, a stack stays in the group domain
      after a toggle iff one of its keys is not disabled. */
  lemma ToggleDomain(b: BarSeries, itemId: string, enabled: bool, s: nat)
    requires s < |b.yKeys|
    requires forall p, q :: 0 <= p < q < |b.yKeys[s]| ==> b.yKeys[s][p] != b.yKeys[s][q]
    ensures var r := ToggleSeriesItem(b, itemId, enabled);
            NatToString(s) in r.b.groupDomain <==> exists k :: k in b.yKeys[s] && !Disabled(r.b.seriesItemEnabled, k)
  {
    var e := b.seriesItemEnabled[itemId := enabled];
    var pruned := seq(|b.yKeys|, s requires 0 <= s < |b.yKeys| => Remaining(b.yKeys[s], e, {}));
    RemainingDistinct(b.yKeys[s], e, {});
    assert pruned[s] == Remaining(b.yKeys[s], e, {});
    if pruned[s] != [] {
      assert pruned[s][0] in pruned[s];
    }
  }

  // ---------------------------------------------------------------------------
  // Keys and domains

  /** `getKeys(direction)`: the x key for the (possibly flipped) X direction,
      the flattened y keys otherwise. */
  function GetKeys(b: BarSeries, flipXY: bool, direction: Series.Direction): (r: seq<JsValue>)
    ensures (direction == Series.X) != flipXY ==> r == (if b.xKey != "" then [Str(b.xKey)] else [])
    ensures (direction == Series.X) == flipXY ==>
              |r| == |Flatten(b.yKeys)| && forall i :: 0 <= i < |r| ==> r[i] == Str(Flatten(b.yKeys)[i])
  {
    var d := if flipXY then (if direction == Series.X then Series.Y else Series.X) else direction;
    var flat := Flatten(b.yKeys);
    var field := (name: string) =>
      if name == "xKey" then Series.Single(Str(b.xKey))
      else Series.Many(seq(|flat|, i requires 0 <= i < |flat| => Str(flat[i])));
    var r := Series.GetKeys(if d == Series.X then ["xKey"] else ["yKeys"], field);
    assert ["xKey"][1..] == [] && ["yKeys"][1..] == [];
    r
  }

  /** What `getDomain` returns: categories for X, an extent for Y. */
  datatype Domain = Categories(values: seq<JsValue>) | Extent(extent: Option<(Num, Num)>)

  /** `getDomain(direction)`: X (after flipping) reads the x data, Y the y domain. */
  function GetDomain(b: BarSeries, flipXY: bool, direction: Series.Direction): (r: Domain)
    ensures (direction == Series.X) != flipXY <==> r.Categories?
    ensures r.Categories? ==> r.values == b.xData
    ensures r.Extent? ==> r.extent == b.yDomain
  {
    var d := if flipXY then (if direction == Series.X then Series.Y else Series.X) else direction;
    if d == Series.X then Categories(b.xData) else Extent(b.yDomain)
  }
}
