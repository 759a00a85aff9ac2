/** The aggregator `Parser::parseAnnotations` and the collapse at the end
    of `Parser::parse`.

    A PHP array with string keys is modelled as a list of entries in
    insertion order; appending to `$annotations[key]` either extends the
    list of an existing key in place or adds the key at the end. The
    grouping does not look at the values, so it is stated for any value
    type and applied to parsed values. */
module Aggregator {
  import opened Options
  import opened Extractor
  import opened ValueParser
  import opened Sequences

  /** One key of the annotation array with its values in the order they
      were appended. */
  datatype Entry<V> = Entry(key: string, values: seq<V>)

  function Keys<V>(t: seq<Entry<V>>): seq<string> {
    if t == [] then [] else [t[0].key] + Keys(t[1..])
  }

  predicate Distinct(ks: seq<string>) {
    forall i, j :: 0 <= i < j < |ks| ==> ks[i] != ks[j]
  }

  /** The values stored under `k`; none when `k` is absent. */
  function Lookup<V>(t: seq<Entry<V>>, k: string): seq<V> {
    if t == [] then [] else if t[0].key == k then t[0].values else Lookup(t[1..], k)
  }

  predicate NonEmptyLists<V>(t: seq<Entry<V>>) {
    forall i :: 0 <= i < |t| ==> t[i].values != []
  }

  /** `$annotations[key][] = v`: the list under `key` gains `v` at its end,
      and the table grows by at most the one new key. */
  function Add<V>(t: seq<Entry<V>>, key: string, v: V): (r: seq<Entry<V>>)
    ensures Lookup(r, key) == Lookup(t, key) + [v]
    ensures |t| <= |r| <= |t| + 1
  {
    if t == [] then [Entry(key, [v])]
    else if t[0].key == key then [Entry(key, t[0].values + [v])] + t[1..]
    else
      var r := [t[0]] + Add(t[1..], key, v);
      assert r[0] == t[0] && r[1..] == Add(t[1..], key, v);
      r
  }

  /** The key keeps its place if present and is added last otherwise. */
  lemma {:induction false} AddKeys<V>(t: seq<Entry<V>>, key: string, v: V)
    ensures Keys(Add(t, key, v)) == if key in Keys(t) then Keys(t) else Keys(t) + [key]
    decreases |t|
  {
    if t != [] {
      if t[0].key == key {
        HeadRest(Entry(key, t[0].values + [v]), t[1..]);
      } else {
        HeadRest(t[0], Add(t[1..], key, v));
        AddKeys(t[1..], key, v);
      }
    }
  }

  /** Only the list under `key` changes, gaining `v` at its end. */
  lemma {:induction false} AddLookup<V>(t: seq<Entry<V>>, key: string, v: V, k: string)
    ensures Lookup(Add(t, key, v), k) == if k == key then Lookup(t, k) + [v] else Lookup(t, k)
    decreases |t|
  {
    if t != [] {
      if t[0].key == key {
        HeadRest(Entry(key, t[0].values + [v]), t[1..]);
      } else {
        HeadRest(t[0], Add(t[1..], key, v));
        AddLookup(t[1..], key, v, k);
      }
    }
  }

  /** Appending never empties a list. */
  lemma {:induction false} AddNonEmpty<V>(t: seq<Entry<V>>, key: string, v: V)
    requires NonEmptyLists(t)
    ensures NonEmptyLists(Add(t, key, v))
    decreases |t|
  {
    if t != [] {
      if t[0].key == key {
        HeadRest(Entry(key, t[0].values + [v]), t[1..]);
      } else {
        var r := [t[0]] + Add(t[1..], key, v);
        HeadRest(t[0], Add(t[1..], key, v));
        AddNonEmpty(t[1..], key, v);
        assert forall i :: 1 <= i < |r| ==> r[i] == Add(t[1..], key, v)[i - 1];
      }
    }
  }

  /** A new key is distinct from those present. */
  lemma DistinctSnoc(ks: seq<string>, key: string)
    requires Distinct(ks)
    ensures key !in ks ==> Distinct(ks + [key])
  {
  }

  /** The loop of `Parser::parseAnnotations`: every item, in order,
      appended under its key. Keys are distinct and no list is empty. */
  function Group<V>(items: seq<(string, V)>): (t: seq<Entry<V>>)
    ensures Distinct(Keys(t))
    ensures NonEmptyLists(t)
    decreases |items|
  {
    if items == [] then []
    else
      var last := items[|items| - 1];
      var t0 := Group(items[..|items| - 1]);
      AddKeys(t0, last.0, last.1);
      AddNonEmpty(t0, last.0, last.1);
      DistinctSnoc(Keys(t0), last.0);
      Add(t0, last.0, last.1)
  }

  // The reference description of the grouping.

  /** The values of the items filed under `k`, in order. */
  function ValuesFor<V>(items: seq<(string, V)>, k: string): seq<V> {
    if items == [] then []
    else (if items[0].0 == k then [items[0].1] else []) + ValuesFor(items[1..], k)
  }

  /** The keys of the items, with repetitions, in order. */
  function KeysOf<V>(items: seq<(string, V)>): seq<string> {
    seq(|items|, i requires 0 <= i < |items| => items[i].0)
  }

  /** Where `k` first appears in `ks`. */
  function FirstIndex(ks: seq<string>, k: string): (n: nat)
    requires k in ks
    ensures n < |ks| && ks[n] == k
    ensures forall j :: 0 <= j < n ==> ks[j] != k
  {
    if ks[0] == k then 0 else 1 + FirstIndex(ks[1..], k)
  }

  lemma {:induction false} ValuesForSnoc<V>(items: seq<(string, V)>, x: (string, V), k: string)
    ensures ValuesFor(items + [x], k) == ValuesFor(items, k) + (if x.0 == k then [x.1] else [])
    decreases |items|
  {
    if items != [] {
      assert (items + [x])[1..] == items[1..] + [x];
      ValuesForSnoc(items[1..], x, k);
    }
  }

  /** The list under every key holds exactly the values of the items filed
      under it, in order. */
  lemma {:induction false} GroupLookup<V>(items: seq<(string, V)>, k: string)
    ensures Lookup(Group(items), k) == ValuesFor(items, k)
    decreases |items|
  {
    if items != [] {
      var init := items[..|items| - 1];
      var x := items[|items| - 1];
      GroupLookup(init, k);
      AddLookup(Group(init), x.0, x.1, k);
      ValuesForSnoc(init, x, k);
      SnocSplit(items);
    }
  }

  lemma {:induction false} KeysIndex<V>(t: seq<Entry<V>>, j: nat)
    requires j < |t|
    ensures |Keys(t)| == |t| && Keys(t)[j] == t[j].key
    decreases j
  {
    if j > 0 {
      KeysIndex(t[1..], j - 1);
    } else {
      KeysLength(t);
    }
  }

  lemma {:induction false} KeysLength<V>(t: seq<Entry<V>>)
    ensures |Keys(t)| == |t|
    decreases |t|
  {
    if t != [] {
      KeysLength(t[1..]);
    }
  }

  /** With distinct keys, looking up an entry's key finds that entry's list. */
  lemma {:induction false} LookupAt<V>(t: seq<Entry<V>>, i: nat)
    requires i < |t| && Distinct(Keys(t))
    ensures Lookup(t, t[i].key) == t[i].values
    decreases i
  {
    if i > 0 {
      KeysIndex(t, 0);
      KeysIndex(t, i);
      assert Keys(t[1..]) == Keys(t)[1..];
      LookupAt(t[1..], i - 1);
    }
  }

  lemma {:induction false} ValuesForSound<V>(items: seq<(string, V)>, k: string, v: V)
    requires v in ValuesFor(items, k)
    ensures (k, v) in items
    decreases |items|
  {
    if items[0].0 == k && v == items[0].1 {
      assert items[0] == (k, v);
    } else {
      ValuesForSound(items[1..], k, v);
      assert forall x :: x in items[1..] ==> x in items;
    }
  }

  /** Every grouped value was filed under the key it is grouped under. */
  lemma GroupSound<V>(items: seq<(string, V)>, i: nat, v: V)
    requires i < |Group(items)| && v in Group(items)[i].values
    ensures (Group(items)[i].key, v) in items
  {
    var t := Group(items);
    LookupAt(t, i);
    GroupLookup(items, t[i].key);
    ValuesForSound(items, t[i].key, v);
  }

  lemma SnocSplit<T>(xs: seq<T>)
    requires xs != []
    ensures xs == xs[..|xs| - 1] + [xs[|xs| - 1]]
  {
  }

  lemma KeysOfSnoc<V>(items: seq<(string, V)>)
    requires items != []
    ensures KeysOf(items) == KeysOf(items[..|items| - 1]) + [items[|items| - 1].0]
  {
  }

  lemma FirstIndexSnoc(ks: seq<string>, k: string, x: string)
    requires x in ks
    ensures FirstIndex(ks + [k], x) == FirstIndex(ks, x)
  {
    assert (ks + [k])[FirstIndex(ks, x)] == x;
  }

  lemma FirstIndexNew(ks: seq<string>, k: string)
    requires k !in ks
    ensures FirstIndex(ks + [k], k) == |ks|
  {
    assert (ks + [k])[|ks|] == k;
  }

  /** Keys in first-occurrence order of `ks`: the same keys, each placed
      where it first occurs. */
  ghost predicate FirstSeenOrder(g: seq<string>, ks: seq<string>) {
    && (forall k :: k in g <==> k in ks)
    && (forall i, j :: 0 <= i < j < |g| ==> FirstIndex(ks, g[i]) < FirstIndex(ks, g[j]))
  }

  /** An item with a key already present leaves the key order as it was. */
  lemma SeenKeyStep(ks0: seq<string>, key: string, g0: seq<string>)
    requires FirstSeenOrder(g0, ks0) && key in g0
    ensures FirstSeenOrder(g0, ks0 + [key])
  {
    forall i | 0 <= i < |g0|
      ensures FirstIndex(ks0 + [key], g0[i]) == FirstIndex(ks0, g0[i])
    {
      FirstIndexSnoc(ks0, key, g0[i]);
    }
  }

  /** An item with a new key puts the key last. */
  lemma NewKeyStep(ks0: seq<string>, key: string, g0: seq<string>)
    requires FirstSeenOrder(g0, ks0) && key !in g0
    ensures FirstSeenOrder(g0 + [key], ks0 + [key])
  {
    var g := g0 + [key];
    var ks := ks0 + [key];
    FirstIndexNew(ks0, key);
    forall i | 0 <= i < |g0|
      ensures FirstIndex(ks, g[i]) == FirstIndex(ks0, g0[i]) < |ks0|
    {
      assert g[i] == g0[i];
      FirstIndexSnoc(ks0, key, g0[i]);
    }
    assert g[|g0|] == key;
  }

  /** The keys are the distinct keys of the items, each placed where it
      first occurs. */
  lemma {:induction false} GroupKeys<V>(items: seq<(string, V)>)
    ensures FirstSeenOrder(Keys(Group(items)), KeysOf(items))
    decreases |items|
  {
    if items != [] {
      var init := items[..|items| - 1];
      var key := items[|items| - 1].0;
      var g0 := Keys(Group(init));
      GroupKeys(init);
      KeysOfSnoc(items);
      AddKeys(Group(init), key, items[|items| - 1].1);
      if key in g0 {
        SeenKeyStep(KeysOf(init), key, g0);
      } else {
        NewKeyStep(KeysOf(init), key, g0);
      }
    }
  }

  // The aggregation of occurrences.

  /** An occurrence filed under its sanitised name, with its parsed value;
      the value handler is given the name as written. */
  function Filed(rules: Rules, occs: seq<Occurrence>): (items: seq<(string, Parsed)>)
    ensures |items| == |occs|
    ensures forall i :: 0 <= i < |occs| ==>
              items[i].0 == rules.sanitizeKey(occs[i].name)
              && items[i].1 == ParseValue(occs[i].value, Some(occs[i].name))
  {
    seq(|occs|, i requires 0 <= i < |occs| =>
      (rules.sanitizeKey(occs[i].name), ParseValue(occs[i].value, Some(occs[i].name))))
  }

  // The collapse.

  /** What `Parser::parse` leaves under a key: the value itself when the
      key was seen once, the whole list otherwise. */
  datatype Slot = Single(value: Parsed) | Many(values: seq<Parsed>)

  datatype Binding = Binding(key: string, slot: Slot)

  /** The list a slot stands for. */
  function Expand(s: Slot): seq<Parsed> {
    match s
    case Single(v) => [v]
    case Many(vs) => vs
  }

  /** The collapse loop of `Parser::parse`: keys and their order are kept,
      a one-element list becomes its element, and expanding each slot gives
      back the list it came from. */
  function Collapse(t: seq<Entry<Parsed>>): (r: seq<Binding>)
    ensures |r| == |t|
    ensures forall i :: 0 <= i < |t| ==> r[i].key == t[i].key && Expand(r[i].slot) == t[i].values
    ensures forall i :: 0 <= i < |t| ==> (r[i].slot.Single? <==> |t[i].values| == 1)
  {
    seq(|t|, i requires 0 <= i < |t| =>
      Binding(t[i].key, if |t[i].values| == 1 then Single(t[i].values[0]) else Many(t[i].values)))
  }

  lemma GroupSingle<V>(x: (string, V))
    ensures Group([x]) == [Entry(x.0, [x.1])]
  {
    assert [x][..0] == [];
  }

  lemma FiledThree(rules: Rules, o1: Occurrence, o2: Occurrence, o3: Occurrence)
    ensures Filed(rules, [o1, o2, o3])
            == [(rules.sanitizeKey(o1.name), ParseValue(o1.value, Some(o1.name))),
                (rules.sanitizeKey(o2.name), ParseValue(o2.value, Some(o2.name))),
                (rules.sanitizeKey(o3.name), ParseValue(o3.value, Some(o3.name)))]
  {
    var os := [o1, o2, o3];
    var f := Filed(rules, os);
    var x1 := (rules.sanitizeKey(o1.name), ParseValue(o1.value, Some(o1.name)));
    var x2 := (rules.sanitizeKey(o2.name), ParseValue(o2.value, Some(o2.name)));
    var x3 := (rules.sanitizeKey(o3.name), ParseValue(o3.value, Some(o3.name)));
    assert os[0] == o1 && os[1] == o2 && os[2] == o3;
    assert f[0] == x1 && f[1] == x2 && f[2] == x3;
    SeqOfThree(f, x1, x2, x3);
  }

  /** A key given twice and then another key: one list of two values in
      document order, then a list of one. */
  lemma GroupRepeated<V>(k: string, v1: V, v2: V, k2: string, v3: V)
    requires k != k2
    ensures Group([(k, v1), (k, v2), (k2, v3)]) == [Entry(k, [v1, v2]), Entry(k2, [v3])]
  {
    var items := [(k, v1), (k, v2), (k2, v3)];
    var two := [(k, v1), (k, v2)];
    assert items[..2] == two;
    assert two[..1] == [(k, v1)];
    GroupSingle((k, v1));
    assert Group(two) == [Entry(k, [v1, v2])] by {
      var t := [Entry(k, [v1])];
      assert t[1..] == [] && [v1] + [v2] == [v1, v2];
      assert Add(t, k, v2) == [Entry(k, [v1, v2])];
    }
    var t := [Entry(k, [v1, v2])];
    assert t[1..] == [];
    assert Add(t, k2, v3) == [Entry(k, [v1, v2])] + [Entry(k2, [v3])];
  }

  lemma CollapseSingle(k: string, v: Parsed)
    ensures Collapse([Entry(k, [v])]) == [Binding(k, Single(v))]
  {
  }

  lemma CollapseRepeated(k: string, v1: Parsed, v2: Parsed, k2: string, v3: Parsed)
    ensures Collapse([Entry(k, [v1, v2]), Entry(k2, [v3])]) == [Binding(k, Many([v1, v2])), Binding(k2, Single(v3))]
  {
  }

  /** After grouping, a list that stays a list holds at least two values. */
  lemma GroupManyHasTwo(items: seq<(string, Parsed)>, i: nat)
    requires i < |Group(items)|
    ensures var b := Collapse(Group(items))[i];
            b.slot.Many? ==> |b.slot.values| >= 2
  {
  }
}
