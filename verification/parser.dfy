/** `Parser::parse`: strip the doc block's decoration, extract the
    annotations, parse and group their values, collapse single values. */
module Parser {
  import opened Options
  import opened Normalizer
  import opened Extractor
  import opened ValueParser
  import opened Aggregator

  /** `parseAnnotations` and the collapse of `parse` on already stripped
      text: one binding per key, none of them empty. */
  function Assemble(rules: Rules, text: string): (r: seq<Binding>)
    ensures Distinct(BindingKeys(r))
    ensures forall i :: 0 <= i < |r| ==> Expand(r[i].slot) != []
  {
    var t := Group(Filed(rules, Extract(rules, text)));
    var r := Collapse(t);
    assert BindingKeys(r) == Keys(t) by {
      CollapseKeys(t);
    }
    r
  }

  /** The whole parse, the decoration alternatives tried in `order`. Keys
      are distinct and every slot stands for at least one value. */
  function ParseWith(rules: Rules, doc: string, order: Order): (r: seq<Binding>)
    ensures Distinct(BindingKeys(r))
    ensures forall i :: 0 <= i < |r| ==> Expand(r[i].slot) != []
  {
    Assemble(rules, StripScan(doc, true, order))
  }

  /** The parse with the decoration stripped as the parser writes it: one
      binding per key, none of them empty. */
  function ParseAsWritten(rules: Rules, doc: string): (r: seq<Binding>)
    ensures Distinct(BindingKeys(r))
    ensures forall i :: 0 <= i < |r| ==> Expand(r[i].slot) != []
  {
    ParseWith(rules, doc, AsWritten)
  }

  /** The parse with the closer alternative tried first: one binding per
      key, none of them empty. */
  function ParseCloserFirst(rules: Rules, doc: string): (r: seq<Binding>)
    ensures Distinct(BindingKeys(r))
    ensures forall i :: 0 <= i < |r| ==> Expand(r[i].slot) != []
  {
    ParseWith(rules, doc, CloserFirst)
  }

  function BindingKeys(bs: seq<Binding>): seq<string> {
    if bs == [] then [] else [bs[0].key] + BindingKeys(bs[1..])
  }

  /** The slot under `k`, if any. */
  function Find(bs: seq<Binding>, k: string): Option<Slot> {
    if bs == [] then None else if bs[0].key == k then Some(bs[0].slot) else Find(bs[1..], k)
  }

  lemma {:induction false} CollapseKeys(t: seq<Entry<Parsed>>)
    ensures BindingKeys(Collapse(t)) == Keys(t)
    decreases |t|
  {
    if t != [] {
      CollapseTail(t);
      CollapseKeys(t[1..]);
    }
  }

  lemma CollapseTail(t: seq<Entry<Parsed>>)
    requires t != []
    ensures Collapse(t)[1..] == Collapse(t[1..])
  {
  }

  /** Finding a key after the collapse: absent exactly when no value was
      filed under it, otherwise a slot that expands to those values and is
      a single value exactly when there is one. */
  lemma {:induction false} FindCollapse(t: seq<Entry<Parsed>>, k: string)
    requires NonEmptyLists(t)
    ensures Find(Collapse(t), k).None? <==> Lookup(t, k) == []
    ensures Find(Collapse(t), k).Some? ==>
              Expand(Find(Collapse(t), k).value) == Lookup(t, k)
              && (Find(Collapse(t), k).value.Single? <==> |Lookup(t, k)| == 1)
    decreases |t|
  {
    if t != [] {
      CollapseTail(t);
      assert NonEmptyLists(t[1..]) by {
        forall i | 0 <= i < |t| - 1 ensures t[1..][i].values != [] {
          assert t[1..][i] == t[i + 1];
        }
      }
      FindCollapse(t[1..], k);
    }
  }

  /** What the parse leaves under a key: nothing when no annotation of the
      stripped text is filed under it; otherwise the parsed values of those
      annotations in document order, as a bare value when there is one. */
  lemma ParseLookup(rules: Rules, doc: string, order: Order, k: string)
    ensures var vs := ValuesFor(Filed(rules, Extract(rules, StripScan(doc, true, order))), k);
            && (Find(ParseWith(rules, doc, order), k).None? <==> vs == [])
            && (Find(ParseWith(rules, doc, order), k).Some? ==>
                  Expand(Find(ParseWith(rules, doc, order), k).value) == vs
                  && (Find(ParseWith(rules, doc, order), k).value.Single? <==> |vs| == 1))
  {
    var items := Filed(rules, Extract(rules, StripScan(doc, true, order)));
    GroupLookup(items, k);
    FindCollapse(Group(items), k);
  }

  /** Every value in the parse comes from an annotation of the stripped
      text whose sanitised name is the key it sits under, parsed with the
      name as written. */
  lemma ParseSound(rules: Rules, doc: string, order: Order, i: nat, v: Parsed)
    requires i < |ParseWith(rules, doc, order)|
    requires v in Expand(ParseWith(rules, doc, order)[i].slot)
    ensures exists o :: o in Extract(rules, StripScan(doc, true, order))
                        && rules.sanitizeKey(o.name) == ParseWith(rules, doc, order)[i].key
                        && v == ParseValue(o.value, Some(o.name))
  {
    var occs := Extract(rules, StripScan(doc, true, order));
    var items := Filed(rules, occs);
    var t := Group(items);
    GroupSound(items, i, v);
    var j :| 0 <= j < |items| && items[j] == (t[i].key, v);
    assert occs[j] in occs;
  }

  /** A handler is always given the name as written, whose sanitised form
      is the key its value is filed under. */
  lemma HandlerGetsRawName(rules: Rules, doc: string, order: Order, i: nat, v: Parsed)
    requires i < |ParseWith(rules, doc, order)|
    requires v in Expand(ParseWith(rules, doc, order)[i].slot) && v.Handled?
    ensures v.key.Some? && rules.sanitizeKey(v.key.value) == ParseWith(rules, doc, order)[i].key
  {
    ParseSound(rules, doc, order, i, v);
  }

  /** The keys of the parse are the sanitised names of the annotations,
      each once, in the order of their first occurrence. */
  lemma ParseKeys(rules: Rules, doc: string, order: Order)
    ensures FirstSeenOrder(BindingKeys(ParseWith(rules, doc, order)),
                           KeysOf(Filed(rules, Extract(rules, StripScan(doc, true, order)))))
  {
    var items := Filed(rules, Extract(rules, StripScan(doc, true, order)));
    GroupKeys(items);
    CollapseKeys(Group(items));
  }

  /** The parse is empty exactly when the search finds nothing in the
      stripped text, that is, when no annotation starts anywhere in it. */
  lemma EmptyParse(rules: Rules, doc: string, order: Order)
    ensures ParseWith(rules, doc, order) == [] <==> Scan(rules, StripScan(doc, true, order)) == []
    ensures var t := StripScan(doc, true, order);
            ParseWith(rules, doc, order) == [] <==> forall q :: 0 <= q <= |t| ==> MatchAt(rules, t, q).None?
  {
    var t := StripScan(doc, true, order);
    var items := Filed(rules, Extract(rules, t));
    if items != [] {
      var k := items[0].0;
      assert ValuesFor(items, k) != [];
      GroupLookup(items, k);
      FindCollapse(Group(items), k);
    }
    ScanEmpty(rules, t);
  }

  /** A doc block without the identifier character has no annotations. */
  lemma NoIdentifierNothing(rules: Rules, doc: string, order: Order)
    requires rules.identifier !in doc
    ensures ParseWith(rules, doc, order) == []
  {
    var t := StripScan(doc, true, order);
    StripScanKeepsChars(doc, true, order);
    assert rules.identifier !in t by {
      assert forall i :: 0 <= i < |t| ==> t[i] in doc;
    }
    NoIdentifierNoAnnotation(rules, t);
  }

  /** On a conventional doc block both orders give the annotations of its
      lines. */
  lemma DecoratedBlock(rules: Rules, lines: seq<string>, order: Order)
    requires Decoratable(lines)
    ensures ParseWith(rules, Decorate(lines), order) == Assemble(rules, Unrows(lines))
  {
    StripDecorated(lines, order);
  }

  /** A text with a single annotation yields that annotation's key bound
      to its parsed value. */
  lemma SingleAnnotation(rules: Rules, text: string, o: Occurrence)
    requires Extract(rules, text) == [o]
    ensures Assemble(rules, text)
            == [Binding(rules.sanitizeKey(o.name), Single(ParseValue(o.value, Some(o.name))))]
  {
    var x := (rules.sanitizeKey(o.name), ParseValue(o.value, Some(o.name)));
    assert Filed(rules, [o]) == [x];
    GroupSingle(x);
    CollapseSingle(x.0, x.1);
  }

  /** The stripped doc block decides the parse. */
  lemma ParseOfStripped(rules: Rules, doc: string, order: Order, text: string)
    requires StripScan(doc, true, order) == text
    ensures ParseWith(rules, doc, order) == Assemble(rules, text)
  {
  }
}
