/** Concrete doc blocks under the word rule set: the three-annotation
    example, the doc block whose closer leaves a `/` behind, and an
    identifier inside a value. */
module Samples {
  import opened Options
  import opened Text
  import opened Normalizer
  import opened Extractor
  import opened ValueParser
  import opened Aggregator
  import opened Parser
  import opened Words
  import opened Sequences

  /** Annotations written one per line, with no `*` to strip: the parse
      files exactly those annotations, in that order, under either order of
      the decoration alternatives. */
  lemma RenderedParse(os: seq<Occurrence>, order: Order)
    requires forall k :: 0 <= k < |os| ==> Writable(os[k])
    requires '*' !in Render(os)
    ensures ParseWith(WordRules, Render(os), order) == Collapse(Group(Filed(WordRules, os)))
  {
    StripScanPlain(Render(os), true, order);
    RenderRoundTrip(os);
  }

  // The three-annotation example: a repeated `count` declared as an
  // integer both times, then an untyped `name`.

  const CountDoc: string := "@count integer 3" + "\n" + "@count integer 5" + "\n" + "@name hello"

  /** The three annotations of that text, as names and raw values. */
  predicate CountOccurrences(o1: Occurrence, o2: Occurrence, o3: Occurrence) {
    && o1 == Occurrence("count", " integer 3")
    && o2 == Occurrence("count", " integer 5")
    && o3 == Occurrence("name", " hello")
  }

  lemma Render3(o1: Occurrence, o2: Occurrence, o3: Occurrence)
    ensures Render([o1, o2, o3]) == Line(o1) + "\n" + Line(o2) + "\n" + Line(o3)
  {
    assert [o1, o2, o3][1..] == [o2, o3];
    assert [o2, o3][1..] == [o3];
    var l1, l2, l3 := Line(o1), Line(o2), Line(o3);
    assert Render([o3]) == l3;
    assert Render([o2, o3]) == l2 + ("\n" + l3);
    assert Render([o1, o2, o3]) == l1 + ("\n" + (l2 + ("\n" + l3)));
    assert l1 + ("\n" + (l2 + ("\n" + l3))) == l1 + "\n" + l2 + "\n" + l3;
  }

  lemma CountLine(o: Occurrence, l: string)
    requires (o == Occurrence("count", " integer 3") && l == "@count integer 3")
             || (o == Occurrence("count", " integer 5") && l == "@count integer 5")
             || (o == Occurrence("name", " hello") && l == "@name hello")
    ensures Line(o) == l
  {
  }

  lemma CountWritable(o: Occurrence)
    requires o == Occurrence("count", " integer 3") || o == Occurrence("count", " integer 5")
             || o == Occurrence("name", " hello")
    ensures Writable(o)
  {
  }

  lemma CountDocPlain(doc: string)
    requires doc == CountDoc
    ensures '*' !in doc
  {
  }

  lemma CountDocRendered(doc: string, o1: Occurrence, o2: Occurrence, o3: Occurrence)
    requires doc == CountDoc && CountOccurrences(o1, o2, o3)
    ensures doc == Render([o1, o2, o3])
    ensures Writable(o1) && Writable(o2) && Writable(o3)
  {
    CountLine(o1, "@count integer 3");
    CountLine(o2, "@count integer 5");
    CountLine(o3, "@name hello");
    Render3(o1, o2, o3);
    CountWritable(o1);
    CountWritable(o2);
    CountWritable(o3);
  }

  /** `integer` and a trimmed argument: the Integer handler gets the argument. */
  lemma IntegerArgument(n: string, key: Option<string>)
    requires n != [] && IsTrimmed(n)
    ensures ParseValue(" integer " + n, key) == Handled(Integer, n, key)
  {
    assert " " + Types[0].1 + " " + n + [] == " integer " + n;
    TypedRoundTrip(0, " ", " ", n, [], key);
  }

  lemma HelloUntyped(t: string, key: Option<string>)
    requires t == "hello"
    ensures ParseValue(" " + t, key) == Handled(Dynamic, t, key)
  {
    forall i | 0 <= i < |Types|
      ensures !Declares(t, Types[i].1)
    {
      if 3 <= i < |Types| {
        assert t[..|Types[i].1|] != Types[i].1 by {
          assert t[0] == 'h' && Types[i].1[0] != 'h';
        }
      }
    }
    assert " " + t + [] == " " + t;
    UntypedPadded(" ", t, [], key);
  }

  lemma CountValue(o: Occurrence, n: string)
    requires o.name == "count" && o.value == " integer " + n && (n == "3" || n == "5")
    ensures ParseValue(o.value, Some(o.name)) == Handled(Integer, n, Some("count"))
  {
    IntegerArgument(n, Some(o.name));
  }

  lemma NameValue(o: Occurrence)
    requires o == Occurrence("name", " hello")
    ensures ParseValue(o.value, Some(o.name)) == Handled(Dynamic, "hello", Some("name"))
  {
    assert o.value == " " + "hello";
    HelloUntyped("hello", Some(o.name));
  }

  lemma CountParts(o1: Occurrence, o2: Occurrence)
    requires CountOccurrences(o1, o2, Occurrence("name", " hello"))
    ensures o1.name == "count" && o1.value == " integer " + "3"
    ensures o2.name == "count" && o2.value == " integer " + "5"
  {
  }

  /** The values filed for the three annotations. */
  lemma CountFiled(rules: Rules, o1: Occurrence, o2: Occurrence, o3: Occurrence)
    requires rules == WordRules && CountOccurrences(o1, o2, o3)
    ensures Filed(rules, [o1, o2, o3])
            == [("count", Handled(Integer, "3", Some("count"))), ("count", Handled(Integer, "5", Some("count"))),
                ("name", Handled(Dynamic, "hello", Some("name")))]
  {
    FiledThree(rules, o1, o2, o3);
    CountParts(o1, o2);
    CountValue(o1, "3");
    CountValue(o2, "5");
    NameValue(o3);
    var f := Filed(rules, [o1, o2, o3]);
    SeqOfThree(f, f[0], f[1], f[2]);
  }

  /** The array the three-annotation text parses to. */
  const CountBindings: seq<Binding> :=
    [Binding("count", Many([Handled(Integer, "3", Some("count")), Handled(Integer, "5", Some("count"))])),
     Binding("name", Single(Handled(Dynamic, "hello", Some("name"))))]

  lemma CountExampleIn(rules: Rules, doc: string, order: Order)
    requires rules == WordRules && doc == CountDoc
    ensures ParseWith(rules, doc, order) == CountBindings
  {
    var o1, o2, o3 := Occurrence("count", " integer 3"), Occurrence("count", " integer 5"), Occurrence("name", " hello");
    var os := [o1, o2, o3];
    var p3, p5, h := Handled(Integer, "3", Some("count")), Handled(Integer, "5", Some("count")),
                     Handled(Dynamic, "hello", Some("name"));
    assert ParseWith(rules, doc, order) == Collapse(Group(Filed(rules, os))) by {
      CountDocRendered(doc, o1, o2, o3);
      CountDocPlain(doc);
      assert forall k :: 0 <= k < |os| ==> Writable(os[k]);
      RenderedParse(os, order);
    }
    assert Group(Filed(rules, os)) == [Entry("count", [p3, p5]), Entry("name", [h])] by {
      CountFiled(rules, o1, o2, o3);
      GroupRepeated("count", p3, p5, "name", h);
    }
    CollapseRepeated("count", p3, p5, "name", h);
  }

  /** `count` is listed twice and so keeps both integers, in document
      order; `name` appears once and so is a bare value. The text has no
      `*`, so both orders of the decoration alternatives agree. */
  lemma CountExample(rules: Rules, doc: string)
    requires rules == WordRules && doc == CountDoc
    ensures ParseAsWritten(rules, doc)
            == [Binding("count", Many([Handled(Integer, "3", Some("count")), Handled(Integer, "5", Some("count"))])),
                Binding("name", Single(Handled(Dynamic, "hello", Some("name"))))]
    ensures ParseCloserFirst(rules, doc) == ParseAsWritten(rules, doc)
  {
    CountExampleIn(rules, doc, AsWritten);
    CountExampleIn(rules, doc, CloserFirst);
  }

  /** The doc block whose blank ` *` row strands the closer's `/`. */
  const StrayDoc: string := "/**\n * @foo\n *\n */"

  lemma StrayDocShape()
    ensures StrayDoc == "/**" + ("\n * " + ("@foo" + ("\n *\n" + " */")))
    ensures PlainLine("@foo")
  {
  }

  /** A line on a row of its own followed by a blank ` *` row and the
      closer strips to the line, a line feed, and what the closer row leaves. */
  lemma BlankRowBeforeCloser(l: string, order: Order)
    requires PlainLine(l)
    ensures StripScan("/**" + ("\n * " + (l + ("\n *\n" + " */"))), true, order)
            == "\n" + l + ("\n" + StripScan(" */", true, order))
  {
    var tail := "\n *\n" + " */";
    assert RowStart(tail) by {
      assert tail[..3] == "\n *";
    }
    OpenerStrip("\n * " + (l + tail), order);
    RowStrip(l, tail, order);
    BlankRowStrip(" */", order);
  }

  lemma StrayDocLines(r: string)
    ensures "\n" + "@foo" + ("\n" + r) == "\n@foo\n" + r
  {
  }

  /** Stripping the doc block leaves `@foo` on a line of its own followed
      by what is left of the closer row. */
  lemma StrayDocStrip(order: Order)
    ensures StripScan(StrayDoc, true, order) == "\n@foo\n" + StripScan(" */", true, order)
  {
    StrayDocShape();
    BlankRowBeforeCloser("@foo", order);
    StrayDocLines(StripScan(" */", true, order));
  }

  lemma FooText(v: string)
    requires v == "\n/" || v == "\n"
    ensures var s := "\n@foo" + v;
            && s[0] == '\n' && s[1] == '@' && s[2] == 'f' && s[3] == 'o' && s[4] == 'o' && s[5] == '\n'
            && s[2..5] == "foo" && s[5..] == v
            && forall j :: 5 < j < |s| ==> s[j] != '@'
  {
  }

  /** In `"\n@foo"` followed by a value without `@` that starts a new line,
      the one annotation is `foo` with that value. */
  lemma FooScan(v: string)
    requires v == "\n/" || v == "\n"
    ensures Extract(WordRules, "\n@foo" + v) == [Occurrence("foo", v)]
  {
    var s := "\n@foo" + v;
    FooText(v);
    ScanFromSkip(WordRules, s, 0);
    ScanFromSkip(WordRules, s, 1);
    assert WordEnd(s, 5) == 5;
    assert WordEnd(s, 4) == 5;
    assert WordEnd(s, 3) == 5;
    assert WordEnd(s, 2) == 5;
    ValueEndIs(s, 5, |s|, '@');
    assert MatchAt(WordRules, s, 2) == Some(Span(2, 5, |s|));
    ScanFromMatch(WordRules, s, 2);
    assert Scan(WordRules, s) == [Span(2, 5, |s|)];
    assert Extract(WordRules, s)[0] == Occurrence("foo", v);
  }

  lemma StrayValues()
    ensures ParseValue("\n/", Some("foo")) == Handled(Dynamic, "/", Some("foo"))
    ensures ParseValue("\n", Some("foo")) == ImplicitTrue
  {
    assert "\n/" == "\n" + "/" + [];
    NoSymbol("/");
    UntypedPadded("\n", "/", [], Some("foo"));
    assert AllSpace("\n");
  }

  lemma FooLines(r: string)
    ensures "\n@foo\n" + r == "\n@foo" + ("\n" + r)
  {
  }

  /** As written, a value-less `@foo` before a blank row and the closer
      becomes the text `/` for the Dynamic handler. */
  lemma StrayCloserAsWritten(rules: Rules, doc: string)
    requires rules == WordRules && doc == StrayDoc
    ensures ParseAsWritten(rules, doc) == [Binding("foo", Single(Handled(Dynamic, "/", Some("foo"))))]
  {
    var v := "\n/";
    CloserAtLineStart();
    StrayDocStrip(AsWritten);
    FooLines("/");
    ParseOfStripped(rules, doc, AsWritten, "\n@foo" + v);
    FooScan(v);
    SingleAnnotation(rules, "\n@foo" + v, Occurrence("foo", v));
    StrayValues();
  }

  /** With the closer tried first the same `@foo` is the implicit `true`. */
  lemma StrayCloserFixed(rules: Rules, doc: string)
    requires rules == WordRules && doc == StrayDoc
    ensures ParseCloserFirst(rules, doc) == [Binding("foo", Single(ImplicitTrue))]
  {
    var v := "\n";
    CloserAtLineStart();
    StrayDocStrip(CloserFirst);
    FooLines([]);
    ParseOfStripped(rules, doc, CloserFirst, "\n@foo" + v);
    FooScan(v);
    SingleAnnotation(rules, "\n@foo" + v, Occurrence("foo", v));
    StrayValues();
  }

  lemma EmbeddedText(s: string)
    requires s == "@a x@y\nz"
    ensures |s| == 8 && s[0] == '@' && s[1] == 'a' && s[2] == ' ' && s[3] == 'x'
            && s[4] == '@' && s[5] == 'y' && s[6] == '\n' && s[7] == 'z'
            && s[1..2] == "a" && s[2..] == " x@y\nz"
  {
  }

  /** An identifier character not preceded by whitespace stays inside the
      value, line feeds included, although a name could be matched right
      after it. */
  lemma EmbeddedIdentifier(rules: Rules, s: string)
    requires rules == WordRules && s == "@a x@y\nz"
    ensures MatchAt(rules, s, 5).Some?
    ensures Extract(rules, s) == [Occurrence("a", " x@y\nz")]
  {
    EmbeddedText(s);
    ScanFromSkip(rules, s, 0);
    assert WordEnd(s, 2) == 2;
    assert WordEnd(s, 1) == 2;
    ValueEndIs(s, 2, 8, '@');
    assert MatchAt(rules, s, 1) == Some(Span(1, 2, 8));
    ScanFromMatch(rules, s, 1);
    assert Scan(rules, s) == [Span(1, 2, 8)];
    assert Extract(rules, s)[0] == Occurrence("a", " x@y\nz");
    assert WordEnd(s, 6) == 6;
    assert WordEnd(s, 5) == 6;
  }
}
