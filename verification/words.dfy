/** A concrete rule set: identifier `@`, names made of ASCII letters,
    digits and `_`, keys used as written. Under it, annotations written one
    per line are extracted back exactly. */
module Words {
  import opened Options
  import opened Extractor

  predicate IsWordChar(c: char) {
    'a' <= c <= 'z' || 'A' <= c <= 'Z' || '0' <= c <= '9' || c == '_'
  }

  /** The end of the run of name characters starting at `i`. */
  function WordEnd(s: string, i: nat): (e: nat)
    requires i <= |s|
    ensures i <= e <= |s|
    ensures forall j :: i <= j < e ==> IsWordChar(s[j])
    ensures e < |s| ==> !IsWordChar(s[e])
    decreases |s| - i
  {
    if i < |s| && IsWordChar(s[i]) then WordEnd(s, i + 1) else i
  }

  function WordName(s: string, i: nat): Option<nat> {
    if i < |s| && IsWordChar(s[i]) then Some(WordEnd(s, i)) else None
  }

  function Identity(k: string): string {
    k
  }

  const WordRules: Rules := Rules('@', WordName, Identity)

  /** The run of name characters is the only one that stops where it stops. */
  lemma {:induction false} WordEndIs(s: string, i: nat, e: nat)
    requires i <= e <= |s|
    requires forall j :: i <= j < e ==> IsWordChar(s[j])
    requires e == |s| || !IsWordChar(s[e])
    ensures WordEnd(s, i) == e
    decreases e - i
  {
    if i < e {
      WordEndIs(s, i + 1, e);
    }
  }

  // Locality: what is found from position `p >= 1` of `b` does not depend
  // on what stands before `b`.

  function ShiftSpan(sp: Span, d: nat): Span {
    Span(d + sp.nameStart, d + sp.nameEnd, d + sp.valueEnd)
  }

  function ShiftSpans(spans: seq<Span>, d: nat): (r: seq<Span>)
    ensures |r| == |spans|
  {
    seq(|spans|, k requires 0 <= k < |spans| => ShiftSpan(spans[k], d))
  }

  lemma ShiftSpanAt(spans: seq<Span>, d: nat, k: nat)
    requires k < |spans|
    ensures ShiftSpans(spans, d)[k] == ShiftSpan(spans[k], d)
  {
  }

  lemma {:induction false} WordEndShift(a: string, b: string, i: nat)
    requires i <= |b|
    ensures WordEnd(a + b, |a| + i) == |a| + WordEnd(b, i)
    decreases |b| - i
  {
    if i < |b| {
      assert (a + b)[|a| + i] == b[i];
      WordEndShift(a, b, i + 1);
    }
  }

  lemma {:induction false} ValueEndShift(a: string, b: string, e: nat, id: char)
    requires e <= |b|
    ensures ValueEnd(a + b, |a| + e, id) == |a| + ValueEnd(b, e, id)
    decreases |b| - e
  {
    if e < |b| {
      assert StopsAt(a + b, |a| + e, id) <==> StopsAt(b, e, id) by {
        assert (a + b)[|a| + e] == b[e];
        if e + 1 < |b| {
          assert (a + b)[|a| + e + 1] == b[e + 1];
        }
      }
      ValueEndShift(a, b, e + 1, id);
    }
  }

  lemma MatchAtShift(a: string, b: string, p: nat)
    requires 1 <= p <= |b|
    ensures MatchAt(WordRules, a + b, |a| + p)
            == match MatchAt(WordRules, b, p)
               case None => None
               case Some(sp) => Some(ShiftSpan(sp, |a|))
  {
    var s := a + b;
    assert s[|a| + p - 1] == b[p - 1];
    if p < |b| {
      assert s[|a| + p] == b[p];
      WordEndShift(a, b, p);
      ValueEndShift(a, b, WordEnd(b, p), '@');
    }
  }

  lemma ScanFromAt(rules: Rules, s: string, p: nat, sp: Span)
    requires p < |s| && MatchAt(rules, s, p) == Some(sp)
    ensures ScanFrom(rules, s, p) == [sp] + ScanFrom(rules, s, sp.valueEnd)
  {
    ScanFromMatch(rules, s, p);
  }

  lemma MatchShiftSome(a: string, b: string, p: nat, sp: Span)
    requires 1 <= p <= |b| && MatchAt(WordRules, b, p) == Some(sp)
    ensures MatchAt(WordRules, a + b, |a| + p) == Some(ShiftSpan(sp, |a|))
  {
    MatchAtShift(a, b, p);
  }

  /** Scanning `a + b` from inside `b` finds what scanning `b` finds,
      moved by the length of `a`. */
  ghost predicate Shifted(rules: Rules, a: string, b: string, p: nat)
    requires p <= |b|
  {
    ScanFrom(rules, a + b, |a| + p) == ShiftSpans(ScanFrom(rules, b, p), |a|)
  }

  lemma ShiftSkipStep(rules: Rules, a: string, b: string, p: nat)
    requires p < |b| && MatchAt(rules, b, p).None?
    requires MatchAt(rules, a + b, |a| + p).None?
    requires Shifted(rules, a, b, p + 1)
    ensures Shifted(rules, a, b, p)
  {
    ScanFromSkip(rules, a + b, |a| + p);
    ScanFromSkip(rules, b, p);
  }

  lemma ShiftMatchStep(rules: Rules, a: string, b: string, p: nat, sp: Span)
    requires p < |b| && MatchAt(rules, b, p) == Some(sp)
    requires MatchAt(rules, a + b, |a| + p) == Some(ShiftSpan(sp, |a|))
    requires Shifted(rules, a, b, sp.valueEnd)
    ensures Shifted(rules, a, b, p)
  {
    var rest := ScanFrom(rules, b, sp.valueEnd);
    ScanFromAt(rules, a + b, |a| + p, ShiftSpan(sp, |a|));
    ScanFromAt(rules, b, p, sp);
    ShiftCons(sp, rest, |a|);
  }

  lemma {:induction false} ShiftedFrom(a: string, b: string, p: nat)
    requires 1 <= p <= |b|
    ensures Shifted(WordRules, a, b, p)
    decreases |b| - p
  {
    if p < |b| {
      var m := MatchAt(WordRules, b, p);
      if m.None? {
        ShiftedFrom(a, b, p + 1);
        MatchAtShift(a, b, p);
        ShiftSkipStep(WordRules, a, b, p);
      } else {
        ShiftedFrom(a, b, m.value.valueEnd);
        MatchShiftSome(a, b, p, m.value);
        ShiftMatchStep(WordRules, a, b, p, m.value);
      }
    }
  }

  /** What is found from position `p >= 1` of `b` does not depend on what
      stands before `b`: the same spans, moved by the length of the prefix. */
  lemma ScanFromShift(a: string, b: string, p: nat)
    requires 1 <= p <= |b|
    ensures ScanFrom(WordRules, a + b, |a| + p) == ShiftSpans(ScanFrom(WordRules, b, p), |a|)
  {
    ShiftedFrom(a, b, p);
  }

  lemma ShiftCons(sp: Span, rest: seq<Span>, d: nat)
    ensures ShiftSpans([sp] + rest, d) == [ShiftSpan(sp, d)] + ShiftSpans(rest, d)
  {
    var l, r := ShiftSpans([sp] + rest, d), [ShiftSpan(sp, d)] + ShiftSpans(rest, d);
    forall k | 0 <= k < |l|
      ensures l[k] == r[k]
    {
      ShiftSpanAt([sp] + rest, d, k);
      if k > 0 {
        ShiftSpanAt(rest, d, k - 1);
      }
    }
  }

  // Writing annotations one per line.

  /** An annotation that reads back as written: a non-empty name of name
      characters, a value without `@` that does not continue the name. */
  predicate Writable(o: Occurrence) {
    && o.name != []
    && (forall j :: 0 <= j < |o.name| ==> IsWordChar(o.name[j]))
    && (forall j :: 0 <= j < |o.value| ==> o.value[j] != '@')
    && (o.value == [] || !IsWordChar(o.value[0]))
  }

  function Line(o: Occurrence): string {
    ['@'] + o.name + o.value
  }

  /** The annotations, one per line. */
  function Render(os: seq<Occurrence>): string {
    if os == [] then []
    else if |os| == 1 then Line(os[0])
    else Line(os[0]) + ("\n" + Render(os[1..]))
  }

  lemma LineChars(o: Occurrence)
    requires Writable(o)
    ensures var l := Line(o);
            && |l| == 1 + |o.name| + |o.value|
            && l[0] == '@'
            && (forall j :: 1 <= j < 1 + |o.name| ==> IsWordChar(l[j]))
            && (forall j :: 1 <= j < |l| ==> l[j] != '@')
            && l[1..1 + |o.name|] == o.name
            && l[1 + |o.name|..] == o.value
            && (o.value != [] ==> !IsWordChar(l[1 + |o.name|]))
  {
    var l := Line(o);
    forall j | 1 <= j < |l|
      ensures l[j] != '@'
      ensures j < 1 + |o.name| ==> IsWordChar(l[j])
    {
      if j < 1 + |o.name| {
        assert l[j] == o.name[j - 1];
      } else {
        assert l[j] == o.value[j - 1 - |o.name|];
      }
    }
    assert l[1..1 + |o.name|] == o.name;
    assert l[1 + |o.name|..] == o.value;
  }

  /** A line followed by nothing or by a line feed and another annotation
      is matched as its name and value. */
  lemma LineMatch(o: Occurrence, tail: string)
    requires Writable(o)
    requires tail == [] || (|tail| >= 2 && tail[0] == '\n' && tail[1] == '@')
    ensures var s := Line(o) + tail;
            MatchAt(WordRules, s, 1) == Some(Span(1, 1 + |o.name|, |Line(o)|))
  {
    var l := Line(o);
    var s := l + tail;
    var e := 1 + |o.name|;
    LineChars(o);
    assert forall j :: 0 <= j < |l| ==> s[j] == l[j];
    assert tail != [] ==> s[|l|] == '\n' && s[|l| + 1] == '@';
    WordEndIs(s, 1, e);
    ValueEndIs(s, e, |l|, '@');
  }

  lemma RenderStart(os: seq<Occurrence>)
    requires os != [] && Writable(os[0])
    ensures |Render(os)| >= 2 && Render(os)[0] == '@'
  {
    LineChars(os[0]);
    if |os| > 1 {
      assert Render(os)[..|Line(os[0])|] == Line(os[0]);
    }
  }

  /** The first line of a rendering is scanned as its own annotation, and
      scanning goes on from the end of that line. */
  lemma LineScan(o: Occurrence, tail: string)
    requires Writable(o)
    requires tail == [] || (|tail| >= 2 && tail[0] == '\n' && tail[1] == '@')
    ensures var s := Line(o) + tail;
            var sp := Span(1, 1 + |o.name|, |Line(o)|);
            && IsMatch(WordRules, s, sp)
            && OccurrenceOf(WordRules, s, sp) == o
            && Scan(WordRules, s) == [sp] + ScanFrom(WordRules, s, |Line(o)|)
  {
    var l := Line(o);
    var s := l + tail;
    var sp := Span(1, 1 + |o.name|, |l|);
    LineMatch(o, tail);
    LineChars(o);
    assert s[1..1 + |o.name|] == l[1..1 + |o.name|];
    assert s[1 + |o.name|..|l|] == l[1 + |o.name|..];
    ScanFromSkip(WordRules, s, 0);
    ScanFromAt(WordRules, s, 1, sp);
  }

  /** A span moved past a prefix reads the same text. */
  lemma OccurrenceShift(rules: Rules, a: string, b: string, sp: Span)
    requires IsMatch(rules, b, sp) && IsMatch(rules, a + b, ShiftSpan(sp, |a|))
    ensures OccurrenceOf(rules, a + b, ShiftSpan(sp, |a|)) == OccurrenceOf(rules, b, sp)
  {
    var s := a + b;
    var d := |a|;
    assert s[d + sp.nameStart..d + sp.nameEnd] == b[sp.nameStart..sp.nameEnd];
    assert s[d + sp.nameEnd..d + sp.valueEnd] == b[sp.nameEnd..sp.valueEnd];
  }

  /** When the scan of `a + b` is one span followed by the scan of `b`
      moved past `a`, so are the annotations extracted. */
  lemma ExtractCons(rules: Rules, a: string, b: string, sp: Span)
    requires Scan(rules, a + b) == [sp] + ShiftSpans(Scan(rules, b), |a|)
    ensures IsMatch(rules, a + b, sp)
    ensures Extract(rules, a + b) == [OccurrenceOf(rules, a + b, sp)] + Extract(rules, b)
  {
    var s := a + b;
    var spans, tail := Scan(rules, s), Scan(rules, b);
    assert spans[0] == sp;
    var l, r := Extract(rules, s), [OccurrenceOf(rules, s, sp)] + Extract(rules, b);
    forall k | 0 <= k < |l|
      ensures l[k] == r[k]
    {
      if k > 0 {
        ShiftSpanAt(tail, |a|, k - 1);
        assert spans[k] == ShiftSpan(tail[k - 1], |a|);
        assert IsMatch(rules, s, spans[k]);
        assert IsMatch(rules, b, tail[k - 1]);
        OccurrenceShift(rules, a, b, tail[k - 1]);
      }
    }
  }

  /** Nothing starts right after a character other than the identifier. */
  lemma NoMatchAfter(rules: Rules, s: string, p: nat)
    requires 0 < p < |s| && s[p - 1] != rules.identifier
    ensures ScanFrom(rules, s, p) == ScanFrom(rules, s, p + 1)
  {
    ScanFromSkip(rules, s, p);
  }

  /** Past the end of a line and its line feed nothing starts, so the scan
      resumes at the next line. */
  lemma LineBreakSkip(rules: Rules, l: string, r: string)
    requires |l| >= 1 && l[|l| - 1] != rules.identifier && rules.identifier != '\n' && 1 <= |r|
    ensures ScanFrom(rules, l + ("\n" + r), |l|) == ScanFrom(rules, l + ("\n" + r), |l| + 2)
  {
    var s := l + ("\n" + r);
    assert ScanFrom(rules, s, |l|) == ScanFrom(rules, s, |l| + 1) by {
      assert s[|l| - 1] == l[|l| - 1];
      NoMatchAfter(rules, s, |l|);
    }
    assert ScanFrom(rules, s, |l| + 1) == ScanFrom(rules, s, |l| + 2) by {
      assert s[|l|] == '\n';
      NoMatchAfter(rules, s, |l| + 1);
    }
  }

  /** A line does not end with the identifier, which is not a line feed. */
  lemma LineLast(o: Occurrence)
    requires Writable(o)
    ensures |Line(o)| >= 1 && Line(o)[|Line(o)| - 1] != WordRules.identifier
    ensures WordRules.identifier != '\n'
  {
    LineChars(o);
  }

  /** After a line and its line feed the scan resumes at the next line. */
  lemma LineBreakRendered(o: Occurrence, r: string)
    requires Writable(o) && |r| >= 1
    ensures ScanFrom(WordRules, Line(o) + ("\n" + r), |Line(o)|)
            == ScanFrom(WordRules, Line(o) + ("\n" + r), |Line(o)| + 2)
  {
    LineLast(o);
    LineBreakSkip(WordRules, Line(o), r);
  }

  /** A line, a line feed and a rendering `r`: the line's span, then what
      is found from the second character of `r` on. */
  lemma LineThenRest(o: Occurrence, r: string)
    requires Writable(o) && |r| >= 2 && r[0] == '@'
    ensures var s := Line(o) + ("\n" + r);
            Scan(WordRules, s) == [Span(1, 1 + |o.name|, |Line(o)|)] + ScanFrom(WordRules, s, |Line(o)| + 2)
  {
    var s := Line(o) + ("\n" + r);
    assert Scan(WordRules, s) == [Span(1, 1 + |o.name|, |Line(o)|)] + ScanFrom(WordRules, s, |Line(o)|) by {
      LineScan(o, "\n" + r);
    }
    LineBreakRendered(o, r);
  }

  /** A line, a line feed and a rendering `r`: the line's span, then the
      spans of `r` moved past the line. */
  lemma ScanRendered(o: Occurrence, r: string)
    requires Writable(o) && |r| >= 2 && r[0] == '@'
    ensures var a := Line(o) + "\n";
            Scan(WordRules, a + r) == [Span(1, 1 + |o.name|, |Line(o)|)] + ShiftSpans(Scan(WordRules, r), |a|)
  {
    var a := Line(o) + "\n";
    assert Line(o) + ("\n" + r) == a + r;
    LineThenRest(o, r);
    assert ScanFrom(WordRules, a + r, |a| + 1) == ShiftSpans(Scan(WordRules, r), |a|) by {
      ScanFromShift(a, r, 1);
      ScanFromSkip(WordRules, r, 0);
    }
  }

  /** Round trip: annotations written one per line are extracted back,
      the same names and values in the same order. */
  lemma {:induction false} RenderRoundTrip(os: seq<Occurrence>)
    requires forall k :: 0 <= k < |os| ==> Writable(os[k])
    ensures Extract(WordRules, Render(os)) == os
    decreases |os|
  {
    if |os| == 1 {
      LineScan(os[0], []);
      assert Line(os[0]) + [] == Render(os);
    } else if |os| > 1 {
      var o, rest := os[0], os[1..];
      var a, r := Line(o) + "\n", Render(rest);
      var s := a + r;
      var sp := Span(1, 1 + |o.name|, |Line(o)|);
      assert s == Render(os) by {
        assert Line(o) + ("\n" + r) == a + r;
      }
      assert Extract(WordRules, s) == [OccurrenceOf(WordRules, s, sp)] + Extract(WordRules, r)
        && IsMatch(WordRules, s, sp) by {
        RenderStart(rest);
        ScanRendered(o, r);
        ExtractCons(WordRules, a, r, sp);
      }
      assert OccurrenceOf(WordRules, s, sp) == o by {
        RenderStart(rest);
        LineScan(o, "\n" + r);
        assert Line(o) + ("\n" + r) == s;
      }
      RenderRoundTrip(rest);
      assert os == [o] + rest;
    }
  }
}
