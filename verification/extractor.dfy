/** The annotation extractor: `preg_match_all` of the pattern the `Parser`
    constructor builds from the rules,
    `(?<=\ID)(NAME)(((?!\s\ID).)*)` with the `s` flag, where ID is the
    identifier character and NAME the rules' name pattern.

    A match starts at a position right after an identifier character
    (the lookbehind), continues with a name, and then takes every
    character, line feeds included, up to the first whitespace character
    that is immediately followed by the identifier, or up to the end of the
    text. Matches are searched left to right; after a match the search
    resumes where it ended, and where no match starts the search moves on
    by one character. */
module Extractor {
  import opened Options
  import opened Text

  /** The parser rules: the identifier character, the name pattern as the
      end of the name it matches at a position (if any), and the key
      sanitiser. */
  datatype Rules = Rules(
    identifier: char,
    nameEnd: (string, nat) -> Option<nat>,
    sanitizeKey: string -> string)

  /** A match: the name is `s[nameStart..nameEnd]`, the value
      `s[nameEnd..valueEnd]`. */
  datatype Span = Span(nameStart: nat, nameEnd: nat, valueEnd: nat)

  /** A raw annotation: its name as written and its value text, untrimmed. */
  datatype Occurrence = Occurrence(name: string, value: string)

  /** The end of the name matched at `i`; an answer that would not be a
      non-empty part of `s` counts as no match. */
  function NameAt(rules: Rules, s: string, i: nat): (e: Option<nat>)
    ensures e.Some? ==> i < e.value <= |s| && rules.nameEnd(s, i) == e
    ensures e.None? ==> rules.nameEnd(s, i).None? || !(i < rules.nameEnd(s, i).value <= |s|)
  {
    match rules.nameEnd(s, i)
    case Some(n) => if i < n <= |s| then Some(n) else None
    case None => None
  }

  /** `(?!\s\ID)` fails at `j`: a whitespace character followed by the identifier. */
  predicate StopsAt(s: string, j: nat, id: char) {
    j + 1 < |s| && IsSpace(s[j]) && s[j + 1] == id
  }

  /** The value part `((?!\s\ID).)*` starting at `e` ends at the first stop
      or at the end of the text. */
  function ValueEnd(s: string, e: nat, id: char): (q: nat)
    requires e <= |s|
    ensures e <= q <= |s|
    ensures q < |s| ==> StopsAt(s, q, id)
    ensures forall j :: e <= j < q ==> !StopsAt(s, j, id)
    decreases |s| - e
  {
    if e == |s| || StopsAt(s, e, id) then e else ValueEnd(s, e + 1, id)
  }

  /** The value ends at the one position with no stop before it and a
      stop, or the end of the text, at it. */
  lemma {:induction false} ValueEndIs(s: string, e: nat, q: nat, id: char)
    requires e <= q <= |s|
    requires forall j :: e <= j < q ==> !StopsAt(s, j, id)
    requires q == |s| || StopsAt(s, q, id)
    ensures ValueEnd(s, e, id) == q
    decreases q - e
  {
    if e < q {
      ValueEndIs(s, e + 1, q, id);
    }
  }

  /** The match starting at `p`, if one does. */
  function MatchAt(rules: Rules, s: string, p: nat): (m: Option<Span>)
    requires p <= |s|
    ensures m.Some? ==> m.value.nameStart == p && 0 < p && s[p - 1] == rules.identifier
    ensures m.Some? ==> p < m.value.nameEnd <= m.value.valueEnd <= |s|
    ensures m.Some? ==> rules.nameEnd(s, p) == Some(m.value.nameEnd)
    ensures m.Some? ==> m.value.valueEnd == ValueEnd(s, m.value.nameEnd, rules.identifier)
    ensures 0 < p && s[p - 1] == rules.identifier && NameAt(rules, s, p).Some? ==> m.Some?
  {
    if 0 < p && s[p - 1] == rules.identifier then
      match NameAt(rules, s, p)
      case Some(e) => Some(Span(p, e, ValueEnd(s, e, rules.identifier)))
      case None => None
    else
      None
  }

  /** `spans[k]` is the match that starts where it starts. */
  predicate IsMatch(rules: Rules, s: string, sp: Span) {
    sp.nameStart <= |s| && MatchAt(rules, s, sp.nameStart) == Some(sp)
  }

  /** The spans do not overlap and come in document order. */
  predicate Ordered(spans: seq<Span>) {
    forall i, j :: 0 <= i < j < |spans| ==> spans[i].valueEnd <= spans[j].nameStart
  }

  /** The search from `p` on. */
  function ScanFrom(rules: Rules, s: string, p: nat): (spans: seq<Span>)
    requires p <= |s|
    ensures forall k :: 0 <= k < |spans| ==> p <= spans[k].nameStart && IsMatch(rules, s, spans[k])
    ensures Ordered(spans)
    decreases |s| - p
  {
    if p == |s| then []
    else match MatchAt(rules, s, p)
      case None => ScanFrom(rules, s, p + 1)
      case Some(sp) => [sp] + ScanFrom(rules, s, sp.valueEnd)
  }

  /** The `preg_match_all` of the annotation pattern: genuine matches, in
      order and without overlap (ScanIsLeftmost adds that none is missed). */
  function Scan(rules: Rules, s: string): (spans: seq<Span>)
    ensures forall k :: 0 <= k < |spans| ==> IsMatch(rules, s, spans[k])
    ensures Ordered(spans)
  {
    ScanFrom(rules, s, 0)
  }

  /** No two adjacent characters of `v` are whitespace then the identifier. */
  predicate NoStop(v: string, id: char) {
    forall j :: 0 <= j < |v| - 1 ==> !(IsSpace(v[j]) && v[j + 1] == id)
  }

  /** The raw annotations of `s`, in document order. Each name is
      non-empty and no value holds a whitespace character followed by the
      identifier. */
  function Extract(rules: Rules, s: string): (r: seq<Occurrence>)
    ensures |r| == |Scan(rules, s)|
    ensures forall k :: 0 <= k < |r| ==> r[k].name != [] && NoStop(r[k].value, rules.identifier)
  {
    var spans := Scan(rules, s);
    seq(|spans|, k requires 0 <= k < |spans| => OccurrenceOf(rules, s, spans[k]))
  }

  function OccurrenceOf(rules: Rules, s: string, sp: Span): (o: Occurrence)
    requires IsMatch(rules, s, sp)
    ensures o.name != [] && NoStop(o.value, rules.identifier)
  {
    ValueNoStop(s, sp.nameEnd, rules.identifier);
    Occurrence(s[sp.nameStart..sp.nameEnd], s[sp.nameEnd..sp.valueEnd])
  }

  lemma ValueNoStop(s: string, e: nat, id: char)
    requires e <= |s|
    ensures NoStop(s[e..ValueEnd(s, e, id)], id)
  {
    var q := ValueEnd(s, e, id);
    var v := s[e..q];
    forall j | 0 <= j < |v| - 1
      ensures !(IsSpace(v[j]) && v[j + 1] == id)
    {
      assert v[j] == s[e + j] && v[j + 1] == s[e + j + 1];
      assert !StopsAt(s, e + j, id);
    }
  }

  // The declarative description of the search.

  /** Some span holds position `q`. */
  ghost predicate Covered(spans: seq<Span>, q: nat) {
    exists k :: 0 <= k < |spans| && spans[k].nameStart <= q < spans[k].valueEnd
  }

  /** No match start from `p` on is left outside the spans. */
  ghost predicate Complete(rules: Rules, s: string, p: nat, spans: seq<Span>) {
    forall q :: p <= q <= |s| && MatchAt(rules, s, q).Some? ==> Covered(spans, q)
  }

  /** `spans` is what a leftmost, non-overlapping search from `p` finds:
      genuine matches, from `p` on, in order, and no match start left
      outside all of them. */
  ghost predicate Leftmost(rules: Rules, s: string, p: nat, spans: seq<Span>) {
    && (forall k :: 0 <= k < |spans| ==> p <= spans[k].nameStart && IsMatch(rules, s, spans[k]))
    && Ordered(spans)
    && Complete(rules, s, p, spans)
  }

  lemma CoveredHead(sp: Span, rest: seq<Span>, q: nat)
    requires sp.nameStart <= q < sp.valueEnd
    ensures Covered([sp] + rest, q)
  {
    assert ([sp] + rest)[0] == sp;
  }

  lemma CoveredRest(sp: Span, rest: seq<Span>, q: nat)
    requires Covered(rest, q)
    ensures Covered([sp] + rest, q)
  {
    var k :| 0 <= k < |rest| && rest[k].nameStart <= q < rest[k].valueEnd;
    assert ([sp] + rest)[k + 1] == rest[k];
  }

  /** A position past the first span is covered by one of the others. */
  lemma CoveredTail(spans: seq<Span>, q: nat)
    requires |spans| > 0 && spans[0].valueEnd <= q
    requires Covered(spans, q)
    ensures Covered(spans[1..], q)
  {
    var j :| 0 <= j < |spans| && spans[j].nameStart <= q < spans[j].valueEnd;
    assert spans[1..][j - 1] == spans[j];
  }

  /** A match at `p` followed by a complete search from its end is complete from `p`. */
  lemma CompleteStep(rules: Rules, s: string, p: nat, sp: Span, rest: seq<Span>)
    requires p <= |s| && MatchAt(rules, s, p) == Some(sp)
    requires Complete(rules, s, sp.valueEnd, rest)
    ensures Complete(rules, s, p, [sp] + rest)
  {
    forall q | p <= q <= |s| && MatchAt(rules, s, q).Some?
      ensures Covered([sp] + rest, q)
    {
      if q < sp.valueEnd {
        CoveredHead(sp, rest, q);
      } else {
        CoveredRest(sp, rest, q);
      }
    }
  }

  /** Where no match starts at `p`, completeness from `p + 1` is completeness from `p`. */
  lemma CompleteSkip(rules: Rules, s: string, p: nat, spans: seq<Span>)
    requires p <= |s| && MatchAt(rules, s, p).None?
    requires Complete(rules, s, p + 1, spans)
    ensures Complete(rules, s, p, spans)
  {
  }

  lemma {:induction false} ScanComplete(rules: Rules, s: string, p: nat)
    requires p <= |s|
    ensures Complete(rules, s, p, ScanFrom(rules, s, p))
    decreases |s| - p
  {
    if p < |s| {
      var m := MatchAt(rules, s, p);
      if m.None? {
        ScanComplete(rules, s, p + 1);
        ScanFromSkip(rules, s, p);
        CompleteSkip(rules, s, p, ScanFrom(rules, s, p + 1));
      } else {
        ScanComplete(rules, s, m.value.valueEnd);
        ScanFromMatch(rules, s, p);
        CompleteStep(rules, s, p, m.value, ScanFrom(rules, s, m.value.valueEnd));
      }
    }
  }

  lemma ScanIsLeftmost(rules: Rules, s: string, p: nat)
    requires p <= |s|
    ensures Leftmost(rules, s, p, ScanFrom(rules, s, p))
  {
    ScanComplete(rules, s, p);
  }

  /** Where no match starts at `p`, the same spans describe the search from `p + 1`. */
  lemma LeftmostSkip(rules: Rules, s: string, p: nat, spans: seq<Span>)
    requires p < |s| && MatchAt(rules, s, p).None?
    requires Leftmost(rules, s, p, spans)
    ensures Leftmost(rules, s, p + 1, spans)
  {
    forall k | 0 <= k < |spans|
      ensures p + 1 <= spans[k].nameStart
    {
      assert IsMatch(rules, s, spans[k]);
    }
  }

  /** Where a match starts at `p`, it is the first span. */
  lemma LeftmostHead(rules: Rules, s: string, p: nat, spans: seq<Span>)
    requires p < |s| && MatchAt(rules, s, p).Some?
    requires Leftmost(rules, s, p, spans)
    ensures |spans| > 0 && spans[0] == MatchAt(rules, s, p).value
  {
    var k :| 0 <= k < |spans| && spans[k].nameStart <= p < spans[k].valueEnd;
    assert IsMatch(rules, s, spans[k]);
    assert IsMatch(rules, s, spans[0]);
  }

  /** After the first span the rest describe the search from its end. */
  lemma LeftmostTail(rules: Rules, s: string, p: nat, spans: seq<Span>)
    requires |spans| > 0
    requires Leftmost(rules, s, p, spans)
    ensures Leftmost(rules, s, spans[0].valueEnd, spans[1..])
  {
    var rest := spans[1..];
    forall q | spans[0].valueEnd <= q <= |s| && MatchAt(rules, s, q).Some?
      ensures Covered(rest, q)
    {
      CoveredTail(spans, q);
    }
    forall k | 0 <= k < |rest|
      ensures spans[0].valueEnd <= rest[k].nameStart && IsMatch(rules, s, rest[k])
    {
      assert rest[k] == spans[k + 1];
    }
  }

  lemma ScanFromSkip(rules: Rules, s: string, p: nat)
    requires p < |s| && MatchAt(rules, s, p).None?
    ensures ScanFrom(rules, s, p) == ScanFrom(rules, s, p + 1)
  {
  }

  lemma ScanFromMatch(rules: Rules, s: string, p: nat)
    requires p < |s| && MatchAt(rules, s, p).Some?
    ensures ScanFrom(rules, s, p)
            == [MatchAt(rules, s, p).value] + ScanFrom(rules, s, MatchAt(rules, s, p).value.valueEnd)
  {
  }

  lemma {:induction false} LeftmostIsScan(rules: Rules, s: string, p: nat, spans: seq<Span>)
    requires p <= |s|
    requires Leftmost(rules, s, p, spans)
    ensures spans == ScanFrom(rules, s, p)
    decreases |s| - p
  {
    if p == |s| {
      assert |spans| > 0 ==> IsMatch(rules, s, spans[0]);
    } else if MatchAt(rules, s, p).None? {
      LeftmostSkip(rules, s, p, spans);
      LeftmostIsScan(rules, s, p + 1, spans);
      ScanFromSkip(rules, s, p);
    } else {
      LeftmostHead(rules, s, p, spans);
      LeftmostTail(rules, s, p, spans);
      LeftmostIsScan(rules, s, spans[0].valueEnd, spans[1..]);
      ScanFromMatch(rules, s, p);
      assert spans == [spans[0]] + spans[1..];
    }
  }

  /** The search finds exactly the leftmost non-overlapping matches. */
  lemma ScanCharacterised(rules: Rules, s: string, spans: seq<Span>)
    ensures Leftmost(rules, s, 0, spans) <==> spans == Scan(rules, s)
  {
    ScanIsLeftmost(rules, s, 0);
    if Leftmost(rules, s, 0, spans) {
      LeftmostIsScan(rules, s, 0, spans);
    }
  }

  /** Nothing is extracted exactly when no match starts anywhere. */
  lemma ScanEmpty(rules: Rules, s: string)
    ensures Scan(rules, s) == [] <==> forall q :: 0 <= q <= |s| ==> MatchAt(rules, s, q).None?
  {
    ScanIsLeftmost(rules, s, 0);
    var spans := Scan(rules, s);
    assert |spans| > 0 ==> MatchAt(rules, s, spans[0].nameStart).Some?;
  }

  /** Text without the identifier character has no annotations. */
  lemma NoIdentifierNoAnnotation(rules: Rules, s: string)
    requires rules.identifier !in s
    ensures Extract(rules, s) == []
  {
    ScanEmpty(rules, s);
    forall q | 0 <= q <= |s|
      ensures MatchAt(rules, s, q).None?
    {
      if 0 < q {
        assert s[q - 1] in s;
      }
    }
  }

  /** Each value runs from the end of its name to the first whitespace
      character followed by the identifier, or to the end of the text; the
      name follows an identifier character and is what the name pattern
      matches there. */
  lemma OccurrenceShape(rules: Rules, s: string, k: nat)
    requires k < |Scan(rules, s)|
    ensures var sp := Scan(rules, s)[k];
            var o := Extract(rules, s)[k];
            && 0 < sp.nameStart < sp.nameEnd <= sp.valueEnd <= |s|
            && s[sp.nameStart - 1] == rules.identifier
            && rules.nameEnd(s, sp.nameStart) == Some(sp.nameEnd)
            && o.name == s[sp.nameStart..sp.nameEnd]
            && o.value == s[sp.nameEnd..sp.valueEnd]
            && (sp.valueEnd == |s| || StopsAt(s, sp.valueEnd, rules.identifier))
  {
    var sp := Scan(rules, s)[k];
    assert IsMatch(rules, s, sp);
  }
}
