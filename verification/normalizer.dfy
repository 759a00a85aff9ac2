/** The decoration stripper of the `Parser` constructor: the multi-line
    replacement of `^\s*\*\s{0,1}` (a line's leading `*`), `\/\*{1,2}` (an
    opener) and `\s*\*\/` (a closer) by nothing.

    The replacement is modelled as the scan the regex engine performs:
    at each position the alternatives are tried in order, the first that
    matches is deleted and the scan resumes after it; where none matches,
    one character is kept. `^` holds at the start of the text and after a
    line feed of the original text.

    The alternatives are tried in the order written (`AsWritten`) or with
    the closer first (`CloserFirst`), the corrected order: as written, a
    closer at the start of a line loses only its `*` to the first
    alternative and leaves its `/` behind. */
module Normalizer {
  import opened Options
  import opened Text
  import opened Sequences

  datatype Order = AsWritten | CloserFirst

  /** How many whitespace characters a greedy `\s*` takes at the start of `t`. */
  function SpaceRun(t: string): (n: nat)
    ensures n <= |t| && AllSpace(t[..n])
    ensures n < |t| ==> !IsSpace(t[n])
  {
    if |t| > 0 && IsSpace(t[0]) then
      var n := 1 + SpaceRun(t[1..]);
      assert t[..n] == [t[0]] + t[1..][..n - 1];
      n
    else
      0
  }

  /** A whitespace run is determined by where the first non-whitespace
      character is. */
  lemma {:induction false} SpaceRunIs(t: string, j: nat)
    requires j <= |t| && AllSpace(t[..j])
    requires j < |t| ==> !IsSpace(t[j])
    ensures SpaceRun(t) == j
    decreases j
  {
    if j > 0 {
      assert IsSpace(t[..j][0]);
      assert t[1..][..j - 1] == t[..j][1..];
      SpaceRunIs(t[1..], j - 1);
    }
  }

  /** `\s*\*\/` matches at the start of `t`. */
  predicate CloserAt(t: string) {
    var k := SpaceRun(t);
    k + 1 < |t| && t[k] == '*' && t[k + 1] == '/'
  }

  /** The length of the decoration deleted at the start of `t`, `bol`
      telling whether this position is a line start; the first alternative
      that matches wins. */
  function DecorationAt(t: string, bol: bool, order: Order): (n: Option<nat>)
    ensures n.Some? ==> 0 < n.value <= |t|
    ensures n.None? ==> !CloserAt(t)
  {
    var k := SpaceRun(t);
    if order == CloserFirst && CloserAt(t) then Some(k + 2)
    else if bol && k < |t| && t[k] == '*' then
      Some(if k + 1 < |t| && IsSpace(t[k + 1]) then k + 2 else k + 1)
    else if 2 <= |t| && t[0] == '/' && t[1] == '*' then
      Some(if 3 <= |t| && t[2] == '*' then 3 else 2)
    else if CloserAt(t) then Some(k + 2)
    else None
  }

  /** Every alternative needs a `*`: a decoration contains one. */
  lemma DecorationHasStar(t: string, bol: bool, order: Order)
    requires DecorationAt(t, bol, order).Some?
    ensures '*' in t
  {
    var k := SpaceRun(t);
    if k < |t| && t[k] == '*' {
    } else {
      assert t[1] == '*';
    }
  }

  /** The replacement applied to the rest `t` of the text; it only ever
      deletes, so the result is never longer. */
  function StripScan(t: string, bol: bool, order: Order): (r: string)
    ensures |r| <= |t|
    decreases |t|
  {
    if t == [] then []
    else match DecorationAt(t, bol, order)
      case Some(n) => StripScan(t[n..], t[n - 1] == '\n', order)
      case None => [t[0]] + StripScan(t[1..], t[0] == '\n', order)
  }

  /** The replacement of line 69 of the parser, alternatives in the order
      written. It only deletes, and leaves text without `*` alone. */
  function StripAsWritten(doc: string): (r: string)
    ensures |r| <= |doc|
    ensures IsSubseq(r, doc)
    ensures forall i :: 0 <= i < |r| ==> r[i] in doc
    ensures '*' !in doc ==> r == doc
  {
    StripScanKeepsChars(doc, true, AsWritten);
    StripScanSubseq(doc, true, AsWritten);
    StripScanPlain(doc, true, AsWritten);
    StripScan(doc, true, AsWritten)
  }

  /** The replacement with the closer alternative tried first. It only
      deletes, and leaves text without `*` alone. */
  function StripCloserFirst(doc: string): (r: string)
    ensures |r| <= |doc|
    ensures IsSubseq(r, doc)
    ensures forall i :: 0 <= i < |r| ==> r[i] in doc
    ensures '*' !in doc ==> r == doc
  {
    StripScanKeepsChars(doc, true, CloserFirst);
    StripScanSubseq(doc, true, CloserFirst);
    StripScanPlain(doc, true, CloserFirst);
    StripScan(doc, true, CloserFirst)
  }

  /** Stripping only deletes: every character of the result is one of the input. */
  lemma {:induction false} StripScanKeepsChars(t: string, bol: bool, order: Order)
    ensures forall i :: 0 <= i < |StripScan(t, bol, order)| ==> StripScan(t, bol, order)[i] in t
    decreases |t|
  {
    if t != [] {
      match DecorationAt(t, bol, order)
      case Some(n) =>
        StripScanKeepsChars(t[n..], t[n - 1] == '\n', order);
        assert forall c :: c in t[n..] ==> c in t;
      case None =>
        StripScanKeepsChars(t[1..], t[0] == '\n', order);
        assert forall c :: c in t[1..] ==> c in t;
    }
  }

  /** `a` is `b` with some of its characters deleted: the rest keep
      their order and are not repeated. */
  predicate IsSubseq(a: string, b: string)
    decreases |b|
  {
    if b == [] then a == []
    else IsSubseq(a, b[1..]) || (a != [] && a[0] == b[0] && IsSubseq(a[1..], b[1..]))
  }

  /** Deleting a prefix of `b` as well keeps `a` a subsequence. */
  lemma {:induction false} SubseqDrop(a: string, b: string, n: nat)
    requires n <= |b| && IsSubseq(a, b[n..])
    ensures IsSubseq(a, b)
    decreases n
  {
    if n > 0 {
      assert b[1..][n - 1..] == b[n..];
      SubseqDrop(a, b[1..], n - 1);
    }
  }

  /** The replacement deletes segments of the text and keeps the rest, in
      order. */
  lemma {:induction false} StripScanSubseq(t: string, bol: bool, order: Order)
    ensures IsSubseq(StripScan(t, bol, order), t)
    decreases |t|
  {
    if t != [] {
      match DecorationAt(t, bol, order)
      case Some(n) =>
        StripScanSubseq(t[n..], t[n - 1] == '\n', order);
        SubseqDrop(StripScan(t, bol, order), t, n);
      case None =>
        var r := StripScan(t, bol, order);
        StripScanSubseq(t[1..], t[0] == '\n', order);
        assert r[0] == t[0] && r[1..] == StripScan(t[1..], t[0] == '\n', order);
    }
  }

  /** As written, a character that is not whitespace, not `*` and does
      not open a comment starts no decoration and is kept. */
  lemma KeepSolid(t: string, bol: bool)
    requires t != [] && !IsSpace(t[0]) && t[0] != '*' && !(|t| >= 2 && t[0] == '/' && t[1] == '*')
    ensures StripScan(t, bol, AsWritten) == [t[0]] + StripScan(t[1..], t[0] == '\n', AsWritten)
  {
    SpaceRunIs(t, 0);
  }

  /** Away from a line start, whitespace that begins no closer is kept,
      in either order. */
  lemma KeepSpace(t: string, order: Order)
    requires t != [] && IsSpace(t[0]) && !CloserAt(t)
    ensures StripScan(t, false, order) == [t[0]] + StripScan(t[1..], t[0] == '\n', order)
  {
  }

  /** As written, a `*` away from a line start and not followed by a
      slash is kept. */
  lemma KeepStar(t: string)
    requires t != [] && t[0] == '*' && (|t| == 1 || t[1] != '/')
    ensures StripScan(t, false, AsWritten) == [t[0]] + StripScan(t[1..], false, AsWritten)
  {
    SpaceRunIs(t, 0);
  }

  lemma KeepStep(t: string, bol: bool, order: Order)
    requires t != [] && DecorationAt(t, bol, order).None?
    ensures StripScan(t, bol, order) == [t[0]] + StripScan(t[1..], t[0] == '\n', order)
  {
  }

  lemma DropStep(t: string, bol: bool, order: Order, n: nat)
    requires t != [] && DecorationAt(t, bol, order) == Some(n)
    ensures StripScan(t, bol, order) == StripScan(t[n..], t[n - 1] == '\n', order)
  {
  }

  // The three alternatives, one step each, wherever they stand.

  /** An opener, a slash and a star, with a second star when there is
      one, is deleted wherever it stands, in either order. */
  lemma OpenerDeleted(x: string, bol: bool, order: Order)
    ensures StripScan("/*" + x, bol, order)
            == if x != [] && x[0] == '*' then StripScan(x[1..], false, order) else StripScan(x, false, order)
  {
    var t := "/*" + x;
    assert t[0] == '/' && t[1] == '*';
    assert SpaceRun(t) == 0;
    var n := if x != [] && x[0] == '*' then 3 else 2;
    assert DecorationAt(t, bol, order) == Some(n);
    DropStep(t, bol, order, n);
    assert t[n..] == if n == 3 then x[1..] else x;
  }

  /** Away from a line start, a closer and the whitespace before it are
      deleted, in either order. */
  lemma CloserDeleted(ws: string, rest: string, order: Order)
    requires AllSpace(ws)
    ensures StripScan(ws + "*/" + rest, false, order) == StripScan(rest, false, order)
  {
    var t := ws + "*/" + rest;
    var k := |ws|;
    assert t[..k] == ws && t[k] == '*' && t[k + 1] == '/';
    SpaceRunIs(t, k);
    assert t[0] != '/' by {
      if k > 0 {
        assert t[0] == ws[0] && IsSpace(ws[0]);
      }
    }
    assert DecorationAt(t, false, order) == Some(k + 2);
    DropStep(t, false, order, k + 2);
    assert t[k + 2..] == rest;
  }

  /** As written, at a line start a whitespace run, a `*` and one
      whitespace character after it are deleted, whatever follows; the
      next position is a line start when that character is a line feed. */
  lemma LineStarDeleted(ws: string, c: char, rest: string)
    requires AllSpace(ws) && IsSpace(c)
    ensures StripScan(ws + ['*', c] + rest, true, AsWritten) == StripScan(rest, c == '\n', AsWritten)
  {
    var t := ws + ['*', c] + rest;
    var k := |ws|;
    assert t[..k] == ws && t[k] == '*' && t[k + 1] == c;
    SpaceRunIs(t, k);
    assert DecorationAt(t, true, AsWritten) == Some(k + 2);
    DropStep(t, true, AsWritten, k + 2);
    assert t[k + 2..] == rest;
  }

  /** As written, at a line start a whitespace run and a `*` not followed
      by whitespace are deleted, even when a `/` follows. */
  lemma LineBareStarDeleted(ws: string, rest: string)
    requires AllSpace(ws) && (rest == [] || !IsSpace(rest[0]))
    ensures StripScan(ws + "*" + rest, true, AsWritten) == StripScan(rest, false, AsWritten)
  {
    var t := ws + "*" + rest;
    var k := |ws|;
    assert t[..k] == ws && t[k] == '*';
    assert k + 1 < |t| ==> t[k + 1] == rest[0];
    SpaceRunIs(t, k);
    assert DecorationAt(t, true, AsWritten) == Some(k + 1);
    DropStep(t, true, AsWritten, k + 1);
    assert t[k + 1..] == rest;
  }

  /** Every alternative needs a `*`, so text without one is left alone. */
  lemma {:induction false} StripScanPlain(t: string, bol: bool, order: Order)
    ensures '*' !in t ==> StripScan(t, bol, order) == t
    decreases |t|
  {
    if t != [] && '*' !in t {
      if DecorationAt(t, bol, order).Some? {
        DecorationHasStar(t, bol, order);
      }
      assert '*' !in t[1..] by {
        assert forall c :: c in t[1..] ==> c in t;
      }
      StripScanPlain(t[1..], t[0] == '\n', order);
      assert t == [t[0]] + t[1..];
    }
  }

  lemma StripPlain(doc: string)
    requires '*' !in doc
    ensures StripCloserFirst(doc) == doc && StripAsWritten(doc) == doc
  {
    StripScanPlain(doc, true, CloserFirst);
    StripScanPlain(doc, true, AsWritten);
  }

  // The conventional doc block and what stripping it leaves.

  /** A line of content the decoration pattern cannot touch. */
  predicate PlainLine(l: string) {
    '*' !in l && '\n' !in l
  }

  /** Each line on a row of its own behind ` * `. */
  function Rows(lines: seq<string>): string {
    if lines == [] then [] else "\n * " + lines[0] + Rows(lines[1..])
  }

  /** `lines` as a doc block: opener, rows, closer on a row of its own. */
  function Decorate(lines: seq<string>): string {
    "/**" + Rows(lines) + "\n */"
  }

  /** `lines`, each introduced by a line feed. */
  function Unrows(lines: seq<string>): string {
    if lines == [] then [] else "\n" + lines[0] + Unrows(lines[1..])
  }

  /** Lines whose doc block strips back to them: plain lines, the last not
      ending in whitespace (the closer takes the whitespace before it). */
  predicate Decoratable(lines: seq<string>) {
    && (forall i :: 0 <= i < |lines| ==> PlainLine(lines[i]))
    && (lines != [] ==> var l := lines[|lines| - 1]; l == [] || !IsSpace(l[|l| - 1]))
  }

  /** `t` starts a row: a line feed, then ` *` that is not part of a closer. */
  predicate RowStart(t: string) {
    |t| >= 4 && t[..3] == "\n *" && t[3] != '/'
  }

  /** The whitespace run of `a + b` stops inside `a` unless `a` is all whitespace. */
  lemma {:induction false} SpaceRunAppend(a: string, b: string)
    ensures AllSpace(a) ==> SpaceRun(a + b) == |a| + SpaceRun(b)
    ensures !AllSpace(a) ==> SpaceRun(a + b) == SpaceRun(a) < |a|
    decreases |a|
  {
    if a == [] {
      assert a + b == b;
    } else if IsSpace(a[0]) {
      assert (a + b)[1..] == a[1..] + b;
      assert AllSpace(a) <==> AllSpace(a[1..]) by {
        if AllSpace(a[1..]) {
          forall i | 0 <= i < |a| ensures IsSpace(a[i]) {
            if i > 0 { assert a[i] == a[1..][i - 1]; }
          }
        }
      }
      SpaceRunAppend(a[1..], b);
    } else {
      assert (a + b)[0] == a[0];
    }
  }

  /** No decoration starts inside a plain line followed by a row or closer. */
  lemma PlainLineUndecorated(l: string, tail: string, order: Order)
    requires l != [] && PlainLine(l)
    requires RowStart(tail) || (tail == "\n */" && !IsSpace(l[|l| - 1]))
    ensures DecorationAt(l + tail, false, order).None?
  {
    var t := l + tail;
    SpaceRunAppend(l, tail);
    assert !CloserAt(t) by {
      if RowStart(tail) && AllSpace(l) {
        assert tail[..2] == "\n ";
        assert tail[2] == '*' && tail[3] != '/';
        SpaceRunIs(tail, 2);
        assert t[|l| + 3] == tail[3];
      } else {
        assert !AllSpace(l);
        assert t[SpaceRun(t)] == l[SpaceRun(l)];
      }
    }
    assert tail[0] == '\n';
    if |l| > 1 {
      assert t[1] == l[1];
    }
  }

  /** The characters of a plain line are kept one by one. */
  lemma {:induction false} CopyLine(l: string, tail: string, order: Order)
    requires PlainLine(l)
    requires RowStart(tail) || (tail == "\n */" && (l == [] || !IsSpace(l[|l| - 1])))
    ensures StripScan(l + tail, false, order) == l + StripScan(tail, false, order)
    decreases |l|
  {
    if l == [] {
      assert l + tail == tail;
    } else {
      var t := l + tail;
      var rest := StripScan(tail, false, order);
      assert StripScan(t, false, order) == [l[0]] + StripScan(l[1..] + tail, false, order) by {
        PlainLineUndecorated(l, tail, order);
        KeepStep(t, false, order);
        assert t[1..] == l[1..] + tail;
        assert t[0] == l[0] && l[0] != '\n';
      }
      assert StripScan(l[1..] + tail, false, order) == l[1..] + rest by {
        assert PlainLine(l[1..]) by {
          assert forall c :: c in l[1..] ==> c in l;
        }
        CopyLine(l[1..], tail, order);
      }
      ConsAppend(l, rest);
    }
  }

  /** The opener at the start of the text goes. */
  lemma OpenerStrip(x: string, order: Order)
    ensures StripScan("/**" + x, true, order) == StripScan(x, false, order)
  {
    var t := "/**" + x;
    SpaceRunIs(t, 0);
    DropStep(t, true, order, 3);
    assert t[3..] == x;
  }

  /** A line feed before ` *` that is not a closer is kept, and a line starts after it. */
  lemma LineFeedKept(y: string, order: Order)
    requires |y| >= 3 && y[0] == ' ' && y[1] == '*' && y[2] != '/'
    ensures StripScan(['\n'] + y, false, order) == "\n" + StripScan(y, true, order)
  {
    var t := ['\n'] + y;
    assert t[..2] == "\n ";
    SpaceRunIs(t, 2);
    KeepStep(t, false, order);
    assert (['\n'] + y)[1..] == y;
  }

  /** At a line start, ` *` and the whitespace character `c` after it go. */
  lemma LeadingStarDropped(c: char, x: string, order: Order)
    requires IsSpace(c)
    ensures StripScan([' ', '*', c] + x, true, order) == StripScan(x, c == '\n', order)
  {
    var t := [' ', '*', c] + x;
    assert t[..1] == " ";
    SpaceRunIs(t, 1);
    DropStep(t, true, order, 3);
    assert t[3..] == x;
  }

  /** A row's ` * ` goes and its line feed stays. */
  lemma RowLeadStrip(x: string, order: Order)
    ensures StripScan("\n * " + x, false, order) == "\n" + StripScan(x, false, order)
  {
    assert ['\n', ' ', '*', ' '] + x == ['\n'] + ([' ', '*', ' '] + x);
    LineFeedKept([' ', '*', ' '] + x, order);
    LeadingStarDropped(' ', x, order);
  }

  /** A blank row written ` *` without a trailing space loses its line feed
      to `\s{0,1}`, and what follows it counts as a line start. */
  lemma BlankRowStrip(x: string, order: Order)
    ensures StripScan("\n *\n" + x, false, order) == "\n" + StripScan(x, true, order)
  {
    assert ['\n', ' ', '*', '\n'] + x == ['\n'] + ([' ', '*', '\n'] + x);
    LineFeedKept([' ', '*', '\n'] + x, order);
    LeadingStarDropped('\n', x, order);
  }

  /** The closer on a row of its own vanishes. */
  lemma CloserStrip(order: Order)
    ensures StripScan("\n */", false, order) == []
  {
    var t := "\n */";
    assert t[..2] == "\n ";
    SpaceRunIs(t, 2);
    DropStep(t, false, order, 4);
    assert t[4..] == [];
  }

  /** The rows strip back to their lines, the closer vanishing. */
  lemma {:induction false} RowsStrip(lines: seq<string>, order: Order)
    requires Decoratable(lines)
    ensures StripScan(Rows(lines) + "\n */", false, order) == Unrows(lines)
    decreases |lines|
  {
    if lines == [] {
      assert Rows(lines) + "\n */" == "\n */";
      CloserStrip(order);
    } else {
      var tail := Rows(lines[1..]) + "\n */";
      RowsUnfold(lines);
      RowStrip(lines[0], tail, order);
      DecoratableTail(lines);
      RowsStrip(lines[1..], order);
    }
  }

  lemma RowsUnfold(lines: seq<string>)
    requires lines != []
    ensures Rows(lines) + "\n */" == "\n * " + (lines[0] + (Rows(lines[1..]) + "\n */"))
    ensures Rows(lines[1..]) != [] ==> RowStart(Rows(lines[1..]) + "\n */")
  {
    Regroup4("\n * ", lines[0], Rows(lines[1..]), "\n */");
    var rest := lines[1..];
    if rest != [] {
      Regroup4("\n * ", rest[0], Rows(rest[1..]), "\n */");
      assert ("\n * " + (rest[0] + (Rows(rest[1..]) + "\n */")))[..|"\n * "|] == "\n * ";
    }
  }

  lemma DecoratableTail(lines: seq<string>)
    requires lines != [] && Decoratable(lines)
    ensures Decoratable(lines[1..])
    ensures lines[1..] == [] ==> lines[0] == [] || !IsSpace(lines[0][|lines[0]| - 1])
  {
    var rest := lines[1..];
    forall i | 0 <= i < |rest| ensures PlainLine(rest[i]) {
      assert rest[i] == lines[i + 1];
    }
  }

  /** One row, followed by further rows or the closer, strips to its line. */
  lemma RowStrip(l: string, tail: string, order: Order)
    requires PlainLine(l)
    requires RowStart(tail) || (tail == "\n */" && (l == [] || !IsSpace(l[|l| - 1])))
    ensures StripScan("\n * " + (l + tail), false, order) == "\n" + l + StripScan(tail, false, order)
  {
    RowLeadStrip(l + tail, order);
    CopyLine(l, tail, order);
    assert "\n" + (l + StripScan(tail, false, order)) == "\n" + l + StripScan(tail, false, order);
  }

  /** A conventional doc block strips back to its lines, in either order. */
  lemma StripDecorated(lines: seq<string>, order: Order)
    requires Decoratable(lines)
    ensures StripScan(Decorate(lines), true, order) == Unrows(lines)
  {
    assert Decorate(lines) == "/**" + (Rows(lines) + "\n */");
    OpenerStrip(Rows(lines) + "\n */", order);
    RowsStrip(lines, order);
  }

  /** With the closer tried first, a closer and the whitespace before it
      always vanish together, wherever they stand. */
  lemma ClosingVanishes(ws: string, rest: string, bol: bool)
    requires AllSpace(ws)
    ensures StripScan(ws + "*/" + rest, bol, CloserFirst) == StripScan(rest, false, CloserFirst)
  {
    var t := ws + "*/" + rest;
    assert t[..|ws|] == ws;
    SpaceRunIs(t, |ws|);
    DropStep(t, bol, CloserFirst, |ws| + 2);
    assert t[|ws| + 2..] == rest;
  }

  /** As written, a closer at a line start keeps its `/`. */
  lemma CloserAtLineStart()
    ensures StripScan(" */", true, AsWritten) == "/"
    ensures StripScan(" */", true, CloserFirst) == []
  {
    var t := " */";
    assert t[..1] == " ";
    SpaceRunIs(t, 1);
    DropStep(t, true, AsWritten, 2);
    assert t[2..] == "/";
    SpaceRunIs("/", 0);
    KeepStep("/", false, AsWritten);
    DropStep(t, true, CloserFirst, 3);
    assert t[3..] == [];
  }

  /** As written, a closer on a row of its own after a blank ` *` row keeps
      its `/`; with the closer first, nothing of the closer remains. */
  lemma StrayCloserSlash()
    ensures StripAsWritten("/**\n *\n */") == "\n/"
    ensures StripCloserFirst("/**\n *\n */") == "\n"
  {
    assert "/**\n *\n */" == "/**" + ("\n *\n" + " */");
    forall order: Order
      ensures StripScan("/**\n *\n */", true, order) == "\n" + StripScan(" */", true, order)
    {
      OpenerStrip("\n *\n" + " */", order);
      BlankRowStrip(" */", order);
    }
    CloserAtLineStart();
  }
}
