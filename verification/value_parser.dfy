/** The value dispatcher `Parser::parseValue` and the `$types` table.

    The handler classes themselves are outside the model: a value that
    reaches a handler is represented by the handler's kind, the text it is
    handed and the annotation name passed along with it. */
module ValueParser {
  import opened Options
  import opened Text

  /** The handler classes of `Minime\Annotations\Types`. */
  datatype Kind = Integer | String | Float | Json | PHP | Concrete | Dynamic

  /** What `parseValue` produces: the implicit boolean `true`, or the call
      `(new <kind>)->parse(input, key)`. */
  datatype Parsed = ImplicitTrue | Handled(kind: Kind, input: string, key: Option<string>)

  /** The explicit type table: handler class and the symbol that selects it,
      in the order the alternatives of the type pattern are tried. */
  const Types: seq<(Kind, string)> :=
    [(Integer, "integer"), (String, "string"), (Float, "float"),
     (Json, "json"), (PHP, "eval"), (Concrete, "->")]

  /** `t` starts with `sym` followed by at least one whitespace character,
      i.e. `^(sym)(\s+)` matches `t`. */
  predicate Declares(t: string, sym: string) {
    |sym| < |t| && t[..|sym|] == sym && IsSpace(t[|sym|])
  }

  /** The index of the first table entry from `i` on whose symbol `t`
      declares, as a regex alternation tries its alternatives in order. */
  function MatchTypeFrom(t: string, i: nat): (r: Option<nat>)
    requires i <= |Types|
    ensures r.Some? ==> i <= r.value < |Types| && Declares(t, Types[r.value].1)
    ensures r.Some? ==> forall j :: i <= j < r.value ==> !Declares(t, Types[j].1)
    ensures r.None? ==> forall j :: i <= j < |Types| ==> !Declares(t, Types[j].1)
    decreases |Types| - i
  {
    if i == |Types| then None
    else if Declares(t, Types[i].1) then Some(i)
    else MatchTypeFrom(t, i + 1)
  }

  /** The six symbols start with six different characters, so a text
      declares at most one of them. */
  lemma {:induction false} AtMostOneType(t: string, i: nat, j: nat)
    requires i < |Types| && j < |Types|
    requires Declares(t, Types[i].1) && Declares(t, Types[j].1)
    ensures i == j
  {
    assert t[0] == t[..|Types[i].1|][0] == Types[i].1[0];
    assert t[0] == t[..|Types[j].1|][0] == Types[j].1[0];
  }

  /** `Parser::parseValue`: trim the text; empty text is the implicit
      boolean; a text that declares a type symbol goes to that symbol's
      handler with the symbol cut off and the rest trimmed; anything else
      goes whole to the Dynamic handler. The name is passed along as given. */
  function ParseValue(value: string, key: Option<string>): (r: Parsed)
    ensures r == ImplicitTrue <==> AllSpace(value)
    ensures r.Handled? ==> r.key == key && r.input != [] && IsTrimmed(r.input)
    ensures r.Handled? ==>
              (r.kind == Dynamic <==> forall i :: 0 <= i < |Types| ==> !Declares(Trim(value), Types[i].1))
    ensures r.Handled? && r.kind == Dynamic ==> r.input == Trim(value)
    ensures r.Handled? && r.kind != Dynamic ==>
              exists i :: 0 <= i < |Types| && Types[i].0 == r.kind && Declares(Trim(value), Types[i].1)
                          && r.input == Trim(Trim(value)[|Types[i].1|..])
  {
    var t := Trim(value);
    TrimEmpty(value);
    if t == [] then ImplicitTrue
    else match MatchTypeFrom(t, 0)
      case None => Handled(Dynamic, t, key)
      case Some(i) =>
        TypedRestSolid(t, |Types[i].1|);
        ExplicitNeverDynamic(i);
        Handled(Types[i].0, Trim(t[|Types[i].1|..]), key)
  }

  /** A trimmed text keeps something after any proper prefix. */
  lemma TypedRestSolid(t: string, n: nat)
    requires IsTrimmed(t) && n < |t|
    ensures Trim(t[n..]) != []
  {
    var rest := t[n..];
    assert rest[|rest| - 1] == t[|t| - 1];
    TrimEmpty(rest);
  }

  /** A text that declares symbol `i` goes to that symbol's handler, with
      exactly the symbol's length cut from the front and the rest trimmed. */
  lemma ExplicitType(value: string, key: Option<string>, i: nat)
    requires i < |Types| && Declares(Trim(value), Types[i].1)
    ensures ParseValue(value, key) == Handled(Types[i].0, Trim(Trim(value)[|Types[i].1|..]), key)
  {
    var r := ParseValue(value, key);
    assert !AllSpace(value) by { TrimEmpty(value); }
    assert r.kind != Dynamic;
    var j :| 0 <= j < |Types| && Types[j].0 == r.kind && Declares(Trim(value), Types[j].1)
             && r.input == Trim(Trim(value)[|Types[j].1|..]);
    AtMostOneType(Trim(value), i, j);
  }

  /** A text that is not blank and declares no symbol goes whole, trimmed,
      to the Dynamic handler. */
  lemma Untyped(value: string, key: Option<string>)
    requires !AllSpace(value)
    requires forall i :: 0 <= i < |Types| ==> !Declares(Trim(value), Types[i].1)
    ensures ParseValue(value, key) == Handled(Dynamic, Trim(value), key)
  {
  }

  /** No explicit type ever selects the Dynamic handler. */
  lemma ExplicitNeverDynamic(i: nat)
    requires i < |Types|
    ensures Types[i].0 != Dynamic
  {
    assert i == 0 || i == 1 || i == 2 || i == 3 || i == 4 || i == 5;
  }

  /** A symbol with no whitespace after it is untyped. */
  lemma BareSymbolUntyped()
    ensures ParseValue("integer", None) == Handled(Dynamic, "integer", None)
  {
    NoSymbol("integer");
    assert [] + "integer" + [] == "integer";
    UntypedPadded([], "integer", [], None);
  }

  /** A symbol glued to its argument is untyped. */
  lemma GluedSymbolUntyped()
    ensures ParseValue("integer42", None) == Handled(Dynamic, "integer42", None)
  {
    NoSymbol("integer42");
    assert [] + "integer42" + [] == "integer42";
    UntypedPadded([], "integer42", [], None);
  }

  /** Symbols are matched case-sensitively: a capitalised one is untyped. */
  lemma CapitalisedSymbolUntyped()
    ensures ParseValue("Integer 5", None) == Handled(Dynamic, "Integer 5", None)
  {
    assert "Integer 5"[..7][0] == 'I';
    NoSymbol("Integer 5");
    assert [] + "Integer 5" + [] == "Integer 5";
    UntypedPadded([], "Integer 5", [], None);
  }

  lemma NoSymbol(t: string)
    requires !Declares(t, "integer") && !Declares(t, "string") && !Declares(t, "float")
    requires !Declares(t, "json") && !Declares(t, "eval") && !Declares(t, "->")
    ensures forall i :: 0 <= i < |Types| ==> !Declares(t, Types[i].1)
  {
    forall i | 0 <= i < |Types|
      ensures !Declares(t, Types[i].1)
    {
      assert i == 0 || i == 1 || i == 2 || i == 3 || i == 4 || i == 5;
    }
  }

  /** An untyped text with any whitespace around it goes to the Dynamic
      handler without that whitespace. */
  lemma UntypedPadded(p: string, t: string, q: string, key: Option<string>)
    requires AllSpace(p) && AllSpace(q)
    requires IsTrimmed(t) && t != []
    requires forall i :: 0 <= i < |Types| ==> !Declares(t, Types[i].1)
    ensures ParseValue(p + t + q, key) == Handled(Dynamic, t, key)
  {
    TrimOfPadded(p, t, q);
    TrimEmpty(p + t + q);
  }

  /** Every symbol starts with a non-whitespace character. */
  lemma SymbolsStartSolid(i: nat)
    requires i < |Types|
    ensures Types[i].1 != [] && !IsSpace(Types[i].1[0])
  {
    assert i == 0 || i == 1 || i == 2 || i == 3 || i == 4 || i == 5;
  }

  /** Writing a symbol, whitespace and an argument, with any whitespace
      around the whole, and parsing it hands exactly that argument to the
      symbol's handler. */
  lemma {:induction false} TypedRoundTrip(i: nat, pre: string, ws: string, arg: string, post: string, key: Option<string>)
    requires i < |Types|
    requires AllSpace(pre) && AllSpace(post)
    requires ws != [] && AllSpace(ws)
    requires arg != [] && IsTrimmed(arg)
    ensures ParseValue(pre + Types[i].1 + ws + arg + post, key) == Handled(Types[i].0, arg, key)
  {
    var sym := Types[i].1;
    var t := sym + ws + arg;
    SymbolsStartSolid(i);
    assert Trim(pre + sym + ws + arg + post) == t by {
      assert pre + sym + ws + arg + post == pre + t + post;
      TrimOfPadded(pre, t, post);
    }
    assert Declares(t, sym) by {
      assert t[..|sym|] == sym;
      assert t[|sym|] == ws[0];
    }
    assert Trim(t[|sym|..]) == arg by {
      assert t[|sym|..] == ws + arg + [];
      TrimOfPadded(ws, arg, []);
    }
    ExplicitType(pre + sym + ws + arg + post, key, i);
  }
}
