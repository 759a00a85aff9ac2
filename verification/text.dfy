/** Characters and the trimming of text.

    The parser uses two notions of whitespace: PCRE's `\s` inside its
    regular expressions and PHP's `trim`. This model uses one predicate for
    both, the `\s` class of PCRE without UTF mode. */
module Text {

  /** Space, horizontal tab, line feed, vertical tab, form feed, carriage return. */
  predicate IsSpace(c: char) {
    c == ' ' || c == '\t' || c == '\n' || c == '\U{000B}' || c == '\U{000C}' || c == '\r'
  }

  predicate AllSpace(s: string) {
    forall i :: 0 <= i < |s| ==> IsSpace(s[i])
  }

  /** Neither end of `s` is whitespace. */
  predicate IsTrimmed(s: string) {
    s == [] || (!IsSpace(s[0]) && !IsSpace(s[|s| - 1]))
  }

  /** `s` with its leading whitespace removed. */
  function TrimStart(s: string): (r: string)
    ensures |r| <= |s| && r == s[|s| - |r|..]
    ensures AllSpace(s[..|s| - |r|])
    ensures r == [] || !IsSpace(r[0])
  {
    if |s| > 0 && IsSpace(s[0]) then
      var r := TrimStart(s[1..]);
      assert s[..|s| - |r|] == [s[0]] + s[1..][..|s| - 1 - |r|];
      r
    else
      s
  }

  /** `s` with its trailing whitespace removed. */
  function TrimEnd(s: string): (r: string)
    ensures |r| <= |s| && r == s[..|r|]
    ensures AllSpace(s[|r|..])
    ensures r == [] || !IsSpace(r[|r| - 1])
  {
    if |s| > 0 && IsSpace(s[|s| - 1]) then
      var r := TrimEnd(s[..|s| - 1]);
      assert s[|r|..] == s[..|s| - 1][|r|..] + [s[|s| - 1]];
      r
    else
      s
  }

  /** `r` sits at offset `a` of `s` with nothing but whitespace around it. */
  predicate PaddedAt(s: string, r: string, a: nat) {
    a + |r| <= |s| && s[a..a + |r|] == r && AllSpace(s[..a]) && AllSpace(s[a + |r|..])
  }

  /** PHP's `trim`: the result is the part of `s` between a leading and a
      trailing run of whitespace, and has no whitespace at either end. */
  function Trim(s: string): (r: string)
    ensures IsTrimmed(r)
    ensures exists a :: PaddedAt(s, r, a)
  {
    TrimPadded(s);
    TrimEnd(TrimStart(s))
  }

  lemma TrimPadded(s: string)
    ensures PaddedAt(s, TrimEnd(TrimStart(s)), |s| - |TrimStart(s)|)
  {
    var t := TrimStart(s);
    var r := TrimEnd(t);
    SuffixPrefix(s, |s| - |t|, r);
  }

  /** Slicing a prefix `r` out of the suffix of `s` from `a`. */
  lemma SuffixPrefix(s: string, a: nat, r: string)
    requires a <= |s| && |r| <= |s| - a && r == s[a..][..|r|]
    requires AllSpace(s[..a]) && AllSpace(s[a..][|r|..])
    ensures PaddedAt(s, r, a)
  {
    assert s[a + |r|..] == s[a..][|r|..];
  }

  lemma {:induction false} TrimStartPrefix(p: string, t: string)
    requires AllSpace(p)
    requires t == [] || !IsSpace(t[0])
    ensures TrimStart(p + t) == t
    decreases |p|
  {
    if p != [] {
      assert (p + t)[1..] == p[1..] + t;
      TrimStartPrefix(p[1..], t);
    }
  }

  lemma {:induction false} TrimEndSuffix(t: string, q: string)
    requires AllSpace(q)
    requires t == [] || !IsSpace(t[|t| - 1])
    ensures TrimEnd(t + q) == t
    decreases |q|
  {
    if q != [] {
      assert (t + q)[..|t + q| - 1] == t + q[..|q| - 1];
      TrimEndSuffix(t, q[..|q| - 1]);
    } else {
      assert t + q == t;
    }
  }

  /** The decomposition of a string into leading whitespace, trimmed
      content and trailing whitespace determines `Trim` uniquely. */
  lemma TrimOfPadded(p: string, t: string, q: string)
    requires AllSpace(p) && AllSpace(q) && IsTrimmed(t)
    ensures Trim(p + t + q) == t
  {
    if t == [] && q != [] {
      assert AllSpace(p + t + q);
      TrimEmpty(p + t + q);
    } else {
      assert p + t + q == p + (t + q);
      TrimStartPrefix(p, t + q);
      TrimEndSuffix(t, q);
    }
  }

  /** Trimming is empty exactly on all-whitespace text. */
  lemma TrimEmpty(s: string)
    ensures Trim(s) == [] <==> AllSpace(s)
  {
    if AllSpace(s) {
      TrimStartPrefix(s, []);
      assert s + [] == s;
    }
  }

  /** Trimming trimmed text changes nothing, so trimming is idempotent. */
  lemma TrimIdempotent(s: string)
    ensures Trim(Trim(s)) == Trim(s)
  {
    var t := Trim(s);
    assert [] + t + [] == t;
    TrimOfPadded([], t, []);
  }
}
