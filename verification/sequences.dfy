/** Regrouping facts about sequences that the solver does not find on
    its own, shared by the stripper, the aggregator and the examples. */
module Sequences {

  lemma HeadRest<T>(x: T, xs: seq<T>)
    ensures ([x] + xs)[0] == x && ([x] + xs)[1..] == xs
  {
  }

  lemma ConsAppend<T>(l: seq<T>, x: seq<T>)
    requires l != []
    ensures [l[0]] + (l[1..] + x) == l + x
  {
    assert [l[0]] + l[1..] == l;
  }

  lemma Regroup4<T>(a: seq<T>, b: seq<T>, c: seq<T>, d: seq<T>)
    ensures a + b + c + d == a + (b + (c + d))
  {
  }

  lemma SeqOfThree<T>(f: seq<T>, a: T, b: T, c: T)
    requires |f| == 3 && f[0] == a && f[1] == b && f[2] == c
    ensures f == [a, b, c]
  {
  }
}
