/** Generic facts about sequences that the models of splitting, scanning and
    folding share. Keeping sequence algebra in these small lemmas keeps the
    proofs that use it cheap. */
module Sequences {

  function Last<T>(s: seq<T>): T
    requires |s| > 0
  {
    s[|s| - 1]
  }

  function DropLast<T>(s: seq<T>): seq<T>
    requires |s| > 0
  {
    s[..|s| - 1]
  }

  lemma {:induction false} ConcatHead<T>(xs: seq<T>, ys: seq<T>)
    requires |xs| > 0
    ensures (xs + ys)[0] == xs[0] && (xs + ys)[1..] == xs[1..] + ys
  {
  }

  lemma {:induction false} ConsAppend<T>(xs: seq<T>, ys: seq<T>)
    requires |xs| > 0
    ensures [xs[0]] + (xs[1..] + ys) == xs + ys
  {
  }

  lemma {:induction false} ConcatAssoc<T>(a: seq<T>, b: seq<T>, c: seq<T>)
    ensures (a + b) + c == a + (b + c)
  {
  }

  lemma {:induction false} AppendEmpty<T>(xs: seq<T>)
    ensures xs + [] == xs && [] + xs == xs
  {
  }
}
