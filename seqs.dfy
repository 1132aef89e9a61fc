/** Facts about sequence concatenation, proved once away from any
    particular element type. */
module Seqs {

  lemma ConsSplit<T>(a: seq<T>, b: seq<T>)
    requires a != []
    ensures (a + b)[0] == a[0] && (a + b)[1..] == a[1..] + b
  {
  }

  lemma AppendAssoc<T>(x: seq<T>, y: seq<T>, z: seq<T>)
    ensures x + (y + z) == (x + y) + z
  {
  }

  lemma EmptyAppend<T>(b: seq<T>)
    ensures [] + b == b
  {
  }

  lemma AppendEmpty<T>(a: seq<T>)
    ensures a + [] == a
  {
  }

  lemma SnocSplit<T>(a: seq<T>, b: seq<T>, n: nat)
    requires n < |b|
    ensures (a + b)[..|a| + n] == a + b[..n] && (a + b)[|a| + n] == b[n]
  {
  }
}
