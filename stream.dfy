/** Streams as finite sequences of what the transport yields. */
module Stream {

  /** The part of `s` before the first `stop` (all of `s` when there is
      none): what a `for await` loop consumes before the iterator throws. */
  function Before<T(==)>(s: seq<T>, stop: T): (r: seq<T>)
    ensures |r| <= |s| && r == s[..|r|]
    ensures stop !in r
    ensures |r| < |s| ==> s[|r|] == stop
  {
    if s == [] || s[0] == stop then []
    else [s[0]] + Before(s[1..], stop)
  }

  /** The part before the first `stop` ends where `stop` first occurs. */
  lemma BeforeAt<T>(s: seq<T>, stop: T, j: nat)
    requires j <= |s| && stop !in s[..j]
    requires j == |s| || s[j] == stop
    ensures Before(s, stop) == s[..j]
  {
    var r := Before(s, stop);
    assert forall i :: 0 <= i < j ==> s[i] == s[..j][i] && s[i] in s[..j];
    assert forall i :: 0 <= i < |r| ==> r[i] in r;
  }

  /** A prefix free of `stop` grows by one element other than `stop`. */
  lemma NotInStep<T>(s: seq<T>, stop: T, j: nat)
    requires j < |s| && stop !in s[..j] && s[j] != stop
    ensures stop !in s[..j + 1]
  {
    assert s[..j + 1] == s[..j] + [s[j]];
  }
}
