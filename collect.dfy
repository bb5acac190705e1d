/** The capped collection loop the commands run over an API stream: push
    the next item, then stop once `length >= limit`. Because the test comes
    after the push, at least one item is kept whatever the limit. Streams
    are finite sequences; the pages the client fetches behind them are not
    modelled. */
module Collect {

  /** How many items the loop keeps at most: `limit`, but never fewer than one. */
  function Cap(limit: int): (c: nat)
    ensures c >= 1
    ensures limit >= 1 ==> c == limit
    ensures limit < 1 ==> c == 1
  {
    if limit >= 1 then limit else 1
  }

  function Min(a: nat, b: nat): nat {
    if a <= b then a else b
  }

  /** The first `n` items of `s`, or all of them when there are fewer. */
  function Take<T>(s: seq<T>, n: nat): (r: seq<T>)
    ensures |r| == Min(|s|, n)
    ensures r == s[..|r|]
  {
    s[..Min(|s|, n)]
  }

  /** Taking at least one item from a stream leaves nothing only when the stream is empty. */
  lemma TakeEmpty<T>(s: seq<T>, n: nat)
    requires n >= 1
    ensures Take(s, n) == [] <==> s == []
  {
    if s != [] {
      assert |Take(s, n)| >= 1;
    }
  }

  /** Once `n` items are in hand, what follows is cut off. */
  lemma TakeFull<T>(s: seq<T>, t: seq<T>, n: nat)
    requires |s| == n
    ensures Take(s + t, n) == s
  {
    assert (s + t)[..n] == s;
  }

  /** Fewer than `n` items are all kept. */
  lemma TakeShort<T>(s: seq<T>, n: nat)
    requires |s| < n
    ensures Take(s, n) == s
  {
  }

  /** `for await (const x of stream) { got.push(x); if (got.length >= limit) break; }` */
  method CollectUpTo<T>(stream: seq<T>, limit: int) returns (got: seq<T>)
    ensures got == Take(stream, Cap(limit))
  {
    got := [];
    var i := 0;
    while i < |stream|
      invariant 0 <= i <= |stream|
      invariant got == stream[..i]
      invariant i < Cap(limit)
    {
      got := got + [stream[i]];
      i := i + 1;
      if |got| >= limit {
        return;
      }
    }
  }
}
