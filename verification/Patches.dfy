// A stretch of an array overwritten, as a copy in memory does it.

module Patches {
  // The slots from pos on hold src, the others what they held.
  function Patch<T>(b: seq<T>, pos: nat, src: seq<T>): (c: seq<T>)
    requires pos + |src| <= |b|
    ensures |c| == |b|
  {
    b[..pos] + src + b[pos + |src|..]
  }

  lemma {:induction false} PatchNothing<T>(b: seq<T>, pos: nat)
    requires pos <= |b|
    ensures Patch(b, pos, []) == b
  {
    assert b[..pos] + [] + b[pos..] == b;
  }

  lemma {:induction false} PatchNext<T>(b: seq<T>, pos: nat, src: seq<T>, i: nat)
    requires pos + |src| <= |b| && i < |src|
    ensures Patch(b, pos, src[..i + 1]) == Patch(b, pos, src[..i])[pos + i := src[i]]
  {
  }

  // What lies behind stays.
  lemma {:induction false} PatchBehind<T>(b: seq<T>, pos: nat, src: seq<T>, hi: nat)
    requires pos + |src| <= hi <= |b|
    ensures Patch(b, pos, src)[pos + |src|..hi] == b[pos + |src|..hi]
  {
  }
}
