// Byte strings and the zero-terminated input stream that every parser of the
// repository reads from.

module Bytes {
  type byte = x: int | 0 <= x < 256
  type bytes = seq<byte>

  const NUL: byte := 0
  const TAB: byte := 9
  const LF: byte := 10
  const CR: byte := 13
  const SPACE: byte := 32
  const QUOTE: byte := 34
  const PLUS: byte := 43
  const COMMA: byte := 44
  const MINUS: byte := 45
  const DOT: byte := 46
  const SLASH: byte := 47
  const ZERO: byte := 48
  const NINE: byte := 57
  const COLON: byte := 58
  const LBRACKET: byte := 91
  const BACKSLASH: byte := 92
  const RBRACKET: byte := 93
  const LBRACE: byte := 123
  const RBRACE: byte := 125

  // The byte under the cursor. Behind the last byte the terminator is read.
  function Peek(t: bytes, p: nat): byte {
    if p < |t| then t[p] else NUL
  }

  // Termination measure of a scan that has reached position p.
  function Left(t: bytes, p: nat): nat {
    if p < |t| then |t| - p else 0
  }

  predicate IsDigit(c: byte) { ZERO <= c <= NINE }

  // The first position at or behind p that holds no digit.
  function DigitsEnd(t: bytes, p: nat): (e: nat)
    ensures p <= e && (p <= |t| ==> e <= |t|)
    ensures !IsDigit(Peek(t, e))
    ensures forall k :: p <= k < e ==> IsDigit(Peek(t, k))
    decreases Left(t, p)
  {
    if IsDigit(Peek(t, p)) then DigitsEnd(t, p + 1) else p
  }

  // The number written by the digits at positions p..q.
  function Decimal(t: bytes, p: nat, q: nat): nat
    requires p <= q
    requires forall k :: p <= k < q ==> IsDigit(Peek(t, k))
    decreases q
  {
    if q == p then 0
    else assert IsDigit(Peek(t, q - 1)); Decimal(t, p, q - 1) * 10 + (Peek(t, q - 1) - ZERO)
  }

  // Scanning from inside a run of digits ends where the whole run ends.
  lemma {:induction false} DigitsEndSkip(t: bytes, p: nat, q: nat)
    requires p <= q
    requires forall k :: p <= k < q ==> IsDigit(Peek(t, k))
    ensures DigitsEnd(t, p) == DigitsEnd(t, q)
    decreases q - p
  {
    if p < q {
      DigitsEndSkip(t, p + 1, q);
    }
  }

  lemma {:induction false} DecimalGrows(t: bytes, p: nat, q: nat, r: nat)
    requires p <= q <= r
    requires forall k :: p <= k < r ==> IsDigit(Peek(t, k))
    ensures Decimal(t, p, q) <= Decimal(t, p, r)
    decreases r
  {
    if q < r {
      DecimalGrows(t, p, q, r - 1);
      assert IsDigit(Peek(t, r - 1));
    }
  }

  // The text s stands at position p of t.
  predicate At(t: bytes, p: nat, s: bytes) {
    p + |s| <= |t| && t[p..p + |s|] == s
  }

  lemma {:induction false} AtSplit(t: bytes, p: nat, a: bytes, b: bytes)
    requires At(t, p, a + b)
    ensures At(t, p, a) && At(t, p + |a|, b)
  {
    assert t[p..p + |a + b|][..|a|] == a;
    assert t[p..p + |a|] == t[p..p + |a + b|][..|a|];
    assert t[p + |a|..p + |a + b|] == t[p..p + |a + b|][|a|..];
  }

  lemma {:induction false} AtIndex(t: bytes, p: nat, s: bytes, i: nat)
    requires At(t, p, s) && i < |s|
    ensures Peek(t, p + i) == s[i]
  {
    assert t[p..p + |s|][i] == t[p + i];
  }
}
