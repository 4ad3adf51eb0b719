// The UTF-8 decoder of the JSON library: it reads one form at a time from a
// stream and always consumes as many bytes as the leading byte announces.

module Utf8Decoder {
  import opened Bytes
  import opened JsonScan
  import opened Utf8

  // Byte classes with tail classes 1, 7 and 9 as separate bits.
  function GetRange(c: byte): bv8 {
    if c < 0x80 then 0
    else if c < 0x90 then 0x10
    else if c < 0xA0 then 0x40
    else if c < 0xC0 then 0x20
    else if c < 0xC2 then 8
    else if c < 0xE0 then 2
    else if c == 0xE0 then 10
    else if c == 0xED then 4
    else if c < 0xF0 then 3
    else if c == 0xF0 then 11
    else if c < 0xF4 then 6
    else if c == 0xF4 then 5
    else 8
  }

  predicate Trans(c: byte, mask: bv8) { GetRange(c) & mask != 0 }

  // What the masks let through.
  lemma {:induction false} TransRanges(c: byte)
    ensures Trans(c, 0x70) <==> 0x80 <= c < 0xC0
    ensures Trans(c, 0x50) <==> 0x80 <= c < 0xA0
    ensures Trans(c, 0x10) <==> 0x80 <= c < 0x90
    ensures Trans(c, 0x20) <==> 0xA0 <= c < 0xC0
    ensures Trans(c, 0x60) <==> 0x90 <= c < 0xC0
  {
    TailClass(0x10);
    TailClass(0x20);
    TailClass(0x40);
    LeadClass(GetRange(c));
  }

  lemma {:induction false} TailClass(r: bv8)
    requires r == 0x10 || r == 0x20 || r == 0x40
    ensures r & 0x70 != 0 && (r & 0x50 != 0 <==> r != 0x20) && (r & 0x10 != 0 <==> r == 0x10)
    ensures (r & 0x20 != 0 <==> r == 0x20) && (r & 0x60 != 0 <==> r != 0x10)
  {
  }

  lemma {:induction false} LeadClass(r: bv8)
    ensures r < 0x10 ==> r & 0x70 == 0 && r & 0x50 == 0 && r & 0x10 == 0 && r & 0x20 == 0 && r & 0x60 == 0
  {
  }

  datatype Decoded = Decoded(ok: bool, codepoint: nat, next: nat)

  // How many bytes follow a leading byte, and what the first of them must be.
  function Tails(c: byte): (n: nat)
    ensures n <= 3
  {
    var r := GetRange(c);
    if r == 2 then 1 else if r == 3 || r == 4 || r == 10 then 2 else if r == 5 || r == 6 || r == 11 then 3 else 0
  }

  function FirstMask(c: byte): bv8 {
    var r := GetRange(c);
    if r == 4 then 0x50 else if r == 5 then 0x10 else if r == 10 then 0x20 else if r == 11 then 0x60 else 0x70
  }

  // The bytes behind the leading byte: k of them left, the first under a mask of its own.
  function DecodeTails(t: bytes, p: nat, k: nat, mask: bv8, cp: nat, ok: bool): Decoded
    decreases k
  {
    if k == 0 then Decoded(ok, cp, p)
    else DecodeTails(t, p + 1, k - 1, 0x70, cp * 64 + Peek(t, p) % 64, ok && Trans(Peek(t, p), mask))
  }

  function DecodeAt(t: bytes, p: nat): Decoded {
    var c := Peek(t, p);
    if c < 0x80 then Decoded(true, c, p + 1)
    else if Tails(c) == 0 then Decoded(false, LeadBits(Class(c), c), p + 1)
    else DecodeTails(t, p + 1, Tails(c), FirstMask(c), LeadBits(Class(c), c), true)
  }

  // The n bytes from p on, where NULs follow the text.
  function Span(t: bytes, p: nat, n: nat): (s: bytes)
    ensures |s| == n
  {
    if n == 0 then [] else Span(t, p, n - 1) + [Peek(t, p + n - 1)]
  }

  lemma {:induction false} SpanAt(t: bytes, p: nat, n: nat, i: nat)
    requires i < n
    ensures Span(t, p, n)[i] == Peek(t, p + i)
    decreases n
  {
    if i < n - 1 { SpanAt(t, p, n - 1, i); }
  }

  // The input and the output stream that a decoder works on.
  class Streams {
    const text: bytes
    var pos: nat
    var out: bytes

    constructor (text: bytes)
      ensures this.text == text && pos == 0 && out == []
    {
      this.text, pos, out := text, 0, [];
    }

    method Take() returns (c: byte)
      modifies this`pos
      ensures c == Peek(text, old(pos)) && pos == old(pos) + 1
    {
      c := Peek(text, pos);
      pos := pos + 1;
    }

    method Copy() returns (c: byte)
      modifies this
      ensures c == Peek(text, old(pos)) && pos == old(pos) + 1 && out == old(out) + [c]
    {
      c := Take();
      out := out + [c];
    }

    // Plain tail bytes, each adding six bits to the code point.
    method TakeTails(n: nat, ok0: bool, cp0: nat) returns (ok: bool, codepoint: nat)
      modifies this`pos
      ensures Decoded(ok, codepoint, pos) == DecodeTails(text, old(pos), n, 0x70, cp0, ok0)
    {
      hide Trans;
      ok, codepoint := ok0, cp0;
      var left := n;
      while left > 0
        invariant DecodeTails(text, pos, left, 0x70, codepoint, ok) == DecodeTails(text, old(pos), n, 0x70, cp0, ok0)
      {
        var d := Take();
        codepoint := codepoint * 64 + d % 64;
        ok := ok && Trans(d, 0x70);
        left := left - 1;
      }
    }

    // A tail byte with a mask of its own, and n plain ones.
    method TakeMasked(mask: bv8, n: nat, cp0: nat) returns (ok: bool, codepoint: nat)
      modifies this`pos
      ensures Decoded(ok, codepoint, pos) == DecodeTails(text, old(pos), n + 1, mask, cp0, true)
    {
      hide Trans;
      var d := Take();
      ok, codepoint := TakeTails(n, Trans(d, mask), cp0 * 64 + d % 64);
    }

    method Decode() returns (ok: bool, codepoint: nat)
      modifies this`pos
      ensures Decoded(ok, codepoint, pos) == DecodeAt(text, old(pos))
    {
      hide DecodeTails;
      var c := Take();
      if c < 0x80 {
        return true, c;
      }
      codepoint := LeadBits(Class(c), c);
      var kind := GetRange(c);
      if kind == 2 {
        ok, codepoint := TakeTails(1, true, codepoint);
      } else if kind == 3 {
        ok, codepoint := TakeTails(2, true, codepoint);
      } else if kind == 4 {
        ok, codepoint := TakeMasked(0x50, 1, codepoint);
      } else if kind == 5 {
        ok, codepoint := TakeMasked(0x10, 2, codepoint);
      } else if kind == 6 {
        ok, codepoint := TakeTails(3, true, codepoint);
      } else if kind == 10 {
        ok, codepoint := TakeMasked(0x20, 1, codepoint);
      } else if kind == 11 {
        ok, codepoint := TakeMasked(0x60, 2, codepoint);
      } else {
        ok := false;
      }
    }

    method CopyTails(n: nat, ok0: bool, ghost cp0: nat) returns (ok: bool)
      modifies this
      ensures ok == DecodeTails(text, old(pos), n, 0x70, cp0, ok0).ok
      ensures pos == old(pos) + n && out == old(out) + Span(text, old(pos), n)
    {
      hide Trans;
      ok := ok0;
      ghost var cp: nat := cp0;
      var left := n;
      while left > 0
        invariant 0 <= left <= n && pos == old(pos) + (n - left)
        invariant DecodeTails(text, pos, left, 0x70, cp, ok).ok == DecodeTails(text, old(pos), n, 0x70, cp0, ok0).ok
        invariant out == old(out) + Span(text, old(pos), n - left)
      {
        var d := Copy();
        cp := cp * 64 + d % 64;
        ok := ok && Trans(d, 0x70);
        left := left - 1;
      }
    }

    method CopyMasked(mask: bv8, n: nat, ghost cp0: nat) returns (ok: bool)
      modifies this
      ensures ok == DecodeTails(text, old(pos), n + 1, mask, cp0, true).ok
      ensures pos == old(pos) + n + 1 && out == old(out) + Span(text, old(pos), n + 1)
    {
      hide Trans;
      var d := Copy();
      ok := CopyTails(n, Trans(d, mask), cp0 * 64 + d % 64);
      SpanFirst(text, old(pos), n);
    }

    // The same verdict, with the consumed bytes copied to the output.
    method Validate() returns (ok: bool)
      modifies this
      ensures ok == DecodeAt(text, old(pos)).ok && pos == DecodeAt(text, old(pos)).next
      ensures pos > old(pos) && out == old(out) + Span(text, old(pos), pos - old(pos))
    {
      hide DecodeTails, Span;
      var c := Copy();
      ghost var cp: nat := LeadBits(Class(c), c);
      TailsNext(text, pos, Tails(c), FirstMask(c), cp, true);
      SpanFirst(text, old(pos), Tails(c));
      SpanFirst(text, old(pos), 0);
      if c < 0x80 {
        return true;
      }
      var kind := GetRange(c);
      if kind == 2 {
        ok := CopyTails(1, true, cp);
      } else if kind == 3 {
        ok := CopyTails(2, true, cp);
      } else if kind == 4 {
        ok := CopyMasked(0x50, 1, cp);
      } else if kind == 5 {
        ok := CopyMasked(0x10, 2, cp);
      } else if kind == 6 {
        ok := CopyTails(3, true, cp);
      } else if kind == 10 {
        ok := CopyMasked(0x20, 1, cp);
      } else if kind == 11 {
        ok := CopyMasked(0x60, 2, cp);
      } else {
        ok := false;
      }
    }
  }

  lemma {:induction false} SpanFirst(t: bytes, p: nat, n: nat)
    ensures Span(t, p, n + 1) == [Peek(t, p)] + Span(t, p + 1, n)
    ensures n == 0 ==> Span(t, p, 1) == [Peek(t, p)]
    decreases n
  {
    hide Peek;
    if n > 0 {
      SpanFirst(t, p, n - 1);
      assert Span(t, p, n + 1) == Span(t, p, n) + [Peek(t, p + n)];
      assert Span(t, p + 1, n) == Span(t, p + 1, n - 1) + [Peek(t, p + n)];
    } else {
      assert Span(t, p, 0) == [];
    }
  }

  /* The decoder inverts the encoder */

  // The form of cp stands at p.
  predicate StandsAt(t: bytes, p: nat, cp: nat)
    requires IsScalar(cp)
  {
    Span(t, p, |Utf8Encode(cp)|) == Utf8Encode(cp)
  }

  // One tail byte that the mask lets through.
  lemma {:induction false} TailGoes(t: bytes, p: nat, k: nat, mask: bv8, cp: nat, x: nat)
    requires x < 64 && Peek(t, p) == 0x80 + x && Trans(0x80 + x, mask)
    ensures DecodeTails(t, p, k + 1, mask, cp, true) == DecodeTails(t, p + 1, k, 0x70, cp * 64 + x, true)
  {
  }

  lemma {:induction false} DecodeThree(t: bytes, p: nat, a: nat, b: nat, c: nat)
    requires a < 16 && b < 64 && c < 64 && (a == 0 ==> b >= 32) && (a == 13 ==> b < 32)
    requires Peek(t, p) == 0xE0 + a && Peek(t, p + 1) == 0x80 + b && Peek(t, p + 2) == 0x80 + c
    ensures DecodeAt(t, p) == Decoded(true, a * 4096 + b * 64 + c, p + 3)
  {
    hide Trans, DecodeTails;
    TransRanges(0x80 + b);
    TransRanges(0x80 + c);
    LeadThree(a);
    TailGoes(t, p + 1, 1, FirstMask(0xE0 + a), a, b);
    TailGoes(t, p + 2, 0, 0x70, a * 64 + b, c);
    TailsEnd(t, p + 3, a * 4096 + b * 64 + c);
  }

  lemma {:induction false} LeadThree(a: nat)
    requires a < 16
    ensures LeadBits(Class(0xE0 + a), 0xE0 + a) == a && Tails(0xE0 + a) == 2
    ensures FirstMask(0xE0 + a) == if a == 0 then 0x20 else if a == 13 then 0x50 else 0x70
  {
  }

  lemma {:induction false} LeadFour(a: nat)
    requires a <= 4
    ensures LeadBits(Class(0xF0 + a), 0xF0 + a) == a && Tails(0xF0 + a) == 3
    ensures FirstMask(0xF0 + a) == if a == 0 then 0x60 else if a == 4 then 0x10 else 0x70
  {
  }

  lemma {:induction false} TailsEnd(t: bytes, p: nat, cp: nat)
    ensures DecodeTails(t, p, 0, 0x70, cp, true) == Decoded(true, cp, p)
  {
  }

  lemma {:induction false} DecodeFour(t: bytes, p: nat, a: nat, b: nat, c: nat, e: nat)
    requires a <= 4 && b < 64 && c < 64 && e < 64 && (a == 0 ==> b >= 16) && (a == 4 ==> b < 16)
    requires Peek(t, p) == 0xF0 + a && Peek(t, p + 1) == 0x80 + b && Peek(t, p + 2) == 0x80 + c
    requires Peek(t, p + 3) == 0x80 + e
    ensures DecodeAt(t, p) == Decoded(true, a * 0x40000 + b * 4096 + c * 64 + e, p + 4)
  {
    hide Trans, DecodeTails;
    TransRanges(0x80 + b);
    TransRanges(0x80 + c);
    TransRanges(0x80 + e);
    LeadFour(a);
    TailGoes(t, p + 1, 2, FirstMask(0xF0 + a), a, b);
    TailGoes(t, p + 2, 1, 0x70, a * 64 + b, c);
    TailGoes(t, p + 3, 0, 0x70, a * 4096 + b * 64 + c, e);
    TailsEnd(t, p + 4, a * 0x40000 + b * 4096 + c * 64 + e);
  }

  lemma {:induction false} DecodeTwo(t: bytes, p: nat, a: nat, b: nat)
    requires 2 <= a < 32 && b < 64 && Peek(t, p) == 0xC0 + a && Peek(t, p + 1) == 0x80 + b
    ensures DecodeAt(t, p) == Decoded(true, a * 64 + b, p + 2)
  {
    hide Trans;
    TransRanges(0x80 + b);
    assert DecodeTails(t, p + 2, 0, 0x70, a * 64 + b, true) == Decoded(true, a * 64 + b, p + 2);
    assert DecodeTails(t, p + 1, 1, 0x70, a, true) == Decoded(true, a * 64 + b, p + 2);
  }

  // A form that stands in the text is decoded to its code point and consumed whole.
  lemma {:induction false} DecodeInverts(t: bytes, p: nat, cp: nat)
    requires IsScalar(cp) && StandsAt(t, p, cp)
    ensures DecodeAt(t, p) == Decoded(true, cp, p + |Utf8Encode(cp)|)
  {
    hide DecodeAt, Span;
    var e := Utf8Encode(cp);
    SpanAt(t, p, |e|, 0);
    if |e| > 1 { SpanAt(t, p, |e|, 1); }
    if |e| > 2 { SpanAt(t, p, |e|, 2); }
    if |e| > 3 { SpanAt(t, p, |e|, 3); }
    if cp <= 0x7F {
      DecodeOne(t, p);
    } else if cp <= 0x7FF {
      DecodeTwo(t, p, cp / 64, cp % 64);
    } else if cp <= 0xFFFF {
      ThreeParts(cp);
      DecodeThree(t, p, cp / 4096, cp / 64 % 64, cp % 64);
    } else {
      FourParts(cp);
      DecodeFour(t, p, cp / 0x40000, cp / 4096 % 64, cp / 64 % 64, cp % 64);
    }
  }

  lemma {:induction false} DecodeOne(t: bytes, p: nat)
    requires Peek(t, p) < 0x80
    ensures DecodeAt(t, p) == Decoded(true, Peek(t, p), p + 1)
  {
  }

  predicate TailAt(t: bytes, p: nat) { 0x80 <= Peek(t, p) < 0xC0 }

  // What the bytes of a decoded form are.
  lemma {:induction false} TailsOk(t: bytes, p: nat, k: nat, mask: bv8, cp: nat, ok: bool)
    requires k > 0 && DecodeTails(t, p, k, mask, cp, ok).ok
    ensures ok && Trans(Peek(t, p), mask)
    ensures forall q :: p < q < p + k ==> TailAt(t, q)
    decreases k
  {
    hide Trans;
    if k > 1 {
      TailsOk(t, p + 1, k - 1, 0x70, cp * 64 + Peek(t, p) % 64, ok && Trans(Peek(t, p), mask));
      TransRanges(Peek(t, p + 1));
      assert TailAt(t, p + 1);
    }
  }

  // Whatever is decoded without complaint is the form of a scalar value.
  lemma {:induction false} DecodedStands(t: bytes, p: nat) returns (cp: nat)
    requires DecodeAt(t, p).ok
    ensures IsScalar(cp) && StandsAt(t, p, cp)
  {
    hide Trans, DecodeTails, Utf8Encode;
    var c := Peek(t, p);
    if c < 0x80 {
      cp := c;
      OneForm(c);
      assert Span(t, p, 1) == Span(t, p, 0) + [c] == [c];
    } else {
      var n := Tails(c);
      TailsOk(t, p + 1, n, FirstMask(c), LeadBits(Class(c), c), true);
      TransRanges(Peek(t, p + 1));
      SpansUnfold(t, p);
      var b := Peek(t, p + 1) - 0x80;
      if n == 1 {
        cp := FromTwo(c - 0xC0, b);
      } else if n == 2 {
        assert TailAt(t, p + 2);
        cp := FromThree(c - 0xE0, b, Peek(t, p + 2) - 0x80);
      } else {
        assert TailAt(t, p + 2) && TailAt(t, p + 3);
        cp := FromFour(c - 0xF0, b, Peek(t, p + 2) - 0x80, Peek(t, p + 3) - 0x80);
      }
    }
  }

  lemma {:induction false} SpansUnfold(t: bytes, p: nat)
    ensures Span(t, p, 2) == [Peek(t, p), Peek(t, p + 1)]
    ensures Span(t, p, 3) == [Peek(t, p), Peek(t, p + 1), Peek(t, p + 2)]
    ensures Span(t, p, 4) == [Peek(t, p), Peek(t, p + 1), Peek(t, p + 2), Peek(t, p + 3)]
  {
    hide Peek;
    assert Span(t, p, 0) == [];
    assert Span(t, p, 1) == [Peek(t, p)];
    assert Span(t, p, 2) == [Peek(t, p)] + [Peek(t, p + 1)];
    assert Span(t, p, 3) == [Peek(t, p), Peek(t, p + 1)] + [Peek(t, p + 2)];
    assert Span(t, p, 4) == [Peek(t, p), Peek(t, p + 1), Peek(t, p + 2)] + [Peek(t, p + 3)];
  }

  // A call succeeds exactly when a form stands at the cursor, and then yields it.
  lemma {:induction false} DecodesExactly(t: bytes, p: nat)
    ensures DecodeAt(t, p).ok <==> exists cp :: IsScalar(cp) && StandsAt(t, p, cp)
    ensures DecodeAt(t, p).ok ==>
              var cp := DecodeAt(t, p).codepoint;
              IsScalar(cp) && StandsAt(t, p, cp) && DecodeAt(t, p).next == p + |Utf8Encode(cp)|
  {
    hide DecodeAt, StandsAt, Utf8Encode;
    if DecodeAt(t, p).ok {
      var cp := DecodedStands(t, p);
      DecodeInverts(t, p, cp);
    }
    if exists cp :: IsScalar(cp) && StandsAt(t, p, cp) {
      var cp :| IsScalar(cp) && StandsAt(t, p, cp);
      DecodeInverts(t, p, cp);
    }
  }

  /* Whole texts */

  // The code points that repeated calls yield; None when one of them fails.
  datatype Text = Broken | Whole(cps: seq<nat>)

  function DecodeFrom(t: bytes, p: nat): Text
    decreases Left(t, p)
  {
    if p >= |t| then Whole([])
    else
      var d := DecodeAt(t, p);
      if !d.ok then Broken
      else
        DecodedNext(t, p);
        match DecodeFrom(t, d.next)
        case Broken => Broken
        case Whole(cps) => Whole([d.codepoint] + cps)
  }

  lemma {:induction false} DecodedNext(t: bytes, p: nat)
    ensures DecodeAt(t, p).next > p
  {
    TailsNext(t, p + 1, Tails(Peek(t, p)), FirstMask(Peek(t, p)), LeadBits(Class(Peek(t, p)), Peek(t, p)), true);
  }

  lemma {:induction false} TailsNext(t: bytes, p: nat, k: nat, mask: bv8, cp: nat, ok: bool)
    ensures DecodeTails(t, p, k, mask, cp, ok).next == p + k
    decreases k
  {
    hide Trans;
    if k > 0 { TailsNext(t, p + 1, k - 1, 0x70, cp * 64 + Peek(t, p) % 64, ok && Trans(Peek(t, p), mask)); }
  }

  // Along the whole text of any scalar values, NULs among them, decoding undoes
  // encoding value by value.
  lemma {:induction false} FormInFront(t: bytes, p: nat, e: bytes, rest: bytes)
    requires p <= |t| && t[p..] == e + rest
    ensures p + |e| <= |t| && t[p..p + |e|] == e && t[p + |e|..] == rest
  {
    assert t[p..p + |e|] == t[p..][..|e|];
    assert t[p + |e|..] == t[p..][|e|..];
  }

  // The first code point of a text, and the text behind it.
  lemma {:induction false} FirstDecodes(t: bytes, p: nat, cps: seq<nat>) returns (q: nat)
    requires AllScalars(cps) && cps != [] && p <= |t| && t[p..] == EncodeAll(cps)
    ensures p < q <= |t| && DecodeAt(t, p) == Decoded(true, cps[0], q)
    ensures AllScalars(cps[1..]) && t[q..] == EncodeAll(cps[1..])
  {
    hide DecodeAt, Utf8Encode;
    assert cps[0] in cps && forall x <- cps[1..] :: x in cps;
    var e := Utf8Encode(cps[0]);
    q := p + |e|;
    EncodedIsNotEmpty(cps[0]);
    FormInFront(t, p, e, EncodeAll(cps[1..]));
    SpanInside(t, p, |e|);
    DecodeInverts(t, p, cps[0]);
  }

  lemma {:induction false} DecodeFromInverts(t: bytes, p: nat, cps: seq<nat>)
    requires AllScalars(cps) && p <= |t| && t[p..] == EncodeAll(cps)
    ensures DecodeFrom(t, p) == Whole(cps)
    decreases |cps|
  {
    hide DecodeAt, AllScalars;
    if cps == [] {
      assert p == |t|;
    } else {
      var q := FirstDecodes(t, p, cps);
      DecodeFromInverts(t, q, cps[1..]);
      assert [cps[0]] + cps[1..] == cps;
    }
  }

  lemma {:induction false} DecodedIsEncoded(t: bytes, p: nat)
    requires p <= |t| && DecodeFrom(t, p).Whole?
    ensures var cps := DecodeFrom(t, p).cps; AllScalars(cps) && t[p..] == EncodeAll(cps)
    decreases |t| - p
  {
    hide DecodeAt, Utf8Encode, StandsAt;
    if p < |t| {
      var d := DecodeAt(t, p);
      DecodesExactly(t, p);
      var e := Utf8Encode(d.codepoint);
      EncodedIsNotEmpty(d.codepoint);
      StandsInside(t, p, d.codepoint);
      DecodedIsEncoded(t, d.next);
      var rest := DecodeFrom(t, d.next).cps;
      assert DecodeFrom(t, p).cps == [d.codepoint] + rest && ([d.codepoint] + rest)[1..] == rest;
      assert t[p..] == t[p..p + |e|] + t[p + |e|..];
    }
  }

  // A form that starts inside the text ends inside it: NULs do not go on with a form.
  lemma {:induction false} StandsInside(t: bytes, p: nat, cp: nat)
    requires p < |t| && IsScalar(cp) && StandsAt(t, p, cp)
    ensures p + |Utf8Encode(cp)| <= |t| && t[p..p + |Utf8Encode(cp)|] == Utf8Encode(cp)
  {
    hide Span;
    var e := Utf8Encode(cp);
    SpanAt(t, p, |e|, |e| - 1);
    assert |e| > 1 ==> e[|e| - 1] >= 0x80;
    SpanInside(t, p, |e|);
  }

  lemma {:induction false} SpanInside(t: bytes, p: nat, n: nat)
    requires p + n <= |t|
    ensures Span(t, p, n) == t[p..p + n]
    decreases n
  {
    if n > 0 { SpanInside(t, p, n - 1); }
  }

  // The two readers of UTF-8 agree on every text, and on what it says.
  lemma {:induction false} DecoderAgreesWithAutomaton(t: bytes)
    ensures DecodeFrom(t, 0).Whole? <==> Accepts(t)
    ensures Accepts(t) ==> AllScalars(DecodeFrom(t, 0).cps) && EncodeAll(DecodeFrom(t, 0).cps) == t
  {
    hide DecodeFrom, Accepts, EncodeAll;
    assert t[0..] == t;
    AcceptsExactly(t);
    if Accepts(t) {
      var cps :| AllScalars(cps) && EncodeAll(cps) == t;
      DecodeFromInverts(t, 0, cps);
    }
    if DecodeFrom(t, 0).Whole? {
      DecodedIsEncoded(t, 0);
    }
  }
}
