// UTF-8 as RFC 3629 defines it, read in two ways: by the table-driven automaton
// that checks incoming text messages piece by piece, and by the decoder of the
// JSON library.

module Utf8 {
  import opened Bytes
  import opened JsonTypes
  import opened JsonScan

  // The code points that have a UTF-8 form: no surrogates (section 3 of RFC 3629).
  predicate IsScalar(cp: nat) { cp <= 0x10FFFF && !(0xD800 <= cp <= 0xDFFF) }

  predicate AllScalars(cps: seq<nat>) { forall cp <- cps :: IsScalar(cp) }

  function EncodeAll(cps: seq<nat>): bytes
    requires AllScalars(cps)
  {
    if cps == [] then [] else assert cps[0] in cps; Utf8Encode(cps[0]) + EncodeAll(cps[1..])
  }

  /* The automaton */

  const ACCEPT: nat := 0
  const REJECT: nat := 1

  // The first half of the table: byte classes.
  function Class(c: byte): (k: nat)
    ensures k < 12
  {
    if c < 0x80 then 0
    else if c < 0x90 then 1
    else if c < 0xA0 then 9
    else if c < 0xC0 then 7
    else if c < 0xC2 then 8
    else if c < 0xE0 then 2
    else if c == 0xE0 then 10
    else if c == 0xED then 4
    else if c < 0xF0 then 3
    else if c == 0xF0 then 11
    else if c < 0xF4 then 6
    else if c == 0xF4 then 5
    else 8
  }

  predicate IsTail(k: nat) { k == 1 || k == 7 || k == 9 }

  // The second half of the table: the row of each state.
  function NextState(state: nat, k: nat): (s: nat)
    requires state < 9 && k < 12
    ensures s < 9
  {
    match state
    case 0 =>
      if k == 0 then 0 else if k == 2 then 2 else if k == 3 then 3 else if k == 4 then 5
      else if k == 5 then 8 else if k == 6 then 7 else if k == 10 then 4 else if k == 11 then 6 else 1
    case 1 => 1
    case 2 => if IsTail(k) then 0 else 1
    case 3 => if IsTail(k) then 2 else 1
    case 4 => if k == 7 then 2 else 1
    case 5 => if k == 1 || k == 9 then 2 else 1
    case 6 => if k == 7 || k == 9 then 3 else 1
    case 7 => if IsTail(k) then 3 else 1
    case _ => if k == 1 then 3 else 1
  }

  // The bits of a leading byte that are kept: (0xff >> k) & c.
  function LeadBits(k: nat, c: byte): nat
    requires k < 12
  {
    match k
    case 0 => c
    case 1 => c % 128
    case 2 => c % 64
    case 3 => c % 32
    case 4 => c % 16
    case 5 => c % 8
    case 6 => c % 4
    case 7 => c % 2
    case _ => 0
  }

  // Shifting left and putting six more bits in: shifted-in bits never carry.
  lemma {:induction false} BitsJoin(cp: bv32, c: bv32)
    ensures (c & 0x3F) | (cp << 6) == (cp << 6) + (c & 0x3F)
    ensures (0x80 as bv32) | (cp & 0x3F) == 0x80 + (cp & 0x3F)
  {
  }

  // Nor do the lead bytes of the forms of two, three and four bytes.
  lemma {:induction false} LeadsJoin(cp: bv32)
    ensures cp <= 0x7FF ==> (0xC0 as bv32) | ((cp >> 6) & 0xFF) == 0xC0 + (cp >> 6)
    ensures cp <= 0xFFFF ==> (0xE0 as bv32) | ((cp >> 12) & 0xFF) == 0xE0 + (cp >> 12)
    ensures cp <= 0x10FFFF ==> (0xF0 as bv32) | ((cp >> 18) & 0xFF) == 0xF0 + (cp >> 18)
  {
  }

  datatype Dfa = Dfa(state: nat, codepoint: nat)

  predicate InTable(d: Dfa) { d.state < 9 }

  function DfaStep(d: Dfa, c: byte): (e: Dfa)
    requires InTable(d)
    ensures InTable(e)
  {
    var k := Class(c);
    Dfa(NextState(d.state, k),
        if d.state != ACCEPT then d.codepoint * 64 % TWO32 + c % 64 else LeadBits(k, c))
  }

  function DfaRun(d: Dfa, s: bytes): (e: Dfa)
    requires InTable(d)
    ensures InTable(e)
    decreases |s|
  {
    if s == [] then d else DfaRun(DfaStep(d, s[0]), s[1..])
  }

  predicate Accepts(s: bytes) { DfaRun(Dfa(ACCEPT, 0), s).state == ACCEPT }

  class Validator {
    var state: nat
    var codepoint: nat

    ghost function Value(): Dfa
      reads this
    {
      Dfa(state, codepoint)
    }

    constructor ()
      ensures Value() == Dfa(ACCEPT, 0)
    {
      state, codepoint := ACCEPT, 0;
    }

    method Consume(c: byte) returns (ok: bool)
      requires InTable(Value())
      modifies this
      ensures Value() == DfaStep(old(Value()), c) && (ok <==> state != REJECT)
    {
      var k := Class(c);
      codepoint := if state != ACCEPT then codepoint * 64 % TWO32 + c % 64 else LeadBits(k, c);
      state := NextState(state, k);
      ok := state != REJECT;
    }

    // Stops at the first byte that is refused.
    method Decode(s: bytes) returns (ok: bool)
      requires InTable(Value())
      modifies this
      ensures InTable(Value())
      ensures ok ==> Value() == DfaRun(old(Value()), s)
      ensures ok <==> s == [] || DfaRun(old(Value()), s).state != REJECT
      ensures !ok ==> state == REJECT
    {
      var i := 0;
      while i < |s|
        invariant 0 <= i <= |s| && InTable(Value())
        invariant DfaRun(Value(), s[i..]) == DfaRun(old(Value()), s)
        invariant i > 0 ==> state != REJECT
      {
        assert s[i..][0] == s[i] && s[i..][1..] == s[i + 1..];
        ok := Consume(s[i]);
        if !ok {
          RejectStays(Value(), s[i + 1..]);
          return;
        }
        i := i + 1;
      }
      assert s[i..] == [];
      ok := true;
    }

    predicate Complete()
      reads this
    {
      state == ACCEPT
    }

    method Reset()
      modifies this
      ensures Value() == Dfa(ACCEPT, 0)
    {
      state, codepoint := ACCEPT, 0;
    }

    // A message that comes in pieces, as a connection feeds it: no piece is
    // looked at behind one that was refused.
    method DecodePieces(pieces: seq<bytes>) returns (ok: bool)
      requires Value() == Dfa(ACCEPT, 0)
      modifies this
      ensures ok && Complete() <==> Accepts(Concat(pieces))
      ensures !ok ==> forall more: bytes :: !Accepts(Concat(pieces) + more)
    {
      ghost var start := Value();
      var i := 0;
      while i < |pieces|
        invariant 0 <= i <= |pieces| && InTable(Value())
        invariant DfaRun(Value(), Concat(pieces[i..])) == DfaRun(start, Concat(pieces))
        invariant state != REJECT
      {
        ghost var before := Value();
        assert pieces[i..][0] == pieces[i] && pieces[i..][1..] == pieces[i + 1..];
        RunConcat(before, pieces[i], Concat(pieces[i + 1..]));
        ok := Decode(pieces[i]);
        if !ok {
          RejectStays(DfaRun(before, pieces[i]), Concat(pieces[i + 1..]));
          forall more: bytes
            ensures !Accepts(Concat(pieces) + more)
          {
            RunConcat(start, Concat(pieces), more);
            RejectStays(DfaRun(start, Concat(pieces)), more);
          }
          return;
        }
        i := i + 1;
      }
      assert pieces[i..] == [];
      ok := true;
    }
  }

  function Concat(pieces: seq<bytes>): bytes {
    if pieces == [] then [] else pieces[0] + Concat(pieces[1..])
  }

  // The whole message at once.
  method Validate(s: bytes) returns (ok: bool)
    ensures ok <==> Accepts(s)
  {
    var v := new Validator();
    ok := v.Decode(s);
    if ok {
      ok := v.Complete();
    }
  }

  lemma {:induction false} RejectStays(d: Dfa, s: bytes)
    requires InTable(d) && d.state == REJECT
    ensures DfaRun(d, s).state == REJECT
    decreases |s|
  {
    if s != [] { RejectStays(DfaStep(d, s[0]), s[1..]); }
  }

  // Where a text is cut makes no difference.
  lemma {:induction false} RunConcat(d: Dfa, a: bytes, b: bytes)
    requires InTable(d)
    ensures DfaRun(d, a + b) == DfaRun(DfaRun(d, a), b)
    decreases |a|
  {
    hide DfaStep;
    if a == [] {
      assert a + b == b;
    } else {
      assert (a + b)[0] == a[0] && (a + b)[1..] == a[1..] + b;
      RunConcat(DfaStep(d, a[0]), a[1..], b);
    }
  }

  /* The automaton accepts exactly the UTF-8 forms */

  lemma {:induction false} RunOne(d: Dfa, a: byte)
    requires InTable(d)
    ensures DfaRun(d, [a]) == DfaStep(d, a)
  {
    assert [a][1..] == [];
  }

  lemma {:induction false} RunTwo(d: Dfa, a: byte, b: byte)
    requires InTable(d)
    ensures DfaRun(d, [a, b]) == DfaStep(DfaStep(d, a), b)
  {
    hide DfaStep;
    assert [a, b] == [a] + [b];
    RunConcat(d, [a], [b]);
    RunOne(d, a);
    RunOne(DfaStep(d, a), b);
  }

  // A byte that goes on with a form adds six bits.
  lemma {:induction false} TailBits(d: Dfa, x: nat)
    requires InTable(d) && d.state != ACCEPT && x < 64 && d.codepoint < 0x8000
    ensures var e := DfaStep(d, 0x80 + x);
            && e.codepoint == d.codepoint * 64 + x
            && e.state == NextState(d.state, if x < 16 then 1 else if x < 32 then 9 else 7)
  {
  }

  // What the leading byte of a longer form leads to.
  lemma {:induction false} LeadOfTwo(d: Dfa, a: nat)
    requires d.state == ACCEPT && 2 <= a < 32
    ensures DfaStep(d, 0xC0 + a) == Dfa(2, a)
  {
  }

  lemma {:induction false} LeadOfThree(d: Dfa, a: nat)
    requires d.state == ACCEPT && a < 16
    ensures DfaStep(d, 0xE0 + a) == Dfa(if a == 0 then 4 else if a == 13 then 5 else 3, a)
  {
  }

  lemma {:induction false} LeadOfFour(d: Dfa, a: nat)
    requires d.state == ACCEPT && a <= 4
    ensures DfaStep(d, 0xF0 + a) == Dfa(if a == 0 then 6 else if a == 4 then 8 else 7, a)
  {
  }

  // From the accepting state the form of a scalar value leads back to it, and
  // the code point that is put together on the way is that value.
  lemma {:induction false} EncodedRun(d: Dfa, cp: nat)
    requires d.state == ACCEPT && IsScalar(cp)
    ensures DfaRun(d, Utf8Encode(cp)) == Dfa(ACCEPT, cp)
  {
    hide DfaRun, DfaStep;
    if cp <= 0x7F {
      RunOne(d, cp);
      OneByte(d, cp);
    } else if cp <= 0x7FF {
      RunTwo(d, 0xC0 + cp / 64, 0x80 + cp % 64);
      LeadOfTwo(d, cp / 64);
      TailBits(Dfa(2, cp / 64), cp % 64);
    } else if cp <= 0xFFFF {
      ThreeParts(cp);
      ThreeRun(d, cp / 4096, cp / 64 % 64, cp % 64);
    } else {
      FourParts(cp);
      FourRun(d, cp / 0x40000, cp / 4096 % 64, cp / 64 % 64, cp % 64);
    }
  }

  lemma {:induction false} DivideTwice(n: nat)
    ensures n / 4096 == n / 64 / 64
  {
    var q, r := n / 4096, n % 4096;
    assert n == q * 4096 + r;
    assert n / 64 == q * 64 + r / 64;
  }

  lemma {:induction false} DivideThrice(n: nat)
    ensures n / 0x40000 == n / 4096 / 64
  {
    var q, r := n / 0x40000, n % 0x40000;
    assert n == q * 0x40000 + r;
    assert n / 4096 == q * 64 + r / 4096;
  }

  lemma {:induction false} ThreeParts(cp: nat)
    requires 0x7FF < cp <= 0xFFFF && IsScalar(cp)
    ensures var a, b, c := cp / 4096, cp / 64 % 64, cp % 64;
            a < 16 && (a == 0 ==> b >= 32) && (a == 13 ==> b < 32) && cp == a * 4096 + b * 64 + c
  {
    DivideTwice(cp);
    Digits64(cp);
    Digits64(cp / 64);
  }

  lemma {:induction false} Digits64(n: nat)
    ensures n == n / 64 * 64 + n % 64 && n % 64 < 64
  {
  }

  lemma {:induction false} FourParts(cp: nat)
    requires 0xFFFF < cp && IsScalar(cp)
    ensures var a, b, c, e := cp / 0x40000, cp / 4096 % 64, cp / 64 % 64, cp % 64;
            && a <= 4 && (a == 0 ==> b >= 16) && (a == 4 ==> b < 16)
            && cp == a * 0x40000 + b * 4096 + c * 64 + e
  {
    DivideTwice(cp);
    DivideThrice(cp);
    Digits64(cp);
    Digits64(cp / 64);
    Digits64(cp / 4096);
  }

  lemma {:induction false} OneByte(d: Dfa, cp: nat)
    requires d.state == ACCEPT && cp < 128
    ensures DfaStep(d, cp) == Dfa(ACCEPT, cp)
  {
  }

  lemma {:induction false} ThreeRun(d: Dfa, a: nat, b: nat, c: nat)
    requires d.state == ACCEPT && a < 16 && b < 64 && c < 64
    requires (a == 0 ==> b >= 32) && (a == 13 ==> b < 32)
    ensures DfaRun(d, [0xE0 + a, 0x80 + b, 0x80 + c]) == Dfa(ACCEPT, a * 4096 + b * 64 + c)
  {
    hide DfaRun, DfaStep;
    var s: bytes := [0xE0 + a, 0x80 + b];
    assert [0xE0 + a, 0x80 + b, 0x80 + c] == s + [0x80 + c];
    RunConcat(d, s, [0x80 + c]);
    RunTwo(d, 0xE0 + a, 0x80 + b);
    LeadOfThree(d, a);
    TailBits(DfaStep(d, 0xE0 + a), b);
    RunOne(DfaRun(d, s), 0x80 + c);
    TailBits(DfaRun(d, s), c);
  }

  lemma {:induction false} FourRun(d: Dfa, a: nat, b: nat, c: nat, e: nat)
    requires d.state == ACCEPT && a <= 4 && b < 64 && c < 64 && e < 64
    requires (a == 0 ==> b >= 16) && (a == 4 ==> b < 16)
    ensures DfaRun(d, [0xF0 + a, 0x80 + b, 0x80 + c, 0x80 + e])
         == Dfa(ACCEPT, a * 0x40000 + b * 4096 + c * 64 + e)
  {
    hide DfaRun, DfaStep;
    var s: bytes, t: bytes := [0xF0 + a, 0x80 + b], [0x80 + c, 0x80 + e];
    assert [0xF0 + a, 0x80 + b, 0x80 + c, 0x80 + e] == s + t;
    RunConcat(d, s, t);
    RunTwo(d, 0xF0 + a, 0x80 + b);
    LeadOfFour(d, a);
    TailBits(DfaStep(d, 0xF0 + a), b);
    var m := DfaRun(d, s);
    RunTwo(m, 0x80 + c, 0x80 + e);
    TailBits(m, c);
    TailBits(DfaStep(m, 0x80 + c), e);
  }

  lemma {:induction false} EncodedIsAccepted(d: Dfa, cps: seq<nat>)
    requires d.state == ACCEPT && AllScalars(cps)
    ensures DfaRun(d, EncodeAll(cps)) == if cps == [] then d else Dfa(ACCEPT, cps[|cps| - 1])
    decreases |cps|
  {
    hide Utf8Encode, DfaRun;
    if cps == [] {
      RunNothing(d);
    } else {
      EncodedRun(d, cps[0]);
      RunConcat(d, Utf8Encode(cps[0]), EncodeAll(cps[1..]));
      EncodedIsAccepted(Dfa(ACCEPT, cps[0]), cps[1..]);
    }
  }

  lemma {:induction false} RunNothing(d: Dfa)
    requires InTable(d)
    ensures DfaRun(d, []) == d
  {
  }

  // The number of bytes that a leading byte announces; 0 for a byte that leads nothing.
  function Announced(c: byte): (n: nat)
    ensures n <= 4
  {
    var s := NextState(ACCEPT, Class(c));
    if s == ACCEPT then 1 else if s == REJECT then 0
    else if s == 2 then 2 else if s == 3 || s == 4 || s == 5 then 3 else 4
  }

  // A text that leads back to the accepting state starts with the form of a scalar value.
  lemma {:induction false} AcceptedStarts(d: Dfa, s: bytes) returns (cp: nat)
    requires d.state == ACCEPT && s != [] && DfaRun(d, s).state == ACCEPT
    ensures IsScalar(cp) && Utf8Encode(cp) <= s
    ensures var n := |Utf8Encode(cp)|; DfaRun(Dfa(ACCEPT, cp), s[n..]).state == ACCEPT
  {
    hide DfaRun;
    var n := Announced(s[0]);
    var e := DfaStep(d, s[0]);
    RunOne(d, s[0]);
    if n == 0 {
      assert s == [s[0]] + s[1..];
      RunConcat(d, [s[0]], s[1..]);
      RejectStays(e, s[1..]);
      assert false;
    }
    if |s| < n {
      TooShort(d, s);
      assert false;
    }
    cp := LongEnough(d, s);
    assert s == s[..n] + s[n..];
    RunConcat(d, s[..n], s[n..]);
    EncodedRun(d, cp);
  }

  // A form that is cut short does not lead to the accepting state.
  lemma {:induction false} TooShort(d: Dfa, s: bytes)
    requires d.state == ACCEPT && s != [] && |s| < Announced(s[0])
    ensures DfaRun(d, s).state != ACCEPT
  {
    hide DfaRun;
    RunOne(d, s[0]);
    if |s| == 1 {
      assert s == [s[0]];
    } else if |s| == 2 {
      assert s == [s[0], s[1]];
      RunTwo(d, s[0], s[1]);
    } else {
      assert s == [s[0], s[1]] + [s[2]];
      RunConcat(d, [s[0], s[1]], [s[2]]);
      RunTwo(d, s[0], s[1]);
      RunOne(DfaRun(d, [s[0], s[1]]), s[2]);
    }
  }

  // A step that is not refused, in front of an accepted rest.
  lemma {:induction false} StepAccepted(d: Dfa, s: bytes)
    requires InTable(d) && s != [] && DfaRun(d, s).state == ACCEPT
    ensures var e := DfaStep(d, s[0]); e.state != REJECT && DfaRun(e, s[1..]).state == ACCEPT
  {
    hide DfaStep;
    if DfaStep(d, s[0]).state == REJECT {
      RejectStays(DfaStep(d, s[0]), s[1..]);
    }
  }

  // The announced bytes of an accepted text are the form of a scalar value.
  lemma {:induction false} LongEnough(d: Dfa, s: bytes) returns (cp: nat)
    requires d.state == ACCEPT && s != [] && 0 < Announced(s[0]) <= |s| && DfaRun(d, s).state == ACCEPT
    ensures IsScalar(cp) && Utf8Encode(cp) == s[..Announced(s[0])]
  {
    hide DfaRun, DfaStep, Utf8Encode;
    var n := Announced(s[0]);
    StepAccepted(d, s);
    if n == 1 {
      OneForm(s[0]);
      cp := s[0];
      assert s[..1] == [s[0]];
    } else {
      var e, t := DfaStep(d, s[0]), s[1..];
      StepAccepted(e, t);
      assert t[0] == s[1];
      if n == 2 {
        assert s[..2] == [s[0], s[1]];
        cp := TwoForm(d, s[0], s[1]);
      } else {
        var f, u := DfaStep(e, s[1]), t[1..];
        StepAccepted(f, u);
        assert u[0] == s[2];
        if n == 3 {
          assert s[..3] == [s[0], s[1], s[2]];
          cp := ThreeForm(d, s[0], s[1], s[2]);
        } else {
          var g, w := DfaStep(f, s[2]), u[1..];
          StepAccepted(g, w);
          assert w[0] == s[3];
          assert s[..4] == [s[0], s[1], s[2], s[3]];
          cp := FourForm(d, s[0], s[1], s[2], s[3]);
        }
      }
    }
  }

  lemma {:induction false} OneForm(a: byte)
    requires Announced(a) == 1
    ensures a < 128 && Utf8Encode(a) == [a]
  {
  }

  lemma {:induction false} TwoForm(d: Dfa, a: byte, b: byte) returns (cp: nat)
    requires d.state == ACCEPT && Announced(a) == 2 && DfaStep(DfaStep(d, a), b).state != REJECT
    ensures IsScalar(cp) && Utf8Encode(cp) == [a, b]
  {
    assert 0xC2 <= a < 0xE0 && 0x80 <= b < 0xC0;
    cp := FromTwo(a - 0xC0, b - 0x80);
  }

  lemma {:induction false} FromTwo(a: nat, b: nat) returns (cp: nat)
    requires 2 <= a < 32 && b < 64
    ensures IsScalar(cp) && Utf8Encode(cp) == [0xC0 + a, 0x80 + b]
  {
    cp := a * 64 + b;
    assert cp / 64 == a && cp % 64 == b;
  }

  lemma {:induction false} ThreeForm(d: Dfa, a: byte, b: byte, c: byte) returns (cp: nat)
    requires d.state == ACCEPT && Announced(a) == 3 && DfaStep(DfaStep(d, a), b).state != REJECT
    requires DfaStep(DfaStep(DfaStep(d, a), b), c).state != REJECT
    ensures IsScalar(cp) && Utf8Encode(cp) == [a, b, c]
  {
    assert 0xE0 <= a < 0xF0 && 0x80 <= b < 0xC0 && 0x80 <= c < 0xC0;
    assert (a == 0xE0 ==> b >= 0xA0) && (a == 0xED ==> b < 0xA0);
    cp := FromThree(a - 0xE0, b - 0x80, c - 0x80);
  }

  lemma {:induction false} FromThree(a: nat, b: nat, c: nat) returns (cp: nat)
    requires a < 16 && b < 64 && c < 64 && (a == 0 ==> b >= 32) && (a == 13 ==> b < 32)
    ensures IsScalar(cp) && Utf8Encode(cp) == [0xE0 + a, 0x80 + b, 0x80 + c]
  {
    cp := a * 4096 + b * 64 + c;
    assert cp / 4096 == a && cp / 64 == a * 64 + b && cp % 64 == c;
  }

  lemma {:induction false} FourForm(d: Dfa, a: byte, b: byte, c: byte, e: byte) returns (cp: nat)
    requires d.state == ACCEPT && Announced(a) == 4 && DfaStep(DfaStep(d, a), b).state != REJECT
    requires DfaStep(DfaStep(DfaStep(d, a), b), c).state != REJECT
    requires DfaStep(DfaStep(DfaStep(DfaStep(d, a), b), c), e).state != REJECT
    ensures IsScalar(cp) && Utf8Encode(cp) == [a, b, c, e]
  {
    assert 0xF0 <= a <= 0xF4 && 0x80 <= b < 0xC0 && 0x80 <= c < 0xC0 && 0x80 <= e < 0xC0;
    assert (a == 0xF0 ==> b >= 0x90) && (a == 0xF4 ==> b < 0x90);
    cp := FromFour(a - 0xF0, b - 0x80, c - 0x80, e - 0x80);
  }

  lemma {:induction false} FromFour(a: nat, b: nat, c: nat, e: nat) returns (cp: nat)
    requires a <= 4 && b < 64 && c < 64 && e < 64 && (a == 0 ==> b >= 16) && (a == 4 ==> b < 16)
    ensures IsScalar(cp) && Utf8Encode(cp) == [0xF0 + a, 0x80 + b, 0x80 + c, 0x80 + e]
  {
    var x := a * 64 + b;
    var y := x * 64 + c;
    cp := y * 64 + e;
    Parts64(a, b);
    Parts64(x, c);
    Parts64(y, e);
    DivideTwice(cp);
    DivideThrice(cp);
  }

  lemma {:induction false} Parts64(q: nat, r: nat)
    requires r < 64
    ensures (q * 64 + r) / 64 == q && (q * 64 + r) % 64 == r
  {
  }

  lemma {:induction false} AcceptedIsEncoded(d: Dfa, s: bytes) returns (cps: seq<nat>)
    requires d.state == ACCEPT && DfaRun(d, s).state == ACCEPT
    ensures AllScalars(cps) && EncodeAll(cps) == s
    decreases |s|
  {
    hide Utf8Encode, DfaRun;
    if s == [] {
      cps := [];
    } else {
      var cp := AcceptedStarts(d, s);
      var n := |Utf8Encode(cp)|;
      EncodedIsNotEmpty(cp);
      assert s == Utf8Encode(cp) + s[n..];
      var rest := AcceptedIsEncoded(Dfa(ACCEPT, cp), s[n..]);
      cps := [cp] + rest;
      assert cps[1..] == rest;
    }
  }

  lemma {:induction false} EncodedIsNotEmpty(cp: nat)
    requires IsScalar(cp)
    ensures |Utf8Encode(cp)| > 0
  {
  }

  // The language of the automaton is the language of RFC 3629.
  lemma {:induction false} AcceptsExactly(s: bytes)
    ensures Accepts(s) <==> exists cps :: AllScalars(cps) && EncodeAll(cps) == s
  {
    hide EncodeAll, DfaRun;
    if Accepts(s) {
      var cps := AcceptedIsEncoded(Dfa(ACCEPT, 0), s);
    }
    if exists cps :: AllScalars(cps) && EncodeAll(cps) == s {
      var cps :| AllScalars(cps) && EncodeAll(cps) == s;
      EncodedIsAccepted(Dfa(ACCEPT, 0), cps);
    }
  }
}
