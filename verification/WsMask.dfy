// Masking of WebSocket payloads (section 5.3 of RFC 6455): byte by byte, and word
// by word with a key that is carried from one piece of a message to the next.

module WsMask {
  import opened Patches

  type octet = bv8
  type octets = seq<octet>

  // The key as it lies in memory.
  type Key = c: octets | |c| == 4 witness [0, 0, 0, 0]

  function Xor(x: octet, y: octet): octet { x ^ y }

  // The octet of the key that belongs to octet n of a message.
  function Phase(n: nat): (k: nat)
    ensures k < 4
  {
    n % 4
  }

  lemma {:induction false} NextPhase(n: nat)
    ensures (Phase(n) + 1) % 4 == Phase(n + 1)
  {
  }

  // Steps of four octets do not change it.
  lemma {:induction false} PhaseStays(n: nat, k: nat)
    requires k % 4 == 0
    ensures Phase(n + k) == Phase(n)
  {
    var q := k / 4;
    assert k == 4 * q;
  }

  // The definition: octet i of the message is combined with octet i modulo 4 of
  // the key; offset octets of the message came before.
  function Masked(data: octets, c: Key, offset: nat): (r: octets)
    ensures |r| == |data|
  {
    if data == [] then [] else [Xor(data[0], c[Phase(offset)])] + Masked(data[1..], c, offset + 1)
  }

  lemma {:induction false} MaskedAt(data: octets, c: Key, offset: nat, i: nat)
    requires i < |data|
    ensures Masked(data, c, offset)[i] == Xor(data[i], c[Phase(offset + i)])
    decreases |data|
  {
    hide Xor;
    if i > 0 { MaskedAt(data[1..], c, offset + 1, i - 1); }
  }

  lemma {:induction false} MaskedNothing(c: Key, offset: nat)
    ensures Masked([], c, offset) == []
  {
  }

  lemma {:induction false} MaskedFirst(a: octets, c: Key, offset: nat)
    requires a != []
    ensures Masked(a, c, offset) == [Xor(a[0], c[Phase(offset)])] + Masked(a[1..], c, offset + 1)
  {
  }

  // Where a message is cut makes no difference.
  lemma {:induction false} MaskedConcat(a: octets, b: octets, c: Key, offset: nat)
    ensures Masked(a + b, c, offset) == Masked(a, c, offset) + Masked(b, c, offset + |a|)
    decreases |a|
  {
    hide Masked;
    if a == [] {
      assert a + b == b;
      MaskedNothing(c, offset);
      assert [] + Masked(b, c, offset) == Masked(b, c, offset);
    } else {
      assert (a + b)[0] == a[0] && (a + b)[1..] == a[1..] + b;
      MaskedConcat(a[1..], b, c, offset + 1);
      MaskedFirst(a, c, offset);
      MaskedFirst(a + b, c, offset);
      var first, x, y := [Xor(a[0], c[Phase(offset)])], Masked(a[1..], c, offset + 1), Masked(b, c, offset + |a|);
      assert first + (x + y) == (first + x) + y;
    }
  }

  // Only the phase of the key counts.
  lemma {:induction false} MaskedPhase(data: octets, c: Key, o1: nat, o2: nat)
    requires Phase(o1) == Phase(o2)
    ensures Masked(data, c, o1) == Masked(data, c, o2)
    decreases |data|
  {
    hide Xor, Phase;
    if data != [] {
      NextPhase(o1);
      NextPhase(o2);
      MaskedPhase(data[1..], c, o1 + 1, o2 + 1);
    }
  }

  lemma {:induction false} XorTwice(x: octet, y: octet)
    ensures Xor(Xor(x, y), y) == x
  {
  }

  // Masking twice gives the message back.
  lemma {:induction false} MaskingIsInvolution(data: octets, c: Key, offset: nat)
    ensures Masked(Masked(data, c, offset), c, offset) == data
    decreases |data|
  {
    hide Xor;
    if data != [] {
      var m := Masked(data, c, offset);
      assert m[0] == Xor(data[0], c[Phase(offset)]) && m[1..] == Masked(data[1..], c, offset + 1);
      XorTwice(data[0], c[Phase(offset)]);
      MaskingIsInvolution(data[1..], c, offset + 1);
      assert [data[0]] + data[1..] == data;
    }
  }

  /* Machine words */

  // A machine is little-endian or not, and has words of 4 or 8 octets.
  datatype Machine = Machine(little: bool, wide: bool) {
    function Size(): (n: nat)
      ensures n == 4 || n == 8
    {
      if wide then 8 else 4
    }
  }

  datatype Word = Narrow(n: bv32) | Wide(w: bv64)

  predicate Fits(m: Machine, w: Word) { w.Wide? == m.wide }

  // The octets of a word by significance, the lowest first.
  function Octets32(w: bv32): (s: octets)
    ensures |s| == 4
  {
    [(w & 0xFF) as octet, ((w >> 8) & 0xFF) as octet, ((w >> 16) & 0xFF) as octet, ((w >> 24) & 0xFF) as octet]
  }

  function Octets64(w: bv64): (s: octets)
    ensures |s| == 8
  {
    [(w & 0xFF) as octet, ((w >> 8) & 0xFF) as octet, ((w >> 16) & 0xFF) as octet, ((w >> 24) & 0xFF) as octet,
     ((w >> 32) & 0xFF) as octet, ((w >> 40) & 0xFF) as octet, ((w >> 48) & 0xFF) as octet, ((w >> 56) & 0xFF) as octet]
  }

  function Reversed(s: octets): (r: octets)
    ensures |r| == |s| && forall k :: 0 <= k < |s| ==> r[k] == s[|s| - 1 - k]
  {
    if s == [] then [] else Reversed(s[1..]) + [s[0]]
  }

  // The octets of a word by address.
  function InMemory(m: Machine, w: Word): (s: octets)
    requires Fits(m, w)
    ensures |s| == m.Size()
  {
    var s := if m.wide then Octets64(w.w) else Octets32(w.n);
    if m.little then s else Reversed(s)
  }

  function Join32(a: octet, b: octet, c: octet, d: octet): bv32 {
    (a as bv32) | ((b as bv32) << 8) | ((c as bv32) << 16) | ((d as bv32) << 24)
  }

  function Load32(little: bool, s: octets): bv32
    requires |s| == 4
  {
    if little then Join32(s[0], s[1], s[2], s[3]) else Join32(s[3], s[2], s[1], s[0])
  }

  function Join64(low: bv32, high: bv32): bv64 { (low as bv64) | ((high as bv64) << 32) }

  // The word that lies in memory as these octets.
  function LoadWord(m: Machine, s: octets): (w: Word)
    requires |s| == m.Size()
    ensures Fits(m, w)
  {
    if !m.wide then Narrow(Load32(m.little, s))
    else if m.little then Wide(Join64(Load32(true, s[..4]), Load32(true, s[4..])))
    else Wide(Join64(Load32(false, s[4..]), Load32(false, s[..4])))
  }

  function Xor32(a: bv32, b: bv32): bv32 { a ^ b }

  function Xor64(a: bv64, b: bv64): bv64 { a ^ b }

  function XorWord(a: Word, b: Word): (w: Word)
    requires a.Wide? == b.Wide?
    ensures w.Wide? == a.Wide?
  {
    if a.Wide? then Wide(Xor64(a.w, b.w)) else Narrow(Xor32(a.n, b.n))
  }

  function Doubled(i: bv32): bv64 { ((i as bv64) << 32) | (i as bv64) }

  // The key twice side by side in a wide word, or once in a narrow one.
  function PrepareMaskingKey(m: Machine, c: Key): (w: Word)
    ensures Fits(m, w)
  {
    var i := Load32(m.little, c);
    if m.wide then Wide(Doubled(i)) else Narrow(i)
  }

  function CircShift32(little: bool, w: bv32, offset: nat): bv32
    requires offset < 4
  {
    match offset
    case 0 => w
    case 1 => if little then (w >> 8) | (w << 24) else (w << 8) | (w >> 24)
    case 2 => if little then (w >> 16) | (w << 16) else (w << 16) | (w >> 16)
    case _ => if little then (w >> 24) | (w << 8) else (w << 24) | (w >> 8)
  }

  function CircShift64(little: bool, w: bv64, offset: nat): bv64
    requires offset < 8
  {
    match offset
    case 0 => w
    case 1 => if little then (w >> 8) | (w << 56) else (w << 8) | (w >> 56)
    case 2 => if little then (w >> 16) | (w << 48) else (w << 16) | (w >> 48)
    case 3 => if little then (w >> 24) | (w << 40) else (w << 24) | (w >> 40)
    case 4 => if little then (w >> 32) | (w << 32) else (w << 32) | (w >> 32)
    case 5 => if little then (w >> 40) | (w << 24) else (w << 40) | (w >> 24)
    case 6 => if little then (w >> 48) | (w << 16) else (w << 48) | (w >> 16)
    case _ => if little then (w >> 56) | (w << 8) else (w << 56) | (w >> 8)
  }

  // Shifted so that the octet at address offset comes first.
  function CircShiftPreparedKey(m: Machine, w: Word, offset: nat): (r: Word)
    requires Fits(m, w) && offset < m.Size()
    ensures Fits(m, r)
  {
    match w
    case Narrow(n) => Narrow(CircShift32(m.little, n, offset))
    case Wide(v) => Wide(CircShift64(m.little, v, offset))
  }

  /* Words as octets in memory */

  lemma {:induction false} Join32Octets(a: octet, b: octet, c: octet, d: octet)
    ensures Octets32(Join32(a, b, c, d)) == [a, b, c, d]
  {
  }

  lemma {:induction false} TwiceOctets(i: bv32)
    ensures Octets64(((i as bv64) << 32) | (i as bv64)) == Octets32(i) + Octets32(i)
  {
  }

  lemma {:induction false} DoubledOctets(i: bv32)
    ensures Octets64(Doubled(i)) == Octets32(i) + Octets32(i)
  {
    hide Octets32, Octets64;
    TwiceOctets(i);
  }

  lemma {:induction false} HalvesOctets(low: bv32, high: bv32)
    ensures Octets64((low as bv64) | ((high as bv64) << 32)) == Octets32(low) + Octets32(high)
  {
  }

  lemma {:induction false} Join64Octets(low: bv32, high: bv32)
    ensures Octets64(Join64(low, high)) == Octets32(low) + Octets32(high)
  {
    hide Octets32, Octets64;
    HalvesOctets(low, high);
  }

  lemma {:induction false} LoadedOctets(m: Machine, s: octets)
    requires |s| == m.Size()
    ensures InMemory(m, LoadWord(m, s)) == s
  {
    hide Join32, Join64, Octets32, Octets64;
    assert s == s[..4] + s[4..];
    Loaded32(m.little, s[..4]);
    if m.wide {
      Loaded32(m.little, s[4..]);
      Join64Octets(Load32(m.little, if m.little then s[..4] else s[4..]),
                   Load32(m.little, if m.little then s[4..] else s[..4]));
      if !m.little {
        ReversedConcat(s[..4], s[4..]);
        ReversedTwice(s);
      }
    } else {
      assert s[..4] == s;
      ReversedTwice(s);
    }
  }

  lemma {:induction false} ReversedConcat(a: octets, b: octets)
    ensures Reversed(a + b) == Reversed(b) + Reversed(a)
    decreases |a|
  {
    if a == [] {
      assert a + b == b && Reversed(b) + [] == Reversed(b);
    } else {
      assert (a + b)[0] == a[0] && (a + b)[1..] == a[1..] + b;
      ReversedConcat(a[1..], b);
    }
  }

  lemma {:induction false} ReversedTwice(s: octets)
    ensures Reversed(Reversed(s)) == s
  {
    var r := Reversed(s);
    forall k | 0 <= k < |s|
      ensures Reversed(r)[k] == s[k]
    {
    }
  }

  lemma {:induction false} Loaded32(little: bool, s: octets)
    requires |s| == 4
    ensures Octets32(Load32(little, s)) == if little then s else Reversed(s)
  {
    hide Join32, Octets32;
    if little {
      Join32Octets(s[0], s[1], s[2], s[3]);
    } else {
      Join32Octets(s[3], s[2], s[1], s[0]);
    }
  }

  lemma {:induction false} Xor32Octets(a: bv32, b: bv32)
    ensures Octets32(a ^ b)[0] == Xor(Octets32(a)[0], Octets32(b)[0])
    ensures Octets32(a ^ b)[1] == Xor(Octets32(a)[1], Octets32(b)[1])
    ensures Octets32(a ^ b)[2] == Xor(Octets32(a)[2], Octets32(b)[2])
    ensures Octets32(a ^ b)[3] == Xor(Octets32(a)[3], Octets32(b)[3])
  {
  }

  lemma {:induction false} Turn32By1(w: bv32)
    ensures Octets32((w >> 8) | (w << 24)) == Octets32(w)[1..] + Octets32(w)[..1]
  {
  }

  lemma {:induction false} Turn32By2(w: bv32)
    ensures Octets32((w >> 16) | (w << 16)) == Octets32(w)[2..] + Octets32(w)[..2]
  {
  }

  lemma {:induction false} Turn32By3(w: bv32)
    ensures Octets32((w >> 24) | (w << 8)) == Octets32(w)[3..] + Octets32(w)[..3]
  {
  }

  lemma {:induction false} OrSwaps32(a: bv32, b: bv32)
    ensures a | b == b | a
  {
  }

  // A little-endian word is shifted right.
  lemma {:induction false} ShiftedRight32(w: bv32, o: nat)
    requires o < 4
    ensures Octets32(CircShift32(true, w, o)) == Octets32(w)[o..] + Octets32(w)[..o]
  {
    hide Octets32;
    match o
    case 0 =>
    case 1 => Turn32By1(w);
    case 2 => Turn32By2(w);
    case _ => Turn32By3(w);
  }

  // A big-endian word is shifted left.
  lemma {:induction false} ShiftedLeft32(w: bv32, o: nat)
    requires o < 4
    ensures Octets32(CircShift32(false, w, o)) == Octets32(w)[4 - o..] + Octets32(w)[..4 - o]
  {
    hide Octets32;
    match o
    case 0 =>
    case 1 => Turn32By3(w); OrSwaps32(w >> 24, w << 8);
    case 2 => Turn32By2(w); OrSwaps32(w >> 16, w << 16);
    case _ => Turn32By1(w); OrSwaps32(w >> 8, w << 24);
  }

  lemma {:induction false} Xor64First(a: bv64, b: bv64)
    ensures Octets64(a ^ b)[0] == Xor(Octets64(a)[0], Octets64(b)[0])
    ensures Octets64(a ^ b)[1] == Xor(Octets64(a)[1], Octets64(b)[1])
  {
  }

  lemma {:induction false} Xor64Second(a: bv64, b: bv64)
    ensures Octets64(a ^ b)[2] == Xor(Octets64(a)[2], Octets64(b)[2])
    ensures Octets64(a ^ b)[3] == Xor(Octets64(a)[3], Octets64(b)[3])
  {
  }

  lemma {:induction false} Xor64High(a: bv64, b: bv64)
    ensures Octets64(a ^ b)[4] == Xor(Octets64(a)[4], Octets64(b)[4])
    ensures Octets64(a ^ b)[5] == Xor(Octets64(a)[5], Octets64(b)[5])
    ensures Octets64(a ^ b)[6] == Xor(Octets64(a)[6], Octets64(b)[6])
    ensures Octets64(a ^ b)[7] == Xor(Octets64(a)[7], Octets64(b)[7])
  {
  }

  lemma {:induction false} Turn64By1(w: bv64)
    ensures Octets64((w >> 8) | (w << 56)) == Octets64(w)[1..] + Octets64(w)[..1]
  {
  }

  lemma {:induction false} Turn64By2Front(w: bv64)
    ensures var t, s := Octets64((w >> 16) | (w << 48)), Octets64(w);
            t[0] == s[2] && t[1] == s[3] && t[2] == s[4] && t[3] == s[5]
  {
  }

  lemma {:induction false} Turn64By2Back(w: bv64)
    ensures var t, s := Octets64((w >> 16) | (w << 48)), Octets64(w);
            t[4] == s[6] && t[5] == s[7] && t[6] == s[0] && t[7] == s[1]
  {
  }

  lemma {:induction false} Turn64By2(w: bv64)
    ensures Octets64((w >> 16) | (w << 48)) == Octets64(w)[2..] + Octets64(w)[..2]
  {
    hide Octets64;
    Turn64By2Front(w);
    Turn64By2Back(w);
    TurnedByTwo(Octets64((w >> 16) | (w << 48)), Octets64(w));
  }

  lemma {:induction false} TurnedByTwo(t: octets, s: octets)
    requires |t| == |s| == 8
    requires t[0] == s[2] && t[1] == s[3] && t[2] == s[4] && t[3] == s[5]
    requires t[4] == s[6] && t[5] == s[7] && t[6] == s[0] && t[7] == s[1]
    ensures t == s[2..] + s[..2]
  {
  }

  lemma {:induction false} Turn64By3(w: bv64)
    ensures Octets64((w >> 24) | (w << 40)) == Octets64(w)[3..] + Octets64(w)[..3]
  {
  }

  lemma {:induction false} Turn64By4(w: bv64)
    ensures Octets64((w >> 32) | (w << 32)) == Octets64(w)[4..] + Octets64(w)[..4]
  {
  }

  lemma {:induction false} Turn64By5(w: bv64)
    ensures Octets64((w >> 40) | (w << 24)) == Octets64(w)[5..] + Octets64(w)[..5]
  {
  }

  lemma {:induction false} Turn64By6(w: bv64)
    ensures Octets64((w >> 48) | (w << 16)) == Octets64(w)[6..] + Octets64(w)[..6]
  {
  }

  lemma {:induction false} Turn64By7(w: bv64)
    ensures Octets64((w >> 56) | (w << 8)) == Octets64(w)[7..] + Octets64(w)[..7]
  {
  }

  lemma {:induction false} OrSwaps64(a: bv64, b: bv64)
    ensures a | b == b | a
  {
  }

  // A little-endian word is shifted right.
  lemma {:induction false} ShiftedRight64(w: bv64, o: nat)
    requires o < 8
    ensures Octets64(CircShift64(true, w, o)) == Octets64(w)[o..] + Octets64(w)[..o]
  {
    hide Octets64;
    match o
    case 0 =>
    case 1 => Turn64By1(w);
    case 2 => Turn64By2(w);
    case 3 => Turn64By3(w);
    case 4 => Turn64By4(w);
    case 5 => Turn64By5(w);
    case 6 => Turn64By6(w);
    case _ => Turn64By7(w);
  }

  // A big-endian word is shifted left.
  lemma {:induction false} ShiftedLeft64(w: bv64, o: nat)
    requires o < 8
    ensures Octets64(CircShift64(false, w, o)) == Octets64(w)[8 - o..] + Octets64(w)[..8 - o]
  {
    hide Octets64;
    if o < 4 {
      ShiftedLeft64Little(w, o);
    } else {
      ShiftedLeft64Far(w, o);
    }
  }

  lemma {:induction false} ShiftedLeft64Little(w: bv64, o: nat)
    requires o < 4
    ensures Octets64(CircShift64(false, w, o)) == Octets64(w)[8 - o..] + Octets64(w)[..8 - o]
  {
    hide Octets64;
    match o
    case 0 =>
    case 1 => Turn64By7(w); OrSwaps64(w >> 56, w << 8);
    case 2 => Turn64By6(w); OrSwaps64(w >> 48, w << 16);
    case _ => Turn64By5(w); OrSwaps64(w >> 40, w << 24);
  }

  lemma {:induction false} ShiftedLeft64Far(w: bv64, o: nat)
    requires 4 <= o < 8
    ensures Octets64(CircShift64(false, w, o)) == Octets64(w)[8 - o..] + Octets64(w)[..8 - o]
  {
    hide Octets64;
    match o
    case 4 => Turn64By4(w); OrSwaps64(w >> 32, w << 32);
    case 5 => Turn64By3(w); OrSwaps64(w >> 24, w << 40);
    case 6 => Turn64By2(w); OrSwaps64(w >> 16, w << 48);
    case _ => Turn64By1(w); OrSwaps64(w >> 8, w << 56);
  }

  lemma {:induction false} Xor64Octet(a: bv64, b: bv64, k: nat)
    requires k < 8
    ensures Octets64(Xor64(a, b))[k] == Xor(Octets64(a)[k], Octets64(b)[k])
  {
    hide Octets64, Xor;
    Xor64First(a, b);
    Xor64Second(a, b);
    Xor64High(a, b);
    var x, y, z := Octets64(a), Octets64(b), Octets64(a ^ b);
    if k < 4 {
      PickFour(x[..4], y[..4], z[..4], k);
    } else {
      PickFour(x[4..], y[4..], z[4..], k - 4);
    }
  }

  lemma {:induction false} Xor32Octet(a: bv32, b: bv32, k: nat)
    requires k < 4
    ensures Octets32(Xor32(a, b))[k] == Xor(Octets32(a)[k], Octets32(b)[k])
  {
    hide Octets32, Xor;
    Xor32Octets(a, b);
    PickFour(Octets32(a), Octets32(b), Octets32(Xor32(a, b)), k);
  }

  // Words are combined octet by octet.
  lemma {:induction false} XoredOctet(m: Machine, a: Word, b: Word, k: nat)
    requires Fits(m, a) && Fits(m, b) && k < m.Size()
    ensures InMemory(m, XorWord(a, b))[k] == Xor(InMemory(m, a)[k], InMemory(m, b)[k])
  {
    hide Octets32, Octets64, Reversed, Xor, Xor32, Xor64;
    if m.wide {
      Xor64Octet(a.w, b.w, if m.little then k else 7 - k);
    } else {
      Xor32Octet(a.n, b.n, if m.little then k else 3 - k);
    }
  }

  lemma {:induction false} PickFour(x: octets, y: octets, z: octets, k: nat)
    requires |x| == |y| == |z| == 4 && k < 4
    requires z[0] == Xor(x[0], y[0]) && z[1] == Xor(x[1], y[1]) && z[2] == Xor(x[2], y[2]) && z[3] == Xor(x[3], y[3])
    ensures z[k] == Xor(x[k], y[k])
  {
    hide Xor;
  }

  // The octets of a shifted key.
  lemma {:induction false} ShiftedOctets(m: Machine, w: Word, o: nat)
    requires Fits(m, w) && o < m.Size()
    ensures InMemory(m, CircShiftPreparedKey(m, w, o)) == InMemory(m, w)[o..] + InMemory(m, w)[..o]
  {
    hide Octets32, Octets64, CircShift32, CircShift64, Reversed;
    var n := m.Size();
    var t := if m.wide then Octets64(w.w) else Octets32(w.n);
    if m.wide {
      ShiftedRight64(w.w, o);
      ShiftedLeft64(w.w, o);
    } else {
      ShiftedRight32(w.n, o);
      ShiftedLeft32(w.n, o);
    }
    if !m.little {
      assert t == t[..n - o] + t[n - o..];
      ReversedConcat(t[..n - o], t[n - o..]);
      ReversedConcat(t[n - o..], t[..n - o]);
      assert Reversed(t)[..o] == Reversed(t[n - o..]) && Reversed(t)[o..] == Reversed(t[..n - o]);
    }
  }

  /* Prepared keys */

  // The word w holds the key as it applies to the octets from offset on.
  predicate Carries(m: Machine, w: Word, c: Key, offset: nat) {
    Fits(m, w) && forall k :: 0 <= k < m.Size() ==> InMemory(m, w)[k] == c[Phase(offset + k)]
  }

  lemma {:induction false} PreparedCarries(m: Machine, c: Key)
    ensures Carries(m, PrepareMaskingKey(m, c), c, 0)
  {
    hide InMemory, PrepareMaskingKey, Phase;
    PreparedOctets(m, c);
    forall k | 0 <= k < m.Size()
      ensures InMemory(m, PrepareMaskingKey(m, c))[k] == c[Phase(0 + k)]
    {
      PhaseIs(k);
    }
  }

  // The key in memory, once or twice.
  lemma {:induction false} PreparedOctets(m: Machine, c: Key)
    ensures InMemory(m, PrepareMaskingKey(m, c)) == if m.wide then c + c else c
  {
    hide Octets32, Octets64, Load32, Reversed, Doubled;
    var i := Load32(m.little, c);
    Loaded32(m.little, c);
    ReversedTwice(c);
    if m.wide {
      DoubledOctets(i);
      if !m.little { ReversedConcat(Octets32(i), Octets32(i)); }
    }
  }

  // Shifting a key by the octets that were masked keeps it in phase.
  lemma {:induction false} ShiftedCarries(m: Machine, w: Word, c: Key, offset: nat, o: nat, length: nat)
    requires Carries(m, w, c, offset) && o < m.Size() && (length - o) % 4 == 0
    ensures Carries(m, CircShiftPreparedKey(m, w, o), c, offset + length)
  {
    hide InMemory, CircShiftPreparedKey;
    ShiftedOctets(m, w, o);
    var s := InMemory(m, w);
    forall k | 0 <= k < m.Size()
      ensures (s[o..] + s[..o])[k] == c[Phase(offset + length + k)]
    {
      var q := if k + o < m.Size() then k + o else k + o - m.Size();
      assert (s[o..] + s[..o])[k] == s[q] == c[Phase(offset + q)];
      SamePhase(m, offset, o, length, k, q);
    }
  }

  lemma {:induction false} SamePhase(m: Machine, offset: nat, o: nat, length: nat, k: nat, q: nat)
    requires (length - o) % 4 == 0 && (q == k + o || q + m.Size() == k + o)
    ensures Phase(offset + q) == Phase(offset + length + k)
  {
  }

  /* The loops */

  // How far an array is masked: the first p octets of the message d lie masked in
  // front of what the array held.
  predicate MaskedUpTo(b: octets, d: octets, was: octets, c: Key, offset: nat, p: nat) {
    p <= |d| <= |was| && b == Masked(d[..p], c, offset) + was[p..]
  }

  lemma {:induction false} MaskedFurther(b: octets, d: octets, was: octets, c: Key, offset: nat, p: nat, n: nat)
    requires MaskedUpTo(b, d, was, c, offset, p) && p + n <= |d|
    ensures |b| == |was|
    ensures MaskedUpTo(Patch(b, p, Masked(d[p..p + n], c, offset + p)), d, was, c, offset, p + n)
  {
    hide Masked;
    assert d[..p + n] == d[..p] + d[p..p + n];
    MaskedConcat(d[..p], d[p..p + n], c, offset);
  }

  lemma {:induction false} MaskedOctet(d: octets, c: Key, offset: nat, p: nat)
    requires p < |d|
    ensures Masked(d[p..p + 1], c, offset + p) == [Xor(d[p], c[Phase(offset + p)])]
  {
    hide Xor;
    assert d[p..p + 1] == [d[p]];
    assert Masked([d[p]][1..], c, offset + p + 1) == [];
  }

  // One octet, as every byte loop does it.
  method MaskOctet(input: array<octet>, output: array<octet>, p: nat, key: octet,
                   ghost d: octets, ghost was: octets, ghost c: Key, ghost offset: nat)
    requires p < input.Length && p < output.Length && p < |d| && input[p] == d[p]
    requires MaskedUpTo(output[..], d, was, c, offset, p) && key == c[Phase(offset + p)]
    modifies output
    ensures MaskedUpTo(output[..], d, was, c, offset, p + 1)
    ensures input[p + 1..] == old(input[p + 1..])
  {
    hide Masked, MaskedUpTo, Xor, Phase;
    MaskedFurther(output[..], d, was, c, offset, p, 1);
    MaskedOctet(d, c, offset, p);
    ghost var b := output[..];
    output[p] := Xor(input[p], key);
    assert output[..] == Patch(b, p, [Xor(d[p], key)]);
  }

  // Byte by byte, with an index into the key that runs in circles.
  method ByteMask(input: array<octet>, output: array<octet>, length: nat, c: Key, keyOffset: nat)
    requires length <= input.Length && length <= output.Length
    modifies output
    ensures output[..] == Masked(old(input[..length]), c, keyOffset) + old(output[length..])
  {
    hide Masked, MaskedUpTo, Phase;
    ghost var d, was := input[..length], output[..];
    NothingMasked(d, was, c, keyOffset);
    assert Phase(keyOffset + 0) == keyOffset % 4 by { PhaseIs(keyOffset); }
    var keyIndex := keyOffset % 4;
    var i := 0;
    while i < length
      invariant 0 <= i <= length && keyIndex == Phase(keyOffset + i)
      invariant MaskedUpTo(output[..], d, was, c, keyOffset, i)
      invariant input[i..length] == d[i..]
    {
      keyIndex := MaskAtIndex(input, output, i, length, keyIndex, d, was, c, keyOffset);
      i := i + 1;
    }
    AllMasked(output[..], d, was, c, keyOffset);
  }

  lemma {:induction false} PhaseIs(n: nat)
    ensures Phase(n) == n % 4
  {
  }

  // One turn: an octet is combined and the index moves on.
  method MaskAtIndex(input: array<octet>, output: array<octet>, i: nat, length: nat, keyIndex: nat,
                     ghost d: octets, ghost was: octets, c: Key, ghost keyOffset: nat)
    returns (next: nat)
    requires i < length <= input.Length && length <= output.Length && |d| == length && input[i..length] == d[i..]
    requires keyIndex == Phase(keyOffset + i) && MaskedUpTo(output[..], d, was, c, keyOffset, i)
    modifies output
    ensures next == Phase(keyOffset + (i + 1)) && MaskedUpTo(output[..], d, was, c, keyOffset, i + 1)
    ensures input[i + 1..length] == d[i + 1..]
  {
    hide Masked, MaskedUpTo, Phase;
    StillThere(input[..], d, i, length);
    NextPhase(keyOffset + i);
    MaskOctet(input, output, i, c[keyIndex], d, was, c, keyOffset);
    next := keyIndex + 1;
    next := next % 4;
    assert input[i + 1..length] == input[i + 1..][..length - (i + 1)];
  }

  lemma {:induction false} NothingMasked(d: octets, was: octets, c: Key, offset: nat)
    requires |d| <= |was|
    ensures MaskedUpTo(was, d, was, c, offset, 0)
  {
    assert d[..0] == [] && was[0..] == was && [] + was == was;
  }

  lemma {:induction false} AllMasked(b: octets, d: octets, was: octets, c: Key, offset: nat)
    requires MaskedUpTo(b, d, was, c, offset, |d|)
    ensures b == Masked(d, c, offset) + was[|d|..]
  {
    assert d[..|d|] == d;
  }

  lemma {:induction false} StillThere(b: octets, d: octets, i: nat, length: nat)
    requires i < length <= |b| && |d| == length && b[i..length] == d[i..]
    ensures b[i] == d[i] && b[i + 1..length] == d[i + 1..]
  {
    assert b[i] == b[i..length][0];
    assert b[i + 1..length] == b[i..length][1..];
    assert d[i + 1..] == d[i..][1..];
  }

  // The octets of one word of the message, combined with a key word in phase.
  lemma {:induction false} MaskedWord(m: Machine, x: octets, key: Word, c: Key, offset: nat)
    requires |x| == m.Size() && Carries(m, key, c, offset)
    ensures InMemory(m, XorWord(LoadWord(m, x), key)) == Masked(x, c, offset)
  {
    hide InMemory, LoadWord, XorWord, Masked, Xor;
    LoadedOctets(m, x);
    var r := InMemory(m, XorWord(LoadWord(m, x), key));
    forall k | 0 <= k < |x|
      ensures r[k] == Masked(x, c, offset)[k]
    {
      XoredOctet(m, LoadWord(m, x), key, k);
      MaskedAt(x, c, offset, k);
    }
  }

  // The address of word i.
  function Address(m: Machine, i: nat): nat { if m.wide then 8 * i else 4 * i }

  // The number of whole words, and the octets behind them.
  function Words(m: Machine, length: nat): nat { if m.wide then length / 8 else length / 4 }

  // The octets behind the whole words.
  function Behind(m: Machine, length: nat): (o: nat)
    ensures o < m.Size()
  {
    if m.wide then length % 8 else length % 4
  }

  lemma {:induction false} FourTimes(k: nat)
    ensures 4 * k % 4 == 0
  {
  }

  lemma {:induction false} EightsFit(length: nat, i: nat)
    requires i <= length / 8
    ensures 8 * i <= length && (i < length / 8 ==> 8 * i + 8 <= length)
    ensures 8 * (length / 8) + length % 8 == length
  {
    var q := length / 8;
    assert length == 8 * q + length % 8;
  }

  lemma {:induction false} FoursFit(length: nat, i: nat)
    requires i <= length / 4
    ensures 4 * i <= length && (i < length / 4 ==> 4 * i + 4 <= length)
    ensures 4 * (length / 4) + length % 4 == length
  {
    var q := length / 4;
    assert length == 4 * q + length % 4;
  }

  lemma {:induction false} WordsFit(m: Machine, length: nat, i: nat)
    requires i <= Words(m, length)
    ensures Address(m, i) <= length && (i < Words(m, length) ==> Address(m, i) + m.Size() <= length)
    ensures Address(m, i) % 4 == 0 && Address(m, i + 1) == Address(m, i) + m.Size()
    ensures Address(m, Words(m, length)) + Behind(m, length) == length
  {
    if m.wide {
      EightsFit(length, i);
      FourTimes(2 * i);
    } else {
      FoursFit(length, i);
      FourTimes(i);
    }
  }

  lemma {:induction false} FourTimesWords(m: Machine, length: nat)
    ensures (length - Behind(m, length)) % 4 == 0
  {
    WordsFit(m, length, Words(m, length));
  }

  // One word, loaded, combined and stored.
  method MaskOneWord(m: Machine, input: array<octet>, output: array<octet>, p: nat, key: Word)
    requires p + m.Size() <= input.Length && p + m.Size() <= output.Length && Fits(m, key)
    modifies output
    ensures output[..] == Patch(old(output[..]), p, InMemory(m, XorWord(LoadWord(m, old(input[p..p + m.Size()])), key)))
  {
    hide InMemory, LoadWord, XorWord, Patch;
    var x := InMemory(m, XorWord(LoadWord(m, input[p..p + m.Size()]), key));
    ghost var b := output[..];
    var k := 0;
    PatchNothing(b, p);
    assert x[..0] == [];
    while k < |x|
      invariant 0 <= k <= |x|
      invariant output[..] == Patch(b, p, x[..k])
    {
      PatchNext(b, p, x, k);
      output[p + k] := x[k];
      k := k + 1;
    }
    assert x[..k] == x;
  }

  // The loop over the whole words of a message.
  method MaskWords(m: Machine, input: array<octet>, output: array<octet>, length: nat, key: Word, ghost c: Key,
                   ghost offset: nat)
    requires length <= input.Length && length <= output.Length && Carries(m, key, c, offset)
    modifies output
    ensures var p := Address(m, Words(m, length));
            && p <= length
            && MaskedUpTo(output[..], old(input[..length]), old(output[..]), c, offset, p)
            && input[p..length] == old(input[..length])[p..]
  {
    hide Masked, MaskedUpTo, Carries, Address, Words;
    ghost var d, was := input[..length], output[..];
    NothingMasked(d, was, c, offset);
    var n := Words(m, length);
    var i := 0;
    assert Address(m, 0) == 0 by { StartsAtZero(m); }
    WordsFit(m, length, 0);
    while i < n
      invariant 0 <= i <= n && Address(m, i) <= length
      invariant MaskedUpTo(output[..], d, was, c, offset, Address(m, i))
      invariant input[Address(m, i)..length] == d[Address(m, i)..]
    {
      WordsFit(m, length, i);
      MaskNextWord(m, input, output, Address(m, i), length, key, d, was, c, offset);
      i := i + 1;
    }
  }

  lemma {:induction false} StartsAtZero(m: Machine)
    ensures Address(m, 0) == 0
  {
  }

  method MaskNextWord(m: Machine, input: array<octet>, output: array<octet>, p: nat, length: nat, key: Word,
                      ghost d: octets, ghost was: octets, ghost c: Key, ghost offset: nat)
    requires p + m.Size() <= length <= input.Length && length <= output.Length && p % 4 == 0
    requires |d| == length && input[p..length] == d[p..]
    requires Carries(m, key, c, offset) && MaskedUpTo(output[..], d, was, c, offset, p)
    modifies output
    ensures MaskedUpTo(output[..], d, was, c, offset, p + m.Size())
    ensures input[p + m.Size()..length] == d[p + m.Size()..]
  {
    hide Masked, MaskedUpTo, InMemory, LoadWord, XorWord, Patch;
    ghost var size := m.Size();
    ghost var x, b := d[p..p + size], output[..];
    assert input[p..p + size] == input[p..length][..size] == d[p..][..size] == x;
    assert input[p + size..length] == input[p..length][size..] == d[p..][size..] == d[p + size..];
    MaskedWord(m, x, key, c, offset);
    MaskedPhase(x, c, offset, offset + p);
    MaskedFurther(b, d, was, c, offset, p, size);
    MaskOneWord(m, input, output, p, key);
    PatchBehind(b, p, Masked(x, c, offset + p), length);
  }

  lemma {:induction false} TailIndex(offset: nat, p: nat, i: nat, q: nat)
    requires p <= i && (q == i - p || q == (i - p) % 4)
    ensures Phase(offset + p + q) == Phase(offset + i)
  {
  }

  // The octets that do not fill a word, each with the octet of a key at hand.
  method MaskTail(input: array<octet>, output: array<octet>, p: nat, length: nat, key: octets,
                  ghost d: octets, ghost was: octets, ghost c: Key, ghost offset: nat)
    requires p <= length <= input.Length && length <= output.Length && |d| == length && input[p..length] == d[p..]
    requires |key| >= 4 && (|key| >= length - p || |key| == 4)
    requires forall k :: 0 <= k < |key| ==> key[k] == c[Phase(offset + p + k)]
    requires MaskedUpTo(output[..], d, was, c, offset, p)
    modifies output
    ensures output[..] == Masked(d, c, offset) + was[length..]
  {
    hide Masked, MaskedUpTo, Xor, Phase;
    var i := p;
    while i < length
      invariant p <= i <= length
      invariant MaskedUpTo(output[..], d, was, c, offset, i)
      invariant input[i..length] == d[i..]
    {
      StillThere(input[..], d, i, length);
      assert input[i + 1..length] == input[i + 1..][..length - (i + 1)];
      var q := if |key| == 4 then (i - p) % 4 else i - p;
      TailIndex(offset, p, i, q);
      MaskOctet(input, output, i, key[q], d, was, c, offset);
      i := i + 1;
    }
    AllMasked(output[..], d, was, c, offset);
  }

  // Behind whole words a key is in phase as it was in front of them.
  lemma {:induction false} CarriedFurther(m: Machine, key: Word, c: Key, offset: nat, p: nat)
    requires Carries(m, key, c, offset) && p % 4 == 0
    ensures forall k :: 0 <= k < m.Size() ==> InMemory(m, key)[k] == c[Phase(offset + p + k)]
  {
    hide InMemory, Phase;
    forall k | 0 <= k < m.Size()
      ensures InMemory(m, key)[k] == c[Phase(offset + p + k)]
    {
      PhaseStays(offset + k, p);
      assert offset + p + k == offset + k + p;
    }
  }

  lemma {:induction false} KeyFurther(c: Key, p: nat)
    requires p % 4 == 0
    ensures forall k :: 0 <= k < 4 ==> c[k] == c[Phase(0 + p + k)]
  {
    hide Phase;
    forall k | 0 <= k < 4
      ensures c[k] == c[Phase(0 + p + k)]
    {
      PhaseStays(k, p);
      PhaseIs(k);
      assert 0 + p + k == k + p;
    }
  }

  // A whole message: words, then octets with the key as it lies in memory.
  method WordMaskExact(m: Machine, input: array<octet>, output: array<octet>, length: nat, c: Key)
    requires length <= input.Length && length <= output.Length
    modifies output
    ensures output[..] == Masked(old(input[..length]), c, 0) + old(output[length..])
  {
    hide Masked, MaskedUpTo, Carries, Address, Words, PrepareMaskingKey, Phase;
    ghost var d, was := input[..length], output[..];
    var preparedKey := PrepareMaskingKey(m, c);
    PreparedCarries(m, c);
    MaskWords(m, input, output, length, preparedKey, c, 0);
    var start := Address(m, Words(m, length));
    WordsFit(m, length, Words(m, length));
    KeyFurther(c, start);
    MaskTail(input, output, start, length, c, d, was, c, 0);
  }

  // A piece of a message: words, then octets with the octets of the prepared key;
  // the key is handed back in phase with the next piece.
  method WordMaskCirc(m: Machine, input: array<octet>, output: array<octet>, length: nat, preparedKey: Word,
                      ghost c: Key, ghost offset: nat)
    returns (next: Word)
    requires length <= input.Length && length <= output.Length && Carries(m, preparedKey, c, offset)
    modifies output
    ensures output[..] == Masked(old(input[..length]), c, offset) + old(output[length..])
    ensures Carries(m, next, c, offset + length)
  {
    hide Masked, MaskedUpTo, Address, Words, Behind, InMemory, CircShiftPreparedKey, Carries, Phase;
    FitsWhatCarries(m, preparedKey, c, offset);
    ghost var d, was := input[..length], output[..];
    MaskWords(m, input, output, length, preparedKey, c, offset);
    var start := Address(m, Words(m, length));
    WordsFit(m, length, Words(m, length));
    CarriedFurther(m, preparedKey, c, offset, start);
    MaskTail(input, output, start, length, InMemory(m, preparedKey), d, was, c, offset);
    next := CircShiftPreparedKey(m, preparedKey, Behind(m, length));
    FourTimesWords(m, length);
    ShiftedCarries(m, preparedKey, c, offset, Behind(m, length), length);
  }

  // The low 32 bits of a key, as they lie in memory.
  function LowKey(m: Machine, w: Word): (c: octets)
    requires Fits(m, w)
    ensures |c| == 4
  {
    InMemory(Machine(m.little, false), Narrow(if m.wide then Low32(w.w) else w.n))
  }

  function Low32(w: bv64): bv32 { (w & 0xFFFF_FFFF) as bv32 }

  lemma {:induction false} Low32Inline(w: bv64)
    ensures Octets32((w & 0xFFFF_FFFF) as bv32) == Octets64(w)[..4]
  {
  }

  lemma {:induction false} Low32Octets(w: bv64)
    ensures Octets32(Low32(w)) == Octets64(w)[..4]
  {
    hide Octets32, Octets64;
    Low32Inline(w);
  }

  // They are as good as the whole key, which repeats every four octets.
  lemma {:induction false} LowKeyCarries(m: Machine, w: Word, c: Key, offset: nat)
    requires Carries(m, w, c, offset)
    ensures forall k :: 0 <= k < 4 ==> LowKey(m, w)[k] == c[Phase(offset + k)]
  {
    hide Octets32, Octets64, Low32, Reversed;
    if m.wide {
      Low32Octets(w.w);
      forall k | 0 <= k < 4
        ensures LowKey(m, w)[k] == c[Phase(offset + k)]
      {
        assert InMemory(m, w)[k] == c[Phase(offset + k)];
        assert InMemory(m, w)[k + 4] == c[Phase(offset + (k + 4))] == c[Phase(offset + k)];
      }
    }
  }

  // A piece of a message, octet by octet.
  method ByteMaskCirc(m: Machine, input: array<octet>, output: array<octet>, length: nat, preparedKey: Word,
                      ghost c: Key, ghost offset: nat)
    returns (next: Word)
    requires length <= input.Length && length <= output.Length && Carries(m, preparedKey, c, offset)
    modifies output
    ensures output[..] == Masked(old(input[..length]), c, offset) + old(output[length..])
    ensures Carries(m, next, c, offset + length)
  {
    hide Masked, MaskedUpTo, InMemory, CircShiftPreparedKey, LowKey, Carries;
    ghost var d, was := input[..length], output[..];
    FitsWhatCarries(m, preparedKey, c, offset);
    var key := LowKey(m, preparedKey);
    LowKeyCarries(m, preparedKey, c, offset);
    NothingMasked(d, was, c, offset);
    MaskTail(input, output, 0, length, key, d, was, c, offset);
    next := CircShiftPreparedKey(m, preparedKey, length % 4);
    ShiftedCarries(m, preparedKey, c, offset, length % 4, length);
  }

  lemma {:induction false} FitsWhatCarries(m: Machine, w: Word, c: Key, offset: nat)
    requires Carries(m, w, c, offset)
    ensures Fits(m, w)
  {
  }

  function Joined(pieces: seq<octets>): octets {
    if pieces == [] then [] else pieces[0] + Joined(pieces[1..])
  }

  // One piece, masked in place.
  method MaskPiece(m: Machine, x: octets, byWords: bool, key: Word, ghost c: Key, ghost offset: nat)
    returns (masked: octets, next: Word)
    requires Carries(m, key, c, offset)
    ensures masked == Masked(x, c, offset) && Carries(m, next, c, offset + |x|)
  {
    hide Masked, Carries;
    var data := new octet[|x|](k requires 0 <= k < |x| => x[k]);
    assert data[..data.Length] == x;
    if byWords {
      next := WordMaskCirc(m, data, data, data.Length, key, c, offset);
    } else {
      next := ByteMaskCirc(m, data, data, data.Length, key, c, offset);
    }
    masked := data[..];
    assert masked == Masked(x, c, offset) + [] == Masked(x, c, offset);
  }

  // A message in any pieces, each masked in place by words or by octets with the
  // key that the piece before handed back: together they are the message masked
  // as a whole, as byte_mask would do it.
  method MaskStream(m: Machine, pieces: seq<octets>, byWords: seq<bool>, c: Key) returns (masked: octets)
    requires |byWords| == |pieces|
    ensures masked == Masked(Joined(pieces), c, 0)
  {
    hide Masked, Carries;
    masked := [];
    var key := PrepareMaskingKey(m, c);
    PreparedCarries(m, c);
    ghost var offset: nat := 0;
    var i := 0;
    assert pieces[0..] == pieces && [] + Masked(Joined(pieces), c, 0) == Masked(Joined(pieces), c, 0);
    while i < |pieces|
      invariant 0 <= i <= |pieces| && Carries(m, key, c, offset)
      invariant masked + Masked(Joined(pieces[i..]), c, offset) == Masked(Joined(pieces), c, 0)
    {
      ghost var x := pieces[i];
      assert pieces[i..][0] == x && pieces[i..][1..] == pieces[i + 1..];
      MaskedConcat(x, Joined(pieces[i + 1..]), c, offset);
      var piece;
      piece, key := MaskPiece(m, pieces[i], byWords[i], key, c, offset);
      masked := masked + piece;
      offset := offset + |x|;
      i := i + 1;
    }
    assert pieces[i..] == [];
    NothingToMask(c, offset);
    assert masked + [] == masked;
  }

  lemma {:induction false} NothingToMask(c: Key, offset: nat)
    ensures Masked(Joined([]), c, offset) == []
  {
  }
}
