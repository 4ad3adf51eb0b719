// The loop that decodes a string, as the code runs it. A bad hexadecimal digit
// is reported without leaving the loop, so that a call may report a second
// error, which its assertion forbids, or take the terminator for a digit and
// read on behind the text. JsonScan stops at the first error; here it is proved
// on which texts that makes a difference.

module JsonStringLoop {
  import opened Bytes
  import opened JsonTypes
  import opened JsonScan

  // The error slot of the reader. It may be assigned once.
  datatype ParseResult = Fine | Failed(code: ErrorCode, off: nat)

  // What happens besides the error that is reported first: an assertion fails
  // at a second report, or bytes behind the terminator are read.
  datatype Fault = NoFault | SecondError(code: ErrorCode, off: nat) | BehindText

  // How the loop is left: at a closing quote with all escapes intact, or else.
  datatype Ending = Unquoted(pos: nat, s: bytes) | Ended(error: ParseResult, fault: Fault)

  // An error is reported while e is in the slot.
  function Reported(e: ParseResult, code: ErrorCode, off: nat): Ending {
    if e.Fine? then Ended(Failed(code, off), NoFault) else Ended(e, SecondError(code, off))
  }

  // Behind a unicode escape the loop goes on or is left.
  datatype Escape = Went(pos: nat, s: bytes, error: ParseResult) | Quit(end: Ending)

  // The escape whose letter u is at p - 1. Four digits that are not read count
  // as zero, which is no low surrogate.
  function UnicodeEscape(t: bytes, p: nat, e: ParseResult): (r: Escape)
    ensures r.Went? ==> p < r.pos
  {
    match ScanHex(t, p, 4, 0)
    case Bad(c, o) =>
      BadAt(t, p, 4, 0);
      if e.Fine? then Went(o + 1, Utf8Encode(0), Failed(c, o)) else Quit(Reported(e, c, o))
    case Scanned(q, cp) =>
      if cp < 0xD800 || cp > 0xDBFF then
        HexRange(t, p, 4, 0);
        Went(q, Utf8Encode(cp), e)
      else if Peek(t, q) != BACKSLASH then Quit(Reported(e, StringUnicodeSurrogateInvalid, q + 1 - 2))
      else if Peek(t, q + 1) != 117 then Quit(Reported(e, StringUnicodeSurrogateInvalid, q + 2 - 2))
      else
        match ScanHex(t, q + 2, 4, 0)
        case Bad(c, o) =>
          BadAt(t, q + 2, 4, 0);
          Quit(if e.Fine? then Reported(Failed(c, o), StringUnicodeSurrogateInvalid, o + 1 - 2)
               else Reported(e, c, o))
        case Scanned(s, low) =>
          if low < 0xDC00 || low > 0xDFFF then Quit(Reported(e, StringUnicodeSurrogateInvalid, s - 2))
          else Went(s, Utf8Encode((cp - 0xD800) * 1024 + (low - 0xDC00) + 0x10000), e)
  }

  // The escape whose backslash is at p.
  function AnyEscape(t: bytes, p: nat, e: ParseResult): (r: Escape)
    ensures r.Went? ==> p < r.pos
  {
    var x := Peek(t, p + 1);
    if Unescape(x) != NUL then Went(p + 2, [Unescape(x)], e)
    else if x == 117 then UnicodeEscape(t, p + 2, e)
    else Quit(Reported(e, StringEscapeInvalid, p + 1))
  }

  // The loop at position p with decoded bytes acc and error slot e.
  function StringLoop(t: bytes, p: nat, acc: bytes, e: ParseResult): Ending
    requires p > 0
    decreases Left(t, p)
  {
    if p > |t| then Ended(e, BehindText)
    else
      var c := Peek(t, p);
      if c == BACKSLASH then
        match AnyEscape(t, p, e)
        case Quit(end) => end
        case Went(q, s, f) => StringLoop(t, q, acc + s, f)
      else if c == QUOTE then (if e.Fine? then Unquoted(p + 1, acc) else Ended(e, NoFault))
      else if c == NUL then Reported(e, StringMissQuotationMark, p - 1)
      else if c < SPACE then Reported(e, StringEscapeInvalid, p - 1)
      else StringLoop(t, p + 1, acc + [c], e)
  }

  /* The condition on the text */

  // How many backslashes stand in a row in front of p.
  function Backslashes(t: bytes, p: nat): nat {
    if p > 0 && Peek(t, p - 1) == BACKSLASH then Backslashes(t, p - 1) + 1 else 0
  }

  // A unicode escape begins at x: its backslash is not itself escaped.
  predicate UnicodeAt(t: bytes, x: nat) {
    Peek(t, x) == BACKSLASH && Peek(t, x + 1) == 117 && Backslashes(t, x) % 2 == 0
  }

  predicate HighAt(t: bytes, h: nat) {
    var r := ScanHex(t, h, 4, 0);
    r.Scanned? && 0xD800 <= r.value <= 0xDBFF
  }

  // In front of position o stand the escape of a high surrogate, backslash, u
  // and j hexadecimal digits.
  predicate LowAfter(t: bytes, o: nat, j: nat) {
    && o >= j + 8
    && UnicodeAt(t, o - j - 8) && HighAt(t, o - j - 6)
    && Peek(t, o - j - 2) == BACKSLASH && Peek(t, o - j - 1) == 117
    && (forall k :: o - j <= k < o ==> IsHex(Peek(t, k)))
  }

  // The digit at o belongs to the low half of a surrogate pair.
  predicate InLowHalf(t: bytes, o: nat) {
    exists j :: 0 <= j < 4 && LowAfter(t, o, j)
  }

  // Behind a bad digit at o, which is in no low half, the rest closes without error.
  predicate Recovers(t: bytes, o: nat) {
    !InLowHalf(t, o) && ScanChars(t, o + 1, []).Scanned?
  }

  // The error that the rest of a string holds by itself.
  function RestFault(r: Scan<bytes>): Fault {
    match r
    case Scanned(_, _) => NoFault
    case Bad(c, o) => SecondError(c, o)
  }

  // What follows the report of a bad digit at o.
  function AfterBadHex(t: bytes, o: nat): Fault {
    if InLowHalf(t, o) then SecondError(StringUnicodeSurrogateInvalid, o - 1)
    else if o >= |t| then BehindText
    else RestFault(ScanChars(t, o + 1, []))
  }

  // What follows the first error of a parse.
  function Aftermath(t: bytes, e: ParseResult): Fault {
    if e.Failed? && e.code == StringUnicodeEscapeInvalidHex then AfterBadHex(t, e.off) else NoFault
  }

  // Up to position p of the string that begins at start, every unicode escape
  // is complete and no backslash is pending.
  ghost predicate Settled(t: bytes, start: nat, p: nat) {
    && 0 < start <= p && Peek(t, start - 1) == QUOTE
    && Backslashes(t, p) % 2 == 0
    && forall x :: start <= x < p && UnicodeAt(t, x) ==> Complete(t, x, p)
  }

  ghost predicate Complete(t: bytes, x: nat, p: nat) {
    x + 6 <= p && ScanHex(t, x + 2, 4, 0).Scanned? && (HighAt(t, x + 2) ==> x + 12 <= p)
  }

  // Where a failing scan of digits stops, and what stands in front.
  lemma {:induction false} BadAt(t: bytes, p: nat, left: nat, v: nat)
    ensures var r := ScanHex(t, p, left, v);
            r.Bad? ==>
              && r.code == StringUnicodeEscapeInvalidHex && p <= r.off < p + left
              && !IsHex(Peek(t, r.off)) && forall k :: p <= k < r.off ==> IsHex(Peek(t, k))
    decreases left
  {
    if left > 0 && IsHex(Peek(t, p)) {
      BadAt(t, p + 1, left - 1, v * 16 + HexValue(Peek(t, p)));
    }
  }

  lemma {:induction false} GoodDigits(t: bytes, p: nat, left: nat, v: nat)
    requires ScanHex(t, p, left, v).Scanned?
    ensures forall k :: p <= k < p + left ==> IsHex(Peek(t, k))
    ensures left > 0 ==> p + left <= |t|
    decreases left
  {
    if left > 0 {
      GoodDigits(t, p + 1, left - 1, v * 16 + HexValue(Peek(t, p)));
    }
  }

  /* Steps of the scan keep it settled */

  lemma {:induction false} SettledStart(t: bytes, p: nat)
    requires Peek(t, p) == QUOTE
    ensures Settled(t, p + 1, p + 1)
  {
  }

  lemma {:induction false} SettledPlain(t: bytes, start: nat, p: nat)
    requires Settled(t, start, p) && Peek(t, p) != BACKSLASH
    ensures Settled(t, start, p + 1)
  {
    forall x | start <= x < p + 1 && UnicodeAt(t, x) ensures Complete(t, x, p + 1) {
      assert x < p;
      assert Complete(t, x, p);
    }
  }

  lemma {:induction false} SettledEscape(t: bytes, start: nat, p: nat)
    requires Settled(t, start, p) && Peek(t, p) == BACKSLASH && Peek(t, p + 1) != 117
    ensures Settled(t, start, p + 2)
  {
    assert Backslashes(t, p + 1) == Backslashes(t, p) + 1;
    forall x | start <= x < p + 2 && UnicodeAt(t, x) ensures Complete(t, x, p + 2) {
      assert x != p && x != p + 1;
      assert Complete(t, x, p);
    }
  }

  // Behind four digits nothing is escaped.
  lemma {:induction false} DigitsSettle(t: bytes, h: nat)
    requires ScanHex(t, h, 4, 0).Scanned?
    ensures Backslashes(t, h + 4) == 0
    ensures forall k :: h <= k < h + 4 ==> Peek(t, k) != BACKSLASH
  {
    hide ScanHex;
    GoodDigits(t, h, 4, 0);
    assert IsHex(Peek(t, h + 3));
  }

  lemma {:induction false} SettledUnicode(t: bytes, start: nat, p: nat)
    requires Settled(t, start, p) && Peek(t, p) == BACKSLASH && Peek(t, p + 1) == 117
    requires ScanUnicode(t, p + 2).Scanned?
    ensures Settled(t, start, ScanUnicode(t, p + 2).pos)
  {
    hide ScanHex, Utf8Encode;
    var q := ScanUnicode(t, p + 2).pos;
    DigitsSettle(t, p + 2);
    if q != p + 6 {
      DigitsSettle(t, p + 8);
    }
    forall x | start <= x < q && UnicodeAt(t, x) ensures Complete(t, x, q) {
      if x < p {
        assert Complete(t, x, p);
      } else {
        assert x == p || x == p + 6;
      }
    }
  }

  /* Which half of a pair a bad digit is in */

  // The letter u in front of the digits is found where it was scanned.
  lemma {:induction false} SameEscape(t: bytes, h: nat, o: nat, j: nat)
    requires h > 0 && h <= o && Peek(t, h - 1) == 117
    requires forall k :: h <= k < o ==> IsHex(Peek(t, k))
    ensures LowAfter(t, o, j) ==> h == o - j
  {
    hide UnicodeAt, HighAt;
    assert !IsHex(Peek(t, h - 1));
    assert LowAfter(t, o, j) ==> !IsHex(Peek(t, o - j - 1));
  }

  lemma {:induction false} HighDigits(t: bytes, h: nat)
    ensures HighAt(t, h) ==> forall k :: h <= k < h + 4 ==> IsHex(Peek(t, k))
  {
    hide ScanHex;
    if HighAt(t, h) {
      GoodDigits(t, h, 4, 0);
    }
  }

  // At a settled position no high surrogate waits for its low half.
  lemma {:induction false} NoHighWaits(t: bytes, start: nat, p: nat)
    requires Settled(t, start, p) && p >= 6
    ensures !(UnicodeAt(t, p - 6) && HighAt(t, p - 4))
  {
    hide ScanHex, Backslashes;
    HighDigits(t, p - 4);
    if start <= p - 6 {
      assert UnicodeAt(t, p - 6) ==> Complete(t, p - 6, p);
    } else {
      assert !IsHex(Peek(t, start - 1));
    }
  }

  // A bad digit in the first four is in no low half.
  lemma {:induction false} FirstHalf(t: bytes, start: nat, p: nat)
    requires Settled(t, start, p) && Peek(t, p) == BACKSLASH && Peek(t, p + 1) == 117
    requires ScanHex(t, p + 2, 4, 0).Bad?
    ensures !InLowHalf(t, ScanHex(t, p + 2, 4, 0).off)
  {
    hide ScanHex, Backslashes, Settled, UnicodeAt, HighAt;
    var o := ScanHex(t, p + 2, 4, 0).off;
    BadAt(t, p + 2, 4, 0);
    if p >= 6 { NoHighWaits(t, start, p); }
    forall j | 0 <= j < 4 ensures !LowAfter(t, o, j) {
      SameEscape(t, p + 2, o, j);
    }
  }

  lemma {:induction false} SecondHalf(t: bytes, start: nat, p: nat)
    requires Settled(t, start, p) && Peek(t, p) == BACKSLASH && Peek(t, p + 1) == 117
    requires HighAt(t, p + 2) && Peek(t, p + 6) == BACKSLASH && Peek(t, p + 7) == 117
    requires ScanHex(t, p + 8, 4, 0).Bad?
    ensures InLowHalf(t, ScanHex(t, p + 8, 4, 0).off)
  {
    hide ScanHex, Backslashes;
    var o := ScanHex(t, p + 8, 4, 0).off;
    BadAt(t, p + 8, 4, 0);
    assert LowAfter(t, o, o - p - 8);
  }

  /* The loop compared with the scan */

  // Decoded bytes do not steer the scan.
  lemma {:induction false} BytesDoNotSteer(t: bytes, p: nat, a: bytes, b: bytes)
    requires p > 0
    ensures RestFault(ScanChars(t, p, a)) == RestFault(ScanChars(t, p, b))
    decreases Left(t, p)
  {
    hide ScanUnicode;
    var c := Peek(t, p);
    if c == BACKSLASH {
      var x := Peek(t, p + 1);
      if Unescape(x) != NUL {
        BytesDoNotSteer(t, p + 2, a + [Unescape(x)], b + [Unescape(x)]);
      } else if x == 117 && ScanUnicode(t, p + 2).Scanned? {
        var r := ScanUnicode(t, p + 2);
        BytesDoNotSteer(t, r.pos, a + r.value, b + r.value);
      }
    } else if c != QUOTE && c >= SPACE {
      BytesDoNotSteer(t, p + 1, a + [c], b + [c]);
    }
  }

  // An escape without error, and one with an error while one is in the slot.
  lemma {:induction false} EscapeScans(t: bytes, p: nat, e: ParseResult)
    ensures var r := ScanUnicode(t, p); var u := UnicodeEscape(t, p, e);
            && (r.Scanned? ==> u == Went(r.pos, r.value, e) && r.pos <= |t|)
            && (r.Bad? && (e.Failed? || r.code != StringUnicodeEscapeInvalidHex) ==>
                  u == Quit(Reported(e, r.code, r.off)))
  {
    hide ScanHex, Utf8Encode;
    if ScanHex(t, p, 4, 0).Scanned? {
      GoodDigits(t, p, 4, 0);
      if ScanHex(t, p + 6, 4, 0).Scanned? { GoodDigits(t, p + 6, 4, 0); } else { BadAt(t, p + 6, 4, 0); }
    } else {
      BadAt(t, p, 4, 0);
    }
  }

  // With an error in the slot, the loop reports again exactly where the rest fails.
  lemma {:induction false} LoopAfterError(t: bytes, p: nat, acc: bytes, e: ParseResult)
    requires 0 < p <= |t| && e.Failed?
    ensures StringLoop(t, p, acc, e) == Ended(e, RestFault(ScanChars(t, p, acc)))
    decreases Left(t, p)
  {
    hide ScanUnicode, UnicodeEscape;
    var c := Peek(t, p);
    if c == BACKSLASH {
      var x := Peek(t, p + 1);
      if Unescape(x) != NUL {
        LoopAfterError(t, p + 2, acc + [Unescape(x)], e);
      } else if x == 117 {
        EscapeScans(t, p + 2, e);
        var r := ScanUnicode(t, p + 2);
        if r.Scanned? { LoopAfterError(t, r.pos, acc + r.value, e); }
      }
    } else if c != QUOTE && c >= SPACE {
      LoopAfterError(t, p + 1, acc + [c], e);
    }
  }

  // The ending that belongs to what the scan finds.
  function EndingOf(t: bytes, r: Scan<bytes>): Ending {
    match r
    case Scanned(q, s) => Unquoted(q, s)
    case Bad(c, o) => Ended(Failed(c, o), Aftermath(t, Failed(c, o)))
  }

  // A bad digit in the first four, the first error: the rest decides.
  lemma {:induction false} LoopAtFirstHalf(t: bytes, start: nat, p: nat, acc: bytes)
    requires Settled(t, start, p) && Peek(t, p) == BACKSLASH && Peek(t, p + 1) == 117
    requires ScanHex(t, p + 2, 4, 0).Bad?
    ensures StringLoop(t, p, acc, Fine) == EndingOf(t, ScanUnicode(t, p + 2))
  {
    hide ScanHex, InLowHalf, Backslashes, Settled, Utf8Encode;
    var o := ScanHex(t, p + 2, 4, 0).off;
    FirstHalf(t, start, p);
    BadAt(t, p + 2, 4, 0);
    if o < |t| {
      LoopAfterError(t, o + 1, acc + Utf8Encode(0), Failed(StringUnicodeEscapeInvalidHex, o));
      BytesDoNotSteer(t, o + 1, acc + Utf8Encode(0), []);
    }
  }

  // In a low half it is reported at once again.
  lemma {:induction false} LoopAtSecondHalf(t: bytes, start: nat, p: nat, acc: bytes)
    requires Settled(t, start, p) && Peek(t, p) == BACKSLASH && Peek(t, p + 1) == 117
    requires ScanHex(t, p + 2, 4, 0).Scanned?
    requires var r := ScanUnicode(t, p + 2); r.Bad? && r.code == StringUnicodeEscapeInvalidHex
    ensures StringLoop(t, p, acc, Fine) == EndingOf(t, ScanUnicode(t, p + 2))
  {
    hide ScanHex, InLowHalf, Backslashes, Settled, Utf8Encode;
    BadAt(t, p + 8, 4, 0);
    SecondHalf(t, start, p);
  }

  lemma {:induction false} LoopScans(t: bytes, start: nat, p: nat, acc: bytes)
    requires Settled(t, start, p) && 0 < p <= |t|
    ensures StringLoop(t, p, acc, Fine) == EndingOf(t, ScanChars(t, p, acc))
    decreases Left(t, p)
  {
    hide ScanHex, ScanUnicode, UnicodeEscape, Settled, AfterBadHex;
    var c := Peek(t, p);
    if c == BACKSLASH {
      var x := Peek(t, p + 1);
      if Unescape(x) != NUL {
        SettledEscape(t, start, p);
        LoopScans(t, start, p + 2, acc + [Unescape(x)]);
      } else if x == 117 {
        EscapeScans(t, p + 2, Fine);
        var r := ScanUnicode(t, p + 2);
        if r.Scanned? {
          SettledUnicode(t, start, p);
          LoopScans(t, start, r.pos, acc + r.value);
        } else if r.code == StringUnicodeEscapeInvalidHex {
          if ScanHex(t, p + 2, 4, 0).Bad? {
            LoopAtFirstHalf(t, start, p, acc);
          } else {
            LoopAtSecondHalf(t, start, p, acc);
          }
        }
      }
    } else if c != QUOTE && c >= SPACE {
      SettledPlain(t, start, p);
      LoopScans(t, start, p + 1, acc + [c]);
    }
  }

  // The loop over a whole string.
  lemma {:induction false} StringScans(t: bytes, p: nat)
    requires Peek(t, p) == QUOTE
    ensures StringLoop(t, p + 1, [], Fine) == EndingOf(t, ScanString(t, p))
  {
    hide StringLoop, ScanChars, Settled, Aftermath;
    SettledStart(t, p);
    LoopScans(t, p + 1, p + 1, []);
  }

  lemma {:induction false} NothingBehind(t: bytes, p: nat)
    requires p > |t|
    ensures ScanChars(t, p, []).Bad?
  {
  }

  // The code reports exactly the error of the grammar, once, and stays inside
  // the text, if and only if that error is no bad digit or the rest recovers.
  lemma {:induction false} OneErrorExactly(t: bytes, e: ParseResult)
    ensures Aftermath(t, e) == NoFault <==>
            (e.Failed? && e.code == StringUnicodeEscapeInvalidHex ==> Recovers(t, e.off))
  {
    hide ScanChars, InLowHalf;
    if e.Failed? && !InLowHalf(t, e.off) && e.off >= |t| {
      assert ScanChars(t, e.off + 1, []).Bad? by { NothingBehind(t, e.off + 1); }
    }
  }
}
