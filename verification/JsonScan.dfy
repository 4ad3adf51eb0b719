// The tokens of RFC 4627 as the reader scans them: numbers and strings.

module JsonScan {
  import opened Bytes
  import opened JsonTypes

  /* Numbers */

  // DBL_MAX / 10, the bound behind which a digit run is refused.
  const DBL_MAX_TENTH: nat := 17976931348623157000000000000000000000000000000000000000000000000000000000000000000000000000000000000000000000000000000000000000000000000000000000000000000000000000000000000000000000000000000000000000000000000000000000000000000000000000000000000000000000000000000000000000000000000000000000000000000000000000

  predicate Fits64(minus: bool, n: nat) {
    if minus then n <= TWO63 else n < TWO64
  }

  predicate Fits32(minus: bool, n: nat) {
    if minus then n <= TWO31 else n < TWO32
  }

  // The event that reports an integer token.
  function IntegerEvent(minus: bool, n: nat): Event {
    if Fits32(minus, n) then (if minus then Int(-(n as int)) else Uint(n))
    else if minus then Int64(-(n as int)) else Uint64(n)
  }

  // zero / ( digit1-9 *DIGIT )
  function IntegerEnd(t: bytes, q: nat): (e: nat)
    requires IsDigit(Peek(t, q))
    ensures q < e <= |t|
    ensures forall k :: q <= k < e ==> IsDigit(Peek(t, k))
  {
    if Peek(t, q) == ZERO then q + 1 else DigitsEnd(t, q)
  }

  // Scanning on from k, is there a digit that follows a number of at least limit?
  function FirstBeyond(t: bytes, q: nat, k: nat, e: nat, limit: nat): (r: Scan<()>)
    requires q <= k <= e
    requires forall j :: q <= j < e ==> IsDigit(Peek(t, j))
    ensures r.Bad? ==> r.code != StringUnicodeEscapeInvalidHex
    decreases e - k
  {
    if k == e then Scanned(e, ())
    else if Decimal(t, q, k) >= limit then Bad(NumberTooBig, k)
    else FirstBeyond(t, q, k + 1, e, limit)
  }

  // An optional fraction at e; the value says whether there was one.
  function ScanFraction(t: bytes, e: nat): (r: Scan<bool>)
    ensures r.Scanned? ==> e <= r.pos && (e <= |t| ==> r.pos <= |t|)
    ensures r.Bad? ==> r.code != StringUnicodeEscapeInvalidHex
  {
    if Peek(t, e) != DOT then Scanned(e, false)
    else if !IsDigit(Peek(t, e + 1)) then Bad(NumberMissFraction, e + 1)
    else Scanned(DigitsEnd(t, e + 1), true)
  }

  predicate IsExponentMark(c: byte) { c == 101 || c == 69 }

  // The digits of an exponent that starts at s, read up to k.
  function ScanExponentDigits(t: bytes, s: nat, k: nat, expMinus: bool): (r: Scan<bool>)
    requires s < k <= DigitsEnd(t, s)
    ensures r.Scanned? ==> r.pos == DigitsEnd(t, s) && r.value
    ensures r.Bad? ==> r.code != StringUnicodeEscapeInvalidHex
    decreases DigitsEnd(t, s) - k
  {
    if k == DigitsEnd(t, s) then Scanned(k, true)
    else if Decimal(t, s, k + 1) > 308 && !expMinus then Bad(NumberTooBig, k + 1)
    else ScanExponentDigits(t, s, k + 1, expMinus)
  }

  function ScanExponent(t: bytes, f: nat): (r: Scan<bool>)
    ensures r.Scanned? ==> f <= r.pos && (f <= |t| ==> r.pos <= |t|)
    ensures r.Bad? ==> r.code != StringUnicodeEscapeInvalidHex
  {
    if !IsExponentMark(Peek(t, f)) then Scanned(f, false)
    else
      var s := if Peek(t, f + 1) == PLUS || Peek(t, f + 1) == MINUS then f + 2 else f + 1;
      if !IsDigit(Peek(t, s)) then Bad(NumberMissExponent, s)
      else ScanExponentDigits(t, s, s + 1, Peek(t, f + 1) == MINUS)
  }

  // The fraction and exponent behind an integer part n that ends at e.
  function ScanTail(t: bytes, p: nat, e: nat, minus: bool, n: nat): (r: Scan<Event>)
    requires p < e <= |t|
    ensures r.Scanned? ==> e <= r.pos <= |t|
    ensures r.Bad? ==> r.code != StringUnicodeEscapeInvalidHex
  {
    match ScanFraction(t, e)
    case Bad(c, o) => Bad(c, o)
    case Scanned(f, fraction) =>
      match ScanExponent(t, f)
      case Bad(c, o) => Bad(c, o)
      case Scanned(x, exponent) =>
        if fraction || exponent || !Fits64(minus, n) then Scanned(x, Double(t[p..x]))
        else Scanned(x, IntegerEvent(minus, n))
  }

  function ScanNumber(t: bytes, p: nat): (r: Scan<Event>)
    ensures r.Scanned? ==> p < r.pos <= |t|
  {
    var minus := Peek(t, p) == MINUS;
    var q := if minus then p + 1 else p;
    if !IsDigit(Peek(t, q)) then Bad(ValueInvalid, q)
    else
      var e := IntegerEnd(t, q);
      var n := Decimal(t, q, e);
      match FirstBeyond(t, q, q, e, DBL_MAX_TENTH)
      case Bad(c, o) => Bad(c, o)
      case Scanned(_, _) => ScanTail(t, p, e, minus, n)
  }

  // Behind its optional minus a number is its integer part and what follows.
  lemma {:induction false} NumberSplits(t: bytes, p: nat, q: nat, minus: bool)
    requires minus == (Peek(t, p) == MINUS) && q == (if minus then p + 1 else p) && IsDigit(Peek(t, q))
    ensures var e := IntegerEnd(t, q);
            var r := FirstBeyond(t, q, q, e, DBL_MAX_TENTH);
            (ScanNumber(t, p)
              == if r.Bad? then Bad(r.code, r.off) else ScanTail(t, p, e, minus, Decimal(t, q, e)))
  {
    hide FirstBeyond, Decimal, IntegerEnd, ScanTail;
  }

  /* Strings */

  // What an escape letter stands for; NUL when it is no such letter.
  function Unescape(e: byte): byte {
    if e == QUOTE || e == SLASH || e == BACKSLASH then e
    else if e == 98 then 8        // b
    else if e == 102 then 12      // f
    else if e == 110 then LF      // n
    else if e == 114 then CR      // r
    else if e == 116 then TAB     // t
    else NUL
  }

  predicate IsHex(c: byte) { IsDigit(c) || 65 <= c <= 70 || 97 <= c <= 102 }

  function HexValue(c: byte): (v: nat)
    requires IsHex(c)
    ensures v < 16
  {
    if IsDigit(c) then c - ZERO else if c <= 70 then c - 55 else c - 87
  }

  // Four hexadecimal digits, read from the left; v is the value of those already read.
  function ScanHex(t: bytes, p: nat, left: nat, v: nat): (r: Scan<nat>)
    ensures r.Scanned? ==> r.pos == p + left
    decreases left
  {
    if left == 0 then Scanned(p, v)
    else if IsHex(Peek(t, p)) then ScanHex(t, p + 1, left - 1, v * 16 + HexValue(Peek(t, p)))
    else Bad(StringUnicodeEscapeInvalidHex, p)
  }

  // The UTF-8 form of a code point.
  function Utf8Encode(cp: nat): bytes
    requires cp <= 0x10FFFF
  {
    if cp <= 0x7F then [cp]
    else if cp <= 0x7FF then [0xC0 + cp / 64, 0x80 + cp % 64]
    else if cp <= 0xFFFF then [0xE0 + cp / 4096, 0x80 + cp / 64 % 64, 0x80 + cp % 64]
    else [0xF0 + cp / 0x40000, 0x80 + cp / 4096 % 64, 0x80 + cp / 64 % 64, 0x80 + cp % 64]
  }

  // The escape whose letter u is at p - 1: one code unit or a surrogate pair.
  function ScanUnicode(t: bytes, p: nat): (r: Scan<bytes>)
    ensures r.Scanned? ==> p < r.pos
  {
    match ScanHex(t, p, 4, 0)
    case Bad(c, o) => Bad(c, o)
    case Scanned(q, cp) =>
      if cp < 0xD800 || cp > 0xDBFF then
        HexRange(t, p, 4, 0);
        Scanned(q, Utf8Encode(cp))
      else if Peek(t, q) != BACKSLASH then Bad(StringUnicodeSurrogateInvalid, q + 1 - 2)
      else if Peek(t, q + 1) != 117 then Bad(StringUnicodeSurrogateInvalid, q + 2 - 2)
      else
        match ScanHex(t, q + 2, 4, 0)
        case Bad(c, o) => Bad(c, o)
        case Scanned(s, low) =>
          if low < 0xDC00 || low > 0xDFFF then Bad(StringUnicodeSurrogateInvalid, s - 2)
          else Scanned(s, Utf8Encode((cp - 0xD800) * 1024 + (low - 0xDC00) + 0x10000))
  }

  lemma {:induction false} HexRange(t: bytes, p: nat, left: nat, v: nat)
    requires left <= 4 && (left == 4 ==> v == 0) && (left == 3 ==> v < 16)
    requires (left == 2 ==> v < 256) && (left == 1 ==> v < 4096) && (left == 0 ==> v < 65536)
    ensures ScanHex(t, p, left, v).Scanned? ==> ScanHex(t, p, left, v).value < 65536
    decreases left
  {
    if left > 0 && IsHex(Peek(t, p)) {
      HexRange(t, p + 1, left - 1, v * 16 + HexValue(Peek(t, p)));
    }
  }

  // The rest of a string whose bytes so far are acc.
  function ScanChars(t: bytes, p: nat, acc: bytes): (r: Scan<bytes>)
    requires p > 0
    ensures r.Scanned? ==> p < r.pos
    decreases Left(t, p)
  {
    var c := Peek(t, p);
    if c == BACKSLASH then
      var e := Peek(t, p + 1);
      if Unescape(e) != NUL then ScanChars(t, p + 2, acc + [Unescape(e)])
      else if e == 117 then
        match ScanUnicode(t, p + 2)
        case Bad(x, o) => Bad(x, o)
        case Scanned(q, s) => ScanChars(t, q, acc + s)
      else Bad(StringEscapeInvalid, p + 1)
    else if c == QUOTE then Scanned(p + 1, acc)
    else if c == NUL then Bad(StringMissQuotationMark, p - 1)
    else if c < SPACE then Bad(StringEscapeInvalid, p - 1)
    else ScanChars(t, p + 1, acc + [c])
  }

  // The string whose opening quote is at p.
  function ScanString(t: bytes, p: nat): (r: Scan<bytes>)
    ensures r.Scanned? ==> p < r.pos
  {
    ScanChars(t, p + 1, [])
  }
}
