// RFC 4627 as derivations: what a text may look like, white space included, and
// what it means. The parser accepts exactly the texts that can be derived, and
// reports what they mean. Bytes are given by their numbers, as in the RFC.

module JsonSyntax {
  import opened Bytes
  import opened JsonTypes
  import opened JsonScan
  import opened JsonGrammar

  /* Strings */

  // A character as it is written: as itself, by a letter, by one code unit or by two.
  datatype Char = Plain(b: byte) | Short(letter: byte) | Unit(hex: bytes) | Pair(high: bytes, low: bytes)

  predicate IsShort(letter: byte) {
    || letter == 34 || letter == 92 || letter == 47
    || letter == 98 || letter == 102 || letter == 110 || letter == 114 || letter == 116
  }

  function ShortMeans(letter: byte): byte {
    if letter == 98 then 8
    else if letter == 102 then 12
    else if letter == 110 then 10
    else if letter == 114 then 13
    else if letter == 116 then 9
    else letter
  }

  predicate IsNibble(c: byte) { 48 <= c <= 57 || 65 <= c <= 70 || 97 <= c <= 102 }

  function Nibble(c: byte): (v: nat)
    requires IsNibble(c)
    ensures v < 16
  {
    if c <= 57 then c - 48 else if c <= 70 then c - 65 + 10 else c - 97 + 10
  }

  predicate IsCode(h: bytes) { |h| == 4 && IsNibble(h[0]) && IsNibble(h[1]) && IsNibble(h[2]) && IsNibble(h[3]) }

  function Code(h: bytes): (v: nat)
    requires IsCode(h)
    ensures v < 0x10000
  {
    Nibble(h[0]) * 4096 + Nibble(h[1]) * 256 + Nibble(h[2]) * 16 + Nibble(h[3])
  }

  predicate IsHigh(h: bytes) { IsCode(h) && 0xD800 <= Code(h) <= 0xDBFF }

  predicate IsLow(h: bytes) { IsCode(h) && 0xDC00 <= Code(h) <= 0xDFFF }

  predicate GoodChar(c: Char) {
    match c
    case Plain(b) => b >= 32 && b != 34 && b != 92
    case Short(letter) => IsShort(letter)
    case Unit(h) => IsCode(h) && !IsHigh(h)
    case Pair(h, l) => IsHigh(h) && IsLow(l)
  }

  function CharText(c: Char): (s: bytes)
    ensures s != []
  {
    match c
    case Plain(b) => [b]
    case Short(letter) => [92, letter]
    case Unit(h) => [92, 117] + h
    case Pair(h, l) => [92, 117] + h + [92, 117] + l
  }

  function CharMeans(c: Char): bytes
    requires GoodChar(c)
  {
    match c
    case Plain(b) => [b]
    case Short(letter) => [ShortMeans(letter)]
    case Unit(h) => Utf8Encode(Code(h))
    case Pair(h, l) => Utf8Encode(0x10000 + (Code(h) - 0xD800) * 0x400 + (Code(l) - 0xDC00))
  }

  predicate GoodChars(cs: seq<Char>) { forall c <- cs :: GoodChar(c) }

  function CharsText(cs: seq<Char>): bytes { if cs == [] then [] else CharText(cs[0]) + CharsText(cs[1..]) }

  function CharsMean(cs: seq<Char>): bytes
    requires GoodChars(cs)
  {
    if cs == [] then [] else assert cs[0] in cs; CharMeans(cs[0]) + CharsMean(cs[1..])
  }

  function QuotedText(cs: seq<Char>): bytes { [34] + CharsText(cs) + [34] }

  /* Numbers */

  datatype Exponent = NoExponent | Exponent(mark: byte, sign: bytes, digits: bytes)

  // Without a fraction its digits are missing.
  datatype Numeral = Numeral(minus: bool, whole: bytes, fraction: bytes, exponent: Exponent)

  predicate OnlyDigits(s: bytes) { forall c <- s :: 48 <= c <= 57 }

  function Worth(s: bytes): nat
    requires OnlyDigits(s)
  {
    if s == [] then 0
    else
      var front := s[..|s| - 1];
      assert s[|s| - 1] in s && forall c <- front :: c in s;
      Worth(front) * 10 + (s[|s| - 1] - 48)
  }

  predicate GoodExponent(x: Exponent) {
    x.Exponent? ==>
      && (x.mark == 69 || x.mark == 101) && (x.sign == [] || x.sign == [43] || x.sign == [45])
      && x.digits != [] && OnlyDigits(x.digits)
  }

  // No number starts with a zero but those below one.
  predicate WellFormed(n: Numeral) {
    && n.whole != [] && OnlyDigits(n.whole) && (n.whole[0] == 48 ==> |n.whole| == 1)
    && OnlyDigits(n.fraction) && GoodExponent(n.exponent)
  }

  // The reader refuses more digits than the largest double has, and an exponent
  // above 308.
  predicate Bearable(n: Numeral)
    requires WellFormed(n)
  {
    && Worth(n.whole) / 10 < DBL_MAX_TENTH
    && (n.exponent.Exponent? ==> n.exponent.sign == [45] || Worth(n.exponent.digits) <= 308)
  }

  predicate GoodNumeral(n: Numeral) { WellFormed(n) && Bearable(n) }

  function MinusText(minus: bool): bytes { if minus then [45] else [] }

  function FractionText(fraction: bytes): bytes { if fraction == [] then [] else [46] + fraction }

  function ExponentText(x: Exponent): bytes { if x.NoExponent? then [] else [x.mark] + x.sign + x.digits }

  function NumeralText(n: Numeral): bytes {
    MinusText(n.minus) + n.whole + FractionText(n.fraction) + ExponentText(n.exponent)
  }

  // Integers are reported in the narrowest kind that holds them, unsigned
  // without a minus; everything else is a double.
  function NumeralMeans(n: Numeral): Event
    requires WellFormed(n)
  {
    var v := Worth(n.whole);
    if n.fraction != [] || n.exponent.Exponent? then Double(NumeralText(n))
    else if n.minus then
      if v <= 0x8000_0000 then Int(-(v as int))
      else if v <= 0x8000_0000_0000_0000 then Int64(-(v as int))
      else Double(NumeralText(n))
    else if v <= 0xFFFF_FFFF then Uint(v)
    else if v <= 0xFFFF_FFFF_FFFF_FFFF then Uint64(v)
    else Double(NumeralText(n))
  }

  /* Values */

  predicate AllBlank(s: bytes) { forall c <- s :: c == 32 || c == 9 || c == 10 || c == 13 }

  // A value with the white space between its tokens. An empty array or object
  // may hold white space, too.
  datatype Tree =
    | NullWord
    | TrueWord
    | FalseWord
    | NumberTree(n: Numeral)
    | StringTree(chars: seq<Char>)
    | ArrayTree(inside: bytes, items: seq<Item>)
    | ObjectTree(inside: bytes, fields: seq<Field>)

  datatype Item = Item(before: bytes, value: Tree, behind: bytes)

  datatype Field = Field(before: bytes, name: seq<Char>, afterName: bytes, beforeValue: bytes, value: Tree,
                         behind: bytes)

  predicate Good(v: Tree)
    decreases v, 0
  {
    match v
    case NumberTree(n) => GoodNumeral(n)
    case StringTree(cs) => GoodChars(cs)
    case ArrayTree(s, items) => AllBlank(s) && forall i <- items :: GoodItem(i)
    case ObjectTree(s, fields) => AllBlank(s) && forall f <- fields :: GoodField(f)
    case _ => true
  }

  predicate GoodItem(i: Item)
    decreases i, 1
  {
    AllBlank(i.before) && Good(i.value) && AllBlank(i.behind)
  }

  predicate GoodField(f: Field)
    decreases f, 1
  {
    && AllBlank(f.before) && GoodChars(f.name) && AllBlank(f.afterName)
    && AllBlank(f.beforeValue) && Good(f.value) && AllBlank(f.behind)
  }

  function TreeText(v: Tree): bytes
    decreases v, 0
  {
    match v
    case NullWord => [110, 117, 108, 108]
    case TrueWord => [116, 114, 117, 101]
    case FalseWord => [102, 97, 108, 115, 101]
    case NumberTree(n) => NumeralText(n)
    case StringTree(cs) => QuotedText(cs)
    case ArrayTree(s, items) => [91] + (if items == [] then s else ItemsText(items)) + [93]
    case ObjectTree(s, fields) => [123] + (if fields == [] then s else FieldsText(fields)) + [125]
  }

  function ItemText(i: Item): bytes
    decreases i, 1
  {
    i.before + TreeText(i.value) + i.behind
  }

  function ItemsText(items: seq<Item>): bytes
    decreases items
  {
    if items == [] then []
    else ItemText(items[0]) + if |items| == 1 then [] else [44] + ItemsText(items[1..])
  }

  function FieldText(f: Field): bytes
    decreases f, 1
  {
    f.before + QuotedText(f.name) + f.afterName + [58] + f.beforeValue + TreeText(f.value) + f.behind
  }

  function FieldsText(fields: seq<Field>): bytes
    decreases fields
  {
    if fields == [] then []
    else FieldText(fields[0]) + if |fields| == 1 then [] else [44] + FieldsText(fields[1..])
  }

  // What a value means does not depend on its white space.
  function TreeMeans(v: Tree): Log
    requires Good(v)
    decreases v, 0
  {
    match v
    case NullWord => [Null]
    case TrueWord => [Bool(true)]
    case FalseWord => [Bool(false)]
    case NumberTree(n) => [NumeralMeans(n)]
    case StringTree(cs) => [String(CharsMean(cs))]
    case ArrayTree(_, items) => [StartArray] + ItemsMean(items) + [EndArray(|items|)]
    case ObjectTree(_, fields) => [StartObject] + FieldsMean(fields) + [EndObject(|fields|)]
  }

  function ItemsMean(items: seq<Item>): Log
    requires forall i <- items :: GoodItem(i)
    decreases items
  {
    if items == [] then []
    else
      assert GoodItem(items[0]) && items[0].value < items[0];
      TreeMeans(items[0].value) + ItemsMean(items[1..])
  }

  function FieldMeans(f: Field): Log
    requires GoodField(f)
    decreases f, 1
  {
    [Key(CharsMean(f.name))] + TreeMeans(f.value)
  }

  function FieldsMean(fields: seq<Field>): Log
    requires forall f <- fields :: GoodField(f)
    decreases fields
  {
    if fields == [] then []
    else assert fields[0] in fields; FieldMeans(fields[0]) + FieldsMean(fields[1..])
  }

  // A text: one value between white space.
  datatype Text = Text(before: bytes, root: Tree, behind: bytes)

  predicate GoodText(d: Text) { AllBlank(d.before) && Good(d.root) && AllBlank(d.behind) }

  function Written(d: Text): bytes { d.before + TreeText(d.root) + d.behind }

  // The bytes t hold the text d, up to their end or a NUL.
  predicate Holds(t: bytes, d: Text) {
    At(t, 0, Written(d)) && (|t| > |Written(d)| ==> t[|Written(d)|] == 0)
  }

  /* Texts side by side */

  lemma {:induction false} ThreeParts(a: bytes, b: bytes, c: bytes)
    ensures a + b + c == a + (b + c)
  {
  }

  lemma {:induction false} NothingBefore(s: bytes)
    ensures [] + s == s
  {
  }

  lemma {:induction false} FourParts(a: bytes, b: bytes, c: bytes, d: bytes)
    ensures a + b + c + d == a + (b + (c + d))
  {
  }

  lemma {:induction false} SixParts(a: bytes, b: bytes, c: bytes, d: bytes, e: bytes, f: bytes)
    ensures a + b + c + d + e + f == a + (b + (c + (d + (e + f))))
  {
  }

  /* What can be derived is read: strings */

  lemma {:induction false} HexExactly(t: bytes, p: nat)
    ensures ScanHex(t, p, 4, 0).Scanned? <==> p + 4 <= |t| && IsCode(t[p..p + 4])
    ensures p + 4 <= |t| && IsCode(t[p..p + 4]) ==> ScanHex(t, p, 4, 0) == Scanned(p + 4, Code(t[p..p + 4]))
  {
    var a := if IsHex(Peek(t, p)) then HexValue(Peek(t, p)) else 0;
    var b := if IsHex(Peek(t, p + 1)) then a * 16 + HexValue(Peek(t, p + 1)) else 0;
    var c := if IsHex(Peek(t, p + 2)) then b * 16 + HexValue(Peek(t, p + 2)) else 0;
    HexStep(t, p, 3, 0);
    HexStep(t, p + 1, 2, a);
    HexStep(t, p + 2, 1, b);
    HexStep(t, p + 3, 0, c);
  }

  lemma {:induction false} HexStep(t: bytes, p: nat, left: nat, v: nat)
    ensures ScanHex(t, p, left + 1, v)
         == if IsHex(Peek(t, p)) then ScanHex(t, p + 1, left, v * 16 + HexValue(Peek(t, p)))
            else Bad(StringUnicodeEscapeInvalidHex, p)
    ensures left == 0 && IsHex(Peek(t, p)) ==>
              ScanHex(t, p, 1, v) == Scanned(p + 1, v * 16 + HexValue(Peek(t, p)))
    ensures IsHex(Peek(t, p)) <==> p < |t| && IsNibble(t[p])
    ensures IsHex(Peek(t, p)) ==> HexValue(Peek(t, p)) == Nibble(t[p])
  {
  }

  lemma {:induction false} AtSlice(t: bytes, p: nat, s: bytes)
    requires At(t, p, s)
    ensures p + |s| <= |t| && t[p..p + |s|] == s
  {
  }

  lemma {:induction false} UnitReads(t: bytes, p: nat, h: bytes)
    requires IsCode(h) && !IsHigh(h) && At(t, p, h)
    ensures ScanUnicode(t, p) == Scanned(p + 4, Utf8Encode(Code(h)))
  {
    hide ScanHex, Utf8Encode;
    AtSlice(t, p, h);
    HexExactly(t, p);
  }

  lemma {:induction false} PairReads(t: bytes, p: nat, h: bytes, l: bytes)
    requires IsHigh(h) && IsLow(l) && At(t, p, h + ([92, 117] + l))
    ensures ScanUnicode(t, p)
         == Scanned(p + 10, Utf8Encode(0x10000 + (Code(h) - 0xD800) * 0x400 + (Code(l) - 0xDC00)))
  {
    hide ScanHex, Utf8Encode, Code, IsCode;
    CodeLength(h);
    CodeLength(l);
    AtSplit(t, p, h, [92, 117] + l);
    AtSplit(t, p + 4, [92, 117], l);
    AtIndex(t, p + 4, [92, 117], 0);
    AtIndex(t, p + 4, [92, 117], 1);
    AtSlice(t, p, h);
    AtSlice(t, p + 6, l);
    HexExactly(t, p);
    HexExactly(t, p + 6);
  }

  lemma {:induction false} CodeLength(h: bytes)
    requires IsCode(h)
    ensures |h| == 4
  {
  }

  lemma {:induction false} PlainReads(t: bytes, p: nat, b: byte, acc: bytes)
    requires p > 0 && GoodChar(Plain(b)) && At(t, p, [b])
    ensures ScanChars(t, p, acc) == ScanChars(t, p + 1, acc + [b])
  {
    hide ScanUnicode;
    AtIndex(t, p, [b], 0);
  }

  lemma {:induction false} ShortReads(t: bytes, p: nat, letter: byte, acc: bytes)
    requires p > 0 && IsShort(letter) && At(t, p, [92, letter])
    ensures ScanChars(t, p, acc) == ScanChars(t, p + 2, acc + [ShortMeans(letter)])
  {
    hide ScanUnicode;
    AtIndex(t, p, [92, letter], 0);
    AtIndex(t, p, [92, letter], 1);
  }

  // Behind a backslash and the letter u.
  lemma {:induction false} EscapeLeads(t: bytes, p: nat, acc: bytes, q: nat, s: bytes)
    requires p > 0 && At(t, p, [92, 117]) && ScanUnicode(t, p + 2) == Scanned(q, s)
    ensures ScanChars(t, p, acc) == ScanChars(t, q, acc + s)
  {
    hide ScanUnicode;
    AtIndex(t, p, [92, 117], 0);
    AtIndex(t, p, [92, 117], 1);
  }

  lemma {:induction false} UnitCharReads(t: bytes, p: nat, h: bytes, acc: bytes)
    requires p > 0 && IsCode(h) && !IsHigh(h) && At(t, p, [92, 117] + h)
    ensures |h| == 4 && ScanChars(t, p, acc) == ScanChars(t, p + 6, acc + Utf8Encode(Code(h)))
  {
    hide ScanUnicode, Utf8Encode, Code, IsCode, ScanChars, At;
    AtSplit(t, p, [92, 117], h);
    CodeLength(h);
    UnitReads(t, p + 2, h);
    EscapeLeads(t, p, acc, p + 6, Utf8Encode(Code(h)));
  }

  lemma {:induction false} PairCharReads(t: bytes, p: nat, h: bytes, l: bytes, acc: bytes)
    requires p > 0 && IsHigh(h) && IsLow(l) && At(t, p, [92, 117] + h + [92, 117] + l)
    ensures |h| == |l| == 4
    ensures ScanChars(t, p, acc) == ScanChars(t, p + 12, acc + CharMeans(Pair(h, l)))
  {
    hide ScanUnicode, Utf8Encode, Code, IsCode, ScanChars, At;
    FourParts([92, 117], h, [92, 117], l);
    AtSplit(t, p, [92, 117], h + ([92, 117] + l));
    CodeLength(h);
    CodeLength(l);
    PairReads(t, p + 2, h, l);
    EscapeLeads(t, p, acc, p + 12, CharMeans(Pair(h, l)));
  }

  // Reading past a character yields its meaning.
  lemma {:induction false} CharReads(t: bytes, p: nat, c: Char, acc: bytes)
    requires p > 0 && GoodChar(c) && At(t, p, CharText(c))
    ensures ScanChars(t, p, acc) == ScanChars(t, p + |CharText(c)|, acc + CharMeans(c))
  {
    hide ScanChars, Utf8Encode, Code, IsCode, At, IsShort, ShortMeans;
    match c
    case Plain(b) => PlainReads(t, p, b, acc);
    case Short(letter) => ShortReads(t, p, letter, acc);
    case Unit(h) => UnitCharReads(t, p, h, acc);
    case Pair(h, l) => PairCharReads(t, p, h, l, acc);
  }

  // Reading past characters yields their meaning.
  lemma {:induction false} CharsPass(t: bytes, p: nat, cs: seq<Char>, acc: bytes)
    requires p > 0 && GoodChars(cs) && At(t, p, CharsText(cs))
    ensures ScanChars(t, p, acc) == ScanChars(t, p + |CharsText(cs)|, acc + CharsMean(cs))
    decreases |cs|
  {
    hide CharText, CharMeans, GoodChar, ScanChars, At;
    if cs == [] {
      assert acc + [] == acc;
    } else {
      var a, b := CharText(cs[0]), CharsText(cs[1..]);
      assert cs[0] in cs && forall c <- cs[1..] :: c in cs;
      AtSplit(t, p, a, b);
      CharReads(t, p, cs[0], acc);
      CharsPass(t, p + |a|, cs[1..], acc + CharMeans(cs[0]));
      assert acc + CharMeans(cs[0]) + CharsMean(cs[1..]) == acc + CharsMean(cs);
    }
  }

  lemma {:induction false} SpelledReads(t: bytes, p: nat, cs: seq<Char>, acc: bytes)
    requires p > 0 && GoodChars(cs) && At(t, p, CharsText(cs) + [34])
    ensures ScanChars(t, p, acc) == Scanned(p + |CharsText(cs)| + 1, acc + CharsMean(cs))
  {
    hide CharsText, CharsMean, GoodChars, ScanChars, At;
    AtSplit(t, p, CharsText(cs), [34]);
    CharsPass(t, p, cs, acc);
    QuoteEnds(t, p + |CharsText(cs)|, acc + CharsMean(cs));
  }

  lemma {:induction false} QuoteEnds(t: bytes, p: nat, acc: bytes)
    requires p > 0 && At(t, p, [34])
    ensures ScanChars(t, p, acc) == Scanned(p + 1, acc)
  {
    AtIndex(t, p, [34], 0);
  }

  lemma {:induction false} QuotedReads(t: bytes, p: nat, cs: seq<Char>)
    requires GoodChars(cs) && At(t, p, QuotedText(cs))
    ensures Peek(t, p) == 34 && ScanString(t, p) == Scanned(p + |QuotedText(cs)|, CharsMean(cs))
  {
    hide ScanChars, CharsText, CharsMean;
    assert QuotedText(cs) == [34] + (CharsText(cs) + [34]);
    AtSplit(t, p, [34], CharsText(cs) + [34]);
    AtIndex(t, p, [34], 0);
    SpelledReads(t, p + 1, cs, []);
    assert [] + CharsMean(cs) == CharsMean(cs);
  }

  /* Numbers */

  // A byte that cannot prolong a number.
  predicate Stops(c: byte) { !(48 <= c <= 57) && c != 46 && c != 69 && c != 101 }

  lemma {:induction false} DigitsStand(t: bytes, p: nat, s: bytes)
    requires At(t, p, s)
    ensures OnlyDigits(s) <==> forall k :: p <= k < p + |s| ==> IsDigit(Peek(t, k))
  {
    if OnlyDigits(s) {
      forall k | p <= k < p + |s|
        ensures IsDigit(Peek(t, k))
      {
        AtIndex(t, p, s, k - p);
        assert s[k - p] in s;
      }
    } else {
      var c :| c in s && !(48 <= c <= 57);
      var i :| 0 <= i < |s| && s[i] == c;
      AtIndex(t, p, s, i);
      assert !IsDigit(Peek(t, p + i));
    }
  }

  lemma {:induction false} AtFront(t: bytes, p: nat, s: bytes, n: nat)
    requires At(t, p, s) && n <= |s|
    ensures At(t, p, s[..n])
  {
    assert t[p..p + n] == t[p..p + |s|][..n];
  }

  lemma {:induction false} WorthIsDecimal(t: bytes, p: nat, s: bytes)
    requires At(t, p, s) && OnlyDigits(s)
    ensures forall k :: p <= k < p + |s| ==> IsDigit(Peek(t, k))
    ensures Decimal(t, p, p + |s|) == Worth(s)
    decreases |s|
  {
    DigitsStand(t, p, s);
    if s != [] {
      var front := s[..|s| - 1];
      AtFront(t, p, s, |front|);
      assert forall c <- front :: c in s;
      WorthIsDecimal(t, p, front);
      AtIndex(t, p, s, |s| - 1);
    }
  }

  // A run of digits ends where no digit follows.
  lemma {:induction false} RunEnds(t: bytes, p: nat, s: bytes)
    requires At(t, p, s) && OnlyDigits(s) && !IsDigit(Peek(t, p + |s|))
    ensures DigitsEnd(t, p) == p + |s|
  {
    DigitsStand(t, p, s);
    DigitsEndSkip(t, p, p + |s|);
  }

  // The digit run is refused exactly if it is still too long without its last digit.
  lemma {:induction false} BeyondExactly(t: bytes, q: nat, k: nat, e: nat, limit: nat)
    requires q <= k < e
    requires forall j :: q <= j < e ==> IsDigit(Peek(t, j))
    ensures FirstBeyond(t, q, k, e, limit).Scanned? <==> Decimal(t, q, e) / 10 < limit
    ensures FirstBeyond(t, q, k, e, limit).Scanned? ==> FirstBeyond(t, q, k, e, limit) == Scanned(e, ())
    decreases e - k
  {
    assert IsDigit(Peek(t, e - 1));
    assert Decimal(t, q, e) / 10 == Decimal(t, q, e - 1);
    DecimalGrows(t, q, k, e - 1);
    if k + 1 < e {
      BeyondExactly(t, q, k + 1, e, limit);
    } else {
      assert FirstBeyond(t, q, e, e, limit) == Scanned(e, ());
    }
  }

  // The exponent is refused exactly if it is above 308 and has no minus.
  lemma {:induction false} ExponentExactly(t: bytes, s: nat, k: nat, expMinus: bool)
    requires s < k <= DigitsEnd(t, s)
    requires k == s + 1 || Decimal(t, s, k) <= 308 || expMinus
    ensures ScanExponentDigits(t, s, k, expMinus).Scanned? <==>
              expMinus || Decimal(t, s, DigitsEnd(t, s)) <= 308
    decreases DigitsEnd(t, s) - k
  {
    var e := DigitsEnd(t, s);
    if k == e {
      if k == s + 1 { assert Decimal(t, s, s) == 0; }
    } else if Decimal(t, s, k + 1) > 308 && !expMinus {
      DecimalGrows(t, s, k + 1, e);
    } else {
      ExponentExactly(t, s, k + 1, expMinus);
    }
  }

  lemma {:induction false} FractionReads(t: bytes, e: nat, f: bytes)
    requires OnlyDigits(f) && At(t, e, FractionText(f))
    requires if f == [] then Peek(t, e) != 46 else !IsDigit(Peek(t, e + 1 + |f|))
    ensures ScanFraction(t, e) == Scanned(e + |FractionText(f)|, f != [])
  {
    hide DigitsEnd;
    if f != [] {
      AtSplit(t, e, [46], f);
      AtIndex(t, e, [46], 0);
      DigitsStand(t, e + 1, f);
      RunEnds(t, e + 1, f);
    }
  }

  lemma {:induction false} ExponentParts(x: Exponent)
    requires x.Exponent?
    ensures ExponentText(x) == [x.mark] + (x.sign + x.digits)
    ensures |ExponentText(x)| == 1 + |x.sign| + |x.digits|
  {
    ThreeParts([x.mark], x.sign, x.digits);
  }

  lemma {:induction false} ExponentStands(t: bytes, f: nat, x: Exponent)
    requires GoodExponent(x) && x.Exponent? && At(t, f, ExponentText(x))
    ensures var s := f + 1 + |x.sign|;
            && |ExponentText(x)| == 1 + |x.sign| + |x.digits|
            && Peek(t, f) == x.mark && At(t, s, x.digits) && IsDigit(Peek(t, s))
            && (if x.sign == [] then IsDigit(Peek(t, f + 1)) else Peek(t, f + 1) == x.sign[0])
  {
    hide At, ExponentText, Peek;
    ExponentParts(x);
    AtSplit(t, f, [x.mark], x.sign + x.digits);
    AtSplit(t, f + 1, x.sign, x.digits);
    AtIndex(t, f, [x.mark], 0);
    AtIndex(t, f + 1 + |x.sign|, x.digits, 0);
    assert x.digits[0] in x.digits;
    if x.sign != [] { AtIndex(t, f + 1, x.sign, 0); }
  }

  lemma {:induction false} ExponentReads(t: bytes, f: nat, x: Exponent)
    requires GoodExponent(x) && At(t, f, ExponentText(x))
    requires x.Exponent? ==> x.sign == [45] || Worth(x.digits) <= 308
    requires if x.NoExponent? then Peek(t, f) != 69 && Peek(t, f) != 101 else !IsDigit(Peek(t, f + |ExponentText(x)|))
    ensures ScanExponent(t, f) == Scanned(f + |ExponentText(x)|, x.Exponent?)
  {
    hide DigitsEnd, ScanExponentDigits, Worth, Decimal, ExponentText, At, OnlyDigits;
    if x.Exponent? {
      var s := f + 1 + |x.sign|;
      ExponentStands(t, f, x);
      RunEnds(t, s, x.digits);
      WorthIsDecimal(t, s, x.digits);
      ExponentExactly(t, s, s + 1, x.sign == [45]);
    } else {
      NoExponentText(x);
    }
  }

  lemma {:induction false} NoExponentText(x: Exponent)
    ensures x.NoExponent? ==> ExponentText(x) == []
  {
  }

  // The integer part of a number.
  lemma {:induction false} WholeReads(t: bytes, q: nat, whole: bytes)
    requires whole != [] && OnlyDigits(whole) && (whole[0] == 48 ==> |whole| == 1)
    requires At(t, q, whole) && !IsDigit(Peek(t, q + |whole|))
    ensures IsDigit(Peek(t, q)) && IntegerEnd(t, q) == q + |whole|
    ensures Decimal(t, q, IntegerEnd(t, q)) == Worth(whole)
  {
    hide DigitsEnd, Worth, Decimal;
    DigitsStand(t, q, whole);
    AtIndex(t, q, whole, 0);
    RunEnds(t, q, whole);
    WorthIsDecimal(t, q, whole);
  }

  // What follows the integer part does not begin with a digit.
  lemma {:induction false} TailStarts(t: bytes, e: nat, f: bytes, x: Exponent)
    requires OnlyDigits(f) && GoodExponent(x) && At(t, e, FractionText(f) + ExponentText(x))
    requires Stops(Peek(t, e + |FractionText(f)| + |ExponentText(x)|))
    ensures At(t, e, FractionText(f)) && At(t, e + |FractionText(f)|, ExponentText(x))
    ensures !IsDigit(Peek(t, e)) && (f == [] ==> Peek(t, e) != 46)
    ensures !IsDigit(Peek(t, e + |FractionText(f)|))
    ensures x.NoExponent? ==> Peek(t, e + |FractionText(f)|) != 69 && Peek(t, e + |FractionText(f)|) != 101
  {
    AtSplit(t, e, FractionText(f), ExponentText(x));
    if f != [] { AtIndex(t, e, FractionText(f), 0); }
    if x.Exponent? { AtIndex(t, e + |FractionText(f)|, ExponentText(x), 0); }
  }

  // The event of a number in the terms of the scanner.
  lemma {:induction false} NumeralEvent(n: Numeral)
    requires WellFormed(n)
    ensures NumeralMeans(n)
         == if n.fraction != [] || n.exponent.Exponent? || !Fits64(n.minus, Worth(n.whole)) then Double(NumeralText(n))
            else IntegerEvent(n.minus, Worth(n.whole))
  {
    hide NumeralText, Worth;
  }

  lemma {:induction false} TailScans(t: bytes, p: nat, e: nat, f: nat, x: nat, n: Numeral)
    requires WellFormed(n) && p < e <= |t| && x <= |t| && p <= x && t[p..x] == NumeralText(n)
    requires ScanFraction(t, e) == Scanned(f, n.fraction != [])
    requires ScanExponent(t, f) == Scanned(x, n.exponent.Exponent?)
    ensures ScanTail(t, p, e, n.minus, Worth(n.whole)) == Scanned(x, NumeralMeans(n))
  {
    hide ScanFraction, ScanExponent, Worth, NumeralText, NumeralMeans, IntegerEvent, Fits64, WellFormed;
    NumeralEvent(n);
  }

  lemma {:induction false} TailReads(t: bytes, p: nat, e: nat, n: Numeral)
    requires GoodNumeral(n) && p < e && At(t, p, NumeralText(n)) && Stops(Peek(t, p + |NumeralText(n)|))
    requires e == p + |MinusText(n.minus)| + |n.whole|
    requires At(t, e, FractionText(n.fraction) + ExponentText(n.exponent))
    ensures e <= |t| && ScanTail(t, p, e, n.minus, Worth(n.whole)) == Scanned(p + |NumeralText(n)|, NumeralMeans(n))
  {
    hide ScanFraction, ScanExponent, Worth, FractionText, ExponentText, NumeralMeans, ScanTail, OnlyDigits;
    var f := e + |FractionText(n.fraction)|;
    TailStarts(t, e, n.fraction, n.exponent);
    FractionShape(n.fraction);
    FractionReads(t, e, n.fraction);
    ExponentReads(t, f, n.exponent);
    AtSlice(t, p, NumeralText(n));
    TailScans(t, p, e, f, p + |NumeralText(n)|, n);
  }

  lemma {:induction false} FractionShape(f: bytes)
    ensures |FractionText(f)| == if f == [] then 0 else 1 + |f|
  {
  }

  lemma {:induction false} NumeralParts(n: Numeral)
    ensures NumeralText(n)
         == MinusText(n.minus) + (n.whole + (FractionText(n.fraction) + ExponentText(n.exponent)))
  {
    hide MinusText, FractionText, ExponentText;
    FourParts(MinusText(n.minus), n.whole, FractionText(n.fraction), ExponentText(n.exponent));
  }

  // The parts of a number where they stand.
  lemma {:induction false} NumeralStands(t: bytes, p: nat, n: Numeral)
    requires WellFormed(n) && At(t, p, NumeralText(n))
    ensures var q := p + |MinusText(n.minus)|;
            && At(t, q, n.whole) && At(t, q + |n.whole|, FractionText(n.fraction) + ExponentText(n.exponent))
            && |NumeralText(n)|
            == |MinusText(n.minus)| + |n.whole| + |FractionText(n.fraction)| + |ExponentText(n.exponent)|
            && (Peek(t, p) == MINUS <==> n.minus)
  {
    hide FractionText, ExponentText, At, NumeralText;
    var q := p + |MinusText(n.minus)|;
    var tail := FractionText(n.fraction) + ExponentText(n.exponent);
    NumeralParts(n);
    AtSplit(t, p, MinusText(n.minus), n.whole + tail);
    AtSplit(t, q, n.whole, tail);
    AtIndex(t, q, n.whole, 0);
    assert n.whole[0] in n.whole;
    if n.minus { AtIndex(t, p, [45], 0); }
  }

  lemma {:induction false} NumeralReads(t: bytes, p: nat, n: Numeral)
    requires GoodNumeral(n) && At(t, p, NumeralText(n)) && Stops(Peek(t, p + |NumeralText(n)|))
    ensures ScanNumber(t, p) == Scanned(p + |NumeralText(n)|, NumeralMeans(n))
  {
    hide ScanTail, FirstBeyond, Worth, Decimal, IntegerEnd, FractionText, ExponentText, NumeralMeans, DigitsEnd,
         NumeralText, ScanNumber, At, Stops;
    var m := |MinusText(n.minus)|;
    var q, e := p + m, p + m + |n.whole|;
    NumeralStands(t, p, n);
    TailStarts(t, e, n.fraction, n.exponent);
    WholeReads(t, q, n.whole);
    NumberSplits(t, p, q, n.minus);
    BeyondExactly(t, q, q, e, DBL_MAX_TENTH);
    TailReads(t, p, e, n);
  }

  /* White space and values */

  predicate BlankByte(c: byte) { c == 32 || c == 9 || c == 10 || c == 13 }

  lemma {:induction false} SpaceSkips(t: bytes, p: nat, s: bytes)
    requires AllBlank(s) && At(t, p, s) && !BlankByte(Peek(t, p + |s|))
    ensures SkipSpace(t, p) == p + |s|
    decreases |s|
  {
    if s != [] {
      assert s == [s[0]] + s[1..];
      AtSplit(t, p, [s[0]], s[1..]);
      AtIndex(t, p, s, 0);
      assert s[0] in s && forall c <- s[1..] :: c in s;
      SpaceSkips(t, p + 1, s[1..]);
    }
  }

  // Blanks end a number, and so does what follows them.
  lemma {:induction false} SpaceStops(t: bytes, p: nat, s: bytes)
    requires AllBlank(s) && At(t, p, s) && Stops(Peek(t, p + |s|))
    ensures Stops(Peek(t, p))
  {
    if s != [] {
      AtIndex(t, p, s, 0);
      assert s[0] in s;
    }
  }

  // The first byte of a value starts a value and nothing else.
  predicate Starts(c: byte) { !BlankByte(c) && c != 0 && c != 93 && c != 125 && c != 44 && c != 58 }

  lemma {:induction false} NumeralStarts(n: Numeral)
    requires WellFormed(n)
    ensures NumeralText(n) != [] && (NumeralText(n)[0] == 45 || 48 <= NumeralText(n)[0] <= 57)
  {
    hide FractionText, ExponentText;
    assert n.whole[0] in n.whole;
  }

  lemma {:induction false} TreeStarts(v: Tree)
    requires Good(v)
    ensures TreeText(v) != [] && Starts(TreeText(v)[0])
  {
    hide NumeralText, WellFormed, Bearable, Worth, ItemsText, FieldsText, CharsText;
    match v
    case NumberTree(n) => NumeralStarts(n);
    case _ =>
  }

  lemma {:induction false} WordReads(t: bytes, p: nat, v: Tree, log: Log)
    requires (v.NullWord? || v.TrueWord? || v.FalseWord?) && At(t, p, TreeText(v))
    ensures Value(t, p, log) == Ok(p + |TreeText(v)|, log + TreeMeans(v))
  {
    hide ScanLetters, ScanString, ScanNumber;
    var s := TreeText(v);
    assert s == [s[0]] + s[1..];
    AtSplit(t, p, [s[0]], s[1..]);
    AtIndex(t, p, s, 0);
    LettersStand(t, p + 1, s[1..]);
    assert s[1..] == if v.NullWord? then ULL else if v.TrueWord? then RUE else ALSE;
  }

  lemma {:induction false} LettersStand(t: bytes, p: nat, s: bytes)
    requires At(t, p, s)
    ensures ScanLetters(t, p, s) == Scanned(p + |s|, ())
    decreases |s|
  {
    if s != [] {
      assert s == [s[0]] + s[1..];
      AtSplit(t, p, [s[0]], s[1..]);
      AtIndex(t, p, s, 0);
      LettersStand(t, p + 1, s[1..]);
    }
  }

  lemma {:induction false} LeafReads(t: bytes, p: nat, v: Tree, log: Log)
    requires Good(v) && !v.ArrayTree? && !v.ObjectTree?
    requires At(t, p, TreeText(v)) && Stops(Peek(t, p + |TreeText(v)|))
    ensures Value(t, p, log) == Ok(p + |TreeText(v)|, log + TreeMeans(v))
  {
    hide ScanNumber, ScanString, NumeralText, NumeralMeans, QuotedText, CharsMean, WellFormed, Bearable, Worth, Stops;
    match v
    case NumberTree(n) =>
      NumeralStarts(n);
      AtIndex(t, p, NumeralText(n), 0);
      NumeralReads(t, p, n);
    case StringTree(cs) => QuotedReads(t, p, cs);
    case _ => WordReads(t, p, v, log);
  }

  // What follows the first item of a list that ends with a bracket.
  function ItemsRest(items: seq<Item>): bytes
    requires items != []
  {
    if |items| == 1 then [93] else [44] + (ItemsText(items[1..]) + [93])
  }

  function FieldsRest(fields: seq<Field>): bytes
    requires fields != []
  {
    if |fields| == 1 then [125] else [44] + (FieldsText(fields[1..]) + [125])
  }

  // A value between white space, and what follows, which starts with a comma or a bracket.
  lemma {:induction false} BetweenSpaces(t: bytes, p: nat, before: bytes, v: Tree, behind: bytes, rest: bytes)
    requires AllBlank(before) && Good(v) && AllBlank(behind) && rest != [] && rest[0] in {44, 93, 125}
    requires var q := p + |before|;
             var r := q + |TreeText(v)|;
             && At(t, p, before) && At(t, q, TreeText(v)) && At(t, r, behind) && At(t, r + |behind|, rest)
    ensures var q := p + |before|;
            var r := q + |TreeText(v)|;
            && SkipSpace(t, p) == q && Starts(Peek(t, q)) && Stops(Peek(t, r)) && SkipSpace(t, r) == r + |behind|
  {
    hide TreeText, Good, AllBlank, At, SkipSpace;
    var q := p + |before|;
    var r := q + |TreeText(v)|;
    TreeStarts(v);
    AtIndex(t, q, TreeText(v), 0);
    AtIndex(t, r + |behind|, rest, 0);
    SpaceSkips(t, p, before);
    SpaceStops(t, r, behind);
    SpaceSkips(t, r, behind);
  }

  lemma {:induction false} ListSplit(items: seq<Item>)
    requires items != []
    ensures var i := items[0];
            ItemsText(items) + [93] == i.before + (TreeText(i.value) + (i.behind + ItemsRest(items)))
  {
    hide TreeText;
    var i, rest := items[0], ItemsRest(items);
    assert ItemsText(items) + [93] == ItemText(i) + rest;
    FourParts(i.before, TreeText(i.value), i.behind, rest);
  }

  // The first item of a list where it stands.
  lemma {:induction false} ItemStands(t: bytes, p: nat, items: seq<Item>)
    requires items != [] && GoodItem(items[0]) && At(t, p, ItemsText(items) + [93])
    ensures var i := items[0];
            var q := p + |i.before|;
            var r := q + |TreeText(i.value)|;
            && At(t, p, i.before) && At(t, q, TreeText(i.value)) && At(t, r, i.behind)
            && At(t, r + |i.behind|, ItemsRest(items))
            && SkipSpace(t, p) == q && Starts(Peek(t, q)) && Stops(Peek(t, r)) && SkipSpace(t, r) == r + |i.behind|
  {
    hide TreeText, Good, Stops, Starts, AllBlank, At, SkipSpace, ItemsText;
    var i, rest := items[0], ItemsRest(items);
    ListSplit(items);
    AtSplit(t, p, i.before, TreeText(i.value) + (i.behind + rest));
    AtSplit(t, p + |i.before|, TreeText(i.value), i.behind + rest);
    AtSplit(t, p + |i.before| + |TreeText(i.value)|, i.behind, rest);
    BetweenSpaces(t, p, i.before, i.value, i.behind, rest);
  }

  // One turn of the element loop, and how it goes on.
  lemma {:induction false} ListTurn(t: bytes, q: nat, n: nat, log: Log, r: nat, l: Log, e: nat)
    requires Value(t, q, log) == Ok(r, l) && SkipSpace(t, r) == e
    ensures Peek(t, e) == 93 ==> Elements(t, q, n, log) == Ok(e + 1, l + [EndArray(n + 1)])
    ensures Peek(t, e) == 44 ==> Elements(t, q, n, log) == Elements(t, SkipSpace(t, e + 1), n + 1, l)
  {
    hide Value, SkipSpace;
  }

  // The same for the fields of an object.
  lemma {:induction false} FieldTurn(t: bytes, v: nat, n: nat, log: Log, r: nat, l: Log, e: nat)
    requires Value(t, v, log) == Ok(r, l) && SkipSpace(t, r) == e
    ensures Peek(t, e) == 125 ==> MemberValue(t, v, n, log) == Ok(e + 1, l + [EndObject(n + 1)])
    ensures Peek(t, e) == 44 ==> MemberValue(t, v, n, log) == Members(t, SkipSpace(t, e + 1), n + 1, l)
  {
    hide Value, SkipSpace, Members;
  }

  lemma {:induction false} ItemsLength(items: seq<Item>)
    requires items != []
    ensures |ItemsText(items)| + 1
         == |items[0].before| + |TreeText(items[0].value)| + |items[0].behind| + |ItemsRest(items)|
    ensures |items| > 1 ==> |ItemsRest(items)| == |ItemsText(items[1..])| + 2
  {
    hide TreeText;
    ListSplit(items);
  }

  // The first item, and how the others go on.
  lemma {:induction false} ItemReads(t: bytes, p: nat, items: seq<Item>, n: nat, log: Log) returns (e: nat)
    requires items != [] && GoodItem(items[0]) && At(t, p, ItemsText(items) + [93])
    ensures Starts(Peek(t, SkipSpace(t, p))) && At(t, e, ItemsRest(items))
    ensures e + |ItemsRest(items)| == p + |ItemsText(items)| + 1
    ensures var q, l := SkipSpace(t, p), log + TreeMeans(items[0].value);
            && (Peek(t, e) == 93 ==> Elements(t, q, n, log) == Ok(e + 1, l + [EndArray(n + 1)]))
            && (Peek(t, e) == 44 ==> Elements(t, q, n, log) == Elements(t, SkipSpace(t, e + 1), n + 1, l))
    decreases items[0], 2
  {
    hide Value, Elements, TreeText, ItemsText, ItemsRest, Good, Stops, Starts, AllBlank, At, SkipSpace, TreeMeans, Peek;
    var i := items[0];
    assert i.value < i;
    ItemStands(t, p, items);
    var q := p + |i.before|;
    var r := q + |TreeText(i.value)|;
    e := r + |i.behind|;
    TreeReads(t, q, i.value, log);
    ListTurn(t, q, n, log, r, log + TreeMeans(i.value), e);
    ItemsLength(items);
  }

  // The items of an array from the first on, up to the bracket.
  lemma {:induction false} ItemsRead(t: bytes, p: nat, items: seq<Item>, n: nat, log: Log)
    requires items != [] && (forall i <- items :: GoodItem(i)) && At(t, p, ItemsText(items) + [93])
    ensures Starts(Peek(t, SkipSpace(t, p)))
    ensures Elements(t, SkipSpace(t, p), n, log)
         == Ok(p + |ItemsText(items)| + 1, log + ItemsMean(items) + [EndArray(n + |items|)])
    decreases items, 0
  {
    hide Elements, ItemsText, ItemsMean, GoodItem, Starts, At, SkipSpace, TreeMeans, Peek;
    var i, others := items[0], items[1..];
    assert GoodItem(i) && forall x <- others :: x in items;
    GoodInside(i);
    var e := ItemReads(t, p, items, n, log);
    var l := log + TreeMeans(i.value);
    AtIndex(t, e, ItemsRest(items), 0);
    ItemsMeanMore(items, log);
    if |items| > 1 {
      AtSplit(t, e, [44], ItemsText(others) + [93]);
      ItemsRead(t, e + 1, others, n + 1, l);
    }
  }

  lemma {:induction false} GoodInside(i: Item)
    requires GoodItem(i)
    ensures Good(i.value)
  {
  }

  // The events of a list, one by one.
  lemma {:induction false} ItemsMeanMore(items: seq<Item>, log: Log)
    requires items != [] && forall i <- items :: GoodItem(i)
    ensures Good(items[0].value) && forall i <- items[1..] :: GoodItem(i)
    ensures log + TreeMeans(items[0].value) + ItemsMean(items[1..]) == log + ItemsMean(items)
    ensures |items| == 1 ==> log + TreeMeans(items[0].value) == log + ItemsMean(items)
  {
    hide TreeMeans, Good;
    assert GoodItem(items[0]);
    if |items| == 1 { assert ItemsMean(items[1..]) == []; }
  }

  lemma {:induction false} FieldsMeanMore(fields: seq<Field>, log: Log)
    requires fields != [] && forall f <- fields :: GoodField(f)
    ensures forall f <- fields[1..] :: GoodField(f)
    ensures log + FieldMeans(fields[0]) + FieldsMean(fields[1..]) == log + FieldsMean(fields)
    ensures |fields| == 1 ==> log + FieldMeans(fields[0]) == log + FieldsMean(fields)
  {
    hide FieldMeans, GoodField;
    if |fields| == 1 { assert FieldsMean(fields[1..]) == []; }
  }

  lemma {:induction false} FieldsSplit(fields: seq<Field>)
    requires fields != []
    ensures var f := fields[0];
            var tail := f.beforeValue + (TreeText(f.value) + (f.behind + FieldsRest(fields)));
            FieldsText(fields) + [125] == f.before + (QuotedText(f.name) + (f.afterName + ([58] + tail)))
  {
    hide TreeText, QuotedText;
    var f, rest := fields[0], FieldsRest(fields);
    assert FieldsText(fields) + [125] == FieldText(f) + rest;
    var value := f.beforeValue + TreeText(f.value) + f.behind;
    FourParts(f.beforeValue, TreeText(f.value), f.behind, rest);
    assert FieldText(f) + rest == f.before + QuotedText(f.name) + f.afterName + [58] + value + rest;
    SixParts(f.before, QuotedText(f.name), f.afterName, [58], value, rest);
  }

  // The name of the first field, up to the white space behind the colon.
  lemma {:induction false} NameStands(t: bytes, p: nat, fields: seq<Field>)
    requires fields != [] && GoodField(fields[0]) && At(t, p, FieldsText(fields) + [125])
    ensures var f := fields[0];
            var q := p + |f.before|;
            var c := q + |QuotedText(f.name)| + |f.afterName|;
            && SkipSpace(t, p) == q && At(t, q, QuotedText(f.name)) && Peek(t, q) == 34
            && SkipSpace(t, q + |QuotedText(f.name)|) == c && Peek(t, c) == 58
            && At(t, c + 1, f.beforeValue + (TreeText(f.value) + (f.behind + FieldsRest(fields))))
  {
    hide TreeText, Good, GoodChars, AllBlank, At, SkipSpace, FieldsText, FieldsRest, QuotedText, Peek;
    var f := fields[0];
    var q := p + |f.before|;
    var c := q + |QuotedText(f.name)| + |f.afterName|;
    var tail := f.beforeValue + (TreeText(f.value) + (f.behind + FieldsRest(fields)));
    FieldsSplit(fields);
    AtSplit(t, p, f.before, QuotedText(f.name) + (f.afterName + ([58] + tail)));
    AtSplit(t, q, QuotedText(f.name), f.afterName + ([58] + tail));
    AtSplit(t, q + |QuotedText(f.name)|, f.afterName, [58] + tail);
    AtSplit(t, c, [58], tail);
    AtIndex(t, c, [58], 0);
    QuoteFirst(t, q, f.name);
    SpaceSkips(t, p, f.before);
    SpaceSkips(t, q + |QuotedText(f.name)|, f.afterName);
  }

  lemma {:induction false} QuoteFirst(t: bytes, q: nat, cs: seq<Char>)
    requires At(t, q, QuotedText(cs))
    ensures Peek(t, q) == 34
  {
    hide CharsText;
    AtIndex(t, q, QuotedText(cs), 0);
  }

  // The value of the first field, up to what follows the field.
  lemma {:induction false} FieldsRestStarts(fields: seq<Field>)
    requires fields != []
    ensures FieldsRest(fields) != [] && FieldsRest(fields)[0] in {44, 93, 125}
  {
    hide FieldsText;
  }

  lemma {:induction false} FieldStands(t: bytes, v: nat, fields: seq<Field>)
    requires fields != [] && GoodField(fields[0])
    requires At(t, v, fields[0].beforeValue + (TreeText(fields[0].value) + (fields[0].behind + FieldsRest(fields))))
    ensures var f := fields[0];
            var q := v + |f.beforeValue|;
            var r := q + |TreeText(f.value)|;
            && At(t, q, TreeText(f.value)) && At(t, r + |f.behind|, FieldsRest(fields))
            && SkipSpace(t, v) == q && Stops(Peek(t, r)) && SkipSpace(t, r) == r + |f.behind|
  {
    hide TreeText, Good, Stops, Starts, AllBlank, At, SkipSpace, FieldsText, FieldsRest, Peek;
    var f, rest := fields[0], FieldsRest(fields);
    FieldsRestStarts(fields);
    var q := v + |f.beforeValue|;
    AtSplit(t, v, f.beforeValue, TreeText(f.value) + (f.behind + rest));
    AtSplit(t, q, TreeText(f.value), f.behind + rest);
    AtSplit(t, q + |TreeText(f.value)|, f.behind, rest);
    BetweenSpaces(t, v, f.beforeValue, f.value, f.behind, rest);
  }

  // A name and a colon lead to the value.
  lemma {:induction false} NameLeads(t: bytes, q: nat, n: nat, log: Log, cs: seq<Char>, c: nat)
    requires GoodChars(cs) && At(t, q, QuotedText(cs))
    requires SkipSpace(t, q + |QuotedText(cs)|) == c && Peek(t, c) == 58
    ensures Members(t, q, n, log) == MemberValue(t, SkipSpace(t, c + 1), n, log + [Key(CharsMean(cs))])
  {
    hide MemberValue, SkipSpace, QuotedText, CharsMean, ScanString;
    QuotedReads(t, q, cs);
  }

  lemma {:induction false} FieldsLength(fields: seq<Field>)
    requires fields != []
    ensures var f := fields[0];
            |FieldsText(fields)| + 1
            == |f.before| + |QuotedText(f.name)| + |f.afterName| + 1 + |f.beforeValue| + |TreeText(f.value)|
               + |f.behind| + |FieldsRest(fields)|
    ensures |fields| > 1 ==> |FieldsRest(fields)| == |FieldsText(fields[1..])| + 2
  {
    hide TreeText, QuotedText;
    FieldsSplit(fields);
  }

  // The first field, and how the others go on.
  lemma {:induction false} FieldReads(t: bytes, p: nat, fields: seq<Field>, n: nat, log: Log) returns (e: nat)
    requires fields != [] && GoodField(fields[0]) && At(t, p, FieldsText(fields) + [125])
    ensures Peek(t, SkipSpace(t, p)) == 34 && At(t, e, FieldsRest(fields))
    ensures e + |FieldsRest(fields)| == p + |FieldsText(fields)| + 1
    ensures var q, l := SkipSpace(t, p), log + FieldMeans(fields[0]);
            && (Peek(t, e) == 125 ==> Members(t, q, n, log) == Ok(e + 1, l + [EndObject(n + 1)]))
            && (Peek(t, e) == 44 ==> Members(t, q, n, log) == Members(t, SkipSpace(t, e + 1), n + 1, l))
    decreases fields[0], 2
  {
    hide Value, Members, MemberValue, TreeText, FieldsText, Good, Stops, AllBlank, At, SkipSpace, TreeMeans, QuotedText,
         CharsMean, CharsText, FieldsRest;
    var f := fields[0];
    assert f.value < f;
    NameStands(t, p, fields);
    var q := p + |f.before|;
    var c := q + |QuotedText(f.name)| + |f.afterName|;
    NameLeads(t, q, n, log, f.name, c);
    FieldStands(t, c + 1, fields);
    var v := c + 1 + |f.beforeValue|;
    var r := v + |TreeText(f.value)|;
    e := r + |f.behind|;
    var l := log + [Key(CharsMean(f.name))] + TreeMeans(f.value);
    TreeReads(t, v, f.value, log + [Key(CharsMean(f.name))]);
    FieldTurn(t, v, n, log + [Key(CharsMean(f.name))], r, l, e);
    FieldsLength(fields);
    assert l == log + FieldMeans(f);
  }

  // The fields of an object from the first on, up to the brace.
  lemma {:induction false} FieldsRead(t: bytes, p: nat, fields: seq<Field>, n: nat, log: Log)
    requires fields != [] && (forall f <- fields :: GoodField(f)) && At(t, p, FieldsText(fields) + [125])
    ensures Peek(t, SkipSpace(t, p)) == 34
    ensures Members(t, SkipSpace(t, p), n, log)
         == Ok(p + |FieldsText(fields)| + 1, log + FieldsMean(fields) + [EndObject(n + |fields|)])
    decreases fields, 0
  {
    hide Members, FieldsText, FieldsMean, GoodField, At, SkipSpace, FieldMeans, Peek;
    var f, others := fields[0], fields[1..];
    assert GoodField(f) && forall x <- others :: x in fields;
    var e := FieldReads(t, p, fields, n, log);
    var l := log + FieldMeans(f);
    AtIndex(t, e, FieldsRest(fields), 0);
    FieldsMeanMore(fields, log);
    if |fields| > 1 {
      AtSplit(t, e, [44], FieldsText(others) + [125]);
      FieldsRead(t, e + 1, others, n + 1, l);
    }
  }

  // An array with nothing but white space in it.
  lemma {:induction false} EmptyArrayReads(t: bytes, p: nat, s: bytes, log: Log)
    requires AllBlank(s) && At(t, p, [91] + s + [93])
    ensures Value(t, p, log) == Ok(p + |s| + 2, log + ([StartArray] + [] + [EndArray(0)]))
  {
    hide Elements, ObjectBody, ScalarValue, At, SkipSpace;
    ThreeParts([91], s, [93]);
    AtSplit(t, p, [91], s + [93]);
    AtIndex(t, p, [91], 0);
    AtSplit(t, p + 1, s, [93]);
    AtIndex(t, p + 1 + |s|, [93], 0);
    SpaceSkips(t, p + 1, s);
  }

  lemma {:induction false} EmptyObjectReads(t: bytes, p: nat, s: bytes, log: Log)
    requires AllBlank(s) && At(t, p, [123] + s + [125])
    ensures Value(t, p, log) == Ok(p + |s| + 2, log + ([StartObject] + [] + [EndObject(0)]))
  {
    hide Members, ArrayBody, ScalarValue, At, SkipSpace;
    ThreeParts([123], s, [125]);
    AtSplit(t, p, [123], s + [125]);
    AtIndex(t, p, [123], 0);
    AtSplit(t, p + 1, s, [125]);
    AtIndex(t, p + 1 + |s|, [125], 0);
    SpaceSkips(t, p + 1, s);
  }

  lemma {:induction false} ArrayTreeOpens(t: bytes, p: nat, inner: bytes, log: Log)
    requires At(t, p, [91] + inner + [93]) && Starts(Peek(t, SkipSpace(t, p + 1)))
    ensures At(t, p + 1, inner + [93])
    ensures Value(t, p, log) == Elements(t, SkipSpace(t, p + 1), 0, log + [StartArray])
  {
    hide Elements, ObjectBody, ScalarValue, SkipSpace;
    assert [91] + inner + [93] == [91] + (inner + [93]);
    AtSplit(t, p, [91], inner + [93]);
    AtIndex(t, p, [91], 0);
  }

  lemma {:induction false} ObjectTreeOpens(t: bytes, p: nat, inner: bytes, log: Log)
    requires At(t, p, [123] + inner + [125]) && Peek(t, SkipSpace(t, p + 1)) == 34
    ensures At(t, p + 1, inner + [125])
    ensures Value(t, p, log) == Members(t, SkipSpace(t, p + 1), 0, log + [StartObject])
  {
    hide Members, ArrayBody, ScalarValue, SkipSpace;
    assert [123] + inner + [125] == [123] + (inner + [125]);
    AtSplit(t, p, [123], inner + [125]);
    AtIndex(t, p, [123], 0);
  }

  lemma {:induction false} InnerStands(t: bytes, p: nat, a: byte, inner: bytes, b: byte)
    requires At(t, p, [a] + inner + [b])
    ensures At(t, p + 1, inner + [b])
  {
    assert [a] + inner + [b] == [a] + (inner + [b]);
    AtSplit(t, p, [a], inner + [b]);
  }

  lemma {:induction false} ArrayTreeReads(t: bytes, p: nat, s: bytes, items: seq<Item>, log: Log)
    requires Good(ArrayTree(s, items)) && At(t, p, TreeText(ArrayTree(s, items)))
    ensures Value(t, p, log) == Ok(p + |TreeText(ArrayTree(s, items))|, log + TreeMeans(ArrayTree(s, items)))
    decreases items, 1
  {
    hide Value, Elements, At, SkipSpace, ItemsText, ItemsMean, AllBlank, GoodItem, Starts;
    if items == [] {
      assert ItemsMean(items) == [] by { NothingMeant(); }
      EmptyArrayReads(t, p, s, log);
    } else {
      InnerStands(t, p, 91, ItemsText(items), 93);
      ItemsRead(t, p + 1, items, 0, log + [StartArray]);
      ArrayTreeOpens(t, p, ItemsText(items), log);
      assert log + [StartArray] + ItemsMean(items) + [EndArray(|items|)]
          == log + ([StartArray] + ItemsMean(items) + [EndArray(|items|)]);
    }
  }

  lemma {:induction false} NothingMeant()
    ensures ItemsMean([]) == [] && FieldsMean([]) == []
  {
  }

  lemma {:induction false} ObjectTreeReads(t: bytes, p: nat, s: bytes, fields: seq<Field>, log: Log)
    requires Good(ObjectTree(s, fields)) && At(t, p, TreeText(ObjectTree(s, fields)))
    ensures Value(t, p, log) == Ok(p + |TreeText(ObjectTree(s, fields))|, log + TreeMeans(ObjectTree(s, fields)))
    decreases fields, 1
  {
    hide Value, Members, At, SkipSpace, FieldsText, FieldsMean, AllBlank, GoodField;
    if fields == [] {
      assert FieldsMean(fields) == [] by { NothingMeant(); }
      EmptyObjectReads(t, p, s, log);
    } else {
      InnerStands(t, p, 123, FieldsText(fields), 125);
      FieldsRead(t, p + 1, fields, 0, log + [StartObject]);
      ObjectTreeOpens(t, p, FieldsText(fields), log);
      assert log + [StartObject] + FieldsMean(fields) + [EndObject(|fields|)]
          == log + ([StartObject] + FieldsMean(fields) + [EndObject(|fields|)]);
    }
  }

  // A value that can be derived is read as what it means, wherever it stands.
  lemma {:induction false} TreeReads(t: bytes, p: nat, v: Tree, log: Log)
    requires Good(v) && At(t, p, TreeText(v)) && Stops(Peek(t, p + |TreeText(v)|))
    ensures Value(t, p, log) == Ok(p + |TreeText(v)|, log + TreeMeans(v))
    decreases v, 1
  {
    hide Value, Good, TreeText, TreeMeans, Stops, At;
    match v
    case ArrayTree(s, items) => ArrayTreeReads(t, p, s, items, log);
    case ObjectTree(s, fields) => ObjectTreeReads(t, p, s, fields, log);
    case _ => LeafReads(t, p, v, log);
  }

  // A text that can be derived is accepted as what it means, whatever its white space.
  lemma {:induction false} TextReads(t: bytes, d: Text)
    requires GoodText(d) && Holds(t, d)
    ensures ParsedDocument(t) == Ok(|Written(d)|, TreeMeans(d.root))
  {
    hide Value, Good, TreeText, TreeMeans, Stops, Starts, At, AllBlank, SkipSpace;
    var q := |d.before|;
    var r := q + |TreeText(d.root)|;
    assert Written(d) == d.before + (TreeText(d.root) + d.behind);
    AtSplit(t, 0, d.before, TreeText(d.root) + d.behind);
    AtSplit(t, q, TreeText(d.root), d.behind);
    RootStands(t, d);
    TreeReads(t, q, d.root, []);
    assert [] + TreeMeans(d.root) == TreeMeans(d.root);
  }

  lemma {:induction false} RootStands(t: bytes, d: Text)
    requires GoodText(d) && Holds(t, d)
    requires At(t, 0, d.before) && At(t, |d.before|, TreeText(d.root))
    requires At(t, |d.before| + |TreeText(d.root)|, d.behind)
    ensures var q := |d.before|;
            var r := q + |TreeText(d.root)|;
            && SkipSpace(t, 0) == q && Peek(t, q) != 0 && Stops(Peek(t, r))
            && SkipSpace(t, r) == |Written(d)| && Peek(t, |Written(d)|) == 0
  {
    hide TreeText, Good, AllBlank, SkipSpace;
    var q := |d.before|;
    var r := q + |TreeText(d.root)|;
    TreeStarts(d.root);
    AtIndex(t, q, TreeText(d.root), 0);
    SpaceSkips(t, 0, d.before);
    SpaceStops(t, r, d.behind);
    SpaceSkips(t, r, d.behind);
  }

  /* What is read can be derived */

  lemma {:induction false} Standing(t: bytes, p: nat, q: nat)
    requires p <= q <= |t|
    ensures At(t, p, t[p..q]) && |t[p..q]| == q - p
  {
  }

  lemma {:induction false} OneStands(t: bytes, p: nat, c: byte)
    requires Peek(t, p) == c && c != 0
    ensures p < |t| && At(t, p, [c])
  {
  }

  lemma {:induction false} TwoStand(t: bytes, p: nat, a: bytes, b: bytes)
    requires At(t, p, a) && At(t, p + |a|, b)
    ensures At(t, p, a + b)
  {
    assert t[p..p + |a + b|] == t[p..p + |a|] + t[p + |a|..p + |a| + |b|];
  }

  lemma {:induction false} CharDerives(t: bytes, p: nat, acc: bytes) returns (c: Char)
    requires p > 0 && ScanChars(t, p, acc).Scanned? && Peek(t, p) != 34
    ensures GoodChar(c) && At(t, p, CharText(c))
  {
    hide ScanHex, ScanUnicode, Utf8Encode, Code, IsCode, At;
    if Peek(t, p) != BACKSLASH {
      c := Plain(t[p]);
      OneStands(t, p, t[p]);
    } else if Unescape(Peek(t, p + 1)) != NUL {
      c := LetterDerives(t, p);
    } else {
      c := UnitDerives(t, p + 2);
      OneStands(t, p, 92);
      OneStands(t, p + 1, 117);
      TwoStand(t, p, [92], [117]);
      assert [92] + [117] == [92, 117];
      var tail := CharText(c)[2..];
      TwoStand(t, p, [92, 117], tail);
      assert CharText(c) == [92, 117] + tail;
    }
  }

  lemma {:induction false} LetterDerives(t: bytes, p: nat) returns (c: Char)
    requires Peek(t, p) == 92 && Unescape(Peek(t, p + 1)) != NUL
    ensures GoodChar(c) && At(t, p, CharText(c))
  {
    hide At;
    c := Short(t[p + 1]);
    OneStands(t, p, 92);
    OneStands(t, p + 1, t[p + 1]);
    TwoStand(t, p, [92], [t[p + 1]]);
    assert [92] + [t[p + 1]] == [92, t[p + 1]];
  }

  lemma {:induction false} UnitDerives(t: bytes, p: nat) returns (c: Char)
    requires ScanUnicode(t, p).Scanned?
    ensures GoodChar(c) && |CharText(c)| >= 2 && CharText(c)[..2] == [92, 117] && At(t, p, CharText(c)[2..])
  {
    hide ScanHex, Utf8Encode, Code;
    HexExactly(t, p);
    var h := t[p..p + 4];
    Standing(t, p, p + 4);
    if !IsHigh(h) {
      c := Unit(h);
      assert CharText(c)[2..] == h;
    } else {
      HexExactly(t, p + 6);
      var l := t[p + 6..p + 10];
      c := Pair(h, l);
      assert t[p + 4..p + 6] == [92, 117];
      Standing(t, p + 4, p + 6);
      Standing(t, p + 6, p + 10);
      TwoStand(t, p + 4, [92, 117], l);
      TwoStand(t, p, h, [92, 117] + l);
      assert CharText(c)[2..] == h + ([92, 117] + l);
    }
  }

  lemma {:induction false} CharsDerive(t: bytes, p: nat, acc: bytes) returns (cs: seq<Char>)
    requires p > 0 && ScanChars(t, p, acc).Scanned?
    ensures GoodChars(cs) && At(t, p, CharsText(cs) + [34])
    decreases Left(t, p)
  {
    hide ScanChars, CharText, CharMeans, GoodChar, At;
    if Peek(t, p) == 34 {
      cs := [];
      OneStands(t, p, 34);
      assert CharsText(cs) + [34] == [34];
    } else {
      var c := CharDerives(t, p, acc);
      CharReads(t, p, c, acc);
      AtSlice(t, p, CharText(c));
      var rest := CharsDerive(t, p + |CharText(c)|, acc + CharMeans(c));
      cs := [c] + rest;
      assert cs[1..] == rest;
      TwoStand(t, p, CharText(c), CharsText(rest) + [34]);
      assert CharsText(cs) + [34] == CharText(c) + (CharsText(rest) + [34]);
    }
  }

  // A quoted string is one of the derivations.
  lemma {:induction false} QuotedDerives(t: bytes, p: nat) returns (cs: seq<Char>)
    requires Peek(t, p) == 34 && ScanString(t, p).Scanned?
    ensures GoodChars(cs) && At(t, p, QuotedText(cs))
  {
    hide ScanChars, CharsText, At;
    cs := CharsDerive(t, p + 1, []);
    OneStands(t, p, 34);
    TwoStand(t, p, [34], CharsText(cs) + [34]);
    assert QuotedText(cs) == [34] + (CharsText(cs) + [34]);
  }

  lemma {:induction false} RunStands(t: bytes, p: nat, q: nat)
    requires p <= q <= |t| && forall k :: p <= k < q ==> IsDigit(Peek(t, k))
    ensures At(t, p, t[p..q]) && OnlyDigits(t[p..q]) && Decimal(t, p, q) == Worth(t[p..q])
  {
    Standing(t, p, q);
    DigitsStand(t, p, t[p..q]);
    WorthIsDecimal(t, p, t[p..q]);
  }

  lemma {:induction false} FractionDerives(t: bytes, e: nat) returns (f: bytes)
    requires e <= |t| && ScanFraction(t, e).Scanned?
    ensures OnlyDigits(f) && At(t, e, FractionText(f)) && ScanFraction(t, e) == Scanned(e + |FractionText(f)|, f != [])
  {
    hide Decimal, Worth;
    if Peek(t, e) != DOT {
      f := [];
    } else {
      var x := DigitsEnd(t, e + 1);
      assert x > e + 1;
      RunStands(t, e + 1, x);
      f := t[e + 1..x];
      OneStands(t, e, 46);
      TwoStand(t, e, [46], f);
    }
  }

  lemma {:induction false} ExponentMade(t: bytes, f: nat, s: nat, e: nat) returns (x: Exponent)
    requires IsExponentMark(Peek(t, f)) && IsDigit(Peek(t, s)) && e == DigitsEnd(t, s)
    requires s == if Peek(t, f + 1) == PLUS || Peek(t, f + 1) == MINUS then f + 2 else f + 1
    ensures x.Exponent? && GoodExponent(x) && At(t, f, ExponentText(x)) && f + |ExponentText(x)| == e
    ensures (x.sign == [45] <==> Peek(t, f + 1) == MINUS)
    ensures s < e && (forall k :: s <= k < e ==> IsDigit(Peek(t, k))) && Worth(x.digits) == Decimal(t, s, e)
  {
    hide Decimal, Worth, DigitsEnd, At, OnlyDigits;
    DigitsGo(t, s);
    RunStands(t, s, e);
    SignStands(t, f + 1, s);
    x := Exponent(t[f], t[f + 1..s], t[s..e]);
    OneStands(t, f, t[f]);
    TwoStand(t, f + 1, x.sign, x.digits);
    TwoStand(t, f, [x.mark], x.sign + x.digits);
    ThreeParts([x.mark], x.sign, x.digits);
  }

  lemma {:induction false} SignStands(t: bytes, p: nat, s: nat)
    requires p <= s <= |t| && s == if Peek(t, p) == PLUS || Peek(t, p) == MINUS then p + 1 else p
    ensures At(t, p, t[p..s]) && |t[p..s]| == s - p && (t[p..s] == [] || t[p..s] == [43] || t[p..s] == [45])
    ensures t[p..s] == [45] <==> Peek(t, p) == MINUS
  {
  }

  lemma {:induction false} ExponentDerives(t: bytes, f: nat) returns (x: Exponent)
    requires f <= |t| && ScanExponent(t, f).Scanned?
    ensures GoodExponent(x) && At(t, f, ExponentText(x))
    ensures x.Exponent? ==> x.sign == [45] || Worth(x.digits) <= 308
    ensures ScanExponent(t, f) == Scanned(f + |ExponentText(x)|, x.Exponent?)
  {
    hide Decimal, Worth, ScanExponentDigits, DigitsEnd, GoodExponent, ExponentText, At;
    if !IsExponentMark(Peek(t, f)) {
      x := NoExponent;
      NothingRaised(t, f);
    } else {
      var s := if Peek(t, f + 1) == PLUS || Peek(t, f + 1) == MINUS then f + 2 else f + 1;
      var e := DigitsEnd(t, s);
      x := ExponentMade(t, f, s, e);
      ExponentExactly(t, s, s + 1, Peek(t, f + 1) == MINUS);
    }
  }

  lemma {:induction false} NothingRaised(t: bytes, f: nat)
    requires f <= |t|
    ensures GoodExponent(NoExponent) && ExponentText(NoExponent) == [] && At(t, f, [])
  {
  }

  lemma {:induction false} DigitsGo(t: bytes, s: nat)
    requires IsDigit(Peek(t, s))
    ensures s < DigitsEnd(t, s) <= |t| && forall k :: s <= k < DigitsEnd(t, s) ==> IsDigit(Peek(t, k))
  {
  }

  lemma {:induction false} WholeDerives(t: bytes, q: nat) returns (whole: bytes)
    requires IsDigit(Peek(t, q))
    ensures IntegerEnd(t, q) <= |t| && q < IntegerEnd(t, q) && whole == t[q..IntegerEnd(t, q)] && whole != []
    ensures OnlyDigits(whole) && (whole[0] == 48 ==> |whole| == 1) && At(t, q, whole)
    ensures Decimal(t, q, IntegerEnd(t, q)) == Worth(whole)
  {
    hide Decimal, Worth, DigitsEnd;
    var e := IntegerEnd(t, q);
    RunStands(t, q, e);
    whole := t[q..e];
  }

  lemma {:induction false} MinusStands(t: bytes, p: nat, minus: bool)
    requires minus == (Peek(t, p) == MINUS) && p <= |t|
    ensures At(t, p, MinusText(minus))
  {
  }

  lemma {:induction false} NumeralMade(t: bytes, p: nat, n: Numeral)
    requires WellFormed(n) && n.minus == (Peek(t, p) == MINUS) && p <= |t|
    requires var q := p + |MinusText(n.minus)|;
             var e := q + |n.whole|;
             var f := e + |FractionText(n.fraction)|;
             && At(t, q, n.whole) && At(t, e, FractionText(n.fraction)) && At(t, f, ExponentText(n.exponent))
    ensures At(t, p, NumeralText(n))
    ensures |NumeralText(n)|
         == |MinusText(n.minus)| + |n.whole| + |FractionText(n.fraction)| + |ExponentText(n.exponent)|
  {
    hide FractionText, ExponentText, WellFormed, At, NumeralText;
    var q := p + |MinusText(n.minus)|;
    var e := q + |n.whole|;
    var tail := FractionText(n.fraction) + ExponentText(n.exponent);
    TwoStand(t, e, FractionText(n.fraction), ExponentText(n.exponent));
    TwoStand(t, q, n.whole, tail);
    NumeralParts(n);
    MinusStands(t, p, n.minus);
    TwoStand(t, p, MinusText(n.minus), n.whole + tail);
  }

  lemma {:induction false} NumeralDerives(t: bytes, p: nat) returns (n: Numeral)
    requires ScanNumber(t, p).Scanned?
    ensures GoodNumeral(n) && At(t, p, NumeralText(n))
    ensures ScanNumber(t, p) == Scanned(p + |NumeralText(n)|, NumeralMeans(n))
  {
    hide FirstBeyond, Worth, Decimal, IntegerEnd, FractionText, ExponentText, NumeralMeans, ScanFraction, ScanExponent,
         OnlyDigits, GoodExponent, NumeralText, At;
    var minus := Peek(t, p) == MINUS;
    var q := if minus then p + 1 else p;
    DigitThere(t, p, q);
    var whole := WholeDerives(t, q);
    var e := IntegerEnd(t, q);
    NumberSplits(t, p, q, minus);
    BeyondExactly(t, q, q, e, DBL_MAX_TENTH);
    var fraction := FractionDerives(t, e);
    var f := e + |FractionText(fraction)|;
    AtSlice(t, e, FractionText(fraction));
    var exponent := ExponentDerives(t, f);
    n := Numeral(minus, whole, fraction, exponent);
    NumeralMade(t, p, n);
    AtSlice(t, p, NumeralText(n));
    TailScans(t, p, e, f, p + |NumeralText(n)|, n);
  }

  lemma {:induction false} DigitThere(t: bytes, p: nat, q: nat)
    requires ScanNumber(t, p).Scanned? && q == if Peek(t, p) == MINUS then p + 1 else p
    ensures IsDigit(Peek(t, q))
  {
    hide FirstBeyond, Decimal, ScanTail, IntegerEnd;
  }

  lemma {:induction false} WordDerives(t: bytes, p: nat, s: bytes)
    requires ScanLetters(t, p, s).Scanned? && p <= |t| && forall c <- s :: c != 0
    ensures At(t, p, s)
    decreases |s|
  {
    if s != [] {
      assert s[0] in s && forall c <- s[1..] :: c in s;
      WordDerives(t, p + 1, s[1..]);
      OneStands(t, p, s[0]);
      TwoStand(t, p, [s[0]], s[1..]);
      assert s == [s[0]] + s[1..];
    }
  }

  lemma {:induction false} LiteralDerives(t: bytes, p: nat, log: Log) returns (v: Tree)
    requires Value(t, p, log).Ok? && (Peek(t, p) == 110 || Peek(t, p) == 116 || Peek(t, p) == 102)
    ensures (v.NullWord? || v.TrueWord? || v.FalseWord?) && At(t, p, TreeText(v))
  {
    hide ScanLetters, ScanString, ScanNumber;
    var c := Peek(t, p);
    v := if c == 110 then NullWord else if c == 116 then TrueWord else FalseWord;
    var rest := if c == 110 then ULL else if c == 116 then RUE else ALSE;
    OneStands(t, p, c);
    WordDerives(t, p + 1, rest);
    TwoStand(t, p, [c], rest);
    assert TreeText(v) == [c] + rest;
  }

  lemma {:induction false} ScalarDerives(t: bytes, p: nat, log: Log) returns (v: Tree)
    requires Value(t, p, log).Ok? && Peek(t, p) != 91 && Peek(t, p) != 123
    ensures Good(v) && At(t, p, TreeText(v))
    ensures Value(t, p, log) == Ok(p + |TreeText(v)|, log + TreeMeans(v))
  {
    hide ScanLetters, ScanString, ScanNumber, NumeralText, QuotedText, CharsMean, At, GoodNumeral, NumeralMeans;
    var c := Peek(t, p);
    if c == 110 || c == 116 || c == 102 {
      v := LiteralDerives(t, p, log);
      WordReads(t, p, v, log);
    } else if c == 34 {
      var cs := QuotedDerives(t, p);
      QuotedReads(t, p, cs);
      v := StringTree(cs);
    } else {
      var n := NumeralDerives(t, p);
      v := NumberTree(n);
    }
  }

  lemma {:induction false} SpaceDerives(t: bytes, p: nat)
    requires p <= |t|
    ensures p <= SkipSpace(t, p) <= |t| && AllBlank(t[p..SkipSpace(t, p)]) && At(t, p, t[p..SkipSpace(t, p)])
    decreases Left(t, p)
  {
    var q := SkipSpace(t, p);
    Standing(t, p, q);
    if IsSpace(Peek(t, p)) {
      SpaceDerives(t, p + 1);
      assert t[p..q] == [t[p]] + t[p + 1..q];
    } else {
      assert t[p..q] == [];
    }
  }

  // A list of items with more white space in front.
  function Indented(s: bytes, items: seq<Item>): seq<Item>
    requires items != []
  {
    [items[0].(before := s + items[0].before)] + items[1..]
  }

  lemma {:induction false} IndentedMeans(s: bytes, items: seq<Item>)
    requires items != [] && AllBlank(s) && forall i <- items :: GoodItem(i)
    ensures var r := Indented(s, items);
            && (forall i <- r :: GoodItem(i)) && ItemsText(r) == s + ItemsText(items)
            && ItemsMean(r) == ItemsMean(items) && |r| == |items|
  {
    hide TreeText, TreeMeans, Good;
    var r := Indented(s, items);
    assert r[1..] == items[1..] && GoodItem(items[0]);
    var i, j := items[0], r[0];
    assert j.before + TreeText(j.value) + j.behind == s + (i.before + TreeText(i.value) + i.behind);
    BlanksJoin(s, i.before);
  }

  lemma {:induction false} BlanksJoin(s: bytes, r: bytes)
    requires AllBlank(s) && AllBlank(r)
    ensures AllBlank(s + r)
  {
  }

  function IndentedFields(s: bytes, fields: seq<Field>): seq<Field>
    requires fields != []
  {
    [fields[0].(before := s + fields[0].before)] + fields[1..]
  }

  // White space in front of a member.
  lemma {:induction false} IndentedField(s: bytes, f: Field)
    requires AllBlank(s) && GoodField(f)
    ensures var g := f.(before := s + f.before); GoodField(g) && FieldText(g) == s + FieldText(f)
  {
    hide TreeText, Good, QuotedText, GoodChars, AllBlank;
    var tail := QuotedText(f.name) + f.afterName + [58] + f.beforeValue + TreeText(f.value) + f.behind;
    assert FieldText(f) == f.before + tail;
    BlanksJoin(s, f.before);
  }

  lemma {:induction false} IndentedFieldsText(s: bytes, fields: seq<Field>)
    requires fields != [] && AllBlank(s) && forall f <- fields :: GoodField(f)
    ensures var r := IndentedFields(s, fields);
            (forall f <- r :: GoodField(f)) && FieldsText(r) == s + FieldsText(fields) && |r| == |fields|
  {
    hide GoodField, FieldText, AllBlank;
    var r := IndentedFields(s, fields);
    assert r[1..] == fields[1..] && fields[0] in fields;
    IndentedField(s, fields[0]);
    assert forall f <- fields[1..] :: f in fields;
  }

  // The end of a list: its last item and the bracket.
  lemma {:induction false} LastItem(t: bytes, q: nat, v: Tree, behind: bytes) returns (items: seq<Item>)
    requires Good(v) && AllBlank(behind) && At(t, q, TreeText(v)) && At(t, q + |TreeText(v)|, behind)
    requires Peek(t, q + |TreeText(v)| + |behind|) == 93
    ensures items != [] && items[0].before == [] && forall i <- items :: GoodItem(i)
    ensures At(t, q, ItemsText(items) + [93])
  {
    hide TreeText, Good, At, Peek;
    var i := Item([], v, behind);
    items := [i];
    var r := q + |TreeText(v)|;
    OneStands(t, r + |behind|, 93);
    TwoStand(t, r, behind, [93]);
    TwoStand(t, q, TreeText(v), behind + [93]);
    assert ItemText(i) == TreeText(v) + behind;
    assert ItemsText(items) + [93] == TreeText(v) + (behind + [93]);
    assert AllBlank([]);
  }

  lemma {:induction false} MoreItems(t: bytes, q: nat, v: Tree, behind: bytes, space: bytes, rest: seq<Item>)
    returns (items: seq<Item>)
    requires Good(v) && AllBlank(behind) && At(t, q, TreeText(v)) && At(t, q + |TreeText(v)|, behind) && AllBlank(space)
    requires var e := q + |TreeText(v)| + |behind|;
             && Peek(t, e) == 44 && At(t, e + 1, space)
             && rest != [] && (forall i <- rest :: GoodItem(i)) && At(t, e + 1 + |space|, ItemsText(rest) + [93])
    ensures items != [] && items[0].before == [] && forall i <- items :: GoodItem(i)
    ensures At(t, q, ItemsText(items) + [93])
  {
    hide TreeText, Good, At, Peek, AllBlank, ItemText, ItemsText;
    var i := Item([], v, behind);
    var others := Indented(space, rest);
    items := [i] + others;
    var r := q + |TreeText(v)|;
    var e := r + |behind|;
    IndentedMeans(space, rest);
    TwoStand(t, e + 1, space, ItemsText(rest) + [93]);
    assert space + (ItemsText(rest) + [93]) == ItemsText(others) + [93];
    OneStands(t, e, 44);
    TwoStand(t, e, [44], ItemsText(others) + [93]);
    TwoStand(t, r, behind, [44] + (ItemsText(others) + [93]));
    TwoStand(t, q, TreeText(v), behind + ([44] + (ItemsText(others) + [93])));
    assert items[1..] == others;
    ListSplit(items);
    assert ItemsRest(items) == [44] + (ItemsText(others) + [93]);
    NothingBefore(TreeText(v) + (behind + ([44] + (ItemsText(others) + [93]))));
    NoBlanks();
  }

  lemma {:induction false} NoBlanks()
    ensures AllBlank([])
  {
  }

  lemma {:induction false} ItemsDerive(t: bytes, q: nat, n: nat, log: Log) returns (items: seq<Item>)
    requires Elements(t, q, n, log).Ok? && q <= |t|
    ensures items != [] && items[0].before == [] && forall i <- items :: GoodItem(i)
    ensures At(t, q, ItemsText(items) + [93])
    decreases Left(t, q), 3
  {
    hide Value, TreeText, Good, AllBlank, SkipSpace, TreeMeans, ItemsText, At;
    var v := TreeDerives(t, q, log);
    var r := q + |TreeText(v)|;
    AtSlice(t, q, TreeText(v));
    TreeStarts(v);
    SpaceDerives(t, r);
    var e := SkipSpace(t, r);
    if Peek(t, e) == 93 {
      items := LastItem(t, q, v, t[r..e]);
    } else {
      OneStands(t, e, 44);
      SpaceDerives(t, e + 1);
      var f := SkipSpace(t, e + 1);
      var rest := ItemsDerive(t, f, n + 1, log + TreeMeans(v));
      items := MoreItems(t, q, v, t[r..e], t[e + 1..f], rest);
    }
  }

  // The value of a field, from the white space in front of it on.
  lemma {:induction false} ValueMade(t: bytes, c: nat, v: nat, value: Tree, e: nat, rest: bytes)
    requires At(t, v, TreeText(value)) && At(t, e, rest)
    requires c <= v <= |t| && v + |TreeText(value)| <= e <= |t|
    ensures At(t, c, t[c..v] + (TreeText(value) + (t[v + |TreeText(value)|..e] + rest)))
  {
    hide TreeText, At;
    var r := v + |TreeText(value)|;
    Standing(t, c, v);
    Standing(t, r, e);
    TwoStand(t, r, t[r..e], rest);
    TwoStand(t, v, TreeText(value), t[r..e] + rest);
    TwoStand(t, c, t[c..v], TreeText(value) + (t[r..e] + rest));
  }

  // A field up to what follows it.
  lemma {:induction false} FieldMade(t: bytes, q: nat, cs: seq<Char>, c: nat, v: nat, value: Tree, e: nat, rest: bytes)
    returns (f: Field)
    requires GoodChars(cs) && Good(value) && At(t, q, QuotedText(cs)) && At(t, v, TreeText(value)) && At(t, e, rest)
    requires var a, r := q + |QuotedText(cs)|, v + |TreeText(value)|;
             && a <= c <= |t| && AllBlank(t[a..c]) && Peek(t, c) == 58
             && c + 1 <= v <= |t| && AllBlank(t[c + 1..v]) && r <= e <= |t| && AllBlank(t[r..e])
    ensures GoodField(f) && f.before == [] && At(t, q, FieldText(f) + rest)
  {
    hide TreeText, Good, Peek, AllBlank, QuotedText, CharsText, At, GoodChars, FieldText;
    var a, r := q + |QuotedText(cs)|, v + |TreeText(value)|;
    f := Field([], cs, t[a..c], t[c + 1..v], value, t[r..e]);
    var tail := f.beforeValue + (TreeText(value) + (f.behind + rest));
    ValueMade(t, c + 1, v, value, e, rest);
    Standing(t, a, c);
    OneStands(t, c, 58);
    TwoStand(t, c, [58], tail);
    TwoStand(t, a, f.afterName, [58] + tail);
    TwoStand(t, q, QuotedText(cs), f.afterName + ([58] + tail));
    FieldParts(f, rest);
    NoBlanks();
  }

  lemma {:induction false} FieldParts(f: Field, rest: bytes)
    requires f.before == []
    ensures FieldText(f) + rest
         == QuotedText(f.name)
            + (f.afterName + ([58] + (f.beforeValue + (TreeText(f.value) + (f.behind + rest)))))
  {
    hide TreeText, QuotedText;
    var value := f.beforeValue + TreeText(f.value) + f.behind;
    assert FieldText(f) + rest == [] + QuotedText(f.name) + f.afterName + [58] + value + rest;
    SixParts([], QuotedText(f.name), f.afterName, [58], value, rest);
    FourParts(f.beforeValue, TreeText(f.value), f.behind, rest);
  }

  // A name, a colon, and where the value must stand.
  lemma {:induction false} HeadDerives(t: bytes, q: nat, n: nat, log: Log) returns (cs: seq<Char>, c: nat, v: nat)
    requires Members(t, q, n, log).Ok? && q <= |t|
    ensures GoodChars(cs) && At(t, q, QuotedText(cs))
    ensures var a := q + |QuotedText(cs)|;
            && a <= c <= |t| && AllBlank(t[a..c]) && Peek(t, c) == 58
            && c + 1 <= v <= |t| && AllBlank(t[c + 1..v]) && q < a
    ensures Members(t, q, n, log) == MemberValue(t, v, n, log + [Key(CharsMean(cs))])
  {
    hide Value, AllBlank, SkipSpace, At, QuotedText, CharsMean, ScanString, GoodChars, MemberValue;
    cs := QuotedDerives(t, q);
    QuotedReads(t, q, cs);
    var a := q + |QuotedText(cs)|;
    AtSlice(t, q, QuotedText(cs));
    SpaceDerives(t, a);
    c := SkipSpace(t, a);
    OneStands(t, c, 58);
    SpaceDerives(t, c + 1);
    v := SkipSpace(t, c + 1);
  }

  lemma {:induction false} FieldsDerive(t: bytes, q: nat, n: nat, log: Log) returns (fields: seq<Field>)
    requires Members(t, q, n, log).Ok? && q <= |t|
    ensures fields != [] && fields[0].before == [] && forall f <- fields :: GoodField(f)
    ensures At(t, q, FieldsText(fields) + [125])
    decreases Left(t, q), 3
  {
    hide Value, Members, TreeText, Good, AllBlank, SkipSpace, TreeMeans, FieldsText, At, QuotedText, CharsMean,
         GoodChars, GoodField;
    var cs, c, v := HeadDerives(t, q, n, log);
    var l := log + [Key(CharsMean(cs))];
    var value := TreeDerives(t, v, l);
    var r := v + |TreeText(value)|;
    AtSlice(t, v, TreeText(value));
    SpaceDerives(t, r);
    var e := SkipSpace(t, r);
    if Peek(t, e) == 125 {
      OneStands(t, e, 125);
      var f := FieldMade(t, q, cs, c, v, value, e, [125]);
      fields := [f];
      OneField(f);
    } else {
      OneStands(t, e, 44);
      SpaceDerives(t, e + 1);
      var g := SkipSpace(t, e + 1);
      var rest := FieldsDerive(t, g, n + 1, l + TreeMeans(value));
      fields := MoreFields(t, q, cs, c, v, value, e, t[e + 1..g], rest);
    }
  }

  lemma {:induction false} OneField(f: Field)
    ensures FieldsText([f]) == FieldText(f)
  {
    hide FieldText;
  }

  lemma {:induction false} MoreFields(t: bytes, q: nat, cs: seq<Char>, c: nat, v: nat, value: Tree, e: nat,
                                      space: bytes, rest: seq<Field>) returns (fields: seq<Field>)
    requires GoodChars(cs) && Good(value) && At(t, q, QuotedText(cs)) && At(t, v, TreeText(value))
    requires var a, r := q + |QuotedText(cs)|, v + |TreeText(value)|;
             && a <= c <= |t| && AllBlank(t[a..c]) && Peek(t, c) == 58
             && c + 1 <= v <= |t| && AllBlank(t[c + 1..v]) && r <= e <= |t| && AllBlank(t[r..e])
    requires Peek(t, e) == 44 && AllBlank(space) && At(t, e + 1, space)
    requires rest != [] && (forall f <- rest :: GoodField(f)) && At(t, e + 1 + |space|, FieldsText(rest) + [125])
    ensures fields != [] && fields[0].before == [] && forall f <- fields :: GoodField(f)
    ensures At(t, q, FieldsText(fields) + [125])
  {
    hide TreeText, Good, Peek, AllBlank, QuotedText, CharsText, At, GoodChars, GoodField, FieldText;
    var others := IndentedFields(space, rest);
    var tail := [44] + (FieldsText(others) + [125]);
    IndentedFieldsText(space, rest);
    TwoStand(t, e + 1, space, FieldsText(rest) + [125]);
    assert space + (FieldsText(rest) + [125]) == FieldsText(others) + [125];
    OneStands(t, e, 44);
    TwoStand(t, e, [44], FieldsText(others) + [125]);
    var f := FieldMade(t, q, cs, c, v, value, e, tail);
    fields := [f] + others;
    assert fields[1..] == others;
    assert FieldsText(fields) + [125] == FieldText(f) + tail;
  }

  // Every value that is read can be derived, and means what was read.
  lemma {:induction false} TreeDerives(t: bytes, p: nat, log: Log) returns (v: Tree)
    requires Value(t, p, log).Ok? && p <= |t|
    ensures Good(v) && At(t, p, TreeText(v))
    ensures Value(t, p, log) == Ok(p + |TreeText(v)|, log + TreeMeans(v))
    decreases Left(t, p), 2
  {
    hide Value, TreeText, Good, TreeMeans, At, SkipSpace;
    if Peek(t, p) == 91 {
      v := ArrayDerives(t, p, log);
    } else if Peek(t, p) == 123 {
      v := ObjectDerives(t, p, log);
    } else {
      v := ScalarDerives(t, p, log);
    }
  }

  lemma {:induction false} ArrayDerives(t: bytes, p: nat, log: Log) returns (v: Tree)
    requires Value(t, p, log).Ok? && Peek(t, p) == 91
    ensures Good(v) && At(t, p, TreeText(v))
    ensures Value(t, p, log) == Ok(p + |TreeText(v)|, log + TreeMeans(v))
    decreases Left(t, p), 1
  {
    hide ObjectBody, ScalarValue, Elements, SkipSpace, AllBlank, ItemsText, At, TreeMeans, GoodItem;
    OneStands(t, p, 91);
    SpaceDerives(t, p + 1);
    var q := SkipSpace(t, p + 1);
    var s := t[p + 1..q];
    if Peek(t, q) == 93 {
      OneStands(t, q, 93);
      v := ArrayTree(s, []);
      BracketsStand(t, p, 91, s, 93);
      ArrayTreeReads(t, p, s, [], log);
    } else {
      var items := ItemsDerive(t, q, 0, log + [StartArray]);
      IndentedMeans(s, items);
      items := Indented(s, items);
      TwoStand(t, p + 1, s, ItemsText(items)[|s|..] + [93]);
      v := ArrayTree([], items);
      NoBlanks();
      BracketsAround(t, p, 91, ItemsText(items), 93, s);
      ArrayTreeReads(t, p, [], items, log);
    }
  }

  lemma {:induction false} BracketsStand(t: bytes, p: nat, a: byte, inner: bytes, b: byte)
    requires At(t, p, [a]) && At(t, p + 1, inner) && At(t, p + 1 + |inner|, [b])
    ensures At(t, p, [a] + inner + [b])
  {
    TwoStand(t, p, [a], inner);
    TwoStand(t, p, [a] + inner, [b]);
  }

  // Brackets around white space and a list that ends with its bracket.
  lemma {:induction false} BracketsAround(t: bytes, p: nat, a: byte, inner: bytes, b: byte, s: bytes)
    requires At(t, p, [a]) && At(t, p + 1, s) && s <= inner && At(t, p + 1 + |s|, inner[|s|..] + [b])
    ensures At(t, p, [a] + inner + [b])
  {
    hide At;
    TwoStand(t, p + 1, s, inner[|s|..] + [b]);
    TwoStand(t, p, [a], s + (inner[|s|..] + [b]));
    assert [a] + (s + (inner[|s|..] + [b])) == [a] + inner + [b];
  }

  lemma {:induction false} ObjectDerives(t: bytes, p: nat, log: Log) returns (v: Tree)
    requires Value(t, p, log).Ok? && Peek(t, p) == 123
    ensures Good(v) && At(t, p, TreeText(v))
    ensures Value(t, p, log) == Ok(p + |TreeText(v)|, log + TreeMeans(v))
    decreases Left(t, p), 1
  {
    hide ArrayBody, ScalarValue, Members, SkipSpace, AllBlank, FieldsText, At, TreeMeans, GoodField;
    OneStands(t, p, 123);
    SpaceDerives(t, p + 1);
    var q := SkipSpace(t, p + 1);
    var s := t[p + 1..q];
    if Peek(t, q) == 125 {
      OneStands(t, q, 125);
      v := ObjectTree(s, []);
      BracketsStand(t, p, 123, s, 125);
      ObjectTreeReads(t, p, s, [], log);
    } else {
      var fields := FieldsDerive(t, q, 0, log + [StartObject]);
      IndentedFieldsText(s, fields);
      fields := IndentedFields(s, fields);
      v := ObjectTree([], fields);
      NoBlanks();
      BracketsAround(t, p, 123, FieldsText(fields), 125, s);
      ObjectTreeReads(t, p, [], fields, log);
    }
  }

  // Every text that is accepted can be derived, and means what was reported.
  lemma {:induction false} TextDerives(t: bytes) returns (d: Text)
    requires ParsedDocument(t).Ok?
    ensures GoodText(d) && Holds(t, d) && ParsedDocument(t) == Ok(|Written(d)|, TreeMeans(d.root))
  {
    hide Value, Good, TreeText, TreeMeans, SkipSpace, AllBlank, At;
    SpaceDerives(t, 0);
    var q := SkipSpace(t, 0);
    var v := TreeDerives(t, q, []);
    var r := q + |TreeText(v)|;
    AtSlice(t, q, TreeText(v));
    SpaceDerives(t, r);
    var e := SkipSpace(t, r);
    d := Text(t[0..q], v, t[r..e]);
    TwoStand(t, 0, d.before, TreeText(v));
    TwoStand(t, 0, d.before + TreeText(v), d.behind);
    assert [] + TreeMeans(v) == TreeMeans(v);
  }

  // The texts that are accepted are those that can be derived, up to a NUL if
  // there is one; and what is reported is what they mean.
  lemma {:induction false} AcceptsExactly(t: bytes)
    ensures ParsedDocument(t).Ok? <==> exists d :: GoodText(d) && Holds(t, d)
    ensures forall d :: GoodText(d) && Holds(t, d) ==> ParsedDocument(t) == Ok(|Written(d)|, TreeMeans(d.root))
  {
    hide ParsedDocument, Good, Holds, Written, TreeMeans;
    forall d | GoodText(d) && Holds(t, d)
      ensures ParsedDocument(t) == Ok(|Written(d)|, TreeMeans(d.root))
    {
      TextReads(t, d);
    }
    if ParsedDocument(t).Ok? {
      var d := TextDerives(t);
    }
  }
}
