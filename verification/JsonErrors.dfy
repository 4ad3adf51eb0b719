// The errors of the parser: at which byte of a text that is right so far each of
// them is reported.

module JsonErrors {
  import opened Bytes
  import opened JsonTypes
  import opened JsonScan
  import opened JsonGrammar
  import opened JsonIterative
  import opened JsonSyntax

  // Nothing but white space.
  lemma {:induction false} EmptyRefused(t: bytes, s: bytes)
    requires AllBlank(s) && At(t, 0, s) && Peek(t, |s|) == 0
    ensures ParsedDocument(t) == Err(DocumentEmpty, |s|, [])
  {
    hide SkipSpace;
    SpaceSkips(t, 0, s);
  }

  // A text with something behind it.
  lemma {:induction false} RestRefused(t: bytes, d: Text)
    requires GoodText(d) && At(t, 0, Written(d))
    requires var c := Peek(t, |Written(d)|); c != 0 && !BlankByte(c) && Stops(c)
    ensures ParsedDocument(t) == Err(DocumentRootNotSingular, |Written(d)|, TreeMeans(d.root))
  {
    hide Value, Good, TreeText, TreeMeans, Stops, Starts, At, AllBlank, SkipSpace, Peek;
    var q := |d.before|;
    var r := q + |TreeText(d.root)|;
    ThreeParts(d.before, TreeText(d.root), d.behind);
    AtSplit(t, 0, d.before, TreeText(d.root) + d.behind);
    AtSplit(t, q, TreeText(d.root), d.behind);
    TreeStarts(d.root);
    AtIndex(t, q, TreeText(d.root), 0);
    StartsMeans(Peek(t, q));
    SpaceSkips(t, 0, d.before);
    SpaceStops(t, r, d.behind);
    SpaceSkips(t, r, d.behind);
    TreeReads(t, q, d.root, []);
    NothingInFront(TreeMeans(d.root));
  }

  lemma {:induction false} StartsMeans(c: byte)
    requires Starts(c)
    ensures c != 0 && !BlankByte(c)
  {
  }

  lemma {:induction false} NothingInFront(log: Log)
    ensures [] + log == log
  {
  }

  // A byte that starts no value: a quote, a minus, a digit, a bracket, a brace or
  // one of the letters f, n and t does.
  lemma {:induction false} StrangeValue(t: bytes, p: nat, log: Log)
    requires var c := Peek(t, p);
             c != 34 && c != 45 && !(48 <= c <= 57) && c != 91 && c != 102 && c != 110 && c != 116 && c != 123
    ensures Value(t, p, log) == Err(ValueInvalid, p, log)
  {
    hide ScanString, ScanLetters;
  }

  // A minus without a digit.
  lemma {:induction false} BareMinus(t: bytes, p: nat, log: Log)
    requires Peek(t, p) == 45 && !(48 <= Peek(t, p + 1) <= 57)
    ensures Value(t, p, log) == Err(ValueInvalid, p + 1, log)
  {
    hide ScanString, ScanLetters;
  }

  // One of the words null, true and false that breaks off behind k letters.
  lemma {:induction false} BrokenWord(t: bytes, p: nat, v: Tree, k: nat, log: Log)
    requires (v.NullWord? || v.TrueWord? || v.FalseWord?) && 0 < k < |TreeText(v)|
    requires At(t, p, TreeText(v)[..k]) && Peek(t, p + k) != TreeText(v)[k]
    ensures Value(t, p, log) == Err(ValueInvalid, p + k, log)
  {
    hide ScanString, ScanNumber, ScanLetters, At;
    var s := TreeText(v);
    FrontSplits(t, p, s, k);
    LettersBreak(t, p + 1, s[1..], k - 1);
    assert s[1..] == if v.NullWord? then ULL else if v.TrueWord? then RUE else ALSE;
  }

  // The first letter, and the others up to letter k.
  lemma {:induction false} FrontSplits(t: bytes, p: nat, s: bytes, k: nat)
    requires 0 < k < |s| && At(t, p, s[..k])
    ensures Peek(t, p) == s[0] && At(t, p + 1, s[1..][..k - 1]) && s[1..][k - 1] == s[k]
  {
    AtIndex(t, p, s[..k], 0);
    assert s[..k] == [s[0]] + s[1..][..k - 1];
    AtSplit(t, p, [s[0]], s[1..][..k - 1]);
  }

  lemma {:induction false} LettersBreak(t: bytes, p: nat, s: bytes, k: nat)
    requires k < |s| && At(t, p, s[..k]) && Peek(t, p + k) != s[k]
    ensures ScanLetters(t, p, s) == Bad(ValueInvalid, p + k)
    decreases k
  {
    if k > 0 {
      FrontSplits(t, p, s, k);
      LettersBreak(t, p + 1, s[1..], k - 1);
    }
  }

  /* Arrays and objects, at any depth */

  // Behind an element something else than a comma or a bracket.
  lemma {:induction false} AfterElement(t: bytes, q: nat, v: Tree, behind: bytes, n: nat, log: Log)
    requires Good(v) && AllBlank(behind) && At(t, q, TreeText(v)) && At(t, q + |TreeText(v)|, behind)
    requires var c := Peek(t, q + |TreeText(v)| + |behind|); Stops(c) && !BlankByte(c) && c != 44 && c != 93
    ensures Elements(t, q, n, log)
         == Err(ArrayMissCommaOrSquareBracket, q + |TreeText(v)| + |behind| + 1, log + TreeMeans(v))
  {
    hide Value, Good, TreeText, TreeMeans, Stops, At, AllBlank, SkipSpace, Peek;
    var r := q + |TreeText(v)|;
    SpaceStops(t, r, behind);
    SpaceSkips(t, r, behind);
    TreeReads(t, q, v, log);
  }

  // No quote where a name must stand.
  lemma {:induction false} NoName(t: bytes, p: nat, n: nat, log: Log)
    requires Peek(t, p) != 34
    ensures Members(t, p, n, log) == Err(ObjectMissName, p, log)
  {
    hide MemberName, MemberColon;
  }

  // Behind a name something else than a colon.
  lemma {:induction false} AfterName(t: bytes, q: nat, name: seq<Char>, behind: bytes, n: nat, log: Log)
    requires GoodChars(name) && AllBlank(behind)
    requires At(t, q, QuotedText(name)) && At(t, q + |QuotedText(name)|, behind)
    requires var c := Peek(t, q + |QuotedText(name)| + |behind|); !BlankByte(c) && c != 58
    ensures Members(t, q, n, log)
         == Err(ObjectMissColon, q + |QuotedText(name)| + |behind| + 1, log + [Key(CharsMean(name))])
  {
    hide QuotedText, CharsMean, At, AllBlank, SkipSpace, MemberValue, ScanString;
    QuotedReads(t, q, name);
    SpaceSkips(t, q + |QuotedText(name)|, behind);
  }

  // Behind a member something else than a comma or a brace.
  lemma {:induction false} AfterMember(t: bytes, q: nat, v: Tree, behind: bytes, n: nat, log: Log)
    requires Good(v) && AllBlank(behind) && At(t, q, TreeText(v)) && At(t, q + |TreeText(v)|, behind)
    requires var c := Peek(t, q + |TreeText(v)| + |behind|); Stops(c) && !BlankByte(c) && c != 44 && c != 125
    ensures MemberValue(t, q, n, log)
         == Err(ObjectMissCommaOrCurlyBracket, q + |TreeText(v)| + |behind| + 1, log + TreeMeans(v))
  {
    hide Value, Good, TreeText, TreeMeans, Stops, At, AllBlank, SkipSpace, Peek;
    var r := q + |TreeText(v)|;
    SpaceStops(t, r, behind);
    SpaceSkips(t, r, behind);
    TreeReads(t, q, v, log);
  }

  /* Strings: behind characters that are right */

  // The end of the text, a control byte, an unknown escape; a high code unit that
  // no low one follows.
  lemma {:induction false} StringRefused(t: bytes, p: nat, cs: seq<Char>)
    requires GoodChars(cs) && Peek(t, p) == 34 && At(t, p + 1, CharsText(cs))
    ensures var e := p + 1 + |CharsText(cs)|;
            var c := Peek(t, e);
            && (c == 0 ==> ScanString(t, p) == Bad(StringMissQuotationMark, e - 1))
            && (0 < c < 32 ==> ScanString(t, p) == Bad(StringEscapeInvalid, e - 1))
            && (c == 92 && !IsShort(Peek(t, e + 1)) && Peek(t, e + 1) != 117 ==>
                  ScanString(t, p) == Bad(StringEscapeInvalid, e + 1))
            && (c == 92 && Peek(t, e + 1) == 117 ==> UnitRefused(t, p, e))
  {
    hide CharsText, CharsMean, GoodChars, At, ScanUnicode, UnitRefused;
    CharsPass(t, p + 1, cs, []);
    UnitsRefused(t, p, p + 1 + |CharsText(cs)|, [] + CharsMean(cs));
  }

  // What is wrong with a code unit at e, and how it is reported.
  predicate UnitRefused(t: bytes, p: nat, e: nat) {
    var coded := e + 6 <= |t| && IsCode(t[e + 2..e + 6]);
    && (coded && IsHigh(t[e + 2..e + 6]) && Peek(t, e + 6) != 92 ==>
          ScanString(t, p) == Bad(StringUnicodeSurrogateInvalid, e + 5))
    && (coded && IsHigh(t[e + 2..e + 6]) && Peek(t, e + 6) == 92 && Peek(t, e + 7) != 117 ==>
          ScanString(t, p) == Bad(StringUnicodeSurrogateInvalid, e + 6))
    && (coded && IsHigh(t[e + 2..e + 6]) && Peek(t, e + 6) == 92 && Peek(t, e + 7) == 117
        && e + 12 <= |t| && IsCode(t[e + 8..e + 12]) && !IsLow(t[e + 8..e + 12]) ==>
          ScanString(t, p) == Bad(StringUnicodeSurrogateInvalid, e + 10))
    && (!coded ==> ScanString(t, p).Bad? && ScanString(t, p).code == StringUnicodeEscapeInvalidHex)
  }

  lemma {:induction false} UnitsRefused(t: bytes, p: nat, e: nat, acc: bytes)
    requires e > 0 && ScanString(t, p) == ScanChars(t, e, acc)
    ensures Peek(t, e) == 92 && Peek(t, e + 1) == 117 ==> UnitRefused(t, p, e)
  {
    hide ScanHex, Code, IsCode, Utf8Encode, ScanString;
    HexExactly(t, e + 2);
    HexExactly(t, e + 8);
    BadHex(t, e + 2);
  }

  lemma {:induction false} BadHex(t: bytes, p: nat)
    ensures ScanHex(t, p, 4, 0).Bad? ==> ScanHex(t, p, 4, 0).code == StringUnicodeEscapeInvalidHex
  {
    BadHexFrom(t, p, 4, 0);
  }

  lemma {:induction false} BadHexFrom(t: bytes, p: nat, left: nat, v: nat)
    ensures ScanHex(t, p, left, v).Bad? ==> ScanHex(t, p, left, v).code == StringUnicodeEscapeInvalidHex
    decreases left
  {
    if left > 0 && IsHex(Peek(t, p)) { BadHexFrom(t, p + 1, left - 1, v * 16 + HexValue(Peek(t, p))); }
  }

  /* Numbers */

  // A point without a digit behind it, or an exponent without one.
  lemma {:induction false} TailRefused(t: bytes, p: nat, e: nat, minus: bool, n: nat, f: bytes)
    requires p < e <= |t|
    ensures Peek(t, e) == 46 && !(48 <= Peek(t, e + 1) <= 57) ==>
              ScanTail(t, p, e, minus, n) == Bad(NumberMissFraction, e + 1)
    ensures OnlyDigits(f) && At(t, e, FractionText(f)) && (Peek(t, e + |FractionText(f)|) in {69, 101}) ==>
              var x := e + |FractionText(f)| + 1;
              var s := if Peek(t, x) == 43 || Peek(t, x) == 45 then x + 1 else x;
              !(48 <= Peek(t, s) <= 57) ==> ScanTail(t, p, e, minus, n) == Bad(NumberMissExponent, s)
  {
    hide DigitsEnd, FractionText, OnlyDigits, IntegerEvent, Fits64, At;
    if OnlyDigits(f) && At(t, e, FractionText(f)) && (Peek(t, e + |FractionText(f)|) in {69, 101}) {
      FractionShape(f);
      FractionReads(t, e, f);
    }
  }

  // More digits than the largest double has, or an exponent above 308.
  lemma {:induction false} TooBigRefused(t: bytes, p: nat, n: Numeral)
    requires WellFormed(n) && !Bearable(n) && At(t, p, NumeralText(n)) && Stops(Peek(t, p + |NumeralText(n)|))
    ensures ScanNumber(t, p).Bad? && ScanNumber(t, p).code == NumberTooBig
  {
    hide FirstBeyond, Worth, Decimal, IntegerEnd, FractionText, ExponentText, DigitsEnd, NumeralText, ScanNumber, At,
         Stops, ScanTail;
    var q := p + |MinusText(n.minus)|;
    var e := q + |n.whole|;
    NumeralStands(t, p, n);
    TailStarts(t, e, n.fraction, n.exponent);
    WholeReads(t, q, n.whole);
    NumberSplits(t, p, q, n.minus);
    BeyondExactly(t, q, q, e, DBL_MAX_TENTH);
    if Worth(n.whole) / 10 >= DBL_MAX_TENTH {
      BeyondCode(t, q, q, e, DBL_MAX_TENTH);
    } else {
      AtSlice(t, q, n.whole);
      BigExponent(t, p, e, n);
    }
  }

  lemma {:induction false} BeyondCode(t: bytes, q: nat, k: nat, e: nat, limit: nat)
    requires q <= k <= e && forall j :: q <= j < e ==> IsDigit(Peek(t, j))
    ensures FirstBeyond(t, q, k, e, limit).Bad? ==> FirstBeyond(t, q, k, e, limit).code == NumberTooBig
    decreases e - k
  {
    if k < e { BeyondCode(t, q, k + 1, e, limit); }
  }

  lemma {:induction false} BigExponentScans(t: bytes, f: nat, x: Exponent)
    requires GoodExponent(x) && x.Exponent? && x.sign != [45] && Worth(x.digits) > 308
    requires At(t, f, ExponentText(x)) && Stops(Peek(t, f + |ExponentText(x)|))
    ensures ScanExponent(t, f).Bad? && ScanExponent(t, f).code == NumberTooBig
  {
    hide Worth, Decimal, ExponentText, DigitsEnd, At, ScanExponentDigits, OnlyDigits;
    var s := f + 1 + |x.sign|;
    ExponentStands(t, f, x);
    RunEnds(t, s, x.digits);
    WorthIsDecimal(t, s, x.digits);
    ExponentExactly(t, s, s + 1, false);
    ExponentCode(t, s, s + 1, false);
  }

  lemma {:induction false} BigExponent(t: bytes, p: nat, e: nat, n: Numeral)
    requires WellFormed(n) && n.exponent.Exponent? && n.exponent.sign != [45] && Worth(n.exponent.digits) > 308
    requires p < e <= |t| && At(t, e, FractionText(n.fraction)) && !IsDigit(Peek(t, e))
    requires n.fraction == [] ==> Peek(t, e) != 46
    requires var f := e + |FractionText(n.fraction)|;
             At(t, f, ExponentText(n.exponent)) && !IsDigit(Peek(t, f))
             && Stops(Peek(t, f + |ExponentText(n.exponent)|))
    ensures var r := ScanTail(t, p, e, n.minus, Worth(n.whole)); r.Bad? && r.code == NumberTooBig
  {
    hide Worth, FractionText, ExponentText, At, ScanExponent, ScanFraction, OnlyDigits, GoodExponent, Stops;
    FractionShape(n.fraction);
    FractionReads(t, e, n.fraction);
    BigExponentScans(t, e + |FractionText(n.fraction)|, n.exponent);
  }

  lemma {:induction false} ExponentCode(t: bytes, s: nat, k: nat, expMinus: bool)
    requires s < k <= DigitsEnd(t, s)
    ensures ScanExponentDigits(t, s, k, expMinus).Bad? ==> ScanExponentDigits(t, s, k, expMinus).code == NumberTooBig
    decreases DigitsEnd(t, s) - k
  {
    if k < DigitsEnd(t, s) { ExponentCode(t, s, k + 1, expMinus); }
  }

  /* The table-driven parser */

  // Which error the table-driven parser reports where the recursive one reports
  // another: the same at the same byte, or in front of the byte that was missing;
  // but where no value starts with a comma, a colon or a closing bracket, it
  // reports an empty document at the root and an unspecific error inside.
  predicate Kin(iterative: Out, recursive: Out) {
    && iterative.Err? == recursive.Err?
    && (iterative.Err? ==>
          if iterative.code == recursive.code then
            || iterative.off == recursive.off
            || (iterative.off + 1 == recursive.off
                && (|| recursive.code == ObjectMissColon || recursive.code == ObjectMissCommaOrCurlyBracket
                    || recursive.code == ArrayMissCommaOrSquareBracket))
          else
            && recursive.code == ValueInvalid && recursive.off == iterative.off
            && iterative.code == if iterative.log == [] then DocumentEmpty else UnspecificSyntaxError)
  }

  // Nothing has been reported exactly as long as the root has not begun.
  predicate Rooted(c: Config) { c.state == Start <==> c.log == [] }

  lemma {:induction false} RefusalIsKin(t: bytes, c: Config)
    requires Wf(c) && Rooted(c)
    requires if Peek(t, c.pos) == NUL then c.state != Finish
             else SkipSpace(t, c.pos) == c.pos && Predict(c.state, Tokenize(Peek(t, c.pos))) == Error
    ensures Kin(Err(SyntaxError(c.state), c.pos, c.log), Pending(t, c))
  {
    hide Value, MemberName, AfterValue;
    if ExpectsValue(c.state) {
      if c.state != Start || Peek(t, c.pos) != NUL {
        RefusedValue(t, c);
      }
    } else if c.state == ObjectInitial {
      assert Pending(t, c) == Members(t, c.pos, 0, c.log);
    }
  }

  lemma {:induction false} RefusedValue(t: bytes, c: Config)
    requires Wf(c) && ExpectsValue(c.state) && (c.state != Start || Peek(t, c.pos) != NUL)
    requires if Peek(t, c.pos) == NUL then true else Predict(c.state, Tokenize(Peek(t, c.pos))) == Error
    ensures Pending(t, c) == Err(ValueInvalid, c.pos, c.log)
  {
    hide Value, Pending;
    StrangeValue(t, c.pos, c.log);
    PendingValue(t, c);
  }

  lemma {:induction false} StepRooted(t: bytes, c: Config)
    requires Wf(c) && Rooted(c)
    ensures Step(t, c).Next? ==> Rooted(Step(t, c).c)
  {
    hide Tokenize, Value, MemberName;
    PredictFrom(c.state, Peek(t, c.pos));
    LogGrows(t, c.pos, c.log);
  }

  lemma {:induction false} LogGrows(t: bytes, p: nat, log: Log)
    ensures MemberName(t, p, log).Ok? ==> MemberName(t, p, log).log != []
    ensures IsScalar(Tokenize(Peek(t, p))) && Value(t, p, log).Ok? ==> Value(t, p, log).log != []
  {
    hide ScanString, ScanNumber, ScanLetters;
  }

  lemma {:induction false} StepIsKin(t: bytes, c: Config)
    requires Wf(c) && Rooted(c) && SkipSpace(t, c.pos) == c.pos && Peek(t, c.pos) != NUL && Step(t, c).Fail?
    ensures Kin(Err(Step(t, c).code, Step(t, c).off, Step(t, c).log), Resume(t, c))
  {
    hide Predict, Tokenize, Pending, Value, MemberName, Opened, Separated, Closed;
    var dst := Predict(c.state, Tokenize(Peek(t, c.pos)));
    PredictFrom(c.state, Peek(t, c.pos));
    if dst == Error {
      RefusalIsKin(t, c);
    } else if dst == MemberKey {
      NameToken(t, c);
    } else {
      ScalarToken(t, c);
    }
  }

  lemma {:induction false} RunIsKin(t: bytes, c: Config)
    requires Wf(c) && Rooted(c) && SkipSpace(t, c.pos) == c.pos
    ensures Kin(Run(t, c), Resume(t, c))
    decreases Left(t, c.pos)
  {
    hide Step, Pending, Kin, Rooted;
    if Peek(t, c.pos) == NUL {
      EndIsKin(t, c);
    } else {
      StepKeepsShape(t, c);
      StepResumes(t, c);
      if Step(t, c).Next? {
        StepRooted(t, c);
        SkippedRooted(t, Step(t, c).c);
        SkipTwice(t, Step(t, c).c.pos);
        RunIsKin(t, Skipped(t, Step(t, c).c));
      } else {
        StepIsKin(t, c);
      }
    }
  }

  lemma {:induction false} SkippedRooted(t: bytes, c: Config)
    ensures Rooted(Skipped(t, c)) == Rooted(c)
  {
  }

  lemma {:induction false} EndIsKin(t: bytes, c: Config)
    requires Wf(c) && Rooted(c) && Peek(t, c.pos) == NUL && SkipSpace(t, c.pos) == c.pos
    ensures Kin(Run(t, c), Resume(t, c))
  {
    hide Pending;
    if c.state != Finish { RefusalIsKin(t, c); } else { FinishIsKin(t, c); }
  }

  lemma {:induction false} FinishIsKin(t: bytes, c: Config)
    requires Wf(c) && c.state == Finish && Peek(t, c.pos) == NUL && SkipSpace(t, c.pos) == c.pos
    ensures Resume(t, c) == Ok(c.pos, c.log)
  {
  }

  // On every text that the parsers refuse they report kindred errors.
  lemma {:induction false} ErrorsAreKin(t: bytes)
    ensures Kin(IterativeDocument(t), ParsedDocument(t))
  {
    hide Run, Kin, Value;
    SkipTwice(t, 0);
    RunIsKin(t, Skipped(t, Initial));
  }
}
