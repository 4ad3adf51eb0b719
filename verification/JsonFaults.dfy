// Texts on which the reader does not stop at the error of the grammar.

module JsonFaults {
  import opened Bytes
  import opened JsonTypes
  import opened JsonScan
  import opened JsonGrammar
  import opened JsonIterative
  import opened JsonStringLoop

  // "\ud800\uZ": a bad digit in the low half of a pair
  const LOW_HALF: bytes := [34, 92, 117, 100, 56, 48, 48, 92, 117, 90, 34]

  // "\uZ\q": a bad digit in front of another error
  const TWO_ERRORS: bytes := [34, 92, 117, 90, 92, 113, 34]

  // "\u, cut off
  const CUT_OFF: bytes := [34, 92, 117]

  // "\uZ": a bad digit and nothing else
  const ONE_ERROR: bytes := [34, 92, 117, 90, 34]

  // A text that is a string with an error.
  lemma {:induction false} BadString(t: bytes)
    requires Peek(t, 0) == QUOTE && ScanString(t, 0).Bad?
    ensures ParsedDocument(t) == Err(ScanString(t, 0).code, ScanString(t, 0).off, [])
  {
    hide ScanString;
    assert SkipSpace(t, 0) == 0;
  }

  lemma {:induction false} LowHalfDigits()
    ensures ScanHex(LOW_HALF, 3, 4, 0) == Scanned(7, 0xD800)
    ensures ScanHex(LOW_HALF, 9, 4, 0) == Bad(StringUnicodeEscapeInvalidHex, 9)
  {
    var t := LOW_HALF;
    assert ScanHex(t, 6, 1, 0xD80) == Scanned(7, 0xD800);
    assert ScanHex(t, 5, 2, 0xD8) == Scanned(7, 0xD800);
    assert ScanHex(t, 4, 3, 0xD) == Scanned(7, 0xD800);
  }

  // The surrogate is reported while the bad digit still is.
  lemma {:induction false} LowHalfReportsTwice()
    ensures ParsedDocument(LOW_HALF) == Err(StringUnicodeEscapeInvalidHex, 9, [])
    ensures StringLoop(LOW_HALF, 1, [], Fine)
         == Ended(Failed(StringUnicodeEscapeInvalidHex, 9), SecondError(StringUnicodeSurrogateInvalid, 8))
  {
    hide ScanHex, Utf8Encode, ParsedDocument, UnicodeEscape, ScanUnicode;
    var t := LOW_HALF;
    LowHalfEscape();
    BadString(t);
  }

  lemma {:induction false} LowHalfEscape()
    ensures ScanUnicode(LOW_HALF, 3) == Bad(StringUnicodeEscapeInvalidHex, 9)
    ensures UnicodeEscape(LOW_HALF, 3, Fine)
         == Quit(Ended(Failed(StringUnicodeEscapeInvalidHex, 9), SecondError(StringUnicodeSurrogateInvalid, 8)))
  {
    hide ScanHex, Utf8Encode;
    LowHalfDigits();
    assert Peek(LOW_HALF, 7) == BACKSLASH && Peek(LOW_HALF, 8) == 117;
  }

  // The loop goes on behind the bad digit and meets another error.
  lemma {:induction false} TwoErrorsReportTwice()
    ensures ParsedDocument(TWO_ERRORS) == Err(StringUnicodeEscapeInvalidHex, 3, [])
    ensures StringLoop(TWO_ERRORS, 1, [], Fine)
         == Ended(Failed(StringUnicodeEscapeInvalidHex, 3), SecondError(StringEscapeInvalid, 5))
  {
    var t, e := TWO_ERRORS, Failed(StringUnicodeEscapeInvalidHex, 3);
    assert ScanHex(t, 3, 4, 0) == Bad(StringUnicodeEscapeInvalidHex, 3);
    assert StringLoop(t, 4, Utf8Encode(0), e) == Reported(e, StringEscapeInvalid, 5);
    assert [] + Utf8Encode(0) == Utf8Encode(0);
    BadString(t);
  }

  // The terminator is taken for the first digit.
  lemma {:induction false} CutOffIsLeft()
    ensures ParsedDocument(CUT_OFF) == Err(StringUnicodeEscapeInvalidHex, 3, [])
    ensures StringLoop(CUT_OFF, 1, [], Fine) == Ended(Failed(StringUnicodeEscapeInvalidHex, 3), BehindText)
  {
    var t := CUT_OFF;
    assert ScanHex(t, 3, 4, 0) == Bad(StringUnicodeEscapeInvalidHex, 3);
    BadString(t);
  }

  // A lone bad digit is reported as the grammar says.
  lemma {:induction false} OneErrorRecovers()
    ensures ParsedDocument(ONE_ERROR) == Err(StringUnicodeEscapeInvalidHex, 3, [])
    ensures StringLoop(ONE_ERROR, 1, [], Fine) == Ended(Failed(StringUnicodeEscapeInvalidHex, 3), NoFault)
  {
    var t, e := ONE_ERROR, Failed(StringUnicodeEscapeInvalidHex, 3);
    assert ScanHex(t, 3, 4, 0) == Bad(StringUnicodeEscapeInvalidHex, 3);
    assert StringLoop(t, 4, Utf8Encode(0), e) == Ended(e, NoFault);
    assert [] + Utf8Encode(0) == Utf8Encode(0);
    BadString(t);
  }

  function ErrorOf(o: Out): ParseResult {
    match o
    case Ok(_, _) => Fine
    case Err(c, off, _) => Failed(c, off)
  }

  // On every text: the parse reports the error of the grammar, once, and stays
  // inside the text if and only if that is no bad digit or the rest recovers;
  // and both parsers go astray alike.
  lemma {:induction false} DocumentFault(t: bytes)
    ensures var e := ErrorOf(ParsedDocument(t));
            && (Aftermath(t, e) == NoFault <==>
                (e.Failed? && e.code == StringUnicodeEscapeInvalidHex ==> Recovers(t, e.off)))
            && Aftermath(t, ErrorOf(IterativeDocument(t))) == Aftermath(t, e)
  {
    hide ParsedDocument, IterativeDocument, AfterBadHex, Recovers;
    OneErrorExactly(t, ErrorOf(ParsedDocument(t)));
    IterativeAgreesWithRecursive(t);
  }
}
