// The reader object: one cursor, one handler log, one error slot and one
// stack. Both parsers are methods of it; each is proved against the functions
// of JsonGrammar and JsonIterative. What happens behind a bad hexadecimal digit
// is the fault of JsonStringLoop.

module JsonReader {
  import opened Bytes
  import opened JsonTypes
  import opened JsonScan
  import opened JsonStringLoop
  import opened JsonGrammar
  import opened JsonIterative

  // The stack lends its memory to everyone: it holds slots of the iterative
  // parser and, above them, the bytes of the string that is being decoded.
  datatype Cell = Slot(n: nat) | Char(c: byte)

  function Chars(s: bytes): (r: seq<Cell>)
    ensures |r| == |s|
  {
    seq(|s|, i requires 0 <= i < |s| => Char(s[i]))
  }

  lemma {:induction false} NoChars(base: seq<Cell>)
    ensures base + Chars([]) == base
  {
  }

  lemma {:induction false} CharsJoin(base: seq<Cell>, a: bytes, b: bytes)
    ensures base + Chars(a) + Chars(b) == base + Chars(a + b)
  {
    assert Chars(a) + Chars(b) == Chars(a + b);
  }

  // The number under which a state is kept on the stack.
  function Code(s: State): nat {
    match s
    case Start => 0
    case Finish => 1
    case Error => 2
    case ObjectInitial => 3
    case MemberKey => 4
    case KeyValueDelimiter => 5
    case MemberValueState => 6
    case MemberDelimiter => 7
    case ObjectFinish => 8
    case ArrayInitial => 9
    case Element => 10
    case ElementDelimiter => 11
    case ArrayFinish => 12
    case SingleValue => 13
  }

  function FromCode(n: nat): (s: State)
    ensures forall r :: Code(r) == n ==> s == r
  {
    if n == 0 then Start
    else if n == 1 then Finish
    else if n == 2 then Error
    else if n == 3 then ObjectInitial
    else if n == 4 then MemberKey
    else if n == 5 then KeyValueDelimiter
    else if n == 6 then MemberValueState
    else if n == 7 then MemberDelimiter
    else if n == 8 then ObjectFinish
    else if n == 9 then ArrayInitial
    else if n == 10 then Element
    else if n == 11 then ElementDelimiter
    else if n == 12 then ArrayFinish
    else SingleValue
  }

  // The stack as it lies in memory: for each open container, from the outermost
  // inwards, the state to return to and the count.
  function Slots(fs: seq<Frame>): seq<Cell> {
    if fs == [] then [] else Slots(Rest(fs)) + [Slot(Code(Top(fs).ret)), Slot(Top(fs).count)]
  }

  class GenericReader {
    const text: bytes
    var pos: nat
    var log: Log
    var error: ParseResult
    var fault: Fault
    var stack: seq<Cell>

    predicate Ready()
      reads this
    {
      error.Fine? && fault.NoFault?
    }

    // Everything a caller can see of a finished parse; its error is the first reported.
    function Outcome(): Out
      reads this
    {
      match error
      case Fine => Ok(pos, log)
      case Failed(c, o) => Err(c, o, log)
    }

    constructor (text: bytes)
      ensures this.text == text && pos == 0 && log == [] && Ready() && stack == []
    {
      this.text := text;
      pos, log, error, fault, stack := 0, [], Fine, NoFault, [];
    }

    method Take() returns (c: byte)
      modifies this`pos
      ensures c == Peek(text, old(pos)) && pos == old(pos) + 1
    {
      c := Peek(text, pos);
      pos := pos + 1;
    }

    method SkipWhitespace()
      modifies this`pos
      ensures pos == SkipSpace(text, old(pos))
    {
      while IsSpace(Peek(text, pos))
        invariant old(pos) <= pos
        invariant SkipSpace(text, pos) == SkipSpace(text, old(pos))
        decreases Left(text, pos)
      {
        pos := pos + 1;
      }
    }

    method ParseNull()
      requires Ready() && Peek(text, pos) == 110
      modifies this
      ensures Outcome() == ScalarValue(text, old(pos), old(log)) && stack == old(stack)
      ensures fault == Aftermath(text, error)
    {
      hide ScanString, ScanNumber, ScanLetters, AfterBadHex;
      Letters(text, pos + 1, ULL);
      var c := Take();
      c := Take();
      var ok := c == 117;
      if ok { c := Take(); ok := c == 108; }
      if ok { c := Take(); ok := c == 108; }
      if ok { log := log + [Null]; } else { error := Failed(ValueInvalid, pos - 1); }
    }

    method ParseTrue()
      requires Ready() && Peek(text, pos) == 116
      modifies this
      ensures Outcome() == ScalarValue(text, old(pos), old(log)) && stack == old(stack)
      ensures fault == Aftermath(text, error)
    {
      hide ScanString, ScanNumber, ScanLetters, AfterBadHex;
      Letters(text, pos + 1, RUE);
      var c := Take();
      c := Take();
      var ok := c == 114;
      if ok { c := Take(); ok := c == 117; }
      if ok { c := Take(); ok := c == 101; }
      if ok { log := log + [Bool(true)]; } else { error := Failed(ValueInvalid, pos - 1); }
    }

    method ParseFalse()
      requires Ready() && Peek(text, pos) == 102
      modifies this
      ensures Outcome() == ScalarValue(text, old(pos), old(log)) && stack == old(stack)
      ensures fault == Aftermath(text, error)
    {
      hide ScanString, ScanNumber, ScanLetters, AfterBadHex;
      Letters(text, pos + 1, ALSE);
      var c := Take();
      c := Take();
      var ok := c == 97;
      if ok { c := Take(); ok := c == 108; }
      if ok { c := Take(); ok := c == 115; }
      if ok { c := Take(); ok := c == 101; }
      if ok { log := log + [Bool(false)]; } else { error := Failed(ValueInvalid, pos - 1); }
    }

    // Reports an error. A second one fails the assertion that there is none yet.
    method Report(code: ErrorCode, off: nat)
      requires fault.NoFault?
      modifies this`error, this`fault
      ensures Ended(error, fault) == Reported(old(error), code, off)
    {
      if error.Fine? {
        error := Failed(code, off);
      } else {
        fault := SecondError(code, off);
      }
    }

    // A bad digit is reported and counts as zero.
    method ParseHex4() returns (codepoint: nat)
      requires fault.NoFault?
      modifies this`pos, this`error, this`fault
      ensures old(pos) < pos
      ensures var r := ScanHex(text, old(pos), 4, 0);
              if r.Scanned? then pos == r.pos && codepoint == r.value && error == old(error) && fault.NoFault?
              else codepoint == 0 && pos == r.off + 1 && Ended(error, fault) == Reported(old(error), r.code, r.off)
    {
      codepoint := 0;
      for i := 0 to 4
        invariant error == old(error) && fault.NoFault? && pos == old(pos) + i
        invariant ScanHex(text, pos, 4 - i, codepoint) == ScanHex(text, old(pos), 4, 0)
      {
        var c := Take();
        if !IsHex(c) {
          Report(StringUnicodeEscapeInvalidHex, pos - 1);
          return 0;
        }
        codepoint := codepoint * 16 + HexValue(c);
      }
    }

    // The bytes of one character go behind those decoded so far.
    method Put(s: bytes)
      modifies this`stack
      ensures stack == old(stack) + Chars(s)
    {
      stack := stack + Chars(s);
    }

    // The escape whose letter u was just taken. Returns whether the loop goes on.
    method ParseUnicode() returns (s: bytes, on: bool)
      requires fault.NoFault?
      modifies this`pos, this`error, this`fault
      ensures match UnicodeEscape(text, old(pos), old(error))
              case Quit(end) => !on && Ended(error, fault) == end
              case Went(p, x, e) => on && pos == p && s == x && error == e && fault.NoFault?
    {
      hide ScanHex, Utf8Encode;
      s, on := [], false;
      HexRange(text, pos, 4, 0);
      var codepoint := ParseHex4();
      if fault != NoFault { return; }
      if 0xD800 <= codepoint <= 0xDBFF {
        var c := Take();
        var ok := c == BACKSLASH;
        if ok { c := Take(); ok := c == 117; }
        if !ok {
          Report(StringUnicodeSurrogateInvalid, pos - 2);
          return;
        }
        var codepoint2 := ParseHex4();
        if fault != NoFault { return; }
        if codepoint2 < 0xDC00 || codepoint2 > 0xDFFF {
          Report(StringUnicodeSurrogateInvalid, pos - 2);
          return;
        }
        codepoint := (codepoint - 0xD800) * 1024 + (codepoint2 - 0xDC00) + 0x10000;
      }
      s, on := Utf8Encode(codepoint), true;
    }

    // One escape. Returns whether the loop goes on.
    method ParseEscape() returns (s: bytes, on: bool)
      requires fault.NoFault? && Peek(text, pos) == BACKSLASH
      modifies this`pos, this`error, this`fault
      ensures match AnyEscape(text, old(pos), old(error))
              case Quit(end) => !on && Ended(error, fault) == end
              case Went(p, x, e) => on && pos == p && s == x && error == e && fault.NoFault?
    {
      hide UnicodeEscape;
      var e := Take();
      e := Take();
      s, on := [Unescape(e)], true;
      if Unescape(e) == NUL {
        if e == 117 {
          s, on := ParseUnicode();
        } else {
          Report(StringEscapeInvalid, pos - 1);
          on := false;
        }
      }
    }

    // Puts the bytes of the string and a terminator on the stack. Whether an
    // error was reported before is not looked at; a cursor behind the
    // terminator is where the model stops.
    method ParseStringToStream() returns (length: nat)
      requires Ready() && Peek(text, pos) == QUOTE
      modifies this`pos, this`error, this`fault, this`stack
      ensures match StringLoop(text, old(pos) + 1, [], Fine)
              case Ended(e, f) => error == e && fault == f
              case Unquoted(p, s) => Ready() && pos == p && length == |s| && stack == old(stack) + Chars(s + [NUL])
    {
      hide AnyEscape, Chars;
      pos := pos + 1;
      ghost var os: bytes := [];
      length := 0;
      NoChars(stack);
      while true
        invariant fault.NoFault? && old(pos) < pos
        invariant length == |os| && stack == old(stack) + Chars(os)
        invariant StringLoop(text, pos, os, error) == StringLoop(text, old(pos) + 1, [], Fine)
        decreases Left(text, pos)
      {
        if pos > |text| {
          fault := BehindText;
          return;
        }
        var c := Peek(text, pos);
        if c == BACKSLASH {
          var s, on := ParseEscape();
          if !on { return; }
          Put(s);
          CharsJoin(old(stack), os, s);
          os, length := os + s, length + |s|;
        } else if c == QUOTE {
          pos := pos + 1;
          Put([NUL]);
          CharsJoin(old(stack), os, [NUL]);
          return;
        } else if c == NUL {
          Report(StringMissQuotationMark, pos - 1);
          return;
        } else if c < SPACE {
          Report(StringEscapeInvalid, pos - 1);
          return;
        } else {
          c := Take();
          Put([c]);
          CharsJoin(old(stack), os, [c]);
          os, length := os + [c], length + 1;
        }
      }
    }

    // Takes the bytes of a finished string and their terminator off the stack.
    method PopString(length: nat, ghost base: seq<Cell>, ghost s: bytes) returns (str: bytes)
      requires length == |s| && stack == base + Chars(s + [NUL])
      modifies this`stack
      ensures stack == base && str == s
    {
      var top := |stack| - (length + 1);
      var cells := stack[top..];
      assert cells == Chars(s + [NUL]);
      str := seq(length, i requires 0 <= i < length && cells[i].Char? => cells[i].c);
      stack := stack[..top];
    }

    method ParseString(isKey: bool)
      requires Ready() && Peek(text, pos) == QUOTE
      modifies this
      ensures Outcome() == (if isKey then MemberName(text, old(pos), old(log))
                            else ScalarValue(text, old(pos), old(log)))
      ensures error.Fine? ==> stack == old(stack)
      ensures fault == Aftermath(text, error)
    {
      hide StringLoop, ScanChars, AfterBadHex;
      StringScans(text, pos);
      ghost var r := ScanString(text, pos);
      var length := ParseStringToStream();
      if error.Failed? { return; }
      var s := PopString(length, old(stack), r.value);
      log := log + [if isKey then Key(s) else String(s)];
    }

    // The digits of an integer part, as long as the number fits 32 bits.
    method Digits32(minus: bool, ghost q: nat) returns (i: uint32, use64bit: bool)
      requires pos == q && IsDigit(Peek(text, q)) && Peek(text, q) != ZERO
      modifies this`pos
      ensures q < pos <= DigitsEnd(text, q)
      ensures i as nat == Decimal(text, q, pos)
      ensures !use64bit ==> pos == DigitsEnd(text, q) && Fits32(minus, i as nat)
      ensures use64bit ==> pos < DigitsEnd(text, q) && !Fits32(minus, Decimal(text, q, pos + 1))
    {
      hide Decimal, DigitsEnd;
      FirstDigit(text, q);
      var c := Take();
      i := (c - ZERO) as uint32;
      use64bit := false;
      var limit: uint32, last: byte := if minus then 214748364 else 429496729, if minus then 56 else 53;
      while IsDigit(Peek(text, pos))
        invariant q < pos <= DigitsEnd(text, q)
        invariant i as nat == Decimal(text, q, pos) && Fits32(minus, i as nat)
        decreases Left(text, pos)
      {
        NextDigit(text, q, pos);
        if i >= limit {
          if i != limit || Peek(text, pos) > last {
            use64bit := true;
            return;
          }
        }
        c := Take();
        i := i * 10 + (c - ZERO) as uint32;
      }
    }

    // The further digits, as long as the number fits 64 bits.
    method Digits64(minus: bool, ghost q: nat, i: uint32) returns (i64: uint64, useDouble: bool)
      requires q < pos < DigitsEnd(text, q)
      requires i as nat == Decimal(text, q, pos) && !Fits32(minus, Decimal(text, q, pos + 1))
      modifies this`pos
      ensures q < pos <= DigitsEnd(text, q)
      ensures i64 as nat == Decimal(text, q, pos) && Fits64(minus, i64 as nat)
      ensures !useDouble ==> pos == DigitsEnd(text, q) && !Fits32(minus, i64 as nat)
      ensures useDouble ==> pos < DigitsEnd(text, q) && !Fits64(minus, Decimal(text, q, pos + 1))
    {
      hide Decimal, DigitsEnd;
      i64 := i as uint64;
      useDouble := false;
      var limit: uint64, last: byte :=
        if minus then 0x0CCC_CCCC_CCCC_CCCC else 0x1999_9999_9999_9999, if minus then 56 else 53;
      while IsDigit(Peek(text, pos))
        invariant old(pos) <= pos <= DigitsEnd(text, q)
        invariant i64 as nat == Decimal(text, q, pos) && Fits64(minus, i64 as nat)
        invariant pos > old(pos) ==> !Fits32(minus, i64 as nat)
        decreases Left(text, pos)
      {
        NextDigit(text, q, pos);
        if i64 >= limit {
          if i64 != limit || Peek(text, pos) > last {
            useDouble := true;
            return;
          }
        }
        var c := Take();
        i64 := i64 * 10 + (c - ZERO) as uint64;
      }
    }

    // The remaining digits of a number that needs a double; d is its exact value.
    method DigitsDouble(ghost q: nat, i64: uint64)
      requires error.Fine? && q < pos <= DigitsEnd(text, q)
      requires i64 as nat == Decimal(text, q, pos)
      modifies this`pos, this`error
      ensures var r := FirstBeyond(text, q, q, DigitsEnd(text, q), DBL_MAX_TENTH);
              if r.Scanned? then error.Fine? && pos == DigitsEnd(text, q) else error == Failed(r.code, r.off)
    {
      hide Decimal, DigitsEnd;
      var d: nat := i64 as nat;
      SmallPrefix(text, q, pos - 1, pos);
      FirstBeyondSkip(text, q, pos, DigitsEnd(text, q), DBL_MAX_TENTH);
      while IsDigit(Peek(text, pos))
        invariant error.Fine? && q < pos <= DigitsEnd(text, q) && d == Decimal(text, q, pos)
        invariant FirstBeyond(text, q, pos, DigitsEnd(text, q), DBL_MAX_TENTH)
               == FirstBeyond(text, q, q, DigitsEnd(text, q), DBL_MAX_TENTH)
        decreases Left(text, pos)
      {
        NextDigit(text, q, pos);
        if d >= DBL_MAX_TENTH {
          error := Failed(NumberTooBig, pos);
          return;
        }
        var c := Take();
        d := d * 10 + (c - ZERO);
      }
    }

    method SkipDigits()
      modifies this`pos
      ensures pos == DigitsEnd(text, old(pos))
    {
      while IsDigit(Peek(text, pos))
        invariant old(pos) <= pos && DigitsEnd(text, pos) == DigitsEnd(text, old(pos))
        decreases Left(text, pos)
      {
        pos := pos + 1;
      }
    }

    method Fraction() returns (found: bool)
      requires error.Fine?
      modifies this`pos, this`error
      ensures var r := ScanFraction(text, old(pos));
              if r.Scanned? then error.Fine? && pos == r.pos && found == r.value else error == Failed(r.code, r.off)
    {
      found := Peek(text, pos) == DOT;
      if found {
        pos := pos + 1;
        if !IsDigit(Peek(text, pos)) {
          error := Failed(NumberMissFraction, pos);
          return;
        }
        SkipDigits();
      }
    }

    // The digits of an exponent; its value stays small unless the number is tiny.
    method ExponentDigits(expMinus: bool)
      requires error.Fine? && IsDigit(Peek(text, pos))
      modifies this`pos, this`error
      ensures var r := ScanExponentDigits(text, old(pos), old(pos) + 1, expMinus);
              if r.Scanned? then error.Fine? && pos == r.pos else error == Failed(r.code, r.off)
    {
      hide Decimal, DigitsEnd;
      ghost var s, e := pos, DigitsEnd(text, pos);
      FirstDigit(text, s);
      var c := Take();
      var exp: nat := c - ZERO;
      while IsDigit(Peek(text, pos))
        invariant error.Fine? && s < pos <= e && exp == Decimal(text, s, pos)
        invariant ScanExponentDigits(text, s, pos, expMinus) == ScanExponentDigits(text, s, s + 1, expMinus)
        decreases Left(text, pos)
      {
        NextDigit(text, s, pos);
        c := Take();
        exp := exp * 10 + (c - ZERO);
        if exp > 308 && !expMinus {
          error := Failed(NumberTooBig, pos);
          return;
        }
      }
    }

    method Exponent() returns (found: bool)
      requires error.Fine?
      modifies this`pos, this`error
      ensures var r := ScanExponent(text, old(pos));
              if r.Scanned? then error.Fine? && pos == r.pos && found == r.value else error == Failed(r.code, r.off)
    {
      found := IsExponentMark(Peek(text, pos));
      if found {
        pos := pos + 1;
        var expMinus := false;
        if Peek(text, pos) == PLUS {
          pos := pos + 1;
        } else if Peek(text, pos) == MINUS {
          pos := pos + 1;
          expMinus := true;
        }
        if !IsDigit(Peek(text, pos)) {
          error := Failed(NumberMissExponent, pos);
          return;
        }
        ExponentDigits(expMinus);
      }
    }

    // The integer part behind an optional minus. The accumulators hold its exact
    // value in 32 bits, in 64 bits, or not at all.
    method IntegerPart(minus: bool) returns (i: uint32, i64: uint64, use64bit: bool, useDouble: bool)
      requires error.Fine?
      modifies this`pos, this`error
      ensures var q := old(pos);
              if !IsDigit(Peek(text, q)) then error == Failed(ValueInvalid, q)
              else
                var e := IntegerEnd(text, q);
                var n := Decimal(text, q, e);
                var r := FirstBeyond(text, q, q, e, DBL_MAX_TENTH);
                if r.Bad? then error == Failed(r.code, r.off)
                else
                  && error.Fine? && pos == e
                  && useDouble == !Fits64(minus, n)
                  && use64bit == !Fits32(minus, n)
                  && (!useDouble ==> n == if use64bit then i64 as nat else i as nat)
    {
      hide Decimal, DigitsEnd;
      ghost var q := pos;
      i, i64, use64bit, useDouble := 0, 0, false, false;
      if Peek(text, pos) == ZERO {
        FirstDigit(text, q);
        pos := pos + 1;
      } else if IsDigit(Peek(text, pos)) {
        i, use64bit := Digits32(minus, q);
      } else {
        error := Failed(ValueInvalid, pos);
        return;
      }
      ghost var e := IntegerEnd(text, q);
      if use64bit {
        DecimalGrows(text, q, pos + 1, e);
        i64, useDouble := Digits64(minus, q, i);
      }
      if useDouble {
        DecimalGrows(text, q, pos + 1, e);
        DigitsDouble(q, i64);
      } else {
        SmallPrefix(text, q, e - 1, e);
        FirstBeyondSkip(text, q, e, e, DBL_MAX_TENTH);
      }
    }

    method ParseNumber()
      requires Ready()
      modifies this
      ensures Outcome() == Emit(ScanNumber(text, old(pos)), e => e, old(log)) && stack == old(stack)
      ensures fault == Aftermath(text, error)
    {
      hide AfterBadHex;
      var start := pos;
      var minus := Peek(text, pos) == MINUS;
      if minus { pos := pos + 1; }
      ghost var q := pos;
      var i, i64, use64bit, useDouble := IntegerPart(minus);
      if error.Failed? { return; }
      ghost var e := pos;
      var fraction := Fraction();
      if error.Failed? { return; }
      var exponent := Exponent();
      if error.Failed? { return; }
      assert Scanned(pos, exponent) == ScanExponent(text, ScanFraction(text, e).pos);
      var event: Event;
      if useDouble || fraction || exponent { event := Double(text[start..pos]); }
      else if use64bit { event := if minus then Int64(-(i64 as int)) else Uint64(i64 as int); }
      else { event := if minus then Int(-(i as int)) else Uint(i as int); }
      assert Scanned(pos, event) == ScanTail(text, start, e, minus, Decimal(text, q, e));
      log := log + [event];
    }

    /* The recursive-descent parser */

    // One member of an object and what separates it from the next, or ends the
    // object. Says whether another one is to follow.
    method ParseMember(n: nat) returns (more: bool)
      requires Ready()
      modifies this
      ensures fault == Aftermath(text, error)
      ensures error.Fine? ==> stack == old(stack)
      ensures Members(text, old(pos), n, old(log)) == if more then Members(text, pos, n + 1, log) else Outcome()
      ensures more ==> error.Fine? && old(pos) < pos && Left(text, pos) < Left(text, old(pos))
      decreases Left(text, pos), 3
    {
      hide Members, MemberTail, AfterBadHex;
      more := false;
      NameAndValue(n);
      if error.Failed? { return; }
      more := BehindMember(n + 1);
    }

    // A name, a colon, a value and the white space behind each.
    method NameAndValue(ghost n: nat)
      requires Ready()
      modifies this
      ensures fault == Aftermath(text, error)
      ensures error.Fine? ==> stack == old(stack)
      ensures Members(text, old(pos), n, old(log))
           == if error.Failed? then Outcome() else MemberTail(text, pos, n + 1, log)
      ensures error.Fine? ==> old(pos) < pos && Peek(text, old(pos)) != NUL
      decreases Left(text, pos), 2
    {
      hide MemberName, Value, MemberTail, AfterBadHex;
      ghost var target := Members(text, pos, n, log);
      if Peek(text, pos) != QUOTE {
        error := Failed(ObjectMissName, pos);
        return;
      }
      ParseString(true);
      if error.Failed? { return; }
      SkipWhitespace();
      assert target == MemberColon(text, pos, n, log);
      var c := Take();
      if c != COLON {
        error := Failed(ObjectMissColon, pos);
        return;
      }
      SkipWhitespace();
      assert target == MemberValue(text, pos, n, log);
      ParseValue();
      if error.Failed? { return; }
      SkipWhitespace();
    }

    method BehindMember(memberCount: nat) returns (more: bool)
      requires Ready()
      modifies this`pos, this`log, this`error
      ensures MemberTail(text, old(pos), memberCount, old(log))
           == if more then Members(text, pos, memberCount, log) else Outcome()
      ensures fault == Aftermath(text, error) && old(pos) < pos
      ensures more ==> error.Fine? && Left(text, pos) < Left(text, old(pos))
    {
      hide Members, AfterBadHex;
      more := false;
      var c := Take();
      if c == COMMA {
        SkipWhitespace();
        more := true;
      } else if c == RBRACE {
        log := log + [EndObject(memberCount)];
      } else {
        error := Failed(ObjectMissCommaOrCurlyBracket, pos);
      }
    }

    method ParseObject()
      requires Ready() && Peek(text, pos) == LBRACE
      modifies this
      ensures Outcome() == Value(text, old(pos), old(log)) && (error.Fine? ==> stack == old(stack))
      ensures fault == Aftermath(text, error)
      decreases Left(text, pos), 0
    {
      hide ScalarValue, AfterBadHex, Members;
      pos := pos + 1;
      log := log + [StartObject];
      SkipWhitespace();
      if Peek(text, pos) == RBRACE {
        pos := pos + 1;
        log := log + [EndObject(0)];
        return;
      }
      assert Members(text, pos, 0, log) == Value(text, old(pos), old(log));
      ParseMembers();
    }

    method ParseMembers()
      requires Ready()
      modifies this
      ensures Outcome() == Members(text, old(pos), 0, old(log)) && (error.Fine? ==> stack == old(stack))
      ensures fault == Aftermath(text, error)
      decreases Left(text, pos), 4
    {
      hide Members, AfterBadHex;
      var memberCount, more := 0, true;
      while more
        invariant error.Fine? ==> stack == old(stack)
        invariant fault == Aftermath(text, error)
        invariant more ==> Ready() && old(pos) <= pos
        invariant Members(text, old(pos), 0, old(log))
               == if more then Members(text, pos, memberCount, log) else Outcome()
        decreases more, Left(text, pos)
      {
        more := ParseMember(memberCount);
        memberCount := memberCount + 1;
      }
    }

    // One element of an array and what separates it from the next, or ends the
    // array. Says whether another one is to follow.
    method ParseElement(n: nat) returns (more: bool)
      requires Ready()
      modifies this
      ensures fault == Aftermath(text, error)
      ensures error.Fine? ==> stack == old(stack)
      ensures Elements(text, old(pos), n, old(log)) == if more then Elements(text, pos, n + 1, log) else Outcome()
      ensures more ==> error.Fine? && old(pos) < pos && Left(text, pos) < Left(text, old(pos))
      decreases Left(text, pos), 3
    {
      hide Value, ElementTail, AfterBadHex;
      more := false;
      ghost var target := Elements(text, pos, n, log);
      ParseValue();
      if error.Failed? { return; }
      SkipWhitespace();
      assert target == ElementTail(text, pos, n + 1, log);
      hide Elements;
      more := BehindElement(n + 1);
    }

    method BehindElement(elementCount: nat) returns (more: bool)
      requires Ready()
      modifies this`pos, this`log, this`error
      ensures ElementTail(text, old(pos), elementCount, old(log))
           == if more then Elements(text, pos, elementCount, log) else Outcome()
      ensures fault == Aftermath(text, error) && old(pos) < pos
      ensures more ==> error.Fine? && Left(text, pos) < Left(text, old(pos))
    {
      hide Elements, AfterBadHex;
      more := false;
      var c := Take();
      if c == COMMA {
        SkipWhitespace();
        more := true;
      } else if c == RBRACKET {
        log := log + [EndArray(elementCount)];
      } else {
        error := Failed(ArrayMissCommaOrSquareBracket, pos);
      }
    }

    method ParseArray()
      requires Ready() && Peek(text, pos) == LBRACKET
      modifies this
      ensures Outcome() == Value(text, old(pos), old(log)) && (error.Fine? ==> stack == old(stack))
      ensures fault == Aftermath(text, error)
      decreases Left(text, pos), 0
    {
      hide ScalarValue, AfterBadHex, Elements;
      pos := pos + 1;
      log := log + [StartArray];
      SkipWhitespace();
      if Peek(text, pos) == RBRACKET {
        pos := pos + 1;
        log := log + [EndArray(0)];
        return;
      }
      assert Elements(text, pos, 0, log) == Value(text, old(pos), old(log));
      ParseElements();
    }

    method ParseElements()
      requires Ready()
      modifies this
      ensures Outcome() == Elements(text, old(pos), 0, old(log)) && (error.Fine? ==> stack == old(stack))
      ensures fault == Aftermath(text, error)
      decreases Left(text, pos), 4
    {
      hide Elements, AfterBadHex;
      var elementCount, more := 0, true;
      while more
        invariant error.Fine? ==> stack == old(stack)
        invariant fault == Aftermath(text, error)
        invariant more ==> Ready() && old(pos) <= pos
        invariant Elements(text, old(pos), 0, old(log))
               == if more then Elements(text, pos, elementCount, log) else Outcome()
        decreases more, Left(text, pos)
      {
        more := ParseElement(elementCount);
        elementCount := elementCount + 1;
      }
    }

    method ParseValue()
      requires Ready()
      modifies this
      ensures Outcome() == Value(text, old(pos), old(log)) && (error.Fine? ==> stack == old(stack))
      ensures fault == Aftermath(text, error)
      decreases Left(text, pos), 1
    {
      var c := Peek(text, pos);
      if c == 110 { ParseNull(); }
      else if c == 116 { ParseTrue(); }
      else if c == 102 { ParseFalse(); }
      else if c == QUOTE { ParseString(false); }
      else if c == LBRACE { ParseObject(); }
      else if c == LBRACKET { ParseArray(); }
      else { ParseNumber(); }
    }

    method ParseRoot()
      requires Ready() && pos == 0 && log == []
      modifies this
      ensures Outcome() == ParsedDocument(text)
      ensures fault == Aftermath(text, error)
    {
      hide Value, AfterBadHex;
      SkipWhitespace();
      if Peek(text, pos) == NUL {
        error := Failed(DocumentEmpty, pos);
      } else {
        ParseValue();
        if error.Failed? { return; }
        SkipWhitespace();
        if Peek(text, pos) != NUL {
          error := Failed(DocumentRootNotSingular, pos);
        }
      }
    }

    // Whatever the exit, the stack is cleared.
    method Parse()
      requires fault.NoFault? && pos == 0 && log == []
      modifies this
      ensures Outcome() == ParsedDocument(text)
      ensures fault == Aftermath(text, error)
      ensures fault.NoFault? <==>
              (error.Failed? && error.code == StringUnicodeEscapeInvalidHex ==> Recovers(text, error.off))
      ensures stack == []
    {
      hide Aftermath, Recovers, ParsedDocument;
      error := Fine;
      ParseRoot();
      OneErrorExactly(text, error);
      stack := [];
    }

    /* The iterative parser */

    // The configuration that the fields and the state variable stand for.
    ghost predicate Mirrors(c: Config)
      reads this
    {
      Ready() && c.pos == pos && c.log == log && stack == Slots(c.frames)
    }

    method PushSlot(n: nat)
      modifies this`stack
      ensures stack == old(stack) + [Slot(n)]
    {
      stack := stack + [Slot(n)];
    }

    method PopSlot() returns (n: nat)
      requires stack != [] && stack[|stack| - 1].Slot?
      modifies this`stack
      ensures stack == old(stack)[..|old(stack)| - 1] && old(stack)[|old(stack)| - 1] == Slot(n)
    {
      n := stack[|stack| - 1].n;
      stack := stack[..|stack| - 1];
    }

    // Enters an object or array.
    method Open(src: State, dst: State, ghost c: Config)
      requires Mirrors(c) && src == c.state && Opens(dst)
      modifies this
      ensures Mirrors(Opened(c, dst)) && fault == old(fault)
    {
      hide Slots, Code;
      PushSlot(Code(ReturnState(src)));
      PushSlot(0);
      log := log + [if dst == ObjectInitial then StartObject else StartArray];
      pos := pos + 1;
      SlotsPush(c.frames, Frame(ReturnState(src), 0));
      assert stack == old(stack) + [Slot(Code(ReturnState(src))), Slot(0)];
    }

    // Counts the member or element in front of a comma.
    method Separate(ghost c: Config, ghost dst: State)
      requires Mirrors(c) && c.frames != []
      modifies this
      ensures Mirrors(Separated(c, dst)) && fault == old(fault)
    {
      hide Slots, Code, Counted;
      SlotsCounted(c.frames);
      pos := pos + 1;
      stack := stack[|stack| - 1 := Slot(stack[|stack| - 1].n + 1)];
    }

    // Leaves an object or array and restores the state of the one around it.
    method Close(src: State, dst: State, ghost c: Config) returns (n: State)
      requires Mirrors(c) && src == c.state && c.frames != []
      modifies this
      ensures Mirrors(Closed(c, dst)) && n == Closed(c, dst).state && fault == old(fault)
    {
      hide Slots, Code;
      SlotsTop(c.frames);
      var count := PopSlot();
      if src == MemberValueState || src == Element { count := count + 1; }
      var m := PopSlot();
      assert m == Code(Top(c.frames).ret);
      n := FromCode(m);
      if n == Start { n := Finish; }
      assert stack == Slots(Rest(c.frames));
      log := log + [if dst == ObjectFinish then EndObject(count) else EndArray(count)];
      pos := pos + 1;
    }

    // What the fields and the new state tell of a step.
    ghost predicate Shows(r: StepResult, dst: State, n: State, c: Config)
      reads this
    {
      match r
      case Next(d) => n == d.state && Mirrors(d)
      case Fail(code, off, l) =>
        && n == Error && log == l
        && (if dst == Error then Ready() && pos == c.pos else error == Failed(code, off))
    }

    // A token that is scanned as a whole: a name, or a value that is no container.
    method TransitToken(dst: State, ghost c: Config) returns (n: State)
      requires Mirrors(c)
      requires if dst == MemberKey then Peek(text, pos) == QUOTE
               else dst == MemberValueState || dst == Element || dst == SingleValue
      modifies this
      ensures var s := if dst == SingleValue then Finish else dst;
              var o := if dst == MemberKey then MemberName(text, c.pos, c.log) else Value(text, c.pos, c.log);
              Shows(Advance(c, s, o), dst, n, c)
      ensures fault == Aftermath(text, error)
    {
      hide Value, MemberName, AfterBadHex, Slots;
      if dst == MemberKey {
        ParseString(true);
      } else {
        ParseValue();
      }
      n := if error.Failed? then Error else if dst == SingleValue then Finish else dst;
    }

    // A single byte: a bracket, a comma or a colon.
    method TransitByte(src: State, dst: State, ghost c: Config) returns (n: State)
      requires Wf(c) && Mirrors(c) && src == c.state && dst == Predict(src, Tokenize(Peek(text, pos)))
      requires Opens(dst) || Separates(dst) || Closes(dst) || dst == KeyValueDelimiter
      modifies this
      ensures Shows(Step(text, c), dst, n, c) && fault.NoFault? && error.Fine?
    {
      hide Predict, Tokenize, Opened, Separated, Closed, Slots, Wf, Step;
      StepBy(text, c, dst);
      n := dst;
      if Opens(dst) {
        StateOpened(c, dst);
        Open(src, dst, c);
      } else if Separates(dst) {
        StateSeparated(c, dst);
        Separate(c, dst);
      } else if Closes(dst) {
        n := Close(src, dst, c);
      } else {
        pos := pos + 1;
      }
    }

    // One transition to the predicted state. An error leaves the fields as they
    // are, except for the error itself when a token could not be scanned.
    method Transit(src: State, dst: State, ghost c: Config) returns (n: State)
      requires Wf(c) && Mirrors(c) && src == c.state && dst == Predict(src, Tokenize(Peek(text, pos)))
      modifies this
      ensures Shows(Step(text, c), dst, n, c)
      ensures fault == Aftermath(text, error)
    {
      hide Value, MemberName, Predict, Tokenize, AfterBadHex, Wf, IsScalar, SyntaxError, Step, Advance, Slots;
      PredictFrom(src, Peek(text, pos));
      StepBy(text, c, dst);
      if dst == Error {
        n := dst;
      } else if Opens(dst) || Separates(dst) || Closes(dst) || dst == KeyValueDelimiter {
        n := TransitByte(src, dst, c);
      } else {
        n := TransitToken(dst, c);
      }
    }

    method HandleError(src: State)
      modifies this`error
      ensures error == if old(error).Failed? then old(error) else Failed(SyntaxError(src), pos)
    {
      if error.Failed? { return; }
      error := Failed(SyntaxError(src), pos);
    }

    // One turn of the loop over the tokens.
    method Turn(state: State, ghost c: Config) returns (next: State, ghost d: Config)
      requires Wf(c) && Mirrors(c) && state == c.state && Peek(text, pos) != NUL
      modifies this
      ensures if next == Error then
                && Run(text, c) == Outcome() && error.Failed?
              else
                && Wf(d) && Run(text, c) == Run(text, d) && Mirrors(d) && next == d.state
                && Left(text, pos) < Left(text, old(pos))
      ensures fault == Aftermath(text, error)
    {
      hide Predict, Tokenize, Slots, Step, AfterBadHex, Wf;
      StepKeepsShape(text, c);
      d := c;
      var n := Predict(state, Tokenize(Peek(text, pos)));
      StepFails(text, c);
      next := Transit(state, n, c);
      if next == Error {
        HandleError(state);
        return;
      }
      SkipWhitespace();
      d := Skipped(text, Step(text, c).c);
    }

    method RunTokens() returns (state: State)
      requires Ready() && pos == 0 && log == [] && stack == []
      modifies this
      ensures Outcome() == IterativeDocument(text)
      ensures fault == Aftermath(text, error)
    {
      hide Run, Wf, Slots, AfterBadHex;
      state := Start;
      SkipWhitespace();
      ghost var c := Skipped(text, Initial);
      StartsWell(text);
      while Peek(text, pos) != NUL
        invariant Wf(c) && Mirrors(c) && state == c.state
        invariant Run(text, c) == IterativeDocument(text)
        decreases Left(text, pos)
      {
        var next;
        next, c := Turn(state, c);
        if next == Error { return; }
        state := next;
      }
      RunEnds(text, c);
      if state != Finish { HandleError(state); }
    }

    // Whatever the exit, the stack is cleared.
    method IterativeParse()
      requires fault.NoFault? && pos == 0 && log == [] && stack == []
      modifies this
      ensures Outcome() == IterativeDocument(text)
      ensures Agree(Outcome(), ParsedDocument(text))
      ensures fault == Aftermath(text, error)
      ensures stack == []
    {
      hide IterativeDocument, ParsedDocument, AfterBadHex;
      error := Fine;
      var _ := RunTokens();
      IterativeAgreesWithRecursive(text);
      stack := [];
    }
  }

  lemma {:induction false} StateOpened(c: Config, dst: State)
    ensures Opened(c, dst).state == dst
  {
  }

  lemma {:induction false} StateSeparated(c: Config, dst: State)
    requires c.frames != []
    ensures Separated(c, dst).state == dst
  {
  }

  lemma {:induction false} StartsWell(t: bytes)
    ensures Wf(Skipped(t, Initial)) && Slots([]) == []
  {
  }

  // Only a step that fails leads to the error state, and where the table says
  // so its error is the one of the state.
  lemma {:induction false} StepFails(t: bytes, c: Config)
    requires Wf(c) && Peek(t, c.pos) != NUL
    ensures var r := Step(t, c);
            && (r.Next? ==>
                  && Wf(r.c) && r.c.state != Error && Wf(Skipped(t, r.c))
                  && Run(t, c) == Run(t, Skipped(t, r.c)))
            && (r.Fail? ==> Run(t, c) == Err(r.code, r.off, r.log))
            && (Predict(c.state, Tokenize(Peek(t, c.pos))) == Error ==> r == Fail(SyntaxError(c.state), c.pos, c.log))
  {
    hide Step, Predict, Tokenize;
    StepKeepsShape(t, c);
    if Predict(c.state, Tokenize(Peek(t, c.pos))) == Error { TableFails(t, c); }
  }

  // A step by the entry of the table.
  lemma {:induction false} StepBy(t: bytes, c: Config, dst: State)
    requires Wf(c) && dst == Predict(c.state, Tokenize(Peek(t, c.pos)))
    ensures Opens(dst) ==> Step(t, c) == Next(Opened(c, dst))
    ensures Separates(dst) ==> c.frames != [] && Step(t, c) == Next(Separated(c, dst))
    ensures Closes(dst) ==> c.frames != [] && Step(t, c) == Next(Closed(c, dst))
    ensures dst == KeyValueDelimiter ==> Step(t, c) == Next(c.(state := dst, pos := c.pos + 1))
    ensures dst == MemberKey ==> Step(t, c) == Advance(c, dst, MemberName(t, c.pos, c.log))
    ensures dst == MemberValueState || dst == Element ==> Step(t, c) == Advance(c, dst, Value(t, c.pos, c.log))
    ensures dst == SingleValue ==> Step(t, c) == Advance(c, Finish, Value(t, c.pos, c.log))
    ensures dst == Error ==> Step(t, c) == Fail(SyntaxError(c.state), c.pos, c.log)
  {
    hide Value, MemberName, Predict, Tokenize, Opened, Separated, Closed;
    PredictFrom(c.state, Peek(t, c.pos));
  }

  lemma {:induction false} TableFails(t: bytes, c: Config)
    requires Wf(c) && Predict(c.state, Tokenize(Peek(t, c.pos))) == Error
    ensures Step(t, c) == Fail(SyntaxError(c.state), c.pos, c.log)
  {
    hide Predict, Tokenize;
  }

  lemma {:induction false} RunEnds(t: bytes, c: Config)
    requires Wf(c) && Peek(t, c.pos) == NUL
    ensures Run(t, c) == if c.state == Finish then Ok(c.pos, c.log) else Err(SyntaxError(c.state), c.pos, c.log)
  {
  }

  lemma {:induction false} FirstDigit(t: bytes, q: nat)
    requires IsDigit(Peek(t, q))
    ensures q + 1 <= DigitsEnd(t, q) && Decimal(t, q, q + 1) == Peek(t, q) - ZERO
    ensures IsDigit(Peek(t, q + 1)) <==> q + 1 < DigitsEnd(t, q)
  {
    assert Decimal(t, q, q) == 0;
    assert DigitsEnd(t, q) == DigitsEnd(t, q + 1);
  }

  // A further digit of a run, and its value with that digit.
  lemma {:induction false} NextDigit(t: bytes, q: nat, k: nat)
    requires q <= k <= DigitsEnd(t, q) && IsDigit(Peek(t, k))
    ensures k < DigitsEnd(t, q) && k < |t|
    ensures Decimal(t, q, k + 1) == Decimal(t, q, k) * 10 + (Peek(t, k) - ZERO)
  {
  }

  // A number that fits 64 bits is below the bound of doubles.
  lemma {:induction false} SmallPrefix(t: bytes, q: nat, k: nat, e: nat)
    requires q <= k <= e
    requires forall j :: q <= j < e ==> IsDigit(Peek(t, j))
    requires Decimal(t, q, e) <= TWO64
    ensures Decimal(t, q, k) < DBL_MAX_TENTH
  {
    DecimalGrows(t, q, k, e);
  }

  // Prefixes below the bound need not be looked at.
  lemma {:induction false} FirstBeyondSkip(t: bytes, q: nat, k: nat, e: nat, limit: nat)
    requires q <= k <= e
    requires forall j :: q <= j < e ==> IsDigit(Peek(t, j))
    requires k > q ==> Decimal(t, q, k - 1) < limit
    ensures FirstBeyond(t, q, q, e, limit) == FirstBeyond(t, q, k, e, limit)
    decreases k
  {
    if k > q {
      if k - 1 > q { DecimalGrows(t, q, k - 2, k - 1); }
      FirstBeyondSkip(t, q, k - 1, e, limit);
    }
  }

  lemma {:induction false} SlotsPush(fs: seq<Frame>, f: Frame)
    ensures Slots(fs + [f]) == Slots(fs) + [Slot(Code(f.ret)), Slot(f.count)]
  {
    assert Rest(fs + [f]) == fs;
  }

  // The two slots on top belong to the innermost container.
  lemma {:induction false} SlotsTop(fs: seq<Frame>)
    requires fs != []
    ensures var s := Slots(fs);
            && |s| >= 2 && s[..|s| - 2] == Slots(Rest(fs))
            && s[|s| - 2] == Slot(Code(Top(fs).ret)) && s[|s| - 1] == Slot(Top(fs).count)
  {
  }

  lemma {:induction false} SlotsCounted(fs: seq<Frame>)
    requires fs != []
    ensures var s := Slots(fs);
            |s| >= 2 && s[|s| - 1].Slot? && Slots(Counted(fs)) == s[|s| - 1 := Slot(s[|s| - 1].n + 1)]
  {
    SlotsTop(fs);
    SlotsPush(Rest(fs), Frame(Top(fs).ret, Top(fs).count + 1));
  }

  // A literal, letter by letter.
  lemma {:induction false} Letters(t: bytes, p: nat, s: bytes)
    requires s == ULL || s == RUE || s == ALSE
    ensures Peek(t, p) != s[0] ==> ScanLetters(t, p, s) == Bad(ValueInvalid, p)
    ensures Peek(t, p) == s[0] && Peek(t, p + 1) != s[1] ==> ScanLetters(t, p, s) == Bad(ValueInvalid, p + 1)
    ensures Peek(t, p) == s[0] && Peek(t, p + 1) == s[1] && Peek(t, p + 2) != s[2]
        ==> ScanLetters(t, p, s) == Bad(ValueInvalid, p + 2)
    ensures Peek(t, p) == s[0] && Peek(t, p + 1) == s[1] && Peek(t, p + 2) == s[2] && |s| == 3
        ==> ScanLetters(t, p, s) == Scanned(p + 3, ())
    ensures Peek(t, p) == s[0] && Peek(t, p + 1) == s[1] && Peek(t, p + 2) == s[2] && |s| == 4
        ==> ScanLetters(t, p, s) == if Peek(t, p + 3) == s[3] then Scanned(p + 4, ()) else Bad(ValueInvalid, p + 3)
  {
    assert s[1..][1..] == s[2..] && s[2..][1..] == s[3..];
    assert |s| == 4 ==> s[3..] == [s[3]];
  }
}
