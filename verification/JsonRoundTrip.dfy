// Printing a value and parsing the text gives the value back.

module JsonRoundTrip {
  import opened Bytes
  import opened JsonTypes
  import opened JsonScan
  import opened JsonGrammar
  import opened JsonDocument
  import opened JsonWriter
  import opened JsonIterative

  /* Numbers */

  // Digits that stand in the text are read as the number they write.
  lemma {:induction false} DigitsRead(t: bytes, p: nat, n: nat)
    requires At(t, p, Digits(n))
    ensures forall k :: p <= k < p + |Digits(n)| ==> IsDigit(Peek(t, k))
    ensures Decimal(t, p, p + |Digits(n)|) == n
    decreases n
  {
    if n < 10 {
      AtIndex(t, p, Digits(n), 0);
      assert Decimal(t, p, p) == 0;
    } else {
      AtSplit(t, p, Digits(n / 10), [ZERO + n % 10]);
      DigitsRead(t, p, n / 10);
      AtIndex(t, p + |Digits(n / 10)|, [ZERO + n % 10], 0);
    }
  }

  // A byte that cannot prolong a number.
  predicate EndsNumber(c: byte) { !IsDigit(c) && c != DOT && !IsExponentMark(c) }

  lemma {:induction false} IntegerEnds(t: bytes, q: nat, n: nat)
    requires At(t, q, Digits(n)) && EndsNumber(Peek(t, q + |Digits(n)|))
    ensures IsDigit(Peek(t, q)) && IntegerEnd(t, q) == q + |Digits(n)|
    ensures Decimal(t, q, IntegerEnd(t, q)) == n
  {
    DigitsRead(t, q, n);
    AtIndex(t, q, Digits(n), 0);
    DigitsEndSkip(t, q, q + |Digits(n)|);
  }

  // An integer part with nothing behind it.
  lemma {:induction false} TailEnds(t: bytes, p: nat, e: nat, minus: bool, n: nat)
    requires p < e <= |t| && EndsNumber(Peek(t, e))
    ensures ScanTail(t, p, e, minus, n)
         == Scanned(e, if Fits64(minus, n) then IntegerEvent(minus, n) else Double(t[p..e]))
  {
  }

  lemma {:induction false} NumberReads(t: bytes, p: nat, n: int)
    requires At(t, p, IntegerText(n)) && EndsNumber(Peek(t, p + |IntegerText(n)|))
    requires -TWO63 <= n < TWO64
    ensures ScanNumber(t, p) == Scanned(p + |IntegerText(n)|, ReadEvent(n))
  {
    hide Digits, FirstBeyond, Decimal, EndsNumber, IntegerEnd, ScanTail, ScanNumber;
    var minus := n < 0;
    var m := if minus then -n else n;
    var q := if minus then p + 1 else p;
    if minus {
      AtSplit(t, p, [MINUS], Digits(m));
      AtIndex(t, p, [MINUS], 0);
    }
    IntegerEnds(t, q, m);
    NumberSplits(t, p, q, minus);
    SmallNumberFits(t, q, IntegerEnd(t, q));
    TailEnds(t, p, IntegerEnd(t, q), minus, m);
  }

  // No prefix of a number that fits 64 bits reaches the bound of doubles.
  lemma {:induction false} SmallNumberFits(t: bytes, q: nat, e: nat)
    requires q <= e
    requires forall j :: q <= j < e ==> IsDigit(Peek(t, j))
    requires Decimal(t, q, e) <= TWO64
    ensures FirstBeyond(t, q, q, e, DBL_MAX_TENTH) == Scanned(e, ())
  {
    AllPrefixesFit(t, q, q, e);
  }

  lemma {:induction false} AllPrefixesFit(t: bytes, q: nat, k: nat, e: nat)
    requires q <= k <= e
    requires forall j :: q <= j < e ==> IsDigit(Peek(t, j))
    requires Decimal(t, q, e) <= TWO64
    ensures FirstBeyond(t, q, k, e, DBL_MAX_TENTH) == Scanned(e, ())
    decreases e - k
  {
    if k < e {
      DecimalGrows(t, q, k, e);
      AllPrefixesFit(t, q, k + 1, e);
    }
  }

  /* Strings */

  // Reading past the escaped form of one byte yields that byte.
  lemma {:induction false} ByteReads(t: bytes, p: nat, c: byte, acc: bytes)
    requires p > 0 && At(t, p, EscapeByte(c))
    ensures ScanChars(t, p, acc) == ScanChars(t, p + |EscapeByte(c)|, acc + [c])
  {
    hide ScanUnicode;
    AtIndex(t, p, EscapeByte(c), 0);
    if EscapeLetter(c) != NUL {
      AtIndex(t, p, EscapeByte(c), 1);
      if EscapeLetter(c) == 117 {
        HexReads(t, p + 2, c);
      }
    }
  }

  lemma {:induction false} HexReads(t: bytes, p: nat, c: byte)
    requires p >= 2 && c < 32 && EscapeLetter(c) == 117 && At(t, p - 2, EscapeByte(c))
    ensures ScanUnicode(t, p) == Scanned(p + 4, [c])
  {
    AtIndex(t, p - 2, EscapeByte(c), 2);
    AtIndex(t, p - 2, EscapeByte(c), 3);
    AtIndex(t, p - 2, EscapeByte(c), 4);
    AtIndex(t, p - 2, EscapeByte(c), 5);
    assert ScanHex(t, p + 4, 0, c) == Scanned(p + 4, c);
    assert ScanHex(t, p + 3, 1, c / 16) == Scanned(p + 4, c);
    assert ScanHex(t, p + 2, 2, 0) == Scanned(p + 4, c);
    assert ScanHex(t, p + 1, 3, 0) == Scanned(p + 4, c);
    assert ScanHex(t, p, 4, 0) == Scanned(p + 4, c);
  }

  lemma {:induction false} CharsEnd(t: bytes, p: nat, acc: bytes)
    requires p > 0 && At(t, p, [QUOTE])
    ensures ScanChars(t, p, acc) == Scanned(p + 1, acc)
  {
    AtIndex(t, p, [QUOTE], 0);
  }

  lemma {:induction false} CharsRead(t: bytes, p: nat, s: bytes, acc: bytes)
    requires p > 0 && At(t, p, Escape(s) + [QUOTE])
    ensures ScanChars(t, p, acc) == Scanned(p + |Escape(s)| + 1, acc + s)
    decreases |s|
  {
    hide EscapeByte, ScanChars, At;
    if s == [] {
      assert Escape(s) + [QUOTE] == [QUOTE];
      CharsEnd(t, p, acc);
      assert acc + s == acc;
    } else {
      var a, b := EscapeByte(s[0]), Escape(s[1..]);
      assert Escape(s) + [QUOTE] == a + (b + [QUOTE]);
      AtSplit(t, p, a, b + [QUOTE]);
      ByteReads(t, p, s[0], acc);
      CharsRead(t, p + |a|, s[1..], acc + [s[0]]);
      assert acc + [s[0]] + s[1..] == acc + s;
    }
  }

  lemma {:induction false} StringReads(t: bytes, p: nat, s: bytes)
    requires At(t, p, Quoted(s))
    ensures Peek(t, p) == QUOTE && ScanString(t, p) == Scanned(p + |Quoted(s)|, s)
  {
    assert Quoted(s) == [QUOTE] + (Escape(s) + [QUOTE]);
    AtSplit(t, p, [QUOTE], Escape(s) + [QUOTE]);
    AtIndex(t, p, [QUOTE], 0);
    CharsRead(t, p + 1, s, []);
    assert [] + s == s;
  }

  /* Values */

  // No double anywhere in the value.
  predicate NoDoubles(v: Node) {
    match v
    case DoubleNode(_) => false
    case ArrayNode(es) => forall e <- es :: NoDoubles(e)
    case ObjectNode(ms) => forall m <- ms :: NoDoubles(m.value)
    case _ => true
  }

  // What the printer is asked to print: honest integers and no doubles.
  predicate Printable(v: Node) { NoDoubles(v) && AllHonest(v) }

  lemma {:induction false} LiteralReads(t: bytes, p: nat, b: Node, log: Log)
    requires b.NullNode? || b.BoolNode?
    requires At(t, p, Print(b))
    ensures Value(t, p, log) == Ok(p + |Print(b)|, log + Events(b, true))
  {
    hide ScanLetters, ScanString, ScanNumber;
    var s := Print(b);
    assert s == [s[0]] + s[1..];
    AtSplit(t, p, [s[0]], s[1..]);
    AtIndex(t, p, [s[0]], 0);
    LettersRead(t, p + 1, s[1..]);
    assert s[1..] == if b.NullNode? then ULL else if b.b then RUE else ALSE;
  }

  lemma {:induction false} LettersRead(t: bytes, p: nat, s: bytes)
    requires At(t, p, s)
    ensures ScanLetters(t, p, s) == Scanned(p + |s|, ())
    decreases |s|
  {
    if s != [] {
      assert s == [s[0]] + s[1..];
      AtSplit(t, p, [s[0]], s[1..]);
      AtIndex(t, p, [s[0]], 0);
      LettersRead(t, p + 1, s[1..]);
    }
  }

  lemma {:induction false} ScalarReads(t: bytes, p: nat, v: Node, log: Log)
    requires !v.ArrayNode? && !v.ObjectNode? && Printable(v)
    requires At(t, p, Print(v)) && EndsNumber(Peek(t, p + |Print(v)|))
    ensures Value(t, p, log) == Ok(p + |Print(v)|, log + Events(v, true))
  {
    hide ScanNumber, ScanString, Digits, Quoted;
    match v
    case NullNode => LiteralReads(t, p, v, log);
    case BoolNode(_) => LiteralReads(t, p, v, log);
    case IntegerNode(n, _) =>
      NumberReads(t, p, n);
      AtIndex(t, p, IntegerText(n), 0);
    case StringNode(s) => StringReads(t, p, s);
  }

  // The first byte of a printed value starts that value and nothing else.
  lemma {:induction false} FirstByte(v: Node)
    requires Printable(v)
    ensures Print(v) != [] && !IsSpace(Print(v)[0]) && Print(v)[0] != NUL
    ensures Print(v)[0] != RBRACKET && Print(v)[0] != RBRACE && Print(v)[0] != COMMA
  {
  }

  lemma {:induction false} FirstByteAt(t: bytes, p: nat, v: Node)
    requires Printable(v) && At(t, p, Print(v))
    ensures SkipSpace(t, p) == p && Peek(t, p) == Print(v)[0]
    ensures Peek(t, p) != NUL && Peek(t, p) != RBRACKET && Peek(t, p) != RBRACE && Peek(t, p) != COMMA
  {
    FirstByte(v);
    AtIndex(t, p, Print(v), 0);
  }

  lemma {:induction false} CommaInFront(es: seq<Node>)
    requires es != []
    ensures PrintElements(es, false) == [COMMA] + PrintElements(es, true)
  {
    assert Comma(false) + Print(es[0]) == [COMMA] + (Comma(true) + Print(es[0]));
  }

  lemma {:induction false} CommaInFrontOfMember(ms: seq<Member>)
    requires ms != []
    ensures PrintMembers(ms, false) == [COMMA] + PrintMembers(ms, true)
  {
    hide Quoted, Print;
    assert MemberText(ms[0], false) == [COMMA] + MemberText(ms[0], true);
  }

  // How the text of elements splits into the first and the rest.
  lemma {:induction false} ElementsSplit(t: bytes, p: nat, es: seq<Node>)
    requires es != [] && At(t, p, PrintElements(es, true) + [RBRACKET])
    ensures var q := p + |Print(es[0])|;
            && At(t, p, Print(es[0]))
            && (|es| == 1 ==> Peek(t, q) == RBRACKET && |PrintElements(es, true)| == |Print(es[0])|)
            && (|es| > 1 ==>
                  && Peek(t, q) == COMMA && At(t, q + 1, PrintElements(es[1..], true) + [RBRACKET])
                  && |PrintElements(es, true)| == |Print(es[0])| + 1 + |PrintElements(es[1..], true)|)
  {
    hide Print, At;
    var first, others := Print(es[0]), es[1..];
    assert ElementText(es[0], true) == first;
    var rest := PrintElements(others, false) + [RBRACKET];
    assert PrintElements(es, true) + [RBRACKET] == first + rest;
    AtSplit(t, p, first, rest);
    if |es| == 1 {
      AtIndex(t, p + |first|, rest, 0);
    } else {
      CommaInFront(others);
      assert rest == [COMMA] + (PrintElements(others, true) + [RBRACKET]);
      AtSplit(t, p + |first|, [COMMA], PrintElements(others, true) + [RBRACKET]);
      AtIndex(t, p + |first|, [COMMA], 0);
    }
  }

  lemma {:induction false} MembersSplit(t: bytes, p: nat, ms: seq<Member>)
    requires ms != [] && At(t, p, PrintMembers(ms, true) + [RBRACE])
    ensures var q := p + |MemberText(ms[0], true)|;
            && At(t, p, MemberText(ms[0], true))
            && (|ms| == 1 ==> Peek(t, q) == RBRACE && |PrintMembers(ms, true)| == |MemberText(ms[0], true)|)
            && (|ms| > 1 ==>
                  && Peek(t, q) == COMMA && At(t, q + 1, PrintMembers(ms[1..], true) + [RBRACE])
                  && |PrintMembers(ms, true)| == |MemberText(ms[0], true)| + 1 + |PrintMembers(ms[1..], true)|)
  {
    hide MemberText, At;
    var first, others := MemberText(ms[0], true), ms[1..];
    var rest := PrintMembers(others, false) + [RBRACE];
    assert PrintMembers(ms, true) + [RBRACE] == first + rest;
    AtSplit(t, p, first, rest);
    if |ms| == 1 {
      AtIndex(t, p + |first|, rest, 0);
    } else {
      CommaInFrontOfMember(others);
      assert rest == [COMMA] + (PrintMembers(others, true) + [RBRACE]);
      AtSplit(t, p + |first|, [COMMA], PrintMembers(others, true) + [RBRACE]);
      AtIndex(t, p + |first|, [COMMA], 0);
    }
  }

  // One turn of the element loop.
  lemma {:induction false} ElementTurn(t: bytes, p: nat, n: nat, log: Log, q: nat, l: Log)
    requires Value(t, p, log) == Ok(q, l)
    ensures Peek(t, q) == RBRACKET ==> Elements(t, p, n, log) == Ok(q + 1, l + [EndArray(n + 1)])
    ensures Peek(t, q) == COMMA && SkipSpace(t, q + 1) == q + 1 ==>
              Elements(t, p, n, log) == Elements(t, q + 1, n + 1, l)
  {
    hide Value;
    if Peek(t, q) == RBRACKET || Peek(t, q) == COMMA {
      assert SkipSpace(t, q) == q;
      assert Elements(t, p, n, log) == ElementTail(t, q, n + 1, l);
    }
  }

  // One turn of the member loop.
  lemma {:induction false} MemberEnds(t: bytes, q: nat, n: nat, log: Log)
    ensures Peek(t, q) == RBRACE ==> MemberTail(t, q, n, log) == Ok(q + 1, log + [EndObject(n)])
    ensures Peek(t, q) == COMMA && SkipSpace(t, q + 1) == q + 1 ==>
              MemberTail(t, q, n, log) == Members(t, q + 1, n, log)
  {
    hide Members;
  }

  lemma {:induction false} PrintNothing()
    ensures PrintElements([], true) == [] && ElementEvents([], true) == []
    ensures PrintMembers([], true) == [] && MemberEvents([], true) == []
  {
  }

  lemma {:induction false} ArrayReads(t: bytes, p: nat, es: seq<Node>, log: Log)
    requires At(t, p, Print(ArrayNode(es)))
    requires es != [] ==>
               && SkipSpace(t, p + 1) == p + 1 && Peek(t, p + 1) != RBRACKET
               && Elements(t, p + 1, 0, log + [StartArray])
               == Ok(p + 1 + |PrintElements(es, true)| + 1,
                     log + [StartArray] + ElementEvents(es, true) + [EndArray(|es|)])
    ensures Value(t, p, log) == Ok(p + |Print(ArrayNode(es))|, log + Events(ArrayNode(es), true))
  {
    hide Elements, ScalarValue, ObjectBody, At, PrintElements, ElementEvents;
    var inner := PrintElements(es, true);
    var l := log + [StartArray];
    assert Print(ArrayNode(es)) == [LBRACKET] + (inner + [RBRACKET]);
    AtSplit(t, p, [LBRACKET], inner + [RBRACKET]);
    AtIndex(t, p, [LBRACKET], 0);
    if es == [] {
      AtIndex(t, p + 1, inner + [RBRACKET], 0);
      PrintNothing();
    }
    assert Value(t, p, log) == ArrayBody(t, SkipSpace(t, p + 1), l);
    assert l + ElementEvents(es, true) + [EndArray(|es|)] == log + Events(ArrayNode(es), true);
    assert l + [] == l;
  }

  lemma {:induction false} ObjectReads(t: bytes, p: nat, ms: seq<Member>, log: Log)
    requires At(t, p, Print(ObjectNode(ms)))
    requires ms != [] ==>
               && SkipSpace(t, p + 1) == p + 1 && Peek(t, p + 1) == QUOTE
               && Members(t, p + 1, 0, log + [StartObject])
               == Ok(p + 1 + |PrintMembers(ms, true)| + 1,
                     log + [StartObject] + MemberEvents(ms, true) + [EndObject(|ms|)])
    ensures Value(t, p, log) == Ok(p + |Print(ObjectNode(ms))|, log + Events(ObjectNode(ms), true))
  {
    hide Members, ScalarValue, ArrayBody, At, PrintMembers, MemberEvents;
    var inner := PrintMembers(ms, true);
    var l := log + [StartObject];
    assert Print(ObjectNode(ms)) == [LBRACE] + (inner + [RBRACE]);
    AtSplit(t, p, [LBRACE], inner + [RBRACE]);
    AtIndex(t, p, [LBRACE], 0);
    if ms == [] {
      AtIndex(t, p + 1, inner + [RBRACE], 0);
      PrintNothing();
    }
    assert Value(t, p, log) == ObjectBody(t, SkipSpace(t, p + 1), l);
    assert l + MemberEvents(ms, true) + [EndObject(|ms|)] == log + Events(ObjectNode(ms), true);
    assert l + [] == l;
  }

  // The text of a value is read as that value, wherever it stands.
  lemma {:induction false} ValueReads(t: bytes, p: nat, v: Node, log: Log)
    requires Printable(v) && At(t, p, Print(v)) && EndsNumber(Peek(t, p + |Print(v)|))
    ensures Value(t, p, log) == Ok(p + |Print(v)|, log + Events(v, true))
    decreases v, 1
  {
    hide Value, PrintElements, PrintMembers, Events, At, Print, EndsNumber, MemberText;
    match v
    case ArrayNode(es) => ArrayNodeReads(t, p, es, log);
    case ObjectNode(ms) => ObjectNodeReads(t, p, ms, log);
    case _ => ScalarReads(t, p, v, log);
  }

  lemma {:induction false} ArrayNodeReads(t: bytes, p: nat, es: seq<Node>, log: Log)
    requires At(t, p, Print(ArrayNode(es))) && forall e <- es :: Printable(e)
    ensures Value(t, p, log) == Ok(p + |Print(ArrayNode(es))|, log + Events(ArrayNode(es), true))
    decreases es, 1
  {
    hide Value, PrintElements, ElementEvents, Events, At, Print, Printable, Elements, SkipSpace;
    if es != [] {
      ArrayOpens(t, p, es);
      ElementsRead(t, p + 1, es, 0, log + [StartArray]);
      ElementsSplit(t, p + 1, es);
      FirstByteAt(t, p + 1, es[0]);
    }
    ArrayReads(t, p, es, log);
  }

  lemma {:induction false} ObjectNodeReads(t: bytes, p: nat, ms: seq<Member>, log: Log)
    requires At(t, p, Print(ObjectNode(ms))) && forall m <- ms :: Printable(m.value)
    ensures Value(t, p, log) == Ok(p + |Print(ObjectNode(ms))|, log + Events(ObjectNode(ms), true))
    decreases ms, 1
  {
    hide Value, PrintMembers, MemberEvents, Events, At, Print, Printable, MemberText, Members, SkipSpace;
    if ms != [] {
      ObjectOpens(t, p, ms);
      MembersRead(t, p + 1, ms, 0, log + [StartObject]);
      MembersSplit(t, p + 1, ms);
      NameFirst(t, p + 1, ms[0]);
    }
    ObjectReads(t, p, ms, log);
  }

  lemma {:induction false} ArrayOpens(t: bytes, p: nat, es: seq<Node>)
    requires At(t, p, Print(ArrayNode(es)))
    ensures At(t, p + 1, PrintElements(es, true) + [RBRACKET])
  {
    var inner := PrintElements(es, true);
    assert Print(ArrayNode(es)) == [LBRACKET] + (inner + [RBRACKET]);
    AtSplit(t, p, [LBRACKET], inner + [RBRACKET]);
  }

  lemma {:induction false} ObjectOpens(t: bytes, p: nat, ms: seq<Member>)
    requires At(t, p, Print(ObjectNode(ms)))
    ensures At(t, p + 1, PrintMembers(ms, true) + [RBRACE])
  {
    var inner := PrintMembers(ms, true);
    assert Print(ObjectNode(ms)) == [LBRACE] + (inner + [RBRACE]);
    AtSplit(t, p, [LBRACE], inner + [RBRACE]);
  }

  lemma {:induction false} NameFirst(t: bytes, p: nat, m: Member)
    requires At(t, p, MemberText(m, true))
    ensures SkipSpace(t, p) == p && Peek(t, p) == QUOTE
  {
    AtIndex(t, p, MemberText(m, true), 0);
  }

  // The elements from es on, the first of which stands at p without a comma.
  lemma {:induction false} ElementsRead(t: bytes, p: nat, es: seq<Node>, n: nat, log: Log)
    requires es != [] && forall e <- es :: Printable(e)
    requires At(t, p, PrintElements(es, true) + [RBRACKET])
    ensures Elements(t, p, n, log)
         == Ok(p + |PrintElements(es, true)| + 1, log + ElementEvents(es, true) + [EndArray(n + |es|)])
    decreases es, 0
  {
    hide Value, Elements, Events, PrintElements, Print, At;
    ElementsSplit(t, p, es);
    var q := p + |Print(es[0])|;
    var l := log + Events(es[0], true);
    ValueReads(t, p, es[0], log);
    ElementTurn(t, p, n, log, q, l);
    if |es| > 1 {
      ElementsRead(t, q + 1, es[1..], n + 1, l);
      ElementsSplit(t, q + 1, es[1..]);
      FirstByteAt(t, q + 1, es[1]);
    }
    assert l + ElementEvents(es[1..], true) == log + ElementEvents(es, true);
  }

  lemma {:induction false} MembersRead(t: bytes, p: nat, ms: seq<Member>, n: nat, log: Log)
    requires ms != [] && forall m <- ms :: Printable(m.value)
    requires At(t, p, PrintMembers(ms, true) + [RBRACE])
    ensures Members(t, p, n, log)
         == Ok(p + |PrintMembers(ms, true)| + 1, log + MemberEvents(ms, true) + [EndObject(n + |ms|)])
    decreases ms, 0
  {
    hide Value, Members, MemberTail, Events, OneMember, PrintMembers, MemberText, At;
    MembersSplit(t, p, ms);
    var m := ms[0];
    var q := p + |MemberText(m, true)|;
    var l := log + OneMember(m, true);
    OneMemberReads(t, p, m, n, log);
    MemberEnds(t, q, n + 1, l);
    if |ms| > 1 {
      MembersRead(t, q + 1, ms[1..], n + 1, l);
      MembersSplit(t, q + 1, ms[1..]);
      NameFirst(t, q + 1, ms[1]);
    }
    assert l + MemberEvents(ms[1..], true) == log + MemberEvents(ms, true);
  }

  // One member, and how the others go on.
  lemma {:induction false} OneMemberReads(t: bytes, p: nat, m: Member, n: nat, log: Log)
    requires Printable(m.value) && At(t, p, MemberText(m, true))
    requires EndsNumber(Peek(t, p + |MemberText(m, true)|)) && !IsSpace(Peek(t, p + |MemberText(m, true)|))
    ensures Members(t, p, n, log) == MemberTail(t, p + |MemberText(m, true)|, n + 1, log + OneMember(m, true))
    decreases m, 2
  {
    hide Value, Members, MemberTail, Events, MemberText, At, EndsNumber;
    var v, l := p + |Quoted(m.name)| + 1, log + [Key(m.name)];
    assert m.value < m;
    NameReads(t, p, m, n, log);
    ValueReads(t, v, m.value, l);
    assert l + Events(m.value, true) == log + OneMember(m, true);
  }

  // A member up to its value.
  lemma {:induction false} NameReads(t: bytes, p: nat, m: Member, n: nat, log: Log)
    requires Printable(m.value) && At(t, p, MemberText(m, true))
    ensures var v := p + |Quoted(m.name)| + 1;
            && At(t, v, Print(m.value)) && v + |Print(m.value)| == p + |MemberText(m, true)|
            && Members(t, p, n, log) == MemberValue(t, v, n, log + [Key(m.name)])
  {
    hide ScanString, Value, MemberValue, Print, Quoted, At;
    var name, value := Quoted(m.name), Print(m.value);
    assert MemberText(m, true) == name + ([COLON] + value);
    AtSplit(t, p, name, [COLON] + value);
    AtSplit(t, p + |name|, [COLON], value);
    AtIndex(t, p + |name|, [COLON], 0);
    StringReads(t, p, m.name);
    FirstByteAt(t, p + |name| + 1, m.value);
    assert MemberName(t, p, log) == Ok(p + |name|, log + [Key(m.name)]);
    assert SkipSpace(t, p + |name|) == p + |name|;
    assert Members(t, p, n, log) == MemberColon(t, p + |name|, n, log + [Key(m.name)]);
  }

  /* Whole texts */

  // The text of a value is accepted as a whole, by both parsers, and its
  // events are those of the value.
  lemma {:induction false} PrintedTextParses(v: Node)
    requires Printable(v)
    ensures ParsedDocument(Print(v)) == Ok(|Print(v)|, Events(v, true))
    ensures IterativeDocument(Print(v)) == ParsedDocument(Print(v))
  {
    hide Print, Value, Events, Printable, IterativeDocument;
    var t := Print(v);
    assert t[0..0 + |t|] == t;
    FirstByteAt(t, 0, v);
    ValueReads(t, 0, v, []);
    assert [] + Events(v, true) == Events(v, true);
    IterativeAgreesWithRecursive(t);
  }

  // Writer, reader and document composed: the value comes back, with the
  // number flags its integers call for.
  lemma {:induction false} PrintThenParse(v: Node)
    requires Printable(v)
    ensures Write(Blank, Accept(v)) == Some(Pen(Print(v), [], true))
    ensures var o := ParsedDocument(Print(v));
            o.Ok? && Build([], o.log) == Some([Reflagged(v)])
    ensures AllCanonical(v) ==> Build([], ParsedDocument(Print(v)).log) == Some([v])
  {
    hide Print, ParsedDocument, Build, Events, Reflagged, AllCanonical, Write;
    WriterPrints(v);
    PrintedTextParses(v);
    EventsBuild([], v, true);
    assert [] + [Reflagged(v)] == [Reflagged(v)];
    ReflaggedIsSame(v);
  }
}
