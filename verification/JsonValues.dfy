// What accepted texts stand for: one value each, built from the events of the
// reader, and the exact kinds and values of integer tokens.

module JsonValues {
  import opened Bytes
  import opened JsonTypes
  import opened JsonScan
  import opened JsonGrammar
  import opened JsonDocument
  import opened JsonWriter
  import opened JsonRoundTrip

  // Every integer fits 64 bits and carries the flags its value calls for.
  predicate Proper(v: Node) {
    match v
    case IntegerNode(n, f) => -TWO63 <= n < TWO64 && f == Canonical(n)
    case ArrayNode(es) => forall e <- es :: Proper(e)
    case ObjectNode(ms) => forall m <- ms :: Proper(m.value)
    case _ => true
  }

  // The events so far have left the stack st.
  predicate Builds(log: Log, st: seq<Node>) { Build([], log) == Some(st) }

  lemma {:induction false} BuildsNext(log: Log, st: seq<Node>, e: Event)
    requires Builds(log, st)
    ensures Build([], log + [e]) == Handle(st, e)
  {
    BuildConcat([], log, [e]);
    BuildOne(st, e);
  }

  // Every number token is an event the document can take, and its flags are canonical.
  lemma {:induction false} NumberIsHandled(t: bytes, p: nat, st: seq<Node>)
    requires ScanNumber(t, p).Scanned?
    ensures var r := Handle(st, ScanNumber(t, p).value);
            r.Some? && |r.value| == |st| + 1 && r.value[..|st|] == st && Proper(r.value[|st|])
  {
    hide FirstBeyond, Decimal, ScanFraction, ScanExponent;
    var e := ScanNumber(t, p).value;
    assert e.Double? || exists minus, n: nat :: Fits64(minus, n) && e == IntegerEvent(minus, n);
  }

  lemma {:induction false} ScalarLeaves(t: bytes, p: nat, log: Log, st: seq<Node>) returns (v: Node)
    requires !StartsContainer(Peek(t, p)) && ScalarValue(t, p, log).Ok? && Builds(log, st)
    ensures Proper(v) && Builds(ScalarValue(t, p, log).log, st + [v])
  {
    hide ScanLetters, ScanString, ScanNumber, Build, Handle;
    var c := Peek(t, p);
    var e := if c == 110 then Null else if c == 116 then Bool(true) else if c == 102 then Bool(false)
             else if c == QUOTE then String(ScanString(t, p).value) else ScanNumber(t, p).value;
    assert ScalarValue(t, p, log).log == log + [e];
    BuildsNext(log, st, e);
    if c == 110 || c == 116 || c == 102 || c == QUOTE {
      v := SimpleNode(st, e);
    } else {
      NumberIsHandled(t, p, st);
      var s := Handle(st, e).value;
      v := s[|st|];
      assert s == st + [v];
    }
  }

  lemma {:induction false} SimpleNode(st: seq<Node>, e: Event) returns (v: Node)
    requires e.Null? || e.Bool? || e.String?
    ensures Proper(v) && Handle(st, e) == Some(st + [v])
  {
    v := match e case Bool(b) => BoolNode(b) case String(s) => StringNode(s) case _ => NullNode;
  }

  lemma {:induction false} ValueLeaves(t: bytes, p: nat, log: Log, st: seq<Node>) returns (v: Node)
    requires Value(t, p, log).Ok? && Builds(log, st)
    ensures Proper(v) && Builds(Value(t, p, log).log, st + [v])
    decreases Bytes.Left(t, p), 0
  {
    hide ScalarValue, ArrayBody, ObjectBody, Build;
    var c := Peek(t, p);
    if c == LBRACE {
      BuildsNext(log, st, StartObject);
      v := ObjectLeaves(t, SkipSpace(t, p + 1), log + [StartObject], st);
    } else if c == LBRACKET {
      BuildsNext(log, st, StartArray);
      v := ArrayLeaves(t, SkipSpace(t, p + 1), log + [StartArray], st);
    } else {
      v := ScalarLeaves(t, p, log, st);
    }
  }

  // The end of an array takes exactly its elements from the stack.
  lemma {:induction false} ArrayCloses(log: Log, st: seq<Node>, es: seq<Node>) returns (v: Node)
    requires Builds(log, st + [ArrayNode([])] + es) && forall e <- es :: Proper(e)
    ensures v == ArrayNode(es) && Proper(v) && Builds(log + [EndArray(|es|)], st + [v])
  {
    hide Build;
    var full := st + [ArrayNode([])] + es;
    BuildsNext(log, full, EndArray(|es|));
    assert full[|full| - |es|..] == es && full[..|full| - |es| - 1] == st;
    v := ArrayNode(es);
  }

  lemma {:induction false} ArrayLeaves(t: bytes, p: nat, log: Log, st: seq<Node>) returns (v: Node)
    requires ArrayBody(t, p, log).Ok? && Builds(log, st + [ArrayNode([])])
    ensures Proper(v) && Builds(ArrayBody(t, p, log).log, st + [v])
    decreases Bytes.Left(t, p), 2
  {
    hide Elements, Builds;
    assert st + [ArrayNode([])] + [] == st + [ArrayNode([])];
    if Peek(t, p) == RBRACKET {
      v := ArrayCloses(log, st, []);
    } else {
      v := ElementsLeave(t, p, log, st, []);
    }
  }

  lemma {:induction false} ElementsLeave(t: bytes, p: nat, log: Log, st: seq<Node>, es: seq<Node>)
    returns (v: Node)
    requires Elements(t, p, |es|, log).Ok? && Builds(log, st + [ArrayNode([])] + es)
    requires forall e <- es :: Proper(e)
    ensures Proper(v) && Builds(Elements(t, p, |es|, log).log, st + [v])
    decreases Bytes.Left(t, p), 1
  {
    hide Value, Builds, Proper, ElementTail;
    var o := Value(t, p, log);
    var e := ValueLeaves(t, p, log, st + [ArrayNode([])] + es);
    assert st + [ArrayNode([])] + es + [e] == st + [ArrayNode([])] + (es + [e]);
    var q := SkipSpace(t, o.pos);
    assert Elements(t, p, |es|, log) == ElementTail(t, q, |es + [e]|, o.log);
    v := ElementTailLeaves(t, q, o.log, st, es + [e]);
  }

  lemma {:induction false} ElementTailLeaves(t: bytes, p: nat, log: Log, st: seq<Node>, es: seq<Node>)
    returns (v: Node)
    requires ElementTail(t, p, |es|, log).Ok? && Builds(log, st + [ArrayNode([])] + es)
    requires forall e <- es :: Proper(e)
    ensures Proper(v) && Builds(ElementTail(t, p, |es|, log).log, st + [v])
    decreases Bytes.Left(t, p), 0
  {
    hide Elements, Builds, Proper;
    if Peek(t, p) == COMMA {
      v := ElementsLeave(t, SkipSpace(t, p + 1), log, st, es);
    } else {
      v := ArrayCloses(log, st, es);
    }
  }

  // The end of an object takes exactly its names and values from the stack.
  lemma {:induction false} BracesClose(log: Log, st: seq<Node>, ms: seq<Member>) returns (v: Node)
    requires Builds(log, st + [ObjectNode([])] + Flat(ms)) && forall m <- ms :: Proper(m.value)
    ensures v == ObjectNode(ms) && Proper(v) && Builds(log + [EndObject(|ms|)], st + [v])
  {
    hide Build, Flat, Pairs;
    var full := st + [ObjectNode([])] + Flat(ms);
    BuildsNext(log, full, EndObject(|ms|));
    PairsOfFlat(ms);
    assert full[|full| - 2 * |ms|..] == Flat(ms) && full[..|full| - 2 * |ms| - 1] == st;
    v := ObjectNode(ms);
  }

  lemma {:induction false} FlatLast(ms: seq<Member>, m: Member)
    ensures Flat(ms + [m]) == Flat(ms) + [StringNode(m.name), m.value]
    decreases |ms|
  {
    if ms == [] {
      assert [] + [m] == [m] && Flat([m][1..]) == [];
    } else {
      assert (ms + [m])[0] == ms[0] && (ms + [m])[1..] == ms[1..] + [m];
      FlatLast(ms[1..], m);
    }
  }

  lemma {:induction false} ObjectLeaves(t: bytes, p: nat, log: Log, st: seq<Node>) returns (v: Node)
    requires ObjectBody(t, p, log).Ok? && Builds(log, st + [ObjectNode([])])
    ensures Proper(v) && Builds(ObjectBody(t, p, log).log, st + [v])
    decreases Bytes.Left(t, p), 2
  {
    hide Members, Builds;
    assert st + [ObjectNode([])] + Flat([]) == st + [ObjectNode([])];
    if Peek(t, p) == RBRACE {
      v := BracesClose(log, st, []);
    } else {
      v := MembersLeave(t, p, log, st, []);
    }
  }

  lemma {:induction false} MembersLeave(t: bytes, p: nat, log: Log, st: seq<Node>, ms: seq<Member>)
    returns (v: Node)
    requires Members(t, p, |ms|, log).Ok? && Builds(log, st + [ObjectNode([])] + Flat(ms))
    requires forall m <- ms :: Proper(m.value)
    ensures Proper(v) && Builds(Members(t, p, |ms|, log).log, st + [v])
    decreases Bytes.Left(t, p), 1
  {
    hide Value, Build, Proper, MemberTail, Flat, ScanString, Members;
    var base := st + [ObjectNode([])] + Flat(ms);
    var name, q, l := MemberStarts(t, p, |ms|, log);
    BuildsNext(log, base, Key(name));
    assert Handle(base, Key(name)) == Some(base + [StringNode(name)]);
    var o := Value(t, q, l);
    var x := ValueLeaves(t, q, l, base + [StringNode(name)]);
    var m := Member(name, x);
    FlatLast(ms, m);
    assert base + [StringNode(name)] + [x] == st + [ObjectNode([])] + Flat(ms + [m]);
    assert MemberValue(t, q, |ms|, l) == MemberTail(t, SkipSpace(t, o.pos), |ms + [m]|, o.log);
    v := MemberTailLeaves(t, SkipSpace(t, o.pos), o.log, st, ms + [m]);
  }

  // A member up to its value.
  lemma {:induction false} MemberStarts(t: bytes, p: nat, n: nat, log: Log) returns (name: bytes, q: nat, l: Log)
    requires Members(t, p, n, log).Ok?
    ensures l == log + [Key(name)] && p < q && Bytes.Left(t, q) < Bytes.Left(t, p)
    ensures Members(t, p, n, log) == MemberValue(t, q, n, l)
    ensures Value(t, q, l).Ok?
  {
    hide Value, MemberTail, ScanString;
    var o := MemberName(t, p, log);
    name, l := ScanString(t, p).value, o.log;
    q := SkipSpace(t, SkipSpace(t, o.pos) + 1);
    assert Peek(t, p) == QUOTE;
  }

  lemma {:induction false} MemberTailLeaves(t: bytes, p: nat, log: Log, st: seq<Node>, ms: seq<Member>)
    returns (v: Node)
    requires MemberTail(t, p, |ms|, log).Ok? && Builds(log, st + [ObjectNode([])] + Flat(ms))
    requires forall m <- ms :: Proper(m.value)
    ensures Proper(v) && Builds(MemberTail(t, p, |ms|, log).log, st + [v])
    decreases Bytes.Left(t, p), 0
  {
    hide Members, Builds, Proper;
    if Peek(t, p) == COMMA {
      v := MembersLeave(t, SkipSpace(t, p + 1), log, st, ms);
    } else {
      v := BracesClose(log, st, ms);
    }
  }

  // The events of an accepted text never pop what is not there and leave
  // exactly one root, all of whose number flags follow from its integers.
  lemma {:induction false} ParsedBuildsOneRoot(t: bytes) returns (v: Node)
    requires ParsedDocument(t).Ok?
    ensures Build([], ParsedDocument(t).log) == Some([v]) && AllHonest(v) && AllCanonical(v)
  {
    hide Value, SkipSpace, Build;
    BuildNothing([]);
    v := ValueLeaves(t, SkipSpace(t, 0), [], []);
    assert [] + [v] == [v];
    ProperIsCanonical(v);
  }

  lemma ProperIsCanonical(v: Node)
    requires Proper(v)
    ensures AllHonest(v) && AllCanonical(v)
  {
  }

  // Reading, printing and reading again changes nothing: the value that an
  // accepted text without doubles stands for is reached again from its own text.
  lemma {:induction false} ReadPrintRead(t: bytes) returns (v: Node)
    requires ParsedDocument(t).Ok?
    ensures Build([], ParsedDocument(t).log) == Some([v])
    ensures NoDoubles(v) ==>
              Printable(v) && ParsedDocument(Print(v)).Ok? && Build([], ParsedDocument(Print(v)).log) == Some([v])
  {
    hide Print, Build, Value;
    v := ParsedBuildsOneRoot(t);
    if NoDoubles(v) {
      PrintThenParse(v);
    }
  }

  /* Integer tokens */

  // A run of digits, each prefix of which is below a tenth of the largest double.
  predicate Measured(n: nat) { n / 10 < DBL_MAX_TENTH }

  lemma {:induction false} PrefixesBeyond(t: bytes, q: nat, k: nat, e: nat, limit: nat)
    requires q <= k <= e && forall j :: q <= j < e ==> IsDigit(Peek(t, j))
    ensures var r := FirstBeyond(t, q, k, e, limit);
            if k == e || Decimal(t, q, e - 1) < limit then r == Scanned(e, ()) else r.Bad? && r.code == NumberTooBig
    decreases e - k
  {
    if k < e {
      DecimalGrows(t, q, k, e - 1);
      PrefixesBeyond(t, q, k + 1, e, limit);
    }
  }

  // Integers of any length: the token is read to its end, its value is exact,
  // and its kind is decided at 2^31, 2^32, 2^63 and 2^64 and nowhere else. Only
  // behind 64 bits it becomes a double, and only behind the largest double it is refused.
  lemma {:induction false} IntegerTokenExact(t: bytes, p: nat, minus: bool, n: nat)
    requires At(t, p, (if minus then [MINUS] else []) + Digits(n))
    requires EndsNumber(Peek(t, p + |(if minus then [MINUS] else []) + Digits(n)|))
    ensures var s := (if minus then [MINUS] else []) + Digits(n);
            var r := ScanNumber(t, p);
            && (if minus && n <= TWO31 then r == Scanned(p + |s|, Int(-(n as int)))
                else if minus && n <= TWO63 then r == Scanned(p + |s|, Int64(-(n as int)))
                else if !minus && n < TWO32 then r == Scanned(p + |s|, Uint(n))
                else if !minus && n < TWO64 then r == Scanned(p + |s|, Uint64(n))
                else if Measured(n) then r == Scanned(p + |s|, Double(s))
                else r.Bad? && r.code == NumberTooBig)
  {
    hide Digits, FirstBeyond, Decimal, EndsNumber, IntegerEnd, ScanTail, ScanNumber;
    var sign := if minus then [MINUS] else [];
    AtSplit(t, p, sign, Digits(n));
    var q := p + |sign|;
    if minus { AtIndex(t, p, sign, 0); }
    IntegerEnds(t, q, n);
    var e := IntegerEnd(t, q);
    NumberSplits(t, p, q, minus);
    PrefixesBeyond(t, q, q, e, DBL_MAX_TENTH);
    LastDigit(t, q, e);
    TailEnds(t, p, e, minus, n);
    assert t[p..e] == sign + Digits(n);
  }

  lemma {:induction false} LastDigit(t: bytes, q: nat, e: nat)
    requires q < e && forall j :: q <= j < e ==> IsDigit(Peek(t, j))
    ensures Decimal(t, q, e - 1) == Decimal(t, q, e) / 10
  {
    assert IsDigit(Peek(t, e - 1));
  }
}
