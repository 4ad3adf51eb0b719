// The writer: text is put out event by event, and a stack of levels with value
// counters decides where commas and colons go. It is proved to print, for the
// events of any value, the text that a recursive printer would print.

module JsonWriter {
  import opened Bytes
  import opened JsonTypes
  import opened JsonDocument

  /* The recursive printer */

  function HexDigit(n: nat): byte
    requires n < 16
  {
    if n < 10 then ZERO + n else 55 + n
  }

  // The letter of the escape that stands for c, NUL when c is written as it is.
  function EscapeLetter(c: byte): byte {
    if c == QUOTE || c == BACKSLASH then c
    else if c == 8 then 98
    else if c == TAB then 116
    else if c == LF then 110
    else if c == 12 then 102
    else if c == CR then 114
    else if c < 32 then 117
    else NUL
  }

  function EscapeByte(c: byte): (r: bytes)
    ensures r != []
  {
    var e := EscapeLetter(c);
    if e == NUL then [c]
    else if e == 117 then [BACKSLASH, 117, ZERO, ZERO, HexDigit(c / 16), HexDigit(c % 16)]
    else [BACKSLASH, e]
  }

  function Escape(s: bytes): bytes {
    if s == [] then [] else EscapeByte(s[0]) + Escape(s[1..])
  }

  function Quoted(s: bytes): bytes { [QUOTE] + Escape(s) + [QUOTE] }

  // Plain decimal digits.
  function Digits(n: nat): (r: bytes)
    ensures |r| > 0 && IsDigit(r[0]) && (r[0] == ZERO <==> n == 0)
  {
    if n < 10 then [ZERO + n] else Digits(n / 10) + [ZERO + n % 10]
  }

  function IntegerText(n: int): (r: bytes)
    ensures |r| > 0
  {
    if n < 0 then [MINUS] + Digits(-n) else Digits(n)
  }

  const NULL_TEXT: bytes := [110, 117, 108, 108]
  const TRUE_TEXT: bytes := [116, 114, 117, 101]
  const FALSE_TEXT: bytes := [102, 97, 108, 115, 101]

  function Print(v: Node): bytes
    decreases v, 0
  {
    match v
    case NullNode => NULL_TEXT
    case BoolNode(b) => if b then TRUE_TEXT else FALSE_TEXT
    case IntegerNode(n, _) => IntegerText(n)
    case DoubleNode(x) => x
    case StringNode(s) => Quoted(s)
    case ArrayNode(es) => [LBRACKET] + PrintElements(es, true) + [RBRACKET]
    case ObjectNode(ms) => [LBRACE] + PrintMembers(ms, true) + [RBRACE]
  }

  function Comma(first: bool): bytes { if first then [] else [COMMA] }

  function PrintElements(es: seq<Node>, first: bool): bytes
    decreases es
  {
    if es == [] then [] else ElementText(es[0], first) + PrintElements(es[1..], false)
  }

  function ElementText(e: Node, first: bool): bytes
    decreases e, 1
  {
    Comma(first) + Print(e)
  }

  function PrintMembers(ms: seq<Member>, first: bool): bytes
    decreases ms
  {
    if ms == [] then []
    else MemberText(ms[0], first) + PrintMembers(ms[1..], false)
  }

  function MemberText(m: Member, first: bool): bytes
    decreases m
  {
    Comma(first) + Quoted(m.name) + [COLON] + Print(m.value)
  }

  /* The event-driven writer */

  datatype Level = Level(valueCount: nat, inArray: bool)

  datatype Pen = Pen(out: bytes, levels: seq<Level>, hasRoot: bool)

  const Blank: Pen := Pen([], [], false)

  // Whether the writer's own checks let a value start here; a name must be a string.
  predicate MayStart(w: Pen, isString: bool) {
    if w.levels == [] then !w.hasRoot
    else
      var l := w.levels[|w.levels| - 1];
      l.inArray || l.valueCount % 2 == 1 || isString
  }

  // What separates a value from the one before it on the same level.
  function Separator(l: Level): bytes {
    if l.valueCount == 0 then []
    else if l.inArray || l.valueCount % 2 == 0 then [COMMA]
    else [COLON]
  }

  function OneMore(l: Level): Level { l.(valueCount := l.valueCount + 1) }

  // The writer behind the separator of the next value.
  function Prefixed(w: Pen): Pen {
    if w.levels == [] then w.(hasRoot := true)
    else
      var k := |w.levels| - 1;
      Pen(w.out + Separator(w.levels[k]), w.levels[..k] + [OneMore(w.levels[k])], w.hasRoot)
  }

  function ScalarText(e: Event): bytes
    requires !(e.StartObject? || e.EndObject? || e.StartArray? || e.EndArray?)
  {
    if e.Null? then NULL_TEXT
    else if e.Bool? then (if e.b then TRUE_TEXT else FALSE_TEXT)
    else if e.Int? then IntegerText(e.i)
    else if e.Uint? then IntegerText(e.u)
    else if e.Int64? then IntegerText(e.i64)
    else if e.Uint64? then IntegerText(e.u64)
    else if e.Double? then e.lexeme
    else if e.String? then Quoted(e.str)
    else Quoted(e.name)
  }

  function Started(w: Pen, inArray: bool): Pen {
    var p := Prefixed(w);
    Pen(p.out + [if inArray then LBRACKET else LBRACE], p.levels + [Level(0, inArray)], p.hasRoot)
  }

  function Ended(w: Pen, inArray: bool): Pen
    requires w.levels != []
  {
    Pen(w.out + [if inArray then RBRACKET else RBRACE], w.levels[..|w.levels| - 1], w.hasRoot)
  }

  // The writer behind a value whose text is s.
  function After(w: Pen, s: bytes): Pen {
    var p := Prefixed(w);
    p.(out := p.out + s)
  }

  // One handler call; None where an assertion of the writer would fail.
  function Put(w: Pen, e: Event): Option<Pen> {
    if e.EndObject? || e.EndArray? then
      if w.levels == [] || w.levels[|w.levels| - 1].inArray != e.EndArray? then None
      else Some(Ended(w, e.EndArray?))
    else if !MayStart(w, e.String? || e.Key?) then None
    else if e.StartObject? || e.StartArray? then Some(Started(w, e.StartArray?))
    else Some(After(w, ScalarText(e)))
  }

  function Write(w: Pen, l: Log): Option<Pen>
    decreases |l|
  {
    if l == [] then Some(w)
    else
      match Put(w, l[0])
      case None => None
      case Some(x) => Write(x, l[1..])
  }

  // The writer object.
  class Writer {
    var out: bytes
    var levels: seq<Level>
    var hasRoot: bool

    function State(): Pen
      reads this
    {
      Pen(out, levels, hasRoot)
    }

    constructor ()
      ensures State() == Blank
    {
      out, levels, hasRoot := [], [], false;
    }

    // Puts the separator and counts the value.
    method Prefix(ghost isString: bool)
      requires MayStart(State(), isString)
      modifies this
      ensures State() == Prefixed(old(State()))
    {
      if levels != [] {
        var k := |levels| - 1;
        var level := levels[k];
        if level.valueCount > 0 {
          if level.inArray {
            out := out + [COMMA];
          } else {
            out := out + [if level.valueCount % 2 == 0 then COMMA else COLON];
          }
        }
        levels := levels[..k] + [level.(valueCount := level.valueCount + 1)];
      } else {
        hasRoot := true;
      }
      assert State().out == Prefixed(old(State())).out;
    }

    // One byte of a string, escaped where it must be.
    method WriteByte(c: byte)
      modifies this`out
      ensures out == old(out) + EscapeByte(c)
    {
      var letter := EscapeLetter(c);
      if letter != NUL {
        out := out + [BACKSLASH];
        out := out + [letter];
        if letter == 117 {
          out := out + [ZERO];
          out := out + [ZERO];
          out := out + [HexDigit(c / 16)];
          out := out + [HexDigit(c % 16)];
        }
      } else {
        out := out + [c];
      }
    }

    // A string between quotes, byte by byte.
    method WriteString(str: bytes)
      modifies this`out
      ensures out == old(out) + Quoted(str)
    {
      hide EscapeByte;
      out := out + [QUOTE];
      var i := 0;
      assert str[0..] == str;
      while i < |str|
        invariant 0 <= i <= |str|
        invariant out + Escape(str[i..]) == old(out) + [QUOTE] + Escape(str)
      {
        ghost var before := out;
        WriteByte(str[i]);
        assert str[i..][1..] == str[i + 1..];
        assert before + Escape(str[i..]) == before + (EscapeByte(str[i]) + Escape(str[i + 1..]));
        i := i + 1;
      }
      assert str[i..] == [] && out + [] == out;
      out := out + [QUOTE];
      assert out == old(out) + ([QUOTE] + Escape(str) + [QUOTE]);
    }

    method OnString(str: bytes)
      requires MayStart(State(), true)
      modifies this
      ensures Some(State()) == Put(old(State()), String(str))
    {
      Prefix(true);
      WriteString(str);
    }

    // Null, a truth value or a number.
    method OnScalar(e: Event)
      requires e.Null? || e.Bool? || e.Int? || e.Uint? || e.Int64? || e.Uint64? || e.Double?
      requires MayStart(State(), false)
      modifies this
      ensures Some(State()) == Put(old(State()), e)
    {
      Prefix(false);
      out := out + ScalarText(e);
    }

    method OnStart(inArray: bool)
      requires MayStart(State(), false)
      modifies this
      ensures Some(State()) == Put(old(State()), if inArray then StartArray else StartObject)
    {
      Prefix(false);
      levels := levels + [Level(0, inArray)];
      out := out + [if inArray then LBRACKET else LBRACE];
    }

    method OnEnd(inArray: bool, ghost count: nat)
      requires levels != [] && levels[|levels| - 1].inArray == inArray
      modifies this
      ensures Some(State()) == Put(old(State()), if inArray then EndArray(count) else EndObject(count))
    {
      levels := levels[..|levels| - 1];
      out := out + [if inArray then RBRACKET else RBRACE];
    }
  }

  /* The writer prints what the recursive printer prints */

  lemma {:induction false} WriteConcat(w: Pen, a: Log, b: Log)
    ensures Write(w, a + b) == match Write(w, a) case None => None case Some(x) => Write(x, b)
    decreases |a|
  {
    if a == [] {
      assert a + b == b;
    } else {
      assert (a + b)[0] == a[0] && (a + b)[1..] == a[1..] + b;
      match Put(w, a[0])
      case None =>
      case Some(x) => WriteConcat(x, a[1..], b);
    }
  }

  lemma {:induction false} WriteOne(w: Pen, e: Event)
    ensures Write(w, [e]) == Put(w, e)
  {
    if Put(w, e).Some? {
      assert Write(Put(w, e).value, []) == Put(w, e);
    }
  }

  // Events between a start and an end, run from the state behind the start.
  lemma {:induction false} BracketWrites(w: Pen, open: Event, inner: Log, close: Event, mid: Pen)
    requires Put(w, open).Some? && Write(Put(w, open).value, inner) == Some(mid)
    ensures Write(w, [open] + inner + [close]) == Put(mid, close)
  {
    WriteOne(w, open);
    WriteConcat(w, [open], inner);
    WriteConcat(w, [open] + inner, [close]);
    WriteOne(mid, close);
  }

  lemma {:induction false} ArrayWrites(w: Pen, es: seq<Node>)
    requires MayStart(w, false)
    requires var q := Started(w, true);
             Write(q, ElementEvents(es, false)) == Some(Moved(q, PrintElements(es, true), |es|))
    ensures Write(w, Accept(ArrayNode(es))) == Some(After(w, Print(ArrayNode(es))))
  {
    hide ElementEvents, PrintElements, Prefixed, Write;
    var q := Started(w, true);
    var mid := Moved(q, PrintElements(es, true), |es|);
    BracketWrites(w, StartArray, ElementEvents(es, false), EndArray(|es|), mid);
    var p := Prefixed(w);
    assert mid.levels[..|mid.levels| - 1] == p.levels;
    assert p.out + [LBRACKET] + PrintElements(es, true) + [RBRACKET]
        == p.out + ([LBRACKET] + PrintElements(es, true) + [RBRACKET]);
  }

  lemma {:induction false} ObjectWrites(w: Pen, ms: seq<Member>)
    requires MayStart(w, false)
    requires var q := Started(w, false);
             Write(q, MemberEvents(ms, false)) == Some(Moved(q, PrintMembers(ms, true), 2 * |ms|))
    ensures Write(w, Accept(ObjectNode(ms))) == Some(After(w, Print(ObjectNode(ms))))
  {
    hide MemberEvents, PrintMembers, Prefixed, Write;
    var q := Started(w, false);
    var mid := Moved(q, PrintMembers(ms, true), 2 * |ms|);
    BracketWrites(w, StartObject, MemberEvents(ms, false), EndObject(|ms|), mid);
    var p := Prefixed(w);
    assert mid.levels[..|mid.levels| - 1] == p.levels;
    assert p.out + [LBRACE] + PrintMembers(ms, true) + [RBRACE]
        == p.out + ([LBRACE] + PrintMembers(ms, true) + [RBRACE]);
  }

  lemma {:induction false} ScalarWrites(w: Pen, v: Node)
    requires MayStart(w, false) && !v.ArrayNode? && !v.ObjectNode?
    ensures Write(w, Accept(v)) == Some(After(w, Print(v)))
  {
    hide Write, IntegerText, Quoted, Prefixed;
    WriteOne(w, Accept(v)[0]);
  }

  lemma {:induction false} EventsWrite(w: Pen, v: Node)
    requires MayStart(w, false)
    ensures Write(w, Accept(v)) == Some(After(w, Print(v)))
    decreases v, 1
  {
    hide Write, Print, Prefixed;
    match v
    case ArrayNode(es) =>
      ElementsWrite(Started(w, true), es, 0);
      ArrayWrites(w, es);
    case ObjectNode(ms) =>
      MembersWrite(Started(w, false), ms, 0);
      ObjectWrites(w, ms);
    case _ => ScalarWrites(w, v);
  }

  // The writer with other text and another counter on the innermost level.
  function Moved(w: Pen, s: bytes, count: nat): Pen
    requires w.levels != []
  {
    var k := |w.levels| - 1;
    Pen(w.out + s, w.levels[..k] + [w.levels[k].(valueCount := count)], w.hasRoot)
  }

  lemma {:induction false} MovedTwice(w: Pen, a: bytes, i: nat, b: bytes, j: nat)
    requires w.levels != []
    ensures Moved(w, a, i).levels != []
    ensures Moved(Moved(w, a, i), b, j) == Moved(w, a + b, j)
  {
    assert w.out + a + b == w.out + (a + b);
  }

  lemma {:induction false} NothingMoved(w: Pen, n: nat)
    requires w.levels != [] && w.levels[|w.levels| - 1].valueCount == n
    ensures Moved(w, [], n) == w
  {
    var k := |w.levels| - 1;
    assert w.levels[..k] + [w.levels[k]] == w.levels;
  }

  // The separator and the text of a value move the writer on by one value.
  lemma {:induction false} AfterMoves(w: Pen, n: nat, s: bytes)
    requires w.levels != [] && w.levels[|w.levels| - 1].valueCount == n
    ensures After(w, s) == Moved(w, Separator(w.levels[|w.levels| - 1]) + s, n + 1)
  {
    var l := w.levels[|w.levels| - 1];
    assert w.out + Separator(l) + s == w.out + (Separator(l) + s);
  }

  lemma {:induction false} ElementsWrite(w: Pen, es: seq<Node>, n: nat)
    requires w.levels != [] && w.levels[|w.levels| - 1] == Level(n, true)
    ensures Write(w, ElementEvents(es, false)) == Some(Moved(w, PrintElements(es, n == 0), n + |es|))
    decreases es, 0
  {
    hide Print, Prefixed, After, Events, Write;
    if es == [] {
      NothingMoved(w, n);
      WriteNothing(w);
    } else {
      var first := ElementText(es[0], n == 0);
      EventsWrite(w, es[0]);
      AfterMoves(w, n, Print(es[0]));
      var x := Moved(w, first, n + 1);
      ElementsWrite(x, es[1..], n + 1);
      MovedTwice(w, first, n + 1, PrintElements(es[1..], false), n + |es|);
      WriteTwo(w, Accept(es[0]), x, ElementEvents(es[1..], false));
    }
  }

  lemma {:induction false} WriteNothing(w: Pen)
    ensures Write(w, []) == Some(w)
  {
  }

  lemma {:induction false} WriteTwo(w: Pen, a: Log, x: Pen, b: Log)
    requires Write(w, a) == Some(x)
    ensures Write(w, a + b) == Write(x, b)
  {
    WriteConcat(w, a, b);
  }

  // A member name and its value move the writer on by two values.
  lemma {:induction false} MemberWrites(w: Pen, m: Member, n: nat)
    requires w.levels != [] && w.levels[|w.levels| - 1] == Level(2 * n, false)
    requires var x := Moved(w, Comma(n == 0) + Quoted(m.name), 2 * n + 1);
             Write(x, Accept(m.value)) == Some(After(x, Print(m.value)))
    ensures Write(w, OneMember(m, false)) == Some(Moved(w, MemberText(m, n == 0), 2 * n + 2))
  {
    hide Write, Print, Quoted, Events, Prefixed, After;
    var name := Comma(n == 0) + Quoted(m.name);
    var x := Moved(w, name, 2 * n + 1);
    NameWrites(w, m.name, n);
    WriteTwo(w, [Key(m.name)], x, Accept(m.value));
    AfterMoves(x, 2 * n + 1, Print(m.value));
    MovedTwice(w, name, 2 * n + 1, [COLON] + Print(m.value), 2 * n + 2);
    assert name + ([COLON] + Print(m.value)) == name + [COLON] + Print(m.value);
  }

  lemma {:induction false} NameWrites(w: Pen, name: bytes, n: nat)
    requires w.levels != [] && w.levels[|w.levels| - 1] == Level(2 * n, false)
    ensures Write(w, [Key(name)]) == Some(Moved(w, Comma(n == 0) + Quoted(name), 2 * n + 1))
  {
    hide Write, Quoted, After, Prefixed;
    WriteOne(w, Key(name));
    AfterMoves(w, 2 * n, Quoted(name));
  }

  lemma {:induction false} MovedTop(w: Pen, text: bytes, k: nat)
    requires w.levels != [] && !w.levels[|w.levels| - 1].inArray
    ensures var x := Moved(w, text, k);
            x.levels != [] && x.levels[|x.levels| - 1] == Level(k, false) && (k % 2 == 1 ==> MayStart(x, false))
  {
  }

  lemma {:induction false} MembersWrite(w: Pen, ms: seq<Member>, n: nat)
    requires w.levels != [] && w.levels[|w.levels| - 1] == Level(2 * n, false)
    ensures Write(w, MemberEvents(ms, false)) == Some(Moved(w, PrintMembers(ms, n == 0), 2 * (n + |ms|)))
    decreases ms, 0
  {
    hide Print, Prefixed, After, Events, Quoted, OneMember, MemberText, Write, Moved;
    if ms == [] {
      NothingMoved(w, 2 * n);
      WriteNothing(w);
    } else {
      var m := ms[0];
      assert m.value < m;
      MovedTop(w, Comma(n == 0) + Quoted(m.name), 2 * n + 1);
      EventsWrite(Moved(w, Comma(n == 0) + Quoted(m.name), 2 * n + 1), m.value);
      MemberWrites(w, m, n);
      var first := MemberText(m, n == 0);
      var y := Moved(w, first, 2 * n + 2);
      MovedTop(w, first, 2 * n + 2);
      MembersWrite(y, ms[1..], n + 1);
      MovedTwice(w, first, 2 * n + 2, PrintMembers(ms[1..], false), 2 * (n + |ms|));
      WriteTwo(w, OneMember(m, false), y, MemberEvents(ms[1..], false));
    }
  }

  // From a blank state, no assertion of the writer fails on the events of a
  // value, the text is the one of the recursive printer, and nothing is left open.
  lemma {:induction false} WriterPrints(v: Node)
    ensures Write(Blank, Accept(v)) == Some(Pen(Print(v), [], true))
  {
    EventsWrite(Blank, v);
    assert [] + Print(v) == Print(v);
  }

  /* What the writer refuses */

  // Behind a whole value at the top nothing more is taken.
  lemma {:induction false} OneRootOnly(v: Node, e: Event)
    ensures Write(Blank, Accept(v) + [e]) == None
  {
    hide Write, Accept, Print;
    WriterPrints(v);
    WriteTwo(Blank, Accept(v), Pen(Print(v), [], true), [e]);
    WriteOne(Pen(Print(v), [], true), e);
  }

  // Where a member name must stand only a string is taken: behind any number of
  // members, and no bracket of an array closes an object.
  lemma {:induction false} NamesAreStrings(w: Pen, ms: seq<Member>, e: Event)
    requires MayStart(w, false)
    ensures var r := Write(w, [StartObject] + MemberEvents(ms, false) + [e]);
            r.Some? <==> e.String? || e.Key? || e.EndObject?
  {
    hide Write, MemberEvents, PrintMembers, Prefixed, ScalarText;
    var q := Started(w, false);
    var x := Moved(q, PrintMembers(ms, true), 2 * |ms|);
    MembersWrite(q, ms, 0);
    WriteOne(w, StartObject);
    WriteTwo(w, [StartObject], q, MemberEvents(ms, false));
    WriteTwo(w, [StartObject] + MemberEvents(ms, false), x, [e]);
    WriteOne(x, e);
    MovedTop(q, PrintMembers(ms, true), 2 * |ms|);
  }

  // In an array every value is taken, and no brace closes it.
  lemma {:induction false} ArraysTakeAll(w: Pen, es: seq<Node>, e: Event)
    requires MayStart(w, false)
    ensures Write(w, [StartArray] + ElementEvents(es, false) + [e]).Some? <==> !e.EndObject?
  {
    hide Write, ElementEvents, PrintElements, Prefixed, ScalarText;
    var q := Started(w, true);
    var x := Moved(q, PrintElements(es, true), |es|);
    ElementsWrite(q, es, 0);
    WriteOne(w, StartArray);
    WriteTwo(w, [StartArray], q, ElementEvents(es, false));
    WriteTwo(w, [StartArray] + ElementEvents(es, false), x, [e]);
    WriteOne(x, e);
  }
}
