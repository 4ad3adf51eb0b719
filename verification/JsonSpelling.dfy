// What the writer writes, and what white space may be put into it: the text of a
// value by its tokens, as RFC 4627 has them.

module JsonSpelling {
  import opened Bytes
  import opened JsonTypes
  import opened JsonGrammar
  import opened JsonDocument
  import opened JsonWriter
  import opened JsonRoundTrip
  import opened JsonSyntax

  // Quote, backslash and the five named controls are written by a letter, the
  // other controls by a code with capital digits, everything else as it is.
  function SpellByte(b: byte): Char {
    if b == 34 || b == 92 then Short(b)
    else if b == 8 then Short(98)
    else if b == 9 then Short(116)
    else if b == 10 then Short(110)
    else if b == 12 then Short(102)
    else if b == 13 then Short(114)
    else if b < 16 then Unit([48, 48, 48, if b < 10 then 48 + b else 55 + b])
    else if b < 32 then Unit([48, 48, 49, if b < 26 then 32 + b else 39 + b])
    else Plain(b)
  }

  function SpellBytes(s: bytes): seq<Char> { if s == [] then [] else [SpellByte(s[0])] + SpellBytes(s[1..]) }

  // The text of a value without white space.
  function Spell(v: Node): Tree
    requires NoDoubles(v)
    decreases v
  {
    match v
    case NullNode => NullWord
    case BoolNode(b) => if b then TrueWord else FalseWord
    case IntegerNode(n, _) => NumberTree(Numeral(n < 0, Digits(if n < 0 then -n else n), [], NoExponent))
    case StringNode(s) => StringTree(SpellBytes(s))
    case ArrayNode(es) => ArrayTree([], SpellItems(es))
    case ObjectNode(ms) => ObjectTree([], SpellFields(ms))
  }

  function SpellItems(es: seq<Node>): (r: seq<Item>)
    requires forall e <- es :: NoDoubles(e)
    ensures |r| == |es|
    decreases es
  {
    if es == [] then [] else [Item([], Spell(es[0]), [])] + SpellItems(es[1..])
  }

  function SpellFields(ms: seq<Member>): (r: seq<Field>)
    requires forall m <- ms :: NoDoubles(m.value)
    ensures |r| == |ms|
    decreases ms
  {
    if ms == [] then []
    else
      assert ms[0].value < ms[0];
      [Field([], SpellBytes(ms[0].name), [], [], Spell(ms[0].value), [])] + SpellFields(ms[1..])
  }

  /* The writer spells */

  lemma {:induction false} ByteSpelled(b: byte)
    ensures GoodChar(SpellByte(b)) && CharText(SpellByte(b)) == EscapeByte(b) && CharMeans(SpellByte(b)) == [b]
  {
    hide SpellByte, EscapeByte, CharText, CharMeans, GoodChar;
    if b >= 32 && b != 34 && b != 92 {
      PlainSpelled(b);
    } else if b in [34, 92, 8, 9, 10, 12, 13] {
      LetterSpelled(b);
    } else {
      CodeSpelled(b);
    }
  }

  lemma {:induction false} PlainSpelled(b: byte)
    requires b >= 32 && b != 34 && b != 92
    ensures GoodChar(SpellByte(b)) && CharText(SpellByte(b)) == EscapeByte(b) && CharMeans(SpellByte(b)) == [b]
  {
    assert SpellByte(b) == Plain(b);
  }

  lemma {:induction false} LetterSpelled(b: byte)
    requires b in [34, 92, 8, 9, 10, 12, 13]
    ensures GoodChar(SpellByte(b)) && CharText(SpellByte(b)) == EscapeByte(b) && CharMeans(SpellByte(b)) == [b]
  {
    assert SpellByte(b).Short?;
  }

  lemma {:induction false} CodeSpelled(b: byte)
    requires b < 32 && b !in [8, 9, 10, 12, 13]
    ensures GoodChar(SpellByte(b)) && CharText(SpellByte(b)) == EscapeByte(b) && CharMeans(SpellByte(b)) == [b]
  {
    hide Code;
    ControlCode(b);
  }

  // The four digits of a control and what they stand for.
  lemma {:induction false} ControlCode(b: byte)
    requires b < 32 && b !in [8, 9, 10, 12, 13]
    ensures SpellByte(b) == Unit([48, 48, 48 + b / 16, HexDigit(b % 16)])
    ensures IsCode([48, 48, 48 + b / 16, HexDigit(b % 16)]) && Code([48, 48, 48 + b / 16, HexDigit(b % 16)]) == b
  {
  }

  lemma {:induction false} BytesSpelled(s: bytes)
    ensures GoodChars(SpellBytes(s)) && CharsText(SpellBytes(s)) == Escape(s) && CharsMean(SpellBytes(s)) == s
    decreases |s|
  {
    hide SpellByte, EscapeByte, CharText, CharMeans, GoodChar;
    if s != [] {
      ByteSpelled(s[0]);
      BytesSpelled(s[1..]);
      assert SpellBytes(s)[1..] == SpellBytes(s[1..]);
      assert [s[0]] + s[1..] == s;
    }
  }

  // Decimal digits, and no zero in front.
  lemma {:induction false} DigitsSpelled(n: nat)
    ensures OnlyDigits(Digits(n)) && Worth(Digits(n)) == n && (Digits(n)[0] == 48 ==> |Digits(n)| == 1)
    decreases n
  {
    if n >= 10 {
      DigitsSpelled(n / 10);
      var front := Digits(n)[..|Digits(n)| - 1];
      assert front == Digits(n / 10);
    }
  }

  lemma {:induction false} IntegerSpelled(n: int)
    requires -TWO63 <= n < TWO64
    ensures var x := Numeral(n < 0, Digits(if n < 0 then -n else n), [], NoExponent);
            GoodNumeral(x) && NumeralText(x) == IntegerText(n) && NumeralMeans(x) == ReadEvent(n)
  {
    hide Digits, Worth, OnlyDigits;
    var m := if n < 0 then -n else n;
    DigitsSpelled(m);
    assert OnlyDigits([]) by { NoDigits(); }
    assert MinusText(n < 0) + Digits(m) + [] + [] == IntegerText(n);
  }

  lemma {:induction false} NoDigits()
    ensures OnlyDigits([])
  {
  }

  lemma {:induction false} SpellIsPrint(v: Node)
    requires Printable(v)
    ensures Good(Spell(v)) && TreeText(Spell(v)) == Print(v) && TreeMeans(Spell(v)) == Events(v, true)
    decreases v, 1
  {
    hide IntegerText, Escape, SpellBytes, GoodNumeral, NumeralText, NumeralMeans, Digits, CharsText, CharsMean,
         SpellItems, SpellFields, PrintElements, PrintMembers, ItemsText, FieldsText, ItemsMean, FieldsMean;
    match v
    case IntegerNode(n, _) => IntegerSpelled(n);
    case StringNode(s) => BytesSpelled(s);
    case ArrayNode(es) =>
      ItemsSpelled(es);
      assert AllBlank([]);
    case ObjectNode(ms) =>
      FieldsSpelled(ms);
      assert AllBlank([]);
    case _ =>
  }

  lemma {:induction false} ItemsSpelled(es: seq<Node>)
    requires forall e <- es :: NoDoubles(e) && AllHonest(e)
    ensures var r := SpellItems(es);
            && (forall i <- r :: GoodItem(i)) && (if es == [] then [] else ItemsText(r)) == PrintElements(es, true)
            && ItemsMean(r) == ElementEvents(es, true)
    decreases es, 0
  {
    hide Spell, Good, TreeText, TreeMeans, Print, Events, NoDoubles, AllHonest, ItemText;
    if es != [] {
      var r, rest := SpellItems(es), SpellItems(es[1..]);
      SpellIsPrint(es[0]);
      ItemsSpelled(es[1..]);
      assert r[1..] == rest;
      BareItem(Spell(es[0]));
      assert ElementText(es[0], true) == Print(es[0]);
      if |es| > 1 { CommaInFront(es[1..]); }
    }
  }

  lemma {:induction false} BareItem(v: Tree)
    requires Good(v)
    ensures GoodItem(Item([], v, [])) && ItemText(Item([], v, [])) == TreeText(v)
  {
    hide TreeText, Good;
  }

  lemma {:induction false} BareField(name: seq<Char>, v: Tree)
    requires Good(v) && GoodChars(name)
    ensures var f := Field([], name, [], [], v, []);
            GoodField(f) && FieldText(f) == QuotedText(name) + [58] + TreeText(v)
  {
    hide TreeText, Good, QuotedText, GoodChars;
  }

  lemma {:induction false} FieldSpelled(m: Member)
    requires NoDoubles(m.value) && AllHonest(m.value)
    ensures var f := Field([], SpellBytes(m.name), [], [], Spell(m.value), []);
            GoodField(f) && FieldText(f) == MemberText(m, true) && FieldMeans(f) == OneMember(m, true)
    decreases m, 2
  {
    hide Spell, Good, TreeText, TreeMeans, Print, Events, NoDoubles, AllHonest, SpellBytes, CharsText, CharsMean,
         Escape, GoodChars;
    assert m.value < m;
    SpellIsPrint(m.value);
    BytesSpelled(m.name);
    BareField(SpellBytes(m.name), Spell(m.value));
  }

  lemma {:induction false} FieldsSpelled(ms: seq<Member>)
    requires forall m <- ms :: NoDoubles(m.value) && AllHonest(m.value)
    ensures var r := SpellFields(ms);
            && (forall f <- r :: GoodField(f)) && (if ms == [] then [] else FieldsText(r)) == PrintMembers(ms, true)
            && FieldsMean(r) == MemberEvents(ms, true)
    decreases ms, 0
  {
    hide Spell, GoodField, FieldText, FieldMeans, MemberText, OneMember, NoDoubles, AllHonest, SpellBytes;
    if ms != [] {
      var r, rest := SpellFields(ms), SpellFields(ms[1..]);
      FieldSpelled(ms[0]);
      FieldsSpelled(ms[1..]);
      assert r[1..] == rest;
      if |ms| > 1 { CommaInFrontOfMember(ms[1..]); }
    }
  }

  /* White space is free */

  // The same value without white space.
  function Stripped(v: Tree): Tree
    decreases v
  {
    match v
    case ArrayTree(_, items) => ArrayTree([], StrippedItems(items))
    case ObjectTree(_, fields) => ObjectTree([], StrippedFields(fields))
    case _ => v
  }

  function StrippedItems(items: seq<Item>): (r: seq<Item>)
    ensures |r| == |items|
    decreases items
  {
    if items == [] then []
    else
      assert items[0].value < items[0];
      [Item([], Stripped(items[0].value), [])] + StrippedItems(items[1..])
  }

  function StrippedFields(fields: seq<Field>): (r: seq<Field>)
    ensures |r| == |fields|
    decreases fields
  {
    if fields == [] then []
    else
      assert fields[0].value < fields[0];
      var f := fields[0];
      [Field([], f.name, [], [], Stripped(f.value), [])] + StrippedFields(fields[1..])
  }

  lemma {:induction false} StrippedMeans(v: Tree)
    requires Good(v)
    ensures Good(Stripped(v)) && TreeMeans(Stripped(v)) == TreeMeans(v)
    decreases v, 1
  {
    hide GoodNumeral, NumeralMeans, GoodChars, CharsMean, StrippedItems, StrippedFields, ItemsMean, FieldsMean;
    match v
    case ArrayTree(_, items) =>
      StrippedItemsMean(items);
      assert AllBlank([]);
    case ObjectTree(_, fields) =>
      StrippedFieldsMean(fields);
      assert AllBlank([]);
    case _ =>
  }

  lemma {:induction false} StrippedItemsMean(items: seq<Item>)
    requires forall i <- items :: GoodItem(i)
    ensures (forall i <- StrippedItems(items) :: GoodItem(i)) && ItemsMean(StrippedItems(items)) == ItemsMean(items)
    decreases items, 0
  {
    hide Good, TreeMeans, Stripped, TreeText;
    if items != [] {
      var r := StrippedItems(items);
      assert GoodItem(items[0]) && items[0].value < items[0];
      StrippedMeans(items[0].value);
      StrippedItemsMean(items[1..]);
      BareItem(Stripped(items[0].value));
      assert r[1..] == StrippedItems(items[1..]);
    }
  }

  lemma {:induction false} StrippedFieldsMean(fields: seq<Field>)
    requires forall f <- fields :: GoodField(f)
    ensures forall f <- StrippedFields(fields) :: GoodField(f)
    ensures FieldsMean(StrippedFields(fields)) == FieldsMean(fields)
    decreases fields, 0
  {
    hide Good, TreeMeans, Stripped, GoodChars, CharsMean, TreeText;
    if fields != [] {
      var f := fields[0];
      var r := StrippedFields(fields);
      assert GoodField(f) && f.value < f;
      StrippedMeans(f.value);
      StrippedFieldsMean(fields[1..]);
      BareField(f.name, Stripped(f.value));
      assert r[1..] == StrippedFields(fields[1..]);
    }
  }

  // Whatever blanks, tabs, line feeds and carriage returns are put before,
  // between and behind the tokens of a printed value: the text is accepted to its
  // end, reports the events that the printed text reports, and builds the value.
  lemma {:induction false} SpacedReads(d: Text, v: Node)
    requires GoodText(d) && Printable(v) && Stripped(d.root) == Spell(v)
    ensures ParsedDocument(Written(d)) == Ok(|Written(d)|, Events(v, true))
    ensures ParsedDocument(Print(v)) == Ok(|Print(v)|, Events(v, true))
    ensures Build([], Events(v, true)) == Some([Reflagged(v)])
  {
    hide ParsedDocument, Good, TreeMeans, TreeText, Stripped, Spell, Printable, Print, Events, Build, AllBlank;
    StrippedMeans(d.root);
    SpellIsPrint(v);
    HoldsItself(d);
    TextReads(Written(d), d);
    PrintedTextParses(v);
    PrintThenParse(v);
  }

  lemma {:induction false} HoldsItself(d: Text)
    ensures Holds(Written(d), d)
  {
    hide Written;
    assert Written(d)[0..|Written(d)|] == Written(d);
  }
}
