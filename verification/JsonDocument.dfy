// The document object model: values with their number flags, the traversal
// that turns a value into handler events, and the stack machine that builds a
// value from handler events.

module JsonDocument {
  import opened Bytes
  import opened JsonTypes
  import opened JsonScan

  datatype Option<+T> = None | Some(value: T)

  datatype NumFlags = NumFlags(isInt: bool, isUint: bool, isInt64: bool, isUint64: bool, isDouble: bool)

  datatype Node =
    | NullNode
    | BoolNode(b: bool)
    | IntegerNode(n: int, flags: NumFlags)
    | DoubleNode(lexeme: bytes)
    | StringNode(str: bytes)
    | ArrayNode(elements: seq<Node>)
    | ObjectNode(members: seq<Member>)

  datatype Member = Member(name: bytes, value: Node)

  // The flags that say of an integer exactly which kinds can hold it.
  function Canonical(n: int): NumFlags {
    NumFlags(-TWO31 <= n < TWO31, 0 <= n < TWO32, -TWO63 <= n < TWO63, 0 <= n < TWO64, false)
  }

  /* The four integer constructors, each with the flags it sets */

  function FromInt(i: int): (v: Node)
    requires -TWO31 <= i < TWO31
  {
    IntegerNode(i, NumFlags(true, i >= 0, true, i >= 0, false))
  }

  function FromUint(u: int): (v: Node)
    requires 0 <= u < TWO32
  {
    IntegerNode(u, NumFlags(u < TWO31, true, true, true, false))
  }

  function FromInt64(i: int): (v: Node)
    requires -TWO63 <= i < TWO63
  {
    if i >= 0 then IntegerNode(i, NumFlags(i < TWO31, i < TWO32, true, true, false))
    else IntegerNode(i, NumFlags(i >= -TWO31, false, true, false, false))
  }

  function FromUint64(u: int): (v: Node)
    requires 0 <= u < TWO64
  {
    IntegerNode(u, NumFlags(u < TWO31, u < TWO32, u < TWO63, true, false))
  }

  datatype ValueType = NullType | FalseType | TrueType | ObjectType | ArrayType | StringType | NumberType

  // The constructor from a type: a value with default content. The default
  // number is zero, and claims every kind at once.
  function OfType(t: ValueType): Node {
    match t
    case NullType => NullNode
    case FalseType => BoolNode(false)
    case TrueType => BoolNode(true)
    case ObjectType => ObjectNode([])
    case ArrayType => ArrayNode([])
    case StringType => StringNode([])
    case NumberType => IntegerNode(0, NumFlags(true, true, true, true, true))
  }

  // The masks by which the constructors test the bits of an integer are bounds on it.
  lemma {:induction false} MaskBounds(u: bv32, v: bv64)
    ensures u & 0x8000_0000 == 0 <==> u < 0x8000_0000
    ensures v & 0x8000_0000_0000_0000 == 0 <==> v < 0x8000_0000_0000_0000
    ensures v & 0xFFFF_FFFF_0000_0000 == 0 <==> v < 0x1_0000_0000
    ensures v & 0xFFFF_FFFF_8000_0000 == 0 <==> v < 0x8000_0000
  {
  }

  // No flag claims a kind that cannot hold the integer, and some kind is claimed.
  predicate Honest(n: int, f: NumFlags) {
    && (f.isInt ==> -TWO31 <= n < TWO31)
    && (f.isUint ==> 0 <= n < TWO32)
    && (f.isInt64 ==> -TWO63 <= n < TWO63)
    && (f.isUint64 ==> 0 <= n < TWO64)
    && (f.isInt || f.isUint || f.isInt64 || f.isUint64)
  }

  /* Traversal */

  // The event by which a document reports an integer: the first kind flagged.
  function FlagEvent(n: int, f: NumFlags): Event {
    if f.isInt then Int(n) else if f.isUint then Uint(n) else if f.isInt64 then Int64(n) else Uint64(n)
  }

  // The event by which the reader reports an integer token.
  function ReadEvent(n: int): Event {
    if n < 0 then IntegerEvent(true, -n) else IntegerEvent(false, n)
  }

  // The events of a value: as Accept emits them, or (asRead) as the reader
  // emits them for the text of the value.
  function Events(v: Node, asRead: bool): (l: Log)
    ensures l != []
    decreases v
  {
    match v
    case NullNode => [Null]
    case BoolNode(b) => [Bool(b)]
    case IntegerNode(n, f) => [if asRead then ReadEvent(n) else FlagEvent(n, f)]
    case DoubleNode(x) => [Double(x)]
    case StringNode(s) => [String(s)]
    case ArrayNode(es) => [StartArray] + ElementEvents(es, asRead) + [EndArray(|es|)]
    case ObjectNode(ms) => [StartObject] + MemberEvents(ms, asRead) + [EndObject(|ms|)]
  }

  function ElementEvents(es: seq<Node>, asRead: bool): Log
    decreases es
  {
    if es == [] then [] else Events(es[0], asRead) + ElementEvents(es[1..], asRead)
  }

  function MemberEvents(ms: seq<Member>, asRead: bool): Log
    decreases ms
  {
    if ms == [] then []
    else OneMember(ms[0], asRead) + MemberEvents(ms[1..], asRead)
  }

  function OneMember(m: Member, asRead: bool): Log
    decreases m
  {
    [Key(m.name)] + Events(m.value, asRead)
  }

  function Accept(v: Node): Log { Events(v, false) }

  /* Building */

  // The members that lie on the stack as names and values in turn.
  function Pairs(st: seq<Node>): Option<seq<Member>>
    decreases |st|
  {
    if st == [] then Some([])
    else if |st| == 1 || !st[0].StringNode? then None
    else
      match Pairs(st[2..])
      case None => None
      case Some(ms) => Some([Member(st[0].str, st[1])] + ms)
  }

  // The stack behind one handler call; None where the call would pop what is not there.
  function Handle(st: seq<Node>, e: Event): Option<seq<Node>> {
    match e
    case Null => Some(st + [NullNode])
    case Bool(b) => Some(st + [BoolNode(b)])
    case Int(i) => if -TWO31 <= i < TWO31 then Some(st + [FromInt(i)]) else None
    case Uint(u) => if 0 <= u < TWO32 then Some(st + [FromUint(u)]) else None
    case Int64(i) => if -TWO63 <= i < TWO63 then Some(st + [FromInt64(i)]) else None
    case Uint64(u) => if 0 <= u < TWO64 then Some(st + [FromUint64(u)]) else None
    case Double(x) => Some(st + [DoubleNode(x)])
    case String(s) => Some(st + [StringNode(s)])
    case Key(s) => Some(st + [StringNode(s)])
    case StartObject => Some(st + [ObjectNode([])])
    case StartArray => Some(st + [ArrayNode([])])
    case EndObject(n) =>
      if |st| < 2 * n + 1 then None
      else
        var base := |st| - 2 * n;
        var ms := Pairs(st[base..]);
        if ms.None? then None else Some(st[..base - 1] + [ObjectNode(ms.value)])
    case EndArray(n) =>
      if |st| < n + 1 then None
      else
        var base := |st| - n;
        Some(st[..base - 1] + [ArrayNode(st[base..])])
  }

  function Build(st: seq<Node>, l: Log): Option<seq<Node>>
    decreases |l|
  {
    if l == [] then Some(st)
    else
      match Handle(st, l[0])
      case None => None
      case Some(s) => Build(s, l[1..])
  }

  // The handler side of a document: its stack, updated in place.
  class Document {
    var stack: seq<Node>

    constructor ()
      ensures stack == []
    {
      stack := [];
    }

    method OnScalar(e: Event)
      requires !e.EndObject? && !e.EndArray? && Handle(stack, e).Some?
      modifies this
      ensures Some(stack) == Handle(old(stack), e)
    {
      var v := match e
        case Null => NullNode
        case Bool(b) => BoolNode(b)
        case Int(i) => FromInt(i)
        case Uint(u) => FromUint(u)
        case Int64(i) => FromInt64(i)
        case Uint64(u) => FromUint64(u)
        case Double(x) => DoubleNode(x)
        case String(s) => StringNode(s)
        case Key(s) => StringNode(s)
        case StartObject => ObjectNode([])
        case _ => ArrayNode([]);
      stack := stack + [v];
    }

    method OnEndArray(n: nat)
      requires |stack| >= n + 1
      modifies this
      ensures Some(stack) == Handle(old(stack), EndArray(n))
    {
      hide Pairs;
      var elements := stack[|stack| - n..];
      stack := stack[..|stack| - n];
      stack := stack[..|stack| - 1] + [ArrayNode(elements)];
      assert stack == old(stack)[..|old(stack)| - n - 1] + [ArrayNode(elements)];
    }

    // The popped names and values are taken as members as they lie there.
    method OnEndObject(n: nat)
      requires |stack| >= 2 * n + 1 && Pairs(stack[|stack| - 2 * n..]).Some?
      modifies this
      ensures Some(stack) == Handle(old(stack), EndObject(n))
    {
      var members := Pairs(stack[|stack| - 2 * n..]).value;
      stack := stack[..|stack| - 2 * n];
      stack := stack[..|stack| - 1] + [ObjectNode(members)];
      assert stack == old(stack)[..|old(stack)| - 2 * n - 1] + [ObjectNode(members)];
    }

    // Runs a whole event sequence through the handler.
    method Consume(l: Log)
      requires Build(stack, l).Some?
      modifies this
      ensures Some(stack) == Build(old(stack), l)
    {
      var i := 0;
      while i < |l|
        invariant 0 <= i <= |l|
        invariant Build(stack, l[i..]) == Build(old(stack), l)
      {
        var e := l[i];
        assert l[i..][1..] == l[i + 1..];
        match e {
          case EndObject(n) => OnEndObject(n);
          case EndArray(n) => OnEndArray(n);
          case _ => OnScalar(e);
        }
        i := i + 1;
      }
      assert l[i..] == [];
    }
  }

  /* Faithfulness */

  // Every integer of a value is honestly flagged.
  predicate AllHonest(v: Node) {
    match v
    case IntegerNode(n, f) => Honest(n, f)
    case ArrayNode(es) => forall e <- es :: AllHonest(e)
    case ObjectNode(ms) => forall m <- ms :: AllHonest(m.value)
    case _ => true
  }

  // The same value with the flags that its integers call for.
  function Reflagged(v: Node): Node {
    match v
    case IntegerNode(n, f) => IntegerNode(n, Canonical(n))
    case ArrayNode(es) => ArrayNode(ReflaggedElements(es))
    case ObjectNode(ms) => ObjectNode(ReflaggedMembers(ms))
    case _ => v
  }

  function ReflaggedElements(es: seq<Node>): (r: seq<Node>)
    ensures |r| == |es|
    decreases es
  {
    if es == [] then [] else [Reflagged(es[0])] + ReflaggedElements(es[1..])
  }

  function ReflaggedMembers(ms: seq<Member>): (r: seq<Member>)
    ensures |r| == |ms|
    decreases ms
  {
    if ms == [] then []
    else
      assert ms[0].value < ms[0];
      [Member(ms[0].name, Reflagged(ms[0].value))] + ReflaggedMembers(ms[1..])
  }

  // Names and values as they lie on the stack.
  function Flat(ms: seq<Member>): (st: seq<Node>)
    ensures |st| == 2 * |ms|
  {
    if ms == [] then [] else [StringNode(ms[0].name), ms[0].value] + Flat(ms[1..])
  }

  lemma {:induction false} PairsOfFlat(ms: seq<Member>)
    ensures Pairs(Flat(ms)) == Some(ms)
    decreases |ms|
  {
    if ms != [] {
      var st := Flat(ms);
      assert |st| >= 2 && st[0] == StringNode(ms[0].name) && st[1] == ms[0].value;
      assert st[2..] == Flat(ms[1..]);
      PairsOfFlat(ms[1..]);
      assert Pairs(st).value == [ms[0]] + ms[1..] == ms;
    }
  }

  lemma {:induction false} BuildConcat(st: seq<Node>, a: Log, b: Log)
    ensures Build(st, a + b) == match Build(st, a) case None => None case Some(s) => Build(s, b)
    decreases |a|
  {
    if a == [] {
      assert a + b == b;
    } else {
      assert (a + b)[0] == a[0] && (a + b)[1..] == a[1..] + b;
      match Handle(st, a[0])
      case None =>
      case Some(s) => BuildConcat(s, a[1..], b);
    }
  }

  lemma {:induction false} BuildNothing(st: seq<Node>)
    ensures Build(st, []) == Some(st)
  {
  }

  lemma {:induction false} BuildOne(st: seq<Node>, e: Event)
    ensures Build(st, [e]) == Handle(st, e)
  {
    if Handle(st, e).Some? {
      assert Build(Handle(st, e).value, []) == Handle(st, e);
    }
  }

  // Whatever kind an integer is reported as, the same node is built.
  lemma {:induction false} IntegerBuilds(st: seq<Node>, n: int, f: NumFlags, asRead: bool)
    requires Honest(n, f)
    ensures Build(st, [if asRead then ReadEvent(n) else FlagEvent(n, f)]) == Some(st + [IntegerNode(n, Canonical(n))])
  {
    BuildOne(st, if asRead then ReadEvent(n) else FlagEvent(n, f));
  }

  // Events between a start and an end, run from the stack behind the start.
  lemma {:induction false} BracketBuilds(st: seq<Node>, open: Event, inner: Log, close: Event, mid: seq<Node>)
    requires Handle(st, open).Some? && Build(Handle(st, open).value, inner) == Some(mid)
    ensures Build(st, [open] + inner + [close]) == Handle(mid, close)
  {
    BuildOne(st, open);
    BuildConcat(st, [open], inner);
    BuildConcat(st, [open] + inner, [close]);
    BuildOne(mid, close);
  }

  lemma {:induction false} ArrayBuilds(st: seq<Node>, es: seq<Node>, asRead: bool)
    requires Build(st + [ArrayNode([])], ElementEvents(es, asRead))
          == Some(st + [ArrayNode([])] + ReflaggedElements(es))
    ensures Build(st, Events(ArrayNode(es), asRead)) == Some(st + [Reflagged(ArrayNode(es))])
  {
    var full := st + [ArrayNode([])] + ReflaggedElements(es);
    BracketBuilds(st, StartArray, ElementEvents(es, asRead), EndArray(|es|), full);
    assert full[|full| - |es|..] == ReflaggedElements(es);
    assert full[..|full| - |es| - 1] == st;
  }

  lemma {:induction false} ObjectBuilds(st: seq<Node>, ms: seq<Member>, asRead: bool)
    requires Build(st + [ObjectNode([])], MemberEvents(ms, asRead))
          == Some(st + [ObjectNode([])] + Flat(ReflaggedMembers(ms)))
    ensures Build(st, Events(ObjectNode(ms), asRead)) == Some(st + [Reflagged(ObjectNode(ms))])
  {
    hide Build, Flat, ReflaggedMembers, MemberEvents;
    var full := st + [ObjectNode([])] + Flat(ReflaggedMembers(ms));
    BracketBuilds(st, StartObject, MemberEvents(ms, asRead), EndObject(|ms|), full);
    ObjectCloses(st, ReflaggedMembers(ms));
  }

  // The names and values on top become the members of the object below.
  lemma {:induction false} ObjectCloses(st: seq<Node>, ms: seq<Member>)
    ensures Handle(st + [ObjectNode([])] + Flat(ms), EndObject(|ms|)) == Some(st + [ObjectNode(ms)])
  {
    hide Flat, Pairs;
    var full := st + [ObjectNode([])] + Flat(ms);
    PairsOfFlat(ms);
    assert full[|full| - 2 * |ms|..] == Flat(ms);
    assert full[..|full| - 2 * |ms| - 1] == st;
  }

  // The events of a value push exactly that value.
  lemma {:induction false} EventsBuild(st: seq<Node>, v: Node, asRead: bool)
    requires AllHonest(v)
    ensures Build(st, Events(v, asRead)) == Some(st + [Reflagged(v)])
    decreases v, 1
  {
    match v
    case IntegerNode(n, f) => IntegerBuilds(st, n, f, asRead);
    case ArrayNode(es) =>
      ElementEventsBuild(st + [ArrayNode([])], es, asRead);
      ArrayBuilds(st, es, asRead);
    case ObjectNode(ms) =>
      MemberEventsBuild(st + [ObjectNode([])], ms, asRead);
      ObjectBuilds(st, ms, asRead);
    case _ => BuildOne(st, Events(v, asRead)[0]);
  }

  lemma {:induction false} ElementEventsBuild(st: seq<Node>, es: seq<Node>, asRead: bool)
    requires forall e <- es :: AllHonest(e)
    ensures Build(st, ElementEvents(es, asRead)) == Some(st + ReflaggedElements(es))
    decreases es, 0
  {
    hide Build, Events, Reflagged, AllHonest;
    if es == [] {
      assert st + [] == st;
      BuildNothing(st);
    } else {
      EventsBuild(st, es[0], asRead);
      ElementEventsBuild(st + [Reflagged(es[0])], es[1..], asRead);
      OneMoreBuilds(st, Events(es[0], asRead), Reflagged(es[0]), ElementEvents(es[1..], asRead),
                    ReflaggedElements(es[1..]));
    }
  }

  // Two event sequences, of which the second builds on the node of the first.
  lemma {:induction false} OneMoreBuilds(st: seq<Node>, a: Log, x: Node, b: Log, rest: seq<Node>)
    requires Build(st, a) == Some(st + [x]) && Build(st + [x], b) == Some(st + [x] + rest)
    ensures Build(st, a + b) == Some(st + ([x] + rest))
  {
    hide Build;
    BuildConcat(st, a, b);
    assert st + [x] + rest == st + ([x] + rest);
  }

  lemma {:induction false} MemberEventsBuild(st: seq<Node>, ms: seq<Member>, asRead: bool)
    requires forall m <- ms :: AllHonest(m.value)
    ensures Build(st, MemberEvents(ms, asRead)) == Some(st + Flat(ReflaggedMembers(ms)))
    decreases ms, 0
  {
    hide Build, Events, OneMember, Reflagged;
    if ms == [] {
      assert st + [] == st;
      BuildNothing(st);
    } else {
      var name, value := StringNode(ms[0].name), Reflagged(ms[0].value);
      assert ms[0].value < ms[0];
      EventsBuild(st + [name], ms[0].value, asRead);
      MemberBuilds(st, ms[0], asRead);
      BuildConcat(st, OneMember(ms[0], asRead), MemberEvents(ms[1..], asRead));
      MemberEventsBuild(st + [name, value], ms[1..], asRead);
      assert st + [name, value] + Flat(ReflaggedMembers(ms[1..])) == st + Flat(ReflaggedMembers(ms));
    }
  }

  lemma {:induction false} MemberBuilds(st: seq<Node>, m: Member, asRead: bool)
    requires Build(st + [StringNode(m.name)], Events(m.value, asRead))
          == Some(st + [StringNode(m.name)] + [Reflagged(m.value)])
    ensures Build(st, OneMember(m, asRead))
         == Some(st + [StringNode(m.name), Reflagged(m.value)])
  {
    BuildOne(st, Key(m.name));
    BuildConcat(st, [Key(m.name)], Events(m.value, asRead));
    assert st + [StringNode(m.name)] + [Reflagged(m.value)] == st + [StringNode(m.name), Reflagged(m.value)];
  }

  // Every integer carries exactly the flags its value calls for.
  predicate AllCanonical(v: Node) {
    match v
    case IntegerNode(n, f) => f == Canonical(n)
    case ArrayNode(es) => forall e <- es :: AllCanonical(e)
    case ObjectNode(ms) => forall m <- ms :: AllCanonical(m.value)
    case _ => true
  }

  lemma {:induction false} ReflaggedIsSame(v: Node)
    ensures Reflagged(v) == v <==> AllCanonical(v)
    decreases v, 1
  {
    match v
    case ArrayNode(es) => ReflaggedElementsSame(es);
    case ObjectNode(ms) => ReflaggedMembersSame(ms);
    case _ =>
  }

  lemma {:induction false} ReflaggedElementsSame(es: seq<Node>)
    ensures ReflaggedElements(es) == es <==> forall e <- es :: AllCanonical(e)
    decreases es, 0
  {
    if es != [] {
      ReflaggedIsSame(es[0]);
      ReflaggedElementsSame(es[1..]);
      assert es == [es[0]] + es[1..];
      assert forall e <- es[1..] :: e in es;
    }
  }

  lemma {:induction false} ReflaggedMembersSame(ms: seq<Member>)
    ensures ReflaggedMembers(ms) == ms <==> forall m <- ms :: AllCanonical(m.value)
    decreases ms, 0
  {
    if ms != [] {
      assert ms[0].value < ms[0];
      ReflaggedIsSame(ms[0].value);
      ReflaggedMembersSame(ms[1..]);
      assert ms == [ms[0]] + ms[1..];
      assert forall m <- ms[1..] :: m in ms;
    }
  }

  // The copy constructor: containers go through the event stream, everything
  // else is copied as it is.
  function DeepCopy(v: Node): Option<Node> {
    if v.ArrayNode? || v.ObjectNode? then
      match Build([], Accept(v))
      case None => None
      case Some(st) => if |st| == 1 then Some(st[0]) else None
    else Some(v)
  }

  // A deep copy leaves one root, equal to the original in everything but the
  // number flags of its inner integers; those depend on the integers alone.
  lemma {:induction false} DeepCopyIsFaithful(v: Node)
    requires AllHonest(v)
    ensures Build([], Accept(v)) == Some([Reflagged(v)])
    ensures v.ArrayNode? || v.ObjectNode? ==>
              DeepCopy(v) == Some(Reflagged(v)) && (DeepCopy(v) == Some(v) <==> AllCanonical(v))
  {
    EventsBuild([], v, false);
    assert [] + [Reflagged(v)] == [Reflagged(v)];
    ReflaggedIsSame(v);
  }

  // Among the constructors only the default number is flagged otherwise than its
  // integer calls for.
  lemma {:induction false} ConstructorsFlag(t: ValueType, i: int, u: int)
    requires -TWO63 <= i < TWO63 && 0 <= u < TWO64
    ensures AllHonest(OfType(t)) && (AllCanonical(OfType(t)) <==> t != NumberType)
    ensures AllCanonical(FromInt64(i)) && AllCanonical(FromUint64(u))
    ensures -TWO31 <= i < TWO31 ==> AllCanonical(FromInt(i))
    ensures u < TWO32 ==> AllCanonical(FromUint(u))
  {
  }

  // An array that holds the default number is copied as an array that holds an
  // integer: the copy does not say any more that its number is a double.
  lemma {:induction false} DefaultNumberChanges()
    ensures var v := ArrayNode([OfType(NumberType)]);
            && AllHonest(v) && !AllCanonical(v)
            && DeepCopy(v) == Some(ArrayNode([FromInt(0)])) && DeepCopy(v) != Some(v)
            && v.elements[0].flags.isDouble && !FromInt(0).flags.isDouble
  {
    hide DeepCopy;
    var v := ArrayNode([OfType(NumberType)]);
    DeepCopyIsFaithful(v);
    assert v.elements[1..] == [];
    assert ReflaggedElements(v.elements) == [FromInt(0)];
  }

  // A number built from an integer claims a kind exactly if that kind holds it.
  lemma {:induction false} FlagsSay(v: Node, i: int, u: int)
    requires -0x8000_0000_0000_0000 <= i < 0x8000_0000_0000_0000 && 0 <= u < 0x1_0000_0000_0000_0000
    requires || v == FromInt64(i) || v == FromUint64(u)
             || (-0x8000_0000 <= i < 0x8000_0000 && v == FromInt(i)) || (u < 0x1_0000_0000 && v == FromUint(u))
    ensures v.IntegerNode? && (v.n == i || v.n == u) && !v.flags.isDouble
    ensures v.flags.isInt <==> -0x8000_0000 <= v.n < 0x8000_0000
    ensures v.flags.isUint <==> 0 <= v.n < 0x1_0000_0000
    ensures v.flags.isInt64 <==> -0x8000_0000_0000_0000 <= v.n < 0x8000_0000_0000_0000
    ensures v.flags.isUint64 <==> 0 <= v.n < 0x1_0000_0000_0000_0000
  {
  }
}
