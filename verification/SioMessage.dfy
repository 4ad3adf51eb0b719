// Socket.IO messages: trees whose binary leaves are lifted out into a list of
// attachments when a message is turned into a document, and put back when it
// is read from one.

module SioMessage {
  import opened Bytes
  import opened JsonTypes
  import opened JsonDocument

  // A message; Absent stands for an empty message pointer. An object is kept in
  // the iteration order of its map, that is, by strictly ascending key.
  datatype Message =
    | Absent
    | IntMsg(i: int)
    | DoubleMsg(lexeme: bytes)
    | StringMsg(str: bytes)
    | BoolMsg(b: bool)
    | NullMsg
    | BinaryMsg(data: bytes)
    | ArrayMsg(items: seq<Message>)
    | ObjectMsg(entries: seq<Entry>)

  datatype Entry = Entry(key: bytes, value: Message)

  // The order of std::string.
  predicate Less(a: bytes, b: bytes) {
    if b == [] then false
    else if a == [] then true
    else if a[0] != b[0] then a[0] < b[0]
    else Less(a[1..], b[1..])
  }

  // The map behind m[key] = value.
  function Insert(es: seq<Entry>, key: bytes, value: Message): seq<Entry> {
    if es == [] then [Entry(key, value)]
    else if key == es[0].key then [Entry(key, value)] + es[1..]
    else if Less(key, es[0].key) then [Entry(key, value)] + es
    else [es[0]] + Insert(es[1..], key, value)
  }

  const PLACEHOLDER: bytes := [95, 112, 108, 97, 99, 101, 104, 111, 108, 100, 101, 114]
  const NUM: bytes := [110, 117, 109]

  // A size cast to a 32-bit int.
  function ToInt32(n: nat): (i: int)
    ensures -TWO31 <= i < TWO31
    ensures n < TWO31 ==> i == n
  {
    var m := n % TWO32;
    if m < TWO31 then m else m - TWO32
  }

  // What stands in the document for attachment number n.
  function Placeholder(n: nat): Node {
    ObjectNode([Member(PLACEHOLDER, BoolNode(true)), Member(NUM, FromInt(ToInt32(n)))])
  }

  // Integers are held in 64 bits.
  predicate Sized(m: Message) {
    match m
    case IntMsg(i) => -TWO63 <= i < TWO63
    case ArrayMsg(xs) => forall x <- xs :: Sized(x)
    case ObjectMsg(es) => forall e <- es :: Sized(e.value)
    case _ => true
  }

  /* Message to document */

  // The document of a message when n attachments came before it.
  function ToNode(m: Message, n: nat): Node
    requires Sized(m)
    decreases m
  {
    match m
    case Absent => NullNode
    case IntMsg(i) => FromInt64(i)
    case DoubleMsg(x) => DoubleNode(x)
    case StringMsg(s) => StringNode(s)
    case BoolMsg(b) => BoolNode(b)
    case NullMsg => NullNode
    case BinaryMsg(_) => Placeholder(n)
    case ArrayMsg(xs) => ArrayNode(ToElements(xs, n))
    case ObjectMsg(es) => ObjectNode(ToMembers(es, n))
  }

  function ToElements(xs: seq<Message>, n: nat): (r: seq<Node>)
    requires forall x <- xs :: Sized(x)
    ensures |r| == |xs|
    decreases xs
  {
    if xs == [] then [] else [ToNode(xs[0], n)] + ToElements(xs[1..], n + |Binaries(xs[0])|)
  }

  function ToMembers(es: seq<Entry>, n: nat): (r: seq<Member>)
    requires forall e <- es :: Sized(e.value)
    ensures |r| == |es|
    decreases es
  {
    if es == [] then []
    else
      assert es[0].value < es[0];
      [Member(es[0].key, ToNode(es[0].value, n))] + ToMembers(es[1..], n + |Binaries(es[0].value)|)
  }

  // The binary leaves of a message in the order of traversal.
  function Binaries(m: Message): seq<bytes>
    decreases m
  {
    match m
    case BinaryMsg(d) => [d]
    case ArrayMsg(xs) => ItemBinaries(xs)
    case ObjectMsg(es) => EntryBinaries(es)
    case _ => []
  }

  function ItemBinaries(xs: seq<Message>): seq<bytes>
    decreases xs
  {
    if xs == [] then [] else Binaries(xs[0]) + ItemBinaries(xs[1..])
  }

  function EntryBinaries(es: seq<Entry>): seq<bytes>
    decreases es
  {
    if es == [] then []
    else
      assert es[0].value < es[0];
      Binaries(es[0].value) + EntryBinaries(es[1..])
  }

  // The attachment list, grown in place while a message is turned into a document.
  class Attachments {
    var buffers: seq<bytes>

    constructor ()
      ensures buffers == []
    {
      buffers := [];
    }

    method AcceptBinary(data: bytes) returns (v: Node)
      modifies this
      ensures v == Placeholder(|old(buffers)|) && buffers == old(buffers) + [data]
    {
      v := ObjectNode([Member(PLACEHOLDER, BoolNode(true)), Member(NUM, FromInt(ToInt32(|buffers|)))]);
      buffers := buffers + [data];
    }

    method AcceptArray(xs: seq<Message>) returns (v: Node)
      requires forall x <- xs :: Sized(x)
      modifies this
      ensures v == ArrayNode(ToElements(xs, |old(buffers)|))
      ensures buffers == old(buffers) + ItemBinaries(xs)
      decreases xs, 0
    {
      hide ToNode, Binaries, ToElements, ItemBinaries;
      var elements: seq<Node> := [];
      var i := 0;
      assert xs[0..] == xs && forall s: seq<Node> :: [] + s == s;
      while i < |xs|
        invariant 0 <= i <= |xs|
        invariant elements + ToElements(xs[i..], |buffers|) == ToElements(xs, |old(buffers)|)
        invariant buffers + ItemBinaries(xs[i..]) == old(buffers) + ItemBinaries(xs)
      {
        ItemTurn(xs, i, elements, buffers);
        var child := AcceptMessage(xs[i]);
        elements := elements + [child];
        i := i + 1;
      }
      assert xs[i..] == [];
      ItemsDone(|buffers|);
      assert elements + [] == elements && buffers + [] == buffers;
      v := ArrayNode(elements);
    }

    method AcceptObject(es: seq<Entry>) returns (v: Node)
      requires forall e <- es :: Sized(e.value)
      modifies this
      ensures v == ObjectNode(ToMembers(es, |old(buffers)|))
      ensures buffers == old(buffers) + EntryBinaries(es)
      decreases es, 0
    {
      hide ToNode, Binaries, ToMembers, EntryBinaries;
      var members: seq<Member> := [];
      var i := 0;
      assert es[0..] == es && forall s: seq<Member> :: [] + s == s;
      while i < |es|
        invariant 0 <= i <= |es|
        invariant members + ToMembers(es[i..], |buffers|) == ToMembers(es, |old(buffers)|)
        invariant buffers + EntryBinaries(es[i..]) == old(buffers) + EntryBinaries(es)
      {
        EntryTurn(es, i, members, buffers);
        assert es[i].value < es[i];
        var child := AcceptMessage(es[i].value);
        members := members + [Member(es[i].key, child)];
        i := i + 1;
      }
      assert es[i..] == [];
      ItemsDone(|buffers|);
      assert members + [] == members && buffers + [] == buffers;
      v := ObjectNode(members);
    }

    method AcceptMessage(m: Message) returns (v: Node)
      requires Sized(m)
      modifies this
      ensures v == ToNode(m, |old(buffers)|) && buffers == old(buffers) + Binaries(m)
      decreases m, 1
    {
      match m
      case IntMsg(i) => v := FromInt64(i);
      case DoubleMsg(x) => v := DoubleNode(x);
      case StringMsg(s) => v := StringNode(s);
      case BoolMsg(b) => v := BoolNode(b);
      case BinaryMsg(d) => v := AcceptBinary(d);
      case ArrayMsg(xs) => v := AcceptArray(xs);
      case ObjectMsg(es) => v := AcceptObject(es);
      case _ => v := NullNode;
    }
  }

  lemma {:induction false} ItemsDone(n: nat)
    ensures ToElements([], n) == [] && ItemBinaries([]) == []
    ensures ToMembers([], n) == [] && EntryBinaries([]) == []
  {
  }

  // One turn of the loop over the items of an array.
  lemma {:induction false} ItemTurn(xs: seq<Message>, i: nat, done: seq<Node>, bufs: seq<bytes>)
    requires i < |xs| && forall x <- xs :: Sized(x)
    ensures var b := bufs + Binaries(xs[i]);
            && done + ToElements(xs[i..], |bufs|) == done + [ToNode(xs[i], |bufs|)] + ToElements(xs[i + 1..], |b|)
            && bufs + ItemBinaries(xs[i..]) == b + ItemBinaries(xs[i + 1..])
  {
    hide ToNode, Binaries;
    assert xs[i..][0] == xs[i] && xs[i..][1..] == xs[i + 1..];
  }

  // One turn of the loop over the entries of an object.
  lemma {:induction false} EntryTurn(es: seq<Entry>, i: nat, done: seq<Member>, bufs: seq<bytes>)
    requires i < |es| && forall e <- es :: Sized(e.value)
    ensures var b := bufs + Binaries(es[i].value);
            && done + ToMembers(es[i..], |bufs|)
            == done + [Member(es[i].key, ToNode(es[i].value, |bufs|))] + ToMembers(es[i + 1..], |b|)
            && bufs + EntryBinaries(es[i..]) == b + EntryBinaries(es[i + 1..])
  {
    hide ToNode, Binaries;
    assert es[i..][0] == es[i] && es[i..][1..] == es[i + 1..];
  }

  /* Document to message */

  function FindMember(ms: seq<Member>, name: bytes): (r: Option<Node>)
    ensures r.Some? ==> exists m <- ms :: m.name == name && m.value == r.value
    ensures r.None? ==> forall m <- ms :: m.name != name
  {
    if ms == [] then None
    else if ms[0].name == name then Some(ms[0].value)
    else FindMember(ms[1..], name)
  }

  // The attachment a placeholder object asks for; None where a type assertion
  // of the document would fail, Absent for a number out of range.
  function FromPlaceholder(ms: seq<Member>, bufs: seq<bytes>): Option<Message> {
    match FindMember(ms, NUM)
    case Some(IntegerNode(n, f)) =>
      if !f.isInt then None
      else if 0 <= n < ToInt32(|bufs|) && n < |bufs| then Some(BinaryMsg(bufs[n]))
      else Some(Absent)
    case _ => None
  }

  function FromNode(v: Node, bufs: seq<bytes>): Option<Message>
    decreases v
  {
    match v
    case IntegerNode(n, f) =>
      Some(if f.isInt64 then IntMsg(n) else if f.isDouble then DoubleMsg([]) else Absent)
    case DoubleNode(x) => Some(DoubleMsg(x))
    case StringNode(s) => Some(StringMsg(s))
    case ArrayNode(es) =>
      (match FromElements(es, bufs)
       case None => None
       case Some(xs) => Some(ArrayMsg(xs)))
    case ObjectNode(ms) =>
      (match FindMember(ms, PLACEHOLDER)
       case Some(BoolNode(true)) => FromPlaceholder(ms, bufs)
       case Some(BoolNode(false)) => FromObject(ms, bufs)
       case Some(_) => None
       case None => FromObject(ms, bufs))
    case BoolNode(b) => Some(BoolMsg(b))
    case NullNode => Some(NullMsg)
  }

  function FromElements(es: seq<Node>, bufs: seq<bytes>): (r: Option<seq<Message>>)
    ensures r.Some? ==> |r.value| == |es|
    decreases es
  {
    if es == [] then Some([])
    else
      match (FromNode(es[0], bufs), FromElements(es[1..], bufs))
      case (Some(x), Some(xs)) => Some([x] + xs)
      case _ => None
  }

  function FromObject(ms: seq<Member>, bufs: seq<bytes>): Option<Message>
    decreases ms, 1
  {
    match FromMembers(ms, bufs, [])
    case None => None
    case Some(es) => Some(ObjectMsg(es))
  }

  // Members are inserted into the map one by one; a repeated name overwrites.
  function FromMembers(ms: seq<Member>, bufs: seq<bytes>, acc: seq<Entry>): Option<seq<Entry>>
    decreases ms, 0
  {
    if ms == [] then Some(acc)
    else
      assert ms[0].value < ms[0];
      match FromNode(ms[0].value, bufs)
      case None => None
      case Some(x) => FromMembers(ms[1..], bufs, Insert(acc, ms[0].name, x))
  }

  /* Lifting and restoring */

  // Keys ascend strictly, as in every map.
  predicate Ascending(es: seq<Entry>) {
    forall i, j :: 0 <= i < j < |es| ==> Less(es[i].key, es[j].key)
  }

  // A message that the code can hold: sized integers, sorted maps, no empty
  // pointer inside.
  predicate Wf(m: Message) {
    match m
    case Absent => false
    case IntMsg(i) => -TWO63 <= i < TWO63
    case ArrayMsg(xs) => forall x <- xs :: Wf(x)
    case ObjectMsg(es) => Ascending(es) && forall e <- es :: Wf(e.value)
    case _ => true
  }

  // No object of the message could be mistaken for a placeholder.
  predicate Genuine(m: Message) {
    match m
    case ArrayMsg(xs) => forall x <- xs :: Genuine(x)
    case ObjectMsg(es) =>
      forall e <- es :: Genuine(e.value) && (e.key == PLACEHOLDER ==> e.value == BoolMsg(false))
    case _ => true
  }

  lemma LessIrreflexive(a: bytes)
    ensures !Less(a, a)
  {
  }

  lemma {:induction false} LessAsymmetric(a: bytes, b: bytes)
    requires Less(a, b)
    ensures !Less(b, a) && a != b
  {
    if a != [] && a[0] == b[0] {
      LessAsymmetric(a[1..], b[1..]);
    }
  }

  // A key above all others goes to the end.
  lemma {:induction false} InsertLast(es: seq<Entry>, key: bytes, value: Message)
    requires forall e <- es :: Less(e.key, key)
    ensures Insert(es, key, value) == es + [Entry(key, value)]
    decreases |es|
  {
    if es == [] {
    } else {
      assert es[0] in es;
      LessAsymmetric(es[0].key, key);
      InsertLast(es[1..], key, value);
      assert [es[0]] + (es[1..] + [Entry(key, value)]) == es + [Entry(key, value)];
    }
  }

  // The attachments of a message lie in the list from number n on.
  predicate Lifted(m: Message, n: nat, bufs: seq<bytes>) {
    n + |Binaries(m)| <= |bufs| < TWO31 && bufs[n..n + |Binaries(m)|] == Binaries(m)
  }

  predicate LiftedItems(xs: seq<Message>, n: nat, bufs: seq<bytes>) {
    n + |ItemBinaries(xs)| <= |bufs| < TWO31 && bufs[n..n + |ItemBinaries(xs)|] == ItemBinaries(xs)
  }

  predicate LiftedEntries(es: seq<Entry>, n: nat, bufs: seq<bytes>) {
    n + |EntryBinaries(es)| <= |bufs| < TWO31 && bufs[n..n + |EntryBinaries(es)|] == EntryBinaries(es)
  }

  lemma {:induction false} SliceSplit(bufs: seq<bytes>, n: nat, a: seq<bytes>, b: seq<bytes>)
    requires n + |a + b| <= |bufs| && bufs[n..n + |a + b|] == a + b
    ensures bufs[n..n + |a|] == a && bufs[n + |a|..n + |a| + |b|] == b
  {
    var s := bufs[n..n + |a + b|];
    assert s[..|a|] == a && s[|a|..] == b;
    assert bufs[n..n + |a|] == s[..|a|];
    assert bufs[n + |a|..n + |a| + |b|] == s[|a|..];
  }

  lemma {:induction false} PlaceholderReads(n: nat, bufs: seq<bytes>)
    requires n < |bufs| < TWO31
    ensures FromNode(Placeholder(n), bufs) == Some(BinaryMsg(bufs[n]))
  {
    var ms := Placeholder(n).members;
    assert FindMember(ms, PLACEHOLDER) == Some(BoolNode(true));
    assert ms[1..] == [Member(NUM, FromInt(ToInt32(n)))];
    assert |PLACEHOLDER| == 12 && |NUM| == 3;
    assert FindMember(ms[1..], NUM) == Some(FromInt(n));
    assert FindMember(ms, NUM) == Some(FromInt(n));
  }

  // Whatever was attached before or is attached after, a lifted message is
  // restored exactly when no object in it looks like a placeholder.
  lemma {:induction false} Restored(m: Message, n: nat, bufs: seq<bytes>)
    requires Wf(m) && Sized(m) && Lifted(m, n, bufs)
    ensures FromNode(ToNode(m, n), bufs) == Some(m) <==> Genuine(m)
    decreases m, 1
  {
    match m
    case BinaryMsg(d) =>
      assert bufs[n..n + 1][0] == bufs[n];
      PlaceholderReads(n, bufs);
    case ArrayMsg(xs) => RestoredItems(xs, n, bufs);
    case ObjectMsg(es) => RestoredObject(es, n, bufs);
    case _ =>
  }

  lemma {:induction false} ElementsStep(xs: seq<Message>, n: nat, bufs: seq<bytes>)
    requires xs != [] && forall x <- xs :: Sized(x)
    ensures var x := FromNode(ToNode(xs[0], n), bufs);
            var r := FromElements(ToElements(xs[1..], n + |Binaries(xs[0])|), bufs);
            (FromElements(ToElements(xs, n), bufs)
              == if x.Some? && r.Some? then Some([x.value] + r.value) else None)
  {
    hide FromNode, ToNode, Binaries;
    var es := ToElements(xs, n);
    assert es[0] == ToNode(xs[0], n) && es[1..] == ToElements(xs[1..], n + |Binaries(xs[0])|);
  }

  lemma {:induction false} RestoredItems(xs: seq<Message>, n: nat, bufs: seq<bytes>)
    requires forall x <- xs :: Wf(x) && Sized(x)
    requires LiftedItems(xs, n, bufs)
    ensures FromElements(ToElements(xs, n), bufs) == Some(xs) <==> forall x <- xs :: Genuine(x)
    decreases xs, 0
  {
    hide FromNode, FromElements, ToNode, ToElements, Binaries, ItemBinaries, LiftedItems, Wf, Sized, Genuine;
    if xs == [] {
      ElementsNone(n, bufs);
    } else {
      ItemsSplit(xs, n, bufs);
      ElementsStep(xs, n, bufs);
      Restored(xs[0], n, bufs);
      RestoredItems(xs[1..], n + |Binaries(xs[0])|, bufs);
      assert xs == [xs[0]] + xs[1..];
      assert forall x :: x in xs <==> x == xs[0] || x in xs[1..];
    }
  }

  lemma {:induction false} ElementsNone(n: nat, bufs: seq<bytes>)
    ensures FromElements(ToElements([], n), bufs) == Some([])
  {
  }

  // Finds the entry behind the member of that name: its index, or -1 when no
  // entry has that key.
  lemma {:induction false} FindEntry(es: seq<Entry>, n: nat, name: bytes) returns (i: int, k: nat)
    requires forall e <- es :: Sized(e.value)
    ensures -1 <= i < |es|
    ensures i < 0 ==> FindMember(ToMembers(es, n), name) == None && forall e <- es :: e.key != name
    ensures i >= 0 ==> es[i].key == name && FindMember(ToMembers(es, n), name) == Some(ToNode(es[i].value, k))
    decreases |es|
  {
    hide ToNode, ToMembers, Binaries, Sized, FindMember;
    i, k := -1, 0;
    if es == [] {
      NoEntry(n, name);
    } else {
      EntryOrLater(es, n, name);
      if es[0].key == name {
        i, k := 0, n;
      } else {
        i, k := FindEntry(es[1..], n + |Binaries(es[0].value)|, name);
        assert forall e <- es :: e == es[0] || e in es[1..];
        if i >= 0 { i := i + 1; }
      }
    }
  }

  lemma {:induction false} NoEntry(n: nat, name: bytes)
    ensures FindMember(ToMembers([], n), name) == None
  {
  }

  // The first entry has the key, or the others decide.
  lemma {:induction false} EntryOrLater(es: seq<Entry>, n: nat, name: bytes)
    requires es != [] && forall e <- es :: Sized(e.value)
    ensures FindMember(ToMembers(es, n), name)
         == if es[0].key == name then Some(ToNode(es[0].value, n))
            else FindMember(ToMembers(es[1..], n + |Binaries(es[0].value)|), name)
  {
    hide ToNode, Binaries, Sized;
    var ms := ToMembers(es, n);
    assert es[0].value < es[0];
    assert ms[0] == Member(es[0].key, ToNode(es[0].value, n));
    assert ms[1..] == ToMembers(es[1..], n + |Binaries(es[0].value)|);
  }

  // Reading the members of a message object: the first one and the rest.
  lemma {:induction false} MembersStep(es: seq<Entry>, n: nat, bufs: seq<bytes>, acc: seq<Entry>)
    requires es != [] && forall e <- es :: Sized(e.value)
    ensures var x := FromNode(ToNode(es[0].value, n), bufs);
            (FromMembers(ToMembers(es, n), bufs, acc)
              == if x.None? then None
                 else FromMembers(ToMembers(es[1..], n + |Binaries(es[0].value)|), bufs,
                                  Insert(acc, es[0].key, x.value)))
  {
    hide FromNode, ToNode, Insert, Binaries;
    var ms := ToMembers(es, n);
    assert es[0].value < es[0];
    assert ms[0] == Member(es[0].key, ToNode(es[0].value, n));
    assert ms[1..] == ToMembers(es[1..], n + |Binaries(es[0].value)|);
  }

  // Entries whose keys lie above acc are appended to it, whatever their values become.
  lemma {:induction false} MembersAppend(es: seq<Entry>, n: nat, bufs: seq<bytes>, acc: seq<Entry>)
    requires forall e <- es :: Sized(e.value)
    requires Ascending(es) && forall a <- acc, e <- es :: Less(a.key, e.key)
    ensures var r := FromMembers(ToMembers(es, n), bufs, acc);
            r.Some? ==> |r.value| == |acc| + |es| && r.value[..|acc|] == acc
    decreases |es|
  {
    hide FromNode, ToNode, Insert, Binaries, Sized, Less, Ascending;
    if es != [] {
      MembersStep(es, n, bufs, acc);
      var x := FromNode(ToNode(es[0].value, n), bufs);
      if x.Some? {
        var e := Entry(es[0].key, x.value);
        InsertLast(acc, es[0].key, x.value);
        KeysBelow(es, acc, e);
        MembersAppend(es[1..], n + |Binaries(es[0].value)|, bufs, acc + [e]);
        var r := FromMembers(ToMembers(es, n), bufs, acc);
        assert r.Some? ==> r.value[..|acc|] == r.value[..|acc + [e]|][..|acc|];
      }
    }
  }

  lemma {:induction false} KeysBelow(es: seq<Entry>, acc: seq<Entry>, e: Entry)
    requires es != [] && e.key == es[0].key
    requires Ascending(es) && forall a <- acc, x <- es :: Less(a.key, x.key)
    ensures Ascending(es[1..]) && forall a <- acc + [e], x <- es[1..] :: Less(a.key, x.key)
  {
    forall a <- acc + [e], x <- es[1..]
      ensures Less(a.key, x.key)
    {
      assert x in es;
      if a !in acc {
        var j :| 0 <= j < |es[1..]| && es[1..][j] == x;
        assert Less(es[0].key, es[j + 1].key);
      }
    }
  }

  lemma {:induction false} RestoredEntries(es: seq<Entry>, n: nat, bufs: seq<bytes>, acc: seq<Entry>)
    requires forall e <- es :: Wf(e.value) && Sized(e.value)
    requires LiftedEntries(es, n, bufs)
    requires Ascending(es) && forall a <- acc, e <- es :: Less(a.key, e.key)
    ensures FromMembers(ToMembers(es, n), bufs, acc) == Some(acc + es) <==> forall e <- es :: Genuine(e.value)
    decreases es, 0
  {
    hide FromNode, FromMembers, ToNode, ToMembers, Insert, Binaries, Sized, Wf, Genuine, Less, Ascending, LiftedEntries,
         EntryBinaries;
    if es == [] {
      assert acc + es == acc;
      MembersNone(n, bufs, acc);
    } else {
      var k := n + |Binaries(es[0].value)|;
      assert es[0].value < es[0];
      MembersStep(es, n, bufs, acc);
      EntriesSplit(es, n, bufs);
      Restored(es[0].value, n, bufs);
      var x := FromNode(ToNode(es[0].value, n), bufs);
      assert forall e :: e in es <==> e == es[0] || e in es[1..];
      if x.Some? {
        var e := Entry(es[0].key, x.value);
        InsertLast(acc, es[0].key, x.value);
        KeysBelow(es, acc, e);
        if e == es[0] {
          RestoredEntries(es[1..], k, bufs, acc + [e]);
          assert acc + [e] + es[1..] == acc + es;
        } else {
          MembersAppend(es[1..], k, bufs, acc + [e]);
          DifferentAt(FromMembers(ToMembers(es, n), bufs, acc), acc, e, es);
        }
      }
    }
  }

  lemma {:induction false} DifferentAt(r: Option<seq<Entry>>, acc: seq<Entry>, e: Entry, es: seq<Entry>)
    requires es != [] && e != es[0]
    requires r.Some? ==> |r.value| == |acc| + |es| && r.value[..|acc| + 1] == acc + [e]
    ensures r != Some(acc + es)
  {
    if r.Some? {
      assert r.value[..|acc| + 1][|acc|] == e;
      assert (acc + es)[|acc|] == es[0];
    }
  }

  lemma {:induction false} MembersNone(n: nat, bufs: seq<bytes>, acc: seq<Entry>)
    ensures FromMembers(ToMembers([], n), bufs, acc) == Some(acc)
  {
  }

  lemma {:induction false} EntriesSplit(es: seq<Entry>, n: nat, bufs: seq<bytes>)
    requires es != [] && LiftedEntries(es, n, bufs)
    ensures Lifted(es[0].value, n, bufs) && LiftedEntries(es[1..], n + |Binaries(es[0].value)|, bufs)
  {
    assert es[0].value < es[0];
    SliceSplit(bufs, n, Binaries(es[0].value), EntryBinaries(es[1..]));
  }

  lemma {:induction false} ItemsSplit(xs: seq<Message>, n: nat, bufs: seq<bytes>)
    requires xs != [] && LiftedItems(xs, n, bufs)
    ensures Lifted(xs[0], n, bufs) && LiftedItems(xs[1..], n + |Binaries(xs[0])|, bufs)
  {
    SliceSplit(bufs, n, Binaries(xs[0]), ItemBinaries(xs[1..]));
  }

  // How an object is read, by what its "_placeholder" member is.
  lemma {:induction false} EntriesRead(ms: seq<Member>, bufs: seq<bytes>)
    ensures FromNode(ObjectNode(ms), bufs)
         == match FindMember(ms, PLACEHOLDER)
            case Some(BoolNode(true)) => FromPlaceholder(ms, bufs)
            case Some(BoolNode(false)) => FromObject(ms, bufs)
            case Some(_) => None
            case None => FromObject(ms, bufs)
  {
  }

  lemma {:induction false} RestoredObject(es: seq<Entry>, n: nat, bufs: seq<bytes>)
    requires Ascending(es) && forall e <- es :: Wf(e.value) && Sized(e.value)
    requires LiftedEntries(es, n, bufs)
    ensures FromNode(ObjectNode(ToMembers(es, n)), bufs) == Some(ObjectMsg(es)) <==> Genuine(ObjectMsg(es))
    decreases es, 1
  {
    hide FromNode, ToNode, ToMembers, FromMembers, FindMember, FromPlaceholder, Sized, Wf, LiftedEntries, Ascending,
         Genuine, Binaries, EntryBinaries;
    PlaceholderIsNoObject(ToMembers(es, n), bufs);
    RestoredEntries(es, n, bufs, []);
    assert [] + es == es;
    EntriesRead(ToMembers(es, n), bufs);
    var i, k := FindEntry(es, n, PLACEHOLDER);
    if i >= 0 {
      assert es[i] in es;
      BoolOnly(es[i].value, k);
      OnlyOne(es, i);
      GenuineBut(es, i);
    } else {
      GenuineAll(es);
    }
  }

  lemma {:induction false} GenuineBut(es: seq<Entry>, i: nat)
    requires i < |es| && es[i].key == PLACEHOLDER
    requires forall e <- es :: e.key == PLACEHOLDER ==> e == es[i]
    ensures Genuine(ObjectMsg(es)) <==> (forall e <- es :: Genuine(e.value)) && es[i].value == BoolMsg(false)
  {
  }

  lemma {:induction false} GenuineAll(es: seq<Entry>)
    requires forall e <- es :: e.key != PLACEHOLDER
    ensures Genuine(ObjectMsg(es)) <==> forall e <- es :: Genuine(e.value)
  {
  }

  lemma {:induction false} PlaceholderIsNoObject(ms: seq<Member>, bufs: seq<bytes>)
    ensures FromPlaceholder(ms, bufs).Some? ==> !FromPlaceholder(ms, bufs).value.ObjectMsg?
  {
  }

  lemma {:induction false} BoolOnly(m: Message, k: nat)
    requires Sized(m)
    ensures ToNode(m, k).BoolNode? <==> m.BoolMsg?
    ensures m.BoolMsg? ==> ToNode(m, k) == BoolNode(m.b)
  {
  }

  // A map has at most one entry for a key.
  lemma {:induction false} OnlyOne(es: seq<Entry>, i: nat)
    requires Ascending(es) && i < |es|
    ensures forall e <- es :: e.key == es[i].key ==> e == es[i]
  {
    LessIrreflexive(es[i].key);
  }

  /* The numbers that the placeholders carry */

  // The number of a placeholder object, as it was made by accepting a binary.
  function PlaceholderNumbers(v: Node): seq<int>
    decreases v
  {
    match v
    case ArrayNode(es) => ElementNumbers(es)
    case ObjectNode(ms) =>
      (match FindMember(ms, PLACEHOLDER)
       case Some(BoolNode(true)) =>
         (match FindMember(ms, NUM) case Some(IntegerNode(n, _)) => [n] case _ => [])
       case _ => MemberNumbers(ms))
    case _ => []
  }

  function ElementNumbers(es: seq<Node>): seq<int>
    decreases es
  {
    if es == [] then [] else PlaceholderNumbers(es[0]) + ElementNumbers(es[1..])
  }

  function MemberNumbers(ms: seq<Member>): seq<int>
    decreases ms
  {
    if ms == [] then []
    else
      assert ms[0].value < ms[0];
      PlaceholderNumbers(ms[0].value) + MemberNumbers(ms[1..])
  }

  function Range(a: nat, b: nat): seq<int>
    requires a <= b
  {
    seq(b - a, i => a + i)
  }

  lemma {:induction false} RangeSplit(a: nat, b: nat, c: nat)
    requires a <= b <= c
    ensures Range(a, b) + Range(b, c) == Range(a, c)
  {
  }

  // The placeholders of a document count through the attachments of its
  // message, each once and in the order of traversal.
  lemma {:induction false} NumbersCount(m: Message, n: nat)
    requires Sized(m) && Genuine(m) && n + |Binaries(m)| <= TWO31
    ensures PlaceholderNumbers(ToNode(m, n)) == Range(n, n + |Binaries(m)|)
    decreases m, 1
  {
    hide ToElements, ToMembers, FindMember, ElementNumbers, MemberNumbers, ItemBinaries, EntryBinaries;
    match m
    case BinaryMsg(d) => OneNumber(n);
    case ArrayMsg(xs) => ItemNumbersCount(xs, n);
    case ObjectMsg(es) =>
      EntryNumbersCount(es, n);
      var i, k := FindEntry(es, n, PLACEHOLDER);
      if i >= 0 {
        assert es[i] in es;
        BoolOnly(es[i].value, k);
      }
    case _ =>
  }

  lemma {:induction false} OneNumber(n: nat)
    requires n < TWO31
    ensures PlaceholderNumbers(Placeholder(n)) == Range(n, n + 1)
  {
    var ms := Placeholder(n).members;
    assert |PLACEHOLDER| == 12 && |NUM| == 3;
    assert ms[1..] == [Member(NUM, FromInt(ToInt32(n)))];
    assert FindMember(ms[1..], NUM) == Some(FromInt(n));
    assert FindMember(ms, NUM) == Some(FromInt(n));
  }

  lemma {:induction false} ItemNumbersCount(xs: seq<Message>, n: nat)
    requires forall x <- xs :: Sized(x) && Genuine(x)
    requires n + |ItemBinaries(xs)| <= TWO31
    ensures ElementNumbers(ToElements(xs, n)) == Range(n, n + |ItemBinaries(xs)|)
    decreases xs, 0
  {
    hide PlaceholderNumbers, ToNode, Binaries;
    if xs != [] {
      var k := n + |Binaries(xs[0])|;
      NumbersCount(xs[0], n);
      ItemNumbersCount(xs[1..], k);
      RangeSplit(n, k, n + |ItemBinaries(xs)|);
      var es := ToElements(xs, n);
      assert es[0] == ToNode(xs[0], n) && es[1..] == ToElements(xs[1..], k);
    }
  }

  lemma {:induction false} EntryNumbersCount(es: seq<Entry>, n: nat)
    requires forall e <- es :: Sized(e.value) && Genuine(e.value)
    requires n + |EntryBinaries(es)| <= TWO31
    ensures MemberNumbers(ToMembers(es, n)) == Range(n, n + |EntryBinaries(es)|)
    decreases es, 0
  {
    hide PlaceholderNumbers, ToNode, Binaries;
    if es != [] {
      var k := n + |Binaries(es[0].value)|;
      assert es[0].value < es[0];
      NumbersCount(es[0].value, n);
      EntryNumbersCount(es[1..], k);
      RangeSplit(n, k, n + |EntryBinaries(es)|);
      var ms := ToMembers(es, n);
      assert ms[0].value == ToNode(es[0].value, n) && ms[1..] == ToMembers(es[1..], k);
    }
  }

  // Lifting the binaries out of a message and putting them back gives the
  // message again, exactly when none of its objects maps "_placeholder" to
  // anything but false.
  lemma {:induction false} LiftAndRestore(m: Message, before: seq<bytes>, behind: seq<bytes>)
    requires Wf(m) && Sized(m) && |before| + |Binaries(m)| + |behind| < TWO31
    ensures FromNode(ToNode(m, |before|), before + Binaries(m) + behind) == Some(m) <==> Genuine(m)
  {
    var bufs := before + Binaries(m) + behind;
    assert bufs[|before|..|before| + |Binaries(m)|] == Binaries(m);
    Restored(m, |before|, bufs);
  }

  /* Other attachments in the same places */

  // The message with the bytes of its leaves taken from a list, from number n on.
  function Refill(m: Message, n: nat, bufs: seq<bytes>): Message
    requires n + |Binaries(m)| <= |bufs|
    decreases m
  {
    match m
    case BinaryMsg(_) => BinaryMsg(bufs[n])
    case ArrayMsg(xs) => ArrayMsg(RefillItems(xs, n, bufs))
    case ObjectMsg(es) => ObjectMsg(RefillEntries(es, n, bufs))
    case _ => m
  }

  function RefillItems(xs: seq<Message>, n: nat, bufs: seq<bytes>): (r: seq<Message>)
    requires n + |ItemBinaries(xs)| <= |bufs|
    ensures |r| == |xs|
    decreases xs
  {
    if xs == [] then [] else [Refill(xs[0], n, bufs)] + RefillItems(xs[1..], n + |Binaries(xs[0])|, bufs)
  }

  function RefillEntries(es: seq<Entry>, n: nat, bufs: seq<bytes>): (r: seq<Entry>)
    requires n + |EntryBinaries(es)| <= |bufs|
    ensures |r| == |es|
    decreases es
  {
    if es == [] then []
    else
      assert es[0].value < es[0];
      [Entry(es[0].key, Refill(es[0].value, n, bufs))] + RefillEntries(es[1..], n + |Binaries(es[0].value)|, bufs)
  }

  // Whatever the code demands of m, r meets as well.
  predicate Kin(m: Message, r: Message) {
    && (Sized(m) ==> Sized(r))
    && (Wf(m) ==> Wf(r))
    && (Genuine(m) ==> Genuine(r))
    && (m.BoolMsg? ==> r == m)
  }

  predicate KinEntry(e: Entry, r: Entry) { r.key == e.key && Kin(e.value, r.value) }

  lemma {:induction false} RefillKin(m: Message, n: nat, bufs: seq<bytes>)
    requires n + |Binaries(m)| <= |bufs|
    ensures Kin(m, Refill(m, n, bufs))
    decreases m, 1
  {
    match m
    case ArrayMsg(xs) =>
      RefillItemsKin(xs, n, bufs);
      KinItems(xs, RefillItems(xs, n, bufs));
    case ObjectMsg(es) =>
      RefillEntriesKin(es, n, bufs);
      KinEntries(es, RefillEntries(es, n, bufs));
    case _ =>
  }

  lemma {:induction false} KinItems(xs: seq<Message>, rs: seq<Message>)
    requires |rs| == |xs| && forall i :: 0 <= i < |xs| ==> Kin(xs[i], rs[i])
    ensures Kin(ArrayMsg(xs), ArrayMsg(rs))
  {
  }

  lemma {:induction false} KinEntries(es: seq<Entry>, rs: seq<Entry>)
    requires |rs| == |es|
    requires forall i :: 0 <= i < |es| ==> KinEntry(es[i], rs[i])
    ensures Kin(ObjectMsg(es), ObjectMsg(rs))
  {
    hide Less;
  }

  lemma {:induction false} RefillItemsKin(xs: seq<Message>, n: nat, bufs: seq<bytes>)
    requires n + |ItemBinaries(xs)| <= |bufs|
    ensures forall i :: 0 <= i < |xs| ==> Kin(xs[i], RefillItems(xs, n, bufs)[i])
    decreases xs, 0
  {
    hide Refill, Binaries, Kin;
    if xs != [] {
      var k := n + |Binaries(xs[0])|;
      RefillKin(xs[0], n, bufs);
      RefillItemsKin(xs[1..], k, bufs);
      forall i | 0 <= i < |xs|
        ensures Kin(xs[i], RefillItems(xs, n, bufs)[i])
      {
        if i > 0 { assert Kin(xs[1..][i - 1], RefillItems(xs[1..], k, bufs)[i - 1]); }
      }
    }
  }

  lemma {:induction false} RefillEntriesKin(es: seq<Entry>, n: nat, bufs: seq<bytes>)
    requires n + |EntryBinaries(es)| <= |bufs|
    ensures forall i :: 0 <= i < |es| ==>
              KinEntry(es[i], RefillEntries(es, n, bufs)[i])
    decreases es, 0
  {
    hide Refill, Binaries, Kin;
    if es != [] {
      assert es[0].value < es[0];
      var k := n + |Binaries(es[0].value)|;
      RefillKin(es[0].value, n, bufs);
      RefillEntriesKin(es[1..], k, bufs);
      forall i | 0 <= i < |es|
        ensures KinEntry(es[i], RefillEntries(es, n, bufs)[i])
      {
        if i > 0 { assert KinEntry(es[1..][i - 1], RefillEntries(es[1..], k, bufs)[i - 1]); }
      }
    }
  }

  // The refilled message has the same document, and the new bytes in its leaves.
  lemma {:induction false} RefillLifts(m: Message, n: nat, bufs: seq<bytes>)
    requires n + |Binaries(m)| <= |bufs| && Sized(m)
    ensures var r := Refill(m, n, bufs);
            && Sized(r) && ToNode(r, n) == ToNode(m, n)
            && Binaries(r) == bufs[n..n + |Binaries(m)|]
    decreases m, 1
  {
    hide ToElements, ToMembers, RefillItems, RefillEntries, ItemBinaries, EntryBinaries, Wf, Genuine;
    match m
    case BinaryMsg(d) => assert bufs[n..n + 1] == [bufs[n]];
    case ArrayMsg(xs) => RefillItemsLift(xs, n, bufs);
    case ObjectMsg(es) => RefillEntriesLift(es, n, bufs);
    case _ => assert bufs[n..n] == [];
  }

  lemma {:induction false} SliceJoin(s: seq<bytes>, a: nat, b: nat, c: nat)
    requires a <= b <= c <= |s|
    ensures s[a..b] + s[b..c] == s[a..c]
  {
  }

  lemma {:induction false} ItemsFrom(x: Message, xs: seq<Message>, n: nat)
    requires forall y <- [x] + xs :: Sized(y)
    ensures Sized(x) && forall y <- xs :: Sized(y)
    ensures ToElements([x] + xs, n) == [ToNode(x, n)] + ToElements(xs, n + |Binaries(x)|)
    ensures ItemBinaries([x] + xs) == Binaries(x) + ItemBinaries(xs)
  {
    hide ToNode, Binaries, Sized;
    assert x in [x] + xs && forall y <- xs :: y in [x] + xs;
    assert ([x] + xs)[0] == x && ([x] + xs)[1..] == xs;
  }

  lemma {:induction false} EntriesFrom(e: Entry, es: seq<Entry>, n: nat)
    requires forall y <- [e] + es :: Sized(y.value)
    ensures Sized(e.value) && forall y <- es :: Sized(y.value)
    ensures ToMembers([e] + es, n) == [Member(e.key, ToNode(e.value, n))] + ToMembers(es, n + |Binaries(e.value)|)
    ensures EntryBinaries([e] + es) == Binaries(e.value) + EntryBinaries(es)
  {
    hide ToNode, Binaries, Sized;
    assert e in [e] + es && forall y <- es :: y in [e] + es;
    assert ([e] + es)[0] == e && ([e] + es)[1..] == es;
  }

  lemma {:induction false} NoneLift(n: nat, bufs: seq<bytes>)
    requires n <= |bufs|
    ensures ItemBinaries([]) == bufs[n..n] && EntryBinaries([]) == bufs[n..n]
    ensures RefillItems([], n, bufs) == [] && RefillEntries([], n, bufs) == []
  {
  }

  lemma {:induction false} RefillItemsLift(xs: seq<Message>, n: nat, bufs: seq<bytes>)
    requires n + |ItemBinaries(xs)| <= |bufs| && forall x <- xs :: Sized(x)
    ensures var rs := RefillItems(xs, n, bufs);
            && (forall x <- rs :: Sized(x)) && ToElements(rs, n) == ToElements(xs, n)
            && ItemBinaries(rs) == bufs[n..n + |ItemBinaries(xs)|]
    decreases xs, 0
  {
    hide Refill, ToNode, Binaries, Sized, ToElements, ItemBinaries, Kin;
    RefillItemsSized(xs, n, bufs);
    if xs == [] {
      NoneLift(n, bufs);
    } else {
      assert xs == [xs[0]] + xs[1..];
      ItemsFrom(xs[0], xs[1..], n);
      var k := n + |Binaries(xs[0])|;
      var r, rest := Refill(xs[0], n, bufs), RefillItems(xs[1..], k, bufs);
      assert RefillItems(xs, n, bufs) == [r] + rest;
      RefillLifts(xs[0], n, bufs);
      RefillItemsLift(xs[1..], k, bufs);
      ItemsFrom(r, rest, n);
      SliceJoin(bufs, n, k, n + |ItemBinaries(xs)|);
    }
  }

  lemma {:induction false} RefillItemsSized(xs: seq<Message>, n: nat, bufs: seq<bytes>)
    requires n + |ItemBinaries(xs)| <= |bufs| && forall x <- xs :: Sized(x)
    ensures forall x <- RefillItems(xs, n, bufs) :: Sized(x)
  {
    hide Sized, Wf, Genuine, Refill, RefillItems;
    RefillItemsKin(xs, n, bufs);
  }

  lemma {:induction false} RefillEntriesLift(es: seq<Entry>, n: nat, bufs: seq<bytes>)
    requires n + |EntryBinaries(es)| <= |bufs| && forall e <- es :: Sized(e.value)
    ensures var rs := RefillEntries(es, n, bufs);
            && (forall e <- rs :: Sized(e.value)) && ToMembers(rs, n) == ToMembers(es, n)
            && EntryBinaries(rs) == bufs[n..n + |EntryBinaries(es)|]
    decreases es, 0
  {
    hide Refill, ToNode, Binaries, Sized, ToMembers, EntryBinaries, Kin, KinEntry;
    if es == [] {
      NoneLift(n, bufs);
    } else {
      var e, others := es[0], es[1..];
      assert e.value < e && es == [e] + others;
      EntriesFrom(e, others, n);
      var k := n + |Binaries(e.value)|;
      RefillLifts(e.value, n, bufs);
      RefillEntriesLift(others, k, bufs);
      assert RefillEntries(es, n, bufs) == [Entry(e.key, Refill(e.value, n, bufs))] + RefillEntries(others, k, bufs);
      EntryLifts(e, others, n, k, bufs);
    }
  }

  lemma {:induction false} EntryLifts(e: Entry, es: seq<Entry>, n: nat, k: nat, bufs: seq<bytes>)
    requires n + |Binaries(e.value)| == k && k + |EntryBinaries(es)| <= |bufs|
    requires Sized(e.value) && forall x <- es :: Sized(x.value)
    requires var v := Refill(e.value, n, bufs);
             Sized(v) && ToNode(v, n) == ToNode(e.value, n) && Binaries(v) == bufs[n..k]
    requires var r := RefillEntries(es, k, bufs);
             && (forall x <- r :: Sized(x.value)) && ToMembers(r, k) == ToMembers(es, k)
             && EntryBinaries(r) == bufs[k..k + |EntryBinaries(es)|]
    ensures var rs := [Entry(e.key, Refill(e.value, n, bufs))] + RefillEntries(es, k, bufs);
            && (forall x <- rs :: Sized(x.value)) && (forall x <- [e] + es :: Sized(x.value))
            && ToMembers(rs, n) == ToMembers([e] + es, n)
            && EntryBinaries(rs) == bufs[n..k + |EntryBinaries(es)|]
  {
    hide Refill, RefillEntries, ToNode, Binaries, Sized, ToMembers, EntryBinaries;
    EntriesFrom(e, es, n);
    EntriesFrom(Entry(e.key, Refill(e.value, n, bufs)), RefillEntries(es, k, bufs), n);
    SliceJoin(bufs, n, k, k + |EntryBinaries(es)|);
  }

  // From any list that is long enough a genuine message is restored with the
  // bytes of that list in its leaves, in order, and so is the message itself
  // if and only if those are its own.
  lemma {:induction false} RestoredFromAny(m: Message, n: nat, bufs: seq<bytes>)
    requires Wf(m) && Sized(m) && Genuine(m) && n + |Binaries(m)| <= |bufs| < TWO31
    ensures var r := Refill(m, n, bufs);
            && FromNode(ToNode(m, n), bufs) == Some(r)
            && Binaries(r) == bufs[n..n + |Binaries(m)|]
            && (r == m <==> bufs[n..n + |Binaries(m)|] == Binaries(m))
  {
    hide FromNode, ToNode, Refill, Binaries, Wf, Sized, Genuine;
    RefillKin(m, n, bufs);
    RefillLifts(m, n, bufs);
    Restored(Refill(m, n, bufs), n, bufs);
    if bufs[n..n + |Binaries(m)|] == Binaries(m) {
      Restored(m, n, bufs);
    }
  }
}
