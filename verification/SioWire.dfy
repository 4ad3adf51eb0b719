// Packets as the bytes of the Socket.IO protocol, given by their numbers: what is
// sent for every packet, and what the receiver makes of headers that the sender
// does not write.

module SioWire {
  import opened Bytes
  import opened JsonTypes
  import opened JsonDocument
  import opened JsonWriter
  import opened JsonRoundTrip
  import opened JsonSyntax
  import opened JsonSpelling
  import opened SioMessage
  import opened SioPacket

  // "_placeholder" and "num"
  const HOLDER: bytes := [95, 112, 108, 97, 99, 101, 104, 111, 108, 100, 101, 114]
  const NUMBER: bytes := [110, 117, 109]

  function IntegerTree(n: int): Tree { NumberTree(Numeral(n < 0, Digits(if n < 0 then -n else n), [], NoExponent)) }

  function NameTree(s: bytes, v: Tree): Field { Field([], SpellBytes(s), [], [], v, []) }

  // The text of a message when n attachments came before it. An attachment is an
  // object with a mark and its number.
  function Wire(m: Message, n: nat): Tree
    requires NoDoubleMsg(m)
    decreases m
  {
    match m
    case Absent => NullWord
    case NullMsg => NullWord
    case BoolMsg(b) => if b then TrueWord else FalseWord
    case IntMsg(i) => IntegerTree(i)
    case StringMsg(s) => StringTree(SpellBytes(s))
    case BinaryMsg(_) => ObjectTree([], [NameTree(HOLDER, TrueWord), NameTree(NUMBER, IntegerTree(n))])
    case ArrayMsg(xs) => ArrayTree([], WireItems(xs, n))
    case ObjectMsg(es) => ObjectTree([], WireFields(es, n))
  }

  function WireItems(xs: seq<Message>, n: nat): seq<Item>
    requires forall x <- xs :: NoDoubleMsg(x)
    decreases xs
  {
    if xs == [] then []
    else [Item([], Wire(xs[0], n), [])] + WireItems(xs[1..], n + |Binaries(xs[0])|)
  }

  function WireFields(es: seq<Entry>, n: nat): seq<Field>
    requires forall e <- es :: NoDoubleMsg(e.value)
    decreases es
  {
    if es == [] then []
    else
      assert es[0].value < es[0];
      [NameTree(es[0].key, Wire(es[0].value, n))] + WireFields(es[1..], n + |Binaries(es[0].value)|)
  }

  lemma {:induction false} WireIsSpelled(m: Message, n: nat)
    requires Sized(m) && NoDoubleMsg(m) && n + |Binaries(m)| <= TWO31
    ensures NoDoubles(ToNode(m, n)) && Spell(ToNode(m, n)) == Wire(m, n)
    decreases m, 1
  {
    hide Digits, SpellBytes, ToElements, ToMembers, WireItems, WireFields, SpellItems, SpellFields;
    match m
    case BinaryMsg(_) => PlaceholderSpelled(n);
    case ArrayMsg(xs) => ItemsSpelledOut(xs, n);
    case ObjectMsg(es) => FieldsSpelledOut(es, n);
    case _ =>
  }

  lemma {:induction false} PlaceholderSpelled(n: nat)
    requires n < TWO31
    ensures NoDoubles(Placeholder(n))
    ensures Spell(Placeholder(n))
         == ObjectTree([], [NameTree(HOLDER, TrueWord), NameTree(NUMBER, IntegerTree(n))])
  {
    hide Digits, SpellBytes;
    var ms := Placeholder(n).members;
    assert ms[1..] == [Member(NUM, FromInt(n))] && ms[1..][1..] == [];
    assert ToInt32(n) == n && Spell(FromInt(n)) == IntegerTree(n);
    assert SpellFields(ms[1..][1..]) == [];
    assert SpellFields(ms[1..]) == [NameTree(NUMBER, IntegerTree(n))];
    assert SpellFields(ms) == [NameTree(HOLDER, TrueWord)] + SpellFields(ms[1..]);
  }

  lemma {:induction false} ItemsSpelledOut(xs: seq<Message>, n: nat)
    requires (forall x <- xs :: Sized(x) && NoDoubleMsg(x)) && n + |ItemBinaries(xs)| <= TWO31
    ensures forall e <- ToElements(xs, n) :: NoDoubles(e)
    ensures SpellItems(ToElements(xs, n)) == WireItems(xs, n)
    decreases xs, 0
  {
    hide ToNode, Wire, Spell, Binaries, Sized, NoDoubleMsg, NoDoubles;
    if xs != [] {
      var k := n + |Binaries(xs[0])|;
      WireIsSpelled(xs[0], n);
      ItemsSpelledOut(xs[1..], k);
      var es := ToElements(xs, n);
      assert es[0] == ToNode(xs[0], n) && es[1..] == ToElements(xs[1..], k);
    }
  }

  lemma {:induction false} FieldsSpelledOut(es: seq<Entry>, n: nat)
    requires (forall e <- es :: Sized(e.value) && NoDoubleMsg(e.value)) && n + |EntryBinaries(es)| <= TWO31
    ensures forall m <- ToMembers(es, n) :: NoDoubles(m.value)
    ensures SpellFields(ToMembers(es, n)) == WireFields(es, n)
    decreases es, 0
  {
    hide ToNode, Wire, Spell, Binaries, Sized, NoDoubleMsg, NoDoubles, SpellBytes;
    if es != [] {
      var k := n + |Binaries(es[0].value)|;
      assert es[0].value < es[0];
      WireIsSpelled(es[0].value, n);
      FieldsSpelledOut(es[1..], k);
      var ms := ToMembers(es, n);
      assert ms[0] == Member(es[0].key, ToNode(es[0].value, n)) && ms[1..] == ToMembers(es[1..], k);
    }
  }

  // The document of a message is its text without white space.
  lemma {:induction false} BodyIsWire(m: Message)
    requires m != Absent && Sized(m) && NoDoubleMsg(m) && |Binaries(m)| <= TWO31
    ensures Good(Wire(m, 0)) && BodyText(m) == TreeText(Wire(m, 0))
  {
    hide Print, TreeText, Spell, Wire, ToNode, Good, Binaries;
    NodeIsPrintable(m, 0);
    WireIsSpelled(m, 0);
    SpellIsPrint(ToNode(m, 0));
  }

  /* Frames */

  // Whether a packet is an event or an acknowledgement, by the sender's kind: 2
  // and 3, or with the mark 16 for one that is still to be determined.
  predicate IsEvent(p: Packet) { p.kind == 2 || p.kind == 18 }

  predicate IsAck(p: Packet) { p.kind == 3 || p.kind == 19 }

  // The digit of the kind: an event is 2, or 5 with attachments; an
  // acknowledgement 3, or 6 with attachments; a connect is 0, a disconnect 1.
  function KindOnWire(p: Packet): int {
    if IsEvent(p) then (if Binaries(p.message) == [] then 2 else 5)
    else if IsAck(p) then (if Binaries(p.message) == [] then 3 else 6)
    else p.kind
  }

  // The text frame of a message packet: 4, the kind, with attachments their
  // number and a dash, the namespace unless it is /, a comma if anything follows
  // it, the identifier if there is one, and the message.
  function WireText(p: Packet): bytes
    requires NoDoubleMsg(p.message) && 0 <= KindOnWire(p) <= 6
  {
    var n := |Binaries(p.message)|;
    var named := p.nsp != [] && p.nsp != [47];
    var more := p.message != Absent || p.id >= 0;
    [52, 48 + KindOnWire(p)]
    + (if n == 0 then [] else Digits(n) + [45])
    + ((if named then p.nsp + (if more then [44] else []) else [])
       + ((if p.id >= 0 then Digits(p.id) else [])
          + (if p.message == Absent then [] else TreeText(Wire(p.message, 0)))))
  }

  lemma {:induction false} KindIsSent(p: Packet)
    requires Valid(p) && p.frame == 4
    ensures SentKind(p.kind, Binaries(p.message) != []) == KindOnWire(p) && 0 <= KindOnWire(p) <= 6
    ensures IsEvent(p) || IsAck(p) || p.kind == 0 || p.kind == 1
  {
    hide Binaries, Wf, Genuine, NoDoubleMsg, Sized, GoodNsp;
  }

  // What is sent for a packet: its text, and behind it each attachment as it is.
  lemma {:induction false} FramesOnWire(p: Packet)
    requires Valid(p)
    ensures Sendable(p)
    ensures p.frame != 4 ==> Frames(p) == [[48 + p.frame]]
    ensures p.frame == 4 ==>
              NoDoubleMsg(p.message) && 0 <= KindOnWire(p) <= 6 && Frames(p) == [WireText(p)] + Binaries(p.message)
  {
    hide Valid, Binaries, Wf, Genuine, NoDoubleMsg, Sized, TreeText, Wire, Digits, BodyText, SentKind, KindOnWire;
    if p.frame != 4 {
      ControlValid(p);
    } else {
      ValidHead(p);
      KindIsSent(p);
      if p.message == Absent {
        NoBody();
        assert NoDoubleMsg(Absent) by { AbsentPlain(); }
      } else {
        BodyIsWire(p.message);
      }
    }
  }

  lemma {:induction false} AbsentPlain()
    ensures NoDoubleMsg(Absent)
  {
  }

  lemma {:induction false} ControlValid(p: Packet)
    requires Valid(p) && p.frame != 4
    ensures 0 <= p.frame <= 6
  {
  }

  // An event arrives as an event, an acknowledgement as an acknowledgement, binary
  // if and only if it has attachments; with its message, identifier and namespace.
  lemma {:induction false} ArrivesAsSent(p: Packet, done: seq<Packet>)
    requires Valid(p) && p.frame == 4
    ensures Sendable(p)
    ensures ReceiveAll(Inbox(None, done), Frames(p))
         == Some(Inbox(None, done + [Packet(4, KindOnWire(p), if p.nsp == [] then [47] else p.nsp, p.id,
                                            p.message, 0, [])]))
  {
    hide Valid, ReceiveAll, Frames, Sendable, SentKind, KindOnWire;
    PacketRoundTrip(p, done);
    KindIsSent(p);
    assert Frames(p)[..|Frames(p)|] == Frames(p);
  }

  // The packets of the two constructors.
  lemma {:induction false} CarriedKinds(p: Packet, isAck: bool)
    requires p.kind == (if isAck then ACK else EVENT) + UNDETERMINED
    ensures if isAck then IsAck(p) else IsEvent(p)
    ensures KindOnWire(p)
         == if isAck then (if Binaries(p.message) == [] then 3 else 6) else (if Binaries(p.message) == [] then 2 else 5)
  {
    hide Binaries;
  }

  /* Headers that the sender does not write */

  // No kind from 0 to 6: the packet is delivered with nothing in it.
  lemma {:induction false} StrangeKind(t: bytes)
    requires Peek(t, 0) == 52 && !(48 <= Peek(t, 1) <= 54)
    ensures Parse(t).Complete?
    ensures var p := Parse(t).p; p.frame == 4 && p.nsp == [] && p.id == -1 && p.message == Absent && p.buffers == []
  {
  }

  // Where the parts of a count stand.
  lemma {:induction false} CountStands(t: bytes, blanks: bytes, sign: bytes, digits: bytes, rest: bytes)
    requires t == blanks + sign + digits + rest && digits != [] && OnlyDigits(digits)
    requires rest == [] || !(48 <= rest[0] <= 57)
    ensures var b, d := |blanks|, |blanks| + |sign|;
            && At(t, 0, blanks) && At(t, b, sign) && At(t, d, digits) && d + |digits| <= |t|
            && 48 <= Peek(t, d) <= 57 && !IsDigit(Peek(t, d + |digits|))
  {
    hide At, OnlyDigits, Peek;
    var b, d := |blanks|, |blanks| + |sign|;
    FourParts(blanks, sign, digits, rest);
    assert At(t, 0, t) by { WholeStands(t); }
    AtSplit(t, 0, blanks, sign + (digits + rest));
    AtSplit(t, b, sign, digits + rest);
    AtSplit(t, d, digits, rest);
    AtIndex(t, d, digits, 0);
    FirstDigit(digits);
    if rest == [] { NothingThere(t, d + |digits|); } else { AtIndex(t, d + |digits|, rest, 0); }
  }

  lemma {:induction false} WholeStands(t: bytes)
    ensures At(t, 0, t)
  {
    assert t[0..|t|] == t;
  }

  lemma {:induction false} FirstDigit(s: bytes)
    requires s != [] && OnlyDigits(s)
    ensures 48 <= s[0] <= 57
  {
    assert s[0] in s;
  }

  lemma {:induction false} NothingThere(t: bytes, p: nat)
    requires p >= |t|
    ensures Peek(t, p) == 0
  {
  }

  // A count is read behind blanks and a sign, up to the first byte that is no digit.
  lemma {:induction false} CountReads(blanks: bytes, plus: bool, digits: bytes, rest: bytes)
    requires (forall c <- blanks :: c == 32 || 9 <= c <= 13) && digits != [] && OnlyDigits(digits)
    requires rest == [] || !(48 <= rest[0] <= 57)
    ensures Stoul(blanks + (if plus then [43] else []) + digits + rest)
         == if Worth(digits) < 0x1_0000_0000_0000_0000 then Some(Worth(digits)) else None
  {
    hide Decimal, Worth, DigitsEnd, At, OnlyDigits;
    var sign: bytes := if plus then [43] else [];
    var t := blanks + sign + digits + rest;
    var b, d := |blanks|, |blanks| + |sign|;
    CountStands(t, blanks, sign, digits, rest);
    if plus { AtIndex(t, b, sign, 0); }
    BlanksSkipped(t, 0, blanks);
    RunEnds(t, d, digits);
    WorthIsDecimal(t, d, digits);
  }

  lemma {:induction false} BlanksSkipped(t: bytes, p: nat, s: bytes)
    requires At(t, p, s) && (forall c <- s :: c == 32 || 9 <= c <= 13)
    requires p + |s| < |t| && !(t[p + |s|] == 32 || 9 <= t[p + |s|] <= 13)
    ensures SkipBlank(t, p) == p + |s|
    decreases |s|
  {
    hide At;
    if s != [] {
      AtIndex(t, p, s, 0);
      assert s[0] in s && forall c <- s[1..] :: c in s;
      assert s == [s[0]] + s[1..];
      AtSplit(t, p, [s[0]], s[1..]);
      BlanksSkipped(t, p + 1, s[1..]);
    }
  }

  // No digit where the count must stand: the code throws.
  lemma {:induction false} NoCount(s: bytes)
    requires s == [] || (!(48 <= s[0] <= 57) && s[0] != 43 && !(s[0] == 32 || 9 <= s[0] <= 13))
    ensures Stoul(s) == None
  {
  }

  // The first byte from p on that is one of cs stands at k; or none does.
  predicate FirstOf(t: bytes, p: nat, k: nat, cs: seq<byte>) {
    p <= k < |t| && t[k] in cs && NoneOf(t, p, k, cs)
  }

  predicate NoneOf(t: bytes, p: nat, k: nat, cs: seq<byte>)
    requires k <= |t|
  {
    forall i :: p <= i < k ==> t[i] !in cs
  }

  lemma {:induction false} FirstIsFound(t: bytes, p: nat, k: nat, cs: seq<byte>)
    requires k <= |t| && NoneOf(t, p, k, cs) && (k == |t| || FirstOf(t, p, k, cs))
    ensures Find(t, p, cs) == k
  {
    if k == |t| { FindNone(t, p, cs); } else { FindFirst(t, p, k, cs); }
  }

  // What stands between the namespace and the document is the identifier if it
  // consists of digits; beyond 31 bits the code throws. The document is the rest; it
  // is read at once or, in a binary packet, kept until the attachments are there.
  lemma {:induction false} IdentifierReads(t: bytes, pos: nat, j: nat, kind: int, pending: nat, nsp: bytes)
    requires pos <= j <= |t|
    ensures var r, s := ParseDocument(t, pos, j, 4, kind, pending, nsp), t[pos..j];
            var numbered := s != [] && OnlyDigits(s);
            if numbered && Worth(s) > 0x7FFF_FFFF then
              r == Malformed
            else
              var id := if numbered then Worth(s) else -1;
              if kind == 5 || kind == 6 then
                r == Waiting(Packet(4, kind, nsp, id, Absent, pending, [t[j..]]))
              else
                match FromText(t[j..], [])
                case None => r == Malformed
                case Some(m) => r == Complete(Packet(4, kind, nsp, id, m, pending, []))
  {
    hide Decimal, Worth, FromText;
    var s := t[pos..j];
    assert AllDigits(s) == OnlyDigits(s);
    if OnlyDigits(s) {
      assert At(s, 0, s) by { WholeStands(s); }
      WorthIsDecimal(s, 0, s);
    }
  }

  // Behind the first digits: a brace, bracket or quote in front of any slash starts
  // the document of a packet for /, with the identifier in front of it; without
  // these four nothing is read at all.
  lemma {:induction false} DocumentStands(t: bytes, pos: nat, k: nat, kind: int, pending: nat)
    requires k <= |t| && NoneOf(t, pos, k, [123, 91, 34, 47])
    ensures k == |t| ==> ParseNsp(t, pos, 4, kind, pending) == Complete(Packet(4, kind, [47], -1, Absent, pending, []))
    ensures pos <= k < |t| && t[k] in [123, 91, 34] ==>
              ParseNsp(t, pos, 4, kind, pending) == ParseDocument(t, pos, k, 4, kind, pending, [47])
  {
    hide ParseDocument, Find;
    if k == |t| || (pos <= k && t[k] in [123, 91, 34]) { FirstIsFound(t, pos, k, [123, 91, 34, 47]); }
  }

  // A slash in front of them starts a namespace. It goes up to the first comma of the
  // whole text, or to the end if that stands in front of it; behind the comma come
  // identifier and document, if there is a document, and nothing is read otherwise.
  lemma {:induction false} NamespaceStands(t: bytes, pos: nat, k: nat, c: nat, j: nat, kind: int, pending: nat)
    requires FirstOf(t, pos, k, [123, 91, 34, 47]) && t[k] == 47
    requires c <= |t| && NoneOf(t, 0, c, [44]) && (c < |t| ==> t[c] == 44)
    requires if c == |t| then j == c
             else c < j <= |t| && NoneOf(t, c + 1, j, [34, 91, 123]) && (j < |t| ==> t[j] in [34, 91, 123])
    ensures var nsp := if k <= c then t[k..c] else t[k..];
            ParseNsp(t, pos, 4, kind, pending)
            == if c == |t| || j == |t| then Complete(Packet(4, kind, nsp, -1, Absent, pending, []))
               else ParseDocument(t, c + 1, j, 4, kind, pending, nsp)
  {
    hide ParseDocument, Find;
    FirstIsFound(t, pos, k, [123, 91, 34, 47]);
    FirstIsFound(t, 0, c, [44]);
    if c < |t| {
      FirstIsFound(t, c + 1, j, [34, 91, 123]);
    } else {
      assert t[k..c] == t[k..];
    }
  }

  // The kinds without attachments; and the kinds with attachments, whose count goes
  // up to the first dash. Without a dash the header is read once more from its start.
  lemma {:induction false} KindStands(t: bytes, s: nat)
    requires |t| >= 2 && t[0] == 52
    ensures t[1] in [48, 49, 50, 51, 52] ==> Parse(t) == ParseNsp(t, 2, 4, t[1] - 48, 0)
    ensures s <= |t| && NoneOf(t, 0, s, [45]) && (s < |t| ==> t[s] == 45) && t[1] in [53, 54] ==>
              s >= 2
              && match Stoul(t[2..s])
                 case None => Parse(t) == Malformed
                 case Some(n) =>
                   Parse(t) == ParseNsp(t, if s == |t| then 0 else s + 1, 4, t[1] - 48, n % 0x1_0000_0000)
  {
    hide ParseNsp, Find, Stoul;
    if s <= |t| && NoneOf(t, 0, s, [45]) && (s < |t| ==> t[s] == 45) { FirstIsFound(t, 0, s, [45]); }
  }

  // A frame that is no message is a packet with its number, negative for a byte
  // above 127.
  lemma {:induction false} ControlStands(t: bytes)
    requires t != [] && t[0] != 52
    ensures var c: int := t[0];
            Parse(t) == ParseNsp(t, 1, if c < 128 then c - 48 else c - 304, 16, 0)
  {
    hide ParseNsp;
  }

  // Binary frames that arrive while no packet waits for them are dropped: however
  // many come in front of a packet, it is delivered all the same.
  lemma {:induction false} DroppedAtRest(stray: seq<bytes>, p: Packet, done: seq<Packet>)
    requires Valid(p) && forall t <- stray :: t != [] && t[0] == 4
    ensures Sendable(p)
    ensures ReceiveAll(Inbox(None, done), stray + Frames(p)) == Some(Inbox(None, done + [Delivered(p)]))
    decreases |stray|
  {
    hide Valid, Delivered, Frames, Sendable, Parse;
    PacketRoundTrip(p, done);
    if stray == [] {
      assert stray + Frames(p) == Frames(p);
    } else {
      assert stray[0] in stray && forall t <- stray[1..] :: t in stray;
      DroppedAtRest(stray[1..], p, done);
      var all := stray + Frames(p);
      assert all[0] == stray[0] && all[1..] == stray[1..] + Frames(p);
    }
  }

  /* What is made of a document */

  lemma {:induction false} SameHead(a: bytes, b: bytes, k: nat)
    requires 0 < k <= |a| && k <= |b| && a[..k] == b[..k]
    ensures a[0] == b[0]
  {
    assert a[0] == a[..k][0] && b[0] == b[..k][0];
  }

  // The order of keys: the first byte that differs decides, or the end.
  lemma {:induction false} LessMeans(a: bytes, b: bytes)
    ensures Less(a, b) <==> exists k :: 0 <= k <= |a| && k < |b| && a[..k] == b[..k] && (k == |a| || a[k] < b[k])
    decreases |a|
  {
    if b != [] && a != [] && a[0] == b[0] {
      LessMeans(a[1..], b[1..]);
      if Less(a, b) {
        var c, d := a[1..], b[1..];
        var k :| 0 <= k <= |c| && k < |d| && c[..k] == d[..k] && (k == |c| || c[k] < d[k]);
        assert a[..k + 1] == [a[0]] + c[..k] && b[..k + 1] == [b[0]] + d[..k];
      }
      forall k | 0 <= k <= |a| && k < |b| && a[..k] == b[..k] && (k == |a| || a[k] < b[k])
        ensures Less(a, b)
      {
        assert k > 0;
        assert a[1..][..k - 1] == a[..k][1..] && b[1..][..k - 1] == b[..k][1..];
      }
    } else {
      if Less(a, b) { assert a[..0] == b[..0]; }
      forall k | 0 <= k <= |a| && k < |b| && a[..k] == b[..k] && (k == |a| || a[k] < b[k])
        ensures Less(a, b)
      {
        if k > 0 { SameHead(a, b, k); }
      }
    }
  }

  lemma {:induction false} LessChains(a: bytes, b: bytes, c: bytes)
    requires Less(a, b) && Less(b, c)
    ensures Less(a, c)
    decreases |a|
  {
    if a != [] && a[0] == b[0] == c[0] { LessChains(a[1..], b[1..], c[1..]); }
  }

  lemma {:induction false} LessTotal(a: bytes, b: bytes)
    ensures a == b || Less(a, b) || Less(b, a)
    decreases |a|
  {
    if a != [] && b != [] && a[0] == b[0] {
      LessTotal(a[1..], b[1..]);
      assert a == [a[0]] + a[1..] && b == [b[0]] + b[1..];
    }
  }

  // No entry has a key below that of the first one, or the same behind it.
  lemma {:induction false} KeyNowhere(es: seq<Entry>, key: bytes, e: Entry)
    requires es != [] && Ascending(es)
    ensures e in es[1..] ==> e.key != es[0].key
    ensures Less(key, es[0].key) && e in es ==> e.key != key
  {
    hide Less;
    LessIrreflexive(key);
    LessIrreflexive(es[0].key);
    if e in es[1..] {
      var i :| 0 <= i < |es[1..]| && es[1..][i] == e;
      assert Less(es[0].key, es[i + 1].key);
      if Less(key, es[0].key) { LessChains(key, es[0].key, e.key); }
    }
    assert e in es <==> e == es[0] || e in es[1..];
  }

  lemma {:induction false} AscendingRest(es: seq<Entry>)
    requires es != [] && Ascending(es)
    ensures Ascending(es[1..])
  {
    hide Less;
  }

  // An entry replaces the one with its key, and no other.
  lemma {:induction false} InsertReplaces(es: seq<Entry>, key: bytes, value: Message, e: Entry)
    requires Ascending(es)
    ensures e in Insert(es, key, value) <==> e == Entry(key, value) || (e in es && e.key != key)
    decreases |es|
  {
    hide Less, Ascending;
    if es != [] {
      AscendingRest(es);
      KeyNowhere(es, key, e);
      if key != es[0].key && !Less(key, es[0].key) { InsertReplaces(es[1..], key, value, e); }
      assert e in es <==> e == es[0] || e in es[1..];
    }
  }

  lemma {:induction false} InsertAscends(es: seq<Entry>, key: bytes, value: Message)
    requires Ascending(es)
    ensures Ascending(Insert(es, key, value))
    decreases |es|
  {
    hide Less;
    if es != [] && key != es[0].key {
      AscendingRest(es);
      LessTotal(key, es[0].key);
      if Less(key, es[0].key) {
        var r := [Entry(key, value)] + es;
        forall i, j | 0 <= i < j < |r|
          ensures Less(r[i].key, r[j].key)
        {
          if i == 0 && j > 1 { LessChains(key, es[0].key, es[j - 1].key); }
        }
      } else {
        var rest := Insert(es[1..], key, value);
        InsertAscends(es[1..], key, value);
        forall j | 0 <= j < |rest|
          ensures Less(es[0].key, rest[j].key)
        {
          InsertReplaces(es[1..], key, value, rest[j]);
          assert rest[j] in rest;
          AboveFirst(es, rest[j]);
        }
      }
    }
  }

  lemma {:induction false} AboveFirst(es: seq<Entry>, e: Entry)
    requires es != [] && Ascending(es)
    ensures e in es[1..] ==> Less(es[0].key, e.key)
  {
    hide Less;
    if e in es[1..] {
      var i :| 0 <= i < |es[1..]| && es[1..][i] == e;
      assert es[i + 1] == e;
    }
  }

  // The entry e comes from member number i, the last one with its name.
  predicate From(ms: seq<Member>, bufs: seq<bytes>, e: Entry, i: nat) {
    && i < |ms| && ms[i].name == e.key && FromNode(ms[i].value, bufs) == Some(e.value)
    && forall j :: i < j < |ms| ==> ms[j].name != e.key
  }

  ghost predicate Wins(ms: seq<Member>, bufs: seq<bytes>, e: Entry) { exists i: nat :: From(ms, bufs, e, i) }

  // Of members with the same name the last one wins; the entries come in the
  // order of their keys.
  lemma {:induction false} LastMemberWins(ms: seq<Member>, bufs: seq<bytes>)
    ensures var r := FromMembers(ms, bufs, []);
            r.Some? ==> Ascending(r.value) && forall e :: e in r.value <==> Wins(ms, bufs, e)
  {
    hide FromNode, Less, Wins;
    var r := FromMembers(ms, bufs, []);
    if r.Some? {
      forall e
        ensures e in r.value <==> Wins(ms, bufs, e)
      {
        MembersWin(ms, bufs, [], e);
      }
      MembersAscend(ms, bufs, []);
    }
  }

  lemma {:induction false} MembersAscend(ms: seq<Member>, bufs: seq<bytes>, acc: seq<Entry>)
    requires Ascending(acc) && FromMembers(ms, bufs, acc).Some?
    ensures Ascending(FromMembers(ms, bufs, acc).value)
    decreases |ms|
  {
    hide FromNode, Less, Ascending, Insert;
    if ms != [] {
      var x := FromNode(ms[0].value, bufs).value;
      InsertAscends(acc, ms[0].name, x);
      MembersAscend(ms[1..], bufs, Insert(acc, ms[0].name, x));
    }
  }

  lemma {:induction false} MembersWin(ms: seq<Member>, bufs: seq<bytes>, acc: seq<Entry>, e: Entry)
    requires Ascending(acc) && FromMembers(ms, bufs, acc).Some?
    ensures e in FromMembers(ms, bufs, acc).value <==>
              Wins(ms, bufs, e) || (e in acc && forall m <- ms :: m.name != e.key)
    decreases |ms|
  {
    hide FromNode, Less, Ascending, Insert, Wins;
    if ms == [] {
      NobodyWins(bufs, e);
    } else {
      var x := FromNode(ms[0].value, bufs).value;
      InsertAscends(acc, ms[0].name, x);
      InsertReplaces(acc, ms[0].name, x, e);
      MembersWin(ms[1..], bufs, Insert(acc, ms[0].name, x), e);
      WinsShifts(ms, bufs, e);
      assert forall m :: m in ms <==> m == ms[0] || m in ms[1..];
    }
  }

  lemma {:induction false} NobodyWins(bufs: seq<bytes>, e: Entry)
    ensures !Wins([], bufs, e)
  {
  }

  // The last member with a name, seen from the second member on.
  lemma {:induction false} WinsShifts(ms: seq<Member>, bufs: seq<bytes>, e: Entry)
    requires ms != []
    ensures Wins(ms, bufs, e)
       <==> || Wins(ms[1..], bufs, e)
            || (e.key == ms[0].name && FromNode(ms[0].value, bufs) == Some(e.value)
                && forall m <- ms[1..] :: m.name != e.key)
  {
    hide FromNode;
    var rest := ms[1..];
    if Wins(ms, bufs, e) {
      var i: nat :| From(ms, bufs, e, i);
      if i > 0 {
        forall j | i - 1 < j < |rest|
          ensures rest[j].name != e.key
        {
          assert ms[j + 1].name != e.key;
        }
        assert From(rest, bufs, e, i - 1);
      } else {
        forall m <- rest
          ensures m.name != e.key
        {
          var j :| 0 <= j < |rest| && rest[j] == m;
          assert ms[j + 1].name != e.key;
        }
      }
    }
    if Wins(rest, bufs, e) {
      var i: nat :| From(rest, bufs, e, i);
      forall j | i + 1 < j < |ms|
        ensures ms[j].name != e.key
      {
        assert rest[j - 1].name != e.key;
      }
      assert From(ms, bufs, e, i + 1);
    }
    if e.key == ms[0].name && FromNode(ms[0].value, bufs) == Some(e.value) && forall m <- rest :: m.name != e.key {
      forall j | 0 < j < |ms|
        ensures ms[j].name != e.key
      {
        assert rest[j - 1] in rest;
      }
      assert From(ms, bufs, e, 0);
    }
  }

  // What leaves become, and an object with the mark.
  lemma {:induction false} LeavesRead(n: int, x: bytes, ms: seq<Member>, bufs: seq<bytes>)
    ensures FromNode(NullNode, bufs) == Some(NullMsg)
    ensures FromNode(BoolNode(true), bufs) == Some(BoolMsg(true))
    ensures FromNode(BoolNode(false), bufs) == Some(BoolMsg(false))
    ensures FromNode(StringNode(x), bufs) == Some(StringMsg(x)) && FromNode(DoubleNode(x), bufs) == Some(DoubleMsg(x))
    ensures FromNode(IntegerNode(n, Canonical(n)), bufs)
         == Some(if -0x8000_0000_0000_0000 <= n < 0x8000_0000_0000_0000 then IntMsg(n) else Absent)
    ensures FindMember(ms, HOLDER) == Some(BoolNode(true)) && |bufs| <= 0x7FFF_FFFF ==>
              match FindMember(ms, NUMBER)
              case Some(IntegerNode(k, f)) =>
                f.isInt ==>
                  FromNode(ObjectNode(ms), bufs) == Some(if 0 <= k < |bufs| then BinaryMsg(bufs[k]) else Absent)
              case _ => FromNode(ObjectNode(ms), bufs) == None
  {
  }
}
