// Socket.IO packets: the compact header, the frames a packet is sent as, and
// the state machine that puts the frames of a stream together again.

module SioPacket {
  import opened Bytes
  import opened JsonTypes
  import opened JsonGrammar
  import opened JsonDocument
  import JsonFaults
  import opened JsonWriter
  import opened JsonRoundTrip
  import JsonStringLoop
  import opened SioMessage

  const CONNECT: int := 0
  const DISCONNECT: int := 1
  const EVENT: int := 2
  const ACK: int := 3
  const BINARY_EVENT: int := 5
  const BINARY_ACK: int := 6
  const UNDETERMINED: int := 16
  const FRAME_MESSAGE: int := 4

  const ROOT: bytes := [SLASH]

  // The fields of a packet. The list of buffers is only used while a packet is
  // received: first the document text, then the attachments.
  datatype Packet = Packet(
    frame: int, kind: int, nsp: bytes, id: int, message: Message, pending: nat, buffers: seq<bytes>)

  predicate IsBinaryKind(kind: int) { kind == BINARY_EVENT || kind == BINARY_ACK }

  /* Sending */

  // The kind without its undetermined mark, adjusted to whether there are attachments.
  function SentKind(kind: int, hasBinary: bool): int {
    var k := if kind >= UNDETERMINED then kind - UNDETERMINED else kind;
    if k == EVENT && hasBinary then BINARY_EVENT
    else if k == ACK && hasBinary then BINARY_ACK
    else k
  }

  function CountText(n: nat): bytes { if n > 0 then Digits(n) + [MINUS] else [] }

  function NspText(nsp: bytes, more: bool): bytes {
    if nsp != [] && nsp != ROOT then nsp + (if more then [COMMA] else []) else []
  }

  function IdText(id: int): bytes { if id >= 0 then Digits(id) else [] }

  function BodyText(m: Message): bytes
    requires Sized(m)
  {
    if m == Absent then [] else Print(ToNode(m, 0))
  }

  // The header digits: frame, kind and, for binary packets, the attachment count.
  function HeadText(p: Packet): bytes
    requires 0 <= SentKind(p.kind, Binaries(p.message) != []) <= 6
  {
    var n := |Binaries(p.message)|;
    [ZERO + 4, ZERO + SentKind(p.kind, Binaries(p.message) != [])] + CountText(n)
  }

  function PacketText(p: Packet): bytes
    requires p.frame == FRAME_MESSAGE && Sized(p.message)
    requires 0 <= SentKind(p.kind, Binaries(p.message) != []) <= 6
  {
    HeadText(p) + (NspText(p.nsp, p.message != Absent || p.id >= 0) + (IdText(p.id) + BodyText(p.message)))
  }

  predicate Sendable(p: Packet) {
    0 <= p.frame <= 6 && (p.frame == FRAME_MESSAGE ==>
      Sized(p.message) && 0 <= SentKind(p.kind, Binaries(p.message) != []) <= 6)
  }

  // The frames of a packet in the order they are sent.
  function Frames(p: Packet): seq<bytes>
    requires Sendable(p)
  {
    if p.frame != FRAME_MESSAGE then [[ZERO + p.frame]]
    else [PacketText(p)] + Binaries(p.message)
  }

  /* Receiving */

  // The first position from p on that holds one of the bytes cs; the length when there is none.
  function Find(t: bytes, p: nat, cs: seq<byte>): (r: nat)
    ensures r <= |t|
    ensures r < |t| ==> p <= r && t[r] in cs
    decreases |t| - p
  {
    if p >= |t| then |t| else if t[p] in cs then p else Find(t, p + 1, cs)
  }

  predicate AllDigits(s: bytes) { forall c <- s :: IsDigit(c) }

  datatype Parsed = Complete(p: Packet) | Waiting(p: Packet) | Malformed

  // The root that a document holds after parsing a text; null when the text is refused.
  function Root(t: bytes): Node {
    match ParsedDocument(t)
    case Err(_, _, _) => NullNode
    case Ok(_, log) =>
      var st := Build([], log);
      if st.Some? && |st.value| == 1 then st.value[0] else NullNode
  }

  // The reader fails an assertion on the text, or reads behind it.
  predicate Faulty(t: bytes) {
    JsonStringLoop.Aftermath(t, JsonFaults.ErrorOf(ParsedDocument(t))) != JsonStringLoop.NoFault
  }

  // The message of a document text and its attachments; None where the reader
  // does not come to an end or an assertion fails on the document.
  function FromText(t: bytes, bufs: seq<bytes>): Option<Message> {
    if Faulty(t) then None else FromNode(Root(t), bufs)
  }

  predicate IsBlank(c: byte) { c == SPACE || TAB <= c <= CR }

  // The first position from p on that holds no white space.
  function SkipBlank(s: bytes, p: nat): (r: nat)
    requires p <= |s|
    ensures p <= r <= |s|
    decreases |s| - p
  {
    if p < |s| && IsBlank(s[p]) then SkipBlank(s, p + 1) else p
  }

  // A number as std::stoul reads it from a text without minus: blanks, a sign
  // and digits in front of anything. None where it throws.
  function Stoul(s: bytes): Option<nat> {
    var b := SkipBlank(s, 0);
    var d := if Peek(s, b) == PLUS then b + 1 else b;
    var e := DigitsEnd(s, d);
    if e == d || Decimal(s, d, e) >= TWO64 then None else Some(Decimal(s, d, e))
  }

  // The rest of a packet once its namespace is known: an id in front of the
  // document at j, and the document.
  function ParseDocument(t: bytes, pos: nat, j: nat, frame: int, kind: int, pending: nat, nsp: bytes): Parsed
    requires pos <= j <= |t|
  {
    var s := t[pos..j];
    var n := if AllDigits(s) then Decimal(s, 0, |s|) else 0;
    if s != [] && n >= TWO31 then Malformed
    else
      var id := if s != [] && AllDigits(s) then n else -1;
      if frame == FRAME_MESSAGE && IsBinaryKind(kind) then
        Waiting(Packet(frame, kind, nsp, id, Absent, pending, [t[j..]]))
      else
        match FromText(t[j..], [])
        case None => Malformed
        case Some(m) => Complete(Packet(frame, kind, nsp, id, m, pending, []))
  }

  // Behind the header digits, at pos.
  function ParseNsp(t: bytes, pos: nat, frame: int, kind: int, pending: nat): Parsed {
    var k := Find(t, pos, [LBRACE, LBRACKET, QUOTE, SLASH]);
    if k == |t| then Complete(Packet(frame, kind, ROOT, -1, Absent, pending, []))
    else if t[k] != SLASH then ParseDocument(t, pos, k, frame, kind, pending, ROOT)
    else
      var comma := Find(t, 0, [COMMA]);
      if comma == |t| then Complete(Packet(frame, kind, t[k..], -1, Absent, pending, []))
      else
        var nsp := if k <= comma then t[k..comma] else t[k..];
        var j := Find(t, comma + 1, [QUOTE, LBRACKET, LBRACE]);
        if j == |t| then Complete(Packet(frame, kind, nsp, -1, Absent, pending, []))
        else ParseDocument(t, comma + 1, j, frame, kind, pending, nsp)
  }

  // A byte as a signed char.
  function Signed(c: byte): int { if c < 128 then c else c - 256 }

  // A text frame.
  function Parse(t: bytes): Parsed {
    var frame := Signed(Peek(t, 0)) - ZERO;
    if frame != FRAME_MESSAGE then ParseNsp(t, 1, frame, UNDETERMINED, 0)
    else
      var kind := Signed(Peek(t, 1)) - ZERO;
      if kind < 0 || kind > 6 then Complete(Packet(frame, kind, [], -1, Absent, 0, []))
      else if !IsBinaryKind(kind) then ParseNsp(t, 2, frame, kind, 0)
      else
        var score := Find(t, 0, [MINUS]);
        match Stoul(t[2..score])
        case None => Malformed
        case Some(n) => ParseNsp(t, if score < |t| then score + 1 else 0, frame, kind, n % TWO32)
  }

  // A further frame of a packet that waits for attachments.
  function ParseBuffer(p: Packet, data: bytes): Parsed {
    if p.pending == 0 then Complete(p)
    else
      var bufs := p.buffers + [data];
      if p.pending > 1 then Waiting(p.(buffers := bufs, pending := p.pending - 1))
      else
        match FromText(bufs[0], bufs[1..])
        case None => Malformed
        case Some(m) => Complete(p.(message := m, pending := 0, buffers := []))
  }

  // The receiving end: the packet still being put together, and what was delivered.
  datatype Inbox = Inbox(partial: Option<Packet>, delivered: seq<Packet>)

  function Received(b: Inbox, r: Parsed): Option<Inbox> {
    match r
    case Malformed => None
    case Waiting(p) => Some(b.(partial := Some(p)))
    case Complete(p) => Some(Inbox(None, b.delivered + [p]))
  }

  // One incoming frame; None for what the encoder never produces.
  function Receive(b: Inbox, t: bytes): Option<Inbox> {
    if b.partial.Some? then Received(b, ParseBuffer(b.partial.value, t))
    else if t != [] && t[0] == 4 then Some(b)
    else Received(b, Parse(t))
  }

  function ReceiveAll(b: Inbox, ts: seq<bytes>): Option<Inbox>
    decreases |ts|
  {
    if ts == [] then Some(b)
    else
      match Receive(b, ts[0])
      case None => None
      case Some(c) => ReceiveAll(c, ts[1..])
  }

  // Frames as the encode callback gets them when they are attachments.
  function AsBinary(bs: seq<bytes>): (r: seq<(bool, bytes)>)
    ensures |r| == |bs| && forall i :: 0 <= i < |bs| ==> r[i] == (true, bs[i])
  {
    seq(|bs|, i requires 0 <= i < |bs| => (true, bs[i]))
  }

  lemma NoneAsBinary()
    ensures AsBinary([]) == []
  {
  }

  lemma OneAsBinary(bs: seq<bytes>, i: nat)
    requires i < |bs|
    ensures AsBinary(bs[..i + 1]) == AsBinary(bs[..i]) + [(true, bs[i])]
  {
  }

  // A packet object: it is filled by parsing frames, and adjusts its kind when it
  // is turned into frames.
  class PacketImpl {
    var frame: int
    var kind: int
    var nsp: bytes
    var id: int
    var message: Message
    var pending: nat
    var buffers: seq<bytes>

    ghost function Value(): Packet
      reads this
    {
      Packet(frame, kind, nsp, id, message, pending, buffers)
    }

    // A packet to be parsed.
    constructor ()
      ensures kind == UNDETERMINED && nsp == []
    {
      frame, kind, nsp, id, message, pending, buffers := 0, UNDETERMINED, [], -1, Absent, 0, [];
    }

    // An event or an acknowledgement; whether it is binary is not determined yet.
    constructor Carrying(nsp: bytes, message: Message, id: int, isAck: bool)
      requires isAck ==> id >= 0
      ensures Value() == Packet(FRAME_MESSAGE, (if isAck then ACK else EVENT) + UNDETERMINED, nsp, id, message, 0, [])
    {
      this.frame, this.kind := FRAME_MESSAGE, (if isAck then ACK else EVENT) + UNDETERMINED;
      this.nsp, this.id, this.message, pending, buffers := nsp, id, message, 0, [];
    }

    // The kind without its undetermined mark, as it is sent.
    method DetermineKind(hasBinary: bool)
      modifies this`kind
      ensures kind == SentKind(old(kind), hasBinary)
    {
      kind := if kind >= UNDETERMINED then kind - UNDETERMINED else kind;
      if kind == EVENT {
        kind := if hasBinary then BINARY_EVENT else EVENT;
      } else if kind == ACK {
        kind := if hasBinary then BINARY_ACK else ACK;
      }
    }

    // Kind, attachment count, namespace and id.
    method HeaderText(count: nat, hasMessage: bool) returns (ss: bytes)
      requires 0 <= kind <= 6
      ensures ss == [ZERO + kind] + CountText(count) + NspText(nsp, hasMessage || id >= 0) + IdText(id)
    {
      hide Digits;
      ss := [ZERO + kind];
      if count > 0 {
        ss := ss + (Digits(count) + [MINUS]);
      }
      if nsp != [] && nsp != ROOT {
        var text := nsp;
        if hasMessage || id >= 0 {
          text := text + [COMMA];
        }
        ss := ss + text;
      }
      if id >= 0 {
        ss := ss + Digits(id);
      }
    }

    // The text of a packet and its attachments, in the order they are sent.
    method Accept() returns (payload: bytes, attachments: seq<bytes>, hasBinary: bool)
      requires Sendable(Value())
      modifies this`kind
      ensures [payload] + attachments == Frames(old(Value())) && hasBinary == (attachments != [])
      ensures frame == FRAME_MESSAGE ==> kind == SentKind(old(kind), hasBinary)
      ensures frame != FRAME_MESSAGE ==> kind == old(kind)
    {
      hide ToNode, Print, Binaries, CountText, NspText, IdText, SentKind, PacketText;
      payload, attachments, hasBinary := [ZERO + frame], [], false;
      if frame != FRAME_MESSAGE {
        return;
      }
      ghost var p := Value();
      AbsentHasNone();
      var hasMessage := message != Absent;
      var doc := NullNode;
      if hasMessage {
        var list := new Attachments();
        doc := list.AcceptMessage(message);
        attachments := list.buffers;
        assert [] + Binaries(message) == Binaries(message);
      }
      hasBinary := attachments != [];
      DetermineKind(hasBinary);
      var ss := HeaderText(|attachments|, hasMessage);
      payload := payload + ss;
      if hasMessage {
        payload := payload + Print(doc);
      }
      TextIs(p, ss, payload);
    }

    // A text frame; says whether attachments are to follow, or that the code
    // throws on a number, fails an assertion on the document or reads behind it.
    method DoParse(t: bytes) returns (waits: bool, fails: bool)
      requires kind == UNDETERMINED && nsp == []
      modifies this
      ensures fails == Parse(t).Malformed?
      ensures !fails ==> Value() == Parse(t).p && waits == Parse(t).Waiting?
    {
      hide ParseNsp, Find, Stoul;
      frame := Signed(Peek(t, 0)) - ZERO;
      message, id, buffers, pending := Absent, -1, [], 0;
      var pos := 1;
      if frame == FRAME_MESSAGE {
        kind := Signed(Peek(t, pos)) - ZERO;
        if kind < 0 || kind > 6 {
          return false, false;
        }
        pos := pos + 1;
        if IsBinaryKind(kind) {
          var score := Find(t, 0, [MINUS]);
          var n := Stoul(t[pos..score]);
          if n.None? {
            return false, true;
          }
          pending := n.value % TWO32;
          pos := if score < |t| then score + 1 else 0;
        }
      }
      waits, fails := DoParseNsp(t, pos);
    }

    // Namespace, id and document.
    method DoParseNsp(t: bytes, start: nat) returns (waits: bool, fails: bool)
      requires message == Absent && id == -1 && buffers == []
      modifies this
      ensures fails == ParseNsp(t, start, old(frame), old(kind), old(pending)).Malformed?
      ensures !fails ==>
                && Value() == ParseNsp(t, start, old(frame), old(kind), old(pending)).p
                && waits == ParseNsp(t, start, old(frame), old(kind), old(pending)).Waiting?
    {
      hide Find, ParseDocument;
      var pos := start;
      var jsonPos := Find(t, pos, [LBRACE, LBRACKET, QUOTE, SLASH]);
      if jsonPos == |t| {
        nsp := ROOT;
        return false, false;
      }
      if t[jsonPos] == SLASH {
        var comma := Find(t, 0, [COMMA]);
        if comma == |t| {
          nsp := t[jsonPos..];
          return false, false;
        }
        nsp := if jsonPos <= comma then t[jsonPos..comma] else t[jsonPos..];
        pos := comma + 1;
        jsonPos := Find(t, pos, [QUOTE, LBRACKET, LBRACE]);
        if jsonPos == |t| {
          return false, false;
        }
      } else {
        nsp := ROOT;
      }
      waits, fails := DoParseDocument(t, pos, jsonPos);
    }

    method DoParseDocument(t: bytes, pos: nat, jsonPos: nat) returns (waits: bool, fails: bool)
      requires pos <= jsonPos <= |t|
      requires message == Absent && id == -1 && buffers == []
      modifies this
      ensures var r := ParseDocument(t, pos, jsonPos, old(frame), old(kind), old(pending), old(nsp));
              fails == r.Malformed? && (!fails ==> Value() == r.p && waits == r.Waiting?)
    {
      hide FromText, Decimal;
      waits, fails := false, false;
      if pos < jsonPos {
        var digits := t[pos..jsonPos];
        var n := if AllDigits(digits) then Decimal(digits, 0, |digits|) else 0;
        if n >= TWO31 {
          return false, true;
        }
        id := if AllDigits(digits) then n else -1;
      }
      if frame == FRAME_MESSAGE && IsBinaryKind(kind) {
        buffers := buffers + [t[jsonPos..]];
        return true, false;
      }
      var m := FromText(t[jsonPos..], []);
      if m.None? {
        return false, true;
      }
      message := m.value;
    }

    // A further frame; says whether more are to follow, or that an assertion on
    // the document fails or the document is read beyond its end.
    method DoParseBuffer(data: bytes) returns (waits: bool, fails: bool)
      requires pending > 0 ==> buffers != []
      modifies this
      ensures fails == ParseBuffer(old(Value()), data).Malformed?
      ensures !fails ==>
                Value() == ParseBuffer(old(Value()), data).p && waits == ParseBuffer(old(Value()), data).Waiting?
    {
      hide FromText;
      waits, fails := false, false;
      if pending > 0 {
        buffers := buffers + [data];
        pending := pending - 1;
        if pending == 0 {
          var text := buffers[0];
          buffers := buffers[1..];
          var m := FromText(text, buffers);
          if m.None? {
            return false, true;
          }
          message := m.value;
          buffers := [];
          return;
        }
        return true, false;
      }
    }
  }

  lemma AbsentHasNone()
    ensures Binaries(Absent) == []
  {
  }

  // The text as it is put together piece by piece.
  lemma TextIs(p: Packet, ss: bytes, payload: bytes)
    requires Sendable(p) && p.frame == FRAME_MESSAGE
    requires ss == [ZERO + SentKind(p.kind, Binaries(p.message) != [])] + CountText(|Binaries(p.message)|)
                   + NspText(p.nsp, p.message != Absent || p.id >= 0) + IdText(p.id)
    requires payload == [ZERO + 4] + ss + (if p.message != Absent then BodyText(p.message) else [])
    ensures payload == PacketText(p)
  {
    hide CountText, NspText, IdText, Binaries, SentKind, ToNode, Print;
    var head := [ZERO + SentKind(p.kind, Binaries(p.message) != [])] + CountText(|Binaries(p.message)|);
    assert HeadText(p) == [ZERO + 4] + head;
    var nspText := NspText(p.nsp, p.message != Absent || p.id >= 0);
    assert payload == ([ZERO + 4] + head) + (nspText + (IdText(p.id) + BodyText(p.message)));
  }

  // The packet manager, whose callbacks are logs.
  class PacketManager {
    var partial: PacketImpl?
    var delivered: seq<Packet>
    var sent: seq<(bool, bytes)>

    ghost function State(): Inbox
      reads this, partial
    {
      Inbox(if partial == null then None else Some(partial.Value()), delivered)
    }

    constructor ()
      ensures State() == Inbox(None, []) && sent == []
    {
      partial, delivered, sent := null, [], [];
    }

    // Sends the text frame and then the attachments, each marked as text or binary.
    method Encode(p: PacketImpl)
      requires Sendable(p.Value())
      modifies this`sent, p`kind
      ensures var fs := Frames(old(p.Value())); sent == old(sent) + [(false, fs[0])] + AsBinary(fs[1..])
    {
      hide PacketText, AsBinary, Frames;
      var text, buffers, hasBinary := p.Accept();
      ghost var start := sent + [(false, text)];
      sent := sent + [(false, text)];
      NoneAsBinary();
      var i := 0;
      assert buffers[..0] == [] && start + [] == start;
      while i < |buffers|
        invariant 0 <= i <= |buffers| && sent == start + AsBinary(buffers[..i])
      {
        OneAsBinary(buffers, i);
        assert start + (AsBinary(buffers[..i]) + [(true, buffers[i])]) == sent + [(true, buffers[i])];
        sent := sent + [(true, buffers[i])];
        i := i + 1;
      }
      ghost var fs := [text] + buffers;
      assert buffers[..i] == buffers && fs[1..] == buffers;
    }

    // A packet that waits for attachments holds its document text.
    ghost predicate Valid()
      reads this, partial
    {
      partial != null && partial.pending > 0 ==> partial.buffers != []
    }

    // One incoming frame; says whether the code throws or fails an assertion on
    // it, or reads behind it.
    method PutPayload(payload: bytes) returns (fails: bool)
      requires Valid()
      modifies this, partial
      ensures fails == Receive(old(State()), payload).None?
      ensures !fails ==> Valid() && Some(State()) == Receive(old(State()), payload)
      ensures sent == old(sent) && (fails ==> delivered == old(delivered))
      ensures partial == null || partial == old(partial) || fresh(partial)
    {
      hide Parse, ParseBuffer;
      var isText := |payload| > 0 && payload[0] == ZERO + 4;
      var isBinary := |payload| > 0 && payload[0] == 4;
      fails := false;
      var waits: bool;
      var p: PacketImpl;
      if isText && partial == null {
        p := new PacketImpl();
        waits, fails := p.DoParse(payload);
        if fails { return; }
        if waits {
          WaitingHoldsText(payload);
          partial := p;
          return;
        }
      } else if isBinary || partial != null {
        if partial == null {
          return;
        }
        GrowingHoldsText(partial.Value(), payload);
        waits, fails := partial.DoParseBuffer(payload);
        if fails || waits {
          return;
        }
        p := partial;
        partial := null;
      } else {
        ControlIsNeverWaiting(payload);
        p := new PacketImpl();
        waits, fails := p.DoParse(payload);
        if fails { return; }
      }
      delivered := delivered + [Packet(p.frame, p.kind, p.nsp, p.id, p.message, p.pending, p.buffers)];
    }
  }

  lemma WaitingHoldsText(t: bytes)
    requires Parse(t).Waiting?
    ensures Parse(t).p.buffers != []
  {
    hide Stoul, Find, FromText, Decimal;
  }

  lemma GrowingHoldsText(p: Packet, data: bytes)
    ensures ParseBuffer(p, data).Waiting? ==> ParseBuffer(p, data).p.buffers != []
  {
  }

  // Only message frames wait for attachments.
  lemma {:induction false} ControlIsNeverWaiting(t: bytes)
    requires t == [] || t[0] != ZERO + 4
    ensures !Parse(t).Waiting?
  {
  }

  /* What may be sent, and what arrives */

  predicate NoDoubleMsg(m: Message) {
    match m
    case DoubleMsg(_) => false
    case ArrayMsg(xs) => forall x <- xs :: NoDoubleMsg(x)
    case ObjectMsg(es) => forall e <- es :: NoDoubleMsg(e.value)
    case _ => true
  }

  // A namespace is empty or starts with a slash, and holds no comma.
  predicate GoodNsp(nsp: bytes) { nsp == [] || (nsp[0] == SLASH && COMMA !in nsp) }

  // The packets a client builds: events and acks carry arrays, a connect may
  // carry an object, a disconnect carries nothing. No payload is taken for a
  // placeholder, holds a double or is too large for a 32-bit count.
  predicate Valid(p: Packet) {
    if p.frame != FRAME_MESSAGE then 0 <= p.frame <= 6
    else
      && p.kind in {CONNECT, DISCONNECT, EVENT, ACK, EVENT + UNDETERMINED, ACK + UNDETERMINED}
      && GoodNsp(p.nsp)
      && -1 <= p.id < TWO31
      && (p.kind == CONNECT || p.kind == DISCONNECT ==> p.id == -1 && Binaries(p.message) == [])
      && (p.kind == CONNECT ==> p.message.Absent? || p.message.ObjectMsg?)
      && (p.kind == DISCONNECT ==> p.message.Absent?)
      && (p.kind != CONNECT && p.kind != DISCONNECT ==> p.message.ArrayMsg?)
      && (p.message.Absent? || (Wf(p.message) && Genuine(p.message) && NoDoubleMsg(p.message)))
      && Sized(p.message) && |Binaries(p.message)| < TWO31
  }

  function SeenNsp(nsp: bytes): bytes { if nsp == [] then ROOT else nsp }

  // The packet that the other side gets to see.
  function Delivered(p: Packet): Packet
  {
    if p.frame != FRAME_MESSAGE then Packet(p.frame, UNDETERMINED, ROOT, -1, Absent, 0, [])
    else
      Packet(FRAME_MESSAGE, SentKind(p.kind, Binaries(p.message) != []), SeenNsp(p.nsp),
             p.id, p.message, 0, [])
  }

  /* Scanning the header */

  lemma {:induction false} FindFirst(t: bytes, p: nat, q: nat, cs: seq<byte>)
    requires p <= q < |t| && t[q] in cs
    requires forall i :: p <= i < q ==> t[i] !in cs
    ensures Find(t, p, cs) == q
    decreases q - p
  {
    if p < q { FindFirst(t, p + 1, q, cs); }
  }

  lemma {:induction false} FindNone(t: bytes, p: nat, cs: seq<byte>)
    requires forall i :: p <= i < |t| ==> t[i] !in cs
    ensures Find(t, p, cs) == |t|
    decreases |t| - p
  {
    if p < |t| { FindNone(t, p + 1, cs); }
  }

  lemma {:induction false} DigitsAreDigits(n: nat)
    ensures AllDigits(Digits(n)) && Decimal(Digits(n), 0, |Digits(n)|) == n
  {
    var d := Digits(n);
    assert d[0..0 + |d|] == d;
    DigitsRead(d, 0, n);
    forall c <- d
      ensures IsDigit(c)
    {
      var i :| 0 <= i < |d| && d[i] == c;
      assert IsDigit(Peek(d, i));
    }
  }

  lemma {:induction false} NodeIsPrintable(m: Message, n: nat)
    requires Sized(m) && NoDoubleMsg(m)
    ensures Printable(ToNode(m, n)) && AllCanonical(ToNode(m, n))
    decreases m, 1
  {
    match m
    case ArrayMsg(xs) => ElementsArePrintable(xs, n);
    case ObjectMsg(es) => MembersArePrintable(es, n);
    case _ =>
  }

  lemma {:induction false} ElementsArePrintable(xs: seq<Message>, n: nat)
    requires forall x <- xs :: Sized(x) && NoDoubleMsg(x)
    ensures forall v <- ToElements(xs, n) :: Printable(v) && AllCanonical(v)
    decreases xs, 0
  {
    hide Printable, AllCanonical, ToNode, Binaries, Sized, NoDoubleMsg;
    if xs != [] {
      NodeIsPrintable(xs[0], n);
      ElementsArePrintable(xs[1..], n + |Binaries(xs[0])|);
    }
  }

  lemma {:induction false} MembersArePrintable(es: seq<Entry>, n: nat)
    requires forall e <- es :: Sized(e.value) && NoDoubleMsg(e.value)
    ensures forall v <- ToMembers(es, n) :: Printable(v.value) && AllCanonical(v.value)
    decreases es, 0
  {
    hide Printable, AllCanonical, ToNode, Binaries, Sized, NoDoubleMsg;
    if es != [] {
      assert es[0].value < es[0];
      NodeIsPrintable(es[0].value, n);
      MembersArePrintable(es[1..], n + |Binaries(es[0].value)|);
    }
  }

  // The document of a message survives its text.
  lemma {:induction false} RootOfPrinted(m: Message)
    requires Sized(m) && NoDoubleMsg(m)
    ensures Root(Print(ToNode(m, 0))) == ToNode(m, 0) && !Faulty(Print(ToNode(m, 0)))
  {
    NodeIsPrintable(m, 0);
    PrintThenParse(ToNode(m, 0));
  }

  predicate StartsBody(c: byte) { c == LBRACE || c == LBRACKET }

  lemma {:induction false} BodyStarts(m: Message)
    requires Sized(m) && (m.ArrayMsg? || m.ObjectMsg?)
    ensures BodyText(m) != [] && StartsBody(BodyText(m)[0])
  {
  }

  // An id and a document in front of the end of the text.
  lemma {:induction false} DocumentParses(t: bytes, pos: nat, id: int, body: bytes, frame: int, kind: int,
                                          pending: nat, nsp: bytes)
    requires pos <= |t| && t[pos..] == IdText(id) + body && -1 <= id < TWO31
    ensures pos + |IdText(id)| <= |t|
    ensures ParseDocument(t, pos, pos + |IdText(id)|, frame, kind, pending, nsp)
         == if frame == FRAME_MESSAGE && IsBinaryKind(kind) then
              Waiting(Packet(frame, kind, nsp, id, Absent, pending, [body]))
            else if FromText(body, []).None? then Malformed
            else Complete(Packet(frame, kind, nsp, id, FromText(body, []).value, pending, []))
  {
    hide FromText, Digits;
    var j := pos + |IdText(id)|;
    assert t[pos..j] == t[pos..][..|IdText(id)|] == IdText(id);
    assert t[j..] == t[pos..][|IdText(id)|..] == body;
    if id >= 0 { DigitsAreDigits(id); }
  }

  lemma {:induction false} IdDigits(id: int)
    ensures AllDigits(IdText(id))
  {
    if id >= 0 { DigitsAreDigits(id); }
  }

  // Without a namespace the document is found behind the id.
  lemma {:induction false} RootNspParses(t: bytes, pos: nat, id: int, body: bytes, frame: int, kind: int, pending: nat)
    requires pos <= |t| && t[pos..] == IdText(id) + body && -1 <= id < TWO31
    requires if body == [] then id == -1 else StartsBody(body[0])
    ensures body != [] ==> pos + |IdText(id)| <= |t|
    ensures ParseNsp(t, pos, frame, kind, pending)
         == if body == [] then Complete(Packet(frame, kind, ROOT, -1, Absent, pending, []))
            else ParseDocument(t, pos, pos + |IdText(id)|, frame, kind, pending, ROOT)
  {
    hide ParseDocument, Digits;
    var cs := [LBRACE, LBRACKET, QUOTE, SLASH];
    var rest := t[pos..];
    if body == [] {
      assert rest == [];
      FindNone(t, pos, cs);
    } else {
      var j := pos + |IdText(id)|;
      assert t[j] == rest[|IdText(id)|] == body[0];
      IdDigits(id);
      forall i | pos <= i < j
        ensures t[i] !in cs
      {
        assert t[i] == rest[i - pos] == IdText(id)[i - pos] && IdText(id)[i - pos] in IdText(id);
      }
      FindFirst(t, pos, j, cs);
    }
  }

  // A namespace ends at the first comma of the whole text.
  lemma {:induction false} CommaFound(t: bytes, pos: nat, nsp: bytes, tail: bytes)
    requires nsp != [] && nsp[0] == SLASH && COMMA !in nsp
    requires pos <= |t| && t[pos..] == nsp + tail && (tail == [] || tail[0] == COMMA)
    requires forall i :: 0 <= i < pos ==> t[i] != COMMA
    ensures pos + |nsp| <= |t| && t[pos] == SLASH
    ensures Find(t, pos, [LBRACE, LBRACKET, QUOTE, SLASH]) == pos
    ensures Find(t, 0, [COMMA]) == pos + |nsp|
    ensures t[pos..pos + |nsp|] == nsp && t[pos + |nsp|..] == tail
  {
    var rest := t[pos..];
    var c := pos + |nsp|;
    assert t[pos] == rest[0] == SLASH;
    FindFirst(t, pos, pos, [LBRACE, LBRACKET, QUOTE, SLASH]);
    forall i | 0 <= i < c
      ensures t[i] !in [COMMA]
    {
      if i >= pos { assert t[i] == rest[i - pos] == nsp[i - pos] && nsp[i - pos] in nsp; }
    }
    assert t[pos..c] == rest[..|nsp|] == nsp;
    assert t[c..] == rest[|nsp|..] == tail;
    if tail == [] {
      FindNone(t, 0, [COMMA]);
    } else {
      assert t[c] == rest[|nsp|] == COMMA;
      FindFirst(t, 0, c, [COMMA]);
    }
  }

  lemma {:induction false} NspAloneParses(t: bytes, pos: nat, nsp: bytes, frame: int, kind: int, pending: nat)
    requires nsp != [] && nsp[0] == SLASH && COMMA !in nsp
    requires pos <= |t| && t[pos..] == nsp
    requires forall i :: 0 <= i < pos ==> t[i] != COMMA
    ensures ParseNsp(t, pos, frame, kind, pending) == Complete(Packet(frame, kind, nsp, -1, Absent, pending, []))
  {
    hide Find;
    assert nsp + [] == nsp;
    CommaFound(t, pos, nsp, []);
  }

  lemma {:induction false} NspParses(t: bytes, pos: nat, nsp: bytes, id: int, body: bytes, frame: int, kind: int,
                                     pending: nat)
    requires nsp != [] && nsp[0] == SLASH && COMMA !in nsp && -1 <= id < TWO31
    requires pos <= |t| && t[pos..] == nsp + ([COMMA] + (IdText(id) + body))
    requires forall i :: 0 <= i < pos ==> t[i] != COMMA
    requires body != [] && StartsBody(body[0])
    ensures var q := pos + |nsp| + 1;
            && q + |IdText(id)| <= |t| && t[q..] == IdText(id) + body
            && ParseNsp(t, pos, frame, kind, pending)
            == ParseDocument(t, q, q + |IdText(id)|, frame, kind, pending, nsp)
  {
    hide ParseDocument, ParseNsp, IdText, Find, StartsBody;
    var c := pos + |nsp|;
    BehindComma(t, pos, nsp, IdText(id) + body);
    DocumentFound(t, c + 1, id, body);
    NspThenDocument(t, pos, c, c + 1 + |IdText(id)|, frame, kind, pending);
  }

  lemma {:induction false} BehindComma(t: bytes, pos: nat, nsp: bytes, rest: bytes)
    requires nsp != [] && nsp[0] == SLASH && COMMA !in nsp
    requires pos <= |t| && t[pos..] == nsp + ([COMMA] + rest)
    requires forall i :: 0 <= i < pos ==> t[i] != COMMA
    ensures var c := pos + |nsp|;
            && c < |t| && t[pos] == SLASH && t[pos..c] == nsp && t[c + 1..] == rest
            && Find(t, pos, [LBRACE, LBRACKET, QUOTE, SLASH]) == pos && Find(t, 0, [COMMA]) == c
  {
    hide Find;
    var tail := [COMMA] + rest;
    CommaFound(t, pos, nsp, tail);
    assert t[pos + |nsp|..][1..] == t[pos + |nsp| + 1..] && tail[1..] == rest;
  }

  // A slash at pos, the first comma at c and a document at j.
  lemma {:induction false} NspThenDocument(t: bytes, pos: nat, c: nat, j: nat, frame: int, kind: int, pending: nat)
    requires pos < c < j < |t| && t[pos] == SLASH
    requires Find(t, pos, [LBRACE, LBRACKET, QUOTE, SLASH]) == pos && Find(t, 0, [COMMA]) == c
    requires Find(t, c + 1, [QUOTE, LBRACKET, LBRACE]) == j
    ensures ParseNsp(t, pos, frame, kind, pending)
         == ParseDocument(t, c + 1, j, frame, kind, pending, t[pos..c])
  {
    hide ParseDocument, Find;
  }

  lemma {:induction false} DocumentFound(t: bytes, q: nat, id: int, body: bytes)
    requires q <= |t| && t[q..] == IdText(id) + body && body != [] && StartsBody(body[0])
    ensures q + |IdText(id)| < |t|
    ensures Find(t, q, [QUOTE, LBRACKET, LBRACE]) == q + |IdText(id)|
  {
    var j := q + |IdText(id)|;
    var rest := t[q..];
    assert t[j] == rest[|IdText(id)|] == body[0];
    IdDigits(id);
    forall i | q <= i < j
      ensures t[i] !in [QUOTE, LBRACKET, LBRACE]
    {
      assert t[i] == rest[i - q] == IdText(id)[i - q] && IdText(id)[i - q] in IdText(id);
    }
    FindFirst(t, q, j, [QUOTE, LBRACKET, LBRACE]);
  }

  lemma {:induction false} StoulReads(d: bytes)
    requires d != [] && AllDigits(d) && Decimal(d, 0, |d|) < TWO64
    ensures Stoul(d) == Some(Decimal(d, 0, |d|))
  {
    hide Decimal;
    assert d[0] in d;
    forall k | 0 <= k < |d|
      ensures IsDigit(Peek(d, k))
    {
      assert d[k] in d;
    }
    DigitsEndSkip(d, 0, |d|);
  }

  // The header digits are read as they were written and hold no comma.
  lemma {:induction false} HeadParses(t: bytes, p: Packet)
    requires var n := |Binaries(p.message)|; n < TWO31
    requires var k := SentKind(p.kind, Binaries(p.message) != []);
             0 <= k <= 6 && (IsBinaryKind(k) <==> Binaries(p.message) != [])
    requires HeadText(p) <= t
    ensures Parse(t) == ParseNsp(t, |HeadText(p)|, FRAME_MESSAGE, SentKind(p.kind, Binaries(p.message) != []),
                                 |Binaries(p.message)|)
    ensures forall i :: 0 <= i < |HeadText(p)| ==> t[i] != COMMA
  {
    hide ParseNsp, Digits, Binaries, Stoul, Find;
    var n, k := |Binaries(p.message)|, SentKind(p.kind, Binaries(p.message) != []);
    var h := HeadText(p);
    assert t[0] == h[0] && t[1] == h[1];
    if n == 0 {
      assert |h| == 2;
    } else {
      CountParses(t, k, n);
    }
  }

  // The attachment count, between two header digits and a dash.
  lemma {:induction false} CountParses(t: bytes, k: nat, n: nat)
    requires 0 < n < TWO31 && k <= 6
    requires [ZERO + 4, ZERO + k] + (Digits(n) + [MINUS]) <= t
    ensures var e := 2 + |Digits(n)|;
            && Find(t, 0, [MINUS]) == e < |t| && Stoul(t[2..e]) == Some(n)
            && forall i :: 0 <= i <= e ==> t[i] != COMMA
  {
    hide Digits, Stoul, Find;
    var d := Digits(n);
    var h := [ZERO + 4, ZERO + k] + (d + [MINUS]);
    DigitsAreDigits(n);
    NoneWithout(n);
    assert forall i :: 0 <= i < |h| ==> t[i] == h[i];
    forall i | 2 <= i < 2 + |d|
      ensures t[i] == d[i - 2] && IsDigit(t[i])
    {
      assert t[i] == h[i] && d[i - 2] in d;
    }
    assert t[2 + |d|] == h[2 + |d|] == MINUS;
    assert t[0] == h[0] && t[1] == h[1];
    FindFirst(t, 0, 2 + |d|, [MINUS]);
    assert t[2..2 + |d|] == d;
    StoulReads(d);
  }

  lemma {:induction false} NoneWithout(n: nat)
    ensures Digits(n) != []
  {
  }

  /* One packet */

  // What is kept of a binary packet after its text frame.
  function Awaiting(p: Packet): Packet
    requires Sized(p.message)
  {
    Delivered(p).(message := Absent, pending := |Binaries(p.message)|, buffers := [BodyText(p.message)])
  }

  // The rest of a packet text behind the header digits, with a document in it.
  lemma {:induction false} TailParses(t: bytes, pos: nat, nsp: bytes, id: int, body: bytes, kind: int, n: nat)
    returns (q: nat)
    requires GoodNsp(nsp) && -1 <= id < TWO31 && body != [] && StartsBody(body[0])
    requires pos <= |t| && forall i :: 0 <= i < pos ==> t[i] != COMMA
    requires t[pos..] == NspText(nsp, true) + (IdText(id) + body)
    ensures q + |IdText(id)| <= |t| && t[q..] == IdText(id) + body
    ensures ParseNsp(t, pos, 4, kind, n) == ParseDocument(t, q, q + |IdText(id)|, 4, kind, n, SeenNsp(nsp))
  {
    hide ParseNsp, ParseDocument, IdText;
    if nsp == [] || nsp == ROOT {
      assert t[pos..] == IdText(id) + body;
      RootNspParses(t, pos, id, body, 4, kind, n);
      q := pos;
    } else {
      assert t[pos..] == nsp + ([COMMA] + (IdText(id) + body));
      NspParses(t, pos, nsp, id, body, 4, kind, n);
      q := pos + |nsp| + 1;
    }
  }

  // The same without a document.
  lemma {:induction false} BareTailParses(t: bytes, pos: nat, nsp: bytes, kind: int, n: nat)
    requires GoodNsp(nsp)
    requires pos <= |t| && forall i :: 0 <= i < pos ==> t[i] != COMMA
    requires t[pos..] == NspText(nsp, false)
    ensures ParseNsp(t, pos, 4, kind, n) == Complete(Packet(4, kind, SeenNsp(nsp), -1, Absent, n, []))
  {
    hide ParseNsp, ParseDocument;
    if nsp == [] || nsp == ROOT {
      NoId(-1);
      assert t[pos..] == IdText(-1) + [];
      RootNspParses(t, pos, -1, [], 4, kind, n);
    } else {
      assert t[pos..] == nsp;
      NspAloneParses(t, pos, nsp, 4, kind, n);
    }
  }

  lemma {:induction false} NoId(id: int)
    requires id == -1
    ensures IdText(id) == []
  {
  }

  lemma {:induction false} ValidHead(p: Packet)
    requires Valid(p) && p.frame == FRAME_MESSAGE
    ensures GoodNsp(p.nsp) && -1 <= p.id < TWO31
    ensures p.message == Absent ==> p.id == -1 && Binaries(p.message) == []
    ensures p.message == Absent || p.message.ArrayMsg? || p.message.ObjectMsg?
    ensures var k := SentKind(p.kind, Binaries(p.message) != []);
            0 <= k <= 6 && (IsBinaryKind(k) <==> Binaries(p.message) != [])
    ensures Sized(p.message) && |Binaries(p.message)| < TWO31
    ensures p.message != Absent ==> Wf(p.message) && Genuine(p.message) && NoDoubleMsg(p.message)
    ensures Sendable(p)
  {
  }

  lemma {:induction false} TextSplits(p: Packet)
    requires Valid(p) && p.frame == FRAME_MESSAGE
    ensures Sendable(p) && HeadText(p) <= PacketText(p)
    ensures PacketText(p)[|HeadText(p)|..]
         == NspText(p.nsp, p.message != Absent || p.id >= 0) + (IdText(p.id) + BodyText(p.message))
  {
    hide HeadText, NspText, IdText, BodyText, Valid;
    ValidHead(p);
  }

  // The text frame of a packet without a message yields the packet.
  lemma {:induction false} BareTextParses(p: Packet)
    requires Valid(p) && p.frame == FRAME_MESSAGE && p.message == Absent
    ensures Sendable(p) && Binaries(p.message) == []
    ensures Parse(PacketText(p)) == Complete(Delivered(p))
  {
    hide Valid, Parse, ParseNsp, HeadText, NspText, IdText, BodyText, PacketText, FromText;
    ValidHead(p);
    TextSplits(p);
    HeadParses(PacketText(p), p);
    NoBody();
    NoId(p.id);
    var nspText := NspText(p.nsp, false);
    assert nspText + ([] + []) == nspText;
    BareTailParses(PacketText(p), |HeadText(p)|, p.nsp, SentKind(p.kind, false), 0);
  }

  // The text frame of any other packet leads to its document.
  lemma {:induction false} BodyReached(p: Packet) returns (q: nat)
    requires Valid(p) && p.frame == FRAME_MESSAGE && p.message != Absent
    ensures Sendable(p)
    ensures var t, n := PacketText(p), |Binaries(p.message)|;
            && q + |IdText(p.id)| <= |t| && t[q..] == IdText(p.id) + BodyText(p.message)
            && Parse(t) == ParseDocument(t, q, q + |IdText(p.id)|, 4, SentKind(p.kind, n > 0), n, SeenNsp(p.nsp))
  {
    hide Valid, Parse, ParseNsp, ParseDocument, HeadText, NspText, IdText, BodyText, PacketText, SentKind;
    ValidHead(p);
    TextSplits(p);
    HeadParses(PacketText(p), p);
    BodyStarts(p.message);
    var n := |Binaries(p.message)|;
    q := TailParses(PacketText(p), |HeadText(p)|, p.nsp, p.id, BodyText(p.message), SentKind(p.kind, n > 0), n);
  }

  // The text frame of a packet yields the packet, or all of it but the attachments.
  lemma {:induction false} TextParses(p: Packet)
    requires Valid(p) && p.frame == FRAME_MESSAGE
    ensures Sendable(p)
    ensures Parse(PacketText(p)) == if Binaries(p.message) == [] then Complete(Delivered(p)) else Waiting(Awaiting(p))
  {
    hide Valid, Parse, ParseDocument, IdText, BodyText, PacketText, FromText;
    ValidHead(p);
    if p.message == Absent {
      BareTextParses(p);
    } else {
      var q := BodyReached(p);
      var n := |Binaries(p.message)|;
      DocumentParses(PacketText(p), q, p.id, BodyText(p.message), 4, SentKind(p.kind, n > 0), n, SeenNsp(p.nsp));
      if n == 0 {
        BodyRestores(p.message, []);
      }
    }
  }

  lemma {:induction false} NoBody()
    ensures BodyText(Absent) == []
  {
  }

  // The document of a message and its attachments give the message back.
  lemma {:induction false} BodyRestores(m: Message, bufs: seq<bytes>)
    requires m != Absent && Sized(m) && Wf(m) && Genuine(m) && NoDoubleMsg(m)
    requires bufs == Binaries(m) && |bufs| < TWO31
    ensures FromText(BodyText(m), bufs) == Some(m)
  {
    hide FromNode, ToNode, Binaries, Wf, Sized, Genuine, Root, Print, NoDoubleMsg, Faulty;
    RootOfPrinted(m);
    LiftAndRestore(m, [], []);
    assert [] + Binaries(m) + [] == bufs;
  }

  // Any list of that length fills the places of the attachments.
  lemma {:induction false} BodyRefills(m: Message, bufs: seq<bytes>)
    requires m != Absent && Sized(m) && Wf(m) && Genuine(m) && NoDoubleMsg(m)
    requires |bufs| == |Binaries(m)| < TWO31
    ensures var r := Refill(m, 0, bufs);
            && FromText(BodyText(m), bufs) == Some(r)
            && Binaries(r) == bufs && (r == m <==> bufs == Binaries(m))
  {
    hide FromNode, ToNode, Refill, Binaries, Wf, Sized, Genuine, Root, Print, Faulty;
    RootOfPrinted(m);
    RestoredFromAny(m, 0, bufs);
    assert bufs[0..|bufs|] == bufs;
  }

  // A packet for which the frames in got were taken as attachments.
  function Holding(p: Packet, got: seq<bytes>): Packet
    requires Sized(p.message) && |got| <= |Binaries(p.message)|
  {
    Awaiting(p).(pending := |Binaries(p.message)| - |got|, buffers := [BodyText(p.message)] + got)
  }

  // A packet of which k attachments have arrived.
  function Partly(p: Packet, k: nat): Packet
    requires Sized(p.message) && k <= |Binaries(p.message)|
  {
    Holding(p, Binaries(p.message)[..k])
  }

  // The packet with other bytes in the places of its attachments.
  function DeliveredWith(p: Packet, bufs: seq<bytes>): Packet
    requires |bufs| == |Binaries(p.message)|
  {
    Delivered(p).(message := Refill(p.message, 0, bufs))
  }

  lemma {:induction false} SameAttachments(p: Packet, bufs: seq<bytes>)
    requires Valid(p) && p.frame == FRAME_MESSAGE && p.message != Absent
    requires |bufs| == |Binaries(p.message)|
    ensures Binaries(DeliveredWith(p, bufs).message) == bufs
    ensures DeliveredWith(p, bufs) == Delivered(p) <==> bufs == Binaries(p.message)
  {
    hide Valid, Refill, Binaries, FromText, BodyText, SentKind;
    ValidHead(p);
    BodyRefills(p.message, bufs);
  }

  // While attachments are missing, whatever comes is taken for the next one.
  lemma {:induction false} AnyFrameArrives(p: Packet, got: seq<bytes>, data: bytes)
    requires Valid(p) && p.frame == FRAME_MESSAGE && Sized(p.message)
    requires |got| < |Binaries(p.message)|
    ensures ParseBuffer(Holding(p, got), data)
         == if |got| + 1 < |Binaries(p.message)| then Waiting(Holding(p, got + [data]))
            else Complete(DeliveredWith(p, got + [data]))
  {
    hide Valid, BodyText, FromText, Binaries, Sized, Refill, SentKind;
    ValidHead(p);
    var bufs := [BodyText(p.message)] + got + [data];
    assert bufs == [BodyText(p.message)] + (got + [data]);
    if |got| + 1 == |Binaries(p.message)| {
      assert bufs[0] == BodyText(p.message) && bufs[1..] == got + [data];
      NoBinariesInNothing();
      BodyRefills(p.message, got + [data]);
    }
  }

  lemma {:induction false} BufferArrives(p: Packet, k: nat)
    requires Valid(p) && p.frame == FRAME_MESSAGE && Sized(p.message)
    requires k < |Binaries(p.message)|
    ensures ParseBuffer(Partly(p, k), Binaries(p.message)[k])
         == if k + 1 < |Binaries(p.message)| then Waiting(Partly(p, k + 1)) else Complete(Delivered(p))
  {
    hide Valid, BodyText, Binaries, Sized, Delivered, DeliveredWith, ParseBuffer, Holding;
    var bins := Binaries(p.message);
    AnyFrameArrives(p, bins[..k], bins[k]);
    assert bins[..k + 1] == bins[..k] + [bins[k]];
    if k + 1 == |bins| {
      assert bins[..k + 1] == bins;
      NoBinariesInNothing();
      SameAttachments(p, bins);
    }
  }

  lemma {:induction false} NoBinariesInNothing()
    ensures Binaries(Absent) == []
  {
  }

  /* Whole streams */

  // The first k frames of a packet, from an inbox at rest.
  lemma {:induction false} FramesArrive(p: Packet, k: nat, done: seq<Packet>)
    requires Valid(p) && p.frame == FRAME_MESSAGE && Sendable(p) && 0 < k <= |Frames(p)|
    ensures ReceiveAll(Inbox(None, done), Frames(p)[..k])
         == Some(if k == |Frames(p)| then Inbox(None, done + [Delivered(p)])
                 else Inbox(Some(Partly(p, k - 1)), done))
    decreases k
  {
    hide Valid, Parse, ParseBuffer, PacketText, BodyText, Delivered;
    var fs := Frames(p);
    var start := Inbox(None, done);
    if k == 1 {
      assert fs[..1] == [] + [PacketText(p)];
      ReceiveLast(start, [], PacketText(p), start);
      FirstFrame(p, start);
      NothingArrived(p);
    } else {
      FramesArrive(p, k - 1, done);
      assert fs[..k] == fs[..k - 1] + [fs[k - 1]];
      var mid := Inbox(Some(Partly(p, k - 2)), done);
      ReceiveLast(start, fs[..k - 1], fs[k - 1], mid);
      BufferArrives(p, k - 2);
    }
  }

  lemma {:induction false} NothingArrived(p: Packet)
    requires Sized(p.message)
    ensures Partly(p, 0) == Awaiting(p)
  {
    assert [BodyText(p.message)] + Binaries(p.message)[..0] == [BodyText(p.message)];
  }

  // The text frame of a packet, taken by an inbox at rest.
  lemma {:induction false} FirstFrame(p: Packet, b: Inbox)
    requires Valid(p) && p.frame == FRAME_MESSAGE && Sendable(p) && b.partial.None?
    ensures Receive(b, PacketText(p))
         == Some(if Binaries(p.message) == [] then Inbox(None, b.delivered + [Delivered(p)])
                 else Inbox(Some(Awaiting(p)), b.delivered))
  {
    hide Valid, Parse, BodyText;
    TextParses(p);
    assert PacketText(p)[0] == ZERO + 4;
  }

  lemma {:induction false} ReceiveLast(b: Inbox, ts: seq<bytes>, t: bytes, mid: Inbox)
    requires ReceiveAll(b, ts) == Some(mid)
    ensures ReceiveAll(b, ts + [t]) == Receive(mid, t)
  {
    ReceiveConcat(b, ts, [t]);
    if Receive(mid, t).Some? {
      assert ReceiveAll(Receive(mid, t).value, []) == Receive(mid, t);
    }
  }

  lemma {:induction false} ReceiveConcat(b: Inbox, s: seq<bytes>, t: seq<bytes>)
    ensures ReceiveAll(b, s + t)
         == if ReceiveAll(b, s).None? then None else ReceiveAll(ReceiveAll(b, s).value, t)
    decreases |s|
  {
    hide Receive;
    if s == [] {
      assert s + t == t;
    } else {
      assert (s + t)[0] == s[0] && (s + t)[1..] == s[1..] + t;
      if Receive(b, s[0]).Some? { ReceiveConcat(Receive(b, s[0]).value, s[1..], t); }
    }
  }

  // A frame that is no message is a packet of its own.
  lemma {:induction false} ControlArrives(p: Packet, done: seq<Packet>)
    requires Valid(p) && p.frame != FRAME_MESSAGE
    ensures Sendable(p) && ReceiveAll(Inbox(None, done), Frames(p)) == Some(Inbox(None, done + [Delivered(p)]))
  {
    var t := [ZERO + p.frame];
    FindNone(t, 1, [LBRACE, LBRACKET, QUOTE, SLASH]);
    assert Receive(Inbox(None, done), t) == Some(Inbox(None, done + [Delivered(p)]));
    assert [] + [t] == [t];
    ReceiveLast(Inbox(None, done), [], t, Inbox(None, done));
  }

  // A packet is delivered as it was sent, once, and not before its last frame.
  lemma {:induction false} PacketRoundTrip(p: Packet, done: seq<Packet>)
    requires Valid(p)
    ensures Sendable(p)
    ensures ReceiveAll(Inbox(None, done), Frames(p)) == Some(Inbox(None, done + [Delivered(p)]))
    ensures forall k :: 0 <= k < |Frames(p)| ==>
              var b := ReceiveAll(Inbox(None, done), Frames(p)[..k]);
              b.Some? && b.value.delivered == done
  {
    hide Valid, Receive, Delivered, PacketText;
    if p.frame != FRAME_MESSAGE {
      ControlArrives(p, done);
    } else {
      ValidHead(p);
      FramesArrive(p, |Frames(p)|, done);
      assert Frames(p)[..|Frames(p)|] == Frames(p);
    }
    forall k | 0 <= k < |Frames(p)|
      ensures var b := ReceiveAll(Inbox(None, done), Frames(p)[..k]); b.Some? && b.value.delivered == done
    {
      if k == 0 {
        assert Frames(p)[..0] == [];
      } else {
        FramesArrive(p, k, done);
      }
    }
  }

  function AllFrames(ps: seq<Packet>): seq<bytes>
    requires forall p <- ps :: Sendable(p)
  {
    if ps == [] then [] else Frames(ps[0]) + AllFrames(ps[1..])
  }

  function AllDelivered(ps: seq<Packet>): seq<Packet> {
    if ps == [] then [] else [Delivered(ps[0])] + AllDelivered(ps[1..])
  }

  lemma {:induction false} AllSendable(ps: seq<Packet>)
    requires forall p <- ps :: Valid(p)
    ensures forall p <- ps :: Sendable(p)
  {
    hide Valid, Receive, Delivered, Frames, Sendable, ReceiveAll;
    forall p <- ps
      ensures Sendable(p)
    {
      PacketRoundTrip(p, []);
    }
  }

  lemma ReceiveNothing(b: Inbox)
    ensures ReceiveAll(b, []) == Some(b)
  {
  }

  // What one packet adds to a stream.
  lemma {:induction false} StreamStep(b: Inbox, c: Inbox, last: Inbox, fs: seq<bytes>, rest: seq<bytes>)
    requires ReceiveAll(b, fs) == Some(c) && ReceiveAll(c, rest) == Some(last)
    ensures ReceiveAll(b, fs + rest) == Some(last)
  {
    hide ReceiveAll;
    ReceiveConcat(b, fs, rest);
  }

  // The frames of any sequence of packets, one after the other, deliver exactly
  // those packets in order and leave nothing half received.
  lemma {:induction false} StreamRoundTrip(ps: seq<Packet>, done: seq<Packet>)
    requires forall p <- ps :: Valid(p)
    ensures forall p <- ps :: Sendable(p)
    ensures ReceiveAll(Inbox(None, done), AllFrames(ps)) == Some(Inbox(None, done + AllDelivered(ps)))
    decreases |ps|
  {
    hide Valid, Receive, Delivered, Frames, Sendable, ReceiveAll;
    AllSendable(ps);
    if ps == [] {
      assert done + [] == done;
      ReceiveNothing(Inbox(None, done));
    } else {
      var first := Delivered(ps[0]);
      PacketRoundTrip(ps[0], done);
      StreamRoundTrip(ps[1..], done + [first]);
      assert done + [first] + AllDelivered(ps[1..]) == done + ([first] + AllDelivered(ps[1..]));
      StreamStep(Inbox(None, done), Inbox(None, done + [first]), Inbox(None, done + AllDelivered(ps)),
                 Frames(ps[0]), AllFrames(ps[1..]));
    }
  }

  // Frames that arrive for a packet are put in the places of its attachments,
  // one after the other, whatever they are.
  lemma {:induction false} AnyFramesFill(p: Packet, got: seq<bytes>, fs: seq<bytes>, done: seq<Packet>)
    requires Valid(p) && p.frame == FRAME_MESSAGE && Sized(p.message)
    requires fs != [] && |got| + |fs| == |Binaries(p.message)|
    ensures ReceiveAll(Inbox(Some(Holding(p, got)), done), fs)
         == Some(Inbox(None, done + [DeliveredWith(p, got + fs)]))
    decreases |fs|
  {
    hide Valid, Binaries, Sized, Holding, DeliveredWith, ParseBuffer;
    var b := Inbox(Some(Holding(p, got)), done);
    AnyFrameArrives(p, got, fs[0]);
    if |fs| == 1 {
      assert fs == [] + [fs[0]] && got + [fs[0]] == got + fs;
      ReceiveLast(b, [], fs[0], b);
    } else {
      AnyFramesFill(p, got + [fs[0]], fs[1..], done);
      assert got + [fs[0]] + fs[1..] == got + fs;
    }
  }

  // A frame that comes in front of attachment k, such as a ping, is swallowed:
  // with any attachment but the last it shortens the wait by one, and with the
  // last the packet is delivered with the stray bytes in that leaf. Nothing is
  // lost if and only if they are the bytes of that attachment.
  lemma {:induction false} StrayFrameIsSwallowed(p: Packet, k: nat, done: seq<Packet>, stray: bytes)
    requires Valid(p) && p.frame == FRAME_MESSAGE && Sized(p.message)
    requires k < |Binaries(p.message)|
    ensures var bins := Binaries(p.message);
            var got := bins[..k] + [stray];
            var b := Receive(Inbox(Some(Partly(p, k)), done), stray);
            if k + 1 < |bins| then
              && b == Some(Inbox(Some(Holding(p, got)), done))
              && (Holding(p, got) == Partly(p, k + 1) <==> stray == bins[k])
            else
              && b == Some(Inbox(None, done + [DeliveredWith(p, got)]))
              && Binaries(DeliveredWith(p, got).message) == got
              && (DeliveredWith(p, got) == Delivered(p) <==> stray == bins[k])
  {
    hide Valid, BodyText, Binaries, Sized, DeliveredWith, Delivered, ParseBuffer;
    var bins := Binaries(p.message);
    var got := bins[..k] + [stray];
    AnyFrameArrives(p, bins[..k], stray);
    assert bins[..k + 1] == bins[..k] + [bins[k]];
    assert got[k] == stray;
    if k + 1 < |bins| {
      SameTail([BodyText(p.message)], got, bins[..k + 1]);
    } else {
      assert bins[..k + 1] == bins;
      NoBinariesInNothing();
      SameAttachments(p, got);
    }
  }

  lemma {:induction false} SameTail(a: seq<bytes>, b: seq<bytes>, c: seq<bytes>)
    ensures a + b == a + c <==> b == c
  {
    assert (a + b)[|a|..] == b && (a + c)[|a|..] == c;
  }

  // Over the whole packet: behind the stray frame every attachment goes one
  // place too far, the packet is delivered before its last frame, and the last
  // attachment finds nothing waiting for it.
  lemma {:induction false} StrayFrameShifts(p: Packet, k: nat, done: seq<Packet>, stray: bytes)
    requires Valid(p) && p.frame == FRAME_MESSAGE && Sendable(p)
    requires k < |Binaries(p.message)|
    ensures var bins := Binaries(p.message);
            var last := |bins| - 1;
            var got := bins[..k] + [stray] + bins[k..last];
            && ReceiveAll(Inbox(None, done), Frames(p)[..k + 1] + ([stray] + bins[k..last]))
            == Some(Inbox(None, done + [DeliveredWith(p, got)]))
            && Binaries(DeliveredWith(p, got).message) == got
            && (DeliveredWith(p, got) == Delivered(p) <==> got == bins)
  {
    hide Valid, BodyText, Binaries, DeliveredWith, Delivered, Holding, Receive, ReceiveAll, PacketText, Sized;
    var bins := Binaries(p.message);
    var fs := [stray] + bins[k..|bins| - 1];
    var got := bins[..k] + [stray] + bins[k..|bins| - 1];
    FramesArrive(p, k + 1, done);
    AnyFramesFill(p, bins[..k], fs, done);
    assert bins[..k] + fs == got;
    StreamStep(Inbox(None, done), Inbox(Some(Partly(p, k)), done), Inbox(None, done + [DeliveredWith(p, got)]),
               Frames(p)[..k + 1], fs);
    NoBinariesInNothing();
    SameAttachments(p, got);
  }

  /* Documents on which the reader does not stop at its error */

  // A text is faulty exactly if its error is a bad hexadecimal digit behind which
  // the string does not close without error.
  lemma {:induction false} FaultyExactly(t: bytes)
    ensures Faulty(t) <==>
              var o := ParsedDocument(t);
              o.Err? && o.code == StringUnicodeEscapeInvalidHex && !JsonStringLoop.Recovers(t, o.off)
  {
    hide ParsedDocument, JsonStringLoop.Aftermath, JsonStringLoop.Recovers;
    JsonFaults.DocumentFault(t);
  }

  // An event with a string for its document.
  function StringEvent(doc: bytes): bytes { [ZERO + FRAME_MESSAGE, ZERO + EVENT] + doc }

  lemma {:induction false} StringEventParses(doc: bytes)
    requires doc != [] && doc[0] == QUOTE
    ensures Parse(StringEvent(doc))
         == match FromText(doc, [])
            case None => Malformed
            case Some(m) => Complete(Packet(FRAME_MESSAGE, EVENT, ROOT, -1, m, 0, []))
  {
    hide FromText;
    var t := StringEvent(doc);
    assert t[2] == QUOTE && t[2..] == doc;
    assert Find(t, 2, [LBRACE, LBRACKET, QUOTE, SLASH]) == 2;
  }

  // A string on which the reader ends by itself or not.
  lemma {:induction false} StringEnds(t: bytes, code: ErrorCode, off: nat, f: JsonStringLoop.Fault)
    requires t != [] && t[0] == QUOTE && ParsedDocument(t) == Err(code, off, [])
    requires JsonStringLoop.StringLoop(t, 1, [], JsonStringLoop.Fine)
          == JsonStringLoop.Ended(JsonStringLoop.Failed(code, off), f)
    ensures FromText(t, []) == if f == JsonStringLoop.NoFault then Some(NullMsg) else None
  {
    hide ParsedDocument, JsonStringLoop.Aftermath, JsonStringLoop.StringLoop;
    JsonStringLoop.StringScans(t, 0);
  }

  // Events that end in a failing assertion, or are read behind their end; one bad
  // digit alone makes the document null.
  lemma {:induction false} FaultyEvents(done: seq<Packet>)
    ensures Receive(Inbox(None, done), StringEvent(JsonFaults.LOW_HALF)) == None
    ensures Receive(Inbox(None, done), StringEvent(JsonFaults.TWO_ERRORS)) == None
    ensures Receive(Inbox(None, done), StringEvent(JsonFaults.CUT_OFF)) == None
    ensures Receive(Inbox(None, done), StringEvent(JsonFaults.ONE_ERROR))
         == Some(Inbox(None, done + [Packet(FRAME_MESSAGE, EVENT, ROOT, -1, NullMsg, 0, [])]))
  {
    hide Receive;
    LowHalfFails(done);
    TwoErrorsFail(done);
    CutOffFails(done);
    OneErrorIsNull(done);
  }

  lemma {:induction false} LowHalfFails(done: seq<Packet>)
    ensures Receive(Inbox(None, done), StringEvent(JsonFaults.LOW_HALF)) == None
  {
    hide Parse, FromText, ParsedDocument, JsonStringLoop.StringLoop;
    JsonFaults.LowHalfReportsTwice();
    StringEnds(JsonFaults.LOW_HALF, StringUnicodeEscapeInvalidHex, 9,
               JsonStringLoop.SecondError(StringUnicodeSurrogateInvalid, 8));
    StringEventParses(JsonFaults.LOW_HALF);
  }

  lemma {:induction false} TwoErrorsFail(done: seq<Packet>)
    ensures Receive(Inbox(None, done), StringEvent(JsonFaults.TWO_ERRORS)) == None
  {
    hide Parse, FromText, ParsedDocument, JsonStringLoop.StringLoop;
    JsonFaults.TwoErrorsReportTwice();
    StringEnds(JsonFaults.TWO_ERRORS, StringUnicodeEscapeInvalidHex, 3,
               JsonStringLoop.SecondError(StringEscapeInvalid, 5));
    StringEventParses(JsonFaults.TWO_ERRORS);
  }

  lemma {:induction false} CutOffFails(done: seq<Packet>)
    ensures Receive(Inbox(None, done), StringEvent(JsonFaults.CUT_OFF)) == None
  {
    hide Parse, FromText, ParsedDocument, JsonStringLoop.StringLoop;
    JsonFaults.CutOffIsLeft();
    StringEnds(JsonFaults.CUT_OFF, StringUnicodeEscapeInvalidHex, 3, JsonStringLoop.BehindText);
    StringEventParses(JsonFaults.CUT_OFF);
  }

  lemma {:induction false} OneErrorIsNull(done: seq<Packet>)
    ensures Receive(Inbox(None, done), StringEvent(JsonFaults.ONE_ERROR))
         == Some(Inbox(None, done + [Packet(FRAME_MESSAGE, EVENT, ROOT, -1, NullMsg, 0, [])]))
  {
    hide Parse, FromText, ParsedDocument, JsonStringLoop.StringLoop;
    JsonFaults.OneErrorRecovers();
    StringEnds(JsonFaults.ONE_ERROR, StringUnicodeEscapeInvalidHex, 3, JsonStringLoop.NoFault);
    StringEventParses(JsonFaults.ONE_ERROR);
  }
}
