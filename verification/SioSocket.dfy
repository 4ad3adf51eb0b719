// A namespace socket: packets wait in a queue until the server has accepted the
// socket, and acknowledgement callbacks wait for their answer.

module SioSocket {
  import opened JsonTypes
  import opened SioMessage

  datatype Outgoing =
    | EventOut(message: Message, id: int)
    | AckOut(answer: Message, to: int)
    | DisconnectOut

  // The socket's fields, with callbacks numbered as they are registered. The
  // history: what was handed to send_packet and what reached the client, since
  // the queue was last cleared; and the callbacks that were called.
  datatype Socket = Socket(
    alive: bool, connected: bool, queue: seq<Outgoing>, nextId: nat, acks: map<int, nat>,
    emitted: seq<Outgoing>, sent: seq<Outgoing>, registered: nat, fired: seq<nat>)

  function Initial(nextId: nat): Socket { Socket(true, false, [], nextId, map[], [], [], 0, []) }

  // Queued packets go out first.
  function SendPacket(s: Socket, p: Outgoing): Socket {
    if !s.alive then s
    else if s.connected then s.(queue := [], sent := s.sent + s.queue + [p], emitted := s.emitted + [p])
    else s.(queue := s.queue + [p], emitted := s.emitted + [p])
  }

  // The event counter is an unsigned 32-bit number, taken as a signed one.
  function Emit(s: Socket, m: Message, wantsAck: bool): Socket {
    if !s.alive then s
    else if wantsAck then
      var id := ToInt32(s.nextId);
      SendPacket(s.(nextId := (s.nextId + 1) % TWO32, acks := s.acks[id := s.registered],
                    registered := s.registered + 1),
                 EventOut(m, id))
    else SendPacket(s, EventOut(m, -1))
  }

  function EmitAll(s: Socket, ms: seq<(Message, bool)>): Socket
    decreases |ms|
  {
    if ms == [] then s else EmitAll(Emit(s, ms[0].0, ms[0].1), ms[1..])
  }

  // The server has accepted the socket. The open callback runs before the queue
  // is drained; what it emits is during.
  function OnConnected(s: Socket, during: seq<(Message, bool)>): Socket {
    if s.connected then s
    else
      var t := EmitAll(s.(connected := true), during);
      t.(queue := [], sent := t.sent + t.queue)
  }

  function Cleared(s: Socket): Socket { s.(connected := false, queue := [], emitted := [], sent := []) }

  function OnClose(s: Socket): Socket { if s.alive then Cleared(s).(alive := false) else s }

  function OnDisconnect(s: Socket): Socket { if s.alive && s.connected then Cleared(s) else s }

  // The callback is taken out of the map before it is called.
  function OnAck(s: Socket, id: int): Socket {
    if id in s.acks then s.(acks := s.acks - {id}, fired := s.fired + [s.acks[id]]) else s
  }

  // A message packet: its kind by number, its identifier, whether it is for this
  // namespace, and whether its message is an array with a name in front.
  datatype Incoming = Incoming(kind: int, id: int, mine: bool, named: bool)

  // Connect, disconnect, event and acknowledgement. An event with an identifier is
  // acknowledged with the answer of its listener.
  function OnPacket(s: Socket, p: Incoming, during: seq<(Message, bool)>, answer: Message): Socket {
    if !s.alive || !p.mine then s
    else if p.kind == 0 then OnConnected(s, during)
    else if p.kind == 1 then OnClose(s)
    else if p.kind == 2 || p.kind == 5 then
      if p.named && p.id >= 0 then SendPacket(s, AckOut(answer, p.id)) else s
    else if p.kind == 3 || p.kind == 6 then OnAck(s, p.id)
    else s
  }

  function Close(s: Socket): Socket { if s.alive && s.connected then SendPacket(s, DisconnectOut) else s }

  class SocketImpl {
    var alive: bool
    var connected: bool
    var queue: seq<Outgoing>
    var nextId: nat
    var acks: map<int, nat>
    var sent: seq<Outgoing>
    var fired: seq<nat>
    ghost var emitted: seq<Outgoing>
    var registered: nat

    ghost function Value(): Socket
      reads this
    {
      Socket(alive, connected, queue, nextId, acks, emitted, sent, registered, fired)
    }

    constructor (firstId: nat)
      ensures Value() == Initial(firstId)
    {
      alive, connected, queue, nextId, acks := true, false, [], firstId, map[];
      emitted, sent, registered, fired := [], [], 0, [];
    }

    // Sends what is queued, front first.
    method Drain()
      modifies this`queue, this`sent
      ensures queue == [] && sent == old(sent) + old(queue)
    {
      while queue != []
        invariant sent + queue == old(sent) + old(queue)
        decreases |queue|
      {
        var front := queue[0];
        queue := queue[1..];
        sent := sent + [front];
      }
    }

    method DoSendPacket(p: Outgoing)
      modifies this
      ensures Value() == SendPacket(old(Value()), p)
    {
      if !alive {
        return;
      }
      emitted := emitted + [p];
      if connected {
        Drain();
        sent := sent + [p];
      } else {
        queue := queue + [p];
      }
    }

    method DoEmit(m: Message, wantsAck: bool)
      modifies this
      ensures Value() == Emit(old(Value()), m, wantsAck)
    {
      if !alive {
        return;
      }
      var id := -1;
      if wantsAck {
        id := ToInt32(nextId);
        nextId := (nextId + 1) % TWO32;
        acks := acks[id := registered];
        registered := registered + 1;
      }
      DoSendPacket(EventOut(m, id));
    }

    method HandleConnected(during: seq<(Message, bool)>)
      modifies this
      ensures Value() == OnConnected(old(Value()), during)
    {
      if !connected {
        connected := true;
        var i := 0;
        ghost var start := Value();
        while i < |during|
          invariant 0 <= i <= |during|
          invariant EmitAll(Value(), during[i..]) == EmitAll(start, during)
        {
          assert during[i..][0] == during[i] && during[i..][1..] == during[i + 1..];
          DoEmit(during[i].0, during[i].1);
          i := i + 1;
        }
        assert during[i..] == [];
        Drain();
      }
    }

    method HandleClose()
      modifies this
      ensures Value() == OnClose(old(Value()))
    {
      if !alive {
        return;
      }
      alive := false;
      connected := false;
      queue, sent, emitted := [], [], [];
    }

    method HandleDisconnect()
      modifies this
      ensures Value() == OnDisconnect(old(Value()))
    {
      if alive && connected {
        connected := false;
        queue, sent, emitted := [], [], [];
      }
    }

    method HandleAck(id: int)
      modifies this
      ensures Value() == OnAck(old(Value()), id)
    {
      if id in acks {
        var callback := acks[id];
        acks := acks - {id};
        fired := fired + [callback];
      }
    }

    method HandlePacket(p: Incoming, during: seq<(Message, bool)>, answer: Message)
      modifies this
      ensures Value() == OnPacket(old(Value()), p, during, answer)
    {
      if !alive || !p.mine {
        return;
      }
      if p.kind == 0 {
        HandleConnected(during);
      } else if p.kind == 1 {
        HandleClose();
      } else if p.kind == 2 || p.kind == 5 {
        if p.named && p.id >= 0 {
          DoSendPacket(AckOut(answer, p.id));
        }
      } else if p.kind == 3 || p.kind == 6 {
        HandleAck(p.id);
      }
    }

    method DoClose()
      modifies this
      ensures Value() == Close(old(Value()))
    {
      if alive && connected {
        DoSendPacket(DisconnectOut);
      }
    }
  }

  /* Runs */

  datatype Occurrence =
    | Emits(m: Message, wantsAck: bool)
    | Arrives(packet: Incoming, during: seq<(Message, bool)>, answer: Message)
    | Ended
    | Lost
    | UserCloses

  function Step(s: Socket, e: Occurrence): Socket {
    match e
    case Emits(m, wantsAck) => Emit(s, m, wantsAck)
    case Arrives(p, during, answer) => OnPacket(s, p, during, answer)
    case Ended => OnClose(s)
    case Lost => OnDisconnect(s)
    case UserCloses => Close(s)
  }

  function Run(s: Socket, run: seq<Occurrence>): Socket
    decreases |run|
  {
    if run == [] then s else Run(Step(s, run[0]), run[1..])
  }

  /* First in, first out */

  // Nothing emitted since the last clear is lost, repeated or out of order; and
  // nothing waits while the socket is connected.
  predicate InOrder(s: Socket) { s.emitted == s.sent + s.queue && (s.connected ==> s.queue == []) }

  // The same without the second half, as it holds inside the open callback.
  predicate Conserved(s: Socket) { s.emitted == s.sent + s.queue }

  lemma {:induction false} SendConserves(s: Socket, p: Outgoing)
    requires Conserved(s)
    ensures Conserved(SendPacket(s, p)) && (InOrder(s) ==> InOrder(SendPacket(s, p)))
    ensures s.alive ==> SendPacket(s, p).emitted == s.emitted + [p]
  {
    assert s.sent + s.queue + [p] == s.sent + (s.queue + [p]);
    assert s.sent + s.queue + [p] + [] == s.sent + s.queue + [p];
  }

  lemma {:induction false} EmitConserves(s: Socket, m: Message, wantsAck: bool) returns (p: Outgoing)
    requires Conserved(s)
    ensures Conserved(Emit(s, m, wantsAck)) && (InOrder(s) ==> InOrder(Emit(s, m, wantsAck)))
    ensures s.alive ==> Emit(s, m, wantsAck).emitted == s.emitted + [p] && p.EventOut? && p.message == m
    ensures Emit(s, m, wantsAck).connected == s.connected && Emit(s, m, wantsAck).alive == s.alive
  {
    hide SendPacket;
    var t := if wantsAck then
               s.(nextId := (s.nextId + 1) % TWO32, acks := s.acks[ToInt32(s.nextId) := s.registered],
                  registered := s.registered + 1)
             else s;
    p := EventOut(m, if wantsAck then ToInt32(s.nextId) else -1);
    SendConserves(t, p);
    SendKeepsState(t, p);
  }

  lemma {:induction false} SendKeepsState(s: Socket, p: Outgoing)
    ensures SendPacket(s, p).connected == s.connected && SendPacket(s, p).alive == s.alive
    ensures SendPacket(s, p).acks == s.acks && SendPacket(s, p).fired == s.fired
    ensures SendPacket(s, p).registered == s.registered
  {
  }

  // The packets ps are events with the messages ms, one for one.
  predicate Carry(ps: seq<Outgoing>, ms: seq<(Message, bool)>) {
    |ps| == |ms| && forall i :: 0 <= i < |ms| ==> ps[i].EventOut? && ps[i].message == ms[i].0
  }

  lemma {:induction false} EmitAllConserves(s: Socket, ms: seq<(Message, bool)>) returns (ps: seq<Outgoing>)
    requires Conserved(s)
    ensures Conserved(EmitAll(s, ms)) && EmitAll(s, ms).connected == s.connected && EmitAll(s, ms).alive == s.alive
    ensures s.alive ==> EmitAll(s, ms).emitted == s.emitted + ps && Carry(ps, ms)
    decreases |ms|
  {
    hide Emit, Conserved;
    if ms == [] {
      ps := [];
    } else {
      var t := Emit(s, ms[0].0, ms[0].1);
      var p := EmitConserves(s, ms[0].0, ms[0].1);
      var rest := EmitAllConserves(t, ms[1..]);
      ps := [p] + rest;
      if s.alive {
        assert s.emitted + [p] + rest == s.emitted + ps;
        assert forall i :: 0 < i < |ms| ==> ps[i] == rest[i - 1] && ms[i] == ms[1..][i - 1];
      }
    }
  }

  // When the socket is accepted, what had been queued goes out first, followed by
  // what the open callback emitted, in that order, and nothing is left behind.
  lemma {:induction false} AcceptedInOrder(s: Socket, during: seq<(Message, bool)>) returns (ps: seq<Outgoing>)
    requires InOrder(s) && s.alive && !s.connected
    ensures Carry(ps, during)
    ensures var t := OnConnected(s, during);
            InOrder(t) && t.connected && t.queue == [] && t.sent == s.sent + s.queue + ps
  {
    hide EmitAll, Carry;
    ps := EmitAllConserves(s.(connected := true), during);
    ConnectedInOrder(s, during);
    var r := OnConnected(s, during);
    assert r.emitted == s.emitted + ps && r.queue == [];
    assert r.sent + [] == r.sent;
  }

  lemma {:induction false} ConnectedInOrder(s: Socket, during: seq<(Message, bool)>)
    requires InOrder(s)
    ensures InOrder(OnConnected(s, during))
  {
    hide EmitAll, Carry;
    if !s.connected {
      var ps := EmitAllConserves(s.(connected := true), during);
      var t := EmitAll(s.(connected := true), during);
      assert t.sent + t.queue + [] == t.sent + t.queue;
    }
  }

  lemma {:induction false} StepInOrder(s: Socket, e: Occurrence)
    requires InOrder(s)
    ensures InOrder(Step(s, e))
  {
    hide Emit, SendPacket, EmitAll;
    match e
    case Emits(m, wantsAck) => var p := EmitConserves(s, m, wantsAck);
    case Arrives(p, during, answer) =>
      SendConserves(s, AckOut(answer, p.id));
      ConnectedInOrder(s, during);
      ClearedInOrder(s);
    case UserCloses => SendConserves(s, DisconnectOut);
    case _ => ClearedInOrder(s);
  }

  lemma {:induction false} ClearedInOrder(s: Socket)
    ensures InOrder(Cleared(s))
  {
  }

  /* Callbacks */

  // Every callback that has been called, and every one that waits, is another
  // registration.
  predicate Single(s: Socket) {
    && (forall i :: 0 <= i < |s.fired| ==> s.fired[i] < s.registered)
    && (forall i, j :: 0 <= i < j < |s.fired| ==> s.fired[i] != s.fired[j])
    && (forall k :: k in s.acks ==> s.acks[k] < s.registered && s.acks[k] !in s.fired)
    && (forall k, l :: k in s.acks && l in s.acks && k != l ==> s.acks[k] != s.acks[l])
  }

  lemma {:induction false} AckSingle(s: Socket, id: int)
    requires Single(s)
    ensures Single(OnAck(s, id))
  {
  }

  lemma {:induction false} EmitSingle(s: Socket, m: Message, wantsAck: bool)
    requires Single(s)
    ensures Single(Emit(s, m, wantsAck))
  {
    hide SendPacket;
    var id := ToInt32(s.nextId);
    var t := if wantsAck then
               s.(nextId := (s.nextId + 1) % TWO32, acks := s.acks[id := s.registered], registered := s.registered + 1)
             else s;
    SendKeepsState(t, EventOut(m, if wantsAck then id else -1));
  }

  lemma {:induction false} EmitAllSingle(s: Socket, ms: seq<(Message, bool)>)
    requires Single(s)
    ensures Single(EmitAll(s, ms))
    decreases |ms|
  {
    hide Single, Emit;
    if ms != [] {
      EmitSingle(s, ms[0].0, ms[0].1);
      EmitAllSingle(Emit(s, ms[0].0, ms[0].1), ms[1..]);
    }
  }

  lemma {:induction false} PacketSingle(s: Socket, p: Incoming, during: seq<(Message, bool)>, answer: Message)
    requires Single(s)
    ensures Single(OnPacket(s, p, during, answer))
  {
    hide SendPacket, EmitAll, OnAck;
    SendKeepsState(s, AckOut(answer, p.id));
    EmitAllSingle(s.(connected := true), during);
    AckSingle(s, p.id);
  }

  lemma {:induction false} StepSingle(s: Socket, e: Occurrence)
    requires Single(s)
    ensures Single(Step(s, e))
  {
    hide Emit, SendPacket, OnPacket;
    match e
    case Emits(m, wantsAck) => EmitSingle(s, m, wantsAck);
    case Arrives(p, during, answer) => PacketSingle(s, p, during, answer);
    case UserCloses => SendKeepsState(s, DisconnectOut);
    case _ =>
  }

  // Over every run, with acknowledgements repeated and identifiers reused at
  // will: emitted is sent followed by queued, and no callback is called twice.
  lemma {:induction false} RunKeeps(s: Socket, run: seq<Occurrence>)
    requires InOrder(s) && Single(s)
    ensures InOrder(Run(s, run)) && Single(Run(s, run))
    decreases |run|
  {
    hide InOrder, Single, Step;
    if run != [] {
      StepInOrder(s, run[0]);
      StepSingle(s, run[0]);
      RunKeeps(Step(s, run[0]), run[1..]);
    }
  }

  lemma {:induction false} SocketRuns(firstId: nat, run: seq<Occurrence>)
    ensures var s := Run(Initial(firstId), run);
            && s.emitted == s.sent + s.queue && (s.connected ==> s.queue == [])
            && forall i, j :: 0 <= i < j < |s.fired| ==> s.fired[i] != s.fired[j]
  {
    hide Run;
    RunKeeps(Initial(firstId), run);
  }

  // An answer that comes again finds no callback any more.
  lemma {:induction false} RepeatedAckIsIgnored(s: Socket, id: int)
    ensures OnAck(OnAck(s, id), id) == OnAck(s, id)
    ensures id in s.acks ==> OnAck(s, id).fired == s.fired + [s.acks[id]]
  {
  }

  // An answer finds the callback that was registered with the packet it answers,
  // and registering one disturbs no other.
  lemma {:induction false} AckFindsItsCallback(s: Socket, m: Message, other: int)
    requires s.alive
    ensures var t, id := Emit(s, m, true), ToInt32(s.nextId);
            && t.emitted == s.emitted + [EventOut(m, id)]
            && OnAck(t, id).fired == s.fired + [s.registered]
            && (other != id ==> OnAck(t, other).fired == OnAck(s, other).fired)
  {
    hide SendPacket;
    var id := ToInt32(s.nextId);
    var t := s.(nextId := (s.nextId + 1) % TWO32, acks := s.acks[id := s.registered], registered := s.registered + 1);
    SendKeepsState(t, EventOut(m, id));
    SendAppends(t, EventOut(m, id));
  }

  lemma {:induction false} SendAppends(s: Socket, p: Outgoing)
    requires s.alive
    ensures SendPacket(s, p).emitted == s.emitted + [p]
  {
  }

  /* When the connection is lost, and at the end */

  // A lost connection disconnects the socket. What a connected socket had queued
  // is gone; one that was still waiting to be accepted keeps its queue. Callbacks
  // stay in every case.
  lemma {:induction false} LostDisconnects(s: Socket)
    ensures var t := Step(s, Lost);
            && t.alive == s.alive && t.acks == s.acks && t.fired == s.fired && t.registered == s.registered
            && t.nextId == s.nextId
            && (s.alive ==> !t.connected)
            && (if s.alive && s.connected then t.queue == [] && t.sent == [] && t.emitted == [] else t == s)
  {
  }

  // A socket that has ended stays so: nothing is queued, sent or called any more,
  // whatever comes.
  lemma {:induction false} EndedForGood(s: Socket, run: seq<Occurrence>)
    requires s.alive
    ensures var t := Step(s, Ended);
            && !t.alive && !t.connected && t.queue == [] && t.sent == [] && t.fired == s.fired
            && Run(t, run) == t
  {
    DeadStays(Step(s, Ended), run);
  }

  lemma {:induction false} DeadStays(s: Socket, run: seq<Occurrence>)
    requires !s.alive
    ensures Run(s, run) == s
    decreases |run|
  {
    if run != [] { DeadStays(s, run[1..]); }
  }

  // Closing sends one disconnect packet behind everything else while connected,
  // and nothing otherwise.
  lemma {:induction false} ClosingSays(s: Socket)
    requires InOrder(s)
    ensures var t := Step(s, UserCloses);
            if s.alive && s.connected then
              t == s.(sent := s.sent + [DisconnectOut], emitted := s.emitted + [DisconnectOut])
            else
              t == s
  {
    assert s.connected ==> s.sent + s.queue == s.sent;
  }

  // What an emission puts behind the others, while connected at once on the wire.
  lemma {:induction false} EmitPuts(s: Socket, m: Message, wantsAck: bool)
    requires InOrder(s) && s.alive
    ensures var t, p := Step(s, Emits(m, wantsAck)), EventOut(m, if wantsAck then ToInt32(s.nextId) else -1);
            && (if s.connected then t.sent == s.sent + [p] && t.queue == []
                else t.sent == s.sent && t.queue == s.queue + [p])
            && t.nextId == (if wantsAck then (s.nextId + 1) % 0x1_0000_0000 else s.nextId)
            && t.acks == (if wantsAck then s.acks[ToInt32(s.nextId) := s.registered] else s.acks)
            && t.connected == s.connected && t.alive && t.fired == s.fired
  {
    assert s.connected ==> s.sent + s.queue == s.sent;
  }

  // Emissions while not connected wait, in order, and nothing is sent.
  lemma {:induction false} EmissionsWait(s: Socket, ms: seq<(Message, bool)>) returns (ps: seq<Outgoing>)
    requires InOrder(s) && s.alive && !s.connected
    ensures var t := EmitAll(s, ms);
            && InOrder(t) && t.alive && !t.connected && t.sent == s.sent && t.queue == s.queue + ps && Carry(ps, ms)
    decreases |ms|
  {
    hide Emit, InOrder;
    if ms == [] {
      ps := [];
      assert s.queue + ps == s.queue;
    } else {
      var m, wantsAck := ms[0].0, ms[0].1;
      var t := Emit(s, m, wantsAck);
      OrderConserves(s);
      var _ := EmitConserves(s, m, wantsAck);
      EmitPuts(s, m, wantsAck);
      var p := EventOut(m, if wantsAck then ToInt32(s.nextId) else -1);
      var rest := EmissionsWait(t, ms[1..]);
      ps := [p] + rest;
      assert s.queue + [p] + rest == s.queue + ps;
      assert forall i :: 0 < i < |ms| ==> ps[i] == rest[i - 1] && ms[i] == ms[1..][i - 1];
    }
  }

  lemma {:induction false} OrderConserves(s: Socket)
    requires InOrder(s)
    ensures Conserved(s)
  {
  }

  // What is emitted between the loss of a connection and the next connect is not
  // sent before, and then first and in order, in front of what the open callback
  // emits.
  lemma {:induction false} EmittedInBetween(s: Socket, ms: seq<(Message, bool)>, during: seq<(Message, bool)>,
                                            p: Incoming, answer: Message)
    returns (ps: seq<Outgoing>, qs: seq<Outgoing>)
    requires InOrder(s) && s.alive && s.connected && p.mine && p.kind == 0
    ensures Carry(ps, ms) && Carry(qs, during)
    ensures var t := EmitAll(Step(s, Lost), ms);
            && t.sent == [] && t.queue == ps && !t.connected
            && var u := Step(t, Arrives(p, during, answer)); u.connected && u.sent == ps + qs && u.queue == []
  {
    hide EmitAll, InOrder, Carry;
    var l := Step(s, Lost);
    LostDisconnects(s);
    ClearedInOrder(s);
    ps := EmissionsWait(l, ms);
    var t := EmitAll(l, ms);
    qs := AcceptedInOrder(t, during);
    assert [] + ps == ps && [] + ps + qs == ps + qs;
  }

  // What packets do to a socket that is alive. One for another namespace does
  // nothing. A connect connects it unless it is; a disconnect ends it and leaves only
  // callbacks. An event with an identifier is acknowledged once, with that identifier;
  // an answer calls the callback that waits for it.
  lemma {:induction false} PacketsDo(s: Socket, p: Incoming, during: seq<(Message, bool)>, answer: Message)
    requires InOrder(s) && s.alive
    ensures var t := Step(s, Arrives(p, during, answer));
            if !p.mine || (p.kind == 0 && s.connected) then
              t == s
            else if p.kind == 0 then
              t.connected && t.alive && t.queue == []
            else if p.kind == 1 then
              !t.alive && !t.connected && t.queue == [] && t.acks == s.acks && t.fired == s.fired
            else if (p.kind == 2 || p.kind == 5) && p.named && p.id >= 0 then
              t.emitted == s.emitted + [AckOut(answer, p.id)] && t.fired == s.fired && t.acks == s.acks
            else if (p.kind == 3 || p.kind == 6) && p.id in s.acks then
              t == s.(acks := s.acks - {p.id}, fired := s.fired + [s.acks[p.id]])
            else
              t == s
  {
    hide EmitAll;
    if p.mine && p.kind == 0 && !s.connected {
      var _ := AcceptedInOrder(s, during);
      var _ := EmitAllConserves(s.(connected := true), during);
    }
  }
}
