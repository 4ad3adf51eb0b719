// Single operations of the ring buffer as they are made of shared accesses: with
// no step of the other side in between, each does to the samples and to the gate
// what it does on the queue.

module RingAlone {
  import opened RingBuffer
  import opened RingSteps

  // k steps of the consumer, and of the producer.
  function Consumes(s: State, k: nat): State
    decreases k
  {
    if k == 0 then s else Consumes(ConsumerStep(s), k - 1)
  }

  function Produces(s: State, k: nat): State
    decreases k
  {
    if k == 0 then s else Produces(ProducerStep(s), k - 1)
  }

  // They are runs; and a side that rests goes on resting.
  lemma {:induction false} ConsumesIsRun(s: State, k: nat)
    ensures Consumes(s, k) == Run(s, seq(k, _ => Consume))
    ensures s.consumer.Resting? ==> Consumes(s, k) == s
    decreases k
  {
    hide ConsumerStep;
    if k > 0 {
      var run := seq(k, _ => Consume);
      assert run[1..] == seq(k - 1, _ => Consume);
      ConsumesIsRun(ConsumerStep(s), k - 1);
      RestingStays(s);
    }
  }

  lemma {:induction false} RestingStays(s: State)
    ensures s.consumer.Resting? ==> ConsumerStep(s) == s
    ensures s.producer.Ready? ==> ProducerStep(s) == s
  {
  }

  lemma {:induction false} ProducesIsRun(s: State, k: nat)
    ensures Produces(s, k) == Run(s, seq(k, _ => Produce))
    ensures s.producer.Ready? ==> Produces(s, k) == s
    decreases k
  {
    hide ProducerStep;
    if k > 0 {
      var run := seq(k, _ => Produce);
      assert run[1..] == seq(k - 1, _ => Produce);
      ProducesIsRun(ProducerStep(s), k - 1);
      RestingStays(s);
    }
  }

  lemma {:induction false} ConsumesOn(s: State, a: nat, b: nat)
    ensures Consumes(Consumes(s, a), b) == Consumes(s, a + b)
    decreases a
  {
    hide ConsumerStep;
    if a > 0 { ConsumesOn(ConsumerStep(s), a - 1, b); }
  }

  lemma {:induction false} ProducesOn(s: State, a: nat, b: nat)
    ensures Produces(Produces(s, a), b) == Produces(s, a + b)
    decreases a
  {
    hide ProducerStep;
    if a > 0 { ProducesOn(ProducerStep(s), a - 1, b); }
  }

  /* Reading and discarding */

  lemma {:induction false} InvCounts(s: State)
    requires Inv(s)
    ensures s.window == |s.queue| <= s.size == |s.buf| && s.readPos <= s.size && s.writePos <= s.size
    ensures s.consumer.Fetching? ==>
              |s.consumer.got| <= s.consumer.count <= |s.queue| && s.consumer.got == s.queue[..|s.consumer.got|]
    ensures s.consumer.Moved? ==>
              s.consumer.count <= |s.queue|
              && (s.consumer.kind != Dropping ==> s.consumer.got == s.queue[..s.consumer.count])
  {
    hide InPlace, Bounded, Apart;
  }

  // A step that fetches one sample changes nothing but what was fetched.
  lemma {:induction false} FetchOne(s: State)
    requires s.consumer.Fetching? && s.consumer.kind != Dropping && |s.consumer.got| < s.consumer.count
    ensures var t := ConsumerStep(s);
            t.consumer.Fetching? && |t.consumer.got| == |s.consumer.got| + 1
            && t == s.(consumer := Fetching(s.consumer.kind, s.consumer.count, t.consumer.got))
  {
    hide Load;
  }

  // What is fetched are the first samples of the queue.
  lemma {:induction false} FetchAll(s: State) returns (k: nat)
    requires Inv(s) && s.consumer.Fetching? && s.consumer.kind != Dropping
    ensures s.consumer.count <= |s.queue|
    ensures Consumes(s, k) == s.(consumer := Fetching(s.consumer.kind, s.consumer.count, s.queue[..s.consumer.count]))
    ensures Inv(Consumes(s, k))
    decreases s.consumer.count - |s.consumer.got|
  {
    hide Inv, ConsumerStep;
    InvCounts(s);
    if |s.consumer.got| == s.consumer.count {
      k := 0;
    } else {
      FetchKeeps(s);
      FetchOne(s);
      k := FetchAll(ConsumerStep(s));
      k := k + 1;
    }
  }

  // The samples are taken out of the queue: the position, then the window.
  lemma {:induction false} MoveTakes(s: State)
    requires Inv(s) && s.consumer.Fetching?
    requires s.consumer.kind == Dropping || |s.consumer.got| == s.consumer.count
    ensures s.consumer.count <= |s.queue|
    ensures var t, c := Consumes(s, 2), s.consumer;
            && t.consumer.Lowered? && t.consumer.kind == c.kind
            && t.queue == s.queue[c.count..] && t.taken == s.taken + s.queue[..c.count] && t.window == |t.queue|
            && t.buf == s.buf && t.producer == s.producer && t.published == s.published && t.primed == s.primed
            && t.size == s.size && t.prefill == s.prefill
  {
    hide Inv;
    InvCounts(s);
    MoveKeeps(s);
    var m := ConsumerStep(s);
    assert m.consumer.Moved?;
    LowerTakes(m);
    assert Consumes(s, 2) == Consumes(m, 1) == ConsumerStep(m);
  }

  // The end of a read or discard; only a raw read leaves the gate alone.
  lemma {:induction false} EndTakes(s: State) returns (k: nat)
    requires s.consumer.Lowered?
    ensures var t := Consumes(s, k);
            && t.consumer.Resting? && t.queue == s.queue && t.taken == s.taken && t.window == s.window
            && t.buf == s.buf && t.producer == s.producer && t.published == s.published
            && t.size == s.size && t.prefill == s.prefill
            && t.primed == (s.primed && (s.consumer.kind == Raw || s.window > 0))
  {
    var a := ConsumerStep(s);
    var b := ConsumerStep(a);
    var c := ConsumerStep(b);
    assert Consumes(s, 1) == Consumes(a, 0) == a;
    if s.consumer.kind == Raw {
      k := 1;
    } else if s.window > 0 {
      assert Consumes(s, 2) == Consumes(a, 1) == Consumes(b, 0) == b;
      k := 2;
    } else {
      assert Consumes(s, 3) == Consumes(a, 2) == Consumes(b, 1) == Consumes(c, 0) == c;
      k := 3;
    }
  }

  // From the beginning of the copy to the end: the first samples leave the queue.
  lemma {:induction false} FetchTakes(s: State) returns (k: nat)
    requires Inv(s) && s.consumer.Fetching?
    ensures s.consumer.count <= |s.queue|
    ensures var t, n := Consumes(s, k), s.consumer.count;
            && t.consumer.Resting? && t.queue == s.queue[n..] && t.taken == s.taken + s.queue[..n]
            && t.buf == s.buf && t.producer == s.producer && t.published == s.published
            && t.size == s.size && t.prefill == s.prefill
            && t.primed == (s.primed && (s.consumer.kind == Raw || n < |s.queue|))
  {
    hide Inv, ConsumerStep, Consumes;
    InvCounts(s);
    var f, a := s, 0;
    if s.consumer.kind != Dropping {
      a := FetchAll(s);
      f := Consumes(s, a);
    } else {
      NoSteps(s);
    }
    MoveTakes(f);
    var b := EndTakes(Consumes(f, 2));
    ConsumesOn(f, 2, b);
    ConsumesOn(s, a, 2 + b);
    k := a + (2 + b);
  }

  lemma {:induction false} NoSteps(s: State)
    ensures Consumes(s, 0) == s && Produces(s, 0) == s
  {
  }

  // A read or discard that is served, or not, as long as it only looks.
  lemma {:induction false} LookDecides(s: State, kind: Kind, n: nat) returns (k: nat)
    requires Inv(s) && s.consumer.Resting?
    ensures var t, b := Consumes(Step(s, BeginRead(kind, n)), k), s.(consumer := Fetching(kind, n, []));
            if n <= |s.queue| && (kind == Audio ==> s.primed) then t == b && Inv(b)
            else if kind == Dropping then t == s.(consumer := Rewinding)
            else t == s
  {
    hide Inv, Load;
    InvCounts(s);
    var l := Step(s, BeginRead(kind, n));
    var a := ConsumerStep(l);
    var b := ConsumerStep(a);
    assert Consumes(l, 1) == Consumes(a, 0) == a;
    k := 1;
    if n <= |s.queue| && kind == Audio {
      assert Consumes(l, 2) == Consumes(a, 1) == Consumes(b, 0) == b;
      k := 2;
    }
    if n <= |s.queue| && (kind == Audio ==> s.primed) { LooksOn(s, Fetching(kind, n, []), s.primed); }
  }

  // Starting over drops what is queued and shuts the gate.
  lemma {:induction false} OverDrops(s: State) returns (k: nat)
    requires s.consumer.Rewinding?
    ensures Consumes(s, k)
         == s.(readPos := 0, writePos := 0, window := 0, primed := false, queue := [],
               taken := s.taken + s.queue, consumer := Resting)
  {
    var a := ConsumerStep(s);
    var b := ConsumerStep(a);
    var c := ConsumerStep(b);
    var d := ConsumerStep(c);
    k := 4;
    assert Consumes(s, 4) == Consumes(a, 3) == Consumes(b, 2) == Consumes(c, 1) == Consumes(d, 0);
  }

  // An uninterrupted read or discard of n samples. An audio read is served if as
  // many are queued and the gate is open, the others if as many are queued; what
  // is served takes the first n samples, and an audio read or discard that leaves
  // nothing shuts the gate. A discard of more than is queued drops everything and
  // shuts the gate, too; a read that is not served changes nothing at all.
  lemma {:induction false} ReadAlone(s: State, kind: Kind, n: nat) returns (k: nat)
    requires Inv(s) && s.consumer.Resting?
    ensures var t := Consumes(Step(s, BeginRead(kind, n)), k);
            && t.consumer.Resting? && t.producer == s.producer && t.buf == s.buf && t.published == s.published
            && (if n <= |s.queue| && (kind == Audio ==> s.primed) then
                  && t.queue == s.queue[n..] && t.taken == s.taken + s.queue[..n]
                  && t.primed == (s.primed && (kind == Raw || n < |s.queue|))
                else if kind == Dropping then
                  t.queue == [] && t.taken == s.taken + s.queue && !t.primed
                else
                  t == s)
  {
    hide Inv, ConsumerStep, Consumes;
    var l := Step(s, BeginRead(kind, n));
    var a := LookDecides(s, kind, n);
    var b := 0;
    if n <= |s.queue| && (kind == Audio ==> s.primed) {
      b := FetchTakes(Consumes(l, a));
    } else if kind == Dropping {
      b := OverDrops(Consumes(l, a));
    } else {
      NoSteps(s);
    }
    ConsumesOn(l, a, b);
    k := a + b;
  }

  /* Writing */

  function Begun(s: State, raw: bool, x: seq<Sample>): State {
    Step(s, if raw then BeginRawWrite(x) else BeginWrite(x))
  }

  // A write is refused, or its copy begins at the write position.
  lemma {:induction false} WriteLeads(s: State, raw: bool, x: seq<Sample>) returns (k: nat)
    requires Inv(s) && s.producer.Ready?
    ensures if |s.queue| + |x| > s.size then Produces(Begun(s, raw, x), k) == s
            else
              var straight := s.writePos + |x| <= s.size;
              var toEnd := if straight then |x| else s.size - s.writePos;
              0 <= toEnd <= |x| && Produces(Begun(s, raw, x), k)
                                == s.(producer := Copying(x, 0, s.writePos, toEnd, straight))
  {
    hide Inv, CopyStep, Produces;
    InvCounts(s);
    var b := Begun(s, raw, x);
    ThreeSteps(b);
    if |s.queue| + |x| > s.size {
      k := if raw then 1 else 2;
    } else if s.writePos + |x| <= s.size {
      k := 3;
    } else {
      k := 4;
    }
  }

  lemma {:induction false} ThreeSteps(s: State)
    ensures Produces(s, 1) == ProducerStep(s)
    ensures Produces(s, 2) == ProducerStep(ProducerStep(s))
    ensures Produces(s, 3) == ProducerStep(ProducerStep(ProducerStep(s)))
    ensures Produces(s, 4) == ProducerStep(ProducerStep(ProducerStep(ProducerStep(s))))
  {
    hide ProducerStep;
    var a := ProducerStep(s);
    var b := ProducerStep(a);
    var c := ProducerStep(b);
    var d := ProducerStep(c);
    assert Produces(d, 0) == d && Produces(c, 1) == d && Produces(b, 2) == d && Produces(a, 3) == d;
    assert Produces(c, 0) == c && Produces(b, 1) == c && Produces(a, 2) == c;
    assert Produces(b, 0) == b && Produces(a, 1) == b && Produces(a, 0) == a;
  }

  lemma {:induction false} CopyAll(s: State) returns (k: nat)
    requires s.producer.Copying? && s.producer.copied <= |s.producer.samples|
    ensures var t := Produces(s, k);
            t == s.(buf := t.buf, producer := s.producer.(copied := |s.producer.samples|))
    decreases |s.producer.samples| - s.producer.copied
  {
    hide Put, Cell;
    if s.producer.copied == |s.producer.samples| {
      k := 0;
    } else {
      k := CopyAll(ProducerStep(s));
      k := k + 1;
    }
  }

  // The position, and then the window.
  lemma {:induction false} CopyCounts(s: State)
    requires s.producer.Copying? && s.producer.copied == |s.producer.samples|
    ensures var t, x := ProducerStep(ProducerStep(s)), s.producer.samples;
            && t.producer.Counted? && t.window == s.window + |x| && t.primed == s.primed
            && t.queue == s.queue + x && t.published == s.published + x && t.taken == s.taken
            && t.consumer == s.consumer && t.readPos == s.readPos && t.buf == s.buf && t.prefill == s.prefill
  {
    hide Put, Cell;
    assert ProducerStep(s).producer.Placed? && ProducerStep(s).producer.samples == s.producer.samples;
  }

  lemma {:induction false} CountedAsks(s: State) returns (k: nat)
    requires s.producer.Counted?
    ensures var t := Produces(s, k);
            t == s.(writePos := t.writePos, producer := AskingGate)
  {
    hide CopyStep, Produces;
    ThreeSteps(s);
    k := if ProducerStep(s).producer.Wrapping? then 2 else 1;
  }

  // What is copied is published, and the gate is opened at the prefill.
  lemma {:induction false} PublishEnds(s: State) returns (k: nat)
    requires s.producer.Copying? && s.producer.copied == |s.producer.samples| && s.window == |s.queue|
    ensures var t, x := Produces(s, k), s.producer.samples;
            && t.producer.Ready? && t.queue == s.queue + x && t.published == s.published + x && t.taken == s.taken
            && t.consumer == s.consumer && t.readPos == s.readPos && t.buf == s.buf
            && t.primed == (s.primed || |s.queue| + |x| >= s.prefill)
  {
    hide Produces, ProducerStep;
    ThreeSteps(s);
    CopyCounts(s);
    var c := Produces(s, 2);
    var w := CountedAsks(c);
    var a := GateAsked(Produces(c, w));
    ProducesOn(c, w, a);
    ProducesOn(s, 2, w + a);
    k := 2 + (w + a);
  }

  lemma {:induction false} GateAsked(s: State) returns (k: nat)
    requires s.producer.AskingGate?
    ensures Produces(s, k) == s.(producer := Ready, primed := s.primed || s.window >= s.prefill)
  {
    hide Produces, CopyStep;
    ThreeSteps(s);
    k := if s.primed then 1 else if s.window >= s.prefill then 3 else 2;
  }

  // An uninterrupted write, of audio or raw samples: all of them are queued and
  // published if they fit, and nothing changes if they do not. The gate is opened
  // when as many samples are queued as the prefill asks for.
  lemma {:induction false} WriteAlone(s: State, raw: bool, x: seq<Sample>) returns (k: nat)
    requires Inv(s) && s.producer.Ready?
    ensures var t := Produces(Begun(s, raw, x), k);
            && t.producer.Ready? && t.taken == s.taken && t.consumer == s.consumer && t.readPos == s.readPos
            && (if |s.queue| + |x| <= s.size then
                  && t.queue == s.queue + x && t.published == s.published + x
                  && t.primed == (s.primed || |s.queue| + |x| >= s.prefill)
                else
                  t == s)
  {
    hide Inv, ProducerStep, Produces, Begun;
    InvCounts(s);
    var b := Begun(s, raw, x);
    var a := WriteLeads(s, raw, x);
    if |s.queue| + |x| <= s.size {
      var c := CopyAll(Produces(b, a));
      var d := PublishEnds(Produces(Produces(b, a), c));
      ProducesOn(Produces(b, a), c, d);
      ProducesOn(b, a, c + d);
      k := a + (c + d);
    } else {
      k := a;
    }
  }

  /* The queue */

  function Queued(s: State): Fifo { Fifo(s.queue, s.primed) }

  // Each operation, run alone, does to the queue and its gate what it does there.
  lemma {:induction false} AloneAsQueue(s: State, op: Op) returns (k: nat)
    requires Inv(s) && s.consumer.Resting? && s.producer.Ready?
    ensures var t := match op
              case Write(x) => Produces(Begun(s, false, x), k)
              case ReadAudio(n) => Consumes(Step(s, BeginRead(Audio, n)), k)
              case ReadRaw(n) => Consumes(Step(s, BeginRead(Raw, n)), k)
              case Discard(n) => Consumes(Step(s, BeginRead(Dropping, n)), k);
            && t.consumer.Resting? && t.producer.Ready? && Queued(t) == After(Queued(s), s.size, s.prefill, op)
            && t.taken == s.taken + s.queue[..RingBuffer.Taken(Queued(s), op)]
  {
    hide Inv, Step, Begun, Consumes, Produces;
    InvCounts(s);
    match op
    case Write(x) => k := WriteAlone(s, false, x);
    case ReadAudio(n) => k := ReadAlone(s, Audio, n);
    case ReadRaw(n) => k := ReadAlone(s, Raw, n);
    case Discard(n) => k := ReadAlone(s, Dropping, n);
    assert s.taken + [] == s.taken && s.queue[..|s.queue|] == s.queue;
  }
}
