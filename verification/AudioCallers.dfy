// Who uses the ring buffers: the playback callback, and the client's drain of
// the input buffer in chunks.

module AudioCallers {
  import opened Patches
  import opened RingBuffer

  // The playback callback. It plays pure silence and takes nothing when nothing
  // is queued or the gate is shut; otherwise it plays exactly the next samples,
  // as many as are asked for and queued, and pads with silence.
  method ProcessOutput(ring: AudioRing, samples: array<Sample>, numSamples: nat)
    requires ring.Valid() && samples != ring.buffer && numSamples <= samples.Length
    modifies ring, samples
    ensures ring.Valid()
    ensures var f := old(ring.Contents());
            if f.queue == [] || !f.primed then
              samples[..numSamples] == Silence(numSamples) && ring.Contents() == f
            else
              var n := if numSamples <= |f.queue| then numSamples else |f.queue|;
              && samples[..numSamples] == f.queue[..n] + Silence(numSamples - n)
              && ring.Contents() == Fifo(f.queue[n..], n < |f.queue|)
    ensures samples[numSamples..] == old(samples[numSamples..])
  {
    hide Window;
    ghost var f, d := ring.Contents(), samples[..];
    var writeAhead := ring.GetWriteAheadLength();
    if writeAhead <= 0 {
      ZeroFill(samples, 0, numSamples);
      PatchFront(d, Silence(numSamples));
    } else if numSamples <= writeAhead {
      ring.ReadAudioData(samples, numSamples);
      assert samples[..numSamples] == Given(f, ReadAudio(numSamples));
    } else {
      ring.ReadAudioData(samples, writeAhead);
      assert samples[..writeAhead] == Given(f, ReadAudio(writeAhead));
      label Read:
      ZeroFill(samples, writeAhead, numSamples);
      assert samples[..numSamples] == old@Read(samples[..writeAhead]) + Silence(numSamples - writeAhead);
      SilenceJoins(writeAhead, numSamples - writeAhead);
    }
  }

  lemma {:induction false} SilenceJoins(a: nat, b: nat)
    ensures Silence(a) + Silence(b) == Silence(a + b)
  {
  }

  // The consecutive chunks of a queue, without the incomplete last one.
  function Chunks(q: seq<Sample>, chunk: nat): (cs: seq<seq<Sample>>)
    requires chunk > 0
    decreases |q|
  {
    if |q| < chunk then [] else [q[..chunk]] + Chunks(q[chunk..], chunk)
  }

  // What stays behind the complete chunks.
  function Rest(q: seq<Sample>, chunk: nat): (r: seq<Sample>)
    requires chunk > 0
    ensures |r| < chunk
    decreases |q|
  {
    if |q| < chunk then q else Rest(q[chunk..], chunk)
  }

  function Joined(cs: seq<seq<Sample>>): seq<Sample> {
    if cs == [] then [] else cs[0] + Joined(cs[1..])
  }

  // The first chunk, and those of the rest.
  lemma {:induction false} ChunksStep(q: seq<Sample>, chunk: nat)
    requires 0 < chunk <= |q|
    ensures Chunks(q, chunk) == [q[..chunk]] + Chunks(q[chunk..], chunk) && Rest(q, chunk) == Rest(q[chunk..], chunk)
    ensures Joined(Chunks(q, chunk)) == q[..chunk] + Joined(Chunks(q[chunk..], chunk))
  {
    var cs := Chunks(q[chunk..], chunk);
    assert ([q[..chunk]] + cs)[1..] == cs;
  }

  lemma {:induction false} NoChunk(q: seq<Sample>, chunk: nat)
    requires |q| < chunk
    ensures Chunks(q, chunk) == [] && Joined([]) == [] && Rest(q, chunk) == q
  {
  }

  // The chunks have the full size, lose nothing and reorder nothing.
  lemma {:induction false} ChunksCoverQueue(q: seq<Sample>, chunk: nat)
    requires chunk > 0
    ensures forall c <- Chunks(q, chunk) :: |c| == chunk
    ensures Joined(Chunks(q, chunk)) + Rest(q, chunk) == q
    decreases |q|
  {
    hide Chunks, Joined, Rest;
    if |q| < chunk {
      NoChunk(q, chunk);
      assert [] + q == q;
    } else {
      var first, others := q[..chunk], q[chunk..];
      ChunksStep(q, chunk);
      ChunksCoverQueue(others, chunk);
      assert first + (Joined(Chunks(others, chunk)) + Rest(others, chunk)) == first + others == q;
      assert first + (Joined(Chunks(others, chunk)) + Rest(others, chunk))
          == (first + Joined(Chunks(others, chunk))) + Rest(others, chunk);
    }
  }

  // There are as many of them as fit.
  lemma {:induction false} ChunkCount(q: seq<Sample>, chunk: nat)
    requires chunk > 0
    ensures |Chunks(q, chunk)| == |q| / chunk && |Rest(q, chunk)| == |q| % chunk
    decreases |q|
  {
    if |q| >= chunk {
      ChunkCount(q[chunk..], chunk);
      var n := |q| - chunk;
      DivisionIs(|q|, chunk, n / chunk + 1, n % chunk);
    } else {
      DivisionIs(|q|, chunk, 0, |q|);
    }
  }

  lemma {:induction false} DivisionIs(n: nat, d: nat, a: nat, r: nat)
    requires d > 0 && n == a * d + r && r < d
    ensures n / d == a && n % d == r
  {
    var k := a - n / d;
    assert k * d == n % d - r;
    if k > 0 {
      AtLeastOne(k, d);
      assert false;
    }
    if k < 0 {
      AtLeastOne(-k, d);
      assert false;
    }
  }

  lemma {:induction false} AtLeastOne(k: nat, d: nat)
    requires k > 0
    ensures k * d >= d
  {
  }

  // What remains after discarding chunks while more than one chunk is queued.
  function Kept(q: seq<Sample>, chunk: nat): (r: seq<Sample>)
    requires chunk > 0
    ensures |r| <= chunk && |r| <= |q| && r == q[|q| - |r|..]
    decreases |q|
  {
    if |q| <= chunk then q else Kept(q[chunk..], chunk)
  }

  predicate Multiple(n: nat, d: nat)
    requires d > 0
  {
    n % d == 0
  }

  // Whole chunks are discarded, from the front, and the last samples stay: as many
  // as make the length a multiple again, but never none of some.
  lemma {:induction false} KeptCount(q: seq<Sample>, chunk: nat)
    requires chunk > 0
    ensures Kept(q, chunk) == q[|q| - |Kept(q, chunk)|..] && Multiple(|q| - |Kept(q, chunk)|, chunk)
    ensures |Kept(q, chunk)| <= chunk && (Kept(q, chunk) == [] <==> q == [])
    decreases |q|
  {
    hide Multiple;
    if |q| > chunk {
      KeptCount(q[chunk..], chunk);
      OneMoreMultiple(|q[chunk..]| - |Kept(q[chunk..], chunk)|, chunk);
    } else {
      NoMultiple(chunk);
    }
  }

  lemma {:induction false} NoMultiple(d: nat)
    requires d > 0
    ensures Multiple(0, d)
  {
    DivisionIs(0, d, 0, 0);
  }

  lemma {:induction false} OneMoreMultiple(n: nat, d: nat)
    requires d > 0 && Multiple(n, d)
    ensures Multiple(n + d, d)
  {
    var a := n / d;
    assert n == a * d;
    assert (a + 1) * d == a * d + d;
    DivisionIs(n + d, d, a + 1, 0);
  }

  // The client's view of a session: its socket's log of audio messages.
  class InputDrain {
    const ring: AudioRing
    var inStreamConnected: bool
    var isOpen: bool
    var serverStarted: bool
    var sent: seq<seq<Sample>>

    constructor (ring: AudioRing)
      ensures this.ring == ring && sent == [] && !inStreamConnected && !isOpen && !serverStarted
    {
      this.ring := ring;
      inStreamConnected, isOpen, serverStarted, sent := false, false, false, [];
    }

    method EmitSamples(numSamples: nat)
      requires ring.Valid()
      modifies this`sent, ring
      ensures ring.Valid()
      ensures isOpen ==> sent == old(sent) + [Given(old(ring.Contents()), ReadRaw(numSamples))]
                         && ring.Contents() == After(old(ring.Contents()), ring.bufferSize, ring.prefillNumSamples,
                                                     ReadRaw(numSamples))
      ensures !isOpen ==> sent == old(sent) && ring.Contents() == old(ring.Contents())
    {
      if isOpen {
        var dat := ring.ReadRawData(numSamples);
        sent := sent + [dat];
      }
    }

    // The loop that sends while a chunk is queued.
    method SendChunks(chunk: nat)
      requires ring.Valid() && chunk > 0 && (isOpen || |ring.Contents().queue| < chunk)
      modifies this`sent, ring
      ensures ring.Valid()
      ensures sent == old(sent) + Chunks(old(ring.Contents()).queue, chunk)
      ensures ring.Contents() == Fifo(Rest(old(ring.Contents()).queue, chunk), old(ring.Contents()).primed)
    {
      hide Window;
      ghost var f := ring.Contents();
      var available := ring.GetWriteAheadLength();
      while available >= chunk
        invariant ring.Valid() && available == |ring.Contents().queue|
        invariant ring.Contents().primed == f.primed
        invariant sent + Chunks(ring.Contents().queue, chunk) == old(sent) + Chunks(f.queue, chunk)
        invariant Rest(ring.Contents().queue, chunk) == Rest(f.queue, chunk)
        invariant isOpen || available < chunk
        decreases available
      {
        OneChunk(sent, ring.Contents().queue, chunk);
        EmitSamples(chunk);
        available := ring.GetWriteAheadLength();
      }
      assert sent + [] == sent;
    }

    // The loop that discards while more than a chunk is queued. It never asks
    // for more than there is, so that the buffer never starts over.
    method DropChunks(chunk: nat)
      requires ring.Valid() && (chunk > 0 || ring.Contents().queue == [])
      modifies ring
      ensures ring.Valid()
      ensures chunk == 0 ==> ring.Contents() == old(ring.Contents())
      ensures chunk > 0 ==>
                ring.Contents() == Fifo(Kept(old(ring.Contents()).queue, chunk), old(ring.Contents()).primed)
    {
      hide Window, After, Taken;
      ghost var f := ring.Contents();
      var available := ring.GetWriteAheadLength();
      while available > chunk
        invariant ring.Valid() && available == |ring.Contents().queue|
        invariant ring.Contents().primed == f.primed
        invariant chunk == 0 ==> ring.Contents() == f && available == 0
        invariant chunk > 0 ==> Kept(ring.Contents().queue, chunk) == Kept(f.queue, chunk)
        decreases available
      {
        OneDrop(ring.Contents(), ring.bufferSize, ring.prefillNumSamples, chunk);
        ring.DiscardSamples(chunk);
        available := ring.GetWriteAheadLength();
      }
    }

    // When the loops of the handler come to an end: they are not entered without an
    // input stream, sending makes progress with an open socket, discarding with a
    // chunk size above zero.
    ghost predicate Ends(chunk: nat)
      requires ring.Valid()
      reads this, ring, ring.buffer
    {
      if !inStreamConnected then true
      else if serverStarted && chunk != 0 then isOpen || |ring.Contents().queue| < chunk
      else chunk > 0 || ring.Contents().queue == []
    }

    // The handler that runs when input has arrived.
    method OnInputBufferWrite(chunk: nat)
      requires ring.Valid() && Ends(chunk)
      modifies this`sent, ring
      ensures ring.Valid()
      ensures ring.Contents().primed == old(ring.Contents()).primed
      ensures var q := old(ring.Contents()).queue;
              if !inStreamConnected then
                sent == old(sent) && ring.Contents() == old(ring.Contents())
              else if chunk == 0 then
                sent == old(sent) && ring.Contents().queue == q == []
              else if serverStarted then
                sent == old(sent) + Chunks(q, chunk) && ring.Contents().queue == Rest(q, chunk)
              else
                sent == old(sent) && ring.Contents().queue == Kept(q, chunk)
    {
      hide Window, Chunks, Rest, Kept;
      if !inStreamConnected {
        return;
      }
      if serverStarted && chunk != 0 {
        SendChunks(chunk);
      } else {
        DropChunks(chunk);
      }
    }
  }

  // One turn of the discarding loop.
  lemma {:induction false} OneDrop(f: Fifo, size: nat, prefill: nat, chunk: nat)
    requires 0 < chunk < |f.queue|
    ensures var g := After(f, size, prefill, Discard(chunk));
            && Taken(f, Discard(chunk)) == chunk && |g.queue| == |f.queue| - chunk
            && g.primed == f.primed && Kept(g.queue, chunk) == Kept(f.queue, chunk)
  {
  }

  // One turn of the sending loop.
  lemma {:induction false} OneChunk(sent: seq<seq<Sample>>, q: seq<Sample>, chunk: nat)
    requires 0 < chunk <= |q|
    ensures (sent + [q[..chunk]]) + Chunks(q[chunk..], chunk) == sent + Chunks(q, chunk)
    ensures Rest(q[chunk..], chunk) == Rest(q, chunk)
  {
  }

  // A turn of the discarding loop shortens the queue exactly when the chunk size
  // is above zero. With a chunk size of zero it changes nothing at all, so that
  // the client stays in the loop as long as anything is queued.
  lemma {:induction false} DiscardProgress(f: Fifo, size: nat, prefill: nat, chunk: nat)
    requires |f.queue| > chunk
    ensures |After(f, size, prefill, Discard(chunk)).queue| < |f.queue| <==> chunk > 0
    ensures chunk == 0 ==> After(f, size, prefill, Discard(chunk)) == f
  {
    assert f.queue[0..] == f.queue;
  }
}
