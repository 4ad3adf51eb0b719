// The audio ring buffer: one array, a read and a write position, and the number
// of samples by which writing is ahead of reading. Each operation is proved
// against a queue.

module RingBuffer {
  import opened Patches

  // The 32 bits of a float sample; only silence is looked at.
  type Sample = x: int | 0 <= x < 0x1_0000_0000

  const SILENCE: Sample := 0

  function Silence(n: nat): (s: seq<Sample>)
    ensures |s| == n && forall k :: 0 <= k < n ==> s[k] == SILENCE
  {
    seq(n, _ => SILENCE)
  }

  // The slot that lies k behind slot r, where r may be the end of the array.
  function Slot(size: nat, r: nat, k: nat): (s: nat)
    requires r <= size && k < size
    ensures s < size
  {
    if r + k < size then r + k else r + k - size
  }

  // The n samples that start at slot r and go on at slot 0 behind the last slot.
  function Window(b: seq<Sample>, r: nat, n: nat): (w: seq<Sample>)
    requires r <= |b| && n <= |b|
    ensures |w| == n
  {
    if r + n <= |b| then b[r..r + n] else b[r..] + b[..r + n - |b|]
  }

  lemma {:induction false} WindowAt(b: seq<Sample>, r: nat, n: nat, k: nat)
    requires r <= |b| && k < n <= |b|
    ensures Window(b, r, n)[k] == b[Slot(|b|, r, k)]
  {
  }

  // Writing goes on at slot w behind a window of n samples that starts at r.
  predicate Behind(size: nat, r: nat, n: nat, w: nat) {
    if size == 0 then w == 0
    else w < size && (w == r + n || w == r + n - size || w == r + n - 2 * size)
  }

  // What the ring buffer stands for: the queued samples and the prefill gate.
  datatype Fifo = Fifo(queue: seq<Sample>, primed: bool)

  datatype Op =
    | Write(samples: seq<Sample>)
    | ReadAudio(count: nat)
    | ReadRaw(amount: nat)
    | Discard(number: nat)

  predicate Accepts(f: Fifo, size: nat, samples: seq<Sample>) { |f.queue| + |samples| <= size }

  predicate Plays(f: Fifo, count: nat) { count <= |f.queue| && f.primed }

  // How many samples an operation takes out of the queue.
  function Taken(f: Fifo, op: Op): (n: nat)
    ensures n <= |f.queue|
  {
    match op
    case Write(_) => 0
    case ReadAudio(n) => if Plays(f, n) then n else 0
    case ReadRaw(n) => if n <= |f.queue| then n else 0
    case Discard(n) => if n <= |f.queue| then n else |f.queue|
  }

  // What an operation hands to its caller.
  function Given(f: Fifo, op: Op): seq<Sample> {
    match op
    case ReadAudio(n) => if Plays(f, n) then f.queue[..n] else Silence(n)
    case ReadRaw(n) => if n <= |f.queue| then f.queue[..n] else Silence(n)
    case _ => []
  }

  // The gate opens when the prefill is reached, and closes when an audio read
  // or a discard leaves the queue empty or a discard asks for more than there is.
  function After(f: Fifo, size: nat, prefill: nat, op: Op): Fifo {
    match op
    case Write(s) =>
      if Accepts(f, size, s) then Fifo(f.queue + s, f.primed || |f.queue| + |s| >= prefill) else f
    case ReadAudio(n) => if Plays(f, n) then Fifo(f.queue[n..], |f.queue| > n) else f
    case ReadRaw(n) => if n <= |f.queue| then f.(queue := f.queue[n..]) else f
    case Discard(n) =>
      if n <= |f.queue| then Fifo(f.queue[n..], f.primed && |f.queue| > n) else Fifo([], false)
  }

  // The loops that put silence into the slots lo..hi.
  method ZeroFill(samples: array<Sample>, lo: nat, hi: nat)
    requires lo <= hi <= samples.Length
    modifies samples
    ensures samples[..] == Patch(old(samples[..]), lo, Silence(hi - lo))
  {
    hide Patch;
    ghost var d, src := samples[..], Silence(hi - lo);
    PatchNothing(d, lo);
    assert src[..0] == [];
    var i := lo;
    while i < hi
      invariant lo <= i <= hi
      invariant samples[..] == Patch(d, lo, src[..i - lo])
    {
      PatchNext(d, lo, src, i - lo);
      samples[i] := SILENCE;
      i := i + 1;
    }
    assert src[..i - lo] == src;
  }

  class AudioRing {
    const bufferSize: nat
    const prefillNumSamples: nat
    const buffer: array<Sample>
    var readPos: nat
    var writePos: nat
    var writeAheadWindow: nat
    var prefillComplete: bool

    // The read position may rest at the end of the array; Behind says that the
    // write position never does.
    ghost predicate Valid()
      reads this
    {
      && buffer.Length == bufferSize
      && readPos <= bufferSize && writePos <= bufferSize && writeAheadWindow <= bufferSize
      && Behind(bufferSize, readPos, writeAheadWindow, writePos)
    }

    ghost function Contents(): (f: Fifo)
      requires Valid()
      reads this, buffer
      ensures |f.queue| == writeAheadWindow
    {
      Fifo(Window(buffer[..], readPos, writeAheadWindow), prefillComplete)
    }

    // Half a second of samples and five milliseconds of prefill.
    constructor (sampleRate: nat)
      ensures Valid() && fresh(buffer) && Contents() == Fifo([], false)
      ensures bufferSize == sampleRate / 2 + sampleRate / 200 && prefillNumSamples == sampleRate / 200
    {
      prefillNumSamples := sampleRate / 200;
      readPos, writePos, writeAheadWindow, prefillComplete := 0, 0, 0, false;
      bufferSize := sampleRate / 2 + sampleRate / 200;
      buffer := new Sample[sampleRate / 2 + sampleRate / 200](_ => SILENCE);
    }

    method CopyIn(src: seq<Sample>, pos: nat)
      requires pos + |src| <= buffer.Length
      modifies buffer
      ensures buffer[..] == Patch(old(buffer[..]), pos, src)
    {
      hide Patch;
      ghost var b := buffer[..];
      PatchNothing(b, pos);
      assert src[..0] == [];
      var i := 0;
      while i < |src|
        invariant 0 <= i <= |src|
        invariant buffer[..] == Patch(b, pos, src[..i])
      {
        PatchNext(b, pos, src, i);
        buffer[pos + i] := src[i];
        i := i + 1;
      }
      assert src[..i] == src;
    }

    method CopyOut(pos: nat, n: nat, dst: array<Sample>, at: nat)
      requires pos + n <= buffer.Length && at + n <= dst.Length && dst != buffer
      modifies dst
      ensures dst[..] == Patch(old(dst[..]), at, buffer[pos..pos + n])
    {
      hide Patch;
      ghost var d := dst[..];
      ghost var src := buffer[pos..pos + n];
      PatchNothing(d, at);
      assert src[..0] == [];
      var i := 0;
      while i < n
        invariant 0 <= i <= n
        invariant dst[..] == Patch(d, at, src[..i])
      {
        PatchNext(d, at, src, i);
        dst[at + i] := buffer[pos + i];
        i := i + 1;
      }
      assert src[..i] == src;
    }

    // How a write moves the write head, and opens the gate.
    method MoveWriteHead(count: nat)
      requires readPos <= bufferSize && writePos <= bufferSize && writeAheadWindow + count <= bufferSize
      requires Behind(bufferSize, readPos, writeAheadWindow, writePos)
      modifies this
      ensures readPos == old(readPos) && writePos <= bufferSize
      ensures Behind(bufferSize, readPos, writeAheadWindow, writePos)
      ensures writeAheadWindow == old(writeAheadWindow) + count
      ensures prefillComplete == (old(prefillComplete) || writeAheadWindow >= prefillNumSamples)
    {
      hide Behind;
      WriteMoves(bufferSize, readPos, writeAheadWindow, writePos, count);
      if writePos + count <= bufferSize {
        writePos := writePos + count;
        writeAheadWindow := writeAheadWindow + count;
        if writePos == bufferSize {
          writePos := 0;
        }
      } else {
        var writeToEnd := bufferSize - writePos;
        writePos := count - writeToEnd;
        writeAheadWindow := writeAheadWindow + count;
      }
      if !prefillComplete && writeAheadWindow >= prefillNumSamples {
        prefillComplete := true;
      }
    }

    method WriteAudioData(samples: array<Sample>, count: nat)
      requires Valid() && samples != buffer && count <= samples.Length
      modifies this, buffer
      ensures Valid()
      ensures Contents() == After(old(Contents()), bufferSize, prefillNumSamples, Write(samples[..count]))
    {
      hide Window, Patch, After, Behind;
      ghost var s, b := samples[..count], buffer[..];
      WriteDone(b, readPos, writeAheadWindow, writePos, prefillComplete, prefillNumSamples, s);
      if writePos + count <= bufferSize {
        if writeAheadWindow + count <= bufferSize {
          CopyIn(samples[..count], writePos);
          MoveWriteHead(count);
        }
      } else {
        if writeAheadWindow + count <= bufferSize {
          BehindIsInside(bufferSize, readPos, writeAheadWindow, writePos);
          var writeToEnd := bufferSize - writePos;
          assert samples[..writeToEnd] == s[..writeToEnd] && samples[writeToEnd..count] == s[writeToEnd..];
          CopyIn(samples[..writeToEnd], writePos);
          CopyIn(samples[writeToEnd..count], 0);
          MoveWriteHead(count);
        }
      }
    }

    method WriteRawData(data: seq<Sample>, count: nat)
      requires Valid() && count <= |data|
      modifies this, buffer
      ensures Valid()
      ensures Contents() == After(old(Contents()), bufferSize, prefillNumSamples, Write(data[..count]))
    {
      hide Window, Patch, After, Behind;
      ghost var s, b := data[..count], buffer[..];
      WriteDone(b, readPos, writeAheadWindow, writePos, prefillComplete, prefillNumSamples, s);
      if writeAheadWindow + count > bufferSize {
        return;
      }
      if writePos + count <= bufferSize {
        CopyIn(data[..count], writePos);
        MoveWriteHead(count);
      } else {
        BehindIsInside(bufferSize, readPos, writeAheadWindow, writePos);
        var writeToEnd := bufferSize - writePos;
        assert data[..writeToEnd] == s[..writeToEnd] && data[writeToEnd..count] == s[writeToEnd..];
        CopyIn(data[..writeToEnd], writePos);
        CopyIn(data[writeToEnd..count], 0);
        MoveWriteHead(count);
      }
    }

    // The copies of an audio read, in one piece or two.
    method CopyQueued(samples: array<Sample>, count: nat)
      requires Valid() && samples != buffer && count <= samples.Length && count <= writeAheadWindow
      modifies samples
      ensures samples[..] == Window(buffer[..], readPos, count) + old(samples[count..])
    {
      hide Window, Patch, Behind;
      ghost var b, d := buffer[..], samples[..];
      if readPos + count <= bufferSize {
        CopyOut(readPos, count, samples, 0);
        WholeRead(b, readPos, count, d);
      } else {
        var readToEnd := bufferSize - readPos;
        CopyOut(readPos, readToEnd, samples, 0);
        CopyOut(0, count - readToEnd, samples, readToEnd);
        SplitRead(b, readPos, readToEnd, count, d);
      }
    }

    // The position of a head behind count samples, where the end of the array is
    // its start again.
    method Advance(count: nat)
      requires readPos <= bufferSize && count <= writeAheadWindow <= bufferSize
      modifies this`readPos, this`writeAheadWindow
      ensures writeAheadWindow == old(writeAheadWindow) - count
      ensures readPos == if old(readPos) + count == bufferSize then 0 else Next(bufferSize, old(readPos), count)
    {
      if readPos + count <= bufferSize {
        readPos := readPos + count;
        writeAheadWindow := writeAheadWindow - count;
        if readPos == bufferSize {
          readPos := 0;
        }
      } else {
        var readToEnd := bufferSize - readPos;
        readPos := count - readToEnd;
        writeAheadWindow := writeAheadWindow - count;
      }
    }

    // How an audio read and a discard move the read head.
    method MoveReadHead(count: nat)
      requires Valid() && count <= writeAheadWindow
      modifies this`readPos, this`writeAheadWindow, this`prefillComplete
      ensures Valid() && writePos == old(writePos)
      ensures Contents() == After(old(Contents()), bufferSize, prefillNumSamples, Discard(count))
    {
      hide Window, After, Behind;
      DiscardDone(buffer[..], readPos, writeAheadWindow, prefillComplete, count, prefillNumSamples);
      ReadMoves(bufferSize, readPos, writeAheadWindow, writePos, count);
      EndIsStart(buffer[..], writeAheadWindow - count);
      Advance(count);
      if writeAheadWindow <= 0 {
        prefillComplete := false;
      }
    }

    method ReadAudioData(samples: array<Sample>, count: nat)
      requires Valid() && samples != buffer && count <= samples.Length
      modifies this, samples
      ensures Valid()
      ensures Contents() == After(old(Contents()), bufferSize, prefillNumSamples, ReadAudio(count))
      ensures samples[..] == Given(old(Contents()), ReadAudio(count)) + old(samples[count..])
    {
      hide Window, Behind, Patch;
      ghost var b, d := buffer[..], samples[..];
      if count > writeAheadWindow || !prefillComplete {
        ZeroFill(samples, 0, count);
        assert buffer[..] == b;
        PatchFront(d, Silence(count));
      } else {
        CopyQueued(samples, count);
        assert buffer[..] == b;
        TakeWindow(b, readPos, writeAheadWindow, count);
        MoveReadHead(count);
      }
    }

    // How a raw read moves the read head: to the end of the array, if need be.
    method MoveRawHead(count: nat)
      requires Valid() && count <= writeAheadWindow
      modifies this`readPos, this`writeAheadWindow
      ensures Valid() && writePos == old(writePos)
      ensures Contents() == After(old(Contents()), bufferSize, prefillNumSamples, ReadRaw(count))
    {
      hide Window, After, Behind;
      RawDone(buffer[..], readPos, writeAheadWindow, prefillComplete, count, prefillNumSamples);
      ReadMoves(bufferSize, readPos, writeAheadWindow, writePos, count);
      if readPos + count <= bufferSize {
        readPos := readPos + count;
        writeAheadWindow := writeAheadWindow - count;
      } else {
        var readToEnd := bufferSize - readPos;
        readPos := count - readToEnd;
        writeAheadWindow := writeAheadWindow - count;
      }
    }

    // The samples that a raw read copies, in one piece or two.
    method QueuedRaw(count: nat) returns (binData: seq<Sample>)
      requires Valid() && count <= writeAheadWindow
      ensures binData == Window(buffer[..], readPos, count)
    {
      hide Window, Behind, Patch;
      ghost var b := buffer[..];
      if readPos + count <= bufferSize {
        binData := buffer[readPos..readPos + count];
        WholeRead(b, readPos, count, binData);
      } else {
        var readToEnd := bufferSize - readPos;
        binData := buffer[readPos..readPos + readToEnd] + buffer[0..0 + (count - readToEnd)];
        SplitRead(b, readPos, readToEnd, count, binData);
      }
    }

    method ReadRawData(count: nat) returns (binData: seq<Sample>)
      requires Valid()
      modifies this
      ensures Valid()
      ensures Contents() == After(old(Contents()), bufferSize, prefillNumSamples, ReadRaw(count))
      ensures binData == Given(old(Contents()), ReadRaw(count))
    {
      hide Window, Behind;
      binData := Silence(count);
      if count > writeAheadWindow {
        return;
      }
      binData := QueuedRaw(count);
      TakeWindow(buffer[..], readPos, writeAheadWindow, count);
      MoveRawHead(count);
    }

    method DiscardSamples(count: nat)
      requires Valid()
      modifies this
      ensures Valid()
      ensures Contents() == After(old(Contents()), bufferSize, prefillNumSamples, Discard(count))
    {
      hide Window, Behind;
      if count > writeAheadWindow {
        StartsOver(bufferSize);
        readPos := 0;
        writePos := 0;
        writeAheadWindow := 0;
        prefillComplete := false;
      } else {
        MoveReadHead(count);
      }
    }

    method GetWriteAheadLength() returns (n: nat)
      requires Valid()
      ensures n == |Contents().queue|
    {
      n := writeAheadWindow;
    }
  }

  /* What the copies do to a window */

  // New samples in one piece behind a window.
  lemma {:induction false} WholeWrite(b: seq<Sample>, c: seq<Sample>, r: nat, n: nat, w: nat, s: seq<Sample>)
    requires r <= |b| && n + |s| <= |b| && w + |s| <= |b|
    requires Behind(|b|, r, n, w)
    requires c == Patch(b, w, s)
    ensures |c| == |b| && Window(c, r, n + |s|) == Window(b, r, n) + s
  {
    hide Window;
    forall k | 0 <= k < n + |s|
      ensures Window(c, r, n + |s|)[k] == (Window(b, r, n) + s)[k]
    {
      WindowAt(c, r, n + |s|, k);
      if k < n { WindowAt(b, r, n, k); }
      var i := Slot(|b|, r, k);
      if k < n {
        assert i < w || i >= w + |s|;
        assert c[i] == b[i];
      } else {
        assert i == w + (k - n);
        assert c[i] == s[k - n];
      }
    }
  }

  // New samples in two pieces: up to the end of the array and from its start.
  lemma {:induction false} SplitWrite(b: seq<Sample>, c: seq<Sample>, r: nat, n: nat, w: nat, s: seq<Sample>)
    requires r <= |b| && n + |s| <= |b| && w + |s| > |b|
    requires Behind(|b|, r, n, w)
    requires var m := |b| - w; c == Patch(Patch(b, w, s[..m]), 0, s[m..])
    ensures |c| == |b| && Window(c, r, n + |s|) == Window(b, r, n) + s
  {
    hide Window;
    var m := |b| - w;
    forall k | 0 <= k < n + |s|
      ensures Window(c, r, n + |s|)[k] == (Window(b, r, n) + s)[k]
    {
      WindowAt(c, r, n + |s|, k);
      if k < n { WindowAt(b, r, n, k); }
      var i := Slot(|b|, r, k);
      if k < n {
        assert |s| - m <= i < w;
        assert c[i] == b[i];
      } else if k - n < m {
        assert i == w + (k - n);
        assert c[i] == s[k - n];
      } else {
        assert i == k - n - m;
        assert c[i] == s[k - n];
      }
    }
  }

  // Samples copied out in one piece, and in two pieces.
  lemma {:induction false} WholeRead(b: seq<Sample>, r: nat, n: nat, d: seq<Sample>)
    requires r + n <= |b| && n <= |d|
    ensures Window(b, r, n) == b[r..r + n]
    ensures Patch(d, 0, b[r..r + n]) == Window(b, r, n) + d[n..]
  {
  }

  lemma {:induction false} SplitRead(b: seq<Sample>, r: nat, m: nat, n: nat, d: seq<Sample>)
    requires r + m == |b| && m <= n <= |b| && n <= |d|
    ensures Window(b, r, n) == b[r..r + m] + b[0..0 + (n - m)]
    ensures Patch(Patch(d, 0, b[r..r + m]), m, b[0..0 + (n - m)]) == Window(b, r, n) + d[n..]
  {
    PatchTwice(d, b[r..r + m], b[0..0 + (n - m)]);
  }

  lemma {:induction false} PatchFront(d: seq<Sample>, x: seq<Sample>)
    requires |x| <= |d|
    ensures Patch(d, 0, x) == x + d[|x|..]
  {
  }

  lemma {:induction false} PatchTwice(d: seq<Sample>, x: seq<Sample>, y: seq<Sample>)
    requires |x| + |y| <= |d|
    ensures Patch(Patch(d, 0, x), |x|, y) == x + y + d[|x| + |y|..]
  {
    var e := Patch(d, 0, x);
    assert e == x + d[|x|..];
    assert e[..|x|] == x;
    assert e[|x| + |y|..] == d[|x| + |y|..];
  }

  // What a write leaves, in one piece or two, or refused.
  lemma {:induction false} WriteDone(b: seq<Sample>, r: nat, n: nat, w: nat, primed: bool, prefill: nat, s: seq<Sample>)
    requires r <= |b| && n <= |b| && w <= |b| && Behind(|b|, r, n, w)
    ensures var g := After(Fifo(Window(b, r, n), primed), |b|, prefill, Write(s));
            if n + |s| > |b| then g == Fifo(Window(b, r, n), primed)
            else if w + |s| <= |b| then
              g == Fifo(Window(Patch(b, w, s), r, n + |s|), primed || n + |s| >= prefill)
            else
              g == Fifo(Window(Patch(Patch(b, w, s[..|b| - w]), 0, s[|b| - w..]), r, n + |s|),
                        primed || n + |s| >= prefill)
  {
    hide Window, Patch;
    if n + |s| <= |b| {
      if w + |s| <= |b| {
        WholeWrite(b, Patch(b, w, s), r, n, w, s);
      } else {
        SplitWrite(b, Patch(Patch(b, w, s[..|b| - w]), 0, s[|b| - w..]), r, n, w, s);
      }
    }
  }

  // The position behind the next count samples; it may be the end of the array.
  function Next(size: nat, r: nat, count: nat): (q: nat)
    requires r <= size && count <= size
    ensures q <= size
  {
    if r + count <= size then r + count else r + count - size
  }

  // Both ends of a window move on.
  lemma {:induction false} ReadMoves(size: nat, r: nat, n: nat, w: nat, count: nat)
    requires r <= size && count <= n <= size && Behind(size, r, n, w)
    ensures Behind(size, Next(size, r, count), n - count, w)
    ensures Next(size, r, count) == size ==> Behind(size, 0, n - count, w)
  {
  }

  lemma {:induction false} WriteMoves(size: nat, r: nat, n: nat, w: nat, count: nat)
    requires r <= size && w <= size && n + count <= size && Behind(size, r, n, w)
    ensures w + count < size ==> Behind(size, r, n + count, w + count)
    ensures w + count == size ==> Behind(size, r, n + count, 0)
    ensures w + count > size ==> Behind(size, r, n + count, w + count - size) && w + count - size < size
  {
  }

  lemma {:induction false} StartsOver(size: nat)
    ensures Behind(size, 0, 0, 0)
  {
  }

  lemma {:induction false} BehindIsInside(size: nat, r: nat, n: nat, w: nat)
    requires Behind(size, r, n, w)
    ensures w <= size && (w == size ==> size == 0)
  {
  }

  // What a raw read leaves in the queue.
  lemma {:induction false} RawDone(b: seq<Sample>, r: nat, n: nat, primed: bool, count: nat, prefill: nat)
    requires r <= |b| && count <= n <= |b|
    ensures After(Fifo(Window(b, r, n), primed), |b|, prefill, ReadRaw(count))
         == Fifo(Window(b, Next(|b|, r, count), n - count), primed)
  {
    hide Window;
    TakeWindow(b, r, n, count);
  }

  // What discarding leaves.
  lemma {:induction false} DiscardDone(b: seq<Sample>, r: nat, n: nat, primed: bool, count: nat, prefill: nat)
    requires r <= |b| && n <= |b|
    ensures var g := After(Fifo(Window(b, r, n), primed), |b|, prefill, Discard(count));
            if count > n then g == Fifo(Window(b, 0, 0), false)
            else
              var next := Next(|b|, r, count);
              && g == Fifo(Window(b, next, n - count), primed && n > count)
  {
    hide Window;
    WindowNothing(b, 0);
    if count <= n {
      TakeWindow(b, r, n, count);
    }
  }

  lemma {:induction false} WindowNothing(b: seq<Sample>, r: nat)
    requires r <= |b|
    ensures Window(b, r, 0) == []
  {
  }

  // The first samples of a window, and the window behind them.
  lemma {:induction false} TakeWindow(b: seq<Sample>, r: nat, n: nat, count: nat)
    requires r <= |b| && count <= n <= |b|
    ensures Window(b, r, count) == Window(b, r, n)[..count]
    ensures r + count <= |b| ==> Window(b, r + count, n - count) == Window(b, r, n)[count..]
    ensures r + count > |b| ==> Window(b, r + count - |b|, n - count) == Window(b, r, n)[count..]
  {
  }

  lemma {:induction false} EndIsStart(b: seq<Sample>, n: nat)
    requires n <= |b|
    ensures Window(b, |b|, n) == Window(b, 0, n)
  {
  }

  /* Runs */

  // What one operation lets in.
  function LetIn(f: Fifo, size: nat, op: Op): seq<Sample> {
    if op.Write? && Accepts(f, size, op.samples) then op.samples else []
  }

  // Everything that one run of operations accepted, in order.
  function Accepted(f: Fifo, size: nat, prefill: nat, ops: seq<Op>): seq<Sample>
    decreases |ops|
  {
    if ops == [] then []
    else
      LetIn(f, size, ops[0]) + Accepted(After(f, size, prefill, ops[0]), size, prefill, ops[1..])
  }

  // Everything that was taken out of the queue, in order.
  function Removed(f: Fifo, size: nat, prefill: nat, ops: seq<Op>): seq<Sample>
    decreases |ops|
  {
    if ops == [] then []
    else
      f.queue[..Taken(f, ops[0])] + Removed(After(f, size, prefill, ops[0]), size, prefill, ops[1..])
  }

  function RunAll(f: Fifo, size: nat, prefill: nat, ops: seq<Op>): Fifo
    decreases |ops|
  {
    if ops == [] then f else RunAll(After(f, size, prefill, ops[0]), size, prefill, ops[1..])
  }

  lemma {:induction false} StepConserves(f: Fifo, size: nat, prefill: nat, op: Op)
    requires |f.queue| <= size
    ensures var g := After(f, size, prefill, op);
            f.queue[..Taken(f, op)] + g.queue == f.queue + LetIn(f, size, op) && |g.queue| <= size
  {
  }

  // No sample is lost, repeated or reordered: what was removed, followed by what
  // is left, is what was there, followed by what was accepted. The queue never
  // outgrows the array.
  lemma {:induction false} Conservation(f: Fifo, size: nat, prefill: nat, ops: seq<Op>)
    requires |f.queue| <= size
    ensures Removed(f, size, prefill, ops) + RunAll(f, size, prefill, ops).queue
         == f.queue + Accepted(f, size, prefill, ops)
    ensures |RunAll(f, size, prefill, ops).queue| <= size
    decreases |ops|
  {
    hide After, Taken, LetIn;
    if ops != [] {
      var g := After(f, size, prefill, ops[0]);
      StepConserves(f, size, prefill, ops[0]);
      Conservation(g, size, prefill, ops[1..]);
      Chain(f.queue[..Taken(f, ops[0])], g.queue, f.queue, LetIn(f, size, ops[0]),
            Removed(g, size, prefill, ops[1..]), RunAll(g, size, prefill, ops[1..]).queue,
            Accepted(g, size, prefill, ops[1..]));
    }
  }

  lemma {:induction false} Chain<T>(gone: seq<T>, g: seq<T>, f: seq<T>, came: seq<T>, removed: seq<T>,
                                    last: seq<T>, accepted: seq<T>)
    requires gone + g == f + came && removed + last == g + accepted
    ensures (gone + removed) + last == f + (came + accepted)
  {
    assert (gone + removed) + last == gone + (removed + last);
    assert gone + (g + accepted) == (gone + g) + accepted;
    assert (f + came) + accepted == f + (came + accepted);
  }

  // A read gives as many samples as were asked for: what it takes, or silence if it
  // takes nothing.
  lemma {:induction false} GivesWhatItTakes(f: Fifo, op: Op)
    requires op.ReadAudio? || op.ReadRaw?
    ensures |Given(f, op)| == if op.ReadAudio? then op.count else op.amount
    ensures if Taken(f, op) > 0 then Given(f, op) == f.queue[..Taken(f, op)]
            else forall x <- Given(f, op) :: x == SILENCE
  {
  }

  // A shut gate is opened by exactly the accepted writes that reach the prefill.
  lemma {:induction false} GateOpensAtPrefill(f: Fifo, size: nat, prefill: nat, op: Op)
    requires !f.primed
    ensures After(f, size, prefill, op).primed
       <==> op.Write? && Accepts(f, size, op.samples) && |After(f, size, prefill, op).queue| >= prefill
  {
  }

  // Over a run that never queues as much as the prefill, a shut gate stays shut:
  // no audio is played, whatever is asked for.
  lemma {:induction false} SilentBelowPrefill(f: Fifo, size: nat, prefill: nat, ops: seq<Op>)
    requires !f.primed
    requires forall k :: 0 <= k <= |ops| ==> |RunAll(f, size, prefill, ops[..k]).queue| < prefill
    ensures !RunAll(f, size, prefill, ops).primed
    decreases |ops|
  {
    hide After;
    if ops != [] {
      var g := After(f, size, prefill, ops[0]);
      GateOpensAtPrefill(f, size, prefill, ops[0]);
      assert ops[..1][0] == ops[0] && ops[..1][1..] == [] && RunAll(g, size, prefill, []) == g;
      assert RunAll(f, size, prefill, ops[..1]) == g;
      forall k | 0 <= k <= |ops[1..]|
        ensures |RunAll(g, size, prefill, ops[1..][..k]).queue| < prefill
      {
        assert ops[..k + 1][0] == ops[0] && ops[..k + 1][1..] == ops[1..][..k];
        assert |RunAll(f, size, prefill, ops[..k + 1]).queue| < prefill;
      }
      SilentBelowPrefill(g, size, prefill, ops[1..]);
    }
  }

  // What opens the gate: a write that fits and leaves as much as the prefill asks for.
  predicate Opens(queued: nat, size: nat, prefill: nat, op: Op) {
    op.Write? && queued + |op.samples| <= size && queued + |op.samples| >= prefill
  }

  // What shuts it: an audio read of everything, or a discard of that much or more.
  predicate Shuts(queued: nat, op: Op) {
    (op.ReadAudio? && op.count == queued) || (op.Discard? && op.number >= queued)
  }

  // How much is queued in front of operation k.
  function QueuedAt(f: Fifo, size: nat, prefill: nat, ops: seq<Op>, k: nat): nat
    requires k <= |ops|
  {
    |RunAll(f, size, prefill, ops[..k]).queue|
  }

  // Since operation k nothing has shut the gate.
  predicate OpenSince(f: Fifo, size: nat, prefill: nat, ops: seq<Op>, k: nat) {
    forall j :: k <= j < |ops| ==> !Shuts(QueuedAt(f, size, prefill, ops, j), ops[j])
  }

  predicate OpenedAt(f: Fifo, size: nat, prefill: nat, ops: seq<Op>, k: nat) {
    k < |ops| && Opens(QueuedAt(f, size, prefill, ops, k), size, prefill, ops[k])
    && OpenSince(f, size, prefill, ops, k + 1)
  }

  lemma {:induction false} GateStep(f: Fifo, size: nat, prefill: nat, op: Op)
    ensures After(f, size, prefill, op).primed
       <==> Opens(|f.queue|, size, prefill, op) || (f.primed && !Shuts(|f.queue|, op))
  {
  }

  // Over any run the gate is open exactly if some write has opened it, or it was
  // open from the start, and since then nothing has shut it.
  lemma {:induction false} GateHistory(f: Fifo, size: nat, prefill: nat, ops: seq<Op>)
    ensures RunAll(f, size, prefill, ops).primed
       <==> || (f.primed && OpenSince(f, size, prefill, ops, 0))
            || exists k: nat :: OpenedAt(f, size, prefill, ops, k)
    decreases |ops|
  {
    hide After, Opens, Shuts;
    if ops != [] {
      var n := |ops| - 1;
      var front, op := ops[..n], ops[n];
      assert front + [op] == ops;
      RunLast(f, size, prefill, front, op);
      GateStep(RunAll(f, size, prefill, front), size, prefill, op);
      GateHistory(f, size, prefill, front);
      SinceLast(f, size, prefill, ops, 0);
      if OpenedAt(f, size, prefill, ops, n) {
      } else if exists k: nat :: OpenedAt(f, size, prefill, front, k) {
        var k: nat :| OpenedAt(f, size, prefill, front, k);
        OpenedLast(f, size, prefill, ops, k);
      }
      forall k: nat | OpenedAt(f, size, prefill, ops, k) && k < n
        ensures OpenedAt(f, size, prefill, front, k) && !Shuts(QueuedAt(f, size, prefill, ops, n), op)
      {
        OpenedLast(f, size, prefill, ops, k);
      }
    }
  }

  lemma {:induction false} SinceLast(f: Fifo, size: nat, prefill: nat, ops: seq<Op>, k: nat)
    requires ops != [] && k < |ops|
    ensures var n := |ops| - 1;
            (OpenSince(f, size, prefill, ops, k) <==>
               OpenSince(f, size, prefill, ops[..n], k) && !Shuts(QueuedAt(f, size, prefill, ops, n), ops[n]))
  {
    hide RunAll, Shuts;
    var n := |ops| - 1;
    forall j | k <= j < n
      ensures QueuedAt(f, size, prefill, ops, j) == QueuedAt(f, size, prefill, ops[..n], j) && ops[..n][j] == ops[j]
    {
      assert ops[..n][..j] == ops[..j];
    }
  }

  lemma {:induction false} OpenedLast(f: Fifo, size: nat, prefill: nat, ops: seq<Op>, k: nat)
    requires ops != [] && k < |ops| - 1
    ensures var n := |ops| - 1;
            (OpenedAt(f, size, prefill, ops, k) <==>
               OpenedAt(f, size, prefill, ops[..n], k) && !Shuts(QueuedAt(f, size, prefill, ops, n), ops[n]))
  {
    hide RunAll, Shuts, Opens;
    var n := |ops| - 1;
    assert ops[..n][..k] == ops[..k];
    SinceLast(f, size, prefill, ops, k + 1);
  }

  // One operation on the array, as on the queue.
  method PerformOne(ring: AudioRing, op: Op) returns (answer: seq<Sample>)
    requires ring.Valid()
    modifies ring, ring.buffer
    ensures ring.Valid()
    ensures ring.Contents() == After(old(ring.Contents()), ring.bufferSize, ring.prefillNumSamples, op)
    ensures answer == Given(old(ring.Contents()), op)
  {
    hide After, Window;
    answer := [];
    match op {
      case Write(s) =>
        ring.WriteRawData(s, |s|);
        assert s[..|s|] == s;
      case ReadAudio(n) =>
        var samples := new Sample[n](_ => SILENCE);
        ring.ReadAudioData(samples, n);
        answer := samples[..];
      case ReadRaw(n) =>
        answer := ring.ReadRawData(n);
      case Discard(n) =>
        ring.DiscardSamples(n);
    }
  }

  // The array performs any run as the queue does.
  method Perform(ring: AudioRing, ops: seq<Op>) returns (given: seq<seq<Sample>>)
    requires ring.Valid()
    modifies ring, ring.buffer
    ensures ring.Valid() && |given| == |ops|
    ensures ring.Contents() == RunAll(old(ring.Contents()), ring.bufferSize, ring.prefillNumSamples, ops)
    ensures forall i :: 0 <= i < |ops| ==>
              given[i] == Given(RunAll(old(ring.Contents()), ring.bufferSize, ring.prefillNumSamples, ops[..i]), ops[i])
  {
    hide After, Given, Window;
    given := [];
    var i := 0;
    ghost var start := ring.Contents();
    ghost var size, prefill := ring.bufferSize, ring.prefillNumSamples;
    assert ops[..0] == [];
    while i < |ops|
      invariant 0 <= i <= |ops| && |given| == i && ring.Valid()
      invariant ring.Contents() == RunAll(start, size, prefill, ops[..i])
      invariant forall j :: 0 <= j < i ==> given[j] == Given(RunAll(start, size, prefill, ops[..j]), ops[j])
    {
      RunLast(start, size, prefill, ops[..i], ops[i]);
      assert ops[..i + 1] == ops[..i] + [ops[i]];
      var answer := PerformOne(ring, ops[i]);
      given := given + [answer];
      i := i + 1;
    }
    assert ops[..i] == ops;
  }

  lemma {:induction false} RunLast(f: Fifo, size: nat, prefill: nat, ops: seq<Op>, op: Op)
    ensures RunAll(f, size, prefill, ops + [op]) == After(RunAll(f, size, prefill, ops), size, prefill, op)
    decreases |ops|
  {
    hide After;
    if ops == [] {
      assert ([op])[1..] == [];
      assert [] + [op] == [op];
    } else {
      assert (ops + [op])[1..] == ops[1..] + [op];
      RunLast(After(f, size, prefill, ops[0]), size, prefill, ops[1..], op);
    }
  }
}
