// The ring buffer with a producer and a consumer at work at the same time. Each
// access to a field that the other side may change is a step of its own, in the
// order of the code, and so is each sample copied; the two sides take steps in
// any order. What a side has read stays as it was read.

module RingSteps {
  import opened RingBuffer

  datatype Kind = Audio | Raw | Dropping

  // Where a write stands. The field at hand is always the next one to be accessed.
  // An audio write chooses its branch by the position before it looks at the
  // window, a raw write behind it. The straight branch then fixes the slot where
  // copying starts; the other one first fixes the number of samples that go to
  // the end of the array. A write that would copy more samples than it was given
  // is astray.
  datatype Producer =
    | Ready
    | Branching(samples: seq<Sample>)
    | Checking(samples: seq<Sample>, straight: bool)
    | RawChecking(samples: seq<Sample>)
    | RawBranching(samples: seq<Sample>)
    | Aiming(samples: seq<Sample>)
    | Measuring(samples: seq<Sample>)
    | AimingSplit(samples: seq<Sample>, left: int)
    | Copying(samples: seq<Sample>, copied: nat, start: nat, toEnd: nat, straight: bool)
    | Placed(samples: seq<Sample>, start: nat, toEnd: nat, straight: bool)
    | Counted(straight: bool)
    | Wrapping
    | AskingGate
    | AskingWindow
    | OpeningGate
    | Astray(samples: seq<Sample>)

  // Where a read or a discard stands. A discard of more than there is starts the
  // buffer over, one field after the other.
  datatype Consumer =
    | Resting
    | Looking(kind: Kind, count: nat)
    | TryingGate(count: nat)
    | Fetching(kind: Kind, count: nat, got: seq<Sample>)
    | Moved(kind: Kind, count: nat, from: nat, got: seq<Sample>, straight: bool)
    | Lowered(kind: Kind, straight: bool)
    | AskingEmpty
    | ShuttingGate
    | Rewinding
    | ClearingWrite(from: nat)
    | ClearingWindow
    | ClearingGate

  // The shared fields, both sides, and the history: what was published and not
  // yet taken, everything published, everything taken.
  datatype State = State(
    size: nat, prefill: nat, buf: seq<Sample>,
    readPos: nat, writePos: nat, window: int, primed: bool,
    producer: Producer, consumer: Consumer,
    queue: seq<Sample>, published: seq<Sample>, taken: seq<Sample>)

  datatype Action =
    | BeginWrite(samples: seq<Sample>)
    | BeginRawWrite(samples: seq<Sample>)
    | BeginRead(kind: Kind, count: nat)
    | Produce
    | Consume

  function Initial(size: nat, prefill: nat): State {
    State(size, prefill, Silence(size), 0, 0, 0, false, Ready, Resting, [], [], [])
  }

  // The slot of sample k of a copy that starts at a slot and goes on at slot 0
  // behind a number of samples.
  function Cell(start: nat, toEnd: nat, k: nat): nat { if k < toEnd then start + k else k - toEnd }

  function Put(b: seq<Sample>, cell: nat, x: Sample): (c: seq<Sample>)
    ensures |c| == |b|
  {
    if cell < |b| then b[cell := x] else b
  }

  function Load(b: seq<Sample>, pos: nat, k: nat): Sample {
    if pos <= |b| && k < |b| then b[Slot(|b|, pos, k)] else SILENCE
  }

  function CopyStep(s: State, x: seq<Sample>, i: nat, start: nat, toEnd: nat, straight: bool): State {
    if i < |x| then
      s.(buf := Put(s.buf, Cell(start, toEnd, i), x[i]), producer := Copying(x, i + 1, start, toEnd, straight))
    else if straight then
      s.(writePos := s.writePos + |x|, producer := Placed(x, start, toEnd, straight))
    else
      s.(writePos := if toEnd <= |x| then |x| - toEnd else 0, producer := Placed(x, start, toEnd, straight))
  }

  // Where a write stands behind a step that only reads.
  function Looked(s: State): Producer {
    match s.producer
    case Branching(x) => Checking(x, s.writePos + |x| <= s.size)
    case Checking(x, straight) =>
      if s.window + |x| > s.size then Ready else if straight then Aiming(x) else Measuring(x)
    case RawChecking(x) => if s.window + |x| > s.size then Ready else RawBranching(x)
    case RawBranching(x) => if s.writePos + |x| <= s.size then Aiming(x) else Measuring(x)
    case Aiming(x) => Copying(x, 0, s.writePos, |x|, true)
    case Measuring(x) => AimingSplit(x, s.size - s.writePos)
    case AimingSplit(x, left) => if 0 <= left <= |x| then Copying(x, 0, s.writePos, left, false) else Astray(x)
    case Counted(straight) => if straight && s.writePos == s.size then Wrapping else AskingGate
    case AskingGate => if s.primed then Ready else AskingWindow
    case AskingWindow => if s.window >= s.prefill then OpeningGate else Ready
    case p => p
  }

  // One step of a write.
  function ProducerStep(s: State): State {
    match s.producer
    case Copying(x, i, start, toEnd, straight) => CopyStep(s, x, i, start, toEnd, straight)
    case Placed(x, _, _, straight) =>
      s.(window := s.window + |x|, queue := s.queue + x, published := s.published + x, producer := Counted(straight))
    case Wrapping => s.(writePos := 0, producer := AskingGate)
    case OpeningGate => s.(primed := true, producer := Ready)
    case _ => s.(producer := Looked(s))
  }

  // One step of a read or a discard. What was queued counts as taken when the
  // window is cleared.
  function ConsumerStep(s: State): State {
    match s.consumer
    case Resting => s
    case Looking(kind, n) =>
      if n <= s.window then s.(consumer := if kind == Audio then TryingGate(n) else Fetching(kind, n, []))
      else s.(consumer := if kind == Dropping then Rewinding else Resting)
    case Rewinding => s.(readPos := 0, consumer := ClearingWrite(s.readPos))
    case ClearingWrite(_) => s.(writePos := 0, consumer := ClearingWindow)
    case ClearingWindow => s.(window := 0, taken := s.taken + s.queue, queue := [], consumer := ClearingGate)
    case ClearingGate => s.(primed := false, consumer := Resting)
    case TryingGate(n) => s.(consumer := if s.primed then Fetching(Audio, n, []) else Resting)
    case Fetching(kind, n, got) =>
      if kind != Dropping && |got| < n then
        s.(consumer := Fetching(kind, n, got + [Load(s.buf, s.readPos, |got|)]))
      else if s.readPos + n <= s.size then
        s.(readPos := s.readPos + n, consumer := Moved(kind, n, s.readPos, got, true))
      else
        s.(readPos := s.readPos + n - s.size,
           consumer := Moved(kind, n, s.readPos, got, false))
    case Moved(kind, n, from, got, straight) =>
      var k := if n <= |s.queue| then n else |s.queue|;
      s.(window := s.window - n, consumer := Lowered(kind, straight),
         queue := s.queue[k..], taken := s.taken + (if kind == Dropping then s.queue[..k] else got))
    case Lowered(kind, straight) =>
      if kind == Raw then s.(consumer := Resting)
      else
        s.(readPos := if straight && s.readPos == s.size then 0 else s.readPos, consumer := AskingEmpty)
    case AskingEmpty => s.(consumer := if s.window <= 0 then ShuttingGate else Resting)
    case ShuttingGate => s.(primed := false, consumer := Resting)
  }

  function Step(s: State, a: Action): State {
    match a
    case BeginWrite(x) => if s.producer.Ready? then s.(producer := Branching(x)) else s
    case BeginRawWrite(x) => if s.producer.Ready? then s.(producer := RawChecking(x)) else s
    case BeginRead(kind, n) => if s.consumer.Resting? then s.(consumer := Looking(kind, n)) else s
    case Produce => ProducerStep(s)
    case Consume => ConsumerStep(s)
  }

  function Run(s: State, run: seq<Action>): State
    decreases |run|
  {
    if run == [] then s else Run(Step(s, run[0]), run[1..])
  }

  /* The invariant */

  // Slot q lies n behind slot p, where the end of the array is slot 0 again.
  predicate Apart(size: nat, p: nat, n: nat, q: nat) {
    && p <= size && q <= size
    && (q == p + n || q == p + n - size || q == p + n - 2 * size || q == p + n + size)
  }

  // The samples x lie in the ring from slot p on.
  predicate Lies(b: seq<Sample>, p: nat, x: seq<Sample>) {
    p <= |b| && |x| <= |b| && forall k :: 0 <= k < |x| ==> b[Slot(|b|, p, k)] == x[k]
  }

  // The first i samples are where a copy puts them, unless its two parts overlap.
  predicate Copied(b: seq<Sample>, x: seq<Sample>, i: nat, start: nat, toEnd: nat) {
    i <= |x| && (|x| <= start + toEnd ==>
      forall k :: 0 <= k < i ==> Cell(start, toEnd, k) < |b| && b[Cell(start, toEnd, k)] == x[k])
  }

  // A copy of n samples goes straight on or turns at the end of the array.
  predicate Turns(size: nat, start: nat, toEnd: nat, n: nat) {
    toEnd <= n && start + toEnd <= size && (toEnd == n || start + toEnd == size)
  }

  // Where the published samples start, and where the next ones go.
  function Front(s: State): nat {
    if s.consumer.Moved? || s.consumer.ClearingWrite? then s.consumer.from else s.readPos
  }

  function Back(s: State): nat {
    if s.producer.Placed? && s.producer.samples != [] then s.producer.start else s.writePos
  }

  // The samples of a write that found room and is not yet published.
  function Underway(s: State): seq<Sample> {
    match s.producer
    case RawBranching(x) => x
    case Aiming(x) => x
    case Measuring(x) => x
    case AimingSplit(x, _) => x
    case Copying(x, _, _, _, _) => x
    case Placed(x, _, _, _) => x
    case Astray(x) => x
    case _ => []
  }

  // Whatever is started over: a write stays inside the array, and its samples
  // are where it puts them.
  predicate Bounded(s: State) {
    match s.producer
    case Checking(x, straight) => straight ==> s.writePos + |x| <= s.size
    case Aiming(x) => s.writePos + |x| <= s.size
    case AimingSplit(x, left) => 0 <= left <= s.size - s.writePos
    case Copying(x, i, start, toEnd, straight) =>
      && Copied(s.buf, x, i, start, toEnd) && toEnd <= |x| && start + toEnd <= s.size
      && (straight ==> toEnd == |x| && s.writePos + |x| <= s.size)
    case Placed(x, start, toEnd, _) =>
      Copied(s.buf, x, |x|, start, toEnd) && toEnd <= |x| && start + toEnd <= s.size
    case Wrapping => s.writePos == 0 || s.writePos == s.size
    case Astray(_) => false
    case _ => true
  }

  predicate Sound(s: State) {
    && |s.buf| == s.size && s.window == |s.queue| && |s.queue| + |Underway(s)| <= s.size
    && s.readPos <= s.size && s.writePos <= s.size
    && s.published == s.taken + s.queue
    && Bounded(s)
  }

  // What a write has read of its position is still so, and it puts its samples
  // where the position says.
  predicate Agrees(s: State) {
    match s.producer
    case Checking(x, straight) => straight || s.writePos + |x| >= s.size
    case Measuring(x) => s.writePos + |x| >= s.size
    case AimingSplit(x, left) => left == s.size - s.writePos <= |x|
    case Copying(x, _, start, toEnd, true) => x == [] || start == s.writePos
    case Copying(x, _, start, toEnd, false) => start == s.writePos && toEnd == s.size - s.writePos
    case Placed(x, start, toEnd, _) =>
      x == [] || (Turns(s.size, start, toEnd, |x|) && Apart(s.size, start, |x|, s.writePos))
    case _ => true
  }

  predicate ConsumerFits(s: State) {
    match s.consumer
    case TryingGate(n) => n <= |s.queue|
    case Fetching(kind, n, got) => |got| <= n <= |s.queue| && got == s.queue[..|got|]
    case Moved(kind, n, from, got, _) =>
      n <= |s.queue| && (kind != Dropping ==> got == s.queue[..n]) && Apart(s.size, from, n, s.readPos)
    case ClearingWrite(_) => s.readPos == 0
    case ClearingWindow => false
    case _ => true
  }

  predicate InPlace(s: State) {
    && Agrees(s) && Front(s) <= s.size
    && Apart(s.size, Front(s), |s.queue|, Back(s))
    && Lies(s.buf, Front(s), s.queue)
  }

  predicate Inv(s: State) { Sound(s) && InPlace(s) && ConsumerFits(s) }

  // Both positions are cleared and the window is not.
  predicate Cleared(s: State) { Sound(s) && s.consumer.ClearingWindow? && s.readPos == 0 }

  predicate Safe(s: State) { if s.consumer.ClearingWindow? then Cleared(s) else Inv(s) }

  // Where the producer may stand when the window is cleared: what it has read
  // agrees with the position as it is then, and its next samples go to the start
  // of the array.
  predicate Harmless(s: State) { Agrees(s) && (Back(s) == 0 || Back(s) == s.size) }

  // The next step of the producer copies more samples than it was given.
  predicate Strays(s: State) { s.producer.AimingSplit? && s.producer.left > |s.producer.samples| }

  predicate Allowed(s: State, a: Action) {
    && (a.Consume? && s.consumer.ClearingWindow? ==> Harmless(s))
    && (a.Produce? ==> !Strays(s))
  }

  predicate AllowedRun(s: State, run: seq<Action>)
    decreases |run|
  {
    run == [] || (Allowed(s, run[0]) && AllowedRun(Step(s, run[0]), run[1..]))
  }

  // The guard of the callers: they look at the window before they discard.
  predicate Guarded(s: State, a: Action) {
    a.BeginRead? && a.kind == Dropping ==> a.count <= s.window
  }

  predicate GuardedRun(s: State, run: seq<Action>)
    decreases |run|
  {
    run == [] || (Guarded(s, run[0]) && GuardedRun(Step(s, run[0]), run[1..]))
  }

  /* Slots */

  lemma {:induction false} SlotMoves(size: nat, p: nat, n: nat, q: nat, k: nat)
    requires Apart(size, p, n, q) && n + k < size
    ensures Slot(size, p, n + k) == Slot(size, q, k)
  {
  }

  lemma {:induction false} SlotsDiffer(size: nat, p: nat, i: nat, j: nat)
    requires p <= size && i < size && j < size && i != j
    ensures Slot(size, p, i) != Slot(size, p, j)
  {
  }

  // Samples that follow each other lie in the ring as one stretch, and apart.
  lemma {:induction false} LiesJoin(b: seq<Sample>, p: nat, x: seq<Sample>, q: nat, y: seq<Sample>)
    requires Lies(b, p, x) && Lies(b, q, y) && Apart(|b|, p, |x|, q) && |x| + |y| <= |b|
    ensures Lies(b, p, x + y)
  {
    forall k | 0 <= k < |x + y|
      ensures b[Slot(|b|, p, k)] == (x + y)[k]
    {
      if k >= |x| { SlotMoves(|b|, p, |x|, q, k - |x|); }
    }
  }

  lemma {:induction false} LiesBehind(b: seq<Sample>, p: nat, x: seq<Sample>, n: nat, q: nat)
    requires Lies(b, p, x) && n <= |x| && Apart(|b|, p, n, q)
    ensures Lies(b, q, x[n..])
  {
    forall k | 0 <= k < |x[n..]|
      ensures b[Slot(|b|, q, k)] == x[n..][k]
    {
      SlotMoves(|b|, p, n, q, k);
      assert b[Slot(|b|, p, n + k)] == x[n + k];
    }
  }

  // Steps from the front lead to the back.
  lemma {:induction false} ApartRest(size: nat, p: nat, n: nat, q: nat, k: nat, r: nat)
    requires k <= n <= size && Apart(size, p, n, q) && Apart(size, p, k, r)
    ensures Apart(size, r, n - k, q)
  {
  }

  lemma {:induction false} ApartSum(size: nat, p: nat, n: nat, q: nat, k: nat, r: nat)
    requires n + k <= size && Apart(size, p, n, q) && Apart(size, q, k, r)
    ensures Apart(size, p, n + k, r)
  {
  }

  lemma {:induction false} LiesNothing(b: seq<Sample>, p: nat)
    requires p <= |b|
    ensures Lies(b, p, [])
  {
  }

  // Where a copy that turns puts its samples is where they lie in the ring.
  lemma {:induction false} CellIsSlot(size: nat, start: nat, toEnd: nat, n: nat, k: nat)
    requires Turns(size, start, toEnd, n) && k < n <= size
    ensures Cell(start, toEnd, k) == Slot(size, start, k)
  {
  }

  lemma {:induction false} CellInside(size: nat, start: nat, toEnd: nat, n: nat, k: nat)
    requires toEnd <= n <= size && start + toEnd <= size && k < n
    ensures Cell(start, toEnd, k) < size
  {
  }

  // Later samples of a copy leave the earlier ones alone.
  lemma {:induction false} CopiesOn(b: seq<Sample>, x: seq<Sample>, i: nat, start: nat, toEnd: nat)
    requires Copied(b, x, i, start, toEnd) && i < |x| <= |b| && toEnd <= |x| && start + toEnd <= |b|
    ensures Copied(Put(b, Cell(start, toEnd, i), x[i]), x, i + 1, start, toEnd)
  {
    CellInside(|b|, start, toEnd, |x|, i);
  }

  lemma {:induction false} CopiedLies(b: seq<Sample>, x: seq<Sample>, start: nat, toEnd: nat)
    requires Copied(b, x, |x|, start, toEnd) && Turns(|b|, start, toEnd, |x|) && |x| <= |b|
    ensures Lies(b, start, x)
  {
    hide Cell, Slot;
    forall k | 0 <= k < |x|
      ensures b[Slot(|b|, start, k)] == x[k]
    {
      CellIsSlot(|b|, start, toEnd, |x|, k);
    }
  }

  // A sample stored behind a stretch leaves the stretch alone.
  lemma {:induction false} PutBehind(b: seq<Sample>, p: nat, x: seq<Sample>, q: nat, i: nat, y: Sample)
    requires Lies(b, p, x) && Apart(|b|, p, |x|, q) && |x| + i < |b|
    ensures Lies(Put(b, Slot(|b|, q, i), y), p, x)
  {
    SlotMoves(|b|, p, |x|, q, i);
    hide Slot, Apart;
    forall k | 0 <= k < |x|
      ensures Put(b, Slot(|b|, q, i), y)[Slot(|b|, p, k)] == x[k]
    {
      SlotsDiffer(|b|, p, |x| + i, k);
    }
  }

  /* A write stays inside the array, whatever is started over */

  lemma {:induction false} CopySound(s: State)
    requires Sound(s) && s.producer.Copying?
    ensures Sound(ProducerStep(s))
  {
    hide Copied, Cell, Put;
    var x, i := s.producer.samples, s.producer.copied;
    assert i <= |x| by { CopiedCounts(s.buf, x, i, s.producer.start, s.producer.toEnd); }
    if i < |x| { CopiesOn(s.buf, x, i, s.producer.start, s.producer.toEnd); }
  }

  lemma {:induction false} CopiedCounts(b: seq<Sample>, x: seq<Sample>, i: nat, start: nat, toEnd: nat)
    requires Copied(b, x, i, start, toEnd)
    ensures i <= |x|
  {
  }

  lemma {:induction false} CopiedNothing(b: seq<Sample>, x: seq<Sample>, start: nat, toEnd: nat)
    ensures Copied(b, x, 0, start, toEnd)
  {
  }

  lemma {:induction false} PublishSound(s: State)
    requires Sound(s) && s.producer.Placed?
    ensures Sound(ProducerStep(s))
  {
    hide Copied;
    var x := s.producer.samples;
    assert s.taken + (s.queue + x) == (s.taken + s.queue) + x;
  }

  // Steps of a write that only read.
  predicate Reads(p: Producer) { !(p.Copying? || p.Placed? || p.Wrapping? || p.OpeningGate?) }

  lemma {:induction false} LookBounded(s: State)
    requires Bounded(s) && s.writePos <= s.size && !Strays(s)
    ensures Bounded(s.(producer := Looked(s)))
  {
    hide Copied;
    if s.producer.Aiming? || s.producer.AimingSplit? {
      var x := s.producer.samples;
      CopiedNothing(s.buf, x, s.writePos, if s.producer.Aiming? then |x| else s.producer.left);
    }
  }

  lemma {:induction false} LookRoom(s: State)
    requires s.window == |s.queue| && |s.queue| + |Underway(s)| <= s.size
    ensures |s.queue| + |Underway(s.(producer := Looked(s)))| <= s.size
  {
  }

  lemma {:induction false} LookSound(s: State)
    requires Sound(s) && Reads(s.producer) && !Strays(s)
    ensures Sound(ProducerStep(s))
  {
    hide Bounded, Underway, Looked, Strays;
    LookBounded(s);
    LookRoom(s);
  }

  lemma {:induction false} EndSound(s: State)
    requires Sound(s) && (s.producer.Wrapping? || s.producer.OpeningGate?)
    ensures Sound(ProducerStep(s))
  {
  }

  lemma {:induction false} ProduceSound(s: State)
    requires Sound(s) && !Strays(s)
    ensures Sound(ProducerStep(s))
  {
    hide Sound, ProducerStep, Strays;
    if s.producer.Copying? {
      CopySound(s);
    } else if s.producer.Placed? {
      PublishSound(s);
    } else if Reads(s.producer) {
      LookSound(s);
    } else {
      EndSound(s);
    }
  }

  /* Every step of a write keeps the invariant */

  lemma {:induction false} StoreKeeps(s: State)
    requires Sound(s) && InPlace(s) && s.producer.Copying? && s.producer.copied < |s.producer.samples|
    ensures InPlace(ProducerStep(s))
  {
    hide Lies, Put, Apart, Cell, Slot, Copied;
    var x, i, start, toEnd := s.producer.samples, s.producer.copied, s.producer.start, s.producer.toEnd;
    var t := ProducerStep(s);
    assert Front(t) == Front(s) && Back(t) == Back(s);
    CellIsSlot(s.size, start, toEnd, |x|, i);
    PutBehind(s.buf, Front(s), s.queue, s.writePos, i, x[i]);
  }

  lemma {:induction false} PlaceKeeps(s: State)
    requires Sound(s) && InPlace(s) && s.producer.Copying? && s.producer.copied == |s.producer.samples|
    ensures InPlace(ProducerStep(s))
  {
    hide Lies, Copied;
    assert Front(ProducerStep(s)) == Front(s);
  }

  lemma {:induction false} PublishKeeps(s: State)
    requires Sound(s) && InPlace(s) && s.producer.Placed?
    ensures InPlace(ProducerStep(s))
  {
    hide Lies, Apart, Turns, Copied;
    var x, start := s.producer.samples, s.producer.start;
    if x == [] {
      assert s.queue + x == s.queue;
    } else {
      CopiedLies(s.buf, x, start, s.producer.toEnd);
      LiesJoin(s.buf, Front(s), s.queue, start, x);
      ApartSum(s.size, Front(s), |s.queue|, start, |x|, s.writePos);
    }
    assert Front(ProducerStep(s)) == Front(s);
  }

  lemma {:induction false} WrapKeeps(s: State)
    requires Sound(s) && InPlace(s) && s.producer.Wrapping?
    ensures InPlace(ProducerStep(s))
  {
    hide Lies;
    assert Front(ProducerStep(s)) == Front(s);
  }

  lemma {:induction false} LookAgrees(s: State)
    requires Bounded(s) && Agrees(s) && Reads(s.producer) && s.writePos <= s.size
    ensures Agrees(s.(producer := Looked(s))) && !Looked(s).Placed?
  {
    hide Apart, Turns, Copied;
  }

  lemma {:induction false} LookKeepsPlace(s: State)
    requires Sound(s) && InPlace(s) && Reads(s.producer)
    ensures InPlace(ProducerStep(s))
  {
    hide Lies, Apart, Agrees, Looked, Bounded;
    LookAgrees(s);
  }

  lemma {:induction false} OpenKeepsPlace(s: State)
    requires InPlace(s) && s.producer.OpeningGate?
    ensures InPlace(ProducerStep(s))
  {
    hide Lies, Apart;
    assert Front(ProducerStep(s)) == Front(s);
  }

  // A write that agrees with its position does not stray.
  lemma {:induction false} NeverStrays(s: State)
    requires Sound(s) && InPlace(s)
    ensures !Strays(s)
  {
    hide Lies, Apart;
  }

  lemma {:induction false} CopyingCounts(s: State)
    requires Sound(s) && s.producer.Copying?
    ensures s.producer.copied <= |s.producer.samples|
  {
    hide Cell, Underway;
  }

  lemma {:induction false} InPlaceKeeps(s: State)
    requires Sound(s) && InPlace(s)
    ensures InPlace(ProducerStep(s))
  {
    hide InPlace, ProducerStep, Sound;
    if s.producer.Copying? {
      CopyingCounts(s);
      if s.producer.copied < |s.producer.samples| { StoreKeeps(s); } else { PlaceKeeps(s); }
    } else if s.producer.Placed? {
      PublishKeeps(s);
    } else if s.producer.Wrapping? {
      WrapKeeps(s);
    } else if s.producer.OpeningGate? {
      OpenKeepsPlace(s);
    } else {
      LookKeepsPlace(s);
    }
  }

  // What the consumer holds stays right when a write publishes.
  lemma {:induction false} QueueGrows(s: State, t: State, x: seq<Sample>)
    requires ConsumerFits(s) && t.consumer == s.consumer && t.readPos == s.readPos && t.size == s.size
    requires t.queue == s.queue + x
    ensures ConsumerFits(t)
  {
    hide Apart;
    match s.consumer
    case Fetching(_, n, got) => assert (s.queue + x)[..|got|] == s.queue[..|got|];
    case Moved(_, n, _, got, _) => assert (s.queue + x)[..n] == s.queue[..n];
    case _ =>
  }

  // What a step of a write leaves alone, and what it adds to the queue.
  lemma {:induction false} ProduceLeaves(s: State) returns (x: seq<Sample>)
    ensures var t := ProducerStep(s);
            t.consumer == s.consumer && t.readPos == s.readPos && t.size == s.size && t.queue == s.queue + x
  {
    hide Put, Cell, Looked;
    x := if s.producer.Placed? then s.producer.samples else [];
  }

  lemma {:induction false} ProduceKeeps(s: State)
    requires Inv(s)
    ensures Inv(ProducerStep(s))
  {
    hide ProducerStep, Sound, InPlace, ConsumerFits, Strays;
    NeverStrays(s);
    ProduceSound(s);
    InPlaceKeeps(s);
    var x := ProduceLeaves(s);
    QueueGrows(s, ProducerStep(s), x);
  }

  /* Every step of a read or a discard keeps the invariant */

  // Steps that only look.
  lemma {:induction false} LooksOn(s: State, c: Consumer, primed: bool)
    requires Inv(s) && !Holds(s.consumer) && !Holds(c) && !c.ClearingWindow?
    requires c.TryingGate? || c.Fetching? ==> c.count <= |s.queue|
    requires c.Fetching? ==> c.got == []
    ensures Inv(s.(consumer := c, primed := primed))
  {
    hide Lies, Apart, Bounded, Agrees;
    var t := s.(consumer := c, primed := primed);
    assert s.queue[..0] == [];
    assert Front(t) == Front(s) && Back(t) == Back(s);
    SideAlone(s, t);
  }

  // The consumer keeps the read position as it was.
  predicate Holds(c: Consumer) { c.Moved? || c.ClearingWrite? }

  // What the producer has read does not depend on the consumer's side.
  lemma {:induction false} SideAlone(s: State, t: State)
    requires t.producer == s.producer && t.buf == s.buf && t.size == s.size && t.writePos == s.writePos
    ensures Bounded(t) == Bounded(s) && Agrees(t) == Agrees(s) && Underway(t) == Underway(s) && Back(t) == Back(s)
  {
    hide Copied, Apart, Turns;
  }

  lemma {:induction false} InvFacts(s: State)
    requires Inv(s)
    ensures |s.buf| == s.size && s.window == |s.queue| <= s.size
    ensures s.consumer.TryingGate? ==> s.consumer.count <= |s.queue|
    ensures s.consumer.Fetching? ==> |s.consumer.got| <= s.consumer.count
    ensures !s.consumer.ClearingWindow?
  {
    hide Lies, Apart, Bounded, Agrees;
  }

  lemma {:induction false} LookKeeps(s: State)
    requires Inv(s) && !Holds(s.consumer)
    requires !(s.consumer.Fetching? || s.consumer.Lowered? || s.consumer.Rewinding? || s.consumer.ClearingWindow?)
    ensures Inv(ConsumerStep(s))
  {
    hide Inv, Load;
    InvFacts(s);
    var t := ConsumerStep(s);
    LooksOn(s, t.consumer, t.primed);
  }

  lemma {:induction false} FetchKeeps(s: State)
    requires Inv(s) && s.consumer.Fetching? && s.consumer.kind != Dropping && |s.consumer.got| < s.consumer.count
    ensures Inv(ConsumerStep(s))
  {
    hide Apart, Bounded, Agrees, Slot;
    var got, t := s.consumer.got, ConsumerStep(s);
    SideAlone(s, t);
    assert s.buf[Slot(s.size, s.readPos, |got|)] == s.queue[|got|];
    assert s.queue[..|got| + 1] == s.queue[..|got|] + [s.queue[|got|]];
  }

  lemma {:induction false} MoveKeeps(s: State)
    requires Inv(s) && s.consumer.Fetching?
    requires s.consumer.kind == Dropping || |s.consumer.got| == s.consumer.count
    ensures Inv(ConsumerStep(s))
  {
    hide Lies, Bounded, Agrees;
    SideAlone(s, ConsumerStep(s));
  }

  // A read or discard takes the first samples of the queue.
  lemma {:induction false} LowerTakes(s: State)
    requires Inv(s) && s.consumer.Moved?
    ensures s.consumer.count <= |s.queue|
    ensures ConsumerStep(s)
         == s.(window := s.window - s.consumer.count, consumer := Lowered(s.consumer.kind, s.consumer.straight),
               queue := s.queue[s.consumer.count..], taken := s.taken + s.queue[..s.consumer.count])
  {
    hide Sound, InPlace, Apart;
  }

  lemma {:induction false} LowerSound(s: State, n: nat, t: State)
    requires Sound(s) && n <= |s.queue|
    requires t == s.(window := s.window - n, consumer := t.consumer,
                     queue := s.queue[n..], taken := s.taken + s.queue[..n])
    ensures Sound(t)
  {
    hide Bounded, Underway;
    SideAlone(s, t);
    assert s.taken + s.queue == (s.taken + s.queue[..n]) + s.queue[n..];
  }

  lemma {:induction false} LowerInPlace(s: State, n: nat, t: State)
    requires InPlace(s) && s.consumer.Moved? && n <= |s.queue| <= s.size == |s.buf|
    requires Apart(s.size, s.consumer.from, n, s.readPos) && s.readPos <= s.size
    requires t == s.(window := s.window - n, consumer := t.consumer,
                     queue := s.queue[n..], taken := s.taken + s.queue[..n])
    requires !Holds(t.consumer)
    ensures InPlace(t)
  {
    hide Agrees, Lies, Apart, Back;
    SideAlone(s, t);
    LiesBehind(s.buf, s.consumer.from, s.queue, n, s.readPos);
    ApartRest(s.size, s.consumer.from, |s.queue|, Back(s), n, s.readPos);
  }

  lemma {:induction false} LowerKeeps(s: State)
    requires Inv(s) && s.consumer.Moved?
    ensures Inv(ConsumerStep(s))
  {
    hide InPlace, Sound, Apart, ConsumerStep;
    var t := ConsumerStep(s);
    LowerTakes(s);
    InvFacts(s);
    PositionsInside(s);
    LowerSound(s, s.consumer.count, t);
    LowerInPlace(s, s.consumer.count, t);
  }

  lemma {:induction false} PositionsInside(s: State)
    requires Sound(s)
    ensures s.readPos <= s.size && s.writePos <= s.size && |s.buf| == s.size
  {
  }

  // A read position at the end of the array may as well be at its start.
  lemma {:induction false} RestartKeeps(s: State, t: State)
    requires Sound(s) && InPlace(s) && s.readPos == s.size && !Holds(s.consumer) && !Holds(t.consumer)
    requires t == s.(readPos := 0, consumer := t.consumer)
    ensures Sound(t) && InPlace(t)
  {
    hide Lies, Apart, Agrees, Bounded, Underway, Back;
    SideAlone(s, t);
    EndIsFirst(s.size);
    LiesBehind(s.buf, s.size, s.queue, 0, 0);
    assert s.queue[0..] == s.queue;
    ApartRest(s.size, s.size, |s.queue|, Back(s), 0, 0);
  }

  lemma {:induction false} EndIsFirst(size: nat)
    ensures Apart(size, size, 0, 0)
  {
  }

  lemma {:induction false} UnwrapKeeps(s: State)
    requires Inv(s) && s.consumer.Lowered?
    ensures Inv(ConsumerStep(s))
  {
    hide Sound, InPlace;
    var t := ConsumerStep(s);
    if s.consumer.kind != Raw && s.consumer.straight && s.readPos == s.size {
      RestartKeeps(s, t);
    } else {
      LooksOn(s, t.consumer, t.primed);
    }
  }

  /* Starting over */

  lemma {:induction false} RewindKeeps(s: State)
    requires Inv(s) && s.consumer.Rewinding?
    ensures Inv(ConsumerStep(s))
  {
    hide Lies, Apart, Agrees, Bounded, Underway, Back;
    SideAlone(s, ConsumerStep(s));
  }

  // Clearing the write position leaves every write inside the array.
  lemma {:induction false} ClearSound(s: State)
    requires Inv(s) && s.consumer.ClearingWrite?
    ensures Cleared(ConsumerStep(s))
  {
    hide InPlace, Copied;
  }

  lemma {:induction false} WindowSound(s: State, t: State)
    requires Sound(s) && t == s.(window := 0, taken := s.taken + s.queue, queue := [], consumer := ClearingGate)
    ensures Sound(t)
  {
    hide Bounded, Underway;
    SideAlone(s, t);
  }

  lemma {:induction false} NothingLies(b: seq<Sample>, p: nat)
    requires p <= |b|
    ensures Lies(b, p, [])
  {
  }

  lemma {:induction false} ApartNothing(size: nat, q: nat)
    requires q <= size
    ensures Apart(size, 0, 0, q) <==> q == 0 || q == size
  {
  }

  // Clearing the window makes the invariant hold again if and only if the
  // producer stands where that is harmless.
  lemma {:induction false} StartOverKeeps(s: State)
    requires Cleared(s)
    ensures Inv(ConsumerStep(s)) <==> Harmless(s)
  {
    hide Sound, Lies, Apart, Agrees, Back;
    var t := ConsumerStep(s);
    WindowSound(s, t);
    SideAlone(s, t);
    PositionsInside(s);
    NothingLies(s.buf, 0);
    BackInside(s);
    ApartNothing(s.size, Back(s));
  }

  lemma {:induction false} BackInside(s: State)
    requires Sound(s)
    ensures Back(s) <= s.size
  {
    hide Copied;
  }

  // What a discard that clears the window right behind the position may find.
  predicate Unharmed(s: State) {
    match s.producer
    case Checking(x, straight) => straight || |x| >= s.size
    case Measuring(x) => |x| >= s.size
    case AimingSplit(x, left) => left == s.size
    case Copying(x, _, start, _, straight) => (straight && x == []) || start == 0
    case Placed(x, start, _, _) => x == [] || (|x| == s.size && (start == 0 || start == s.size))
    case _ => true
  }

  // If no step of a write comes between clearing the position and clearing the
  // window, what the producer has read before decides.
  lemma {:induction false} HarmlessAtOnce(s: State)
    requires Inv(s) && s.consumer.ClearingWrite?
    ensures Harmless(ConsumerStep(s)) <==> Unharmed(s)
  {
    hide Lies, Copied;
  }

  /* Every step and every run */

  lemma {:induction false} ConsumeKeeps(s: State)
    requires Inv(s)
    ensures Safe(ConsumerStep(s))
  {
    hide Inv, Cleared, ConsumerStep;
    InvFacts(s);
    if s.consumer.Fetching? {
      if s.consumer.kind != Dropping && |s.consumer.got| < s.consumer.count { FetchKeeps(s); } else { MoveKeeps(s); }
    } else if s.consumer.Moved? {
      LowerKeeps(s);
    } else if s.consumer.Lowered? {
      UnwrapKeeps(s);
    } else if s.consumer.Rewinding? {
      RewindKeeps(s);
    } else if s.consumer.ClearingWrite? {
      ClearSound(s);
    } else {
      LookKeeps(s);
    }
    InvOrCleared(ConsumerStep(s));
  }

  lemma {:induction false} InvOrCleared(s: State)
    requires Inv(s) || Cleared(s)
    ensures Safe(s)
  {
    hide Sound, InPlace;
  }

  lemma {:induction false} BeginSound(s: State, p: Producer)
    requires Sound(s) && s.producer.Ready? && (p.Branching? || p.RawChecking?)
    ensures Sound(s.(producer := p))
  {
  }

  lemma {:induction false} BeginInPlace(s: State, p: Producer)
    requires InPlace(s) && s.producer.Ready? && (p.Branching? || p.RawChecking?)
    ensures InPlace(s.(producer := p))
  {
    hide Lies, Apart;
    assert Front(s.(producer := p)) == Front(s);
  }

  lemma {:induction false} BeginKeeps(s: State, p: Producer)
    requires Safe(s) && s.producer.Ready? && (p.Branching? || p.RawChecking?)
    ensures Safe(s.(producer := p))
  {
    hide Sound, InPlace, Apart;
    BeginSound(s, p);
    if Inv(s) { BeginInPlace(s, p); }
  }

  lemma {:induction false} ProduceSafe(s: State)
    requires Safe(s) && !Strays(s)
    ensures Safe(ProducerStep(s))
  {
    hide Sound, InPlace, ProducerStep, ConsumerFits, Strays;
    var x := ProduceLeaves(s);
    if s.consumer.ClearingWindow? { ProduceSound(s); } else { ProduceKeeps(s); }
  }

  lemma {:induction false} ConsumeSafe(s: State)
    requires Safe(s) && (s.consumer.ClearingWindow? ==> Harmless(s))
    ensures Safe(ConsumerStep(s))
  {
    hide Inv, Cleared, ConsumerStep, Harmless;
    if s.consumer.ClearingWindow? {
      StartOverKeeps(s);
      InvOrCleared(ConsumerStep(s));
    } else {
      ConsumeKeeps(s);
    }
  }

  lemma {:induction false} BeginReadSafe(s: State, kind: Kind, n: nat)
    requires Safe(s) && s.consumer.Resting?
    ensures Safe(s.(consumer := Looking(kind, n)))
  {
    hide Inv;
    LooksOn(s, Looking(kind, n), s.primed);
  }

  lemma {:induction false} StepKeeps(s: State, a: Action)
    requires Safe(s) && Allowed(s, a)
    ensures Safe(Step(s, a))
  {
    hide Safe, ProducerStep, ConsumerStep, Harmless, Strays;
    match a
    case BeginWrite(x) => if s.producer.Ready? { BeginKeeps(s, Branching(x)); }
    case BeginRawWrite(x) => if s.producer.Ready? { BeginKeeps(s, RawChecking(x)); }
    case BeginRead(kind, n) => if s.consumer.Resting? { BeginReadSafe(s, kind, n); }
    case Produce => ProduceSafe(s);
    case Consume => ConsumeSafe(s);
  }

  lemma {:induction false} RunKeeps(s: State, run: seq<Action>)
    requires Safe(s) && AllowedRun(s, run)
    ensures Safe(Run(s, run))
    decreases |run|
  {
    hide Safe, Step, Allowed;
    if run != [] {
      StepKeeps(s, run[0]);
      RunKeeps(Step(s, run[0]), run[1..]);
    }
  }

  lemma {:induction false} StrayLeaves(s: State)
    requires Strays(s)
    ensures !Safe(ProducerStep(s))
  {
    hide InPlace, ConsumerFits;
  }

  lemma {:induction false} ClearedLeaves(s: State)
    requires s.consumer.ClearingWindow?
    ensures Safe(ConsumerStep(s)) == Inv(ConsumerStep(s))
  {
    hide Inv;
  }

  // A step leaves the safe states exactly if it is not allowed.
  lemma {:induction false} StepSafeExactly(s: State, a: Action)
    requires Safe(s)
    ensures Safe(Step(s, a)) <==> Allowed(s, a)
  {
    hide Inv, Cleared, ProducerStep, ConsumerStep, Harmless, Strays;
    if Allowed(s, a) {
      StepKeeps(s, a);
    } else if a.Produce? {
      StrayLeaves(s);
    } else {
      StartOverKeeps(s);
      ClearedLeaves(s);
    }
  }

  predicate AlwaysSafe(s: State, run: seq<Action>)
    decreases |run|
  {
    Safe(s) && (run == [] || AlwaysSafe(Step(s, run[0]), run[1..]))
  }

  // A run goes through safe states only if and only if every step is allowed.
  lemma {:induction false} SafeExactly(s: State, run: seq<Action>)
    requires Safe(s)
    ensures AlwaysSafe(s, run) <==> AllowedRun(s, run)
    decreases |run|
  {
    hide Safe, Step, Allowed;
    if run != [] {
      var t := Step(s, run[0]);
      StepSafeExactly(s, run[0]);
      if Safe(t) { SafeExactly(t, run[1..]); }
    }
  }

  /* What this means */

  // No slot that the copy of a write fills is a slot of the read in progress.
  predicate NoOverlap(s: State) {
    s.producer.Copying? && s.consumer.Fetching? ==>
      && s.consumer.count <= s.size && s.readPos <= s.size
      && forall i, j :: 0 <= i < |s.producer.samples| && 0 <= j < s.consumer.count ==>
           Cell(s.producer.start, s.producer.toEnd, i) != Slot(s.size, s.readPos, j)
  }

  lemma {:induction false} InvNoOverlap(s: State)
    requires Safe(s)
    ensures NoOverlap(s)
  {
    hide Lies, Copied, Cell, Slot;
    if s.producer.Copying? && s.consumer.Fetching? {
      var x, start, toEnd := s.producer.samples, s.producer.start, s.producer.toEnd;
      forall i, j | 0 <= i < |x| && 0 <= j < s.consumer.count
        ensures Cell(start, toEnd, i) != Slot(s.size, s.readPos, j)
      {
        CellIsSlot(s.size, start, toEnd, |x|, i);
        SlotMoves(s.size, s.readPos, |s.queue|, s.writePos, i);
        SlotsDiffer(s.size, s.readPos, |s.queue| + i, j);
      }
    }
  }

  // What a step admits: the samples of a write that finds room.
  function Admits(s: State, a: Action): seq<Sample> {
    if !a.Produce? then []
    else match s.producer
      case Checking(x, _) => if s.window + |x| <= s.size then x else []
      case RawChecking(x) => if s.window + |x| <= s.size then x else []
      case _ => []
  }

  function Admitted(s: State, run: seq<Action>): seq<Sample>
    decreases |run|
  {
    if run == [] then [] else Admits(s, run[0]) + Admitted(Step(s, run[0]), run[1..])
  }

  // What was published, and behind it what is underway.
  function Told(s: State): seq<Sample> { s.published + Underway(s) }

  lemma {:induction false} StepAdmits(s: State, a: Action)
    ensures Told(Step(s, a)) == Told(s) + Admits(s, a)
  {
    hide ProducerStep, ConsumerStep, Underway, Told;
    match a
    case BeginWrite(x) => if s.producer.Ready? { NothingBegun(s, Branching(x)); }
    case BeginRawWrite(x) => if s.producer.Ready? { NothingBegun(s, RawChecking(x)); }
    case BeginRead(kind, n) => ConsumerTold(s, Step(s, a));
    case Produce => ProduceAdmits(s);
    case Consume =>
      ConsumerLeaves(s);
      ConsumerTold(s, ConsumerStep(s));
    assert Told(s) + [] == Told(s);
  }

  // The consumer's side does not show in what is told.
  lemma {:induction false} ConsumerTold(s: State, t: State)
    requires t.producer == s.producer && t.published == s.published
    ensures Told(t) == Told(s)
  {
  }

  lemma {:induction false} NothingBegun(s: State, p: Producer)
    requires s.producer.Ready? && (p.Branching? || p.RawChecking?)
    ensures Told(s.(producer := p)) == Told(s)
  {
  }

  lemma {:induction false} ConsumerLeaves(s: State)
    ensures ConsumerStep(s).producer == s.producer && ConsumerStep(s).published == s.published
  {
    hide Load;
  }

  lemma {:induction false} LookAdmits(s: State)
    requires Reads(s.producer)
    ensures Underway(s.(producer := Looked(s))) == Underway(s) + Admits(s, Produce)
  {
  }

  lemma {:induction false} ActAdmits(s: State)
    requires !Reads(s.producer)
    ensures Told(ProducerStep(s)) == Told(s) && Admits(s, Produce) == []
  {
    hide Put, Cell, Looked;
    if s.producer.Placed? {
      var x := s.producer.samples;
      assert (s.published + x) + [] == s.published + x;
    }
  }

  lemma {:induction false} ProduceAdmits(s: State)
    ensures Told(ProducerStep(s)) == Told(s) + Admits(s, Produce)
  {
    hide CopyStep, Looked, Admits, Underway;
    if Reads(s.producer) {
      LookAdmits(s);
      assert s.published + (Underway(s) + Admits(s, Produce)) == (s.published + Underway(s)) + Admits(s, Produce);
    } else {
      ActAdmits(s);
      assert Told(s) + [] == Told(s);
    }
  }

  lemma {:induction false} RunAdmits(s: State, run: seq<Action>)
    ensures Run(s, run).published + Underway(Run(s, run)) == s.published + Underway(s) + Admitted(s, run)
    decreases |run|
  {
    hide Step, Admits, Underway;
    if run != [] {
      var t := Step(s, run[0]);
      StepAdmits(s, run[0]);
      RunAdmits(t, run[1..]);
      assert Told(s) + (Admits(s, run[0]) + Admitted(t, run[1..]))
          == (Told(s) + Admits(s, run[0])) + Admitted(t, run[1..]);
    }
  }

  // Whatever the order of steps: writing and reading never meet, the consumer
  // has got exactly the first samples of the admitted writes, in order, and the
  // rest is being copied or lies in the ring, as long as the window is cleared
  // only where that is harmless and no write strays between the position and the
  // window. Only there the window may say too much.
  lemma {:induction false} SafeRun(size: nat, prefill: nat, run: seq<Action>)
    requires AllowedRun(Initial(size, prefill), run)
    ensures var s := Run(Initial(size, prefill), run);
            && NoOverlap(s)
            && s.taken + s.queue + Underway(s) == Admitted(Initial(size, prefill), run)
            && s.window == |s.queue| <= |s.buf| && Front(s) <= |s.buf|
            && (s.consumer.ClearingWindow? || Window(s.buf, Front(s), |s.queue|) == s.queue)
  {
    hide Safe, Run, Admitted, Underway;
    InitialSafe(size, prefill);
    RunKeeps(Initial(size, prefill), run);
    var s := Run(Initial(size, prefill), run);
    InvNoOverlap(s);
    SafeMeans(s);
    RunAdmits(Initial(size, prefill), run);
    assert Underway(Initial(size, prefill)) == [] by { InitialIdle(size, prefill); }
    assert Initial(size, prefill).published + [] + Admitted(Initial(size, prefill), run)
        == Admitted(Initial(size, prefill), run);
  }

  lemma {:induction false} InitialIdle(size: nat, prefill: nat)
    ensures Underway(Initial(size, prefill)) == []
  {
  }

  lemma {:induction false} InitialSafe(size: nat, prefill: nat)
    ensures Safe(Initial(size, prefill)) && Inv(Initial(size, prefill))
  {
  }

  lemma {:induction false} SafeMeans(s: State)
    requires Safe(s)
    ensures s.size == |s.buf| && Front(s) <= |s.buf| && s.window == |s.queue| <= |s.buf|
    ensures s.published == s.taken + s.queue
    ensures s.consumer.ClearingWindow? || Window(s.buf, Front(s), |s.queue|) == s.queue
  {
    hide Bounded, Agrees, Apart, Slot;
    if !s.consumer.ClearingWindow? {
      forall k | 0 <= k < |s.queue|
        ensures Window(s.buf, Front(s), |s.queue|)[k] == s.queue[k]
      {
        WindowAt(s.buf, Front(s), |s.queue|, k);
      }
    }
  }

  /* With the guard, and without */

  // The consumer starts the buffer over, or is about to.
  predicate StartingOver(s: State) {
    || s.consumer.Rewinding? || s.consumer.ClearingWrite? || s.consumer.ClearingWindow? || s.consumer.ClearingGate?
    || (s.consumer.Looking? && s.consumer.kind == Dropping && s.consumer.count > s.window)
  }

  // A discard that was begun within the window stays within it, whatever the producer does.
  lemma {:induction false} ProduceStaysWithin(s: State)
    requires !StartingOver(s)
    ensures !StartingOver(ProducerStep(s))
  {
    hide Put, Cell;
  }

  lemma {:induction false} StepStaysWithin(s: State, a: Action)
    requires !StartingOver(s) && Guarded(s, a)
    ensures !StartingOver(Step(s, a))
  {
    hide ProducerStep, Load;
    if a.Produce? { ProduceStaysWithin(s); }
  }

  lemma {:induction false} WithinIsAllowed(s: State, a: Action)
    requires Safe(s) && !StartingOver(s)
    ensures Allowed(s, a)
  {
    hide Sound, InPlace, Harmless, Strays;
    NeverStrays(s);
  }

  // Callers that look before they discard never start the buffer over.
  lemma {:induction false} GuardedIsAllowed(s: State, run: seq<Action>)
    requires Safe(s) && !StartingOver(s) && GuardedRun(s, run)
    ensures AllowedRun(s, run) && !StartingOver(Run(s, run))
    decreases |run|
  {
    hide Safe, Step, StartingOver, Guarded, Allowed;
    if run != [] {
      WithinIsAllowed(s, run[0]);
      StepKeeps(s, run[0]);
      StepStaysWithin(s, run[0]);
      GuardedIsAllowed(Step(s, run[0]), run[1..]);
    }
  }

  lemma {:induction false} GuardedSafe(size: nat, prefill: nat, run: seq<Action>)
    requires GuardedRun(Initial(size, prefill), run)
    ensures var s := Run(Initial(size, prefill), run);
            && NoOverlap(s) && !StartingOver(s)
            && s.taken + s.queue + Underway(s) == Admitted(Initial(size, prefill), run)
            && s.window == |s.queue| <= |s.buf| && Front(s) <= |s.buf|
            && Window(s.buf, Front(s), |s.queue|) == s.queue
  {
    hide Safe, Run, Admitted, Underway, GuardedRun, AllowedRun, NoOverlap, Window;
    InitialSafe(size, prefill);
    GuardedIsAllowed(Initial(size, prefill), run);
    SafeRun(size, prefill, run);
  }

  // What one more step makes of a run.
  lemma {:induction false} RunNext(s: State, run: seq<Action>, a: Action)
    ensures Run(s, run + [a]) == Step(Run(s, run), a)
    decreases |run|
  {
    hide Step;
    if run == [] {
      assert [] + [a] == [a] && [a][1..] == [];
    } else {
      assert (run + [a])[0] == run[0] && (run + [a])[1..] == run[1..] + [a];
      RunNext(Step(s, run[0]), run[1..], a);
    }
  }

  lemma {:induction false} Go(start: State, run: seq<Action>, a: Action) returns (next: seq<Action>)
    ensures Run(start, next) == Step(Run(start, run), a)
  {
    RunNext(start, run, a);
    next := run + [a];
  }

  lemma {:induction false} RunNothing(s: State)
    ensures Run(s, []) == s
  {
  }

  // A write up to the first sample, straight on.
  lemma {:induction false} Open(start: State, run: seq<Action>, s: State, x: seq<Sample>) returns (next: seq<Action>)
    requires Run(start, run) == s && s.producer == Ready
    requires s.writePos + |x| <= s.size && s.window + |x| <= s.size
    ensures Run(start, next) == s.(producer := Copying(x, 0, s.writePos, |x|, true))
  {
    hide Run, CopyStep;
    next := Go(start, run, BeginWrite(x));
    next := Go(start, next, Produce);
    next := Go(start, next, Produce);
    next := Go(start, next, Produce);
  }

  // What is left of a copy, and then position and window.
  function Filled(b: seq<Sample>, x: seq<Sample>, i: nat, start: nat, toEnd: nat): (c: seq<Sample>)
    requires i <= |x|
    ensures |c| == |b|
    decreases |x| - i
  {
    if i == |x| then b else Filled(Put(b, Cell(start, toEnd, i), x[i]), x, i + 1, start, toEnd)
  }

  lemma {:induction false} Fill(start: State, run: seq<Action>, s: State) returns (next: seq<Action>)
    requires Run(start, run) == s && s.producer.Copying? && s.producer.copied <= |s.producer.samples|
    ensures var p := s.producer;
            Run(start, next) == s.(buf := Filled(s.buf, p.samples, p.copied, p.start, p.toEnd),
                                   producer := p.(copied := |p.samples|))
    decreases |s.producer.samples| - s.producer.copied
  {
    hide Run, Put, Cell;
    if s.producer.copied == |s.producer.samples| {
      next := run;
    } else {
      next := Go(start, run, Produce);
      next := Fill(start, next, Run(start, next));
    }
  }

  lemma {:induction false} Publish(start: State, run: seq<Action>, s: State) returns (next: seq<Action>)
    requires Run(start, run) == s && s.producer.Copying? && s.producer.copied == |s.producer.samples|
    requires s.producer.toEnd <= |s.producer.samples|
    ensures var x, toEnd, straight := s.producer.samples, s.producer.toEnd, s.producer.straight;
            Run(start, next) == s.(writePos := if straight then s.writePos + |x| else |x| - toEnd,
                                   window := s.window + |x|, queue := s.queue + x,
                                   published := s.published + x, producer := Counted(straight))
  {
    hide Run, Put, Cell;
    next := Go(start, run, Produce);
    next := Go(start, next, Produce);
  }

  lemma {:induction false} OpenGate(start: State, run: seq<Action>, s: State) returns (next: seq<Action>)
    requires Run(start, run) == s && s.producer == AskingGate && s.window >= s.prefill
    ensures Run(start, next) == s.(primed := true, producer := Ready)
  {
    hide Run, CopyStep, ConsumerStep;
    next := Go(start, run, Produce);
    if !s.primed {
      next := Go(start, next, Produce);
      next := Go(start, next, Produce);
    }
  }

  // The write position stays inside, and the gate is opened: there is no prefill.
  lemma {:induction false} EndWrite(start: State, run: seq<Action>, s: State) returns (next: seq<Action>)
    requires Run(start, run) == s && s.producer.Counted?
    requires s.writePos < s.size && s.window >= s.prefill
    ensures Run(start, next) == s.(primed := true, producer := Ready)
  {
    hide Run, CopyStep, ConsumerStep;
    next := Go(start, run, Produce);
    next := OpenGate(start, next, Run(start, next));
  }

  lemma {:induction false} WriteWhole(start: State, run: seq<Action>, s: State, x: seq<Sample>)
    returns (next: seq<Action>)
    requires Run(start, run) == s && s.producer == Ready
    requires s.writePos + |x| < s.size && 0 <= s.window && s.window + |x| <= s.size && s.prefill == 0
    ensures Run(start, next)
         == s.(buf := Filled(s.buf, x, 0, s.writePos, |x|), writePos := s.writePos + |x|, window := s.window + |x|,
               queue := s.queue + x, published := s.published + x, primed := true)
  {
    hide Run, Filled;
    next := Open(start, run, s, x);
    next := Fill(start, next, Run(start, next));
    next := Publish(start, next, Run(start, next));
    next := EndWrite(start, next, Run(start, next));
  }

  lemma {:induction false} FetchedOne(b: seq<Sample>, got: seq<Sample>, from: nat, to: nat)
    requires from < to <= |b|
    ensures (got + [b[from]]) + b[from + 1..to] == got + b[from..to]
  {
    assert b[from..to] == [b[from]] + b[from + 1..to];
  }

  // What is fetched by a read of raw samples.
  lemma {:induction false} Fetch(start: State, run: seq<Action>, s: State) returns (next: seq<Action>)
    requires Run(start, run) == s && s.consumer.Fetching? && s.consumer.kind == Raw
    requires |s.buf| == s.size && s.readPos + s.consumer.count <= s.size && |s.consumer.got| <= s.consumer.count
    ensures var n, got := s.consumer.count, s.consumer.got;
            Run(start, next) == s.(consumer := Fetching(Raw, n, got + s.buf[s.readPos + |got|..s.readPos + n]))
    decreases s.consumer.count - |s.consumer.got|
  {
    hide Run, ProducerStep;
    var c := s.consumer;
    var from := s.readPos + |c.got|;
    if |c.got| == c.count {
      next := run;
      assert c.got + s.buf[from..from] == c.got;
    } else {
      next := Go(start, run, Consume);
      next := Fetch(start, next, Run(start, next));
      FetchedOne(s.buf, c.got, from, s.readPos + c.count);
    }
  }

  lemma {:induction false} ReadWhole(start: State, run: seq<Action>, s: State, n: nat) returns (next: seq<Action>)
    requires Run(start, run) == s && s.consumer == Resting
    requires |s.buf| == s.size && s.readPos + n <= s.size && n <= s.window == |s.queue|
    ensures Run(start, next)
         == s.(readPos := s.readPos + n, window := s.window - n, queue := s.queue[n..],
               taken := s.taken + s.buf[s.readPos..s.readPos + n])
  {
    hide Run, ProducerStep, Load;
    next := Go(start, run, BeginRead(Raw, n));
    next := Go(start, next, Consume);
    next := Fetch(start, next, Run(start, next));
    var got := s.buf[s.readPos..s.readPos + n];
    assert [] + got == got;
    next := EndRead(start, next, s.(consumer := Fetching(Raw, n, got)));
  }

  lemma {:induction false} EndRead(start: State, run: seq<Action>, s: State) returns (next: seq<Action>)
    requires Run(start, run) == s && s.consumer.Fetching? && s.consumer.kind == Raw
    requires s.readPos + s.consumer.count <= s.size && |s.consumer.got| == s.consumer.count <= s.window == |s.queue|
    ensures var n := s.consumer.count;
            Run(start, next) == s.(readPos := s.readPos + n, window := s.window - n, queue := s.queue[n..],
                                   taken := s.taken + s.consumer.got, consumer := Resting)
  {
    hide Run, ProducerStep, Load;
    next := Go(start, run, Consume);
    next := Go(start, next, Consume);
    next := Go(start, next, Consume);
  }

  // A discard of more than there is, up to the clearing of the window.
  lemma {:induction false} Clear(start: State, run: seq<Action>, s: State) returns (next: seq<Action>)
    requires Run(start, run) == s && s.consumer == Resting && s.window >= 0
    ensures Run(start, next) == s.(readPos := 0, writePos := 0, consumer := ClearingWindow)
  {
    hide Run, ProducerStep;
    next := Go(start, run, BeginRead(Dropping, (s.window as nat) + 1));
    next := Go(start, next, Consume);
    next := Go(start, next, Consume);
    next := Go(start, next, Consume);
  }

  lemma {:induction false} StartOver(start: State, run: seq<Action>, s: State) returns (next: seq<Action>)
    requires Run(start, run) == s && s.consumer == ClearingWindow
    ensures Run(start, next)
         == s.(window := 0, primed := false, taken := s.taken + s.queue, queue := [], consumer := Resting)
  {
    hide Run, ProducerStep;
    next := Go(start, run, Consume);
    next := Go(start, next, Consume);
  }

  // A write that is to turn at the end of the array, and measures what is left of
  // it from the start, goes astray unless it fills the whole array.
  lemma {:induction false} MeasureStrays(start: State, run: seq<Action>, s: State) returns (next: seq<Action>)
    requires Run(start, run) == s && s.producer.Measuring? && s.writePos == 0 && |s.producer.samples| < s.size
    ensures Run(start, next).producer == Astray(s.producer.samples)
  {
    hide Run, CopyStep, ConsumerStep;
    next := Go(start, run, Produce);
    next := Go(start, next, Produce);
  }

  // Starting over before a write has measured leads it astray, whatever it writes.
  lemma {:induction false} SplitStrays(s: State) returns (run: seq<Action>)
    requires Inv(s) && s.consumer.Resting?
    requires s.producer.Measuring? || (s.producer.Checking? && !s.producer.straight)
    requires |s.producer.samples| < s.size
    ensures Run(s, run).producer == Astray(s.producer.samples)
  {
    hide Run, Inv, ConsumerStep, CopyStep;
    InvFacts(s);
    RunNothing(s);
    run := Clear(s, [], s);
    run := StartOver(s, run, Run(s, run));
    if s.producer.Checking? { run := Go(s, run, Produce); }
    run := MeasureStrays(s, run, Run(s, run));
  }

  // Starting over inside a copy, which then goes on and is published.
  lemma {:induction false} Interrupt(start: State, run: seq<Action>, s: State) returns (next: seq<Action>)
    requires Run(start, run) == s && s.consumer == Resting && s.producer.Copying? && s.window >= 0
    requires s.producer.copied <= |s.producer.samples| && s.producer.toEnd <= |s.producer.samples|
    ensures var p := s.producer;
            Run(start, next) == s.(readPos := 0, writePos := |p.samples| - (if p.straight then 0 else p.toEnd),
                                   buf := Filled(s.buf, p.samples, p.copied, p.start, p.toEnd), window := |p.samples|,
                                   taken := s.taken + s.queue, queue := p.samples, primed := false,
                                   published := s.published + p.samples, producer := Counted(p.straight))
  {
    hide Run, ProducerStep, ConsumerStep, Filled;
    next := Clear(start, run, s);
    next := StartOver(start, next, Run(start, next));
    next := Fill(start, next, Run(start, next));
    next := Publish(start, next, Run(start, next));
    assert [] + s.producer.samples == s.producer.samples;
  }

  // A write of two samples that is started over behind the first one goes on
  // where it began, and the consumer gets an old sample for the second one.
  lemma {:induction false} UnguardedDiscardCorrupts() returns (run: seq<Action>)
    ensures var s := Run(Initial(4, 0), run);
            && s.producer == Ready && s.consumer == Resting
            && s.published == [7, 7, 8] && s.taken == [7, 7, 7] && s.queue == []
  {
    hide Run, ConsumerStep;
    var start := Initial(4, 0);
    RunNothing(start);
    run := WriteWhole(start, [], start, [7]);
    run := ReadWhole(start, run, Run(start, run), 1);
    run := Open(start, run, Run(start, run), [7, 8]);
    run := Go(start, run, Produce);
    assert Run(start, run).buf[..2] == [7, 7];
    run := Interrupt(start, run, Run(start, run));
    assert Run(start, run).buf[..2] == [7, 7];
    run := EndWrite(start, run, Run(start, run));
    run := ReadWhole(start, run, Run(start, run), 2);
  }

  // A whole write between the clearing of the position and that of the window is
  // lost from the window, and the next one lies behind it: the consumer gets the
  // sample 5 for the sample 6.
  lemma {:induction false} WriteBetweenCorrupts() returns (run: seq<Action>)
    ensures var s := Run(Initial(4, 0), run);
            && s.producer == Ready && s.consumer == Resting
            && s.published == [5, 6] && s.taken == [5, 5] && s.queue == []
  {
    hide Run, Step;
    var start := Initial(4, 0);
    RunNothing(start);
    run := Clear(start, [], start);
    run := WriteWhole(start, run, Run(start, run), [5]);
    run := StartOver(start, run, Run(start, run));
    run := WriteWhole(start, run, Run(start, run), [6]);
    run := ReadWhole(start, run, Run(start, run), 1);
  }

  // A write that is to turn at the end of the array goes astray when the buffer
  // is started over before it has measured what is left.
  lemma {:induction false} LateMeasureStrays() returns (run: seq<Action>)
    ensures Run(Initial(4, 0), run).producer == Astray([1, 2])
  {
    hide Run, ConsumerStep, CopyStep;
    var start := Initial(4, 0);
    RunNothing(start);
    run := WriteWhole(start, [], start, [9, 9, 9]);
    run := ReadWhole(start, run, Run(start, run), 3);
    run := Go(start, run, BeginWrite([1, 2]));
    run := Go(start, run, Produce);
    run := Go(start, run, Produce);
    run := Clear(start, run, Run(start, run));
    run := StartOver(start, run, Run(start, run));
    run := MeasureStrays(start, run, Run(start, run));
  }

  // A write of n samples at slot w of which i are copied: 1 and then silence.
  function Caught(size: nat, w: nat, n: nat, i: nat): State
    requires 0 < w < size && i <= n && 0 < n <= size
  {
    var x: seq<Sample> := [1] + Silence(n - 1);
    var b := if i == 0 then Silence(size) else Silence(size)[w := 1];
    State(size, 0, b, w, w, 0, true,
          Copying(x, i, w, if w + n <= size then n else size - w, w + n <= size), Resting, [], [], [])
  }

  lemma {:induction false} CaughtInv(size: nat, w: nat, n: nat, i: nat)
    requires 0 < w < size && i <= n && 0 < n <= size
    ensures Inv(Caught(size, w, n, i))
  {
  }

  // Behind slot 0 the rest of the copy leaves silence in slot 0.
  lemma {:induction false} FilledSilent(b: seq<Sample>, x: seq<Sample>, i: nat, start: nat, toEnd: nat)
    requires i <= |x| && 0 < |b| && b[0] == SILENCE && 0 < start && 0 < toEnd
    requires forall k :: 0 < k < |x| ==> x[k] == SILENCE
    ensures Filled(b, x, i, start, toEnd)[0] == SILENCE
    decreases |x| - i
  {
    if i < |x| { FilledSilent(Put(b, Cell(start, toEnd, i), x[i]), x, i + 1, start, toEnd); }
  }

  // At every inner position, however much was copied, there is a write under
  // which starting over leaves a window that does not hold the queue.
  lemma {:induction false} HarmfulInside(size: nat, w: nat, n: nat, i: nat) returns (s: State, run: seq<Action>)
    requires 0 < w < size && i <= n && 0 < n <= size
    ensures Inv(s) && s.size == size && s.writePos == w && s.consumer == Resting
    ensures s.producer.Copying? && |s.producer.samples| == n && s.producer.copied == i && s.producer.start == w
    ensures var t := Run(s, run);
            && t.consumer == Resting && t.producer.Counted? && t.readPos == 0
            && t.window == |t.queue| == n <= |t.buf| && Window(t.buf, 0, n) != t.queue
  {
    hide Run, Inv, ProducerStep, ConsumerStep, Filled;
    s := Caught(size, w, n, i);
    CaughtInv(size, w, n, i);
    RunNothing(s);
    run := Interrupt(s, [], s);
    FilledSilent(s.buf, s.producer.samples, i, w, s.producer.toEnd);
    var t := Run(s, run);
    WindowAt(t.buf, 0, n, 0);
    assert t.queue[0] == 1;
  }
}
