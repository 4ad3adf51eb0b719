// The pool that documents are built in: chunks of memory, of which only the
// newest serves requests, by moving a mark. Blocks are not freed; the last block
// of the newest chunk can grow where it is.

module MemoryPool {
  import opened Bytes
  import opened JsonTypes
  import opened JsonDocument

  // The size of a chunk header, which lies in front of the memory it manages.
  const HEADER: nat := 24

  // Above this size the rounding below wraps.
  const LARGEST: nat := 0xFFFF_FFFC

  datatype Chunk = Chunk(addr: nat, capacity: nat, size: nat) {
    function Data(): nat { addr + HEADER }
    function End(): nat { addr + HEADER + capacity }
    function Mark(): nat { addr + HEADER + size }
  }

  // A block as its owner knows it: where it is, how large it is taken to be, how
  // much room it was given, and in which chunk.
  datatype Block = Block(ptr: nat, size: nat, room: nat, home: nat)

  // Rounding up to a multiple of four, by a mask of 32 bits.
  function Align(x: nat): nat { (x + 3) % TWO32 / 4 * 4 }

  // The mask clears the low two bits and everything above the low 32.
  lemma {:induction false} AlignMask(x: bv64)
    ensures (x + 3) & 0xFFFF_FFFC == (x + 3) % 0x1_0000_0000 - (x + 3) % 4
  {
  }

  // The rounded size is enough exactly up to the largest multiple of four below
  // 2^32; beyond it even wraps to nothing.
  lemma {:induction false} AlignIsEnough(x: nat)
    ensures Align(x) % 4 == 0
    ensures Align(x) >= x <==> x <= LARGEST
    ensures x <= LARGEST ==> Align(x) < x + 4 && (Align(x) == x <==> x % 4 == 0)
    ensures Align(TWO32) == 0
  {
  }

  /* Chunks */

  predicate Apart(c: Chunk, d: Chunk) { c.End() <= d.addr || d.End() <= c.addr }

  // The chunks lie apart in memory, each with its mark inside and at a multiple of four.
  predicate ChunksFit(chunks: seq<Chunk>, limit: nat) {
    && (forall i :: 0 <= i < |chunks| ==>
          chunks[i].size <= chunks[i].capacity && chunks[i].End() <= limit && chunks[i].size % 4 == 0)
    && (forall i, j :: 0 <= i < j < |chunks| ==> Apart(chunks[i], chunks[j]))
  }

  // Memory that the base allocator may hand out for a chunk.
  predicate FreshRange(chunks: seq<Chunk>, limit: nat, at: nat, capacity: nat) {
    at + HEADER + capacity <= limit && forall c <- chunks :: Apart(Chunk(at, capacity, 0), c)
  }

  predicate NeedsChunk(chunks: seq<Chunk>, n: nat) {
    chunks == [] || chunks[0].size + n > chunks[0].capacity
  }

  function NewCapacity(chunkCapacity: nat, n: nat): nat { if chunkCapacity > n then chunkCapacity else n }

  // The chunks when n bytes can be taken from the first.
  function WithRoom(chunks: seq<Chunk>, chunkCapacity: nat, n: nat, at: nat): (r: seq<Chunk>)
    ensures r != [] && r[0].size + n <= r[0].capacity
  {
    if NeedsChunk(chunks, n) then [Chunk(at, NewCapacity(chunkCapacity, n), 0)] + chunks else chunks
  }

  function Bumped(chunks: seq<Chunk>, n: nat): seq<Chunk>
    requires chunks != []
  {
    chunks[0 := chunks[0].(size := chunks[0].size + n)]
  }

  /* Blocks */

  predicate Inside(b: Block, c: Chunk) {
    b.home == c.addr && c.Data() <= b.ptr && b.ptr + b.room <= c.Mark() && (b.ptr - c.Data()) % 4 == 0
  }

  predicate Housed(b: Block, chunks: seq<Chunk>) { exists c <- chunks :: Inside(b, c) }

  // Blocks without room are nowhere.
  predicate Disjoint(a: Block, b: Block) {
    a.room == 0 || b.room == 0 || a.ptr + a.room <= b.ptr || b.ptr + b.room <= a.ptr
  }

  predicate LiveFit(live: seq<Block>, chunks: seq<Chunk>) {
    && (forall i :: 0 <= i < |live| ==> Housed(live[i], chunks))
    && (forall i, j :: 0 <= i < j < |live| ==> Disjoint(live[i], live[j]))
  }

  // Every block has the room that its owner believes in.
  predicate AllFit(live: seq<Block>) { forall b <- live :: b.size <= b.room }

  predicate PoolFits(chunks: seq<Chunk>, live: seq<Block>, limit: nat) {
    ChunksFit(chunks, limit) && LiveFit(live, chunks)
  }

  // The block that the next request of n rounded bytes gets.
  function NewBlock(chunks: seq<Chunk>, size: nat, n: nat): Block
    requires chunks != []
  {
    Block(chunks[0].Mark(), size, n, chunks[0].addr)
  }

  lemma {:induction false} ChunkAddedKeeps(chunks: seq<Chunk>, live: seq<Block>, limit: nat, chunkCapacity: nat,
                                           n: nat, at: nat)
    requires PoolFits(chunks, live, limit)
    requires NeedsChunk(chunks, n) ==> FreshRange(chunks, limit, at, NewCapacity(chunkCapacity, n))
    ensures PoolFits(WithRoom(chunks, chunkCapacity, n, at), live, limit)
  {
    var r := WithRoom(chunks, chunkCapacity, n, at);
    if NeedsChunk(chunks, n) {
      forall i | 0 <= i < |live|
        ensures Housed(live[i], r)
      {
        assert Housed(live[i], chunks);
        var c :| c in chunks && Inside(live[i], c);
        assert c in r;
      }
    }
  }

  // Blocks stay housed when the mark of the first chunk moves on.
  lemma {:induction false} BumpHouses(b: Block, chunks: seq<Chunk>, n: nat)
    requires chunks != [] && Housed(b, chunks)
    ensures Housed(b, Bumped(chunks, n))
  {
    var c :| c in chunks && Inside(b, c);
    var k :| 0 <= k < |chunks| && chunks[k] == c;
    var d := Bumped(chunks, n)[k];
    assert d in Bumped(chunks, n) && Inside(b, d);
  }

  lemma {:induction false} BumpKeepsChunks(chunks: seq<Chunk>, n: nat, limit: nat)
    requires ChunksFit(chunks, limit) && chunks != [] && n % 4 == 0
    requires chunks[0].size + n <= chunks[0].capacity
    ensures ChunksFit(Bumped(chunks, n), limit)
  {
    hide Apart;
    var r := Bumped(chunks, n);
    BumpedInside(chunks[0], n, limit);
    forall i, j | 0 <= i < j < |r|
      ensures Apart(r[i], r[j])
    {
      assert Apart(chunks[i], chunks[j]);
      SameRanges(chunks[i], chunks[j], r[i], r[j]);
    }
  }

  lemma {:induction false} BumpedInside(c: Chunk, n: nat, limit: nat)
    requires c.size + n <= c.capacity && c.End() <= limit && c.size % 4 == 0 && n % 4 == 0
    ensures var d := c.(size := c.size + n);
            d.size <= d.capacity && d.End() <= limit && d.size % 4 == 0
  {
    FoursAdd(c.size, n);
  }

  lemma {:induction false} FoursAdd(a: nat, b: nat)
    requires a % 4 == 0 && b % 4 == 0
    ensures (a + b) % 4 == 0
  {
  }

  lemma {:induction false} SameRanges(c: Chunk, d: Chunk, x: Chunk, y: Chunk)
    requires Apart(c, d) && x.addr == c.addr && x.capacity == c.capacity && y.addr == d.addr && y.capacity == d.capacity
    ensures Apart(x, y)
  {
  }

  // Nothing lives between the mark of the first chunk and its end.
  lemma {:induction false} BehindTheMark(b: Block, chunks: seq<Chunk>, limit: nat)
    requires ChunksFit(chunks, limit) && chunks != [] && Housed(b, chunks)
    ensures b.home == chunks[0].addr ==> b.ptr + b.room <= chunks[0].Mark()
    ensures b.home != chunks[0].addr ==> b.ptr + b.room < chunks[0].addr + HEADER || chunks[0].End() < b.ptr
  {
    var c :| c in chunks && Inside(b, c);
    var k :| 0 <= k < |chunks| && chunks[k] == c;
    if k > 0 { assert Apart(chunks[0], chunks[k]); }
  }

  lemma {:induction false} MallocKeeps(chunks: seq<Chunk>, live: seq<Block>, limit: nat, size: nat, n: nat)
    requires PoolFits(chunks, live, limit) && chunks != [] && n % 4 == 0
    requires chunks[0].size + n <= chunks[0].capacity
    ensures PoolFits(Bumped(chunks, n), live + [NewBlock(chunks, size, n)], limit)
  {
    var b := NewBlock(chunks, size, n);
    var r, l := Bumped(chunks, n), live + [b];
    BumpKeepsChunks(chunks, n, limit);
    assert r[0] in r && Inside(b, r[0]);
    forall i | 0 <= i < |l|
      ensures Housed(l[i], r)
    {
      if i < |live| { BumpHouses(live[i], chunks, n); }
    }
    forall i, j | 0 <= i < j < |l|
      ensures Disjoint(l[i], l[j])
    {
      if j == |live| { BehindTheMark(live[i], chunks, limit); }
    }
  }

  // The test by which a block is found to be the last one of the first chunk.
  predicate IsLast(b: Block, chunks: seq<Chunk>) {
    chunks != [] && b.ptr == chunks[0].Mark() - b.size
  }

  // The test succeeds only for a block that ends at the mark of the first chunk.
  lemma {:induction false} LastIsLast(b: Block, chunks: seq<Chunk>, limit: nat)
    requires ChunksFit(chunks, limit) && Housed(b, chunks) && b.size <= b.room && IsLast(b, chunks)
    ensures b.home == chunks[0].addr && b.ptr + b.room == chunks[0].Mark() && b.size == b.room
    ensures chunks[0].Data() <= b.ptr
  {
    BehindTheMark(b, chunks, limit);
    var c :| c in chunks && Inside(b, c);
    var k :| 0 <= k < |chunks| && chunks[k] == c;
    if k > 0 { AddressesDiffer(chunks, limit, k); }
  }

  lemma {:induction false} GrowKeeps(chunks: seq<Chunk>, live: seq<Block>, limit: nat, i: nat, size: nat, n: nat)
    requires PoolFits(chunks, live, limit) && i < |live| && live[i].size <= live[i].room && n % 4 == 0
    requires IsLast(live[i], chunks) && chunks[0].size + n <= chunks[0].capacity
    ensures PoolFits(Bumped(chunks, n), live[i := live[i].(size := size, room := live[i].room + n)], limit)
  {
    hide ChunksFit, Housed, Disjoint, Bumped;
    var b := live[i].(size := size, room := live[i].room + n);
    var r, l := Bumped(chunks, n), live[i := b];
    BumpKeepsChunks(chunks, n, limit);
    LastIsLast(live[i], chunks, limit);
    LastStaysInside(live[i], b, chunks, n, limit);
    forall k | 0 <= k < |l|
      ensures Housed(l[k], r) && (k != i ==> Disjoint(l[k], b) && Disjoint(b, l[k]))
    {
      if k != i {
        BumpHouses(live[k], chunks, n);
        assert if k < i then Disjoint(live[k], live[i]) else Disjoint(live[i], live[k]);
        GrownApart(live[k], live[i], b, chunks, limit, n);
      }
    }
  }

  // What lies apart from the last block lies apart from it when it grows.
  lemma {:induction false} GrownApart(a: Block, last: Block, b: Block, chunks: seq<Chunk>, limit: nat, n: nat)
    requires ChunksFit(chunks, limit) && chunks != [] && Housed(a, chunks)
    requires Disjoint(a, last) || Disjoint(last, a)
    requires last.home == chunks[0].addr && last.ptr + last.room == chunks[0].Mark()
    requires b == last.(size := b.size, room := last.room + n) && chunks[0].size + n <= chunks[0].capacity
    requires chunks[0].Data() <= last.ptr
    ensures Disjoint(a, b) && Disjoint(b, a)
  {
    hide ChunksFit, Housed;
    BehindTheMark(a, chunks, limit);
  }

  lemma {:induction false} AddressesDiffer(chunks: seq<Chunk>, limit: nat, k: nat)
    requires ChunksFit(chunks, limit) && 0 < k < |chunks|
    ensures chunks[k].addr != chunks[0].addr
  {
    assert Apart(chunks[0], chunks[k]);
  }

  lemma {:induction false} LastStaysInside(a: Block, b: Block, chunks: seq<Chunk>, n: nat, limit: nat)
    requires ChunksFit(chunks, limit) && chunks != [] && Housed(a, chunks)
    requires a.home == chunks[0].addr && a.ptr + a.room == chunks[0].Mark()
    requires b == a.(size := b.size, room := a.room + n)
    ensures Housed(b, Bumped(chunks, n))
  {
    var c :| c in chunks && Inside(a, c);
    var k :| 0 <= k < |chunks| && chunks[k] == c;
    if k > 0 { AddressesDiffer(chunks, limit, k); }
    var r := Bumped(chunks, n);
    assert r[0] in r && Inside(b, r[0]);
  }

  // A block that has moved lets its old room go.
  lemma {:induction false} MoveKeeps(chunks: seq<Chunk>, live: seq<Block>, b: Block, limit: nat, i: nat)
    requires PoolFits(chunks, live + [b], limit) && i < |live|
    ensures PoolFits(chunks, live[i := b], limit)
  {
    var l, m := live + [b], live[i := b];
    forall k | 0 <= k < |m|
      ensures Housed(m[k], chunks)
    {
      assert Housed(l[if k == i then |live| else k], chunks);
    }
    forall j, k | 0 <= j < k < |m|
      ensures Disjoint(m[j], m[k])
    {
      if k == i {
        assert Disjoint(l[j], l[|live|]);
      } else if j == i {
        assert Disjoint(l[k], l[|live|]);
      } else {
        assert Disjoint(l[j], l[k]);
      }
    }
  }

  /* Requests as steps */

  datatype Pool = Pool(chunks: seq<Chunk>, live: seq<Block>)

  // A request: a new block, or another size for block i. The address is what the
  // base allocator hands out should a chunk be needed.
  datatype Request = Get(size: nat, at: nat) | Resize(i: nat, newSize: nat, at: nat)

  // Whether a larger size makes a block move.
  predicate Moves(b: Block, chunks: seq<Chunk>, newSize: nat) {
    newSize > b.size
    && !(IsLast(b, chunks) && chunks[0].size + Align(newSize - b.size) <= chunks[0].capacity)
  }

  // What is rounded when a block is resized can be rounded: the whole size of a
  // block that moves, the growth of one that stays, nothing when it shrinks.
  predicate Rounds(b: Block, chunks: seq<Chunk>, newSize: nat) {
    newSize <= b.size || (if Moves(b, chunks, newSize) then newSize else newSize - b.size) <= LARGEST
  }

  function Gotten(p: Pool, chunkCapacity: nat, size: nat, at: nat): Pool {
    var r := WithRoom(p.chunks, chunkCapacity, Align(size), at);
    Pool(Bumped(r, Align(size)), p.live + [NewBlock(r, size, Align(size))])
  }

  function Resized(p: Pool, chunkCapacity: nat, i: nat, newSize: nat, at: nat): Pool
    requires i < |p.live|
  {
    var b := p.live[i];
    if newSize <= b.size then p.(live := p.live[i := b.(size := newSize)])
    else if !Moves(b, p.chunks, newSize) then
      var n := Align(newSize - b.size);
      Pool(Bumped(p.chunks, n), p.live[i := b.(size := newSize, room := b.room + n)])
    else
      var q := Gotten(p, chunkCapacity, newSize, at);
      q.(live := p.live[i := q.live[|p.live|]])
  }

  function After(p: Pool, chunkCapacity: nat, r: Request): Pool {
    match r
    case Get(size, at) => Gotten(p, chunkCapacity, size, at)
    case Resize(i, newSize, at) => if i < |p.live| then Resized(p, chunkCapacity, i, newSize, at) else p
  }

  // The base allocator hands out fresh memory.
  predicate Supplied(p: Pool, limit: nat, chunkCapacity: nat, i: nat, size: nat, at: nat)
    requires i < |p.live|
  {
    Moves(p.live[i], p.chunks, size) && NeedsChunk(p.chunks, Align(size)) ==>
      FreshRange(p.chunks, limit, at, NewCapacity(chunkCapacity, Align(size)))
  }

  // The base allocator hands out fresh memory, and no size is too large to be rounded.
  predicate Fair(p: Pool, limit: nat, chunkCapacity: nat, r: Request) {
    match r
    case Get(size, at) =>
      size <= LARGEST
      && (NeedsChunk(p.chunks, Align(size)) ==>
            FreshRange(p.chunks, limit, at, NewCapacity(chunkCapacity, Align(size))))
    case Resize(i, size, at) =>
      i < |p.live| && Rounds(p.live[i], p.chunks, size) && Supplied(p, limit, chunkCapacity, i, size, at)
  }

  predicate Sound(p: Pool, limit: nat) { PoolFits(p.chunks, p.live, limit) && AllFit(p.live) }

  lemma {:induction false} GottenSound(p: Pool, limit: nat, chunkCapacity: nat, size: nat, at: nat)
    requires Sound(p, limit)
    requires NeedsChunk(p.chunks, Align(size)) ==>
               FreshRange(p.chunks, limit, at, NewCapacity(chunkCapacity, Align(size)))
    ensures var q := Gotten(p, chunkCapacity, size, at);
            PoolFits(q.chunks, q.live, limit) && (AllFit(q.live) <==> size <= LARGEST)
  {
    hide PoolFits, Align;
    AlignIsEnough(size);
    ChunkAddedKeeps(p.chunks, p.live, limit, chunkCapacity, Align(size), at);
    var r := WithRoom(p.chunks, chunkCapacity, Align(size), at);
    MallocKeeps(r, p.live, limit, size, Align(size));
    OneMoreFits(p.live, NewBlock(r, size, Align(size)));
  }

  // Resizing keeps the blocks apart whatever the size, and every block has its
  // room afterwards if and only if what was rounded can be rounded.
  lemma {:induction false} ResizedSound(p: Pool, limit: nat, chunkCapacity: nat, i: nat, size: nat, at: nat)
    requires Sound(p, limit) && i < |p.live| && Supplied(p, limit, chunkCapacity, i, size, at)
    ensures var q := Resized(p, chunkCapacity, i, size, at);
            PoolFits(q.chunks, q.live, limit) && (Sound(q, limit) <==> Rounds(p.live[i], p.chunks, size))
  {
    hide PoolFits, Align, AllFit;
    var b := p.live[i];
    BlockInMemory(p.chunks, p.live, limit, i);
    if size <= b.size {
      ShrinkKeeps(p.chunks, p.live, limit, i, size);
    } else if !Moves(b, p.chunks, size) {
      var n := Align(size - b.size);
      AlignIsEnough(size - b.size);
      GrowKeeps(p.chunks, p.live, limit, i, size, n);
      LastHasItsRoom(p, limit, i);
      OneReplacedFits(p.live, b.(size := size, room := b.room + n), i);
    } else {
      GottenSound(p, limit, chunkCapacity, size, at);
      var q := Gotten(p, chunkCapacity, size, at);
      var c := q.live[|p.live|];
      MoveKeeps(q.chunks, p.live, c, limit, i);
      OneMoreFits(p.live, c);
      OneReplacedFits(p.live, c, i);
    }
  }

  lemma {:induction false} LastHasItsRoom(p: Pool, limit: nat, i: nat)
    requires Sound(p, limit) && i < |p.live| && IsLast(p.live[i], p.chunks)
    ensures p.live[i].room == p.live[i].size
  {
    assert p.live[i] in p.live && Housed(p.live[i], p.chunks);
    LastIsLast(p.live[i], p.chunks, limit);
  }

  /* Where blocks come to lie */

  // A request is served at the mark of the first chunk if the rounded size fits
  // behind it. Otherwise it gets a new chunk in front, as large as chunks are, or
  // as the rounded size if that is larger.
  lemma {:induction false} GottenWhere(p: Pool, chunkCapacity: nat, size: nat, at: nat)
    requires size <= 0xFFFF_FFFC
    ensures var n := (size + 3) / 4 * 4;
            var q := Gotten(p, chunkCapacity, size, at);
            if p.chunks != [] && p.chunks[0].size + n <= p.chunks[0].capacity then
              var c := p.chunks[0];
              && q.chunks == [c.(size := c.size + n)] + p.chunks[1..]
              && q.live == p.live + [Block(c.addr + 24 + c.size, size, n, c.addr)]
            else
              && q.chunks == [Chunk(at, if n > chunkCapacity then n else chunkCapacity, n)] + p.chunks
              && q.live == p.live + [Block(at + 24, size, n, at)]
  {
    RoundsUp(size);
    hide Align;
    assert p.chunks != [] ==> p.chunks == [p.chunks[0]] + p.chunks[1..];
  }

  lemma {:induction false} RoundsUp(size: nat)
    requires size <= 0xFFFF_FFFC
    ensures Align(size) == (size + 3) / 4 * 4
  {
  }

  // A block that gets smaller stays; so does one that ends at the mark of the first
  // chunk if its growth fits behind the mark. Any other goes where a new one would.
  lemma {:induction false} ResizedWhere(p: Pool, chunkCapacity: nat, i: nat, newSize: nat, at: nat)
    requires i < |p.live| && newSize <= 0xFFFF_FFFC
    ensures var b, q := p.live[i], Resized(p, chunkCapacity, i, newSize, at);
            && |q.live| == |p.live| && (forall k :: 0 <= k < |p.live| && k != i ==> q.live[k] == p.live[k])
            && q.live[i].size == newSize
            && (if newSize <= b.size then q.chunks == p.chunks && q.live[i].ptr == b.ptr
                else
                  var n := (newSize - b.size + 3) / 4 * 4;
                  if p.chunks != [] && b.ptr + b.size == p.chunks[0].addr + 24 + p.chunks[0].size
                     && p.chunks[0].size + n <= p.chunks[0].capacity then
                    var c := p.chunks[0];
                    q.live[i].ptr == b.ptr && q.chunks == [c.(size := c.size + n)] + p.chunks[1..]
                  else
                    var g := Gotten(p, chunkCapacity, newSize, at);
                    q.live[i] == g.live[|p.live|] && q.chunks == g.chunks)
  {
    hide Gotten;
    GottenWhere(p, chunkCapacity, newSize, at);
    if newSize > p.live[i].size { RoundsUp(newSize - p.live[i].size); }
    hide Align;
    LastByPointer(p.live[i], p.chunks);
    assert p.chunks != [] ==> p.chunks == [p.chunks[0]] + p.chunks[1..];
  }

  lemma {:induction false} LastByPointer(b: Block, chunks: seq<Chunk>)
    ensures IsLast(b, chunks) <==> chunks != [] && b.ptr + b.size == chunks[0].addr + 24 + chunks[0].size
  {
  }

  // How much a number of requests takes together.
  function Together(sizes: seq<nat>): nat
    decreases |sizes|
  {
    if sizes == [] then 0 else Together(sizes[..|sizes| - 1]) + (sizes[|sizes| - 1] + 3) / 4 * 4
  }

  function Gets(p: Pool, chunkCapacity: nat, sizes: seq<nat>, at: nat): Pool
    decreases |sizes|
  {
    if sizes == [] then p
    else Gotten(Gets(p, chunkCapacity, sizes[..|sizes| - 1], at), chunkCapacity, sizes[|sizes| - 1], at)
  }

  // Requests that fit together into a chunk of the usual capacity share one, and
  // lie in it one behind the other.
  lemma {:induction false} OneChunkServes(chunkCapacity: nat, sizes: seq<nat>, at: nat)
    requires sizes != [] && Together(sizes) <= chunkCapacity && forall s <- sizes :: s <= 0xFFFF_FFFC
    ensures var q := Gets(Pool([], []), chunkCapacity, sizes, at);
            && q.chunks == [Chunk(at, chunkCapacity, Together(sizes))] && |q.live| == |sizes|
            && forall k :: 0 <= k < |sizes| ==> q.live[k].ptr == at + 24 + Together(sizes[..k])
    decreases |sizes|
  {
    hide Gotten;
    var n := |sizes| - 1;
    var front, last := sizes[..n], sizes[n];
    assert last in sizes && forall s <- front :: s in sizes;
    if n > 0 {
      OneChunkServes(chunkCapacity, front, at);
      assert forall k :: 0 <= k < n ==> front[..k] == sizes[..k];
    } else {
      NothingGot(chunkCapacity, at);
    }
    GottenWhere(Gets(Pool([], []), chunkCapacity, front, at), chunkCapacity, last, at);
  }

  lemma {:induction false} NothingGot(chunkCapacity: nat, at: nat)
    ensures Together([]) == 0 && Gets(Pool([], []), chunkCapacity, [], at) == Pool([], [])
  {
  }

  function RunAll(p: Pool, chunkCapacity: nat, requests: seq<Request>): Pool
    decreases |requests|
  {
    if requests == [] then p else RunAll(After(p, chunkCapacity, requests[0]), chunkCapacity, requests[1..])
  }

  predicate AllFair(p: Pool, limit: nat, chunkCapacity: nat, requests: seq<Request>)
    decreases |requests|
  {
    requests == []
    || (Fair(p, limit, chunkCapacity, requests[0])
        && AllFair(After(p, chunkCapacity, requests[0]), limit, chunkCapacity, requests[1..]))
  }

  // Over every run of requests: all live blocks lie apart, each inside the used
  // part of its chunk and with the room its owner believes in, and the sum of
  // what is used never exceeds the sum of what there is.
  lemma {:induction false} RunSound(p: Pool, limit: nat, chunkCapacity: nat, requests: seq<Request>)
    requires Sound(p, limit) && AllFair(p, limit, chunkCapacity, requests)
    ensures var q := RunAll(p, chunkCapacity, requests);
            Sound(q, limit) && SumSize(q.chunks) <= SumCapacity(q.chunks)
    decreases |requests|
  {
    hide After, Sound, Fair;
    if requests == [] {
      SoundSizes(p, limit);
    } else {
      AfterSound(p, limit, chunkCapacity, requests[0]);
      RunSound(After(p, chunkCapacity, requests[0]), limit, chunkCapacity, requests[1..]);
    }
  }

  lemma {:induction false} AfterSound(p: Pool, limit: nat, chunkCapacity: nat, r: Request)
    requires Sound(p, limit) && Fair(p, limit, chunkCapacity, r)
    ensures Sound(After(p, chunkCapacity, r), limit)
  {
    hide Gotten, Resized, Align, PoolFits, AllFit;
    match r
    case Get(size, at) => GottenSound(p, limit, chunkCapacity, size, at);
    case Resize(i, size, at) => ResizedSound(p, limit, chunkCapacity, i, size, at);
  }

  lemma {:induction false} SoundSizes(p: Pool, limit: nat)
    requires Sound(p, limit)
    ensures SumSize(p.chunks) <= SumCapacity(p.chunks)
  {
    SizeWithinCapacity(p.chunks, limit);
  }

  // A rounding that wraps: the block gets no room, and the next block lies where it lies.
  lemma {:induction false} HugeBlockOverlaps(p: Pool, chunkCapacity: nat, at: nat, next: nat)
    requires !NeedsChunk(p.chunks, 4)
    ensures var q := Gotten(Gotten(p, chunkCapacity, TWO32, at), chunkCapacity, 4, next);
            var n := |p.live|;
            q.live[n].ptr == q.live[n + 1].ptr && q.live[n].size == TWO32 && q.live[n + 1].room == 4
  {
  }

  function SumCapacity(chunks: seq<Chunk>): nat {
    if chunks == [] then 0 else chunks[0].capacity + SumCapacity(chunks[1..])
  }

  function SumSize(chunks: seq<Chunk>): nat {
    if chunks == [] then 0 else chunks[0].size + SumSize(chunks[1..])
  }

  // A request adds its rounded size to what is used, and to what there is the new
  // chunk if it needs one.
  lemma {:induction false} SumsGrow(p: Pool, chunkCapacity: nat, size: nat, at: nat)
    requires size <= 0xFFFF_FFFC
    ensures var n := (size + 3) / 4 * 4;
            var q := Gotten(p, chunkCapacity, size, at);
            && SumSize(q.chunks) == SumSize(p.chunks) + n
            && SumCapacity(q.chunks) == SumCapacity(p.chunks)
                 + (if p.chunks != [] && p.chunks[0].size + n <= p.chunks[0].capacity then 0
                    else if n > chunkCapacity then n else chunkCapacity)
  {
    hide Gotten;
    GottenWhere(p, chunkCapacity, size, at);
    var r := Gotten(p, chunkCapacity, size, at).chunks;
    assert p.chunks != [] ==> p.chunks == [p.chunks[0]] + p.chunks[1..];
    assert r[1..] == p.chunks || (p.chunks != [] && r[1..] == p.chunks[1..]);
  }

  // What is used never exceeds what there is.
  lemma {:induction false} SizeWithinCapacity(chunks: seq<Chunk>, limit: nat)
    requires ChunksFit(chunks, limit)
    ensures SumSize(chunks) <= SumCapacity(chunks)
    decreases |chunks|
  {
    if chunks != [] {
      var rest := chunks[1..];
      forall i, j | 0 <= i < j < |rest|
        ensures Apart(rest[i], rest[j])
      {
        assert Apart(chunks[i + 1], chunks[j + 1]);
      }
      SizeWithinCapacity(rest, limit);
    }
  }

  /* The allocator */

  // The bytes of a block.
  function BytesIn(m: bytes, b: Block): bytes {
    if b.ptr + b.size <= |m| then m[b.ptr..b.ptr + b.size] else []
  }

  // The bytes of a block at a smaller size are the first ones.
  lemma {:induction false} BytesPrefix(m: bytes, b: Block, c: Block)
    requires b.ptr == c.ptr && b.size <= c.size && c.ptr + c.size <= |m|
    ensures |BytesIn(m, c)| == c.size && BytesIn(m, b) == BytesIn(m, c)[..b.size]
  {
  }

  // The memory m1 is m0 with n bytes copied.
  predicate CopiedTo(m0: bytes, m1: bytes, to: nat, from: nat, n: nat) {
    && to + n <= |m0| == |m1| && from + n <= |m0|
    && (forall k :: 0 <= k < |m0| && !(to <= k < to + n) ==> m1[k] == m0[k])
    && m1[to..to + n] == m0[from..from + n]
  }

  // The memory is one array of bytes; addresses are its indices. The base
  // allocator is a parameter of each call that may need a chunk: the address
  // that it hands out.
  class MemoryPoolAllocator {
    const memory: array<byte>
    const chunkCapacity: nat
    const userBuffer: Option<nat>
    var chunks: seq<Chunk>
    ghost var live: seq<Block>

    ghost function Value(): Pool
      reads this
    {
      Pool(chunks, live)
    }

    ghost predicate Valid()
      reads this
    {
      Sound(Value(), memory.Length)
    }

    ghost function Bytes(b: Block): bytes
      reads memory
    {
      BytesIn(memory[..], b)
    }

    constructor (memory: array<byte>, chunkSize: nat)
      ensures Valid() && live == [] && chunks == [] && this.memory == memory && chunkCapacity == chunkSize
      ensures userBuffer == None
    {
      this.memory, chunkCapacity, userBuffer := memory, chunkSize, None;
      chunks, live := [], [];
    }

    // With a buffer of the user's as the first chunk.
    constructor FromBuffer(memory: array<byte>, buffer: nat, size: nat, chunkSize: nat)
      requires size > HEADER && buffer + size <= memory.Length
      ensures Valid() && live == [] && this.memory == memory && chunkCapacity == chunkSize
      ensures chunks == [Chunk(buffer, size - HEADER, 0)] && userBuffer == Some(buffer)
    {
      this.memory, chunkCapacity, userBuffer := memory, chunkSize, Some(buffer);
      chunks, live := [Chunk(buffer, size - HEADER, 0)], [];
    }

    method AddChunk(capacity: nat, at: nat)
      modifies this`chunks
      ensures chunks == [Chunk(at, capacity, 0)] + old(chunks)
    {
      chunks := [Chunk(at, capacity, 0)] + chunks;
    }

    // Hands out a block of the rounded size at the mark of the first chunk, where
    // nothing lives. It is large enough if and only if the size is not too large
    // to be rounded.
    method Malloc(size: nat, at: nat) returns (buffer: nat)
      requires Valid()
      requires NeedsChunk(chunks, Align(size)) ==>
                 FreshRange(chunks, memory.Length, at, NewCapacity(chunkCapacity, Align(size)))
      modifies this
      ensures Value() == Gotten(old(Value()), chunkCapacity, size, at) && buffer == live[|old(live)|].ptr
      ensures PoolFits(chunks, live, memory.Length) && (Valid() <==> size <= LARGEST)
    {
      hide PoolFits, Align;
      GottenSound(Value(), memory.Length, chunkCapacity, size, at);
      var n := Align(size);
      if |chunks| == 0 || chunks[0].size + n > chunks[0].capacity {
        AddChunk(if chunkCapacity > n then chunkCapacity else n, at);
      }
      buffer := chunks[0].Data() + chunks[0].size;
      live := live + [NewBlock(chunks, size, n)];
      chunks := chunks[0 := chunks[0].(size := chunks[0].size + n)];
    }

    // memcpy between ranges that do not overlap.
    method CopyBytes(to: nat, from: nat, n: nat)
      requires to + n <= memory.Length && from + n <= memory.Length && (to + n <= from || from + n <= to)
      modifies memory
      ensures CopiedTo(old(memory[..]), memory[..], to, from, n)
    {
      var k := 0;
      while k < n
        invariant 0 <= k <= n
        invariant forall q :: 0 <= q < memory.Length && !(to <= q < to + k) ==> memory[q] == old(memory[q])
        invariant forall q :: to <= q < to + k ==> memory[q] == old(memory[from + (q - to)])
      {
        memory[to + k] := memory[from + k];
        k := k + 1;
      }
    }

    // Resizes a block. A smaller size changes nothing but what its owner takes it
    // for; the last block grows where it is when the chunk has room; any other
    // block moves, and its bytes with it. No other block is touched.
    method ReallocBlock(originalPtr: nat, originalSize: nat, newSize: nat, at: nat, ghost i: nat) returns (ptr: nat)
      requires Valid() && i < |live| && live[i].ptr == originalPtr && live[i].size == originalSize
      requires Rounds(live[i], chunks, newSize)
      requires Supplied(Value(), memory.Length, chunkCapacity, i, newSize, at)
      modifies this, memory
      ensures Valid() && |live| == |old(live)|
      ensures live[i].ptr == ptr && live[i].size == newSize
      ensures forall k :: 0 <= k < |live| && k != i ==> live[k] == old(live[k]) && Bytes(live[k]) == old(Bytes(live[k]))
      ensures if newSize <= originalSize then Bytes(live[i]) == old(Bytes(live[i]))[..newSize]
              else old(Bytes(live[i])) <= Bytes(live[i])
      ensures Value() == Resized(old(Value()), chunkCapacity, i, newSize, at)
    {
      hide PoolFits, Align, AllFit, BytesIn;
      BlockInMemory(chunks, live, memory.Length, i);
      ResizedSound(Value(), memory.Length, chunkCapacity, i, newSize, at);
      ghost var b := live[i];
      if originalSize >= newSize {
        live := live[i := b.(size := newSize)];
        BytesPrefix(memory[..], live[i], b);
        return originalPtr;
      }
      if originalPtr == chunks[0].Data() + chunks[0].size - originalSize {
        var increment := Align(newSize - originalSize);
        if chunks[0].size + increment <= chunks[0].capacity {
          GrowBlock(newSize, increment, at, i);
          return originalPtr;
        }
      }
      ptr := MoveBlock(originalPtr, originalSize, newSize, at, i);
    }

    // The way of the last block, where the chunk has room.
    method GrowBlock(newSize: nat, increment: nat, ghost at: nat, ghost i: nat)
      requires Valid() && i < |live| && newSize > live[i].size && !Moves(live[i], chunks, newSize)
      requires Rounds(live[i], chunks, newSize) && increment == Align(newSize - live[i].size)
      modifies this
      ensures Value() == Resized(old(Value()), chunkCapacity, i, newSize, at)
      ensures live[i].ptr == old(live[i].ptr) && old(Bytes(live[i])) <= Bytes(live[i])
    {
      hide PoolFits, Align, AllFit, BytesIn;
      ResizedSound(Value(), memory.Length, chunkCapacity, i, newSize, at);
      ghost var b := live[i];
      chunks := chunks[0 := chunks[0].(size := chunks[0].size + increment)];
      live := live[i := b.(size := newSize, room := b.room + increment)];
      BlockInMemory(chunks, live, memory.Length, i);
      BytesPrefix(memory[..], b, live[i]);
    }

    // The way of a block that cannot grow where it is.
    method MoveBlock(originalPtr: nat, originalSize: nat, newSize: nat, at: nat, ghost i: nat) returns (ptr: nat)
      requires Valid() && i < |live| && live[i].ptr == originalPtr && live[i].size == originalSize
      requires Moves(live[i], chunks, newSize) && newSize <= LARGEST
      requires NeedsChunk(chunks, Align(newSize)) ==>
                 FreshRange(chunks, memory.Length, at, NewCapacity(chunkCapacity, Align(newSize)))
      modifies this, memory
      ensures Value() == Resized(old(Value()), chunkCapacity, i, newSize, at) && live[i].ptr == ptr
      ensures forall k :: 0 <= k < |live| && k != i ==> live[k] == old(live[k]) && Bytes(live[k]) == old(Bytes(live[k]))
      ensures old(Bytes(live[i])) <= Bytes(live[i])
    {
      hide PoolFits, Align, AllFit, Gotten, Resized, Moves, CopiedTo, BytesIn;
      ghost var p, m := Value(), memory[..];
      MovesWhole(p, memory.Length, chunkCapacity, i, newSize, at);
      ptr := Malloc(newSize, at);
      ghost var b := live[|p.live|];
      CopyBytes(ptr, originalPtr, originalSize);
      live := p.live[i := b];
      CopyKeeps(p, chunkCapacity, i, newSize, at, m, memory[..]);
    }

    // A null pointer asks for a new block.
    method Realloc(originalPtr: Option<nat>, originalSize: nat, newSize: nat, at: nat, ghost i: nat)
      returns (ptr: nat)
      requires Valid()
      requires originalPtr == None && NeedsChunk(chunks, Align(newSize)) ==>
                 FreshRange(chunks, memory.Length, at, NewCapacity(chunkCapacity, Align(newSize)))
      requires originalPtr.Some? ==>
                 && i < |live| && live[i].ptr == originalPtr.value && live[i].size == originalSize
                 && Rounds(live[i], chunks, newSize) && Supplied(Value(), memory.Length, chunkCapacity, i, newSize, at)
      modifies this, memory
      ensures originalPtr == None ==>
                && Value() == Gotten(old(Value()), chunkCapacity, newSize, at) && ptr == live[|old(live)|].ptr
                && memory[..] == old(memory[..]) && (Valid() <==> newSize <= LARGEST)
      ensures originalPtr.Some? ==>
                && Valid() && |live| == |old(live)|
                && live[i].ptr == ptr && live[i].size == newSize
                && (forall k :: 0 <= k < |live| && k != i ==>
                      live[k] == old(live[k]) && Bytes(live[k]) == old(Bytes(live[k])))
                && (if newSize <= originalSize then Bytes(live[i]) == old(Bytes(live[i]))[..newSize]
                    else old(Bytes(live[i])) <= Bytes(live[i]))
                && Value() == Resized(old(Value()), chunkCapacity, i, newSize, at)
    {
      hide PoolFits, Align, AllFit, BytesIn, Resized, Gotten, Rounds, Supplied, FreshRange;
      match originalPtr
      case None => ptr := Malloc(newSize, at);
      case Some(p) => ptr := ReallocBlock(p, originalSize, newSize, at, i);
    }

    // The total of the chunks' capacities and of their sizes.
    method Capacity() returns (capacity: nat)
      ensures capacity == SumCapacity(chunks)
    {
      capacity := 0;
      var i := 0;
      while i < |chunks|
        invariant 0 <= i <= |chunks|
        invariant capacity + SumCapacity(chunks[i..]) == SumCapacity(chunks)
      {
        assert chunks[i..][0] == chunks[i] && chunks[i..][1..] == chunks[i + 1..];
        capacity := capacity + chunks[i].capacity;
        i := i + 1;
      }
    }

    method Size() returns (size: nat)
      requires Valid()
      ensures size == SumSize(chunks) && size <= SumCapacity(chunks)
    {
      SizeWithinCapacity(chunks, memory.Length);
      size := 0;
      var i := 0;
      while i < |chunks|
        invariant 0 <= i <= |chunks|
        invariant size + SumSize(chunks[i..]) == SumSize(chunks)
      {
        assert chunks[i..][0] == chunks[i] && chunks[i..][1..] == chunks[i + 1..];
        size := size + chunks[i].size;
        i := i + 1;
      }
    }

    // Gives all chunks back but the user's. The blocks in them are gone.
    method Clear() returns (freed: seq<nat>)
      requires Valid()
      modifies this
      ensures Valid() && (chunks == [] || userBuffer == Some(chunks[0].addr))
      ensures exists n: nat :: n <= |old(chunks)| && chunks == old(chunks)[n..] && |freed| == n
                               && forall k :: 0 <= k < n ==>
                                    freed[k] == old(chunks)[k].addr && userBuffer != Some(freed[k])
      ensures live == Survivors(old(live), chunks)
    {
      freed := [];
      ghost var n := 0;
      while chunks != [] && userBuffer != Some(chunks[0].addr)
        invariant n <= |old(chunks)| && chunks == old(chunks)[n..] && |freed| == n && live == old(live)
        invariant forall k :: 0 <= k < n ==> freed[k] == old(chunks)[k].addr && userBuffer != Some(freed[k])
        decreases |chunks|
      {
        freed := freed + [chunks[0].addr];
        chunks := chunks[1..];
        n := n + 1;
      }
      SurvivorsFit(old(chunks), live, memory.Length, n);
      live := Survivors(live, chunks);
    }
  }

  lemma {:induction false} BlockInMemory(chunks: seq<Chunk>, live: seq<Block>, limit: nat, i: nat)
    requires PoolFits(chunks, live, limit) && AllFit(live) && i < |live|
    ensures chunks != [] && live[i].size <= live[i].room && live[i].ptr + live[i].room <= limit
  {
    assert Housed(live[i], chunks);
  }

  lemma {:induction false} ShrinkKeeps(chunks: seq<Chunk>, live: seq<Block>, limit: nat, i: nat, size: nat)
    requires PoolFits(chunks, live, limit) && AllFit(live) && i < |live| && size <= live[i].size
    ensures var l := live[i := live[i].(size := size)]; PoolFits(chunks, l, limit) && AllFit(l)
  {
    hide ChunksFit, Housed, Disjoint;
    var l := live[i := live[i].(size := size)];
    forall k | 0 <= k < |l|
      ensures Housed(l[k], chunks)
    {
      SizeHousesNot(live[k], l[k], chunks);
    }
    forall j, k | 0 <= j < k < |l|
      ensures Disjoint(l[j], l[k])
    {
      SizePartsNot(live[j], live[k], l[j], l[k]);
    }
    assert live[i] in live;
    OneReplacedFits(live, l[i], i);
  }

  // Where a block is does not depend on what its owner takes it for.
  lemma {:induction false} SizeHousesNot(a: Block, b: Block, chunks: seq<Chunk>)
    requires Housed(a, chunks) && b == a.(size := b.size)
    ensures Housed(b, chunks)
  {
    var c :| c in chunks && Inside(a, c);
    assert Inside(b, c);
  }

  lemma {:induction false} SizePartsNot(a: Block, b: Block, x: Block, y: Block)
    requires Disjoint(a, b) && x == a.(size := x.size) && y == b.(size := y.size)
    ensures Disjoint(x, y)
  {
  }

  // Another block in place of one that has its room.
  lemma {:induction false} OneReplacedFits(live: seq<Block>, b: Block, i: nat)
    requires AllFit(live) && i < |live|
    ensures AllFit(live[i := b]) <==> b.size <= b.room
  {
    var r := live[i := b];
    assert r[i] in r;
    forall x <- r
      ensures x == b || x in live
    {
    }
  }

  // The old and the new place of a block that moves, in memory and apart.
  lemma {:induction false} MovesWhole(p: Pool, limit: nat, chunkCapacity: nat, i: nat, size: nat, at: nat)
    requires Sound(p, limit) && i < |p.live| && Moves(p.live[i], p.chunks, size)
    requires Fair(p, limit, chunkCapacity, Get(size, at))
    ensures var q := Gotten(p, chunkCapacity, size, at);
            && |q.live| == |p.live| + 1
            && Resized(p, chunkCapacity, i, size, at) == Pool(q.chunks, p.live[i := q.live[|p.live|]])
            && var a, b := p.live[i], q.live[|p.live|];
               && a.ptr + a.size <= limit && b.ptr + size <= limit && b.size == size > a.size
               && (b.ptr + a.size <= a.ptr || a.ptr + a.size <= b.ptr)
  {
    GottenSound(p, limit, chunkCapacity, size, at);
    var q := Gotten(p, chunkCapacity, size, at);
    hide PoolFits, Gotten, Align;
    BlockInMemory(q.chunks, q.live, limit, i);
    BlockInMemory(q.chunks, q.live, limit, |p.live|);
    LiveDisjoint(q.chunks, q.live, limit, i, |p.live|);
  }

  lemma {:induction false} LiveDisjoint(chunks: seq<Chunk>, live: seq<Block>, limit: nat, i: nat, j: nat)
    requires PoolFits(chunks, live, limit) && i < j < |live|
    ensures Disjoint(live[i], live[j])
  {
  }

  lemma {:induction false} OthersApart(p: Pool, limit: nat, chunkCapacity: nat, size: nat, at: nat, k: nat)
    requires Sound(p, limit) && k < |p.live| && Fair(p, limit, chunkCapacity, Get(size, at))
    ensures var q := Gotten(p, chunkCapacity, size, at);
            && |q.live| == |p.live| + 1
            && var a, b := p.live[k], q.live[|p.live|];
               && a.ptr + a.size <= limit
               && (a.size == 0 || size == 0 || b.ptr + size <= a.ptr || a.ptr + a.size <= b.ptr)
  {
    GottenSound(p, limit, chunkCapacity, size, at);
    var q := Gotten(p, chunkCapacity, size, at);
    BlockInMemory(q.chunks, q.live, limit, k);
    BlockInMemory(q.chunks, q.live, limit, |p.live|);
    LiveDisjoint(q.chunks, q.live, limit, k, |p.live|);
  }

  // What copying the old bytes of block i to its new place does to all blocks.
  lemma {:induction false} CopyKeeps(p: Pool, chunkCapacity: nat, i: nat, size: nat, at: nat, m0: bytes, m1: bytes)
    requires Sound(p, |m0|) && i < |p.live| && Moves(p.live[i], p.chunks, size)
    requires Fair(p, |m0|, chunkCapacity, Get(size, at))
    requires |Gotten(p, chunkCapacity, size, at).live| == |p.live| + 1
    requires var a, b := p.live[i], Gotten(p, chunkCapacity, size, at).live[|p.live|];
             CopiedTo(m0, m1, b.ptr, a.ptr, a.size)
    ensures BytesIn(m0, p.live[i]) <= BytesIn(m1, Gotten(p, chunkCapacity, size, at).live[|p.live|])
    ensures forall k :: 0 <= k < |p.live| && k != i ==> BytesIn(m1, p.live[k]) == BytesIn(m0, p.live[k])
  {
    hide Sound, Gotten, Resized, Fair, Moves;
    MovesWhole(p, |m0|, chunkCapacity, i, size, at);
    var a, b := p.live[i], Gotten(p, chunkCapacity, size, at).live[|p.live|];
    assert m1[b.ptr..b.ptr + size][..a.size] == m1[b.ptr..b.ptr + a.size];
    forall k | 0 <= k < |p.live| && k != i
      ensures BytesIn(m1, p.live[k]) == BytesIn(m0, p.live[k])
    {
      OthersApart(p, |m0|, chunkCapacity, size, at, k);
    }
  }

  // The blocks that lie in one of the chunks.
  ghost function Survivors(live: seq<Block>, chunks: seq<Chunk>): (r: seq<Block>)
    ensures |r| <= |live| && forall b <- r :: b in live && Housed(b, chunks)
  {
    if live == [] then []
    else (if Housed(live[0], chunks) then [live[0]] else []) + Survivors(live[1..], chunks)
  }

  // Each of them as often as before, and no other.
  lemma {:induction false} SurvivorsAre(live: seq<Block>, chunks: seq<Chunk>, b: Block)
    ensures multiset(Survivors(live, chunks))[b] == if Housed(b, chunks) then multiset(live)[b] else 0
    decreases |live|
  {
    hide Housed;
    if live != [] {
      SurvivorsAre(live[1..], chunks, b);
      assert live == [live[0]] + live[1..];
    }
  }

  predicate Pairwise(live: seq<Block>) { forall i, j :: 0 <= i < j < |live| ==> Disjoint(live[i], live[j]) }

  lemma {:induction false} PairwiseFirst(x: Block, s: seq<Block>)
    requires Pairwise(s) && forall b <- s :: Disjoint(x, b)
    ensures Pairwise([x] + s)
  {
    var r := [x] + s;
    forall i, j | 0 <= i < j < |r|
      ensures Disjoint(r[i], r[j])
    {
      assert r[j] == s[j - 1] && s[j - 1] in s;
      if i > 0 { assert r[i] == s[i - 1]; }
    }
  }

  lemma {:induction false} PairwiseRest(live: seq<Block>)
    requires live != [] && Pairwise(live)
    ensures Pairwise(live[1..]) && forall b <- live[1..] :: Disjoint(live[0], b)
  {
    var rest := live[1..];
    forall i, j | 0 <= i < j < |rest|
      ensures Disjoint(rest[i], rest[j])
    {
      assert rest[i] == live[i + 1] && rest[j] == live[j + 1];
    }
    forall b <- rest
      ensures Disjoint(live[0], b)
    {
      var k :| 0 <= k < |rest| && rest[k] == b;
      assert b == live[k + 1];
    }
  }

  lemma {:induction false} SurvivorsApart(live: seq<Block>, chunks: seq<Chunk>)
    requires Pairwise(live)
    ensures Pairwise(Survivors(live, chunks))
    decreases |live|
  {
    hide Pairwise, Housed, Disjoint;
    if live == [] {
      NoneApart();
    } else {
      PairwiseRest(live);
      SurvivorsApart(live[1..], chunks);
      PairwiseFirst(live[0], Survivors(live[1..], chunks));
      assert [] + Survivors(live[1..], chunks) == Survivors(live[1..], chunks);
    }
  }

  lemma {:induction false} NoneApart()
    ensures Pairwise([])
  {
  }

  lemma {:induction false} SurvivorsFit(chunks: seq<Chunk>, live: seq<Block>, limit: nat, n: nat)
    requires PoolFits(chunks, live, limit) && AllFit(live) && n <= |chunks|
    ensures PoolFits(chunks[n..], Survivors(live, chunks[n..]), limit) && AllFit(Survivors(live, chunks[n..]))
  {
    var r := chunks[n..];
    forall i, j | 0 <= i < j < |r|
      ensures Apart(r[i], r[j])
    {
      assert Apart(chunks[n + i], chunks[n + j]);
    }
    SurvivorsApart(live, r);
  }

  lemma {:induction false} OneMoreFits(live: seq<Block>, b: Block)
    ensures AllFit(live + [b]) <==> AllFit(live) && b.size <= b.room
  {
    assert forall x <- live :: x in live + [b];
    assert b in live + [b];
  }
}
