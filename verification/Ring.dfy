// The TPACKET_V3 ring reader (pkttap/src/live/linux_ring.rs): geometry, frame
// headers, and the reader's loop over blocks shared with the kernel.

module Ring {
  import opened Words

  // ----- geometry -----

  const USIZE: nat := 0x1_0000_0000_0000_0000

  const ALIGNMENT: nat := 16

  const FRAME_HEADER: nat := 48

  const DESCRIPTOR: nat := 48

  /** `tpacket3_hdrlen`: the aligned frame header and a 20-byte `sockaddr_ll`. */
  const HEADER_LENGTH: nat := 68

  const MIN_FRAME_SIZE: nat := 2048

  /** The least multiple of `m` that is not below `n`. */
  function RoundUp(n: nat, m: nat): nat
    requires m > 0
  {
    Times((n + m - 1) / m, m)
  }

  function Times(a: nat, b: nat): nat { a * b }

  datatype Geometry = Geometry(blockSize: nat, blockCount: nat, frameSize: nat, frameCount: nat, mapLen: nat)

  /** `Overflow` is arithmetic outside `usize`, which the source does not check. */
  datatype Sized = Accepted(g: Geometry) | Refused | Overflow

  function SaturatingAdd(a: nat, b: nat): nat { if a + b < USIZE then a + b else USIZE - 1 }

  function Max(a: nat, b: nat): nat { if a < b then b else a }

  function FrameSize(snaplen: nat): (size: nat)
    ensures size >= MIN_FRAME_SIZE
  {
    Max(RoundUp(SaturatingAdd(snaplen, HEADER_LENGTH), ALIGNMENT), MIN_FRAME_SIZE)
  }

  /** `ring_geometry`. */
  function RingGeometry(blockSize: nat, blockCount: nat, snaplen: nat, page: nat): Sized
    requires page > 0
  {
    if blockCount == 0 || blockSize == 0 then Refused
    else if SaturatingAdd(snaplen, HEADER_LENGTH) + ALIGNMENT - 1 >= USIZE then Overflow
    else
      var frame := FrameSize(snaplen);
      var block := RoundUp(Max(blockSize, frame), page);
      if block >= USIZE then Overflow else Laid(block, blockCount, frame, Times(block / frame, blockCount), Times(block, blockCount))
  }

  /** The counts must fit `usize`, and the kernel's fields 32 bits. */
  function Laid(block: nat, blockCount: nat, frame: nat, count: nat, mapLen: nat): Sized {
    if count >= USIZE || mapLen >= USIZE then Refused
    else if block >= U32_SIZE || blockCount >= U32_SIZE || count >= U32_SIZE then Refused
    else Accepted(Geometry(block, blockCount, frame, count, mapLen))
  }

  lemma RoundUpIsLeast(n: nat, m: nat)
    requires m > 0
    ensures n <= RoundUp(n, m) < n + m && RoundUp(n, m) % m == 0
  {
    var q := (n + m - 1) / m;
    assert q * m + (n + m - 1) % m == n + m - 1;
    MultipleOf(q, m);
  }

  lemma MultipleOf(q: nat, m: nat)
    requires m > 0
    ensures Times(q, m) % m == 0
  {
    var x := q * m;
    var d := q - x / m;
    assert m * d == m * q - m * (x / m);
    Grows(m, d);
  }

  /** What the kernel demands of a request. */
  predicate KernelAccepts(g: Geometry, page: nat)
    requires page > 0
  {
    && g.blockSize % page == 0 && 0 < g.blockSize < U32_SIZE
    && g.frameSize % ALIGNMENT == 0 && g.frameSize >= HEADER_LENGTH
    && 0 < g.frameSize <= g.blockSize
    && g.frameCount == Times(g.blockSize / g.frameSize, g.blockCount) < U32_SIZE
    && 0 < g.blockCount < U32_SIZE
  }

  /** Accepted geometries meet the kernel's rules, hold a whole frame per block
      and map exactly their blocks; a request is accepted exactly when its
      rounded sizes fit 32 bits. */
  lemma {:induction false} GeometryMeetsKernel(blockSize: nat, blockCount: nat, snaplen: nat, page: nat)
    requires page > 0
    ensures var r := RingGeometry(blockSize, blockCount, snaplen, page);
            r.Accepted? ==>
              && KernelAccepts(r.g, page) && r.g.blockCount == blockCount && r.g.blockSize >= blockSize
              && r.g.frameSize >= snaplen + HEADER_LENGTH && r.g.mapLen == Times(r.g.blockSize, r.g.blockCount) < USIZE
    ensures var block := RoundUp(Max(blockSize, FrameSize(snaplen)), page);
            RingGeometry(blockSize, blockCount, snaplen, page).Accepted? <==>
              && blockSize > 0 && 0 < blockCount < U32_SIZE && block < U32_SIZE
              && Times(block / FrameSize(snaplen), blockCount) < U32_SIZE
  {
    var frame := FrameSize(snaplen);
    var block := RoundUp(Max(blockSize, frame), page);
    RoundUpIsLeast(SaturatingAdd(snaplen, HEADER_LENGTH), ALIGNMENT);
    RoundUpIsLeast(Max(blockSize, frame), page);
    if 0 < blockCount && block < U32_SIZE && blockCount < U32_SIZE {
      ProductBound(block, blockCount);
    }
  }

  lemma ProductBound(a: nat, b: nat)
    requires a < U32_SIZE && b < U32_SIZE
    ensures Times(a, b) < USIZE
  {
    assert (U32_SIZE - a) * b >= 0;
    assert a * b == U32_SIZE * b - (U32_SIZE - a) * b;
  }

  // ----- frame headers -----

  type Bytes = seq<u8>

  /** `n` bytes as a little-endian number, as the kernel stores them. */
  function Little(b: Bytes, at: nat, n: nat): nat
    requires at + n <= |b|
    decreases n, at
  {
    if n == 0 then 0 else b[at] + 0x100 * Little(b, at + 1, n - 1)
  }

  lemma {:induction false} LittleBound(b: Bytes, at: nat, n: nat)
    requires at + n <= |b|
    ensures Little(b, at, n) < Pow2(8 * n)
    decreases n
  {
    if n > 0 {
      LittleBound(b, at + 1, n - 1);
      Pow2Byte(n - 1);
    }
  }

  lemma Pow2Byte(n: nat)
    ensures Pow2(8 * (n + 1)) == 0x100 * Pow2(8 * n)
  {
    var k := 8 * n;
    assert Pow2(k + 2) == 4 * Pow2(k);
    assert Pow2(k + 4) == 4 * Pow2(k + 2);
    assert Pow2(k + 6) == 4 * Pow2(k + 4);
    assert Pow2(k + 8) == 4 * Pow2(k + 6);
  }

  function Word(b: Bytes, at: nat): u32
    requires at + 4 <= |b|
  {
    Pow2Of32();
    LittleBound(b, at, 4);
    Little(b, at, 4)
  }

  function Half(b: Bytes, at: nat): u16
    requires at + 2 <= |b|
  {
    assert Pow2(16) == 0x1_0000 by { assert Pow2(8) == 0x100; }
    LittleBound(b, at, 2);
    Little(b, at, 2)
  }

  function CheckedAdd(a: nat, b: nat): Option<nat> { if a + b < USIZE then Some(a + b) else None }

  datatype FrameMeta = FrameMeta(offset: nat, len: nat, sec: u32, nsec: u32, origLen: u32)

  /** Offset of the next frame header in the block, and frames left to read. */
  datatype Walk = Walk(offset: nat, remaining: u32)

  const DONE: Walk := Walk(0, 0)

  /** `parse_block_desc`, as far as the reader uses it: where its walk begins. */
  function StartWalk(block: Bytes): Walk {
    if |block| < DESCRIPTOR then DONE else Walk(Word(block, 16), Word(block, 12))
  }

  /** `parse_frame`: the frame at `offset` and the header it links to. `None`
      when the header or the bytes it promises run past the block. */
  function ParseFrame(block: Bytes, offset: nat, snaplen: nat): (r: Option<(FrameMeta, Option<nat>)>)
    ensures r.Some? ==> r.value.0.offset + r.value.0.len <= |block| && r.value.0.len <= snaplen
  {
    var headerEnd := CheckedAdd(offset, FRAME_HEADER);
    if headerEnd.None? || headerEnd.value > |block| then None
    else
      var dataStart := CheckedAdd(offset, Half(block, offset + 24));
      var stored := Word(block, offset + 12);
      if dataStart.None? then None
      else
        var end := CheckedAdd(dataStart.value, stored);
        if end.None? || end.value > |block| then None
        else
          var n := Word(block, offset);
          var next := CheckedAdd(offset, n);
          if n != 0 && next.None? then None
          else
            Some((FrameMeta(dataStart.value, if stored < snaplen then stored else snaplen,
                            Word(block, offset + 4), Word(block, offset + 8), Word(block, offset + 16)),
                  if n == 0 then None else next))
  }

  /** A zero link ends the walk whatever the count said. */
  function NextWalk(w: Walk, next: Option<nat>): Walk
    requires w.remaining > 0
  {
    if next.Some? && w.remaining > 1 then Walk(next.value, w.remaining - 1) else DONE
  }

  // ----- one turn of the reader's loop -----

  const STATUS_AT: nat := 8

  function Status(block: Bytes): u32
    requires |block| >= DESCRIPTOR
  {
    Word(block, STATUS_AT)
  }

  /** The block has been handed to the reader: `TP_STATUS_USER`, bit 0 of the
      status word, is set. */
  predicate User(block: Bytes)
    requires |block| >= DESCRIPTOR
  {
    block[STATUS_AT] % 2 == 1
  }

  lemma UserIsStatusBit(block: Bytes)
    requires |block| >= DESCRIPTOR
    ensures User(block) <==> BitAnd(Status(block), 1) == 1
  {
    LowBit(Status(block), 32);
    assert Status(block) == block[STATUS_AT] + 0x100 * Little(block, STATUS_AT + 1, 3);
  }

  lemma {:induction false} LowBit(a: nat, n: nat)
    requires n > 0
    ensures Bitwise(AndBits, a, 1, n) == a % 2
  {
    AndZero(a / 2, n - 1);
  }

  /** `TP_STATUS_KERNEL` stored into the status word. */
  function Released(block: Bytes): (b: Bytes)
    requires |block| >= DESCRIPTOR
    ensures |b| == |block| && !User(b)
  {
    block[STATUS_AT := 0][STATUS_AT + 1 := 0][STATUS_AT + 2 := 0][STATUS_AT + 3 := 0]
  }

  /** The mapping, block by block, and the reader's own state. */
  datatype Shared = Shared(blocks: seq<Bytes>, cur: nat, walk: Option<Walk>)

  predicate Valid(s: Shared, blockSize: nat) {
    && blockSize >= DESCRIPTOR && s.cur < |s.blocks|
    && forall i :: 0 <= i < |s.blocks| ==> |s.blocks[i]| == blockSize
  }

  datatype Event = NotReady | Took | Freed | Yielded(meta: FrameMeta)

  function Current(s: Shared): Bytes
    requires s.cur < |s.blocks|
  {
    s.blocks[s.cur]
  }

  /** `(i + 1) % n`: the ring wraps at the end. */
  function NextIndex(i: nat, n: nat): (k: nat)
    requires i < n
    ensures k == if i + 1 == n then 0 else i + 1
  {
    (i + 1) % n
  }

  function ReleaseBlock(s: Shared): Shared
    requires s.cur < |s.blocks| && |Current(s)| >= DESCRIPTOR
  {
    Shared(s.blocks[s.cur := Released(Current(s))], NextIndex(s.cur, |s.blocks|), None)
  }

  /** One turn of the loop in `next_frame`. */
  function Turn(s: Shared, snaplen: nat): (Shared, Event)
    requires s.cur < |s.blocks| && |Current(s)| >= DESCRIPTOR
  {
    if s.walk.None? then
      if !User(Current(s)) then (s, NotReady) else (s.(walk := Some(StartWalk(Current(s)))), Took)
    else if s.walk.value.remaining == 0 then (ReleaseBlock(s), Freed)
    else
      var f := ParseFrame(Current(s), s.walk.value.offset, snaplen);
      if f.None? then (ReleaseBlock(s), Freed)
      else (s.(walk := Some(NextWalk(s.walk.value, f.value.1))), Yielded(f.value.0))
  }

  lemma TurnKeepsValid(s: Shared, snaplen: nat, blockSize: nat)
    requires Valid(s, blockSize)
    ensures Valid(Turn(s, snaplen).0, blockSize) && |Turn(s, snaplen).0.blocks| == |s.blocks|
  {
  }

  // ----- termination without concurrent hand-overs -----

  lemma {:induction false} ClearCounts(flags: seq<bool>, i: nat, n: nat)
    requires i < |flags| && n <= |flags| && flags[i]
    ensures Count(flags[i := false], n) == Count(flags, n) - if i < n then 1 else 0
    decreases n
  {
    if n > 0 { ClearCounts(flags, i, n - 1); }
  }

  /** Which blocks are in the reader's hands. */
  function Flags(blocks: seq<Bytes>): (f: seq<bool>)
    requires forall i :: 0 <= i < |blocks| ==> |blocks[i]| >= DESCRIPTOR
    ensures |f| == |blocks|
  {
    seq(|blocks|, i requires 0 <= i < |blocks| => User(blocks[i]))
  }

  lemma ReleaseCounts(blocks: seq<Bytes>, i: nat)
    requires i < |blocks| && forall j :: 0 <= j < |blocks| ==> |blocks[j]| >= DESCRIPTOR
    requires User(blocks[i])
    ensures Count(Flags(blocks[i := Released(blocks[i])]), |blocks|) == Count(Flags(blocks), |blocks|) - 1
  {
    assert Flags(blocks[i := Released(blocks[i])]) == Flags(blocks)[i := false];
    ClearCounts(Flags(blocks), i, |blocks|);
  }

  /** A block is walked only while it is in the reader's hands. */
  predicate Owns(s: Shared)
    requires s.cur < |s.blocks| && |Current(s)| >= DESCRIPTOR
  {
    s.walk.Some? ==> User(Current(s))
  }

  function UserLeft(s: Shared, blockSize: nat): nat
    requires Valid(s, blockSize)
  {
    Count(Flags(s.blocks), |s.blocks|)
  }

  /** Every turn that does not end the call uses up a block or begins one. */
  lemma TurnProgresses(s: Shared, snaplen: nat, blockSize: nat)
    requires Valid(s, blockSize) && Owns(s)
    ensures var t := Turn(s, snaplen);
            && Valid(t.0, blockSize) && Owns(t.0)
            && (t.1.Took? ==> UserLeft(t.0, blockSize) == UserLeft(s, blockSize) && s.walk.None? && t.0.walk.Some?)
            && (t.1.Freed? ==> UserLeft(t.0, blockSize) < UserLeft(s, blockSize))
  {
    if Turn(s, snaplen).1.Freed? { ReleaseCounts(s.blocks, s.cur); }
  }

  /** The whole non-blocking call: turns until nothing is ready or a frame is
      found. */
  function NextFrame(s: Shared, snaplen: nat, blockSize: nat): (Shared, Event)
    requires Valid(s, blockSize) && Owns(s)
    decreases UserLeft(s, blockSize), if s.walk.None? then 1 else 0
  {
    TurnProgresses(s, snaplen, blockSize);
    var t := Turn(s, snaplen);
    if t.1.NotReady? || t.1.Yielded? then t else NextFrame(t.0, snaplen, blockSize)
  }

  /** The reader with its mapping. Memory the kernel writes changes between
      calls only; see the protocol module for interleavings. */
  class Reader {
    const blockSize: nat
    const blockCount: nat
    const snaplen: nat
    var blocks: seq<Bytes>
    var curBlock: nat
    var walk: Option<Walk>

    function Now(): Shared
      reads this
    {
      Shared(blocks, curBlock, walk)
    }

    predicate Good()
      reads this
    {
      Valid(Now(), blockSize) && Owns(Now()) && |blocks| == blockCount
    }

    constructor (g: Geometry, page: nat, snaplen: nat, mapping: seq<Bytes>)
      requires page > 0 && KernelAccepts(g, page) && |mapping| == g.blockCount
      requires forall i :: 0 <= i < |mapping| ==> |mapping[i]| == g.blockSize
      ensures Good() && Now() == Shared(mapping, 0, None) && this.snaplen == snaplen
      ensures blockSize == g.blockSize && blockCount == g.blockCount
    {
      blockSize, blockCount, this.snaplen := g.blockSize, g.blockCount, snaplen;
      blocks, curBlock, walk := mapping, 0, None;
    }

    /** `release_block`. */
    method ReleaseCurrent()
      requires Good() && walk.Some?
      modifies this
      ensures Good() && Now() == ReleaseBlock(old(Now()))
      ensures UserLeft(Now(), blockSize) < old(UserLeft(Now(), blockSize))
    {
      ReleaseCounts(blocks, curBlock);
      blocks := blocks[curBlock := Released(blocks[curBlock])];
      curBlock := NextIndex(curBlock, blockCount);
      walk := None;
    }

    /** One turn of the loop. */
    method OneTurn() returns (e: Event)
      requires Good()
      modifies this
      ensures Good() && (Now(), e) == Turn(old(Now()), snaplen)
      ensures e.Took? ==> UserLeft(Now(), blockSize) == old(UserLeft(Now(), blockSize)) && old(walk.None?) && walk.Some?
      ensures e.Freed? ==> UserLeft(Now(), blockSize) < old(UserLeft(Now(), blockSize))
    {
      TurnProgresses(Now(), snaplen, blockSize);
      if walk.None? {
        // No block in hand: take the next one if the kernel is done with it.
        if !User(blocks[curBlock]) { return NotReady; }
        walk := Some(StartWalk(blocks[curBlock]));
        return Took;
      }
      if walk.value.remaining == 0 {
        ReleaseCurrent();
        return Freed;
      }
      var f := ParseFrame(blocks[curBlock], walk.value.offset, snaplen);
      if f.None? {
        // Malformed: nothing more can be trusted in this block.
        ReleaseCurrent();
        return Freed;
      }
      walk := Some(NextWalk(walk.value, f.value.1));
      return Yielded(f.value.0);
    }

    /** `next_frame` in non-blocking mode: it ends for any block contents, and
        the frame it yields, counted from the start of the mapping, lies inside
        its block and the mapping. */
    method NextFrameNow() returns (r: Option<FrameMeta>)
      requires Good()
      modifies this
      ensures Good()
      ensures var (s, e) := NextFrame(old(Now()), snaplen, blockSize);
              && Now() == s
              && r == if e.Yielded? then Some(e.meta.(offset := Times(curBlock, blockSize) + e.meta.offset)) else None
      ensures r.Some? ==>
              && Times(curBlock, blockSize) <= r.value.offset
              && r.value.offset + r.value.len <= Times(curBlock + 1, blockSize) <= Times(blockCount, blockSize)
      ensures r.Some? ==> r.value.len <= snaplen && User(blocks[curBlock])
      ensures r.None? ==> walk.None? && !User(blocks[curBlock])
    {
      while true
        invariant Good()
        invariant NextFrame(Now(), snaplen, blockSize) == NextFrame(old(Now()), snaplen, blockSize)
        decreases UserLeft(Now(), blockSize), if walk.None? then 1 else 0
      {
        ghost var s := Now();
        var e := OneTurn();
        match e {
          case NotReady => return None;
          case Yielded(meta) =>
            InsideMapping(curBlock, blockCount, blockSize);
            return Some(meta.(offset := Times(curBlock, blockSize) + meta.offset));
          case _ =>
        }
      }
    }
  }

  lemma InsideMapping(i: nat, n: nat, size: nat)
    requires i < n
    ensures Times(i + 1, size) == Times(i, size) + size <= Times(n, size)
  {
    assert (n - i - 1) * size >= 0;
    assert n * size == (i + 1) * size + (n - i - 1) * size;
  }
}
