// Kernel and reader as interleaved steps over the shared ring
// (pkttap/src/live/linux_ring.rs:19-22, 419-535). The status word is a
// sequentially consistent cell.

module RingProtocol {
  import opened Words
  import opened Ring

  // ----- the frames of one block -----

  /** A delivered packet. */
  datatype Capture = Capture(data: Bytes, sec: u32, nsec: u32, origLen: u32)

  function CaptureOf(block: Bytes, m: FrameMeta): Capture
    requires m.offset + m.len <= |block|
  {
    Capture(block[m.offset..m.offset + m.len], m.sec, m.nsec, m.origLen)
  }

  /** The frames from a walk position on: at most the count, up to a zero link
      or the first malformed header. */
  function FramesFrom(block: Bytes, w: Walk, snaplen: nat): seq<Capture>
    decreases w.remaining
  {
    if w.remaining == 0 then []
    else
      var f := ParseFrame(block, w.offset, snaplen);
      if f.None? then [] else [CaptureOf(block, f.value.0)] + FramesFrom(block, NextWalk(w, f.value.1), snaplen)
  }

  function FramesOf(block: Bytes, snaplen: nat): seq<Capture> { FramesFrom(block, StartWalk(block), snaplen) }

  /** The `k`-th header of a block by following links alone. */
  function HeaderAt(block: Bytes, first: nat, k: nat, snaplen: nat): Option<nat> {
    if k == 0 then Some(first)
    else
      var h := HeaderAt(block, first, k - 1, snaplen);
      if h.None? then None
      else
        var f := ParseFrame(block, h.value, snaplen);
        if f.None? then None else f.value.1
  }

  /** Header `k` exists and is well formed. */
  predicate FrameThere(block: Bytes, first: nat, k: nat, snaplen: nat) {
    var h := HeaderAt(block, first, k, snaplen);
    h.Some? && ParseFrame(block, h.value, snaplen).Some?
  }

  lemma {:induction false} HeaderShift(block: Bytes, first: nat, k: nat, snaplen: nat)
    requires FrameThere(block, first, 0, snaplen) && HeaderAt(block, first, 1, snaplen).Some?
    ensures HeaderAt(block, first, k + 1, snaplen) == HeaderAt(block, HeaderAt(block, first, 1, snaplen).value, k, snaplen)
  {
    if k > 0 { HeaderShift(block, first, k - 1, snaplen); }
  }

  /** The walk takes one linked frame at a time. */
  lemma {:induction false} FramesStep(block: Bytes, w: Walk, snaplen: nat) returns (w': Walk)
    requires FramesFrom(block, w, snaplen) != []
    ensures w.remaining > 0 && FrameThere(block, w.offset, 0, snaplen)
    ensures FramesFrom(block, w, snaplen) ==
            [CaptureOf(block, ParseFrame(block, w.offset, snaplen).value.0)] + FramesFrom(block, w', snaplen)
    ensures w' == DONE || (HeaderAt(block, w.offset, 1, snaplen) == Some(w'.offset) && w'.remaining == w.remaining - 1 > 0)
    ensures w' == DONE ==> w.remaining == 1 || HeaderAt(block, w.offset, 1, snaplen).None?
    ensures w'.remaining < w.remaining
  {
    w' := NextWalk(w, ParseFrame(block, w.offset, snaplen).value.1);
    assert HeaderAt(block, w.offset, 0, snaplen) == Some(w.offset);
    assert HeaderAt(block, w.offset, 1, snaplen) == ParseFrame(block, w.offset, snaplen).value.1;
  }

  /** Frame `k` of the walk is behind the `k`-th linked header. */
  lemma {:induction false} FramesAreLinked(block: Bytes, w: Walk, snaplen: nat, k: nat)
    requires k < |FramesFrom(block, w, snaplen)|
    ensures FrameThere(block, w.offset, k, snaplen)
    ensures FramesFrom(block, w, snaplen)[k] ==
            CaptureOf(block, ParseFrame(block, HeaderAt(block, w.offset, k, snaplen).value, snaplen).value.0)
    decreases w.remaining
  {
    var w' := FramesStep(block, w, snaplen);
    if k > 0 {
      FramesAreLinked(block, w', snaplen, k - 1);
      HeaderShift(block, w.offset, k - 1, snaplen);
    }
  }

  /** The walk stops exactly at the count, at a zero link, or at the first
      malformed header. */
  lemma {:induction false} FramesStop(block: Bytes, w: Walk, snaplen: nat)
    ensures var n := |FramesFrom(block, w, snaplen)|;
            n == w.remaining || (n < w.remaining && !FrameThere(block, w.offset, n, snaplen))
    decreases w.remaining
  {
    if FramesFrom(block, w, snaplen) == [] {
      assert HeaderAt(block, w.offset, 0, snaplen) == Some(w.offset);
    } else {
      var w' := FramesStep(block, w, snaplen);
      if w' != DONE {
        FramesStop(block, w', snaplen);
        HeaderShift(block, w.offset, |FramesFrom(block, w', snaplen)|, snaplen);
      }
    }
  }

  function Flatten<T>(xs: seq<seq<T>>): seq<T> {
    if xs == [] then [] else Flatten(xs[..|xs| - 1]) + xs[|xs| - 1]
  }

  lemma {:induction false} FlattenAppend<T>(a: seq<seq<T>>, b: seq<seq<T>>)
    ensures Flatten(a + b) == Flatten(a) + Flatten(b)
  {
    if b == [] {
      assert a + b == a;
    } else {
      var b', c := b[..|b| - 1], a + b;
      FlattenAppend(a, b');
      assert c[..|c| - 1] == a + b';
    }
  }

  /** The frames of a sequence of blocks, one block after the other. */
  function AllFrames(blocks: seq<Bytes>, snaplen: nat): seq<Capture> { Flatten(Chains(blocks, snaplen)) }

  function Chains(blocks: seq<Bytes>, snaplen: nat): seq<seq<Capture>> {
    seq(|blocks|, i requires 0 <= i < |blocks| => FramesOf(blocks[i], snaplen))
  }

  lemma ChainsAppend(a: seq<Bytes>, b: seq<Bytes>, snaplen: nat)
    ensures Chains(a + b, snaplen) == Chains(a, snaplen) + Chains(b, snaplen)
  {
    var c, d := Chains(a + b, snaplen), Chains(a, snaplen) + Chains(b, snaplen);
    forall i | 0 <= i < |c| ensures c[i] == d[i] {
      if i >= |a| { assert (a + b)[i] == b[i - |a|]; }
    }
  }

  lemma {:induction false} AllFramesAppend(a: seq<Bytes>, b: seq<Bytes>, snaplen: nat)
    ensures AllFrames(a + b, snaplen) == AllFrames(a, snaplen) + AllFrames(b, snaplen)
  {
    ChainsAppend(a, b, snaplen);
    FlattenAppend(Chains(a, snaplen), Chains(b, snaplen));
  }

  // ----- interleavings -----

  /** The kernel rewrites a block it owns (setting `TP_STATUS_USER` hands it
      over), or the reader takes one turn. */
  datatype Step = KernelStep(i: nat, bytes: Bytes) | ReaderStep

  /** The shared state, and what happened so far: hand-overs and releases per
      block, all blocks handed over, how many were released, the packets
      delivered, and the block a kernel going round the ring fills next. */
  datatype World = World(
    s: Shared,
    handed: seq<nat>,
    freed: seq<nat>,
    log: seq<Bytes>,
    count: nat,
    delivered: seq<Capture>,
    next: nat)

  datatype Setup = Setup(blockSize: nat, blockCount: nat, snaplen: nat)

  predicate Proper(c: Setup, w: World) {
    && Valid(w.s, c.blockSize) && |w.s.blocks| == |w.handed| == |w.freed| == c.blockCount
    && w.next < c.blockCount
  }

  predicate Allowed(c: Setup, w: World, step: Step)
    requires Proper(c, w)
  {
    step.KernelStep? ==>
      && step.i < c.blockCount && |step.bytes| == c.blockSize && !User(w.s.blocks[step.i])
  }

  /** The kernel hands blocks over in ring order. */
  predicate InOrder(c: Setup, w: World, step: Step)
    requires Proper(c, w) && Allowed(c, w, step)
  {
    step.KernelStep? && User(step.bytes) ==> step.i == w.next
  }

  function Bump(counts: seq<nat>, i: nat): seq<nat>
    requires i < |counts|
  {
    counts[i := counts[i] + 1]
  }

  function KernelMoves(c: Setup, w: World, i: nat, bytes: Bytes): World
    requires Proper(c, w) && Allowed(c, w, KernelStep(i, bytes))
  {
    var s := w.s.(blocks := w.s.blocks[i := bytes]);
    if User(bytes) then
      w.(s := s, handed := Bump(w.handed, i), log := w.log + [bytes], next := NextIndex(w.next, c.blockCount))
    else w.(s := s)
  }

  function ReaderMoves(c: Setup, w: World): World
    requires Proper(c, w)
  {
    var (s, e) := Turn(w.s, c.snaplen);
    match e
    case NotReady => w
    case Took => w.(s := s)
    case Freed => w.(s := s, freed := Bump(w.freed, w.s.cur), count := w.count + 1)
    case Yielded(m) => w.(s := s, delivered := w.delivered + [CaptureOf(Current(w.s), m)])
  }

  function Do(c: Setup, w: World, step: Step): World
    requires Proper(c, w) && Allowed(c, w, step)
  {
    match step
    case KernelStep(i, bytes) => KernelMoves(c, w, i, bytes)
    case ReaderStep => ReaderMoves(c, w)
  }

  /** A freshly mapped ring: every block with the kernel. */
  predicate Fresh(c: Setup, w: World) {
    && Proper(c, w) && w.s.cur == 0 && w.s.walk.None? && w.next == 0
    && (forall i :: 0 <= i < c.blockCount ==> !User(w.s.blocks[i]) && w.handed[i] == 0 && w.freed[i] == 0)
    && w.log == [] && w.count == 0 && w.delivered == []
  }

  /** The worlds of a run: `run[0]` is fresh and each next one is a step on. */
  ghost predicate IsRun(c: Setup, run: seq<World>, ordered: bool) {
    && |run| > 0 && Fresh(c, run[0])
    && forall k :: 0 <= k < |run| - 1 ==> StepsTo(c, run[k], run[k + 1], ordered)
  }

  ghost predicate StepsTo(c: Setup, w: World, w': World, ordered: bool) {
    && Proper(c, w)
    && exists step :: Allowed(c, w, step) && (ordered ==> InOrder(c, w, step)) && w' == Do(c, w, step)
  }

  // ----- ownership, for any kernel -----

  /** The reader walks only a block in its hands, and every block in its hands
      was handed over once more than it was released. */
  predicate Ownership(c: Setup, w: World) {
    && Proper(c, w) && Owns(w.s)
    && forall i :: 0 <= i < c.blockCount ==> w.handed[i] == w.freed[i] + if User(w.s.blocks[i]) then 1 else 0
  }

  lemma StepKeepsOwnership(c: Setup, w: World, step: Step)
    requires Ownership(c, w) && Allowed(c, w, step)
    ensures Ownership(c, Do(c, w, step))
  {
    TurnKeepsValid(w.s, c.snaplen, c.blockSize);
  }

  /** In every interleaving: blocks are walked only while handed over, and each
      hand-over is released at most once before the next and never otherwise. */
  lemma {:induction false} RunsKeepOwnership(c: Setup, run: seq<World>, ordered: bool, k: nat)
    requires IsRun(c, run, ordered) && k < |run|
    ensures Ownership(c, run[k])
  {
    if k > 0 {
      RunsKeepOwnership(c, run, ordered, k - 1);
      assert StepsTo(c, run[k - 1], run[k - 1 + 1], ordered);
      var step :| Allowed(c, run[k - 1], step) && run[k] == Do(c, run[k - 1], step);
      StepKeepsOwnership(c, run[k - 1], step);
    }
  }

  /** What the reader does depends on block contents only through blocks in its
      hands: two memories that agree on those and on whether the current block
      has been handed over lead to the same turn. */
  lemma TurnReadsOwnBlockOnly(s: Shared, t: Shared, snaplen: nat, blockSize: nat)
    requires Valid(s, blockSize) && Valid(t, blockSize) && Owns(s) && Owns(t)
    requires s.cur == t.cur && s.walk == t.walk && |s.blocks| == |t.blocks|
    requires User(Current(s)) == User(Current(t))
    requires User(Current(s)) ==> Current(s) == Current(t)
    ensures Turn(s, snaplen).1 == Turn(t, snaplen).1
    ensures Turn(s, snaplen).0.cur == Turn(t, snaplen).0.cur && Turn(s, snaplen).0.walk == Turn(t, snaplen).0.walk
  {
  }

  /** ... and it writes nothing but the status word of a block in its hands. */
  lemma TurnWritesOwnStatusOnly(s: Shared, snaplen: nat, blockSize: nat, i: nat, k: nat)
    requires Valid(s, blockSize) && Owns(s) && i < |s.blocks| && k < blockSize
    requires Turn(s, snaplen).0.blocks[i][k] != s.blocks[i][k]
    ensures i == s.cur && User(s.blocks[i]) && STATUS_AT <= k < STATUS_AT + 4 && Turn(s, snaplen).1.Freed?
  {
  }

  /** Only the kernel moves. */
  ghost predicate KernelOnly(c: Setup, run: seq<World>) {
    forall k :: 0 <= k < |run| - 1 ==> KernelTo(c, run[k], run[k + 1])
  }

  ghost predicate KernelTo(c: Setup, w: World, w': World) {
    && Proper(c, w)
    && exists i, bytes :: Allowed(c, w, KernelStep(i, bytes)) && w' == KernelMoves(c, w, i, bytes)
  }

  /** A yielded packet's block, status word included, cannot change before the
      reader's next call, whatever the kernel does meanwhile. */
  lemma {:induction false} YieldedBytesStay(c: Setup, w: World, run: seq<World>, k: nat)
    requires Ownership(c, w) && Turn(w.s, c.snaplen).1.Yielded?
    requires |run| > 0 && run[0] == ReaderMoves(c, w) && KernelOnly(c, run) && k < |run|
    ensures Proper(c, run[k]) && run[k].s.cur == w.s.cur && Current(run[k].s) == Current(w.s)
    ensures run[k].delivered == w.delivered + [CaptureOf(Current(run[k].s), Turn(w.s, c.snaplen).1.meta)]
  {
    if k == 0 {
      StepKeepsOwnership(c, w, ReaderStep);
    } else {
      YieldedBytesStay(c, w, run, k - 1);
      assert KernelTo(c, run[k - 1], run[k - 1 + 1]);
    }
  }

  // ----- delivery, for a kernel that goes round the ring -----

  /** The block `j` places behind block `i`. */
  function Place(i: nat, j: nat, n: nat): nat
    requires i < n && j <= n
  {
    if i + j < n then i + j else i + j - n
  }

  /** Blocks handed over and not yet released. */
  function Pending(w: World): int { |w.log| - w.count }

  /** They are the ones from the current block on, unchanged since. */
  ghost predicate RingOrder(c: Setup, w: World) {
    && Proper(c, w) && Owns(w.s) && 0 <= Pending(w) <= c.blockCount
    && w.next == (if Pending(w) == c.blockCount then w.s.cur else Place(w.s.cur, Pending(w), c.blockCount))
    && (forall j :: 0 <= j < c.blockCount ==>
          User(w.s.blocks[Place(w.s.cur, j, c.blockCount)]) == (j < Pending(w)))
    && (forall j :: 0 <= j < Pending(w) ==>
          w.s.blocks[Place(w.s.cur, j, c.blockCount)] == w.log[w.count + j])
  }

  /** The packets delivered so far, and those left of the current block, are the
      frames of all blocks released and of the current one. */
  predicate Delivery(c: Setup, w: World) {
    && w.count <= |w.log|
    && (w.s.walk.None? ==> w.delivered == AllFrames(w.log[..w.count], c.snaplen))
    && (w.s.walk.Some? ==>
          && w.count < |w.log|
          && w.delivered + FramesFrom(w.log[w.count], w.s.walk.value, c.snaplen)
             == AllFrames(w.log[..w.count], c.snaplen) + FramesOf(w.log[w.count], c.snaplen))
  }

  lemma WriteKeepsOrder(c: Setup, w: World, i: nat, bytes: Bytes)
    requires RingOrder(c, w) && Allowed(c, w, KernelStep(i, bytes)) && !User(bytes)
    ensures RingOrder(c, KernelMoves(c, w, i, bytes))
  {
  }

  /** The kernel's next block is the first one behind those pending. */
  lemma NextIsFree(c: Setup, w: World)
    requires RingOrder(c, w) && !User(w.s.blocks[w.next])
    ensures Pending(w) < c.blockCount && w.next == Place(w.s.cur, Pending(w), c.blockCount)
  {
    assert User(w.s.blocks[Place(w.s.cur, 0, c.blockCount)]) == (0 < Pending(w));
  }

  lemma HandedAt(c: Setup, w: World, bytes: Bytes, j: nat)
    requires RingOrder(c, w) && Allowed(c, w, KernelStep(w.next, bytes)) && User(bytes) && j < c.blockCount
    ensures var blocks := w.s.blocks[w.next := bytes];
            && User(blocks[Place(w.s.cur, j, c.blockCount)]) == (j < Pending(w) + 1)
            && (j < Pending(w) + 1 ==> blocks[Place(w.s.cur, j, c.blockCount)] == (w.log + [bytes])[w.count + j])
  {
    NextIsFree(c, w);
    assert User(w.s.blocks[Place(w.s.cur, j, c.blockCount)]) == (j < Pending(w));
  }

  lemma HandOverKeepsOrder(c: Setup, w: World, bytes: Bytes)
    requires RingOrder(c, w) && Allowed(c, w, KernelStep(w.next, bytes)) && User(bytes)
    ensures RingOrder(c, KernelMoves(c, w, w.next, bytes))
  {
    var n := c.blockCount;
    var w' := KernelMoves(c, w, w.next, bytes);
    NextIsFree(c, w);
    forall j | 0 <= j < n
      ensures User(w'.s.blocks[Place(w'.s.cur, j, n)]) == (j < Pending(w'))
      ensures j < Pending(w') ==> w'.s.blocks[Place(w'.s.cur, j, n)] == w'.log[w'.count + j]
    {
      HandedAt(c, w, bytes, j);
    }
    assert Owns(w'.s) by { if w.s.walk.Some? { CurrentIsLogged(c, w); } }
  }

  lemma PlaceShift(i: nat, j: nat, n: nat)
    requires i < n && j < n
    ensures j < n - 1 ==> Place(NextIndex(i, n), j, n) == Place(i, j + 1, n) != i
    ensures j == n - 1 ==> Place(NextIndex(i, n), j, n) == i
  {
  }

  lemma FreedAt(c: Setup, w: World, j: nat)
    requires RingOrder(c, w) && w.s.walk.Some? && j < c.blockCount
    ensures var s := ReleaseBlock(w.s);
            && User(s.blocks[Place(s.cur, j, c.blockCount)]) == (j < Pending(w) - 1)
            && (j < Pending(w) - 1 ==> s.blocks[Place(s.cur, j, c.blockCount)] == w.log[w.count + 1 + j])
  {
    var n := c.blockCount;
    PlaceShift(w.s.cur, j, n);
    if j < n - 1 {
      assert User(w.s.blocks[Place(w.s.cur, j + 1, n)]) == (j + 1 < Pending(w));
      if j + 1 < Pending(w) { assert w.s.blocks[Place(w.s.cur, j + 1, n)] == w.log[w.count + (j + 1)]; }
    }
  }

  lemma FreeingKeepsOrder(c: Setup, w: World, w': World)
    requires RingOrder(c, w) && w.s.walk.Some? && w'.s == ReleaseBlock(w.s)
    requires w'.log == w.log && w'.count == w.count + 1 && w'.next == w.next && Proper(c, w')
    ensures RingOrder(c, w')
  {
    var n, p := c.blockCount, Pending(w);
    CurrentIsLogged(c, w);
    forall j | 0 <= j < n
      ensures User(w'.s.blocks[Place(w'.s.cur, j, n)]) == (j < p - 1)
      ensures j < p - 1 ==> w'.s.blocks[Place(w'.s.cur, j, n)] == w'.log[w'.count + j]
    {
      FreedAt(c, w, j);
    }
  }

  lemma ReaderKeepsOrder(c: Setup, w: World)
    requires RingOrder(c, w)
    ensures RingOrder(c, ReaderMoves(c, w))
  {
    TurnProgresses(w.s, c.snaplen, c.blockSize);
    var t := Turn(w.s, c.snaplen);
    if t.1.Freed? {
      FreeingKeepsOrder(c, w, ReaderMoves(c, w));
    } else {
      assert t.0.blocks == w.s.blocks && t.0.cur == w.s.cur;
    }
  }

  lemma OneMoreBlock(log: seq<Bytes>, k: nat, snaplen: nat)
    requires k < |log|
    ensures AllFrames(log[..k + 1], snaplen) == AllFrames(log[..k], snaplen) + FramesOf(log[k], snaplen)
  {
    var one := [FramesOf(log[k], snaplen)];
    assert Chains(log[..k + 1], snaplen) == Chains(log[..k], snaplen) + one;
    FlattenAppend(Chains(log[..k], snaplen), one);
    assert one[..0] == [] && Flatten(one) == one[0];
  }

  lemma CurrentIsLogged(c: Setup, w: World)
    requires RingOrder(c, w)
    ensures User(Current(w.s)) ==> w.count < |w.log| && Current(w.s) == w.log[w.count]
  {
    assert Place(w.s.cur, 0, c.blockCount) == w.s.cur;
    assert User(w.s.blocks[Place(w.s.cur, 0, c.blockCount)]) == (0 < Pending(w));
    if User(Current(w.s)) { assert Current(w.s) == w.log[w.count + 0]; }
  }

  lemma YieldTakesOne(block: Bytes, w: Walk, snaplen: nat, delivered: seq<Capture>)
    requires w.remaining > 0 && ParseFrame(block, w.offset, snaplen).Some?
    ensures var f := ParseFrame(block, w.offset, snaplen).value;
            delivered + [CaptureOf(block, f.0)] + FramesFrom(block, NextWalk(w, f.1), snaplen)
            == delivered + FramesFrom(block, w, snaplen)
  {
    var f := ParseFrame(block, w.offset, snaplen).value;
    assert FramesFrom(block, w, snaplen) == [CaptureOf(block, f.0)] + FramesFrom(block, NextWalk(w, f.1), snaplen);
  }

  lemma ReaderKeepsDelivery(c: Setup, w: World)
    requires RingOrder(c, w) && Delivery(c, w)
    ensures Delivery(c, ReaderMoves(c, w))
  {
    CurrentIsLogged(c, w);
    var e := Turn(w.s, c.snaplen).1;
    if e.Freed? {
      OneMoreBlock(w.log, w.count, c.snaplen);
      assert FramesFrom(w.log[w.count], w.s.walk.value, c.snaplen) == [];
    } else if e.Yielded? {
      YieldTakesOne(Current(w.s), w.s.walk.value, c.snaplen, w.delivered);
    }
  }

  lemma KernelKeepsDelivery(c: Setup, w: World, i: nat, bytes: Bytes)
    requires Proper(c, w) && Delivery(c, w) && Allowed(c, w, KernelStep(i, bytes))
    ensures Delivery(c, KernelMoves(c, w, i, bytes))
  {
    assert (w.log + [bytes])[..w.count] == w.log[..w.count];
  }

  lemma {:induction false} RunsKeepDelivery(c: Setup, run: seq<World>, k: nat)
    requires IsRun(c, run, true) && k < |run|
    ensures RingOrder(c, run[k]) && Delivery(c, run[k])
  {
    if k > 0 {
      RunsKeepDelivery(c, run, k - 1);
      var w := run[k - 1];
      assert StepsTo(c, run[k - 1], run[k - 1 + 1], true);
      var step :| Allowed(c, w, step) && InOrder(c, w, step) && run[k] == Do(c, w, step);
      match step
      case KernelStep(i, bytes) =>
        if User(bytes) { HandOverKeepsOrder(c, w, bytes); } else { WriteKeepsOrder(c, w, i, bytes); }
        KernelKeepsDelivery(c, w, i, bytes);
      case ReaderStep =>
        ReaderKeepsOrder(c, w);
        ReaderKeepsDelivery(c, w);
    }
  }

  predicate Prefix<T(==)>(a: seq<T>, b: seq<T>) { |a| <= |b| && a == b[..|a|] }

  /** The packets delivered over any run are a prefix of the frames of the
      blocks handed over, in order: none lost, repeated or reordered. Where the
      reader finds nothing ready, they are all of them and every block handed
      over has been released. */
  lemma {:induction false} DeliveredInOrder(c: Setup, run: seq<World>, k: nat)
    requires IsRun(c, run, true) && k < |run|
    ensures Prefix(run[k].delivered, AllFrames(run[k].log, c.snaplen))
    ensures Proper(c, run[k])
    ensures Turn(run[k].s, c.snaplen).1.NotReady? ==>
            run[k].delivered == AllFrames(run[k].log, c.snaplen) && run[k].count == |run[k].log|
  {
    RunsKeepDelivery(c, run, k);
    var w := run[k];
    assert User(w.s.blocks[Place(w.s.cur, 0, c.blockCount)]) == (0 < Pending(w));
    DeliveredIsPrefix(c, w);
    if Turn(w.s, c.snaplen).1.NotReady? { assert w.log[..w.count] == w.log; }
  }

  lemma {:induction false} DeliveredIsPrefix(c: Setup, w: World)
    requires Delivery(c, w)
    ensures Prefix(w.delivered, AllFrames(w.log, c.snaplen))
  {
    if w.s.walk.None? {
      SplitLog(w.log, w.count, c.snaplen);
      PrefixOf(w.delivered, [], AllFrames(w.log[w.count..], c.snaplen));
    } else {
      SplitLog(w.log, w.count + 1, c.snaplen);
      OneMoreBlock(w.log, w.count, c.snaplen);
      PrefixOf(w.delivered, FramesFrom(w.log[w.count], w.s.walk.value, c.snaplen), AllFrames(w.log[w.count + 1..], c.snaplen));
    }
  }

  lemma SplitLog(log: seq<Bytes>, k: nat, snaplen: nat)
    requires k <= |log|
    ensures AllFrames(log, snaplen) == AllFrames(log[..k], snaplen) + AllFrames(log[k..], snaplen)
  {
    assert log == log[..k] + log[k..];
    AllFramesAppend(log[..k], log[k..], snaplen);
  }

  lemma PrefixOf<T>(a: seq<T>, b: seq<T>, c: seq<T>)
    ensures Prefix(a, (a + b) + c) && a + [] == a
  {
  }
}
