/** Safety of the allocator over every run: a world is the heap together with the blocks
    its clients hold, and every step of every valid run keeps the invariant `Inv`. */
module SlabSafety {
  import opened Arith
  import opened SlabHeap

  // ---- the freelist, read out of memory ----

  /** The first n nodes reached from `head` by following the words of memory. */
  function FreeList(words: Words, head: nat, n: nat): (r: seq<nat>)
    ensures |r| == n
    decreases n
  {
    if n == 0 then [] else [head] + FreeList(words, Load(words, head), n - 1)
  }

  /** The link found after n nodes. */
  function FreeEnd(words: Words, head: nat, n: nat): nat
    decreases n
  {
    if n == 0 then head else FreeEnd(words, Load(words, head), n - 1)
  }

  function BlockAt(start: nat, objSize: nat, i: nat): nat {
    start + i * objSize
  }

  ghost function Pool(start: nat, objSize: nat): set<nat> {
    set i: nat | i < OBJECTS_PER_CLASS :: BlockAt(start, objSize, i)
  }

  ghost function Blocks(s: Slab): set<nat> {
    Pool(s.regionStart, s.objSize)
  }

  ghost predicate NoDup(q: seq<nat>) {
    forall i, j :: 0 <= i < j < |q| ==> q[i] != q[j]
  }

  // ---- the invariant ----

  /** Live blocks: where each begins and what was asked for. */
  type Live = map<nat, Layout>

  datatype World = World(heap: Heap, live: Live)

  ghost predicate SlabInv(s: Slab, words: Words, live: set<nat>) {
    && FreeEnd(words, s.freeHead, s.freeCount) == 0
    && NoDup(FreeList(words, s.freeHead, s.freeCount))
    && (forall a :: a in FreeList(words, s.freeHead, s.freeCount) <==> a in Blocks(s) && a !in live)
  }

  /** The fixed shape of an initialized heap. */
  ghost predicate Shape(h: Heap) {
    && h.initialized
    && 0 < h.heapStart && h.heapStart % 256 == 0
    && h.end == h.heapStart + HEAP_SIZE < USIZE
    && |h.slabs| == CLASSES
    && (forall k :: 0 <= k < CLASSES ==>
          h.slabs[k].objSize == ObjSize(k) && h.slabs[k].total == OBJECTS_PER_CLASS
          && h.slabs[k].regionStart == h.heapStart + RegionOffset(k))
  }

  function BumpBase(h: Heap): nat {
    h.heapStart + SLAB_REGION_BYTES
  }

  ghost predicate InSlab(h: Heap, a: nat) {
    exists k :: 0 <= k < |h.slabs| && a in Blocks(h.slabs[k])
  }

  ghost predicate BumpInv(w: World)
    requires Shape(w.heap)
  {
    && BumpBase(w.heap) <= w.heap.current <= w.heap.end
    && (forall a :: a in w.live && !InSlab(w.heap, a) ==>
          BumpBase(w.heap) <= a && a + w.live[a].size <= w.heap.current)
    && (forall a, b :: a in w.live && b in w.live && a < b && !InSlab(w.heap, a) && !InSlab(w.heap, b) ==>
          a + w.live[a].size <= b)
  }

  ghost predicate LiveInv(w: World)
    requires Shape(w.heap)
  {
    && (forall a :: a in w.live ==> ValidLayout(w.live[a]) && a % w.live[a].align == 0)
    && (forall a, k :: a in w.live && 0 <= k < CLASSES && a in Blocks(w.heap.slabs[k]) ==>
          w.live[a].size <= ObjSize(k) && w.live[a].align <= ObjSize(k))
  }

  ghost predicate Inv(w: World) {
    && Shape(w.heap)
    && SlabsInv(w.heap, w.live.Keys)
    && BumpInv(w)
    && LiveInv(w)
  }

  ghost predicate SlabsInv(h: Heap, live: set<nat>)
    requires Shape(h)
  {
    forall k :: 0 <= k < CLASSES ==> SlabInv(h.slabs[k], h.words, live)
  }

  // ---- geometry of the six pools ----

  lemma Offsets()
    ensures RegionOffset(0) == 0 && RegionOffset(1) == 4096 && RegionOffset(2) == 12288
    ensures RegionOffset(3) == 28672 && RegionOffset(4) == 61440 && RegionOffset(5) == 126976
    ensures RegionOffset(6) == SLAB_REGION_BYTES
  {
    assert RegionOffset(1) == RegionOffset(0) + 4096;
    assert RegionOffset(2) == RegionOffset(1) + 8192;
    assert RegionOffset(3) == RegionOffset(2) + 16384;
    assert RegionOffset(4) == RegionOffset(3) + 32768;
    assert RegionOffset(5) == RegionOffset(4) + 65536;
  }

  /** Every block of class k lies inside the k-th pool, aligned to its size. */
  lemma BlockPlace(h: Heap, k: nat, a: nat)
    requires Shape(h) && k < CLASSES && a in Blocks(h.slabs[k])
    ensures RegionOffset(k + 1) == RegionOffset(k) + 512 * ObjSize(k) <= SLAB_REGION_BYTES
    ensures h.heapStart + RegionOffset(k) <= a
    ensures a + ObjSize(k) <= h.heapStart + RegionOffset(k + 1)
    ensures a % ObjSize(k) == 0
  {
    Offsets();
    var start, size := h.slabs[k].regionStart, h.slabs[k].objSize;
    var i: nat :| i < OBJECTS_PER_CLASS && a == BlockAt(start, size, i);
    Multiples(i, 512, size);
    StartAligned(h.heapStart, k);
    Remainder(start, i, size);
  }

  lemma StartAligned(heapStart: nat, k: nat)
    requires k < CLASSES && heapStart % 256 == 0
    ensures (heapStart + RegionOffset(k)) % ObjSize(k) == 0
  {
    OffsetMultiple(k);
    SizeDivides(k);
    hide RegionOffset, ObjSize;
    assert (heapStart + RegionOffset(k)) % 256 == 0;
    Divides(heapStart + RegionOffset(k), 256, ObjSize(k));
  }

  lemma SizeDivides(k: nat)
    requires k < CLASSES
    ensures 256 % ObjSize(k) == 0
  {
    ObjSizePow2(k);
    ObjSizePow2(5);
    Pow2Divides(ObjSize(k), 256);
  }

  lemma OffsetMultiple(k: nat)
    requires k < CLASSES
    ensures RegionOffset(k) % 256 == 0
  {
    Offsets();
  }

  lemma OffsetsMonotone(j: nat, k: nat)
    requires j <= k <= CLASSES
    ensures RegionOffset(j) <= RegionOffset(k) <= SLAB_REGION_BYTES
  {
    Offsets();
  }

  /** Two different blocks do not overlap, whatever their classes. */
  lemma BlocksApart(h: Heap, j: nat, a: nat, k: nat, b: nat)
    requires Shape(h) && j < CLASSES && k < CLASSES
    requires a in Blocks(h.slabs[j]) && b in Blocks(h.slabs[k]) && (a != b || j != k)
    ensures a + ObjSize(j) <= b || b + ObjSize(k) <= a
  {
    BlockPlace(h, j, a);
    BlockPlace(h, k, b);
    hide RegionOffset;
    if j < k {
      OffsetsMonotone(j + 1, k);
    } else if k < j {
      OffsetsMonotone(k + 1, j);
    } else {
      var m: nat :| m < OBJECTS_PER_CLASS && a == BlockAt(h.slabs[k].regionStart, h.slabs[k].objSize, m);
      var n: nat :| n < OBJECTS_PER_CLASS && b == BlockAt(h.slabs[k].regionStart, h.slabs[k].objSize, n);
      if m < n {
        Multiples(m, n, ObjSize(k));
      } else {
        Multiples(n, m, ObjSize(k));
      }
    }
  }

  /** `owns` asks by address range; it answers for exactly the pool the block is in. */
  lemma OwnsOnlyItsPool(h: Heap, k: nat, j: nat, a: nat)
    requires Shape(h) && k < CLASSES && j < CLASSES && a in Blocks(h.slabs[k])
    ensures Owns(h.slabs[j], a) <==> j == k
  {
    BlockPlace(h, k, a);
    Offsets();
    assert RegionOffset(j + 1) == RegionOffset(j) + 512 * ObjSize(j);
    if j < k {
      OffsetsMonotone(j + 1, k);
    } else if k < j {
      OffsetsMonotone(k + 1, j);
    }
  }

  // ---- lists under updates ----

  /** A write outside the list leaves the list as it was. */
  lemma {:induction false} ListFrame(words: Words, p: nat, v: nat, head: nat, n: nat)
    requires p !in FreeList(words, head, n)
    ensures FreeList(words[p := v], head, n) == FreeList(words, head, n)
    ensures FreeEnd(words[p := v], head, n) == FreeEnd(words, head, n)
    decreases n
  {
    if n > 0 {
      assert FreeList(words, head, n)[0] == head;
      assert forall a :: a in FreeList(words, Load(words, head), n - 1) ==> a in FreeList(words, head, n);
      ListFrame(words, p, v, Load(words, head), n - 1);
    }
  }

  lemma SlabInvFrame(s: Slab, words: Words, p: nat, v: nat, live: set<nat>, live': set<nat>)
    requires SlabInv(s, words, live)
    requires p !in Blocks(s) || p in live
    requires forall a :: a in Blocks(s) ==> (a in live <==> a in live')
    ensures SlabInv(s, words[p := v], live')
  {
    ListFrame(words, p, v, s.freeHead, s.freeCount);
  }

  lemma PopKeeps(s: Slab, words: Words, live: set<nat>)
    requires SlabInv(s, words, live) && s.freeHead != 0 && s.freeCount > 0
    ensures s.freeHead in Blocks(s) && s.freeHead !in live
    ensures SlabInv(SlabAlloc(s, words).0, words, live + {s.freeHead})
  {
    var list := FreeList(words, s.freeHead, s.freeCount);
    var rest := FreeList(words, Load(words, s.freeHead), s.freeCount - 1);
    assert list == [s.freeHead] + rest;
    assert list[0] == s.freeHead;
    assert forall i :: 0 <= i < |rest| ==> rest[i] == list[i + 1];
    assert forall a :: a in rest <==> a in list && a != s.freeHead;
  }

  lemma PushKeeps(s: Slab, words: Words, live: set<nat>, p: nat)
    requires SlabInv(s, words, live) && p in Blocks(s) && p in live
    ensures var (s', words') := SlabDealloc(s, words, p);
      && SlabInv(s', words', live - {p})
      && FreeList(words', s'.freeHead, s'.freeCount) == [p] + FreeList(words, s.freeHead, s.freeCount)
  {
    var (s', words') := SlabDealloc(s, words, p);
    ListFrame(words, p, s.freeHead, s.freeHead, s.freeCount);
    assert Load(words', p) == s.freeHead;
    assert FreeList(words', p, s.freeCount + 1) == [p] + FreeList(words, s.freeHead, s.freeCount);
  }

  // ---- start-up ----

  lemma {:induction false} ThreadedFrame(words: Words, start: nat, objSize: nat, count: nat, n: nat, a: nat)
    requires n <= count && objSize > 0 && (a < start || start + n * objSize <= a)
    ensures Load(Threaded(words, start, objSize, count, n), a) == Load(words, a)
  {
    if n > 0 {
      Multiples(n - 1, n, objSize);
      ThreadedFrame(words, start, objSize, count, n - 1, a);
      assert start + (n - 1) * objSize != a by {
        if n > 1 { Multiples(0, n - 1, objSize); }
      }
    }
  }

  /** Each threaded block points at the next one, and the last one at null. */
  lemma {:induction false} ThreadedLink(words: Words, start: nat, objSize: nat, count: nat, n: nat, i: nat)
    requires i < n <= count && objSize > 0
    ensures Load(Threaded(words, start, objSize, count, n), BlockAt(start, objSize, i))
            == if i + 1 < count then BlockAt(start, objSize, i + 1) else 0
  {
    if i < n - 1 {
      ThreadedLink(words, start, objSize, count, n - 1, i);
      Multiples(i, n - 1, objSize);
    }
  }

  ghost predicate Linked(words: Words, start: nat, objSize: nat) {
    forall j {:trigger BlockAt(start, objSize, j)} :: 0 <= j < OBJECTS_PER_CLASS ==>
      Load(words, BlockAt(start, objSize, j)) == Following(start, objSize, j)
  }

  function Following(start: nat, objSize: nat, j: nat): nat {
    if j + 1 < OBJECTS_PER_CLASS then BlockAt(start, objSize, j + 1) else 0
  }

  /** What following the threaded links from block i visits: blocks i, i+1, ..., in order. */
  lemma {:induction false} ThreadedList(words: Words, start: nat, objSize: nat, i: nat)
    requires i < OBJECTS_PER_CLASS && Linked(words, start, objSize)
    ensures var list := FreeList(words, BlockAt(start, objSize, i), OBJECTS_PER_CLASS - i);
      forall j {:trigger BlockAt(start, objSize, j)} :: i <= j < OBJECTS_PER_CLASS ==> list[j - i] == BlockAt(start, objSize, j)
    ensures FreeEnd(words, BlockAt(start, objSize, i), OBJECTS_PER_CLASS - i) == 0
    decreases OBJECTS_PER_CLASS - i
  {
    var n := OBJECTS_PER_CLASS - i;
    var next := Load(words, BlockAt(start, objSize, i));
    assert next == Following(start, objSize, i);
    if n == 1 {
      assert FreeEnd(words, next, 0) == next;
    } else {
      ThreadedList(words, start, objSize, i + 1);
      var rest := FreeList(words, next, n - 1);
      var list := FreeList(words, BlockAt(start, objSize, i), n);
      assert list == [BlockAt(start, objSize, i)] + rest;
      forall j | i <= j < OBJECTS_PER_CLASS
        ensures list[j - i] == BlockAt(start, objSize, j)
      {
        if j > i {
          assert list[j - i] == rest[j - (i + 1)];
        }
      }
    }
  }

  lemma InitialStep(words: Words, heapStart: nat, n: nat)
    requires 0 < n <= CLASSES
    ensures InitialWords(words, heapStart, n) ==
      Threaded(InitialWords(words, heapStart, n - 1), heapStart + RegionOffset(n - 1), ObjSize(n - 1),
               OBJECTS_PER_CLASS, OBJECTS_PER_CLASS)
  {
  }

  lemma {:induction false} InitialLink(words: Words, heapStart: nat, n: nat, k: nat, i: nat)
    requires k < n <= CLASSES && i < OBJECTS_PER_CLASS
    ensures var start := heapStart + RegionOffset(k);
      Load(InitialWords(words, heapStart, n), BlockAt(start, ObjSize(k), i)) == Following(start, ObjSize(k), i)
  {
    hide InitialWords, Threaded;
    var start := heapStart + RegionOffset(k);
    var before := InitialWords(words, heapStart, n - 1);
    InitialStep(words, heapStart, n);
    if k == n - 1 {
      ThreadedLink(before, start, ObjSize(k), OBJECTS_PER_CLASS, OBJECTS_PER_CLASS, i);
    } else {
      InitialLink(words, heapStart, n - 1, k, i);
      OffsetsMonotone(k + 1, n - 1);
      Multiples(i, OBJECTS_PER_CLASS, ObjSize(k));
      assert RegionOffset(k + 1) == RegionOffset(k) + ObjSize(k) * OBJECTS_PER_CLASS;
      ThreadedFrame(before, heapStart + RegionOffset(n - 1), ObjSize(n - 1), OBJECTS_PER_CLASS,
                    OBJECTS_PER_CLASS, BlockAt(start, ObjSize(k), i));
    }
  }

  lemma InitialSlabInv(words: Words, heapStart: nat, k: nat)
    requires k < CLASSES
    ensures SlabInv(InitialSlab(heapStart, k), InitialWords(words, heapStart, CLASSES), {})
  {
    var s := InitialSlab(heapStart, k);
    var ws := InitialWords(words, heapStart, CLASSES);
    forall i | 0 <= i < OBJECTS_PER_CLASS
      ensures Load(ws, BlockAt(s.regionStart, s.objSize, i)) == Following(s.regionStart, s.objSize, i)
    {
      InitialLink(words, heapStart, CLASSES, k, i);
    }
    LinkedSlabInv(s, ws);
  }

  lemma LinkedSlabInv(s: Slab, words: Words)
    requires s.objSize > 0 && s.freeHead == s.regionStart && s.freeCount == OBJECTS_PER_CLASS
    requires Linked(words, s.regionStart, s.objSize)
    ensures SlabInv(s, words, {})
  {
    hide Linked, Pool, NoDup, FreeEnd, FreeList;
    var start, size := s.regionStart, s.objSize;
    assert BlockAt(start, size, 0) == s.freeHead;
    ThreadedList(words, start, size, 0);
    WholePool(FreeList(words, s.freeHead, s.freeCount), start, size);
  }

  /** A list of all the blocks of a pool, in address order, visits the pool once. */
  lemma WholePool(list: seq<nat>, start: nat, objSize: nat)
    requires objSize > 0 && |list| == OBJECTS_PER_CLASS
    requires forall j {:trigger BlockAt(start, objSize, j)} :: 0 <= j < OBJECTS_PER_CLASS ==>
      list[j - 0] == BlockAt(start, objSize, j)
    ensures NoDup(list)
    ensures forall a :: a in list <==> a in Pool(start, objSize)
  {
    forall i, j | 0 <= i < j < |list|
      ensures list[i] != list[j]
    {
      assert list[i - 0] == BlockAt(start, objSize, i) && list[j - 0] == BlockAt(start, objSize, j);
      Multiples(i, j, objSize);
    }
    forall a | a in list
      ensures a in Pool(start, objSize)
    {
      var i :| 0 <= i < |list| && list[i] == a;
      assert list[i - 0] == BlockAt(start, objSize, i);
    }
    forall a | a in Pool(start, objSize)
      ensures a in list
    {
      var i: nat :| i < OBJECTS_PER_CLASS && a == BlockAt(start, objSize, i);
      assert list[i - 0] == a;
    }
  }

  predicate GoodBase(heapStart: nat) {
    0 < heapStart && heapStart % 256 == 0 && heapStart + HEAP_SIZE < USIZE
  }

  lemma InitInv(words: Words, heapStart: nat, overflowChecks: bool)
    requires GoodBase(heapStart)
    ensures Inv(World(Init(words, heapStart, HEAP_SIZE, overflowChecks), map[]))
  {
    Offsets();
    hide RegionOffset, InitialWords, SlabInv;
    var h := Init(words, heapStart, HEAP_SIZE, overflowChecks);
    var w := World(h, map[]);
    assert w.live.Keys == {};
    assert Shape(h) by {
      assert forall k :: 0 <= k < CLASSES ==> h.slabs[k] == InitialSlab(heapStart, k);
    }
    forall k | 0 <= k < CLASSES
      ensures SlabInv(h.slabs[k], h.words, w.live.Keys)
    {
      InitialSlabInv(words, heapStart, k);
      assert h.slabs[k] == InitialSlab(heapStart, k);
    }
  }

  // ---- allocation ----

  /** Of two powers of two the smaller divides the larger. */
  lemma {:induction false} Pow2Divides(a: nat, b: nat)
    requires IsPow2(a) && IsPow2(b) && a <= b
    ensures b % a == 0
  {
    if a > 1 {
      Pow2Divides(a / 2, b / 2);
      var q := (b / 2) / (a / 2);
      assert b / 2 == (a / 2) * q;
      assert b == q * a;
      MultipleMod(q, a);
    }
  }

  lemma ObjSizePow2(k: nat)
    requires k < CLASSES
    ensures IsPow2(ObjSize(k))
  {
    assert IsPow2(2) && IsPow2(4) && IsPow2(8);
    assert IsPow2(16) && IsPow2(32) && IsPow2(64);
    assert IsPow2(128) && IsPow2(256);
  }

  /** A block whose size is at least a power of two is aligned to it. */
  lemma BlockAligned(h: Heap, k: nat, p: nat, align: nat)
    requires Shape(h) && k < CLASSES && p in Blocks(h.slabs[k]) && IsPow2(align) && align <= ObjSize(k)
    ensures p % align == 0
  {
    BlockPlace(h, k, p);
    ObjSizePow2(k);
    Pow2Divides(align, ObjSize(k));
    Divides(p, ObjSize(k), align);
  }

  lemma HeadsCounted(w: World)
    requires Inv(w)
    ensures Countable(w.heap)
    ensures forall k :: 0 <= k < CLASSES ==> (w.heap.slabs[k].freeHead != 0 <==> w.heap.slabs[k].freeCount > 0)
  {
    forall k | 0 <= k < CLASSES
      ensures w.heap.slabs[k].freeHead != 0 <==> w.heap.slabs[k].freeCount > 0
    {
      var s := w.heap.slabs[k];
      assert SlabInv(s, w.heap.words, w.live.Keys);
      if s.freeCount > 0 {
        assert FreeList(w.heap.words, s.freeHead, s.freeCount)[0] == s.freeHead;
        BlockPlace(w.heap, k, s.freeHead);
      } else {
        assert FreeEnd(w.heap.words, s.freeHead, 0) == s.freeHead;
      }
    }
  }

  /** The first class from k on that fits and has a free block, or one past the last class. */
  lemma {:induction false} FirstFit(h: Heap, l: Layout, k: nat) returns (j: nat)
    requires k <= |h.slabs| && l.align > 0 && Countable(h)
    ensures k <= j <= |h.slabs|
    ensures forall i :: k <= i < j ==> !(Fits(l, h.slabs[i]) && h.slabs[i].freeHead != 0)
    ensures j < |h.slabs| ==> Fits(l, h.slabs[j]) && h.slabs[j].freeHead != 0
    ensures AllocFrom(h, l, k) ==
      if j == |h.slabs| then BumpAlloc(h, l)
      else (h.(slabs := h.slabs[j := SlabAlloc(h.slabs[j], h.words).0]), Ptr(h.slabs[j].freeHead))
    decreases |h.slabs| - k
  {
    if k == |h.slabs| || (Fits(l, h.slabs[k]) && h.slabs[k].freeHead != 0) {
      j := k;
    } else {
      j := FirstFit(h, l, k + 1);
    }
  }

  ghost predicate SlabServes(h: Heap, l: Layout) {
    exists k :: 0 <= k < |h.slabs| && Fits(l, h.slabs[k]) && h.slabs[k].freeCount > 0
  }

  /** Rounding the bump pointer up does not leave the address space unnoticed. */
  ghost predicate NoWrap(h: Heap, l: Layout) {
    h.overflowChecks || SlabServes(h, l) || h.current + l.align - 1 < USIZE
  }

  ghost function AllocWorld(w: World, l: Layout): World
    requires l.align > 0 && Countable(w.heap)
  {
    var (h, o) := Alloc(w.heap, l);
    World(h, if o.Ptr? then w.live[o.addr := l] else w.live)
  }

  lemma RoundedUp(current: nat, align: nat)
    requires align > 0 && current + align - 1 < USIZE
    ensures current <= AlignUp(current, align) < current + align
    ensures AlignUp(current, align) % align == 0
  {
    var x := current + align - 1;
    assert x == align * (x / align) + x % align;
    assert AlignUp(current, align) == (x / align) * align;
    MultipleMod(x / align, align);
  }

  lemma SlabAllocKeeps(w: World, l: Layout, j: nat)
    requires Inv(w) && ValidLayout(l) && j < CLASSES
    requires Fits(l, w.heap.slabs[j]) && w.heap.slabs[j].freeHead != 0 && w.heap.slabs[j].freeCount > 0
    ensures var p := w.heap.slabs[j].freeHead;
      var h' := w.heap.(slabs := w.heap.slabs[j := SlabAlloc(w.heap.slabs[j], w.heap.words).0]);
      && p !in w.live && p in Blocks(w.heap.slabs[j]) && p % l.align == 0
      && Inv(World(h', w.live[p := l]))
  {
    var s, p := w.heap.slabs[j], w.heap.slabs[j].freeHead;
    var h' := w.heap.(slabs := w.heap.slabs[j := SlabAlloc(s, w.heap.words).0]);
    SlabsAfterPop(w.heap, w.live.Keys, j);
    BlockAligned(w.heap, j, p, l.align);
    assert w.live[p := l].Keys == w.live.Keys + {p};
    SamePools(w.heap, h');
    LiveAfterPop(w, h', l, j);
  }

  lemma SlabsAfterPop(h: Heap, live: set<nat>, j: nat)
    requires Shape(h) && SlabsInv(h, live) && j < CLASSES
    requires h.slabs[j].freeHead != 0 && h.slabs[j].freeCount > 0
    ensures var p := h.slabs[j].freeHead;
      var h' := h.(slabs := h.slabs[j := SlabAlloc(h.slabs[j], h.words).0]);
      p !in live && p in Blocks(h.slabs[j]) && SlabsInv(h', live + {p})
  {
    var p := h.slabs[j].freeHead;
    var h' := h.(slabs := h.slabs[j := SlabAlloc(h.slabs[j], h.words).0]);
    assert SlabInv(h.slabs[j], h.words, live);
    PopKeeps(h.slabs[j], h.words, live);
    OnlyPool(h, j, p);
    forall k | 0 <= k < CLASSES
      ensures SlabInv(h'.slabs[k], h'.words, live + {p})
    {
      if k != j {
        assert SlabInv(h.slabs[k], h.words, live);
        MoreLive(h.slabs[k], h.words, live, p);
      }
    }
  }

  lemma MoreLive(s: Slab, words: Words, live: set<nat>, p: nat)
    requires SlabInv(s, words, live) && p !in Blocks(s)
    ensures SlabInv(s, words, live + {p})
  {
  }

  lemma LiveAfterPop(w: World, h': Heap, l: Layout, j: nat)
    requires Shape(w.heap) && BumpInv(w) && LiveInv(w) && ValidLayout(l) && j < CLASSES && Fits(l, w.heap.slabs[j])
    requires Shape(h') && h'.heapStart == w.heap.heapStart && h'.current == w.heap.current && h'.end == w.heap.end
    requires forall k :: 0 <= k < CLASSES ==> Blocks(h'.slabs[k]) == Blocks(w.heap.slabs[k])
    requires forall a :: InSlab(h', a) <==> InSlab(w.heap, a)
    requires w.heap.slabs[j].freeHead in Blocks(w.heap.slabs[j]) && w.heap.slabs[j].freeHead % l.align == 0
    ensures var w' := World(h', w.live[w.heap.slabs[j].freeHead := l]); BumpInv(w') && LiveInv(w')
  {
    assert BumpInv(World(h', w.live[w.heap.slabs[j].freeHead := l])) by {
      hide Blocks, LiveInv;
      assert InSlab(h', w.heap.slabs[j].freeHead);
    }
    assert LiveInv(World(h', w.live[w.heap.slabs[j].freeHead := l])) by {
      OnlyPool(w.heap, j, w.heap.slabs[j].freeHead);
      hide Blocks, InSlab, BumpInv;
    }
  }

  /** A block belongs to one pool only. */
  lemma OnlyPool(h: Heap, j: nat, p: nat)
    requires Shape(h) && j < CLASSES && p in Blocks(h.slabs[j])
    ensures forall k :: 0 <= k < CLASSES && k != j ==> p !in Blocks(h.slabs[k])
  {
    forall k | 0 <= k < CLASSES && k != j
      ensures p !in Blocks(h.slabs[k])
    {
      if p in Blocks(h.slabs[k]) { BlocksApart(h, j, p, k, p); }
    }
  }

  lemma SamePools(h: Heap, h': Heap)
    requires Shape(h) && Shape(h') && h.heapStart == h'.heapStart
    ensures forall k :: 0 <= k < CLASSES ==> Blocks(h'.slabs[k]) == Blocks(h.slabs[k])
    ensures forall a :: InSlab(h', a) <==> InSlab(h, a)
  {
    assert forall k :: 0 <= k < CLASSES ==> Blocks(h'.slabs[k]) == Blocks(h.slabs[k]);
  }

  lemma SlabBelowBump(h: Heap, a: nat)
    requires Shape(h) && InSlab(h, a)
    ensures h.heapStart <= a < BumpBase(h)
  {
    var k :| 0 <= k < CLASSES && a in Blocks(h.slabs[k]);
    BlockPlace(h, k, a);
    OffsetsMonotone(k + 1, CLASSES);
    OffsetsMonotone(0, k);
  }

  lemma BumpAllocKeeps(w: World, l: Layout)
    requires Inv(w) && ValidLayout(l)
    requires w.heap.current + l.align - 1 < USIZE
    ensures var (h', o) := BumpAlloc(w.heap, l);
      && (o == Null <==> AlignUp(w.heap.current, l.align) + l.size > w.heap.end)
      && (o == Null ==> h' == w.heap)
      && (o != Null ==>
            && o.Ptr? && o.addr !in w.live && o.addr % l.align == 0
            && w.heap.current <= o.addr && o.addr + l.size <= w.heap.end
            && Inv(World(h', w.live[o.addr := l])))
  {
    RoundedUp(w.heap.current, l.align);
    var (h', o) := BumpAlloc(w.heap, l);
    if o != Null {
      var p := o.addr;
      SamePools(w.heap, h');
      if InSlab(w.heap, p) { SlabBelowBump(w.heap, p); }
      SlabsUntouched(w.heap, h', w.live.Keys, p);
      assert w.live[p := l].Keys == w.live.Keys + {p};
      BumpGrows(w, h', p, l);
    }
  }

  lemma SlabsUntouched(h: Heap, h': Heap, live: set<nat>, p: nat)
    requires Shape(h) && SlabsInv(h, live) && Shape(h') && h'.slabs == h.slabs && h'.words == h.words
    requires !InSlab(h, p)
    ensures SlabsInv(h', live + {p})
  {
    forall k | 0 <= k < CLASSES
      ensures SlabInv(h'.slabs[k], h'.words, live + {p})
    {
      assert SlabInv(h.slabs[k], h.words, live);
      MoreLive(h.slabs[k], h.words, live, p);
    }
  }

  lemma BumpGrows(w: World, h': Heap, p: nat, l: Layout)
    requires Shape(w.heap) && BumpInv(w) && LiveInv(w) && ValidLayout(l) && !InSlab(w.heap, p) && p % l.align == 0
    requires Shape(h') && h'.heapStart == w.heap.heapStart
    requires forall k :: 0 <= k < CLASSES ==> Blocks(h'.slabs[k]) == Blocks(w.heap.slabs[k])
    requires forall a :: InSlab(h', a) <==> InSlab(w.heap, a)
    requires w.heap.current <= p && p + l.size == h'.current <= h'.end
    ensures p !in w.live
    ensures var w' := World(h', w.live[p := l]); BumpInv(w') && LiveInv(w')
  {
    assert forall k :: 0 <= k < CLASSES && p in Blocks(h'.slabs[k]) ==> InSlab(w.heap, p);
  }
}
