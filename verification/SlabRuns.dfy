/** The main theorems about the allocator: what one call promises, what every valid run
    keeps, and exactly when rounding the bump pointer up stays safe. */
module SlabRuns {
  import opened Arith
  import opened SlabHeap
  import opened SlabSafety

  /** Class k is the smallest that fits and has a free block. */
  ghost predicate FirstServing(h: Heap, l: Layout, k: nat) {
    && k < |h.slabs| && Fits(l, h.slabs[k]) && h.slabs[k].freeCount > 0
    && forall i :: 0 <= i < k ==> !(Fits(l, h.slabs[i]) && h.slabs[i].freeCount > 0)
  }

  /** The smallest class that fits and is not empty is the one that serves. */
  lemma SmallestServes(w: World, l: Layout, k: nat)
    requires Inv(w) && ValidLayout(l) && FirstServing(w.heap, l, k)
    ensures Countable(w.heap)
    ensures var o := Alloc(w.heap, l).1; o.Ptr? && o.addr in Blocks(w.heap.slabs[k])
  {
    HeadsCounted(w);
    var j := FirstFit(w.heap, l, 0);
    assert j == k;
    SlabAllocKeeps(w, l, j);
  }

  /** A grant from a class is the head of its list, and takes the head off; no other class, no word of
      memory and not the bump pointer changes. */
  lemma SlabGrant(w: World, l: Layout, k: nat)
    requires Inv(w) && ValidLayout(l) && FirstServing(w.heap, l, k)
    ensures Countable(w.heap)
    ensures var (h', o) := Alloc(w.heap, l);
      var list := ListIn(w.heap, k);
      && list != [] && o == Ptr(list[0])
      && |h'.slabs| == |w.heap.slabs| && ListIn(h', k) == list[1..] && h'.slabs[k].freeCount == |list| - 1
      && (forall i :: 0 <= i < |h'.slabs| && i != k ==>
            h'.slabs[i] == w.heap.slabs[i] && ListIn(h', i) == ListIn(w.heap, i))
      && h'.words == w.heap.words && h'.current == w.heap.current && h'.end == w.heap.end
  {
    HeadsCounted(w);
    var j := FirstFit(w.heap, l, 0);
    assert j == k;
    var list := ListIn(w.heap, k);
    assert list == [w.heap.slabs[k].freeHead]
                   + FreeList(w.heap.words, Load(w.heap.words, w.heap.slabs[k].freeHead), |list| - 1);
  }

  lemma SameMultiple(a: nat, b: nat, d: nat)
    requires d > 0 && a % d == 0 && b % d == 0 && a < b + d && b < a + d
    ensures a == b
  {
    var m, n := a / d, b / d;
    assert a == d * m && b == d * n;
    if m < n {
      Multiples(m, n, d);
    } else if n < m {
      Multiples(n, m, d);
    }
  }

  /** When no class serves: the grant is the first aligned address p at or past the bump pointer, and the
      pointer moves just past what was asked for; or nothing is granted if that does not fit. */
  lemma BumpGrant(w: World, l: Layout, p: nat)
    requires Inv(w) && ValidLayout(l) && !SlabServes(w.heap, l) && w.heap.current + l.align - 1 < USIZE
    requires p % l.align == 0 && w.heap.current <= p < w.heap.current + l.align
    ensures Countable(w.heap)
    ensures Alloc(w.heap, l) ==
      if p + l.size <= w.heap.end then (w.heap.(current := p + l.size), Ptr(p)) else (w.heap, Null)
  {
    HeadsCounted(w);
    var j := FirstFit(w.heap, l, 0);
    assert j == |w.heap.slabs|;
    RoundedUp(w.heap.current, l.align);
    SameMultiple(AlignUp(w.heap.current, l.align), p, l.align);
  }

  /** Before start-up there is nothing to allocate. */
  lemma NothingBeforeInit(h: Heap, l: Layout)
    requires !h.initialized && l.align > 0 && Countable(h)
    ensures Alloc(h, l) == (h, Null)
  {
  }

  /** The allocation contract. A pointer is new, aligned, inside the heap and inside a class
      that fits or past the bump pointer; a null means every fitting class is empty and the
      bump tail is too small; only a trapped overflow is left. */
  lemma AllocContract(w: World, l: Layout)
    requires Inv(w) && ValidLayout(l) && NoWrap(w.heap, l)
    ensures Countable(w.heap)
    ensures var (h', o) := Alloc(w.heap, l);
      && (o.Ptr? ==>
            && o.addr != 0 && o.addr !in w.live && o.addr % l.align == 0
            && w.heap.heapStart <= o.addr && o.addr + l.size <= w.heap.end
            && (InSlab(w.heap, o.addr) <==> SlabServes(w.heap, l)))
      && (o == Null <==>
            && !SlabServes(w.heap, l) && w.heap.current + l.align - 1 < USIZE
            && AlignUp(w.heap.current, l.align) + l.size > w.heap.end)
      && (!o.Ptr? ==> h' == w.heap)
    ensures Inv(AllocWorld(w, l))
  {
    HeadsCounted(w);
    var j := FirstFit(w.heap, l, 0);
    if j < CLASSES {
      SlabAllocKeeps(w, l, j);
      var p := w.heap.slabs[j].freeHead;
      assert InSlab(w.heap, p);
      SlabBelowBump(w.heap, p);
      BlockPlace(w.heap, j, p);
      OffsetsMonotone(j + 1, CLASSES);
      assert SlabServes(w.heap, l);
    } else {
      assert !SlabServes(w.heap, l);
      if w.heap.current + l.align - 1 < USIZE {
        BumpAllocKeeps(w, l);
        var (h', o) := BumpAlloc(w.heap, l);
        if o.Ptr? && InSlab(w.heap, o.addr) {
          SlabBelowBump(w.heap, o.addr);
        }
      }
    }
  }

  /** An allocation that rounds past the end of the address space without being caught
      answers null and yet moves the bump pointer below the heap. */
  lemma WrappedAlloc(w: World, l: Layout)
    requires Inv(w) && ValidLayout(l) && !NoWrap(w.heap, l)
    ensures Countable(w.heap)
    ensures Alloc(w.heap, l) == (w.heap.(current := l.size), Null)
    ensures l.size < w.heap.heapStart
    ensures !Inv(AllocWorld(w, l))
  {
    HeadsCounted(w);
    var j := FirstFit(w.heap, l, 0);
    assert j == |w.heap.slabs|;
    WrapsToZero(w.heap.current, l.align);
  }

  lemma WrapsToZero(current: nat, align: nat)
    requires current < USIZE && align < USIZE && current + align - 1 >= USIZE
    ensures align > 0 && AlignUp(current, align) == 0
  {
    var y := current + align - 1;
    assert y % USIZE == y - USIZE;
    SmallMod(y - USIZE, align);
  }

  /** Allocation keeps the allocator safe if and only if rounding up does not wrap unnoticed. */
  lemma AllocSafeIff(w: World, l: Layout)
    requires Inv(w) && ValidLayout(l)
    ensures Countable(w.heap)
    ensures Inv(AllocWorld(w, l)) <==> NoWrap(w.heap, l)
  {
    HeadsCounted(w);
    if NoWrap(w.heap, l) {
      AllocContract(w, l);
    } else {
      WrappedAlloc(w, l);
    }
  }

  /** A request that does wrap: a heap in the upper half of the address space and a 2^48-byte
      alignment, which no class offers. */
  lemma WrapExample(words: Words, heapStart: nat, l: Layout)
    requires heapStart == 0xFFFF_8000_0000_0000 && l == Layout(1, 0x1_0000_0000_0000)
    ensures ValidLayout(l)
    ensures var w := Start(words, heapStart, false); Inv(w) && Countable(w.heap) && !Inv(AllocWorld(w, l))
  {
    var w := Start(words, heapStart, false);
    InitInv(words, heapStart, false);
    assert IsPow2(l.align) by { Pow2Of48(); }
    NothingServes(w.heap, l);
    AllocSafeIff(w, l);
  }

  lemma NothingServes(h: Heap, l: Layout)
    requires Shape(h) && l.align > 256
    ensures !SlabServes(h, l)
  {
  }

  lemma {:induction false} Pow2Product(a: nat, b: nat)
    requires IsPow2(a) && IsPow2(b)
    ensures a * b > 0 && IsPow2(a * b)
  {
    if a > 1 {
      Pow2Product(a / 2, b);
      var c := (a / 2) * b;
      assert a * b == 2 * c;
      assert (a * b) / 2 == c && (a * b) % 2 == 0;
    }
  }

  lemma Pow2Of48()
    ensures IsPow2(0x1_0000_0000_0000)
  {
    ObjSizePow2(5);
    Pow2Product(256, 256);
    Pow2Product(0x1_0000, 0x1_0000);
    Pow2Product(0x1_0000_0000, 0x1_0000);
  }

  // ---- deallocation ----

  /** Class k's freelist as it stands in memory. */
  function ListIn(h: Heap, k: nat): seq<nat>
    requires k < |h.slabs|
  {
    FreeList(h.words, h.slabs[k].freeHead, h.slabs[k].freeCount)
  }

  ghost function DeallocWorld(w: World, p: nat): World {
    World(Dealloc(w.heap, p), w.live - {p})
  }

  lemma {:induction false} OwnerFound(h: Heap, p: nat, k: nat, j: nat)
    requires k <= j <= |h.slabs|
    requires forall i :: k <= i < j ==> !Owns(h.slabs[i], p)
    requires j < |h.slabs| ==> Owns(h.slabs[j], p)
    ensures DeallocFrom(h, p, k) ==
      if j == |h.slabs| then h
      else h.(slabs := h.slabs[j := SlabDealloc(h.slabs[j], h.words, p).0], words := h.words[p := h.slabs[j].freeHead])
    decreases j - k
  {
    if k < j {
      OwnerFound(h, p, k + 1, j);
    }
  }

  /** Freeing a slab block puts it at the head of the list of the class whose pool it lies in,
      whatever the size that was asked for, and touches no other class's list. */
  lemma DeallocSlab(w: World, p: nat, j: nat)
    requires Inv(w) && p in w.live && j < CLASSES && p in Blocks(w.heap.slabs[j])
    ensures var h' := Dealloc(w.heap, p);
      && |h'.slabs| == CLASSES
      && ListIn(h', j) == [p] + ListIn(w.heap, j)
      && (forall k :: 0 <= k < CLASSES && k != j ==>
            h'.slabs[k] == w.heap.slabs[k] && ListIn(h', k) == ListIn(w.heap, k))
      && h'.current == w.heap.current
    ensures Inv(DeallocWorld(w, p))
  {
    OwnerIs(w.heap, p, j);
    var h' := Dealloc(w.heap, p);
    assert w.live.Keys - {p} == (w.live - {p}).Keys;
    SlabsAfterPush(w.heap, w.live.Keys, p, j);
    SamePools(w.heap, h');
    LiveAfterFree(w, h', p);
  }

  lemma OwnerIs(h: Heap, p: nat, j: nat)
    requires Shape(h) && j < CLASSES && p in Blocks(h.slabs[j])
    ensures Dealloc(h, p) ==
      h.(slabs := h.slabs[j := SlabDealloc(h.slabs[j], h.words, p).0], words := h.words[p := h.slabs[j].freeHead])
  {
    forall i | 0 <= i < CLASSES
      ensures Owns(h.slabs[i], p) <==> i == j
    {
      OwnsOnlyItsPool(h, j, i, p);
    }
    OwnerFound(h, p, 0, j);
  }

  lemma SlabsAfterPush(h: Heap, live: set<nat>, p: nat, j: nat)
    requires Shape(h) && SlabsInv(h, live) && j < CLASSES && p in Blocks(h.slabs[j]) && p in live
    ensures var h' :=
        h.(slabs := h.slabs[j := SlabDealloc(h.slabs[j], h.words, p).0], words := h.words[p := h.slabs[j].freeHead]);
      && Shape(h') && SlabsInv(h', live - {p})
      && ListIn(h', j) == [p] + ListIn(h, j)
      && (forall k :: 0 <= k < CLASSES && k != j ==> h'.slabs[k] == h.slabs[k] && ListIn(h', k) == ListIn(h, k))
  {
    var h' :=
      h.(slabs := h.slabs[j := SlabDealloc(h.slabs[j], h.words, p).0], words := h.words[p := h.slabs[j].freeHead]);
    assert SlabInv(h.slabs[j], h.words, live);
    PushKeeps(h.slabs[j], h.words, live, p);
    OnlyPool(h, j, p);
    forall k | 0 <= k < CLASSES
      ensures SlabInv(h'.slabs[k], h'.words, live - {p})
      ensures k != j ==> ListIn(h', k) == ListIn(h, k)
    {
      var s := h.slabs[k];
      if k != j {
        assert SlabInv(s, h.words, live);
        SlabInvFrame(s, h.words, p, h.slabs[j].freeHead, live, live - {p});
        ListFrame(h.words, p, h.slabs[j].freeHead, s.freeHead, s.freeCount);
      }
    }
  }

  lemma LiveAfterFree(w: World, h': Heap, p: nat)
    requires Shape(w.heap) && BumpInv(w) && LiveInv(w)
    requires Shape(h') && h'.heapStart == w.heap.heapStart && h'.current == w.heap.current
    requires forall k :: 0 <= k < CLASSES ==> Blocks(h'.slabs[k]) == Blocks(w.heap.slabs[k])
    requires forall a :: InSlab(h', a) <==> InSlab(w.heap, a)
    ensures BumpInv(World(h', w.live - {p})) && LiveInv(World(h', w.live - {p}))
  {
  }

  /** Freeing a bump block forgets it and changes nothing else. */
  lemma DeallocBump(w: World, p: nat)
    requires Inv(w) && p in w.live && !InSlab(w.heap, p)
    ensures Dealloc(w.heap, p) == w.heap && Inv(DeallocWorld(w, p))
  {
    Offsets();
    assert BumpBase(w.heap) <= p;
    forall i | 0 <= i < CLASSES
      ensures !Owns(w.heap.slabs[i], p)
    {
      OffsetsMonotone(i + 1, CLASSES);
      assert RegionOffset(i + 1) == RegionOffset(i) + 512 * ObjSize(i);
    }
    OwnerFound(w.heap, p, 0, CLASSES);
    assert w.live.Keys - {p} == (w.live - {p}).Keys;
    SlabsForget(w.heap, w.live.Keys, p);
    LiveAfterFree(w, w.heap, p);
  }

  lemma SlabsForget(h: Heap, live: set<nat>, p: nat)
    requires Shape(h) && SlabsInv(h, live) && !InSlab(h, p)
    ensures SlabsInv(h, live - {p})
  {
    forall k | 0 <= k < CLASSES
      ensures SlabInv(h.slabs[k], h.words, live - {p})
    {
      assert SlabInv(h.slabs[k], h.words, live);
      FewerLive(h.slabs[k], h.words, live, p);
    }
  }

  lemma FewerLive(s: Slab, words: Words, live: set<nat>, p: nat)
    requires SlabInv(s, words, live) && p !in Blocks(s)
    ensures SlabInv(s, words, live - {p})
  {
  }

  // ---- what the clients do with their memory ----

  /** The bytes a live block may use: a slab block's whole object, or what was asked of the bump region. */
  ghost function Extent(w: World, p: nat): nat
    requires p in w.live
  {
    if InSlab(w.heap, p) then
      var k :| 0 <= k < |w.heap.slabs| && p in Blocks(w.heap.slabs[k]); w.heap.slabs[k].objSize
    else w.live[p].size
  }

  lemma ExtentOf(w: World, p: nat, k: nat)
    requires Inv(w) && p in w.live && k < CLASSES && p in Blocks(w.heap.slabs[k])
    ensures Extent(w, p) == ObjSize(k) >= w.live[p].size
  {
    assert InSlab(w.heap, p);
    OnlyPool(w.heap, k, p);
  }

  /** A client may change the word at a if it overlaps the block at p. */
  ghost predicate MayWrite(w: World, p: nat, a: nat) {
    p in w.live && a % 8 == 0 && a < p + Extent(w, p) && p < a + 8
  }

  ghost function WriteWorld(w: World, a: nat, v: nat): World {
    w.(heap := w.heap.(words := w.heap.words[a := v]))
  }

  lemma BlockWordAligned(h: Heap, k: nat, p: nat)
    requires Shape(h) && k < CLASSES && p in Blocks(h.slabs[k])
    ensures p % 8 == 0
  {
    ObjSizePow2(k);
    assert IsPow2(2) && IsPow2(4) && IsPow2(8);
    BlockAligned(h, k, p, 8);
  }

  /** No word a client may change is the first word of a free block. */
  lemma WriteMissesFree(w: World, p: nat, a: nat, k: nat)
    requires Inv(w) && MayWrite(w, p, a) && k < CLASSES && a in Blocks(w.heap.slabs[k])
    ensures a in w.live
  {
    if a !in w.live {
      BlockPlace(w.heap, k, a);
      OffsetsMonotone(k + 1, CLASSES);
      if InSlab(w.heap, p) {
        var j :| 0 <= j < CLASSES && p in Blocks(w.heap.slabs[j]);
        ExtentOf(w, p, j);
        BlockWordAligned(w.heap, j, p);
        BlocksApart(w.heap, j, p, k, a);
      }
    }
  }

  /** No write by a client disturbs any freelist. */
  lemma WriteKeeps(w: World, p: nat, a: nat, v: nat)
    requires Inv(w) && MayWrite(w, p, a)
    ensures Inv(WriteWorld(w, a, v))
    ensures forall k :: 0 <= k < CLASSES ==> ListIn(WriteWorld(w, a, v).heap, k) == ListIn(w.heap, k)
  {
    var w' := WriteWorld(w, a, v);
    forall k | 0 <= k < CLASSES
      ensures SlabInv(w'.heap.slabs[k], w'.heap.words, w'.live.Keys)
      ensures ListIn(w'.heap, k) == ListIn(w.heap, k)
    {
      var s := w.heap.slabs[k];
      assert SlabInv(s, w.heap.words, w.live.Keys);
      if a in Blocks(s) {
        WriteMissesFree(w, p, a, k);
      }
      SlabInvFrame(s, w.heap.words, a, v, w.live.Keys, w.live.Keys);
      ListFrame(w.heap.words, a, v, s.freeHead, s.freeCount);
    }
    SamePools(w.heap, w'.heap);
  }

  // ---- runs ----

  datatype Op = DoAlloc(layout: Layout) | DoDealloc(ptr: nat) | DoWrite(block: nat, addr: nat, value: nat)

  /** What the allocator's callers owe: sensible layouts, frees of live blocks, writes inside live blocks. */
  ghost predicate Allowed(w: World, op: Op) {
    match op
    case DoAlloc(l) => ValidLayout(l) && NoWrap(w.heap, l)
    case DoDealloc(p) => p in w.live
    case DoWrite(p, a, _) => MayWrite(w, p, a)
  }

  /** A count running below zero would be stuck; `HeadsCounted` shows it never does. */
  ghost function Step(w: World, op: Op): World {
    match op
    case DoAlloc(l) => if l.align > 0 && Countable(w.heap) then AllocWorld(w, l) else w
    case DoDealloc(p) => DeallocWorld(w, p)
    case DoWrite(_, a, v) => WriteWorld(w, a, v)
  }

  lemma StepKeeps(w: World, op: Op)
    requires Inv(w) && Allowed(w, op)
    ensures Inv(Step(w, op))
    ensures Step(w, op).heap.heapStart == w.heap.heapStart
  {
    match op
    case DoAlloc(l) =>
      HeadsCounted(w);
      AllocContract(w, l);
      var j := FirstFit(w.heap, l, 0);
    case DoDealloc(p) =>
      if InSlab(w.heap, p) {
        var j :| 0 <= j < CLASSES && p in Blocks(w.heap.slabs[j]);
        DeallocSlab(w, p, j);
        OwnerIs(w.heap, p, j);
      } else {
        DeallocBump(w, p);
      }
    case DoWrite(p, a, v) =>
      WriteKeeps(w, p, a, v);
  }

  /** A run that starts in w and ends in w'. */
  ghost predicate Run(w: World, ops: seq<Op>, w': World)
    decreases |ops|
  {
    if ops == [] then w' == w
    else Allowed(w, ops[0]) && Run(Step(w, ops[0]), ops[1..], w')
  }

  ghost function Start(words: Words, heapStart: nat, overflowChecks: bool): World {
    World(Init(words, heapStart, HEAP_SIZE, overflowChecks), map[])
  }

  /** What a run is granted from the bump region: where, how much was skipped to align it, and the size. */
  datatype Grant = Grant(addr: nat, padding: int, layout: Layout)

  ghost function GrantOf(w: World, op: Op): seq<Grant> {
    match op
    case DoAlloc(l) =>
      if l.align > 0 && Countable(w.heap) && !SlabServes(w.heap, l) && Alloc(w.heap, l).1.Ptr?
      then [Grant(Alloc(w.heap, l).1.addr, Alloc(w.heap, l).1.addr - w.heap.current, l)]
      else []
    case _ => []
  }

  ghost function BumpGrants(w: World, ops: seq<Op>): seq<Grant>
    decreases |ops|
  {
    if ops == [] then [] else GrantOf(w, ops[0]) + BumpGrants(Step(w, ops[0]), ops[1..])
  }

  function TotalOf(grants: seq<Grant>): int {
    if grants == [] then 0 else grants[0].padding + grants[0].layout.size + TotalOf(grants[1..])
  }

  predicate Tight(g: Grant) {
    g.layout.align > 0 && g.addr % g.layout.align == 0 && 0 <= g.padding < g.layout.align
  }

  lemma StepSpends(w: World, op: Op)
    requires Inv(w) && Allowed(w, op)
    ensures Step(w, op).heap.current == w.heap.current + TotalOf(GrantOf(w, op))
    ensures forall i :: 0 <= i < |GrantOf(w, op)| ==> Tight(GrantOf(w, op)[i])
  {
    match op
    case DoAlloc(l) =>
      HeadsCounted(w);
      if SlabServes(w.heap, l) {
        var k :| 0 <= k < |w.heap.slabs| && Fits(l, w.heap.slabs[k]) && w.heap.slabs[k].freeCount > 0;
        var j := FirstFit(w.heap, l, 0);
        SlabGrant(w, l, j);
      } else if w.heap.current + l.align - 1 < USIZE {
        RoundedUp(w.heap.current, l.align);
        BumpGrant(w, l, AlignUp(w.heap.current, l.align));
        if GrantOf(w, op) != [] { assert GrantOf(w, op)[1..] == []; }
      } else {
        var j := FirstFit(w.heap, l, 0);
      }
    case DoDealloc(p) =>
      if InSlab(w.heap, p) {
        var j :| 0 <= j < CLASSES && p in Blocks(w.heap.slabs[j]);
        DeallocSlab(w, p, j);
      } else {
        DeallocBump(w, p);
      }
    case DoWrite(p, a, v) =>
  }

  lemma {:induction false} TotalConcat(a: seq<Grant>, b: seq<Grant>)
    ensures TotalOf(a + b) == TotalOf(a) + TotalOf(b)
  {
    if a == [] {
      assert a + b == b;
    } else {
      assert (a + b)[0] == a[0] && (a + b)[1..] == a[1..] + b;
      TotalConcat(a[1..], b);
    }
  }

  lemma {:induction false} RunSpends(w: World, ops: seq<Op>, w': World)
    requires Inv(w) && Run(w, ops, w')
    ensures w'.heap.current == w.heap.current + TotalOf(BumpGrants(w, ops))
    ensures forall i :: 0 <= i < |BumpGrants(w, ops)| ==> Tight(BumpGrants(w, ops)[i])
    decreases |ops|
  {
    hide Inv, Step, Allowed, GrantOf, Tight;
    if ops != [] {
      StepKeeps(w, ops[0]);
      StepSpends(w, ops[0]);
      RunSpends(Step(w, ops[0]), ops[1..], w');
      TotalConcat(GrantOf(w, ops[0]), BumpGrants(Step(w, ops[0]), ops[1..]));
    }
  }

  lemma {:induction false} RunKeeps(w: World, ops: seq<Op>, w': World)
    requires Inv(w) && Run(w, ops, w')
    ensures Inv(w') && w'.heap.heapStart == w.heap.heapStart
    decreases |ops|
  {
    hide Inv, Step, Allowed;
    if ops != [] {
      StepKeeps(w, ops[0]);
      RunKeeps(Step(w, ops[0]), ops[1..], w');
    }
  }

  /** A fresh heap: the six pools begin where the heap does and lie one behind the other, each list visits
      its pool in address order, and nothing of the bump region behind them is used. */
  lemma FreshHeap(words: Words, heapStart: nat, overflowChecks: bool)
    requires GoodBase(heapStart)
    ensures var h := Start(words, heapStart, overflowChecks).heap;
      && |h.slabs| == 6 && h.end == heapStart + 0x100_0000
      && h.current == heapStart + 512 * (8 + 16 + 32 + 64 + 128 + 256) && BumpUsed(h) == 0
      && h.slabs[0].regionStart == heapStart
      && (forall k :: 0 <= k < 6 ==> |ListIn(h, k)| == 512 && h.slabs[k].objSize == [8, 16, 32, 64, 128, 256][k])
      && (forall k :: 0 <= k < 5 ==> h.slabs[k + 1].regionStart == h.slabs[k].regionStart + 512 * h.slabs[k].objSize)
      && (forall k, i :: 0 <= k < 6 && 0 <= i < 512 ==>
            ListIn(h, k)[i] == BlockAt(h.slabs[k].regionStart, h.slabs[k].objSize, i))
  {
    Offsets();
    hide RegionOffset, InitialWords;
    var h := Start(words, heapStart, overflowChecks).heap;
    forall k | 0 <= k < 6
      ensures h.slabs[k] == InitialSlab(heapStart, k) && |ListIn(h, k)| == 512
      ensures forall i :: 0 <= i < 512 ==> ListIn(h, k)[i] == BlockAt(h.slabs[k].regionStart, h.slabs[k].objSize, i)
    {
      FreshList(words, heapStart, k);
    }
  }

  lemma FreshList(words: Words, heapStart: nat, k: nat)
    requires k < CLASSES
    ensures var s := InitialSlab(heapStart, k);
      var list := FreeList(InitialWords(words, heapStart, CLASSES), s.freeHead, 512);
      |list| == 512 && forall i :: 0 <= i < 512 ==> list[i] == BlockAt(s.regionStart, s.objSize, i)
  {
    hide FreeList, InitialWords, RegionOffset, Linked, BlockAt;
    var s, ws := InitialSlab(heapStart, k), InitialWords(words, heapStart, CLASSES);
    FreshLinks(words, heapStart, k);
    ListOfLinks(ws, s.regionStart, s.objSize);
    assert BlockAt(s.regionStart, s.objSize, 0) == s.freeHead by { FirstBlock(s.regionStart, s.objSize); }
  }

  lemma FirstBlock(start: nat, objSize: nat)
    ensures BlockAt(start, objSize, 0) == start
  {
  }

  lemma FreshLinks(words: Words, heapStart: nat, k: nat)
    requires k < CLASSES
    ensures Linked(InitialWords(words, heapStart, CLASSES), InitialSlab(heapStart, k).regionStart, ObjSize(k))
  {
    hide InitialWords, RegionOffset, BlockAt, Following;
    var ws, start := InitialWords(words, heapStart, CLASSES), heapStart + RegionOffset(k);
    forall i | 0 <= i < OBJECTS_PER_CLASS
      ensures Load(ws, BlockAt(start, ObjSize(k), i)) == Following(start, ObjSize(k), i)
    {
      InitialLink(words, heapStart, CLASSES, k, i);
    }
  }

  lemma ListOfLinks(words: Words, start: nat, objSize: nat)
    requires Linked(words, start, objSize)
    ensures var list := FreeList(words, BlockAt(start, objSize, 0), 512);
      |list| == 512 && forall i :: 0 <= i < 512 ==> list[i] == BlockAt(start, objSize, i)
  {
    hide FreeList, Linked, BlockAt;
    ThreadedList(words, start, objSize, 0);
    var list := FreeList(words, BlockAt(start, objSize, 0), 512);
    assert forall i :: 0 <= i < 512 ==> list[i - 0] == BlockAt(start, objSize, i);
  }

  /** The bump region over every run from start-up: what is used is the sizes granted from it and the
      padding that aligned them, each less than its alignment; so a null answer means that these and the
      request really do not fit the capacity. */
  lemma BumpUsedIsGranted(words: Words, heapStart: nat, overflowChecks: bool, ops: seq<Op>, w: World)
    requires GoodBase(heapStart) && Run(Start(words, heapStart, overflowChecks), ops, w)
    ensures var grants := BumpGrants(Start(words, heapStart, overflowChecks), ops);
      && BumpUsed(w.heap) == TotalOf(grants)
      && (forall i :: 0 <= i < |grants| ==> Tight(grants[i]))
      && Inv(w) && BumpCapacity(w.heap) == 0x100_0000 - 512 * (8 + 16 + 32 + 64 + 128 + 256)
    ensures forall l: Layout :: ValidLayout(l) && NoWrap(w.heap, l) && Countable(w.heap) && Alloc(w.heap, l).1 == Null ==>
      TotalOf(BumpGrants(Start(words, heapStart, overflowChecks), ops)) + l.size + l.align - 1 > BumpCapacity(w.heap)
  {
    hide Inv, Tight, BumpGrants, Run, SlabHeap.Init, SlabHeap.Alloc;
    var start := Start(words, heapStart, overflowChecks);
    InitInv(words, heapStart, overflowChecks);
    FreshHeap(words, heapStart, overflowChecks);
    RunKeeps(start, ops, w);
    RunSpends(start, ops, w);
    BumpConserved(w);
    BumpConserved(start);
    forall l: Layout | ValidLayout(l) && NoWrap(w.heap, l) && Countable(w.heap) && Alloc(w.heap, l).1 == Null
      ensures TotalOf(BumpGrants(start, ops)) + l.size + l.align - 1 > BumpCapacity(w.heap)
    {
      AllocContract(w, l);
      RoundedUp(w.heap.current, l.align);
    }
  }

  /** Class k's list visits exactly its free blocks, once each, ends in null, and misses live memory. */
  ghost predicate FreeListGood(w: World, k: nat)
    requires Shape(w.heap) && k < CLASSES
  {
    var s, list := w.heap.slabs[k], ListIn(w.heap, k);
    && |list| == s.freeCount && NoDup(list) && FreeEnd(w.heap.words, s.freeHead, s.freeCount) == 0
    && (forall a :: a in list <==> a in Blocks(s) && a !in w.live)
    && (forall a, p :: a in list && p in w.live ==> p + Extent(w, p) <= a || a + s.objSize <= p)
  }

  lemma ListGood(w: World, k: nat)
    requires Inv(w) && k < CLASSES
    ensures FreeListGood(w, k)
  {
    var s, list := w.heap.slabs[k], ListIn(w.heap, k);
    assert SlabInv(s, w.heap.words, w.live.Keys);
    forall a, p | a in list && p in w.live
      ensures p + Extent(w, p) <= a || a + s.objSize <= p
    {
      FreeApart(w, k, a, p);
    }
  }

  /** Main theorem: after any run from start-up, live blocks lie inside the heap, do not overlap
      one another, and overlap no free block; and each class's freelist, followed through memory,
      ends in null after exactly `freeCount` distinct nodes, which are that class's free blocks. */
  lemma EveryRunIsSafe(words: Words, heapStart: nat, overflowChecks: bool, ops: seq<Op>, w: World)
    requires GoodBase(heapStart) && Run(Start(words, heapStart, overflowChecks), ops, w)
    ensures Inv(w)
    ensures forall p :: p in w.live ==>
      w.live[p].size <= Extent(w, p) && heapStart <= p && p + Extent(w, p) <= heapStart + HEAP_SIZE
    ensures forall p, q :: p in w.live && q in w.live && p < q ==> p + Extent(w, p) <= q
    ensures forall k :: 0 <= k < CLASSES ==> FreeListGood(w, k)
  {
    InitInv(words, heapStart, overflowChecks);
    RunKeeps(Start(words, heapStart, overflowChecks), ops, w);
    forall p | p in w.live
      ensures w.live[p].size <= Extent(w, p) && heapStart <= p && p + Extent(w, p) <= heapStart + HEAP_SIZE
    {
      Inside(w, p);
    }
    forall p, q | p in w.live && q in w.live && p < q
      ensures p + Extent(w, p) <= q
    {
      LiveApart(w, p, q);
    }
    forall k | 0 <= k < CLASSES
      ensures FreeListGood(w, k)
    {
      ListGood(w, k);
    }
  }

  lemma Inside(w: World, p: nat)
    requires Inv(w) && p in w.live
    ensures w.live[p].size <= Extent(w, p) && w.heap.heapStart <= p && p + Extent(w, p) <= w.heap.end
    ensures InSlab(w.heap, p) <==> p < BumpBase(w.heap)
    ensures InSlab(w.heap, p) ==> p + Extent(w, p) <= BumpBase(w.heap)
  {
    if InSlab(w.heap, p) {
      var k :| 0 <= k < CLASSES && p in Blocks(w.heap.slabs[k]);
      ExtentOf(w, p, k);
      BlockPlace(w.heap, k, p);
      OffsetsMonotone(k + 1, CLASSES);
    }
  }

  lemma LiveApart(w: World, p: nat, q: nat)
    requires Inv(w) && p in w.live && q in w.live && p < q
    ensures p + Extent(w, p) <= q
  {
    Inside(w, p);
    Inside(w, q);
    if InSlab(w.heap, p) && InSlab(w.heap, q) {
      var j :| 0 <= j < CLASSES && p in Blocks(w.heap.slabs[j]);
      var k :| 0 <= k < CLASSES && q in Blocks(w.heap.slabs[k]);
      ExtentOf(w, p, j);
      BlocksApart(w.heap, j, p, k, q);
    }
  }

  lemma FreeApart(w: World, k: nat, a: nat, p: nat)
    requires Inv(w) && k < CLASSES && a in Blocks(w.heap.slabs[k]) && a !in w.live && p in w.live
    ensures p + Extent(w, p) <= a || a + w.heap.slabs[k].objSize <= p
  {
    Inside(w, p);
    if InSlab(w.heap, p) {
      var j :| 0 <= j < CLASSES && p in Blocks(w.heap.slabs[j]);
      ExtentOf(w, p, j);
      BlocksApart(w.heap, j, p, k, a);
    } else {
      BlockPlace(w.heap, k, a);
      OffsetsMonotone(k + 1, CLASSES);
    }
  }

  // ---- conservation ----

  ghost function SetOf(q: seq<nat>): set<nat> {
    set a | a in q
  }

  lemma {:induction false} DistinctCount(q: seq<nat>)
    requires NoDup(q)
    ensures |SetOf(q)| == |q|
  {
    if q == [] {
      assert SetOf(q) == {};
    } else {
      var rest := q[1..];
      assert forall i :: 0 <= i < |rest| ==> rest[i] == q[i + 1];
      DistinctCount(rest);
      assert SetOf(q) == {q[0]} + SetOf(rest);
    }
  }

  ghost function PoolPrefix(start: nat, objSize: nat, n: nat): set<nat> {
    set i: nat | i < n :: BlockAt(start, objSize, i)
  }

  lemma {:induction false} PoolCount(start: nat, objSize: nat, n: nat)
    requires objSize > 0
    ensures |PoolPrefix(start, objSize, n)| == n
  {
    if n == 0 {
      assert PoolPrefix(start, objSize, 0) == {};
    } else {
      PoolCount(start, objSize, n - 1);
      var before, b := PoolPrefix(start, objSize, n - 1), BlockAt(start, objSize, n - 1);
      if b in before {
        var i: nat :| i < n - 1 && b == BlockAt(start, objSize, i);
        Multiples(i, n - 1, objSize);
      }
      assert PoolPrefix(start, objSize, n) == before + {b};
    }
  }

  /** In every class the blocks free and the blocks held by clients are always 512 together. */
  lemma ClassConserved(w: World, k: nat)
    requires Inv(w) && k < CLASSES
    ensures var s := w.heap.slabs[k];
      s.freeCount + |w.live.Keys * Blocks(s)| == OBJECTS_PER_CLASS
  {
    var s := w.heap.slabs[k];
    assert SlabInv(s, w.heap.words, w.live.Keys);
    var list := FreeList(w.heap.words, s.freeHead, s.freeCount);
    DistinctCount(list);
    PoolCount(s.regionStart, s.objSize, OBJECTS_PER_CLASS);
    assert Blocks(s) == PoolPrefix(s.regionStart, s.objSize, OBJECTS_PER_CLASS);
    assert SetOf(list) == Blocks(s) - w.live.Keys;
    assert Blocks(s) == SetOf(list) + w.live.Keys * Blocks(s);
  }

  /** Once no slab block is held, every class is full again: its list visits its whole pool. */
  lemma AllFreed(w: World)
    requires Inv(w) && forall p :: p in w.live ==> !InSlab(w.heap, p)
    ensures forall k :: 0 <= k < CLASSES ==>
      var s := w.heap.slabs[k];
      s.freeCount == OBJECTS_PER_CLASS && SetOf(FreeList(w.heap.words, s.freeHead, s.freeCount)) == Blocks(s)
  {
    forall k | 0 <= k < CLASSES
      ensures var s := w.heap.slabs[k];
        s.freeCount == OBJECTS_PER_CLASS && SetOf(FreeList(w.heap.words, s.freeHead, s.freeCount)) == Blocks(s)
    {
      var s := w.heap.slabs[k];
      assert SlabInv(s, w.heap.words, w.live.Keys);
      forall a | a in Blocks(s) ensures a !in w.live {
        assert InSlab(w.heap, a);
      }
      ClassConserved(w, k);
      assert w.live.Keys * Blocks(s) == {};
    }
  }

  /** The bump statistics: the start recomputed from the end is where the slab pools stop, and
      what is used and what is left add up to the capacity. */
  lemma BumpConserved(w: World)
    requires Inv(w)
    ensures BumpStart(w.heap) == BumpBase(w.heap)
    ensures BumpUsed(w.heap) + (w.heap.end - w.heap.current) == BumpCapacity(w.heap) == HEAP_SIZE - SLAB_REGION_BYTES
    ensures forall p :: p in w.live && !InSlab(w.heap, p) ==> p + w.live[p].size <= BumpStart(w.heap) + BumpUsed(w.heap)
  {
  }
}
