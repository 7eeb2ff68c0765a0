/** The slab and bump allocator as a value: what each operation computes on the
    allocator's fields and on the words of memory it threads its freelists through. */
module SlabHeap {

  const OBJECTS_PER_CLASS: nat := 512
  const CLASSES: nat := 6
  const SLAB_REGION_BYTES: nat := 258048
  /** The kernel's heap is 16 MiB; both `init` and the statistics use this one constant. */
  const HEAP_SIZE: nat := 16777216
  const USIZE: nat := 0x1_0000_0000_0000_0000

  /** Memory seen as 8-byte words, keyed by address; a word never written reads as 0. */
  type Words = map<nat, nat>

  function Load(words: Words, a: nat): nat {
    if a in words then words[a] else 0
  }

  datatype Slab = Slab(objSize: nat, regionStart: nat, freeHead: nat, freeCount: nat, total: nat)

  /** What a caller asks for. Rust guarantees a power-of-two alignment and, for the global
      allocator, a non-zero size that still fits in an `isize` when rounded up. */
  datatype Layout = Layout(size: nat, align: nat)

  predicate IsPow2(n: nat) {
    n == 1 || (n > 1 && n % 2 == 0 && IsPow2(n / 2))
  }

  predicate ValidLayout(l: Layout) {
    1 <= l.size && IsPow2(l.align) && l.size + l.align - 1 < USIZE / 2
  }

  /** `Trap` is the arithmetic-overflow panic of a build with overflow checks. */
  datatype Outcome = Ptr(addr: nat) | Null | Trap

  datatype Heap = Heap(
    initialized: bool, heapStart: nat, slabs: seq<Slab>, current: nat, end: nat,
    words: Words, overflowChecks: bool)

  function ObjSize(k: nat): (r: nat)
    requires k < CLASSES
    ensures 8 <= r <= 256
  {
    [8, 16, 32, 64, 128, 256][k]
  }

  // ---- one slab class ----

  function SlabAlloc(s: Slab, words: Words): (Slab, nat)
    requires s.freeHead != 0 ==> s.freeCount > 0
  {
    if s.freeHead == 0 then (s, 0)
    else (s.(freeHead := Load(words, s.freeHead), freeCount := s.freeCount - 1), s.freeHead)
  }

  function SlabDealloc(s: Slab, words: Words, p: nat): (Slab, Words) {
    (s.(freeHead := p, freeCount := s.freeCount + 1), words[p := s.freeHead])
  }

  predicate Owns(s: Slab, p: nat) {
    s.regionStart <= p < s.regionStart + s.total * s.objSize
  }

  /** The words of memory once the first n of `count` blocks are threaded. */
  function Threaded(words: Words, start: nat, objSize: nat, count: nat, n: nat): Words
    requires n <= count
  {
    if n == 0 then words
    else
      Threaded(words, start, objSize, count, n - 1)
      [start + (n - 1) * objSize := if n < count then start + n * objSize else 0]
  }

  // ---- the bump region ----

  /** Clearing the low bits with `& !(align - 1)` subtracts the remainder by a power of two. */
  function AlignUp(addr: nat, align: nat): nat
    requires align > 0
  {
    var x := (addr + align - 1) % USIZE;
    x - x % align
  }

  function SaturatingAdd(a: nat, b: nat): nat {
    if a + b < USIZE then a + b else USIZE - 1
  }

  function SaturatingSub(a: nat, b: nat): nat {
    if a < b then 0 else a - b
  }

  function BumpAlloc(h: Heap, l: Layout): (Heap, Outcome)
    requires l.align > 0
  {
    if h.overflowChecks && h.current + l.align - 1 >= USIZE then (h, Trap)
    else
      var start := AlignUp(h.current, l.align);
      var end := SaturatingAdd(start, l.size);
      if end > h.end then (h, Null)
      else (h.(current := end), if start == 0 then Null else Ptr(start))
  }

  function BumpStart(h: Heap): nat {
    SaturatingSub(h.end, HEAP_SIZE - SLAB_REGION_BYTES)
  }

  function BumpUsed(h: Heap): nat {
    SaturatingSub(h.current, BumpStart(h))
  }

  function BumpCapacity(h: Heap): nat {
    SaturatingSub(h.end, BumpStart(h))
  }

  // ---- the combined allocator ----

  predicate Fits(l: Layout, s: Slab) {
    l.size <= s.objSize && l.align <= s.objSize
  }

  /** A head pointer is only ever non-null while blocks are counted free. */
  predicate Countable(h: Heap) {
    forall k :: 0 <= k < |h.slabs| && h.slabs[k].freeHead != 0 ==> h.slabs[k].freeCount > 0
  }

  /** Try classes k, k+1, ... in order and fall through to the bump region. */
  function AllocFrom(h: Heap, l: Layout, k: nat): (Heap, Outcome)
    requires k <= |h.slabs| && l.align > 0 && Countable(h)
    decreases |h.slabs| - k
  {
    if k == |h.slabs| then BumpAlloc(h, l)
    else if Fits(l, h.slabs[k]) && h.slabs[k].freeHead != 0 then
      var (s, p) := SlabAlloc(h.slabs[k], h.words);
      (h.(slabs := h.slabs[k := s]), Ptr(p))
    else AllocFrom(h, l, k + 1)
  }

  function Alloc(h: Heap, l: Layout): (Heap, Outcome)
    requires l.align > 0 && Countable(h)
  {
    if !h.initialized then (h, Null) else AllocFrom(h, l, 0)
  }

  function DeallocFrom(h: Heap, p: nat, k: nat): Heap
    requires k <= |h.slabs|
    decreases |h.slabs| - k
  {
    if k == |h.slabs| then h
    else if Owns(h.slabs[k], p) then
      var (s, words) := SlabDealloc(h.slabs[k], h.words, p);
      h.(slabs := h.slabs[k := s], words := words)
    else DeallocFrom(h, p, k + 1)
  }

  function Dealloc(h: Heap, p: nat): Heap {
    DeallocFrom(h, p, 0)
  }

  // ---- start-up ----

  function RegionOffset(k: nat): nat
    requires k <= CLASSES
  {
    if k == 0 then 0 else RegionOffset(k - 1) + ObjSize(k - 1) * OBJECTS_PER_CLASS
  }

  function InitialSlab(heapStart: nat, k: nat): Slab
    requires k < CLASSES
  {
    Slab(ObjSize(k), heapStart + RegionOffset(k), heapStart + RegionOffset(k), OBJECTS_PER_CLASS, OBJECTS_PER_CLASS)
  }

  function InitialWords(words: Words, heapStart: nat, k: nat): Words
    requires k <= CLASSES
  {
    if k == 0 then words
    else Threaded(InitialWords(words, heapStart, k - 1), heapStart + RegionOffset(k - 1), ObjSize(k - 1),
                  OBJECTS_PER_CLASS, OBJECTS_PER_CLASS)
  }

  function Init(words: Words, heapStart: nat, heapSize: nat, overflowChecks: bool): Heap {
    Heap(true, heapStart, seq(CLASSES, k requires 0 <= k < CLASSES => InitialSlab(heapStart, k)),
         heapStart + RegionOffset(CLASSES), heapStart + heapSize,
         InitialWords(words, heapStart, CLASSES), overflowChecks)
  }
}
