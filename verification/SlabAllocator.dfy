/** The allocator as it runs: objects whose fields are updated in place and whose freelists are
    written through memory. Every method is tied to the value-level functions of `SlabHeap`. */
module SlabAllocator {
  import opened SlabHeap

  class Memory {
    var words: Words

    constructor (words: Words)
      ensures this.words == words
    {
      this.words := words;
    }

    method Store(a: nat, v: nat)
      modifies this
      ensures words == old(words)[a := v]
    {
      words := words[a := v];
    }
  }

  class SlabClass {
    const objSize: nat
    var regionStart: nat
    var freeHead: nat
    var freeCount: nat
    var total: nat

    constructor (objSize: nat)
      ensures this.objSize == objSize
    {
      this.objSize := objSize;
      regionStart, freeHead, freeCount, total := 0, 0, 0, 0;
    }

    ghost function Value(): Slab
      reads this
    {
      Slab(objSize, regionStart, freeHead, freeCount, total)
    }

    method Init(mem: Memory, regionStart: nat, count: nat)
      modifies this, mem
      ensures Value() == Slab(objSize, regionStart, regionStart, count, count)
      ensures mem.words == Threaded(old(mem.words), regionStart, objSize, count, count)
    {
      this.regionStart := regionStart;
      total := count;
      freeCount := count;
      for i := 0 to count
        invariant this.regionStart == regionStart && total == freeCount == count
        invariant mem.words == Threaded(old(mem.words), regionStart, objSize, count, i)
      {
        var block := regionStart + i * objSize;
        var next := if i + 1 < count then regionStart + (i + 1) * objSize else 0;
        mem.Store(block, next);
      }
      freeHead := regionStart;
    }

    method Alloc(mem: Memory) returns (p: nat)
      requires freeHead != 0 ==> freeCount > 0
      modifies this
      ensures (Value(), p) == SlabAlloc(old(Value()), mem.words)
    {
      if freeHead == 0 { return 0; }
      p := freeHead;
      freeHead := Load(mem.words, p);
      freeCount := freeCount - 1;
    }

    method Dealloc(mem: Memory, p: nat)
      modifies this, mem
      ensures (Value(), mem.words) == SlabDealloc(old(Value()), old(mem.words), p)
    {
      mem.Store(p, freeHead);
      freeHead := p;
      freeCount := freeCount + 1;
    }

    method IsOwner(p: nat) returns (b: bool)
      ensures b == Owns(Value(), p)
    {
      b := p >= regionStart && p < regionStart + total * objSize;
    }
  }

  ghost function Values(slabs: seq<SlabClass>): (r: seq<Slab>)
    reads slabs
    ensures |r| == |slabs| && forall k :: 0 <= k < |slabs| ==> r[k] == slabs[k].Value()
  {
    if slabs == [] then [] else Values(slabs[..|slabs| - 1]) + [slabs[|slabs| - 1].Value()]
  }

  lemma NoClassYet(words: Words, heapStart: nat)
    ensures RegionOffset(0) == 0 && InitialWords(words, heapStart, 0) == words
  {
  }

  lemma OneMoreClass(words: Words, heapStart: nat, k: nat)
    requires k < CLASSES
    ensures RegionOffset(k + 1) == RegionOffset(k) + ObjSize(k) * OBJECTS_PER_CLASS
    ensures InitialWords(words, heapStart, k + 1) ==
      Threaded(InitialWords(words, heapStart, k), heapStart + RegionOffset(k), ObjSize(k), OBJECTS_PER_CLASS, OBJECTS_PER_CLASS)
  {
  }

  class Allocator {
    const mem: Memory
    const slabs: seq<SlabClass>
    const overflowChecks: bool
    var initialized: bool
    var heapStart: nat
    var current: nat
    var end: nat

    ghost predicate Valid() {
      && |slabs| == CLASSES
      && (forall i, j :: 0 <= i < j < CLASSES ==> slabs[i] != slabs[j])
      && (forall k :: 0 <= k < CLASSES ==> slabs[k].objSize == ObjSize(k))
    }

    /** The allocator's whole state: its own fields, its classes' fields and memory. */
    ghost function State(): Heap
      reads this, mem, slabs
    {
      Heap(initialized, heapStart, Values(slabs), current, end, mem.words, overflowChecks)
    }

    constructor (mem: Memory, overflowChecks: bool)
      ensures Valid() && !initialized && this.mem == mem && this.overflowChecks == overflowChecks
      ensures fresh(slabs)
    {
      this.mem := mem;
      this.overflowChecks := overflowChecks;
      initialized, heapStart, current, end := false, 0, 0, 0;
      var s0 := new SlabClass(8);
      var s1 := new SlabClass(16);
      var s2 := new SlabClass(32);
      var s3 := new SlabClass(64);
      var s4 := new SlabClass(128);
      var s5 := new SlabClass(256);
      slabs := [s0, s1, s2, s3, s4, s5];
    }

    method Init(heapVirt: nat, heapSize: nat)
      requires Valid()
      modifies this, mem, slabs
      ensures State() == SlabHeap.Init(old(mem.words), heapVirt, heapSize, overflowChecks)
    {
      hide InitialWords, RegionOffset, Threaded;
      heapStart := heapVirt;
      var offset := 0;
      NoClassYet(mem.words, heapVirt);
      for i := 0 to CLASSES
        invariant heapStart == heapVirt
        invariant offset == RegionOffset(i)
        invariant mem.words == InitialWords(old(mem.words), heapVirt, i)
        invariant forall k :: 0 <= k < i ==> slabs[k].Value() == InitialSlab(heapVirt, k)
      {
        OneMoreClass(old(mem.words), heapVirt, i);
        slabs[i].Init(mem, heapVirt + offset, OBJECTS_PER_CLASS);
        offset := offset + ObjSize(i) * OBJECTS_PER_CLASS;
      }
      current := heapVirt + offset;
      end := heapVirt + heapSize;
      initialized := true;
      assert Values(slabs) == SlabHeap.Init(old(mem.words), heapVirt, heapSize, overflowChecks).slabs;
    }

    method BumpAlloc(l: Layout) returns (o: Outcome)
      requires l.align > 0
      modifies this
      ensures (State(), o) == SlabHeap.BumpAlloc(old(State()), l)
    {
      if overflowChecks && current + l.align - 1 >= USIZE { return Trap; }
      var start := AlignUp(current, l.align);
      var stop := SaturatingAdd(start, l.size);
      if stop > end { return Null; }
      current := stop;
      o := if start == 0 then Null else Ptr(start);
    }

    method Alloc(l: Layout) returns (o: Outcome)
      requires Valid() && l.align > 0 && Countable(State())
      modifies this, slabs
      ensures (State(), o) == SlabHeap.Alloc(old(State()), l)
    {
      if !initialized { return Null; }
      for i := 0 to CLASSES
        invariant State() == old(State())
        invariant AllocFrom(State(), l, 0) == AllocFrom(State(), l, i)
      {
        if l.size <= slabs[i].objSize && l.align <= slabs[i].objSize {
          assert State().slabs[i] == slabs[i].Value();
          var p := slabs[i].Alloc(mem);
          if p != 0 {
            assert Values(slabs) == old(Values(slabs))[i := slabs[i].Value()];
            return Ptr(p);
          }
          assert Values(slabs) == old(Values(slabs));
        }
      }
      o := BumpAlloc(l);
    }

    method Dealloc(p: nat)
      requires Valid()
      modifies this, mem, slabs
      ensures State() == SlabHeap.Dealloc(old(State()), p)
    {
      for i := 0 to CLASSES
        invariant State() == old(State())
        invariant DeallocFrom(State(), p, 0) == DeallocFrom(State(), p, i)
      {
        assert State().slabs[i] == slabs[i].Value();
        var mine := slabs[i].IsOwner(p);
        if mine {
          slabs[i].Dealloc(mem, p);
          assert Values(slabs) == old(Values(slabs))[i := slabs[i].Value()];
          return;
        }
      }
    }

    /** The figures the heap command shows: free blocks and totals by class, bump bytes used and in all. */
    method Stats() returns (free: seq<nat>, totals: seq<nat>, used: nat, capacity: nat)
      requires Valid()
      ensures |free| == |totals| == CLASSES
      ensures forall k :: 0 <= k < CLASSES ==> free[k] == State().slabs[k].freeCount && totals[k] == State().slabs[k].total
      ensures used == BumpUsed(State()) && capacity == BumpCapacity(State())
    {
      free, totals := [], [];
      for i := 0 to CLASSES
        invariant |free| == |totals| == i
        invariant forall k :: 0 <= k < i ==> free[k] == slabs[k].freeCount && totals[k] == slabs[k].total
      {
        free := free + [slabs[i].freeCount];
        totals := totals + [slabs[i].total];
      }
      var start := SaturatingSub(end, HEAP_SIZE - SLAB_REGION_BYTES);
      used := SaturatingSub(current, start);
      capacity := SaturatingSub(end, start);
    }
  }
}
