/** Kernel heap and page tables on one page allocator: neither disturbs the other. */
module SharedPages {
  import opened Platform
  import opened Bytes
  import opened Pmm
  import opened Pages
  import opened Heap
  import opened HeapArenas
  import opened HeapSteps
  import opened Kheap
  import opened Paging
  import opened PageTables

  /** The two share their allocator, and no page table is the first page of an arena. */
  ghost predicate Beside(heap: KernelHeap, space: AddressSpace)
    reads heap, heap.pmm, heap.pmm.bitmap, space, space.pmm, space.pmm.bitmap
  {
    && heap.pmm == space.pmm && heap.Valid() && space.Valid()
    && StartsApart(heap.arenas, space.tables)
  }

  ghost predicate StartsApart(arenas: seq<Arena>, tables: Tables) {
    forall k, t :: 0 <= k < |arenas| && t in tables ==> arenas[k].base / PAGE_SIZE != t / PAGE_SIZE
  }

  lemma BackedKept(arenas: seq<Arena>, live: map<nat, nat>, live': map<nat, nat>)
    requires Backed(arenas, live) && Keeps(live, live')
    ensures Backed(arenas, live')
  {
  }

  lemma OwnedKept(tables: Tables, live: map<nat, nat>, live': map<nat, nat>)
    requires Owned(tables, live) && Keeps(live, live')
    ensures Owned(tables, live')
  {
  }

  lemma ArenaApart(arenas: seq<Arena>, arenas': seq<Arena>, tables: Tables, live: map<nat, nat>)
    requires StartsApart(arenas, tables) && Owned(tables, live) && NewOnFresh(arenas, arenas', live)
    ensures StartsApart(arenas', tables)
  {
    if arenas' != arenas {
      forall k, t | 0 <= k < |arenas'| && t in tables ensures arenas'[k].base / PAGE_SIZE != t / PAGE_SIZE {
        if k > 0 {
          assert arenas'[k] == arenas'[1..][k - 1];
        }
      }
    }
  }

  lemma TablesApart(arenas: seq<Arena>, tables: Tables, tables': Tables, live: map<nat, nat>, live': map<nat, nat>)
    requires StartsApart(arenas, tables) && Backed(arenas, live) && OnFresh(tables, live, tables', live')
    ensures StartsApart(arenas, tables')
  {
    forall k, t | 0 <= k < |arenas| && t in tables' ensures arenas[k].base / PAGE_SIZE != t / PAGE_SIZE {
      assert arenas[k].base / PAGE_SIZE in live;
    }
  }

  lemma SpaceOwns(space: AddressSpace)
    requires space.Valid()
    ensures Owned(space.tables, space.pmm.live)
  {
    hide TreeOk, NoOrphans, Owned, RangeMapped, PageAllocator.Valid;
  }

  /** The allocator has only handed out more: the address space is as good as before. */
  twostate lemma SpaceSurvives(space: AddressSpace)
    requires old(space.Valid()) && space.pmm.Valid() && Keeps(old(space.pmm.live), space.pmm.live)
    requires space.tables == old(space.tables) && space.root == old(space.root) && space.at == old(space.at)
    ensures space.Valid()
  {
    hide TreeOk, NoOrphans, Owned, RangeMapped, PageAllocator.Valid, Keeps;
    SpaceOwnsNow(old(space.tables), old(space.at), old(space.root), old(space.pmm.live));
    if space.root != 0 {
      OwnedKept(space.tables, old(space.pmm.live), space.pmm.live);
    } else {
      OwnedKept(space.tables, old(space.pmm.live), space.pmm.live);
    }
  }

  lemma SpaceOwnsNow(tables: Tables, at: map<Place, nat>, root: nat, live: map<nat, nat>)
    ensures SpaceOk(tables, at, root, live) ==> Owned(tables, live)
  {
    hide TreeOk, NoOrphans, Owned;
  }

  /** The same for the heap. */
  twostate lemma HeapSurvives(heap: KernelHeap)
    requires old(heap.Valid()) && heap.pmm.Valid() && Keeps(old(heap.pmm.live), heap.pmm.live)
    requires heap.headers == old(heap.headers) && heap.arenas == old(heap.arenas) && heap.chains == old(heap.chains)
    requires heap.usedBytes == old(heap.usedBytes) && heap.freeBytes == old(heap.freeBytes)
    ensures heap.Valid()
  {
    hide HeapOk, Backed, PageAllocator.Valid, Keeps;
    BackedKept(heap.arenas, old(heap.pmm.live), heap.pmm.live);
  }

  /** kmalloc beside an address space. */
  method AllocateBeside(heap: KernelHeap, space: AddressSpace, size: nat) returns (ptr: nat)
    requires Beside(heap, space) && size + HEADER + ARENA_META + PAGE_SIZE + 16 < TWO_64
    modifies heap, heap.pmm, heap.pmm.bitmap
    ensures Beside(heap, space)
    ensures forall j :: 0 <= j < |old(heap.chains)| ==> InMemory(old(heap.headers), old(heap.chains)[j])
    ensures heap.pmm.bitmap.Length == BITMAP_BYTES
    ensures var v, needed := old(Layout(heap.headers, heap.chains)), AlignUp(size);
            && (ptr == 0 <==> size == 0 || (NoneIn(v, |v|, needed)
                                            && forall s: nat :: !(Run(s, PagesFor(needed)) <= old(heap.pmm.Free()))))
            && (ptr != 0 ==> ptr % 16 == 0 && (exists z :: size <= z && heap.LiveNow(ptr, z))
                             && forall z :: !LiveAt(old(heap.chains), v, ptr, z))
  {
    hide KernelHeap.Valid, AddressSpace.Valid, StartsApart, Keeps, NewOnFresh;
    SpaceOwns(space);
    ghost var live, arenas := heap.pmm.live, heap.arenas;
    ghost var grew, k, i;
    HeapChains(heap);
    ghost var v := Layout(heap.headers, heap.chains);
    ptr, grew, k, i := heap.Kmalloc(size);
    if ptr != 0 {
      HeapChains(heap);
      ghost var needed := AlignUp(size);
      ghost var v1 := if grew then [[Cell(true, PagesFor(needed) * PAGE_SIZE - ARENA_META - HEADER)]] + v else v;
      assert heap.LiveNow(ptr, Granted(v1[k], i, needed));
    }
    HeapPmm(heap);
    SpaceSurvives(space);
    ArenaApart(arenas, heap.arenas, space.tables, live);
  }

  lemma HeapChains(heap: KernelHeap)
    requires heap.Valid()
    ensures forall k :: 0 <= k < |heap.chains| ==> InMemory(heap.headers, heap.chains[k])
  {
    hide HeapOk, PageAllocator.Valid, Backed;
    HeapParts(heap.headers, heap.arenas, heap.chains, heap.usedBytes, heap.freeBytes);
  }

  lemma HeapPmm(heap: KernelHeap)
    requires heap.Valid()
    ensures heap.pmm.Valid() && Backed(heap.arenas, heap.pmm.live)
  {
    hide HeapOk, PageAllocator.Valid;
  }

  /** kfree beside an address space. */
  method ReleaseBeside(heap: KernelHeap, space: AddressSpace, ptr: nat, magic: bool, ghost k: nat, ghost i: nat)
    requires Beside(heap, space) && (ptr != 0 && magic ==> ptr >= HEADER && IsBlock(heap.chains, ptr - HEADER, k, i))
    modifies heap`headers, heap`usedBytes, heap`freeBytes, heap`chains
    ensures Beside(heap, space) && heap.arenas == old(heap.arenas)
    ensures forall j :: 0 <= j < |old(heap.chains)| ==> InMemory(old(heap.headers), old(heap.chains)[j])
    ensures var v := old(Layout(heap.headers, heap.chains));
            forall p, z :: heap.LiveNow(p, z) <==> LiveAt(old(heap.chains), v, p, z) && (magic ==> p != ptr)
  {
    hide KernelHeap.Valid, AddressSpace.Valid, StartsApart;
    heap.Kfree(ptr, magic, k, i);
  }

  /** paging_init beside a heap, with the six pages it takes for granted. */
  method InitBeside(heap: KernelHeap, space: AddressSpace)
    requires Beside(heap, space) && space.root == 0 && space.pmm.bitmap.Length == BITMAP_BYTES && |space.pmm.Free()| >= 6
    modifies space`tables, space`root, space`at, space.pmm`freePages, space.pmm`cursor, space.pmm`live, space.pmm.bitmap
    ensures Beside(heap, space) && space.root != 0
  {
    hide KernelHeap.Valid, AddressSpace.Valid, StartsApart, OnFresh, PageAllocator.Free;
    HeapPmm(heap);
    ghost var live, tables := space.pmm.live, space.tables;
    space.PagingInit();
    OnFreshKeeps(tables, live, space.tables, space.pmm.live);
    HeapSurvives(heap);
    TablesApart(heap.arenas, tables, space.tables, live, space.pmm.live);
  }

  /** paging_identity_map_region beside a heap. */
  method MapBeside(heap: KernelHeap, space: AddressSpace, region: Region) returns (ok: bool)
    requires Beside(heap, space) && region.start + region.size <= TWO_48
    modifies space`tables, space`at, space.pmm`freePages, space.pmm`cursor, space.pmm`live, space.pmm.bitmap
    ensures Beside(heap, space) && space.pmm.bitmap.Length == BITMAP_BYTES
    ensures ok ==> RangeMapped(space.tables, space.root, region.First(), region.End())
    ensures !ok ==> space.root == 0 || region.size == 0 || space.pmm.Free() == {}
  {
    hide KernelHeap.Valid, AddressSpace.Valid, StartsApart, OnFresh, Grows, RangeMapped, PageAllocator.Free;
    HeapPmm(heap);
    ghost var live, tables := space.pmm.live, space.tables;
    ok := space.MapRegion(region.start, region.size);
    SpacePmm(space);
    OnFreshKeeps(tables, live, space.tables, space.pmm.live);
    HeapSurvives(heap);
    TablesApart(heap.arenas, tables, space.tables, live, space.pmm.live);
  }

  lemma OnFreshKeeps(t0: Tables, live0: map<nat, nat>, t1: Tables, live1: map<nat, nat>)
    requires OnFresh(t0, live0, t1, live1)
    ensures Keeps(live0, live1)
  {
  }

  /** Whatever calls led here: no page table lies in an arena of the heap. */
  lemma TablesOutsideArenas(heap: KernelHeap, space: AddressSpace, k: nat, t: nat)
    requires Beside(heap, space) && k < |heap.arenas| && t in space.tables
    ensures t + PAGE_SIZE <= heap.arenas[k].base || heap.arenas[k].End() <= t
  {
    hide KernelHeap.Valid, AddressSpace.Valid, PageAllocator.Valid, Backed, Owned, StartsApart, Apart;
    HeapPmm(heap);
    SpaceOwns(space);
    PmmApart(heap.pmm);
    PagesDiffer(heap.arenas, space.tables, heap.pmm.live, heap.pmm.Free(), k, t);
  }

  lemma PmmApart(pmm: PageAllocator)
    requires pmm.Valid()
    ensures pmm.bitmap.Length == BITMAP_BYTES && Apart(pmm.live, pmm.Free())
  {
    hide Apart, PageAllocator.Free;
  }

  lemma PagesDiffer(arenas: seq<Arena>, tables: Tables, live: map<nat, nat>, free: set<nat>, k: nat, t: nat)
    requires StartsApart(arenas, tables) && Backed(arenas, live) && Owned(tables, live) && Apart(live, free)
    requires k < |arenas| && t in tables
    ensures t + PAGE_SIZE <= arenas[k].base || arenas[k].End() <= t
  {
    hide Run;
    var p, q := arenas[k].base / PAGE_SIZE, t / PAGE_SIZE;
    assert p in live && q in live && p != q;
    RunsApart(p, live[p], q, live[q]);
  }
}
