/** kmalloc and kfree. */
module Kheap {
  import opened Platform
  import opened Bytes
  import opened Heap
  import opened HeapArenas
  import opened HeapSteps
  import opened Pmm
  import opened Pages

  const ARENA_PAGES: nat := 256

  // ---- The three writes, seen from the whole heap ----

  lemma FlagStep(h: Memory, arenas: seq<Arena>, chains: seq<seq<nat>>, k: nat, i: nat, free: bool)
    requires Laid(h, arenas, chains) && k < |chains| && i < |chains[k]| && chains[k][i] in h
    requires forall j :: 0 <= j < |chains| ==> InMemory(h, chains[j])
    ensures var b := chains[k][i];
            var h' := h[b := h[b].(free := free)];
            && Laid(h', arenas, chains) && (forall j :: 0 <= j < |chains| ==> InMemory(h', chains[j]))
            && Layout(h', chains) == Layout(h, chains)[k := Layout(h, chains)[k][i := Cell(free, h[b].size)]]
  {
    hide Tiled, Cells, SameOutside, InMemory;
    var b := chains[k][i];
    var h' := h[b := h[b].(free := free)];
    FlagTiles(h, arenas[k], chains[k], i, free);
    FlagFrame(h, arenas[k], chains[k], i, free);
    OneArena(h, h', arenas, chains, k, chains[k]);
    assert chains[k := chains[k]] == chains;
  }

  lemma SplitStep(h: Memory, arenas: seq<Arena>, chains: seq<seq<nat>>, k: nat, i: nat, needed: nat)
    requires Laid(h, arenas, chains) && k < |chains| && i < |chains[k]| && chains[k][i] in h
    requires forall j :: 0 <= j < |chains| ==> InMemory(h, chains[j])
    requires 16 <= needed <= h[chains[k][i]].size && needed % 16 == 0
    requires h[chains[k][i]].next != 0 ==> h[chains[k][i]].next in h
    ensures var s := Layout(h, chains)[k];
            var h', c' := SplitMemory(h, chains[k][i], needed), TakenChain(chains[k], s, i, needed);
            var chains' := chains[k := c'];
            && Laid(h', arenas, chains') && (forall j :: 0 <= j < |chains'| ==> InMemory(h', chains'[j]))
            && Layout(h', chains') == Layout(h, chains)[k := SplitCells(s, i, needed)]
            && i < |c'| && c'[i] == chains[k][i]
  {
    hide Tiled, Cells, SameOutside, InMemory, SplitMemory, SplitCells;
    SplitTiles(h, arenas[k], chains[k], i, needed);
    SplitFrame(h, arenas[k], chains[k], i, needed);
    CellAt(h, chains[k], i);
    OneArena(h, SplitMemory(h, chains[k][i], needed), arenas, chains, k, SplitChain(h, chains[k], i, needed));
    var h', chains' := SplitMemory(h, chains[k][i], needed), chains[k := SplitChain(h, chains[k], i, needed)];
    LaidInMemory(h', arenas, chains');
  }

  lemma MergeStep(h: Memory, arenas: seq<Arena>, chains: seq<seq<nat>>, k: nat, i: nat)
    requires Laid(h, arenas, chains) && k < |chains| && i + 1 < |chains[k]|
    requires forall j :: 0 <= j < |chains| ==> InMemory(h, chains[j])
    requires chains[k][i] in h && chains[k][i + 1] in h
    requires h[chains[k][i]].next == chains[k][i + 1]
    requires h[chains[k][i + 1]].next != 0 ==> h[chains[k][i + 1]].next in h
    ensures var h', c' := MergeMemory(h, chains[k][i]), MergeChain(chains[k], i);
            var chains' := chains[k := c'];
            && Laid(h', arenas, chains') && (forall j :: 0 <= j < |chains'| ==> InMemory(h', chains'[j]))
            && Layout(h', chains') == Layout(h, chains)[k := MergeCells(Layout(h, chains)[k], i)]
            && i < |c'| && c'[i] == chains[k][i]
  {
    hide Tiled, Cells, SameOutside, InMemory, MergeMemory, MergeCells, MergeChain;
    MergeTiles(h, arenas[k], chains[k], i);
    MergeFrame(h, arenas[k], chains[k], i);
    OneArena(h, MergeMemory(h, chains[k][i]), arenas, chains, k, MergeChain(chains[k], i));
    var h', chains' := MergeMemory(h, chains[k][i]), chains[k := MergeChain(chains[k], i)];
    LaidInMemory(h', arenas, chains');
  }

  /** The links of a laid-out block stay inside its chain. */
  lemma Links(h: Memory, arenas: seq<Arena>, chains: seq<seq<nat>>, k: nat, i: nat)
    requires Laid(h, arenas, chains) && k < |chains| && i < |chains[k]|
    ensures chains[k][i] in h && chains[k][i] > HEADER
    ensures h[chains[k][i]].next == NextOf(chains[k], i) && h[chains[k][i]].prev == PrevOf(chains[k], i)
    ensures h[chains[k][i]].next != 0 ==> h[chains[k][i]].next in h
    ensures h[chains[k][i]].prev != 0 ==> h[chains[k][i]].prev in h
    ensures i + 1 < |chains[k]| <==> h[chains[k][i]].next != 0
    ensures 0 < i <==> h[chains[k][i]].prev != 0
  {
    hide Tiled;
    BlockAt(h, arenas[k], chains[k], i);
    InArena(h, arenas[k], chains[k], i);
    TiledParts(h, arenas[k], chains[k]);
    if i + 1 < |chains[k]| {
      BlockAt(h, arenas[k], chains[k], i + 1);
      InArena(h, arenas[k], chains[k], i + 1);
    }
    if i > 0 {
      BlockAt(h, arenas[k], chains[k], i - 1);
      InArena(h, arenas[k], chains[k], i - 1);
    }
  }

  // ---- First fit ----

  predicate Fits(x: Cell, needed: nat) {
    x.free && x.size >= needed
  }

  /** No block of the first i of this arena is free and large enough. */
  ghost predicate NoneBefore(s: seq<Cell>, i: nat, needed: nat) {
    forall j :: 0 <= j < i && j < |s| ==> !Fits(s[j], needed)
  }

  ghost predicate NoneIn(v: seq<seq<Cell>>, k: nat, needed: nat) {
    forall l :: 0 <= l < k && l < |v| ==> NoneBefore(v[l], |v[l]|, needed)
  }

  /** Block i of arena k is the first fit, arenas taken newest first, blocks by address. */
  ghost predicate FirstFitting(v: seq<seq<Cell>>, k: nat, i: nat, needed: nat) {
    && k < |v| && i < |v[k]| && Fits(v[k][i], needed)
    && NoneBefore(v[k], i, needed) && NoneIn(v, k, needed)
  }

  // ---- Arenas and the page allocator ----

  /** The pages of every arena are its own. */
  ghost predicate Backed(arenas: seq<Arena>, live: map<nat, nat>) {
    forall k :: 0 <= k < |arenas| ==>
      && arenas[k].base / PAGE_SIZE in live && live[arenas[k].base / PAGE_SIZE] == arenas[k].pages
      && arenas[k].base == arenas[k].base / PAGE_SIZE * PAGE_SIZE && arenas[k].pages > 0
  }

  lemma RunsApart(p: nat, n: nat, q: nat, m: nat)
    requires n > 0 && m > 0 && Run(p, n) !! Run(q, m)
    ensures p + n <= q || q + m <= p
  {
    assert p in Run(p, n) && q in Run(q, m);
  }

  lemma NewArenaApart(arenas: seq<Arena>, live: map<nat, nat>, p: nat, n: nat, k: nat)
    requires Backed(arenas, live) && Clear(live, p, n) && n > 0 && k < |arenas|
    ensures arenas[k].End() <= p * PAGE_SIZE || p * PAGE_SIZE + n * PAGE_SIZE <= arenas[k].base
  {
    var q := arenas[k].base / PAGE_SIZE;
    assert Run(q, live[q]) !! Run(p, n);
    RunsApart(q, live[q], p, n);
  }

  lemma StillBacked(arenas: seq<Arena>, live: map<nat, nat>, p: nat, n: nat)
    requires Backed(arenas, live) && p !in live && n > 0
    ensures Backed([Arena(p * PAGE_SIZE, n)] + arenas, live[p := n])
  {
    assert p * PAGE_SIZE / PAGE_SIZE == p;
  }

  /** The arenas are the old ones, or one more on pages that were not allocated before. */
  ghost predicate NewOnFresh(arenas: seq<Arena>, arenas': seq<Arena>, live: map<nat, nat>) {
    || arenas' == arenas
    || (|arenas'| == |arenas| + 1 && arenas'[1..] == arenas && arenas'[0].base / PAGE_SIZE !in live)
  }

  /** Bytes to pages for a request no arena could serve. */
  function PagesFor(needed: nat): (n: nat)
    ensures n >= ARENA_PAGES && n * PAGE_SIZE >= needed + HEADER + ARENA_META
    ensures n > ARENA_PAGES ==> (n - 1) * PAGE_SIZE < needed + HEADER + ARENA_META
  {
    var n := (needed + HEADER + 32 + PAGE_SIZE - 1) / PAGE_SIZE;
    if n < ARENA_PAGES then ARENA_PAGES else n
  }

  function AlignUp(size: nat): (n: nat)
    ensures n % 16 == 0 && size <= n < size + 16
  {
    (size + 15) / 16 * 16
  }

  /** The heap between calls. */
  ghost predicate HeapOk(h: Memory, arenas: seq<Arena>, chains: seq<seq<nat>>, usedBytes: nat, freeBytes: nat) {
    && Laid(h, arenas, chains)
    && (forall k :: 0 <= k < |chains| ==> InMemory(h, chains[k]))
    && Settled(Layout(h, chains))
    && Balanced(Layout(h, chains), usedBytes, freeBytes)
  }

  lemma HeapParts(h: Memory, arenas: seq<Arena>, chains: seq<seq<nat>>, usedBytes: nat, freeBytes: nat)
    requires HeapOk(h, arenas, chains, usedBytes, freeBytes)
    ensures Laid(h, arenas, chains) && |chains| == |arenas|
    ensures forall k :: 0 <= k < |chains| ==> InMemory(h, chains[k])
    ensures forall k :: 0 <= k < |chains| ==> NoTwoFree(Layout(h, chains)[k])
    ensures Balanced(Layout(h, chains), usedBytes, freeBytes)
  {
    hide InMemory, Balanced, Tiled, Layout, NoTwoFree;
    LaidInMemory(h, arenas, chains);
  }

  /** One arena's blocks replaced by others that are settled too: the counts move by the difference. */
  lemma ArenaReplaced(v: seq<seq<Cell>>, k: nat, s: seq<Cell>, used0: nat, free0: nat, used1: nat, free1: nat)
    requires k < |v| && Balanced(v, used0, free0) && NoTwoFree(s) && forall j :: 0 <= j < |v| ==> NoTwoFree(v[j])
    requires used1 + UsedSize(v[k]) == used0 + UsedSize(s) && free1 + FreeWeight(v[k]) == free0 + FreeWeight(s)
    ensures Settled(v[k := s]) && Balanced(v[k := s], used1, free1)
  {
    hide FreeWeight, UsedSize, TotalFree, TotalUsed, NoTwoFree;
    TotalsUpdate(v, k, s);
  }

  /** Part of a total is at most the total. */
  lemma {:induction false} PartOfTotal(v: seq<seq<Cell>>, k: nat)
    requires k < |v|
    ensures UsedSize(v[k]) <= TotalUsed(v)
    ensures FreeWeight(v[k]) + HEADER * (|v| - 1) <= TotalFree(v) || exists j :: 0 <= j < |v| && v[j] == []
  {
    hide FreeWeight, UsedSize;
    if k > 0 {
      PartOfTotal(v[1..], k - 1);
    }
    FreeWeightLow(v[1..]);
    if exists j :: 0 <= j < |v[1..]| && v[1..][j] == [] {
      var j :| 0 <= j < |v[1..]| && v[1..][j] == [];
      assert v[j + 1] == [];
    }
    AtLeastHeader(v[0]);
  }

  lemma AtLeastHeader(s: seq<Cell>)
    ensures s != [] ==> FreeWeight(s) >= HEADER
  {
  }

  lemma {:induction false} FreeWeightLow(v: seq<seq<Cell>>)
    ensures HEADER * |v| <= TotalFree(v) || exists j :: 0 <= j < |v| && v[j] == []
  {
    hide FreeWeight;
    if v != [] {
      FreeWeightLow(v[1..]);
      AtLeastHeader(v[0]);
      if exists j :: 0 <= j < |v[1..]| && v[1..][j] == [] {
        var j :| 0 <= j < |v[1..]| && v[1..][j] == [];
        assert v[j + 1] == [];
      }
    }
  }

  /** A free block's bytes are among the free bytes, a used one's among the used bytes. */
  lemma CountedBytes(v: seq<seq<Cell>>, k: nat, i: nat, usedBytes: nat, freeBytes: nat)
    requires k < |v| && i < |v[k]| && Balanced(v, usedBytes, freeBytes) && forall j :: 0 <= j < |v| ==> v[j] != []
    ensures v[k][i].free ==> v[k][i].size <= freeBytes
    ensures !v[k][i].free ==> v[k][i].size <= usedBytes
  {
    hide TotalFree, TotalUsed, FreeWeight, UsedSize;
    PartOfTotal(v, k);
    CellInWeight(v[k], i);
  }

  lemma {:induction false} CellInWeight(s: seq<Cell>, i: nat)
    requires i < |s|
    ensures s[i].free ==> s[i].size + HEADER <= FreeWeight(s)
    ensures !s[i].free ==> s[i].size <= UsedSize(s)
  {
    if i > 0 {
      CellInWeight(s[1..], i - 1);
    }
  }

  lemma NoEmptyArena(h: Memory, arenas: seq<Arena>, chains: seq<seq<nat>>)
    requires Laid(h, arenas, chains) && forall k :: 0 <= k < |chains| ==> InMemory(h, chains[k])
    ensures forall k :: 0 <= k < |chains| ==> Layout(h, chains)[k] != []
  {
    hide Tiled, InMemory;
    forall k | 0 <= k < |chains| ensures Layout(h, chains)[k] != [] {
      TiledParts(h, arenas[k], chains[k]);
    }
  }

  /** take_block on a laid-out heap. */
  lemma TakeStep(h: Memory, arenas: seq<Arena>, chains: seq<seq<nat>>, used0: nat, free0: nat, k: nat, i: nat, needed: nat)
    requires HeapOk(h, arenas, chains, used0, free0) && k < |chains| && i < |chains[k]| && chains[k][i] in h
    requires h[chains[k][i]].free && 16 <= needed <= h[chains[k][i]].size && needed % 16 == 0
    requires h[chains[k][i]].next != 0 ==> h[chains[k][i]].next in h
    ensures var b, s := chains[k][i], Layout(h, chains)[k];
            var h1 := SplitMemory(h, b, needed);
            var chains' := chains[k := TakenChain(chains[k], s, i, needed)];
            && b in h1 && h1[b].size == Granted(s, i, needed) <= free0
            && var h2 := h1[b := h1[b].(free := false)];
            && HeapOk(h2, arenas, chains', used0 + h1[b].size, free0 - h1[b].size)
            && Layout(h2, chains') == Layout(h, chains)[k := Taken(s, i, needed)]
  {
    hide HeapOk, Laid, InMemory, Layout, SplitMemory, SplitCells, FreeWeight, UsedSize, Balanced, NoTwoFree, Settled,
         Taken, Granted, TakenChain;
    HeapParts(h, arenas, chains, used0, free0);
    var b, v := chains[k][i], Layout(h, chains);
    var s := v[k];
    LayoutAt(h, chains, k, i);
    SplitStep(h, arenas, chains, k, i, needed);
    var h1, c1 := SplitMemory(h, b, needed), TakenChain(chains[k], s, i, needed);
    var chains1 := chains[k := c1];
    Links(h1, arenas, chains1, k, i);
    TakenFacts(s, i, needed);
    LayoutAt(h1, chains1, k, i);
    FlagStep(h1, arenas, chains1, k, i, false);
    NoEmptyArena(h, arenas, chains);
    CountedBytes(v, k, i, used0, free0);
    GrantedLess(s, i, needed);
    TakenIs(s, i, needed);
    ArenaReplaced(v, k, Taken(s, i, needed), used0, free0, used0 + h1[b].size, free0 - h1[b].size);
    var h2 := h1[b := h1[b].(free := false)];
    TwiceUpdated(v, k, SplitCells(s, i, needed), Taken(s, i, needed));
    MakeHeap(h2, arenas, chains1, used0 + h1[b].size, free0 - h1[b].size);
  }

  lemma TwiceUpdated(v: seq<seq<Cell>>, k: nat, a: seq<Cell>, b: seq<Cell>)
    requires k < |v|
    ensures v[k := a][k := b] == v[k := b] && v[k := a][k] == a
  {
  }

  lemma LayoutAt(h: Memory, chains: seq<seq<nat>>, k: nat, i: nat)
    requires forall j :: 0 <= j < |chains| ==> InMemory(h, chains[j])
    requires k < |chains| && i < |chains[k]|
    ensures |Layout(h, chains)[k]| == |chains[k]| && chains[k][i] in h
    ensures Layout(h, chains)[k][i] == Cell(h[chains[k][i]].free, h[chains[k][i]].size)
  {
  }

  lemma GrantedLess(s: seq<Cell>, i: nat, needed: nat)
    requires i < |s| && s[i].size >= needed
    ensures needed <= Granted(s, i, needed) <= s[i].size
  {
  }

  lemma TakenIs(s: seq<Cell>, i: nat, needed: nat)
    requires i < |s| && s[i].size >= needed
    ensures i < |SplitCells(s, i, needed)|
    ensures Taken(s, i, needed) == SplitCells(s, i, needed)[i := Cell(false, SplitCells(s, i, needed)[i].size)]
  {
  }

  lemma MakeHeap(h: Memory, arenas: seq<Arena>, chains: seq<seq<nat>>, usedBytes: nat, freeBytes: nat)
    requires Laid(h, arenas, chains) && forall k :: 0 <= k < |chains| ==> InMemory(h, chains[k])
    requires Settled(Layout(h, chains)) && Balanced(Layout(h, chains), usedBytes, freeBytes)
    ensures HeapOk(h, arenas, chains, usedBytes, freeBytes)
  {
    hide Laid, InMemory, Settled, Balanced, Layout;
  }

  lemma UsedInHeap(h: Memory, arenas: seq<Arena>, chains: seq<seq<nat>>, used0: nat, free0: nat, k: nat, i: nat)
    requires HeapOk(h, arenas, chains, used0, free0) && k < |chains| && i < |chains[k]| && chains[k][i] in h
    requires !h[chains[k][i]].free
    ensures h[chains[k][i]].size <= used0
  {
    hide HeapOk, Laid, InMemory, Layout, Balanced, NoTwoFree;
    HeapParts(h, arenas, chains, used0, free0);
    LayoutAt(h, chains, k, i);
    NoEmptyArena(h, arenas, chains);
    CountedBytes(Layout(h, chains), k, i, used0, free0);
  }

  /** The block a user names by its payload. */
  ghost predicate IsBlock(chains: seq<seq<nat>>, b: nat, k: nat, i: nat) {
    k < |chains| && i < |chains[k]| && chains[k][i] == b
  }

  class KernelHeap {
    const pmm: PageAllocator
    var headers: Memory
    var arenas: seq<Arena>
    var usedBytes: nat
    var freeBytes: nat
    ghost var chains: seq<seq<nat>>

    ghost predicate Valid()
      reads this, pmm, pmm.bitmap
    {
      && pmm.Valid()
      && HeapOk(headers, arenas, chains, usedBytes, freeBytes)
      && Backed(arenas, pmm.live)
    }

    /** The heap's blocks, arena by arena, newest arena first. */
    ghost function Blocks(): seq<seq<Cell>>
      requires forall k :: 0 <= k < |chains| ==> InMemory(headers, chains[k])
      reads this
    {
      Layout(headers, chains)
    }

    ghost predicate LiveNow(p: nat, size: nat)
      requires forall k :: 0 <= k < |chains| ==> InMemory(headers, chains[k])
      reads this
    {
      LiveAt(chains, Blocks(), p, size)
    }

    /** kheap_init: one arena of 256 pages, if the page allocator has such a run. */
    constructor (pmm: PageAllocator)
      requires pmm.Valid()
      modifies pmm, pmm.bitmap
      ensures this.pmm == pmm && Valid() && usedBytes == 0 && Keeps(old(pmm.live), pmm.live)
      ensures forall k :: 0 <= k < |chains| ==> InMemory(headers, chains[k])
      ensures Blocks() == if exists s: nat :: Run(s, ARENA_PAGES) <= old(pmm.Free())
                          then [[Cell(true, ARENA_PAGES * PAGE_SIZE - ARENA_META - HEADER)]] else []
    {
      this.pmm := pmm;
      headers, arenas, chains, usedBytes, freeBytes := map[], [], [], 0, 0;
      new;
      EmptyHeap(pmm.live);
      LayoutNone(headers);
      var ok := AddArena(ARENA_PAGES);
      HeapMemory(headers, arenas, chains, usedBytes, freeBytes);
    }

    /** kheap_add_arena. */
    method AddArena(pages: nat) returns (ok: bool)
      requires Valid() && pages > 0
      modifies this`headers, this`arenas, this`freeBytes, this`chains, pmm, pmm.bitmap
      ensures Valid() && forall k :: 0 <= k < |old(chains)| ==> InMemory(old(headers), old(chains)[k])
      ensures ok <==> exists s: nat :: Run(s, pages) <= old(pmm.Free())
      ensures ok ==> |arenas| == |old(arenas)| + 1 && arenas[1..] == old(arenas) && arenas[0].pages == pages
                     && chains == [[arenas[0].First()]] + old(chains)
                     && pages * PAGE_SIZE >= ARENA_META + HEADER
                     && Blocks() == [[Cell(true, pages * PAGE_SIZE - ARENA_META - HEADER)]] + old(Layout(headers, chains))
      ensures Keeps(old(pmm.live), pmm.live) && NewOnFresh(old(arenas), arenas, old(pmm.live))
      ensures !ok ==> headers == old(headers) && arenas == old(arenas) && chains == old(chains) && freeBytes == old(freeBytes)
    {
      hide HeapOk, PageAllocator.Valid, PageAllocator.Free, Laid, InMemory, Layout, Balanced, Backed, Clear, Run, FirstFit,
           PageAllocator.Exact;
      HeapParts(headers, arenas, chains, usedBytes, freeBytes);
      pmm.Size();
      ghost var free, live0 := pmm.Free(), pmm.live;
      var phys := pmm.AllocContiguous(pages);
      if phys == 0 {
        return false;
      }
      ghost var p := phys / PAGE_SIZE;
      FitExists(free, p, pages);
      var arena := Arena(phys, pages);
      forall k | 0 <= k < |arenas| ensures arenas[k].End() <= arena.base || arena.End() <= arenas[k].base {
        NewArenaApart(arenas, live0, p, pages, k);
      }
      NewArena(headers, arenas, chains, arena);
      NewArenaBalance(Layout(headers, chains), pages, usedBytes, freeBytes);
      StillBacked(arenas, live0, p, pages);
      headers := headers[arena.First() := Header(true, pages * PAGE_SIZE - ARENA_META - HEADER, 0, 0)];
      arenas := [arena] + arenas;
      chains := [[arena.First()]] + chains;
      freeBytes := freeBytes + (pages * PAGE_SIZE - ARENA_META - HEADER);
      MakeHeap(headers, arenas, chains, usedBytes, freeBytes);
      return true;
    }

    /** split_block. */
    method SplitBlock(b: nat, needed: nat)
      requires b in headers && (headers[b].next != 0 ==> headers[b].next in headers) && needed <= headers[b].size
      modifies this`headers
      ensures headers == SplitMemory(old(headers), b, needed)
    {
      if headers[b].size < needed {
        return;
      }
      var remaining := headers[b].size - needed;
      if remaining <= HEADER + 16 {
        return;
      }
      var n, next := b + HEADER + needed, headers[b].next;
      headers := headers[n := Header(true, remaining - HEADER, b, next)];
      if next != 0 {
        headers := headers[next := headers[next].(prev := n)];
      }
      headers := headers[b := headers[b].(next := n, size := needed)];
    }

    /** try_merge_with_next. */
    method TryMergeWithNext(b: nat)
      requires b in headers && (headers[b].next != 0 ==> headers[b].next in headers)
      requires headers[b].next != 0 && headers[headers[b].next].next != 0 ==> headers[headers[b].next].next in headers
      modifies this`headers
      ensures headers == if old(headers)[b].next != 0 && old(headers)[old(headers)[b].next].free
                         then MergeMemory(old(headers), b) else old(headers)
    {
      if headers[b].next != 0 && headers[headers[b].next].free {
        var n := headers[b].next;
        var last := headers[n].next;
        headers := headers[b := headers[b].(size := headers[b].size + HEADER + headers[n].size, next := last)];
        if last != 0 {
          headers := headers[last := headers[last].(prev := b)];
        }
      }
    }

    /** take_block. */
    method TakeBlock(b: nat, needed: nat, ghost k: nat, ghost i: nat) returns (ptr: nat)
      requires Valid() && IsBlock(chains, b, k, i) && b in headers && headers[b].free
      requires 16 <= needed <= headers[b].size && needed % 16 == 0
      modifies this`headers, this`usedBytes, this`freeBytes, this`chains
      ensures Valid() && arenas == old(arenas) && ptr == b + HEADER
      ensures forall j :: 0 <= j < |old(chains)| ==> InMemory(old(headers), old(chains)[j])
      ensures k < |old(Layout(headers, chains))| && i < |old(Layout(headers, chains))[k]|
      ensures var v := old(Layout(headers, chains));
              && v[k][i] == Cell(true, old(headers[b].size))
              && Blocks() == v[k := Taken(v[k], i, needed)]
              && forall p, z :: LiveNow(p, z) <==>
                   LiveAt(old(chains), v, p, z) || (p == ptr && z == Granted(v[k], i, needed))
    {
      hide HeapOk, PageAllocator.Valid, Laid, InMemory, Layout, Balanced, Backed, SplitMemory, Taken, Granted, TakenChain,
           LiveAt;
      HeapParts(headers, arenas, chains, usedBytes, freeBytes);
      Links(headers, arenas, chains, k, i);
      LayoutAt(headers, chains, k, i);
      TakeStep(headers, arenas, chains, usedBytes, freeBytes, k, i, needed);
      ghost var v := Layout(headers, chains);
      ghost var chains0 := chains;
      SplitBlock(b, needed);
      headers := headers[b := headers[b].(free := false)];
      freeBytes := freeBytes - headers[b].size;
      usedBytes := usedBytes + headers[b].size;
      chains := chains[k := TakenChain(chains[k], v[k], i, needed)];
      HeapParts(headers, arenas, chains, usedBytes, freeBytes);
      forall p, z ensures LiveNow(p, z) <==> LiveAt(chains0, v, p, z) || (p == b + HEADER && z == Granted(v[k], i, needed)) {
        TakeLive(chains0, v, k, i, needed, p, z);
      }
      return b + HEADER;
    }

    /** The two loops of kmalloc: the first block that is free and large enough, newest arena first; 0 if there is none. */
    method FindBlock(needed: nat) returns (b: nat, ghost k: nat, ghost i: nat)
      requires Valid()
      ensures forall j :: 0 <= j < |chains| ==> InMemory(headers, chains[j])
      ensures b == 0 ==> NoneIn(Blocks(), |Blocks()|, needed)
      ensures b != 0 ==> IsBlock(chains, b, k, i) && FirstFitting(Blocks(), k, i, needed)
    {
      hide HeapOk, PageAllocator.Valid, Laid, InMemory, Layout, Balanced, Backed, NoneBefore, NoneIn;
      HeapParts(headers, arenas, chains, usedBytes, freeBytes);
      ghost var v := Blocks();
      NoneYet(v, needed);
      k, i := 0, 0;
      var arena := 0;
      while arena < |arenas|
        invariant arena <= |arenas| && k == arena
        invariant NoneIn(v, k, needed)
      {
        b := arenas[arena].First();
        i := 0;
        FirstLink(headers, arenas, chains, arena);
        NoneYet([v[k]], needed);
        NoneBeforeStart(v[k], needed);
        while b != 0
          invariant i <= |chains[k]| && b == if i < |chains[k]| then chains[k][i] else 0
          invariant NoneBefore(v[k], i, needed)
          decreases |chains[k]| - i
        {
          Links(headers, arenas, chains, k, i);
          LayoutAt(headers, chains, k, i);
          if headers[b].free && headers[b].size >= needed {
            return;
          }
          NoneStep(v[k], i, needed);
          b := headers[b].next;
          i := i + 1;
          NextLink(headers, arenas, chains, k, i);
        }
        LinksEnd(headers, arenas, chains, k, i);
        LayoutSize(headers, chains, k);
        NoneInStep(v, k, needed);
        arena := arena + 1;
        k := arena;
      }
      b := 0;
    }

    /**
     * kmalloc. First fit over the arenas; if nothing fits, a new arena serves the request, so that the
     * size check behind it can never fail. A result of 0 means size 0 or no run of pages.
     */
    method Kmalloc(size: nat) returns (ptr: nat, ghost grew: bool, ghost k: nat, ghost i: nat)
      requires Valid() && size + HEADER + ARENA_META + PAGE_SIZE + 16 < TWO_64
      modifies this, pmm, pmm.bitmap
      ensures Valid() && Keeps(old(pmm.live), pmm.live) && NewOnFresh(old(arenas), arenas, old(pmm.live))
      ensures forall j :: 0 <= j < |old(chains)| ==> InMemory(old(headers), old(chains)[j])
      ensures ptr == 0 ==> headers == old(headers) && arenas == old(arenas) && chains == old(chains)
                           && usedBytes == old(usedBytes) && freeBytes == old(freeBytes)
      ensures var v, needed := old(Layout(headers, chains)), AlignUp(size);
              && (ptr == 0 <==> size == 0 || (NoneIn(v, |v|, needed)
                                              && forall s: nat :: !(Run(s, PagesFor(needed)) <= old(pmm.Free()))))
              && (ptr != 0 ==>
                    var v1 := if grew then [[Cell(true, PagesFor(needed) * PAGE_SIZE - ARENA_META - HEADER)]] + v else v;
                    && (if grew then k == 0 && i == 0 && NoneIn(v, |v|, needed) else FirstFitting(v, k, i, needed))
                    && k < |v1| && i < |v1[k]| && Fits(v1[k][i], needed)
                    && Blocks() == v1[k := Taken(v1[k], i, needed)]
                    && ptr % 16 == 0 && size <= Granted(v1[k], i, needed) < size + HEADER + 32
                    && forall p, z :: LiveNow(p, z) <==>
                         LiveAt(old(chains), v, p, z) || (p == ptr && z == Granted(v1[k], i, needed)))
              && (forall z :: !LiveAt(old(chains), v, ptr, z))
    {
      hide HeapOk, PageAllocator.Valid, PageAllocator.Free, Laid, InMemory, Layout, Balanced, Backed, NoneBefore, NoneIn,
           Taken, Granted, LiveAt, PagesFor, AlignUp, Run, FirstFitting;
      HeapParts(headers, arenas, chains, usedBytes, freeBytes);
      ghost var h0, chains0, v := headers, chains, Layout(headers, chains);
      ptr, grew, k, i := 0, false, 0, 0;
      NullNotLive(headers, arenas, chains);
      if size == 0 {
        return;
      }
      var needed := AlignUp(size);
      Wanted(size);
      var b;
      b, k, i := FindBlock(needed);
      if b != 0 {
        Links(headers, arenas, chains, k, i);
        LayoutAt(headers, chains, k, i);
        FittingCell(v, k, i, needed);
        FreeNotLive(headers, arenas, chains, k, i, b + HEADER);
        PayloadsAligned(headers, arenas, chains, k, i);
        ptr := TakeBlock(b, needed, k, i);
        return;
      }
      var pages := PagesFor(needed);
      var ok := AddArena(pages);
      if !ok {
        return;
      }
      HeapParts(headers, arenas, chains, usedBytes, freeBytes);
      k, i, grew := 0, 0, true;
      b := arenas[0].First();
      Links(headers, arenas, chains, 0, 0);
      LayoutAt(headers, chains, 0, 0);
      NewArenaFits(pages, needed);
      FreeNotLive(headers, arenas, chains, 0, 0, b + HEADER);
      PayloadsAligned(headers, arenas, chains, 0, 0);
      ghost var chains1, v1 := chains, Layout(headers, chains);
      ptr := TakeBlock(b, needed, 0, 0);
      forall p, z ensures LiveAt(chains1, v1, p, z) <==> LiveAt(chains0, v, p, z) {
        NewArenaLive(chains0, v, chains1[0], v1[0], p, z);
      }
      forall z ensures !LiveAt(chains0, v, ptr, z) {
        assert !LiveAt(chains1, v1, ptr, z);
      }
    }

    /**
     * kfree. `magic` is what the test of the magic number in front of the payload finds; a pointer that
     * passes it is the payload of a block. A block that is free already stays as it is; a used one is
     * marked free and merged with its free neighbours on both sides.
     */
    method Kfree(ptr: nat, magic: bool, ghost k: nat, ghost i: nat)
      requires Valid() && (ptr != 0 && magic ==> ptr >= HEADER && IsBlock(chains, ptr - HEADER, k, i))
      modifies this`headers, this`usedBytes, this`freeBytes, this`chains
      ensures Valid() && arenas == old(arenas)
      ensures forall j :: 0 <= j < |old(chains)| ==> InMemory(old(headers), old(chains)[j])
      ensures var v := old(Layout(headers, chains));
              && (ptr == 0 || !magic || (k < |v| && i < |v[k]| && v[k][i].free) ==>
                    headers == old(headers) && chains == old(chains) && usedBytes == old(usedBytes) && freeBytes == old(freeBytes))
              && (ptr != 0 && magic ==> k < |v| && i < |v[k]| && (!v[k][i].free ==> Blocks() == v[k := Returned(v[k], i)]))
              && (forall p, z :: LiveNow(p, z) <==> LiveAt(old(chains), v, p, z) && (magic ==> p != ptr))
    {
      hide HeapOk, PageAllocator.Valid, Laid, InMemory, Layout, Balanced, Backed, LiveAt, LiveElse, MergeMemory, Returned, ReturnedChain,
           MergeCells, MergeChain, NoTwoFree, Settled, FreeWeight, UsedSize, TotalFree, TotalUsed;
      HeapParts(headers, arenas, chains, usedBytes, freeBytes);
      NullNotLive(headers, arenas, chains);
      if ptr == 0 {
        return;
      }
      if !magic {
        return;
      }
      var b := ptr - HEADER;
      Links(headers, arenas, chains, k, i);
      LayoutAt(headers, chains, k, i);
      if headers[b].free {
        FreeNotLive(headers, arenas, chains, k, i, ptr);
        return;
      }
      ghost var chains0, v := chains, Layout(headers, chains);
      ghost var s, used0, free0 := v[k], usedBytes, freeBytes;
      UsedInHeap(headers, arenas, chains, usedBytes, freeBytes, k, i);
      DistinctBlocks(headers, arenas, chains, k);
      NotElsewhere(headers, arenas, chains, k, i, ptr);
      FlagStep(headers, arenas, chains, k, i, true);
      headers := headers[b := headers[b].(free := true)];
      usedBytes := usedBytes - headers[b].size;
      freeBytes := freeBytes + headers[b].size;
      ghost var s1 := s[i := Cell(true, s[i].size)];
      Updates(v, k, s1);
      UpdatedTwice(v, k, s1, Returned(s, i));
      MergeBoth(b, k, i);
      ReturnedIs(chains0[k], s, i);
      ReturnedFacts(s, i);
      ArenaReplaced(v, k, Returned(s, i), used0, free0, usedBytes, freeBytes);
      MakeHeap(headers, arenas, chains, usedBytes, freeBytes);
      forall p, z ensures LiveNow(p, z) <==> LiveAt(chains0, v, p, z) && p != ptr {
        ReturnLive(chains0, v, k, i, ptr, p, z);
      }
    }

    /** try_merge_with_next, with the books kept. */
    method MergeNext(b: nat, ghost k: nat, ghost i: nat)
      requires Laid(headers, arenas, chains) && (forall j :: 0 <= j < |chains| ==> InMemory(headers, chains[j]))
      requires IsBlock(chains, b, k, i)
      modifies this`headers, this`chains
      ensures forall j :: 0 <= j < |old(chains)| ==> InMemory(old(headers), old(chains)[j])
      ensures Laid(headers, arenas, chains) && (forall j :: 0 <= j < |chains| ==> InMemory(headers, chains[j]))
      ensures k < |old(Layout(headers, chains))| && i < |old(Layout(headers, chains))[k]|
      ensures var v := old(Layout(headers, chains));
              var merged := i + 1 < |v[k]| && v[k][i + 1].free;
              && |old(chains)[k]| == |v[k]|
              && Blocks() == v[k := if merged then MergeCells(v[k], i) else v[k]]
              && chains == old(chains)[k := if merged then MergeChain(old(chains)[k], i) else old(chains)[k]]
              && IsBlock(chains, b, k, i)
    {
      hide Laid, InMemory, Layout, MergeMemory, MergeCells, MergeChain;
      NextOrNot(headers, arenas, chains, k, i);
      LayoutAt(headers, chains, k, i);
      ghost var s := Layout(headers, chains)[k];
      ghost var merged := i + 1 < |s| && s[i + 1].free;
      SameEntry(Layout(headers, chains), k);
      SameEntry(chains, k);
      TryMergeWithNext(b);
      chains := chains[k := if merged then MergeChain(chains[k], i) else chains[k]];
    }

    /** The freed block meets its neighbours: first the next one, then the one before. */
    method MergeBoth(b: nat, ghost k: nat, ghost i: nat)
      requires Laid(headers, arenas, chains) && (forall j :: 0 <= j < |chains| ==> InMemory(headers, chains[j]))
      requires IsBlock(chains, b, k, i) && b in headers && headers[b].free
      modifies this`headers, this`chains
      ensures forall j :: 0 <= j < |old(chains)| ==> InMemory(old(headers), old(chains)[j])
      ensures Laid(headers, arenas, chains) && (forall j :: 0 <= j < |chains| ==> InMemory(headers, chains[j]))
      ensures k < |old(Layout(headers, chains))| && i < |old(Layout(headers, chains))[k]|
      ensures var v, c := old(Layout(headers, chains)), old(chains);
              var s1 := v[k];
              var merged := i + 1 < |s1| && s1[i + 1].free;
              && |c[k]| == |s1|
              && var c2, s2 := if merged then MergeChain(c[k], i) else c[k], if merged then MergeCells(s1, i) else s1;
              && i < |s2| && |c2| == |s2|
              && var before := i > 0 && s2[i - 1].free;
              && Blocks() == v[k := if before then MergeCells(s2, i - 1) else s2]
              && chains == c[k := if before then MergeChain(c2, i - 1) else c2]
    {
      hide Laid, InMemory, Layout, MergeMemory, MergeCells, MergeChain;
      LayoutAt(headers, chains, k, i);
      ghost var v, c := Layout(headers, chains), chains;
      StillFree(v[k], i);
      MergeNext(b, k, i);
      Links(headers, arenas, chains, k, i);
      LayoutAt(headers, chains, k, i);
      ghost var v2, c2 := Layout(headers, chains), chains;
      Updates(v, k, v2[k]);
      Updates(c, k, c2[k]);
      if i > 0 {
        Links(headers, arenas, chains, k, i - 1);
        LayoutAt(headers, chains, k, i - 1);
      }
      if headers[b].prev != 0 && headers[headers[b].prev].free {
        MergeNext(headers[b].prev, k, i - 1);
        UpdatedTwice(v, k, v2[k], MergeCells(v2[k], i - 1));
        UpdatedTwice(c, k, c2[k], MergeChain(c2[k], i - 1));
      }
    }
  }

  lemma StillFree(s: seq<Cell>, i: nat)
    requires i < |s| && s[i].free
    ensures i + 1 < |s| ==> i < |MergeCells(s, i)| && MergeCells(s, i)[i].free
  {
  }

  lemma SameEntry<T>(v: seq<T>, k: nat)
    requires k < |v|
    ensures v[k := v[k]] == v
  {
  }

  lemma Updates<T>(v: seq<T>, k: nat, x: T)
    requires k < |v|
    ensures v[k := x][k] == x
  {
  }

  lemma UpdatedTwice<T>(v: seq<T>, k: nat, x: T, y: T)
    requires k < |v|
    ensures v[k := x][k := y] == v[k := y]
  {
  }

  lemma EmptyHeap(live: map<nat, nat>)
    ensures HeapOk(map[], [], [], 0, 0) && Backed([], live)
  {
  }

  lemma LayoutNone(h: Memory)
    ensures Layout(h, []) == []
  {
  }

  lemma HeapMemory(h: Memory, arenas: seq<Arena>, chains: seq<seq<nat>>, usedBytes: nat, freeBytes: nat)
    requires HeapOk(h, arenas, chains, usedBytes, freeBytes)
    ensures forall k :: 0 <= k < |chains| ==> InMemory(h, chains[k])
  {
    hide Laid, InMemory, Settled, Balanced, Layout;
  }

  // ---- What holds after every run of kmalloc and kfree ----

  /** Used and free bytes always add up to the payload the arenas brought in. */
  lemma HeapConserves(heap: KernelHeap)
    requires heap.Valid()
    ensures heap.usedBytes + heap.freeBytes == Capacity(heap.arenas)
  {
    hide Laid, Layout, Balanced, Settled, Capacity;
    HeapMemory(heap.headers, heap.arenas, heap.chains, heap.usedBytes, heap.freeBytes);
    Conservation(heap.headers, heap.arenas, heap.chains, heap.usedBytes, heap.freeBytes);
  }

  /** Payloads handed out are 16-aligned and overlap neither each other nor the header in front of the other. */
  lemma LivePayloadsApart(heap: KernelHeap, p: nat, z: nat, q: nat, w: nat)
    requires heap.Valid() && forall k :: 0 <= k < |heap.chains| ==> InMemory(heap.headers, heap.chains[k])
    requires heap.LiveNow(p, z) && heap.LiveNow(q, w) && p != q
    ensures p % 16 == 0 && (p + z <= q - HEADER || q + w <= p - HEADER)
  {
    hide Laid, Balanced, Settled, InMemory;
    var h, c, v := heap.headers, heap.chains, heap.Blocks();
    var k :| 0 <= k < |c| && k < |v| && LiveIn(c[k], v[k], p, z);
    var i :| 0 <= i < |c[k]| && i < |v[k]| && p == c[k][i] + HEADER && v[k][i] == Cell(false, z);
    var l :| 0 <= l < |c| && l < |v| && LiveIn(c[l], v[l], q, w);
    var j :| 0 <= j < |c[l]| && j < |v[l]| && q == c[l][j] + HEADER && v[l][j] == Cell(false, w);
    LayoutAt(h, c, k, i);
    LayoutAt(h, c, l, j);
    LaidInMemory(h, heap.arenas, c);
    PayloadsApart(h, heap.arenas, c, k, i, l, j);
  }

  /** When everything handed out has come back, no byte is in use and every arena is one full-size free block. */
  lemma NothingLive(heap: KernelHeap, k: nat)
    requires heap.Valid() && forall j :: 0 <= j < |heap.chains| ==> InMemory(heap.headers, heap.chains[j])
    requires forall p, z :: !heap.LiveNow(p, z)
    requires k < |heap.arenas|
    ensures k < |heap.Blocks()|
    ensures var s := heap.Blocks()[k];
            |s| == 1 && s[0].free && s[0].size + ARENA_META + HEADER == heap.arenas[k].pages * PAGE_SIZE
  {
    hide Laid, Balanced, Settled, InMemory;
    var h, c, v := heap.headers, heap.chains, heap.Blocks();
    LaidInMemory(h, heap.arenas, c);
    forall p, z ensures !LiveAt(c, v, p, z) {
      assert !heap.LiveNow(p, z);
    }
    forall i | 0 <= i < |c[k]| ensures c[k][i] in h && h[c[k][i]].free {
      LayoutAt(h, c, k, i);
      NotLiveIsFree(c, v, k, i);
    }
    AllFreed(h, heap.arenas, c, k);
  }

  lemma NotLiveIsFree(chains: seq<seq<nat>>, v: seq<seq<Cell>>, k: nat, i: nat)
    requires k < |chains| && k < |v| && i < |chains[k]| && i < |v[k]| && forall p, z :: !LiveAt(chains, v, p, z)
    ensures v[k][i].free
  {
    hide LiveAt;
    if !v[k][i].free {
      UsedIsLive(chains, v, k, i);
      assert false;
    }
  }

  lemma UsedIsLive(chains: seq<seq<nat>>, v: seq<seq<Cell>>, k: nat, i: nat)
    requires k < |chains| && k < |v| && i < |chains[k]| && i < |v[k]| && !v[k][i].free
    ensures LiveAt(chains, v, chains[k][i] + HEADER, v[k][i].size)
  {
    assert v[k][i] == Cell(false, v[k][i].size);
    assert LiveIn(chains[k], v[k], chains[k][i] + HEADER, v[k][i].size);
  }

  /** What try_merge_with_next finds behind block i. */
  lemma NextOrNot(h: Memory, arenas: seq<Arena>, chains: seq<seq<nat>>, k: nat, i: nat)
    requires Laid(h, arenas, chains) && k < |chains| && i < |chains[k]|
    requires forall j :: 0 <= j < |chains| ==> InMemory(h, chains[j])
    ensures chains[k][i] in h && (h[chains[k][i]].next != 0 ==> h[chains[k][i]].next in h)
    ensures h[chains[k][i]].next != 0 <==> i + 1 < |chains[k]|
    ensures h[chains[k][i]].next != 0 && h[h[chains[k][i]].next].next != 0 ==> h[h[chains[k][i]].next].next in h
    ensures i + 1 < |chains[k]| ==>
              && h[chains[k][i]].next == chains[k][i + 1] && chains[k][i + 1] in h
              && (h[chains[k][i + 1]].next != 0 ==> h[chains[k][i + 1]].next in h)
              && |Layout(h, chains)[k]| == |chains[k]|
              && h[chains[k][i + 1]].free == Layout(h, chains)[k][i + 1].free
              && var h', c' := MergeMemory(h, chains[k][i]), MergeChain(chains[k], i);
              var chains' := chains[k := c'];
              && Laid(h', arenas, chains') && (forall j :: 0 <= j < |chains'| ==> InMemory(h', chains'[j]))
              && Layout(h', chains') == Layout(h, chains)[k := MergeCells(Layout(h, chains)[k], i)]
              && i < |c'| && c'[i] == chains[k][i]
  {
    hide Laid, InMemory, Layout, MergeMemory, MergeChain, MergeCells;
    Links(h, arenas, chains, k, i);
    if i + 1 < |chains[k]| {
      Links(h, arenas, chains, k, i + 1);
      LayoutAt(h, chains, k, i + 1);
      MergeStep(h, arenas, chains, k, i);
    }
  }

  /** A payload address belongs to one block only. */
  lemma NotElsewhere(h: Memory, arenas: seq<Arena>, chains: seq<seq<nat>>, k: nat, i: nat, p: nat)
    requires Laid(h, arenas, chains) && forall j :: 0 <= j < |chains| ==> InMemory(h, chains[j])
    requires k < |chains| && i < |chains[k]| && p == chains[k][i] + HEADER
    ensures forall z :: !LiveElse(chains, Layout(h, chains), k, p, z)
  {
    hide Laid, InMemory, Layout;
    forall l: nat, j: nat | l < |chains| && l != k && j < |chains[l]| ensures chains[l][j] != chains[k][i] {
      PayloadsDiffer(h, arenas, chains, k, i, l, j);
    }
  }

  lemma PayloadsDiffer(h: Memory, arenas: seq<Arena>, chains: seq<seq<nat>>, k: nat, i: nat, l: nat, j: nat)
    requires Laid(h, arenas, chains) && k < |chains| && l < |chains| && i < |chains[k]| && j < |chains[l]| && k != l
    ensures chains[k][i] != chains[l][j]
  {
    hide Tiled;
    PayloadsApart(h, arenas, chains, k, i, l, j);
  }

  lemma DistinctBlocks(h: Memory, arenas: seq<Arena>, chains: seq<seq<nat>>, k: nat)
    requires Laid(h, arenas, chains) && k < |chains|
    ensures forall j, l :: 0 <= j < l < |chains[k]| ==> chains[k][j] != chains[k][l]
  {
    hide Tiled;
    Distinct(h, arenas[k], chains[k]);
  }

  lemma ReturnedIs(c: seq<nat>, s: seq<Cell>, i: nat)
    requires |c| == |s| && i < |s|
    ensures var s1 := s[i := Cell(true, s[i].size)];
            var merged := i + 1 < |s1| && s1[i + 1].free;
            var c2, s2 := if merged then MergeChain(c, i) else c, if merged then MergeCells(s1, i) else s1;
            var before := i > 0 && s2[i - 1].free;
            && Returned(s, i) == (if before then MergeCells(s2, i - 1) else s2)
            && ReturnedChain(c, s, i) == (if before then MergeChain(c2, i - 1) else c2)
  {
  }

  lemma ReturnLive(chains: seq<seq<nat>>, v: seq<seq<Cell>>, k: nat, i: nat, ptr: nat, p: nat, z: nat)
    requires |chains| == |v| && k < |v| && |chains[k]| == |v[k]| && i < |v[k]| && !v[k][i].free
    requires forall j, l :: 0 <= j < l < |chains[k]| ==> chains[k][j] != chains[k][l]
    requires ptr == chains[k][i] + HEADER && !LiveElse(chains, v, k, ptr, z)
    ensures LiveAt(chains[k := ReturnedChain(chains[k], v[k], i)], v[k := Returned(v[k], i)], p, z)
       <==> LiveAt(chains, v, p, z) && p != ptr
  {
    hide *;
    ReturnedLive(chains[k], v[k], i, p, z);
    LiveUpdate(chains, v, k, ReturnedChain(chains[k], v[k], i), Returned(v[k], i), p, z);
  }

  lemma NewArenaLive(chains: seq<seq<nat>>, v: seq<seq<Cell>>, c: seq<nat>, s: seq<Cell>, p: nat, z: nat)
    requires |s| == 1 && s[0].free
    ensures LiveAt([c] + chains, [s] + v, p, z) <==> LiveAt(chains, v, p, z)
  {
    var chains', v' := [c] + chains, [s] + v;
    if LiveAt(chains, v, p, z) {
      var k :| 0 <= k < |chains| && k < |v| && LiveIn(chains[k], v[k], p, z);
      assert LiveIn(chains'[k + 1], v'[k + 1], p, z);
    }
    if LiveAt(chains', v', p, z) {
      var k :| 0 <= k < |chains'| && k < |v'| && LiveIn(chains'[k], v'[k], p, z);
      assert k > 0 && chains'[k] == chains[k - 1] && v'[k] == v[k - 1];
    }
  }

  lemma NewArenaFits(pages: nat, needed: nat)
    requires pages == PagesFor(needed)
    ensures pages > 0 && pages * PAGE_SIZE >= ARENA_META + HEADER && pages * PAGE_SIZE - ARENA_META - HEADER >= needed
  {
  }

  lemma Wanted(size: nat)
    requires size > 0
    ensures AlignUp(size) >= 16 && AlignUp(size) % 16 == 0
  {
  }

  lemma FittingCell(v: seq<seq<Cell>>, k: nat, i: nat, needed: nat)
    requires FirstFitting(v, k, i, needed)
    ensures k < |v| && i < |v[k]| && Fits(v[k][i], needed) && !NoneIn(v, |v|, needed)
  {
    assert !NoneBefore(v[k], |v[k]|, needed);
  }

  lemma PayloadsAligned(h: Memory, arenas: seq<Arena>, chains: seq<seq<nat>>, k: nat, i: nat)
    requires Laid(h, arenas, chains) && k < |chains| && i < |chains[k]|
    ensures (chains[k][i] + HEADER) % 16 == 0
  {
    hide Tiled;
    PayloadAligned(h, arenas[k], chains[k], i);
  }

  lemma NullNotLive(h: Memory, arenas: seq<Arena>, chains: seq<seq<nat>>)
    requires forall k :: 0 <= k < |chains| ==> InMemory(h, chains[k])
    ensures forall z :: !LiveAt(chains, Layout(h, chains), 0, z)
  {
  }

  /** The payload of a free block is nobody's. */
  lemma FreeNotLive(h: Memory, arenas: seq<Arena>, chains: seq<seq<nat>>, k: nat, i: nat, p: nat)
    requires Laid(h, arenas, chains) && forall j :: 0 <= j < |chains| ==> InMemory(h, chains[j])
    requires k < |chains| && i < |chains[k]| && Layout(h, chains)[k][i].free && p == chains[k][i] + HEADER
    ensures forall z :: !LiveAt(chains, Layout(h, chains), p, z)
  {
    hide Laid, InMemory, Layout;
    var v: seq<seq<Cell>> := Layout(h, chains);
    forall l: nat, j: nat | l < |chains| && j < |chains[l]| && j < |v[l]| && chains[l][j] == chains[k][i] ensures v[l][j].free {
      LayoutAt(h, chains, l, j);
      LayoutAt(h, chains, k, i);
    }
  }

  lemma NoneYet(v: seq<seq<Cell>>, needed: nat)
    ensures NoneIn(v, 0, needed)
  {
  }

  lemma NoneBeforeStart(s: seq<Cell>, needed: nat)
    ensures NoneBefore(s, 0, needed)
  {
  }

  lemma NoneStep(s: seq<Cell>, i: nat, needed: nat)
    requires NoneBefore(s, i, needed) && (i < |s| ==> !Fits(s[i], needed))
    ensures NoneBefore(s, i + 1, needed)
  {
  }

  lemma NoneInStep(v: seq<seq<Cell>>, k: nat, needed: nat)
    requires NoneIn(v, k, needed) && (k < |v| ==> NoneBefore(v[k], |v[k]|, needed))
    ensures NoneIn(v, k + 1, needed)
  {
    hide NoneBefore;
  }

  lemma FirstLink(h: Memory, arenas: seq<Arena>, chains: seq<seq<nat>>, k: nat)
    requires Laid(h, arenas, chains) && k < |chains|
    ensures |chains[k]| > 0 && chains[k][0] == arenas[k].First() && arenas[k].First() != 0
  {
    hide BlockOk;
  }

  /** The link read off block i - 1 is block i, or NULL at the end. */
  lemma NextLink(h: Memory, arenas: seq<Arena>, chains: seq<seq<nat>>, k: nat, i: nat)
    requires Laid(h, arenas, chains) && k < |chains| && 0 < i <= |chains[k]|
    ensures chains[k][i - 1] in h
    ensures h[chains[k][i - 1]].next == if i < |chains[k]| then chains[k][i] else 0
  {
    hide Laid;
    Links(h, arenas, chains, k, i - 1);
  }

  lemma LinksEnd(h: Memory, arenas: seq<Arena>, chains: seq<seq<nat>>, k: nat, i: nat)
    requires Laid(h, arenas, chains) && k < |chains| && i <= |chains[k]|
    requires (if i < |chains[k]| then chains[k][i] else 0) == 0
    ensures i == |chains[k]|
  {
    hide Laid;
    if i < |chains[k]| {
      Links(h, arenas, chains, k, i);
      assert false;
    }
  }

  lemma LayoutSize(h: Memory, chains: seq<seq<nat>>, k: nat)
    requires k < |chains| && forall j :: 0 <= j < |chains| ==> InMemory(h, chains[j])
    ensures |Layout(h, chains)[k]| == |chains[k]|
  {
  }

  lemma TakeLive(chains: seq<seq<nat>>, v: seq<seq<Cell>>, k: nat, i: nat, needed: nat, p: nat, z: nat)
    requires |chains| == |v| && k < |v| && |chains[k]| == |v[k]| && i < |v[k]| && v[k][i].free && v[k][i].size >= needed
    ensures LiveAt(chains[k := TakenChain(chains[k], v[k], i, needed)], v[k := Taken(v[k], i, needed)], p, z)
       <==> LiveAt(chains, v, p, z) || (p == chains[k][i] + HEADER && z == Granted(v[k], i, needed))
  {
    hide *;
    TakenLive(chains[k], v[k], i, needed, p, z);
    LiveUpdate(chains, v, k, TakenChain(chains[k], v[k], i, needed), Taken(v[k], i, needed), p, z);
  }

  lemma FitExists(free: set<nat>, start: nat, n: nat)
    requires FirstFit(free, start, n)
    ensures exists s: nat :: Run(s, n) <= free
  {
    hide Run;
  }

  lemma NewArenaBalance(v: seq<seq<Cell>>, pages: nat, usedBytes: nat, freeBytes: nat)
    requires Balanced(v, usedBytes, freeBytes) && pages > 0
    requires forall k :: 0 <= k < |v| ==> NoTwoFree(v[k])
    ensures pages * PAGE_SIZE >= ARENA_META + HEADER
    ensures var size := pages * PAGE_SIZE - ARENA_META - HEADER;
            var v' := [[Cell(true, size)]] + v;
            Balanced(v', usedBytes, freeBytes + size) && Settled(v')
  {
    hide NoTwoFree;
    var size := pages * PAGE_SIZE - ARENA_META - HEADER;
    var v' := [[Cell(true, size)]] + v;
    assert v'[1..] == v && v'[0] == [Cell(true, size)];
    OneWeight(Cell(true, size));
    OneApart(Cell(true, size));
    forall k | 0 <= k < |v'| ensures NoTwoFree(v'[k]) {
    }
  }

  lemma OneApart(x: Cell)
    ensures NoTwoFree([x])
  {
  }
}
