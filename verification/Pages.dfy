/** The allocator's state and its operations. */
module Pages {
  import opened Platform
  import opened Bytes
  import opened Pmm

  /** The allocations handed out and not yet given back, start page to length. */
  ghost predicate Apart(live: map<nat, nat>, free: set<nat>) {
    && (forall s :: s in live ==> 0 < s && 0 < live[s] && s + live[s] <= MAX_PAGES && Run(s, live[s]) !! free)
    && (forall s, t :: s in live && t in live && s != t ==> Run(s, live[s]) !! Run(t, live[t]))
  }

  /** Every allocation of live is still there in live'. */
  ghost predicate Keeps(live: map<nat, nat>, live': map<nat, nat>) {
    forall s :: s in live ==> s in live' && live'[s] == live[s]
  }

  /** No allocation meets the range. */
  ghost predicate Clear(live: map<nat, nat>, start: nat, n: nat) {
    forall s :: s in live ==> Run(s, live[s]) !! Run(start, n)
  }

  /** The allocations that do not meet the freed pages. */
  ghost function Without(live: map<nat, nat>, start: nat, n: nat): map<nat, nat> {
    map s | s in live && Run(s, live[s]) !! Run(start, n) :: live[s]
  }

  lemma ApartAlloc(live: map<nat, nat>, free: set<nat>, start: nat, n: nat)
    requires Apart(live, free) && 0 < start && 0 < n && start + n <= MAX_PAGES && Run(start, n) <= free
    ensures start !in live && Apart(live[start := n], free - Run(start, n)) && Clear(live, start, n)
  {
    assert start in Run(start, n);
    assert start in live ==> start in Run(start, live[start]);
  }

  lemma FitIsFree(free: set<nat>, start: nat, n: nat)
    requires FirstFit(free, start, n) && 0 !in free && 0 < n
    ensures Run(start, n) <= free && start > 0
  {
    assert start in Run(start, n);
  }

  lemma ApartFree(live: map<nat, nat>, free: set<nat>, start: nat, n: nat)
    requires Apart(live, free)
    ensures Apart(Without(live, start, n), free + Run(start, n))
  {
  }

  class PageAllocator {
    const bitmap: array<byte>
    var totalPages: nat
    var freePages: nat
    var cursor: nat
    ghost var live: map<nat, nat>

    ghost function Free(): set<nat>
      requires bitmap.Length == BITMAP_BYTES
      reads bitmap
    {
      FreeIn(bitmap[..])
    }

    /** Page 0 is never free, so address 0 can mean failure; live allocations are in use and do not overlap. */
    ghost predicate Valid()
      reads this, bitmap
    {
      && bitmap.Length == BITMAP_BYTES && cursor <= MAX_PAGES
      && 0 !in Free() && |Free()| <= freePages
      && Apart(live, Free())
    }

    /** The free count is exact. */
    ghost predicate Exact()
      requires bitmap.Length == BITMAP_BYTES
      reads this, bitmap
    {
      freePages == |Free()|
    }

    lemma Size()
      requires Valid()
      ensures bitmap.Length == BITMAP_BYTES
    {
    }

    method BitTest(p: nat) returns (used: bool)
      requires bitmap.Length == BITMAP_BYTES && p < MAX_PAGES
      ensures used <==> p !in Free()
    {
      used := Used(bitmap[..], p);
    }

    method WriteBit(p: nat, on: bool)
      requires bitmap.Length == BITMAP_BYTES && p < MAX_PAGES
      modifies bitmap
      ensures Free() == if on then old(Free()) - {p} else old(Free()) + {p}
    {
      hide FreeIn, PutBit;
      FreeWithPage(bitmap[..], p, on);
      ghost var before := bitmap[..];
      bitmap[p / 8] := PutBit(bitmap[p / 8], p % 8, on);
      assert bitmap[..] == WithPage(before, p, on);
    }

    /** The pages one descriptor offers, bit by bit. */
    method TakeDescriptor(d: Descriptor)
      requires bitmap.Length == BITMAP_BYTES
      modifies this`freePages, this`totalPages, bitmap
      ensures Free() == old(Free()) + OfferedBy(d)
      ensures freePages == old(freePages) + |OfferedBy(d)|
      ensures var end := (d.First() + d.pages) % TWO_64;
              totalPages == if d.kind == CONVENTIONAL && end > old(totalPages) && end <= MAX_PAGES then end else old(totalPages)
    {
      hide FreeIn, Used, OfferedBy, Free;
      ghost var free := Free();
      OfferedNone(d, free);
      if d.kind == CONVENTIONAL {
        var startPage := d.First();
        var p := 0;
        while p < d.pages
          invariant p <= d.pages && totalPages == old(totalPages)
          invariant Free() == free + OfferedBy(d.(pages := p))
          invariant freePages == old(freePages) + |OfferedBy(d.(pages := p))|
        {
          var idx := startPage + p;
          if idx >= MAX_PAGES {
            OfferedBeyond(d, p);
            break;
          }
          OfferedNext(d, p, free);
          if idx != 0 {
            WriteBit(idx, false);
            freePages := freePages + 1;
          }
          p := p + 1;
        }
        var end := (startPage + d.pages) % TWO_64;
        if end > totalPages && end <= MAX_PAGES {
          totalPages := end;
        }
      }
    }

    /** pmm_init: everything reserved, then the conventional regions cleared. */
    constructor (entries: seq<Descriptor>, descriptorSize: nat)
      ensures var map_ := if descriptorSize == 0 then [] else entries;
              && Valid() && fresh(bitmap) && live == map[] && cursor == 0
              && Free() == Offered(map_)
              && totalPages == HighestEnd(map_)
              && (Exact() <==> Disjoint(map_))
    {
      hide Offered, Tally, HighestEnd, Disjoint, Used, FreeIn, OfferedBy;
      bitmap := new byte[BITMAP_BYTES](_ => 0xFF);
      totalPages, freePages, cursor, live := 0, 0, 0, map[];
      new;
      AllReserved(bitmap[..]);
      EmptyMap();
      if descriptorSize == 0 {
        return;
      }
      var i := 0;
      assert entries[..0] == [];
      while i < |entries|
        invariant i <= |entries| && bitmap.Length == BITMAP_BYTES && cursor == 0 && live == map[]
        invariant Free() == Offered(entries[..i]) && freePages == Tally(entries[..i])
        invariant totalPages == HighestEnd(entries[..i])
        modifies this`freePages, this`totalPages, bitmap
      {
        MapStep(entries, i);
        TakeDescriptor(entries[i]);
        i := i + 1;
      }
      assert entries[..i] == entries;
      TallyExact(entries);
      NeverPageZero(entries);
    }

    /** pmm_alloc_page: the next free page from the cursor on; 0 exactly when none is free. */
    method AllocPage() returns (addr: nat)
      requires Valid()
      modifies this`freePages, this`cursor, this`live, bitmap
      ensures Valid() && (old(Exact()) ==> Exact())
      ensures addr == 0 <==> old(Free()) == {}
      ensures addr == 0 ==> Free() == old(Free()) && live == old(live) && freePages == old(freePages) && cursor == old(cursor)
      ensures addr != 0 ==>
                var p := addr / PAGE_SIZE;
                && addr == p * PAGE_SIZE && NextFit(old(Free()), old(cursor), p)
                && Free() == old(Free()) - {p} && freePages == old(freePages) - 1 && cursor == p + 1
                && p !in old(live) && live == old(live)[p := 1]
                && Clear(old(live), p, 1)
    {
      hide FreeIn, Used, Apart, Clear, Run, Turn, NextFit, PutBit;
      ghost var free := Free();
      var i := 0;
      while i < MAX_PAGES
        invariant i <= MAX_PAGES && Free() == free
        invariant forall j: nat :: j < i ==> Turn(cursor, j) !in free
        modifies {}
      {
        var idx := Turn(cursor, i);
        var used := BitTest(idx);
        if !used {
          break;
        }
        i := i + 1;
      }
      if i < MAX_PAGES {
        var idx := Turn(cursor, i);
        TrackedPages(bitmap[..]);
        GoingRound(free, cursor, i);
        OnePage(idx);
        ApartAlloc(live, free, idx, 1);
        WriteBit(idx, true);
        freePages := freePages - 1;
        cursor := idx + 1;
        live := live[idx := 1];
        addr := idx * PAGE_SIZE;
      } else {
        AllSeen(free, bitmap[..], cursor);
        addr := 0;
      }
    }

    /** pmm_free_page. Pages that are out of range, or free already, are ignored. */
    method FreePage(addr: nat)
      requires Valid()
      modifies this`freePages, this`live, bitmap
      ensures Valid() && (old(Exact()) ==> Exact())
      ensures var p := addr / PAGE_SIZE;
              if p == 0 || p >= MAX_PAGES || p in old(Free())
              then Free() == old(Free()) && freePages == old(freePages) && live == old(live)
              else Free() == old(Free()) + {p} && freePages == old(freePages) + 1 && live == Without(old(live), p, 1)
    {
      hide FreeIn, Used, Apart, Run, Without, PutBit;
      var idx := addr / PAGE_SIZE;
      if idx == 0 || idx >= MAX_PAGES {
        return;
      }
      var used := BitTest(idx);
      if !used {
        return;
      }
      ApartFree(live, Free(), idx, 1);
      OnePage(idx);
      WriteBit(idx, false);
      freePages := freePages + 1;
      live := Without(live, idx, 1);
    }

    /** pmm_alloc_contiguous: the least run of `count` free pages; 0 exactly when there is none. */
    method AllocContiguous(count: nat) returns (addr: nat)
      requires Valid()
      modifies this`freePages, this`live, bitmap
      ensures Valid() && (old(Exact()) ==> Exact())
      ensures addr == 0 <==> count == 0 || forall s: nat :: !(Run(s, count) <= old(Free()))
      ensures addr == 0 ==> Free() == old(Free()) && live == old(live) && freePages == old(freePages)
      ensures addr != 0 ==>
                var p := addr / PAGE_SIZE;
                && addr == p * PAGE_SIZE && FirstFit(old(Free()), p, count) && p + count <= MAX_PAGES
                && Free() == old(Free()) - Run(p, count) && freePages == old(freePages) - count
                && p !in old(live) && live == old(live)[p := count]
                && Clear(old(live), p, count)
    {
      hide FreeIn, Used, FirstFit, Scanned, Apart, Clear, Run, PutBit;
      if count == 0 {
        return 0;
      }
      ghost var free := Free();
      var runStart: nat, runLen: nat := 0, 0;
      var idx := 0;
      ScanStart(free, count);
      while idx < MAX_PAGES
        invariant idx <= MAX_PAGES && runLen < count && Free() == free
        invariant Scanned(free, count, idx, runLen)
        invariant runLen > 0 ==> runStart == idx - runLen
        modifies {}
      {
        ScannedLength(free, count, idx, runLen);
        var used := BitTest(idx);
        if !used {
          if runLen == 0 {
            runStart := idx;
          }
          runLen := runLen + 1;
          if runLen == count {
            break;
          }
          ScanFree(free, count, idx, runLen - 1);
        } else {
          ScanUsed(free, count, idx, runLen);
          runLen := 0;
        }
        idx := idx + 1;
      }
      if runLen == count {
        ScanFound(free, count, idx, runLen - 1);
        addr := TakeRun(runStart, count, free);
      } else {
        FreeBelow(bitmap[..]);
        ScanEnd(free, count, runLen);
        addr := 0;
      }
    }

    /** The bits of the found run, set one by one. */
    method TakeRun(runStart: nat, count: nat, ghost free: set<nat>) returns (addr: nat)
      requires Valid() && Free() == free && FirstFit(free, runStart, count) && 0 < count && runStart + count <= MAX_PAGES
      modifies this`freePages, this`live, bitmap
      ensures Valid() && (old(Exact()) ==> Exact())
      ensures addr == runStart * PAGE_SIZE && addr != 0
      ensures Free() == free - Run(runStart, count) && freePages == old(freePages) - count
      ensures runStart !in old(live) && live == old(live)[runStart := count]
      ensures Clear(old(live), runStart, count)
    {
      hide FreeIn, Used, FirstFit, Apart, Clear, Run, PutBit, Free;
      FitIsFree(free, runStart, count);
      ApartAlloc(live, free, runStart, count);
      SetRun(runStart, count);
      RunSize(runStart, count);
      TakenSize(free, Run(runStart, count));
      freePages := freePages - count;
      live := live[runStart := count];
      addr := runStart * PAGE_SIZE;
    }

    method SetRun(start: nat, count: nat)
      requires bitmap.Length == BITMAP_BYTES && start + count <= MAX_PAGES
      modifies bitmap
      ensures Free() == old(Free()) - Run(start, count)
    {
      hide *;
      ghost var free := Free();
      TakenMore(free, start, 0);
      var p := 0;
      while p < count
        invariant p <= count && Free() == free - Run(start, p)
      {
        TakenMore(free, start, p);
        WriteBit(start + p, true);
        p := p + 1;
      }
    }

    method ClearRun(start: nat, count: nat)
      requires bitmap.Length == BITMAP_BYTES && start + count <= MAX_PAGES
      modifies this`freePages, bitmap
      ensures Free() == old(Free()) + Run(start, count)
      ensures freePages == old(freePages) + |Run(start, count) - old(Free())|
    {
      hide *;
      ghost var free := Free();
      NothingFreed(free, start);
      var p := 0;
      while p < count
        invariant p <= count
        invariant Free() == free + Run(start, p) && freePages == old(freePages) + |Run(start, p) - free|
      {
        FreedMore(free, start, p);
        var used := BitTest(start + p);
        if used {
          WriteBit(start + p, false);
          freePages := freePages + 1;
        }
        p := p + 1;
      }
    }

    /** pmm_free_contiguous. */
    method FreeContiguous(addr: nat, count: nat)
      requires Valid() && addr / PAGE_SIZE + count < TWO_64
      modifies this`freePages, this`live, bitmap
      ensures Valid() && (old(Exact()) ==> Exact())
      ensures var p := addr / PAGE_SIZE;
              if p == 0 || p + count > MAX_PAGES
              then Free() == old(Free()) && freePages == old(freePages) && live == old(live)
              else
                && Free() == old(Free()) + Run(p, count)
                && freePages == old(freePages) + |Run(p, count) - old(Free())|
                && live == Without(old(live), p, count)
    {
      hide FreeIn, Used, Apart, Without, Run, PutBit, Free;
      var startIdx := addr / PAGE_SIZE;
      if startIdx == 0 || startIdx + count > MAX_PAGES {
        return;
      }
      ghost var free := Free();
      ApartFree(live, free, startIdx, count);
      ClearRun(startIdx, count);
      RangeAdded(free, Run(startIdx, count));
      PageZeroNotIn(startIdx, count);
      live := Without(live, startIdx, count);
    }
  }

  lemma PageZeroNotIn(start: nat, n: nat)
    requires start > 0
    ensures 0 !in Run(start, n)
  {
  }

  lemma OfferedNone(d: Descriptor, free: set<nat>)
    ensures OfferedBy(d.(pages := 0)) == {} && free + {} == free
    ensures d.kind != CONVENTIONAL ==> OfferedBy(d) == {}
  {
  }

  lemma OfferedNext(d: Descriptor, n: nat, free: set<nat>)
    requires d.kind == CONVENTIONAL && d.First() + n < MAX_PAGES
    ensures var idx, r, r' := d.First() + n, OfferedBy(d.(pages := n)), OfferedBy(d.(pages := n + 1));
            if idx == 0 then r' == r else free + r + {idx} == free + r' && |r'| == |r| + 1
  {
    hide OfferedBy;
    OfferedStep(d, n);
    AddOne(free, OfferedBy(d.(pages := n)), d.First() + n);
  }

  lemma OfferedStep(d: Descriptor, n: nat)
    requires d.kind == CONVENTIONAL && d.First() + n < MAX_PAGES
    ensures var idx, r, r' := d.First() + n, OfferedBy(d.(pages := n)), OfferedBy(d.(pages := n + 1));
            idx !in r && r' == if idx == 0 then r else r + {idx}
  {
  }

  lemma AddOne(free: set<nat>, r: set<nat>, x: nat)
    requires x !in r
    ensures free + r + {x} == free + (r + {x}) && |r + {x}| == |r| + 1
  {
  }

  lemma AddOneBeyond(free: set<nat>, r: set<nat>, x: nat)
    requires x !in r
    ensures x in free ==> free + (r + {x}) == free + r && r + {x} - free == r - free
    ensures x !in free ==> r + {x} - free == r - free + {x} && x !in r - free
  {
  }

  lemma OfferedBeyond(d: Descriptor, n: nat)
    requires n <= d.pages && d.First() + n >= MAX_PAGES
    ensures OfferedBy(d.(pages := n)) == OfferedBy(d)
  {
  }

  lemma EmptyMap()
    ensures Offered([]) == {} && Tally([]) == 0 && HighestEnd([]) == 0 && Disjoint([])
  {
  }

  lemma MapStep(map_: seq<Descriptor>, i: nat)
    requires i < |map_|
    ensures Offered(map_[..i + 1]) == Offered(map_[..i]) + OfferedBy(map_[i])
    ensures Tally(map_[..i + 1]) == Tally(map_[..i]) + |OfferedBy(map_[i])|
    ensures var rest, d := HighestEnd(map_[..i]), map_[i];
            var end := (d.First() + d.pages) % TWO_64;
            HighestEnd(map_[..i + 1]) == if d.kind == CONVENTIONAL && end > rest && end <= MAX_PAGES then end else rest
  {
    hide OfferedBy;
    assert map_[..i + 1][..i] == map_[..i];
  }

  lemma AllReserved(s: seq<byte>)
    requires |s| == BITMAP_BYTES && forall i :: 0 <= i < |s| ==> s[i] == 0xFF
    ensures FreeIn(s) == {}
  {
    hide Bit;
    forall p: nat | p < MAX_PAGES ensures Used(s, p) {
      ConstantBits(p % 8);
    }
  }

  lemma NeverPageZero(map_: seq<Descriptor>)
    ensures 0 !in Offered(map_)
  {
    OfferedAll(map_, 0);
  }

  lemma AllSeen(free: set<nat>, s: seq<byte>, cursor: nat)
    requires |s| == BITMAP_BYTES && free == FreeIn(s) && forall j: nat :: j < MAX_PAGES ==> Turn(cursor, j) !in free
    ensures free == {}
  {
    hide Used;
    forall p | p in free ensures false {
      var i := EveryPageOnce(cursor, p);
    }
  }

  /** One more page of the range freed, unless it was free already. */
  lemma FreedMore(free: set<nat>, start: nat, n: nat)
    ensures var idx, r, r' := start + n, Run(start, n), Run(start, n + 1);
            && (idx in free + r <==> idx in free)
            && (idx in free ==> free + r' == free + r && |r' - free| == |r - free|)
            && (idx !in free ==> free + r + {idx} == free + r' && |r' - free| == |r - free| + 1)
  {
    hide Run;
    RunStep(start, n);
    AddOne(free, Run(start, n), start + n);
    AddOneBeyond(free, Run(start, n), start + n);
  }

  lemma RangeAdded(free: set<nat>, r: set<nat>)
    ensures |free + r| == |free| + |r - free|
  {
    assert free + r == free + (r - free);
    DisjointSize(free, r - free);
  }

  lemma TakenMore(free: set<nat>, start: nat, n: nat)
    ensures free - Run(start, n) - {start + n} == free - Run(start, n + 1)
    ensures free - Run(start, 0) == free
  {
    hide Run;
    RunStep(start, n);
  }

  lemma NothingFreed(free: set<nat>, start: nat)
    ensures Run(start, 0) - free == {} && free + {} == free
  {
  }

  lemma OnePage(p: nat)
    ensures Run(p, 1) == {p}
  {
  }

  lemma TrackedPages(bitmap: seq<byte>)
    requires |bitmap| == BITMAP_BYTES
    ensures forall p :: p in FreeIn(bitmap) ==> p < MAX_PAGES
  {
    hide Used;
  }

  lemma ScanStart(free: set<nat>, count: nat)
    requires count > 0
    ensures Scanned(free, count, 0, 0)
  {
  }

  lemma ScannedLength(free: set<nat>, count: nat, p: nat, n: nat)
    requires Scanned(free, count, p, n)
    ensures n <= p
  {
  }

  lemma FreeBelow(s: seq<byte>)
    requires |s| == BITMAP_BYTES
    ensures forall p :: p in FreeIn(s) ==> p < MAX_PAGES
  {
  }

  lemma TakenSize(free: set<nat>, r: set<nat>)
    requires r <= free
    ensures |free - r| == |free| - |r|
  {
  }

  lemma DisjointSize(a: set<nat>, b: set<nat>)
    requires a !! b
    ensures |a + b| == |a| + |b|
  {
  }
}
