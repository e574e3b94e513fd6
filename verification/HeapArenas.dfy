/** All arenas together: what changing one of them leaves alone, and the byte counts over all. */
module HeapArenas {
  import opened Platform
  import opened Heap

  ghost predicate ArenasApart(arenas: seq<Arena>) {
    forall j, k :: 0 <= j < k < |arenas| ==> arenas[j].End() <= arenas[k].base || arenas[k].End() <= arenas[j].base
  }

  /** Every arena is tiled by its chain, and the arenas do not overlap. */
  ghost predicate Laid(h: Memory, arenas: seq<Arena>, chains: seq<seq<nat>>) {
    && |chains| == |arenas| && ArenasApart(arenas)
    && forall k :: 0 <= k < |arenas| ==> Tiled(h, arenas[k], chains[k])
  }

  /** Every arena's blocks as the user sees them. */
  ghost function Layout(h: Memory, chains: seq<seq<nat>>): (v: seq<seq<Cell>>)
    requires forall k :: 0 <= k < |chains| ==> InMemory(h, chains[k])
    ensures |v| == |chains|
  {
    seq(|chains|, k requires 0 <= k < |chains| => Cells(h, chains[k]))
  }

  lemma LaidInMemory(h: Memory, arenas: seq<Arena>, chains: seq<seq<nat>>)
    requires Laid(h, arenas, chains)
    ensures forall k :: 0 <= k < |chains| ==> InMemory(h, chains[k])
    ensures |chains| == |arenas|
  {
    hide Tiled, InMemory;
    forall k | 0 <= k < |chains| ensures InMemory(h, chains[k]) {
      TiledParts(h, arenas[k], chains[k]);
    }
  }

  ghost predicate Settled(v: seq<seq<Cell>>) {
    forall k :: 0 <= k < |v| ==> NoTwoFree(v[k])
  }

  /** Outside arena a, memory h' is as h. */
  ghost predicate SameOutside(h: Memory, h': Memory, a: Arena) {
    forall x :: x in h && !(a.base < x < a.End()) ==> x in h' && h'[x] == h[x]
  }

  /** A chain whose headers are all kept is laid out as before. */
  lemma TiledKept(h: Memory, h': Memory, a: Arena, c: seq<nat>)
    requires Tiled(h, a, c) && forall i :: 0 <= i < |c| ==> c[i] in h' && h'[c[i]] == h[c[i]]
    ensures Tiled(h', a, c) && InMemory(h, c) && Cells(h', c) == Cells(h, c)
  {
    forall i | 0 <= i < |c| ensures BlockOk(h', a, c, i) {
      assert BlockOk(h, a, c, i);
    }
  }

  lemma OtherArena(h: Memory, h': Memory, arenas: seq<Arena>, chains: seq<seq<nat>>, k: nat, j: nat)
    requires Laid(h, arenas, chains) && k < |arenas| && j < |arenas| && j != k && SameOutside(h, h', arenas[k])
    ensures Tiled(h', arenas[j], chains[j]) && InMemory(h, chains[j]) && InMemory(h', chains[j])
    ensures Cells(h', chains[j]) == Cells(h, chains[j])
  {
    hide Tiled, Cells;
    LaidInMemory(h, arenas, chains);
    forall i | 0 <= i < |chains[j]| ensures chains[j][i] in h' && h'[chains[j][i]] == h[chains[j][i]] {
      InArena(h, arenas[j], chains[j], i);
    }
    TiledKept(h, h', arenas[j], chains[j]);
    TiledParts(h', arenas[j], chains[j]);
  }

  /** One arena changes inside itself: the others do not notice. */
  lemma OneArena(h: Memory, h': Memory, arenas: seq<Arena>, chains: seq<seq<nat>>, k: nat, c': seq<nat>)
    requires Laid(h, arenas, chains) && k < |arenas| && Tiled(h', arenas[k], c') && SameOutside(h, h', arenas[k])
    ensures Laid(h', arenas, chains[k := c'])
    ensures forall j :: 0 <= j < |chains| ==> InMemory(h, chains[j]) && InMemory(h', chains[k := c'][j])
    ensures Layout(h', chains[k := c']) == Layout(h, chains)[k := Cells(h', c')]
  {
    hide Tiled, Cells, SameOutside;
    LaidInMemory(h, arenas, chains);
    TiledParts(h', arenas[k], c');
    var chains' := chains[k := c'];
    forall j | 0 <= j < |arenas|
      ensures Tiled(h', arenas[j], chains'[j]) && InMemory(h', chains'[j])
      ensures j != k ==> Cells(h', chains'[j]) == Cells(h, chains[j])
    {
      if j != k {
        OtherArena(h, h', arenas, chains, k, j);
      }
    }
  }

  // ---- Split, merge and flag stay inside their arena ----

  lemma SplitFrame(h: Memory, a: Arena, c: seq<nat>, i: nat, needed: nat)
    requires Tiled(h, a, c) && i < |c| && InMemory(h, c) && needed <= h[c[i]].size
    requires h[c[i]].next != 0 ==> h[c[i]].next in h
    ensures SameOutside(h, SplitMemory(h, c[i], needed), a)
  {
    hide Tiled, BlockOk;
    InArena(h, a, c, i);
    LinkAt(h, a, c, i);
    if i + 1 < |c| {
      InArena(h, a, c, i + 1);
    }
  }

  lemma MergeFrame(h: Memory, a: Arena, c: seq<nat>, i: nat)
    requires Tiled(h, a, c) && i + 1 < |c| && InMemory(h, c)
    requires h[c[i]].next == c[i + 1] && (h[c[i + 1]].next != 0 ==> h[c[i + 1]].next in h)
    ensures SameOutside(h, MergeMemory(h, c[i]), a)
  {
    hide Tiled, BlockOk;
    InArena(h, a, c, i);
    LinkAt(h, a, c, i + 1);
    if i + 2 < |c| {
      InArena(h, a, c, i + 2);
    }
  }

  lemma FlagFrame(h: Memory, a: Arena, c: seq<nat>, i: nat, free: bool)
    requires Tiled(h, a, c) && i < |c| && InMemory(h, c)
    ensures SameOutside(h, h[c[i] := h[c[i]].(free := free)], a)
  {
    hide Tiled, BlockOk;
    InArena(h, a, c, i);
  }

  // ---- Byte counts ----

  function TotalFree(v: seq<seq<Cell>>): nat {
    if v == [] then 0 else FreeWeight(v[0]) + TotalFree(v[1..])
  }

  function TotalUsed(v: seq<seq<Cell>>): nat {
    if v == [] then 0 else UsedSize(v[0]) + TotalUsed(v[1..])
  }

  lemma {:induction false} TotalsUpdate(v: seq<seq<Cell>>, k: nat, s: seq<Cell>)
    requires k < |v|
    ensures TotalFree(v[k := s]) + FreeWeight(v[k]) == TotalFree(v) + FreeWeight(s)
    ensures TotalUsed(v[k := s]) + UsedSize(v[k]) == TotalUsed(v) + UsedSize(s)
  {
    hide FreeWeight, UsedSize;
    if k == 0 {
      assert v[0 := s][1..] == v[1..];
    } else {
      assert v[k := s][1..] == v[1..][k - 1 := s];
      TotalsUpdate(v[1..], k - 1, s);
    }
  }

  /** g_free_bytes leaves one header per arena out of account. */
  ghost predicate Balanced(v: seq<seq<Cell>>, usedBytes: nat, freeBytes: nat) {
    usedBytes == TotalUsed(v) && freeBytes + HEADER * |v| == TotalFree(v)
  }

  /** The payload all arenas had when they were added. */
  function Capacity(arenas: seq<Arena>): int {
    if arenas == [] then 0 else arenas[0].pages * PAGE_SIZE - ARENA_META - HEADER + Capacity(arenas[1..])
  }

  lemma ArenaTotal(h: Memory, a: Arena, c: seq<nat>)
    requires Tiled(h, a, c)
    ensures InMemory(h, c) && FreeWeight(Cells(h, c)) + UsedSize(Cells(h, c)) == a.pages * PAGE_SIZE - ARENA_META
  {
    hide BlockOk, FreeWeight, UsedSize;
    ArenaWeight(h, a, c, 0);
    assert Cells(h, c)[0..] == Cells(h, c);
  }

  lemma {:induction false} TotalCapacity(h: Memory, arenas: seq<Arena>, chains: seq<seq<nat>>)
    requires Laid(h, arenas, chains)
    ensures forall k :: 0 <= k < |chains| ==> InMemory(h, chains[k])
    ensures TotalFree(Layout(h, chains)) + TotalUsed(Layout(h, chains)) == Capacity(arenas) + HEADER * |arenas|
  {
    hide Tiled, FreeWeight, UsedSize, Cells;
    LaidInMemory(h, arenas, chains);
    if arenas != [] {
      ArenaTotal(h, arenas[0], chains[0]);
      assert Laid(h, arenas[1..], chains[1..]);
      TotalCapacity(h, arenas[1..], chains[1..]);
      assert Layout(h, chains)[1..] == Layout(h, chains[1..]);
    }
  }

  /** Conservation: used and free bytes together are what the arenas brought in. */
  lemma Conservation(h: Memory, arenas: seq<Arena>, chains: seq<seq<nat>>, usedBytes: nat, freeBytes: nat)
    requires Laid(h, arenas, chains)
    requires forall k :: 0 <= k < |chains| ==> InMemory(h, chains[k])
    requires Balanced(Layout(h, chains), usedBytes, freeBytes)
    ensures usedBytes + freeBytes == Capacity(arenas)
  {
    hide Laid, Layout;
    TotalCapacity(h, arenas, chains);
    LaidInMemory(h, arenas, chains);
  }

  lemma OneLeft(s: seq<Cell>)
    requires |s| > 0 && NoTwoFree(s) && forall i :: 0 <= i < |s| ==> s[i].free
    ensures |s| == 1
  {
    if |s| > 1 {
      NotTwo(s, 0);
      assert false;
    }
  }

  lemma NotTwo(s: seq<Cell>, i: nat)
    requires NoTwoFree(s) && i + 1 < |s|
    ensures !s[i].free || !s[i + 1].free
  {
  }

  /** With everything freed, each arena is one free block again. */
  lemma AllFreed(h: Memory, arenas: seq<Arena>, chains: seq<seq<nat>>, k: nat)
    requires Laid(h, arenas, chains) && k < |arenas|
    requires forall j :: 0 <= j < |chains| ==> InMemory(h, chains[j])
    requires Settled(Layout(h, chains)) && forall i :: 0 <= i < |chains[k]| ==> h[chains[k][i]].free
    ensures var s := Layout(h, chains)[k];
            |s| == 1 && s[0].free && s[0].size + ARENA_META + HEADER == arenas[k].pages * PAGE_SIZE
  {
    var c, s := chains[k], Layout(h, chains)[k];
    OneLeft(s);
    BlockAt(h, arenas[k], c, 0);
  }

  /** Payloads of different blocks do not overlap each other, nor any header. */
  lemma PayloadsApart(h: Memory, arenas: seq<Arena>, chains: seq<seq<nat>>, k: nat, i: nat, l: nat, j: nat)
    requires Laid(h, arenas, chains) && k < |arenas| && l < |arenas| && i < |chains[k]| && j < |chains[l]|
    requires k != l || i != j
    ensures var b, d := chains[k][i], chains[l][j];
            && b in h && d in h && (b + HEADER) % 16 == 0
            && (b + HEADER + h[b].size <= d || d + HEADER + h[d].size <= b)
  {
    hide Tiled, BlockOk;
    TiledParts(h, arenas[k], chains[k]);
    TiledParts(h, arenas[l], chains[l]);
    PayloadAligned(h, arenas[k], chains[k], i);
    if k == l {
      if i < j {
        Ordered(h, arenas[k], chains[k], i, j);
      } else {
        Ordered(h, arenas[k], chains[k], j, i);
      }
    } else {
      InArena(h, arenas[k], chains[k], i);
      InArena(h, arenas[l], chains[l], j);
    }
  }

  lemma PayloadAligned(h: Memory, a: Arena, c: seq<nat>, i: nat)
    requires Tiled(h, a, c) && i < |c|
    ensures (c[i] + HEADER) % 16 == 0
  {
    BlockAt(h, a, c, i);
  }

  // ---- A new arena ----

  lemma NewArena(h: Memory, arenas: seq<Arena>, chains: seq<seq<nat>>, a: Arena)
    requires Laid(h, arenas, chains) && a.base > 0 && a.base % PAGE_SIZE == 0 && a.pages > 0
    requires forall k :: 0 <= k < |arenas| ==> arenas[k].End() <= a.base || a.End() <= arenas[k].base
    ensures var h' := h[a.First() := Header(true, a.pages * PAGE_SIZE - ARENA_META - HEADER, 0, 0)];
            var chains' := [[a.First()]] + chains;
            && Laid(h', [a] + arenas, chains')
            && (forall k :: 0 <= k < |chains| ==> InMemory(h, chains[k]))
            && (forall k :: 0 <= k < |chains'| ==> InMemory(h', chains'[k]))
            && Layout(h', chains') == [[Cell(true, a.pages * PAGE_SIZE - ARENA_META - HEADER)]] + Layout(h, chains)
  {
    hide BlockOk;
    var h' := h[a.First() := Header(true, a.pages * PAGE_SIZE - ARENA_META - HEADER, 0, 0)];
    var arenas', chains' := [a] + arenas, [[a.First()]] + chains;
    LaidInMemory(h, arenas, chains);
    FirstBlock(h', a);
    forall k | 0 <= k < |arenas'|
      ensures Tiled(h', arenas'[k], chains'[k])
      ensures k > 0 ==> InMemory(h, chains[k - 1]) && Cells(h', chains'[k]) == Cells(h, chains[k - 1])
    {
      if k > 0 {
        var c := chains[k - 1];
        forall i | 0 <= i < |c| ensures c[i] in h' && h'[c[i]] == h[c[i]] {
          InArena(h, arenas[k - 1], c, i);
        }
        TiledKept(h, h', arenas[k - 1], c);
      }
    }
    assert Laid(h', arenas', chains');
    LaidInMemory(h', arenas', chains');
    assert Cells(h', [a.First()]) == [Cell(true, a.pages * PAGE_SIZE - ARENA_META - HEADER)];
  }

  lemma FirstBlock(h: Memory, a: Arena)
    requires a.base > 0 && a.base % PAGE_SIZE == 0 && a.pages > 0
    requires a.First() in h && h[a.First()] == Header(true, a.pages * PAGE_SIZE - ARENA_META - HEADER, 0, 0)
    ensures Tiled(h, a, [a.First()])
  {
    hide Tiled;
    FirstAligned(a);
    MakeTiled(h, a, [a.First()]);
  }

  lemma FirstAligned(a: Arena)
    requires a.base % PAGE_SIZE == 0 && a.pages > 0
    ensures a.First() % 16 == 0
    ensures (a.pages * PAGE_SIZE - ARENA_META - HEADER) % 16 == 0 && a.pages * PAGE_SIZE - ARENA_META - HEADER >= 16
  {
    var q := a.base / PAGE_SIZE;
    assert a.First() == 16 * (256 * q + 2);
    assert a.pages * PAGE_SIZE - ARENA_META - HEADER == 16 * (256 * a.pages - 4);
  }

  lemma MakeTiled(h: Memory, a: Arena, c: seq<nat>)
    requires a.base > 0 && a.base % PAGE_SIZE == 0 && |c| == 1 && c[0] == a.First() && c[0] in h && BlockOk(h, a, c, 0)
    ensures Tiled(h, a, c)
  {
    hide BlockOk;
  }
}
