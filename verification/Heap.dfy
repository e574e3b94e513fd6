/** The heap as memory: block headers in arenas, and what split and merge do to them. */
module Heap {
  import opened Platform

  const HEADER: nat := 32
  const ARENA_META: nat := 32

  /** block_header_t; 0 stands for NULL. */
  datatype Header = Header(free: bool, size: nat, prev: nat, next: nat)

  type Memory = map<nat, Header>

  datatype Arena = Arena(base: nat, pages: nat) {
    function First(): nat {
      base + ARENA_META
    }

    function End(): nat {
      base + pages * PAGE_SIZE
    }
  }

  /** A block as the heap's user sees it. */
  datatype Cell = Cell(free: bool, size: nat)

  ghost predicate InMemory(h: Memory, c: seq<nat>) {
    forall i :: 0 <= i < |c| ==> c[i] in h
  }

  ghost function Cells(h: Memory, c: seq<nat>): (r: seq<Cell>)
    requires InMemory(h, c)
    ensures |r| == |c|
  {
    seq(|c|, i requires 0 <= i < |c| => Cell(h[c[i]].free, h[c[i]].size))
  }

  /** Where the block behind block i starts, or the arena's end. */
  ghost function Behind(a: Arena, c: seq<nat>, i: nat): nat
    requires i < |c|
  {
    if i + 1 < |c| then c[i + 1] else a.End()
  }

  ghost function PrevOf(c: seq<nat>, i: nat): nat
    requires i < |c|
  {
    if i == 0 then 0 else c[i - 1]
  }

  ghost function NextOf(c: seq<nat>, i: nat): nat
    requires i < |c|
  {
    if i + 1 < |c| then c[i + 1] else 0
  }

  /** Header i of the chain: aligned, its links agree with the addresses, and its payload ends where the next header starts. */
  ghost predicate BlockOk(h: Memory, a: Arena, c: seq<nat>, i: nat)
    requires i < |c| && c[i] in h
  {
    && h[c[i]].size >= 16 && h[c[i]].size % 16 == 0 && c[i] % 16 == 0
    && c[i] + HEADER + h[c[i]].size == Behind(a, c, i)
    && h[c[i]].prev == PrevOf(c, i) && h[c[i]].next == NextOf(c, i)
  }

  /** The chain's blocks tile the arena from behind its metadata to its end. */
  ghost predicate Tiled(h: Memory, a: Arena, c: seq<nat>) {
    && a.base > 0 && a.base % PAGE_SIZE == 0
    && |c| > 0 && c[0] == a.First() && InMemory(h, c)
    && forall i :: 0 <= i < |c| ==> BlockOk(h, a, c, i)
  }

  ghost predicate NoTwoFree(s: seq<Cell>) {
    forall i :: 0 <= i < |s| - 1 ==> !(s[i].free && s[i + 1].free)
  }

  /** Blocks come in address order and do not overlap. */
  lemma {:induction false} Ordered(h: Memory, a: Arena, c: seq<nat>, i: nat, j: nat)
    requires Tiled(h, a, c) && i < j < |c|
    ensures c[i] + HEADER + h[c[i]].size <= c[j]
    decreases j
  {
    assert BlockOk(h, a, c, j - 1);
    if i < j - 1 {
      Ordered(h, a, c, i, j - 1);
    }
  }

  lemma {:induction false} InArena(h: Memory, a: Arena, c: seq<nat>, i: nat)
    requires Tiled(h, a, c) && i < |c|
    ensures a.base < c[i] && c[i] + HEADER + h[c[i]].size <= a.End()
    decreases |c| - i
  {
    assert BlockOk(h, a, c, i);
    if i > 0 {
      Ordered(h, a, c, 0, i);
    }
    if i + 1 < |c| {
      InArena(h, a, c, i + 1);
    }
  }

  // ---- split_block ----

  /** The memory after split_block(b, needed). */
  function SplitMemory(h: Memory, b: nat, needed: nat): Memory
    requires b in h && h[b].size >= needed && (h[b].next != 0 ==> h[b].next in h)
  {
    var remaining := h[b].size - needed;
    if remaining <= HEADER + 16 then h
    else
      var n, next := b + HEADER + needed, h[b].next;
      var h1 := h[n := Header(true, remaining - HEADER, b, next)];
      var h2 := if next != 0 then h1[next := h1[next].(prev := n)] else h1;
      h2[b := h2[b].(next := n, size := needed)]
  }

  ghost function SplitChain(h: Memory, c: seq<nat>, i: nat, needed: nat): seq<nat>
    requires i < |c| && c[i] in h && h[c[i]].size >= needed
  {
    if h[c[i]].size - needed <= HEADER + 16 then c
    else c[..i + 1] + [c[i] + HEADER + needed] + c[i + 1..]
  }

  function SplitCells(s: seq<Cell>, i: nat, needed: nat): seq<Cell>
    requires i < |s| && s[i].size >= needed
  {
    var remaining := s[i].size - needed;
    if remaining <= HEADER + 16 then s
    else s[..i] + [Cell(s[i].free, needed), Cell(true, remaining - HEADER)] + s[i + 1..]
  }

  /** What each address holds after the split. */
  lemma SplitRead(h: Memory, b: nat, needed: nat, x: nat)
    requires b in h && h[b].size >= needed && (h[b].next != 0 ==> h[b].next in h)
    requires h[b].size - needed > HEADER + 16 && h[b].next != b && h[b].next != b + HEADER + needed
    ensures var n, next := b + HEADER + needed, h[b].next;
            var h' := SplitMemory(h, b, needed);
            && b in h' && h'[b] == h[b].(next := n, size := needed)
            && n in h' && h'[n] == Header(true, h[b].size - needed - HEADER, b, next)
            && (next != 0 ==> next in h' && h'[next] == h[next].(prev := n))
            && (x in h && x != b && x != n && x != next ==> x in h' && h'[x] == h[x])
            && (x in h' && x != n ==> x in h)
  {
  }

  lemma {:induction false} Distinct(h: Memory, a: Arena, c: seq<nat>)
    requires Tiled(h, a, c)
    ensures forall j, l :: 0 <= j < l < |c| ==> c[j] != c[l]
    ensures forall j :: 0 <= j < |c| ==> c[j] != 0 && c[j] in h
  {
    hide Tiled, BlockOk;
    TiledParts(h, a, c);
    forall j, l | 0 <= j < l < |c| ensures c[j] != c[l] {
      Ordered(h, a, c, j, l);
    }
    forall j | 0 <= j < |c| ensures c[j] != 0 {
      InArena(h, a, c, j);
    }
  }

  lemma TiledParts(h: Memory, a: Arena, c: seq<nat>)
    requires Tiled(h, a, c)
    ensures a.base > 0 && a.base % PAGE_SIZE == 0 && |c| > 0 && c[0] == a.First() && InMemory(h, c)
  {
    hide BlockOk;
  }

  lemma BlockAt(h: Memory, a: Arena, c: seq<nat>, i: nat)
    requires Tiled(h, a, c) && i < |c|
    ensures c[i] in h && BlockOk(h, a, c, i)
  {
    hide BlockOk;
  }

  /** The new header's address is no old header's. */
  lemma SplitPlace(h: Memory, a: Arena, c: seq<nat>, i: nat, needed: nat)
    requires Tiled(h, a, c) && i < |c| && c[i] in h && h[c[i]].size - needed > HEADER + 16
    ensures forall j :: 0 <= j < |c| ==> c[j] != c[i] + HEADER + needed
  {
    hide Tiled, BlockOk;
    TiledParts(h, a, c);
    forall j | 0 <= j < |c| ensures c[j] != c[i] + HEADER + needed {
      if j > i {
        Ordered(h, a, c, i, j);
      } else if j < i {
        Ordered(h, a, c, j, i);
      }
    }
  }

  lemma SplitChainRead(h: Memory, c: seq<nat>, i: nat, needed: nat, j: nat)
    requires i < |c| && c[i] in h && h[c[i]].size - needed > HEADER + 16
    ensures var c' := SplitChain(h, c, i, needed);
            && |c'| == |c| + 1
            && (j <= |c| ==>
                  c'[j] == if j <= i then c[j] else if j == i + 1 then c[i] + HEADER + needed else c[j - 1])
  {
  }

  lemma SplitCellsRead(s: seq<Cell>, i: nat, needed: nat, j: nat)
    requires i < |s| && s[i].size - needed > HEADER + 16 && j <= |s|
    ensures var s' := SplitCells(s, i, needed);
            && |s'| == |s| + 1
            && s'[j] == if j == i then Cell(s[i].free, needed)
                        else if j == i + 1 then Cell(true, s[i].size - needed - HEADER)
                        else if j < i then s[j] else s[j - 1]
  {
  }

  lemma Aligned(b: nat, size: nat, needed: nat)
    requires b % 16 == 0 && size % 16 == 0 && needed % 16 == 0 && size - needed > HEADER + 16
    ensures (b + HEADER + needed) % 16 == 0 && (size - needed - HEADER) % 16 == 0 && size - needed - HEADER >= 16
  {
  }

  lemma CellAt(h: Memory, c: seq<nat>, j: nat)
    requires InMemory(h, c) && j < |c|
    ensures c[j] in h && Cells(h, c)[j] == Cell(h[c[j]].free, h[c[j]].size)
  {
  }

  lemma LinkAt(h: Memory, a: Arena, c: seq<nat>, i: nat)
    requires Tiled(h, a, c) && i < |c|
    ensures c[i] in h && h[c[i]].next == NextOf(c, i)
  {
    BlockAt(h, a, c, i);
  }

  /** The header of block j of the split chain. */
  ghost function SplitHeader(h: Memory, c: seq<nat>, i: nat, needed: nat, j: nat): Header
    requires i < |c| && InMemory(h, c) && j <= |c| && h[c[i]].size - needed > HEADER + 16
  {
    var n := c[i] + HEADER + needed;
    if j == i then h[c[i]].(next := n, size := needed)
    else if j == i + 1 then Header(true, h[c[i]].size - needed - HEADER, c[i], NextOf(c, i))
    else if j == i + 2 then h[c[i + 1]].(prev := n)
    else if j < i then h[c[j]] else h[c[j - 1]]
  }

  lemma SplitHeaderAt(h: Memory, a: Arena, c: seq<nat>, i: nat, needed: nat, j: nat)
    requires Tiled(h, a, c) && i < |c| && InMemory(h, c) && h[c[i]].size - needed > HEADER + 16 && j <= |c|
    requires h[c[i]].next != 0 ==> h[c[i]].next in h
    ensures var h', c' := SplitMemory(h, c[i], needed), SplitChain(h, c, i, needed);
            |c'| == |c| + 1 && c'[j] in h' && h'[c'[j]] == SplitHeader(h, c, i, needed, j)
  {
    hide Tiled, SplitMemory, SplitChain, BlockOk;
    Distinct(h, a, c);
    SplitPlace(h, a, c, i, needed);
    LinkAt(h, a, c, i);
    SplitChainRead(h, c, i, needed, j);
    SplitRead(h, c[i], needed, c[if j <= i then j else j - 1]);
  }

  /** Block j of the split chain, in terms of the old chain. */
  lemma SplitAt(h: Memory, a: Arena, c: seq<nat>, i: nat, needed: nat, j: nat)
    requires Tiled(h, a, c) && i < |c| && InMemory(h, c) && 16 <= needed <= h[c[i]].size && needed % 16 == 0
    requires h[c[i]].next != 0 ==> h[c[i]].next in h
    requires h[c[i]].size - needed > HEADER + 16 && j <= |c|
    ensures var h', c' := SplitMemory(h, c[i], needed), SplitChain(h, c, i, needed);
            |c'| == |c| + 1 && c'[j] in h' && BlockOk(h', a, c', j)
  {
    hide Tiled, SplitMemory, SplitChain;
    SplitHeaderAt(h, a, c, i, needed, j);
    SplitChainRead(h, c, i, needed, j);
    SplitChainRead(h, c, i, needed, j + 1);
    SplitChainRead(h, c, i, needed, if j > 0 then j - 1 else 0);
    BlockAt(h, a, c, i);
    Aligned(c[i], h[c[i]].size, needed);
    BlockAt(h, a, c, if j <= i then j else if j == i + 1 then i else j - 1);
  }

  lemma SplitCellAt(h: Memory, a: Arena, c: seq<nat>, i: nat, needed: nat, j: nat)
    requires Tiled(h, a, c) && i < |c| && InMemory(h, c) && h[c[i]].size - needed > HEADER + 16 && j <= |c|
    requires h[c[i]].next != 0 ==> h[c[i]].next in h
    ensures var h', c' := SplitMemory(h, c[i], needed), SplitChain(h, c, i, needed);
            && |c'| == |c| + 1 && c'[j] in h'
            && Cell(h'[c'[j]].free, h'[c'[j]].size) == SplitCells(Cells(h, c), i, needed)[j]
  {
    hide Tiled, SplitMemory, SplitChain, SplitCells, Cells;
    SplitHeaderAt(h, a, c, i, needed, j);
    CellAt(h, c, i);
    CellAt(h, c, if j <= i then j else j - 1);
    SplitCellsRead(Cells(h, c), i, needed, j);
  }

  /** Splitting keeps the tiling; the block becomes the wanted one and a free rest. */
  lemma SplitTiles(h: Memory, a: Arena, c: seq<nat>, i: nat, needed: nat)
    requires Tiled(h, a, c) && i < |c| && c[i] in h && 16 <= needed <= h[c[i]].size && needed % 16 == 0
    requires h[c[i]].next != 0 ==> h[c[i]].next in h
    ensures InMemory(h, c)
    ensures var h', c' := SplitMemory(h, c[i], needed), SplitChain(h, c, i, needed);
            && Tiled(h', a, c') && i < |c'| && c'[i] == c[i]
            && Cells(h', c') == SplitCells(Cells(h, c), i, needed)
  {
    hide SplitMemory, BlockOk;
    TiledParts(h, a, c);
    var h', c' := SplitMemory(h, c[i], needed), SplitChain(h, c, i, needed);
    if h[c[i]].size - needed > HEADER + 16 {
      forall j | 0 <= j < |c'|
        ensures c'[j] in h' && BlockOk(h', a, c', j)
        ensures Cell(h'[c'[j]].free, h'[c'[j]].size) == SplitCells(Cells(h, c), i, needed)[j]
      {
        SplitAt(h, a, c, i, needed, j);
        SplitCellAt(h, a, c, i, needed, j);
      }
      SplitHead(c, i, needed, h);
      assert Tiled(h', a, c');
    } else {
      SplitNot(h, c[i], needed);
    }
  }

  lemma SplitHead(c: seq<nat>, i: nat, needed: nat, h: Memory)
    requires i < |c| && c[i] in h && h[c[i]].size >= needed
    ensures var c' := SplitChain(h, c, i, needed); i < |c'| && c'[0] == c[0] && c'[i] == c[i]
  {
  }

  lemma SplitNot(h: Memory, b: nat, needed: nat)
    requires b in h && needed <= h[b].size <= needed + HEADER + 16 && (h[b].next != 0 ==> h[b].next in h)
    ensures SplitMemory(h, b, needed) == h
  {
  }

  // ---- try_merge_with_next ----

  /** The memory after try_merge_with_next(b) found a free successor. */
  function MergeMemory(h: Memory, b: nat): Memory
    requires b in h && h[b].next in h && (h[h[b].next].next != 0 ==> h[h[b].next].next in h)
  {
    var n := h[b].next;
    var h1 := h[b := h[b].(size := h[b].size + HEADER + h[n].size, next := h[n].next)];
    if h[n].next != 0 then h1[h[n].next := h1[h[n].next].(prev := b)] else h1
  }

  function MergeCells(s: seq<Cell>, i: nat): seq<Cell>
    requires i + 1 < |s|
  {
    s[..i] + [Cell(s[i].free, s[i].size + HEADER + s[i + 1].size)] + s[i + 2..]
  }

  lemma MergeRead(h: Memory, b: nat, x: nat)
    requires b in h && h[b].next in h && (h[h[b].next].next != 0 ==> h[h[b].next].next in h)
    requires h[h[b].next].next != b
    ensures var n := h[b].next;
            var next := h[n].next;
            var h' := MergeMemory(h, b);
            && b in h' && h'[b] == h[b].(size := h[b].size + HEADER + h[n].size, next := next)
            && (next != 0 ==> next in h' && h'[next] == h[next].(prev := b))
            && (x in h && x != b && x != next ==> x in h' && h'[x] == h[x])
            && (x in h' ==> x in h)
  {
  }

  lemma MergeCellsRead(s: seq<Cell>, i: nat, j: nat)
    requires i + 1 < |s| && j < |s| - 1
    ensures var s' := MergeCells(s, i);
            && |s'| == |s| - 1
            && s'[j] == if j == i then Cell(s[i].free, s[i].size + HEADER + s[i + 1].size)
                        else if j < i then s[j] else s[j + 1]
  {
  }

  function MergeChain(c: seq<nat>, i: nat): seq<nat>
    requires i + 1 < |c|
  {
    c[..i + 1] + c[i + 2..]
  }

  /** The header of block j of the merged chain. */
  ghost function MergeHeader(h: Memory, c: seq<nat>, i: nat, j: nat): Header
    requires i + 1 < |c| && InMemory(h, c) && j < |c| - 1
  {
    if j == i then h[c[i]].(size := h[c[i]].size + HEADER + h[c[i + 1]].size, next := NextOf(c, i + 1))
    else if j == i + 1 then h[c[i + 2]].(prev := c[i])
    else if j < i then h[c[j]] else h[c[j + 1]]
  }

  lemma MergeHeaderAt(h: Memory, a: Arena, c: seq<nat>, i: nat, j: nat)
    requires Tiled(h, a, c) && i + 1 < |c| && j < |c| - 1 && InMemory(h, c)
    requires h[c[i]].next == c[i + 1] && (h[c[i + 1]].next != 0 ==> h[c[i + 1]].next in h)
    ensures var h', c' := MergeMemory(h, c[i]), MergeChain(c, i);
            |c'| == |c| - 1 && c'[j] in h' && h'[c'[j]] == MergeHeader(h, c, i, j)
  {
    hide Tiled, MergeMemory, MergeChain, BlockOk;
    Distinct(h, a, c);
    LinkAt(h, a, c, i + 1);
    MergeChainRead(c, i, j);
    MergeRead(h, c[i], c[if j <= i then j else j + 1]);
  }

  lemma JoinedSize(x: nat, y: nat)
    requires x % 16 == 0 && y % 16 == 0
    ensures (x + HEADER + y) % 16 == 0
  {
  }

  lemma MergeAt(h: Memory, a: Arena, c: seq<nat>, i: nat, j: nat)
    requires Tiled(h, a, c) && i + 1 < |c| && j < |c| - 1 && InMemory(h, c)
    requires h[c[i]].next == c[i + 1] && (h[c[i + 1]].next != 0 ==> h[c[i + 1]].next in h)
    ensures var h', c' := MergeMemory(h, c[i]), MergeChain(c, i);
            |c'| == |c| - 1 && c'[j] in h' && BlockOk(h', a, c', j)
  {
    hide Tiled, MergeMemory, MergeChain;
    MergeHeaderAt(h, a, c, i, j);
    MergeChainRead(c, i, j);
    MergeChainRead(c, i, j + 1);
    if j > 0 {
      MergeChainRead(c, i, j - 1);
    }
    if j < i {
      BlockAt(h, a, c, j);
    } else if j > i {
      BlockAt(h, a, c, j + 1);
    } else {
      BlockAt(h, a, c, i);
      BlockAt(h, a, c, i + 1);
      JoinedSize(h[c[i]].size, h[c[i + 1]].size);
    }
  }

  lemma MergeCellAt(h: Memory, a: Arena, c: seq<nat>, i: nat, j: nat)
    requires Tiled(h, a, c) && i + 1 < |c| && j < |c| - 1 && InMemory(h, c)
    requires h[c[i]].next == c[i + 1] && (h[c[i + 1]].next != 0 ==> h[c[i + 1]].next in h)
    ensures var h', c' := MergeMemory(h, c[i]), MergeChain(c, i);
            && |c'| == |c| - 1 && c'[j] in h'
            && Cell(h'[c'[j]].free, h'[c'[j]].size) == MergeCells(Cells(h, c), i)[j]
  {
    hide Tiled, MergeMemory, MergeChain, MergeCells, Cells;
    MergeHeaderAt(h, a, c, i, j);
    CellAt(h, c, i);
    CellAt(h, c, i + 1);
    CellAt(h, c, if j <= i then j else j + 1);
    MergeCellsRead(Cells(h, c), i, j);
  }

  lemma MergeChainRead(c: seq<nat>, i: nat, j: nat)
    requires i + 1 < |c|
    ensures |MergeChain(c, i)| == |c| - 1
    ensures j < |c| - 1 ==> MergeChain(c, i)[j] == if j <= i then c[j] else c[j + 1]
  {
  }

  /** Merging keeps the tiling; the two blocks and the header between them become one block. */
  lemma MergeTiles(h: Memory, a: Arena, c: seq<nat>, i: nat)
    requires Tiled(h, a, c) && i + 1 < |c| && c[i] in h && c[i + 1] in h
    requires h[c[i]].next == c[i + 1] && (h[c[i + 1]].next != 0 ==> h[c[i + 1]].next in h)
    ensures InMemory(h, c)
    ensures var h', c' := MergeMemory(h, c[i]), MergeChain(c, i);
            && Tiled(h', a, c') && i < |c'| && c'[i] == c[i]
            && Cells(h', c') == MergeCells(Cells(h, c), i)
  {
    hide MergeMemory, BlockOk;
    TiledParts(h, a, c);
    var h', c' := MergeMemory(h, c[i]), MergeChain(c, i);
    forall j | 0 <= j < |c'|
      ensures c'[j] in h' && BlockOk(h', a, c', j)
      ensures Cell(h'[c'[j]].free, h'[c'[j]].size) == MergeCells(Cells(h, c), i)[j]
    {
      MergeAt(h, a, c, i, j);
      MergeCellAt(h, a, c, i, j);
    }
    assert c'[0] == c[0];
    assert Tiled(h', a, c');
  }

  // ---- The free flag ----

  lemma FlagTiles(h: Memory, a: Arena, c: seq<nat>, i: nat, free: bool)
    requires Tiled(h, a, c) && i < |c| && c[i] in h
    ensures InMemory(h, c)
    ensures var h' := h[c[i] := h[c[i]].(free := free)];
            Tiled(h', a, c) && Cells(h', c) == Cells(h, c)[i := Cell(free, h[c[i]].size)]
  {
    var h' := h[c[i] := h[c[i]].(free := free)];
    Distinct(h, a, c);
    forall j | 0 <= j < |c| ensures BlockOk(h', a, c, j) {
      assert BlockOk(h, a, c, j);
    }
  }

  // ---- Sizes ----

  /** Free bytes, headers counted too: what g_free_bytes counts, and one header per arena more. */
  function FreeWeight(s: seq<Cell>): nat {
    if s == [] then 0 else HEADER + (if s[0].free then s[0].size else 0) + FreeWeight(s[1..])
  }

  function UsedSize(s: seq<Cell>): nat {
    if s == [] then 0 else (if s[0].free then 0 else s[0].size) + UsedSize(s[1..])
  }

  lemma {:induction false} WeightConcat(s: seq<Cell>, t: seq<Cell>)
    ensures FreeWeight(s + t) == FreeWeight(s) + FreeWeight(t)
    ensures UsedSize(s + t) == UsedSize(s) + UsedSize(t)
  {
    if s == [] {
      assert s + t == t;
    } else {
      assert (s + t)[1..] == s[1..] + t;
      WeightConcat(s[1..], t);
    }
  }

  lemma WeightMiddle(s: seq<Cell>, m: seq<Cell>, t: seq<Cell>)
    ensures FreeWeight(s + m + t) == FreeWeight(s) + FreeWeight(m) + FreeWeight(t)
    ensures UsedSize(s + m + t) == UsedSize(s) + UsedSize(m) + UsedSize(t)
  {
    WeightConcat(s + m, t);
    WeightConcat(s, m);
  }

  lemma OneWeight(x: Cell)
    ensures FreeWeight([x]) == HEADER + (if x.free then x.size else 0) && UsedSize([x]) == if x.free then 0 else x.size
  {
    assert [x][1..] == [];
  }

  lemma TwoWeight(x: Cell, y: Cell)
    ensures FreeWeight([x, y]) == FreeWeight([x]) + FreeWeight([y]) && UsedSize([x, y]) == UsedSize([x]) + UsedSize([y])
  {
    assert [x, y] == [x] + [y];
    WeightConcat([x], [y]);
  }

  /** The cells with those from i to j replaced. */
  lemma Replaced(s: seq<Cell>, i: nat, j: nat, m: seq<Cell>)
    requires i <= j <= |s|
    ensures FreeWeight(s[..i] + m + s[j..]) + FreeWeight(s[i..j]) == FreeWeight(s) + FreeWeight(m)
    ensures UsedSize(s[..i] + m + s[j..]) + UsedSize(s[i..j]) == UsedSize(s) + UsedSize(m)
  {
    hide FreeWeight, UsedSize;
    assert s == s[..i] + s[i..j] + s[j..];
    WeightMiddle(s[..i], s[i..j], s[j..]);
    WeightMiddle(s[..i], m, s[j..]);
  }

  /** Taking a block moves exactly its size from the free bytes to the used ones, split or not. */
  lemma TakeWeight(s: seq<Cell>, i: nat, needed: nat)
    requires i < |s| && s[i].free && s[i].size >= needed
    ensures var s1 := SplitCells(s, i, needed);
            && i < |s1| && s1[i].free && needed <= s1[i].size <= s[i].size
            && var s2 := s1[i := Cell(false, s1[i].size)];
            && FreeWeight(s2) + s1[i].size == FreeWeight(s)
            && UsedSize(s2) == UsedSize(s) + s1[i].size
  {
    hide FreeWeight, UsedSize;
    var s1 := SplitCells(s, i, needed);
    var s2 := s1[i := Cell(false, s1[i].size)];
    assert s[i..i + 1] == [s[i]];
    OneWeight(s[i]);
    if s[i].size - needed <= HEADER + 16 {
      assert s2 == s[..i] + [Cell(false, s[i].size)] + s[i + 1..];
      Replaced(s, i, i + 1, [Cell(false, s[i].size)]);
      OneWeight(Cell(false, s[i].size));
    } else {
      var x, y := Cell(false, needed), Cell(true, s[i].size - needed - HEADER);
      assert s2 == s[..i] + [x, y] + s[i + 1..];
      Replaced(s, i, i + 1, [x, y]);
      TwoWeight(x, y);
      OneWeight(x);
      OneWeight(y);
    }
  }

  lemma FreeCellWeight(s: seq<Cell>, i: nat)
    requires i < |s| && !s[i].free
    ensures var s1 := s[i := Cell(true, s[i].size)];
            FreeWeight(s1) == FreeWeight(s) + s[i].size && UsedSize(s1) + s[i].size == UsedSize(s)
  {
    hide FreeWeight, UsedSize;
    assert s[i..i + 1] == [s[i]];
    assert s[i := Cell(true, s[i].size)] == s[..i] + [Cell(true, s[i].size)] + s[i + 1..];
    Replaced(s, i, i + 1, [Cell(true, s[i].size)]);
    OneWeight(s[i]);
    OneWeight(Cell(true, s[i].size));
  }

  /** Merging two free blocks moves no byte. */
  lemma MergeWeight(s: seq<Cell>, i: nat)
    requires i + 1 < |s| && s[i].free && s[i + 1].free
    ensures FreeWeight(MergeCells(s, i)) == FreeWeight(s) && UsedSize(MergeCells(s, i)) == UsedSize(s)
  {
    hide FreeWeight, UsedSize;
    var m := Cell(s[i].free, s[i].size + HEADER + s[i + 1].size);
    assert s[i..i + 2] == [s[i], s[i + 1]];
    Replaced(s, i, i + 2, [m]);
    TwoWeight(s[i], s[i + 1]);
    OneWeight(s[i]);
    OneWeight(s[i + 1]);
    OneWeight(m);
  }

  /** Free and used bytes together fill the arena. */
  lemma {:induction false} ArenaWeight(h: Memory, a: Arena, c: seq<nat>, i: nat)
    requires Tiled(h, a, c) && i < |c|
    ensures c[i] + FreeWeight(Cells(h, c)[i..]) + UsedSize(Cells(h, c)[i..]) == a.End()
    decreases |c| - i
  {
    var s := Cells(h, c);
    assert BlockOk(h, a, c, i);
    assert s[i..][1..] == s[i + 1..];
    if i + 1 < |c| {
      ArenaWeight(h, a, c, i + 1);
    } else {
      assert s[i + 1..] == [];
    }
  }
}
