/** Taking and giving back a block, as steps on the heap's value. */
module HeapSteps {
  import opened Heap

  // ---- Which payloads are handed out ----

  /** p is the payload of a used block of `size` bytes of this chain. */
  ghost predicate LiveIn(c: seq<nat>, s: seq<Cell>, p: nat, size: nat) {
    exists i :: 0 <= i < |c| && i < |s| && p == c[i] + HEADER && s[i] == Cell(false, size)
  }

  ghost predicate LiveAt(chains: seq<seq<nat>>, v: seq<seq<Cell>>, p: nat, size: nat) {
    exists k :: 0 <= k < |chains| && k < |v| && LiveIn(chains[k], v[k], p, size)
  }

  lemma LiveUpdate(chains: seq<seq<nat>>, v: seq<seq<Cell>>, k: nat, c: seq<nat>, s: seq<Cell>, p: nat, size: nat)
    requires |chains| == |v| && k < |v|
    ensures LiveAt(chains[k := c], v[k := s], p, size) <==> LiveIn(c, s, p, size) || LiveElse(chains, v, k, p, size)
    ensures LiveAt(chains, v, p, size) <==> LiveIn(chains[k], v[k], p, size) || LiveElse(chains, v, k, p, size)
  {
    hide LiveIn;
    var chains', v' := chains[k := c], v[k := s];
    if LiveElse(chains, v, k, p, size) {
      var j :| 0 <= j < |chains| && j < |v| && j != k && LiveIn(chains[j], v[j], p, size);
      assert LiveIn(chains'[j], v'[j], p, size);
    }
    if LiveIn(c, s, p, size) {
      assert LiveIn(chains'[k], v'[k], p, size);
    }
  }

  ghost predicate LiveElse(chains: seq<seq<nat>>, v: seq<seq<Cell>>, k: nat, p: nat, size: nat) {
    exists j :: 0 <= j < |chains| && j < |v| && j != k && LiveIn(chains[j], v[j], p, size)
  }

  lemma SplitLive(c: seq<nat>, s: seq<Cell>, i: nat, needed: nat, n: nat, p: nat, size: nat)
    requires |c| == |s| && i < |s| && s[i].free && s[i].size - needed > HEADER + 16
    ensures LiveIn(c[..i + 1] + [n] + c[i + 1..], SplitCells(s, i, needed), p, size) <==> LiveIn(c, s, p, size)
  {
    hide SplitCells;
    var c', s' := c[..i + 1] + [n] + c[i + 1..], SplitCells(s, i, needed);
    if LiveIn(c, s, p, size) {
      var j :| 0 <= j < |c| && j < |s| && p == c[j] + HEADER && s[j] == Cell(false, size);
      var l := if j <= i then j else j + 1;
      SplitCellsRead(s, i, needed, l);
      assert c'[l] == c[j];
    }
    if LiveIn(c', s', p, size) {
      var l :| 0 <= l < |c'| && l < |s'| && p == c'[l] + HEADER && s'[l] == Cell(false, size);
      SplitCellsRead(s, i, needed, l);
      var j := if l <= i then l else l - 1;
      assert s[j] == Cell(false, size) && c[j] == c'[l];
    }
  }

  lemma UseLive(c: seq<nat>, s: seq<Cell>, i: nat, p: nat, size: nat)
    requires |c| == |s| && i < |s| && s[i].free
    ensures LiveIn(c, s[i := Cell(false, s[i].size)], p, size)
       <==> LiveIn(c, s, p, size) || (p == c[i] + HEADER && size == s[i].size)
  {
    var s' := s[i := Cell(false, s[i].size)];
    if LiveIn(c, s, p, size) {
      var j :| 0 <= j < |c| && j < |s| && p == c[j] + HEADER && s[j] == Cell(false, size);
      assert s'[j] == s[j];
    }
    if p == c[i] + HEADER && size == s[i].size {
      assert s'[i] == Cell(false, size);
    }
  }

  lemma UnuseLive(c: seq<nat>, s: seq<Cell>, i: nat, p: nat, size: nat)
    requires |c| == |s| && i < |s| && !s[i].free && forall j, l :: 0 <= j < l < |c| ==> c[j] != c[l]
    ensures LiveIn(c, s[i := Cell(true, s[i].size)], p, size) <==> LiveIn(c, s, p, size) && p != c[i] + HEADER
  {
    var s' := s[i := Cell(true, s[i].size)];
    if LiveIn(c, s, p, size) && p != c[i] + HEADER {
      var j :| 0 <= j < |c| && j < |s| && p == c[j] + HEADER && s[j] == Cell(false, size);
      assert s'[j] == s[j];
    }
    if LiveIn(c, s', p, size) {
      var j :| 0 <= j < |c| && j < |s'| && p == c[j] + HEADER && s'[j] == Cell(false, size);
      assert s[j] == Cell(false, size);
    }
  }

  lemma MergeLive(c: seq<nat>, s: seq<Cell>, i: nat, p: nat, size: nat)
    requires |c| == |s| && i + 1 < |s| && s[i].free && s[i + 1].free
    ensures LiveIn(MergeChain(c, i), MergeCells(s, i), p, size) <==> LiveIn(c, s, p, size)
  {
    hide MergeChain, MergeCells;
    var c', s' := MergeChain(c, i), MergeCells(s, i);
    if LiveIn(c, s, p, size) {
      var j :| 0 <= j < |c| && j < |s| && p == c[j] + HEADER && s[j] == Cell(false, size);
      var l := if j <= i then j else j - 1;
      MergeCellsRead(s, i, l);
      MergeChainRead(c, i, l);
      assert s'[l] == s[j] && c'[l] == c[j];
    }
    MergeChainRead(c, i, 0);
    MergeCellsRead(s, i, 0);
    if LiveIn(c', s', p, size) {
      var l :| 0 <= l < |c'| && l < |s'| && p == c'[l] + HEADER && s'[l] == Cell(false, size);
      MergeCellsRead(s, i, l);
      MergeChainRead(c, i, l);
      var j := if l <= i then l else l + 1;
      assert s[j] == Cell(false, size) && c[j] == c'[l];
    }
  }

  // ---- Taking a block ----

  /** The blocks after take_block: split if the rest is worth a block, then marked used. */
  function Taken(s: seq<Cell>, i: nat, needed: nat): seq<Cell>
    requires i < |s| && s[i].size >= needed
  {
    var s1 := SplitCells(s, i, needed);
    assert i < |s1|;
    s1[i := Cell(false, s1[i].size)]
  }

  /** How many bytes the taken block has: those needed, or a few more where the rest would make no block. */
  function Granted(s: seq<Cell>, i: nat, needed: nat): (size: nat)
    requires i < |s| && s[i].size >= needed
    ensures needed <= size <= needed + HEADER + 16 && (size == needed || size == s[i].size)
  {
    if s[i].size - needed <= HEADER + 16 then s[i].size else needed
  }

  lemma TakenFacts(s: seq<Cell>, i: nat, needed: nat)
    requires i < |s| && s[i].size >= needed && s[i].free && NoTwoFree(s)
    ensures NoTwoFree(Taken(s, i, needed))
    ensures FreeWeight(Taken(s, i, needed)) + Granted(s, i, needed) == FreeWeight(s)
    ensures UsedSize(Taken(s, i, needed)) == UsedSize(s) + Granted(s, i, needed)
    ensures i < |SplitCells(s, i, needed)| && SplitCells(s, i, needed)[i] == Cell(true, Granted(s, i, needed))
  {
    hide FreeWeight, UsedSize;
    TakeWeight(s, i, needed);
  }

  function TakenChain(c: seq<nat>, s: seq<Cell>, i: nat, needed: nat): seq<nat>
    requires |c| == |s| && i < |s| && s[i].size >= needed
  {
    if s[i].size - needed <= HEADER + 16 then c else c[..i + 1] + [c[i] + HEADER + needed] + c[i + 1..]
  }

  lemma TakenLive(c: seq<nat>, s: seq<Cell>, i: nat, needed: nat, p: nat, size: nat)
    requires |c| == |s| && i < |s| && s[i].free && s[i].size >= needed
    ensures LiveIn(TakenChain(c, s, i, needed), Taken(s, i, needed), p, size)
       <==> LiveIn(c, s, p, size) || (p == c[i] + HEADER && size == Granted(s, i, needed))
  {
    hide LiveIn;
    var s1 := SplitCells(s, i, needed);
    if s[i].size - needed > HEADER + 16 {
      var c' := c[..i + 1] + [c[i] + HEADER + needed] + c[i + 1..];
      SplitLive(c, s, i, needed, c[i] + HEADER + needed, p, size);
      UseLive(c', s1, i, p, size);
    } else {
      UseLive(c, s, i, p, size);
    }
  }

  // ---- Giving a block back ----

  /** The blocks after kfree: marked free, merged with a free successor, then with a free predecessor. */
  function Returned(s: seq<Cell>, i: nat): seq<Cell>
    requires i < |s|
  {
    var s1 := s[i := Cell(true, s[i].size)];
    var s2 := if i + 1 < |s1| && s1[i + 1].free then MergeCells(s1, i) else s1;
    if i > 0 && s2[i - 1].free then MergeCells(s2, i - 1) else s2
  }

  /** Freed and merged, no two neighbours are both free, and no byte is lost. */
  lemma ReturnedFacts(s: seq<Cell>, i: nat)
    requires i < |s| && !s[i].free && NoTwoFree(s)
    ensures NoTwoFree(Returned(s, i))
    ensures FreeWeight(Returned(s, i)) == FreeWeight(s) + s[i].size
    ensures UsedSize(Returned(s, i)) + s[i].size == UsedSize(s)
  {
    hide FreeWeight, UsedSize;
    var s1 := s[i := Cell(true, s[i].size)];
    FreeCellWeight(s, i);
    var s2 := s1;
    if i + 1 < |s1| && s1[i + 1].free {
      MergeWeight(s1, i);
      s2 := MergeCells(s1, i);
    }
    if i > 0 && s2[i - 1].free {
      MergeWeight(s2, i - 1);
    }
    ReturnedApart(s, i);
  }

  /** Only block i and its predecessor may both be free. */
  ghost predicate ApartBut(s: seq<Cell>, i: nat) {
    forall j :: 0 <= j < |s| - 1 && j + 1 != i ==> !(s[j].free && s[j + 1].free)
  }

  lemma MergeNextApart(s: seq<Cell>, i: nat)
    requires NoTwoFree(s) && i + 1 < |s| && s[i + 1].free
    ensures ApartBut(MergeCells(s[i := Cell(true, s[i].size)], i), i)
  {
    hide MergeCells;
    var s1 := s[i := Cell(true, s[i].size)];
    var s2 := MergeCells(s1, i);
    MergeCellsRead(s1, i, 0);
    forall j | 0 <= j < |s2| - 1 && j + 1 != i ensures !(s2[j].free && s2[j + 1].free) {
      MergeCellsRead(s1, i, j);
      MergeCellsRead(s1, i, j + 1);
      var k := if j < i then j else j + 1;
      assert !(s[k].free && s[k + 1].free);
    }
  }

  lemma MergePrevApart(s: seq<Cell>, i: nat)
    requires 0 < i < |s| && ApartBut(s, i) && s[i - 1].free && s[i].free
    ensures NoTwoFree(MergeCells(s, i - 1))
  {
    hide MergeCells;
    var r := MergeCells(s, i - 1);
    MergeCellsRead(s, i - 1, 0);
    forall j | 0 <= j < |r| - 1 ensures !(r[j].free && r[j + 1].free) {
      MergeCellsRead(s, i - 1, j);
      MergeCellsRead(s, i - 1, j + 1);
      var k := if j + 1 < i then j else j + 1;
      assert !(s[k].free && s[k + 1].free);
    }
  }

  lemma FlagApart(s: seq<Cell>, i: nat)
    requires NoTwoFree(s) && i < |s| && (i + 1 < |s| ==> !s[i + 1].free)
    ensures ApartBut(s[i := Cell(true, s[i].size)], i)
  {
    var s1 := s[i := Cell(true, s[i].size)];
    forall j | 0 <= j < |s1| - 1 && j + 1 != i ensures !(s1[j].free && s1[j + 1].free) {
      assert !(s[j].free && s[j + 1].free);
    }
  }

  lemma ReturnedApart(s: seq<Cell>, i: nat)
    requires i < |s| && !s[i].free && NoTwoFree(s)
    ensures NoTwoFree(Returned(s, i))
  {
    hide MergeCells;
    var s1 := s[i := Cell(true, s[i].size)];
    var s2 := s1;
    if i + 1 < |s1| && s1[i + 1].free {
      MergeNextApart(s, i);
      s2 := MergeCells(s1, i);
      MergeCellsRead(s1, i, i);
    } else {
      FlagApart(s, i);
    }
    if i > 0 && s2[i - 1].free {
      MergePrevApart(s2, i);
    }
  }

  lemma ReturnedLive(c: seq<nat>, s: seq<Cell>, i: nat, p: nat, size: nat)
    requires |c| == |s| && i < |s| && !s[i].free && forall j, l :: 0 <= j < l < |c| ==> c[j] != c[l]
    ensures LiveIn(ReturnedChain(c, s, i), Returned(s, i), p, size) <==> LiveIn(c, s, p, size) && p != c[i] + HEADER
  {
    hide LiveIn, MergeCells, MergeChain;
    var s1 := s[i := Cell(true, s[i].size)];
    UnuseLive(c, s, i, p, size);
    var c2, s2 := c, s1;
    if i + 1 < |s1| && s1[i + 1].free {
      MergeLive(c, s1, i, p, size);
      c2, s2 := MergeChain(c, i), MergeCells(s1, i);
      MergeCellsRead(s1, i, i);
      MergeChainRead(c, i, i);
    }
    if i > 0 && s2[i - 1].free {
      MergeLive(c2, s2, i - 1, p, size);
    }
  }

  ghost function ReturnedChain(c: seq<nat>, s: seq<Cell>, i: nat): seq<nat>
    requires |c| == |s| && i < |s|
  {
    var s1 := s[i := Cell(true, s[i].size)];
    var merged := i + 1 < |s1| && s1[i + 1].free;
    var c2, s2 := if merged then MergeChain(c, i) else c, if merged then MergeCells(s1, i) else s1;
    if i > 0 && s2[i - 1].free then MergeChain(c2, i - 1) else c2
  }
}
