/** The physical page allocator: next-fit for single pages, first-fit for runs, over one bitmap. */
module Pmm {
  import opened Platform
  import opened Bytes

  const MAX_PAGES: nat := 1048576
  const BITMAP_BYTES: nat := 131072
  const CONVENTIONAL: nat := 7

  /** The part of efi_mem_desc_t that counts: type, first page, pages. */
  datatype Descriptor = Descriptor(kind: nat, physicalStart: nat, pages: nat) {
    function First(): nat {
      physicalStart / PAGE_SIZE
    }

    /** Pages the allocator takes from this descriptor: page 0 and what lies beyond the bitmap are left out. */
    ghost predicate Offers(p: nat) {
      kind == CONVENTIONAL && First() <= p < First() + pages && 0 < p < MAX_PAGES
    }
  }

  // ---- The bitmap as a value ----

  predicate Used(s: seq<byte>, p: nat)
    requires |s| == BITMAP_BYTES && p < MAX_PAGES
  {
    Bit(s[p / 8], p % 8)
  }

  function WithPage(s: seq<byte>, p: nat, on: bool): (r: seq<byte>)
    requires |s| == BITMAP_BYTES && p < MAX_PAGES
    ensures |r| == |s|
  {
    s[p / 8 := PutBit(s[p / 8], p % 8, on)]
  }

  ghost function FreeIn(s: seq<byte>): set<nat>
    requires |s| == BITMAP_BYTES
  {
    set p: nat | p < MAX_PAGES && !Used(s, p)
  }

  lemma PageBit(s: seq<byte>, p: nat, on: bool, q: nat)
    requires |s| == BITMAP_BYTES && p < MAX_PAGES && q < MAX_PAGES
    ensures Used(WithPage(s, p, on), q) == if q == p then on else Used(s, q)
  {
    hide Bit, PutBit;
    PutBitOf(s[p / 8], p % 8, on, q % 8);
  }

  lemma FreeWithPage(s: seq<byte>, p: nat, on: bool)
    requires |s| == BITMAP_BYTES && p < MAX_PAGES
    ensures FreeIn(WithPage(s, p, on)) == if on then FreeIn(s) - {p} else FreeIn(s) + {p}
  {
    hide Used, WithPage;
    forall q: nat | q < MAX_PAGES ensures Used(WithPage(s, p, on), q) == if q == p then on else Used(s, q) {
      PageBit(s, p, on, q);
    }
    var r := if on then FreeIn(s) - {p} else FreeIn(s) + {p};
    forall q: nat ensures q in FreeIn(WithPage(s, p, on)) <==> q in r {
    }
  }

  predicate Inside(start: nat, n: nat, p: nat) {
    start <= p < start + n
  }

  ghost function Run(start: nat, n: nat): set<nat> {
    set p: nat | p < start + n && Inside(start, n, p)
  }

  lemma RunStep(start: nat, n: nat)
    ensures Run(start, 0) == {} && Run(start, n + 1) == Run(start, n) + {start + n} && start + n !in Run(start, n)
  {
  }

  lemma {:induction false} RunSize(start: nat, n: nat)
    ensures |Run(start, n)| == n
  {
    RunStep(start, if n > 0 then n - 1 else 0);
    if n > 0 {
      RunSize(start, n - 1);
    }
  }

  /** The rotating order of vtx2's search: the i-th page looked at. */
  function Turn(cursor: nat, i: nat): (p: nat)
    ensures p < MAX_PAGES
  {
    (cursor + i) % MAX_PAGES
  }

  /** Every page has its turn, and only one. */
  lemma EveryPageOnce(cursor: nat, p: nat) returns (i: nat)
    requires p < MAX_PAGES
    ensures i < MAX_PAGES && Turn(cursor, i) == p
    ensures forall j: nat :: j < MAX_PAGES && Turn(cursor, j) == p ==> j == i
  {
    i := (p + MAX_PAGES - cursor % MAX_PAGES) % MAX_PAGES;
  }

  /** p is the least free page at or behind the cursor, or the least free page if none is there. */
  ghost predicate NextFit(free: set<nat>, cursor: nat, p: nat) {
    && p in free
    && if p >= cursor then forall q :: q in free && q >= cursor ==> p <= q
       else forall q :: q in free ==> q < cursor && p <= q
  }

  /** The first free page met going round from the cursor is just that page. */
  lemma GoingRound(free: set<nat>, cursor: nat, i: nat)
    requires cursor <= MAX_PAGES && (forall q :: q in free ==> q < MAX_PAGES) && i < MAX_PAGES
    ensures NextFit(free, cursor, Turn(cursor, i))
       <==> Turn(cursor, i) in free && forall j: nat :: j < i ==> Turn(cursor, j) !in free
  {
    var p := Turn(cursor, i);
    TurnIs(cursor, i);
    if p in free {
      if NextFit(free, cursor, p) {
        forall j: nat | j < i ensures Turn(cursor, j) !in free {
          TurnIs(cursor, j);
        }
      } else if forall j: nat :: j < i ==> Turn(cursor, j) !in free {
        var q :| q in free && !(if p >= cursor then q >= cursor ==> p <= q else q < cursor && p <= q);
        var j := EveryPageOnce(cursor, q);
        TurnIs(cursor, j);
        assert false;
      }
    }
  }

  lemma TurnIs(cursor: nat, i: nat)
    requires cursor <= MAX_PAGES && i < MAX_PAGES
    ensures Turn(cursor, i) == if cursor + i < MAX_PAGES then cursor + i else cursor + i - MAX_PAGES
  {
  }

  /** start is the least place where n pages in a row are free. */
  ghost predicate FirstFit(free: set<nat>, start: nat, n: nat) {
    Run(start, n) <= free && forall s: nat :: s < start ==> !(Run(s, n) <= free)
  }

  /** The scan has reached p with a free run of length n behind it, and no run of `count` ends before p. */
  ghost predicate Scanned(free: set<nat>, count: nat, p: nat, n: nat) {
    && n <= p && Run(p - n, n) <= free
    && (p - n == 0 || p - n - 1 !in free)
    && forall s: nat :: s + count <= p ==> !(Run(s, count) <= free)
  }

  lemma ScanFree(free: set<nat>, count: nat, p: nat, n: nat)
    requires Scanned(free, count, p, n) && p in free && n + 1 < count
    ensures Scanned(free, count, p + 1, n + 1)
  {
    forall s: nat | s + count <= p + 1 ensures !(Run(s, count) <= free) {
      if s + count == p + 1 {
        assert p - n - 1 in Run(s, count);
      }
    }
  }

  lemma ScanUsed(free: set<nat>, count: nat, p: nat, n: nat)
    requires Scanned(free, count, p, n) && p !in free && count > 0
    ensures Scanned(free, count, p + 1, 0)
  {
    forall s: nat | s + count <= p + 1 ensures !(Run(s, count) <= free) {
      if s + count == p + 1 {
        assert p in Run(s, count);
      }
    }
  }

  lemma ScanFound(free: set<nat>, count: nat, p: nat, n: nat)
    requires Scanned(free, count, p, n) && p in free && n + 1 == count
    ensures FirstFit(free, p - n, count)
  {
    assert Run(p - n, count) == Run(p - n, n) + {p};
  }

  lemma ScanEnd(free: set<nat>, count: nat, n: nat)
    requires Scanned(free, count, MAX_PAGES, n) && count > 0 && forall p :: p in free ==> p < MAX_PAGES
    ensures forall s: nat :: !(Run(s, count) <= free)
  {
    forall s: nat ensures !(Run(s, count) <= free) {
      if s + count > MAX_PAGES {
        assert s + count - 1 in Run(s, count);
      }
    }
  }

  // ---- The memory map ----

  ghost function OfferedBy(d: Descriptor): set<nat> {
    set p: nat | p < MAX_PAGES && d.Offers(p)
  }

  /** All pages some descriptor offers. */
  ghost function Offered(map_: seq<Descriptor>): set<nat> {
    if map_ == [] then {} else Offered(map_[..|map_| - 1]) + OfferedBy(map_[|map_| - 1])
  }

  /** The pages counted descriptor by descriptor. */
  ghost function Tally(map_: seq<Descriptor>): nat {
    if map_ == [] then 0 else Tally(map_[..|map_| - 1]) + |OfferedBy(map_[|map_| - 1])|
  }

  /** No page is offered twice. */
  ghost predicate Disjoint(map_: seq<Descriptor>) {
    forall i, j :: 0 <= i < j < |map_| ==> OfferedBy(map_[i]) !! OfferedBy(map_[j])
  }

  lemma UnionSize(a: set<nat>, b: set<nat>)
    ensures |a + b| <= |a| + |b|
    ensures |a + b| == |a| + |b| <==> a !! b
  {
    assert a + b == (a - b) + b;
    assert a == (a - b) + (a * b);
    assert |a + b| == |a - b| + |b| && |a| == |a - b| + |a * b|;
    if |a * b| == 0 {
      assert a * b == {};
    }
  }

  lemma {:induction false} OfferedAll(map_: seq<Descriptor>, p: nat)
    ensures p in Offered(map_) <==> exists i :: 0 <= i < |map_| && p in OfferedBy(map_[i])
  {
    if map_ != [] {
      var init := map_[..|map_| - 1];
      OfferedAll(init, p);
      if exists i :: 0 <= i < |map_| && p in OfferedBy(map_[i]) {
        var i :| 0 <= i < |map_| && p in OfferedBy(map_[i]);
        assert i < |init| ==> p in OfferedBy(init[i]);
      }
      if exists i :: 0 <= i < |init| && p in OfferedBy(init[i]) {
        var i :| 0 <= i < |init| && p in OfferedBy(init[i]);
        assert p in OfferedBy(map_[i]);
      }
    }
  }

  /** The page count that initialisation arrives at is right exactly when the memory map offers no page twice. */
  lemma {:induction false} TallyExact(map_: seq<Descriptor>)
    ensures |Offered(map_)| <= Tally(map_)
    ensures Tally(map_) == |Offered(map_)| <==> Disjoint(map_)
  {
    if map_ != [] {
      var init, d := map_[..|map_| - 1], map_[|map_| - 1];
      TallyExact(init);
      UnionSize(Offered(init), OfferedBy(d));
      DisjointInit(map_);
    }
  }

  /** The failing input: two regions that share page 2. Three pages are offered, four are counted. */
  lemma SharedPageCountedTwice()
    ensures var map_ := [Descriptor(CONVENTIONAL, PAGE_SIZE, 2), Descriptor(CONVENTIONAL, 2 * PAGE_SIZE, 2)];
            |Offered(map_)| == 3 && Tally(map_) == 4 && !Disjoint(map_)
  {
    hide OfferedBy, Disjoint;
    var a, b := Descriptor(CONVENTIONAL, PAGE_SIZE, 2), Descriptor(CONVENTIONAL, 2 * PAGE_SIZE, 2);
    TwoPages(1);
    TwoPages(2);
    OfferedMore([], a);
    OfferedMore([a], b);
    assert [] + [a] == [a] && [a] + [b] == [a, b];
    assert Offered([a, b]) == {1, 2, 3};
    TallyExact([a, b]);
  }

  lemma TwoPages(first: nat)
    requires 0 < first < 8
    ensures OfferedBy(Descriptor(CONVENTIONAL, first * PAGE_SIZE, 2)) == {first, first + 1}
  {
    assert first * PAGE_SIZE / PAGE_SIZE == first;
  }

  lemma OfferedMore(map_: seq<Descriptor>, d: Descriptor)
    ensures Offered(map_ + [d]) == Offered(map_) + OfferedBy(d)
    ensures Tally(map_ + [d]) == Tally(map_) + |OfferedBy(d)|
  {
    assert (map_ + [d])[..|map_|] == map_;
  }

  lemma DisjointInit(map_: seq<Descriptor>)
    requires map_ != []
    ensures var init, d := map_[..|map_| - 1], map_[|map_| - 1];
            Disjoint(map_) <==> Disjoint(init) && Offered(init) !! OfferedBy(d)
  {
    hide OfferedBy, Offered;
    var init, d := map_[..|map_| - 1], map_[|map_| - 1];
    if Disjoint(map_) {
      forall p | p in Offered(init) ensures p !in OfferedBy(d) {
        OfferedAll(init, p);
        var i :| 0 <= i < |init| && p in OfferedBy(init[i]);
        assert map_[i] == init[i];
      }
    }
    if Disjoint(init) && Offered(init) !! OfferedBy(d) {
      forall i, j | 0 <= i < j < |map_| ensures OfferedBy(map_[i]) !! OfferedBy(map_[j]) {
        assert init[i] == map_[i];
        if j < |init| {
          assert init[j] == map_[j];
        } else {
          forall p | p in OfferedBy(map_[i]) ensures p in Offered(init) {
            OfferedAll(init, p);
          }
        }
      }
    }
  }

  /** What the total is: no conventional region within the limit ends behind it, and one ends there. */
  lemma {:induction false} HighestEndIs(map_: seq<Descriptor>)
    requires forall i :: 0 <= i < |map_| ==> map_[i].First() + map_[i].pages < TWO_64
    ensures forall i :: 0 <= i < |map_| && map_[i].kind == CONVENTIONAL && map_[i].First() + map_[i].pages <= MAX_PAGES ==>
              map_[i].First() + map_[i].pages <= HighestEnd(map_)
    ensures HighestEnd(map_) == 0 || exists i :: 0 <= i < |map_| && map_[i].kind == CONVENTIONAL
                                                 && map_[i].First() + map_[i].pages == HighestEnd(map_) <= MAX_PAGES
  {
    if map_ != [] {
      var init := map_[..|map_| - 1];
      HighestEndIs(init);
      assert forall i :: 0 <= i < |init| ==> init[i] == map_[i];
    }
  }

  /** The end of the highest conventional region that lies wholly below the limit. */
  function HighestEnd(map_: seq<Descriptor>): nat {
    if map_ == [] then 0
    else
      var rest, d := HighestEnd(map_[..|map_| - 1]), map_[|map_| - 1];
      var end := (d.First() + d.pages) % TWO_64;
      if d.kind == CONVENTIONAL && end > rest && end <= MAX_PAGES then end else rest
  }
}
