/** Four-level page tables as memory, and what the processor's walk finds in them. */
module Paging {
  import opened Arith
  import opened Platform

  const ENTRIES: nat := 512
  const MB2: nat := 0x20_0000
  const GIB: nat := 0x4000_0000
  const TWO_48: nat := 0x1_0000_0000_0000

  type Tables = map<nat, seq<nat>>

  // ---- Entries ----

  /** address | PRESENT | RW | USER, and PS for a 2 MiB page. */
  function Entry(addr: nat): nat {
    addr + 0x7
  }

  function LargeEntry(addr: nat): nat {
    addr + 0x87
  }

  predicate Present(e: nat) {
    e % 2 == 1
  }

  predicate Writable(e: nat) {
    e / 2 % 2 == 1
  }

  predicate ForUser(e: nat) {
    e / 4 % 2 == 1
  }

  predicate Large(e: nat) {
    e / 0x80 % 2 == 1
  }

  /** Bits 3 to 6 are clear: cached, write-back, not accessed or written yet. */
  predicate Untouched(e: nat) {
    e / 8 % 16 == 0
  }

  /** Bits 8 to 11 are clear: not global, and nothing in the ignored ones. */
  predicate Local(e: nat) {
    e / 0x100 % 16 == 0
  }

  /** A page that is present, writable and open to user mode, with no other property. */
  predicate Open(e: nat) {
    Present(e) && Writable(e) && ForUser(e) && Untouched(e) && Local(e)
  }

  /** entry & ~0xFFF. */
  function Target(e: nat): nat {
    e / PAGE_SIZE * PAGE_SIZE
  }

  /** The low eight bits of an entry say the same whatever the page. */
  lemma LowBits(page: nat, low: nat)
    requires low < 256
    ensures var e := page * PAGE_SIZE + low;
            && (Open(e) <==> Open(low)) && (Large(e) <==> Large(low)) && Target(e) == page * PAGE_SIZE
  {
    hide *;
    PresentBit(page, low);
    WritableBit(page, low);
    ForUserBit(page, low);
    UntouchedBits(page, low);
    LocalBits(page, low);
    LargeBit(page, low);
    TargetBits(page, low);
    OpenIs(page * PAGE_SIZE + low);
    OpenIs(low);
  }

  lemma OpenIs(e: nat)
    ensures Open(e) <==> Present(e) && Writable(e) && ForUser(e) && Untouched(e) && Local(e)
  {
  }

  lemma PresentBit(page: nat, low: nat)
    ensures Present(page * PAGE_SIZE + low) <==> Present(low)
  {
    assert page * PAGE_SIZE + low == 2 * (2048 * page) + low;
  }

  lemma WritableBit(page: nat, low: nat)
    ensures Writable(page * PAGE_SIZE + low) <==> Writable(low)
  {
    assert (page * PAGE_SIZE + low) / 2 == 2 * (1024 * page) + low / 2;
  }

  lemma ForUserBit(page: nat, low: nat)
    ensures ForUser(page * PAGE_SIZE + low) <==> ForUser(low)
  {
    assert (page * PAGE_SIZE + low) / 4 == 2 * (512 * page) + low / 4;
  }

  lemma LargeBit(page: nat, low: nat)
    ensures Large(page * PAGE_SIZE + low) <==> Large(low)
  {
    assert (page * PAGE_SIZE + low) / 0x80 == 2 * (16 * page) + low / 0x80;
  }

  lemma UntouchedBits(page: nat, low: nat)
    ensures Untouched(page * PAGE_SIZE + low) <==> Untouched(low)
  {
    var q := low / 8;
    DivUnique(page * PAGE_SIZE + low, 8, 512 * page + q, low % 8);
    DivUnique(512 * page + q, 16, 32 * page + q / 16, q % 16);
  }

  lemma LocalBits(page: nat, low: nat)
    ensures Local(page * PAGE_SIZE + low) <==> Local(low)
  {
    var q := low / 0x100;
    DivUnique(page * PAGE_SIZE + low, 0x100, 16 * page + q, low % 0x100);
    DivUnique(16 * page + q, 16, page + q / 16, q % 16);
  }

  lemma TargetBits(page: nat, low: nat)
    requires low < 0x1000
    ensures Target(page * PAGE_SIZE + low) == page * PAGE_SIZE
  {
  }

  lemma EntryDecodes(n: nat)
    ensures var e := Entry(n * PAGE_SIZE); Open(e) && !Large(e) && Target(e) == n * PAGE_SIZE
  {
    LowBits(n, 0x7);
  }

  lemma LargeDecodes(n: nat)
    ensures var e := LargeEntry(n * MB2); Open(e) && Large(e) && Target(e) == n * MB2
  {
    LowBits(512 * n, 0x87);
    assert 512 * n * PAGE_SIZE == n * MB2;
  }

  lemma NotPresent()
    ensures !Present(0) && !Large(0)
  {
  }

  // ---- Addresses ----

  /** Bytes one entry of a level-l table covers. */
  function Unit(l: nat): (u: nat)
    requires 1 <= l <= 4
    ensures u > 0
  {
    if l == 1 then 0x1000 else if l == 2 then 0x20_0000 else if l == 3 then 0x4000_0000 else 0x80_0000_0000
  }

  function Index(va: nat, l: nat): (i: nat)
    requires 1 <= l <= 4
    ensures i < ENTRIES
  {
    va / Unit(l) % ENTRIES
  }

  /** Which of the level-l tables translates va: the bits above its index. */
  function Prefix(va: nat, l: nat): nat
    requires 1 <= l <= 4
  {
    va / Unit(l) / ENTRIES
  }

  lemma PrefixStep(va: nat, l: nat)
    requires 2 <= l <= 4
    ensures Prefix(va, l - 1) == ENTRIES * Prefix(va, l) + Index(va, l)
  {
    if l == 2 {
      assert va / 0x1000 / 512 == va / 0x20_0000;
    } else if l == 3 {
      assert va / 0x20_0000 / 512 == va / 0x4000_0000;
    } else {
      assert va / 0x4000_0000 / 512 == va / 0x80_0000_0000;
    }
  }

  lemma TopPrefix(va: nat)
    ensures va < TWO_48 <==> Prefix(va, 4) == 0
  {
  }

  /** Addresses of one page have the same indices. */
  lemma SamePage(va: nat, vb: nat, l: nat)
    requires va / PAGE_SIZE == vb / PAGE_SIZE && 1 <= l <= 4
    ensures Index(va, l) == Index(vb, l)
  {
    PageUnits(va, l);
    PageUnits(vb, l);
  }

  lemma PageUnits(va: nat, l: nat)
    requires 1 <= l <= 4
    ensures va / Unit(l) == va / PAGE_SIZE / (Unit(l) / PAGE_SIZE)
  {
    if l == 2 {
      assert va / 0x20_0000 == va / 0x1000 / 512;
    } else if l == 3 {
      assert va / 0x4000_0000 == va / 0x1000 / 0x4_0000;
    } else if l == 4 {
      assert va / 0x80_0000_0000 == va / 0x1000 / 0x800_0000;
    }
  }

  // ---- The walk ----

  function Lookup(tables: Tables, t: nat, i: nat): nat {
    if t in tables && i < |tables[t]| then tables[t][i] else 0
  }

  /** Where an address leads, and whether writes and accesses from user mode may go there. */
  datatype Translation = Fault | To(address: nat, writable: bool, user: bool)

  /**
   * The processor's translation of va (Intel SDM volume 3A, section 4.5), 2 MiB pages included. An access
   * right has to be granted on every level (section 4.6).
   */
  function Walk(tables: Tables, root: nat, va: nat): Translation {
    var e4 := Lookup(tables, root, Index(va, 4));
    if !Present(e4) then Fault
    else
      var e3 := Lookup(tables, Target(e4), Index(va, 3));
      if !Present(e3) then Fault
      else
        var e2 := Lookup(tables, Target(e3), Index(va, 2));
        var writable, user := Writable(e4) && Writable(e3) && Writable(e2), ForUser(e4) && ForUser(e3) && ForUser(e2);
        if !Present(e2) then Fault
        else if Large(e2) then To(Target(e2) / MB2 * MB2 + va % MB2, writable, user)
        else
          var e1 := Lookup(tables, Target(e2), Index(va, 1));
          if !Present(e1) then Fault
          else To(Target(e1) + va % PAGE_SIZE, writable && Writable(e1), user && ForUser(e1))
  }

  predicate Mapped(tables: Tables, root: nat, va: nat) {
    Walk(tables, root, va).To?
  }

  /** Nothing that was present has changed. */
  ghost predicate Grows(tables: Tables, tables': Tables) {
    forall t, i :: t in tables && 0 <= i < |tables[t]| && Present(tables[t][i]) ==>
      t in tables' && i < |tables'[t]| && tables'[t][i] == tables[t][i]
  }

  lemma GrowsTrans(a: Tables, b: Tables, c: Tables)
    requires Grows(a, b) && Grows(b, c)
    ensures Grows(a, c)
  {
    hide Present;
    forall t, i | t in a && 0 <= i < |a[t]| && Present(a[t][i]) ensures t in c && i < |c[t]| && c[t][i] == a[t][i] {
      assert b[t][i] == a[t][i];
    }
  }

  lemma LookupGrows(tables: Tables, tables': Tables, t: nat, i: nat)
    requires Grows(tables, tables') && Present(Lookup(tables, t, i))
    ensures Lookup(tables', t, i) == Lookup(tables, t, i)
  {
  }

  /** No translation that exists is ever changed, nor its access rights. */
  lemma WalkGrows(tables: Tables, tables': Tables, root: nat, va: nat)
    requires Grows(tables, tables') && Mapped(tables, root, va)
    ensures Walk(tables', root, va) == Walk(tables, root, va)
  {
    hide Grows, Lookup, Index, Target, Large, Writable, ForUser;
    var e4 := Lookup(tables, root, Index(va, 4));
    LookupGrows(tables, tables', root, Index(va, 4));
    var e3 := Lookup(tables, Target(e4), Index(va, 3));
    LookupGrows(tables, tables', Target(e4), Index(va, 3));
    var e2 := Lookup(tables, Target(e3), Index(va, 2));
    LookupGrows(tables, tables', Target(e3), Index(va, 2));
    if !Large(e2) {
      LookupGrows(tables, tables', Target(e2), Index(va, 1));
    }
  }

  // ---- The tree ----

  /** A table's place: its level, and the address prefix it translates. */
  datatype Place = Place(level: nat, prefix: nat)

  function ChildOf(r: Place, i: nat): Place
    requires r.level >= 2
  {
    Place(r.level - 1, ENTRIES * r.prefix + i)
  }

  lemma ChildUnique(r: Place, i: nat, s: Place, j: nat)
    requires r.level >= 2 && s.level >= 2 && i < ENTRIES && j < ENTRIES && ChildOf(r, i) == ChildOf(s, j)
    ensures r == s && i == j
  {
  }

  /** Entry i of the table at r is empty, an identity mapping, or the one link to the table below it. */
  ghost predicate EntryOk(at: map<Place, nat>, r: Place, i: nat, e: nat) {
    if r.level == 1 then
      Present(e) ==> e == Entry((ENTRIES * r.prefix + i) * PAGE_SIZE)
    else if r.level > 4 then false
    else if r.level == 2 && Large(e) then
      e == LargeEntry((ENTRIES * r.prefix + i) * MB2) && ChildOf(r, i) !in at
    else
      if Present(e) then r.level >= 2 && ChildOf(r, i) in at && e == Entry(at[ChildOf(r, i)])
      else e == 0 && r.level >= 2 && ChildOf(r, i) !in at
  }

  ghost predicate TableOk(tables: Tables, at: map<Place, nat>, r: Place)
    requires r in at
  {
    && 1 <= r.level <= 4
    && at[r] in tables && |tables[at[r]]| == ENTRIES
    && at[r] != 0 && at[r] % PAGE_SIZE == 0
    && forall i :: 0 <= i < ENTRIES ==> EntryOk(at, r, i, tables[at[r]][i])
  }

  /** The tables form a tree: every place has its own page, every link leads to the table of its place. */
  ghost predicate TreeOk(tables: Tables, at: map<Place, nat>, root: nat) {
    && Place(4, 0) in at && at[Place(4, 0)] == root
    && (forall r :: r in at ==> TableOk(tables, at, r))
    && (forall r, s :: r in at && s in at && r != s ==> at[r] != at[s])
  }

  lemma TableAt(tables: Tables, at: map<Place, nat>, root: nat, r: Place)
    requires TreeOk(tables, at, root) && r in at
    ensures TableOk(tables, at, r)
  {
    hide TableOk;
  }

  lemma EntryAt(tables: Tables, at: map<Place, nat>, root: nat, r: Place, i: nat)
    requires TreeOk(tables, at, root) && r in at && i < ENTRIES
    ensures 1 <= r.level <= 4 && at[r] in tables && |tables[at[r]]| == ENTRIES && at[r] != 0 && at[r] % PAGE_SIZE == 0
    ensures EntryOk(at, r, i, Lookup(tables, at[r], i)) && Lookup(tables, at[r], i) == tables[at[r]][i]
  {
    hide EntryOk;
    TableAt(tables, at, root, r);
  }

  /** One level down on the walk: a present entry that is no leaf leads to the table of the next prefix, with all rights. */
  lemma WalkDown(tables: Tables, at: map<Place, nat>, root: nat, va: nat, l: nat)
    requires TreeOk(tables, at, root) && 2 <= l <= 4 && Place(l, Prefix(va, l)) in at
    ensures var e := Lookup(tables, at[Place(l, Prefix(va, l))], Index(va, l));
            Present(e) && (l > 2 || !Large(e)) ==>
              && Place(l - 1, Prefix(va, l - 1)) in at && Target(e) == at[Place(l - 1, Prefix(va, l - 1))]
              && Writable(e) && ForUser(e)
  {
    hide Index, Prefix, Lookup, Large, Present, Writable, ForUser, Untouched, Local, Target, Entry, TreeOk;
    var r, i := Place(l, Prefix(va, l)), Index(va, l);
    EntryAt(tables, at, root, r, i);
    PrefixStep(va, l);
    var e := Lookup(tables, at[r], i);
    if Present(e) && (l > 2 || !Large(e)) {
      var c := at[ChildOf(r, i)];
      TableAddress(tables, at, root, ChildOf(r, i));
      EntryDecodes(c / PAGE_SIZE);
    }
  }

  lemma TableAddress(tables: Tables, at: map<Place, nat>, root: nat, r: Place)
    requires TreeOk(tables, at, root) && r in at
    ensures at[r] == at[r] / PAGE_SIZE * PAGE_SIZE
  {
    hide EntryOk;
    TableAt(tables, at, root, r);
  }

  /** Every translation that exists is the identity, and grants writes and user mode accesses. */
  lemma WalkIdentity(tables: Tables, at: map<Place, nat>, root: nat, va: nat)
    requires TreeOk(tables, at, root) && va < TWO_48 && Mapped(tables, root, va)
    ensures Walk(tables, root, va) == To(va, true, true)
  {
    hide Index, Prefix, Lookup, Large, Present, Writable, ForUser, Target, TreeOk, EntryOk;
    TopPrefix(va);
    RootPlace(tables, at, root);
    WalkDown(tables, at, root, va, 4);
    WalkDown(tables, at, root, va, 3);
    WalkDown(tables, at, root, va, 2);
    LeafIdentity(tables, at, root, va, 2);
    LeafIdentity(tables, at, root, va, 1);
  }

  lemma RootPlace(tables: Tables, at: map<Place, nat>, root: nat)
    requires TreeOk(tables, at, root)
    ensures Place(4, 0) in at && at[Place(4, 0)] == root
  {
    hide TableOk;
  }

  lemma LeafIdentity(tables: Tables, at: map<Place, nat>, root: nat, va: nat, l: nat)
    requires TreeOk(tables, at, root) && 1 <= l <= 2
    ensures Place(l, Prefix(va, l)) in at ==>
              var e := Lookup(tables, at[Place(l, Prefix(va, l))], Index(va, l));
              && (l == 1 && Present(e) ==> Target(e) + va % PAGE_SIZE == va)
              && (l == 2 && Large(e) ==> Target(e) / MB2 * MB2 + va % MB2 == va)
              && ((l == 1 && Present(e)) || (l == 2 && Large(e)) ==> Writable(e) && ForUser(e))
  {
    hide TreeOk, Lookup, Large, Present, Writable, ForUser, Untouched, Local, Target, Entry, LargeEntry;
    if Place(l, Prefix(va, l)) in at {
      EntryAt(tables, at, root, Place(l, Prefix(va, l)), Index(va, l));
      var n := ENTRIES * Prefix(va, l) + Index(va, l);
      LeafNumber(va, l);
      EntryDecodes(n);
      LargeDecodes(n);
    }
  }

  lemma LeafNumber(va: nat, l: nat)
    requires 1 <= l <= 2
    ensures ENTRIES * Prefix(va, l) + Index(va, l) == va / Unit(l)
    ensures va / Unit(l) * Unit(l) + va % Unit(l) == va && va / Unit(l) * Unit(l) / Unit(l) == va / Unit(l)
    ensures Unit(1) == PAGE_SIZE && Unit(2) == MB2
  {
  }
}
