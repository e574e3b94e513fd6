/** paging_init and paging_identity_map_region. */
module PageTables {
  import opened Platform
  import opened Paging
  import opened Pmm
  import opened Pages

  const IDENTITY_GIB: nat := 4

  function ZeroTable(): (t: seq<nat>)
    ensures |t| == ENTRIES
  {
    seq(ENTRIES, _ => 0)
  }

  function WithEntry(t: seq<nat>, i: nat, e: nat): (r: seq<nat>)
    requires i < |t|
    ensures |r| == |t|
  {
    t[i := e]
  }

  /** The contents of a table that links to no other one. */
  ghost predicate Leafy(r: Place, x: seq<nat>) {
    && |x| == ENTRIES && 1 <= r.level <= 3
    && forall i :: 0 <= i < ENTRIES ==>
         x[i] == 0
         || (r.level == 1 && x[i] == Entry((ENTRIES * r.prefix + i) * PAGE_SIZE))
         || (r.level == 2 && x[i] == LargeEntry((ENTRIES * r.prefix + i) * MB2))
  }

  lemma LeafyEntry(at: map<Place, nat>, r: Place, x: seq<nat>, i: nat)
    requires Leafy(r, x) && i < ENTRIES && (r.level >= 2 ==> ChildOf(r, i) !in at)
    ensures EntryOk(at, r, i, x[i])
  {
    hide Entry, LargeEntry, Present, Large, Target;
    NotPresent();
    EntryDecodes(ENTRIES * r.prefix + i);
    LargeDecodes(ENTRIES * r.prefix + i);
  }

  /** A place below an entry that links to nothing is not taken. */
  ghost predicate NoOrphans(tables: Tables, at: map<Place, nat>) {
    forall r :: r in at && r.level < 4 ==> ParentOf(r) in at
  }

  function ParentOf(r: Place): Place {
    Place(r.level + 1, r.prefix / ENTRIES)
  }

  lemma ParentOfChild(r: Place, i: nat)
    requires 2 <= r.level && i < ENTRIES
    ensures ParentOf(ChildOf(r, i)) == r
  {
  }

  /** The table page c comes under entry i of the table at r; so far the entry was empty. */
  lemma AddTable(tables: Tables, at: map<Place, nat>, root: nat, r: Place, i: nat, c: nat, x: seq<nat>)
    requires TreeOk(tables, at, root) && NoOrphans(tables, at) && r in at && 2 <= r.level && i < ENTRIES
    requires at[r] in tables && i < |tables[at[r]]| && !Present(tables[at[r]][i]) && !Large(tables[at[r]][i])
    requires c != 0 && c % PAGE_SIZE == 0 && forall s :: s in at ==> at[s] != c
    requires Leafy(ChildOf(r, i), x)
    ensures var t := tables[c := x];
            && at[r] in t && i < |t[at[r]]|
            && var t' := t[at[r] := WithEntry(t[at[r]], i, Entry(c))];
            var at' := at[ChildOf(r, i) := c];
            && TreeOk(t', at', root) && NoOrphans(t', at') && ChildOf(r, i) !in at
            && (c !in tables ==> Grows(tables, t'))
  {
    hide TreeOk, Entry, Present, Large;
    TableThere(tables, at, root, r, i);
    var t' := tables[c := x][at[r] := WithEntry(tables[at[r]], i, Entry(c))];
    var at' := at[ChildOf(r, i) := c];
    forall s | s in at' ensures TableOk(t', at', s) {
      if s == ChildOf(r, i) {
        NewTableOk(tables, at, root, r, i, c, x);
      } else if s == r {
        LinkedTableOk(tables, at, root, r, i, c, x);
      } else {
        OtherTableOk(tables, at, root, r, i, c, x, s);
      }
    }
    RootPlace(tables, at, root);
    PagesDiffer(tables, at, root, r, i, c);
    MakeTree(t', at', root);
    OrphansStep(tables, at, r, i, c, t');
  }

  lemma OrphansStep(tables: Tables, at: map<Place, nat>, r: Place, i: nat, c: nat, t': Tables)
    requires NoOrphans(tables, at) && r in at && 2 <= r.level && i < ENTRIES
    ensures NoOrphans(t', at[ChildOf(r, i) := c])
  {
    hide ParentOf, ChildOf;
    ParentOfChild(r, i);
  }

  lemma MakeTree(tables: Tables, at: map<Place, nat>, root: nat)
    requires Place(4, 0) in at && at[Place(4, 0)] == root && forall r :: r in at ==> TableOk(tables, at, r)
    requires forall r, s :: r in at && s in at && r != s ==> at[r] != at[s]
    ensures TreeOk(tables, at, root)
  {
    hide TableOk;
  }

  lemma PagesDiffer(tables: Tables, at: map<Place, nat>, root: nat, r: Place, i: nat, c: nat)
    requires TreeOk(tables, at, root) && 2 <= r.level && forall s :: s in at ==> at[s] != c
    ensures var at' := at[ChildOf(r, i) := c];
            forall s, u :: s in at' && u in at' && s != u ==> at'[s] != at'[u]
  {
    hide TableOk;
  }

  lemma TableThere(tables: Tables, at: map<Place, nat>, root: nat, r: Place, i: nat)
    requires TreeOk(tables, at, root) && r in at && 2 <= r.level && i < ENTRIES
    requires at[r] in tables && i < |tables[at[r]]| && !Present(tables[at[r]][i]) && !Large(tables[at[r]][i])
    ensures ChildOf(r, i) !in at && r.level <= 4 && |tables[at[r]]| == ENTRIES
  {
    hide TreeOk, Present, Large;
    EntryAt(tables, at, root, r, i);
  }

  lemma NewTableOk(tables: Tables, at: map<Place, nat>, root: nat, r: Place, i: nat, c: nat, x: seq<nat>)
    requires TreeOk(tables, at, root) && NoOrphans(tables, at) && r in at && 2 <= r.level <= 4 && i < ENTRIES
    requires ChildOf(r, i) !in at && at[r] in tables && i < |tables[at[r]]|
    requires c != 0 && c % PAGE_SIZE == 0 && forall s :: s in at ==> at[s] != c
    requires Leafy(ChildOf(r, i), x)
    ensures var t' := tables[c := x][at[r] := WithEntry(tables[at[r]], i, Entry(c))];
            var at' := at[ChildOf(r, i) := c];
            TableOk(t', at', ChildOf(r, i))
  {
    hide TreeOk, EntryOk, Entry;
    var s := ChildOf(r, i);
    var at' := at[s := c];
    forall j | 0 <= j < ENTRIES ensures EntryOk(at', s, j, x[j]) {
      if s.level >= 2 {
        ParentOfChild(s, j);
        assert ChildOf(s, j) !in at;
      }
      LeafyEntry(at', s, x, j);
    }
  }

  lemma LinkedTableOk(tables: Tables, at: map<Place, nat>, root: nat, r: Place, i: nat, c: nat, x: seq<nat>)
    requires TreeOk(tables, at, root) && r in at && 2 <= r.level <= 4 && i < ENTRIES && ChildOf(r, i) !in at
    requires at[r] in tables && |tables[at[r]]| == ENTRIES
    requires c != 0 && c % PAGE_SIZE == 0 && forall s :: s in at ==> at[s] != c
    ensures var t' := tables[c := x][at[r] := WithEntry(tables[at[r]], i, Entry(c))];
            var at' := at[ChildOf(r, i) := c];
            TableOk(t', at', r)
  {
    hide TreeOk, EntryOk, Entry;
    TableAt(tables, at, root, r);
    var at' := at[ChildOf(r, i) := c];
    var t := WithEntry(tables[at[r]], i, Entry(c));
    forall j | 0 <= j < ENTRIES ensures EntryOk(at', r, j, t[j]) {
      if j == i {
        LinkOk(at', r, i, c);
      } else {
        EntryStays(at, r, i, c, r, j, tables[at[r]][j]);
      }
    }
  }

  lemma LinkOk(at: map<Place, nat>, r: Place, i: nat, c: nat)
    requires 2 <= r.level <= 4 && ChildOf(r, i) in at && at[ChildOf(r, i)] == c && c % PAGE_SIZE == 0
    ensures EntryOk(at, r, i, Entry(c))
  {
    hide Entry, Present, Large, Target;
    EntryDecodes(c / PAGE_SIZE);
  }

  /** A new table elsewhere does not disturb an entry. */
  lemma EntryStays(at: map<Place, nat>, r: Place, i: nat, c: nat, s: Place, j: nat, e: nat)
    requires 2 <= r.level && i < ENTRIES && j < ENTRIES && EntryOk(at, s, j, e) && ChildOf(r, i) !in at
    requires s != r || j != i
    ensures EntryOk(at[ChildOf(r, i) := c], s, j, e)
  {
    hide Entry, Present, Large, LargeEntry;
    if s.level >= 2 && ChildOf(s, j) == ChildOf(r, i) {
      ChildUnique(r, i, s, j);
    }
  }

  lemma OtherTableOk(tables: Tables, at: map<Place, nat>, root: nat, r: Place, i: nat, c: nat, x: seq<nat>, s: Place)
    requires TreeOk(tables, at, root) && r in at && 2 <= r.level <= 4 && i < ENTRIES && ChildOf(r, i) !in at
    requires at[r] in tables && i < |tables[at[r]]| && s in at && s != r
    requires forall u :: u in at ==> at[u] != c
    ensures var t' := tables[c := x][at[r] := WithEntry(tables[at[r]], i, Entry(c))];
            var at' := at[ChildOf(r, i) := c];
            TableOk(t', at', s)
  {
    hide TreeOk, EntryOk, Entry;
    TableAt(tables, at, root, s);
    PagesDiffer(tables, at, root, r, i, c);
    var at' := at[ChildOf(r, i) := c];
    assert at'[s] == at[s] && at'[r] == at[r] && at[s] != at[r];
    forall j | 0 <= j < ENTRIES ensures EntryOk(at', s, j, tables[at[s]][j]) {
      EntryStays(at, r, i, c, s, j, tables[at[s]][j]);
    }
  }

  /** An empty entry of a lowest-level table becomes the identity mapping of its page. */
  lemma AddLeaf(tables: Tables, at: map<Place, nat>, root: nat, r: Place, i: nat)
    requires TreeOk(tables, at, root) && NoOrphans(tables, at) && r in at && r.level == 1 && i < ENTRIES
    requires at[r] in tables && i < |tables[at[r]]| && !Present(tables[at[r]][i])
    ensures var e: nat := Entry((ENTRIES * r.prefix + i) * PAGE_SIZE);
            var t': Tables := tables[at[r] := WithEntry(tables[at[r]], i, e)];
            TreeOk(t', at, root) && NoOrphans(t', at) && Grows(tables, t')
  {
    hide TreeOk, EntryOk, Entry, Present;
    var e: nat := Entry((ENTRIES * r.prefix + i) * PAGE_SIZE);
    var t': Tables := tables[at[r] := WithEntry(tables[at[r]], i, e)];
    PagesApart(tables, at, root);
    forall s | s in at ensures TableOk(t', at, s) {
      TableAt(tables, at, root, s);
      if s == r {
        forall j | 0 <= j < ENTRIES ensures EntryOk(at, r, j, t'[at[r]][j]) {
          if j == i {
            LeafOk(at, r, i);
          }
        }
      }
    }
    RootPlace(tables, at, root);
    MakeTree(t', at, root);
  }

  lemma LeafOk(at: map<Place, nat>, r: Place, i: nat)
    requires r.level == 1
    ensures EntryOk(at, r, i, Entry((ENTRIES * r.prefix + i) * PAGE_SIZE))
  {
  }

  lemma PagesApart(tables: Tables, at: map<Place, nat>, root: nat)
    requires TreeOk(tables, at, root)
    ensures forall r, s :: r in at && s in at && r != s ==> at[r] != at[s]
  {
    hide TableOk;
  }

  // ---- What a mapped page is ----

  /** The page that holds va is mapped if the entries for it are there. */
  lemma LeafMapped(tables: Tables, at: map<Place, nat>, root: nat, va: nat)
    requires TreeOk(tables, at, root) && va < TWO_48 && Place(2, Prefix(va, 2)) in at
    requires var e2 := Lookup(tables, at[Place(2, Prefix(va, 2))], Index(va, 2));
             Present(e2) && (Large(e2) || (Place(1, Prefix(va, 1)) in at
                                           && Present(Lookup(tables, at[Place(1, Prefix(va, 1))], Index(va, 1)))))
    requires NoOrphans(tables, at)
    ensures Mapped(tables, root, va)
  {
    hide TreeOk, Lookup, Index, Prefix, Present, Large, Target;
    TopPrefix(va);
    RootPlace(tables, at, root);
    Upwards(tables, at, root, va, 3);
    LinkPresent(tables, at, root, va, 4);
    LinkPresent(tables, at, root, va, 3);
    WalkDown(tables, at, root, va, 4);
    WalkDown(tables, at, root, va, 3);
    WalkDown(tables, at, root, va, 2);
  }

  /** The table above a table on va's path is on va's path. */
  lemma Upwards(tables: Tables, at: map<Place, nat>, root: nat, va: nat, l: nat)
    requires NoOrphans(tables, at) && 2 <= l <= 4 && Place(l - 1, Prefix(va, l - 1)) in at
    ensures Place(l, Prefix(va, l)) in at
  {
    hide Index, Prefix;
    PrefixStep(va, l);
    ParentOfChild(Place(l, Prefix(va, l)), Index(va, l));
  }

  /** A table that exists is linked to from the table above it. */
  lemma LinkPresent(tables: Tables, at: map<Place, nat>, root: nat, va: nat, l: nat)
    requires TreeOk(tables, at, root) && 2 <= l <= 4
    requires Place(l, Prefix(va, l)) in at && Place(l - 1, Prefix(va, l - 1)) in at
    ensures var e := Lookup(tables, at[Place(l, Prefix(va, l))], Index(va, l)); Present(e) && !(l == 2 && Large(e))
  {
    hide Index, Prefix, Lookup, Large, Present, Target, TreeOk;
    PrefixStep(va, l);
    EntryAt(tables, at, root, Place(l, Prefix(va, l)), Index(va, l));
  }

  lemma SameWalk(tables: Tables, root: nat, va: nat, vb: nat)
    requires va / PAGE_SIZE == vb / PAGE_SIZE
    ensures Mapped(tables, root, va) <==> Mapped(tables, root, vb)
  {
    hide Index, Lookup, Present, Large, Target;
    SamePage(va, vb, 1);
    SamePage(va, vb, 2);
    SamePage(va, vb, 3);
    SamePage(va, vb, 4);
  }

  /** All addresses of a range translate to themselves, writable and open to user mode. */
  ghost predicate RangeMapped(tables: Tables, root: nat, start: nat, end: nat) {
    forall va :: start <= va < end ==> Walk(tables, root, va) == To(va, true, true)
  }

  lemma RangeGrows(tables: Tables, tables': Tables, root: nat, start: nat, end: nat)
    requires RangeMapped(tables, root, start, end) && Grows(tables, tables')
    ensures RangeMapped(tables', root, start, end)
  {
    hide Walk, Grows;
    forall va | start <= va < end ensures Walk(tables', root, va) == To(va, true, true) {
      WalkGrows(tables, tables', root, va);
    }
  }

  lemma RangePage(tables: Tables, at: map<Place, nat>, root: nat, live: map<nat, nat>, start: nat, addr: nat)
    requires SpaceOk(tables, at, root, live) && RangeMapped(tables, root, start, addr)
    requires addr % PAGE_SIZE == 0 && addr + PAGE_SIZE <= TWO_48 && Mapped(tables, root, addr)
    ensures RangeMapped(tables, root, start, addr + PAGE_SIZE)
  {
    hide TreeOk, Mapped, Walk;
    forall va | start <= va < addr + PAGE_SIZE ensures Walk(tables, root, va) == To(va, true, true) {
      if va >= addr {
        SameWalk(tables, root, addr, va);
        WalkIdentity(tables, at, root, va);
      }
    }
  }

  // ---- What else is mapped ----

  /** The entries on va's path that have to be there for it to translate. */
  ghost predicate Covered(tables: Tables, at: map<Place, nat>, va: nat) {
    && Place(2, Prefix(va, 2)) in at
    && var e2 := Lookup(tables, at[Place(2, Prefix(va, 2))], Index(va, 2));
    && Present(e2)
    && (Large(e2)
        || (Place(1, Prefix(va, 1)) in at && Present(Lookup(tables, at[Place(1, Prefix(va, 1))], Index(va, 1)))))
  }

  lemma CoveredMapped(tables: Tables, at: map<Place, nat>, root: nat, va: nat)
    requires TreeOk(tables, at, root) && NoOrphans(tables, at) && va < TWO_48
    ensures Covered(tables, at, va) <==> Mapped(tables, root, va)
  {
    hide TreeOk, NoOrphans, Lookup, Index, Prefix, Present, Large, Target, Writable, ForUser;
    if Covered(tables, at, va) {
      LeafMapped(tables, at, root, va);
    } else if Mapped(tables, root, va) {
      TopPrefix(va);
      RootPlace(tables, at, root);
      WalkDown(tables, at, root, va, 4);
      WalkDown(tables, at, root, va, 3);
      WalkDown(tables, at, root, va, 2);
    }
  }

  /** Outside lo..hi the same addresses translate as before. */
  ghost predicate OnlyIn(tables: Tables, tables': Tables, root: nat, lo: nat, hi: nat) {
    forall va: nat :: va < TWO_48 && !(lo <= va < hi) ==> (Mapped(tables', root, va) <==> Mapped(tables, root, va))
  }

  lemma OnlyInSame(tables: Tables, root: nat, lo: nat, hi: nat)
    ensures OnlyIn(tables, tables, root, lo, hi)
  {
  }

  lemma OnlyInTrans(a: Tables, b: Tables, c: Tables, root: nat, lo: nat, hi: nat)
    requires OnlyIn(a, b, root, lo, hi) && OnlyIn(b, c, root, lo, hi)
    ensures OnlyIn(a, c, root, lo, hi)
  {
    hide Mapped;
  }

  lemma OnlyInWider(a: Tables, b: Tables, root: nat, lo: nat, hi: nat, lo': nat, hi': nat)
    requires OnlyIn(a, b, root, lo, hi) && (lo < hi ==> lo' <= lo && hi <= hi')
    ensures OnlyIn(a, b, root, lo', hi')
  {
    hide Mapped;
  }

  /** A step that maps nothing, behind steps that map at most the page at addr. */
  lemma OnlyInAfter(a: Tables, b: Tables, c: Tables, root: nat, addr: nat)
    requires OnlyIn(a, b, root, addr, addr + PAGE_SIZE) && OnlyIn(b, c, root, 0, 0)
    ensures OnlyIn(a, c, root, addr, addr + PAGE_SIZE)
  {
    hide OnlyIn;
    OnlyInWider(b, c, root, 0, 0, addr, addr + PAGE_SIZE);
    OnlyInTrans(a, b, c, root, addr, addr + PAGE_SIZE);
  }

  /** An empty table maps nothing. */
  lemma AddTableOnly(tables: Tables, at: map<Place, nat>, root: nat, r: Place, i: nat, c: nat)
    requires TreeOk(tables, at, root) && NoOrphans(tables, at) && r in at && 2 <= r.level && i < ENTRIES
    requires at[r] in tables && i < |tables[at[r]]| && !Present(tables[at[r]][i]) && !Large(tables[at[r]][i])
    requires c != 0 && c % PAGE_SIZE == 0 && forall s :: s in at ==> at[s] != c
    ensures var t := tables[c := ZeroTable()];
            && at[r] in t && i < |t[at[r]]|
            && OnlyIn(tables, t[at[r] := WithEntry(t[at[r]], i, Entry(c))], root, 0, 0)
  {
    hide TreeOk, NoOrphans, Mapped, Covered, Entry, Present, Large, ZeroTable;
    TableThere(tables, at, root, r, i);
    ZeroLeafy(ChildOf(r, i));
    AddTable(tables, at, root, r, i, c, ZeroTable());
    var t' := tables[c := ZeroTable()][at[r] := WithEntry(tables[at[r]], i, Entry(c))];
    forall va: nat | va < TWO_48 ensures Mapped(t', root, va) <==> Mapped(tables, root, va) {
      CoveredMapped(tables, at, root, va);
      CoveredMapped(t', at[ChildOf(r, i) := c], root, va);
      AddTableCovered(tables, at, root, r, i, c, va);
    }
  }

  lemma AddTableCovered(tables: Tables, at: map<Place, nat>, root: nat, r: Place, i: nat, c: nat, va: nat)
    requires TreeOk(tables, at, root) && r in at && 2 <= r.level <= 4 && i < ENTRIES && ChildOf(r, i) !in at
    requires at[r] in tables && |tables[at[r]]| == ENTRIES && !Present(tables[at[r]][i])
    requires c % PAGE_SIZE == 0 && forall s :: s in at ==> at[s] != c
    ensures var t' := tables[c := ZeroTable()][at[r] := WithEntry(tables[at[r]], i, Entry(c))];
            Covered(t', at[ChildOf(r, i) := c], va) <==> Covered(tables, at, va)
  {
    hide TreeOk, Entry, Present, Large, Prefix, Index;
    var t' := tables[c := ZeroTable()][at[r] := WithEntry(tables[at[r]], i, Entry(c))];
    NotPresent();
    EntryDecodes(c / PAGE_SIZE);
    PagesApart(tables, at, root);
    PrefixStep(va, 2);
    var p2, p1 := Place(2, Prefix(va, 2)), Place(1, Prefix(va, 1));
    assert p1 == ChildOf(p2, Index(va, 2));
    if p1 == ChildOf(r, i) {
      ChildUnique(r, i, p2, Index(va, 2));
    }
    assert p2 in at ==> at[p2] != c && (p2 != r ==> at[p2] != at[r]);
    assert p1 in at ==> at[p1] != c && at[p1] != at[r];
  }

  /** A new leaf maps its own page. */
  lemma AddLeafOnly(tables: Tables, at: map<Place, nat>, root: nat, r: Place, i: nat)
    requires TreeOk(tables, at, root) && NoOrphans(tables, at) && r in at && r.level == 1 && i < ENTRIES
    requires at[r] in tables && i < |tables[at[r]]| && !Present(tables[at[r]][i])
    ensures var page: nat := (ENTRIES * r.prefix + i) * PAGE_SIZE;
            var t': Tables := tables[at[r] := WithEntry(tables[at[r]], i, Entry(page))];
            OnlyIn(tables, t', root, page, page + PAGE_SIZE)
  {
    hide TreeOk, NoOrphans, Mapped, Covered, Entry, Present, Large;
    var page: nat := (ENTRIES * r.prefix + i) * PAGE_SIZE;
    var t': Tables := tables[at[r] := WithEntry(tables[at[r]], i, Entry(page))];
    AddLeaf(tables, at, root, r, i);
    forall va: nat | va < TWO_48 && !(page <= va < page + PAGE_SIZE) ensures Mapped(t', root, va) <==> Mapped(tables, root, va) {
      CoveredMapped(tables, at, root, va);
      CoveredMapped(t', at, root, va);
      AddLeafCovered(tables, at, root, r, i, va);
    }
  }

  lemma AddLeafCovered(tables: Tables, at: map<Place, nat>, root: nat, r: Place, i: nat, va: nat)
    requires TreeOk(tables, at, root) && r in at && r.level == 1 && i < ENTRIES && at[r] in tables && i < |tables[at[r]]|
    requires var page: nat := (ENTRIES * r.prefix + i) * PAGE_SIZE; !(page <= va < page + PAGE_SIZE)
    ensures var t': Tables := tables[at[r] := WithEntry(tables[at[r]], i, Entry((ENTRIES * r.prefix + i) * PAGE_SIZE))];
            Covered(t', at, va) <==> Covered(tables, at, va)
  {
    hide TreeOk, Entry, Present, Large, Prefix, Index;
    PagesApart(tables, at, root);
    PageOf(va, r.prefix, i);
    var p2, p1 := Place(2, Prefix(va, 2)), Place(1, Prefix(va, 1));
    assert p2 in at ==> at[p2] != at[r];
    assert p1 in at && p1 != r ==> at[p1] != at[r];
  }

  /** An address with these indices lies in the page they name. */
  lemma PageOf(va: nat, prefix: nat, i: nat)
    ensures Prefix(va, 1) == prefix && Index(va, 1) == i ==>
              var page: nat := (ENTRIES * prefix + i) * PAGE_SIZE; page <= va < page + PAGE_SIZE
  {
    LeafNumber(va, 1);
  }

  // ---- The page allocator's part ----

  /** Table pages are allocated pages. */
  ghost predicate Owned(tables: Tables, live: map<nat, nat>) {
    forall t :: t in tables ==> t % PAGE_SIZE == 0 && t / PAGE_SIZE in live
  }

  /** A page just allocated is no table yet. */
  lemma NotATable(tables: Tables, at: map<Place, nat>, root: nat, live: map<nat, nat>, p: nat)
    requires Owned(tables, live) && p !in live
    ensures p * PAGE_SIZE !in tables
    ensures TreeOk(tables, at, root) ==> forall r :: r in at ==> at[r] != p * PAGE_SIZE
    ensures Owned(tables, live[p := 1])
  {
    hide EntryOk;
    var c := p * PAGE_SIZE;
    assert c / PAGE_SIZE == p && c % PAGE_SIZE == 0;
    if TreeOk(tables, at, root) {
      forall r | r in at ensures at[r] != c {
        TableAt(tables, at, root, r);
      }
    }
  }

  /** A tree of tables in memory, all of it reachable and owned, with the low 4 GiB mapped. */
  ghost predicate SpaceOk(tables: Tables, at: map<Place, nat>, root: nat, live: map<nat, nat>) {
    && TreeOk(tables, at, root) && NoOrphans(tables, at) && Owned(tables, live)
  }

  lemma ZeroLeafy(r: Place)
    requires 1 <= r.level <= 3
    ensures Leafy(r, ZeroTable())
  {
  }

  lemma TableIsThere(tables: Tables, at: map<Place, nat>, root: nat, r: Place)
    requires TreeOk(tables, at, root) && r in at
    ensures 1 <= r.level <= 4 && at[r] in tables && |tables[at[r]]| == ENTRIES && at[r] % PAGE_SIZE == 0 && at[r] != 0
  {
    hide EntryOk;
    TableAt(tables, at, root, r);
  }

  /** What an entry that is present and no leaf links to. */
  lemma LinkTarget(tables: Tables, at: map<Place, nat>, root: nat, r: Place, i: nat)
    requires TreeOk(tables, at, root) && r in at && 2 <= r.level && i < ENTRIES
    requires at[r] in tables && i < |tables[at[r]]|
    requires Present(tables[at[r]][i]) && (r.level == 2 ==> !Large(tables[at[r]][i]))
    ensures ChildOf(r, i) in at && Target(tables[at[r]][i]) == at[ChildOf(r, i)] && at[ChildOf(r, i)] != 0
  {
    hide TreeOk, Present, Large, Target, Entry;
    EntryAt(tables, at, root, r, i);
    TableAddress(tables, at, root, ChildOf(r, i));
    EntryDecodes(at[ChildOf(r, i)] / PAGE_SIZE);
    TableIsThere(tables, at, root, ChildOf(r, i));
  }

  lemma OwnedMore(tables: Tables, live: map<nat, nat>, p: nat, x: seq<nat>)
    requires Owned(tables, live)
    ensures Owned(tables[p * PAGE_SIZE := x], live[p := 1])
  {
    assert p * PAGE_SIZE / PAGE_SIZE == p;
  }

  lemma OwnedSame(tables: Tables, live: map<nat, nat>, t: nat, x: seq<nat>)
    requires Owned(tables, live) && t in tables
    ensures Owned(tables[t := x], live)
  {
  }

  lemma EmptyEntry(tables: Tables, at: map<Place, nat>, root: nat, r: Place, i: nat)
    requires TreeOk(tables, at, root) && r in at && 2 <= r.level && i < ENTRIES
    requires at[r] in tables && i < |tables[at[r]]| && !Present(tables[at[r]][i])
    requires r.level == 2 ==> !Large(tables[at[r]][i])
    ensures !Large(tables[at[r]][i]) && r.level <= 4
  {
    hide TreeOk;
    EntryAt(tables, at, root, r, i);
    NotPresent();
  }

  lemma GrowsSame(tables: Tables)
    ensures Grows(tables, tables)
  {
  }

  /** Allocations only grew, and every new table lies on a page allocated since. */
  ghost predicate OnFresh(t0: Tables, live0: map<nat, nat>, t1: Tables, live1: map<nat, nat>) {
    && Keeps(live0, live1)
    && forall t :: t in t1 ==> t in t0 || t / PAGE_SIZE !in live0
  }

  lemma OnFreshSame(t0: Tables, live: map<nat, nat>)
    ensures OnFresh(t0, live, t0, live)
  {
  }

  lemma OnFreshTrans(t0: Tables, live0: map<nat, nat>, t1: Tables, live1: map<nat, nat>, t2: Tables, live2: map<nat, nat>)
    requires OnFresh(t0, live0, t1, live1) && OnFresh(t1, live1, t2, live2)
    ensures OnFresh(t0, live0, t2, live2)
  {
  }

  /** A table on the page just allocated. */
  lemma OnFreshPage(t0: Tables, live0: map<nat, nat>, t1: Tables, p: nat)
    requires p !in live0 && forall t :: t in t1 ==> t in t0 || t == p * PAGE_SIZE
    ensures OnFresh(t0, live0, t1, live0[p := 1])
  {
  }

  /** Only entries changed. */
  lemma OnFreshEntry(t0: Tables, live: map<nat, nat>, t1: Tables)
    requires forall t :: t in t1 ==> t in t0
    ensures OnFresh(t0, live, t1, live)
  {
  }

  class AddressSpace {
    const pmm: PageAllocator
    var tables: Tables
    var root: nat
    ghost var at: map<Place, nat>

    /** Before paging_init there is no root; afterwards a tree of tables whose low 4 GiB are mapped. */
    ghost predicate Valid()
      reads this, pmm, pmm.bitmap
    {
      && pmm.Valid() && (root == 0 ==> Owned(tables, pmm.live))
      && (root != 0 ==> SpaceOk(tables, at, root, pmm.live) && RangeMapped(tables, root, 0, IDENTITY_GIB * GIB))
    }

    constructor (pmm: PageAllocator)
      requires pmm.Valid()
      ensures this.pmm == pmm && Valid() && root == 0 && tables == map[]
    {
      this.pmm := pmm;
      tables, root, at := map[], 0, map[];
    }

    /** zero_table on a fresh page. */
    method ZeroPage(page: nat)
      modifies this`tables
      ensures tables == old(tables)[page := ZeroTable()]
    {
      var t: seq<nat> := [];
      var i := 0;
      while i < ENTRIES
        invariant i <= ENTRIES && |t| == i && forall j :: 0 <= j < i ==> t[j] == 0
      {
        t := t + [0];
        i := i + 1;
      }
      assert t == ZeroTable();
      tables := tables[page := t];
    }

    /** table_child_or_create; 0 when the pages have run out. */
    method ChildOrCreate(table: nat, index: nat, ghost r: Place) returns (child: nat)
      requires pmm.Valid() && SpaceOk(tables, at, root, pmm.live)
      requires r in at && at[r] == table && 2 <= r.level && index < ENTRIES
      requires table in tables && index < |tables[table]| && (r.level == 2 ==> !Large(tables[table][index]))
      modifies this`tables, this`at, pmm`freePages, pmm`cursor, pmm`live, pmm.bitmap
      ensures pmm.Valid() && SpaceOk(tables, at, root, pmm.live) && Grows(old(tables), tables)
      ensures forall s :: s in old(at) ==> s in at && at[s] == old(at)[s]
      ensures OnFresh(old(tables), old(pmm.live), tables, pmm.live) && OnlyIn(old(tables), tables, root, 0, 0)
      ensures pmm.Free() <= old(pmm.Free())
      ensures child == 0 ==> tables == old(tables) && at == old(at) && pmm.Free() == {}
      ensures child != 0 ==> ChildOf(r, index) in at && at[ChildOf(r, index)] == child
                             && child in tables && |tables[child]| == ENTRIES
      ensures child != 0 && !Present(old(tables)[table][index]) ==> tables[child] == ZeroTable()
    {
      hide TreeOk, NoOrphans, Owned, Grows, PageAllocator.Valid, PageAllocator.Free, Clear, Entry, Present, Large, Target,
           NextFit, Leafy, ZeroTable, PageAllocator.Exact, OnFresh, OnlyIn;
      GrowsSame(tables);
      OnFreshSame(tables, pmm.live);
      OnlyInSame(tables, root, 0, 0);
      pmm.Size();
      if !Present(tables[table][index]) {
        EmptyEntry(tables, at, root, r, index);
        ghost var live0 := pmm.live;
        var page := pmm.AllocPage();
        if page == 0 {
          return 0;
        }
        ghost var p := page / PAGE_SIZE;
        NotATable(tables, at, root, live0, p);
        ZeroLeafy(ChildOf(r, index));
        AddTable(tables, at, root, r, index, page, ZeroTable());
        AddTableOnly(tables, at, root, r, index, page);
        OwnedMore(tables, live0, p, ZeroTable());
        ZeroPage(page);
        OwnedSame(tables, pmm.live, table, WithEntry(tables[table], index, Entry(page)));
        tables := tables[table := WithEntry(tables[table], index, Entry(page))];
        at := at[ChildOf(r, index) := page];
        OnFreshPage(old(tables), live0, tables, p);
        EntryDecodes(p);
      }
      LinkTarget(tables, at, root, r, index);
      TableIsThere(tables, at, root, ChildOf(r, index));
      return Target(tables[table][index]);
    }

    /** pmm_alloc_page where the caller does not check the result. */
    method TakePage() returns (page: nat)
      requires pmm.Valid() && pmm.bitmap.Length == BITMAP_BYTES
      modifies pmm`freePages, pmm`cursor, pmm`live, pmm.bitmap
      ensures pmm.Valid() && |pmm.Free()| == if old(|pmm.Free()|) > 0 then old(|pmm.Free()|) - 1 else 0
      ensures old(|pmm.Free()|) == 0 ==> page == 0
      ensures old(|pmm.Free()|) > 0 ==>
                && page != 0 && page % PAGE_SIZE == 0
                && page == page / PAGE_SIZE * PAGE_SIZE && page / PAGE_SIZE !in old(pmm.live)
                && pmm.live == old(pmm.live)[page / PAGE_SIZE := 1]
    {
      hide PageAllocator.Valid, PageAllocator.Free, Clear, NextFit, PageAllocator.Exact;
      ghost var free, cursor := pmm.Free(), pmm.cursor;
      page := pmm.AllocPage();
      FitTaken(free, cursor, page / PAGE_SIZE, page);
    }

    /** A page directory of 2 MiB pages for gigabyte g. */
    method FillDirectory(page: nat, g: nat)
      modifies this`tables
      ensures tables == old(tables)[page := LargeTable(g)]
    {
      var t: seq<nat> := [];
      var i := 0;
      while i < ENTRIES
        invariant i <= ENTRIES && |t| == i && forall j :: 0 <= j < i ==> t[j] == LargeTable(g)[j]
      {
        t := t + [LargeEntry(g * GIB + i * MB2)];
        i := i + 1;
      }
      assert t == LargeTable(g);
      tables := tables[page := t];
    }

    /** paging_init's first part: the two upper tables. */
    method UpperTables() returns (pml4: nat, pdpt: nat)
      requires pmm.Valid() && pmm.bitmap.Length == BITMAP_BYTES && Owned(tables, pmm.live)
      modifies this`tables, this`at, pmm`freePages, pmm`cursor, pmm`live, pmm.bitmap
      ensures pmm.Valid() && Left(old(|pmm.Free()|), 2, |pmm.Free()|, tables)
      ensures pdpt in tables && |tables[pdpt]| == ENTRIES
      ensures old(|pmm.Free()|) >= 2 ==>
                && SpaceOk(tables, at, pml4, pmm.live) && tables[pdpt] == ZeroTable()
                && at.Keys == {Place(4, 0), Place(3, 0)} && at[Place(3, 0)] == pdpt
                && OnFresh(old(tables), old(pmm.live), tables, pmm.live)
    {
      hide TreeOk, NoOrphans, Owned, PageAllocator.Valid, PageAllocator.Free, Entry, Present, Large, Leafy, ZeroTable, OnFresh;
      ghost var live0, enough := pmm.live, |pmm.Free()| >= 2;
      pml4 := TakePage();
      ghost var live1 := pmm.live;
      pdpt := TakePage();
      ZeroPage(pml4);
      ghost var t1 := tables;
      ZeroPage(pdpt);
      tables := tables[pml4 := WithEntry(tables[pml4], 0, Entry(pdpt))];
      at := map[Place(4, 0) := pml4];
      if enough {
        TwoTables(old(tables), live0, t1, live1, pml4, pdpt);
        at := at[Place(3, 0) := pdpt];
      }
    }

    /** One turn of paging_init's loop: the directory of gigabyte g. */
    method AddDirectory(pml4: nat, pdpt: nat, g: nat, ghost enough: bool)
      requires pmm.Valid() && pmm.bitmap.Length == BITMAP_BYTES && g < IDENTITY_GIB
      requires pdpt in tables && |tables[pdpt]| == ENTRIES
      requires enough ==> |pmm.Free()| > 0 && Building(tables, at, pml4, pdpt, pmm.live, g)
      modifies this`tables, this`at, pmm`freePages, pmm`cursor, pmm`live, pmm.bitmap
      ensures pmm.Valid() && |pmm.Free()| == if old(|pmm.Free()|) > 0 then old(|pmm.Free()|) - 1 else 0
      ensures pdpt in tables && |tables[pdpt]| == ENTRIES
      ensures old(|pmm.Free()|) == 0 || 0 in old(tables) ==> 0 in tables
      ensures enough ==> Building(tables, at, pml4, pdpt, pmm.live, g + 1)
                         && OnFresh(old(tables), old(pmm.live), tables, pmm.live)
    {
      hide PageAllocator.Valid, PageAllocator.Free, Entry, LargeTable, Building, OnFresh;
      ghost var live, t0 := pmm.live, tables;
      var pd := TakePage();
      FillDirectory(pd, g);
      tables := tables[pdpt := WithEntry(tables[pdpt], g, Entry(pd))];
      if enough {
        DirectoryAdded(t0, at, live, pml4, pdpt, g, pd);
        at := at[Place(2, g) := pd];
      }
    }

    /** paging_init's loop. */
    method AddDirectories(pml4: nat, pdpt: nat, ghost free: nat, ghost enough: bool)
      requires pmm.Valid() && pmm.bitmap.Length == BITMAP_BYTES && Left(free, 2, |pmm.Free()|, tables)
      requires pdpt in tables && |tables[pdpt]| == ENTRIES
      requires enough ==> free >= 6 && Building(tables, at, pml4, pdpt, pmm.live, 0)
      modifies this`tables, this`at, pmm`freePages, pmm`cursor, pmm`live, pmm.bitmap
      ensures pmm.Valid() && Left(free, 6, |pmm.Free()|, tables)
      ensures enough ==> Building(tables, at, pml4, pdpt, pmm.live, IDENTITY_GIB)
                         && OnFresh(old(tables), old(pmm.live), tables, pmm.live)
    {
      hide PageAllocator.Valid, PageAllocator.Free, OnFresh, Building;
      OnFreshSame(tables, pmm.live);
      var g := 0;
      while g < IDENTITY_GIB
        invariant g <= IDENTITY_GIB && pmm.Valid() && Left(free, 2 + g, |pmm.Free()|, tables)
        invariant pdpt in tables && |tables[pdpt]| == ENTRIES
        invariant enough ==> Building(tables, at, pml4, pdpt, pmm.live, g)
                             && OnFresh(old(tables), old(pmm.live), tables, pmm.live)
      {
        ghost var t1, live1 := tables, pmm.live;
        AddDirectory(pml4, pdpt, g, enough);
        if enough {
          OnFreshTrans(old(tables), old(pmm.live), t1, live1, tables, pmm.live);
        }
        g := g + 1;
      }
    }

    /**
     * paging_init. It does not look at the results of its six allocations: an address space results if and
     * only if six pages are free. Otherwise a table comes to lie at address 0.
     */
    method PagingInit()
      requires Valid() && root == 0 && pmm.bitmap.Length == BITMAP_BYTES
      modifies this`tables, this`root, this`at, pmm`freePages, pmm`cursor, pmm`live, pmm.bitmap
      ensures pmm.Valid()
      ensures Valid() && root != 0 <==> old(|pmm.Free()|) >= 6
      ensures old(|pmm.Free()|) >= 6 ==> OnFresh(old(tables), old(pmm.live), tables, pmm.live)
      ensures old(|pmm.Free()|) >= 6 ==> forall va: nat :: va < TWO_48 ==> (Mapped(tables, root, va) <==> va < IDENTITY_GIB * GIB)
      ensures old(|pmm.Free()|) < 6 ==> 0 in tables
    {
      hide Valid, PageAllocator.Valid, PageAllocator.Free, SpaceOk, RangeMapped, Owned, ZeroTable, OnFresh, Building, Mapped;
      BeforeInit(this);
      ghost var free, enough := |pmm.Free()|, |pmm.Free()| >= 6;
      var pml4, pdpt := UpperTables();
      ghost var t1, live1 := tables, pmm.live;
      if enough {
        StartBuilding(tables, at, pml4, pdpt, pmm.live);
      }
      AddDirectories(pml4, pdpt, free, enough);
      root := pml4;
      if enough {
        OnFreshTrans(old(tables), old(pmm.live), t1, live1, tables, pmm.live);
        Built(tables, at, pml4, pdpt, pmm.live);
        AfterInit(this);
      } else {
        NoTableAtZero(this);
      }
    }

    /** The loop body of paging_identity_map_region for one page. */
    method MapPage(addr: nat) returns (ok: bool)
      requires pmm.Valid() && SpaceOk(tables, at, root, pmm.live) && addr % PAGE_SIZE == 0 && addr < TWO_48
      modifies this`tables, this`at, pmm`freePages, pmm`cursor, pmm`live, pmm.bitmap
      ensures pmm.Valid() && SpaceOk(tables, at, root, pmm.live) && Grows(old(tables), tables)
      ensures OnFresh(old(tables), old(pmm.live), tables, pmm.live)
      ensures OnlyIn(old(tables), tables, root, addr, addr + PAGE_SIZE) && pmm.Free() <= old(pmm.Free())
      ensures ok ==> Mapped(tables, root, addr)
      ensures !ok ==> pmm.bitmap.Length == BITMAP_BYTES && pmm.Free() == {}
    {
      hide TreeOk, NoOrphans, Owned, Grows, PageAllocator.Valid, PageAllocator.Free, Entry, Present, Large, Target, Index, Prefix,
           Mapped, ZeroTable, OnFresh, OnlyIn;
      pmm.Size();
      TopPrefix(addr);
      RootPlace(tables, at, root);
      TableIsThere(tables, at, root, Place(4, 0));
      PrefixStep(addr, 4);
      PrefixStep(addr, 3);
      PrefixStep(addr, 2);
      ghost var t0, live0 := tables, pmm.live;
      var pdpt := ChildOrCreate(root, Index(addr, 4), Place(4, 0));
      OnlyInWider(t0, tables, root, 0, 0, addr, addr + PAGE_SIZE);
      if pdpt == 0 {
        return false;
      }
      ghost var t1, live1 := tables, pmm.live;
      var pd := ChildOrCreate(pdpt, Index(addr, 3), Place(3, Prefix(addr, 3)));
      GrowsTrans(t0, t1, tables);
      OnFreshTrans(t0, live0, t1, live1, tables, pmm.live);
      OnlyInAfter(t0, t1, tables, root, addr);
      if pd == 0 {
        return false;
      }
      if Large(tables[pd][Index(addr, 2)]) {
        LargeMapped(tables, at, root, addr);
        return true;
      }
      ghost var t2, live2 := tables, pmm.live;
      var pt := ChildOrCreate(pd, Index(addr, 2), Place(2, Prefix(addr, 2)));
      GrowsTrans(t0, t2, tables);
      OnFreshTrans(t0, live0, t2, live2, tables, pmm.live);
      OnlyInAfter(t0, t2, tables, root, addr);
      if pt == 0 {
        return false;
      }
      if !Present(tables[pt][Index(addr, 1)]) {
        ghost var t3 := tables;
        AddLeaf(tables, at, root, Place(1, Prefix(addr, 1)), Index(addr, 1));
        AddLeafOnly(tables, at, root, Place(1, Prefix(addr, 1)), Index(addr, 1));
        PageNumber(addr);
        OwnedSame(tables, pmm.live, pt, WithEntry(tables[pt], Index(addr, 1), Entry(addr)));
        tables := tables[pt := WithEntry(tables[pt], Index(addr, 1), Entry(addr))];
        GrowsTrans(t0, t3, tables);
        OnFreshEntry(t3, pmm.live, tables);
        OnFreshTrans(t0, live0, t3, pmm.live, tables, pmm.live);
        OnlyInTrans(t0, t3, tables, root, addr, addr + PAGE_SIZE);
        EntryDecodes(addr / PAGE_SIZE);
      }
      SmallMapped(tables, at, root, addr);
      return true;
    }

    /**
     * paging_identity_map_region. It fails only for an empty region, before paging_init, or when the
     * pages have run out; it never changes a translation that exists.
     */
    method MapRegion(physAddr: nat, size: nat) returns (ok: bool)
      requires Valid() && physAddr + size <= TWO_48
      modifies this`tables, this`at, pmm`freePages, pmm`cursor, pmm`live, pmm.bitmap
      ensures Valid() && Grows(old(tables), tables) && pmm.bitmap.Length == BITMAP_BYTES
      ensures OnFresh(old(tables), old(pmm.live), tables, pmm.live)
      ensures ok ==> RangeMapped(tables, root, physAddr / PAGE_SIZE * PAGE_SIZE,
                                 (physAddr + size + PAGE_SIZE - 1) / PAGE_SIZE * PAGE_SIZE)
      ensures OnlyIn(old(tables), tables, root, physAddr / PAGE_SIZE * PAGE_SIZE,
                     (physAddr + size + PAGE_SIZE - 1) / PAGE_SIZE * PAGE_SIZE)
      ensures pmm.Free() <= old(pmm.Free()) && (!ok ==> root == 0 || size == 0 || pmm.Free() == {})
      ensures root == 0 || size == 0 ==> !ok && tables == old(tables)
    {
      hide TreeOk, NoOrphans, Owned, Grows, PageAllocator.Valid, PageAllocator.Free, Mapped, RangeMapped, SpaceOk, OnFresh,
           OnlyIn;
      pmm.Size();
      GrowsSame(tables);
      OnFreshSame(tables, pmm.live);
      OnlyInSame(tables, root, physAddr / PAGE_SIZE * PAGE_SIZE, (physAddr + size + PAGE_SIZE - 1) / PAGE_SIZE * PAGE_SIZE);
      if root == 0 || size == 0 {
        return false;
      }
      var start := physAddr / PAGE_SIZE * PAGE_SIZE;
      var end := (physAddr + size + PAGE_SIZE - 1) / PAGE_SIZE * PAGE_SIZE;
      RegionEnds(physAddr, size);
      var addr := start;
      NothingToMap(tables, root, start);
      while addr < end
        invariant addr % PAGE_SIZE == 0 && start <= addr <= end <= TWO_48
        invariant Valid() && Grows(old(tables), tables) && OnFresh(old(tables), old(pmm.live), tables, pmm.live)
        invariant RangeMapped(tables, root, start, addr) && OnlyIn(old(tables), tables, root, start, end)
        invariant pmm.Free() <= old(pmm.Free())
        decreases end - addr
      {
        ghost var before, live1 := tables, pmm.live;
        NextPage(addr, end);
        if addr >= IDENTITY_GIB * GIB {
          var done := MapPage(addr);
          GrowsTrans(old(tables), before, tables);
          OnFreshTrans(old(tables), old(pmm.live), before, live1, tables, pmm.live);
          RangeGrows(before, tables, root, 0, IDENTITY_GIB * GIB);
          RangeGrows(before, tables, root, start, addr);
          OnlyInWider(before, tables, root, addr, addr + PAGE_SIZE, start, end);
          OnlyInTrans(old(tables), before, tables, root, start, end);
          if !done {
            return false;
          }
        } else {
          InRangeMapped(tables, root, 0, IDENTITY_GIB * GIB, addr);
        }
        RangePage(tables, at, root, pmm.live, start, addr);
        addr := addr + PAGE_SIZE;
      }
      return true;
    }
  }

  /** n pages have been taken of the `free` there were; with too few of them a table lies at address 0. */
  ghost predicate Left(free: nat, n: nat, now: nat, tables: Tables) {
    && now == (if free >= n then free - n else 0)
    && (free < n ==> 0 in tables)
  }

  lemma BeforeInit(space: AddressSpace)
    requires space.Valid() && space.root == 0
    ensures space.pmm.Valid() && Owned(space.tables, space.pmm.live)
  {
    hide PageAllocator.Valid, SpaceOk, RangeMapped, Owned;
  }

  lemma AfterInit(space: AddressSpace)
    requires space.pmm.Valid() && space.root != 0 && SpaceOk(space.tables, space.at, space.root, space.pmm.live)
    requires RangeMapped(space.tables, space.root, 0, IDENTITY_GIB * GIB)
    ensures space.Valid()
  {
    hide PageAllocator.Valid, SpaceOk, RangeMapped;
  }

  lemma SpacePmm(space: AddressSpace)
    requires space.Valid()
    ensures space.pmm.Valid()
  {
    hide SpaceOk, RangeMapped, PageAllocator.Valid;
  }

  /** paging_init on its way: the first g directories are in. */
  ghost predicate Building(tables: Tables, at: map<Place, nat>, pml4: nat, pdpt: nat, live: map<nat, nat>, g: nat) {
    && SpaceOk(tables, at, pml4, live)
    && Place(3, 0) in at && at[Place(3, 0)] == pdpt && pdpt in tables && |tables[pdpt]| == ENTRIES
    && (forall j :: g <= j < ENTRIES ==> tables[pdpt][j] == 0)
    && Directories(tables, at, g)
    && forall r :: r in at ==> r == Place(4, 0) || r == Place(3, 0) || (r.level == 2 && r.prefix < g)
  }

  /** The two upper tables on two fresh pages. */
  lemma TwoTables(t0: Tables, live0: map<nat, nat>, t1: Tables, live1: map<nat, nat>, pml4: nat, pdpt: nat)
    requires Owned(t0, live0) && t1 == t0[pml4 := ZeroTable()]
    requires pml4 != 0 && pml4 == pml4 / PAGE_SIZE * PAGE_SIZE && pml4 / PAGE_SIZE !in live0
    requires live1 == live0[pml4 / PAGE_SIZE := 1]
    requires pdpt != 0 && pdpt == pdpt / PAGE_SIZE * PAGE_SIZE && pdpt / PAGE_SIZE !in live1
    ensures var t2 := t1[pdpt := ZeroTable()];
            && pml4 in t2 && |t2[pml4]| == ENTRIES
            && var t3 := t2[pml4 := WithEntry(t2[pml4], 0, Entry(pdpt))];
            var live2 := live1[pdpt / PAGE_SIZE := 1];
            var at := map[Place(4, 0) := pml4][Place(3, 0) := pdpt];
            && SpaceOk(t3, at, pml4, live2) && pdpt in t3 && t3[pdpt] == ZeroTable()
            && OnFresh(t0, live0, t3, live2)
  {
    hide TreeOk, NoOrphans, Owned, Entry, Present, Large, Leafy, ZeroTable, OnFresh;
    var t2 := t1[pdpt := ZeroTable()];
    var at := map[Place(4, 0) := pml4];
    OwnedMore(t0, live0, pml4 / PAGE_SIZE, ZeroTable());
    RootTree(t1, pml4);
    OwnedMore(t1, live1, pdpt / PAGE_SIZE, ZeroTable());
    NotATable(t1, at, pml4, live1, pdpt / PAGE_SIZE);
    OwnedSame(t2, live1[pdpt / PAGE_SIZE := 1], pml4, WithEntry(t2[pml4], 0, Entry(pdpt)));
    ZeroLeafy(Place(3, 0));
    ZeroEntry(0);
    AddTable(t1, at, pml4, Place(4, 0), 0, pdpt, ZeroTable());
    var t3 := t2[pml4 := WithEntry(t2[pml4], 0, Entry(pdpt))];
    OnFreshPage(t0, live0, t1, pml4 / PAGE_SIZE);
    OnFreshPage(t1, live1, t3, pdpt / PAGE_SIZE);
    OnFreshTrans(t0, live0, t1, live1, t3, live1[pdpt / PAGE_SIZE := 1]);
  }

  lemma StartBuilding(tables: Tables, at: map<Place, nat>, pml4: nat, pdpt: nat, live: map<nat, nat>)
    requires SpaceOk(tables, at, pml4, live) && Place(3, 0) in at && at[Place(3, 0)] == pdpt
    requires pdpt in tables && tables[pdpt] == ZeroTable() && at.Keys == {Place(4, 0), Place(3, 0)}
    ensures Building(tables, at, pml4, pdpt, live, 0)
  {
    hide TreeOk, NoOrphans, Owned;
    NoDirectories(tables, at);
    AllZero();
  }

  /** A directory on a fresh page, linked under gigabyte g. */
  lemma DirectoryAdded(t0: Tables, at0: map<Place, nat>, live: map<nat, nat>, pml4: nat, pdpt: nat, g: nat, pd: nat)
    requires Building(t0, at0, pml4, pdpt, live, g) && g < IDENTITY_GIB
    requires pd != 0 && pd == pd / PAGE_SIZE * PAGE_SIZE && pd / PAGE_SIZE !in live
    ensures var t1 := t0[pd := LargeTable(g)];
            && pdpt in t1 && |t1[pdpt]| == ENTRIES
            && var t2 := t1[pdpt := WithEntry(t1[pdpt], g, Entry(pd))];
            Building(t2, at0[Place(2, g) := pd], pml4, pdpt, live[pd / PAGE_SIZE := 1], g + 1)
            && OnFresh(t0, live, t2, live[pd / PAGE_SIZE := 1])
  {
    hide TreeOk, NoOrphans, Owned, Entry, Present, Large, Leafy, LargeTable, Directories, OnFresh;
    var p := pd / PAGE_SIZE;
    NotATable(t0, at0, pml4, live, p);
    OwnedMore(t0, live, p, LargeTable(g));
    var t1 := t0[pd := LargeTable(g)];
    OwnedSame(t1, live[p := 1], pdpt, WithEntry(t1[pdpt], g, Entry(pd)));
    var t2 := t1[pdpt := WithEntry(t1[pdpt], g, Entry(pd))];
    LargeLeafy(g);
    ZeroEntry(g);
    AddTable(t0, at0, pml4, Place(3, 0), g, pd, LargeTable(g));
    var at1 := at0[Place(2, g) := pd];
    PagesApart(t2, at1, pml4);
    MoreDirectories(t0, t2, at0, at1, g, pd, pdpt);
    OnFreshPage(t0, live, t2, p);
  }

  /** All four directories are in: the low 4 GiB are mapped. */
  lemma Built(tables: Tables, at: map<Place, nat>, pml4: nat, pdpt: nat, live: map<nat, nat>)
    requires Building(tables, at, pml4, pdpt, live, IDENTITY_GIB)
    ensures SpaceOk(tables, at, pml4, live) && pml4 != 0 && RangeMapped(tables, pml4, 0, IDENTITY_GIB * GIB)
    ensures forall va: nat :: va < TWO_48 ==> (Mapped(tables, pml4, va) <==> va < IDENTITY_GIB * GIB)
  {
    hide TreeOk, NoOrphans, Owned, RangeMapped, Directories, Mapped, Index, Present, Large, Lookup;
    LowMapped(tables, at, pml4);
    RootThere(tables, at, pml4);
    forall va: nat | va < TWO_48 ensures Mapped(tables, pml4, va) <==> va < IDENTITY_GIB * GIB {
      if va < IDENTITY_GIB * GIB {
        InRangeMapped(tables, pml4, 0, IDENTITY_GIB * GIB, va);
      } else {
        CoveredMapped(tables, at, pml4, va);
      }
    }
  }

  /** A table at address 0 is on no allocated page. */
  lemma NoTableAtZero(space: AddressSpace)
    requires space.pmm.Valid() && 0 in space.tables
    ensures !(space.Valid() && space.root != 0)
  {
    hide TreeOk, NoOrphans, RangeMapped, PageAllocator.Free;
    assert 0 / PAGE_SIZE == 0;
  }

  lemma NoDirectories(tables: Tables, at: map<Place, nat>)
    ensures Directories(tables, at, 0)
  {
  }

  lemma AllZero()
    ensures forall j :: 0 <= j < ENTRIES ==> ZeroTable()[j] == 0
  {
  }

  function LargeTable(g: nat): (t: seq<nat>)
    ensures |t| == ENTRIES
  {
    seq(ENTRIES, i requires 0 <= i < ENTRIES => LargeEntry(g * GIB + i * MB2))
  }

  lemma LargeLeafy(g: nat)
    ensures Leafy(Place(2, g), LargeTable(g))
  {
    forall i: nat | i < ENTRIES ensures LargeTable(g)[i] == LargeEntry((ENTRIES * g + i) * MB2) {
      assert (ENTRIES * g + i) * MB2 == g * GIB + i * MB2;
    }
  }

  lemma ZeroEntry(i: nat)
    requires i < ENTRIES
    ensures ZeroTable()[i] == 0 && !Present(0) && !Large(0)
  {
  }

  lemma FitTaken(free: set<nat>, cursor: nat, p: nat, page: nat)
    ensures NextFit(free, cursor, p) ==> p in free && |free - {p}| == |free| - 1
    ensures page == page / PAGE_SIZE * PAGE_SIZE ==> page % PAGE_SIZE == 0
  {
  }

  /** The root alone: a tree without links. */
  lemma RootTree(tables: Tables, page: nat)
    requires page in tables && tables[page] == ZeroTable() && page != 0 && page % PAGE_SIZE == 0
    ensures TreeOk(tables, map[Place(4, 0) := page], page) && NoOrphans(tables, map[Place(4, 0) := page])
  {
  }

  /** The first n page directories map their gigabytes with 2 MiB pages. */
  ghost predicate Directories(tables: Tables, at: map<Place, nat>, n: nat) {
    forall j: nat :: j < n ==> DirectoryAt(tables, at, j)
  }

  ghost predicate DirectoryAt(tables: Tables, at: map<Place, nat>, j: nat) {
    Place(2, j) in at && at[Place(2, j)] in tables && tables[at[Place(2, j)]] == LargeTable(j)
  }

  lemma MoreDirectories(t: Tables, t': Tables, at: map<Place, nat>, at': map<Place, nat>, g: nat, pd: nat, pdpt: nat)
    requires Directories(t, at, g) && Place(3, 0) in at && at[Place(3, 0)] == pdpt && at' == at[Place(2, g) := pd]
    requires pdpt != pd && (forall s :: s in at ==> at[s] != pd)
    requires forall r, s :: r in at' && s in at' && r != s ==> at'[r] != at'[s]
    requires pd in t' && t'[pd] == LargeTable(g)
    requires forall x :: x in t && x != pd && x != pdpt ==> x in t' && t'[x] == t[x]
    ensures Directories(t', at', g + 1)
  {
    hide LargeTable;
    forall j: nat | j < g + 1 ensures DirectoryAt(t', at', j) {
      if j < g {
        assert DirectoryAt(t, at, j);
        assert at'[Place(2, j)] == at[Place(2, j)] && at'[Place(3, 0)] == pdpt;
        assert at'[Place(2, j)] != at'[Place(3, 0)];
      }
    }
  }

  /** After paging_init every address below 4 GiB translates. */
  lemma LowMapped(tables: Tables, at: map<Place, nat>, root: nat)
    requires TreeOk(tables, at, root) && NoOrphans(tables, at) && Directories(tables, at, IDENTITY_GIB)
    ensures RangeMapped(tables, root, 0, IDENTITY_GIB * GIB)
  {
    hide TreeOk, NoOrphans, LargeTable, Mapped, Walk;
    forall va: nat | va < IDENTITY_GIB * GIB ensures Walk(tables, root, va) == To(va, true, true) {
      LowPrefix(va);
      assert DirectoryAt(tables, at, Prefix(va, 2));
      LargeTableEntry(Prefix(va, 2), Index(va, 2));
      LargeMapped(tables, at, root, va);
      WalkIdentity(tables, at, root, va);
    }
  }

  lemma LowPrefix(va: nat)
    requires va < IDENTITY_GIB * GIB
    ensures Prefix(va, 2) < IDENTITY_GIB && va < TWO_48
  {
  }

  lemma LargeTableEntry(g: nat, i: nat)
    requires i < ENTRIES
    ensures Large(LargeTable(g)[i])
  {
    hide Large, LargeEntry;
    LargeDecodes(ENTRIES * g + i);
    assert (ENTRIES * g + i) * MB2 == g * GIB + i * MB2;
  }

  lemma RootThere(tables: Tables, at: map<Place, nat>, root: nat)
    requires TreeOk(tables, at, root)
    ensures root != 0
  {
    hide TableOk;
    RootPlace(tables, at, root);
    TableIsThere(tables, at, root, Place(4, 0));
  }

  /** Through any run of calls: whatever translates, translates to itself, writable and open to user mode. */
  lemma SpaceIdentity(space: AddressSpace, va: nat)
    requires space.Valid() && space.root != 0 && va < TWO_48 && Mapped(space.tables, space.root, va)
    ensures Walk(space.tables, space.root, va) == To(va, true, true)
  {
    hide PageAllocator.Valid, RangeMapped, Mapped, Walk, TreeOk, NoOrphans, Owned;
    WalkIdentity(space.tables, space.at, space.root, va);
  }

  /** No two entries link to the same table. */
  lemma Unshared(tables: Tables, at: map<Place, nat>, root: nat, r: Place, i: nat, s: Place, j: nat)
    requires TreeOk(tables, at, root) && r in at && s in at && 2 <= r.level && 2 <= s.level && i < ENTRIES && j < ENTRIES
    requires at[r] in tables && i < |tables[at[r]]| && at[s] in tables && j < |tables[at[s]]|
    requires Present(tables[at[r]][i]) && (r.level == 2 ==> !Large(tables[at[r]][i]))
    requires Present(tables[at[s]][j]) && (s.level == 2 ==> !Large(tables[at[s]][j]))
    requires Target(tables[at[r]][i]) == Target(tables[at[s]][j])
    ensures r == s && i == j
  {
    hide TreeOk, Present, Large, Target;
    LinkTarget(tables, at, root, r, i);
    LinkTarget(tables, at, root, s, j);
    PagesApart(tables, at, root);
    ChildUnique(r, i, s, j);
  }

  datatype Region = Region(start: nat, size: nat) {
    function First(): nat {
      start / PAGE_SIZE * PAGE_SIZE
    }

    function End(): nat {
      (start + size + PAGE_SIZE - 1) / PAGE_SIZE * PAGE_SIZE
    }
  }

  /**
   * A run of calls: every region whose call returned true is mapped at the end, nothing mapped before is
   * lost, nothing outside the regions comes to be mapped, and a call that failed did so for a reason.
   */
  method MapRegions(space: AddressSpace, regions: seq<Region>) returns (results: seq<bool>)
    requires space.Valid()
    requires forall k :: 0 <= k < |regions| ==> regions[k].start + regions[k].size <= TWO_48
    modifies space`tables, space`at, space.pmm`freePages, space.pmm`cursor, space.pmm`live, space.pmm.bitmap
    ensures space.Valid() && |results| == |regions| && Grows(old(space.tables), space.tables)
    ensures OnFresh(old(space.tables), old(space.pmm.live), space.tables, space.pmm.live)
    ensures forall k :: 0 <= k < |regions| && results[k] ==>
              RangeMapped(space.tables, space.root, regions[k].First(), regions[k].End())
    ensures forall va: nat :: va < TWO_48 && Mapped(space.tables, space.root, va) && !InRegions(regions, va) ==>
              Mapped(old(space.tables), space.root, va)
    ensures space.pmm.bitmap.Length == BITMAP_BYTES
    ensures forall k :: 0 <= k < |regions| && !results[k] ==>
              space.root == 0 || regions[k].size == 0 || space.pmm.Free() == {}
  {
    hide AddressSpace.Valid, Grows, RangeMapped, Region.First, Region.End, PageAllocator.Free, OnFresh, OnlyIn, Mapped,
         InRegions, PageAllocator.Valid;
    results := [];
    SpacePmm(space);
    space.pmm.Size();
    GrowsSame(space.tables);
    OnFreshSame(space.tables, space.pmm.live);
    while |results| < |regions|
      invariant |results| <= |regions| && space.Valid() && Grows(old(space.tables), space.tables)
      invariant OnFresh(old(space.tables), old(space.pmm.live), space.tables, space.pmm.live)
      invariant forall k :: 0 <= k < |results| && results[k] ==>
                  RangeMapped(space.tables, space.root, regions[k].First(), regions[k].End())
      invariant forall va: nat :: va < TWO_48 && Mapped(space.tables, space.root, va) && !InRegions(regions, va) ==>
                  Mapped(old(space.tables), space.root, va)
      invariant space.pmm.bitmap.Length == BITMAP_BYTES
      invariant forall k :: 0 <= k < |results| && !results[k] ==>
                  space.root == 0 || regions[k].size == 0 || space.pmm.Free() == {}
    {
      ghost var before, live1 := space.tables, space.pmm.live;
      var region := regions[|results|];
      var ok := space.MapRegion(region.start, region.size);
      GrowsTrans(old(space.tables), before, space.tables);
      OnFreshTrans(old(space.tables), old(space.pmm.live), before, live1, space.tables, space.pmm.live);
      forall k | 0 <= k < |results| && results[k]
        ensures RangeMapped(space.tables, space.root, regions[k].First(), regions[k].End())
      {
        RangeGrows(before, space.tables, space.root, regions[k].First(), regions[k].End());
      }
      RegionBounds(region);
      OutsideRegion(before, space.tables, space.root, regions, |results|);
      results := results + [ok];
    }
  }

  ghost predicate InRegions(regions: seq<Region>, va: nat) {
    exists k :: 0 <= k < |regions| && regions[k].First() <= va < regions[k].End()
  }

  lemma OutsideRegion(t: Tables, t': Tables, root: nat, regions: seq<Region>, k: nat)
    requires k < |regions| && OnlyIn(t, t', root, regions[k].First(), regions[k].End())
    ensures forall va: nat :: va < TWO_48 && Mapped(t', root, va) && !InRegions(regions, va) ==> Mapped(t, root, va)
  {
    hide Mapped, Region.First, Region.End;
  }

  lemma RegionBounds(r: Region)
    ensures r.First() == r.start / PAGE_SIZE * PAGE_SIZE
    ensures r.End() == (r.start + r.size + PAGE_SIZE - 1) / PAGE_SIZE * PAGE_SIZE
  {
  }

  lemma NextPage(addr: nat, end: nat)
    requires addr % PAGE_SIZE == 0 && end % PAGE_SIZE == 0 && addr < end
    ensures (addr + PAGE_SIZE) % PAGE_SIZE == 0 && addr + PAGE_SIZE <= end
  {
  }

  lemma RegionEnds(physAddr: nat, size: nat)
    requires physAddr + size <= TWO_48
    ensures var start, end := physAddr / PAGE_SIZE * PAGE_SIZE,
                              (physAddr + size + PAGE_SIZE - 1) / PAGE_SIZE * PAGE_SIZE;
            start % PAGE_SIZE == 0 && end % PAGE_SIZE == 0 && start <= end <= TWO_48
  {
  }

  lemma NothingToMap(tables: Tables, root: nat, start: nat)
    ensures RangeMapped(tables, root, start, start)
  {
    hide Walk;
  }

  lemma InRangeMapped(tables: Tables, root: nat, start: nat, end: nat, va: nat)
    requires RangeMapped(tables, root, start, end) && start <= va < end
    ensures Mapped(tables, root, va)
  {
    hide Walk;
  }

  lemma PageNumber(addr: nat)
    requires addr % PAGE_SIZE == 0
    ensures (ENTRIES * Prefix(addr, 1) + Index(addr, 1)) * PAGE_SIZE == addr
    ensures addr / PAGE_SIZE * PAGE_SIZE == addr
  {
    LeafNumber(addr, 1);
  }

  lemma LargeMapped(tables: Tables, at: map<Place, nat>, root: nat, va: nat)
    requires TreeOk(tables, at, root) && NoOrphans(tables, at) && va < TWO_48 && Place(2, Prefix(va, 2)) in at
    requires at[Place(2, Prefix(va, 2))] in tables && Index(va, 2) < |tables[at[Place(2, Prefix(va, 2))]]|
    requires Large(tables[at[Place(2, Prefix(va, 2))]][Index(va, 2)])
    ensures Mapped(tables, root, va)
  {
    hide TreeOk, NoOrphans, Index, Prefix, Mapped, LargeEntry, Present, Large;
    EntryAt(tables, at, root, Place(2, Prefix(va, 2)), Index(va, 2));
    LargeDecodes(ENTRIES * Prefix(va, 2) + Index(va, 2));
    LeafMapped(tables, at, root, va);
  }

  lemma SmallMapped(tables: Tables, at: map<Place, nat>, root: nat, va: nat)
    requires TreeOk(tables, at, root) && NoOrphans(tables, at) && va < TWO_48
    requires Place(1, Prefix(va, 1)) in at
    requires at[Place(1, Prefix(va, 1))] in tables && Index(va, 1) < |tables[at[Place(1, Prefix(va, 1))]]|
    requires Present(tables[at[Place(1, Prefix(va, 1))]][Index(va, 1)])
    ensures Mapped(tables, root, va)
  {
    hide TreeOk, NoOrphans, Index, Prefix, Mapped, Present, Large;
    Upwards(tables, at, root, va, 2);
    LinkPresent(tables, at, root, va, 2);
    EntryAt(tables, at, root, Place(1, Prefix(va, 1)), Index(va, 1));
    LeafMapped(tables, at, root, va);
  }
}
