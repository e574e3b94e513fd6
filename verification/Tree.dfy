/** The directory tree that the flat entry table encodes. */
module Tree {
  import opened Entries
  import opened Names

  ghost predicate Live(t: seq<Entry>, i: nat) {
    i < |t| && t[i].kind != FREE
  }

  /** n steps up from entry i. */
  ghost function Up(t: seq<Entry>, i: nat, n: nat): nat
    decreases n
  {
    if n == 0 then i else if i < |t| then Up(t, t[i].parent, n - 1) else i
  }

  ghost predicate Reaches(t: seq<Entry>, root: nat, i: nat) {
    exists n: nat :: Up(t, i, n) == root
  }

  /** i is a child of directory dir; the root is nobody's child. */
  predicate ChildOf(t: seq<Entry>, i: nat, dir: nat) {
    i < |t| && i != dir && t[i].kind != FREE && t[i].parent == dir
  }

  ghost predicate ParentOk(t: seq<Entry>, i: nat)
    requires i < |t|
  {
    t[i].parent < |t| && t[t[i].parent].kind == DIRECTORY
  }

  /** Siblings whose names are stored in the clear have different names, read as C strings. */
  ghost predicate NamesDiffer(t: seq<Entry>) {
    forall i: nat, j: nat, dir: nat :: ChildOf(t, i, dir) && ChildOf(t, j, dir) && i != j ==>
      t[i].nameEncrypted != 0 || t[j].nameEncrypted != 0 || CString(t[i].name) != CString(t[j].name)
  }

  /** A name in the clear ends with a NUL and has only NUL behind it. */
  ghost predicate NamesPadded(t: seq<Entry>) {
    forall i: nat :: Live(t, i) && t[i].nameEncrypted == 0 ==> Padded(t[i].name)
  }

  /** The root is a directory and its own parent; every live entry hangs below it under a live directory. */
  ghost predicate TreeOk(t: seq<Entry>, root: nat) {
    && root < |t| && t[root].kind == DIRECTORY && t[root].parent == root
    && (forall i :: 0 <= i < |t| ==> t[i].kind == FREE || t[i].kind == FILE || t[i].kind == DIRECTORY)
    && (forall i: nat :: Live(t, i) ==> ParentOk(t, i))
    && (forall i: nat :: Live(t, i) ==> Reaches(t, root, i))
    && NamesDiffer(t) && NamesPadded(t)
  }

  /** A chain that avoids entry i does not notice what becomes of it. */
  lemma {:induction false} UpElsewhere(t: seq<Entry>, i: nat, e: Entry, j: nat, n: nat)
    requires i < |t| && Live(t, j) && j != i
    requires forall k: nat :: Live(t, k) ==> ParentOk(t, k)
    requires forall k: nat :: Live(t, k) && k != i ==> t[k].parent != i
    ensures Up(t[i := e], j, n) == Up(t, j, n)
    decreases n
  {
    if n > 0 {
      assert ParentOk(t, j);
      UpElsewhere(t, i, e, t[j].parent, n - 1);
    }
  }

  lemma ReachesElsewhere(t: seq<Entry>, root: nat, i: nat, e: Entry, j: nat)
    requires i < |t| && Live(t, j) && j != i && Reaches(t, root, j)
    requires forall k: nat :: Live(t, k) ==> ParentOk(t, k)
    requires forall k: nat :: Live(t, k) && k != i ==> t[k].parent != i
    ensures Reaches(t[i := e], root, j)
  {
    var n: nat :| Up(t, j, n) == root;
    UpElsewhere(t, i, e, j, n);
  }

  lemma ReachesParent(t: seq<Entry>, root: nat, i: nat)
    requires i < |t| && Reaches(t, root, t[i].parent)
    ensures Reaches(t, root, i)
  {
    var n: nat :| Up(t, t[i].parent, n) == root;
    assert Up(t, i, n + 1) == root;
  }

  /** A new entry in a free slot, below a live directory that has no such name yet. */
  lemma TreeCreate(t: seq<Entry>, root: nat, i: nat, e: Entry)
    requires TreeOk(t, root) && i < |t| && t[i].kind == FREE
    requires e.kind == FILE || e.kind == DIRECTORY
    requires e.parent < |t| && t[e.parent].kind == DIRECTORY
    requires Padded(e.name) && forall j: nat :: ChildOf(t, j, e.parent) ==> t[j].name != e.name
    ensures TreeOk(t[i := e], root)
  {
    hide Up, Reaches, NamesDiffer, ChildOf, Padded;
    var t' := t[i := e];
    NoChildOfFree(t, i);
    ReachesElsewhere(t, root, i, e, e.parent);
    ReachesParent(t', root, i);
    forall j: nat | Live(t', j) ensures ParentOk(t', j) && Reaches(t', root, j) {
      if j != i {
        assert Live(t, j);
        ReachesElsewhere(t, root, i, e, j);
      }
    }
    CreateNames(t, i, e);
  }

  lemma NoChildOfFree(t: seq<Entry>, i: nat)
    requires i < |t| && t[i].kind == FREE && forall k: nat :: Live(t, k) ==> ParentOk(t, k)
    ensures forall k: nat :: Live(t, k) ==> t[k].parent != i
  {
  }

  lemma CreateNames(t: seq<Entry>, i: nat, e: Entry)
    requires NamesDiffer(t) && NamesPadded(t) && i < |t| && t[i].kind == FREE
    requires Padded(e.name) && forall j: nat :: ChildOf(t, j, e.parent) ==> t[j].name != e.name
    ensures NamesDiffer(t[i := e])
  {
    hide Padded, CString;
    var t' := t[i := e];
    forall j: nat, k: nat, dir: nat | ChildOf(t', j, dir) && ChildOf(t', k, dir) && j != k
                       && t'[j].nameEncrypted == 0 && t'[k].nameEncrypted == 0
      ensures CString(t'[j].name) != CString(t'[k].name)
    {
      if j != i {
        assert ChildOf(t, j, dir) && Live(t, j);
        OneString(t[j].name, e.name);
      }
      if k != i {
        assert ChildOf(t, k, dir) && Live(t, k);
        OneString(t[k].name, e.name);
      }
    }
  }

  /** A childless entry other than the root is freed. */
  lemma TreeDelete(t: seq<Entry>, root: nat, i: nat, e: Entry)
    requires TreeOk(t, root) && i < |t| && i != root && e.kind == FREE
    requires forall j: nat :: !ChildOf(t, j, i)
    ensures TreeOk(t[i := e], root)
  {
    hide Up, Reaches, NamesDiffer;
    var t' := t[i := e];
    forall k: nat | Live(t, k) && k != i ensures t[k].parent != i {
      assert !ChildOf(t, k, i);
    }
    forall j: nat | Live(t', j) ensures ParentOk(t', j) && Reaches(t', root, j) {
      assert Live(t, j);
      ReachesElsewhere(t, root, i, e, j);
    }
    DeleteNames(t, i, e);
  }

  lemma DeleteNames(t: seq<Entry>, i: nat, e: Entry)
    requires NamesDiffer(t) && i < |t| && e.kind == FREE
    ensures NamesDiffer(t[i := e])
  {
    var t' := t[i := e];
    forall j: nat, k: nat, dir: nat | ChildOf(t', j, dir) && ChildOf(t', k, dir) && j != k
                       && t'[j].nameEncrypted == 0 && t'[k].nameEncrypted == 0
      ensures CString(t'[j].name) != CString(t'[k].name)
    {
      assert ChildOf(t, j, dir) && ChildOf(t, k, dir);
    }
  }

  lemma {:induction false} UpSame(t: seq<Entry>, t': seq<Entry>, j: nat, n: nat)
    requires |t'| == |t| && forall k :: 0 <= k < |t| ==> t'[k].parent == t[k].parent
    ensures Up(t', j, n) == Up(t, j, n)
    decreases n
  {
    if n > 0 && j < |t| {
      UpSame(t, t', t[j].parent, n - 1);
    }
  }

  /** An entry rewritten in place: same kind and parent, and the same name or one that is no longer in the clear. */
  lemma TreeUpdate(t: seq<Entry>, root: nat, i: nat, e: Entry)
    requires TreeOk(t, root) && i < |t| && e.kind == t[i].kind && e.parent == t[i].parent
    requires e.nameEncrypted != 0 || (e.name == t[i].name && t[i].nameEncrypted == 0)
    ensures TreeOk(t[i := e], root)
  {
    hide Up, NamesDiffer, ChildOf, Reaches;
    var t' := t[i := e];
    forall j: nat | Live(t', j) ensures ParentOk(t', j) && Reaches(t', root, j) {
      assert Live(t, j);
      ReachesSame(t, t', root, j);
    }
    UpdateNames(t, i, e);
  }

  lemma ReachesSame(t: seq<Entry>, t': seq<Entry>, root: nat, j: nat)
    requires |t'| == |t| && Reaches(t, root, j)
    requires forall k :: 0 <= k < |t| ==> t'[k].parent == t[k].parent
    ensures Reaches(t', root, j)
  {
    hide Up;
    var n: nat :| Up(t, j, n) == root;
    UpSame(t, t', j, n);
  }

  lemma UpdateNames(t: seq<Entry>, i: nat, e: Entry)
    requires NamesDiffer(t) && i < |t| && e.kind == t[i].kind && e.parent == t[i].parent
    requires e.nameEncrypted != 0 || (e.name == t[i].name && t[i].nameEncrypted == 0)
    ensures NamesDiffer(t[i := e])
  {
    var t' := t[i := e];
    forall j: nat, k: nat, dir: nat | ChildOf(t', j, dir) && ChildOf(t', k, dir) && j != k
                       && t'[j].nameEncrypted == 0 && t'[k].nameEncrypted == 0
      ensures CString(t'[j].name) != CString(t'[k].name)
    {
      assert ChildOf(t, j, dir) && ChildOf(t, k, dir);
    }
  }

  /** The children of dir among the first n entries, in table order. */
  function Children(t: seq<Entry>, dir: nat, n: nat): (c: seq<nat>)
    ensures |c| <= n
  {
    if n == 0 then []
    else Children(t, dir, n - 1) + (if ChildOf(t, n - 1, dir) then [n - 1] else [])
  }

  /** The list has every child once and nothing else. */
  lemma {:induction false} ChildrenAll(t: seq<Entry>, dir: nat, n: nat)
    ensures forall i: nat :: i in Children(t, dir, n) <==> i < n && ChildOf(t, i, dir)
    ensures forall p, q :: 0 <= p < q < |Children(t, dir, n)| ==> Children(t, dir, n)[p] < Children(t, dir, n)[q]
  {
    if n > 0 {
      ChildrenAll(t, dir, n - 1);
      var c := Children(t, dir, n - 1);
      forall p | 0 <= p < |c| ensures c[p] < n - 1 {
        assert c[p] in c;
      }
    }
  }
}
