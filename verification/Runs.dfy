/** Whole runs of file system calls, and power cuts in the middle of them. */
module Runs {
  import opened Bytes
  import opened Layout
  import opened CrashSafety
  import opened CrashTheorems
  import opened Bitmap
  import opened Entries
  import opened Files
  import opened Contents
  import opened Tree
  import opened Volumes
  import opened Allocator
  import opened FileReads
  import opened FileGrowth
  import opened WriteLemmas
  import opened WriteFile
  import opened Directory
  import opened EntryOps
  import opened DeleteEntry

  datatype Call =
    | MakeFile(parent: nat, name: seq<byte>)
    | MakeDirectory(parent: nat, name: seq<byte>)
    | WriteBytes(index: nat, offset: nat, data: seq<byte>)
    | Shorten(index: nat, size: nat)
    | Remove(index: nat)

  /** What a caller owes: an index below the table's size or one the capacity check refuses, and no 64-bit wrap. */
  ghost predicate CallOk(g: Geometry, c: Call)
    requires g.blockSize > 0
  {
    match c
    case MakeFile(parent, _) => IndexOk(g, parent)
    case MakeDirectory(parent, _) => IndexOk(g, parent)
    case WriteBytes(index, offset, data) => IndexOk(g, index) && offset + |data| < TWO_64
    case Shorten(index, _) => IndexOk(g, index)
    case Remove(index) => IndexOk(g, index)
  }

  // ---- What each call does, from the state before it to the state after it ----

  ghost predicate IsMade(v: seq<Block>, v': seq<Block>, g: Geometry, i: nat, kind: byte, name: seq<byte>, parent: nat)
    requires g.blockSize > 0
  {
    && i < g.Slots() && EntryAt(v, g, i).kind == FREE && NoneFreeBelow(Table(v, g), i)
    && Table(v', g) == Table(v, g)[i := NewEntry(kind, name, parent)]
    && OthersKept(v, v', g, i)
  }

  ghost predicate MadeOk(v: seq<Block>, v': seq<Block>, g: Geometry, kind: byte, name: seq<byte>, parent: nat, res: FsResult)
    requires g.blockSize > 0
  {
    && CreateResult(res, Table(v, g), g, parent, name)
    && if res == OK then exists i: nat :: IsMade(v, v', g, i, kind, name, parent) else v' == v
  }

  ghost predicate WrittenOk(v: seq<Block>, v': seq<Block>, g: Geometry, i: nat, offset: nat, data: seq<byte>, res: FsResult)
    requires g.blockSize > 0
  {
    var e := EntryAt(v, g, i);
    && res == (if |data| == 0 then OK
               else if i >= g.capacity then ERR_INVALID
               else if e.kind != FILE then ERR_IS_DIR
               else if CannotGrow(v, g, e, offset + |data|) then ERR_NO_SPACE else OK)
    && if res == OK && |data| > 0
       then Written(v, v', g, i, offset, data) && ExactBytes(v, v', g, i, offset, data)
       else AllKept(v, v', g)
  }

  ghost predicate ShortenedOk(v: seq<Block>, v': seq<Block>, g: Geometry, i: nat, size: nat, res: FsResult)
    requires g.blockSize > 0
  {
    var e := EntryAt(v, g, i);
    && res == (if i >= g.capacity then ERR_INVALID
               else if e.kind != FILE then ERR_IS_DIR
               else if size > e.size then ERR_INVALID else OK)
    && if res == OK
       then i < g.Slots() && Table(v', g) == Table(v, g)[i := e.(size := size)]
            && size <= |Content(v, g, e)| && Content(v', g, e.(size := size)) == Content(v, g, e)[..size]
            && OthersKept(v, v', g, i)
       else v' == v
  }

  ghost predicate RemovedOk(v: seq<Block>, v': seq<Block>, g: Geometry, i: nat, res: FsResult)
    requires g.blockSize > 0
  {
    && res == (if i == g.root || i >= g.capacity then ERR_INVALID
               else if EntryAt(v, g, i).kind == FREE then ERR_NOT_FOUND
               else if exists j: nat :: ChildOf(Table(v, g), j, i) then ERR_NOT_EMPTY
               else OK)
    && if res == OK
       then i < g.Slots() && Table(v', g) == Table(v, g)[i := BlankEntry()] && Held(v', g) == Held(v, g)[i := []]
            && OthersKept(v, v', g, i)
       else v' == v
  }

  ghost predicate Outcome(v: seq<Block>, v': seq<Block>, g: Geometry, c: Call, res: FsResult)
    requires g.blockSize > 0
  {
    match c
    case MakeFile(parent, name) => MadeOk(v, v', g, FILE, name, parent, res)
    case MakeDirectory(parent, name) => MadeOk(v, v', g, DIRECTORY, name, parent, res)
    case WriteBytes(index, offset, data) => WrittenOk(v, v', g, index, offset, data, res)
    case Shorten(index, size) => ShortenedOk(v, v', g, index, size, res)
    case Remove(index) => RemovedOk(v, v', g, index, res)
  }

  /** A state a crash may expose: files own their blocks, the directory tree is whole; at worst blocks have leaked. */
  ghost predicate CrashOk(v: seq<Block>, g: Geometry)
    requires g.blockSize > 0
  {
    Sound(v, g) && TreeOk(Table(v, g), g.root)
  }

  ghost predicate AllCrashOk(vol: Volume, from: nat)
    requires vol.g.blockSize > 0
    reads vol
  {
    forall k :: from <= k < |vol.history| ==> CrashOk(vol.history[k], vol.g)
  }

  ghost predicate AllTrees(vol: Volume, from: nat)
    requires vol.g.blockSize > 0
    reads vol
  {
    forall k :: from <= k < |vol.history| ==> TreeOk(Table(vol.history[k], vol.g), vol.g.root)
  }

  /** vtx2_write keeps the tree: only sizes and block lists of one entry move. */
  lemma WriteKeepsTree(v: seq<Block>, v': seq<Block>, g: Geometry, i: nat, offset: nat, data: seq<byte>)
    requires g.blockSize > 0 && TreeOk(Table(v, g), g.root) && Written(v, v', g, i, offset, data)
    ensures TreeOk(Table(v', g), g.root)
  {
    hide TreeOk, EntryAt, Content, OthersKept, g.Slots, Table;
    TableAt(v, g, i);
    TableSize(v, g);
    EntryPlain(Table(v, g), g.root, i, EntryAt(v', g, i));
  }

  lemma TwoTables(vol: Volume, from: nat, v: seq<Block>, v': seq<Block>, i: nat)
    requires vol.g.blockSize > 0 && WriteStates(vol, from, v, v', i)
    requires TreeOk(Table(v, vol.g), vol.g.root) && TreeOk(Table(v', vol.g), vol.g.root)
    ensures AllCrashOk(vol, from)
  {
    hide TreeOk, Table, Sound, OthersKept, OldOrNew, EntryAt;
    forall k | from <= k < |vol.history| ensures CrashOk(vol.history[k], vol.g) {
      assert DuringWrite(v, vol.history[k], v', vol.g, i);
    }
  }

  /** vtx2_write, with the tree. */
  method WriteKeeping(vol: Volume, index: nat, offset: nat, data: seq<byte>, ghost leaked: set<nat>)
    returns (res: FsResult, written: nat)
    requires vol.Valid() && vol.g.Valid() && vol.g.blockSize > 0 && FsOk(vol.V(), vol.g, leaked)
    requires IndexOk(vol.g, index) && offset + |data| < TWO_64
    modifies vol, vol.dev
    ensures vol.Valid() && vol.Continues() && FsOk(vol.V(), vol.g, leaked)
    ensures old(HintExact(vol)) ==> HintExact(vol)
    ensures AllCrashOk(vol, |old(vol.history)|)
    ensures WrittenOk(old(vol.V()), vol.V(), vol.g, index, offset, data, res)
  {
    hide vol.Valid, vol.V, vol.g.Valid, OwnOk, TreeOk, Table, Written, EntryAt, HintExact, WriteStates, IndexOk, ExactBytes,
         CannotGrow;
    ghost var v := vol.V();
    res, written := WriteAt(vol, index, offset, data, leaked);
    if res == OK && |data| > 0 {
      WriteKeepsTree(v, vol.V(), vol.g, index, offset, data);
    }
    TwoTables(vol, |old(vol.history)|, v, vol.V(), index);
  }

  lemma OneState(vol: Volume, h0: seq<seq<Block>>, leaked: set<nat>)
    requires vol.g.blockSize > 0 && FsOk(vol.V(), vol.g, leaked)
    requires vol.history == h0 + [vol.V()] || vol.history == h0
    ensures AllCrashOk(vol, |h0|)
  {
    hide OwnOk, TreeOk, Table;
    OwnSound(vol.V(), vol.g, leaked);
  }

  lemma AlsoTrees(vol: Volume, from: nat)
    requires vol.g.blockSize > 0 && AllCrashOk(vol, from)
    ensures AllTrees(vol, from)
  {
    hide TreeOk, Table, Sound;
  }

  /** vtx2_delete, state by state. */
  method RemoveKeeping(vol: Volume, index: nat, ghost leaked: set<nat>) returns (res: FsResult)
    requires vol.Valid() && vol.g.Valid() && vol.g.blockSize > 0 && FsOk(vol.V(), vol.g, leaked)
    requires IndexOk(vol.g, index)
    modifies vol, vol.dev
    ensures vol.Valid() && vol.Continues() && FsOk(vol.V(), vol.g, leaked)
    ensures old(HintExact(vol)) ==> HintExact(vol)
    ensures AllTrees(vol, |old(vol.history)|)
    ensures forall k :: |old(vol.history)| <= k < |vol.history| ==>
              (CrashOk(vol.history[k], vol.g) <==> k == |vol.history| - 1)
    ensures RemovedOk(old(vol.V()), vol.V(), vol.g, index, res)
  {
    hide vol.Valid, vol.V, vol.g.Valid, OwnOk, TreeOk, Table, EntryAt, HintExact, IndexOk, Sound, ChildOf,
         Held, OthersKept, vol.g.Slots;
    res := Delete(vol, index, leaked);
  }

  /** One call: ownership, the tree and the exact free count survive it, and so does every state on the way. */
  method Perform(vol: Volume, c: Call, ghost leaked: set<nat>) returns (res: FsResult)
    requires vol.Valid() && vol.g.Valid() && vol.g.blockSize > 0 && FsOk(vol.V(), vol.g, leaked) && CallOk(vol.g, c)
    modifies vol, vol.dev
    ensures vol.Valid() && vol.Continues() && FsOk(vol.V(), vol.g, leaked)
    ensures old(HintExact(vol)) ==> HintExact(vol)
    ensures AllTrees(vol, |old(vol.history)|)
    ensures forall k :: |old(vol.history)| <= k < |vol.history| ==>
              (CrashOk(vol.history[k], vol.g) <==> !c.Remove? || k == |vol.history| - 1)
    ensures Outcome(old(vol.V()), vol.V(), vol.g, c, res)
  {
    hide vol.Valid, vol.V, vol.g.Valid, FsOk, Table, EntryAt, HintExact, IndexOk, CrashOk, AllTrees,
         CreateResult, OthersKept, Held, vol.g.Slots, NewEntry, NoneFreeBelow, WrittenOk, RemovedOk;
    ghost var v := vol.V();
    match c {
      case MakeFile(parent, name) =>
        var index;
        res, index := CreateEntry(vol, parent, name, FILE, leaked);
        assert res == OK ==> IsMade(v, vol.V(), vol.g, index, FILE, name, parent);
        OneState(vol, old(vol.history), leaked);
        AlsoTrees(vol, |old(vol.history)|);
      case MakeDirectory(parent, name) =>
        var index;
        res, index := CreateEntry(vol, parent, name, DIRECTORY, leaked);
        assert res == OK ==> IsMade(v, vol.V(), vol.g, index, DIRECTORY, name, parent);
        OneState(vol, old(vol.history), leaked);
        AlsoTrees(vol, |old(vol.history)|);
      case WriteBytes(index, offset, data) =>
        var written;
        res, written := WriteKeeping(vol, index, offset, data, leaked);
        AlsoTrees(vol, |old(vol.history)|);
      case Shorten(index, size) =>
        res := Truncate(vol, index, size, leaked);
        OneState(vol, old(vol.history), leaked);
        AlsoTrees(vol, |old(vol.history)|);
      case Remove(index) =>
        res := RemoveKeeping(vol, index, leaked);
    }
  }

  lemma MoreTrees(vol: Volume, h: seq<seq<Block>>)
    requires vol.g.blockSize > 0 && h <= vol.history && AllTrees(vol, |h|)
    requires forall k :: 0 <= k < |h| ==> TreeOk(Table(h[k], vol.g), vol.g.root)
    ensures AllTrees(vol, 0)
  {
    hide TreeOk, Table;
    forall k | 0 <= k < |vol.history| ensures TreeOk(Table(vol.history[k], vol.g), vol.g.root) {
      if k < |h| {
        assert vol.history[k] == h[k];
      }
    }
  }

  /**
   * State k of the session lies strictly inside a delete: marks[n] is the length of the history when call n
   * began, and the last state of a call is the one it ends in.
   */
  ghost predicate InsideDelete(calls: seq<Call>, marks: seq<nat>, k: nat) {
    exists n :: 0 <= n < |calls| && n + 1 < |marks| && Inside(calls, marks, n, k)
  }

  ghost predicate Inside(calls: seq<Call>, marks: seq<nat>, n: nat, k: nat)
    requires n < |calls| && n + 1 < |marks|
  {
    calls[n].Remove? && marks[n] <= k && k + 1 < marks[n + 1]
  }

  /** Every state a crash may expose is sound and has its tree whole, except strictly inside a delete. */
  ghost predicate SafeButDeletes(history: seq<seq<Block>>, g: Geometry, calls: seq<Call>, marks: seq<nat>)
    requires g.blockSize > 0
  {
    forall k :: 0 <= k < |history| ==> (CrashOk(history[k], g) <==> !InsideDelete(calls, marks, k))
  }

  ghost predicate MarksOk(marks: seq<nat>, length: nat) {
    && |marks| > 0 && marks[|marks| - 1] == length
    && forall n :: 0 <= n < |marks| ==> marks[n] <= length
  }

  /** Call n took the volume from the state it began in to the last state of its part of the history, with the right outcome. */
  ghost predicate CallDid(history: seq<seq<Block>>, g: Geometry, calls: seq<Call>, results: seq<FsResult>, marks: seq<nat>,
                          n: nat)
    requires g.blockSize > 0 && n < |results| <= |calls| && n + 1 < |marks|
  {
    && 0 < marks[n] <= marks[n + 1] <= |history|
    && Outcome(history[marks[n] - 1], history[marks[n + 1] - 1], g, calls[n], results[n])
  }

  ghost predicate RunOk(history: seq<seq<Block>>, g: Geometry, calls: seq<Call>, results: seq<FsResult>, marks: seq<nat>)
    requires g.blockSize > 0
  {
    && |results| <= |calls| && |marks| == |results| + 1 && marks[0] == 1
    && forall n :: 0 <= n < |results| ==> CallDid(history, g, calls, results, marks, n)
  }

  lemma RunMore(h: seq<seq<Block>>, h': seq<seq<Block>>, g: Geometry, calls: seq<Call>, results: seq<FsResult>,
                marks: seq<nat>, res: FsResult)
    requires g.blockSize > 0 && RunOk(h, g, calls, results, marks) && h != [] && h <= h'
    requires |results| < |calls| && marks[|results|] == |h|
    requires Outcome(h[|h| - 1], h'[|h'| - 1], g, calls[|results|], res)
    ensures RunOk(h', g, calls, results + [res], marks + [|h'|])
  {
    hide Outcome;
    var results', marks' := results + [res], marks + [|h'|];
    forall n | 0 <= n < |results'| ensures CallDid(h', g, calls, results', marks', n) {
      if n < |results| {
        assert CallDid(h, g, calls, results, marks, n);
        assert h'[marks[n] - 1] == h[marks[n] - 1] && h'[marks[n + 1] - 1] == h[marks[n + 1] - 1];
      }
    }
  }

  /** One more call. */
  lemma SafeMore(h: seq<seq<Block>>, h': seq<seq<Block>>, g: Geometry, calls: seq<Call>, marks: seq<nat>, n: nat)
    requires g.blockSize > 0 && h <= h' && n < |calls| && |marks| == n + 1 && MarksOk(marks, |h|)
    requires SafeButDeletes(h, g, calls, marks)
    requires forall k :: |h| <= k < |h'| ==> (CrashOk(h'[k], g) <==> !calls[n].Remove? || k == |h'| - 1)
    ensures SafeButDeletes(h', g, calls, marks + [|h'|]) && MarksOk(marks + [|h'|], |h'|)
  {
    hide CrashOk;
    var marks' := marks + [|h'|];
    forall k | 0 <= k < |h'| ensures CrashOk(h'[k], g) <==> !InsideDelete(calls, marks', k) {
      InsideMore(calls, marks, n, |h|, |h'|, k);
      if k < |h| {
        assert h'[k] == h[k];
      }
    }
  }

  lemma InsideMore(calls: seq<Call>, marks: seq<nat>, n: nat, length: nat, length': nat, k: nat)
    requires n < |calls| && |marks| == n + 1 && MarksOk(marks, length) && length <= length'
    ensures InsideDelete(calls, marks + [length'], k) <==>
              InsideDelete(calls, marks, k) || (calls[n].Remove? && length <= k < length' - 1)
    ensures InsideDelete(calls, marks, k) ==> k < length
  {
    var marks' := marks + [length'];
    if calls[n].Remove? && length <= k < length' - 1 {
      assert Inside(calls, marks', n, k);
    }
    if InsideDelete(calls, marks, k) {
      var m :| 0 <= m < |calls| && m + 1 < |marks| && Inside(calls, marks, m, k);
      assert Inside(calls, marks', m, k);
    }
    if InsideDelete(calls, marks', k) {
      var m :| 0 <= m < |calls| && m + 1 < |marks'| && Inside(calls, marks', m, k);
      if m < n {
        assert Inside(calls, marks, m, k);
      }
    }
  }

  lemma OnlyStart(v: seq<Block>, g: Geometry, calls: seq<Call>)
    requires g.blockSize > 0 && CrashOk(v, g)
    ensures SafeButDeletes([v], g, calls, [1]) && MarksOk([1], 1)
  {
    hide CrashOk;
  }

  lemma NothingRun(history: seq<seq<Block>>, g: Geometry, calls: seq<Call>)
    requires g.blockSize > 0
    ensures RunOk(history, g, calls, [], [1])
  {
  }

  /** Any run of calls, from the start of a session on: what every call did, and which states a crash may expose. */
  method Run(vol: Volume, calls: seq<Call>, ghost leaked: set<nat>) returns (results: seq<FsResult>, ghost marks: seq<nat>)
    requires vol.Valid() && vol.g.Valid() && vol.g.blockSize > 0 && FsOk(vol.V(), vol.g, leaked)
    requires forall n :: 0 <= n < |calls| ==> CallOk(vol.g, calls[n])
    requires vol.history == [vol.V()]
    modifies vol, vol.dev
    ensures vol.Valid() && vol.Continues() && FsOk(vol.V(), vol.g, leaked) && |results| == |calls|
    ensures old(HintExact(vol)) ==> HintExact(vol)
    ensures AllTrees(vol, 0)
    ensures |marks| == |calls| + 1 && MarksOk(marks, |vol.history|) && SafeButDeletes(vol.history, vol.g, calls, marks)
    ensures RunOk(vol.history, vol.g, calls, results, marks)
  {
    hide vol.Valid, vol.V, vol.g.Valid, FsOk, HintExact, CallOk, TreeOk, Table, CrashOk, SafeButDeletes, Outcome, RunOk, ViewOk;
    OneState(vol, [], leaked);
    AlsoTrees(vol, 0);
    assert CrashOk(vol.history[0], vol.g);
    OnlyStart(vol.V(), vol.g, calls);
    results, marks := [], [1];
    NothingRun(vol.history, vol.g, calls);
    while |results| < |calls|
      invariant |results| <= |calls| && |marks| == |results| + 1
      invariant vol.Valid() && vol.Continues() && FsOk(vol.V(), vol.g, leaked)
      invariant old(HintExact(vol)) ==> HintExact(vol)
      invariant AllTrees(vol, 0)
      invariant MarksOk(marks, |vol.history|) && SafeButDeletes(vol.history, vol.g, calls, marks)
      invariant RunOk(vol.history, vol.g, calls, results, marks)
    {
      VolumeView(vol);
      ghost var h := vol.history;
      var n := |results|;
      var res := Perform(vol, calls[n], leaked);
      MoreTrees(vol, h);
      VolumeView(vol);
      SafeMore(h, vol.history, vol.g, calls, marks, n);
      RunMore(h, vol.history, vol.g, calls, results, marks, res);
      results := results + [res];
      marks := marks + [|vol.history|];
    }
  }

  /**
   * A power cut at any block write of a session of calls whose log did not wrap: after replay the volume is
   * state k of the session, its tree is whole, and every file owns its blocks if and only if k does not
   * lie strictly inside a delete.
   */
  lemma CrashDuringRun(vol: Volume, calls: seq<Call>, marks: seq<nat>, m: nat) returns (k: nat)
    requires vol.Valid() && vol.g.Valid() && vol.g.blockSize > 0 && !vol.exposed && AllTrees(vol, 0)
    requires SafeButDeletes(vol.history, vol.g, calls, marks)
    requires vol.mark <= |vol.dev.log| && m <= |vol.dev.log| - vol.mark
    ensures k < |vol.history|
    ensures RecoversTo(Apply(vol.base, vol.dev.log[vol.mark..vol.mark + m]), vol.g, vol.history[k])
    ensures TreeOk(Table(vol.history[k], vol.g), vol.g.root)
    ensures CrashOk(vol.history[k], vol.g) <==> !InsideDelete(calls, marks, k)
    ensures forall i :: 0 <= i <= |vol.steps| && |Expand(vol.base, vol.g, vol.steps[..i])| <= m ==> i <= k
  {
    hide vol.Valid, vol.g.Valid, RecoversTo, CrashOk, TreeOk, Table, Apply, Expand, InsideDelete;
    k := CrashPoint(vol, m);
  }
}
