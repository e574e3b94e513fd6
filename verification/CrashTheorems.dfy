/** The journal's promises over whole sessions. */
module CrashTheorems {
  import opened Arith
  import opened Layout
  import opened JournalBytes
  import opened JournalStream
  import opened JournalRecord
  import opened Recovery
  import opened CrashSafety

  // ---- Writing committed blocks again changes nothing ----

  ghost predicate AgreeBut(a: seq<Block>, b: seq<Block>, t: nat) {
    |a| == |b| && forall i :: 0 <= i < |a| && i != t ==> a[i] == b[i]
  }

  lemma {:induction false} FoldAgree(a: seq<Block>, b: seq<Block>, ws: seq<Write>, t: nat)
    requires AgreeBut(a, b, t)
    ensures AgreeBut(Apply(a, ws), Apply(b, ws), t)
    decreases |ws|
  {
    if ws != [] {
      FoldAgree(Put(a, ws[0].block, ws[0].data), Put(b, ws[0].block, ws[0].data), ws[1..], t);
    }
  }

  lemma {:induction false} FoldKeeps(a: seq<Block>, ws: seq<Write>, t: nat)
    requires t < |a| && forall i :: 0 <= i < |ws| ==> ws[i].block != t
    ensures Apply(a, ws)[t] == a[t]
    decreases |ws|
  {
    if ws != [] {
      FoldKeeps(Put(a, ws[0].block, ws[0].data), ws[1..], t);
    }
  }

  lemma {:induction false} TxnsOk(g: Geometry, steps: seq<Step>)
    requires StepsOk(g, steps)
    ensures forall i :: 0 <= i < |Txns(steps)| ==> StepOk(g, Txn(Txns(steps)[i]))
    decreases |steps|
  {
    if steps != [] {
      TxnsOk(g, steps[..|steps| - 1]);
      assert StepOk(g, steps[|steps| - 1]);
    }
  }

  lemma PutPut(a: seq<Block>, b: seq<Block>, t: nat, x: Block)
    requires AgreeBut(a, b, t)
    ensures Put(a, t, x) == Put(b, t, x)
  {
  }

  /** Replaying every committed transaction over the finished session gives the finished session. */
  lemma {:induction false} Absorb(g: Geometry, v: seq<Block>, steps: seq<Step>)
    requires StepsOk(g, steps) && |v| >= g.totalBlocks
    ensures Apply(Atomic(v, steps), Txns(steps)) == Atomic(v, steps)
    decreases |steps|
  {
    if steps != [] {
      var init, s := steps[..|steps| - 1], steps[|steps| - 1];
      var w := s.w;
      Absorb(g, v, init);
      var a0 := Atomic(v, init);
      var a := Put(a0, w.block, w.data);
      FoldAgree(a, a0, Txns(init), w.block);
      if s.Txn? {
        ApplyLast(a, Txns(init), w);
        PutPut(Apply(a, Txns(init)), a0, w.block, w.data);
      } else {
        assert StepOk(g, s);
        TxnsOk(g, init);
        FoldKeeps(a, Txns(init), w.block);
        assert Apply(a, Txns(init)) == a;
      }
    }
  }

  // ---- The invariant of a session, and its crash points ----

  lemma StepsOkInit(g: Geometry, steps: seq<Step>)
    requires StepsOk(g, steps) && steps != []
    ensures StepsOk(g, steps[..|steps| - 1]) && StepOk(g, steps[|steps| - 1])
    ensures steps == steps[..|steps| - 1] + [steps[|steps| - 1]]
  {
  }

  lemma StepOutside(d: seq<Block>, g: Geometry, s: Step)
    requires g.Valid() && DiskOk(d, g) && StepOk(g, s)
    ensures Outside(d, g, s.w) && |s.w.data| == g.blockSize
  {
  }

  lemma IntactPut(d: seq<Block>, g: Geometry, v: seq<Block>, ws: seq<Write>, w: Write)
    requires g.Valid() && Intact(d, g, v, ws) && DiskOk(d, g) && Outside(d, g, w)
    ensures Intact(Put(d, w.block, w.data), g, Put(v, w.block, w.data), ws)
  {
    hide g.Valid, JournalIs, Journal, View, Outside, Put;
    PutOutside(d, g, w);
  }

  lemma SlotRoom(g: Geometry, t: nat, total: nat)
    requires Slot(g, t + 1) <= total
    ensures Slot(g, t) + g.RecordSize() <= total && Slot(g, t) <= total
  {
    SlotNext(g, t);
  }

  /** One whole step. */
  lemma StepDone(d: seq<Block>, g: Geometry, v: seq<Block>, ws: seq<Write>, s: Step)
    requires g.Valid() && g.blockSize > 0 && Intact(d, g, v, ws) && StepOk(g, s)
    requires s.Txn? ==> Slot(g, |ws| + 1) <= g.JournalBytes()
    ensures Intact(Apply(d, StepWrites(d, g, Slot(g, |ws|), s)), g, Put(v, s.w.block, s.w.data),
                   if s.Txn? then ws + [s.w] else ws)
  {
    hide *;
    IntactParts(d, g, v, ws);
    StepOutside(d, g, s);
    StepWritesParts(d, g, Slot(g, |ws|), s);
    if s.Txn? {
      SlotRoom(g, |ws|, g.JournalBytes());
      var log := LogWrites(d, g, Slot(g, |ws|), s.w);
      TxnCut(d, g, v, ws, s.w, |log|);
      assert log[..|log|] == log;
      var d' := Apply(d, log);
      ApplyLast(d, log, s.w);
      IntactParts(d', g, v, ws + [s.w]);
      StepOutside(d', g, s);
      IntactPut(d', g, v, ws + [s.w], s.w);
    } else {
      ApplyOne(d, s.w);
      IntactPut(d, g, v, ws, s.w);
    }
  }

  lemma StepWritesParts(d: seq<Block>, g: Geometry, off: nat, s: Step)
    requires g.blockSize > 0
    ensures StepWrites(d, g, off, s) == if s.Txn? then LogWrites(d, g, off, s.w) + [s.w] else [s.w]
  {
    hide LogWrites;
  }

  /** A device that replay turns into v: the log's records, applied in order, give v. */
  ghost predicate RecoversTo(d: seq<Block>, g: Geometry, v: seq<Block>)
    requires g.Valid()
  {
    exists ws: seq<Write>, u: seq<Block> :: Intact(d, g, u, ws) && AllOutside(u, g, ws) && Apply(u, ws) == v
  }

  /** The step cut short: replay gives the state before it or the state after it. */
  lemma StepCut(d: seq<Block>, g: Geometry, v: seq<Block>, ws: seq<Write>, s: Step, m: nat)
    returns (after: bool)
    requires g.Valid() && g.blockSize > 0 && Intact(d, g, v, ws) && StepOk(g, s)
    requires s.Txn? ==> Slot(g, |ws| + 1) <= g.JournalBytes()
    requires AllOutside(v, g, ws) && Apply(v, ws) == v
    requires m < |StepWrites(d, g, Slot(g, |ws|), s)|
    ensures RecoversTo(Apply(d, StepWrites(d, g, Slot(g, |ws|), s)[..m]), g,
                       if after then Put(v, s.w.block, s.w.data) else v)
  {
    hide *;
    IntactParts(d, g, v, ws);
    StepOutside(d, g, s);
    StepWritesParts(d, g, Slot(g, |ws|), s);
    var all := StepWrites(d, g, Slot(g, |ws|), s);
    var d' := Apply(d, all[..m]);
    after := false;
    if s.Txn? {
      SlotRoom(g, |ws|, g.JournalBytes());
      var log := LogWrites(d, g, Slot(g, |ws|), s.w);
      assert all[..m] == log[..m];
      TxnCut(d, g, v, ws, s.w, m);
      if Intact(d', g, v, ws) {
        Recovers(d', g, v, v, ws);
      } else {
        after := true;
        OutsideSnoc(d, v, g, ws, s.w);
        ApplyLast(v, ws, s.w);
        Recovers(d', g, Put(v, s.w.block, s.w.data), v, ws + [s.w]);
      }
    } else {
      assert m == 0 && all[..m] == [];
      ApplyOne(d, s.w);
      Recovers(d', g, v, v, ws);
    }
  }

  lemma OutsideSnoc(d: seq<Block>, v: seq<Block>, g: Geometry, ws: seq<Write>, w: Write)
    requires AllOutside(v, g, ws) && Outside(d, g, w) && |d| == |v|
    ensures AllOutside(v, g, ws + [w])
  {
  }

  lemma Recovers(d: seq<Block>, g: Geometry, v: seq<Block>, u: seq<Block>, ws: seq<Write>)
    requires g.Valid() && Intact(d, g, u, ws) && AllOutside(u, g, ws) && Apply(u, ws) == v
    ensures RecoversTo(d, g, v)
  {
    hide g.Valid, Intact, AllOutside;
  }

  lemma TxnsOutside(v: seq<Block>, g: Geometry, steps: seq<Step>)
    requires g.Valid() && StepsOk(g, steps) && |v| >= g.totalBlocks
    ensures AllOutside(v, g, Txns(steps))
  {
    hide Txns;
    TxnsOk(g, steps);
    var ws := Txns(steps);
    forall i | 0 <= i < |ws| ensures Outside(v, g, ws[i]) {
      assert StepOk(g, Txn(ws[i]));
    }
  }

  lemma CleanParts(base: seq<Block>, g: Geometry)
    requires Clean(base, g)
    ensures g.Valid() && DiskOk(base, g) && 512 <= g.blockSize
    ensures |base| >= g.totalBlocks && Intact(base, g, View(base, g), [])
  {
    hide Journal, View, JournalIs;
    BlockSizeOk(g);
  }

  lemma {:induction false} SlotMono(g: Geometry, s: nat, t: nat)
    requires s <= t
    ensures Slot(g, s) <= Slot(g, t)
  {
    MulMono(s, t, g.RecordSize());
  }

  /** After any finished session without a wrap: the device is the steps' result, the log lists its transactions. */
  lemma {:induction false} SessionInvariant(base: seq<Block>, g: Geometry, steps: seq<Step>)
    requires Clean(base, g) && g.Valid() && g.blockSize > 0
    requires StepsOk(g, steps) && Slot(g, |Txns(steps)|) <= g.JournalBytes()
    ensures Intact(Apply(base, Expand(base, g, steps)), g, Atomic(View(base, g), steps), Txns(steps))
    decreases |steps|
  {
    hide *;
    CleanParts(base, g);
    var v := View(base, g);
    if steps == [] {
      EmptySession(base, g, v);
      assert Intact(Apply(base, Expand(base, g, steps)), g, Atomic(v, steps), Txns(steps));
    } else {
      StepsOkInit(g, steps);
      var init, s := steps[..|steps| - 1], steps[|steps| - 1];
      TxnsSnoc(init, s);
      SlotMono(g, |Txns(init)|, |Txns(steps)|);
      SessionInvariant(base, g, init);
      ExpandSnoc(base, g, init, s);
      AtomicSnoc(v, init, s);
      var ws := Expand(base, g, init);
      var d := Apply(base, ws);
      var sw := StepWrites(d, g, Slot(g, |Txns(init)|), s);
      StepDone(d, g, Atomic(v, init), Txns(init), s);
      ApplyConcat(base, ws, sw);
      assert Intact(Apply(base, Expand(base, g, steps)), g, Atomic(v, steps), Txns(steps));
    }
  }

  lemma EmptySession(base: seq<Block>, g: Geometry, v: seq<Block>)
    requires g.blockSize > 0
    ensures Expand(base, g, []) == [] && Apply(base, []) == base && Atomic(v, []) == v && Txns([]) == []
  {
  }

  /**
   * Crash atomicity. Cut a session at any block write: replay makes the volume what the first k
   * steps, each taken whole, would have made it; the k-th step had begun and step k+1 was unfinished.
   */
  lemma {:induction false} CrashAtomicity(base: seq<Block>, g: Geometry, steps: seq<Step>, m: nat)
    returns (k: nat)
    requires Clean(base, g) && g.Valid() && g.blockSize > 0
    requires StepsOk(g, steps) && Slot(g, |Txns(steps)|) <= g.JournalBytes()
    requires m <= |Expand(base, g, steps)|
    ensures k <= |steps|
    ensures RecoversTo(Apply(base, Expand(base, g, steps)[..m]), g, Atomic(View(base, g), steps[..k]))
    ensures k > 0 ==> |Expand(base, g, steps[..k - 1])| < m
    ensures k < |steps| ==> m < |Expand(base, g, steps[..k + 1])|
    decreases |steps|
  {
    hide *;
    CleanParts(base, g);
    var v := View(base, g);
    var n := |steps|;
    SessionInvariant(base, g, steps);
    if steps == [] {
      k := 0;
      EmptySession(base, g, v);
      assert Expand(base, g, steps)[..m] == [];
      SessionRecovers(base, g, steps);
      assert steps[..k] == steps;
    } else {
      StepsOkInit(g, steps);
      var init, s := steps[..n - 1], steps[n - 1];
      TxnsSnoc(init, s);
      SlotMono(g, |Txns(init)|, |Txns(steps)|);
      ExpandSnoc(base, g, init, s);
      AtomicSnoc(v, init, s);
      var ws := Expand(base, g, init);
      var all := Expand(base, g, steps);
      assert steps[..n] == steps;
      if m <= |ws| {
        k := CrashAtomicity(base, g, init, m);
        assert all[..m] == ws[..m];
        PrefixPrefix(steps, n - 1, k);
        if k > 0 {
          PrefixPrefix(steps, n - 1, k - 1);
        }
        if k < n - 1 {
          PrefixPrefix(steps, n - 1, k + 1);
        }
      } else if m == |all| {
        k := n;
        assert all[..m] == all;
        SessionRecovers(base, g, steps);
      } else {
        SessionInvariant(base, g, init);
        SessionAbsorbs(base, g, init);
        var d := Apply(base, ws);
        var sw := StepWrites(d, g, Slot(g, |Txns(init)|), s);
        var after := StepCut(d, g, Atomic(v, init), Txns(init), s, m - |ws|);
        assert all[..m] == ws + sw[..m - |ws|];
        ApplyConcat(base, ws, sw[..m - |ws|]);
        k := if after then n else n - 1;
        if !after && n > 1 {
          ExpandGrows(base, g, init);
          PrefixPrefix(steps, n - 1, n - 2);
        }
      }
    }
  }

  lemma PrefixPrefix(steps: seq<Step>, n: nat, k: nat)
    requires k <= n <= |steps|
    ensures steps[..n][..k] == steps[..k]
  {
  }

  lemma ExpandGrows(base: seq<Block>, g: Geometry, steps: seq<Step>)
    requires g.blockSize > 0 && steps != []
    ensures |Expand(base, g, steps[..|steps| - 1])| < |Expand(base, g, steps)|
  {
    hide StepWrites, Apply, Slot, Txns;
  }

  lemma SessionAbsorbs(base: seq<Block>, g: Geometry, steps: seq<Step>)
    requires Clean(base, g) && g.Valid() && StepsOk(g, steps)
    ensures var v := Atomic(View(base, g), steps);
            AllOutside(v, g, Txns(steps)) && Apply(v, Txns(steps)) == v
  {
    hide Txns, Atomic, Apply, g.Valid, StepsOk, AllOutside, View, Clean;
    CleanParts(base, g);
    TxnsOutside(Atomic(View(base, g), steps), g, steps);
    Absorb(g, View(base, g), steps);
  }

  lemma SessionRecovers(base: seq<Block>, g: Geometry, steps: seq<Step>)
    requires Clean(base, g) && g.Valid() && g.blockSize > 0
    requires StepsOk(g, steps) && Slot(g, |Txns(steps)|) <= g.JournalBytes()
    ensures RecoversTo(Apply(base, Expand(base, g, steps)), g, Atomic(View(base, g), steps))
  {
    hide *;
    SessionInvariant(base, g, steps);
    SessionAbsorbs(base, g, steps);
    var v := Atomic(View(base, g), steps);
    Recovers(Apply(base, Expand(base, g, steps)), g, v, v, Txns(steps));
  }

  // ---- Replay carries out what RecoversTo promises ----

  /** vtx2_journal_replay's loop on a recoverable device: it succeeds and leaves v behind. */
  lemma ReplayRecovers(d: seq<Block>, g: Geometry, v: seq<Block>, scratch: Block)
    requires g.Valid() && |scratch| == g.blockSize && RecoversTo(d, g, v)
    requires g.journalStart + g.journalCount <= |d|
    ensures var r := ReplayFrom(d, g, scratch, 0);
            && r.ok && DiskOk(r.disk, g) && View(r.disk, g) == v
            && (!r.applied ==> Clean(r.disk, g))
  {
    hide ReplayFrom, View, g.Valid, DiskOk, Journal, Apply, JournalIs, AllOutside, Slot;
    var ws: seq<Write>, u: seq<Block> :| Intact(d, g, u, ws) && AllOutside(u, g, ws) && Apply(u, ws) == v;
    OutsideSame(u, d, g, ws);
    SlotNext(g, 0);
    ReplayFolds(d, g, scratch, ws, 0);
    ApplyOutside(d, g, ws);
    assert ws[0..] == ws;
  }

  /** A crash between two of replay's own block writes, before it cleans the log: replaying again still gives v. */
  lemma ReplayRestarts(d: seq<Block>, g: Geometry, ws: seq<Write>, p: nat)
    requires g.Valid() && DiskOk(d, g) && JournalIs(Journal(d, g), g, ws) && AllOutside(d, g, ws) && p <= |ws|
    ensures RecoversTo(Apply(d, ws[..p]), g, Apply(View(d, g), ws))
  {
    hide *;
    var d' := Apply(d, ws[..p]);
    OutsidePrefix(d, g, ws, p);
    ApplyOutside(d, g, ws[..p]);
    FoldAgain(View(d, g), ws, p);
    OutsideSame(d, View(d', g), g, ws);
    GeometryBounds(g, d');
    MakeIntact(d', g, View(d', g), ws);
    Recovers(d', g, Apply(View(d, g), ws), View(d', g), ws);
  }

  lemma OutsidePrefix(d: seq<Block>, g: Geometry, ws: seq<Write>, p: nat)
    requires AllOutside(d, g, ws) && p <= |ws|
    ensures AllOutside(d, g, ws[..p])
  {
  }

  /** Applying a prefix of the list first makes no difference. */
  lemma {:induction false} FoldAgain(v: seq<Block>, ws: seq<Write>, p: nat)
    requires p <= |ws|
    ensures Apply(Apply(v, ws[..p]), ws) == Apply(v, ws)
    decreases |ws|
  {
    if p == 0 {
      assert ws[..p] == [];
    } else {
      var w, rest := ws[0], ws[1..];
      var v1 := Put(v, w.block, w.data);
      assert ws[..p][1..] == rest[..p - 1];
      var a := Apply(v1, rest[..p - 1]);
      FoldAgain(v1, rest, p - 1);
      LastWins(v1, rest, p - 1, w);
    }
  }

  /** Writing w before a prefix that is replayed in full afterwards. */
  lemma LastWins(v: seq<Block>, ws: seq<Write>, p: nat, w: Write)
    requires p <= |ws|
    requires w.block < |v| ==> v[w.block] == w.data
    ensures Apply(Put(Apply(v, ws[..p]), w.block, w.data), ws) == Apply(Apply(v, ws[..p]), ws)
  {
    hide Apply, Put;
    var a := Apply(v, ws[..p]);
    if i: nat :| i < p && ws[i].block == w.block {
      PutAgrees(a, w);
      Overwritten(Put(a, w.block, w.data), a, ws, i);
    } else {
      if w.block < |v| {
        FoldKeeps(v, ws[..p], w.block);
      }
      PutSame(a, w);
    }
  }

  lemma PutAgrees(a: seq<Block>, w: Write)
    ensures AgreeBut(Put(a, w.block, w.data), a, w.block)
  {
  }

  lemma PutSame(a: seq<Block>, w: Write)
    requires w.block < |a| ==> a[w.block] == w.data
    ensures Put(a, w.block, w.data) == a
  {
  }

  lemma {:induction false} Overwritten(a: seq<Block>, b: seq<Block>, ws: seq<Write>, i: nat)
    requires i < |ws| && AgreeBut(a, b, ws[i].block)
    ensures Apply(a, ws) == Apply(b, ws)
    decreases |ws|
  {
    var a', b' := Put(a, ws[0].block, ws[0].data), Put(b, ws[0].block, ws[0].data);
    if i == 0 {
      assert a' == b';
    } else {
      Overwritten(a', b', ws[1..], i - 1);
    }
  }
}
