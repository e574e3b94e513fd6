/**
 * What replay does after the log has started over from offset 0, and newer records lie below older
 * ones. It puts old contents back exactly when a leftover record disagrees with a newer one.
 */
module Wrap {
  import opened Bytes
  import opened Layout
  import opened JournalBytes
  import opened JournalRecord
  import opened Recovery

  /** A record stored over a slot that already held one replaces it; the slots behind keep theirs. */
  lemma OverwriteSlot(log: seq<byte>, g: Geometry, xs: seq<Write>, k: nat, w: Write)
    requires JournalIs(log, g, xs) && k < |xs| && 0 < g.blockSize && |w.data| == g.blockSize
    requires Slot(g, k) + g.RecordSize() <= |log|
    ensures JournalIs(Splice(log, Slot(g, k), Record(g, Slot(g, k), w)), g, xs[k := w])
  {
    hide Splice, Record, Slot, Holds, Blank;
    var off := Slot(g, k);
    var d := Record(g, off, w);
    var log' := Splice(log, off, d);
    forall s | 0 <= s < |xs| ensures Holds(log', g, Slot(g, s), xs[k := w][s]) {
      if s == k {
        WholeRecord(g, off, w);
        RecordHolds(log, g, off, w, |d|);
      } else {
        if s < k {
          SlotsApart(g, s, k);
        } else {
          SlotsApart(g, k, s);
        }
        HoldsElsewhere(log, g, Slot(g, s), d, off, xs[s]);
      }
    }
    forall s | |xs| <= s ensures Blank(log', g, Slot(g, s)) {
      SlotsApart(g, k, s);
      BlankElsewhere(log, g, Slot(g, s), d, off);
    }
  }

  lemma WholeRecord(g: Geometry, off: nat, w: Write)
    requires 0 < g.blockSize && |w.data| == g.blockSize
    ensures var d := Record(g, off, w); d[..|d|] == d && HEADER_SIZE + g.blockSize + 4 <= |d| <= g.RecordSize()
  {
  }

  /** What block b holds after the writes, if it held x before. */
  function After(ws: seq<Write>, b: nat, x: Block): Block
    decreases |ws|
  {
    if ws == [] then x
    else
      var w := ws[|ws| - 1];
      if w.block == b then w.data else After(ws[..|ws| - 1], b, x)
  }

  predicate Touches(ws: seq<Write>, b: nat) {
    exists i :: 0 <= i < |ws| && ws[i].block == b
  }

  lemma {:induction false} ApplyAt(d: seq<Block>, ws: seq<Write>, b: nat)
    requires b < |d|
    ensures Apply(d, ws)[b] == After(ws, b, d[b])
    decreases |ws|
  {
    if ws != [] {
      var init, w := ws[..|ws| - 1], ws[|ws| - 1];
      assert init + [w] == ws;
      ApplyLast(d, init, w);
      ApplyAt(d, init, b);
    }
  }

  lemma {:induction false} AfterConcat(a: seq<Write>, c: seq<Write>, b: nat, x: Block)
    ensures After(a + c, b, x) == After(c, b, After(a, b, x))
    decreases |c|
  {
    if c == [] {
      assert a + c == a;
    } else {
      assert (a + c)[..|a + c| - 1] == a + c[..|c| - 1];
      AfterConcat(a, c[..|c| - 1], b, x);
    }
  }

  /** What a touched block held before does not matter; an untouched block keeps it. */
  lemma {:induction false} AfterTouched(ws: seq<Write>, b: nat, x: Block, y: Block)
    ensures Touches(ws, b) ==> After(ws, b, x) == After(ws, b, y)
    ensures !Touches(ws, b) ==> After(ws, b, x) == x
    decreases |ws|
  {
    if ws != [] {
      var init, w := ws[..|ws| - 1], ws[|ws| - 1];
      AfterTouched(init, b, x, y);
      assert Touches(init, b) ==> Touches(ws, b);
      assert w.block == b ==> Touches(ws, b);
      if Touches(ws, b) && w.block != b {
        var i :| 0 <= i < |ws| && ws[i].block == b;
        assert init[i].block == b;
      }
    }
  }

  /** The leftover records `stale` end, for block b, in other contents than the records `recent` do. */
  ghost predicate Conflict(stale: seq<Write>, recent: seq<Write>, b: nat) {
    Touches(stale, b) && Touches(recent, b) && After(stale, b, []) != After(recent, b, [])
  }

  ghost predicate InRange(d: seq<Block>, ws: seq<Write>) {
    forall i :: 0 <= i < |ws| ==> ws[i].block < |d|
  }

  /**
   * `old_` was logged and carried out, then the log started over and `recent` took the slots from the
   * front. Replaying what the log now holds leaves the volume as it is if and only if no leftover
   * record disagrees with a recent one.
   */
  lemma ReplayAfterWrap(u: seq<Block>, old_: seq<Write>, recent: seq<Write>)
    requires |recent| <= |old_| && InRange(u, old_) && InRange(u, recent)
    ensures var now := Apply(u, old_ + recent);
            var stale := old_[|recent|..];
            Apply(now, recent + stale) == now <==> forall b :: !Conflict(stale, recent, b)
  {
    hide Apply, After, Touches;
    var now := Apply(u, old_ + recent);
    var stale := old_[|recent|..];
    var replayed := Apply(now, recent + stale);
    assert old_ == old_[..|recent|] + stale;
    forall b: nat | b < |u| ensures replayed[b] == now[b] <==> !Conflict(stale, recent, b) {
      BlockAfterWrap(u, old_, old_[..|recent|], stale, recent, b);
    }
    forall b: nat | Conflict(stale, recent, b) ensures b < |u| {
      TouchedInRange(u, recent, b);
    }
    if replayed == now {
      forall b: nat ensures !Conflict(stale, recent, b) {
      }
    } else {
      var b :| 0 <= b < |u| && replayed[b] != now[b];
      assert Conflict(stale, recent, b);
    }
  }

  lemma TouchedInRange(u: seq<Block>, ws: seq<Write>, b: nat)
    requires InRange(u, ws) && Touches(ws, b)
    ensures b < |u|
  {
  }

  lemma BlockAfterWrap(u: seq<Block>, old_: seq<Write>, first: seq<Write>, stale: seq<Write>, recent: seq<Write>, b: nat)
    requires old_ == first + stale && b < |u|
    ensures var now := Apply(u, old_ + recent);
            Apply(now, recent + stale)[b] == now[b] <==> !Conflict(stale, recent, b)
  {
    hide *;
    var now := Apply(u, old_ + recent);
    BlockBefore(u, old_, first, stale, recent, b);
    BlockReplayed(now, stale, recent, b);
    StaleOrNot(stale, recent, b, After(first, b, u[b]));
  }

  lemma BlockBefore(u: seq<Block>, old_: seq<Write>, first: seq<Write>, stale: seq<Write>, recent: seq<Write>, b: nat)
    requires old_ == first + stale && b < |u|
    ensures Apply(u, old_ + recent)[b] == After(recent, b, After(stale, b, After(first, b, u[b])))
  {
    hide *;
    ApplyAt(u, old_ + recent, b);
    AfterConcat(old_, recent, b, u[b]);
    AfterConcat(first, stale, b, u[b]);
  }

  lemma BlockReplayed(now: seq<Block>, stale: seq<Write>, recent: seq<Write>, b: nat)
    requires b < |now|
    ensures Apply(now, recent + stale)[b] == After(stale, b, After(recent, b, now[b]))
  {
    hide *;
    ApplyAt(now, recent + stale, b);
    AfterConcat(recent, stale, b, now[b]);
  }

  lemma StaleOrNot(stale: seq<Write>, recent: seq<Write>, b: nat, y: Block)
    ensures var now := After(recent, b, After(stale, b, y));
            After(stale, b, After(recent, b, now)) == now <==> !Conflict(stale, recent, b)
  {
    hide After, Touches;
    var x := After(stale, b, y);
    var now := After(recent, b, x);
    AfterTouched(stale, b, y, []);
    AfterTouched(stale, b, After(recent, b, now), []);
    AfterTouched(recent, b, x, []);
    AfterTouched(recent, b, now, []);
  }

  /** The same on the device: what vtx2_journal_replay makes of a log that has started over. */
  lemma ReplayOfWrappedLog(d: seq<Block>, g: Geometry, scratch: Block, u: seq<Block>, old_: seq<Write>, recent: seq<Write>)
    requires g.Valid() && DiskOk(d, g) && |scratch| == g.blockSize && g.journalStart + g.journalCount <= |d|
    requires |recent| <= |old_| && InRange(u, old_) && InRange(u, recent)
    requires View(d, g) == Apply(u, old_ + recent)
    requires JournalIs(Journal(d, g), g, recent + old_[|recent|..]) && AllOutside(d, g, recent + old_[|recent|..])
    ensures var r := ReplayFrom(d, g, scratch, 0);
            && r.ok
            && (View(r.disk, g) == View(d, g) <==> forall b :: !Conflict(old_[|recent|..], recent, b))
  {
    hide g.Valid, DiskOk, Journal, JournalIs, AllOutside, ReplayFrom, View, Apply, Conflict, InRange, Slot;
    var ws := recent + old_[|recent|..];
    SlotNext(g, 0);
    ReplayFolds(d, g, scratch, ws, 0);
    assert ws[0..] == ws;
    ApplyOutside(d, g, ws);
    ReplayAfterWrap(u, old_, recent);
  }
}
