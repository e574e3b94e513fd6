/** TRBs with cycle bits: a window of outstanding ones on a ring of n slots. */
module TrbWindow {
  import opened Arith

  /** xhci_trb_t. */
  datatype Trb = Trb(parameter: nat, status: nat, control: nat)

  /** What the producer wants to say; bit 0 of the control word is left to the ring. */
  datatype Request = Request(parameter: nat, status: nat, control: nat)

  function CycleOf(t: Trb): nat {
    t.control % 2
  }

  function KindOf(control: nat): nat {
    control / 1024 % 64
  }

  function Stamp(r: Request, cycle: nat): Trb {
    Trb(r.parameter, r.status, r.control + cycle)
  }

  function Unstamp(t: Trb): Request {
    Request(t.parameter, t.status, t.control - t.control % 2)
  }

  lemma StampReads(r: Request, cycle: nat)
    requires r.control % 2 == 0 && cycle < 2
    ensures CycleOf(Stamp(r, cycle)) == cycle && Unstamp(Stamp(r, cycle)) == r
    ensures KindOf(Stamp(r, cycle).control) == KindOf(r.control)
  {
    var q := r.control / 2;
    assert r.control == 2 * q;
    assert (2 * q + cycle) / 1024 == q / 512;
    assert (2 * q) / 1024 == q / 512;
  }

  // ---- Positions on the ring ----

  function SlotOf(p: nat, n: nat): (s: nat)
    requires n > 0
    ensures s < n
  {
    p % n
  }

  /** The cycle bit of lap p / n: the first lap has 1. */
  function LapCycle(p: nat, n: nat): (c: nat)
    requires n > 0
    ensures c < 2
  {
    (p / n + 1) % 2
  }

  lemma NextLap(p: nat, n: nat)
    requires n > 0
    ensures SlotOf(p + n, n) == SlotOf(p, n) && LapCycle(p + n, n) != LapCycle(p, n)
  {
    DivFacts(p, n);
    var q, r := p / n, p % n;
    assert p + n == (q + 1) * n + r;
    DivUnique(p + n, n, q + 1, r);
  }

  lemma SlotsDiffer(p: nat, q: nat, n: nat)
    requires n > 0 && p < q < p + n
    ensures SlotOf(p, n) != SlotOf(q, n)
  {
    DivFacts(p, n);
    DivFacts(q, n);
    var a, b := p / n, q / n;
    if p % n == q % n {
      assert (b - a) * n == b * n - a * n == q - p;
      NoMultipleBetween(b - a, n);
      assert false;
    }
  }

  /** One position further: the next slot of the same lap, or slot 0 of the next one. */
  lemma Advance(p: nat, n: nat)
    requires n > 0
    ensures if SlotOf(p, n) + 1 == n
            then SlotOf(p + 1, n) == 0 && LapCycle(p + 1, n) == 1 - LapCycle(p, n)
            else SlotOf(p + 1, n) == SlotOf(p, n) + 1 && LapCycle(p + 1, n) == LapCycle(p, n)
  {
    DivFacts(p, n);
    var q, r := p / n, p % n;
    if r + 1 == n {
      assert p + 1 == (q + 1) * n + 0 by {
        assert (q + 1) * n == q * n + n;
      }
      DivUnique(p + 1, n, q + 1, 0);
    } else {
      DivUnique(p + 1, n, q, r + 1);
    }
  }

  // ---- The window ----

  /**
   * n slots; the requests from number c on are outstanding. Each lies stamped in its slot, and every
   * slot that is free for a request still carries the other cycle bit.
   */
  ghost predicate Window(trbs: seq<Trb>, n: nat, sent: seq<Request>, c: nat) {
    && 0 < n <= |trbs| && c <= |sent| <= c + n
    && (forall p :: c <= p < |sent| ==> InPlace(trbs, n, sent, p))
    && (forall p :: |sent| <= p < c + n ==> NotYet(trbs, n, p))
  }

  ghost predicate InPlace(trbs: seq<Trb>, n: nat, sent: seq<Request>, p: nat)
    requires 0 < n <= |trbs| && p < |sent|
  {
    trbs[SlotOf(p, n)] == Stamp(sent[p], LapCycle(p, n)) && sent[p].control % 2 == 0
  }

  ghost predicate NotYet(trbs: seq<Trb>, n: nat, p: nat)
    requires 0 < n <= |trbs|
  {
    CycleOf(trbs[SlotOf(p, n)]) != LapCycle(p, n)
  }

  /** A zeroed ring. */
  lemma WindowStart(trbs: seq<Trb>, n: nat)
    requires 0 < n <= |trbs| && forall i :: 0 <= i < n ==> CycleOf(trbs[i]) == 0
    ensures Window(trbs, n, [], 0)
  {
    forall p: nat | p < n ensures NotYet(trbs, n, p) {
      DivUnique(p, n, 0, p);
    }
  }

  /** The free slot's parameter and status may be written before anything is published. */
  lemma WindowFill(trbs: seq<Trb>, n: nat, sent: seq<Request>, c: nat, x: Trb)
    requires Window(trbs, n, sent, c) && |sent| < c + n
    requires CycleOf(x) == CycleOf(trbs[SlotOf(|sent|, n)])
    ensures Window(trbs[SlotOf(|sent|, n) := x], n, sent, c)
  {
    hide SlotOf, LapCycle, CycleOf, Stamp;
    var s := SlotOf(|sent|, n);
    var t := trbs[s := x];
    forall p | c <= p < |sent| ensures InPlace(t, n, sent, p) {
      assert InPlace(trbs, n, sent, p);
      SlotsDiffer(p, |sent|, n);
    }
    forall p | |sent| <= p < c + n ensures NotYet(t, n, p) {
      assert NotYet(trbs, n, p);
      if p != |sent| {
        SlotsDiffer(|sent|, p, n);
      }
    }
  }

  /** The control word with the lap's cycle bit publishes the request. */
  lemma WindowPush(trbs: seq<Trb>, n: nat, sent: seq<Request>, c: nat, r: Request)
    requires Window(trbs, n, sent, c) && |sent| < c + n && r.control % 2 == 0
    ensures Window(trbs[SlotOf(|sent|, n) := Stamp(r, LapCycle(|sent|, n))], n, sent + [r], c)
  {
    hide SlotOf, LapCycle, CycleOf, Stamp;
    var t := trbs[SlotOf(|sent|, n) := Stamp(r, LapCycle(|sent|, n))];
    var sent' := sent + [r];
    forall p | c <= p < |sent'| ensures InPlace(t, n, sent', p) {
      if p < |sent| {
        assert InPlace(trbs, n, sent, p);
        SlotsDiffer(p, |sent|, n);
      }
    }
    forall p | |sent'| <= p < c + n ensures NotYet(t, n, p) {
      assert NotYet(trbs, n, p);
      SlotsDiffer(|sent|, p, n);
    }
  }

  /** The consumer takes request c and thereby frees its slot for the lap after. */
  lemma WindowTake(trbs: seq<Trb>, n: nat, sent: seq<Request>, c: nat)
    requires Window(trbs, n, sent, c) && c < |sent|
    ensures Window(trbs, n, sent, c + 1)
    ensures trbs[SlotOf(c, n)] == Stamp(sent[c], LapCycle(c, n)) && sent[c].control % 2 == 0
  {
    hide SlotOf, LapCycle, CycleOf;
    assert InPlace(trbs, n, sent, c);
    NextLap(c, n);
    StampReads(sent[c], LapCycle(c, n));
  }

  /** The consumer's test: the slot at its position carries the cycle bit of its lap exactly when a request waits there. */
  lemma WindowTest(trbs: seq<Trb>, n: nat, sent: seq<Request>, c: nat)
    requires Window(trbs, n, sent, c)
    ensures CycleOf(trbs[SlotOf(c, n)]) == LapCycle(c, n) <==> c < |sent|
  {
    hide SlotOf, LapCycle, CycleOf, Stamp;
    if c < |sent| {
      assert InPlace(trbs, n, sent, c);
      StampReads(sent[c], LapCycle(c, n));
    } else {
      assert NotYet(trbs, n, c);
    }
  }

  /** A slot outside the first n is nobody's. */
  lemma WindowBeyond(trbs: seq<Trb>, n: nat, sent: seq<Request>, c: nat, i: nat, x: Trb)
    requires Window(trbs, n, sent, c) && n <= i < |trbs|
    ensures Window(trbs[i := x], n, sent, c)
  {
    hide SlotOf, LapCycle, CycleOf, Stamp;
    var t := trbs[i := x];
    forall p | c <= p < |sent| ensures InPlace(t, n, sent, p) {
      assert InPlace(trbs, n, sent, p);
    }
    forall p | |sent| <= p < c + n ensures NotYet(t, n, p) {
      assert NotYet(trbs, n, p);
    }
  }
}
