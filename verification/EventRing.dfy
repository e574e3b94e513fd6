/** The event ring: the controller posts, the driver consumes by cycle bits (xHCI specification, section 4.9.4). */
module EventRing {
  import opened TrbWindow

  const TRB_COUNT: nat := 256

  /** Ring memory, the controller's position, the driver's, and what passed between them. */
  datatype System = System(trbs: seq<Trb>, filling: bool, dequeue: nat, cycle: nat, posted: seq<Request>, consumed: seq<Request>)

  /** The controller writes an event's payload, then its control word; the driver polls. */
  datatype Step = Fill(parameter: nat, status: nat) | Post(control: nat) | Poll

  /** The zeroed page, as xhci_init leaves it. */
  function Start(): System {
    System(seq(TRB_COUNT, _ => Trb(0, 0, 0)), false, 0, 1, [], [])
  }

  /** The controller obeys ERDP: it never overwrites an event that is still unread. */
  predicate Enabled(s: System, step: Step) {
    match step
    case Fill(_, _) => !s.filling && |s.posted| < |s.consumed| + TRB_COUNT
    case Post(control) => s.filling && control % 2 == 0
    case Poll => true
  }

  /** consume_next_event's test. */
  predicate Waiting(s: System)
    requires |s.trbs| == TRB_COUNT && s.dequeue < TRB_COUNT
  {
    CycleOf(s.trbs[s.dequeue]) == s.cycle
  }

  function Next(s: System, step: Step): System
    requires |s.trbs| == TRB_COUNT && s.dequeue < TRB_COUNT && Enabled(s, step)
  {
    var at := SlotOf(|s.posted|, TRB_COUNT);
    match step
    case Fill(parameter, status) =>
      s.(trbs := s.trbs[at := s.trbs[at].(parameter := parameter, status := status)], filling := true)
    case Post(control) =>
      var t := s.trbs[at].(control := control + LapCycle(|s.posted|, TRB_COUNT));
      s.(trbs := s.trbs[at := t], filling := false, posted := s.posted + [Request(t.parameter, t.status, control)])
    case Poll =>
      if !Waiting(s) then s
      else
        s.(consumed := s.consumed + [Unstamp(s.trbs[s.dequeue])],
           dequeue := if s.dequeue + 1 == TRB_COUNT then 0 else s.dequeue + 1,
           cycle := if s.dequeue + 1 == TRB_COUNT then 1 - s.cycle % 2 else s.cycle)
  }

  ghost predicate Inv(s: System) {
    && |s.trbs| == TRB_COUNT
    && Window(s.trbs, TRB_COUNT, s.posted, |s.consumed|)
    && s.consumed <= s.posted && (s.filling ==> |s.posted| < |s.consumed| + TRB_COUNT)
    && s.dequeue == SlotOf(|s.consumed|, TRB_COUNT) && s.cycle == LapCycle(|s.consumed|, TRB_COUNT)
  }

  lemma StartInv()
    ensures Inv(Start())
  {
    hide Window;
    var s := Start();
    WindowStart(s.trbs, TRB_COUNT);
  }

  lemma FillInv(s: System, parameter: nat, status: nat)
    requires Inv(s) && s.dequeue < TRB_COUNT && Enabled(s, Fill(parameter, status))
    ensures Inv(Next(s, Fill(parameter, status)))
  {
    hide Window, SlotOf, LapCycle;
    var at := SlotOf(|s.posted|, TRB_COUNT);
    WindowFill(s.trbs, TRB_COUNT, s.posted, |s.consumed|, s.trbs[at].(parameter := parameter, status := status));
  }

  lemma PostInv(s: System, control: nat)
    requires Inv(s) && s.dequeue < TRB_COUNT && Enabled(s, Post(control))
    ensures Inv(Next(s, Post(control)))
  {
    hide Window, SlotOf, LapCycle;
    var at := SlotOf(|s.posted|, TRB_COUNT);
    WindowPush(s.trbs, TRB_COUNT, s.posted, |s.consumed|, Request(s.trbs[at].parameter, s.trbs[at].status, control));
  }

  /** A poll takes the oldest unread event, and finds none exactly when all have been read. */
  lemma PollInv(s: System)
    requires Inv(s) && s.dequeue < TRB_COUNT
    ensures Inv(Next(s, Poll))
    ensures Waiting(s) <==> |s.consumed| < |s.posted|
    ensures Waiting(s) ==> Next(s, Poll).consumed == s.consumed + [s.posted[|s.consumed|]]
  {
    hide Window, SlotOf, LapCycle, CycleOf, Stamp, Unstamp;
    WindowTest(s.trbs, TRB_COUNT, s.posted, |s.consumed|);
    if Waiting(s) {
      WindowTake(s.trbs, TRB_COUNT, s.posted, |s.consumed|);
      StampReads(s.posted[|s.consumed|], LapCycle(|s.consumed|, TRB_COUNT));
      Advance(|s.consumed|, TRB_COUNT);
    }
  }

  lemma Bounds(s: System)
    requires Inv(s)
    ensures |s.trbs| == TRB_COUNT && s.dequeue < TRB_COUNT
  {
    hide Window, LapCycle;
  }

  ghost predicate Reachable(s: System, steps: seq<Step>)
    decreases |steps|
  {
    if steps == [] then s == Start()
    else exists before ::
           && Reachable(before, steps[..|steps| - 1])
           && |before.trbs| == TRB_COUNT && before.dequeue < TRB_COUNT
           && Enabled(before, steps[|steps| - 1]) && s == Next(before, steps[|steps| - 1])
  }

  /** Over any run, laps without end: the driver has seen the first |consumed| events, each once and in order. */
  lemma {:induction false} RunInv(s: System, steps: seq<Step>)
    requires Reachable(s, steps)
    ensures Inv(s) && s.consumed == s.posted[..|s.consumed|]
    decreases |steps|
  {
    hide Enabled, Next, Window, SlotOf, LapCycle;
    if steps == [] {
      StartInv();
    } else {
      var before :| && Reachable(before, steps[..|steps| - 1])
                    && |before.trbs| == TRB_COUNT && before.dequeue < TRB_COUNT
                    && Enabled(before, steps[|steps| - 1]) && s == Next(before, steps[|steps| - 1]);
      RunInv(before, steps[..|steps| - 1]);
      match steps[|steps| - 1]
      case Fill(parameter, status) => FillInv(before, parameter, status);
      case Post(control) => PostInv(before, control);
      case Poll => PollInv(before);
    }
  }

  class EventConsumer {
    const base: nat
    const trbs: array<Trb>
    var dequeueIndex: nat
    var cycle: nat
    var erdp: nat

    ghost predicate Valid()
      reads this
    {
      trbs.Length == TRB_COUNT && dequeueIndex < TRB_COUNT && cycle < 2
    }

    constructor (base: nat)
      ensures Valid() && fresh(trbs) && this.base == base && erdp == base
      ensures trbs[..] == Start().trbs && dequeueIndex == Start().dequeue && cycle == Start().cycle
    {
      this.base := base;
      trbs := new Trb[TRB_COUNT](_ => Trb(0, 0, 0));
      dequeueIndex, cycle, erdp := 0, 1, base;
      new;
      assert trbs[..] == Start().trbs;
    }

    /**
     * consume_next_event: with the ring memory of a state the two sides can be in, it returns the
     * oldest unread event, fails only when there is none, and tells the controller where it stands
     * (bit 3 of ERDP acknowledges the busy flag).
     */
    method ConsumeNextEvent(ghost s: System) returns (found: bool, event: Trb)
      requires Valid() && Inv(s) && s.trbs == trbs[..] && s.dequeue == dequeueIndex && s.cycle == cycle && base % 16 == 0
      modifies this`dequeueIndex, this`cycle, this`erdp
      ensures Valid() && found == (|s.consumed| < |s.posted|)
      ensures |s.trbs| == TRB_COUNT && s.dequeue < TRB_COUNT
      ensures dequeueIndex == Next(s, Poll).dequeue && cycle == Next(s, Poll).cycle && Inv(Next(s, Poll))
      ensures found ==> Unstamp(event) == s.posted[|s.consumed|] && erdp == base + 16 * dequeueIndex + 8
      ensures !found ==> erdp == old(erdp)
    {
      hide Window, SlotOf, LapCycle;
      Bounds(s);
      PollInv(s);
      event := trbs[dequeueIndex];
      if CycleOf(event) != cycle {
        return false, event;
      }
      dequeueIndex := dequeueIndex + 1;
      if dequeueIndex == TRB_COUNT {
        dequeueIndex := 0;
        cycle := 1 - cycle % 2;
      }
      erdp := base + 16 * dequeueIndex + 8;
      return true, event;
    }
  }
}
