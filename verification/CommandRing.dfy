/**
 * The command ring and the EP0 transfer rings: the driver pushes, the controller reads by cycle bits
 * and follows the toggling Link TRB (xHCI specification, sections 4.9.2, 4.9.3 and 4.11.5.1).
 */
module CommandRing {
  import opened TrbWindow

  const TRB_COUNT: nat := 256
  const USABLE: nat := 255
  const TRB_SIZE: nat := 16
  const LINK: nat := 6
  const LINK_CONTROL: nat := 6146

  /** The driver is between pushes, has written parameter and status, or still has to pass the cycle to the Link TRB. */
  datatype Stage = Ready | Filled(request: Request) | Closing

  /** Ring memory and its address, the driver's index and cycle, the controller's, and what passed between them. */
  datatype System = System(
    base: nat, trbs: seq<Trb>, enqueue: nat, cycle: nat, stage: Stage,
    dequeue: nat, consumerCycle: nat,
    sent: seq<Request>, taken: seq<Request>)

  /** One write of the driver, or one action of the controller. */
  datatype Step = Fill(r: Request) | Publish | Close | Take | Follow

  predicate RequestOk(r: Request) {
    r.control % 2 == 0 && KindOf(r.control) != LINK
  }

  /** The zeroed page with its Link TRB, as xhci_init leaves it. */
  function Start(base: nat): System {
    var link := Trb(base, 0, LINK_CONTROL + 1);
    System(base, seq(USABLE, _ => Trb(0, 0, 0)) + [link], 0, 1, Ready, 0, 1, [], [])
  }

  /** Whether addr is the address of a TRB of the ring. */
  predicate IsSlot(base: nat, addr: nat) {
    base <= addr && (addr - base) % TRB_SIZE == 0 && (addr - base) / TRB_SIZE < TRB_COUNT
  }

  /** The TRB of the ring that lies at addr. */
  function SlotAt(base: nat, addr: nat): (i: nat)
    requires IsSlot(base, addr)
    ensures i < TRB_COUNT && addr == base + TRB_SIZE * i
  {
    (addr - base) / TRB_SIZE
  }

  lemma SlotIs(base: nat, i: nat)
    requires i < TRB_COUNT
    ensures IsSlot(base, base + TRB_SIZE * i) && SlotAt(base, base + TRB_SIZE * i) == i
  {
  }

  /**
   * What the driver owes: it keeps fewer requests outstanding than the ring has slots. The controller goes
   * where the Link TRB points to, and nowhere if no TRB of the ring is there.
   */
  predicate Enabled(s: System, step: Step)
    requires |s.trbs| == TRB_COUNT && s.enqueue < TRB_COUNT && s.dequeue < TRB_COUNT
  {
    match step
    case Fill(r) => s.stage.Ready? && RequestOk(r) && |s.sent| + 1 < |s.taken| + USABLE
    case Publish => s.stage.Filled?
    case Close => s.stage.Closing?
    case Take => CycleOf(s.trbs[s.dequeue]) == s.consumerCycle && KindOf(s.trbs[s.dequeue].control) != LINK
    case Follow =>
      && CycleOf(s.trbs[s.dequeue]) == s.consumerCycle && KindOf(s.trbs[s.dequeue].control) == LINK
      && IsSlot(s.base, s.trbs[s.dequeue].parameter)
  }

  function WithCycle(t: Trb, cycle: nat): Trb {
    t.(control := t.control - t.control % 2 + cycle)
  }

  function Next(s: System, step: Step): System
    requires |s.trbs| == TRB_COUNT && s.enqueue < TRB_COUNT && s.dequeue < TRB_COUNT && Enabled(s, step)
  {
    match step
    case Fill(r) =>
      var t := s.trbs[s.enqueue].(parameter := r.parameter, status := r.status);
      s.(trbs := s.trbs[s.enqueue := t], stage := Filled(r))
    case Publish =>
      var t := s.trbs[s.enqueue].(control := s.stage.request.control + s.cycle);
      s.(trbs := s.trbs[s.enqueue := t], enqueue := s.enqueue + 1, sent := s.sent + [s.stage.request],
         stage := if s.enqueue + 1 == USABLE then Closing else Ready)
    case Close =>
      s.(trbs := s.trbs[USABLE := WithCycle(s.trbs[USABLE], s.cycle)], enqueue := 0, cycle := 1 - s.cycle % 2, stage := Ready)
    case Take =>
      s.(taken := s.taken + [Unstamp(s.trbs[s.dequeue])], dequeue := s.dequeue + 1)
    case Follow =>
      var link := s.trbs[s.dequeue];
      s.(dequeue := SlotAt(s.base, link.parameter),
         consumerCycle := if link.control / 2 % 2 == 1 then 1 - s.consumerCycle % 2 else s.consumerCycle)
  }

  // ---- The invariant ----

  /** Laps whose Link TRB has been handed on. */
  function LapsClosed(s: System): int {
    |s.sent| / USABLE - (if s.stage.Closing? then 1 else 0)
  }

  function LapBit(lap: int): nat {
    (lap + 1) % 2
  }

  ghost predicate DriverOk(s: System) {
    match s.stage
    case Closing => s.enqueue == USABLE && |s.sent| > 0 && |s.sent| % USABLE == 0 && s.cycle == LapBit(LapsClosed(s))
    case Ready => s.enqueue == |s.sent| % USABLE && s.cycle == LapBit(LapsClosed(s))
    case Filled(r) =>
      && s.enqueue == |s.sent| % USABLE && s.cycle == LapBit(LapsClosed(s)) && RequestOk(r)
      && |s.sent| + 1 < |s.taken| + USABLE
      && s.enqueue < |s.trbs| && s.trbs[s.enqueue].parameter == r.parameter && s.trbs[s.enqueue].status == r.status
  }

  /** The controller stands at its next slot, or still on the Link TRB of the lap it has finished. */
  ghost predicate AtLink(s: System) {
    && s.dequeue == USABLE && |s.taken| > 0 && |s.taken| % USABLE == 0
    && s.consumerCycle == LapBit(|s.taken| / USABLE - 1)
  }

  ghost predicate AtSlot(s: System) {
    s.dequeue == |s.taken| % USABLE && s.consumerCycle == LapBit(|s.taken| / USABLE)
  }

  /** The last TRB links back to the ring's own first one. */
  ghost predicate LinkOk(s: System) {
    && |s.trbs| == TRB_COUNT && s.trbs[USABLE].parameter == s.base
    && s.trbs[USABLE].control == LINK_CONTROL + (if LapsClosed(s) <= 0 then 1 else LapBit(LapsClosed(s) - 1))
  }

  ghost predicate Inv(s: System) {
    && |s.trbs| == TRB_COUNT
    && Window(s.trbs, USABLE, s.sent, |s.taken|) && |s.sent| < |s.taken| + USABLE
    && s.taken <= s.sent
    && (forall p :: 0 <= p < |s.sent| ==> RequestOk(s.sent[p]))
    && DriverOk(s) && (AtSlot(s) || AtLink(s)) && LinkOk(s)
  }

  lemma StartInv(base: nat)
    ensures Inv(Start(base))
  {
    hide Window;
    var s := Start(base);
    WindowStart(s.trbs, USABLE);
  }

  lemma LapIs(p: nat)
    ensures LapCycle(p, USABLE) == LapBit(p / USABLE) && SlotOf(p, USABLE) == p % USABLE
  {
  }

  lemma FillInv(s: System, r: Request)
    requires Inv(s) && s.enqueue < TRB_COUNT && s.dequeue < TRB_COUNT && Enabled(s, Fill(r))
    ensures Inv(Next(s, Fill(r)))
  {
    hide Window, CycleOf, KindOf, LapBit;
    LapIs(|s.sent|);
    var t := s.trbs[s.enqueue].(parameter := r.parameter, status := r.status);
    SameCycle(s.trbs[s.enqueue], r);
    WindowFill(s.trbs, USABLE, s.sent, |s.taken|, t);
  }

  lemma SameCycle(t: Trb, r: Request)
    ensures CycleOf(t.(parameter := r.parameter, status := r.status)) == CycleOf(t)
  {
  }

  lemma PublishInv(s: System)
    requires Inv(s) && s.enqueue < TRB_COUNT && s.dequeue < TRB_COUNT && Enabled(s, Publish)
    ensures Inv(Next(s, Publish))
  {
    hide Window, CycleOf, KindOf, LapBit, LapCycle, SlotOf;
    var r := s.stage.request;
    var s' := Next(s, Publish);
    LapIs(|s.sent|);
    LapIs(|s.sent| + 1);
    Advance(|s.sent|, USABLE);
    WindowPush(s.trbs, USABLE, s.sent, |s.taken|, r);
    assert s'.trbs == s.trbs[SlotOf(|s.sent|, USABLE) := Stamp(r, LapCycle(|s.sent|, USABLE))];
    LapOfNext(|s.sent|);
  }

  /** 255 more requests, one more lap. */
  lemma LapOfNext(p: nat)
    ensures (p + 1) / USABLE == p / USABLE + (if (p + 1) % USABLE == 0 then 1 else 0)
    ensures p % USABLE + 1 == USABLE <==> (p + 1) % USABLE == 0
    ensures p % USABLE + 1 < USABLE ==> (p + 1) % USABLE == p % USABLE + 1
  {
  }

  lemma CloseInv(s: System)
    requires Inv(s) && s.enqueue < TRB_COUNT && s.dequeue < TRB_COUNT && Enabled(s, Close)
    ensures Inv(Next(s, Close))
  {
    hide Window, CycleOf, KindOf, LapBit, WithCycle;
    var k := LapsClosed(s);
    LapBitNext(k);
    LapBitNext(k - 1);
    LinkPassed(s.trbs[USABLE], LapBit(if k <= 0 then 0 else k - 1), s.cycle);
    WindowBeyond(s.trbs, USABLE, s.sent, |s.taken|, USABLE, WithCycle(s.trbs[USABLE], s.cycle));
  }

  lemma LapBitNext(k: int)
    ensures LapBit(k) < 2 && LapBit(k + 1) == 1 - LapBit(k) % 2 && LapBit(0) == 1
  {
  }

  lemma LinkPassed(link: Trb, bit: nat, cycle: nat)
    requires bit < 2 && link.control == LINK_CONTROL + bit
    ensures WithCycle(link, cycle).control == LINK_CONTROL + cycle && WithCycle(link, cycle).parameter == link.parameter
  {
  }

  lemma TakeInv(s: System)
    requires Inv(s) && s.enqueue < TRB_COUNT && s.dequeue < TRB_COUNT && Enabled(s, Take)
    ensures Inv(Next(s, Take)) && |s.taken| < |s.sent|
    ensures Next(s, Take).taken == s.taken + [s.sent[|s.taken|]]
  {
    hide Window, CycleOf, KindOf, LapBit, LapCycle, SlotOf, Stamp, Unstamp;
    NotTheLink(s);
    LapIs(|s.taken|);
    LapIs(|s.taken| + 1);
    LapOfNext(|s.taken|);
    Advance(|s.taken|, USABLE);
    WindowTest(s.trbs, USABLE, s.sent, |s.taken|);
    WindowTake(s.trbs, USABLE, s.sent, |s.taken|);
    StampReads(s.sent[|s.taken|], LapCycle(|s.taken|, USABLE));
  }

  /** The Link TRB is recognised as one. */
  lemma NotTheLink(s: System)
    requires Inv(s) && s.dequeue < TRB_COUNT && KindOf(s.trbs[s.dequeue].control) != LINK
    ensures AtSlot(s) && !AtLink(s) && s.dequeue < USABLE
  {
    hide Window, CycleOf;
  }

  lemma FollowInv(s: System)
    requires Inv(s) && s.enqueue < TRB_COUNT && s.dequeue < TRB_COUNT && Enabled(s, Follow)
    ensures Inv(Next(s, Follow)) && AtSlot(Next(s, Follow))
  {
    hide Window, LapCycle, SlotOf, Stamp;
    if AtSlot(s) {
      LapIs(|s.taken|);
      WindowTest(s.trbs, USABLE, s.sent, |s.taken|);
      SentKind(s);
      assert false;
    }
    LinkToggles(s);
  }

  lemma LinkToggles(s: System)
    requires LinkOk(s)
    ensures IsSlot(s.base, s.trbs[USABLE].parameter) && SlotAt(s.base, s.trbs[USABLE].parameter) == 0
    ensures s.trbs[USABLE].control / 2 % 2 == 1 && KindOf(s.trbs[USABLE].control) == LINK
  {
  }

  /** No request in a slot looks like a Link TRB. */
  lemma SentKind(s: System)
    requires Inv(s) && |s.taken| < |s.sent|
    ensures KindOf(s.trbs[SlotOf(|s.taken|, USABLE)].control) != LINK
  {
    hide LapCycle, SlotOf, Stamp, KindOf, CycleOf;
    assert InPlace(s.trbs, USABLE, s.sent, |s.taken|);
    StampReads(s.sent[|s.taken|], LapCycle(|s.taken|, USABLE));
  }

  lemma Bounds(s: System)
    requires Inv(s)
    ensures |s.trbs| == TRB_COUNT && s.enqueue < TRB_COUNT && s.dequeue < TRB_COUNT
  {
    hide Window, LapBit;
  }

  /** Every write of the driver and every action of the controller keeps the ring in order. */
  lemma NextInv(s: System, step: Step)
    requires Inv(s) && |s.trbs| == TRB_COUNT && s.enqueue < TRB_COUNT && s.dequeue < TRB_COUNT && Enabled(s, step)
    ensures Inv(Next(s, step))
  {
    hide Inv, Next;
    match step
    case Fill(r) => FillInv(s, r);
    case Publish => PublishInv(s);
    case Close => CloseInv(s);
    case Take => TakeInv(s);
    case Follow => FollowInv(s);
  }

  lemma SameBase(s: System, step: Step)
    requires |s.trbs| == TRB_COUNT && s.enqueue < TRB_COUNT && s.dequeue < TRB_COUNT && Enabled(s, step)
    ensures Next(s, step).base == s.base
  {
  }

  /** A run: steps in any order the two sides may take them. */
  ghost predicate Reachable(base: nat, s: System, steps: seq<Step>)
    decreases |steps|
  {
    if steps == [] then s == Start(base)
    else exists before ::
           && Reachable(base, before, steps[..|steps| - 1])
           && |before.trbs| == TRB_COUNT && before.enqueue < TRB_COUNT && before.dequeue < TRB_COUNT
           && Enabled(before, steps[|steps| - 1]) && s == Next(before, steps[|steps| - 1])
  }

  /** Over any run the controller has read exactly the first |taken| requests, each once and in order. */
  lemma {:induction false} RunInv(base: nat, s: System, steps: seq<Step>)
    requires Reachable(base, s, steps)
    ensures Inv(s) && s.base == base && s.taken == s.sent[..|s.taken|]
    decreases |steps|
  {
    hide Enabled, Next, Window, DriverOk, AtSlot, AtLink, LinkOk;
    if steps == [] {
      StartInv(base);
    } else {
      var before :| && Reachable(base, before, steps[..|steps| - 1])
                    && |before.trbs| == TRB_COUNT && before.enqueue < TRB_COUNT && before.dequeue < TRB_COUNT
                    && Enabled(before, steps[|steps| - 1]) && s == Next(before, steps[|steps| - 1]);
      RunInv(base, before, steps[..|steps| - 1]);
      NextInv(before, steps[|steps| - 1]);
      SameBase(before, steps[|steps| - 1]);
    }
  }

  /**
   * When the driver has finished its push, the controller stops exactly at the enqueue point: a step of
   * its own, or following the link first, is open to it if and only if a request is outstanding.
   */
  lemma ControllerProgress(s: System)
    requires Inv(s) && s.stage.Ready?
    ensures |s.trbs| == TRB_COUNT && s.enqueue < TRB_COUNT && s.dequeue < TRB_COUNT
    ensures AtSlot(s) ==> (Enabled(s, Take) <==> |s.taken| < |s.sent|)
    ensures AtLink(s) && !AtSlot(s) ==> Enabled(s, Follow) && !Enabled(s, Take)
    ensures Enabled(s, Follow) ==> AtSlot(Next(s, Follow)) && Next(s, Follow).sent == s.sent && Next(s, Follow).taken == s.taken
  {
    hide Window, LapCycle, SlotOf, Stamp, CycleOf;
    Bounds(s);
    LapIs(|s.taken|);
    WindowTest(s.trbs, USABLE, s.sent, |s.taken|);
    if |s.taken| < |s.sent| {
      SentKind(s);
    }
    if AtLink(s) && !AtSlot(s) {
      LinkWaits(s);
    }
    if Enabled(s, Follow) {
      FollowInv(s);
    }
  }

  /** A controller on the Link TRB of a finished lap finds its cycle bit there while fewer than 255 requests are outstanding. */
  lemma LinkWaits(s: System)
    requires Inv(s) && s.stage.Ready? && AtLink(s)
    ensures CycleOf(s.trbs[USABLE]) == s.consumerCycle && KindOf(s.trbs[USABLE].control) == LINK
    ensures IsSlot(s.base, s.trbs[USABLE].parameter)
  {
    hide Window;
    LinkToggles(s);
    SameLap(|s.taken|, |s.sent|);
  }

  lemma SameLap(c: nat, p: nat)
    requires c % USABLE == 0 && c <= p < c + USABLE
    ensures p / USABLE == c / USABLE
  {
  }

  // ---- The push as one operation ----

  datatype Producer = Producer(trbs: seq<Trb>, enqueue: nat, cycle: nat)

  /** Ring memory and the driver's cursor after cmd_ring_push or ep0_ring_push. */
  function Pushed(q: Producer, r: Request): Producer
    requires |q.trbs| == TRB_COUNT && q.enqueue < USABLE
  {
    var t := q.trbs[q.enqueue := Stamp(r, q.cycle)];
    if q.enqueue + 1 == USABLE then Producer(t[USABLE := WithCycle(t[USABLE], q.cycle)], 0, 1 - q.cycle % 2)
    else Producer(t, q.enqueue + 1, q.cycle)
  }

  function DriverOf(s: System): Producer {
    Producer(s.trbs, s.enqueue, s.cycle)
  }

  /** A whole push, while the controller looks on: three of the driver's steps at most, and the invariant again. */
  lemma PushSteps(s: System, r: Request) returns (s': System)
    requires Inv(s) && s.stage.Ready? && RequestOk(r) && |s.sent| + 1 < |s.taken| + USABLE
    ensures Inv(s') && s'.stage.Ready? && |s.trbs| == TRB_COUNT && s.enqueue < USABLE
    ensures DriverOf(s') == Pushed(DriverOf(s), r)
    ensures s'.sent == s.sent + [r] && s'.taken == s.taken && s'.dequeue == s.dequeue && s'.consumerCycle == s.consumerCycle
  {
    hide Inv, Window, KindOf, CycleOf, WithCycle;
    Bounds(s);
    ReadyIndex(s);
    FillInv(s, r);
    var s1 := Next(s, Fill(r));
    Bounds(s1);
    PublishInv(s1);
    var s2 := Next(s1, Publish);
    Bounds(s2);
    assert s2.trbs == s.trbs[s.enqueue := Stamp(r, s.cycle)];
    if s2.stage.Closing? {
      CloseInv(s2);
      s' := Next(s2, Close);
    } else {
      s' := s2;
    }
  }

  lemma ReadyIndex(s: System)
    requires Inv(s) && s.stage.Ready?
    ensures s.enqueue == |s.sent| % USABLE < USABLE && s.cycle < 2
  {
    hide Window, LinkOk;
  }

  ghost predicate Stuck(s: System) {
    |s.trbs| == TRB_COUNT && s.dequeue < TRB_COUNT && s.enqueue < TRB_COUNT && !Enabled(s, Take) && !Enabled(s, Follow)
  }

  /**
   * Why 254 is the limit. With 254 requests outstanding one more push fills the ring; the controller
   * can then never move again if and only if it still stood on the Link TRB.
   */
  lemma OneTooMany(s: System, r: Request)
    requires Inv(s) && s.stage.Ready? && RequestOk(r) && |s.sent| + 1 == |s.taken| + USABLE
    ensures |s.trbs| == TRB_COUNT && s.enqueue < USABLE
    ensures var q := Pushed(DriverOf(s), r);
            Stuck(s.(trbs := q.trbs, enqueue := q.enqueue, cycle := q.cycle, sent := s.sent + [r])) <==> AtLink(s)
  {
    hide Window, LapCycle, SlotOf, Stamp, WithCycle, KindOf, CycleOf, Pushed, LapBit;
    Bounds(s);
    ReadyIndex(s);
    var q := Pushed(DriverOf(s), r);
    var s' := s.(trbs := q.trbs, enqueue := q.enqueue, cycle := q.cycle, sent := s.sent + [r]);
    PushedPlaces(s, r);
    if AtLink(s) {
      FullAtLink(s, r);
    } else {
      LapIs(|s.taken|);
      SentKind(s);
      WindowTest(s.trbs, USABLE, s.sent, |s.taken|);
      WindowTake(s.trbs, USABLE, s.sent, |s.taken|);
      OtherSlot(|s.taken|, |s.sent|);
      assert q.trbs[s.dequeue] == s.trbs[s.dequeue];
    }
  }

  lemma PushedPlaces(s: System, r: Request)
    requires |s.trbs| == TRB_COUNT && s.enqueue < USABLE
    ensures var q := Pushed(DriverOf(s), r);
            && |q.trbs| == TRB_COUNT && q.enqueue < TRB_COUNT
            && (forall i :: 0 <= i < USABLE && i != s.enqueue ==> q.trbs[i] == s.trbs[i])
            && q.trbs[USABLE] == if s.enqueue + 1 == USABLE then WithCycle(s.trbs[USABLE], s.cycle) else s.trbs[USABLE]
  {
  }

  lemma OtherSlot(c: nat, p: nat)
    requires p + 1 == c + USABLE
    ensures p % USABLE != c % USABLE
  {
  }

  lemma FullAtLink(s: System, r: Request)
    requires Inv(s) && s.stage.Ready? && AtLink(s) && |s.sent| + 1 == |s.taken| + USABLE
    ensures s.enqueue + 1 == USABLE
    ensures CycleOf(WithCycle(s.trbs[USABLE], s.cycle)) != s.consumerCycle
    ensures KindOf(WithCycle(s.trbs[USABLE], s.cycle).control) == LINK
  {
    hide Window;
    SameLap(|s.taken|, |s.sent|);
  }

  // ---- A run that gets there ----

  lemma ReachMore(base: nat, s: System, steps: seq<Step>, step: Step)
    requires Reachable(base, s, steps)
    requires |s.trbs| == TRB_COUNT && s.enqueue < TRB_COUNT && s.dequeue < TRB_COUNT && Enabled(s, step)
    ensures Reachable(base, Next(s, step), steps + [step])
  {
    hide Enabled, Next;
    assert (steps + [step])[..|steps|] == steps;
  }

  /** A whole push, as steps of a run. */
  lemma PushReaches(base: nat, s: System, steps: seq<Step>, r: Request) returns (s': System, steps': seq<Step>)
    requires Reachable(base, s, steps) && s.stage.Ready? && RequestOk(r) && |s.sent| + 1 < |s.taken| + USABLE
    ensures Reachable(base, s', steps') && s'.stage.Ready? && s'.sent == s.sent + [r] && s'.taken == s.taken
    ensures s'.dequeue == s.dequeue && s'.consumerCycle == s.consumerCycle
  {
    hide Inv, Reachable, Window, KindOf, CycleOf, WithCycle;
    RunInv(base, s, steps);
    Bounds(s);
    ReadyIndex(s);
    ReachMore(base, s, steps, Fill(r));
    s', steps' := Next(s, Fill(r)), steps + [Fill(r)];
    RunInv(base, s', steps');
    Bounds(s');
    ReachMore(base, s', steps', Publish);
    s', steps' := Next(s', Publish), steps' + [Publish];
    RunInv(base, s', steps');
    Bounds(s');
    if s'.stage.Closing? {
      ReachMore(base, s', steps', Close);
      s', steps' := Next(s', Close), steps' + [Close];
    }
  }

  lemma {:induction false} PushMany(base: nat, s: System, steps: seq<Step>, r: Request, n: nat)
    returns (s': System, steps': seq<Step>)
    requires Reachable(base, s, steps) && s.stage.Ready? && RequestOk(r) && |s.sent| + n < |s.taken| + USABLE
    ensures Reachable(base, s', steps') && s'.stage.Ready? && |s'.sent| == |s.sent| + n && s'.taken == s.taken
    ensures s'.dequeue == s.dequeue && s'.consumerCycle == s.consumerCycle
    decreases n
  {
    hide Reachable, RequestOk;
    s', steps' := s, steps;
    if n > 0 {
      s', steps' := PushReaches(base, s, steps, r);
      s', steps' := PushMany(base, s', steps', r, n - 1);
    }
  }

  /** The controller reads n outstanding requests of one lap and ends behind them. */
  lemma {:induction false} TakeMany(base: nat, s: System, steps: seq<Step>, n: nat)
    returns (s': System, steps': seq<Step>)
    requires Reachable(base, s, steps) && s.stage.Ready? && |s.taken| + n <= |s.sent| && s.dequeue + n <= USABLE
    requires n > 0 ==> AtSlot(s)
    ensures Reachable(base, s', steps') && s'.stage.Ready? && |s'.taken| == |s.taken| + n && s'.sent == s.sent
    ensures s'.dequeue == s.dequeue + n && s'.consumerCycle == s.consumerCycle
    decreases n
  {
    hide Reachable, Inv, AtSlot, Enabled;
    s', steps' := s, steps;
    if n > 0 {
      RunInv(base, s, steps);
      ControllerProgress(s);
      TakeMoves(s);
      ReachMore(base, s, steps, Take);
      TakeInv(s);
      s', steps' := TakeMany(base, Next(s, Take), steps + [Take], n - 1);
    }
  }

  lemma TakeMoves(s: System)
    requires Inv(s) && AtSlot(s) && s.dequeue < USABLE
    requires |s.trbs| == TRB_COUNT && s.enqueue < TRB_COUNT && s.dequeue < TRB_COUNT && Enabled(s, Take)
    ensures Next(s, Take).dequeue == s.dequeue + 1 && Next(s, Take).stage == s.stage && Next(s, Take).sent == s.sent
    ensures Next(s, Take).consumerCycle == s.consumerCycle
    ensures s.dequeue + 1 < USABLE ==> AtSlot(Next(s, Take))
  {
    hide Inv, Enabled;
    LapOfNext(|s.taken|);
  }

  /**
   * The failing input: the controller reads the first lap and stays on the Link TRB while the driver
   * pushes 254 requests of the second. The next push leaves it stuck for good.
   */
  lemma OneTooManyHappens(base: nat, r: Request) returns (s: System, steps: seq<Step>)
    requires RequestOk(r)
    ensures Reachable(base, s, steps) && s.stage.Ready? && |s.sent| == |s.taken| + USABLE - 1
    ensures |s.trbs| == TRB_COUNT && s.enqueue < USABLE && AtLink(s)
    ensures var q := Pushed(DriverOf(s), r);
            Stuck(s.(trbs := q.trbs, enqueue := q.enqueue, cycle := q.cycle, sent := s.sent + [r]))
  {
    hide Reachable, Inv, RequestOk, Stuck, Pushed, Window;
    s, steps := Start(base), [];
    StartReachable(base);
    s, steps := PushMany(base, s, steps, r, USABLE - 1);
    s, steps := TakeMany(base, s, steps, USABLE - 1);
    s, steps := PushMany(base, s, steps, r, 1);
    s, steps := TakeMany(base, s, steps, 1);
    assert AtLink(s);
    s, steps := PushMany(base, s, steps, r, USABLE - 1);
    RunInv(base, s, steps);
    OneTooMany(s, r);
  }

  lemma StartReachable(base: nat)
    ensures Reachable(base, Start(base), [])
  {
  }

  // ---- The driver's code ----

  /** A register or context field that names TRB i of the ring and, in bit 0, the cycle bit to expect there. */
  predicate PointsTo(base: nat, pointer: nat, i: nat, cycle: nat) {
    var addr := pointer / TRB_SIZE * TRB_SIZE;
    IsSlot(base, addr) && SlotAt(base, addr) == i && pointer % 2 == cycle
  }

  lemma FirstSlot(base: nat)
    requires base % TRB_SIZE == 0
    ensures PointsTo(base, base + 1, 0, 1)
    ensures KindOf(LINK_CONTROL + 1) == LINK && (LINK_CONTROL + 1) / 2 % 2 == 1
  {
    SlotIs(base, 0);
    assert (base + 1) / TRB_SIZE * TRB_SIZE == base;
  }

  class TrbRing {
    const base: nat
    const trbs: array<Trb>
    var enqueueIndex: nat
    var cycle: nat

    /** What the controller is told in CRCR or in the endpoint's context: the ring's address and the cycle bit to expect. */
    const pointer: nat

    ghost predicate Valid()
      reads this
    {
      trbs.Length == TRB_COUNT && enqueueIndex < USABLE && cycle < 2
    }

    ghost function Driver(): Producer
      reads this, trbs
    {
      Producer(trbs[..], enqueueIndex, cycle)
    }

    /** The ring as xhci_init and the EP0 set-up leave it. */
    constructor (base: nat)
      requires base % TRB_SIZE == 0
      ensures Valid() && fresh(trbs) && this.base == base
      ensures Driver() == DriverOf(Start(base))
      ensures trbs[USABLE].parameter == base && KindOf(trbs[USABLE].control) == LINK && trbs[USABLE].control / 2 % 2 == 1
      ensures PointsTo(base, pointer, Start(base).dequeue, Start(base).consumerCycle)
    {
      hide PointsTo, KindOf;
      this.base := base;
      pointer := base + 1;
      trbs := new Trb[TRB_COUNT](_ => Trb(0, 0, 0));
      enqueueIndex, cycle := 0, 1;
      new;
      trbs[USABLE] := Trb(base, 0, LINK_CONTROL + 1);
      FirstSlot(base);
      assert trbs[..] == Start(base).trbs;
    }

    /** cmd_ring_push and ep0_ring_push: parameter, status, then the control word with the cycle bit; at the end of a lap the Link TRB. */
    method Push(parameter: nat, status: nat, control: nat) returns (trbAddress: nat)
      requires Valid() && control % 2 == 0
      modifies this`enqueueIndex, this`cycle, trbs
      ensures Valid() && |old(trbs[..])| == TRB_COUNT
      ensures Driver() == Pushed(old(Driver()), Request(parameter, status, control))
      ensures IsSlot(base, trbAddress) && SlotAt(base, trbAddress) == old(enqueueIndex)
    {
      hide IsSlot, SlotAt;
      SlotIs(base, enqueueIndex);
      ghost var before := trbs[..];
      var i := enqueueIndex;
      trbAddress := base + TRB_SIZE * i;
      trbs[i] := trbs[i].(parameter := parameter);
      trbs[i] := trbs[i].(status := status);
      trbs[i] := trbs[i].(control := control + cycle % 2);
      enqueueIndex := enqueueIndex + 1;
      if enqueueIndex == TRB_COUNT - 1 {
        var link := trbs[TRB_COUNT - 1];
        trbs[TRB_COUNT - 1] := link.(control := link.control - link.control % 2 + cycle % 2);
        enqueueIndex := 0;
        cycle := 1 - cycle % 2;
        assert trbs[..] == before[i := Stamp(Request(parameter, status, control), old(cycle))][USABLE := WithCycle(before[USABLE], old(cycle))];
      } else {
        assert trbs[..] == before[i := Stamp(Request(parameter, status, control), old(cycle))];
      }
    }
  }
}
