/** Whether a run's memory fits the machine: shares of it, the most a schedule holds at once, and admission. */
module Memory {
  import opened Integers
  import opened Wrappers
  import opened Control
  import opened Units

  datatype Budget = Budget(availableBytes: nat, groupLimitBytes: Option<nat>)

  function CeilingOf(budget: Budget): nat {
    match budget.groupLimitBytes
    case Some(limit) => if limit < budget.availableBytes then limit else budget.availableBytes
    case None => budget.availableBytes
  }

  /** The ceiling is the least of what is available and the group's limit, if there is one. */
  lemma CeilingIsLeast(budget: Budget)
    ensures CeilingOf(budget) <= budget.availableBytes
    ensures budget.groupLimitBytes.Some? ==> CeilingOf(budget) <= budget.groupLimitBytes.value
    ensures CeilingOf(budget) == budget.availableBytes || Some(CeilingOf(budget)) == budget.groupLimitBytes
  {
  }

  // ---- Shares -----------------------------------------------------------------------------------

  /** Whole hundreds first, then the remainder's share. */
  function ShareOf(ceiling: nat, percent: nat): nat {
    ceiling / 100 * percent + ceiling % 100 * percent / 100
  }

  lemma SplitDivision(x: nat, y: nat)
    ensures (x * 100 + y) / 100 == x + y / 100
  {
  }

  lemma SplitProduct(q: nat, r: nat, percent: nat)
    ensures (q * 100 + r) * percent == (q * percent) * 100 + r * percent
  {
  }

  lemma ShareIsSmaller(q: nat, percent: nat)
    requires percent <= 100
    ensures q * percent <= q * 100
  {
    assert q * (100 - percent) >= 0;
  }

  /** The split is the exact share rounded down, and no step of it passes the ceiling. */
  lemma ShareIsExact(ceiling: nat, percent: nat)
    requires percent <= 100
    ensures ShareOf(ceiling, percent) == ceiling * percent / 100 <= ceiling
    ensures ceiling / 100 * percent <= ceiling && ceiling % 100 * percent < 10000
  {
    var q, r := ceiling / 100, ceiling % 100;
    assert ceiling == q * 100 + r;
    SplitProduct(q, r, percent);
    SplitDivision(q * percent, r * percent);
    ShareIsSmaller(q, percent);
    ShareIsSmaller(r, percent);
  }

  function ResolveMemory(size: ByteSize, budget: Budget): Option<nat> {
    var ceiling := CeilingOf(budget);
    match size
    case Bytes(count) => if count > ceiling then None else Some(count)
    case Percent(whole) => Some(ShareOf(ceiling, whole))
  }

  /** Nothing resolves to more than the machine has. */
  lemma ResolvedFits(size: ByteSize, budget: Budget)
    requires size.Valid() && ResolveMemory(size, budget).Some?
    ensures ResolveMemory(size, budget).value <= CeilingOf(budget)
  {
    if size.Percent? {
      ShareIsExact(CeilingOf(budget), size.whole);
    }
  }

  // ---- Holdings over a schedule -------------------------------------------------------------------

  function Total(held: seq<nat>): nat {
    if held == [] then 0 else Total(held[..|held| - 1]) + held[|held| - 1]
  }

  function AtMost(n: nat, most: nat): nat {
    if n < most then n else most
  }

  /** Adding up, stopping at the largest word rather than wrapping. */
  method Saturated(held: seq<nat>) returns (total: nat)
    requires forall i :: 0 <= i < |held| ==> held[i] <= MAX_UINT64
    ensures total == AtMost(Total(held), MAX_UINT64)
  {
    total := 0;
    for i := 0 to |held|
      invariant total == AtMost(Total(held[..i]), MAX_UINT64)
    {
      assert held[..i + 1][..i] == held[..i];
      total := if held[i] > MAX_UINT64 - total then MAX_UINT64 else total + held[i];
    }
    assert held[..|held|] == held;
  }

  /** A Switch replaces its worker's footprint; other commands hold what was held. */
  function AfterCommands(held: seq<nat>, slot: nat, commands: seq<Command>): (r: seq<nat>)
    ensures |r| == |held|
  {
    if commands == [] then held
    else
      var before, last := AfterCommands(held, slot, commands[..|commands| - 1]), commands[|commands| - 1];
      if last.Switch? && slot < |held| then before[slot := last.footprintBytes] else before
  }

  function AfterOrders(held: seq<nat>, orders: seq<Order>): (r: seq<nat>)
    ensures |r| == |held|
  {
    if orders == [] then held
    else
      var last := orders[|orders| - 1];
      AfterCommands(AfterOrders(held, orders[..|orders| - 1]), last.slot, last.commands)
  }

  function AfterSteps(held: seq<nat>, steps: seq<Step>): (r: seq<nat>)
    ensures |r| == |held|
  {
    if steps == [] then held
    else AfterOrders(AfterSteps(held, steps[..|steps| - 1]), steps[|steps| - 1].orders)
  }

  /** The footprint of the last Switch among commands, if there is one. */
  function LastFootprint(commands: seq<Command>): Option<nat> {
    if commands == [] then None
    else
      match commands[|commands| - 1]
      case Switch(_, footprintBytes) => Some(footprintBytes)
      case _ => LastFootprint(commands[..|commands| - 1])
  }

  /** What a worker holds after commands: the footprint of the last Switch, or what it held. */
  function HeldAfter(held: nat, commands: seq<Command>): nat {
    match LastFootprint(commands)
    case Some(footprint) => footprint
    case None => held
  }

  lemma {:induction false} HeldAfterBoth(held: nat, a: seq<Command>, b: seq<Command>)
    ensures HeldAfter(held, a + b) == HeldAfter(HeldAfter(held, a), b)
  {
    if b == [] {
      assert a + b == a;
    } else {
      var n := |b| - 1;
      assert (a + b)[..|a| + n] == a + b[..n];
      HeldAfterBoth(held, a, b[..n]);
    }
  }

  lemma {:induction false} CommandsHold(held: seq<nat>, slot: nat, commands: seq<Command>, s: nat)
    requires s < |held|
    ensures AfterCommands(held, slot, commands)[s] == if s == slot then HeldAfter(held[s], commands) else held[s]
  {
    if commands != [] {
      CommandsHold(held, slot, commands[..|commands| - 1], s);
    }
  }

  lemma {:induction false} OrdersHold(held: seq<nat>, orders: seq<Order>, s: nat)
    requires s < |held|
    ensures AfterOrders(held, orders)[s] == HeldAfter(held[s], OrdersFor(orders, s))
  {
    if orders != [] {
      var n := |orders| - 1;
      var before, last := AfterOrders(held, orders[..n]), orders[n];
      OrdersHold(held, orders[..n], s);
      CommandsHold(before, last.slot, last.commands, s);
      HeldAfterBoth(held[s], OrdersFor(orders[..n], s), if last.slot == s then last.commands else []);
    }
  }

  /** After steps a worker holds the footprint of the last Switch they hand it, or what it held if there is none. */
  lemma {:induction false} HeldIsLastSwitch(held: seq<nat>, steps: seq<Step>, s: nat)
    requires s < |held|
    ensures |AfterSteps(held, steps)| == |held|
    ensures match LastFootprint(CommandsFor(steps, s))
            case Some(footprint) => AfterSteps(held, steps)[s] == footprint
            case None => AfterSteps(held, steps)[s] == held[s]
  {
    if steps != [] {
      var n := |steps| - 1;
      HeldIsLastSwitch(held, steps[..n], s);
      OrdersHold(AfterSteps(held, steps[..n]), steps[n].orders, s);
      HeldAfterBoth(held[s], CommandsFor(steps[..n], s), OrdersFor(steps[n].orders, s));
    }
  }

  predicate SmallCommands(commands: seq<Command>) {
    forall i :: 0 <= i < |commands| && commands[i].Switch? ==> commands[i].footprintBytes <= MAX_UINT64
  }

  predicate SmallOrders(orders: seq<Order>) {
    forall i :: 0 <= i < |orders| ==> SmallCommands(orders[i].commands)
  }

  /** Footprints are 64-bit words. */
  predicate SmallSteps(steps: seq<Step>) {
    forall i :: 0 <= i < |steps| ==> SmallOrders(steps[i].orders)
  }

  predicate SmallHeld(held: seq<nat>) {
    forall i :: 0 <= i < |held| ==> held[i] <= MAX_UINT64
  }

  method HoldOrders(held: seq<nat>, orders: seq<Order>) returns (next: seq<nat>)
    requires SmallHeld(held) && SmallOrders(orders)
    ensures next == AfterOrders(held, orders) && SmallHeld(next)
  {
    next := held;
    for i := 0 to |orders|
      invariant next == AfterOrders(held, orders[..i]) && SmallHeld(next)
    {
      assert orders[..i + 1][..i] == orders[..i];
      ghost var before := next;
      var slot, commands := orders[i].slot, orders[i].commands;
      assert SmallCommands(commands);
      for k := 0 to |commands|
        invariant next == AfterCommands(before, slot, commands[..k]) && SmallHeld(next)
      {
        assert commands[..k + 1][..k] == commands[..k];
        if commands[k].Switch? && slot < |next| {
          next := next[slot := commands[k].footprintBytes];
        }
      }
      assert commands[..|commands|] == commands;
    }
    assert orders[..|orders|] == orders;
  }

  /** What is held after the first k steps, added up. */
  function TotalAt(held: seq<nat>, steps: seq<Step>, k: nat): nat
    requires k <= |steps|
  {
    Total(AfterSteps(held, steps[..k]))
  }

  /** The most held after any number of steps, and the first number of steps after which it is. */
  method PeakOf(steps: seq<Step>, start: seq<nat>) returns (peak: nat, at: nat)
    requires SmallHeld(start) && SmallSteps(steps)
    ensures at <= |steps| && peak == AtMost(TotalAt(start, steps, at), MAX_UINT64)
    ensures forall k :: 0 <= k <= |steps| ==> AtMost(TotalAt(start, steps, k), MAX_UINT64) <= peak
    ensures forall k :: 0 <= k < at ==> AtMost(TotalAt(start, steps, k), MAX_UINT64) < peak
  {
    hide Total, AfterOrders;
    var held := start;
    assert steps[..0] == [];
    peak := Saturated(held);
    at := 0;
    for i := 0 to |steps|
      invariant held == AfterSteps(start, steps[..i]) && SmallHeld(held)
      invariant at <= i && peak == AtMost(TotalAt(start, steps, at), MAX_UINT64)
      invariant forall k :: 0 <= k <= i ==> AtMost(TotalAt(start, steps, k), MAX_UINT64) <= peak
      invariant forall k :: 0 <= k < at ==> AtMost(TotalAt(start, steps, k), MAX_UINT64) < peak
    {
      assert steps[..i + 1][..i] == steps[..i];
      assert SmallOrders(steps[i].orders);
      held := HoldOrders(held, steps[i].orders);
      var now := Saturated(held);
      assert now == AtMost(TotalAt(start, steps, i + 1), MAX_UINT64);
      if now > peak {
        peak, at := now, i + 1;
      }
    }
  }

  // ---- Admission ----------------------------------------------------------------------------------

  datatype Workload = Workload(enabled: bool, memory: Option<ByteSize>)

  /** A schedule may choose what the workers start as; empty: they start as configured. */
  datatype Schedule = Schedule(start: seq<nat>, steps: seq<Step>)

  datatype Refusal = WorkloadTooLarge | PastCeiling(total: nat) | LimitTooLarge | PastLimit(total: nat)

  /** What the enabled workloads are launched with, in slot order; none if one asks for more than there is. */
  function Launched(workloads: seq<Workload>, budget: Budget): Option<seq<nat>> {
    if workloads == [] then Some([])
    else
      var last := workloads[|workloads| - 1];
      match Launched(workloads[..|workloads| - 1], budget)
      case None => None
      case Some(before) =>
        if !last.enabled then Some(before)
        else if last.memory.None? then Some(before + [0])
        else
          match ResolveMemory(last.memory.value, budget)
          case None => None
          case Some(bytes) => Some(before + [bytes])
  }

  lemma {:induction false} LaunchedBefore(workloads: seq<Workload>, budget: Budget, k: nat)
    requires k <= |workloads| && Launched(workloads[..k], budget).None?
    ensures Launched(workloads, budget).None?
  {
    if k < |workloads| {
      var n := |workloads| - 1;
      assert workloads[..n][..k] == workloads[..k];
      LaunchedBefore(workloads[..n], budget, k);
    } else {
      assert workloads[..k] == workloads;
    }
  }

  lemma WrapOne(total: nat, wrapped: nat, more: nat)
    requires wrapped == total % WORD
    ensures (wrapped + more) % WORD == (total + more) % WORD
  {
  }

  lemma TotalGrows(held: seq<nat>, more: nat)
    ensures Total(held + [more]) == Total(held) + more
  {
    assert (held + [more])[..|held|] == held;
  }

  /** The launch sum wraps at the word, as the code's does. */
  method Launch(workloads: seq<Workload>, budget: Budget) returns (r: Option<(nat, seq<nat>)>)
    ensures r.Some? <==> Launched(workloads, budget).Some?
    ensures r.Some? ==> r.value.1 == Launched(workloads, budget).value && r.value.0 == Total(r.value.1) % WORD
  {
    hide ResolveMemory, Total;
    var total, launched := 0, [];
    NothingHeld();
    for i := 0 to |workloads|
      invariant Launched(workloads[..i], budget) == Some(launched)
      invariant total == Total(launched) % WORD
    {
      var workload := workloads[i];
      assert workloads[..i + 1][..i] == workloads[..i];
      if workload.enabled {
        if workload.memory.None? {
          TotalGrows(launched, 0);
          launched := launched + [0];
        } else {
          var resolved := ResolveMemory(workload.memory.value, budget);
          if resolved.None? {
            LaunchedBefore(workloads, budget, i + 1);
            return None;
          }
          TotalGrows(launched, resolved.value);
          WrapOne(Total(launched), total, resolved.value);
          total := (total + resolved.value) % WORD;
          launched := launched + [resolved.value];
        }
      }
    }
    assert workloads[..|workloads|] == workloads;
    return Some((total, launched));
  }

  lemma NothingHeld()
    ensures Total([]) == 0
  {
  }

  /** What the workers hold before the first step. */
  function StartOf(schedule: Schedule, launched: seq<nat>): seq<nat> {
    if schedule.start == [] then launched else schedule.start
  }

  /** A bound on memory: everything a run holds stays within it, by the sums the code makes. */
  predicate StaysWithin(launched: seq<nat>, schedule: Option<Schedule>, bound: nat) {
    && Total(launched) % WORD <= bound
    && (schedule.Some? ==>
          forall k :: 0 <= k <= |schedule.value.steps| ==>
            AtMost(TotalAt(StartOf(schedule.value, launched), schedule.value.steps, k), MAX_UINT64) <= bound)
  }

  predicate SmallSchedule(schedule: Option<Schedule>) {
    schedule.Some? ==> SmallHeld(schedule.value.start) && SmallSteps(schedule.value.steps)
  }

  lemma {:induction false} LaunchedIsSmall(workloads: seq<Workload>, budget: Budget)
    requires Launched(workloads, budget).Some? && CeilingOf(budget) <= MAX_UINT64
    requires forall i :: 0 <= i < |workloads| && workloads[i].memory.Some? ==> workloads[i].memory.value.Valid()
    ensures SmallHeld(Launched(workloads, budget).value)
  {
    hide ResolveMemory;
    if workloads != [] {
      var n := |workloads| - 1;
      LaunchedIsSmall(workloads[..n], budget);
      var last := workloads[n];
      if last.enabled && last.memory.Some? {
        ResolvedFits(last.memory.value, budget);
      }
    }
  }

  /** The larger of the launch sum and the schedule's peak. */
  method MostHeld(total: nat, launched: seq<nat>, schedule: Option<Schedule>) returns (most: nat)
    requires SmallHeld(launched) && SmallSchedule(schedule) && total == Total(launched) % WORD
    ensures forall bound: nat :: most <= bound <==> StaysWithin(launched, schedule, bound)
  {
    hide TotalAt, Total;
    most := total;
    if schedule.Some? {
      var held := if schedule.value.start != [] then schedule.value.start else launched;
      var peak, at := PeakOf(schedule.value.steps, held);
      assert held == StartOf(schedule.value, launched);
      if peak > most {
        most := peak;
      }
    }
  }

  /**
   What a run must stay within: the ceiling, and the configured limit if there is
   one; none if the limit is too large.
   */
  function BoundOf(limit: Option<ByteSize>, budget: Budget): Option<nat> {
    if limit.None? then Some(CeilingOf(budget))
    else
      match ResolveMemory(limit.value, budget)
      case None => None
      case Some(bytes) => Some(AtMost(bytes, CeilingOf(budget)))
  }

  predicate SizesAreValid(workloads: seq<Workload>) {
    forall i :: 0 <= i < |workloads| && workloads[i].memory.Some? ==> workloads[i].memory.value.Valid()
  }

  predicate Admitted(workloads: seq<Workload>, limit: Option<ByteSize>, budget: Budget, schedule: Option<Schedule>) {
    && Launched(workloads, budget).Some?
    && BoundOf(limit, budget).Some?
    && StaysWithin(Launched(workloads, budget).value, schedule, BoundOf(limit, budget).value)
  }

  /** Why a run is refused: the first of these in order, with the most it would hold. */
  ghost predicate Refuses(workloads: seq<Workload>, limit: Option<ByteSize>, budget: Budget,
                          schedule: Option<Schedule>, why: Refusal)
  {
    var launched := Launched(workloads, budget);
    match why
    case WorkloadTooLarge => launched.None?
    case PastCeiling(total) =>
      launched.Some? && total > CeilingOf(budget)
      && forall bound: nat :: total <= bound <==> StaysWithin(launched.value, schedule, bound)
    case LimitTooLarge =>
      launched.Some? && StaysWithin(launched.value, schedule, CeilingOf(budget))
      && limit.Some? && ResolveMemory(limit.value, budget).None?
    case PastLimit(total) =>
      launched.Some? && total <= CeilingOf(budget)
      && (forall bound: nat :: total <= bound <==> StaysWithin(launched.value, schedule, bound))
      && limit.Some? && ResolveMemory(limit.value, budget).Some? && total > ResolveMemory(limit.value, budget).value
  }

  method CheckMemory(workloads: seq<Workload>, limit: Option<ByteSize>, budget: Option<Budget>,
                     schedule: Option<Schedule>)
    returns (r: Result<(), Refusal>)
    requires budget.Some? ==> CeilingOf(budget.value) <= MAX_UINT64
    requires SizesAreValid(workloads) && SmallSchedule(schedule)
    ensures budget.None? ==> r.Ok?
    ensures budget.Some? ==> (r.Ok? <==> Admitted(workloads, limit, budget.value, schedule))
    ensures budget.Some? && r.Err? ==> Refuses(workloads, limit, budget.value, schedule, r.error)
  {
    hide ResolveMemory, StaysWithin, Launched, CeilingOf;
    if budget.None? {
      return Ok(());
    }
    var launch := Launch(workloads, budget.value);
    if launch.None? {
      return Err(WorkloadTooLarge);
    }
    LaunchedIsSmall(workloads, budget.value);
    var most := MostHeld(launch.value.0, launch.value.1, schedule);
    var ceiling := CeilingOf(budget.value);
    if most > ceiling {
      return Err(PastCeiling(most));
    }
    if limit.Some? {
      var resolved := ResolveMemory(limit.value, budget.value);
      if resolved.None? {
        return Err(LimitTooLarge);
      }
      if most > resolved.value {
        return Err(PastLimit(most));
      }
    }
    return Ok(());
  }

  /** A refusal's cause is the only one, and there is one only if the run is not admitted. */
  lemma RefusalIsExact(workloads: seq<Workload>, limit: Option<ByteSize>, budget: Budget, schedule: Option<Schedule>,
                       why: Refusal, other: Refusal)
    requires Refuses(workloads, limit, budget, schedule, why)
    ensures !Admitted(workloads, limit, budget, schedule)
    ensures Refuses(workloads, limit, budget, schedule, other) ==> other == why
  {
    hide ResolveMemory, StaysWithin, Launched, CeilingOf;
    var launched := Launched(workloads, budget);
    if launched.Some? && Refuses(workloads, limit, budget, schedule, other) {
      assert (why.PastCeiling? || why.PastLimit?) ==> StaysWithin(launched.value, schedule, why.total);
      assert (other.PastCeiling? || other.PastLimit?) ==> StaysWithin(launched.value, schedule, other.total);
      assert StaysWithin(launched.value, schedule, CeilingOf(budget)) || why.PastCeiling?;
    }
  }

  // ---- What admission is worth ----------------------------------------------------------------------

  /** What the workers hold, by exact sums: as launched, or at a schedule's start and after its every step. */
  predicate HeldWithin(launched: seq<nat>, schedule: Option<Schedule>, bound: nat) {
    match schedule
    case None => Total(launched) <= bound
    case Some(chosen) =>
      forall k :: 0 <= k <= |chosen.steps| ==> TotalAt(StartOf(chosen, launched), chosen.steps, k) <= bound
  }

  lemma SaturationIsExact(total: nat, bound: nat)
    requires bound <= MAX_UINT64
    ensures (AtMost(total, MAX_UINT64) <= bound <==> total <= bound) <==> (bound < MAX_UINT64 || total <= MAX_UINT64)
  {
  }

  /**
   With a ceiling below the largest word and a launch sum that fits one, a run
   is admitted exactly when all the workers hold at any time, and the configured
   footprints even if a schedule starts the workers as something else, are each
   within the ceiling and the limit.
   */
  lemma AdmissionIsExact(workloads: seq<Workload>, limit: Option<ByteSize>, budget: Budget, schedule: Option<Schedule>)
    requires CeilingOf(budget) < MAX_UINT64
    requires Launched(workloads, budget).Some? && Total(Launched(workloads, budget).value) < WORD
    ensures Admitted(workloads, limit, budget, schedule) <==>
            BoundOf(limit, budget).Some?
            && HeldWithin(Launched(workloads, budget).value, schedule, BoundOf(limit, budget).value)
            && Total(Launched(workloads, budget).value) <= BoundOf(limit, budget).value
  {
    hide ResolveMemory, Launched, TotalAt, Total;
    var launched := Launched(workloads, budget).value;
    if BoundOf(limit, budget).Some? {
      BoundIsWithinCeiling(limit, budget);
      var bound := BoundOf(limit, budget).value;
      if schedule.Some? {
        forall k | 0 <= k <= |schedule.value.steps|
          ensures var t := TotalAt(StartOf(schedule.value, launched), schedule.value.steps, k);
                  AtMost(t, MAX_UINT64) <= bound <==> t <= bound
        {
          SaturationIsExact(TotalAt(StartOf(schedule.value, launched), schedule.value.steps, k), bound);
        }
      }
    }
  }

  lemma StartIsHeld(launched: seq<nat>, schedule: Schedule)
    ensures TotalAt(StartOf(schedule, launched), schedule.steps, 0) == Total(StartOf(schedule, launched))
  {
    assert schedule.steps[..0] == [];
  }

  /** Where no schedule chooses the start, that is exactly that what the workers hold is within them. */
  lemma AdmissionIsOfWhatIsHeld(workloads: seq<Workload>, limit: Option<ByteSize>, budget: Budget,
                                schedule: Option<Schedule>)
    requires CeilingOf(budget) < MAX_UINT64 && (schedule.Some? ==> schedule.value.start == [])
    requires Launched(workloads, budget).Some? && Total(Launched(workloads, budget).value) < WORD
    ensures Admitted(workloads, limit, budget, schedule) <==>
            BoundOf(limit, budget).Some?
            && HeldWithin(Launched(workloads, budget).value, schedule, BoundOf(limit, budget).value)
  {
    hide Admitted, BoundOf, Launched, Total;
    AdmissionIsExact(workloads, limit, budget, schedule);
    if schedule.Some? {
      StartIsHeld(Launched(workloads, budget).value, schedule.value);
    }
  }

  lemma BoundIsWithinCeiling(limit: Option<ByteSize>, budget: Budget)
    requires BoundOf(limit, budget).Some?
    ensures BoundOf(limit, budget).value <= CeilingOf(budget)
  {
  }

  /** Without a schedule the launch sum wraps, and admission is right exactly when the wrapped sum tells. */
  lemma LaunchMustFit(workloads: seq<Workload>, limit: Option<ByteSize>, budget: Budget)
    requires CeilingOf(budget) <= MAX_UINT64
    requires Launched(workloads, budget).Some? && BoundOf(limit, budget).Some?
    ensures var total, bound := Total(Launched(workloads, budget).value), BoundOf(limit, budget).value;
            (Admitted(workloads, limit, budget, None) <==> total <= bound) <==> (total < WORD || total % WORD > bound)
  {
    hide Launched, Total, BoundOf, CeilingOf;
    BoundIsWithinCeiling(limit, budget);
    var total, bound := Total(Launched(workloads, budget).value), BoundOf(limit, budget).value;
    assert Admitted(workloads, limit, budget, None) <==> total % WORD <= bound;
    assert total < WORD ==> total % WORD == total;
  }

  /** With a schedule nothing is admitted past the bound, whatever the launch sum does. */
  lemma ScheduleIsSaturated(workloads: seq<Workload>, limit: Option<ByteSize>, budget: Budget,
                            schedule: Schedule, k: nat)
    requires CeilingOf(budget) < MAX_UINT64 && k <= |schedule.steps|
    requires Admitted(workloads, limit, budget, Some(schedule))
    ensures TotalAt(StartOf(schedule, Launched(workloads, budget).value), schedule.steps, k) <=
            BoundOf(limit, budget).value <= CeilingOf(budget)
  {
  }

  /** Two workloads of 2^63 bytes are admitted under a ceiling of 2^63: their sum wraps to nothing. */
  lemma WrappedSumIsAdmitted()
    ensures var half := WORD / 2;
            var workloads := [Workload(true, Some(Bytes(half))), Workload(true, Some(Bytes(half)))];
            var budget := Budget(half, None);
            && Launched(workloads, budget) == Some([half, half])
            && Total([half, half]) > CeilingOf(budget)
            && Admitted(workloads, None, budget, None)
  {
    hide Launched, Total;
    NothingHeld();
    var half := WORD / 2;
    var one := Workload(true, Some(Bytes(half)));
    var budget := Budget(half, None);
    assert ResolveMemory(Bytes(half), budget) == Some(half);
    var nothing: seq<nat> := [];
    NothingLaunched(budget);
    assert [] + [one] == [one] && [one] + [one] == [one, one];
    assert nothing + [half] == [half] && [half] + [half] == [half, half];
    OneMoreLaunched([], one, budget, nothing, half);
    OneMoreLaunched([one], one, budget, [half], half);
    TotalGrows(nothing, half);
    TotalGrows([half], half);
  }

  lemma NothingLaunched(budget: Budget)
    ensures Launched([], budget) == Some([])
  {
  }

  lemma OneMoreLaunched(workloads: seq<Workload>, next: Workload, budget: Budget, launched: seq<nat>, bytes: nat)
    requires Launched(workloads, budget) == Some(launched)
    requires next.enabled && next.memory.Some? && ResolveMemory(next.memory.value, budget) == Some(bytes)
    ensures Launched(workloads + [next], budget) == Some(launched + [bytes])
  {
    assert (workloads + [next])[..|workloads|] == workloads;
  }
}
