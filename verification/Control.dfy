/**
 What the controller can tell a running worker, and what a worker answers.
 */
module Control {

  datatype Command =
    | Stop
    | Pause
    | Resume
    | SetDuty(busyPermille: nat, periodNs: nat)
    | Rebind(cpus: seq<nat>)
    | Switch(workload: string, footprintBytes: nat)

  datatype AckStatus = Done | Refused

  datatype Ack = Ack(sequence: nat, status: AckStatus)

  datatype Message = Message(sequence: nat, command: Command)

  /** Commands for the worker of one slot. */
  datatype Order = Order(slot: nat, commands: seq<Command>)

  datatype Step = Step(atNs: int, orders: seq<Order>)

  /** What the orders hand one worker, in order. */
  function OrdersFor(orders: seq<Order>, slot: nat): seq<Command> {
    if orders == [] then []
    else
      var last := orders[|orders| - 1];
      OrdersFor(orders[..|orders| - 1], slot) + if last.slot == slot then last.commands else []
  }

  /** What the steps hand one worker, in order. */
  function CommandsFor(steps: seq<Step>, slot: nat): seq<Command> {
    if steps == [] then []
    else CommandsFor(steps[..|steps| - 1], slot) + OrdersFor(steps[|steps| - 1].orders, slot)
  }

  const PERMILLE := 1000

  /** How much of a period is busy: whole thousandths first, then the remainder's share. */
  function BusyNs(busyPermille: nat, periodNs: nat): nat {
    periodNs / PERMILLE * busyPermille + periodNs % PERMILLE * busyPermille / PERMILLE
  }

  /** How much of a period is idle: the time a worker on this duty may go without progress. */
  function IdleNs(busyPermille: nat, periodNs: nat): int {
    periodNs - BusyNs(busyPermille, periodNs)
  }

  /** Whether carrying the command out replaces the worker's runner. */
  predicate Replaces(what: Command) {
    what.Switch? || what.Rebind?
  }

  /** The split computation is the exact share, rounded down, so idle time is never negative. */
  lemma BusyIsExactShare(busyPermille: nat, periodNs: nat)
    ensures BusyNs(busyPermille, periodNs) == periodNs * busyPermille / PERMILLE
    ensures IdleNs(busyPermille, periodNs) == periodNs - periodNs * busyPermille / PERMILLE
    ensures busyPermille <= PERMILLE ==> 0 <= IdleNs(busyPermille, periodNs) <= periodNs
  {
  }
}
